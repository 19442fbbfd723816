/** What a letter of a command's format makes of an argument: while a call is compiled, where the
    argument's own words are emitted (parse_arg in src/cs_parser.cc), and at run time, where the
    argument has already become a value (exec_command in src/cs_vm.cc). */
module Conversions {
  import opened Words
  import opened Syntax
  import opened Eval
  import Filter
  import Sources

  /** One argument of a call. The text of a block is what the filter leaves of its source; `v` is what
      is found behind the `$` or what the expression results in. */
  datatype Supplied =
    | Bare(text: Text)
    | InQuotes(text: Text)
    | InBrackets(source: Text, text: Text)
    | EmptyParens
    | FromAlias(v: Value)
    | FromStatements(v: Value)

  /** An entry of the argument vector. Programs stand for code; a text that does not parse has none.
      The last two are not made from arguments: the identifier called, and how many arguments there are. */
  datatype Entry = Val(v: Value) | Float(x: real) | Program(body: List<Stmt>) | Broken | Name(text: Text) | Dummy
    | Own | Count(n: int)

  /** The host, and what it reads as floats. */
  datatype Readings = Readings(h: Host, float: Text -> real)

  predicate Usual(x: Supplied) {
    match x
    case Bare(text) => text != []
    case InBrackets(source, text) => Filter.Filtered(source, 0) == Some(text)
    case FromAlias(v) => v.Plain()
    case FromStatements(v) => v.Plain()
    case _ => true
  }

  /** The parser sees the source of a block through what Sources models: where it comes by white space,
      comments and continued lines, by words, strings and blocks, and what the text of a block within it
      is. All of this is the same for a harmless source and what the filter leaves of it
      (Sources.BlankTracks, WordTracks, TrackString, NestedText), so the program is. */
  ghost predicate ReadsThrough(h: Host) {
    forall source: Text, text: Text ::
      Sources.Harmless(source) && Filter.Filtered(source, 0) == Some(text) ==> h.parse(text) == h.parse(source)
  }

  /** Numbers are written so that they read as themselves, except that a statement that is only a
      negative number calls an alias by that name. */
  ghost predicate Numerals(c: Readings) {
    && c.h.limit > 0 && c.h.toInt([]) == 0 && c.float([]) == 0.0 && c.h.parse([]) == Some(Nil)
    && (forall i :: c.h.toInt(c.h.intText(i)) == i && c.float(c.h.intText(i)) == i as real && c.h.intText(i) != [])
    && (forall i :: 0 <= i ==> c.h.parse(c.h.intText(i)) == Some(Cons(IntStmt(i), Nil)))
    && (forall i :: i < 0 ==> ReadsAsCall(c.h, c.h.intText(i)))
  }

  ghost predicate ReadsAsCall(h: Host, t: Text) {
    exists id: nat :: !IsArgument(id) && h.parse(t) == Some(Cons(CallAlias(id, Nil), Nil))
  }

  function ProgramOf(h: Host, t: Text): Entry {
    match h.parse(t)
    case Some(body) => Program(body)
    case None => Broken
  }

  /** The value that the argument has if it is wanted as it is. */
  function AnyValue(h: Host, x: Supplied): Value {
    match x
    case Bare(text) => Str(text)
    case InQuotes(text) => Str(text)
    case InBrackets(_, text) => Str(text)
    case EmptyParens => NoValue
    case FromAlias(v) => Str(GetString(h, v))
    case FromStatements(v) => v
  }

  function GetFloat(c: Readings, v: Value): real {
    match v
    case Int(i) => i as real
    case Str(s) => c.float(s)
    case _ => 0.0
  }

  /** The COMPILE and COND instructions. */
  function CompiledValue(h: Host, v: Value): Entry {
    match v
    case Str(s) => ProgramOf(h, s)
    case Int(i) => Program(Cons(IntStmt(i), Nil))
    case _ => Program(Cons(Result(Paren(Nil)), Nil))
  }

  function CondValue(h: Host, v: Value): Entry {
    if !v.Str? then Val(v) else if v.s == [] then Val(NoValue) else CompiledValue(h, v)
  }

  /** parse_arg, with the kind of value that the letter stands for. */
  function AtCompileTime(c: Readings, letter: char, x: Supplied): Entry {
    if letter == 'i' then
      (match x
       case EmptyParens => Val(Int(c.h.toInt([])))
       case FromAlias(v) => Val(Int(GetInt(c.h, v)))
       case FromStatements(v) => Val(Int(GetInt(c.h, v)))
       case _ => Val(Int(c.h.toInt(x.text))))
    else if letter == 'f' then
      (match x
       case EmptyParens => Float(c.float([]))
       case FromAlias(v) => Float(GetFloat(c, v))
       case FromStatements(v) => Float(GetFloat(c, v))
       case _ => Float(c.float(x.text)))
    else if letter == 's' then
      (match x
       case EmptyParens => Val(Str([]))
       case FromAlias(v) => Val(Str(GetString(c.h, v)))
       case FromStatements(v) => Val(Str(GetString(c.h, v)))
       case _ => Val(Str(x.text)))
    else if letter == 'c' then
      (match x
       case EmptyParens => Val(NoValue)
       case FromAlias(v) => CondValue(c.h, v)
       case FromStatements(v) => CondValue(c.h, v)
       case InBrackets(source, _) => if source == [] then Val(NoValue) else ProgramOf(c.h, source)
       case _ => if x.text == [] then Val(NoValue) else ProgramOf(c.h, x.text))
    else if letter == 'b' then
      (match x
       case EmptyParens => Program(Nil)
       case FromAlias(v) => ProgramOf(c.h, GetString(c.h, v))
       case FromStatements(v) => CompiledValue(c.h, v)
       case InBrackets(source, _) => ProgramOf(c.h, source)
       case _ => ProgramOf(c.h, x.text))
    else if letter == 'v' then
      (match x
       case EmptyParens => Name([])
       case FromAlias(v) => Name(GetString(c.h, v))
       case FromStatements(v) => if v.Str? then Name(v.s) else Dummy
       case InBrackets(source, _) => if source == [] then Dummy else Name(source)
       case _ => Name(x.text))
    else Val(AnyValue(c.h, x))
  }

  /** exec_command, for a value on the stack. */
  function AtRunTime(c: Readings, letter: char, v: Value): Entry {
    if letter == 'i' then Val(Int(GetInt(c.h, v)))
    else if letter == 'f' then Float(GetFloat(c, v))
    else if letter == 's' then Val(Str(GetString(c.h, v)))
    else if letter == 'c' then
      if !v.Str? then Val(v) else if v.s == [] then Val(Int(0)) else ProgramOf(c.h, v.s)
    else if letter == 'b' then ProgramOf(c.h, GetString(c.h, v))
    else if letter == 'v' then Name(GetString(c.h, v))
    else Val(v)
  }

  // ---- the same entry ----

  /** Two programs that do the same wherever they are run. */
  ghost predicate SameProgram(h: Host, p: List<Stmt>, q: List<Stmt>) {
    forall depth: nat, env: Env :: depth <= h.limit ==> EvalBlock(h, p, depth, env) == EvalBlock(h, q, depth, env)
  }

  ghost predicate Alike(h: Host, a: Entry, b: Entry) {
    if a.Program? && b.Program? then SameProgram(h, a.body, b.body) else a == b
  }

  /** The arguments on which the two conversions differ. */
  predicate Differs(letter: char, x: Supplied) {
    if letter == 'c' then
      (match x
       case EmptyParens => false
       case FromAlias(v) => !v.Str? || v.s == []
       case FromStatements(v) => v == Str([])
       case _ => x.text == [])
    else if letter == 'b' then x.FromStatements? && x.v.Int? && x.v.i < 0
    else if letter == 'v' then
      (match x
       case InBrackets(source, text) => source == [] || source != text
       case FromStatements(v) => !v.Str?
       case _ => false)
    else false
  }

  /** A compiled call compiles a block from its source, a call at run time from what the filter leaves of
      it: these can be different programs. */
  ghost predicate Rewritten(h: Host, letter: char, x: Supplied) {
    (letter == 'b' || letter == 'c') && x.InBrackets? && !Alike(h, ProgramOf(h, x.source), ProgramOf(h, x.text))
  }

  /** For every letter, a call that is compiled and a call at run time turn an argument into the same
      entry, except: a condition from an empty text (no value when compiled, zero at run time) or from
      an alias that is not text; a block from an expression that results in a negative number; an
      identifier from a block or from an expression without text; and a block or condition in brackets
      whose program the filter has changed. */
  lemma LetterAlike(c: Readings, letter: char, x: Supplied)
    requires Numerals(c) && Usual(x)
    ensures Alike(c.h, AtCompileTime(c, letter, x), AtRunTime(c, letter, AnyValue(c.h, x)))
       <==> !Differs(letter, x) && !Rewritten(c.h, letter, x)
  {
    if letter == 'c' {
      ConditionAlike(c, x);
    } else if letter == 'b' {
      BlockAlike(c, x);
    } else if letter == 'v' {
    } else {
      NumberAlike(c, letter, x);
    }
  }

  lemma NumberAlike(c: Readings, letter: char, x: Supplied)
    requires Numerals(c) && Usual(x) && letter != 'c' && letter != 'b' && letter != 'v'
    ensures AtCompileTime(c, letter, x) == AtRunTime(c, letter, AnyValue(c.h, x))
    ensures !Rewritten(c.h, letter, x) && !AtCompileTime(c, letter, x).Program?
  {
  }

  lemma ConditionAlike(c: Readings, x: Supplied)
    requires Numerals(c) && Usual(x)
    ensures Alike(c.h, AtCompileTime(c, 'c', x), AtRunTime(c, 'c', AnyValue(c.h, x)))
       <==> !Differs('c', x) && !Rewritten(c.h, 'c', x)
  {
    hide EvalBlock, Filter.Filtered;
    if x.InBrackets? && x.source == [] {
      Filter.Nothing([]);
    }
    if x.FromAlias? && x.v.Int? {
      assert c.h.intText(x.v.i) != [];
    }
  }

  lemma BlockAlike(c: Readings, x: Supplied)
    requires Numerals(c) && Usual(x)
    ensures Alike(c.h, AtCompileTime(c, 'b', x), AtRunTime(c, 'b', AnyValue(c.h, x)))
       <==> !Differs('b', x) && !Rewritten(c.h, 'b', x)
  {
    hide EvalBlock, Filter.Filtered;
    if x.FromStatements? && x.v.Int? {
      if x.v.i < 0 {
        NegativeDiffers(c, x.v.i);
      } else {
        assert c.h.parse(c.h.intText(x.v.i)) == Some(Cons(IntStmt(x.v.i), Nil));
      }
    } else if x.FromStatements? && !x.v.Str? {
      NullIsNil(c.h);
    }
  }

  lemma NullIsNil(h: Host)
    ensures SameProgram(h, Cons(Result(Paren(Nil)), Nil), Nil)
  {
    var none: List<Stmt> := Cons(Result(Paren(Nil)), Nil);
    forall depth: nat, env: Env | depth <= h.limit
      ensures EvalBlock(h, none, depth, env) == EvalBlock(h, Nil, depth, env)
    {
      NullMeans(h, depth, env);
    }
  }

  lemma NullMeans(h: Host, depth: nat, env: Env)
    requires depth <= h.limit
    ensures EvalBlock(h, Cons(Result(Paren(Nil)), Nil), depth, env) == EvalBlock(h, Nil, depth, env)
  {
    var none: List<Stmt> := Cons(Result(Paren(Nil)), Nil);
    if depth < h.limit {
      assert EvalArg(h, Paren(Nil), Any, depth + 1, NoValue, env) == Ok(Ready(NoValue), NoValue, env);
      assert EvalStmt(h, none.head, depth + 1, NoValue, env) == Ok((), NoValue, env);
      assert EvalStmts(h, Nil, depth + 1, NoValue, env) == Ok((), NoValue, env);
      assert EvalStmts(h, none, depth + 1, NoValue, env) == Ok((), NoValue, env);
    }
  }

  /** A negative number is a value when compiled, and at run time an alias that does not exist. */
  lemma NegativeDiffers(c: Readings, i: Int32)
    requires Numerals(c) && i < 0
    ensures ProgramOf(c.h, c.h.intText(i)).Program?
    ensures !SameProgram(c.h, Cons(IntStmt(i), Nil), ProgramOf(c.h, c.h.intText(i)).body)
  {
    hide EvalBlock;
    assert ReadsAsCall(c.h, c.h.intText(i));
    var id: nat :| !IsArgument(id) && c.h.parse(c.h.intText(i)) == Some(Cons(CallAlias(id, Nil), Nil));
    var env := Env(map[], Frame(true, map[], false), {});
    NumberMeans(c.h, i, env);
    UnknownMeans(c.h, id, Nil, [], env);
  }

  lemma NumberMeans(h: Host, i: Int32, env: Env)
    requires h.limit > 0
    ensures EvalBlock(h, Cons(IntStmt(i), Nil), 0, env) == Ok(Int(i), NoValue, env)
  {
    assert EvalStmts(h, Nil, 1, Int(i), env) == Ok((), Int(i), env);
    assert EvalStmts(h, Cons(IntStmt(i), Nil), 1, NoValue, env) == Ok((), Int(i), env);
  }

  lemma UnknownMeans(h: Host, id: nat, ps: List<Param>, xs: seq<Operand>, env: Env)
    requires h.limit > 0 && !IsArgument(id) && env.store == map[]
    requires (ps == Nil && xs == [])
             || (ps.Cons? && ps.tail == Nil && ps.head.want == Any && ps.head.arg.Literal?
                 && xs == [Ready(Str(ps.head.arg.text))])
    ensures EvalBlock(h, Cons(CallAlias(id, ps), Nil), 0, env) == Fail(UnknownCommand(id), env)
  {
    hide EvalCall;
    var call := CallAlias(id, ps);
    if ps == Nil {
      assert EvalParams(h, Nil, 1, NoValue, env) == Ok([], NoValue, env);
    } else {
      OneLiteral(h, ps.head.arg, env);
    }
    NoAlias(h, id, Values(xs), env);
    assert EvalStmt(h, call, 1, NoValue, env) == Fail(UnknownCommand(id), env);
    assert EvalStmts(h, Cons(call, Nil), 1, NoValue, env) == Fail(UnknownCommand(id), env);
  }

  /** The input: `""` as a condition. Compiled it is no value, at run time the number zero. */
  lemma EmptyCondition(c: Readings)
    ensures AtCompileTime(c, 'c', InQuotes([])) == Val(NoValue)
    ensures AtRunTime(c, 'c', AnyValue(c.h, InQuotes([]))) == Val(Int(0))
    ensures Differs('c', InQuotes([]))
  {
  }

  /** A harmless source is the same program as what the filter leaves of it. */
  lemma HarmlessAlike(c: Readings, letter: char, x: Supplied)
    requires Numerals(c) && Usual(x) && ReadsThrough(c.h) && (x.InBrackets? ==> Sources.Harmless(x.source))
    ensures !Rewritten(c.h, letter, x)
    ensures Alike(c.h, AtCompileTime(c, letter, x), AtRunTime(c, letter, AnyValue(c.h, x))) <==> !Differs(letter, x)
  {
    hide Numerals, Differs, AtCompileTime, AtRunTime, AnyValue, EvalBlock, Sources.Harmless, Filter.Filtered;
    LetterAlike(c, letter, x);
  }

  /** The input: `[foo<CR>bar]`. Compiled it calls foo with an argument, at run time it calls foobar. */
  lemma JoinedCalls(c: Readings, f: nat, g: nat, arg: Arg)
    requires c.h.limit > 0 && !IsArgument(f) && !IsArgument(g) && f != g && arg.Literal?
    requires c.h.parse("foo\rbar") == Some(Cons(CallAlias(f, Cons(Param(Any, arg), Nil)), Nil))
    requires c.h.parse("foobar") == Some(Cons(CallAlias(g, Nil), Nil))
    ensures var x := InBrackets("foo\rbar", "foobar");
            && Usual(x) && !Sources.Harmless(x.source) && Rewritten(c.h, 'b', x) && Rewritten(c.h, 'c', x)
            && !Alike(c.h, AtCompileTime(c, 'b', x), AtRunTime(c, 'b', AnyValue(c.h, x)))
            && !Alike(c.h, AtCompileTime(c, 'c', x), AtRunTime(c, 'c', AnyValue(c.h, x)))
  {
    hide EvalBlock, Filter.Filtered, Sources.Harmless;
    Sources.JoinedWords();
    var env := Env(map[], Frame(true, map[], false), {});
    UnknownMeans(c.h, f, Cons(Param(Any, arg), Nil), [Ready(Str(arg.text))], env);
    UnknownMeans(c.h, g, Nil, [], env);
  }

  /** The input: `[f \<CR><LF> g]`. Compiled these are two calls, at run time one. With an f that does
      nothing and without g, the first fails and the other does not. */
  lemma ContinuedCalls(c: Readings, f: nat, g: nat, arg: Arg)
    requires c.h.limit > 1 && !IsArgument(f) && !IsArgument(g) && f != g && arg.Literal? && c.h.parse([]) == Some(Nil)
    requires c.h.parse("f \\\r\n g") == Some(Cons(CallAlias(f, Nil), Cons(CallAlias(g, Nil), Nil)))
    requires c.h.parse("f \\\n g") == Some(Cons(CallAlias(f, Cons(Param(Any, arg), Nil)), Nil))
    ensures var x := InBrackets("f \\\r\n g", "f \\\n g");
            && Usual(x) && !Sources.Harmless(x.source) && Rewritten(c.h, 'b', x)
            && !Alike(c.h, AtCompileTime(c, 'b', x), AtRunTime(c, 'b', AnyValue(c.h, x)))
  {
    hide EvalBlock, Filter.Filtered, Sources.Harmless;
    Sources.ContinuedLine();
    var env := Env(map[f := Alias(Str([]), {})], Frame(true, map[], false), {});
    SecondUnknown(c.h, f, g, env);
    EmptyCallMeans(c.h, f, arg, env);
  }

  lemma EmptyCall(h: Host, f: nat, args: seq<Value>, env: Env)
    requires h.limit > 1 && !IsArgument(f) && env == Env(map[f := Alias(Str([]), {})], Frame(true, map[], false), {})
    requires h.parse([]) == Some(Nil)
    ensures EvalCall(h, f, args, 1, env) == Ok(NoValue, NoValue, env)
  {
    assert EvalStmts(h, Nil, 2, NoValue, Called(env, f, args)) == Ok((), NoValue, Called(env, f, args));
    assert EvalBlock(h, Nil, 1, Called(env, f, args)) == Ok(NoValue, NoValue, Called(env, f, args));
  }

  lemma EmptyCallMeans(h: Host, f: nat, arg: Arg, env: Env)
    requires h.limit > 1 && !IsArgument(f) && env == Env(map[f := Alias(Str([]), {})], Frame(true, map[], false), {})
    requires h.parse([]) == Some(Nil) && arg.Literal?
    ensures EvalBlock(h, Cons(CallAlias(f, Cons(Param(Any, arg), Nil)), Nil), 0, env) == Ok(NoValue, NoValue, env)
  {
    hide EvalCall;
    var ps, xs := Cons(Param(Any, arg), Nil), [Ready(Str(arg.text))];
    OneLiteral(h, arg, env);
    EmptyCall(h, f, Values(xs), env);
    assert EvalStmt(h, CallAlias(f, ps), 1, NoValue, env) == Ok((), NoValue, env);
    assert EvalStmts(h, Nil, 1, NoValue, env) == Ok((), NoValue, env);
    assert EvalStmts(h, Cons(CallAlias(f, ps), Nil), 1, NoValue, env) == Ok((), NoValue, env);
  }

  lemma OneLiteral(h: Host, arg: Arg, env: Env)
    requires h.limit > 0 && arg.Literal?
    ensures EvalParams(h, Cons(Param(Any, arg), Nil), 1, NoValue, env) == Ok([Ready(Str(arg.text))], NoValue, env)
  {
    assert EvalArg(h, arg, Any, 1, NoValue, env) == Ok(Ready(Str(arg.text)), NoValue, env);
    assert EvalParams(h, Nil, 1, NoValue, env) == Ok([], NoValue, env);
    assert [Ready(Str(arg.text))] + [] == [Ready(Str(arg.text))];
  }

  lemma SecondUnknown(h: Host, f: nat, g: nat, env: Env)
    requires h.limit > 1 && !IsArgument(f) && !IsArgument(g) && f != g && h.parse([]) == Some(Nil)
    requires env == Env(map[f := Alias(Str([]), {})], Frame(true, map[], false), {})
    ensures EvalBlock(h, Cons(CallAlias(f, Nil), Cons(CallAlias(g, Nil), Nil)), 0, env) == Fail(UnknownCommand(g), env)
  {
    hide EvalCall;
    var first, second := CallAlias(f, Nil), CallAlias(g, Nil);
    EmptyCall(h, f, Values([]), env);
    assert EvalCall(h, g, Values([]), 1, env) == Fail(UnknownCommand(g), env) by { NoAlias(h, g, Values([]), env); }
    assert EvalParams(h, Nil, 1, NoValue, env) == Ok([], NoValue, env);
    assert EvalStmt(h, first, 1, NoValue, env) == Ok((), NoValue, env);
    assert EvalStmt(h, second, 1, NoValue, env) == Fail(UnknownCommand(g), env);
    assert EvalStmts(h, Cons(second, Nil), 1, NoValue, env) == Fail(UnknownCommand(g), env);
    assert EvalStmts(h, Cons(first, Cons(second, Nil)), 1, NoValue, env) == Fail(UnknownCommand(g), env);
  }

  lemma NoAlias(h: Host, g: nat, args: seq<Value>, env: Env)
    requires h.limit > 0 && !IsArgument(g) && g !in env.store
    ensures EvalCall(h, g, args, 1, env) == Fail(UnknownCommand(g), env)
  {
  }

  // ---- what compiled arguments mean ----

  function WantOf(letter: char): Want {
    match letter
    case 's' => AsString
    case 'i' => AsInt
    case 'c' => AsCond
    case 'b' => AsCode
    case _ => Any
  }

  /** `x` is what the syntax supplies at this point of the run, up to the errors of its statements. */
  ghost predicate Supplies(h: Host, a: Arg, x: Supplied, depth: nat, r: Value, env: Env)
    requires depth <= h.limit
  {
    match a
    case Absent => false
    case Literal(spelling, text, body) =>
      (match spelling
       case Word => x == Bare(text) && text != [] && h.parse(text) == Some(body)
       case Quoted => x == InQuotes(text) && h.parse(text) == Some(body)
       case Bracketed => x.InBrackets? && x.source != [] && x.text == text && h.parse(x.source) == Some(body)
       case Hollow => x == InBrackets([], []) && text == [] && body == Nil)
    case Lookup(id) => x.FromAlias? && Find(env, id) == Got(x.v)
    case Paren(stmts) =>
      if stmts == Nil then x == EmptyParens
      else x.FromStatements? && EvalStmts(h, stmts, depth, r, env).Ok? && EvalStmts(h, stmts, depth, r, env).r == x.v
  }

  ghost predicate Becomes(e: Entry, a: Answer<Operand>) {
    match e
    case Val(v) => a.Ok? && a.x == Ready(v)
    case Program(body) => a.Ok? && a.x == Delayed(body)
    case Broken => a.Fail? && a.e == SyntaxError
    case _ => false
  }

  /** The conversions of compiled calls are the meaning that the emitted words are proved to have. */
  lemma CompiledMeans(c: Readings, a: Arg, letter: char, x: Supplied, depth: nat, r: Value, env: Env)
    requires depth <= c.h.limit && Supplies(c.h, a, x, depth, r, env) && c.h.parse([]) == Some(Nil) && Usual(x)
    requires letter == 'i' || letter == 's' || letter == 'a' || letter == 'c' || letter == 'b'
    ensures Becomes(AtCompileTime(c, letter, x), EvalArg(c.h, a, WantOf(letter), depth, r, env))
    ensures Becomes(Val(AnyValue(c.h, x)), EvalArg(c.h, a, Any, depth, r, env))
  {
    hide EvalStmts;
  }
}
