/** The meaning of the fragment, stated on the syntax: no words, no stack, no jumps. */
module Eval {
  import opened Words
  import opened Syntax

  /** An argument is either a value or code that has not been run yet. */
  datatype Operand = Ready(v: Value) | Delayed(body: List<Stmt>)

  /** `r` is the result register: it survives from one statement to the next, and
      `(...)` takes it away. */
  datatype Answer<+T> = Ok(x: T, r: Value, env: Env) | Fail(e: Error, env: Env)

  /** Text, numbers and nothing all stand for code, once it is asked for. */
  function Compiled(h: Host, v: Value, r: Value, env: Env): Answer<Operand> {
    match v
    case Str(s) =>
      (match h.parse(s)
       case Some(ss) => Ok(Delayed(ss), r, env)
       case None => Fail(SyntaxError, env))
    case Int(i) => Ok(Delayed(Cons(IntStmt(i), Nil)), r, env)
    case _ => Ok(Delayed(Cons(Result(Paren(Nil)), Nil)), r, env)
  }

  /** Turn a value into what was asked for. */
  function Convert(h: Host, v: Value, want: Want, r: Value, env: Env): Answer<Operand> {
    match want
    case Any => Ok(Ready(v), r, env)
    case AsString => Ok(Ready(Str(GetString(h, v))), r, env)
    case AsInt => Ok(Ready(Int(GetInt(h, v))), r, env)
    case AsCode => Compiled(h, v, r, env)
    case AsCond =>
      if !v.Str? then Ok(Ready(v), r, env)
      else if v.s == [] then Ok(Ready(NoValue), r, env)
      else Compiled(h, v, r, env)
  }

  /** `()` */
  function Nothing(h: Host, want: Want): Operand {
    match want
    case AsString => Ready(Str([]))
    case AsInt => Ready(Int(h.toInt([])))
    case AsCode => Delayed(Nil)
    case _ => Ready(NoValue)
  }

  function EvalArg(h: Host, a: Arg, want: Want, depth: nat, r: Value, env: Env): Answer<Operand>
    requires depth <= h.limit
    decreases h.limit - depth, 1, a
  {
    match a
    case Absent => Ok(Ready(NoValue), r, env)
    case Literal(spelling, text, body) =>
      (match want
       case AsInt => Ok(Ready(Int(h.toInt(text))), r, env)
       case AsCode => Ok(Delayed(body), r, env)
       case AsCond => Ok(if NoText(spelling, text) then Ready(NoValue) else Delayed(body), r, env)
       case _ => Ok(Ready(Str(text)), r, env))
    case Lookup(id) =>
      (match Find(env, id)
       case Missed(e) => Fail(e, env)
       case Got(v) =>
         // a lookup reads as text, unless a number or a condition is wanted
         Convert(h, if want == AsInt || want == AsCond then v else Str(GetString(h, v)), want, r, env))
    case Paren(stmts) =>
      if stmts == Nil then Ok(Nothing(h, want), r, env) else
      match EvalStmts(h, stmts, depth, r, env)
      case Fail(e, env') => Fail(e, env')
      case Ok(_, r', env') => Convert(h, r', want, NoValue, env')
  }

  function EvalParams(h: Host, ps: List<Param>, depth: nat, r: Value, env: Env): Answer<seq<Operand>>
    requires depth <= h.limit
    decreases h.limit - depth, 1, ps
  {
    match ps
    case Nil => Ok([], r, env)
    case Cons(p, rest) =>
      match EvalArg(h, p.arg, p.want, depth, r, env)
      case Fail(e, env') => Fail(e, env')
      case Ok(x, r', env') =>
        match EvalParams(h, rest, depth, r', env')
        case Fail(e, env'') => Fail(e, env'')
        case Ok(xs, r'', env'') => Ok([x] + xs, r'', env'')
  }

  function EvalStmts(h: Host, ss: List<Stmt>, depth: nat, r: Value, env: Env): Answer<()>
    requires depth <= h.limit
    decreases h.limit - depth, 1, ss
  {
    match ss
    case Nil => Ok((), r, env)
    case Cons(s, rest) =>
      match EvalStmt(h, s, depth, r, env)
      case Fail(e, env') => Fail(e, env')
      case Ok(_, r', env') => EvalStmts(h, rest, depth, r', env')
  }

  /** The meaning of the arms in the patched form: an empty true arm is skipped. */
  function EvalArms(h: Host, s: Stmt, depth: nat, r: Value, env: Env, c: Value): Answer<Value>
    requires depth <= h.limit && s.If?
    decreases h.limit - depth, 1, s, 1
  {
    if Skipped(s.thn, s.els) && GetBool(h, c) then Ok(NoValue, NoValue, env)
    else EvalPushedArms(h, s, depth, r, env, c)
  }

  /** The meaning of the `if` command: both arms are evaluated, and then the one that the
      condition picks is run. */
  function EvalPushedArms(h: Host, s: Stmt, depth: nat, r: Value, env: Env, c: Value): Answer<Value>
    requires depth <= h.limit && s.If?
    decreases h.limit - depth, 1, s, 0
  {
    match EvalArg(h, s.thn, AsCode, depth, r, env)
    case Fail(e, env') => Fail(e, env')
    case Ok(t, r', env') =>
      match EvalArg(h, s.els, AsCode, depth, r', env')
      case Fail(e, env'') => Fail(e, env'')
      case Ok(f, _, env'') => EvalOperand(h, if GetBool(h, c) then t else f, depth, env'')
  }

  function EvalStmt(h: Host, s: Stmt, depth: nat, r: Value, env: Env): Answer<()>
    requires depth <= h.limit
    decreases h.limit - depth, 1, s, 2
  {
    match s
    case Assign(id, arg) =>
      if arg == Absent then Assigned(env, id, Str([]), r) else
      (match EvalArg(h, arg, Any, depth, r, env)
       case Fail(e, env') => Fail(e, env')
       case Ok(x, r', env') => Assigned(env', id, ValueOf(x), r'))
    case Result(arg) =>
      if arg == Absent then Ok((), NoValue, env) else
      (match EvalArg(h, arg, Any, depth, r, env)
       case Fail(e, env') => Fail(e, env')
       case Ok(x, _, env') => Ok((), ValueOf(x), env'))
    case Not(arg) =>
      if arg == Absent then Ok((), Int(1), env) else
      (match EvalArg(h, arg, Any, depth, r, env)
       case Fail(e, env') => Fail(e, env')
       case Ok(x, _, env') => Ok((), Int(if GetBool(h, ValueOf(x)) then 0 else 1), env'))
    case Do(arg) =>
      if arg == Absent then Ok((), NoValue, env) else
      (match EvalArg(h, arg, AsCode, depth, r, env)
       case Fail(e, env') => Fail(e, env')
       case Ok(x, _, env') => Finished(EvalOperand(h, x, depth, env')))
    case If(cond, thn, els) =>
      (match EvalArg(h, cond, Any, depth, r, env)
       case Fail(e, env') => Fail(e, env')
       case Ok(c, r', env') => Finished(EvalArms(h, s, depth, r', env', ValueOf(c))))
    case AndOr(isOr, ps) =>
      (match EvalParams(h, ps, depth, r, env)
       case Fail(e, env') => Fail(e, env')
       case Ok(xs, _, env') => Finished(EvalChain(h, isOr, xs, depth, env')))
    case Command(id, _, ps) =>
      (match EvalParams(h, ps, depth, r, env)
       case Fail(e, env') => Fail(e, env')
       case Ok(xs, _, env') =>
         match h.command(id, Values(xs), env')
         case Failure(e, env'') => Fail(e, env'')
         case Success(v, env'') => Ok((), v, env''))
    case CallAlias(id, ps) =>
      (match EvalParams(h, ps, depth, r, env)
       case Fail(e, env') => Fail(e, env')
       case Ok(xs, _, env') => Finished(EvalCall(h, id, Values(xs), depth, env')))
    case IntStmt(i) => Ok((), Int(i), env)
    case StrStmt(t) => Ok((), Str(t), env)
  }

  function Assigned(env: Env, id: nat, v: Value, r: Value): Answer<()> {
    if Lost(env, id) then Fail(Unspecified(id), env) else Ok((), r, Bind(env, id, v))
  }

  function ValueOf(x: Operand): Value { if x.Ready? then x.v else NoValue }

  function Values(xs: seq<Operand>): (vs: seq<Value>)
    ensures |vs| == |xs|
  {
    seq(|xs|, i requires 0 <= i < |xs| => ValueOf(xs[i]))
  }

  /** The value of what was run becomes the result. */
  function Finished(a: Answer<Value>): Answer<()> {
    match a
    case Ok(v, _, env) => Ok((), v, env)
    case Fail(e, env) => Fail(e, env)
  }

  /** Run statements one level deeper, starting without a result. */
  function EvalBlock(h: Host, body: List<Stmt>, depth: nat, env: Env): Answer<Value>
    requires depth <= h.limit
    decreases h.limit - depth, 0, 0
  {
    if depth >= h.limit then Fail(RecursionLimit, env) else
    match EvalStmts(h, body, depth + 1, NoValue, env)
    case Ok(_, v, env') => Ok(v, NoValue, env')
    case Fail(e, env') => Fail(e, env')
  }

  function EvalOperand(h: Host, x: Operand, depth: nat, env: Env): Answer<Value>
    requires depth <= h.limit
    decreases h.limit - depth, 0, 1
  {
    match x
    case Ready(v) => Ok(v, NoValue, env)
    case Delayed(body) => EvalBlock(h, body, depth, env)
  }

  /** `&&` stops at the first false result and `||` at the first true one. */
  function EvalChain(h: Host, isOr: bool, xs: seq<Operand>, depth: nat, env: Env): Answer<Value>
    requires depth <= h.limit
    decreases h.limit - depth, 0, 2 + |xs|
  {
    if xs == [] then Ok(Int(if isOr then 0 else 1), NoValue, env) else
    match EvalOperand(h, xs[0], depth, env)
    case Fail(e, env') => Fail(e, env')
    case Ok(v, _, env') =>
      if GetBool(h, v) == isOr || |xs| == 1 then Ok(v, NoValue, env')
      else EvalChain(h, isOr, xs[1..], depth, env')
  }

  /** Calling an alias: its text runs with the arguments as its own frame and with the alias's flags. */
  function EvalCall(h: Host, id: nat, args: seq<Value>, depth: nat, env: Env): Answer<Value>
    requires depth <= h.limit
    decreases h.limit - depth, 0, 1
  {
    if Lost(env, id) then Fail(Unspecified(id), env)
    else if IsArgument(id) && !env.frame.Used(id) then Ok(NoValue, NoValue, env)
    else if !IsArgument(id) && id !in env.store then Fail(UnknownCommand(id), env)
    else
      match h.parse(GetString(h, Callee(env, id, args)))
      case None => Fail(SyntaxError, NotCompiled(env, id, args))
      case Some(ss) =>
        match EvalBlock(h, ss, depth, Called(env, id, args))
        case Ok(v, _, env') => Ok(v, NoValue, Returned(env, env'))
        case Fail(e, env') => Fail(e, Returned(env, env'))
  }
}
