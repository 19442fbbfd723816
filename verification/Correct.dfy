/** Compiled code does what the syntax means. */
module Correct {
  import opened Words
  import opened Literals
  import opened Syntax
  import opened Emit
  import opened WellFormed
  import opened Vm
  import opened Eval
  import opened Steps

  /** What is assumed of the surroundings: text that parses is well formed and compiles to less
      than 2^24 words, and commands turn plain values into plain values. */
  ghost predicate HostOk(h: Host) {
    && h.arity(IF_COMMAND) == 3
    && (forall t :: h.parse(t).Some? ==>
          GoodStmts(h, h.parse(t).value) && |CompileMain(h, h.parse(t).value)| <= DATA_LIMIT)
    && (forall id, args, env :: PlainValues(args) && PlainEnv(env) && h.command(id, args, env).Success? ==>
          h.command(id, args, env).value.Plain() && PlainEnv(h.command(id, args, env).env))
  }

  ghost predicate Setup(h: Host, prog: Code, depth: nat, r: Value, env: Env) {
    HostOk(h) && |prog| <= DATA_LIMIT && depth <= h.limit && r.Plain() && PlainEnv(env)
  }

  const Exit: Code := [Inst(EXIT, 0, 0)]

  /** The statements lie at `start`, compiled for some position, up to their EXIT. */
  ghost predicate CodeAt(h: Host, prog: Code, start: nat, body: List<Stmt>, pos: nat) {
    At(prog, start, CompileStmts(h, body, pos) + Exit)
  }

  /** A VM value stands for an operand. */
  ghost predicate Stands(h: Host, x: Operand, v: Value) {
    match x
    case Ready(u) => v == u && v.Plain()
    case Delayed(body) =>
      && v.CodeRef? && |v.prog| <= DATA_LIMIT && GoodStmts(h, body)
      && exists pos: nat :: CodeAt(h, v.prog, v.start, body, pos)
  }

  ghost predicate StandAll(h: Host, xs: seq<Operand>, vs: seq<Value>) {
    |xs| == |vs| && forall i :: 0 <= i < |xs| ==> Stands(h, xs[i], vs[i])
  }

  /** An error was thrown, with this environment and with at least `base` left on the stack; or the
      source does something unspecified, and so does the VM. */
  ghost predicate Fails(o: Outcome, e: Error, env: Env, base: seq<Value>) {
    if e.Unspecified? then o == Stuck else
    o.Err? && o.e == e && o.st.env == env && |base| <= |o.st.stack| && o.st.stack[..|base|] == base
  }

  /** Running an argument's code pushes a value that stands for the operand. */
  ghost predicate ArgRuns(h: Host, prog: Code, pc: nat, pc': nat, depth: nat, r: Value, st: State,
                          a: Answer<Operand>, v: Value)
    requires depth <= h.limit
  {
    match a
    case Ok(x, r', env) =>
      && Stands(h, x, v) && r'.Plain() && PlainEnv(env)
      && Run(h, prog, pc, depth, r, st) == Run(h, prog, pc', depth, r', State(st.stack + [v], env))
    case Fail(e, env) => Fails(Run(h, prog, pc, depth, r, st), e, env, st.stack)
  }

  ghost predicate ParamsRun(h: Host, prog: Code, pc: nat, pc': nat, depth: nat, r: Value, st: State,
                            a: Answer<seq<Operand>>, vs: seq<Value>)
    requires depth <= h.limit
  {
    match a
    case Ok(xs, r', env) =>
      && StandAll(h, xs, vs) && r'.Plain() && PlainEnv(env)
      && Run(h, prog, pc, depth, r, st) == Run(h, prog, pc', depth, r', State(st.stack + vs, env))
    case Fail(e, env) => Fails(Run(h, prog, pc, depth, r, st), e, env, st.stack)
  }

  /** Running statements leaves the stack as it was. */
  ghost predicate StmtRuns(h: Host, prog: Code, pc: nat, pc': nat, depth: nat, r: Value, st: State,
                           a: Answer<()>)
    requires depth <= h.limit
  {
    match a
    case Ok(_, r', env) =>
      && r'.Plain() && PlainEnv(env)
      && Run(h, prog, pc, depth, r, st) == Run(h, prog, pc', depth, r', State(st.stack, env))
    case Fail(e, env) => Fails(Run(h, prog, pc, depth, r, st), e, env, st.stack)
  }

  /** A call that comes back gives the value and leaves the stack as it was. */
  ghost predicate Returns(o: Outcome, a: Answer<Value>, stack: seq<Value>) {
    match a
    case Ok(v, _, env) => o.Done? && o.r == v && o.st == State(stack, env) && v.Plain() && PlainEnv(env)
    case Fail(e, env) => o == if e.Unspecified? then Stuck else Err(e, State(stack, env))
  }

  // ---- arguments ----

  /** COMPILE and COND after a value has been pushed. */
  lemma FinishRuns(h: Host, prog: Code, pc: nat, want: Want, depth: nat, r: Value, base: seq<Value>,
                   env: Env, u: Value) returns (v: Value)
    requires Setup(h, prog, depth, r, env) && u.Plain()
    requires At(prog, pc, Finish(want))
    requires want == AsString ==> u.Str?
    requires want == AsInt ==> u.Int?
    ensures match Convert(h, u, want, r, env)
            case Ok(x, r', env') =>
              && r' == r && env' == env && Stands(h, x, v)
              && Run(h, prog, pc, depth, r, State(base + [u], env))
              == Run(h, prog, pc + |Finish(want)|, depth, r, State(base + [v], env))
            case Fail(e, env') =>
              env' == env && Fails(Run(h, prog, pc, depth, r, State(base + [u], env)), e, env, base)
  {
    hide Run, Compiled;
    var st := State(base + [u], env);
    assert Pop(st.stack) == base;
    v := u;
    if want == AsCode || (want == AsCond && u.Str? && u.s != []) {
      AtWord(prog, pc, Finish(want), 0);
      v := CompiledRuns(h, prog, pc, depth, r, st, u);
    } else if want == AsCond {
      AtWord(prog, pc, Finish(want), 0);
      if u.Str? {
        v := NoValue;
      }
      PopGoesOn(h, prog, pc, pc + 1, depth, r, st, r, State(base + [v], env));
    }
  }

  lemma CompiledRuns(h: Host, prog: Code, pc: nat, depth: nat, r: Value, st: State, u: Value) returns (v: Value)
    requires Setup(h, prog, depth, r, st.env) && u.Plain()
    requires pc < |prog| && st.stack != [] && Top(st.stack) == u
    requires prog[pc].op == COMPILE || (prog[pc].op == COND && u.Str? && u.s != [])
    ensures match Compiled(h, u, r, st.env)
            case Ok(x, r', env') =>
              && r' == r && env' == st.env && Stands(h, x, v)
              && Run(h, prog, pc, depth, r, st) == Run(h, prog, pc + 1, depth, r, State(Pop(st.stack) + [v], st.env))
            case Fail(e, env') =>
              e == SyntaxError && env' == st.env && Run(h, prog, pc, depth, r, st) == Err(e, st)
  {
    PopOp(h, prog, pc, depth, r, st);
    v := NoValue;
    match CompileValue(h, u) {
      case None =>
      case Some(c) =>
        v := CodeRef(c, 1);
        CompiledStands(h, u, c);
    }
  }

  function BodyOf(h: Host, u: Value): List<Stmt> {
    match u
    case Str(s) => if h.parse(s).Some? then h.parse(s).value else Nil
    case Int(i) => Cons(IntStmt(i), Nil)
    case _ => Cons(Result(Paren(Nil)), Nil)
  }

  /** gen_main and its short forms for numbers and nothing produce the same kind of program. */
  lemma CompiledStands(h: Host, u: Value, c: Code)
    requires HostOk(h) && u.Plain() && CompileValue(h, u) == Some(c)
    ensures Stands(h, Delayed(BodyOf(h, u)), CodeRef(c, 1))
  {
    var body := BodyOf(h, u);
    if u.Int? {
      assert CompileStmts(h, body, 1) == IntLiteral(u.i) + [Inst(RESULT, 0, 0)];
    } else if u.NoValue? {
      assert CompileStmts(h, body, 1) == NullLiteral + [Inst(RESULT, 0, 0)];
    }
    assert c == [Inst(START, 0, 0)] + (CompileStmts(h, body, 1) + Exit);
    assert CodeAt(h, c, 1, body, 1);
  }

  lemma LiteralCorrect(h: Host, a: Arg, want: Want, prog: Code, pc: nat, pos: nat, depth: nat, r: Value, st: State)
    returns (v: Value)
    requires a.Literal? && GoodArg(h, a) && Setup(h, prog, depth, r, st.env)
    requires At(prog, pc, CompileArg(h, a, want, pos))
    ensures ArgRuns(h, prog, pc, pc + |CompileArg(h, a, want, pos)|, depth, r, st,
                    EvalArg(h, a, want, depth, r, st.env), v)
  {
    hide Run, CompileStmts, BlockLiteral, TextLiteral, LongString, IntLiteral, GoodStmts;
    var c := CompileArg(h, a, want, pos);
    if want == AsCode || (want == AsCond && !NoText(a.spelling, a.text)) {
      v := BlockRuns(h, a.body, prog, pc, pos, depth, r, st);
    } else if want == AsCond {
      v := NoValue;
      NullRuns(h, prog, pc, depth, r, st);
    } else if want == AsInt {
      v := Int(h.toInt(a.text));
      if a.spelling == Bracketed {
        ForcedText(h, a.text, prog, pc, depth, r, st);
      } else {
        IntRuns(h, prog, pc, h.toInt(a.text), depth, r, st);
      }
    } else {
      v := Str(a.text);
      TextRuns(h, prog, pc, a.spelling, a.text, depth, r, st);
    }
  }

  /** Bracketed text wanted as a number: pushed as text, then forced. */
  lemma ForcedText(h: Host, text: Text, prog: Code, pc: nat, depth: nat, r: Value, st: State)
    requires depth <= h.limit && |text| < DATA_LIMIT
    requires At(prog, pc, LongString(text) + [Inst(FORCE, RET_INT, 0)])
    ensures Run(h, prog, pc, depth, r, st)
         == Run(h, prog, pc + |LongString(text)| + 1, depth, r, Push(st, Int(h.toInt(text))))
  {
    hide Run, PackBytes;
    AtSplit(prog, pc, LongString(text), [Inst(FORCE, RET_INT, 0)]);
    TextRuns(h, prog, pc, Bracketed, text, depth, r, st);
    var pc1 := pc + |LongString(text)|;
    AtWord(prog, pc1, [Inst(FORCE, RET_INT, 0)], 0);
    assert Pop(Push(st, Str(text)).stack) == st.stack;
    PopGoesOn(h, prog, pc1, pc1 + 1, depth, r, Push(st, Str(text)), r, Push(st, Int(h.toInt(text))));
  }

  /** The static empty block. */
  lemma EmptyStands(h: Host)
    ensures Stands(h, Delayed(Nil), CodeRef([Inst(START, 0, 1), Inst(EXIT, 0, 0)], 1))
  {
    var c: Code := [Inst(START, 0, 1), Inst(EXIT, 0, 0)];
    assert CompileStmts(h, Nil, 0) + Exit == Exit;
    assert c[1..2] == Exit;
    assert CodeAt(h, c, 1, Nil, 0);
  }

  /** A block literal pushes a reference to its own words. */
  lemma BlockRuns(h: Host, body: List<Stmt>, prog: Code, pc: nat, pos: nat, depth: nat, r: Value, st: State)
    returns (v: Value)
    requires GoodStmts(h, body) && Setup(h, prog, depth, r, st.env)
    requires At(prog, pc, BlockLiteral(CompileStmts(h, body, pos + 2), pos))
    ensures Stands(h, Delayed(body), v)
    ensures Run(h, prog, pc, depth, r, st)
         == Run(h, prog, pc + |BlockLiteral(CompileStmts(h, body, pos + 2), pos)|, depth, r, Push(st, v))
  {
    hide Run, CompileStmts, GoodStmts, HostOk, PlainEnv, CodeAt, Head;
    var c := CompileStmts(h, body, pos + 2);
    if c == [] {
      v := CodeRef([Inst(START, 0, 1), Inst(EXIT, 0, 0)], 1);
      StmtsHead(h, body, pos + 2);
      EmptyStands(h);
      EmptyRuns(h, prog, pc, depth, r, st);
    } else {
      v := CodeRef(prog, pc + 2);
      PushBlockRuns(h, c, prog, pc, pos, depth, r, st);
      assert CodeAt(h, prog, pc + 2, body, pos + 2) by { CodeIsAt(h, prog, pc + 2, body, pos + 2); }
    }
  }

  lemma CodeIsAt(h: Host, prog: Code, start: nat, body: List<Stmt>, pos: nat)
    requires At(prog, start, CompileStmts(h, body, pos) + Exit)
    ensures CodeAt(h, prog, start, body, pos)
  {
  }

  lemma EmptyRuns(h: Host, prog: Code, pc: nat, depth: nat, r: Value, st: State)
    requires depth <= h.limit && At(prog, pc, [Inst(EMPTY, 0, 0)])
    ensures Run(h, prog, pc, depth, r, st)
         == Run(h, prog, pc + 1, depth, r, Push(st, CodeRef([Inst(START, 0, 1), Inst(EXIT, 0, 0)], 1)))
  {
    hide Run;
    AtWord(prog, pc, [Inst(EMPTY, 0, 0)], 0);
    PushGoesOn(h, prog, pc, pc + 1, depth, r, st, r, Push(st, CodeRef([Inst(START, 0, 1), Inst(EXIT, 0, 0)], 1)));
  }

  lemma PushBlockRuns(h: Host, c: Code, prog: Code, pc: nat, pos: nat, depth: nat, r: Value, st: State)
    requires depth <= h.limit && |prog| <= DATA_LIMIT && c != [] && At(prog, pc, BlockLiteral(c, pos))
    ensures At(prog, pc + 2, c + Exit)
    ensures Run(h, prog, pc, depth, r, st)
         == Run(h, prog, pc + |BlockLiteral(c, pos)|, depth, r, Push(st, CodeRef(prog, pc + 2)))
  {
    hide Run, LiteralStep, Find;
    var b := BlockLiteral(c, pos);
    AtWord(prog, pc, b, 0);
    assert b == [b[0], b[1]] + (c + Exit);
    AtSplit(prog, pc, [b[0], b[1]], c + Exit);
    PushGoesOn(h, prog, pc, pc + |b|, depth, r, st, r, Push(st, CodeRef(prog, pc + 2)));
  }

  lemma LookupCorrect(h: Host, a: Arg, want: Want, prog: Code, pc: nat, pos: nat, depth: nat, r: Value, st: State)
    returns (v: Value)
    requires a.Lookup? && GoodArg(h, a) && Setup(h, prog, depth, r, st.env)
    requires At(prog, pc, CompileArg(h, a, want, pos))
    ensures ArgRuns(h, prog, pc, pc + |CompileArg(h, a, want, pos)|, depth, r, st,
                    EvalArg(h, a, want, depth, r, st.env), v)
  {
    hide Run, HostOk, PlainEnv, Convert, Force, CodeAt, PushStep, Find, GoodStmts, Finish;
    var w := Inst(LOOKUP, LookupRet(want), a.id);
    AtSplit(prog, pc, [w], Finish(want));
    AtWord(prog, pc, [w], 0);
    LookupStep(h, prog, pc, a.id, LookupRet(want), depth, r, st);
    v := NoValue;
    FoundIsPlain(h, st.env, a.id, want);
    match Find(st.env, a.id) {
      case Missed(_) =>
      case Got(found) =>
        var u := Force(h, found, LookupRet(want));
        v := FinishRuns(h, prog, pc + 1, want, depth, r, st.stack, st.env, u);
        ConvertForced(h, found, u, want, r, st.env);
    }
  }

  lemma LookupStep(h: Host, prog: Code, pc: nat, id: nat, ret: nat, depth: nat, r: Value, st: State)
    requires depth <= h.limit && pc < |prog| && id < DATA_LIMIT && ret < 4 && prog[pc] == Inst(LOOKUP, ret, id)
    ensures var o, x := Run(h, prog, pc, depth, r, st), Find(st.env, id);
            && (x.Missed? ==> o == (if x.e.Unspecified? then Stuck else Err(x.e, st)))
            && (x.Got? ==> o == Run(h, prog, pc + 1, depth, r, Push(st, Force(h, x.v, ret))))
  {
    hide Run, Find, Force, LiteralStep;
    PushOp(h, prog, pc, depth, r, st);
  }

  lemma FoundIsPlain(h: Host, env: Env, id: nat, want: Want)
    requires PlainEnv(env)
    ensures Find(env, id).Got? ==>
              var u := Force(h, Find(env, id).v, LookupRet(want));
              u.Plain() && (want == AsString ==> u.Str?) && (want == AsInt ==> u.Int?)
  {
  }

  /** Converting again what the instruction has already forced changes nothing. */
  lemma ConvertForced(h: Host, found: Value, u: Value, want: Want, r: Value, env: Env)
    requires u == Force(h, found, LookupRet(want))
    ensures Convert(h, if want == AsInt || want == AsCond then found else Str(GetString(h, found)), want, r, env)
         == Convert(h, u, want, r, env)
  {
  }

  lemma EmptyParenCorrect(h: Host, want: Want, prog: Code, pc: nat, depth: nat, r: Value, st: State)
    returns (v: Value)
    requires Setup(h, prog, depth, r, st.env) && At(prog, pc, EmptyLiteral(h, want))
    ensures ArgRuns(h, prog, pc, pc + |EmptyLiteral(h, want)|, depth, r, st, Ok(Nothing(h, want), r, st.env), v)
  {
    hide Run;
    match want {
      case AsString =>
        v := Str([]);
        TextRuns(h, prog, pc, Word, [], depth, r, st);
      case AsInt =>
        v := Int(h.toInt([]));
        IntRuns(h, prog, pc, h.toInt([]), depth, r, st);
      case AsCode =>
        v := BlockRuns(h, Nil, prog, pc, 0, depth, r, st);
      case _ =>
        v := NoValue;
        NullRuns(h, prog, pc, depth, r, st);
    }
  }

  /** RESULT_ARG takes the result away and pushes it. */
  lemma ResultArgCorrect(h: Host, want: Want, prog: Code, pc: nat, depth: nat, r: Value, st: State)
    returns (v: Value)
    requires Setup(h, prog, depth, r, st.env)
    requires At(prog, pc, [Inst(RESULT_ARG, RetOf(want), 0)] + Finish(want))
    ensures ArgRuns(h, prog, pc, pc + 1 + |Finish(want)|, depth, r, st, Convert(h, r, want, NoValue, st.env), v)
  {
    hide Run;
    var w := Inst(RESULT_ARG, RetOf(want), 0);
    AtSplit(prog, pc, [w], Finish(want));
    AtWord(prog, pc, [w], 0);
    var u := Force(h, r, RetOf(want));
    PushGoesOn(h, prog, pc, pc + 1, depth, r, st, NoValue, Push(st, u));
    v := FinishRuns(h, prog, pc + 1, want, depth, NoValue, st.stack, st.env, u);
  }

  lemma {:induction false} ArgCorrect(h: Host, a: Arg, want: Want, prog: Code, pc: nat, pos: nat, depth: nat,
                                      r: Value, st: State)
    returns (v: Value)
    requires GoodArg(h, a) && Setup(h, prog, depth, r, st.env)
    requires At(prog, pc, CompileArg(h, a, want, pos))
    ensures ArgRuns(h, prog, pc, pc + |CompileArg(h, a, want, pos)|, depth, r, st,
                    EvalArg(h, a, want, depth, r, st.env), v)
    decreases h.limit - depth, 1, a, 1
  {
    hide Run, Convert, CompileStmts;
    match a {
      case Absent =>
        v := NoValue;
        NullRuns(h, prog, pc, depth, r, st);
      case Literal(_, _, _) =>
        v := LiteralCorrect(h, a, want, prog, pc, pos, depth, r, st);
      case Lookup(_) =>
        v := LookupCorrect(h, a, want, prog, pc, pos, depth, r, st);
      case Paren(_) =>
        v := ParenCorrect(h, a, want, prog, pc, pos, depth, r, st);
    }
  }

  lemma {:induction false} ParenCorrect(h: Host, a: Arg, want: Want, prog: Code, pc: nat, pos: nat, depth: nat,
                                        r: Value, st: State)
    returns (v: Value)
    requires a.Paren? && GoodArg(h, a) && Setup(h, prog, depth, r, st.env)
    requires At(prog, pc, CompileArg(h, a, want, pos))
    ensures ArgRuns(h, prog, pc, pc + |CompileArg(h, a, want, pos)|, depth, r, st,
                    EvalArg(h, a, want, depth, r, st.env), v)
    decreases h.limit - depth, 1, a, 0
  {
    hide Run, CompileStmts, EvalStmts, Convert;
    var c := CompileStmts(h, a.stmts, pos);
    if c != [] {
      AtSplit(prog, pc, c, [Inst(RESULT_ARG, RetOf(want), 0)] + Finish(want));
    }
    StmtsHead(h, a.stmts, pos);
    v := NoValue;
    if a.stmts == Nil {
      v := EmptyParenCorrect(h, want, prog, pc, depth, r, st);
    } else {
      StmtsCorrect(h, a.stmts, prog, pc, pos, depth, r, st);
      match EvalStmts(h, a.stmts, depth, r, st.env) {
        case Ok(_, r', env) =>
          v := ResultArgCorrect(h, want, prog, pc + |c|, depth, r', State(st.stack, env));
        case Fail(_, _) =>
      }
    }
  }

  lemma {:induction false} ParamsCorrect(h: Host, ps: List<Param>, prog: Code, pc: nat, pos: nat, depth: nat,
                                         r: Value, st: State)
    returns (vs: seq<Value>)
    requires GoodParams(h, ps) && Setup(h, prog, depth, r, st.env)
    requires At(prog, pc, CompileParams(h, ps, pos))
    ensures ParamsRun(h, prog, pc, pc + |CompileParams(h, ps, pos)|, depth, r, st,
                      EvalParams(h, ps, depth, r, st.env), vs)
    ensures EvalParams(h, ps, depth, r, st.env).Ok? ==> |vs| == Count(ps)
    decreases h.limit - depth, 1, ps
  {
    hide Run, CompileArg, EvalArg, GoodArg, HostOk, PlainEnv, Stands;
    vs := [];
    match ps {
      case Nil =>
        assert st.stack + [] == st.stack;
      case Cons(p, rest) =>
        var c := CompileArg(h, p.arg, p.want, pos);
        AtSplit(prog, pc, c, CompileParams(h, rest, pos + |c|));
        var v := ArgCorrect(h, p.arg, p.want, prog, pc, pos, depth, r, st);
        match EvalArg(h, p.arg, p.want, depth, r, st.env) {
          case Fail(_, _) =>
          case Ok(x, r', env) =>
            var st' := State(st.stack + [v], env);
            var us := ParamsCorrect(h, rest, prog, pc + |c|, pos + |c|, depth, r', st');
            vs := [v] + us;
            assert st'.stack + us == st.stack + vs;
            FailsBelow(Run(h, prog, pc + |c|, depth, r', st'), st.stack, [v]);
        }
    }
  }

  /** An error that leaves more on the stack also leaves less. */
  lemma FailsBelow(o: Outcome, base: seq<Value>, extra: seq<Value>)
    ensures forall e, env :: Fails(o, e, env, base + extra) ==> Fails(o, e, env, base)
  {
    forall e, env | Fails(o, e, env, base + extra) ensures Fails(o, e, env, base) {
      if !e.Unspecified? {
        assert o.st.stack[..|base|] == o.st.stack[..|base + extra|][..|base|] == base;
      }
    }
  }

  lemma {:induction false} StmtsCorrect(h: Host, ss: List<Stmt>, prog: Code, pc: nat, pos: nat, depth: nat, r: Value,
                                        st: State)
    requires GoodStmts(h, ss) && Setup(h, prog, depth, r, st.env)
    requires At(prog, pc, CompileStmts(h, ss, pos))
    ensures StmtRuns(h, prog, pc, pc + |CompileStmts(h, ss, pos)|, depth, r, st, EvalStmts(h, ss, depth, r, st.env))
    decreases h.limit - depth, 1, ss
  {
    hide Run, CompileStmt, EvalStmt, GoodStmt;
    match ss {
      case Nil =>
      case Cons(s, rest) =>
        var c := CompileStmt(h, s, pos);
        AtSplit(prog, pc, c, CompileStmts(h, rest, pos + |c|));
        StmtCorrect(h, s, prog, pc, pos, depth, r, st);
        match EvalStmt(h, s, depth, r, st.env) {
          case Fail(_, _) =>
          case Ok(_, r', env) =>
            StmtsCorrect(h, rest, prog, pc + |c|, pos + |c|, depth, r', State(st.stack, env));
        }
    }
  }

  // ---- statements ----

  /** Whether an argument is ready or delayed depends only on what it is wanted for. */
  lemma WantedKind(h: Host, a: Arg, want: Want, depth: nat, r: Value, env: Env)
    requires depth <= h.limit
    ensures var x := EvalArg(h, a, want, depth, r, env);
            && (x.Ok? && want != AsCode && want != AsCond ==> x.x.Ready?)
            && (x.Ok? && want == AsCode && a != Absent ==> x.x.Delayed?)
  {
    hide EvalStmts;
  }

  /** The value of a plain argument on top of the stack is used up by one instruction. */
  lemma UseTop(h: Host, prog: Code, pc: nat, w: Word, depth: nat, r: Value, stack: seq<Value>, env: Env, v: Value,
               r': Value, env': Env)
    requires depth <= h.limit && At(prog, pc, [w]) && IsPopOp(w.op)
    requires PopStep(h, [w], 0, r, State(stack + [v], env)) == Next(1, r', State(stack, env'))
    requires w.op != JUMP_B && w.op != COMPILE && w.op != COND
    ensures Run(h, prog, pc, depth, r, State(stack + [v], env)) == Run(h, prog, pc + 1, depth, r', State(stack, env'))
  {
    hide Run;
    AtWord(prog, pc, [w], 0);
    PopGoesOn(h, prog, pc, pc + 1, depth, r, State(stack + [v], env), r', State(stack, env'));
  }

  lemma AliasStep(h: Host, prog: Code, pc: nat, id: nat, depth: nat, r: Value, stack: seq<Value>, env: Env, v: Value)
    requires depth <= h.limit && id < DATA_LIMIT && At(prog, pc, [Inst(ALIAS, 0, id)])
    ensures Run(h, prog, pc, depth, r, State(stack + [v], env))
         == if Lost(env, id) then Stuck else Run(h, prog, pc + 1, depth, r, State(stack, Bind(env, id, v)))
  {
    hide Run, Bind, Lost;
    var w := Inst(ALIAS, 0, id);
    assert Pop(stack + [v]) == stack;
    if Lost(env, id) {
      AtWord(prog, pc, [w], 0);
      PopOp(h, prog, pc, depth, r, State(stack + [v], env));
    } else {
      UseTop(h, prog, pc, w, depth, r, stack, env, v, r, Bind(env, id, v));
    }
  }

  lemma ResultStep(h: Host, prog: Code, pc: nat, depth: nat, r: Value, stack: seq<Value>, env: Env, v: Value)
    requires depth <= h.limit && At(prog, pc, [Inst(RESULT, 0, 0)])
    ensures Run(h, prog, pc, depth, r, State(stack + [v], env)) == Run(h, prog, pc + 1, depth, v, State(stack, env))
  {
    hide Run;
    assert Pop(stack + [v]) == stack;
    UseTop(h, prog, pc, Inst(RESULT, 0, 0), depth, r, stack, env, v, v, env);
  }

  lemma NotStep(h: Host, prog: Code, pc: nat, depth: nat, r: Value, stack: seq<Value>, env: Env, v: Value)
    requires depth <= h.limit && At(prog, pc, [Inst(NOT, 0, 0)])
    ensures Run(h, prog, pc, depth, r, State(stack + [v], env))
         == Run(h, prog, pc + 1, depth, Int(if GetBool(h, v) then 0 else 1), State(stack, env))
  {
    hide Run, GetBool;
    assert Pop(stack + [v]) == stack;
    UseTop(h, prog, pc, Inst(NOT, 0, 0), depth, r, stack, env, v, Int(if GetBool(h, v) then 0 else 1), env);
  }

  lemma BindPlain(env: Env, id: nat, v: Value)
    requires PlainEnv(env) && v.Plain()
    ensures PlainEnv(Bind(env, id, v))
  {
  }

  lemma {:induction false} AssignCorrect(h: Host, s: Stmt, prog: Code, pc: nat, pos: nat, depth: nat, r: Value,
                                         st: State)
    requires s.Assign? && GoodStmt(h, s) && Setup(h, prog, depth, r, st.env)
    requires At(prog, pc, CompileStmt(h, s, pos))
    ensures StmtRuns(h, prog, pc, pc + |CompileStmt(h, s, pos)|, depth, r, st, EvalStmt(h, s, depth, r, st.env))
    decreases h.limit - depth, 1, s, 0
  {
    hide Run, CompileArg, EvalArg, GoodArg, StringLiteral, Inst, HostOk, PlainEnv, Bind, Lost, CodeAt;
    var w := Inst(ALIAS, 0, s.id);
    if s.arg == Absent {
      AtSplit(prog, pc, StringLiteral([]), [w]);
      TextRuns(h, prog, pc, Word, [], depth, r, st);
      AliasStep(h, prog, pc + |StringLiteral([])|, s.id, depth, r, st.stack, st.env, Str([]));
      BindPlain(st.env, s.id, Str([]));
    } else {
      var c := CompileArg(h, s.arg, Any, pos);
      AtSplit(prog, pc, c, [w]);
      var v := ArgCorrect(h, s.arg, Any, prog, pc, pos, depth, r, st);
      WantedKind(h, s.arg, Any, depth, r, st.env);
      match EvalArg(h, s.arg, Any, depth, r, st.env) {
        case Ok(_, r', env) =>
          AliasStep(h, prog, pc + |c|, s.id, depth, r', st.stack, env, v);
          BindPlain(env, s.id, v);
        case Fail(_, _) =>
      }
    }
  }

  lemma {:induction false} ResultNotCorrect(h: Host, s: Stmt, prog: Code, pc: nat, pos: nat, depth: nat, r: Value,
                                            st: State)
    requires (s.Result? || s.Not?) && GoodStmt(h, s) && Setup(h, prog, depth, r, st.env)
    requires At(prog, pc, CompileStmt(h, s, pos))
    ensures StmtRuns(h, prog, pc, pc + |CompileStmt(h, s, pos)|, depth, r, st, EvalStmt(h, s, depth, r, st.env))
    decreases h.limit - depth, 1, s, 0
  {
    hide Run, CompileArg, EvalArg, GoodArg, HostOk, PlainEnv, CodeAt, GetBool;
    var w := Inst(if s.Result? then RESULT else NOT, 0, 0);
    if s.arg == Absent {
      AtWord(prog, pc, CompileStmt(h, s, pos), 0);
      PushGoesOn(h, prog, pc, pc + 1, depth, r, st, if s.Result? then NoValue else Int(1), st);
    } else {
      var c := CompileArg(h, s.arg, Any, pos);
      AtSplit(prog, pc, c, [w]);
      var v := ArgCorrect(h, s.arg, Any, prog, pc, pos, depth, r, st);
      WantedKind(h, s.arg, Any, depth, r, st.env);
      match EvalArg(h, s.arg, Any, depth, r, st.env) {
        case Ok(_, r', env) =>
          if s.Result? {
            ResultStep(h, prog, pc + |c|, depth, r', st.stack, env, v);
          } else {
            NotStep(h, prog, pc + |c|, depth, r', st.stack, env, v);
          }
        case Fail(_, _) =>
      }
    }
  }

  /** A value standing alone becomes the result. */
  lemma LiteralStmtCorrect(h: Host, s: Stmt, prog: Code, pc: nat, pos: nat, depth: nat, r: Value, st: State)
    requires (s.IntStmt? || s.StrStmt?) && GoodStmt(h, s) && Setup(h, prog, depth, r, st.env)
    requires At(prog, pc, CompileStmt(h, s, pos))
    ensures StmtRuns(h, prog, pc, pc + |CompileStmt(h, s, pos)|, depth, r, st, EvalStmt(h, s, depth, r, st.env))
  {
    hide Run, StringLiteral, IntLiteral, Inst;
    var w := Inst(RESULT, 0, 0);
    var v := if s.IntStmt? then Int(s.i) else Str(s.s);
    var c := if s.IntStmt? then IntLiteral(s.i) else StringLiteral(s.s);
    AtSplit(prog, pc, c, [w]);
    if s.IntStmt? {
      IntRuns(h, prog, pc, s.i, depth, r, st);
    } else {
      TextRuns(h, prog, pc, Word, s.s, depth, r, st);
    }
    ResultStep(h, prog, pc + |c|, depth, r, st.stack, st.env, v);
  }

  // ---- entering code ----

  /** The code of statements, entered through `vm_exec`, ends just past its own EXIT, with the
      result and the environment that the statements give. */
  lemma {:induction false} BlockCorrect(h: Host, body: List<Stmt>, prog: Code, start: nat, pos: nat, depth: nat,
                                        st: State)
    requires GoodStmts(h, body) && Setup(h, prog, depth, NoValue, st.env)
    requires CodeAt(h, prog, start, body, pos)
    ensures var o := Enter(h, prog, start, depth, st);
            && Returns(o, EvalBlock(h, body, depth, st.env), st.stack)
            && (o.Done? ==> o.pc == start + |CompileStmts(h, body, pos)| + 1)
    decreases h.limit - depth, 0, 0
  {
    hide Run, CompileStmts, EvalStmts, GoodStmts;
    if depth < h.limit {
      var c := CompileStmts(h, body, pos);
      AtSplit(prog, start, c, Exit);
      StmtsCorrect(h, body, prog, start, pos, depth + 1, NoValue, st);
      match EvalStmts(h, body, depth + 1, NoValue, st.env) {
        case Ok(_, v, env) => ExitRuns(h, prog, start + |c|, depth + 1, v, State(st.stack, env));
        case Fail(_, _) =>
      }
    }
  }

  lemma {:induction false} OperandCorrect(h: Host, x: Operand, v: Value, depth: nat, st: State)
    requires Stands(h, x, v) && HostOk(h) && depth <= h.limit && PlainEnv(st.env)
    ensures Returns(InvokeOrKeep(h, v, depth, st), EvalOperand(h, x, depth, st.env), st.stack)
    ensures x.Delayed? ==> Returns(Invoke(h, v, depth, st), EvalOperand(h, x, depth, st.env), st.stack)
    decreases h.limit - depth, 0, 1
  {
    hide Enter, EvalBlock;
    if x.Delayed? {
      var pos: nat :| CodeAt(h, v.prog, v.start, x.body, pos);
      BlockCorrect(h, x.body, v.prog, v.start, pos, depth, st);
    }
  }

  /** The command form of `&&` and `||`. */
  lemma {:induction false} ChainCorrect(h: Host, isOr: bool, xs: seq<Operand>, vs: seq<Value>, depth: nat, st: State)
    requires StandAll(h, xs, vs) && HostOk(h) && depth <= h.limit && PlainEnv(st.env)
    ensures Returns(RunAndOr(h, isOr, vs, depth, st), EvalChain(h, isOr, xs, depth, st.env), st.stack)
    decreases h.limit - depth, 0, 2 + |xs|
  {
    hide InvokeOrKeep, EvalOperand, Stands;
    if xs != [] {
      OperandCorrect(h, xs[0], vs[0], depth, st);
      match EvalOperand(h, xs[0], depth, st.env) {
        case Ok(_, _, env) =>
          if |xs| > 1 {
            ChainCorrect(h, isOr, xs[1..], vs[1..], depth, State(st.stack, env));
          }
        case Fail(_, _) =>
      }
    }
  }

  /** exec_alias */
  lemma {:induction false} CallCorrect(h: Host, id: nat, args: seq<Value>, depth: nat, st: State)
    requires PlainValues(args) && HostOk(h) && depth <= h.limit && PlainEnv(st.env)
    ensures Returns(RunAlias(h, id, args, depth, st), EvalCall(h, id, args, depth, st.env), st.stack)
    decreases h.limit - depth, 0, 1
  {
    hide Enter, EvalBlock, CompileStmts, GoodStmts;
    if !Lost(st.env, id) && (if IsArgument(id) then st.env.frame.Used(id) else id in st.env.store) {
      match h.parse(GetString(h, Callee(st.env, id, args))) {
        case None =>
        case Some(ss) =>
          var env := Called(st.env, id, args);
          MainCode(h, ss);
          BlockCorrect(h, ss, CompileMain(h, ss), 1, 1, depth, State(st.stack, env));
      }
    }
  }

  lemma MainCode(h: Host, ss: List<Stmt>)
    ensures CodeAt(h, CompileMain(h, ss), 1, ss, 1)
  {
    hide CompileStmts;
    var c := CompileMain(h, ss);
    assert c == [Inst(START, 0, 0)] + (CompileStmts(h, ss, 1) + Exit);
  }

  // ---- statements that run code ----

  /** From an instruction that calls, the run goes on after it exactly as the call answers. */
  ghost predicate GoesOn(h: Host, prog: Code, pc: nat, pc': nat, depth: nat, r: Value, st: State,
                         base: seq<Value>, a: Answer<Value>)
    requires depth <= h.limit
  {
    match a
    case Ok(v, _, env) =>
      && v.Plain() && PlainEnv(env)
      && Run(h, prog, pc, depth, r, st) == Run(h, prog, pc', depth, v, State(base, env))
    case Fail(e, env) => Fails(Run(h, prog, pc, depth, r, st), e, env, base)
  }

  lemma DoStep(h: Host, prog: Code, pc: nat, depth: nat, r: Value, base: seq<Value>, env: Env, v: Value,
               a: Answer<Value>)
    requires depth <= h.limit && At(prog, pc, [Inst(DO, 0, 0)])
    requires Returns(Invoke(h, v, depth, State(base, env)), a, base)
    ensures GoesOn(h, prog, pc, pc + 1, depth, r, State(base + [v], env), base, a)
  {
    hide Run, Invoke;
    AtWord(prog, pc, [Inst(DO, 0, 0)], 0);
    assert Pop(base + [v]) == base;
    TopOp(h, prog, pc, depth, r, State(base + [v], env));
  }

  /** CALL, COM and COM_V take their arguments off the stack and leave nothing on it. */
  lemma CallStep(h: Host, prog: Code, pc: nat, w: Word, depth: nat, r: Value, base: seq<Value>, vs: seq<Value>,
                 env: Env, a: Answer<Value>)
    requires depth <= h.limit && w.ret == 0
    requires if w.op == COM then At(prog, pc, [w]) && |vs| == h.arity(w.data)
             else (w.op == CALL || w.op == COM_V) && |vs| < WORD_LIMIT && At(prog, pc, [w, OfBits(|vs|)])
    requires Returns(Dispatch(h, w.op, w.data, vs, depth, State(base + vs, env)), a, base + vs)
    ensures GoesOn(h, prog, pc, if w.op == COM then pc + 1 else pc + 2, depth, r, State(base + vs, env), base, a)
  {
    hide Run, Dispatch, Bits, OfBits;
    var stack := base + vs;
    if w.op == COM {
      AtWord(prog, pc, [w], 0);
    } else {
      AtWord(prog, pc, [w, OfBits(|vs|)], 0);
      AtWord(prog, pc, [w, OfBits(|vs|)], 1);
      NumberRoundTrip(|vs|);
    }
    assert stack[|stack| - |vs|..] == vs;
    assert Resize(stack, |base|) == base;
    CallOp(h, prog, pc, depth, r, State(stack, env));
    FailsBelow(Dispatch(h, w.op, w.data, vs, depth, State(stack, env)), base, vs);
  }

  lemma {:induction false} DoCorrect(h: Host, s: Stmt, prog: Code, pc: nat, pos: nat, depth: nat, r: Value, st: State)
    requires s.Do? && GoodStmt(h, s) && Setup(h, prog, depth, r, st.env)
    requires At(prog, pc, CompileStmt(h, s, pos))
    ensures StmtRuns(h, prog, pc, pc + |CompileStmt(h, s, pos)|, depth, r, st, EvalStmt(h, s, depth, r, st.env))
    decreases h.limit - depth, 1, s, 0
  {
    hide Run, CompileArg, EvalArg, GoodArg, EvalOperand, Invoke;
    if s.arg == Absent {
      AtWord(prog, pc, CompileStmt(h, s, pos), 0);
      PushGoesOn(h, prog, pc, pc + 1, depth, r, st, NoValue, st);
    } else {
      var c := CompileArg(h, s.arg, AsCode, pos);
      AtSplit(prog, pc, c, [Inst(DO, 0, 0)]);
      var v := ArgCorrect(h, s.arg, AsCode, prog, pc, pos, depth, r, st);
      WantedKind(h, s.arg, AsCode, depth, r, st.env);
      match EvalArg(h, s.arg, AsCode, depth, r, st.env) {
        case Ok(x, r', env) =>
          OperandCorrect(h, x, v, depth, State(st.stack, env));
          DoStep(h, prog, pc + |c|, depth, r', st.stack, env, v, EvalOperand(h, x, depth, env));
        case Fail(_, _) =>
      }
    }
  }

  /** Parameters of commands and aliases are plain values. */
  lemma PlainParams(h: Host, ps: List<Param>, wants: set<Want>, depth: nat, r: Value, env: Env)
    requires depth <= h.limit && Wanted(ps, wants) && AsCode !in wants && AsCond !in wants
    ensures var xs := EvalParams(h, ps, depth, r, env);
            xs.Ok? ==> forall i :: 0 <= i < |xs.x| ==> xs.x[i].Ready?
    decreases ps
  {
    hide EvalArg;
    match ps
    case Nil =>
    case Cons(p, rest) =>
      WantedKind(h, p.arg, p.want, depth, r, env);
      match EvalArg(h, p.arg, p.want, depth, r, env) {
        case Ok(_, r', env') => PlainParams(h, rest, wants, depth, r', env');
        case Fail(_, _) =>
      }
  }

  lemma StandPlain(h: Host, xs: seq<Operand>, vs: seq<Value>)
    requires StandAll(h, xs, vs) && forall i :: 0 <= i < |xs| ==> xs[i].Ready?
    ensures Values(xs) == vs && PlainValues(vs)
  {
  }

  lemma {:induction false} AliasCallCorrect(h: Host, s: Stmt, prog: Code, pc: nat, pos: nat, depth: nat, r: Value,
                                            st: State)
    requires s.CallAlias? && GoodStmt(h, s) && Setup(h, prog, depth, r, st.env)
    requires At(prog, pc, CompileStmt(h, s, pos))
    ensures StmtRuns(h, prog, pc, pc + |CompileStmt(h, s, pos)|, depth, r, st, EvalStmt(h, s, depth, r, st.env))
    decreases h.limit - depth, 1, s, 0
  {
    hide Run, CompileParams, EvalParams, GoodParams, EvalCall, RunAlias, Stands, OfBits;
    var c := CompileParams(h, s.params, pos);
    var call := [Inst(CALL, 0, s.id), OfBits(Count(s.params))];
    AtSplit(prog, pc, c, call);
    var vs := ParamsCorrect(h, s.params, prog, pc, pos, depth, r, st);
    PlainParams(h, s.params, {Any}, depth, r, st.env);
    match EvalParams(h, s.params, depth, r, st.env) {
      case Ok(xs, r', env) =>
        StandPlain(h, xs, vs);
        CallCorrect(h, s.id, vs, depth, State(st.stack + vs, env));
        CallStep(h, prog, pc + |c|, call[0], depth, r', st.stack, vs, env, EvalCall(h, s.id, vs, depth, env));
      case Fail(_, _) =>
    }
  }

  lemma {:induction false} CommandCorrect(h: Host, s: Stmt, prog: Code, pc: nat, pos: nat, depth: nat, r: Value,
                                          st: State)
    requires s.Command? && GoodStmt(h, s) && Setup(h, prog, depth, r, st.env)
    requires At(prog, pc, CompileStmt(h, s, pos))
    ensures StmtRuns(h, prog, pc, pc + |CompileStmt(h, s, pos)|, depth, r, st, EvalStmt(h, s, depth, r, st.env))
    decreases h.limit - depth, 1, s, 0
  {
    hide Run, CompileParams, EvalParams, GoodParams, Stands, OfBits, Dispatch, HostOk, PlainEnv;
    var c := CompileParams(h, s.params, pos);
    var call := CallWords(s.id, s.variadic, Count(s.params));
    AtSplit(prog, pc, c, call);
    var vs := ParamsCorrect(h, s.params, prog, pc, pos, depth, r, st);
    PlainParams(h, s.params, {Any, AsString, AsInt}, depth, r, st.env);
    match EvalParams(h, s.params, depth, r, st.env) {
      case Ok(xs, r', env) =>
        StandPlain(h, xs, vs);
        CommandReturns(h, call[0].op, s.id, vs, depth, State(st.stack + vs, env));
        CallStep(h, prog, pc + |c|, call[0], depth, r', st.stack, vs, env, CommandAnswer(h, s.id, vs, env));
      case Fail(_, _) =>
    }
  }

  lemma CommandReturns(h: Host, op: nat, id: nat, vs: seq<Value>, depth: nat, st: State)
    requires HostOk(h) && depth <= h.limit && PlainValues(vs) && PlainEnv(st.env)
    requires op != CALL && id != IF_COMMAND && id != AND_COMMAND && id != OR_COMMAND
    ensures Returns(Dispatch(h, op, id, vs, depth, st), CommandAnswer(h, id, vs, st.env), st.stack)
  {
  }

  function CommandAnswer(h: Host, id: nat, vs: seq<Value>, env: Env): Answer<Value> {
    match h.command(id, vs, env)
    case Success(v, env') => Ok(v, NoValue, env')
    case Failure(e, env') => Fail(e, env')
  }

  // ---- if ----

  /** ENTER_RESULT runs the block that follows it and goes on after its EXIT. */
  lemma {:induction false} EnterResultRuns(h: Host, body: List<Stmt>, prog: Code, pc: nat, pos: nat, depth: nat,
                                           r: Value, st: State)
    requires GoodStmts(h, body) && Setup(h, prog, depth, NoValue, st.env)
    requires At(prog, pc, [Inst(ENTER_RESULT, 0, 0)] + (CompileStmts(h, body, pos) + Exit))
    ensures GoesOn(h, prog, pc, pc + |CompileStmts(h, body, pos)| + 2, depth, r, st, st.stack,
                   EvalBlock(h, body, depth, st.env))
    decreases h.limit - depth, 0, 1
  {
    hide Run, Enter, EvalBlock, CompileStmts, GoodStmts;
    var w := Inst(ENTER_RESULT, 0, 0);
    AtSplit(prog, pc, [w], CompileStmts(h, body, pos) + Exit);
    AtWord(prog, pc, [w], 0);
    EnterOp(h, prog, pc, depth, r, st);
    BlockCorrect(h, body, prog, pc + 1, pos, depth, st);
  }

  /** JUMP_B on a value that is on the stack. */
  lemma JumpBRuns(h: Host, prog: Code, pc: nat, flag: nat, n: nat, depth: nat, r: Value, base: seq<Value>, env: Env,
                  c: Value)
    requires depth <= h.limit && flag < 4 && n < DATA_LIMIT && At(prog, pc, [Inst(JUMP_B, flag, n)])
    ensures Run(h, prog, pc, depth, r, State(base + [c], env))
         == Run(h, prog, pc + 1 + (if GetBool(h, c) == (flag != FLAG_FALSE) then n else 0), depth, r, State(base, env))
  {
    hide Run;
    AtWord(prog, pc, [Inst(JUMP_B, flag, n)], 0);
    assert Pop(base + [c]) == base;
    PopGoesOn(h, prog, pc, pc + 1 + (if GetBool(h, c) == (flag != FLAG_FALSE) then n else 0), depth, r,
              State(base + [c], env), r, State(base, env));
  }

  lemma JumpArmsLayout(prog: Code, pc: nat, t: Code, e: Code)
    requires At(prog, pc, JumpArms(t, e))
    ensures pc + |t| + |e| + 6 <= |prog|
    ensures At(prog, pc, [Inst(JUMP_B, FLAG_FALSE, |t| + 3)])
    ensures At(prog, pc + 1, [Inst(ENTER_RESULT, 0, 0)] + (t + Exit))
    ensures At(prog, pc + |t| + 3, [Inst(JUMP, 0, |e| + 2)])
    ensures At(prog, pc + |t| + 4, [Inst(ENTER_RESULT, 0, 0)] + (e + Exit))
  {
    hide Inst;
    var w := Inst(JUMP_B, FLAG_FALSE, |t| + 3);
    var enter := [Inst(ENTER_RESULT, 0, 0)];
    var jump := Inst(JUMP, 0, |e| + 2);
    assert JumpArms(t, e) == [w] + ((enter + (t + Exit)) + ([jump] + (enter + (e + Exit))));
    AtSplit(prog, pc, [w], (enter + (t + Exit)) + ([jump] + (enter + (e + Exit))));
    AtSplit(prog, pc + 1, enter + (t + Exit), [jump] + (enter + (e + Exit)));
    AtSplit(prog, pc + |t| + 3, [jump], enter + (e + Exit));
  }

  lemma {:induction false} JumpArmsCorrect(
      h: Host, thn: List<Stmt>, els: List<Stmt>, prog: Code, pc: nat, tpos: nat, epos: nat, depth: nat,
      r: Value, base: seq<Value>, env: Env, c: Value)
    requires GoodStmts(h, thn) && GoodStmts(h, els) && Setup(h, prog, depth, NoValue, env)
    requires At(prog, pc, JumpArms(CompileStmts(h, thn, tpos), CompileStmts(h, els, epos)))
    ensures GoesOn(h, prog, pc, pc + |JumpArms(CompileStmts(h, thn, tpos), CompileStmts(h, els, epos))|, depth, r,
                   State(base + [c], env), base, EvalBlock(h, if GetBool(h, c) then thn else els, depth, env))
    decreases h.limit - depth, 0, 2
  {
    hide Run, EvalBlock, CompileStmts, GoodStmts, GetBool, At;
    var t := CompileStmts(h, thn, tpos);
    var e := CompileStmts(h, els, epos);
    var w := Inst(JUMP_B, FLAG_FALSE, |t| + 3);
    var jump := Inst(JUMP, 0, |e| + 2);
    var mid := pc + |t| + 3;
    JumpArmsLayout(prog, pc, t, e);
    JumpBRuns(h, prog, pc, FLAG_FALSE, |t| + 3, depth, r, base, env, c);
    if GetBool(h, c) {
      EnterResultRuns(h, thn, prog, pc + 1, tpos, depth, r, State(base, env));
      match EvalBlock(h, thn, depth, env) {
        case Ok(v, _, env') =>
          AtWord(prog, mid, [jump], 0);
          PushGoesOn(h, prog, mid, mid + |e| + 3, depth, v, State(base, env'), v, State(base, env'));
        case Fail(_, _) =>
      }
    } else {
      EnterResultRuns(h, els, prog, mid + 1, epos, depth, r, State(base, env));
    }
  }

  lemma {:induction false} SkipArmsCorrect(
      h: Host, els: List<Stmt>, prog: Code, pc: nat, epos: nat, depth: nat, r: Value, base: seq<Value>, env: Env,
      c: Value)
    requires GoodStmts(h, els) && Setup(h, prog, depth, NoValue, env)
    requires At(prog, pc, SkipArms(CompileStmts(h, els, epos)))
    ensures GoesOn(h, prog, pc, pc + |SkipArms(CompileStmts(h, els, epos))|, depth, r, State(base + [c], env), base,
                   if GetBool(h, c) then Ok(NoValue, NoValue, env) else EvalBlock(h, els, depth, env))
    decreases h.limit - depth, 0, 2
  {
    hide Run, EvalBlock, CompileStmts, GoodStmts, GetBool;
    var e := CompileStmts(h, els, epos);
    var n := Inst(NULL, 0, 0);
    var w := Inst(JUMP_B, FLAG_TRUE, |e| + 2);
    var rest := [Inst(ENTER_RESULT, 0, 0)] + (e + Exit);
    assert SkipArms(e) == [n] + ([w] + rest);
    AtSplit(prog, pc, [n], [w] + rest);
    AtSplit(prog, pc + 1, [w], rest);
    AtWord(prog, pc, [n], 0);
    PushGoesOn(h, prog, pc, pc + 1, depth, r, State(base + [c], env), NoValue, State(base + [c], env));
    JumpBRuns(h, prog, pc + 1, FLAG_TRUE, |e| + 2, depth, NoValue, base, env, c);
    if !GetBool(h, c) {
      EnterResultRuns(h, els, prog, pc + 2, epos, depth, NoValue, State(base, env));
    }
  }

  /** Neither arm is patched: both are pushed and the command picks one. */
  lemma {:induction false} PushedArmsCorrect(
      h: Host, s: Stmt, prog: Code, pc: nat, tpos: nat, epos: nat, depth: nat,
      r: Value, base: seq<Value>, env: Env, c: Value)
    requires s.If? && GoodArg(h, s.thn) && GoodArg(h, s.els) && s.thn != Absent && s.els != Absent
    requires c.Plain() && Setup(h, prog, depth, r, env)
    requires At(prog, pc, CompileArg(h, s.thn, AsCode, tpos) + CompileArg(h, s.els, AsCode, epos)
             + [Inst(COM, 0, IF_COMMAND)])
    ensures GoesOn(h, prog, pc, pc + |CompileArg(h, s.thn, AsCode, tpos)| + |CompileArg(h, s.els, AsCode, epos)|
                   + 1, depth,
                   r, State(base + [c], env), base, EvalPushedArms(h, s, depth, r, env, c))
    decreases h.limit - depth, 1, s, 0
  {
    hide Run, EvalOperand, CompileArg, EvalArg, GoodArg, Stands, Invoke, GetBool, StartsEmpty;
    var t := CompileArg(h, s.thn, AsCode, tpos);
    var e := CompileArg(h, s.els, AsCode, epos);
    AtSplit(prog, pc, t + e, [Inst(COM, 0, IF_COMMAND)]);
    AtSplit(prog, pc, t, e);
    var st := State(base + [c], env);
    var tv := ArgCorrect(h, s.thn, AsCode, prog, pc, tpos, depth, r, st);
    WantedKind(h, s.thn, AsCode, depth, r, env);
    match EvalArg(h, s.thn, AsCode, depth, r, env) {
      case Fail(_, _) => FailsBelow(Run(h, prog, pc, depth, r, st), base, [c]);
      case Ok(x, r', env') =>
        var st' := State(base + [c] + [tv], env');
        var ev := ArgCorrect(h, s.els, AsCode, prog, pc + |t|, epos, depth, r', st');
        WantedKind(h, s.els, AsCode, depth, r', env');
        assert st'.stack == base + [c, tv];
        match EvalArg(h, s.els, AsCode, depth, r', env') {
          case Fail(_, _) => FailsBelow(Run(h, prog, pc + |t|, depth, r', st'), base, [c, tv]);
          case Ok(y, r'', env'') =>
            assert st'.stack + [ev] == base + [c, tv, ev];
            PickArm(h, prog, pc + |t| + |e|, depth, r'', base, env'', c, x, tv, y, ev);
        }
    }
  }

  /** The `if` command. */
  lemma {:induction false} PickArm(
      h: Host, prog: Code, pc: nat, depth: nat, r: Value, base: seq<Value>, env: Env, c: Value,
      x: Operand, tv: Value, y: Operand, ev: Value)
    requires Setup(h, prog, depth, r, env) && At(prog, pc, [Inst(COM, 0, IF_COMMAND)])
    requires x.Delayed? && Stands(h, x, tv) && y.Delayed? && Stands(h, y, ev)
    ensures GoesOn(h, prog, pc, pc + 1, depth, r, State(base + [c, tv, ev], env), base,
                   EvalOperand(h, if GetBool(h, c) then x else y, depth, env))
    decreases h.limit - depth, 0, 2
  {
    hide Run, EvalOperand, Stands, Invoke, GetBool;
    var vs := [c, tv, ev];
    OperandCorrect(h, if GetBool(h, c) then x else y, if GetBool(h, c) then tv else ev, depth, State(base + vs, env));
    CallStep(h, prog, pc, Inst(COM, 0, IF_COMMAND), depth, r, base, vs, env,
             EvalOperand(h, if GetBool(h, c) then x else y, depth, env));
  }

  /** Literal arms evaluate to themselves. */
  lemma LiteralArms(h: Host, s: Stmt, depth: nat, r: Value, env: Env, c: Value)
    requires s.If? && depth <= h.limit && s.els.Literal? && (s.thn.Literal? || s.thn == Paren(Nil))
    ensures EvalPushedArms(h, s, depth, r, env, c)
         == EvalBlock(h, if !GetBool(h, c) then s.els.body else if s.thn.Literal? then s.thn.body else Nil, depth, env)
  {
    hide GetBool, EvalBlock;
    assert EvalArg(h, s.thn, AsCode, depth, r, env) == Ok(Delayed(if s.thn.Literal? then s.thn.body else Nil), r, env);
    assert EvalArg(h, s.els, AsCode, depth, r, env) == Ok(Delayed(s.els.body), r, env);
  }

  lemma {:induction false} ArmsCorrect(
      h: Host, s: Stmt, prog: Code, pc: nat, tpos: nat, epos: nat, depth: nat,
      r: Value, base: seq<Value>, env: Env, c: Value)
    requires s.If? && GoodStmt(h, s) && c.Plain() && Setup(h, prog, depth, r, env)
    requires |CompileArg(h, s.thn, AsCode, tpos)| <= DATA_LIMIT && |CompileArg(h, s.els, AsCode, epos)| <= DATA_LIMIT
    requires At(prog, pc, CompileArms(CompileArg(h, s.thn, AsCode, tpos), CompileArg(h, s.els, AsCode, epos)))
    ensures GoesOn(h, prog, pc,
                   pc + |CompileArms(CompileArg(h, s.thn, AsCode, tpos), CompileArg(h, s.els, AsCode, epos))|,
                   depth, r, State(base + [c], env), base, EvalArms(h, s, depth, r, env, c))
    decreases h.limit - depth, 1, s, 1
  {
    hide Run, EvalBlock, CompileStmts, GoodStmts, GetBool, CompileArms, StartsEmpty, JumpArms, SkipArms, HostOk,
         PlainEnv, CompileArg, EvalPushedArms;
    ArmShapes(h, s.thn, s.els, tpos, epos);
    if BlockArg(s.thn, AsCode) && BlockArg(s.els, AsCode) {
      LiteralArms(h, s, depth, r, env, c);
      JumpArmsCorrect(h, s.thn.body, s.els.body, prog, pc, tpos + 2, epos + 2, depth, r, base, env, c);
    } else if Skipped(s.thn, s.els) {
      LiteralArms(h, s, depth, r, env, c);
      SkipArmsCorrect(h, s.els.body, prog, pc, epos + 2, depth, r, base, env, c);
    } else {
      PushedArmsCorrect(h, s, prog, pc, tpos, epos, depth, r, base, env, c);
    }
  }

  lemma {:induction false} IfCorrect(h: Host, s: Stmt, prog: Code, pc: nat, pos: nat, depth: nat, r: Value, st: State)
    requires s.If? && GoodStmt(h, s) && Setup(h, prog, depth, r, st.env)
    requires At(prog, pc, CompileStmt(h, s, pos)) && |CompileStmt(h, s, pos)| <= DATA_LIMIT
    ensures StmtRuns(h, prog, pc, pc + |CompileStmt(h, s, pos)|, depth, r, st, EvalStmt(h, s, depth, r, st.env))
    decreases h.limit - depth, 1, s, 2
  {
    hide Run, CompileArg, EvalArg, GoodArg, EvalArms, CompileArms;
    var c := CompileArg(h, s.cond, Any, pos);
    var t := CompileArg(h, s.thn, AsCode, pos + |c|);
    var e := CompileArg(h, s.els, AsCode, pos + |c| + |t|);
    AtSplit(prog, pc, c, CompileArms(t, e));
    var v := ArgCorrect(h, s.cond, Any, prog, pc, pos, depth, r, st);
    WantedKind(h, s.cond, Any, depth, r, st.env);
    match EvalArg(h, s.cond, Any, depth, r, st.env) {
      case Ok(_, r', env) =>
        ArmsLength(t, e);
        ArmsCorrect(h, s, prog, pc + |c|, pos + |c|, pos + |c| + |t|, depth, r', st.stack, env, v);
      case Fail(_, _) =>
    }
  }

  // ---- && and || ----

  /** A chain of literal blocks evaluates to itself, without any effect. */
  function Bodies(ps: List<Param>): (xs: seq<Operand>)
    ensures |xs| == Count(ps)
  {
    match ps
    case Nil => []
    case Cons(p, rest) => [if p.arg.Literal? then Delayed(p.arg.body) else Ready(NoValue)] + Bodies(rest)
  }

  lemma {:induction false} BlocksEvaluate(h: Host, ps: List<Param>, pos: nat, depth: nat, r: Value, env: Env)
    requires depth <= h.limit && AllBlocks(h, ps, pos) && Wanted(ps, {AsCond})
    requires |CompileParams(h, ps, pos)| <= DATA_LIMIT
    ensures EvalParams(h, ps, depth, r, env) == Ok(Bodies(ps), r, env)
  {
    hide CompileArg, StartsEmpty;
    match ps
    case Nil =>
    case Cons(p, rest) =>
      ArgHead(h, p.arg, p.want, pos);
      BlocksEvaluate(h, rest, pos + |CompileArg(h, p.arg, p.want, pos)|, depth, r, env);
  }

  /** JUMP_RESULT: take the value, run it if it is code, and jump if that decides. */
  lemma JumpResultRuns(h: Host, prog: Code, pc: nat, flag: nat, n: nat, depth: nat, r: Value, base: seq<Value>,
                       env: Env,
                       v: Value, a: Answer<Value>)
    requires depth <= h.limit && flag < 4 && n < DATA_LIMIT && At(prog, pc, [Inst(JUMP_RESULT, flag, n)])
    requires Returns(InvokeOrKeep(h, v, depth, State(base, env)), a, base)
    ensures match a
            case Ok(u, _, env') =>
              Run(h, prog, pc, depth, r, State(base + [v], env))
              == Run(h, prog, pc + 1 + (if GetBool(h, u) == (flag != FLAG_FALSE) then n else 0), depth, u,
              State(base, env'))
            case Fail(e, env') => Fails(Run(h, prog, pc, depth, r, State(base + [v], env)), e, env', base)
  {
    hide Run, InvokeOrKeep, GetBool;
    AtWord(prog, pc, [Inst(JUMP_RESULT, flag, n)], 0);
    assert Pop(base + [v]) == base;
    TopOp(h, prog, pc, depth, r, State(base + [v], env));
  }

  /** ENTER runs the block that follows it and pushes its result. */
  lemma {:induction false} EnterRuns(h: Host, body: List<Stmt>, prog: Code, pc: nat, pos: nat, depth: nat, r: Value,
                                     st: State)
    requires GoodStmts(h, body) && Setup(h, prog, depth, NoValue, st.env)
    requires At(prog, pc, [Inst(ENTER, 0, 0)] + (CompileStmts(h, body, pos) + Exit))
    ensures match EvalBlock(h, body, depth, st.env)
            case Ok(v, _, env) =>
              && v.Plain() && PlainEnv(env)
              && Run(h, prog, pc, depth, r, st)
              == Run(h, prog, pc + |CompileStmts(h, body, pos)| + 2, depth, r, State(st.stack + [v], env))
            case Fail(e, env) => Fails(Run(h, prog, pc, depth, r, st), e, env, st.stack)
    decreases h.limit - depth, 0, 1
  {
    hide Run, Enter, EvalBlock, CompileStmts, GoodStmts;
    var w := Inst(ENTER, 0, 0);
    AtSplit(prog, pc, [w], CompileStmts(h, body, pos) + Exit);
    AtWord(prog, pc, [w], 0);
    EnterOp(h, prog, pc, depth, r, st);
    var st' := Push(st, NoValue);
    BlockCorrect(h, body, prog, pc + 1, pos, depth, st');
    assert Pop(st'.stack) == st.stack;
    FailsBelow(Enter(h, prog, pc + 1, depth, st'), st.stack, [NoValue]);
  }

  lemma LinkWords(isOr: bool, b: Code, pos: nat, k: Code)
    requires b != []
    ensures Link(isOr, BlockLiteral(b, pos), k)
         == [Inst(JUMP_RESULT, if isOr then FLAG_TRUE else FLAG_FALSE, |b| + |k| + 2)]
            + (([Inst(ENTER, 0, 0)] + (b + Exit)) + k)
  {
    hide Pad4, OfBits;
    var c := BlockLiteral(b, pos);
    assert |c| == |b| + 3 && c[2..|c| - 1] == b && c[|c| - 1] == Inst(EXIT, 0, 0);
  }

  /** One link of the chain in words. */
  lemma ChainLink(h: Host, isOr: bool, p: Param, rest: List<Param>, pos: nat)
    requires p.want == AsCond && AllBlocks(h, Cons(p, rest), pos)
    requires |JumpChain(h, isOr, Cons(p, rest), pos)| <= DATA_LIMIT
    ensures p.arg.Literal?
    ensures var b := CompileStmts(h, p.arg.body, pos + 2);
            var k := JumpChain(h, isOr, rest, pos + |b| + 3);
            && AllBlocks(h, rest, pos + |b| + 3)
            && JumpChain(h, isOr, Cons(p, rest), pos)
            == [Inst(JUMP_RESULT, if isOr then FLAG_TRUE else FLAG_FALSE, |b| + |k| + 2)]
               + (([Inst(ENTER, 0, 0)] + (b + Exit)) + k)
  {
    hide CompileStmts, StartsEmpty, IsBlock, Inst, CompileArg, Link;
    var c := CompileArg(h, p.arg, p.want, pos);
    var k := JumpChain(h, isOr, rest, pos + |c|);
    LinkOfChain(h, isOr, p, rest, pos);
    ArgHead(h, p.arg, p.want, pos);
    var b := CompileStmts(h, p.arg.body, pos + 2);
    CondBlock(h, p.arg, pos);
    LinkWords(isOr, b, pos, k);
  }

  lemma CondBlock(h: Host, a: Arg, pos: nat)
    requires BlockArg(a, AsCond) && |CompileArg(h, a, AsCond, pos)| <= DATA_LIMIT
    ensures var b := CompileStmts(h, a.body, pos + 2);
            CompileArg(h, a, AsCond, pos) == BlockLiteral(b, pos) && b != []
  {
    hide CompileStmts, StmtStartsEmpty;
    StmtsHead(h, a.body, pos + 2);
  }

  /** Evaluating the first operand of a chain beforehand changes nothing. */
  lemma ChainReady(h: Host, isOr: bool, x: Operand, xs: seq<Operand>, depth: nat, env: Env)
    requires depth <= h.limit && EvalOperand(h, x, depth, env).Ok?
    ensures var a := EvalOperand(h, x, depth, env);
            EvalChain(h, isOr, [x] + xs, depth, env) == EvalChain(h, isOr, [Ready(a.x)] + xs, depth, a.env)
  {
    hide EvalBlock;
    assert ([x] + xs)[1..] == xs;
    var a := EvalOperand(h, x, depth, env);
    assert ([Ready(a.x)] + xs)[1..] == xs;
  }

  /** How a chain goes on after its first operand. */
  function AfterFirst(h: Host, isOr: bool, a: Answer<Value>, xs: seq<Operand>, depth: nat): Answer<Value>
    requires depth <= h.limit
  {
    if a.Fail? || GetBool(h, a.x) == isOr || xs == [] then WithoutResult(a) else EvalChain(h, isOr, xs, depth, a.env)
  }

  function WithoutResult(a: Answer<Value>): Answer<Value> {
    if a.Ok? then Ok(a.x, NoValue, a.env) else a
  }

  lemma ChainFirst(h: Host, isOr: bool, x: Operand, xs: seq<Operand>, depth: nat, env: Env)
    requires depth <= h.limit
    ensures EvalChain(h, isOr, [x] + xs, depth, env) == AfterFirst(h, isOr, EvalOperand(h, x, depth, env), xs, depth)
  {
    hide EvalOperand;
    assert ([x] + xs)[1..] == xs;
  }

  lemma {:induction false} JumpChainCorrect(
      h: Host, isOr: bool, ps: List<Param>, x: Operand, v: Value, prog: Code, pc: nat, pos: nat, depth: nat,
      r: Value, base: seq<Value>, env: Env)
    requires GoodParams(h, ps) && Setup(h, prog, depth, NoValue, env) && Stands(h, x, v)
    requires AllBlocks(h, ps, pos) && Wanted(ps, {AsCond}) && At(prog, pc, JumpChain(h, isOr, ps, pos))
    ensures GoesOn(h, prog, pc, pc + |JumpChain(h, isOr, ps, pos)|, depth, r, State(base + [v], env), base,
                   EvalChain(h, isOr, [x] + Bodies(ps), depth, env))
    decreases h.limit - depth, 0, 3 + Count(ps), 0
  {
    hide Run, EvalOperand, EvalChain, Stands, InvokeOrKeep, GetBool, CompileArg, CompileStmts, JumpChain, AllBlocks,
         HostOk, PlainEnv, GoodStmts;
    var flag := if isOr then FLAG_TRUE else FLAG_FALSE;
    OperandCorrect(h, x, v, depth, State(base, env));
    ChainFirst(h, isOr, x, Bodies(ps), depth, env);
    var a := EvalOperand(h, x, depth, env);
    match ps {
      case Nil =>
        LastLink(h, isOr, pos);
        JumpResultRuns(h, prog, pc, flag, 0, depth, r, base, env, v, a);
      case Cons(p, rest) =>
        ChainLink(h, isOr, p, rest, pos);
        var b := CompileStmts(h, p.arg.body, pos + 2);
        var k := JumpChain(h, isOr, rest, pos + |b| + 3);
        var enter := [Inst(ENTER, 0, 0)] + (b + Exit);
        var jump := Inst(JUMP_RESULT, flag, |b| + |k| + 2);
        AtSplit(prog, pc, [jump], enter + k);
        AtSplit(prog, pc + 1, enter, k);
        JumpResultRuns(h, prog, pc, flag, |b| + |k| + 2, depth, r, base, env, v, a);
        if a.Ok? && GetBool(h, a.x) != isOr {
          LaterLinks(h, isOr, p, rest, prog, pc + 1, pos, depth, a.x, base, a.env);
        }
    }
  }

  lemma LastLink(h: Host, isOr: bool, pos: nat)
    ensures JumpChain(h, isOr, Nil, pos) == [Inst(JUMP_RESULT, if isOr then FLAG_TRUE else FLAG_FALSE, 0)]
  {
  }

  /** The first result did not decide: enter the next block, and go on with its result. */
  lemma {:induction false} LaterLinks(
      h: Host, isOr: bool, p: Param, rest: List<Param>, prog: Code, pc: nat, pos: nat, depth: nat,
      r: Value, base: seq<Value>, env: Env)
    requires p.arg.Literal? && GoodStmts(h, p.arg.body) && GoodParams(h, rest) && Setup(h, prog, depth, NoValue, env)
    requires AllBlocks(h, rest, pos + |CompileStmts(h, p.arg.body, pos + 2)| + 3) && Wanted(rest, {AsCond})
    requires At(prog, pc, [Inst(ENTER, 0, 0)] + (CompileStmts(h, p.arg.body, pos + 2) + Exit))
    requires var n := |CompileStmts(h, p.arg.body, pos + 2)|;
             At(prog, pc + n + 2, JumpChain(h, isOr, rest, pos + n + 3))
    ensures var n := |CompileStmts(h, p.arg.body, pos + 2)|;
            GoesOn(h, prog, pc, pc + n + 2 + |JumpChain(h, isOr, rest, pos + n + 3)|, depth, r, State(base, env), base,
                   EvalChain(h, isOr, [Delayed(p.arg.body)] + Bodies(rest), depth, env))
    decreases h.limit - depth, 0, 3 + Count(rest), 1
  {
    hide Run, EvalBlock, EvalChain, InvokeOrKeep, GetBool, CompileArg, CompileStmts, JumpChain, AllBlocks, GoodStmts;
    var x := Delayed(p.arg.body);
    var n := |CompileStmts(h, p.arg.body, pos + 2)|;
    EnterRuns(h, p.arg.body, prog, pc, pos + 2, depth, r, State(base, env));
    ChainFirst(h, isOr, x, Bodies(rest), depth, env);
    match EvalBlock(h, p.arg.body, depth, env) {
      case Fail(_, _) =>
      case Ok(w, _, env') =>
        ChainReady(h, isOr, x, Bodies(rest), depth, env);
        JumpChainCorrect(h, isOr, rest, Ready(w), w, prog, pc + n + 2, pos + n + 3, depth, r, base, env');
    }
  }

  lemma {:induction false} AndOrCorrect(h: Host, s: Stmt, prog: Code, pc: nat, pos: nat, depth: nat, r: Value,
                                        st: State)
    requires s.AndOr? && GoodStmt(h, s) && Setup(h, prog, depth, r, st.env)
    requires At(prog, pc, CompileStmt(h, s, pos))
    ensures StmtRuns(h, prog, pc, pc + |CompileStmt(h, s, pos)|, depth, r, st, EvalStmt(h, s, depth, r, st.env))
    decreases h.limit - depth, 1, s, 2
  {
    hide Run, CompileArg, EvalArg, CompileParams, EvalParams, GoodParams, EvalChain, JumpChain, AllBlocks;
    match s.params {
      case Nil =>
        AtWord(prog, pc, CompileStmt(h, s, pos), 0);
        assert EvalParams(h, Nil, depth, r, st.env) == Ok([], r, st.env) by { AndOrNothing(h, s, depth, r, st.env); }
        PushGoesOn(h, prog, pc, pc + 1, depth, r, st, Int(if s.isOr then 0 else 1), st);
        AndOrNothing(h, s, depth, r, st.env);
      case Cons(p, rest) =>
        var c := CompileArg(h, p.arg, p.want, pos);
        if AllBlocks(h, rest, pos + |c|) {
          ChainStmtCorrect(h, s, prog, pc, pos, depth, r, st);
        } else {
          PushedChainCorrect(h, s, prog, pc, pos, depth, r, st);
        }
    }
  }

  lemma AndOrNothing(h: Host, s: Stmt, depth: nat, r: Value, env: Env)
    requires depth <= h.limit && s.AndOr? && s.params == Nil
    ensures EvalParams(h, Nil, depth, r, env) == Ok([], r, env)
    ensures EvalStmt(h, s, depth, r, env) == Ok((), Int(if s.isOr then 0 else 1), env)
  {
  }

  /** The first operand is pushed, the others are literal blocks: the patched form. */
  lemma {:induction false} ChainStmtCorrect(h: Host, s: Stmt, prog: Code, pc: nat, pos: nat, depth: nat, r: Value,
                                            st: State)
    requires s.AndOr? && s.params.Cons? && GoodStmt(h, s) && Setup(h, prog, depth, r, st.env)
    requires At(prog, pc, CompileStmt(h, s, pos))
    requires var p := s.params.head;
             AllBlocks(h, s.params.tail, pos + |CompileArg(h, p.arg, p.want, pos)|)
    ensures StmtRuns(h, prog, pc, pc + |CompileStmt(h, s, pos)|, depth, r, st, EvalStmt(h, s, depth, r, st.env))
    decreases h.limit - depth, 1, s, 1
  {
    hide Run, CompileArg, EvalArg, CompileParams, EvalChain, JumpChain, AllBlocks, GoodArg, Stands;
    var p, rest := s.params.head, s.params.tail;
    var c := CompileArg(h, p.arg, p.want, pos);
    var pos1 := pos + |c|;
    AtSplit(prog, pc, c, JumpChain(h, s.isOr, rest, pos1));
    var v := ArgCorrect(h, p.arg, p.want, prog, pc, pos, depth, r, st);
    match EvalArg(h, p.arg, p.want, depth, r, st.env) {
      case Fail(_, _) =>
      case Ok(x, r', env) =>
        ChainLength(h, s.isOr, rest, pos1);
        BlocksEvaluate(h, rest, pos1, depth, r', env);
        JumpChainCorrect(h, s.isOr, rest, x, v, prog, pc + |c|, pos1, depth, r', st.stack, env);
    }
  }

  lemma PushedChainWords(h: Host, s: Stmt, pos: nat)
    requires s.AndOr? && s.params.Cons?
    requires var p := s.params.head;
             !AllBlocks(h, s.params.tail, pos + |CompileArg(h, p.arg, p.want, pos)|)
    ensures CompileStmt(h, s, pos)
         == CompileParams(h, s.params, pos)
         + CallWords(if s.isOr then OR_COMMAND else AND_COMMAND, true, Count(s.params))
  {
    hide CompileArg, AllBlocks, JumpChain;
  }

  /** The call of `&&` or `||` with operands that lie on the stack. */
  lemma {:induction false} ChainCallRuns(
      h: Host, isOr: bool, xs: seq<Operand>, vs: seq<Value>, prog: Code, pc: nat, depth: nat, r: Value,
      base: seq<Value>,
      env: Env)
    requires StandAll(h, xs, vs) && HostOk(h) && depth <= h.limit && PlainEnv(env) && |vs| < WORD_LIMIT
    requires At(prog, pc, CallWords(if isOr then OR_COMMAND else AND_COMMAND, true, |vs|))
    ensures GoesOn(h, prog, pc, pc + 2, depth, r, State(base + vs, env), base, EvalChain(h, isOr, xs, depth, env))
    decreases h.limit - depth, 0, 3 + |xs|
  {
    hide Run, EvalChain, Stands, OfBits, RunAndOr, HostOk, PlainEnv;
    var w := Inst(COM_V, 0, if isOr then OR_COMMAND else AND_COMMAND);
    ChainCorrect(h, isOr, xs, vs, depth, State(base + vs, env));
    CallStep(h, prog, pc, w, depth, r, base, vs, env, EvalChain(h, isOr, xs, depth, env));
  }

  /** Some operand is not a literal block: all are pushed and the command is called. */
  lemma {:induction false} PushedChainCorrect(h: Host, s: Stmt, prog: Code, pc: nat, pos: nat, depth: nat, r: Value,
                                              st: State)
    requires s.AndOr? && s.params.Cons? && GoodStmt(h, s) && Setup(h, prog, depth, r, st.env)
    requires At(prog, pc, CompileStmt(h, s, pos))
    requires var p := s.params.head;
             !AllBlocks(h, s.params.tail, pos + |CompileArg(h, p.arg, p.want, pos)|)
    ensures StmtRuns(h, prog, pc, pc + |CompileStmt(h, s, pos)|, depth, r, st, EvalStmt(h, s, depth, r, st.env))
    decreases h.limit - depth, 1, s, 1
  {
    hide Run, CompileStmt, CompileParams, EvalParams, EvalChain, AllBlocks, GoodParams, Stands, OfBits, RunAndOr,
         HostOk, PlainEnv, Count;
    var id := if s.isOr then OR_COMMAND else AND_COMMAND;
    var c := CompileParams(h, s.params, pos);
    var call := CallWords(id, true, Count(s.params));
    PushedChainWords(h, s, pos);
    AtSplit(prog, pc, c, call);
    var vs := ParamsCorrect(h, s.params, prog, pc, pos, depth, r, st);
    match EvalParams(h, s.params, depth, r, st.env) {
      case Fail(_, _) =>
      case Ok(xs, r', env) =>
        ChainCallRuns(h, s.isOr, xs, vs, prog, pc + |c|, depth, r', st.stack, env);
    }
  }

  lemma {:induction false} StmtCorrect(h: Host, s: Stmt, prog: Code, pc: nat, pos: nat, depth: nat, r: Value, st: State)
    requires GoodStmt(h, s) && Setup(h, prog, depth, r, st.env)
    requires At(prog, pc, CompileStmt(h, s, pos))
    ensures StmtRuns(h, prog, pc, pc + |CompileStmt(h, s, pos)|, depth, r, st, EvalStmt(h, s, depth, r, st.env))
    decreases h.limit - depth, 1, s, 3
  {
    hide Run, CompileStmt, EvalStmt, GoodStmt;
    match s {
      case Assign(_, _) => AssignCorrect(h, s, prog, pc, pos, depth, r, st);
      case Result(_) => ResultNotCorrect(h, s, prog, pc, pos, depth, r, st);
      case Not(_) => ResultNotCorrect(h, s, prog, pc, pos, depth, r, st);
      case Do(_) => DoCorrect(h, s, prog, pc, pos, depth, r, st);
      case If(_, _, _) => IfCorrect(h, s, prog, pc, pos, depth, r, st);
      case AndOr(_, _) => AndOrCorrect(h, s, prog, pc, pos, depth, r, st);
      case Command(_, _, _) => CommandCorrect(h, s, prog, pc, pos, depth, r, st);
      case CallAlias(_, _) => AliasCallCorrect(h, s, prog, pc, pos, depth, r, st);
      case IntStmt(_) => LiteralStmtCorrect(h, s, prog, pc, pos, depth, r, st);
      case StrStmt(_) => LiteralStmtCorrect(h, s, prog, pc, pos, depth, r, st);
    }
  }
}
