/** The main results about compiling and running. */
module Theorems {
  import opened Words
  import opened Syntax
  import opened Emit
  import opened WellFormed
  import opened Vm
  import opened Eval
  import opened Steps
  import opened Correct
  import opened Gen

  /** Running a compiled program gives exactly the result, the aliases and the arguments that the
      syntax means, or exactly its error, whatever lies on the stack; and on both kinds of exit the
      stack is as before. It is stuck only where the meaning itself is unspecified. */
  lemma ProgramCorrect(h: Host, ss: List<Stmt>, depth: nat, st: State)
    requires HostOk(h) && GoodStmts(h, ss) && |CompileMain(h, ss)| <= DATA_LIMIT
    requires depth <= h.limit && PlainEnv(st.env)
    ensures var o := Enter(h, CompileMain(h, ss), 1, depth, st);
            match EvalBlock(h, ss, depth, st.env)
            case Ok(v, _, env) => o == Done(|CompileMain(h, ss)|, v, State(st.stack, env))
            case Fail(e, env) => o == if e.Unspecified? then Stuck else Err(e, State(st.stack, env))
  {
    MainCode(h, ss);
    BlockCorrect(h, ss, CompileMain(h, ss), 1, 1, depth, st);
  }

  /** The code of a block does the same wherever it lies, whatever surrounds it, and whichever
      position it was compiled for. */
  lemma PositionIndependent(h: Host, body: List<Stmt>, p1: Code, start1: nat, pos1: nat, p2: Code, start2: nat,
                            pos2: nat,
                            depth: nat, st: State)
    requires HostOk(h) && GoodStmts(h, body) && depth <= h.limit && PlainEnv(st.env)
    requires |p1| <= DATA_LIMIT && CodeAt(h, p1, start1, body, pos1)
    requires |p2| <= DATA_LIMIT && CodeAt(h, p2, start2, body, pos2)
    ensures var o1 := Enter(h, p1, start1, depth, st);
            var o2 := Enter(h, p2, start2, depth, st);
            && (o1.Done? <==> o2.Done?)
            && (o1.Done? ==> o1.r == o2.r && o1.st == o2.st
                             && o1.pc == start1 + |CompileStmts(h, body, pos1)| + 1
                             && o2.pc == start2 + |CompileStmts(h, body, pos2)| + 1)
            && (!o1.Done? ==> o1 == o2)
  {
    BlockCorrect(h, body, p1, start1, pos1, depth, st);
    BlockCorrect(h, body, p2, start2, pos2, depth, st);
  }

  /** Two stretches of code, each used up to its end, do the same. */
  ghost predicate Agree(h: Host, p1: Code, pc1: nat, end1: nat, p2: Code, pc2: nat, end2: nat, depth: nat, r: Value,
                        st: State, base: seq<Value>)
    requires depth <= h.limit
  {
    exists a :: GoesOn(h, p1, pc1, end1, depth, r, st, base, a) && GoesOn(h, p2, pc2, end2, depth, r, st, base, a)
  }

  /** gen_if patching two block literals into jumps means the same as pushing both and calling the
      `if` command, for every condition and all bodies. */
  lemma PatchedIfIsTheCommand(h: Host, s: Stmt, p1: Code, pc1: nat, p2: Code, pc2: nat, tpos: nat, epos: nat,
                              depth: nat, r: Value, base: seq<Value>, env: Env, c: Value)
    requires s.If? && GoodStmt(h, s) && BlockArg(s.thn, AsCode) && BlockArg(s.els, AsCode)
    requires Setup(h, p1, depth, r, env) && Setup(h, p2, depth, r, env) && c.Plain()
    requires var t, e := CompileArg(h, s.thn, AsCode, tpos), CompileArg(h, s.els, AsCode, epos);
             && At(p1, pc1, CompileArms(t, e)) && At(p2, pc2, t + e + [Inst(COM, 0, IF_COMMAND)])
    ensures var t, e := CompileArg(h, s.thn, AsCode, tpos), CompileArg(h, s.els, AsCode, epos);
            Agree(h, p1, pc1, pc1 + |CompileArms(t, e)|, p2, pc2, pc2 + |t| + |e| + 1, depth, r,
                  State(base + [c], env), base)
  {
    hide CompileArg, CompileArms, Run, GoodArg, StartsEmpty;
    ArmsLength(CompileArg(h, s.thn, AsCode, tpos), CompileArg(h, s.els, AsCode, epos));
    ArmsCorrect(h, s, p1, pc1, tpos, epos, depth, r, base, env, c);
    PushedArmsCorrect(h, s, p2, pc2, tpos, epos, depth, r, base, env, c);
  }

  /** gen_if patching an empty true arm differs from the command in one case only: a true condition
      at the recursion limit, where the command fails to enter the empty block. */
  lemma SkippedIfIsTheCommandBelowTheLimit(h: Host, s: Stmt, depth: nat, r: Value, env: Env, c: Value)
    requires s.If? && depth <= h.limit
    ensures EvalArms(h, s, depth, r, env, c) == EvalPushedArms(h, s, depth, r, env, c)
       <==> !(Skipped(s.thn, s.els) && GetBool(h, c) && depth == h.limit)
  {
    hide GetBool;
    if Skipped(s.thn, s.els) && GetBool(h, c) {
      LiteralArms(h, s, depth, r, env, c);
    }
  }

  /** The words that gen_and_or leaves, for any number of blocks, mean the same as pushing all of the
      blocks and calling the `&&` or `||` command. */
  lemma PatchedChainIsTheCommand(h: Host, isOr: bool, rest: List<Param>, v: Value, p1: Code, pc1: nat, p2: Code,
                                 pc2: nat,
                                 pos: nat, depth: nat, r: Value, base: seq<Value>, env: Env, x: Operand)
    requires GoodParams(h, rest) && Wanted(rest, {AsCond}) && AllBlocks(h, rest, pos) && Count(rest) + 1 < WORD_LIMIT
    requires Setup(h, p1, depth, r, env) && Setup(h, p2, depth, r, env) && Stands(h, x, v)
    requires At(p1, pc1, JumpChain(h, isOr, rest, pos))
    requires At(p2, pc2, CompileParams(h, rest, pos)
                         + CallWords(if isOr then OR_COMMAND else AND_COMMAND, true, Count(rest) + 1))
    ensures Agree(h, p1, pc1, pc1 + |JumpChain(h, isOr, rest, pos)|, p2, pc2, pc2 + |CompileParams(h, rest, pos)| + 2,
                  depth, r, State(base + [v], env), base)
  {
    hide CompileParams, JumpChain, Run, GoodParams, Stands, AllBlocks, EvalChain, OfBits, RunAndOr, EvalParams, Count,
         InvokeOrKeep, HostOk, PlainEnv;
    JumpChainCorrect(h, isOr, rest, x, v, p1, pc1, pos, depth, r, base, env);
    var c := CompileParams(h, rest, pos);
    var call := CallWords(if isOr then OR_COMMAND else AND_COMMAND, true, Count(rest) + 1);
    AtSplit(p2, pc2, c, call);
    BlocksEvaluate(h, rest, pos, depth, r, env);
    var us := ParamsCorrect(h, rest, p2, pc2, pos, depth, r, State(base + [v], env));
    var vs := [v] + us;
    assert base + [v] + us == base + vs;
    ChainCallRuns(h, isOr, [x] + Bodies(rest), vs, p2, pc2 + |c|, depth, r, base, env);
  }

  // ---- conditions ----

  /** Every number but zero is true, negative ones too; no value and code are false; text is what the host
      says. So `!` gives 1 for zero and no value only. */
  lemma NotOfValue(h: Host, arg: Arg, depth: nat, r: Value, env: Env)
    requires depth <= h.limit && arg != Absent
    requires EvalArg(h, arg, Any, depth, r, env).Ok?
    ensures var a, b := EvalArg(h, arg, Any, depth, r, env), EvalStmt(h, Not(arg), depth, r, env);
            && b.Ok? && b.env == a.env
            && match ValueOf(a.x)
               case Int(i) => b.r == Int(if i == 0 then 1 else 0)
               case Str(s) => b.r == Int(if h.truthy(s) then 0 else 1)
               case _ => b.r == Int(1)
  {
    hide EvalArg;
  }

  /** `if` runs the true arm for every number but zero, and the false arm for zero and no value. */
  lemma IfOfValue(h: Host, s: Stmt, depth: nat, r: Value, env: Env)
    requires depth <= h.limit && s.If? && BlockArg(s.thn, AsCode) && BlockArg(s.els, AsCode)
    requires EvalArg(h, s.cond, Any, depth, r, env).Ok?
    ensures var a, b := EvalArg(h, s.cond, Any, depth, r, env), EvalStmt(h, s, depth, r, env);
            match ValueOf(a.x)
            case Int(i) => b == Finished(EvalBlock(h, if i == 0 then s.els.body else s.thn.body, depth, a.env))
            case Str(t) => b == Finished(EvalBlock(h, if h.truthy(t) then s.thn.body else s.els.body, depth, a.env))
            case _ => b == Finished(EvalBlock(h, s.els.body, depth, a.env))
  {
    hide EvalArg, EvalBlock;
    var a := EvalArg(h, s.cond, Any, depth, r, env);
    LiteralArms(h, s, depth, a.r, a.env, ValueOf(a.x));
  }

  /** `&&` goes on after a number exactly if it is not zero, and the other connective exactly if it is. */
  lemma ChainOfNumber(h: Host, isOr: bool, i: Int32, rest: seq<Operand>, depth: nat, env: Env)
    requires depth <= h.limit && rest != []
    ensures EvalChain(h, isOr, [Ready(Int(i))] + rest, depth, env)
         == if (i != 0) == isOr then Ok(Int(i), NoValue, env) else EvalChain(h, isOr, rest, depth, env)
  {
    var xs := [Ready(Int(i))] + rest;
    assert xs[0] == Ready(Int(i)) && xs[1..] == rest;
    assert EvalOperand(h, xs[0], depth, env) == Ok(Int(i), NoValue, env);
  }

  // ---- the case that gen_if gets wrong ----

  /** gen_if patches the true arm as an empty block exactly when its code begins with EMPTY and the
      false arm is a literal block. That is right exactly when the arm is not MistakenForEmpty. */
  lemma TakenForEmptyExactlyWhen(h: Host, thn: Arg, els: Arg, tpos: nat, epos: nat)
    requires |CompileArg(h, thn, AsCode, tpos)| <= DATA_LIMIT && |CompileArg(h, els, AsCode, epos)| <= DATA_LIMIT
    requires thn != Absent
    ensures var t, e := CompileArg(h, thn, AsCode, tpos), CompileArg(h, els, AsCode, epos);
            var taken := Patchable(t, e) && !IsBlock(t);
            && (taken <==> BlockArg(els, AsCode) && StartsEmpty(thn, AsCode))
            && (taken ==> (t == [Inst(EMPTY, 0, 0)] <==> !MistakenForEmpty(thn, els)))
            && (taken ==> (Skipped(thn, els) <==> !MistakenForEmpty(thn, els)))
  {
    hide CompileStmts, StmtStartsEmpty, IsBlock;
    ArgHead(h, thn, AsCode, tpos);
    ArgHead(h, els, AsCode, epos);
    if thn.Paren? && thn.stmts != Nil {
      ParenIsLong(h, thn.stmts, tpos);
    } else if StartsEmpty(thn, AsCode) {
      EmptyArm(h, thn, tpos);
    }
  }

  lemma ParenIsLong(h: Host, stmts: List<Stmt>, pos: nat)
    requires stmts != Nil && |CompileArg(h, Paren(stmts), AsCode, pos)| <= DATA_LIMIT
    ensures |CompileArg(h, Paren(stmts), AsCode, pos)| >= 3
  {
    hide CompileStmts;
    StmtsHead(h, stmts, pos);
  }

  /** What gen_if makes of an arm that is mistaken for empty, for every such arm: the jump over the
      false arm, taken on a true value, finds the code compiled from the arm's result. Code counts as
      false, so whatever reaches the end of the arm runs the false arm, or fails to compile. */
  lemma MistakenArmRunsElse(h: Host, thn: Arg, els: Arg, prog: Code, pc: nat, tpos: nat, epos: nat, depth: nat,
                            r: Value, st: State)
    requires MistakenForEmpty(thn, els) && els.Literal? && GoodArg(h, els) && Setup(h, prog, depth, NoValue, st.env)
    requires |CompileArg(h, thn, AsCode, tpos)| <= DATA_LIMIT && |CompileArg(h, els, AsCode, epos)| <= DATA_LIMIT
    requires At(prog, pc, CompileArms(CompileArg(h, thn, AsCode, tpos), CompileArg(h, els, AsCode, epos)))
    ensures var t, e := CompileArg(h, thn, AsCode, tpos), CompileArg(h, els, AsCode, epos);
            |t| >= 3 && GoesOn(h, prog, pc + |t| - 2, pc + |CompileArms(t, e)|, depth, r, st, st.stack,
                               if CompileValue(h, r) == None then Fail(SyntaxError, st.env)
                               else EvalBlock(h, els.body, depth, st.env))
  {
    hide Run, CompileArms, CompileStmts, IsBlock, EvalBlock, GoodStmts, CompileArg, CompileValue, MistakenForEmpty;
    var t, e := CompileArg(h, thn, AsCode, tpos), CompileArg(h, els, AsCode, epos);
    var body := CompileStmts(h, els.body, epos + 2);
    var rest := [Inst(ENTER_RESULT, 0, 0)] + (body + Exit);
    MistakenLayout(h, thn, els, prog, pc, tpos, epos);
    var at := pc + |t| - 2;
    AtWord(prog, at, [Inst(RESULT_ARG, 0, 0)], 0);
    PushGoesOn(h, prog, at, at + 1, depth, r, st, NoValue, Push(st, r));
    AtWord(prog, at + 1, [Inst(COMPILE, 0, 0)], 0);
    CompileOrThrow(h, prog, at + 1, depth, r, st);
    match CompileValue(h, r) {
      case None =>
      case Some(code) =>
        JumpBRuns(h, prog, at + 2, FLAG_TRUE, |body| + 2, depth, NoValue, st.stack, st.env, CodeRef(code, 1));
        EnterResultRuns(h, els.body, prog, at + 3, epos + 2, depth, NoValue, st);
    }
  }

  lemma CompileOrThrow(h: Host, prog: Code, pc: nat, depth: nat, v: Value, st: State)
    requires depth <= h.limit && pc < |prog| && prog[pc] == Inst(COMPILE, 0, 0)
    ensures var o := Run(h, prog, pc, depth, NoValue, Push(st, v));
            match CompileValue(h, v)
            case None => o == Err(SyntaxError, Push(st, v))
            case Some(code) => o == Run(h, prog, pc + 1, depth, NoValue, State(st.stack + [CodeRef(code, 1)], st.env))
  {
    hide CompileValue;
    assert Pop(Push(st, v).stack) == st.stack;
    PopOp(h, prog, pc, depth, NoValue, Push(st, v));
  }

  /** Where the words of such an arm and of the false arm lie. */
  lemma MistakenLayout(h: Host, thn: Arg, els: Arg, prog: Code, pc: nat, tpos: nat, epos: nat)
    requires MistakenForEmpty(thn, els) && els.Literal?
    requires |CompileArg(h, thn, AsCode, tpos)| <= DATA_LIMIT && |CompileArg(h, els, AsCode, epos)| <= DATA_LIMIT
    requires At(prog, pc, CompileArms(CompileArg(h, thn, AsCode, tpos), CompileArg(h, els, AsCode, epos)))
    ensures var t, e := CompileArg(h, thn, AsCode, tpos), CompileArg(h, els, AsCode, epos);
            var body := CompileStmts(h, els.body, epos + 2);
            && |t| >= 3 && |e| == |body| + 3 && |CompileArms(t, e)| == |t| + |body| + 3
            && At(prog, pc + |t| - 2, [Inst(RESULT_ARG, 0, 0)]) && At(prog, pc + |t| - 1, [Inst(COMPILE, 0, 0)])
            && At(prog, pc + |t|, [Inst(JUMP_B, FLAG_TRUE, |body| + 2)])
            && At(prog, pc + |t| + 1, [Inst(ENTER_RESULT, 0, 0)] + (body + Exit))
  {
    hide CompileStmts, CompileArg, CompileArms, MistakenForEmpty;
    var t, e := CompileArg(h, thn, AsCode, tpos), CompileArg(h, els, AsCode, epos);
    var c, body := MistakenShape(h, thn, els, tpos, epos);
    var first := [Inst(NULL, 0, 0)] + c[1..];
    var jump := [Inst(JUMP_B, FLAG_TRUE, |body| + 2)];
    var rest := [Inst(ENTER_RESULT, 0, 0)] + (body + Exit);
    AtSplit(prog, pc, first, [Inst(RESULT_ARG, 0, 0)] + ([Inst(COMPILE, 0, 0)] + (jump + rest)));
    AtSplit(prog, pc + |c|, [Inst(RESULT_ARG, 0, 0)], [Inst(COMPILE, 0, 0)] + (jump + rest));
    AtSplit(prog, pc + |c| + 1, [Inst(COMPILE, 0, 0)], jump + rest);
    AtSplit(prog, pc + |c| + 2, jump, rest);
  }

  lemma MistakenShape(h: Host, thn: Arg, els: Arg, tpos: nat, epos: nat) returns (c: Code, body: Code)
    requires MistakenForEmpty(thn, els) && els.Literal?
    requires |CompileArg(h, thn, AsCode, tpos)| <= DATA_LIMIT && |CompileArg(h, els, AsCode, epos)| <= DATA_LIMIT
    ensures body == CompileStmts(h, els.body, epos + 2) && c != []
    ensures CompileArg(h, thn, AsCode, tpos) == c + [Inst(RESULT_ARG, 0, 0), Inst(COMPILE, 0, 0)]
    ensures CompileArg(h, els, AsCode, epos) == BlockLiteral(body, epos) && body != []
    ensures CompileArms(CompileArg(h, thn, AsCode, tpos), CompileArg(h, els, AsCode, epos))
         == ([Inst(NULL, 0, 0)] + c[1..])
            + ([Inst(RESULT_ARG, 0, 0)]
               + ([Inst(COMPILE, 0, 0)]
                  + ([Inst(JUMP_B, FLAG_TRUE, |body| + 2)] + ([Inst(ENTER_RESULT, 0, 0)] + (body + Exit)))))
  {
    hide CompileStmts, IsBlock, StartsEmpty, CompileArms;
    c, body := CompileStmts(h, thn.stmts, tpos), CompileStmts(h, els.body, epos + 2);
    ArgHead(h, thn, AsCode, tpos);
    ArgHead(h, els, AsCode, epos);
    ParenIsLong(h, thn.stmts, tpos);
    StmtsHead(h, els.body, epos + 2);
    assert CompileArg(h, thn, AsCode, tpos) == c + [Inst(RESULT_ARG, 0, 0), Inst(COMPILE, 0, 0)];
    assert CompileArg(h, els, AsCode, epos) == BlockLiteral(body, epos);
    MistakenCode(c, body, epos);
  }

  lemma MistakenCode(c: Code, body: Code, epos: nat)
    requires c != [] && body != [] && c[0].op == EMPTY && ClearRet(c[0]) == Inst(EMPTY, 0, 0)
    requires IsBlock(BlockLiteral(body, epos))
    requires !IsBlock(c + [Inst(RESULT_ARG, 0, 0), Inst(COMPILE, 0, 0)])
    ensures CompileArms(c + [Inst(RESULT_ARG, 0, 0), Inst(COMPILE, 0, 0)], BlockLiteral(body, epos))
         == ([Inst(NULL, 0, 0)] + c[1..])
            + ([Inst(RESULT_ARG, 0, 0)]
               + ([Inst(COMPILE, 0, 0)]
                  + ([Inst(JUMP_B, FLAG_TRUE, |body| + 2)] + ([Inst(ENTER_RESULT, 0, 0)] + (body + Exit)))))
  {
    hide IsBlock;
    var x, y, exit := Inst(RESULT_ARG, 0, 0), Inst(COMPILE, 0, 0), Inst(EXIT, 0, 0);
    var t, e := c + [x, y], BlockLiteral(body, epos);
    assert t[0] == c[0] && t[1..] == c[1..] + [x, y];
    assert e[2..|e| - 1] == body && e[0].ret == 0 && ClearRet(e[|e| - 1]) == exit;
    OneByOne([Inst(NULL, 0, 0)], c[1..], x, y, Inst(JUMP_B, FLAG_TRUE, |body| + 2), Inst(ENTER_RESULT, 0, 0), body,
             exit);
  }

  lemma OneByOne(n: Code, c: Code, x: Word, y: Word, j: Word, r: Word, b: Code, z: Word)
    ensures n + (c + [x, y]) + ([j, r] + b + [z]) == (n + c) + ([x] + ([y] + ([j] + ([r] + (b + [z])))))
  {
  }

  predicate EmptyArg(b: Arg) { (b.Literal? && b.body == Nil) || b == Paren(Nil) }

  /** `(do [] ...)`, an expression whose code begins with EMPTY. */
  function DoFirst(b: Arg, rest: List<Stmt>): Arg { Paren(Cons(Do(b), rest)) }

  /** `if cond (do [] ...) [els]`. gen_if takes the first word of the true arm for an empty block and
      overwrites it. Whatever the condition is, the DO that follows then finds the condition instead of
      code, and the VM is stuck. GoodStmt excludes all mistaken arms. */
  lemma MistakenArmGetsStuck(h: Host, b: Arg, rest: List<Stmt>, els: Arg, prog: Code, pc: nat, tpos: nat, epos: nat,
                             depth: nat, r: Value, base: seq<Value>, env: Env, c: Value)
    requires EmptyArg(b) && BlockArg(els, AsCode) && depth <= h.limit && c.Plain()
    requires |CompileArg(h, DoFirst(b, rest), AsCode, tpos)| <= DATA_LIMIT
    requires |CompileArg(h, els, AsCode, epos)| <= DATA_LIMIT
    requires At(prog, pc, CompileArms(CompileArg(h, DoFirst(b, rest), AsCode, tpos), CompileArg(h, els, AsCode, epos)))
    ensures MistakenForEmpty(DoFirst(b, rest), els)
    ensures Run(h, prog, pc, depth, r, State(base + [c], env)) == Stuck
  {
    hide Run, GetBool, CompileArms, CompileArg, MistakenForEmpty;
    var thn := DoFirst(b, rest);
    var t, e := CompileArg(h, thn, AsCode, tpos), CompileArg(h, els, AsCode, epos);
    var arms := CompileArms(t, e);
    DoFirstMistaken(b, rest, els);
    var code, body := MistakenShape(h, thn, els, tpos, epos);
    DoFirstWords(h, b, rest, tpos);
    FirstWords(t, code, [Inst(RESULT_ARG, 0, 0), Inst(COMPILE, 0, 0)], arms,
               [Inst(COMPILE, 0, 0)] + ([Inst(JUMP_B, FLAG_TRUE, |body| + 2)]
                                        + ([Inst(ENTER_RESULT, 0, 0)] + (body + Exit))));
    AtWord(prog, pc, arms, 0);
    AtWord(prog, pc, arms, 1);
    var st := State(base + [c], env);
    PushGoesOn(h, prog, pc, pc + 1, depth, r, st, NoValue, st);
    DoOfPlainIsStuck(h, prog, pc + 1, depth, NoValue, base, env, c);
  }

  lemma DoFirstMistaken(b: Arg, rest: List<Stmt>, els: Arg)
    requires EmptyArg(b) && BlockArg(els, AsCode)
    ensures MistakenForEmpty(DoFirst(b, rest), els)
  {
    assert StmtStartsEmpty(Do(b));
  }

  lemma DoFirstWords(h: Host, b: Arg, rest: List<Stmt>, pos: nat)
    requires EmptyArg(b)
    ensures var t := CompileArg(h, DoFirst(b, rest), AsCode, pos);
            |t| >= 4 && t[0] == Inst(EMPTY, 0, 0) && t[1] == Inst(DO, 0, 0)
  {
    hide CompileStmts;
    EmptyArm(h, b, pos);
    assert CompileStmt(h, Do(b), pos) == [Inst(EMPTY, 0, 0), Inst(DO, 0, 0)];
    assert CompileStmts(h, Cons(Do(b), rest), pos)
        == [Inst(EMPTY, 0, 0), Inst(DO, 0, 0)] + CompileStmts(h, rest, pos + 2) by {
      FirstStmt(h, Do(b), rest, pos);
    }
  }

  lemma FirstStmt(h: Host, s: Stmt, rest: List<Stmt>, pos: nat)
    ensures var c := CompileStmt(h, s, pos);
            CompileStmts(h, Cons(s, rest), pos) == c + CompileStmts(h, rest, pos + |c|)
  {
  }

  lemma FirstWords(t: Code, c: Code, z: Code, arms: Code, more: Code)
    requires |t| >= 4 && |z| == 2 && t == c + z && c != []
    requires arms == ([Inst(NULL, 0, 0)] + c[1..]) + ([z[0]] + more)
    ensures |arms| >= 2 && arms[0] == Inst(NULL, 0, 0) && arms[1] == t[1]
  {
  }

  lemma DoOfPlainIsStuck(h: Host, prog: Code, pc: nat, depth: nat, r: Value, base: seq<Value>, env: Env, c: Value)
    requires depth <= h.limit && pc < |prog| && prog[pc] == Inst(DO, 0, 0) && c.Plain()
    ensures Run(h, prog, pc, depth, r, State(base + [c], env)) == Stuck
  {
    hide Run;
    TopOp(h, prog, pc, depth, r, State(base + [c], env));
    assert Top(base + [c]) == c;
    assert Invoke(h, c, depth, State(Pop(base + [c]), env)) == Stuck;
  }

  /** The command means what is left of such an arm without the `do []`, as long as a block can be
      entered. */
  lemma DoFirstMeans(h: Host, b: Arg, rest: List<Stmt>, depth: nat, r: Value, env: Env)
    requires EmptyArg(b) && depth <= h.limit
    ensures EvalStmts(h, Cons(Do(b), rest), depth, r, env)
         == if depth == h.limit then Fail(RecursionLimit, env) else EvalStmts(h, rest, depth, NoValue, env)
  {
    assert EvalArg(h, b, AsCode, depth, r, env) == Ok(Delayed(Nil), r, env);
    if depth < h.limit {
      assert EvalStmts(h, Nil, depth + 1, NoValue, env) == Ok((), NoValue, env);
      assert EvalBlock(h, Nil, depth, env) == Ok(NoValue, NoValue, env);
    }
    assert EvalOperand(h, Delayed(Nil), depth, env) == EvalBlock(h, Nil, depth, env);
  }

  /** So for every such arm, and every condition, the patched `if` differs from the command, whatever is
      left of the arm and of the false arm: at the end of the code, the patched one is stuck, and the
      command is stuck only where its meaning is unspecified. */
  lemma MistakenArmDiffers(h: Host, b: Arg, rest: List<Stmt>, els: Arg, p1: Code, pc1: nat, p2: Code, pc2: nat,
                           tpos: nat, epos: nat, depth: nat, r: Value, base: seq<Value>, env: Env, c: Value)
    requires EmptyArg(b) && BlockArg(els, AsCode) && c.Plain()
    requires GoodArg(h, DoFirst(b, rest)) && GoodArg(h, els) && Setup(h, p1, depth, r, env)
             && Setup(h, p2, depth, r, env)
    requires |CompileArg(h, DoFirst(b, rest), AsCode, tpos)| <= DATA_LIMIT
    requires |CompileArg(h, els, AsCode, epos)| <= DATA_LIMIT
    requires var t, e := CompileArg(h, DoFirst(b, rest), AsCode, tpos), CompileArg(h, els, AsCode, epos);
             && At(p1, pc1, CompileArms(t, e) + Exit)
             && At(p2, pc2, t + e + [Inst(COM, 0, IF_COMMAND)] + Exit)
    ensures Run(h, p1, pc1, depth, r, State(base + [c], env)) == Stuck
    ensures var a := EvalPushedArms(h, If(Absent, DoFirst(b, rest), els), depth, r, env, c);
            Run(h, p2, pc2, depth, r, State(base + [c], env)) == Stuck <==> a.Fail? && a.e.Unspecified?
  {
    hide CompileArg, CompileArms, Run, GoodArg, StartsEmpty, HostOk, PlainEnv, EvalPushedArms;
    var s := If(Absent, DoFirst(b, rest), els);
    var t, e := CompileArg(h, DoFirst(b, rest), AsCode, tpos), CompileArg(h, els, AsCode, epos);
    AtSplit(p1, pc1, CompileArms(t, e), Exit);
    AtSplit(p2, pc2, t + e + [Inst(COM, 0, IF_COMMAND)], Exit);
    MistakenArmGetsStuck(h, b, rest, els, p1, pc1, tpos, epos, depth, r, base, env, c);
    PushedArmsCorrect(h, s, p2, pc2, tpos, epos, depth, r, base, env, c);
    match EvalPushedArms(h, s, depth, r, env, c) {
      case Ok(v, _, env') =>
        AtWord(p2, pc2 + |t| + |e| + 1, Exit, 0);
        ExitRuns(h, p2, pc2 + |t| + |e| + 1, depth, v, State(base, env'));
      case Fail(_, _) =>
    }
  }
}
