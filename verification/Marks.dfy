/** What becomes of aliases that are set while an argument runs (src/cs_vm.cc exec_alias,
    src/cs_ident.cc alias_stack::set_alias): the thread has the flags of the argument, the alias takes
    them over, and from then on counts as an argument itself. */
module Marks {
  import opened Words
  import opened Syntax
  import opened WellFormed
  import opened Emit
  import opened Vm
  import opened Eval
  import opened Correct
  import opened Theorems

  /** Setting an alias marks it exactly when the thread has the flags of an argument. */
  lemma BindMarks(env: Env, id: nat, v: Value, k: nat)
    ensures Marked(Bind(env, id, v), k)
       <==> Marked(env, k) || (k == id && !IsArgument(id) && Argument in env.identFlags)
    ensures Marked(env, k) && k == id ==> Bind(env, id, v).store[k] == Alias(v, env.store[k].flags)
  {
  }

  /** Nothing is marked, and nothing will be: no argument is running. */
  ghost predicate Clean(env: Env) {
    Argument !in env.identFlags && forall k: nat :: !Marked(env, k)
  }

  // ---- programs that do not run their arguments ----

  predicate CarefulArg(a: Arg)
    decreases a
  {
    match a
    case Literal(_, _, body) => CarefulStmts(body)
    case Paren(stmts) => CarefulStmts(stmts)
    case _ => true
  }

  predicate CarefulParams(ps: List<Param>)
    decreases ps
  {
    match ps
    case Nil => true
    case Cons(p, rest) => CarefulArg(p.arg) && CarefulParams(rest)
  }

  predicate CarefulStmts(ss: List<Stmt>)
    decreases ss
  {
    match ss
    case Nil => true
    case Cons(s, rest) => CarefulStmt(s) && CarefulStmts(rest)
  }

  predicate CarefulStmt(s: Stmt)
    decreases s
  {
    match s
    case Assign(_, arg) => CarefulArg(arg)
    case Result(arg) => CarefulArg(arg)
    case Not(arg) => CarefulArg(arg)
    case Do(arg) => CarefulArg(arg)
    case If(cond, thn, els) => CarefulArg(cond) && CarefulArg(thn) && CarefulArg(els)
    case AndOr(_, ps) => CarefulParams(ps)
    case Command(_, _, ps) => CarefulParams(ps)
    case CallAlias(id, ps) => !IsArgument(id) && CarefulParams(ps)
    case _ => true
  }

  predicate CarefulOperand(x: Operand) { x.Delayed? ==> CarefulStmts(x.body) }

  predicate CarefulAnswer(careful: bool, a: Answer<Operand>) { careful && a.Ok? ==> CarefulOperand(a.x) }

  predicate CarefulAnswers(careful: bool, a: Answer<seq<Operand>>) {
    careful && a.Ok? ==> forall i :: 0 <= i < |a.x| ==> CarefulOperand(a.x[i])
  }

  /** What is expected of the commands, and of the text that runs if it is to be `careful`. */
  ghost predicate Tame(h: Host, careful: bool) {
    && (forall id, args, env :: TameEffect(env, h.command(id, args, env)))
    && (careful ==> forall t :: h.parse(t).Some? ==> CarefulStmts(h.parse(t).value))
  }

  ghost predicate TameEffect(env: Env, c: CommandResult) {
    && (forall k: nat :: Marked(c.env, k) <==> Marked(env, k))
    && c.env.identFlags == env.identFlags && c.env.frame.dangling == env.frame.dangling
    && (c.Failure? ==> !c.error.Unspecified?)
  }

  // ---- whole evaluations ----

  ghost predicate MarksStay(careful: bool, env: Env, env': Env) {
    && (forall k: nat :: Marked(env, k) ==> Marked(env', k))
    && (careful && Clean(env) ==> forall k: nat :: !Marked(env', k))
  }

  ghost predicate Follows(careful: bool, env: Env, env': Env) {
    MarksStay(careful, env, env') && env'.identFlags == env.identFlags && !env'.frame.dangling
  }

  /** Marks stay; unspecified behaviour comes from a marked alias only; and a careful program that
      starts without marks makes none. */
  ghost predicate Sound<T>(careful: bool, env: Env, a: Answer<T>) {
    match a
    case Ok(_, _, env') => Follows(careful, env, env')
    case Fail(e, env') => MarksStay(careful, env, env') && (e.Unspecified? ==> Marked(env', e.id))
  }

  lemma FollowsOn<T>(careful: bool, env: Env, env': Env, a: Answer<T>)
    requires Follows(careful, env, env') && Sound(careful, env', a)
    ensures Sound(careful, env, a)
  {
  }

  lemma FinishedSound(careful: bool, env: Env, a: Answer<Value>)
    requires Sound(careful, env, a)
    ensures Sound(careful, env, Finished(a))
  {
  }

  lemma ConvertSound(h: Host, careful: bool, v: Value, want: Want, r: Value, env: Env)
    requires Tame(h, careful) && !env.frame.dangling
    ensures Sound(careful, env, Convert(h, v, want, r, env))
    ensures CarefulAnswer(careful, Convert(h, v, want, r, env))
  {
    assert CarefulStmts(Cons(Result(Paren(Nil)), Nil)) by {
      assert CarefulArg(Paren(Nil));
    }
  }

  lemma NothingCareful(h: Host, want: Want)
    ensures CarefulOperand(Nothing(h, want))
  {
  }

  lemma AssignedSound(careful: bool, env: Env, id: nat, v: Value, r: Value)
    requires !env.frame.dangling
    ensures Sound(careful, env, Assigned(env, id, v, r))
  {
    forall k: nat ensures Marked(Bind(env, id, v), k)
       <==> Marked(env, k) || (k == id && !IsArgument(id) && Argument in env.identFlags) {
      BindMarks(env, id, v, k);
    }
  }

  lemma {:induction false} ArgSound(h: Host, careful: bool, a: Arg, want: Want, depth: nat, r: Value, env: Env)
    requires Tame(h, careful) && depth <= h.limit && !env.frame.dangling && (careful ==> CarefulArg(a))
    ensures Sound(careful, env, EvalArg(h, a, want, depth, r, env))
    ensures CarefulAnswer(careful, EvalArg(h, a, want, depth, r, env))
    decreases h.limit - depth, 1, a, 0
  {
    hide EvalStmts, Convert, CarefulStmts, Tame, Marked;
    match a
    case Lookup(id) =>
      match Find(env, id) {
        case Missed(_) =>
        case Got(v) =>
          ConvertSound(h, careful, if want == AsInt || want == AsCond then v else Str(GetString(h, v)), want, r, env);
      }
    case Paren(stmts) =>
      if stmts == Nil {
        NothingCareful(h, want);
      } else {
        StmtsSound(h, careful, stmts, depth, r, env);
        match EvalStmts(h, stmts, depth, r, env) {
          case Fail(_, _) =>
          case Ok(_, r', env') => ConvertSound(h, careful, r', want, NoValue, env');
        }
      }
    case _ =>
  }

  lemma {:induction false} ParamsSound(h: Host, careful: bool, ps: List<Param>, depth: nat, r: Value, env: Env)
    requires Tame(h, careful) && depth <= h.limit && !env.frame.dangling && (careful ==> CarefulParams(ps))
    ensures Sound(careful, env, EvalParams(h, ps, depth, r, env))
    ensures CarefulAnswers(careful, EvalParams(h, ps, depth, r, env))
    decreases h.limit - depth, 1, ps, 0
  {
    hide EvalArg, CarefulArg, Tame, Marked, CarefulOperand;
    match ps
    case Nil =>
    case Cons(p, rest) =>
      ArgSound(h, careful, p.arg, p.want, depth, r, env);
      match EvalArg(h, p.arg, p.want, depth, r, env) {
        case Fail(_, _) =>
        case Ok(_, r', env') => ParamsSound(h, careful, rest, depth, r', env');
      }
  }

  lemma {:induction false} StmtsSound(h: Host, careful: bool, ss: List<Stmt>, depth: nat, r: Value, env: Env)
    requires Tame(h, careful) && depth <= h.limit && !env.frame.dangling && (careful ==> CarefulStmts(ss))
    ensures Sound(careful, env, EvalStmts(h, ss, depth, r, env))
    decreases h.limit - depth, 1, ss
  {
    hide EvalStmt, CarefulStmt, Tame, Marked;
    match ss
    case Nil =>
    case Cons(s, rest) =>
      StmtSound(h, careful, s, depth, r, env);
      match EvalStmt(h, s, depth, r, env) {
        case Fail(_, _) =>
        case Ok(_, r', env') => StmtsSound(h, careful, rest, depth, r', env');
      }
  }

  lemma {:induction false} StmtSound(h: Host, careful: bool, s: Stmt, depth: nat, r: Value, env: Env)
    requires Tame(h, careful) && depth <= h.limit && !env.frame.dangling && (careful ==> CarefulStmt(s))
    ensures Sound(careful, env, EvalStmt(h, s, depth, r, env))
    decreases h.limit - depth, 1, s, 2
  {
    hide EvalArg, EvalParams, EvalArms, CarefulArg, CarefulParams, Tame, Marked, EvalOperand, EvalChain, EvalCall,
         Assigned, Sound, Finished, GetBool;
    match s
    case Assign(id, arg) =>
      if arg == Absent {
        AssignedSound(careful, env, id, Str([]), r);
      } else {
        AssignSound(h, careful, id, arg, depth, r, env);
      }
    case Result(arg) => ValueSound(h, careful, s, arg, depth, r, env);
    case Not(arg) => ValueSound(h, careful, s, arg, depth, r, env);
    case Do(arg) => DoSound(h, careful, arg, depth, r, env);
    case If(_, _, _) => IfSound(h, careful, s, depth, r, env);
    case AndOr(_, ps) => ListSound(h, careful, s, ps, depth, r, env);
    case Command(_, _, ps) => ListSound(h, careful, s, ps, depth, r, env);
    case CallAlias(_, ps) => ListSound(h, careful, s, ps, depth, r, env);
    case IntStmt(i) => OkSound(careful, env, (), Int(i));
    case StrStmt(t) => OkSound(careful, env, (), Str(t));
  }

  lemma OkSound<T>(careful: bool, env: Env, x: T, r: Value)
    requires !env.frame.dangling
    ensures Sound(careful, env, Ok(x, r, env))
  {
  }

  lemma {:induction false} AssignSound(h: Host, careful: bool, id: nat, arg: Arg, depth: nat, r: Value, env: Env)
    requires Tame(h, careful) && depth <= h.limit && !env.frame.dangling && (careful ==> CarefulArg(arg))
             && arg != Absent
    ensures Sound(careful, env, EvalStmt(h, Assign(id, arg), depth, r, env))
    decreases h.limit - depth, 1, arg, 1
  {
    hide EvalArg, Tame, Marked, Assigned, CarefulArg;
    ArgSound(h, careful, arg, Any, depth, r, env);
    match EvalArg(h, arg, Any, depth, r, env) {
      case Fail(_, _) =>
      case Ok(x, r', env') => AssignedSound(careful, env', id, ValueOf(x), r');
    }
  }

  lemma {:induction false} ValueSound(h: Host, careful: bool, s: Stmt, arg: Arg, depth: nat, r: Value, env: Env)
    requires Tame(h, careful) && depth <= h.limit && !env.frame.dangling && (careful ==> CarefulArg(arg))
    requires s == Result(arg) || s == Not(arg)
    ensures Sound(careful, env, EvalStmt(h, s, depth, r, env))
    decreases h.limit - depth, 1, arg, 1
  {
    hide EvalArg, Tame, Marked, CarefulArg, GetBool;
    ArgSound(h, careful, arg, Any, depth, r, env);
  }

  lemma {:induction false} DoSound(h: Host, careful: bool, arg: Arg, depth: nat, r: Value, env: Env)
    requires Tame(h, careful) && depth <= h.limit && !env.frame.dangling && (careful ==> CarefulArg(arg))
    ensures Sound(careful, env, EvalStmt(h, Do(arg), depth, r, env))
    decreases h.limit - depth, 1, arg, 1
  {
    hide EvalArg, Tame, Marked, EvalOperand, CarefulArg, CarefulOperand;
    ArgSound(h, careful, arg, AsCode, depth, r, env);
    match EvalArg(h, arg, AsCode, depth, r, env) {
      case Fail(_, _) =>
      case Ok(x, _, env') =>
        OperandSound(h, careful, x, depth, env');
    }
  }

  lemma {:induction false} IfSound(h: Host, careful: bool, s: Stmt, depth: nat, r: Value, env: Env)
    requires Tame(h, careful) && depth <= h.limit && !env.frame.dangling && s.If? && (careful ==> CarefulStmt(s))
    ensures Sound(careful, env, EvalStmt(h, s, depth, r, env))
    decreases h.limit - depth, 1, s, 1
  {
    hide EvalArg, EvalArms, Tame, Marked, CarefulArg;
    ArgSound(h, careful, s.cond, Any, depth, r, env);
    match EvalArg(h, s.cond, Any, depth, r, env) {
      case Fail(_, _) =>
      case Ok(c, r', env') => ArmsSound(h, careful, s, depth, r', env', ValueOf(c));
    }
  }

  lemma {:induction false} ArmsSound(h: Host, careful: bool, s: Stmt, depth: nat, r: Value, env: Env, c: Value)
    requires Tame(h, careful) && depth <= h.limit && !env.frame.dangling && s.If? && (careful ==> CarefulStmt(s))
    ensures Sound(careful, env, EvalArms(h, s, depth, r, env, c))
    decreases h.limit - depth, 1, s, 0
  {
    hide EvalArg, EvalOperand, Tame, Marked, CarefulArg, CarefulOperand, GetBool;
    ArgSound(h, careful, s.thn, AsCode, depth, r, env);
    match EvalArg(h, s.thn, AsCode, depth, r, env) {
      case Fail(_, _) =>
      case Ok(t, r', env') =>
        ArgSound(h, careful, s.els, AsCode, depth, r', env');
        match EvalArg(h, s.els, AsCode, depth, r', env') {
          case Fail(_, _) =>
          case Ok(f, _, env'') =>
            OperandSound(h, careful, if GetBool(h, c) then t else f, depth, env'');
        }
    }
  }

  lemma {:induction false} ListSound(h: Host, careful: bool, s: Stmt, ps: List<Param>, depth: nat, r: Value, env: Env)
    requires Tame(h, careful) && depth <= h.limit && !env.frame.dangling && (careful ==> CarefulStmt(s))
    requires match s
             case AndOr(_, qs) => qs == ps
             case Command(_, _, qs) => qs == ps
             case CallAlias(_, qs) => qs == ps
             case _ => false
    ensures Sound(careful, env, EvalStmt(h, s, depth, r, env))
    decreases h.limit - depth, 1, ps, 1
  {
    hide EvalParams, Tame, Marked, CarefulParams, CarefulOperand, EvalChain, EvalCall, TameEffect;
    ParamsSound(h, careful, ps, depth, r, env);
    match EvalParams(h, ps, depth, r, env) {
      case Fail(_, _) =>
      case Ok(xs, _, env') =>
        match s {
          case AndOr(isOr, _) => ChainSound(h, careful, isOr, xs, depth, env');
          case Command(id, _, _) => CommandSound(h, careful, id, Values(xs), env');
          case CallAlias(id, _) => CallSound(h, careful, id, Values(xs), depth, env');
        }
    }
  }

  lemma CommandSound(h: Host, careful: bool, id: nat, vs: seq<Value>, env: Env)
    requires Tame(h, careful) && !env.frame.dangling
    ensures match h.command(id, vs, env)
            case Failure(e, env') => !e.Unspecified? && MarksStay(careful, env, env')
            case Success(_, env') => Follows(careful, env, env')
  {
    hide Marked;
    assert TameEffect(env, h.command(id, vs, env));
  }

  lemma {:induction false} BlockSound(h: Host, careful: bool, body: List<Stmt>, depth: nat, env: Env)
    requires Tame(h, careful) && depth <= h.limit && !env.frame.dangling && (careful ==> CarefulStmts(body))
    ensures Sound(careful, env, EvalBlock(h, body, depth, env))
    decreases h.limit - depth, 0, 0
  {
    hide EvalStmts, Tame, Marked, CarefulStmts;
    if depth < h.limit {
      StmtsSound(h, careful, body, depth + 1, NoValue, env);
    }
  }

  lemma {:induction false} OperandSound(h: Host, careful: bool, x: Operand, depth: nat, env: Env)
    requires Tame(h, careful) && depth <= h.limit && !env.frame.dangling && (careful ==> CarefulOperand(x))
    ensures Sound(careful, env, EvalOperand(h, x, depth, env))
    decreases h.limit - depth, 0, 1
  {
    hide EvalBlock, Tame, Marked;
    if x.Delayed? {
      BlockSound(h, careful, x.body, depth, env);
    }
  }

  lemma {:induction false} ChainSound(h: Host, careful: bool, isOr: bool, xs: seq<Operand>, depth: nat, env: Env)
    requires Tame(h, careful) && depth <= h.limit && !env.frame.dangling
    requires careful ==> forall i :: 0 <= i < |xs| ==> CarefulOperand(xs[i])
    ensures Sound(careful, env, EvalChain(h, isOr, xs, depth, env))
    decreases h.limit - depth, 0, 2 + |xs|
  {
    hide EvalOperand, Tame, Marked, CarefulOperand, GetBool;
    if xs != [] {
      OperandSound(h, careful, xs[0], depth, env);
      match EvalOperand(h, xs[0], depth, env) {
        case Fail(_, _) =>
        case Ok(v, _, env') =>
          if !(GetBool(h, v) == isOr || |xs| == 1) {
            ChainSound(h, careful, isOr, xs[1..], depth, env');
          }
      }
    }
  }

  lemma {:induction false} CallSound(h: Host, careful: bool, id: nat, args: seq<Value>, depth: nat, env: Env)
    requires Tame(h, careful) && depth <= h.limit && !env.frame.dangling && (careful ==> !IsArgument(id))
    ensures Sound(careful, env, EvalCall(h, id, args, depth, env))
    decreases h.limit - depth, 0, 1
  {
    hide EvalBlock, GetString, Callee, NewFrame, CarefulStmts, TameEffect;
    if !Lost(env, id) && (if IsArgument(id) then env.frame.Used(id) else id in env.store) {
      match h.parse(GetString(h, Callee(env, id, args))) {
        case None =>
          NotCompiledMarks(env, id, args, careful);
        case Some(ss) =>
          CalledClean(env, id, args, careful);
          BlockSound(h, careful, ss, depth, Called(env, id, args));
          ReturnedSound(careful, env, Called(env, id, args), EvalBlock(h, ss, depth, Called(env, id, args)));
      }
    }
  }

  lemma ReturnedMarks(env: Env, after: Env, k: nat)
    ensures Marked(Returned(env, after), k) <==> Marked(after, k)
  {
  }

  lemma ReturnedSound(careful: bool, env: Env, called: Env, a: Answer<Value>)
    requires Sound(careful, called, a) && !env.frame.dangling
    requires forall k: nat :: Marked(called, k) <==> Marked(env, k)
    requires careful && Clean(env) ==> Clean(called)
    ensures match a
            case Ok(_, _, env') => Follows(careful, env, Returned(env, env'))
            case Fail(e, env') =>
              MarksStay(careful, env, Returned(env, env')) && (e.Unspecified? ==> Marked(Returned(env, env'), e.id))
  {
    hide Marked, Clean;
    forall k: nat ensures Marked(Returned(env, a.env), k) <==> Marked(a.env, k) {
      ReturnedMarks(env, a.env, k);
    }
  }

  lemma NotCompiledMarks(env: Env, id: nat, args: seq<Value>, careful: bool)
    ensures MarksStay(careful, env, NotCompiled(env, id, args))
  {
    var env' := NotCompiled(env, id, args);
    forall k: nat ensures Marked(env', k) <==> Marked(env, k) {
      assert env'.store == env.store;
    }
  }

  lemma CalledClean(env: Env, id: nat, args: seq<Value>, careful: bool)
    requires careful ==> !IsArgument(id)
    ensures !Called(env, id, args).frame.dangling
    ensures forall k: nat :: Marked(Called(env, id, args), k) <==> Marked(env, k)
    ensures careful && Clean(env) ==> Clean(Called(env, id, args))
  {
    assert !Marked(env, id) || Marked(env, id);
  }

  // ---- the results ----

  /** If running a program comes to something unspecified, an alias is marked, and used inside of a
      call: without a mark a compiled program always runs as it means. */
  lemma StuckNeedsMark(h: Host, ss: List<Stmt>, depth: nat, st: State)
    requires HostOk(h) && GoodStmts(h, ss) && |CompileMain(h, ss)| <= DATA_LIMIT && Tame(h, false)
    requires depth <= h.limit && PlainEnv(st.env)
    requires Enter(h, CompileMain(h, ss), 1, depth, st) == Stuck
    ensures var a := EvalBlock(h, ss, depth, st.env);
            a.Fail? && a.e.Unspecified? && Marked(a.env, a.e.id)
  {
    hide HostOk, GoodStmts, CompileMain, PlainEnv, EvalBlock, Enter;
    ProgramCorrect(h, ss, depth, st);
    assert !st.env.frame.dangling by { NotDangling(st.env); }
    BlockSound(h, false, ss, depth, st.env);
  }

  lemma NotDangling(env: Env)
    requires PlainEnv(env)
    ensures !env.frame.dangling
  {
  }

  /** A program that never calls an argument, nor any text that does, marks nothing; so it has its
      meaning in full. */
  lemma CarefulProgram(h: Host, ss: List<Stmt>, depth: nat, st: State)
    requires HostOk(h) && GoodStmts(h, ss) && |CompileMain(h, ss)| <= DATA_LIMIT
    requires depth <= h.limit && PlainEnv(st.env)
    requires Tame(h, true) && CarefulStmts(ss) && Clean(st.env)
    ensures var o := Enter(h, CompileMain(h, ss), 1, depth, st);
            match EvalBlock(h, ss, depth, st.env)
            case Ok(v, _, env) => o == Done(|CompileMain(h, ss)|, v, State(st.stack, env)) && Clean(env)
            case Fail(e, env) =>
              !e.Unspecified? && o == Err(e, State(st.stack, env)) && forall k: nat :: !Marked(env, k)
  {
    hide HostOk, GoodStmts, CompileMain, PlainEnv, EvalBlock, Enter, CarefulStmts, Tame;
    ProgramCorrect(h, ss, depth, st);
    assert !st.env.frame.dangling by { NotDangling(st.env); }
    BlockSound(h, true, ss, depth, st.env);
  }

  /** What running statements means for the block that they make up. */
  function AsBlock(a: Answer<()>): Answer<Value> {
    match a
    case Ok(_, v, env) => Ok(v, NoValue, env)
    case Fail(e, env) => Fail(e, env)
  }

  /** A block of one statement. */
  lemma OneStmt(h: Host, s: Stmt, depth: nat, env: Env)
    requires depth < h.limit
    ensures EvalBlock(h, Cons(s, Nil), depth, env)
         == AsBlock(EvalStmt(h, s, depth + 1, NoValue, env))
  {
    hide EvalStmt;
    match EvalStmt(h, s, depth + 1, NoValue, env) {
      case Ok(_, v, env') =>
        assert EvalStmts(h, Nil, depth + 1, v, env') == Ok((), v, env');
        assert EvalStmts(h, Cons(s, Nil), depth + 1, NoValue, env) == Ok((), v, env');
      case Fail(e, env') =>
        assert EvalStmts(h, Cons(s, Nil), depth + 1, NoValue, env) == Fail(e, env');
    }
  }

  lemma CallsNothing(h: Host, id: nat, depth: nat, r: Value, env: Env)
    requires depth <= h.limit
    ensures EvalStmt(h, CallAlias(id, Nil), depth, r, env) == Finished(EvalCall(h, id, [], depth, env))
  {
    hide EvalCall;
    assert Values([]) == [];
  }

  /** Running the first argument, which assigns x: x is marked. */
  lemma ArgumentAssigns(h: Host, x: nat, five: Arg, textX: Text, depth: nat, env: Env)
    requires depth < h.limit && !IsArgument(x) && five.Literal? && h.parse(textX) == Some(Cons(Assign(x, five), Nil))
    requires env.frame == NewFrame([Str(textX)]) && x !in env.store
    ensures EvalCall(h, 0, [], depth, env)
         == Ok(NoValue, NoValue, env.(store := env.store[x := Alias(Str(five.text), {Argument})]))
  {
    hide EvalStmt;
    var inside := Called(env, 0, []);
    OneStmt(h, Assign(x, five), depth, inside);
    assert EvalStmt(h, Assign(x, five), depth + 1, NoValue, inside)
        == Ok((), NoValue, Bind(inside, x, Str(five.text))) by {
      LiteralAssigned(h, x, five, depth + 1, inside);
    }
  }

  lemma LiteralAssigned(h: Host, x: nat, five: Arg, depth: nat, env: Env)
    requires depth <= h.limit && five.Literal? && !IsArgument(x) && x !in env.store
    ensures EvalStmt(h, Assign(x, five), depth, NoValue, env) == Ok((), NoValue, Bind(env, x, Str(five.text)))
  {
    assert EvalArg(h, five, Any, depth, NoValue, env) == Ok(Ready(Str(five.text)), NoValue, env);
  }

  /** Looking up a marked alias inside of a call. */
  lemma CallLooksUp(h: Host, g: nat, x: nat, depth: nat, env: Env)
    requires depth < h.limit && !IsArgument(g) && !IsArgument(x) && g in env.store && !Marked(env, g) && Marked(env, x)
    requires h.parse(GetString(h, env.store[g].val)) == Some(Cons(Result(Lookup(x)), Nil))
    ensures EvalCall(h, g, [], depth, env) == Fail(Unspecified(x), env)
  {
    hide EvalStmt;
    var inside := Called(env, g, []);
    OneStmt(h, Result(Lookup(x)), depth, inside);
    assert EvalStmt(h, Result(Lookup(x)), depth + 1, NoValue, inside) == Fail(Unspecified(x), inside) by {
      LookedUp(h, x, depth + 1, inside);
    }
  }

  lemma LookedUp(h: Host, x: nat, depth: nat, env: Env)
    requires depth <= h.limit && !IsArgument(x) && Marked(env, x) && !env.frame.outermost
    ensures EvalStmt(h, Result(Lookup(x)), depth, NoValue, env) == Fail(Unspecified(x), env)
  {
    assert EvalArg(h, Lookup(x), Any, depth, NoValue, env) == Fail(Unspecified(x), env);
  }

  /** `f = [arg1]`, called with the text of an assignment. */
  lemma CallMarks(h: Host, f: nat, x: nat, five: Arg, textF: Text, textX: Text, depth: nat, env: Env)
    requires !IsArgument(f) && !IsArgument(x) && f != x && depth + 2 <= h.limit
    requires f in env.store && env.store[f] == Alias(Str(textF), {}) && x !in env.store
    requires h.parse(textF) == Some(Cons(CallAlias(0, Nil), Nil))
    requires five.Literal? && h.parse(textX) == Some(Cons(Assign(x, five), Nil))
    ensures EvalCall(h, f, [Str(textX)], depth, env)
         == Ok(NoValue, NoValue, Returned(env, env.(store := env.store[x := Alias(Str(five.text), {Argument})])))
  {
    hide EvalStmt;
    var inside := Called(env, f, [Str(textX)]);
    OneStmt(h, CallAlias(0, Nil), depth, inside);
    CallsNothing(h, 0, depth + 1, NoValue, inside);
    ArgumentAssigns(h, x, five, textX, depth + 1, inside);
  }

  /** The input: `f = [arg1]`, `g = [result $x]`, and then `f "x = 5"` and `g`. The second call looks
      up x beyond the argument mask. Outside of any call, x reads as 5. */
  lemma MarkedExample(h: Host, f: nat, g: nat, x: nat, five: Arg, textF: Text, textG: Text, textX: Text,
                      body: List<Stmt>, depth: nat, r: Value, env: Env)
    requires !IsArgument(f) && !IsArgument(g) && !IsArgument(x) && f != x && g != x && depth + 2 <= h.limit
    requires f in env.store && env.store[f] == Alias(Str(textF), {})
    requires g in env.store && env.store[g] == Alias(Str(textG), {})
    requires h.parse(textF) == Some(Cons(CallAlias(0, Nil), Nil))
    requires h.parse(textG) == Some(Cons(Result(Lookup(x)), Nil))
    requires five.Literal? && h.parse(textX) == Some(Cons(Assign(x, five), Nil))
    requires env.frame.outermost && !env.frame.dangling && env.identFlags == {} && x !in env.store
    ensures var call := CallAlias(f, Cons(Param(Any, Literal(Quoted, textX, body)), Nil));
            var env' := env.(store := env.store[x := Alias(Str(five.text), {Argument})]);
            && EvalStmt(h, call, depth, r, env) == Ok((), NoValue, env')
            && Find(env', x) == Got(Str(five.text))
            && EvalStmts(h, Cons(call, Cons(CallAlias(g, Nil), Nil)), depth, r, env) == Fail(Unspecified(x), env')
  {
    hide EvalCall, EvalStmt;
    var call := CallAlias(f, Cons(Param(Any, Literal(Quoted, textX, body)), Nil));
    var env' := env.(store := env.store[x := Alias(Str(five.text), {Argument})]);
    CallMarks(h, f, x, five, textF, textX, depth, env);
    assert Returned(env, env') == env';
    CallsText(h, f, textX, body, depth, r, env);
    CallsNothing(h, g, depth, NoValue, env');
    CallLooksUp(h, g, x, depth, env');
  }

  lemma CallsText(h: Host, f: nat, text: Text, body: List<Stmt>, depth: nat, r: Value, env: Env)
    requires depth <= h.limit
    ensures EvalStmt(h, CallAlias(f, Cons(Param(Any, Literal(Quoted, text, body)), Nil)), depth, r, env)
         == Finished(EvalCall(h, f, [Str(text)], depth, env))
  {
    hide EvalCall;
    var ps := Cons(Param(Any, Literal(Quoted, text, body)), Nil);
    assert EvalArg(h, ps.head.arg, Any, depth, r, env) == Ok(Ready(Str(text)), r, env);
    assert EvalParams(h, Nil, depth, r, env) == Ok([], r, env);
    assert [Ready(Str(text))] + [] == [Ready(Str(text))];
    assert EvalParams(h, ps, depth, r, env) == Ok([Ready(Str(text))], r, env);
    assert Values([Ready(Str(text))]) == [Str(text)];
  }
}
