/** What assignments leave for later lookups: alias_stack::set_arg and set_alias in src/cs_ident.cc, the
    LOOKUP and ALIAS instructions, and exec_alias in src/cs_vm.cc. */
module Aliases {
  import opened Words
  import opened Syntax
  import opened WellFormed
  import opened Emit
  import opened Vm
  import opened Eval
  import opened Correct
  import opened Theorems
  import opened Marks

  /** The assignment would mark the alias, inside of a call. */
  predicate Hides(env: Env, id: nat) {
    !IsArgument(id) && !Marked(env, id) && Argument in env.identFlags && !env.frame.outermost
  }

  /** What is written is read, unless the alias is marked by it and so cannot be read in this call; and
      everything else is read as before, whether it was there or not. */
  lemma ReadAfterWrite(env: Env, id: nat, v: Value, k: nat)
    requires !Lost(env, id)
    ensures Find(Bind(env, id, v), id) == Got(v) <==> !Hides(env, id)
    ensures Hides(env, id) ==> Find(Bind(env, id, v), id) == Missed(Unspecified(id))
    ensures k != id ==> Find(Bind(env, id, v), k) == Find(env, k)
  {
  }

  /** Where it is written: an argument in the frame, an alias in the store. An alias has the thread's flags
      from then on, unless it counts as an argument. */
  lemma WrittenTo(env: Env, id: nat, v: Value)
    ensures var env' := Bind(env, id, v);
            && env'.identFlags == env.identFlags
            && (IsArgument(id) ==> env'.store == env.store && env'.frame.args == env.frame.args[id := v])
            && (!IsArgument(id) ==>
                  && env'.frame == env.frame && id in env'.store && env'.store - {id} == env.store - {id}
                  && env'.store[id] == Alias(v, if Marked(env, id) then env.store[id].flags else env.identFlags))
  {
  }

  /** The arguments of a call are what it is given, whatever the caller has; the aliases of the caller are
      read as before, unless they count as arguments. */
  lemma ReadInCall(env: Env, f: nat, args: seq<Value>, k: nat)
    ensures IsArgument(k) ==> Find(Called(env, f, args), k) == Got(if k < |args| then args[k] else NoValue)
    ensures !IsArgument(k) && !Marked(env, k) ==> Find(Called(env, f, args), k) == Find(env, k)
  {
  }

  // ---- the same, for the meaning of statements ----

  /** An assignment of any argument, and a lookup. */
  lemma AssignThenLookup(h: Host, x: nat, arg: Arg, depth: nat, r: Value, env: Env)
    requires depth <= h.limit && arg != Absent
    requires var a := EvalArg(h, arg, Any, depth, r, env); a.Ok? && !Lost(a.env, x) && !Hides(a.env, x)
    ensures var a := EvalArg(h, arg, Any, depth, r, env);
            (EvalStmts(h, Cons(Assign(x, arg), Cons(Result(Lookup(x)), Nil)), depth, r, env)
             == Ok((), Str(GetString(h, ValueOf(a.x))), Bind(a.env, x, ValueOf(a.x))))
  {
    var a := EvalArg(h, arg, Any, depth, r, env);
    AssignMeans(h, x, arg, depth, r, env);
    LookupMeans(h, x, depth, a.r, Bind(a.env, x, ValueOf(a.x)), ValueOf(a.x));
    hide EvalStmt, EvalArg;
    ReadAfterWrite(a.env, x, ValueOf(a.x), x);
    OneMore(h, Assign(x, arg), Cons(Result(Lookup(x)), Nil), depth, r, env);
  }

  lemma AssignMeans(h: Host, x: nat, arg: Arg, depth: nat, r: Value, env: Env)
    requires depth <= h.limit && arg != Absent
    requires var a := EvalArg(h, arg, Any, depth, r, env); a.Ok? && !Lost(a.env, x)
    ensures var a := EvalArg(h, arg, Any, depth, r, env);
            EvalStmt(h, Assign(x, arg), depth, r, env) == Ok((), a.r, Bind(a.env, x, ValueOf(a.x)))
  {
    hide EvalArg;
  }

  /** `result $x` */
  lemma LookupMeans(h: Host, x: nat, depth: nat, r: Value, env: Env, v: Value)
    requires depth <= h.limit
    ensures Find(env, x) == Got(v) ==>
              && EvalStmt(h, Result(Lookup(x)), depth, r, env) == Ok((), Str(GetString(h, v)), env)
              && EvalStmts(h, Cons(Result(Lookup(x)), Nil), depth, r, env) == Ok((), Str(GetString(h, v)), env)
  {
    if Find(env, x) == Got(v) {
      assert EvalArg(h, Lookup(x), Any, depth, r, env) == Ok(Ready(Str(GetString(h, v))), r, env);
      assert EvalStmt(h, Result(Lookup(x)), depth, r, env) == Ok((), Str(GetString(h, v)), env);
      assert EvalStmts(h, Nil, depth, Str(GetString(h, v)), env) == Ok((), Str(GetString(h, v)), env);
    }
  }

  lemma OneMore(h: Host, s: Stmt, rest: List<Stmt>, depth: nat, r: Value, env: Env)
    requires depth <= h.limit
    ensures var a := EvalStmt(h, s, depth, r, env);
            && (a.Ok? ==> EvalStmts(h, Cons(s, rest), depth, r, env) == EvalStmts(h, rest, depth, a.r, a.env))
            && (a.Fail? ==> EvalStmts(h, Cons(s, rest), depth, r, env) == a)
  {
    hide EvalStmt;
  }

  /** `x = a; x = b; result $x`, in every environment, whatever x was. */
  function Twice(x: nat, a: Arg, b: Arg): List<Stmt> {
    Cons(Assign(x, a), Cons(Assign(x, b), Cons(Result(Lookup(x)), Nil)))
  }

  lemma AssignedTwice(h: Host, x: nat, a: Arg, b: Arg, depth: nat, r: Value, env: Env)
    requires depth <= h.limit && a.Literal? && b.Literal? && !Lost(env, x) && !Hides(env, x)
    ensures EvalStmts(h, Twice(x, a, b), depth, r, env)
         == Ok((), Str(b.text), Bind(Bind(env, x, Str(a.text)), x, Str(b.text)))
  {
    var env' := Bind(env, x, Str(a.text));
    LiteralMeans(h, a, depth, r, env);
    LiteralMeans(h, b, depth, r, env');
    hide EvalArg, EvalStmt, EvalStmts;
    AssignMeans(h, x, a, depth, r, env);
    StillWritable(env, x, Str(a.text));
    AssignThenLookup(h, x, b, depth, r, env');
    OneMore(h, Assign(x, a), Cons(Assign(x, b), Cons(Result(Lookup(x)), Nil)), depth, r, env);
  }

  lemma LiteralMeans(h: Host, a: Arg, depth: nat, r: Value, env: Env)
    requires depth <= h.limit && a.Literal?
    ensures EvalArg(h, a, Any, depth, r, env) == Ok(Ready(Str(a.text)), r, env)
  {
  }

  lemma StillWritable(env: Env, x: nat, v: Value)
    requires !Lost(env, x) && !Hides(env, x)
    ensures !Lost(Bind(env, x, v), x) && !Hides(Bind(env, x, v), x)
  {
  }

  /** And so for the compiled program: the second value is what it results in. */
  lemma AssignedTwiceRuns(h: Host, x: nat, a: Arg, b: Arg, depth: nat, st: State)
    requires HostOk(h) && GoodStmts(h, Twice(x, a, b)) && |CompileMain(h, Twice(x, a, b))| <= DATA_LIMIT
    requires depth < h.limit && PlainEnv(st.env) && a.Literal? && b.Literal? && !Lost(st.env, x) && !Hides(st.env, x)
    ensures Enter(h, CompileMain(h, Twice(x, a, b)), 1, depth, st)
         == Done(|CompileMain(h, Twice(x, a, b))|, Str(b.text),
                 State(st.stack, Bind(Bind(st.env, x, Str(a.text)), x, Str(b.text))))
  {
    hide HostOk, GoodStmts, CompileMain, Enter, EvalStmts, PlainEnv, Bind, Lost, Hides, Twice;
    AssignedTwice(h, x, a, b, depth + 1, NoValue, st.env);
    ProgramCorrect(h, Twice(x, a, b), depth, st);
  }

  // ---- calls ----

  predicate Callable(env: Env, f: nat) {
    !Lost(env, f) && if IsArgument(f) then env.frame.Used(f) else f in env.store
  }

  /** What a call leaves, on a normal end and on an error: the aliases as the text left them, and the
      caller's arguments and flags. */
  lemma CallLeaves(h: Host, f: nat, args: seq<Value>, depth: nat, env: Env, ss: List<Stmt>)
    requires depth <= h.limit && Callable(env, f) && h.parse(GetString(h, Callee(env, f, args))) == Some(ss)
    ensures var inside, a := EvalBlock(h, ss, depth, Called(env, f, args)), EvalCall(h, f, args, depth, env);
            && a.env.store == inside.env.store && a.env.identFlags == env.identFlags
            && a.env.frame.args == env.frame.args && a.env.frame.outermost == env.frame.outermost
            && (inside.Ok? ==> a == Ok(inside.x, NoValue, a.env)) && (inside.Fail? ==> a == Fail(inside.e, a.env))
  {
    hide EvalBlock, GetString, Callee;
  }

  /** An alias is read after the call as the call left it. */
  lemma ReadAfterCall(h: Host, f: nat, args: seq<Value>, depth: nat, env: Env, ss: List<Stmt>, x: nat)
    requires depth <= h.limit && Callable(env, f) && h.parse(GetString(h, Callee(env, f, args))) == Some(ss)
    requires var inside := EvalBlock(h, ss, depth, Called(env, f, args));
             !IsArgument(x) && x in inside.env.store && !Marked(inside.env, x)
    ensures var inside, a := EvalBlock(h, ss, depth, Called(env, f, args)), EvalCall(h, f, args, depth, env);
            Find(a.env, x) == Got(inside.env.store[x].val)
  {
    hide EvalBlock, EvalCall, GetString, Callee;
    CallLeaves(h, f, args, depth, env, ss);
  }

  /** `f` and `result $x`, where the text of f is `x = b`: in every environment, whether x existed before
      the call or not. Afterwards x has the flags of f. */
  lemma AssignedInCall(h: Host, f: nat, x: nat, b: Arg, depth: nat, r: Value, env: Env)
    requires depth < h.limit && Callable(env, f) && !IsArgument(f) && !IsArgument(x) && b.Literal?
    requires h.parse(GetString(h, env.store[f].val)) == Some(Cons(Assign(x, b), Nil))
    requires !Marked(env, x) && Argument !in env.store[f].flags
    ensures var a := EvalStmts(h, Cons(CallAlias(f, Nil), Cons(Result(Lookup(x)), Nil)), depth, r, env);
            && a.Ok? && a.r == Str(b.text) && a.env == env.(store := a.env.store)
            && a.env.store == env.store[x := Alias(Str(b.text), env.store[f].flags)]
  {
    var inside := Called(env, f, []);
    LiteralMeans(h, b, depth + 1, NoValue, inside);
    AssignMeans(h, x, b, depth + 1, NoValue, inside);
    hide EvalStmt, EvalStmts, EvalBlock, EvalCall, EvalArg;
    OneStmt(h, Assign(x, b), depth, inside);
    CallLeaves(h, f, [], depth, env, Cons(Assign(x, b), Nil));
    CallsNothing(h, f, depth, r, env);
    var env' := env.(store := env.store[x := Alias(Str(b.text), env.store[f].flags)]);
    OneMore(h, CallAlias(f, Nil), Cons(Result(Lookup(x)), Nil), depth, r, env);
    LookupMeans(h, x, depth, NoValue, env', Str(b.text));
  }
}
