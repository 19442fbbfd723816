/** Compiling and running, from the syntax to the effect on the thread. */
module Script {
  import opened Words
  import opened Syntax
  import opened Emit
  import opened WellFormed
  import opened Vm
  import opened Eval
  import opened Correct
  import opened Theorems
  import opened Gen
  import opened Thread

  /** The code buffer becomes a program, the VM runs it, and the thread ends up exactly as the syntax
      says: same result or same error, same aliases and arguments, same stack, same depth. */
  method Execute(ts: ThreadState, ss: List<Stmt>) returns (x: Exit)
    requires HostOk(ts.h) && GoodStmts(ts.h, ss) && |CompileMain(ts.h, ss)| <= DATA_LIMIT
    requires ts.callDepth <= ts.h.limit && PlainEnv(ts.env)
    modifies ts
    ensures match EvalBlock(ts.h, ss, old(ts.callDepth), old(ts.env))
            case Ok(v, _, env) => x.Left? && x.r == v && ts.env == env
            case Fail(e, env) => if e.Unspecified? then x == Undefined else x == Thrown(e) && ts.env == env
    ensures x != Undefined ==> ts.vmstack == old(ts.vmstack) && ts.callDepth == old(ts.callDepth)
  {
    hide CompileMain, GoodStmts, Enter, EvalBlock, HostOk;
    var gs := new GenState(ts.h);
    gs.GenMain(ss);
    ProgramCorrect(ts.h, ss, ts.callDepth, ts.Now());
    x := ts.VmExec(gs.code, 1);
  }
}
