/** What lies on the VM stack below a run is not touched by it (src/cs_vm.cc vm_exec). */
module Frames {
  import opened Words
  import opened Literals
  import opened Syntax
  import opened Emit
  import opened Vm
  import opened Steps

  /** The same state, outcome or step, above `base`. */
  function Above(base: seq<Value>, st: State): State { State(base + st.stack, st.env) }

  function Lift(base: seq<Value>, o: Outcome): Outcome {
    match o
    case Done(pc, r, st) => Done(pc, r, Above(base, st))
    case Err(e, st) => Err(e, Above(base, st))
    case Stuck => Stuck
  }

  function LiftFlat(base: seq<Value>, f: Flat): Flat {
    if f.Next? then Next(f.pc, f.r, Above(base, f.st)) else f
  }

  lemma PushAbove(base: seq<Value>, st: State, v: Value)
    ensures Push(Above(base, st), v) == Above(base, Push(st, v))
  {
    assert base + (st.stack + [v]) == base + st.stack + [v];
  }

  lemma PopAbove(base: seq<Value>, s: seq<Value>)
    requires s != []
    ensures Top(base + s) == Top(s) && Pop(base + s) == base + Pop(s)
  {
  }

  lemma ResizeAbove(base: seq<Value>, s: seq<Value>, n: nat)
    ensures Resize(base + s, |base| + n) == base + Resize(s, n)
  {
  }

  lemma LiteralAbove(prog: Code, pc: nat, r: Value, st: State, base: seq<Value>)
    requires pc < |prog|
    ensures LiteralStep(prog, pc, r, Above(base, st)) == LiftFlat(base, LiteralStep(prog, pc, r, st))
  {
    hide UnpackBytes, ShortStringValue, ShortIntValue, Push;
    forall v ensures Push(Above(base, st), v) == Above(base, Push(st, v)) {
      PushAbove(base, st, v);
    }
  }

  lemma PushStepAbove(h: Host, prog: Code, pc: nat, r: Value, st: State, base: seq<Value>)
    requires pc < |prog|
    ensures PushStep(h, prog, pc, r, Above(base, st)) == LiftFlat(base, PushStep(h, prog, pc, r, st))
  {
    hide LiteralStep, Find, Force, Push;
    LiteralAbove(prog, pc, r, st, base);
    forall v ensures Push(Above(base, st), v) == Above(base, Push(st, v)) {
      PushAbove(base, st, v);
    }
  }

  lemma PopStepAbove(h: Host, prog: Code, pc: nat, r: Value, st: State, base: seq<Value>)
    requires pc < |prog| && st.stack != []
    ensures PopStep(h, prog, pc, r, Above(base, st)) == LiftFlat(base, PopStep(h, prog, pc, r, st))
  {
    hide GetBool, Force, Push, Pop, Top, CompileTop, Lost, Bind;
    PopAbove(base, st.stack);
    CompileTopAbove(h, Top(st.stack), pc + 1, r, st, base);
    var v, ret := Top(st.stack), prog[pc].ret;
    PushAbove(base, st, Force(h, v, ret));
    PushAbove(base, State(Pop(st.stack), st.env), Force(h, v, ret));
    PushAbove(base, State(Pop(st.stack), st.env), NoValue);
  }

  lemma CompileTopAbove(h: Host, v: Value, pc: nat, r: Value, st: State, base: seq<Value>)
    requires st.stack != []
    ensures CompileTop(h, v, pc, r, Above(base, st)) == LiftFlat(base, CompileTop(h, v, pc, r, st))
  {
    hide CompileValue, Pop;
    PopAbove(base, st.stack);
    match CompileValue(h, v) {
      case None =>
      case Some(c) =>
        assert base + (Pop(st.stack) + [CodeRef(c, 1)]) == base + Pop(st.stack) + [CodeRef(c, 1)];
    }
  }

  // ---- whole runs ----

  lemma {:induction false} RunAbove(h: Host, prog: Code, pc: nat, depth: nat, r: Value, st: State, base: seq<Value>)
    requires depth <= h.limit && Run(h, prog, pc, depth, r, st) != Stuck
    ensures Run(h, prog, pc, depth, r, Above(base, st)) == Lift(base, Run(h, prog, pc, depth, r, st))
    decreases h.limit - depth, 1, |prog| - pc
  {
    var op := prog[pc].op;
    if IsPushOp(op) {
      PushStepAbove(h, prog, pc, r, st, base);
      PushOp(h, prog, pc, depth, r, st);
      PushOp(h, prog, pc, depth, r, Above(base, st));
      FlatAbove(h, prog, pc, depth, PushStep(h, prog, pc, r, st), st, base);
    } else if op == ENTER || op == ENTER_RESULT {
      EnterOp(h, prog, pc, depth, r, st);
      EnterOp(h, prog, pc, depth, r, Above(base, st));
      EnterOpAbove(h, prog, pc, depth, r, st, base);
    } else if op == CALL || op == COM || op == COM_V {
      CallOp(h, prog, pc, depth, r, st);
      CallOp(h, prog, pc, depth, r, Above(base, st));
      CallOpAbove(h, prog, pc, depth, st, base);
    } else if IsPopOp(op) {
      PopStepAbove(h, prog, pc, r, st, base);
      PopOp(h, prog, pc, depth, r, st);
      PopOp(h, prog, pc, depth, r, Above(base, st));
      FlatAbove(h, prog, pc, depth, PopStep(h, prog, pc, r, st), st, base);
    } else if op != EXIT {
      TopOp(h, prog, pc, depth, r, st);
      TopOp(h, prog, pc, depth, r, Above(base, st));
      TopOpAbove(h, prog, pc, depth, st, base);
    }
  }

  lemma {:induction false} FlatAbove(h: Host, prog: Code, pc: nat, depth: nat, f: Flat, st: State, base: seq<Value>)
    requires depth <= h.limit && pc < |prog| && RunFlat(h, prog, pc, depth, f, st) != Stuck
    ensures RunFlat(h, prog, pc, depth, LiftFlat(base, f), Above(base, st))
         == Lift(base, RunFlat(h, prog, pc, depth, f, st))
    decreases h.limit - depth, 1, |prog| - pc, 0
  {
    hide Run;
    if f.Next? {
      RunAbove(h, prog, f.pc, depth, f.r, f.st, base);
    }
  }

  lemma {:induction false} EnterOpAbove(h: Host, prog: Code, pc: nat, depth: nat, r: Value, st: State, base: seq<Value>)
    requires depth <= h.limit && pc < |prog| && RunEnter(h, prog, pc, depth, r, st) != Stuck
    ensures RunEnter(h, prog, pc, depth, r, Above(base, st)) == Lift(base, RunEnter(h, prog, pc, depth, r, st))
    decreases h.limit - depth, 1, |prog| - pc, 0
  {
    hide Run, Enter;
    if prog[pc].op == ENTER {
      PushAbove(base, st, NoValue);
      EnterAbove(h, prog, pc + 1, depth, Push(st, NoValue), base);
      match Enter(h, prog, pc + 1, depth, Push(st, NoValue)) {
        case Done(pc', v, st') =>
          PopAbove(base, st'.stack);
          var next := State(Pop(st'.stack) + [v], st'.env);
          assert base + (Pop(st'.stack) + [v]) == base + Pop(st'.stack) + [v];
          RunAbove(h, prog, pc', depth, r, next, base);
        case _ =>
      }
    } else {
      EnterAbove(h, prog, pc + 1, depth, st, base);
      match Enter(h, prog, pc + 1, depth, st) {
        case Done(pc', v, st') => RunAbove(h, prog, pc', depth, v, st', base);
        case _ =>
      }
    }
  }

  lemma {:induction false} CallOpAbove(h: Host, prog: Code, pc: nat, depth: nat, st: State, base: seq<Value>)
    requires depth <= h.limit && pc < |prog| && RunCall(h, prog, pc, depth, st) != Stuck
    ensures RunCall(h, prog, pc, depth, Above(base, st)) == Lift(base, RunCall(h, prog, pc, depth, st))
    decreases h.limit - depth, 1, |prog| - pc, 0
  {
    hide Run, Dispatch, CallCount, Force, Resize;
    var w := prog[pc];
    var count := CallCount(h, prog, pc);
    var n := |st.stack| - count;
    var args := st.stack[n..];
    assert Above(base, st).stack[|base| + n..] == args;
    DispatchAbove(h, w.op, w.data, args, depth, st, base);
    match Dispatch(h, w.op, w.data, args, depth, st) {
      case Done(_, v, st') =>
        ResizeAbove(base, st'.stack, n);
        RunAbove(h, prog, CallEnd(prog, pc), depth, Force(h, v, w.ret), State(Resize(st'.stack, n), st'.env), base);
      case _ =>
    }
  }

  lemma {:induction false} TopOpAbove(h: Host, prog: Code, pc: nat, depth: nat, st: State, base: seq<Value>)
    requires depth <= h.limit && pc < |prog| && st.stack != [] && RunTop(h, prog, pc, depth, st) != Stuck
    ensures RunTop(h, prog, pc, depth, Above(base, st)) == Lift(base, RunTop(h, prog, pc, depth, st))
    decreases h.limit - depth, 1, |prog| - pc, 0
  {
    hide Run, Invoke, InvokeOrKeep, Force, GetBool;
    var w := prog[pc];
    PopAbove(base, st.stack);
    var rest := State(Pop(st.stack), st.env);
    if w.op == DO {
      InvokeAbove(h, Top(st.stack), depth, rest, base);
      match Invoke(h, Top(st.stack), depth, rest) {
        case Done(_, v, st') => RunAbove(h, prog, pc + 1, depth, Force(h, v, w.ret), st', base);
        case _ =>
      }
    } else {
      KeepAbove(h, Top(st.stack), depth, rest, base);
      match InvokeOrKeep(h, Top(st.stack), depth, rest) {
        case Done(_, v, st') =>
          RunAbove(h, prog, pc + 1 + (if GetBool(h, v) == (w.ret != FLAG_FALSE) then w.data else 0), depth, v, st',
                   base);
        case _ =>
      }
    }
  }

  /** Whatever lies on the stack below the run: the run does the same, and all of it is still there when
      the run ends or throws. */
  lemma {:induction false} EnterAbove(h: Host, prog: Code, start: nat, depth: nat, st: State, base: seq<Value>)
    requires depth <= h.limit && Enter(h, prog, start, depth, st) != Stuck
    ensures Enter(h, prog, start, depth, Above(base, st)) == Lift(base, Enter(h, prog, start, depth, st))
    decreases h.limit - depth, 0, 0
  {
    hide Run, Resize;
    if depth < h.limit {
      RunAbove(h, prog, start, depth + 1, NoValue, st, base);
      match Run(h, prog, start, depth + 1, NoValue, st) {
        case Done(_, _, st') => ResizeAbove(base, st'.stack, |st.stack|);
        case Err(_, st') => ResizeAbove(base, st'.stack, |st.stack|);
      }
    }
  }

  lemma {:induction false} InvokeAbove(h: Host, v: Value, depth: nat, st: State, base: seq<Value>)
    requires depth <= h.limit && Invoke(h, v, depth, st) != Stuck
    ensures Invoke(h, v, depth, Above(base, st)) == Lift(base, Invoke(h, v, depth, st))
    decreases h.limit - depth, 0, 1
  {
    hide Enter;
    EnterAbove(h, v.prog, v.start, depth, st, base);
  }

  lemma {:induction false} KeepAbove(h: Host, v: Value, depth: nat, st: State, base: seq<Value>)
    requires depth <= h.limit && InvokeOrKeep(h, v, depth, st) != Stuck
    ensures InvokeOrKeep(h, v, depth, Above(base, st)) == Lift(base, InvokeOrKeep(h, v, depth, st))
    decreases h.limit - depth, 0, 2
  {
    hide Invoke;
    if v.CodeRef? {
      InvokeAbove(h, v, depth, st, base);
    }
  }

  lemma {:induction false} DispatchAbove(h: Host, op: nat, id: nat, args: seq<Value>, depth: nat, st: State,
                                         base: seq<Value>)
    requires depth <= h.limit && Dispatch(h, op, id, args, depth, st) != Stuck
    ensures Dispatch(h, op, id, args, depth, Above(base, st)) == Lift(base, Dispatch(h, op, id, args, depth, st))
    decreases h.limit - depth, 0, 4 + |args|
  {
    hide RunAlias, Invoke, RunAndOr, GetBool;
    if op == CALL {
      AliasAbove(h, id, args, depth, st, base);
    } else if id == IF_COMMAND {
      InvokeAbove(h, if GetBool(h, args[0]) then args[1] else args[2], depth, st, base);
    } else if id == AND_COMMAND || id == OR_COMMAND {
      AndOrAbove(h, id == OR_COMMAND, args, depth, st, base);
    }
  }

  lemma {:induction false} AndOrAbove(h: Host, isOr: bool, args: seq<Value>, depth: nat, st: State, base: seq<Value>)
    requires depth <= h.limit && RunAndOr(h, isOr, args, depth, st) != Stuck
    ensures RunAndOr(h, isOr, args, depth, Above(base, st)) == Lift(base, RunAndOr(h, isOr, args, depth, st))
    decreases h.limit - depth, 0, 3 + |args|
  {
    hide InvokeOrKeep, GetBool;
    if args != [] {
      KeepAbove(h, args[0], depth, st, base);
      match InvokeOrKeep(h, args[0], depth, st) {
        case Done(_, v, st') =>
          if !(GetBool(h, v) == isOr || |args| == 1) {
            AndOrAbove(h, isOr, args[1..], depth, st', base);
          }
        case _ =>
      }
    }
  }

  lemma {:induction false} AliasAbove(h: Host, id: nat, args: seq<Value>, depth: nat, st: State, base: seq<Value>)
    requires depth <= h.limit && RunAlias(h, id, args, depth, st) != Stuck
    ensures RunAlias(h, id, args, depth, Above(base, st)) == Lift(base, RunAlias(h, id, args, depth, st))
    decreases h.limit - depth, 0, 1
  {
    hide Enter, GetString, Callee, CompileMain, Called, Returned, NotCompiled, Lost;
    if (if IsArgument(id) then st.env.frame.Used(id) else id in st.env.store) {
      match h.parse(GetString(h, Callee(st.env, id, args))) {
        case None =>
        case Some(ss) => EnterAbove(h, CompileMain(h, ss), 1, depth, State(st.stack, Called(st.env, id, args)), base);
      }
    }
  }
}
