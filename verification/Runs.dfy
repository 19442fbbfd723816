/** Where the program counter is over whole runs of laid out code (src/cs_vm.cc vm_exec). */
module Runs {
  import opened Words
  import opened Literals
  import opened Syntax
  import opened Emit
  import opened Layout
  import opened Vm
  import opened Steps
  import opened Places

  /** From `pc` on there are whole units, up to the EXIT at `e`. */
  ghost predicate Level(prog: Code, pc: nat, e: nat) {
    pc <= e < |prog| && prog[e].op == EXIT && Laid(prog[pc..e], pc)
  }

  ghost predicate From(prog: Code, pc: nat, e: nat) { Level(prog, pc, e) && Place(prog, pc) }

  // ---- the program counters of a run ----

  /** Every index that the program counter has in this program during the run, and during the runs of
      blocks that it enters in place. */
  ghost function Counters(h: Host, prog: Code, pc: nat, depth: nat, r: Value, st: State): set<nat>
    requires depth <= h.limit
    decreases h.limit - depth, 1, |prog| - pc
  {
    if pc >= |prog| then {pc} else
    var op := prog[pc].op;
    {pc} +
    (if op == EXIT then {}
     else if IsPushOp(op) then FlatCounters(h, prog, pc, depth, PushStep(h, prog, pc, r, st))
     else if op == ENTER || op == ENTER_RESULT then EnterCounters(h, prog, pc, depth, r, st)
     else if op == CALL || op == COM || op == COM_V then CallCounters(h, prog, pc, depth, st)
     else if st.stack == [] then {}
     else if IsPopOp(op) then FlatCounters(h, prog, pc, depth, PopStep(h, prog, pc, r, st))
     else if op == DO || op == JUMP_RESULT then TopCounters(h, prog, pc, depth, st)
     else {})
  }

  ghost function FlatCounters(h: Host, prog: Code, pc: nat, depth: nat, f: Flat): set<nat>
    requires depth <= h.limit && pc < |prog|
    decreases h.limit - depth, 1, |prog| - pc, 0
  {
    if f.Next? && f.pc > pc then Counters(h, prog, f.pc, depth, f.r, f.st) else {}
  }

  ghost function EnterCounters(h: Host, prog: Code, pc: nat, depth: nat, r: Value, st: State): set<nat>
    requires depth <= h.limit && pc < |prog|
    decreases h.limit - depth, 1, |prog| - pc, 0
  {
    var st' := if prog[pc].op == ENTER then Push(st, NoValue) else st;
    (if depth < h.limit then Counters(h, prog, pc + 1, depth + 1, NoValue, st') else {}) +
    match Enter(h, prog, pc + 1, depth, st')
    case Done(pc', v, st'') =>
      if prog[pc].op == ENTER then Counters(h, prog, pc', depth, r, st''.(stack := Pop(st''.stack) + [v]))
      else Counters(h, prog, pc', depth, v, st'')
    case _ => {}
  }

  ghost function CallCounters(h: Host, prog: Code, pc: nat, depth: nat, st: State): set<nat>
    requires depth <= h.limit && pc < |prog|
    decreases h.limit - depth, 1, |prog| - pc, 0
  {
    var w := prog[pc];
    var count := CallCount(h, prog, pc);
    var pc' := CallEnd(prog, pc);
    if pc' > |prog| || count > |st.stack| then {} else
    match Dispatch(h, w.op, w.data, st.stack[|st.stack| - count..], depth, st)
    case Done(_, v, st') =>
      Counters(h, prog, pc', depth, Force(h, v, w.ret), st'.(stack := Resize(st'.stack, |st.stack| - count)))
    case _ => {}
  }

  ghost function TopCounters(h: Host, prog: Code, pc: nat, depth: nat, st: State): set<nat>
    requires depth <= h.limit && pc < |prog| && st.stack != []
    decreases h.limit - depth, 1, |prog| - pc, 0
  {
    var w := prog[pc];
    var rest := st.(stack := Pop(st.stack));
    match if w.op == DO then Invoke(h, Top(st.stack), depth, rest) else InvokeOrKeep(h, Top(st.stack), depth, rest)
    case Done(_, v, st') =>
      if w.op == DO then Counters(h, prog, pc + 1, depth, Force(h, v, w.ret), st')
      else Counters(h, prog, pc + 1 + (if GetBool(h, v) == (w.ret != FLAG_FALSE) then w.data else 0), depth, v, st')
    case _ => {}
  }

  // ---- steps within a level ----

  lemma {:induction false} ReachesOn(c: Code, k: nat, m: nat)
    requires k <= |c| && Reaches(c, k) && Reaches(c[k..], m)
    ensures Reaches(c, k + m)
  {
    if k == 0 {
      assert c[0..] == c;
    } else {
      var n := Size(c[0]);
      assert c[n..][k - n..] == c[k..];
      ReachesOn(c[n..], k - n, m);
    }
  }

  /** What instructions reach within a level are places of the program. */
  lemma PlaceOn(prog: Code, pc: nat, e: nat, m: nat)
    requires Level(prog, pc, e) && Place(prog, pc) && m <= e - pc && Reaches(prog[pc..e], m)
    ensures Place(prog, pc + m)
  {
    hide Reaches, Laid;
    LaidSplits(prog[pc..e], pc);
    ReachesWithin(prog[pc..e], prog[e..], m);
    assert prog[pc..e] + prog[e..] == prog[pc..] == prog[1..][pc - 1..];
    ReachesOn(prog[1..], pc - 1, m);
  }

  /** The unit at `pc`: what follows it, what is in it, and where it jumps, is a place and laid out up to
      an EXIT. */
  lemma UnitLevels(prog: Code, pc: nat, e: nat) returns (n: nat)
    requires Level(prog, pc, e) && pc < e && Place(prog, pc)
    ensures 0 < n <= e - pc && From(prog, pc + n, e)
    ensures prog[pc].op == BLOCK ==> prog[pc].data == n - 1 && n >= 4 && From(prog, pc + 2, pc + n - 1)
    ensures Enters(prog[pc].op) ==> n >= 2 && From(prog, pc + 1, pc + n - 1)
    ensures Jumps(prog[pc].op) ==> n == 1 && From(prog, pc + 1 + prog[pc].data, e)
    ensures prog[pc].op != BLOCK && !Enters(prog[pc].op) ==> n == Size(prog[pc])
    ensures prog[pc].op == BLOCK || Enters(prog[pc].op) || Jumps(prog[pc].op) || Simple(prog[pc].op)
  {
    hide Reaches, ExitAt, Between, Splits, Laid, UnitLaid, Place;
    var c := prog[pc..e];
    n := UnitParts(c, pc);
    Part(prog, pc, e, n, |c|);
    PlaceOn(prog, pc, e, n);
    if c[0].op == BLOCK {
      Part(prog, pc, e, 2, n - 1);
      PlaceOn(prog, pc, e, 2);
    } else if Enters(c[0].op) {
      Part(prog, pc, e, 1, n - 1);
      PlaceOn(prog, pc, e, 1);
    } else if Jumps(c[0].op) {
      Part(prog, pc, e, 1 + c[0].data, |c|);
      PlaceOn(prog, pc, e, 1 + c[0].data);
    }
  }

  lemma Part(prog: Code, pc: nat, e: nat, i: nat, j: nat)
    requires pc <= e <= |prog| && i <= j <= e - pc
    ensures prog[pc..e][i..j] == prog[pc + i..pc + j]
    ensures forall k :: 0 <= k < e - pc ==> prog[pc..e][k] == prog[pc + k]
  {
    var u, v := prog[pc..e][i..j], prog[pc + i..pc + j];
    assert |u| == |v| && forall k :: 0 <= k < |u| ==> u[k] == v[k];
  }

  lemma UnitParts(c: Code, pos: nat) returns (n: nat)
    requires c != [] && Laid(c, pos)
    ensures 0 < n <= |c| && c[n..] == c[n..|c|] && Laid(c[n..], pos + n) && Reaches(c, n)
    ensures c[0].op == BLOCK ==>
              c[0].data == n - 1 && n >= 4 && Laid(c[2..n - 1], pos + 2) && c[n - 1].op == EXIT && Reaches(c, 2)
    ensures Enters(c[0].op) ==> n >= 2 && Laid(c[1..n - 1], pos + 1) && c[n - 1].op == EXIT && Reaches(c, 1)
    ensures Jumps(c[0].op) ==>
              && n == 1 && 1 + c[0].data <= |c| && Laid(c[1 + c[0].data..|c|], pos + 1 + c[0].data)
              && Reaches(c, 1 + c[0].data)
    ensures c[0].op != BLOCK && !Enters(c[0].op) ==> n == Size(c[0])
    ensures c[0].op == BLOCK || Enters(c[0].op) || Jumps(c[0].op) || Simple(c[0].op)
  {
    hide Reaches, ExitAt, Between, Splits, Laid, Unit, Sound;
    n := UnitFirst(c, pos);
    UnitSplits(c, n, pos);
    SplitAt(c, n);
    if c[0].op == BLOCK {
      FirstSound(c, pos);
      BlockReaches(c, pos);
    } else if Enters(c[0].op) {
      HeadSplits(c, pos);
      SplitAt(c, 1);
    } else if Jumps(c[0].op) {
      FirstSound(c, pos);
      JumpParts(c, pos);
    }
  }

  lemma UnitFirst(c: Code, pos: nat) returns (n: nat)
    requires c != [] && Laid(c, pos)
    ensures Unit(c) == Some(n) && 0 < n <= |c| && Laid(c[n..], pos + n)
    ensures c[0].op == BLOCK ==> c[0].data == n - 1 && n >= 4 && Laid(c[2..n - 1], pos + 2) && c[n - 1].op == EXIT
    ensures Enters(c[0].op) ==> n >= 2 && Laid(c[1..n - 1], pos + 1) && c[n - 1].op == EXIT
    ensures Jumps(c[0].op) ==> n == 1 && Between(c[1..], c[0].data) && Laid(c[1..], pos + 1)
    ensures c[0].op != BLOCK && !Enters(c[0].op) ==> n == Size(c[0])
    ensures c[0].op == BLOCK || Enters(c[0].op) || Jumps(c[0].op) || Simple(c[0].op)
  {
    hide ExitAt, Between;
    n := Unit(c).value;
  }

  lemma BlockReaches(c: Code, pos: nat)
    requires c != [] && c[0].op == BLOCK && Sound(c, pos, 0)
    ensures Reaches(c, 2)
  {
    hide Reaches, ExitAt;
  }

  lemma JumpParts(c: Code, pos: nat)
    requires c != [] && Jumps(c[0].op) && Sound(c, pos, 0) && Between(c[1..], c[0].data) && Laid(c[1..], pos + 1)
    ensures 1 + c[0].data <= |c| && Reaches(c, 1 + c[0].data)
    ensures Laid(c[1 + c[0].data..|c|], pos + 1 + c[0].data)
  {
    hide Reaches, ExitAt, Between, Laid;
    LaidFrom(c[1..], c[0].data, pos + 1);
    assert c[1..][c[0].data..] == c[1 + c[0].data..|c|];
  }

  /** Between two units, the rest is laid out too. */
  lemma {:induction false} LaidFrom(c: Code, k: nat, pos: nat)
    requires Laid(c, pos) && Between(c, k)
    ensures k <= |c| && Laid(c[k..], pos + k)
    decreases |c|
  {
    hide Laid, Unit;
    if k == 0 {
      assert c[0..] == c;
    } else {
      var n := UnitFirst(c, pos);
      LaidFrom(c[n..], k - n, pos + n);
      assert c[n..][k - n..] == c[k..];
    }
  }

  // ---- whole runs ----

  /** Every program counter is a place of the level, and the run ends behind the level's EXIT. */
  ghost predicate Stays(prog: Code, e: nat, counters: set<nat>, o: Outcome) {
    (forall p :: p in counters ==> Place(prog, p) && p <= e) && (o.Done? ==> o.pc == e + 1)
  }

  /** From the place `pc` of a level. */
  lemma {:induction false} RunStays(h: Host, prog: Code, pc: nat, e: nat, depth: nat, r: Value, st: State)
    requires depth <= h.limit && From(prog, pc, e)
    ensures Stays(prog, e, Counters(h, prog, pc, depth, r, st), Run(h, prog, pc, depth, r, st))
    decreases h.limit - depth, 1, |prog| - pc
  {
    hide Place, Level, RunFlat, RunEnter, RunCall, RunTop, FlatCounters, EnterCounters, CallCounters, TopCounters,
         PushStep, PopStep, Force;
    LevelBounds(prog, pc, e);
    if pc < e {
      var op := prog[pc].op;
      var n := UnitLevels(prog, pc, e);
      if IsPushOp(op) {
        PushLevel(h, prog, pc, e, n, r, st);
        FlatStays(h, prog, pc, e, depth, PushStep(h, prog, pc, r, st), st);
      } else if Enters(op) {
        EnterStays(h, prog, pc, e, n, depth, r, st);
      } else if op == CALL || op == COM || op == COM_V {
        CallStays(h, prog, pc, e, n, depth, st);
      } else if st.stack != [] {
        if IsPopOp(op) {
          PopLevel(h, prog, pc, e, n, r, st);
          FlatStays(h, prog, pc, e, depth, PopStep(h, prog, pc, r, st), st);
        } else if op == DO || op == JUMP_RESULT {
          TopStays(h, prog, pc, e, n, depth, st);
        }
      }
    }
  }

  lemma LevelBounds(prog: Code, pc: nat, e: nat)
    requires Level(prog, pc, e)
    ensures pc <= e < |prog| && prog[e].op == EXIT
    ensures pc < e ==> prog[pc].op != EXIT
  {
    hide ExitAt, Between;
    if pc < e {
      FirstOp(prog[pc..e], pc);
    }
  }

  lemma PushLevel(h: Host, prog: Code, pc: nat, e: nat, n: nat, r: Value, st: State)
    requires pc < e < |prog| && IsPushOp(prog[pc].op) && From(prog, pc + n, e)
    requires prog[pc].op == BLOCK ==> prog[pc].data == n - 1
    requires Jumps(prog[pc].op) ==> From(prog, pc + 1 + prog[pc].data, e)
    requires prog[pc].op != BLOCK ==> n == Size(prog[pc])
    requires prog[pc].op == BLOCK || Jumps(prog[pc].op) || Simple(prog[pc].op)
    ensures var f := PushStep(h, prog, pc, r, st); f.Next? ==> From(prog, f.pc, e)
  {
    hide From, Force, Find, UnpackBytes, ShortStringValue, ShortIntValue, ToInt32;
  }

  lemma PopLevel(h: Host, prog: Code, pc: nat, e: nat, n: nat, r: Value, st: State)
    requires pc < e < |prog| && st.stack != [] && IsPopOp(prog[pc].op)
    requires From(prog, pc + n, e) && n == Size(prog[pc])
    requires Jumps(prog[pc].op) ==> From(prog, pc + 1 + prog[pc].data, e)
    ensures var f := PopStep(h, prog, pc, r, st); f.Next? ==> From(prog, f.pc, e)
  {
    hide From, Force, GetBool, CompileValue, Bind, Lost;
  }

  lemma {:induction false} FlatStays(h: Host, prog: Code, pc: nat, e: nat, depth: nat, f: Flat, st: State)
    requires depth <= h.limit && pc < |prog| && (f.Next? ==> From(prog, f.pc, e))
    ensures Stays(prog, e, FlatCounters(h, prog, pc, depth, f), RunFlat(h, prog, pc, depth, f, st))
    decreases h.limit - depth, 1, |prog| - pc, 0
  {
    hide From, Run, Counters;
    if f.Next? && f.pc > pc {
      RunStays(h, prog, f.pc, e, depth, f.r, f.st);
    }
  }

  lemma {:induction false} EnterStays(h: Host, prog: Code, pc: nat, e: nat, n: nat, depth: nat, r: Value, st: State)
    requires depth <= h.limit && pc < e < |prog| && Enters(prog[pc].op) && n >= 2 && pc + n <= e
    requires From(prog, pc + n, e) && From(prog, pc + 1, pc + n - 1)
    ensures Stays(prog, e, EnterCounters(h, prog, pc, depth, r, st), RunEnter(h, prog, pc, depth, r, st))
    decreases h.limit - depth, 1, |prog| - pc, 0
  {
    hide From, Run, Counters, Resize;
    var st' := if prog[pc].op == ENTER then Push(st, NoValue) else st;
    if depth < h.limit {
      RunStays(h, prog, pc + 1, pc + n - 1, depth + 1, NoValue, st');
    }
    match Enter(h, prog, pc + 1, depth, st') {
      case Done(pc', v, st'') =>
        if prog[pc].op == ENTER {
          RunStays(h, prog, pc + n, e, depth, r, st''.(stack := Pop(st''.stack) + [v]));
        } else {
          RunStays(h, prog, pc + n, e, depth, v, st'');
        }
      case _ =>
    }
  }

  lemma {:induction false} CallStays(h: Host, prog: Code, pc: nat, e: nat, n: nat, depth: nat, st: State)
    requires depth <= h.limit && pc < e < |prog| && n == Size(prog[pc]) && From(prog, pc + n, e)
    requires prog[pc].op == CALL || prog[pc].op == COM || prog[pc].op == COM_V
    ensures Stays(prog, e, CallCounters(h, prog, pc, depth, st), RunCall(h, prog, pc, depth, st))
    decreases h.limit - depth, 1, |prog| - pc, 0
  {
    hide From, Run, Counters, Resize, Dispatch, Force, CallCount;
    var w := prog[pc];
    var count := CallCount(h, prog, pc);
    if pc + n <= |prog| && count <= |st.stack| {
      match Dispatch(h, w.op, w.data, st.stack[|st.stack| - count..], depth, st) {
        case Done(_, v, st') =>
          RunStays(h, prog, pc + n, e, depth, Force(h, v, w.ret), st'.(stack := Resize(st'.stack, |st.stack| - count)));
        case _ =>
      }
    }
  }

  lemma {:induction false} TopStays(h: Host, prog: Code, pc: nat, e: nat, n: nat, depth: nat, st: State)
    requires depth <= h.limit && pc < e < |prog| && st.stack != [] && n == Size(prog[pc])
    requires From(prog, pc + n, e)
    requires prog[pc].op == DO || prog[pc].op == JUMP_RESULT
    requires Jumps(prog[pc].op) ==> From(prog, pc + 1 + prog[pc].data, e)
    ensures Stays(prog, e, TopCounters(h, prog, pc, depth, st), RunTop(h, prog, pc, depth, st))
    decreases h.limit - depth, 1, |prog| - pc, 0
  {
    hide From, Run, Counters, Invoke, InvokeOrKeep, Force, GetBool;
    var w := prog[pc];
    var rest := st.(stack := Pop(st.stack));
    if w.op == DO {
      match Invoke(h, Top(st.stack), depth, rest) {
        case Done(_, v, st') => RunStays(h, prog, pc + 1, e, depth, Force(h, v, w.ret), st');
        case _ =>
      }
    } else {
      match InvokeOrKeep(h, Top(st.stack), depth, rest) {
        case Done(_, v, st') =>
          RunStays(h, prog, pc + 1 + (if GetBool(h, v) == (w.ret != FLAG_FALSE) then w.data else 0), e, depth, v, st');
        case _ =>
      }
    }
  }

  /** A whole program: from its first instruction, every program counter of the run is a place, and the run
      ends behind the last EXIT. The same holds from the body of any block that is pushed. */
  lemma ProgramStays(h: Host, prog: Code, depth: nat, r: Value, st: State)
    requires Whole(prog) && depth <= h.limit
    ensures Stays(prog, |prog| - 1, Counters(h, prog, 1, depth, r, st), Run(h, prog, 1, depth, r, st))
  {
    hide Stays, Counters, Run, Laid;
    NothingReached(prog[1..]);
    RunStays(h, prog, 1, |prog| - 1, depth, r, st);
  }

  /** What BLOCK pushes is such a level: the body of the block, up to its own EXIT. */
  lemma PushedStays(h: Host, prog: Code, pc: nat, e: nat, depth: nat, r: Value, st: State)
    requires From(prog, pc, e) && pc < e && prog[pc].op == BLOCK && depth <= h.limit
    ensures Stays(prog, pc + prog[pc].data, Counters(h, prog, pc + 2, depth, r, st), Run(h, prog, pc + 2, depth, r, st))
  {
    hide Stays, Counters, Run, Level, Place;
    LevelBounds(prog, pc, e);
    var n := UnitLevels(prog, pc, e);
    RunStays(h, prog, pc + 2, pc + n - 1, depth, r, st);
  }
}
