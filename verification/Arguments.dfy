/** Argument aliases: one linked stack per argument and one bit mask per call level stand in for
    ordinary per-call environments (src/cs_vm.cc exec_alias, src/cs_ident.cc alias_stack). */
module Arguments {
  import opened Syntax
  import opened Words

  type ArgIndex = i: nat | i < MAX_ARGUMENTS

  // ---- the meaning: a stack of environments ----

  /** The environment of one call. Arguments that are not in the map have not been given. */
  datatype CallFrame = CallFrame(args: map<ArgIndex, Value>, numargs: int, flags: Flags)

  /** What a running body can do with arguments: assign `argN`, mention it as an identifier, look
      it up, ask for `numargs` and the thread's flags, change the flags, call an alias, or fail. */
  datatype Action =
    | Assign(i: ArgIndex, v: Value)
    | Touch(i: ArgIndex)
    | Read(i: ArgIndex)
    | ReadNumargs
    | ReadFlags
    | SetFlags(flags: Flags)
    | Call(args: seq<Value>, flags: Flags, body: List<Action>)
    | Throw

  datatype Seen = SeenValue(v: Value) | SeenNumber(n: int) | SeenFlags(flags: Flags)

  datatype Effect = Effect(frame: CallFrame, seen: seq<Seen>, failed: bool)

  function Supplied(args: seq<Value>): nat {
    if |args| < MAX_ARGUMENTS then |args| else MAX_ARGUMENTS
  }

  function Fresh(args: seq<Value>, flags: Flags): CallFrame {
    CallFrame(map i: ArgIndex | i < Supplied(args) :: args[i], Supplied(args), flags)
  }

  /** Outside of any call every argument is there, and has no value. */
  function Outermost(): CallFrame {
    Fresh(seq(MAX_ARGUMENTS, _ => NoValue), {}).(numargs := 0)
  }

  function ReadFrom(f: CallFrame, i: ArgIndex): Value {
    if i in f.args then f.args[i] else NoValue
  }

  function SetIn(f: CallFrame, i: ArgIndex, v: Value): CallFrame {
    f.(args := f.args[i := v])
  }

  function TouchIn(f: CallFrame, i: ArgIndex): CallFrame {
    if i in f.args then f else SetIn(f, i, NoValue)
  }

  /** Running a body in an environment of its own. A call cannot change the caller's environment. */
  function Meaning(f: CallFrame, body: List<Action>): Effect
    decreases body
  {
    match body
    case Nil => Effect(f, [], false)
    case Cons(a, rest) =>
      var e := MeaningOf(f, a);
      if e.failed then e else
      var e' := Meaning(e.frame, rest);
      Effect(e'.frame, e.seen + e'.seen, e'.failed)
  }

  function MeaningOf(f: CallFrame, a: Action): Effect
    decreases a
  {
    match a
    case Assign(i, v) => Effect(SetIn(f, i, v), [], false)
    case Touch(i) => Effect(TouchIn(f, i), [], false)
    case Read(i) => Effect(f, [SeenValue(ReadFrom(f, i))], false)
    case ReadNumargs => Effect(f, [SeenNumber(f.numargs)], false)
    case ReadFlags => Effect(f, [SeenFlags(f.flags)], false)
    case SetFlags(flags) => Effect(f.(flags := flags), [], false)
    case Call(args, flags, body) =>
      var e := Meaning(Fresh(args, flags), body);
      Effect(f, e.seen, e.failed)
    case Throw => Effect(f, [], true)
  }

  // ---- the implementation ----

  /** A pointer to an `ident_stack` node: the one inside the alias, or one on the thread's stack. */
  datatype Link = Initial | Slot(at: nat)

  /** `cached` is the value that the node's compiled code was made from, if there is code. */
  datatype Node = Node(val: Value, cached: Option<Value>, next: Link)

  /** The local variables of one activation of exec_alias. */
  datatype Activation = Activation(callargs: nat, noff: nat, oldargs: int, oldflags: Flags)

  function Next(ids: seq<Node>, p: Link): Link {
    if p.Slot? && p.at < |ids| then ids[p.at].next else Initial
  }

  /** The chain of argument `i` from `p`, seen from call level `n`, holds exactly the values that the
      levels up to `n` give the argument, each in a node pushed during that level: between the size
      of the node stack when the level was entered and `top`. */
  ghost predicate Chain(ids: seq<Node>, init: seq<Node>, own: seq<ArgIndex>, fs: seq<CallFrame>, floors: seq<nat>,
                        p: Link, i: ArgIndex, n: nat, top: nat)
    requires n < |fs| && |floors| + 1 == |fs| && |own| == |ids| && |init| == MAX_ARGUMENTS
    decreases n
  {
    if n == 0 then p == Initial && i in fs[0].args && init[i].val == fs[0].args[i]
    else if i in fs[n].args then
      && p.Slot? && floors[n - 1] <= p.at < top && p.at < |ids| && own[p.at] == i
      && ids[p.at].val == fs[n].args[i]
      && Chain(ids, init, own, fs, floors, ids[p.at].next, i, n - 1, floors[n - 1])
    else Chain(ids, init, own, fs, floors, p, i, n - 1, floors[n - 1])
  }

  /** A chain only depends on the argument's own nodes below `top` and on its own entries. */
  lemma {:induction false} ChainSame(
      ids: seq<Node>, init: seq<Node>, own: seq<ArgIndex>, fs: seq<CallFrame>, floors: seq<nat>,
      ids': seq<Node>, init': seq<Node>, own': seq<ArgIndex>, fs': seq<CallFrame>, floors': seq<nat>,
      p: Link, i: ArgIndex, n: nat, top: nat, top': nat)
    requires n < |fs| && |floors| + 1 == |fs| && |own| == |ids| && |init| == MAX_ARGUMENTS
    requires n < |fs'| && |floors'| + 1 == |fs'| && |own'| == |ids'| && |init'| == MAX_ARGUMENTS
    requires Chain(ids, init, own, fs, floors, p, i, n, top) && top <= top'
    requires forall k :: 0 <= k < top && k < |ids| && own[k] == i ==> k < |ids'| && ids'[k] == ids[k] && own'[k] == i
    requires init'[i].val == init[i].val
    requires forall k :: 0 <= k < n ==> floors'[k] == floors[k] <= top
    requires forall k :: 0 <= k <= n ==> (i in fs'[k].args <==> i in fs[k].args)
                                         && (i in fs[k].args ==> fs'[k].args[i] == fs[k].args[i])
    requires forall k, l :: 0 <= k <= l < n ==> floors[k] <= floors[l]
    ensures Chain(ids', init', own', fs', floors', p, i, n, top')
    decreases n
  {
    if n > 0 {
      assert fs'[n].args.Keys == fs'[n].args.Keys;
      var q := if i in fs[n].args then ids[p.at].next else p;
      ChainSame(ids, init, own, fs, floors, ids', init', own', fs', floors', q, i, n - 1, floors[n - 1], floors[n - 1]);
    }
  }

  class ArgStacks {
    var idstack: seq<Node>
    var initial: seq<Node>
    var heads: seq<Link>
    var callstack: seq<set<ArgIndex>>
    var numargs: int
    var identFlags: Flags

    // The environments being stood in for, outermost first; the size of the node stack at the entry
    // of each call; and the argument that each node on the stack belongs to.
    ghost var frames: seq<CallFrame>
    ghost var floors: seq<nat>
    ghost var owner: seq<ArgIndex>

    ghost predicate Shape()
      reads this
    {
      && frames != [] && |floors| == |callstack| == |frames| - 1 && |owner| == |idstack|
      && |initial| == |heads| == MAX_ARGUMENTS
      && (forall k :: 0 <= k < |callstack| ==> callstack[k] == frames[k + 1].args.Keys)
      && (forall k :: 0 <= k < |floors| ==> floors[k] <= |idstack|)
      && (forall k, l :: 0 <= k <= l < |floors| ==> floors[k] <= floors[l])
      && numargs == frames[|frames| - 1].numargs && identFlags == frames[|frames| - 1].flags
    }

    /** Compiled code is never left over from another value. */
    ghost predicate CachesFresh()
      reads this
    {
      && (forall k :: 0 <= k < |idstack| ==> idstack[k].cached.Some? ==> idstack[k].cached.value == idstack[k].val)
      && (forall k :: 0 <= k < |initial| ==> initial[k].cached.Some? ==> initial[k].cached.value == initial[k].val)
    }

    ghost predicate Chains()
      requires Shape()
      reads this
    {
      forall i: ArgIndex :: Chain(idstack, initial, owner, frames, floors, heads[i], i, |frames| - 1, |idstack|)
    }

    ghost predicate Valid()
      reads this
    {
      Shape() && CachesFresh() && Chains()
    }

    /** The environment that is visible now. */
    ghost function Current(): CallFrame
      requires frames != []
      reads this
    {
      frames[|frames| - 1]
    }

    /** Only the visible environment has changed, to `f`. */
    twostate predicate Became(f: CallFrame)
      requires old(frames) != []
      reads this
    {
      frames == old(frames)[|old(frames)| - 1 := f] && floors == old(floors)
    }

    /** The mask of the running call. */
    function Mask(): set<ArgIndex>
      requires callstack != []
      reads this
    {
      callstack[|callstack| - 1]
    }

    /** The head that the argument's stack had when the running call was entered. */
    function Below(i: ArgIndex): Link
      requires |heads| == MAX_ARGUMENTS && callstack != []
      reads this
    {
      if i in Mask() then Next(idstack, heads[i]) else heads[i]
    }

    /** Inside of a call, nothing that was there before the call has changed. */
    twostate predicate KeepsBelow()
      requires Shape() && old(Shape()) && |callstack| == |old(callstack)| && floors == old(floors)
      reads this
    {
      callstack != [] ==>
        && initial == old(initial) && callstack[..|callstack| - 1] == old(callstack)[..|callstack| - 1]
        && idstack[..floors[|floors| - 1]] == old(idstack)[..floors[|floors| - 1]]
        && forall i: ArgIndex :: Below(i) == old(Below(i))
    }

    constructor ()
      ensures Valid() && callstack == []
      ensures frames == [Outermost()]
    {
      idstack, callstack, numargs, identFlags := [], [], 0, {};
      initial := seq(MAX_ARGUMENTS, _ => Node(NoValue, None, Initial));
      heads := seq(MAX_ARGUMENTS, _ => Initial);
      frames, floors, owner := [Outermost()], [], [];
    }

    /** ident_is_used_arg: outside of any call every argument counts as used. */
    predicate IsUsed(i: ArgIndex)
      reads this
    {
      callstack == [] || i in callstack[|callstack| - 1]
    }

    /** The node on top of the argument's stack. */
    function HeadNode(i: ArgIndex): Node
      requires |heads| == |initial| == MAX_ARGUMENTS && (heads[i].Slot? ==> heads[i].at < |idstack|)
      reads this
    {
      if heads[i].Slot? then idstack[heads[i].at] else initial[i]
    }

    lemma UsedHead(i: ArgIndex)
      requires Valid()
      ensures i in frames[0].args
      ensures IsUsed(i) <==> i in Current().args
      ensures IsUsed(i) ==> (heads[i].Slot? ==> heads[i].at < |idstack|) && HeadNode(i).val == Current().args[i]
    {
      assert Chain(idstack, initial, owner, frames, floors, heads[i], i, |frames| - 1, |idstack|);
      OutermostHasAll(idstack, initial, owner, frames, floors, heads[i], i, |frames| - 1, |idstack|);
    }

    /** The LOOKUP instruction on an argument. */
    method Lookup(i: ArgIndex) returns (v: Value)
      requires Valid()
      ensures v == ReadFrom(Current(), i)
    {
      UsedHead(i);
      v := if IsUsed(i) then HeadNode(i).val else NoValue;
    }

    /** alias_stack::push of a new node */
    method PushNode(i: ArgIndex, v: Value)
      requires |heads| == MAX_ARGUMENTS
      modifies this`idstack, this`heads, this`owner
      ensures idstack == old(idstack) + [Node(v, None, old(heads[i]))]
      ensures heads == old(heads)[i := Slot(|old(idstack)|)]
      ensures owner == old(owner) + [i]
    {
      idstack := idstack + [Node(v, None, heads[i])];
      heads := heads[i := Slot(|idstack| - 1)];
      owner := owner + [i];
    }

    /** An argument that this call has not been given gets a node and its bit. */
    method PushArg(i: ArgIndex, v: Value)
      requires Valid() && !IsUsed(i)
      modifies this
      ensures Valid() && Became(SetIn(old(Current()), i, v))
      ensures KeepsBelow()
    {
      hide Chain;
      UsedHead(i);
      ghost var n := |callstack|;
      ghost var ids, own, fs := idstack, owner, frames;
      PushNode(i, v);
      callstack := callstack[|callstack| - 1 := callstack[|callstack| - 1] + {i}];
      frames := frames[n := SetIn(frames[n], i, v)];
      forall j: ArgIndex ensures Chain(idstack, initial, owner, frames, floors, heads[j], j, n, |idstack|) {
        if j == i {
          ChainUnused(ids, initial, own, fs, floors, old(heads[j]), j, n, |ids|);
          ChainSame(ids, initial, own, fs, floors, idstack, initial, owner, frames, floors, old(heads[j]), j, n - 1,
                    floors[n - 1], floors[n - 1]);
          ChainPushed(idstack, initial, owner, frames, floors, heads[j], j, n, |idstack|);
        } else {
          ChainSame(ids, initial, own, fs, floors, idstack, initial, owner, frames, floors, heads[j], j, n, |ids|,
                    |idstack|);
        }
      }
      forall j: ArgIndex ensures Below(j) == old(Below(j)) {
        if j != i && j in Mask() {
          ChainTop(ids, initial, own, fs, floors, heads[j], j, n, |ids|);
        }
      }
    }

    /** alias_stack::set_arg */
    method SetArg(i: ArgIndex, v: Value)
      requires Valid()
      modifies this
      ensures Valid() && Became(SetIn(old(Current()), i, v))
      ensures KeepsBelow()
    {
      UsedHead(i);
      if !IsUsed(i) {
        PushArg(i, v);
      } else if callstack == [] {
        SetOutermost(i, v);
      } else {
        SetGiven(i, v);
      }
    }

    method SetOutermost(i: ArgIndex, v: Value)
      requires Valid() && callstack == []
      modifies this
      ensures Valid() && Became(SetIn(old(Current()), i, v))
      ensures KeepsBelow()
    {
      initial := initial[i := initial[i].(val := v, cached := None)];
      frames := [SetIn(frames[0], i, v)];
      forall j: ArgIndex ensures Chain(idstack, initial, owner, frames, floors, heads[j], j, 0, |idstack|) {
        assert old(Chain(idstack, initial, owner, frames, floors, heads[j], j, 0, |idstack|));
      }
    }

    method SetGiven(i: ArgIndex, v: Value)
      requires Valid() && callstack != [] && i in Current().args
      modifies this
      ensures Valid() && Became(SetIn(old(Current()), i, v))
      ensures KeepsBelow()
    {
      hide Chain;
      ghost var n := |callstack|;
      ghost var ids, fs := idstack, frames;
      ChainTop(ids, initial, owner, fs, floors, heads[i], i, n, |ids|);
      var at := heads[i].at;
      idstack := idstack[at := idstack[at].(val := v, cached := None)];
      frames := frames[n := SetIn(frames[n], i, v)];
      forall j: ArgIndex ensures Chain(idstack, initial, owner, frames, floors, heads[j], j, n, |idstack|) {
        if j == i {
          ChainSame(ids, initial, owner, fs, floors, idstack, initial, owner, frames, floors, ids[at].next, j, n - 1,
                    floors[n - 1], floors[n - 1]);
          ChainPushed(idstack, initial, owner, frames, floors, heads[j], j, n, |idstack|);
        } else {
          ChainSame(ids, initial, owner, fs, floors, idstack, initial, owner, frames, floors, heads[j], j, n, |ids|,
                    |idstack|);
        }
      }
    }

    /** The IDENT instruction on an argument. */
    method TouchArg(i: ArgIndex)
      requires Valid()
      modifies this
      ensures Valid() && Became(TouchIn(old(Current()), i))
      ensures KeepsBelow()
    {
      UsedHead(i);
      if !IsUsed(i) {
        PushArg(i, NoValue);
      } else {
        assert frames == frames[|frames| - 1 := Current()];
      }
    }

    // ---- calls ----

    /** Push a node for each argument. */
    method BindArguments(args: seq<Value>, callargs: nat) returns (uargs: set<ArgIndex>)
      requires callargs <= |args| && callargs <= MAX_ARGUMENTS && |heads| == MAX_ARGUMENTS && |owner| == |idstack|
      modifies this`idstack, this`heads, this`owner
      ensures |heads| == MAX_ARGUMENTS && |idstack| == |owner| == |old(idstack)| + callargs
      ensures idstack[..|old(idstack)|] == old(idstack) && owner[..|old(idstack)|] == old(owner)
      ensures forall i: ArgIndex :: Bound(heads[i], idstack, owner, i, if i < callargs then args[i]
                                          else NoValue, callargs,
                                          |old(idstack)|, old(heads)[i])
      ensures forall i: ArgIndex :: i in uargs <==> i < callargs
    {
      uargs := {};
      var noff := |idstack|;
      var k := 0;
      while k < callargs
        invariant k <= callargs && |heads| == MAX_ARGUMENTS && |idstack| == |owner| == noff + k
        invariant idstack[..noff] == old(idstack) && owner[..noff] == old(owner)
        invariant forall i: ArgIndex :: Bound(heads[i], idstack, owner, i, if i < k then args[i] else NoValue, k,
                                              noff, old(heads)[i])
        invariant forall i: ArgIndex :: i in uargs <==> i < k
      {
        PushNode(k, args[k]);
        uargs := uargs + {k};
        k := k + 1;
      }
    }

    /** The first half of exec_alias: bind the arguments in a new level. */
    method EnterCall(args: seq<Value>, flags: Flags) returns (act: Activation)
      requires Valid()
      modifies this
      ensures Valid() && frames == old(frames) + [Fresh(args, flags)] && floors == old(floors) + [|old(idstack)|]
      ensures act == Activation(Supplied(args), |old(idstack)|, old(numargs), old(identFlags))
      ensures callstack == old(callstack) + [Fresh(args, flags).args.Keys]
      ensures initial == old(initial) && |old(idstack)| <= |idstack| && idstack[..|old(idstack)|] == old(idstack)
      ensures forall i: ArgIndex :: Below(i) == old(heads)[i]
      ensures |heads| == MAX_ARGUMENTS
      ensures forall i: ArgIndex :: if i >= Supplied(args) then heads[i] == old(heads)[i] else
                heads[i].Slot? && heads[i].at < |idstack| && idstack[heads[i].at].val == args[i]
    {
      hide Chain;
      var callargs := Supplied(args);
      var noff := |idstack|;
      var uargs := BindArguments(args, callargs);
      act := Activation(callargs, noff, numargs, identFlags);
      identFlags := flags;
      numargs := callargs;
      callstack := callstack + [uargs];
      assert uargs == Fresh(args, flags).args.Keys;
      frames := frames + [Fresh(args, flags)];
      floors := floors + [noff];
      BoundCaches(old(idstack), idstack, owner, heads, old(heads), args);
      assert Chains() by {
        forall i: ArgIndex
          ensures Chain(idstack, initial, owner, frames, floors, heads[i], i, |frames| - 1, |idstack|)
        {
          EnteredChain(old(idstack), initial, old(owner), old(frames), old(floors), old(heads)[i], idstack, owner,
                       heads[i], args, flags, i);
        }
      }
    }

    ghost predicate PoppedSoFar(hs: seq<Link>, mask: set<ArgIndex>, amask: set<ArgIndex>)
      requires |hs| == MAX_ARGUMENTS
      reads this
    {
      |heads| == MAX_ARGUMENTS
      && forall j: ArgIndex :: heads[j] == if j in mask && j !in amask then Next(idstack, hs[j]) else hs[j]
    }

    /** alias_stack::pop */
    method PopArg(i: ArgIndex, amask: set<ArgIndex>, ghost hs: seq<Link>,
                  ghost mask: set<ArgIndex>) returns (rest: set<ArgIndex>)
      requires |hs| == MAX_ARGUMENTS && PoppedSoFar(hs, mask, amask) && i in amask && i in mask
      modifies this`heads
      ensures PoppedSoFar(hs, mask, rest) && rest == amask - {i}
    {
      heads := heads[i := Next(idstack, heads[i])];
      rest := amask - {i};
    }

    /** The clean-up of exec_alias, the same after a normal end and after an error: pop every argument
        that the level's mask names, cut the node stack, and restore `numargs` and the flags. */
    method LeaveCall(act: Activation)
      requires callstack != [] && act.noff <= |idstack| && |heads| == MAX_ARGUMENTS
      requires act.callargs <= MAX_ARGUMENTS && forall i: ArgIndex :: i < act.callargs ==> i in Mask()
      modifies this`heads, this`idstack, this`callstack, this`numargs, this`identFlags
      ensures callstack == old(callstack)[..|old(callstack)| - 1]
      ensures |heads| == MAX_ARGUMENTS && forall i: ArgIndex :: heads[i] == old(Below(i))
      ensures idstack == old(idstack)[..act.noff] && numargs == act.oldargs && identFlags == act.oldflags
    {
      var amask := Mask();
      ghost var mask, hs := amask, heads;
      callstack := callstack[..|callstack| - 1];
      identFlags := act.oldflags;
      var i := 0;
      while i < act.callargs
        modifies this`heads
        invariant i <= act.callargs && PoppedSoFar(hs, mask, amask)
        invariant forall j: ArgIndex :: j in amask <==> j in mask && j >= i
      {
        amask := PopArg(i, amask, hs, mask);
        i := i + 1;
      }
      while amask != {}
        modifies this`heads
        invariant i <= MAX_ARGUMENTS && PoppedSoFar(hs, mask, amask)
        invariant forall j: ArgIndex :: j in amask <==> j in mask && j >= i
        decreases MAX_ARGUMENTS - i
      {
        var some :| some in amask;
        assert some >= i;
        if i in amask {
          amask := PopArg(i, amask, hs, mask);
        }
        i := i + 1;
      }
      idstack := idstack[..act.noff];
      numargs := act.oldargs;
    }

    /** exec_alias around a body. Everything is afterwards exactly as it was before the call, also when
        an error passes through. */
    method ExecAlias(args: seq<Value>, flags: Flags, body: List<Action>) returns (seen: seq<Seen>, failed: bool)
      requires Valid()
      modifies this
      ensures var e := Meaning(Fresh(args, flags), body); seen == e.seen && failed == e.failed
      ensures idstack == old(idstack) && initial == old(initial) && heads == old(heads) && callstack == old(callstack)
      ensures numargs == old(numargs) && identFlags == old(identFlags)
      ensures frames == old(frames) && floors == old(floors) && owner == old(owner)
      decreases body, 1
    {
      ghost var was, own := frames, owner;
      var act := EnterCall(args, flags);
      label entered:
      seen, failed := Run(body);
      MeaningKeeps(Fresh(args, flags), body);
      assert callstack[..|callstack| - 1] == old(callstack);
      assert idstack[..act.noff] == old(idstack);
      LeaveCall(act);
      frames, floors, owner := was, floors[..|floors| - 1], own;
      assert heads == old(heads);
    }

    /** exec_alias when the text does not compile: only the call level is taken back. The nodes of the
        arguments stay, and so do the number of arguments and the flags of the alias. Outside of any
        call the arguments from then on have the values that this call was given. */
    method ExecUncompiled(args: seq<Value>, flags: Flags)
      requires Valid()
      modifies this
      ensures callstack == old(callstack) && initial == old(initial)
      ensures numargs == Supplied(args) && identFlags == flags
      ensures |heads| == |initial| == MAX_ARGUMENTS && |idstack| == |old(idstack)| + Supplied(args)
      ensures idstack[..|old(idstack)|] == old(idstack)
      ensures forall i: ArgIndex :: i < Supplied(args) ==>
                heads[i] == Slot(|old(idstack)| + i)
                && idstack[|old(idstack)| + i] == Node(args[i], None, old(heads)[i])
      ensures forall i: ArgIndex :: i >= Supplied(args) ==> heads[i] == old(heads)[i]
      ensures frames == old(frames) && floors == old(floors)
    {
      ghost var was, below := frames, floors;
      var callargs := Supplied(args);
      var uargs := BindArguments(args, callargs);
      identFlags := flags;
      numargs := callargs;
      callstack := callstack + [uargs];
      callstack := callstack[..|callstack| - 1];
      forall i: ArgIndex ensures Bound(heads[i], idstack, owner, i, if i < callargs then args[i] else NoValue, callargs,
                                       |old(idstack)|, old(heads)[i]) {
      }
    }

    /** When the error passes through the call around it, that call pops one node for each of its own
        arguments and cuts the node stack. The arguments of the call that did not compile are left with
        a node that is gone; the others are as the call found them. */
    method LeaveAfterUncompiled(act: Activation, args: seq<Value>, flags: Flags)
      requires Valid() && callstack != [] && act.noff == floors[|floors| - 1]
      requires act.callargs <= MAX_ARGUMENTS && forall i: ArgIndex :: i < act.callargs ==> i in Mask()
      modifies this
      ensures callstack == old(callstack)[..|old(callstack)| - 1] && idstack == old(idstack)[..act.noff]
      ensures numargs == act.oldargs && identFlags == act.oldflags && |heads| == MAX_ARGUMENTS
      ensures forall i: ArgIndex :: if i < Supplied(args) then heads[i].Slot? && heads[i].at >= |idstack|
                                    else heads[i] == old(Below(i))
    {
      hide Chain;
      ghost var n := |callstack|;
      forall i: ArgIndex ensures i in Mask() ==> heads[i].Slot? && act.noff <= heads[i].at < |idstack| {
        if i in Mask() {
          ChainTop(idstack, initial, owner, frames, floors, heads[i], i, n, |idstack|);
        }
      }
      ExecUncompiled(args, flags);
      assert Mask() == old(Mask());
      label broken:
      LeaveCall(act);
      forall i: ArgIndex ensures if i < Supplied(args) then heads[i].Slot? && heads[i].at >= |idstack|
                                 else heads[i] == old(Below(i)) {
        assert heads[i] == old@broken(Below(i));
      }
    }

    /** Running a body shows exactly what it would see in an environment of its own, fails exactly when
        it would, and leaves everything below the running call alone. */
    method Run(body: List<Action>) returns (seen: seq<Seen>, failed: bool)
      requires Valid()
      modifies this
      ensures var e := Meaning(old(Current()), body);
              Valid() && Became(e.frame) && seen == e.seen && failed == e.failed
      ensures KeepsBelow()
      decreases body, 0
    {
      hide Chain;
      match body
      case Nil =>
        seen, failed := [], false;
        assert frames == frames[|frames| - 1 := Current()];
      case Cons(a, rest) =>
        seen, failed := Act(a);
        if !failed {
          var more;
          more, failed := Run(rest);
          seen := seen + more;
        }
    }

    method Act(a: Action) returns (seen: seq<Seen>, failed: bool)
      requires Valid()
      modifies this
      ensures var e := MeaningOf(old(Current()), a);
              Valid() && Became(e.frame) && seen == e.seen && failed == e.failed
      ensures KeepsBelow()
      decreases a, 0
    {
      hide Chain;
      seen, failed := [], false;
      assert frames == frames[|frames| - 1 := Current()];
      match a
      case Assign(i, v) => SetArg(i, v);
      case Touch(i) => TouchArg(i);
      case Read(i) =>
        var v := Lookup(i);
        seen := [SeenValue(v)];
      case ReadNumargs => seen := [SeenNumber(numargs)];
      case ReadFlags => seen := [SeenFlags(identFlags)];
      case SetFlags(flags) => SetThreadFlags(flags);
      case Call(args, flags, body) =>
        ghost var ids, own, ini, hs, fs := idstack, owner, initial, heads, frames;
        seen, failed := ExecAlias(args, flags, body);
      case Throw => failed := true;
    }

    method SetThreadFlags(flags: Flags)
      requires Valid()
      modifies this
      ensures Valid() && Became(old(Current()).(flags := flags))
      ensures KeepsBelow()
    {
      hide Chain;
      ghost var fs := frames;
      identFlags := flags;
      frames := frames[|frames| - 1 := Current().(flags := flags)];
      forall j: ArgIndex ensures Chain(idstack, initial, owner, frames, floors, heads[j], j, |callstack|, |idstack|) {
        ChainSame(idstack, initial, owner, fs, floors, idstack, initial, owner, frames, floors, heads[j], j,
                  |callstack|, |idstack|, |idstack|);
      }
    }

    /** Keep the code compiled from the value on top; exec_alias does this on the first call. */
    method CacheCode(i: ArgIndex)
      requires Valid() && IsUsed(i)
      modifies this
      ensures Valid() && frames == old(frames) && floors == old(floors)
    {
      UsedHead(i);
      ghost var ids, ini := idstack, initial;
      if heads[i].Slot? {
        var at := heads[i].at;
        idstack := idstack[at := idstack[at].(cached := Some(idstack[at].val))];
      } else {
        initial := initial[i := initial[i].(cached := Some(initial[i].val))];
      }
      forall j: ArgIndex
        ensures Chain(idstack, initial, owner, frames, floors, heads[j], j, |frames| - 1, |idstack|)
      {
        CacheInvisible(ids, ini, owner, frames, floors, idstack, initial, heads[j], j, |frames| - 1, |idstack|);
      }
    }
  }

  /** The head `p` of argument `i` after `k` arguments have been bound above `noff` nodes. */
  ghost predicate Bound(p: Link, ids: seq<Node>, own: seq<ArgIndex>, i: ArgIndex, v: Value, k: nat, noff: nat,
                        was: Link) {
    if i < k then
      p == Slot(noff + i) && noff + i < |ids| && noff + i < |own|
      && ids[noff + i] == Node(v, None, was) && own[noff + i] == i
    else p == was
  }

  lemma BoundCaches(ids: seq<Node>, ids': seq<Node>, own': seq<ArgIndex>, heads': seq<Link>, heads: seq<Link>,
                    args: seq<Value>)
    requires |heads| == |heads'| == MAX_ARGUMENTS && |ids'| == |ids| + Supplied(args) && ids'[..|ids|] == ids
    requires forall k :: 0 <= k < |ids| ==> ids[k].cached.Some? ==> ids[k].cached.value == ids[k].val
    requires forall i: ArgIndex :: Bound(heads'[i], ids', own', i, if i < Supplied(args) then args[i] else NoValue,
                                         Supplied(args), |ids|, heads[i])
    ensures forall k :: 0 <= k < |ids'| ==> ids'[k].cached.Some? ==> ids'[k].cached.value == ids'[k].val
  {
    forall k | 0 <= k < |ids'| ensures ids'[k].cached.Some? ==> ids'[k].cached.value == ids'[k].val {
      if k < |ids| {
        assert ids'[k] == ids'[..|ids|][k];
      } else {
        var i: ArgIndex := k - |ids|;
        assert Bound(heads'[i], ids', own', i, args[i], Supplied(args), |ids|, heads[i]);
      }
    }
  }

  /** Binding the arguments of a call leaves every chain as it was, below the new level. */
  lemma EnteredChain(ids: seq<Node>, init: seq<Node>, own: seq<ArgIndex>, fs: seq<CallFrame>, floors: seq<nat>, p: Link,
                     ids': seq<Node>, own': seq<ArgIndex>, p': Link, args: seq<Value>, flags: Flags, i: ArgIndex)
    requires fs != [] && |floors| + 1 == |fs| && |own| == |ids| && |init| == MAX_ARGUMENTS
    requires Chain(ids, init, own, fs, floors, p, i, |fs| - 1, |ids|)
    requires (forall k :: 0 <= k < |floors| ==> floors[k] <= |ids|)
             && (forall k, l :: 0 <= k <= l < |floors| ==> floors[k] <= floors[l])
    requires |own'| == |ids'| == |ids| + Supplied(args) && ids'[..|ids|] == ids && own'[..|ids|] == own
    requires Bound(p', ids', own', i, if i < Supplied(args) then args[i] else NoValue, Supplied(args), |ids|, p)
    ensures Chain(ids', init, own', fs + [Fresh(args, flags)], floors + [|ids|], p', i, |fs|, |ids'|)
  {
    hide Chain;
    var fs', floors' := fs + [Fresh(args, flags)], floors + [|ids|];
    forall k | 0 <= k < |ids| ensures ids'[k] == ids[k] && own'[k] == own[k] {
      assert ids'[k] == ids'[..|ids|][k] && own'[k] == own'[..|ids|][k];
    }
    ChainSame(ids, init, own, fs, floors, ids', init, own', fs', floors', p, i, |fs| - 1, |ids|, |ids|);
    if i < Supplied(args) {
      ChainPushed(ids', init, own', fs', floors', p', i, |fs|, |ids'|);
    } else {
      ChainPassed(ids', init, own', fs', floors', p', i, |fs|, |ids'|);
    }
  }

  lemma ChainPassed(ids: seq<Node>, init: seq<Node>, own: seq<ArgIndex>, fs: seq<CallFrame>, floors: seq<nat>,
                    p: Link, i: ArgIndex, n: nat, top: nat)
    requires 0 < n < |fs| && |floors| + 1 == |fs| && |own| == |ids| && |init| == MAX_ARGUMENTS
    requires i !in fs[n].args && Chain(ids, init, own, fs, floors, p, i, n - 1, floors[n - 1])
    ensures Chain(ids, init, own, fs, floors, p, i, n, top)
  {
  }

  /** An argument that a call has been given stays given. */
  lemma {:induction false} MeaningKeeps(f: CallFrame, body: List<Action>)
    ensures f.args.Keys <= Meaning(f, body).frame.args.Keys
    decreases body
  {
    match body
    case Nil =>
    case Cons(a, rest) =>
      var e := MeaningOf(f, a);
      if !e.failed {
        MeaningKeeps(e.frame, rest);
      }
  }

  lemma ChainUnused(ids: seq<Node>, init: seq<Node>, own: seq<ArgIndex>, fs: seq<CallFrame>, floors: seq<nat>,
                    p: Link, i: ArgIndex, n: nat, top: nat)
    requires 0 < n < |fs| && |floors| + 1 == |fs| && |own| == |ids| && |init| == MAX_ARGUMENTS
    requires Chain(ids, init, own, fs, floors, p, i, n, top) && i !in fs[n].args
    ensures Chain(ids, init, own, fs, floors, p, i, n - 1, floors[n - 1])
  {
  }

  lemma ChainTop(ids: seq<Node>, init: seq<Node>, own: seq<ArgIndex>, fs: seq<CallFrame>, floors: seq<nat>,
                 p: Link, i: ArgIndex, n: nat, top: nat)
    requires 0 < n < |fs| && |floors| + 1 == |fs| && |own| == |ids| && |init| == MAX_ARGUMENTS
    requires Chain(ids, init, own, fs, floors, p, i, n, top) && i in fs[n].args
    ensures p.Slot? && floors[n - 1] <= p.at < top && p.at < |ids| && own[p.at] == i && ids[p.at].val == fs[n].args[i]
    ensures Chain(ids, init, own, fs, floors, ids[p.at].next, i, n - 1, floors[n - 1])
  {
  }

  lemma ChainPushed(ids: seq<Node>, init: seq<Node>, own: seq<ArgIndex>, fs: seq<CallFrame>, floors: seq<nat>,
                    p: Link, i: ArgIndex, n: nat, top: nat)
    requires 0 < n < |fs| && |floors| + 1 == |fs| && |own| == |ids| && |init| == MAX_ARGUMENTS
    requires i in fs[n].args
    requires p.Slot? && floors[n - 1] <= p.at < top && p.at < |ids| && own[p.at] == i && ids[p.at].val == fs[n].args[i]
    requires Chain(ids, init, own, fs, floors, ids[p.at].next, i, n - 1, floors[n - 1])
    ensures Chain(ids, init, own, fs, floors, p, i, n, top)
  {
  }

  /** Chains do not depend on cached code. */
  lemma {:induction false} CacheInvisible(
      ids: seq<Node>, init: seq<Node>, own: seq<ArgIndex>, fs: seq<CallFrame>, floors: seq<nat>,
      ids': seq<Node>, init': seq<Node>, p: Link, i: ArgIndex, n: nat, top: nat)
    requires n < |fs| && |floors| + 1 == |fs| && |own| == |ids| == |ids'| && |init| == |init'| == MAX_ARGUMENTS
    requires forall k :: 0 <= k < |ids| ==> ids'[k].val == ids[k].val && ids'[k].next == ids[k].next
    requires init'[i].val == init[i].val
    requires Chain(ids, init, own, fs, floors, p, i, n, top)
    ensures Chain(ids', init', own, fs, floors, p, i, n, top)
    decreases n
  {
    if n > 0 {
      var q := if i in fs[n].args then ids[p.at].next else p;
      CacheInvisible(ids, init, own, fs, floors, ids', init', q, i, n - 1, floors[n - 1]);
    }
  }

  lemma {:induction false} OutermostHasAll(
      ids: seq<Node>, init: seq<Node>, own: seq<ArgIndex>, fs: seq<CallFrame>, floors: seq<nat>,
      p: Link, i: ArgIndex, n: nat, top: nat)
    requires n < |fs| && |floors| + 1 == |fs| && |own| == |ids| && |init| == MAX_ARGUMENTS
    requires Chain(ids, init, own, fs, floors, p, i, n, top)
    ensures i in fs[0].args
    decreases n
  {
    if n > 0 {
      OutermostHasAll(ids, init, own, fs, floors, if i in fs[n].args then ids[p.at].next else p, i, n - 1,
                      floors[n - 1]);
    }
  }

  // ---- the environments that compiled code runs in ----

  /** The VM's environment gives every argument what the call's environment gives it, and has its flags. */
  ghost predicate SameView(env: Env, f: CallFrame) {
    SameArguments(env.frame, f) && env.identFlags == f.flags
  }

  ghost predicate SameArguments(fr: Frame, f: CallFrame) {
    !fr.dangling && forall i: ArgIndex :: (fr.Used(i) <==> i in f.args) && fr.Get(i) == ReadFrom(f, i)
  }

  /** So what the argument stacks do for lookups, assignments and calls is what compiled code is proved
      against: finding, setting, entering a call, and coming back from it. */
  lemma FramesAgree(env: Env, f: CallFrame, i: ArgIndex, v: Value, id: nat, args: seq<Value>, after: Env)
    requires SameView(env, f)
    ensures Find(env, i) == Got(ReadFrom(f, i))
    ensures SameView(Bind(env, i, v), SetIn(f, i, v))
    ensures SameView(Called(env, id, args), Fresh(args, FlagsOf(env, id)))
    ensures !after.frame.dangling ==> SameView(Returned(env, after), f)
    ensures SameArguments(Frame(true, map[], false), Outermost())
  {
    var bound := Bind(env, i, v).frame;
    forall k: ArgIndex
      ensures (bound.Used(k) <==> k in SetIn(f, i, v).args) && bound.Get(k) == ReadFrom(SetIn(f, i, v), k)
    {
      assert env.frame.Used(k) <==> k in f.args;
    }
  }

  /** The text of an argument that is called is read after the arguments of the call are bound: from its
      new node if it has one, and else from the one that it had (EnterCall). */
  lemma CalleeAgrees(env: Env, f: CallFrame, i: ArgIndex, args: seq<Value>)
    requires SameView(env, f)
    ensures Callee(env, i, args) == ReadFrom(if i < Supplied(args) then Fresh(args, FlagsOf(env, i)) else f, i)
  {
    assert env.frame.Used(i) <==> i in f.args;
  }

  /** The same for a call whose text does not compile: with the values left behind outside of any call,
      and dangling inside of one, unless the call had no arguments. */
  lemma UncompiledAgrees(env: Env, f: CallFrame, id: nat, args: seq<Value>, i: ArgIndex)
    requires SameView(env, f)
    ensures var env' := NotCompiled(env, id, args);
            && env'.identFlags == FlagsOf(env, id) && env'.store == env.store
            && (env.frame.outermost ==>
                  Find(env', i) == Got(if i < Supplied(args) then args[i] else ReadFrom(f, i)))
            && (!env.frame.outermost ==> (env'.frame.dangling <==> Supplied(args) > 0))
  {
    assert env.frame.Used(i) <==> i in f.args;
  }
}
