/** The string pool and the references to it (src/cs_strman.cc), with operations one at a time. Memory
    is a map from addresses; the allocator's choice of an address is a parameter. */
module Pool {
  import opened Syntax

  /** A string's memory: string_ref_state and the characters behind it. */
  datatype Entry = Entry(data: string, refcount: nat)

  /** How often an address is counted. */
  function Times(m: map<nat, nat>, p: nat): nat { if p in m then m[p] else 0 }

  /** The pool's table and memory, the buffers that are not handed over yet, and who refers to an
      entry: string_refs (`held`), or pointers that an assignment wrote over (`lost`). */
  datatype Pool = Pool(counts: map<string, nat>, mem: map<nat, Entry>, buffers: set<nat>,
                       held: map<nat, nat>, lost: map<nat, nat>)

  function Owed(s: Pool, p: nat): nat { Times(s.held, p) + Times(s.lost, p) }

  /** An address is free and nobody refers to it, or it is a buffer, or it is the entry of its content
      and counted once for each that refers to it. */
  ghost predicate AddressOk(s: Pool, p: nat) {
    if p !in s.mem then p !in s.buffers && Owed(s, p) == 0
    else if p in s.buffers then s.mem[p].refcount == 1 && Owed(s, p) == 0
    else
      var e := s.mem[p];
      e.data in s.counts && s.counts[e.data] == p && 0 < e.refcount == Owed(s, p)
  }

  ghost predicate ContentOk(s: Pool, k: string) {
    k in s.counts ==>
      var p := s.counts[k];
      p in s.mem && p !in s.buffers && s.mem[p].data == k
  }

  ghost predicate Counted(s: Pool) {
    (forall p :: AddressOk(s, p)) && (forall k :: ContentOk(s, k))
  }

  // ---- the operations ----

  function Change(s: Pool, p: nat, e: Entry, n: nat): Pool {
    s.(mem := s.mem[p := e], held := s.held[p := n])
  }

  /** One more string_ref to an entry. */
  function More(s: Pool, p: nat): Pool
    requires p in s.mem
  {
    Change(s, p, Entry(s.mem[p].data, s.mem[p].refcount + 1), Times(s.held, p) + 1)
  }

  lemma MoreCounted(s: Pool, p: nat)
    requires Counted(s) && p in s.mem && p !in s.buffers
    ensures Counted(More(s, p))
  {
    var t := More(s, p);
    forall q: nat ensures AddressOk(t, q) {
      assert AddressOk(s, q);
    }
    forall k ensures ContentOk(t, k) {
      assert ContentOk(s, k);
    }
  }

  /** A new entry with one string_ref, in fresh memory or in a buffer. */
  function New(s: Pool, str: string, p: nat): Pool {
    s.(mem := s.mem[p := Entry(str, 1)], counts := s.counts[str := p], held := s.held[p := 1],
       buffers := s.buffers - {p})
  }

  lemma NewCounted(s: Pool, str: string, p: nat)
    requires Counted(s) && str !in s.counts && (p in s.mem ==> p in s.buffers)
    ensures Counted(New(s, str, p))
  {
    var t := New(s, str, p);
    assert AddressOk(s, p);
    forall q: nat ensures AddressOk(t, q) {
      assert AddressOk(s, q);
    }
    forall k ensures ContentOk(t, k) {
      assert ContentOk(s, k);
    }
  }

  function Buffered(s: Pool, str: string, p: nat): Pool {
    s.(mem := s.mem[p := Entry(str, 1)], buffers := s.buffers + {p})
  }

  lemma BufferedCounted(s: Pool, str: string, p: nat)
    requires Counted(s) && p !in s.mem
    ensures Counted(Buffered(s, str, p))
  {
    var t := Buffered(s, str, p);
    forall q: nat ensures AddressOk(t, q) {
      assert AddressOk(s, q);
    }
    forall k ensures ContentOk(t, k) {
      assert ContentOk(s, k);
    }
  }

  /** A buffer's memory is released. */
  function Unbuffered(s: Pool, p: nat): Pool {
    s.(mem := s.mem - {p}, buffers := s.buffers - {p})
  }

  lemma UnbufferedCounted(s: Pool, p: nat)
    requires Counted(s) && p in s.buffers
    ensures Counted(Unbuffered(s, p))
  {
    var t := Unbuffered(s, p);
    assert AddressOk(s, p);
    forall q: nat ensures AddressOk(t, q) {
      assert AddressOk(s, q);
    }
    forall k ensures ContentOk(t, k) {
      assert ContentOk(s, k);
    }
  }

  /** One string_ref less; the memory is released, and the entry dropped, if nobody refers to it. */
  function Less(s: Pool, p: nat): Pool
    requires p in s.mem && Times(s.held, p) > 0
  {
    var e := s.mem[p];
    var n := Times(s.held, p) - 1;
    if n + Times(s.lost, p) > 0 then Change(s, p, Entry(e.data, n + Times(s.lost, p)), n)
    else s.(mem := s.mem - {p}, counts := s.counts - {e.data}, held := s.held[p := n])
  }

  lemma HeldIsLive(s: Pool, p: nat)
    requires Counted(s) && Owed(s, p) > 0
    ensures p in s.mem && p !in s.buffers && s.mem[p].refcount == Owed(s, p)
    ensures s.mem[p].data in s.counts && s.counts[s.mem[p].data] == p
  {
    assert AddressOk(s, p);
  }

  lemma LessCounted(s: Pool, p: nat)
    requires Counted(s) && Times(s.held, p) > 0
    ensures p in s.mem && Counted(Less(s, p))
  {
    HeldIsLive(s, p);
    var t := Less(s, p);
    forall q: nat ensures AddressOk(t, q) {
      assert AddressOk(s, q);
    }
    forall k ensures ContentOk(t, k) {
      assert ContentOk(s, k);
    }
  }

  /** A string_ref to `p` now refers to `q`, which counts it; `p` still does. */
  function Reassigned(s: Pool, p: nat, q: nat): Pool
    requires q in s.mem && Times(s.held, p) > 0
  {
    var t := s.(held := s.held[p := Times(s.held, p) - 1], lost := s.lost[p := Times(s.lost, p) + 1]);
    More(t, q)
  }

  lemma ReassignedCounted(s: Pool, p: nat, q: nat)
    requires Counted(s) && Times(s.held, p) > 0 && Times(s.held, q) > 0
    ensures q in s.mem && Counted(Reassigned(s, p, q))
  {
    HeldIsLive(s, q);
    var t := s.(held := s.held[p := Times(s.held, p) - 1], lost := s.lost[p := Times(s.lost, p) + 1]);
    forall a: nat ensures AddressOk(t, a) {
      assert AddressOk(s, a);
    }
    forall k ensures ContentOk(t, k) {
      assert ContentOk(s, k);
    }
    MoreCounted(t, q);
  }

  /** What operator== of string_ref relies on. */
  lemma SamePointerSameContent(s: Pool, p: nat, q: nat)
    requires Counted(s) && Times(s.held, p) > 0 && Times(s.held, q) > 0
    ensures p in s.mem && q in s.mem && (p == q <==> s.mem[p].data == s.mem[q].data)
  {
    HeldIsLive(s, p);
    HeldIsLive(s, q);
  }

  // ---- the source's methods ----

  class StringPool {
    var counts: map<string, nat>
    var mem: map<nat, Entry>
    ghost var buffers: set<nat>
    ghost var held: map<nat, nat>
    ghost var lost: map<nat, nat>

    ghost function State(): Pool
      reads this
    {
      Pool(counts, mem, buffers, held, lost)
    }

    constructor ()
      ensures State() == Pool(map[], map[], {}, map[], map[]) && Counted(State())
    {
      counts, mem, buffers, held, lost := map[], map[], {}, map[], map[];
    }

    /** alloc_buf(), for a caller that fills the buffer itself: one reference, for that caller. */
    method AllocBuf(s: string, at: nat)
      requires Counted(State()) && at !in mem
      modifies this
      ensures Counted(State()) && State() == Buffered(old(State()), s, at)
    {
      BufferedCounted(State(), s, at);
      mem, buffers := mem[at := Entry(s, 1)], buffers + {at};
    }

    /** add(), as the constructor of string_ref from a view uses it. */
    method Add(str: string, at: nat) returns (p: nat)
      requires Counted(State()) && at !in mem
      modifies this
      ensures Counted(State()) && p in mem && mem[p].data == str
      ensures str in old(counts) ==> p in old(mem) && State() == More(old(State()), p)
      ensures str !in old(counts) ==> p == at && State() == New(old(State()), str, at)
    {
      hide Counted;
      ghost var was := State();
      Addresses(was, str, at);
      if str in counts {
        p := counts[str];
        MoreCounted(was, p);
        mem := mem[p := Entry(mem[p].data, mem[p].refcount + 1)];
      } else {
        p := at;
        NewCounted(was, str, at);
        mem := mem[p := Entry(str, 1)];
        counts := counts[str := p];
      }
      held := held[p := Times(held, p) + 1];
    }

    /** internal_ref(), for the copy of a string_ref and for one made from a pointer. */
    method Ref(p: nat)
      requires Counted(State()) && p in mem && p !in buffers
      modifies this
      ensures Counted(State()) && State() == More(old(State()), p)
    {
      MoreCounted(State(), p);
      mem := mem[p := Entry(mem[p].data, mem[p].refcount + 1)];
      held := held[p := Times(held, p) + 1];
    }

    /** internal_unref(), for the destructor of a string_ref: the memory is released exactly with the
        last reference. */
    method Unref(p: nat)
      requires Counted(State()) && Times(held, p) > 0
      modifies this
      ensures Counted(State()) && p in old(mem) && State() == Less(old(State()), p)
      ensures p in mem <==> old(mem)[p].refcount > 1
    {
      hide Counted;
      HeldIsLive(State(), p);
      LessCounted(State(), p);
      var e := Entry(mem[p].data, mem[p].refcount - 1);
      held := held[p := Times(held, p) - 1];
      if e.refcount == 0 {
        counts := counts - {e.data};
        mem := mem - {p};
      } else {
        mem := mem[p := e];
      }
    }

    /** steal(): a buffer becomes the entry of its content, or is released if there is one; the
        string_ref that is returned counts itself. */
    method Steal(b: nat) returns (p: nat)
      requires Counted(State()) && b in buffers
      modifies this
      ensures Counted(State()) && b in old(mem) && p in mem && mem[p].data == old(mem)[b].data
      ensures old(mem)[b].data in old(counts) ==>
              p != b && p in old(mem) && State() == More(Unbuffered(old(State()), b), p)
      ensures old(mem)[b].data !in old(counts) ==> p == b && State() == New(old(State()), old(mem)[b].data, b)
    {
      hide Counted;
      ghost var was := State();
      BufferIs(was, b);
      var sr := mem[b].data;
      Addresses(was, sr, b);
      buffers := buffers - {b};
      if sr in counts {
        p := counts[sr];
        UnbufferedCounted(was, b);
        MoreCounted(Unbuffered(was, b), p);
        mem := mem - {b};
      } else {
        NewCounted(was, sr, b);
        mem := mem[b := Entry(sr, 0)];
        counts := counts[sr := b];
        p := b;
      }
      mem := mem[p := Entry(sr, mem[p].refcount + 1)];
      held := held[p := Times(held, p) + 1];
      if p == b {
        assert mem == was.mem[b := Entry(sr, 1)];
        assert State() == New(was, sr, b);
      }
    }

    /** operator= of string_ref: refers to the new entry, but does not drop the reference to the old. */
    method Assign(p: nat, q: nat)
      requires Counted(State()) && Times(held, p) > 0 && Times(held, q) > 0
      modifies this
      ensures Counted(State()) && q in old(mem) && State() == Reassigned(old(State()), p, q)
    {
      hide Counted;
      HeldIsLive(State(), q);
      ReassignedCounted(State(), p, q);
      mem := mem[q := Entry(mem[q].data, mem[q].refcount + 1)];
      lost := lost[p := Times(lost, p) + 1];
      held := held[p := Times(held, p) - 1];
      held := held[q := Times(held, q) + 1];
    }

    /** find(). */
    method Find(str: string) returns (r: Option<nat>)
      requires Counted(State())
      ensures r.Some? ==> r.value in mem && r.value !in buffers && mem[r.value].data == str
      ensures r == None ==> forall q :: q in mem && q !in buffers ==> mem[q].data != str
    {
      r := if str in counts then Some(counts[str]) else None;
      assert ContentOk(State(), str);
      forall q | q in mem && q !in buffers ensures mem[q].data in counts {
        assert AddressOk(State(), q);
      }
    }
  }

  /** An entry that is found, and an address that is free or a buffer. */
  lemma Addresses(s: Pool, str: string, p: nat)
    requires Counted(s)
    ensures str in s.counts ==> var q := s.counts[str]; q in s.mem && q !in s.buffers && s.mem[q].data == str
    ensures p !in s.mem || p in s.buffers ==> Times(s.held, p) == 0
    ensures p !in s.mem ==> s.buffers - {p} == s.buffers
  {
    assert ContentOk(s, str) && AddressOk(s, p);
  }

  lemma BufferIs(s: Pool, b: nat)
    requires Counted(s) && b in s.buffers
    ensures b in s.mem && s.mem[b].refcount == 1
  {
    assert AddressOk(s, b);
  }

  // ---- whole runs ----

  /** What a program does with a growing list of string_ref variables: one from a view, one from a
      buffer, a copy, the end of a variable, an assignment. The allocator proposes the address. */
  datatype Act =
    | Make(s: string, at: nat)
    | FromBuffer(s: string, at: nat)
    | CopyOf(i: nat)
    | Drop(i: nat)
    | Set(i: nat, j: nat)

  type Variables = seq<Option<nat>>

  function One(v: Option<nat>, p: nat): nat { if v == Some(p) then 1 else 0 }

  /** How many variables refer to an address. */
  function Refs(vars: Variables, p: nat): nat {
    if vars == [] then 0 else Refs(vars[..|vars| - 1], p) + One(vars[|vars| - 1], p)
  }

  lemma {:induction false} OneChanged(vars: Variables, i: nat, v: Option<nat>, p: nat)
    requires i < |vars|
    ensures Refs(vars[i := v], p) + One(vars[i], p) == Refs(vars, p) + One(v, p)
    ensures vars[i] == Some(p) ==> Refs(vars, p) > 0
  {
    var n := |vars| - 1;
    if i < n {
      OneChanged(vars[..n], i, v, p);
      assert vars[i := v][..n] == vars[..n][i := v];
    } else {
      assert vars[i := v][..n] == vars[..n];
    }
  }

  lemma OneAdded(vars: Variables, v: Option<nat>, p: nat)
    ensures Refs(vars + [v], p) == Refs(vars, p) + One(v, p)
  {
    assert (vars + [v])[..|vars|] == vars;
  }

  /** The pool and the variables agree. */
  ghost predicate Agrees(s: Pool, vars: Variables) {
    Counted(s) && s.buffers == {} && forall p :: Times(s.held, p) == Refs(vars, p)
  }

  predicate Has(vars: Variables, i: nat) { i < |vars| && vars[i].Some? }

  /** One act, by the operations that StringPool's methods perform; an act on a variable that does not
      exist, or with an address in use, is none. */
  function Does(s: Pool, vars: Variables, act: Act): (Pool, Variables)
    requires Agrees(s, vars)
  {
    match act
    case Make(str, at) =>
      if at in s.mem then (s, vars)
      else if str in s.counts then
        Addresses(s, str, at);
        (More(s, s.counts[str]), vars + [Some(s.counts[str])])
      else (New(s, str, at), vars + [Some(at)])
    case FromBuffer(str, at) =>
      if at in s.mem then (s, vars)
      else
        Addresses(s, str, at);
        var b := Buffered(s, str, at);
        if str in s.counts then (More(Unbuffered(b, at), s.counts[str]), vars + [Some(s.counts[str])])
        else (New(b, str, at), vars + [Some(at)])
    case CopyOf(i) =>
      if !Has(vars, i) then (s, vars)
      else
        VariableIsLive(s, vars, i);
        (More(s, vars[i].value), vars + [vars[i]])
    case Drop(i) =>
      if !Has(vars, i) then (s, vars)
      else
        VariableIsLive(s, vars, i);
        (Less(s, vars[i].value), vars[i := None])
    case Set(i, j) =>
      if !Has(vars, i) || !Has(vars, j) then (s, vars)
      else
        VariableIsLive(s, vars, i);
        VariableIsLive(s, vars, j);
        (Reassigned(s, vars[i].value, vars[j].value), vars[i := vars[j]])
  }

  lemma VariableIsLive(s: Pool, vars: Variables, i: nat)
    requires Agrees(s, vars) && Has(vars, i)
    ensures vars[i].value in s.mem && Times(s.held, vars[i].value) > 0
  {
    OneChanged(vars, i, None, vars[i].value);
    HeldIsLive(s, vars[i].value);
  }

  lemma DoesAgrees(s: Pool, vars: Variables, act: Act)
    requires Agrees(s, vars)
    ensures var r := Does(s, vars, act); Agrees(r.0, r.1) && (!act.Set? ==> r.0.lost == s.lost)
  {
    hide Counted;
    match act {
      case Make(str, at) =>
        Addresses(s, str, at);
        if at !in s.mem && str in s.counts {
          MoreAgrees(s, vars, s.counts[str]);
        } else if at !in s.mem {
          NewAgrees(s, vars, str, at);
        }
      case FromBuffer(str, at) =>
        Addresses(s, str, at);
        if at !in s.mem {
          BufferedCounted(s, str, at);
          if str in s.counts {
            UnbufferedCounted(Buffered(s, str, at), at);
            MoreAgrees(Unbuffered(Buffered(s, str, at), at), vars, s.counts[str]);
          } else {
            NewAgrees(Buffered(s, str, at), vars, str, at);
          }
        }
      case CopyOf(i) =>
        if Has(vars, i) {
          VariableIsLive(s, vars, i);
          MoreAgrees(s, vars, vars[i].value);
        }
      case Drop(i) =>
        if Has(vars, i) {
          DropAgrees(s, vars, i);
        }
      case Set(i, j) =>
        if Has(vars, i) && Has(vars, j) {
          SetAgrees(s, vars, i, j);
        }
    }
  }

  lemma MoreAgrees(s: Pool, vars: Variables, p: nat)
    requires Agrees(s, vars) && p in s.mem
    ensures Agrees(More(s, p), vars + [Some(p)])
  {
    hide Counted;
    MoreCounted(s, p);
    forall q: nat ensures Times(More(s, p).held, q) == Refs(vars + [Some(p)], q) {
      OneAdded(vars, Some(p), q);
    }
  }

  lemma NewAgrees(s: Pool, vars: Variables, str: string, p: nat)
    requires Counted(s) && s.buffers <= {p} && (p in s.mem ==> p in s.buffers) && str !in s.counts
    requires forall q :: Times(s.held, q) == Refs(vars, q)
    ensures Agrees(New(s, str, p), vars + [Some(p)])
  {
    hide Counted;
    Addresses(s, str, p);
    NewCounted(s, str, p);
    forall q: nat ensures Times(New(s, str, p).held, q) == Refs(vars + [Some(p)], q) {
      OneAdded(vars, Some(p), q);
    }
  }

  lemma DropAgrees(s: Pool, vars: Variables, i: nat)
    requires Agrees(s, vars) && Has(vars, i)
    ensures var p := vars[i].value;
            p in s.mem && Times(s.held, p) > 0 && Agrees(Less(s, p), vars[i := None])
  {
    hide Counted;
    var p := vars[i].value;
    VariableIsLive(s, vars, i);
    LessCounted(s, p);
    forall q: nat ensures Times(Less(s, p).held, q) == Refs(vars[i := None], q) {
      OneChanged(vars, i, None, q);
    }
  }

  lemma SetAgrees(s: Pool, vars: Variables, i: nat, j: nat)
    requires Agrees(s, vars) && Has(vars, i) && Has(vars, j)
    ensures var p, q := vars[i].value, vars[j].value;
            p in s.mem && q in s.mem && Times(s.held, p) > 0 && Agrees(Reassigned(s, p, q), vars[i := vars[j]])
  {
    hide Counted;
    var p, q := vars[i].value, vars[j].value;
    VariableIsLive(s, vars, i);
    VariableIsLive(s, vars, j);
    ReassignedCounted(s, p, q);
    forall a: nat ensures Times(Reassigned(s, p, q).held, a) == Refs(vars[i := vars[j]], a) {
      OneChanged(vars, i, vars[j], a);
    }
  }

  function Run(s: Pool, vars: Variables, acts: seq<Act>): (r: (Pool, Variables))
    requires Agrees(s, vars)
    ensures Agrees(r.0, r.1)
    decreases |acts|
  {
    if acts == [] then (s, vars)
    else
      DoesAgrees(s, vars, acts[0]);
      var r := Does(s, vars, acts[0]);
      Run(r.0, r.1, acts[1..])
  }

  const Empty := Pool(map[], map[], {}, map[], map[])

  lemma {:induction false} NothingLost(s: Pool, vars: Variables, acts: seq<Act>)
    requires Agrees(s, vars) && forall a :: a in acts ==> !a.Set?
    ensures Run(s, vars, acts).0.lost == s.lost
    decreases |acts|
  {
    if acts != [] {
      DoesAgrees(s, vars, acts[0]);
      var r := Does(s, vars, acts[0]);
      NothingLost(r.0, r.1, acts[1..]);
    }
  }

  /** Over every run from an empty pool, an address holds an entry exactly if a variable refers to it or
      did when it was assigned to, the entry counts each of these, and two variables hold the same
      pointer exactly if they hold the same content. Without assignments the count is the number of
      variables. */
  lemma RunCounts(acts: seq<Act>, p: nat, q: nat)
    ensures Agrees(Empty, [])
    ensures var (s, vars) := Run(Empty, [], acts);
            && (p in s.mem <==> Refs(vars, p) + Times(s.lost, p) > 0)
            && (p in s.mem ==> s.mem[p].refcount == Refs(vars, p) + Times(s.lost, p))
            && (Refs(vars, p) > 0 && Refs(vars, q) > 0 ==>
                  p in s.mem && q in s.mem && (p == q <==> s.mem[p].data == s.mem[q].data))
            && ((forall a :: a in acts ==> !a.Set?) ==> s.lost == map[])
  {
    var (s, vars) := Run(Empty, [], acts);
    assert AddressOk(s, p);
    if Refs(vars, p) > 0 && Refs(vars, q) > 0 {
      SamePointerSameContent(s, p, q);
    }
    if forall a :: a in acts ==> !a.Set? {
      NothingLost(Empty, [], acts);
    }
  }

  /** What an assignment loses is never released: the count stays above the number of variables. */
  lemma {:induction false} LostStays(s: Pool, vars: Variables, acts: seq<Act>, p: nat)
    requires Agrees(s, vars) && Times(s.lost, p) > 0
    ensures var r := Run(s, vars, acts); p in r.0.mem && r.0.mem[p].refcount > Refs(r.1, p)
    decreases |acts|
  {
    if acts == [] {
      HeldIsLive(s, p);
    } else {
      DoesAgrees(s, vars, acts[0]);
      var r := Does(s, vars, acts[0]);
      LostStays(r.0, r.1, acts[1..], p);
    }
  }

  /** An assignment that meets two existing variables. */
  predicate Overwrites(vars: Variables, act: Act) { act.Set? && Has(vars, act.i) && Has(vars, act.j) }

  predicate SomeOverwrites(s: Pool, vars: Variables, acts: seq<Act>)
    requires Agrees(s, vars)
    decreases |acts|
  {
    acts != [] &&
    (Overwrites(vars, acts[0]) ||
     (DoesAgrees(s, vars, acts[0]);
      var r := Does(s, vars, acts[0]);
      SomeOverwrites(r.0, r.1, acts[1..])))
  }

  lemma StepLoses(s: Pool, vars: Variables, act: Act)
    requires Agrees(s, vars)
    ensures var r := Does(s, vars, act);
            if Overwrites(vars, act) then Times(r.0.lost, vars[act.i].value) > 0 else r.0.lost == s.lost
  {
    hide Counted;
    DoesAgrees(s, vars, act);
    if Overwrites(vars, act) {
      VariableIsLive(s, vars, act.i);
      VariableIsLive(s, vars, act.j);
    }
  }

  lemma {:induction false} NoneOverwritten(s: Pool, vars: Variables, acts: seq<Act>)
    requires Agrees(s, vars) && !SomeOverwrites(s, vars, acts)
    ensures Run(s, vars, acts).0.lost == s.lost
    decreases |acts|
  {
    hide Agrees, Does;
    if acts != [] {
      StepLoses(s, vars, acts[0]);
      DoesAgrees(s, vars, acts[0]);
      var r := Does(s, vars, acts[0]);
      NoneOverwritten(r.0, r.1, acts[1..]);
    }
  }

  lemma {:induction false} OneOverwritten(s: Pool, vars: Variables, acts: seq<Act>) returns (p: nat)
    requires Agrees(s, vars) && SomeOverwrites(s, vars, acts)
    ensures var r := Run(s, vars, acts); p in r.0.mem && r.0.mem[p].refcount > Refs(r.1, p)
    decreases |acts|
  {
    hide Agrees, Does, Refs, Times;
    StepLoses(s, vars, acts[0]);
    DoesAgrees(s, vars, acts[0]);
    var r := Does(s, vars, acts[0]);
    if Overwrites(vars, acts[0]) {
      p := vars[acts[0].i].value;
      LostStays(r.0, r.1, acts[1..], p);
    } else {
      p := OneOverwritten(r.0, r.1, acts[1..]);
    }
  }

  /** Over every run from an empty pool, every entry counts exactly the variables that refer to it, if
      and only if no assignment met two existing variables. */
  lemma CountsExactly(acts: seq<Act>)
    ensures Agrees(Empty, [])
    ensures var (s, vars) := Run(Empty, [], acts);
            (forall p :: p in s.mem ==> s.mem[p].refcount == Refs(vars, p)) <==> !SomeOverwrites(Empty, [], acts)
  {
    hide Does, Refs;
    RunCounts(acts, 0, 0);
    var (s, vars) := Run(Empty, [], acts);
    if SomeOverwrites(Empty, [], acts) {
      var p := OneOverwritten(Empty, [], acts);
    } else {
      NoneOverwritten(Empty, [], acts);
      forall p | p in s.mem ensures s.mem[p].refcount == Refs(vars, p) {
        RunCounts(acts, p, p);
      }
    }
  }
}
