/** Reference counts of bytecode, kept in the START word of each program (src/cs_bcode.cc). */
module Refs {
  import opened Words
  import opened Literals
  import opened Syntax
  import opened Layout
  import opened Places

  // ---- counting ----

  /** `*bc += 0x100` and `*bc -= 0x100` on 32 bits. */
  function Incr(w: Word): Word { w.(data := (w.data + 1) % DATA_LIMIT) }

  function Decr(w: Word): Word { w.(data := (w.data + DATA_LIMIT - 1) % DATA_LIMIT) }

  /** The test for the last reference: `std::int32_t(*bc) < 0x100`. */
  predicate Last(w: Word) { ToInt32(Bits(w)) < 0x100 }

  const COUNT_LIMIT := 0x80_0000

  /** Up to 2^23 references, and no further, a program is freed exactly with its last one. */
  lemma FreedExactly(w: Word)
    requires w.op == START && w.ret == 0
    ensures Last(Decr(w)) <==> w.data == 1 || w.data == 0 || w.data > COUNT_LIMIT
  {
    var d := Decr(w);
    assert Bits(d) == d.data * 0x100;
  }

  /** bcode_addref for a reference to index `i`. */
  method BcodeAddref(code: array<Word>, i: nat)
    requires 0 < i < code.Length && HeaderOf(code[..], i).Some?
    modifies code
    ensures code[..] == Added(old(code[..]), i)
  {
    if code[i].op == START {
      code[i] := Incr(code[i]);
    } else if code[i - 1].op == START {
      code[i - 1] := Incr(code[i - 1]);
    } else if code[i - 1].op == OFFSET {
      var h := i - code[i - 1].data;
      code[h] := Incr(code[h]);
    }
  }

  /** bcode_unref; tells whether the program is freed. */
  method BcodeUnref(code: array<Word>, i: nat) returns (freed: bool)
    requires 0 < i < code.Length && HeaderOf(code[..], i).Some?
    modifies code
    ensures code[..] == Dropped(old(code[..]), i)
    ensures freed <==> Last(code[HeaderOf(old(code[..]), i).value])
  {
    var h := i;
    if code[i].op != START {
      h := if code[i - 1].op == START then i - 1 else i - code[i - 1].data;
    }
    code[h] := Decr(code[h]);
    freed := Last(code[h]);
  }

  function Added(code: Code, i: nat): Code
    requires HeaderOf(code, i).Some?
  {
    var h := HeaderOf(code, i).value;
    code[h := Incr(code[h])]
  }

  function Dropped(code: Code, i: nat): Code
    requires HeaderOf(code, i).Some?
  {
    var h := HeaderOf(code, i).value;
    code[h := Decr(code[h])]
  }

  // ---- programs and the references to them ----

  /** A `bcode *`: a program, by the address it was allocated at, and an index into it. */
  datatype Ref = Ref(block: nat, index: nat)

  /** The programs in memory, and which of them are the static empty blocks. */
  datatype Heap = Heap(blocks: map<nat, Code>, statics: set<nat>)

  type Variables = seq<Option<Ref>>

  function One(v: Option<Ref>, b: nat): nat { if v.Some? && v.value.block == b then 1 else 0 }

  /** How many variables refer into a program. */
  function Live(vars: Variables, b: nat): nat {
    if vars == [] then 0 else Live(vars[..|vars| - 1], b) + One(vars[|vars| - 1], b)
  }

  /** A static empty block counts one reference of its own. */
  function Expected(h: Heap, vars: Variables, b: nat): nat { Live(vars, b) + if b in h.statics then 1 else 0 }

  ghost predicate BlockOk(h: Heap, vars: Variables, b: nat)
    requires b in h.blocks
  {
    var c := h.blocks[b];
    Whole(c) && c[0] == Fields(START, 0, c[0].data) && 0 < c[0].data == Expected(h, vars, b)
  }

  ghost predicate RefOk(h: Heap, r: Ref) {
    r.block in h.blocks && r.index > 0 && HeaderOf(h.blocks[r.block], r.index) == Some(0)
  }

  /** Every header counts exactly the live references, nothing is in memory without one, static blocks
      aside, and every reference is to a program in memory and finds its header. */
  ghost predicate Agrees(h: Heap, vars: Variables) {
    && h.statics <= h.blocks.Keys
    && (forall b :: b in h.blocks ==> BlockOk(h, vars, b))
    && (forall k :: 0 <= k < |vars| && vars[k].Some? ==> RefOk(h, vars[k].value))
  }

  lemma {:induction false} OneChanged(vars: Variables, i: nat, v: Option<Ref>, b: nat)
    requires i < |vars|
    ensures Live(vars[i := v], b) + One(vars[i], b) == Live(vars, b) + One(v, b)
    ensures vars[i].Some? && vars[i].value.block == b ==> Live(vars, b) > 0
  {
    var n := |vars| - 1;
    if i < n {
      OneChanged(vars[..n], i, v, b);
      assert vars[i := v][..n] == vars[..n][i := v];
    } else {
      assert vars[i := v][..n] == vars[..n];
    }
  }

  lemma OneAdded(vars: Variables, v: Option<Ref>, b: nat)
    ensures Live(vars + [v], b) == Live(vars, b) + One(v, b)
  {
    assert (vars + [v])[..|vars|] == vars;
  }

  lemma {:induction false} LiveBound(vars: Variables, b: nat)
    ensures Live(vars, b) <= |vars|
  {
    if vars != [] {
      LiveBound(vars[..|vars| - 1], b);
    }
  }

  lemma SameHeader(c: Code, w: Word, i: nat)
    requires |c| > 0 && c[0].op == START && w.op == START
    ensures HeaderOf(c[0 := w], i) == HeaderOf(c, i)
    ensures Whole(c) ==> Whole(c[0 := w])
  {
    hide Laid;
    if |c| >= 2 {
      assert c[0 := w][1..|c| - 1] == c[1..|c| - 1];
    }
  }

  // ---- acts ----

  function AddRef(h: Heap, r: Ref): Heap
    requires r.block in h.blocks && HeaderOf(h.blocks[r.block], r.index).Some?
  {
    h.(blocks := h.blocks[r.block := Added(h.blocks[r.block], r.index)])
  }

  function UnRef(h: Heap, r: Ref): Heap
    requires r.block in h.blocks && HeaderOf(h.blocks[r.block], r.index).Some?
  {
    var c := Dropped(h.blocks[r.block], r.index);
    if Last(c[HeaderOf(h.blocks[r.block], r.index).value]) then h.(blocks := h.blocks - {r.block})
    else h.(blocks := h.blocks[r.block := c])
  }

  /** A reference into a program in memory is added to the variables, in whatever place. */
  lemma AddAgrees(h: Heap, vars: Variables, r: Ref, vars': Variables)
    requires Agrees(h, vars) && RefOk(h, r) && |vars| + 2 < COUNT_LIMIT
    requires forall b :: Live(vars', b) == Live(vars, b) + One(Some(r), b)
    requires forall k :: 0 <= k < |vars'| && vars'[k].Some? ==> RefOk(h, vars'[k].value)
    ensures Agrees(AddRef(h, r), vars')
  {
    hide Whole, HeaderOf, BlockOk;
    Headed(h, vars, r.block);
    var h' := AddRef(h, r);
    forall b | b in h'.blocks ensures BlockOk(h', vars', b) {
      CountedOnce(h, vars, r, vars', b);
    }
    forall k | 0 <= k < |vars'| && vars'[k].Some? ensures RefOk(h', vars'[k].value) {
      StillOk(h, r, vars'[k].value);
    }
  }

  lemma CountedOnce(h: Heap, vars: Variables, r: Ref, vars': Variables, b: nat)
    requires b in h.blocks && BlockOk(h, vars, b) && RefOk(h, r) && |vars| + 2 < COUNT_LIMIT
    requires Live(vars', b) == Live(vars, b) + One(Some(r), b)
    ensures BlockOk(AddRef(h, r), vars', b)
  {
    hide Laid, HeaderOf;
    LiveBound(vars, b);
    if b == r.block {
      var c := h.blocks[b];
      SameHeader(c, Incr(c[0]), 0);
    }
  }

  lemma StillOk(h: Heap, r: Ref, q: Ref)
    requires RefOk(h, r) && RefOk(h, q) && |h.blocks[r.block]| > 0 && h.blocks[r.block][0].op == START
    ensures RefOk(AddRef(h, r), q)
  {
    hide HeaderOf;
    var c := h.blocks[r.block];
    SameHeader(c, Incr(c[0]), q.index);
  }

  lemma PushAgrees(h: Heap, vars: Variables, r: Ref)
    requires Agrees(h, vars) && RefOk(h, r) && |vars| + 2 < COUNT_LIMIT
    ensures Agrees(AddRef(h, r), vars + [Some(r)])
  {
    hide BlockOk, RefOk;
    forall b: nat ensures Live(vars + [Some(r)], b) == Live(vars, b) + One(Some(r), b) {
      OneAdded(vars, Some(r), b);
    }
    AddAgrees(h, vars, r, vars + [Some(r)]);
  }

  /** A reference is dropped; the program is freed exactly if that was the last. */
  lemma DropAgrees(h: Heap, vars: Variables, i: nat)
    requires Agrees(h, vars) && i < |vars| && vars[i].Some? && |vars| + 2 < COUNT_LIMIT
    ensures RefOk(h, vars[i].value)
    ensures var r := vars[i].value;
            var h' := UnRef(h, r);
            Agrees(h', vars[i := None]) && (r.block !in h'.blocks <==> Expected(h, vars, r.block) == 1)
  {
    hide Laid, HeaderOf, Last;
    var r := vars[i].value;
    assert RefOk(h, r) && BlockOk(h, vars, r.block);
    var c := h.blocks[r.block];
    var h' := UnRef(h, r);
    var vars' := vars[i := None];
    LiveBound(vars, r.block);
    OneChanged(vars, i, None, r.block);
    FreedExactly(c[0]);
    forall b | b in h'.blocks ensures BlockOk(h', vars', b) {
      OneChanged(vars, i, None, b);
      assert BlockOk(h, vars, b);
      SameHeader(c, Decr(c[0]), 0);
    }
    forall k | 0 <= k < |vars'| && vars'[k].Some? ensures RefOk(h', vars'[k].value) {
      assert RefOk(h, vars[k].value);
      SameHeader(c, Decr(c[0]), vars'[k].value.index);
      OneChanged(vars', k, None, r.block);
    }
  }

  /** A new program, whose one reference is to index 1. */
  function Created(h: Heap, code: Code, at: nat): Heap
    requires |code| > 0
  {
    h.(blocks := h.blocks[at := code[0 := Fields(START, 0, 1)]])
  }

  lemma CreatedAgrees(h: Heap, vars: Variables, code: Code, at: nat)
    requires Agrees(h, vars) && Whole(code) && at !in h.blocks
    ensures Agrees(Created(h, code, at), vars + [Some(Ref(at, 1))])
  {
    hide Laid, HeaderOf;
    var h' := Created(h, code, at);
    var vars' := vars + [Some(Ref(at, 1))];
    SameHeader(code, Fields(START, 0, 1), 1);
    ReferencesFindHeader(code, 1);
    NotReferred(h, vars, at);
    forall b | b in h'.blocks ensures BlockOk(h', vars', b) {
      OneAdded(vars, Some(Ref(at, 1)), b);
      assert b != at ==> BlockOk(h, vars, b);
    }
    forall k | 0 <= k < |vars'| && vars'[k].Some? ensures RefOk(h', vars'[k].value) {
      assert k < |vars| ==> RefOk(h, vars[k].value);
    }
  }

  lemma {:induction false} NotReferred(h: Heap, vars: Variables, b: nat)
    requires b !in h.blocks && forall k :: 0 <= k < |vars| && vars[k].Some? ==> RefOk(h, vars[k].value)
    ensures Live(vars, b) == 0
  {
    if vars != [] {
      NotReferred(h, vars[..|vars| - 1], b);
      assert vars[|vars| - 1].Some? ==> RefOk(h, vars[|vars| - 1].value);
    }
  }

  // ---- whole runs ----

  /** A program is compiled; a BLOCK or an EMPTY instruction pushes a reference; a reference is copied or
      goes away; one is assigned to another. */
  datatype Act =
    | Compile(code: Code, at: nat) | PushBlock(i: nat, pc: nat) | PushEmpty(b: nat)
    | CopyOf(i: nat) | Drop(i: nat) | Assign(i: nat, j: nat)

  predicate Has(vars: Variables, i: nat) { i < |vars| && vars[i].Some? }

  ghost predicate Possible(h: Heap, vars: Variables, act: Act) {
    match act
    case Compile(code, at) => Whole(code) && at !in h.blocks
    case PushBlock(i, pc) =>
      && Has(vars, i) && vars[i].value.block in h.blocks
      && var c := h.blocks[vars[i].value.block];
         Place(c, pc) && c[pc].op == BLOCK
    case PushEmpty(b) => b in h.statics
    case CopyOf(i) => Has(vars, i)
    case Drop(i) => Has(vars, i)
    case Assign(i, j) => Has(vars, i) && Has(vars, j)
  }

  /** One act; one that is not possible does nothing. Assigning drops the old reference before the new
      one is counted: nothing, if that frees the program that is assigned. */
  ghost function Does(h: Heap, vars: Variables, act: Act): Option<(Heap, Variables)>
    requires Agrees(h, vars) && |vars| + 2 < COUNT_LIMIT
  {
    if !Possible(h, vars, act) then Some((h, vars))
    else
      match act
      case Compile(code, at) => Some((Created(h, code, at), vars + [Some(Ref(at, 1))]))
      case PushBlock(i, pc) =>
        var r := Ref(vars[i].value.block, pc + 2);
        BlockRefOk(h, vars, vars[i].value.block, pc);
        Some((AddRef(h, r), vars + [Some(r)]))
      case PushEmpty(b) =>
        BlockRefOk(h, vars, b, 0);
        Some((AddRef(h, Ref(b, 1)), vars + [Some(Ref(b, 1))]))
      case CopyOf(i) =>
        assert RefOk(h, vars[i].value);
        Some((AddRef(h, vars[i].value), vars + [vars[i]]))
      case Drop(i) =>
        assert RefOk(h, vars[i].value);
        Some((UnRef(h, vars[i].value), vars[i := None]))
      case Assign(i, j) =>
        assert RefOk(h, vars[i].value) && RefOk(h, vars[j].value);
        var h1 := UnRef(h, vars[i].value);
        if vars[j].value.block !in h1.blocks then None
        else
          Unreferenced(h, vars, i, j);
          Some((AddRef(h1, vars[j].value), vars[i := vars[j]]))
  }

  lemma BlockRefOk(h: Heap, vars: Variables, b: nat, pc: nat)
    requires Agrees(h, vars) && b in h.blocks
    ensures RefOk(h, Ref(b, 1))
    ensures Place(h.blocks[b], pc) && h.blocks[b][pc].op == BLOCK ==> RefOk(h, Ref(b, pc + 2))
  {
    hide Whole, HeaderOf, Place;
    assert BlockOk(h, vars, b);
    ReferencesFindHeader(h.blocks[b], pc);
  }

  lemma Unreferenced(h: Heap, vars: Variables, i: nat, j: nat)
    requires Agrees(h, vars) && Has(vars, i) && Has(vars, j) && |vars| + 2 < COUNT_LIMIT
    ensures RefOk(h, vars[i].value) && RefOk(h, vars[j].value)
    ensures var h1 := UnRef(h, vars[i].value);
            && (vars[j].value.block in h1.blocks ==> RefOk(h1, vars[j].value))
            && (vars[j].value.block !in h1.blocks <==> i == j && Expected(h, vars, vars[i].value.block) == 1)
  {
    hide BlockOk, HeaderOf, Last;
    var p, q := vars[i].value, vars[j].value;
    assert RefOk(h, p) && RefOk(h, q);
    DropAgrees(h, vars, i);
    var h1 := UnRef(h, p);
    if i != j {
      assert vars[i := None][j] == vars[j];
      assert RefOk(h1, q);
    } else if q.block in h1.blocks {
      Headed(h, vars, q.block);
      SameHeader(h.blocks[q.block], Decr(h.blocks[q.block][0]), q.index);
    }
  }

  lemma Headed(h: Heap, vars: Variables, b: nat)
    requires Agrees(h, vars) && b in h.blocks
    ensures |h.blocks[b]| >= 2 && h.blocks[b][0].op == START
  {
    hide Laid;
    assert BlockOk(h, vars, b);
  }

  /** The only act that goes wrong is assigning the only reference to a program to itself. */
  lemma DoesAgrees(h: Heap, vars: Variables, act: Act)
    requires Agrees(h, vars) && |vars| + 2 < COUNT_LIMIT
    ensures Does(h, vars, act) == None <==>
              act.Assign? && Has(vars, act.i) && act.i == act.j && Expected(h, vars, vars[act.i].value.block) == 1
    ensures var o := Does(h, vars, act);
            o.Some? ==> Agrees(o.value.0, o.value.1) && |o.value.1| <= |vars| + 1
  {
    hide Agrees, RefOk, Created, AddRef, UnRef, Expected, Place, Whole;
    if Possible(h, vars, act) {
      match act {
        case Compile(code, at) => CreatedAgrees(h, vars, code, at);
        case PushBlock(i, pc) =>
          BlockRefOk(h, vars, vars[i].value.block, pc);
          PushAgrees(h, vars, Ref(vars[i].value.block, pc + 2));
        case PushEmpty(b) =>
          StaticsThere(h, vars, b);
          BlockRefOk(h, vars, b, 0);
          PushAgrees(h, vars, Ref(b, 1));
        case CopyOf(i) =>
          VariableOk(h, vars, i);
          PushAgrees(h, vars, vars[i].value);
        case Drop(i) => DropAgrees(h, vars, i);
        case Assign(i, j) =>
          Unreferenced(h, vars, i, j);
          if Does(h, vars, act).Some? {
            AssignAgrees(h, vars, i, j);
          }
      }
    }
  }

  lemma StaticsThere(h: Heap, vars: Variables, b: nat)
    requires Agrees(h, vars) && b in h.statics
    ensures b in h.blocks
  {
  }

  lemma VariableOk(h: Heap, vars: Variables, i: nat)
    requires Agrees(h, vars) && Has(vars, i)
    ensures RefOk(h, vars[i].value)
  {
  }

  lemma AssignAgrees(h: Heap, vars: Variables, i: nat, j: nat)
    requires Agrees(h, vars) && Has(vars, i) && Has(vars, j) && |vars| + 2 < COUNT_LIMIT
    requires RefOk(h, vars[i].value) && RefOk(UnRef(h, vars[i].value), vars[j].value)
    ensures Agrees(AddRef(UnRef(h, vars[i].value), vars[j].value), vars[i := vars[j]])
  {
    hide BlockOk, HeaderOf;
    DropAgrees(h, vars, i);
    var h1, vars1, vars2, q := UnRef(h, vars[i].value), vars[i := None], vars[i := vars[j]], vars[j].value;
    forall b: nat ensures Live(vars2, b) == Live(vars1, b) + One(Some(q), b) {
      OneChanged(vars1, i, vars[j], b);
      assert vars1[i := vars[j]] == vars2;
    }
    forall k | 0 <= k < |vars2| && vars2[k].Some? ensures RefOk(h1, vars2[k].value) {
      assert k != i ==> vars1[k] == vars2[k];
    }
    AddAgrees(h1, vars1, q, vars2);
  }

  ghost function Run(h: Heap, vars: Variables, acts: seq<Act>): Option<(Heap, Variables)>
    requires Agrees(h, vars) && |vars| + |acts| + 2 < COUNT_LIMIT
    decreases |acts|
  {
    if acts == [] then Some((h, vars))
    else
      DoesAgrees(h, vars, acts[0]);
      var o := Does(h, vars, acts[0]);
      if o == None then None else Run(o.value.0, o.value.1, acts[1..])
  }

  /** The static empty blocks, one for each type mask. */
  function EmptyBlock(ret: nat): Code
    requires ret < 4
  {
    [Fields(START, 0, 1), Fields(EXIT, ret, 0)]
  }

  const Initial := Heap(map b: nat | b < 4 :: EmptyBlock(b), {0, 1, 2, 3})

  lemma InitialAgrees()
    ensures Agrees(Initial, [])
  {
    hide Laid;
    forall b | b in Initial.blocks ensures BlockOk(Initial, [], b) {
      NothingLaid(1);
      assert EmptyBlock(b)[1..1] == [];
    }
  }

  /** Over every run of fewer than 2^23 acts in which no variable is assigned to itself: nothing goes
      wrong, every header counts exactly the references that are live then, a program is in memory
      exactly while there are any, and the static empty blocks always are. */
  lemma {:induction false} RunCounts(h: Heap, vars: Variables, acts: seq<Act>, b: nat)
    requires Agrees(h, vars) && |vars| + |acts| + 2 < COUNT_LIMIT
    requires forall a :: a in acts ==> !(a.Assign? && a.i == a.j)
    ensures var o := Run(h, vars, acts);
            && o.Some? && Agrees(o.value.0, o.value.1) && o.value.0.statics == h.statics
            && (b in o.value.0.blocks <==> Expected(o.value.0, o.value.1, b) > 0)
            && (b in o.value.0.blocks ==> o.value.0.blocks[b][0].data == Expected(o.value.0, o.value.1, b))
    decreases |acts|
  {
    hide BlockOk, RefOk, Does;
    if acts == [] {
      InMemory(h, vars, b);
    } else {
      DoesAgrees(h, vars, acts[0]);
      SameStatics(h, vars, acts[0]);
      assert acts[0] in acts;
      var o := Does(h, vars, acts[0]).value;
      RunCounts(o.0, o.1, acts[1..], b);
    }
  }

  lemma SameStatics(h: Heap, vars: Variables, act: Act)
    requires Agrees(h, vars) && |vars| + 2 < COUNT_LIMIT && Does(h, vars, act).Some?
    ensures Does(h, vars, act).value.0.statics == h.statics
  {
    hide BlockOk, RefOk, Agrees, Added, Dropped, Last, HeaderOf, Place, Whole;
  }

  lemma InMemory(h: Heap, vars: Variables, b: nat)
    requires Agrees(h, vars)
    ensures b in h.blocks <==> Expected(h, vars, b) > 0
    ensures b in h.blocks ==> |h.blocks[b]| > 0 && h.blocks[b][0].data == Expected(h, vars, b)
  {
    hide Laid, RefOk;
    if b in h.blocks {
      assert BlockOk(h, vars, b);
    } else {
      NotReferred(h, vars, b);
    }
  }
}
