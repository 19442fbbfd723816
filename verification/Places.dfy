/** What the layout of a program guarantees to the VM: where jumps and blocks lead, and that a reference
    to any block finds the header of the program it lies in. */
module Places {
  import opened Words
  import opened Literals
  import opened Syntax
  import opened Emit
  import opened Layout
  import opened Vm

  /** Reading instruction after instruction, payloads skipped and blocks not, comes by index `k`. */
  predicate Reaches(c: Code, k: nat)
    decreases |c|
  {
    k == 0 || (c != [] && Size(c[0]) <= |c| && Size(c[0]) <= k && Reaches(c[Size(c[0])..], k - Size(c[0])))
  }

  /** The code is split exactly into instructions. */
  predicate Splits(c: Code) { Reaches(c, |c|) }

  lemma {:induction false} ReachesWithin(a: Code, b: Code, k: nat)
    requires Splits(a)
    ensures k <= |a| ==> (Reaches(a + b, k) <==> Reaches(a, k))
    ensures k > |a| ==> (Reaches(a + b, k) <==> Reaches(b, k - |a|))
    decreases |a|
  {
    if a == [] {
      assert a + b == b;
    } else if k > 0 {
      var n := Size(a[0]);
      assert (a + b)[n..] == a[n..] + b;
      if k >= n {
        ReachesWithin(a[n..], b, k - n);
      }
    }
  }

  lemma SplitsJoin(a: Code, b: Code)
    requires Splits(a) && Splits(b)
    ensures Splits(a + b)
  {
    ReachesWithin(a, b, |a| + |b|);
    if b == [] {
      assert a + b == a;
    }
  }

  lemma OneSplits(w: Word)
    requires Size(w) == 1
    ensures Splits([w])
  {
    assert [w][1..] == [];
  }

  lemma HeadSplits(c: Code, pos: nat)
    requires c != [] && Laid(c, pos) && (c[0].op == BLOCK || Enters(c[0].op))
    ensures Splits(c[..if c[0].op == BLOCK then 2 else 1])
  {
    if c[0].op == BLOCK {
      OneSplits(c[0]);
      OneSplits(c[1]);
      SplitsJoin([c[0]], [c[1]]);
      assert c[..2] == [c[0]] + [c[1]];
    } else {
      OneSplits(c[0]);
      assert c[..1] == [c[0]];
    }
  }

  /** Whole units are whole instructions. */
  lemma {:induction false} LaidSplits(c: Code, pos: nat)
    requires Laid(c, pos)
    ensures Splits(c)
    decreases |c|, 1
  {
    hide Reaches, ExitAt;
    if c == [] {
      assert Reaches(c, 0) by { NothingReached(c); }
    } else {
      var n := Unit(c).value;
      UnitSplits(c, n, pos);
      LaidSplits(c[n..], pos + n);
      SplitsJoin(c[..n], c[n..]);
      assert c == c[..n] + c[n..];
    }
  }

  lemma NothingReached(c: Code)
    ensures Reaches(c, 0)
  {
  }

  /** What holds of the instruction at index `k` of code at index `pos` of a program. */
  ghost predicate Sound(c: Code, pos: nat, k: nat)
    requires k < |c|
  {
    && c[k].op != START
    && (Jumps(c[k].op) ==> k + 1 + c[k].data <= |c| && Reaches(c, k + 1 + c[k].data))
    && (c[k].op == BLOCK ==>
          var n := k + 1 + c[k].data;
          && k + 3 < n <= |c| && Reaches(c, n) && Reaches(c, k + 2)
          && ExitAt(c[k + 2..], 0) == Some(n - (k + 2))
          && c[k + 1] == Fields(OFFSET, 0, pos + k + 2)
          && c[k + 2].op != START)
  }

  lemma SoundWithin(a: Code, b: Code, d: Code, pos: nat, k: nat)
    requires Splits(a) && Splits(b) && k < |b| && Sound(b, pos + |a|, k)
    ensures Sound(a + b + d, pos, |a| + k)
  {
    hide Reaches, ExitAt, Splits;
    var c := a + b + d;
    assert c == a + (b + d);
    assert c[|a| + k] == b[k];
    if Jumps(b[k].op) {
      Lift(a, b, d, k + 1 + b[k].data);
    } else if b[k].op == BLOCK {
      var n := k + 1 + b[k].data;
      Lift(a, b, d, n);
      Lift(a, b, d, k + 2);
      ExitJoin(b[k + 2..], d, 0);
      assert c[|a| + k + 2..] == b[k + 2..] + d;
    }
  }

  lemma Lift(a: Code, b: Code, d: Code, k: nat)
    requires Splits(a) && Splits(b) && k <= |b| && Reaches(b, k)
    ensures Reaches(a + b + d, |a| + k)
  {
    hide Reaches;
    assert a + b + d == a + (b + d);
    ReachesWithin(b, d, k);
    ReachesWithin(a, b + d, |a| + k);
    if k == 0 {
      Splitting(a, b + d);
    }
  }

  lemma Splitting(a: Code, b: Code)
    requires Splits(a)
    ensures Reaches(a + b, |a|)
  {
    ReachesWithin(a, b, |a|);
  }

  /** The instructions of laid out code are sound. */
  lemma {:induction false} LaidSound(c: Code, pos: nat, k: nat)
    requires Laid(c, pos) && k < |c| && Reaches(c, k)
    ensures Sound(c, pos, k)
    decreases |c|
  {
    hide Reaches, ExitAt, Sound, Between, Splits, UnitLaid;
    var n := Unit(c).value;
    LaidSplits(c[n..], pos + n);
    if k >= n {
      UnitSplits(c, n, pos);
      assert c[n..|c|] == c[n..];
      InPart(c, n, |c|, k);
      LaidSound(c[n..], pos + n, k - n);
      SoundPart(c, n, |c|, pos, k);
    } else if k == 0 {
      FirstSound(c, pos);
    } else {
      InsideSound(c, pos, k);
    }
  }

  lemma {:induction false} UnitSplits(c: Code, n: nat, pos: nat)
    requires c != [] && Laid(c, pos) && n == Unit(c).value
    ensures Splits(c[..n])
    decreases |c|, 0
  {
    hide Reaches, ExitAt, Splits;
    if c[0].op == BLOCK || Enters(c[0].op) {
      var h := if c[0].op == BLOCK then 2 else 1;
      HeadSplits(c, pos);
      LaidSplits(c[h..n - 1], pos + h);
      BlockJoin(c, h, n);
    } else {
      InstructionSplits(c[..n]);
    }
  }

  lemma BlockJoin(c: Code, h: nat, n: nat)
    requires h < n <= |c| && Splits(c[..h]) && Splits(c[h..n - 1]) && c[n - 1].op == EXIT
    ensures Splits(c[..n])
  {
    hide Splits;
    OneSplits(c[n - 1]);
    SplitsJoin(c[..h], c[h..n - 1]);
    SplitsJoin(c[..h] + c[h..n - 1], [c[n - 1]]);
    assert c[..n] == c[..h] + c[h..n - 1] + [c[n - 1]];
  }

  lemma InstructionSplits(c: Code)
    requires c != [] && Size(c[0]) == |c|
    ensures Splits(c)
  {
    assert c[|c|..] == [];
  }

  /** A stretch of whole instructions within code. */
  lemma InPart(c: Code, i: nat, j: nat, k: nat)
    requires i <= k < j <= |c| && Splits(c[..i]) && Splits(c[i..j]) && Reaches(c, k)
    ensures Reaches(c[i..j], k - i)
  {
    hide Reaches;
    var a, b, d := c[..i], c[i..j], c[j..];
    assert c == a + (b + d);
    NothingReached(b);
    ReachesWithin(a, b + d, k);
    ReachesWithin(b, d, k - i);
  }

  lemma SoundPart(c: Code, i: nat, j: nat, pos: nat, k: nat)
    requires i <= k < j <= |c| && Splits(c[..i]) && Splits(c[i..j]) && Sound(c[i..j], pos + i, k - i)
    ensures Sound(c, pos, k)
  {
    hide Sound, Splits;
    assert c == c[..i] + c[i..j] + c[j..];
    SoundWithin(c[..i], c[i..j], c[j..], pos, k - i);
  }

  /** The first instruction: a jump leads between units, a block past its own EXIT. */
  lemma FirstSound(c: Code, pos: nat)
    requires c != [] && Laid(c, pos)
    ensures Sound(c, pos, 0)
  {
    hide Reaches, ExitAt, Between;
    if c[0].op == BLOCK {
      BlockSound(c, pos);
    } else if Jumps(c[0].op) {
      JumpSound(c, pos);
    }
  }

  lemma BlockSound(c: Code, pos: nat)
    requires c != [] && Laid(c, pos) && c[0].op == BLOCK
    ensures Sound(c, pos, 0)
  {
    hide Reaches, ExitAt, Between;
    var n := Unit(c).value;
    HeadSplits(c, pos);
    UnitSplits(c, n, pos);
    SplitAt(c, n);
    SplitAt(c, 2);
    FirstOp(c[2..n - 1], pos + 2);
  }

  lemma SplitAt(c: Code, n: nat)
    requires n <= |c| && Splits(c[..n])
    ensures Reaches(c, n)
  {
    assert c == c[..n] + c[n..];
    Splitting(c[..n], c[n..]);
  }

  lemma JumpSound(c: Code, pos: nat)
    requires c != [] && Laid(c, pos) && Jumps(c[0].op)
    ensures Sound(c, pos, 0)
  {
    hide Reaches, ExitAt, Between;
    LaidSplits(c[1..], pos + 1);
    BetweenReaches(c[1..], c[0].data, pos + 1);
    OneSplits(c[0]);
    assert c == [c[0]] + c[1..];
    ReachesWithin([c[0]], c[1..], 1 + c[0].data);
    Splitting([c[0]], c[1..]);
  }

  lemma FirstOp(c: Code, pos: nat)
    requires c != [] && Laid(c, pos)
    ensures c[0].op != START && c[0].op != EXIT
  {
    hide ExitAt, Between;
  }

  lemma {:induction false} BetweenReaches(c: Code, k: nat, pos: nat)
    requires Laid(c, pos) && Between(c, k)
    ensures k <= |c| && Reaches(c, k)
    decreases |c|
  {
    hide Reaches, ExitAt;
    NothingReached(c);
    if k > 0 {
      var n := Unit(c).value;
      UnitSplits(c, n, pos);
      BetweenReaches(c[n..], k - n, pos + n);
      assert c == c[..n] + c[n..];
      ReachesWithin(c[..n], c[n..], k);
      Splitting(c[..n], c[n..]);
    }
  }

  /** An instruction within a block. */
  lemma {:induction false} InsideSound(c: Code, pos: nat, k: nat)
    requires c != [] && Laid(c, pos) && 0 < k < Unit(c).value && Reaches(c, k)
    ensures Sound(c, pos, k)
    decreases |c|, 0
  {
    hide Reaches, ExitAt, Between;
    var n := Unit(c).value;
    hide Laid, Sound, Splits, Unit, Enters;
    NotInPayload(c, pos, k);
    var h := if c[0].op == BLOCK then 2 else 1;
    if h <= k < n - 1 {
      HeadSplits(c, pos);
      LaidSplits(c[h..n - 1], pos + h);
      InPart(c, h, n - 1, k);
      LaidSound(c[h..n - 1], pos + h, k - h);
      SoundPart(c, h, n - 1, pos, k);
    }
  }

  lemma NotInPayload(c: Code, pos: nat, k: nat)
    requires c != [] && Laid(c, pos) && 0 < k < Unit(c).value && Reaches(c, k)
    ensures c[0].op == BLOCK || Enters(c[0].op)
  {
    hide ExitAt, Between;
  }

  // ---- whole programs ----

  /** An index at which an instruction of the program begins. */
  ghost predicate Place(prog: Code, pc: nat) {
    1 <= pc < |prog| && Reaches(prog[1..], pc - 1)
  }

  lemma {:induction false} StepReaches(c: Code, k: nat)
    requires Splits(c) && Reaches(c, k) && k < |c|
    ensures k + Size(c[k]) <= |c| && Reaches(c, k + Size(c[k]))
    decreases |c|
  {
    var n := Size(c[0]);
    if k > 0 {
      StepReaches(c[n..], k - n);
    }
  }

  /** The instruction at any place but that of the last EXIT. */
  lemma PlaceSound(prog: Code, pc: nat)
    requires Whole(prog) && Place(prog, pc) && pc + 1 < |prog|
    ensures pc >= 1
    ensures var c := prog[1..|prog| - 1]; Splits(c) && Reaches(c, pc - 1) && Sound(c, 1, pc - 1)
  {
    hide Reaches, Sound, Laid, ExitAt;
    var c, x := prog[1..|prog| - 1], prog[|prog| - 1..];
    assert prog[1..] == c + x;
    LaidSplits(c, 1);
    ReachesWithin(c, x, pc - 1);
    LaidSound(c, 1, pc - 1);
  }

  lemma InnerPlace(prog: Code, k: nat)
    requires Whole(prog)
    requires var c := prog[1..|prog| - 1]; Splits(c) && k <= |c| && Reaches(c, k)
    ensures Place(prog, k + 1)
  {
    hide Reaches, Laid;
    var c, x := prog[1..|prog| - 1], prog[|prog| - 1..];
    assert prog[1..] == c + x;
    ReachesWithin(c, x, k);
  }

  /** From a place the VM goes on at a place: past the instruction and its payload, to the target of a
      jump, or past a block, which ends with its own EXIT. The code never ends before the last EXIT. */
  lemma NextIsPlace(prog: Code, pc: nat)
    requires Whole(prog) && Place(prog, pc) && pc + 1 < |prog|
    ensures var w := prog[pc];
            && Place(prog, pc + Size(w))
            && (Jumps(w.op) ==> Place(prog, pc + 1 + w.data))
            && (w.op == BLOCK ==>
                  Place(prog, pc + 2) && Place(prog, pc + 1 + w.data)
                  && ExitAt(prog[pc + 2..], 0) == Some(w.data - 1) && prog[pc + w.data].op == EXIT)
  {
    hide Reaches, Laid, ExitAt, Place;
    var c := prog[1..|prog| - 1];
    var w := prog[pc];
    PlaceSound(prog, pc);
    assert c[pc - 1] == w;
    StepReaches(c, pc - 1);
    InnerPlace(prog, pc - 1 + Size(w));
    if Jumps(w.op) {
      InnerPlace(prog, pc + w.data);
    } else if w.op == BLOCK {
      InnerPlace(prog, pc + w.data);
      InnerPlace(prog, pc + 1);
      ExitJoin(c[pc + 1..], [prog[|prog| - 1]], 0);
      assert prog[pc + 2..] == c[pc + 1..] + [prog[|prog| - 1]];
    }
  }

  /** Where each instruction of vm_exec leaves the program counter. */
  lemma StepStays(h: Host, prog: Code, pc: nat, r: Value, st: State)
    requires Whole(prog) && Place(prog, pc) && pc + 1 < |prog|
    ensures IsPushOp(prog[pc].op) && PushStep(h, prog, pc, r, st).Next? ==> Place(prog, PushStep(h, prog, pc, r, st).pc)
    ensures IsPopOp(prog[pc].op) && st.stack != [] && PopStep(h, prog, pc, r, st).Next? ==>
              Place(prog, PopStep(h, prog, pc, r, st).pc)
    ensures prog[pc].op == COM || prog[pc].op == COM_V || prog[pc].op == CALL ==> Place(prog, CallEnd(prog, pc))
    ensures prog[pc].op == DO || prog[pc].op == EXIT || Enters(prog[pc].op) ==> Place(prog, pc + 1)
  {
    hide Place, Whole, Force, GetBool, Find, Bind, CompileValue, UnpackBytes, ToInt32, ShortStringValue;
    NextIsPlace(prog, pc);
  }

  // ---- references to blocks ----

  /** The index of the header that bcode_addref and bcode_unref count in, for a reference to index `i`. */
  function HeaderOf(code: Code, i: nat): Option<nat> {
    if i >= |code| then None
    else if code[i].op == START then Some(i)
    else if i == 0 then None
    else if code[i - 1].op == START then Some(i - 1)
    else if code[i - 1].op == OFFSET && code[i - 1].data <= i then Some(i - code[i - 1].data)
    else None
  }

  /** The program itself, and every block in it, however deep, is counted in the word at index 0. */
  lemma ReferencesFindHeader(prog: Code, pc: nat)
    requires Whole(prog)
    ensures HeaderOf(prog, 1) == Some(0)
    ensures Place(prog, pc) && prog[pc].op == BLOCK ==> HeaderOf(prog, pc + 2) == Some(0)
  {
    hide Reaches, Laid, ExitAt;
    var c := prog[1..|prog| - 1];
    if c != [] {
      FirstOp(c, 1);
      assert prog[1] == c[0];
    }
    if Place(prog, pc) && prog[pc].op == BLOCK {
      PlaceSound(prog, pc);
      assert c[pc - 1] == prog[pc] && c[pc] == prog[pc + 1] && c[pc + 1] == prog[pc + 2];
    }
  }
}
