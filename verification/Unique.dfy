/** The `uniquelist` command: list_sort without a sorting body (src/lib_list.cc). */
module Unique {
  import opened Syntax
  import opened Scan
  import opened Lists
  import opened ListLaws

  /** What the body says of an item and an earlier one. */
  type Same = (string, string) -> bool

  /** An item is kept unless it is empty or the same as an earlier item that is kept. */
  predicate Kept(xs: seq<Item>, same: Same, i: nat)
    requires i < |xs|
  {
    && xs[i].quoted != ""
    && forall j :: 0 <= j < i && Kept(xs, same, j) ==> !same(xs[i].raw, xs[j].raw)
  }

  /** The others lose their text. */
  function Blanked(xs: seq<Item>, same: Same): (ys: seq<Item>)
    ensures |ys| == |xs|
  {
    seq(|xs|, i requires 0 <= i < |xs| => if Kept(xs, same, i) then xs[i] else Item(xs[i].raw, ""))
  }

  /** `Kept` is the only way to choose items that are not empty so that no chosen item is the same as an
      earlier chosen one and every other is. */
  lemma {:induction false} OnlyChoice(xs: seq<Item>, same: Same, chosen: seq<bool>, i: nat)
    requires |chosen| == |xs| && i <= |xs|
    requires forall k :: 0 <= k < |xs| ==>
               (chosen[k] <==> xs[k].quoted != "" &&
                               !exists j :: 0 <= j < k && chosen[j] && same(xs[k].raw, xs[j].raw))
    ensures forall k :: 0 <= k < i ==> (chosen[k] <==> Kept(xs, same, k))
  {
    if i > 0 {
      OnlyChoice(xs, same, chosen, i - 1);
    }
  }

  function Total(ys: seq<Item>): nat {
    if ys == [] then 0 else Total(ys[..|ys| - 1]) + |ys[|ys| - 1].quoted|
  }

  function Left(ys: seq<Item>): nat {
    if ys == [] then 0 else Left(ys[..|ys| - 1]) + if ys[|ys| - 1].quoted == "" then 0 else 1
  }

  /** The text written for the items: a space before each but the one at index 0. */
  function Written(ys: seq<Item>): string {
    if ys == [] then ""
    else
      var y := ys[|ys| - 1].quoted;
      Written(ys[..|ys| - 1]) + if y == "" then "" else if |ys| == 1 then y else " " + y
  }

  /** The reserved length is the one that is used. */
  lemma {:induction false} WrittenLength(ys: seq<Item>)
    requires ys != []
    ensures |Written(ys)| == Total(ys) + Left(ys) - (if ys[0].quoted == "" then 0 else 1)
  {
    if |ys| > 1 {
      WrittenLength(ys[..|ys| - 1]);
    }
  }

  /** The inner loop: the first earlier item that still has its text and is the same, or `i`. */
  method FindSame(items: array<Item>, i: nat, same: Same) returns (j: nat)
    requires i < items.Length
    ensures j <= i
    ensures forall k :: 0 <= k < j ==> !(items[k].quoted != "" && same(items[i].raw, items[k].raw))
    ensures j < i ==> items[j].quoted != "" && same(items[i].raw, items[j].raw)
  {
    j := 0;
    while j < i
      invariant j <= i
      invariant forall k :: 0 <= k < j ==> !(items[k].quoted != "" && same(items[i].raw, items[k].raw))
    {
      var prev := items[j];
      if prev.quoted != "" && same(items[i].raw, prev.raw) {
        break;
      }
      j := j + 1;
    }
  }

  /** One turn of the loop, before the totals. */
  method BlankIfSame(items: array<Item>, i: nat, same: Same, ghost xs: seq<Item>)
    requires i < items.Length == |xs| && items[i] == xs[i]
    requires forall k :: 0 <= k < i ==> items[k] == Blanked(xs, same)[k]
    modifies items
    ensures items[i] == Blanked(xs, same)[i]
    ensures forall k :: 0 <= k < items.Length && k != i ==> items[k] == old(items[k])
  {
    hide Kept, Blanked;
    var j := FindSame(items, i, same);
    Decided(xs, same, i, j);
    if j < i {
      items[i] := items[i].(quoted := "");
    }
  }

  /** The loop over the items: those that are the same as an earlier one are blanked in place. */
  method BlankRepeated(items: array<Item>, same: Same) returns (totaluniq: nat, nuniq: nat)
    requires items.Length > 0
    modifies items
    ensures items[..] == Blanked(old(items[..]), same)
    ensures totaluniq == Total(items[..])
    ensures nuniq == Left(items[..]) + if items[0].quoted == "" then 1 else 0
  {
    ghost var xs := items[..];
    ghost var ys := Blanked(xs, same);
    totaluniq := |items[0].quoted|;
    nuniq := 1;
    FirstOnly(ys);
    BlankedAt(xs, same, 0);
    assert xs[0].quoted == "" ==> Item(xs[0].raw, "") == xs[0];
    hide Kept, Total, Left, Blanked;
    for i := 1 to items.Length
      invariant forall k :: 0 <= k < i ==> items[k] == ys[k]
      invariant forall k :: i <= k < items.Length ==> items[k] == xs[k]
      invariant totaluniq == Total(ys[..i]) && nuniq == Left(ys[..i]) + if ys[0].quoted == "" then 1 else 0
    {
      BlankIfSame(items, i, same, xs);
      OneMore(ys, i);
      if items[i].quoted != "" {
        totaluniq := totaluniq + |items[i].quoted|;
        nuniq := nuniq + 1;
      }
    }
    assert items[..] == ys == ys[..items.Length];
  }

  lemma BlankedAt(xs: seq<Item>, same: Same, j: nat)
    requires j < |xs|
    ensures Blanked(xs, same)[j] == if Kept(xs, same, j) then xs[j] else Item(xs[j].raw, "")
    ensures Blanked(xs, same)[j].quoted != "" <==> Kept(xs, same, j)
  {
  }

  lemma Decided(xs: seq<Item>, same: Same, i: nat, j: nat)
    requires j <= i < |xs|
    requires var ys := Blanked(xs, same);
             && (forall k :: 0 <= k < j ==> !(ys[k].quoted != "" && same(xs[i].raw, ys[k].raw)))
             && (j < i ==> ys[j].quoted != "" && same(xs[i].raw, ys[j].raw))
    ensures Blanked(xs, same)[i] == if j < i then xs[i].(quoted := "") else xs[i]
  {
    var ys := Blanked(xs, same);
    forall k | 0 <= k < j && Kept(xs, same, k) ensures !same(xs[i].raw, xs[k].raw) {
      BlankedAt(xs, same, k);
      assert ys[k] == xs[k];
    }
    if j < i {
      BlankedAt(xs, same, j);
    }
    BlankedAt(xs, same, i);
    if xs[i].quoted == "" {
      assert Item(xs[i].raw, "") == xs[i];
    }
  }

  lemma OneMore(ys: seq<Item>, i: nat)
    requires i < |ys|
    ensures Total(ys[..i + 1]) == Total(ys[..i]) + |ys[i].quoted|
    ensures Left(ys[..i + 1]) == Left(ys[..i]) + if ys[i].quoted == "" then 0 else 1
  {
    assert ys[..i + 1][..i] == ys[..i];
  }

  lemma FirstOnly(ys: seq<Item>)
    requires ys != []
    ensures Total(ys[..1]) == |ys[0].quoted| && Left(ys[..1]) == if ys[0].quoted == "" then 0 else 1
  {
    assert ys[..1][..0] == [];
  }

  predicate Inside(s: string, x: Slice) { x.q <= x.i <= x.j <= x.r <= |s| }

  /** What the loop over parse() collects from `i` on, if `last` was found before: a block without an end
      counts as the item before it once more. Nothing if an error is reported. */
  function Collected(s: string, i: nat, last: Slice): Option<seq<Item>>
    requires i <= |s| && Inside(s, last)
    decreases |s| - i
  {
    match ParseAt(s, i)
    case NoItem(_) => Some([])
    case Failed => None
    case Unended => Some([ItemAt(s, last)])
    case Found(x, p) =>
      var rest := Collected(s, p, x);
      if rest == None then None else Some([ItemAt(s, x)] + rest.value)
  }

  const Start := Slice(0, 0, 0, 0)

  /** Without such a block these are the items. */
  lemma {:induction false} CollectedItems(s: string, i: nat, last: Slice)
    requires i <= |s| && Inside(s, last)
    ensures Items(s, i).Some? ==> Collected(s, i, last) == Items(s, i)
    decreases |s| - i
  {
    hide ParseAt;
    if ParseAt(s, i).Found? {
      CollectedItems(s, ParseAt(s, i).pos, ParseAt(s, i).slice);
    }
  }

  lemma {:induction false} CollectedAreItems(s: string, i: nat, last: Slice)
    requires i <= |s| && Inside(s, last) && Collected(s, i, last).Some? && EmptyOrItem(ItemAt(s, last))
    ensures forall x :: x in Collected(s, i, last).value ==> EmptyOrItem(x)
    decreases |s| - i
  {
    hide ParseAt;
    if ParseAt(s, i).Found? {
      ParsedIsItem(s, i);
      CollectedAreItems(s, ParseAt(s, i).pos, ParseAt(s, i).slice);
    }
  }

  /** Reads the items; an error of the parser is passed on. */
  method ReadItems(list: string) returns (items: Option<seq<Item>>)
    ensures items == Collected(list, 0, Start)
  {
    hide Items, ParseAt, Collected;
    var p := new ListParser(list);
    var xs: seq<Item> := [];
    ghost var all := Collected(list, 0, Start);
    BeforeAll(all);
    while true
      invariant fresh(p) && p.Valid() && p.text == list && Inside(list, p.Last())
      invariant After(xs, Collected(list, p.pos, p.Last())) == all
      decreases |list| - p.pos
    {
      ghost var pos, last := p.pos, p.Last();
      var a := p.Parse();
      CollectedFrom(list, pos, last, xs);
      if a == Error {
        return None;
      }
      if a == No {
        return Some(xs);
      }
      xs := xs + [Item(list[p.ibeg..p.iend], list[p.qbeg..p.qend])];
    }
  }

  function After(xs: seq<Item>, rest: Option<seq<Item>>): Option<seq<Item>> {
    if rest == None then None else Some(xs + rest.value)
  }

  lemma BeforeAll(all: Option<seq<Item>>)
    ensures After([], all) == all
  {
    if all.Some? {
      assert [] + all.value == all.value;
    }
  }

  lemma CollectedFrom(s: string, i: nat, last: Slice, xs: seq<Item>)
    requires i <= |s| && Inside(s, last)
    ensures match ParseAt(s, i)
            case NoItem(_) => After(xs, Collected(s, i, last)) == Some(xs)
            case Failed => After(xs, Collected(s, i, last)) == None
            case Unended =>
              After(xs, Collected(s, i, last)) == After(xs + [ItemAt(s, last)], Collected(s, |s|, last))
            case Found(x, p) =>
              After(xs, Collected(s, i, last)) == After(xs + [ItemAt(s, x)], Collected(s, p, x))
  {
    hide ParseAt;
    AtEnd(s, last);
    assert xs + [] == xs;
    match ParseAt(s, i)
    case Unended => assert xs + [ItemAt(s, last)] + [] == xs + [ItemAt(s, last)];
    case Found(x, p) =>
      if Collected(s, p, x).Some? {
        assert xs + ([ItemAt(s, x)] + Collected(s, p, x).value) == xs + [ItemAt(s, x)] + Collected(s, p, x).value;
      }
    case _ =>
  }

  lemma AtEnd(s: string, last: Slice)
    requires Inside(s, last)
    ensures Collected(s, |s|, last) == Some([])
  {
  }

  function UniqueText(list: string, xs: seq<Item>, same: Same): string {
    if xs == [] then list else Written(Blanked(xs, same))
  }

  /** uniquelist, for every list: an error, the list itself if it has no items, or the text of the items
      that are kept, which reads as exactly these. The text has the length that is reserved for it. */
  method UniqueList(list: string, same: Same) returns (res: Option<string>, reserved: nat)
    ensures res == None <==> Collected(list, 0, Start) == None
    ensures res.Some? ==> res.value == UniqueText(list, Collected(list, 0, Start).value, same)
    ensures res.Some? ==> |res.value| == reserved
    ensures res.Some? && Collected(list, 0, Start).value != [] ==>
              Items(res.value, 0) == Some(NonEmpty(Blanked(Collected(list, 0, Start).value, same)))
  {
    hide Items, ParseAt, Collected, Blanked, Written, Total, Left, NonEmpty, EmptyOrItem;
    var read := ReadItems(list);
    if read == None {
      return None, 0;
    }
    if read.value == [] {
      return Some(list), |list|;
    }
    var items := new Item[|read.value|](i requires 0 <= i < |read.value| => read.value[i]);
    assert items[..] == read.value;
    var totaluniq, nuniq := BlankRepeated(items, same);
    WrittenLength(items[..]);
    reserved := totaluniq + nuniq - 1;
    var sorted := Write(items);
    NothingYet(list);
    CollectedAreItems(list, 0, Start);
    BlankedItems(read.value, same);
    WrittenReads(items[..]);
    return Some(sorted), reserved;
  }

  lemma NothingYet(list: string)
    ensures EmptyOrItem(ItemAt(list, Start))
  {
  }

  method Write(items: array<Item>) returns (sorted: string)
    ensures sorted == Written(items[..])
  {
    sorted := "";
    for i := 0 to items.Length
      invariant sorted == Written(items[..i])
    {
      assert items[..i + 1][..i] == items[..i];
      var item := items[i];
      if item.quoted == "" {
        continue;
      }
      if i != 0 {
        sorted := sorted + " ";
      }
      sorted := sorted + item.quoted;
    }
    assert items[..items.Length] == items[..];
  }

  lemma BlankedItems(xs: seq<Item>, same: Same)
    requires forall x :: x in xs ==> EmptyOrItem(x)
    ensures forall y :: y in Blanked(xs, same) ==> EmptyOrItem(y)
  {
  }

  lemma NonEmptyFirst(ys: seq<Item>)
    requires ys != []
    ensures NonEmpty(ys) == (if ys[0].quoted == "" then [] else [ys[0]]) + NonEmpty(ys[1..])
  {
  }

  lemma NonEmptyNone()
    ensures NonEmpty([]) == []
  {
  }

  lemma {:induction false} NonEmptyLast(ys: seq<Item>)
    requires ys != []
    ensures NonEmpty(ys) == NonEmpty(ys[..|ys| - 1]) + if ys[|ys| - 1].quoted == "" then [] else [ys[|ys| - 1]]
  {
    hide NonEmpty;
    NonEmptyFirst(ys);
    if |ys| > 1 {
      var init := ys[..|ys| - 1];
      NonEmptyLast(ys[1..]);
      NonEmptyFirst(init);
      assert ys[1..][..|ys| - 2] == init[1..] && init[0] == ys[0] && ys[1..][|ys| - 2] == ys[|ys| - 1];
    } else {
      assert ys[..0] == [] && ys[1..] == [];
      NonEmptyNone();
    }
  }

  lemma {:induction false} JoinLast(xs: seq<Item>, x: Item)
    ensures Join(QuotedItems(xs + [x])) == if xs == [] then x.quoted else Join(QuotedItems(xs)) + " " + x.quoted
  {
    if xs != [] {
      JoinLast(xs[1..], x);
      assert (xs + [x])[1..] == xs[1..] + [x];
    }
  }

  /** The written text is the kept items joined, after a space if the first item is not kept. */
  lemma {:induction false} WrittenIsJoin(ys: seq<Item>)
    ensures var j := Join(QuotedItems(NonEmpty(ys)));
            Written(ys) == if ys == [] || ys[0].quoted != "" || NonEmpty(ys) == [] then j else " " + j
  {
    hide Join, QuotedItems;
    NothingJoined();
    if ys != [] {
      var init, y := ys[..|ys| - 1], ys[|ys| - 1];
      WrittenIsJoin(init);
      NonEmptyLast(ys);
      JoinLast(NonEmpty(init), y);
      var j := Join(QuotedItems(NonEmpty(init)));
      if |ys| == 1 {
        assert Written(init) == "" && NonEmpty(init) == [];
        assert Written(ys) == y.quoted;
      } else if y.quoted == "" {
        assert NonEmpty(ys) == NonEmpty(init) && Written(ys) == Written(init);
        assert ys[0] == init[0];
      } else if NonEmpty(init) == [] {
        assert ys[0].quoted == "" by { assert ys[0] == init[0]; if ys[0].quoted != "" { FirstKept(init); } }
        assert Written(ys) == " " + y.quoted;
        assert NonEmpty(ys) == [y];
      } else {
        assert ys[0] == init[0];
        Appended(j, y.quoted);
        assert Written(ys) == Written(init) + (" " + y.quoted);
      }
    }
  }

  lemma FirstKept(ys: seq<Item>)
    requires ys != [] && ys[0].quoted != ""
    ensures NonEmpty(ys) != []
  {
  }

  lemma NothingJoined()
    ensures Join(QuotedItems([])) == ""
  {
  }

  lemma Appended(j: string, y: string)
    ensures (" " + j) + (" " + y) == " " + (j + " " + y) && j + (" " + y) == j + " " + y
  {
  }

  lemma {:induction false} NonEmptyIn(ys: seq<Item>)
    ensures forall y :: y in NonEmpty(ys) ==> y in ys && y.quoted != ""
  {
    if ys != [] {
      NonEmptyIn(ys[1..]);
    }
  }

  /** Reading the written text gives exactly the items that are not blank, in their order. */
  lemma WrittenReads(ys: seq<Item>)
    requires forall y :: y in ys ==> EmptyOrItem(y)
    ensures Items(Written(ys), 0) == Some(NonEmpty(ys))
  {
    hide Items, Written, NonEmpty, Join, QuotedItems, EmptyOrItem;
    var t := Written(ys);
    var zs := NonEmpty(ys);
    WrittenIsJoin(ys);
    NonEmptyIn(ys);
    NoneEmpty(zs);
    if t == Join(QuotedItems(zs)) {
      assert t[0..] == t;
      JoinedItems(t, 0, zs);
    } else {
      assert t[1..] == Join(QuotedItems(zs));
      JoinedItems(t, 1, zs);
      SpaceSkipped(t, 0);
    }
  }
}
