/** What reading a list, joining its items and reading again gives. */
module ListLaws {
  import opened Syntax
  import opened Scan
  import opened Escape
  import opened Lists

  // ---- an item stands for itself ----

  /** A text that is one string, one block or one word, and the item proper in it. */
  predicate IsItem(x: Item) {
    var q := x.quoted;
    && q != ""
    && if q[0] == '"' then StringEnd(q, 1) == Some(|q|) && x.raw == q[1..|q| - 1]
       else if Opener(q[0]) then BlockEnd(q, 1, q[0], 1) == Closed(|q|) && x.raw == q[1..|q| - 1]
       else WordEnd(q, 0) == Some(|q|) && x.raw == q
  }

  lemma ItemBegins(x: Item)
    requires IsItem(x)
    ensures var q := x.quoted; !White(q[0]) && q[0] != ';' && !Closer(q[0]) && !Comment(q, 0)
  {
  }

  lemma Subslice(s: string, a: nat, b: nat, i: nat, j: nat)
    requires a <= b <= |s| && i <= j <= b - a
    ensures s[a..b][i..j] == s[a + i..a + j]
  {
    var u, v := s[a..b][i..j], s[a + i..a + j];
    assert |u| == |v| && forall m :: 0 <= m < |u| ==> u[m] == v[m];
  }

  lemma HoldsPrefix(t: string, a: nat, s: string, i: nat, j: nat, k: nat)
    requires i <= j <= k <= |s| && Holds(t, a, s[i..k])
    ensures Holds(t, a, s[i..j])
  {
    forall m | 0 <= m < j - i ensures t[a + m] == s[i..j][m] {
      HoldsChar(t, a, s[i..k], m);
    }
    HoldsAt(t, a, s[i..j]);
  }

  lemma {:induction false} LineMoves(s: string, i: nat, t: string, a: nat)
    requires i <= |s| && LineEnd(s, i) < |s| && Holds(t, a, s[i..LineEnd(s, i) + 1])
    ensures LineEnd(t, a) == a + (LineEnd(s, i) - i)
    decreases |s| - i
  {
    hide Holds;
    var k := LineEnd(s, i) + 1;
    HoldsChar(t, a, s[i..k], 0);
    HoldsBound(t, a, s[i..k]);
    if s[i] != '\n' {
      HoldsRest(t, a, s, i, i + 1, k);
      LineMoves(s, i + 1, t, a + 1);
    }
  }

  /** A block that ends is one wherever its text stands. */
  lemma {:induction false} BlockMoves(s: string, i: nat, t: string, a: nat, open: char, depth: nat)
    requires i <= |s| && depth > 0 && BlockEnd(s, i, open, depth).Closed?
    requires Holds(t, a, s[i..BlockEnd(s, i, open, depth).end])
    ensures BlockEnd(t, a, open, depth) == Closed(a + (BlockEnd(s, i, open, depth).end - i))
    decreases |s| - i
  {
    hide Holds, BlockEnd, StringEnd, LineEnd;
    var k := BlockEnd(s, i, open, depth).end;
    HoldsBound(t, a, s[i..k]);
    var (j, d) := BlockNext(s, i, open, depth);
    if j < k {
      HoldsRest(t, a, s, i, j, k);
      BlockMoves(s, j, t, a + (j - i), open, d);
    }
    BlockStepMoves(s, i, t, a, open, depth);
  }

  lemma BlockStepMoves(s: string, i: nat, t: string, a: nat, open: char, depth: nat)
    requires i <= |s| && depth > 0 && BlockEnd(s, i, open, depth).Closed?
    requires Holds(t, a, s[i..BlockEnd(s, i, open, depth).end])
    ensures var (j, d) := BlockNext(s, i, open, depth);
            && a + (j - i) <= |t|
            && BlockEnd(t, a, open, depth)
            == if j < BlockEnd(s, i, open, depth).end then BlockEnd(t, a + (j - i), open, d) else Closed(a + (j - i))
  {
    hide Holds, BlockEnd, StringEnd, LineEnd, BlockNext;
    var k := BlockEnd(s, i, open, depth).end;
    HoldsBound(t, a, s[i..k]);
    HoldsChar(t, a, s[i..k], 0);
    if i + 1 < k {
      HoldsChar(t, a, s[i..k], 1);
    }
    if s[i] == '"' {
      StringInBlock(s, i, open, depth);
      var j := StringEnd(s, i + 1).value;
      HoldsRest(t, a, s, i, i + 1, k);
      HoldsPrefix(t, a + 1, s, i + 1, j, k);
      StringMoves(s, i + 1, t, a + 1);
      StringInBlock(t, a, open, depth);
    } else if Comment(s, i) {
      CommentInBlock(s, i, open, depth);
      HoldsRest(t, a, s, i, i + 1, k);
      HoldsPrefix(t, a + 1, s, i + 1, LineEnd(s, i + 1) + 1, k);
      LineMoves(s, i + 1, t, a + 1);
      CommentInBlock(t, a, open, depth);
    } else {
      CharInBlock(s, i, t, a, open, depth);
    }
  }

  lemma StringInBlock(s: string, i: nat, open: char, depth: nat)
    requires i < |s| && depth > 0 && s[i] == '"'
    ensures var j := StringEnd(s, i + 1);
            if j == None then BlockEnd(s, i, open, depth) == BadString
            else BlockEnd(s, i, open, depth) == BlockEnd(s, j.value, open, depth)
    ensures BlockEnd(s, i, open, depth).Closed? ==> BlockNext(s, i, open, depth) == (StringEnd(s, i + 1).value, depth)
  {
    hide StringEnd;
  }

  lemma CommentInBlock(s: string, i: nat, open: char, depth: nat)
    requires i < |s| && depth > 0 && Comment(s, i)
    ensures BlockEnd(s, i, open, depth) == BlockEnd(s, LineEnd(s, i + 1), open, depth)
    ensures LineEnd(s, i + 1) == |s| ==> BlockEnd(s, i, open, depth) == Unclosed
    ensures BlockEnd(s, i, open, depth).Closed? ==> BlockNext(s, i, open, depth) == (LineEnd(s, i + 1), depth)
  {
    hide LineEnd;
  }

  lemma CharInBlock(s: string, i: nat, t: string, a: nat, open: char, depth: nat)
    requires i < |s| && depth > 0 && BlockEnd(s, i, open, depth).Closed? && s[i] != '"' && !Comment(s, i)
    requires a + (BlockEnd(s, i, open, depth).end - i) <= |t| && t[a] == s[i]
    requires i + 1 < BlockEnd(s, i, open, depth).end ==> t[a + 1] == s[i + 1]
    ensures var (j, d) := BlockNext(s, i, open, depth);
            BlockEnd(t, a, open, depth)
            == if j < BlockEnd(s, i, open, depth).end then BlockEnd(t, a + (j - i), open, d) else Closed(a + (j - i))
  {
  }

  /** Where the scan of a block goes on, and with how many open brackets. */
  function BlockNext(s: string, i: nat, open: char, depth: nat): (r: (nat, nat))
    requires i <= |s| && depth > 0 && BlockEnd(s, i, open, depth).Closed?
    ensures i < r.0 <= BlockEnd(s, i, open, depth).end
    ensures r.0 < BlockEnd(s, i, open, depth).end ==>
            r.1 > 0 && BlockEnd(s, r.0, open, r.1) == BlockEnd(s, i, open, depth)
  {
    if s[i] == '"' then (StringEnd(s, i + 1).value, depth)
    else if Comment(s, i) then (LineEnd(s, i + 1), depth)
    else if s[i] == open then (i + 1, depth + 1)
    else if s[i] == CloserOf(open) then (i + 1, depth - 1)
    else (i + 1, depth)
  }

  /** In front of the end or a space, the item's text is read as just that item. */
  lemma ItemParses(t: string, a: nat, x: Item)
    requires IsItem(x) && Holds(t, a, x.quoted)
    requires var e := a + |x.quoted|; e == |t| || t[e] == ' '
    ensures ParseAt(t, a).Found? && ItemAt(t, ParseAt(t, a).slice) == x
    ensures ParseAt(t, a).pos == Finish(t, a + |x.quoted|)
  {
    hide ParseAt, ItemAt, Finish, Holds, IsItem;
    ItemStarts(t, a, x);
    if x.quoted[0] == '"' {
      StringParses(t, a, x);
    } else if Opener(x.quoted[0]) {
      BlockParses(t, a, x);
    } else {
      WordParses(t, a, x);
    }
  }

  lemma StringParses(t: string, a: nat, x: Item)
    requires IsItem(x) && x.quoted[0] == '"' && Holds(t, a, x.quoted) && Skip(t, a) == a && t[a] == x.quoted[0]
    ensures ParseAt(t, a).Found? && ItemAt(t, ParseAt(t, a).slice) == x
    ensures ParseAt(t, a).pos == Finish(t, a + |x.quoted|)
  {
    hide StringEnd, BlockEnd, WordEnd, Finish, Holds, Skip, Opener, Closer;
    var q := x.quoted;
    HoldsBound(t, a, q);
    HoldsSlices(t, a, q);
    assert q[0..|q|] == q;
    HoldsRest(t, a, q, 0, 1, |q|);
    StringMoves(q, 1, t, a + 1);
    StringAt(t, a, a + |q|);
  }

  lemma StringAt(t: string, a: nat, e: nat)
    requires a < |t| && t[a] == '"' && StringEnd(t, a + 1) == Some(e) && Skip(t, a) == a
    ensures ParseAt(t, a) == Found(Slice(a + 1, e - 1, a, e), Finish(t, e))
  {
    hide StringEnd, BlockEnd, WordEnd, Finish, Skip;
  }

  lemma BlockParses(t: string, a: nat, x: Item)
    requires IsItem(x) && Opener(x.quoted[0]) && Holds(t, a, x.quoted) && Skip(t, a) == a && t[a] == x.quoted[0]
    ensures ParseAt(t, a).Found? && ItemAt(t, ParseAt(t, a).slice) == x
    ensures ParseAt(t, a).pos == Finish(t, a + |x.quoted|)
  {
    hide StringEnd, BlockEnd, WordEnd, Finish, Holds;
    var q := x.quoted;
    HoldsBound(t, a, q);
    HoldsSlices(t, a, q);
    HoldsRest(t, a, q, 0, 1, |q|);
    BlockMoves(q, 1, t, a + 1, q[0], 1);
  }

  lemma WordParses(t: string, a: nat, x: Item)
    requires IsItem(x) && x.quoted[0] != '"' && !Opener(x.quoted[0]) && Holds(t, a, x.quoted)
    requires Skip(t, a) == a && t[a] == x.quoted[0] && !Closer(t[a])
    requires var e := a + |x.quoted|; e == |t| || t[e] == ' '
    ensures ParseAt(t, a).Found? && ItemAt(t, ParseAt(t, a).slice) == x
    ensures ParseAt(t, a).pos == Finish(t, a + |x.quoted|)
  {
    hide StringEnd, BlockEnd, WordEnd, Finish, Holds;
    var q := x.quoted;
    HoldsBound(t, a, q);
    HoldsSlices(t, a, q);
    WordMoves(q, 0, |q|, t, a);
  }

  lemma HoldsSlices(t: string, a: nat, q: string)
    requires Holds(t, a, q)
    ensures q[0..|q|] == q && t[a..a + |q|] == q
    ensures |q| > 1 ==> t[a + 1..a + |q| - 1] == q[1..|q| - 1]
  {
    if |q| > 1 {
      Subslice(t, a, a + |q|, 1, |q| - 1);
    }
  }

  lemma ItemStarts(t: string, a: nat, x: Item)
    requires IsItem(x) && Holds(t, a, x.quoted)
    requires var e := a + |x.quoted|; e == |t| || t[e] == ' '
    ensures x.quoted != "" && a + |x.quoted| <= |t| && Skip(t, a) == a && t[a] == x.quoted[0] && !Closer(t[a])
            && t[a] != ';'
  {
    hide StringEnd, BlockEnd, WordEnd, Holds;
    var q := x.quoted;
    ItemBegins(x);
    HoldsBound(t, a, q);
    HoldsChar(t, a, q, 0);
    if |q| > 1 {
      HoldsChar(t, a, q, 1);
    }
  }

  /** Every item that is read is such an item, or empty. */
  lemma ParsedIsItem(s: string, i: nat)
    requires i <= |s| && ParseAt(s, i).Found?
    ensures var x := ItemAt(s, ParseAt(s, i).slice); x.quoted == "" || IsItem(x)
  {
    hide StringEnd, BlockEnd, WordEnd, Skip, Finish, IsItem;
    var b := Skip(s, i);
    var e := ParseAt(s, i).slice.r;
    if e > b {
      if s[b] == '"' {
        StringIsItem(s, b, e);
      } else if Opener(s[b]) {
        BlockIsItem(s, b, e);
      } else {
        WordIsItem(s, b, e);
      }
    }
  }

  lemma StringIsItem(s: string, b: nat, e: nat)
    requires b < e <= |s| && s[b] == '"' && StringEnd(s, b + 1) == Some(e)
    ensures IsItem(Item(s[b + 1..e - 1], s[b..e]))
  {
    hide StringEnd, BlockEnd, WordEnd, Holds, Opener;
    var q := s[b..e];
    SliceHeld(s, b, e);
    StringMoves(s, b + 1, q, 1);
    Subslice(s, b, e, 1, |q| - 1);
  }

  lemma SliceHeld(s: string, b: nat, e: nat)
    requires b < e <= |s|
    ensures Holds(s[b..e], 1, s[b + 1..e])
  {
    Subslice(s, b, e, 1, e - b);
  }

  lemma BlockIsItem(s: string, b: nat, e: nat)
    requires b < e <= |s| && Opener(s[b]) && BlockEnd(s, b + 1, s[b], 1) == Closed(e)
    ensures IsItem(Item(s[b + 1..e - 1], s[b..e]))
  {
    hide StringEnd, BlockEnd, WordEnd;
    var q := s[b..e];
    Subslice(s, b, e, 1, |q|);
    Subslice(s, b, e, 1, |q| - 1);
    BlockMoves(s, b + 1, q, 1, s[b], 1);
  }

  lemma WordIsItem(s: string, b: nat, e: nat)
    requires b < e <= |s| && s[b] != '"' && !Opener(s[b]) && WordEnd(s, b) == Some(e)
    ensures IsItem(Item(s[b..e], s[b..e]))
  {
    hide StringEnd, BlockEnd, WordEnd;
    var q := s[b..e];
    assert q[0..|q|] == q;
    WordMoves(s, b, e, q, 0);
  }

  predicate EmptyOrItem(x: Item) { x.quoted == "" || IsItem(x) }

  lemma {:induction false} ItemsAreItems(s: string, i: nat)
    requires i <= |s| && Items(s, i).Some?
    ensures forall x :: x in Items(s, i).value ==> EmptyOrItem(x)
    decreases |s| - i
  {
    hide ParseAt;
    if ParseAt(s, i).Found? {
      ParsedIsItem(s, i);
      ItemsAreItems(s, ParseAt(s, i).pos);
    }
  }

  // ---- joining and reading again ----

  /** With single spaces. */
  function Join(qs: seq<string>): string {
    if qs == [] then "" else if |qs| == 1 then qs[0] else qs[0] + " " + Join(qs[1..])
  }

  function QuotedItems(xs: seq<Item>): (qs: seq<string>)
    ensures |qs| == |xs|
  {
    if xs == [] then [] else [xs[0].quoted] + QuotedItems(xs[1..])
  }

  function NonEmpty(xs: seq<Item>): seq<Item> {
    if xs == [] then [] else (if xs[0].quoted == "" then [] else [xs[0]]) + NonEmpty(xs[1..])
  }

  lemma SpaceSkipped(t: string, a: nat)
    requires a < |t| && t[a] == ' '
    ensures Skip(t, a) == Skip(t, a + 1) && Items(t, a) == Items(t, a + 1)
  {
    assert Skip(t, a) == Skip(t, a + 1);
    assert ParseAt(t, a) == ParseAt(t, a + 1);
  }

  lemma AfterSkip(t: string, a: nat)
    requires a <= |t|
    ensures Items(t, Skip(t, a)) == Items(t, a)
  {
    assert Skip(t, Skip(t, a)) == Skip(t, a);
    assert ParseAt(t, a) == ParseAt(t, Skip(t, a));
  }

  /** The text at `a` is the first of `qs`, followed by the end, or by a space and the others. */
  lemma JoinedAt(t: string, a: nat, qs: seq<string>)
    requires a <= |t| && qs != [] && t[a..] == Join(qs)
    ensures var e := a + |qs[0]|;
            && Holds(t, a, qs[0])
            && (if |qs| == 1 then e == |t| else e < |t| && t[e] == ' ' && t[e + 1..] == Join(qs[1..]))
  {
    var e := a + |qs[0]|;
    assert t[a..e] == t[a..][..|qs[0]|] == qs[0];
    if |qs| > 1 {
      assert t[e] == t[a..][|qs[0]|];
      assert t[e + 1..] == t[a..][|qs[0]| + 1..];
    }
  }

  /** No `;` stands between items that were joined. */
  lemma {:induction false} NoSeparator(t: string, a: nat, xs: seq<Item>)
    requires a <= |t| && t[a..] == Join(QuotedItems(xs)) && forall x :: x in xs ==> EmptyOrItem(x)
    ensures Skip(t, a) < |t| ==> t[Skip(t, a)] != ';'
    decreases |xs|
  {
    hide IsItem, Holds, Skip;
    if xs != [] {
      JoinedAt(t, a, QuotedItems(xs));
      assert EmptyOrItem(xs[0]);
      if xs[0].quoted != "" {
        ItemStarts(t, a, xs[0]);
      } else if |xs| > 1 {
        SpaceSkipped(t, a);
        NoSeparator(t, a + 1, xs[1..]);
      }
    }
  }

  lemma {:induction false} JoinedItems(t: string, a: nat, xs: seq<Item>)
    requires a <= |t| && t[a..] == Join(QuotedItems(xs)) && forall x :: x in xs ==> EmptyOrItem(x)
    ensures Items(t, a) == Some(NonEmpty(xs))
    decreases |xs|
  {
    hide IsItem, Holds, Skip, ParseAt, ItemAt, Join;
    NothingAtEnd(t);
    if xs == [] {
      assert t[a..] == "" by { JoinNone(); }
    } else {
      var e := a + |xs[0].quoted|;
      JoinedAt(t, a, QuotedItems(xs));
      assert EmptyOrItem(xs[0]);
      if |xs| > 1 {
        JoinedItems(t, e + 1, xs[1..]);
        SpaceSkipped(t, e);
        NoSeparator(t, e + 1, xs[1..]);
        AfterSkip(t, e);
      }
      if xs[0].quoted != "" {
        ItemThenRest(t, a, xs[0], NonEmpty(xs[1..]));
      } else {
        assert NonEmpty(xs) == NonEmpty(xs[1..]);
      }
    }
  }

  lemma ItemThenRest(t: string, a: nat, x: Item, rest: seq<Item>)
    requires IsItem(x) && Holds(t, a, x.quoted)
    requires var e := a + |x.quoted|;
             (e == |t| || t[e] == ' ') && Items(t, Finish(t, e)) == Some(rest)
    ensures Items(t, a) == Some([x] + rest)
  {
    hide IsItem, Holds, Finish, ParseAt, ItemAt;
    HoldsBound(t, a, x.quoted);
    ItemParses(t, a, x);
  }

  lemma JoinNone()
    ensures Join([]) == ""
  {
  }

  lemma {:induction false} NoneEmpty(xs: seq<Item>)
    ensures |NonEmpty(xs)| <= |xs|
    ensures NonEmpty(xs) == xs <==> forall x :: x in xs ==> x.quoted != ""
  {
    if xs != [] {
      NoneEmpty(xs[1..]);
      assert xs == [xs[0]] + xs[1..];
      if xs[0].quoted == "" {
        assert xs[0] in xs;
      }
    }
  }

  /** A list that is read without error or unended block, joined from its items with single spaces and
      read again, gives the same items without the empty ones: all of them exactly if none is empty. */
  lemma ReadAgain(s: string)
    requires Items(s, 0).Some?
    ensures var xs := Items(s, 0).value;
            var t := Join(QuotedItems(xs));
            && Items(t, 0) == Some(NonEmpty(xs))
            && (Items(t, 0) == Items(s, 0) <==> forall x :: x in xs ==> x.quoted != "")
  {
    var xs := Items(s, 0).value;
    var t := Join(QuotedItems(xs));
    ItemsAreItems(s, 0);
    assert t[0..] == t;
    JoinedItems(t, 0, xs);
    NoneEmpty(xs);
  }

  // ---- escaped strings ----

  function QuotedStrings(vs: seq<string>): (qs: seq<string>)
    ensures |qs| == |vs|
  {
    if vs == [] then [] else [EscapeOf(vs[0])] + QuotedStrings(vs[1..])
  }

  function Values(xs: seq<Item>): (vs: seq<string>)
    ensures |vs| == |xs|
  {
    if xs == [] then [] else [ValueOf(xs[0])] + Values(xs[1..])
  }

  predicate ReadsAs(t: string, a: nat, vs: seq<string>)
    requires a <= |t|
  {
    Items(t, a).Some? && Values(Items(t, a).value) == vs
  }

  lemma {:induction false} UnescapedMoves(s: string, i: nat, k: nat, t: string, a: nat)
    requires i <= k <= |s| && Holds(t, a, s[i..k])
    ensures a + (k - i) <= |t| && Unescaped(t, a, a + (k - i)) == Unescaped(s, i, k)
    decreases k - i
  {
    hide Holds, Unescaped, UnescapeNext;
    HoldsBound(t, a, s[i..k]);
    if i < k {
      var j := UnescapeNext(s, i, k).0;
      HoldsRest(t, a, s, i, j, k);
      UnescapedMoves(s, j, k, t, a + (j - i));
      HoldsChar(t, a, s[i..k], 0);
      if i + 1 < k {
        HoldsChar(t, a, s[i..k], 1);
      }
      if i + 2 < k {
        HoldsChar(t, a, s[i..k], 2);
      }
      UnescapeNextMoves(s, i, k, t, a, a + (k - i));
      UnescapeGoesOn(s, i, k);
      UnescapeGoesOn(t, a, a + (k - i));
    } else {
      UnescapedNone(s, i);
      UnescapedNone(t, a);
    }
  }

  lemma UnescapedNone(s: string, i: nat)
    requires i <= |s|
    ensures Unescaped(s, i, i) == ""
  {
  }

  lemma UnescapeNextMoves(s: string, i: nat, k: nat, t: string, a: nat, c: nat)
    requires i < k <= |s| && a < c <= |t| && c - a == k - i
    requires t[a] == s[i] && (i + 1 < k ==> t[a + 1] == s[i + 1]) && (i + 2 < k ==> t[a + 2] == s[i + 2])
    ensures UnescapeNext(t, a, c).0 - a == UnescapeNext(s, i, k).0 - i
    ensures UnescapeNext(t, a, c).1 == UnescapeNext(s, i, k).1
  {
    hide Unescaped;
  }

  /** One escaped string at `a`, in front of the end or a space. */
  lemma QuotedParses(t: string, a: nat, v: string)
    requires Holds(t, a, EscapeOf(v))
    ensures Skip(t, a) == a && t[a] == '"'
    ensures Clean(v) ==> ParseAt(t, a).Found?
    ensures !Clean(v) ==> ParseAt(t, a).Failed? || ParseAt(t, a).Found?
    ensures ParseAt(t, a).Found? ==>
              && (ValueOf(ItemAt(t, ParseAt(t, a).slice)) == v <==> Clean(v))
              && ParseAt(t, a).pos == Finish(t, a + |EscapeOf(v)|)
  {
    hide Holds, StringEnd, Unescaped, Escaped, Finish, Clean, Skip, ValueOf, ItemAt;
    var q := EscapeOf(v);
    HoldsBound(t, a, q);
    HoldsChar(t, a, q, 0);
    QuoteStarts(t, a);
    assert q[0..|q|] == q && q[1..|q|] == Escaped(v) + ['"'];
    HoldsRest(t, a, q, 0, 1, |q|);
    EscapedReadsBack(t, a + 1, v);
    if StringEnd(t, a + 1).Some? {
      QuotedValue(t, a, a + 2 + |Escaped(v)|);
    }
  }

  lemma QuoteStarts(t: string, a: nat)
    requires a < |t| && t[a] == '"'
    ensures Skip(t, a) == a
  {
  }

  lemma QuotedValue(t: string, a: nat, e: nat)
    requires a + 2 <= e <= |t| && t[a] == '"'
    ensures ValueOf(ItemAt(t, Slice(a + 1, e - 1, a, e))) == Unescaped(t, a + 1, e - 1)
  {
    hide Unescaped, Holds;
    var raw := t[a + 1..e - 1];
    assert t[a..e][0] == t[a] && raw[0..|raw|] == raw;
    HoldsAt(raw, 0, raw);
    UnescapedMoves(t, a + 1, e - 1, raw, 0);
  }

  lemma NothingReadAtEnd(t: string, vs: seq<string>)
    ensures ReadsAs(t, |t|, vs) <==> vs == []
    ensures Finish(t, |t|) == |t|
  {
    NothingAtEnd(t);
  }

  lemma FirstRead(t: string, a: nat, vs: seq<string>)
    requires a <= |t| && vs != []
    ensures ReadsAs(t, a, vs) <==>
              var p := ParseAt(t, a);
              p.Found? && ValueOf(ItemAt(t, p.slice)) == vs[0] && ReadsAs(t, p.pos, vs[1..])
  {
    hide ParseAt, ValueOf;
    if ParseAt(t, a).Found? {
      var p := ParseAt(t, a);
      if Items(t, p.pos).Some? {
        var x, rest := ItemAt(t, p.slice), Items(t, p.pos).value;
        assert ([x] + rest)[0] == x && ([x] + rest)[1..] == rest;
        assert vs == [vs[0]] + vs[1..];
        SameList(ValueOf(x), Values(rest), vs[0], vs[1..]);
      }
    }
  }

  lemma FirstClean(vs: seq<string>)
    requires vs != []
    ensures (forall v :: v in vs ==> Clean(v)) <==> Clean(vs[0]) && forall v :: v in vs[1..] ==> Clean(v)
  {
    hide Clean;
    assert vs == [vs[0]] + vs[1..];
  }

  lemma SameList(x: string, xs: seq<string>, y: string, ys: seq<string>)
    ensures [x] + xs == [y] + ys <==> x == y && xs == ys
  {
    if [x] + xs == [y] + ys {
      assert ([x] + xs)[0] == x && ([y] + ys)[0] == y && ([x] + xs)[1..] == xs && ([y] + ys)[1..] == ys;
    }
  }

  lemma {:induction false} EscapedList(t: string, a: nat, vs: seq<string>)
    requires a <= |t| && t[a..] == Join(QuotedStrings(vs))
    ensures ReadsAs(t, a, vs) <==> forall v :: v in vs ==> Clean(v)
    decreases |vs|
  {
    hide Holds, Skip, ParseAt, ItemAt, Join, Clean, EscapeOf, ValueOf, ReadsAs, Items, CountFrom;
    if vs == [] {
      JoinNone();
      NothingReadAtEnd(t, vs);
    } else {
      var e := a + |EscapeOf(vs[0])|;
      JoinedAt(t, a, QuotedStrings(vs));
      QuotedParses(t, a, vs[0]);
      FirstRead(t, a, vs);
      FirstClean(vs);
      if |vs| == 1 {
        NothingReadAtEnd(t, vs[1..]);
      } else {
        EscapedList(t, e + 1, vs[1..]);
        SpaceSkipped(t, e);
        AfterSkip(t, e);
        JoinedAt(t, e + 1, QuotedStrings(vs[1..]));
        QuotedParses(t, e + 1, vs[1]);
      }
    }
  }

  /** Escaping strings, joining them with spaces and reading the list gives exactly these strings and
      their number if and only if no string holds a backslash or a carriage return. */
  lemma ListRoundTrip(vs: seq<string>)
    ensures var t := Join(QuotedStrings(vs));
            && (ReadsAs(t, 0, vs) <==> forall v :: v in vs ==> '\\' !in v && '\r' !in v)
            && (ReadsAs(t, 0, vs) ==> CountFrom(t, 0) == Some(|vs|))
  {
    var t := Join(QuotedStrings(vs));
    assert t[0..] == t;
    EscapedList(t, 0, vs);
    forall v ensures Clean(v) <==> '\\' !in v && '\r' !in v {
      CleanIs(v);
    }
    if ReadsAs(t, 0, vs) {
      CountsItems(t, 0);
    }
  }

  /** What get_item gives for the item at `a`: a string without its quotes and unescaped, a block without
      its brackets, and a word as it is. */
  lemma ItemValues(t: string, a: nat)
    requires a <= |t| && ParseAt(t, a).Found?
    ensures var b, v := Skip(t, a), ValueOf(ItemAt(t, ParseAt(t, a).slice));
            && b < |t|
            && (t[b] == '"' ==> StringEnd(t, b + 1).Some? && v == Unescaped(t, b + 1, StringEnd(t, b + 1).value - 1))
            && (Opener(t[b]) ==>
                  BlockEnd(t, b + 1, t[b], 1).Closed? && v == t[b + 1..BlockEnd(t, b + 1, t[b], 1).end - 1])
            && (t[b] != '"' && !Opener(t[b]) ==> WordEnd(t, b).Some? && v == t[b..WordEnd(t, b).value])
  {
    hide Skip, StringEnd, BlockEnd, WordEnd, Finish, Unescaped;
    var b := Skip(t, a);
    if t[b] == '"' {
      QuotedValue(t, b, StringEnd(t, b + 1).value);
    }
  }
}
