/** The list reader: list_parser in include/cubescript/cubescript/util.hh and src/cs_parser.cc. */
module Lists {
  import opened Syntax
  import opened Scan
  import opened Escape

  // ---- what is read ----

  function LineEnd(s: string, i: nat): (j: nat)
    requires i <= |s|
    ensures i <= j <= |s| && (j < |s| ==> s[j] == '\n')
    decreases |s| - i
  {
    if i == |s| || s[i] == '\n' then i else LineEnd(s, i + 1)
  }

  /** Past white space and comments. */
  function Skip(s: string, i: nat): (j: nat)
    requires i <= |s|
    ensures i <= j <= |s| && (j < |s| ==> !White(s[j]) && !Comment(s, j))
    decreases |s| - i
  {
    if i < |s| && White(s[i]) then Skip(s, i + 1)
    else if Comment(s, i) then Skip(s, LineEnd(s, i + 2))
    else i
  }

  datatype Block = Closed(end: nat) | Unclosed | BadString

  /** Where a block ends in which `depth` brackets like `open` are open at `i`; brackets of the other
      kind are not looked at. */
  function BlockEnd(s: string, i: nat, open: char, depth: nat): (r: Block)
    requires i <= |s| && depth > 0
    ensures r.Closed? ==> i < r.end <= |s|
    decreases |s| - i
  {
    if i == |s| then Unclosed
    else if s[i] == '"' then
      var j := StringEnd(s, i + 1);
      if j == None then BadString else BlockEnd(s, j.value, open, depth)
    else if Comment(s, i) then BlockEnd(s, LineEnd(s, i + 1), open, depth)
    else if s[i] == open then BlockEnd(s, i + 1, open, depth + 1)
    else if s[i] == CloserOf(open) then
      if depth == 1 then Closed(i + 1) else BlockEnd(s, i + 1, open, depth - 1)
    else BlockEnd(s, i + 1, open, depth)
  }

  /** The indices that list_parser keeps of its last item: the item proper from `i` up to `j`, and the
      item with its quotes or brackets from `q` up to `r`. */
  datatype Slice = Slice(i: nat, j: nat, q: nat, r: nat)

  /** What one call of parse() finds, and where it leaves the input. `Unended` is a block without an end:
      parse() then answers true and keeps the old slice. */
  datatype Parsed = NoItem(pos: nat) | Failed | Unended | Found(slice: Slice, pos: nat)

  predicate Opener(c: char) { c == '[' || c == '(' }

  /** After an item, white space, comments and one `;` are passed over. */
  function Finish(s: string, e: nat): (p: nat)
    requires e <= |s|
    ensures e <= p <= |s|
  {
    var p := Skip(s, e);
    if p < |s| && s[p] == ';' then p + 1 else p
  }

  /** Only before a `;` can an item be empty. */
  lemma WordProgress(s: string, b: nat)
    requires b <= |s| && (b < |s| ==> !White(s[b]) && !Comment(s, b))
    ensures b < |s| && s[b] != '"' && !Closer(s[b]) && WordEnd(s, b) == Some(b) ==> s[b] == ';' && Finish(s, b) == b + 1
  {
    if b < |s| && !Opener(s[b]) && !Delimiter(s[b]) && !Closer(s[b]) {
      assert WordEnd(s, b) == WordEnd(s, b + 1);
    }
  }

  function ParseAt(s: string, i: nat): (r: Parsed)
    requires i <= |s|
    ensures r.NoItem? ==> i <= r.pos <= |s|
    ensures r.Found? ==> i < r.pos <= |s|
    ensures r.Found? ==> i <= r.slice.q <= r.slice.i <= r.slice.j <= r.slice.r <= r.pos
  {
    var b := Skip(s, i);
    if b == |s| || Closer(s[b]) then NoItem(b)
    else if s[b] == '"' then
      var e := StringEnd(s, b + 1);
      if e == None then Failed else Found(Slice(b + 1, e.value - 1, b, e.value), Finish(s, e.value))
    else if Opener(s[b]) then
      var e := BlockEnd(s, b + 1, s[b], 1);
      match e
      case BadString => Failed
      case Unclosed => Unended
      case Closed(k) => Found(Slice(b + 1, k - 1, b, k), Finish(s, k))
    else
      var e := WordEnd(s, b);
      if e == None then Failed else
      WordProgress(s, b);
      Found(Slice(b, e.value, b, e.value), Finish(s, e.value))
  }

  /** What the accessors of list_parser return for an item. */
  datatype Item = Item(raw: string, quoted: string)

  function ItemAt(s: string, x: Slice): Item
    requires x.q <= x.i <= x.j <= x.r <= |s|
  {
    Item(s[x.i..x.j], s[x.q..x.r])
  }

  /** The items from `i` on; nothing if an error is reported or a block is not ended. */
  function Items(s: string, i: nat): Option<seq<Item>>
    requires i <= |s|
    decreases |s| - i
  {
    match ParseAt(s, i)
    case NoItem(_) => Some([])
    case Found(x, p) =>
      var rest := Items(s, p);
      if rest == None then None else Some([ItemAt(s, x)] + rest.value)
    case _ => None
  }

  /** How often parse() answers true from `i` on, or nothing if an error is reported. */
  function CountFrom(s: string, i: nat): Option<nat>
    requires i <= |s|
    decreases |s| - i
  {
    match ParseAt(s, i)
    case NoItem(_) => Some(0)
    case Failed => None
    case Unended => Some(1)
    case Found(_, p) => var n := CountFrom(s, p); if n == None then None else Some(1 + n.value)
  }

  /** get_item(). */
  function ValueOf(x: Item): string {
    if x.quoted != "" && x.quoted[0] == '"' then Unescaped(x.raw, 0, |x.raw|) else x.raw
  }

  // ---- the parser ----

  datatype Answer = Yes | No | Error

  class ListParser {
    const text: string
    var pos: nat
    var ibeg: nat
    var iend: nat
    var qbeg: nat
    var qend: nat

    ghost predicate Valid()
      reads this
    {
      pos <= |text| && qbeg <= ibeg <= iend <= qend <= |text|
    }

    function Last(): Slice
      reads this
    {
      Slice(ibeg, iend, qbeg, qend)
    }

    constructor (s: string)
      ensures Valid() && text == s && pos == 0 && Last() == Slice(0, 0, 0, 0)
    {
      text, pos := s, 0;
      ibeg, iend, qbeg, qend := 0, 0, 0, 0;
    }

    method FindLine(from: nat) returns (it: nat)
      requires from <= |text|
      ensures it == LineEnd(text, from)
    {
      it := from;
      while it != |text| && text[it] != '\n'
        invariant from <= it <= |text| && LineEnd(text, it) == LineEnd(text, from)
      {
        it := it + 1;
      }
    }

    /** skip_until_item(). */
    method SkipUntilItem()
      requires Valid()
      modifies this`pos
      ensures Valid() && pos == Skip(text, old(pos))
    {
      while true
        invariant pos <= |text| && Skip(text, pos) == Skip(text, old(pos))
        decreases |text| - pos
      {
        while pos != |text| && White(text[pos])
          invariant pos <= |text| && Skip(text, pos) == Skip(text, old(pos))
          invariant old(pos) <= pos
          decreases |text| - pos
        {
          pos := pos + 1;
        }
        if |text| - pos < 2 || text[pos] != '/' || text[pos + 1] != '/' {
          break;
        }
        assert LineEnd(text, pos) == LineEnd(text, pos + 2);
        pos := FindLine(pos);
      }
    }

    /** The loop over the characters of a block; `Unclosed` leaves the input used up. */
    method ParseBlock(btype: char) returns (r: Block)
      requires Valid() && Opener(btype)
      modifies this`pos
      ensures Valid() && r == BlockEnd(text, old(pos), btype, 1)
      ensures r.Closed? ==> pos == r.end
      ensures r.Unclosed? ==> pos == |text|
    {
      hide StringEnd, Breaks, LineEnd;
      var brak := 1;
      ghost var start := pos;
      while true
        invariant pos <= |text| && brak > 0 && BlockEnd(text, pos, btype, brak) == BlockEnd(text, start, btype, 1)
        decreases |text| - pos
      {
        var from := pos;
        pos := FindFirstOf(text, pos, BLOCK_CHARS);
        NotInBlockChars(text, from, pos, btype, brak);
        if pos == |text| {
          return Unclosed;
        }
        var c := text[pos];
        pos := pos + 1;
        if c == '"' {
          var e, _ := ParseString(text, pos - 1);
          if e == None {
            return BadString;
          }
          pos := e.value;
        } else if c == '/' {
          if pos != |text| && text[pos] == '/' {
            pos := FindLine(pos);
          }
        } else if Opener(c) {
          brak := brak + if c == btype then 1 else 0;
        } else if c == CloserOf(btype) {
          brak := brak - 1;
          if brak <= 0 {
            return Closed(pos);
          }
        }
      }
    }

    /** parse(). */
    method Parse() returns (a: Answer)
      requires Valid()
      modifies this
      ensures Valid() && pos >= old(pos)
      ensures match ParseAt(text, old(pos))
              case NoItem(p) => a == No && pos == p && Last() == old(Last())
              case Failed => a == Error
              case Unended => a == Yes && pos == |text| > old(pos) && Last() == old(Last())
              case Found(x, p) => a == Yes && pos == p && Last() == x
    {
      hide Skip, Finish, StringEnd, BlockEnd, WordEnd, Breaks, White, Delimiter, Comment;
      SkipUntilItem();
      ghost var b := pos;
      WordProgress(text, b);
      if pos == |text| {
        return No;
      }
      var c := text[pos];
      var beg := pos;
      if Closer(c) {
        return No;
      } else if c == '"' {
        var e, _ := ParseString(text, pos);
        if e == None {
          return Error;
        }
        pos := e.value;
        qbeg, qend := beg, pos;
        ibeg, iend := qbeg + 1, qend - 1;
      } else if Opener(c) {
        pos := pos + 1;
        var e := ParseBlock(c);
        if e.BadString? {
          pos := beg;
          return Error;
        }
        if e.Unclosed? {
          return Yes;
        }
        ibeg, iend, qbeg, qend := beg + 1, pos - 1, beg, pos;
      } else {
        var e := ParseWord(text, pos);
        if e == None {
          return Error;
        }
        ibeg, qbeg := pos, pos;
        iend, qend := e.value, e.value;
        pos := e.value;
      }
      FinishItem();
      return Yes;
    }

    /** The end of parse(). */
    method FinishItem()
      requires Valid()
      modifies this`pos
      ensures Valid() && pos == Finish(text, old(pos))
    {
      SkipUntilItem();
      if pos != |text| && text[pos] == ';' {
        pos := pos + 1;
      }
    }

    /** count(). */
    method Count() returns (n: Option<nat>)
      requires Valid()
      modifies this
      ensures Valid() && n == CountFrom(text, old(pos))
    {
      hide ParseAt;
      var ret: nat := 0;
      ghost var total := CountFrom(text, pos);
      while true
        invariant Valid()
        invariant var m := CountFrom(text, pos); total == if m == None then None else Some(ret + m.value)
        decreases |text| - pos
      {
        NothingAtEnd(text);
        var a := Parse();
        if a == Error {
          return None;
        }
        if a == No {
          return Some(ret);
        }
        ret := ret + 1;
      }
    }

    /** get_item(), for the item last found. */
    method GetItem() returns (v: string)
      requires Valid()
      ensures v == ValueOf(ItemAt(text, Last()))
    {
      if qbeg != qend && text[qbeg] == '"' {
        v := UnescapeString(text[ibeg..iend]);
      } else {
        v := text[ibeg..iend];
      }
    }
  }

  lemma NothingAtEnd(s: string)
    ensures CountFrom(s, |s|) == Some(0) && Items(s, |s|) == Some([])
  {
  }

  const BLOCK_CHARS := "\"/;()[]"

  lemma {:induction false} NotInBlockChars(s: string, i: nat, j: nat, open: char, depth: nat)
    requires i <= j <= |s| && depth > 0 && Opener(open) && forall k :: i <= k < j ==> s[k] !in BLOCK_CHARS
    ensures BlockEnd(s, i, open, depth) == BlockEnd(s, j, open, depth)
    decreases j - i
  {
    if i < j {
      NotInBlockChars(s, i + 1, j, open, depth);
    }
  }

  /** Items and count() go together. */
  lemma {:induction false} CountsItems(s: string, i: nat)
    requires i <= |s| && Items(s, i).Some?
    ensures CountFrom(s, i) == Some(|Items(s, i).value|)
    decreases |s| - i
  {
    if ParseAt(s, i).Found? {
      CountsItems(s, ParseAt(s, i).pos);
    }
  }

  // ---- what is passed over ----

  /** From `i` up to `j` there are only white space and whole comments. */
  predicate OnlyBlank(s: string, i: nat, j: nat)
    requires i <= |s|
    decreases |s| - i
  {
    i == j || (i < |s| && White(s[i]) && OnlyBlank(s, i + 1, j))
           || (Comment(s, i) && OnlyBlank(s, LineEnd(s, i + 2), j))
  }

  /** skip_until_item stops exactly at the first place behind these where neither begins. */
  lemma {:induction false} SkipExactly(s: string, i: nat, j: nat)
    requires i <= |s|
    ensures Skip(s, i) == j <==> OnlyBlank(s, i, j) && j <= |s| && (j < |s| ==> !White(s[j]) && !Comment(s, j))
    decreases |s| - i
  {
    hide LineEnd;
    if i < |s| && White(s[i]) {
      SkipExactly(s, i + 1, j);
    } else if Comment(s, i) {
      SkipExactly(s, LineEnd(s, i + 2), j);
    }
  }

  // ---- what a block is ----

  /** Past the string, the comment or the character at `i`; nothing if it is a string without an end. */
  function Over(s: string, i: nat): (r: Option<nat>)
    requires i < |s|
    ensures r.Some? ==> i < r.value <= |s|
  {
    if s[i] == '"' then StringEnd(s, i + 1)
    else if Comment(s, i) then Some(LineEnd(s, i + 2))
    else Some(i + 1)
  }

  /** `k` is a place outside of strings and comments, if `i` is one. */
  predicate Outside(s: string, i: nat, k: nat)
    requires i <= |s|
    decreases |s| - i
  {
    i == k || (i < |s| && Over(s, i).Some? && Outside(s, Over(s, i).value, k))
  }

  /** The brackets that are opened from `i` up to `k`, less those that are closed, outside of strings and
      comments. */
  function Balance(s: string, i: nat, k: nat, open: char): int
    requires i <= |s| && Outside(s, i, k)
    decreases |s| - i
  {
    if i == k then 0
    else Weight(s[i], open) + Balance(s, Over(s, i).value, k, open)
  }

  function Weight(c: char, open: char): int { if c == open then 1 else if c == CloserOf(open) then -1 else 0 }

  /** With `depth` brackets open at `i`, as many are closed as are open at `k`. */
  predicate AllClosed(s: string, i: nat, k: nat, open: char, depth: nat)
    requires i <= |s|
  {
    Outside(s, i, k) && depth + Balance(s, i, k, open) == 0
  }

  lemma {:induction false} OutsideBounds(s: string, i: nat, k: nat)
    requires i <= |s| && Outside(s, i, k)
    ensures i <= k <= |s|
    decreases |s| - i
  {
    if i != k {
      OutsideBounds(s, Over(s, i).value, k);
    }
  }

  /** A block ends just past the first closer at which all brackets of its kind are closed; it is unclosed
      if there is none up to the end of the text; and a string without an end is reported if it comes
      before. */
  lemma BlockEndExactly(s: string, i: nat, open: char, depth: nat, k: nat)
    requires i <= |s| && depth > 0 && Opener(open)
    ensures BlockEnd(s, i, open, depth) == Closed(k) <==>
            AllClosed(s, i, k, open, depth) && forall m :: i <= m < k ==> !AllClosed(s, i, m, open, depth)
    ensures BlockEnd(s, i, open, depth).Unclosed? <==>
            Outside(s, i, |s|) && forall m: nat :: !AllClosed(s, i, m, open, depth)
    ensures BlockEnd(s, i, open, depth).BadString? <==>
            !Outside(s, i, |s|) && forall m: nat :: !AllClosed(s, i, m, open, depth)
    ensures BlockEnd(s, i, open, depth) == Closed(k) ==> k > i && s[k - 1] == CloserOf(open)
  {
    hide BlockEnd, Outside, Balance;
    BlockEndIs(s, i, open, depth);
    if BlockEnd(s, i, open, depth).Closed? {
      var e := BlockEnd(s, i, open, depth).end;
      assert AllClosed(s, i, e, open, depth);
      if AllClosed(s, i, k, open, depth) {
        OutsideBounds(s, i, k);
      }
    } else {
      forall m: nat ensures !AllClosed(s, i, m, open, depth) {
        if AllClosed(s, i, m, open, depth) {
          OutsideBounds(s, i, m);
        }
      }
    }
  }

  /** What each answer says of every place. */
  ghost predicate AnswerRight(s: string, i: nat, open: char, depth: nat)
    requires i <= |s| && depth > 0
  {
    match BlockEnd(s, i, open, depth)
    case Closed(e) =>
      && AllClosed(s, i, e, open, depth) && s[e - 1] == CloserOf(open)
      && forall m :: i <= m < e ==> !AllClosed(s, i, m, open, depth)
    case Unclosed => Outside(s, i, |s|) && forall m :: i <= m <= |s| ==> !AllClosed(s, i, m, open, depth)
    case BadString => !Outside(s, i, |s|) && forall m :: i <= m <= |s| ==> !AllClosed(s, i, m, open, depth)
  }

  lemma {:induction false} BlockEndIs(s: string, i: nat, open: char, depth: nat)
    requires i <= |s| && depth > 0 && Opener(open)
    ensures AnswerRight(s, i, open, depth)
    decreases |s| - i
  {
    hide BlockEnd, Outside, Balance, AllClosed, Over;
    NotYet(s, i, open, depth);
    if i == |s| || Over(s, i) == None {
      BlockEndStop(s, i, open, depth);
    } else {
      var j := Over(s, i).value;
      var d := depth + Weight(s[i], open);
      BlockEndStep(s, i, open, depth);
      if d > 0 {
        BlockEndIs(s, j, open, d);
      } else {
        ZeroClosed(s, j, open);
      }
      forall m: nat | m != i
        ensures AllClosed(s, i, m, open, depth) <==> AllClosed(s, j, m, open, d)
        ensures AllClosed(s, j, m, open, d) ==> j <= m
      {
        ClosedStep(s, i, m, open, depth);
      }
      OutsideStep(s, i, |s|);
    }
  }

  lemma NotYet(s: string, i: nat, open: char, depth: nat)
    requires i <= |s| && depth > 0
    ensures !AllClosed(s, i, i, open, depth) && Outside(s, |s|, |s|)
  {
  }

  lemma ZeroClosed(s: string, j: nat, open: char)
    requires j <= |s|
    ensures AllClosed(s, j, j, open, 0)
  {
  }

  lemma BlockEndStep(s: string, i: nat, open: char, depth: nat)
    requires i < |s| && depth > 0 && Opener(open) && Over(s, i).Some?
    ensures var j, d := Over(s, i).value, depth + Weight(s[i], open);
            if d == 0 then BlockEnd(s, i, open, depth) == Closed(j) && j == i + 1 && s[i] == CloserOf(open)
            else d > 0 && BlockEnd(s, i, open, depth) == BlockEnd(s, j, open, d)
  {
    if Comment(s, i) {
      assert LineEnd(s, i + 1) == LineEnd(s, i + 2);
    }
  }

  lemma BlockEndStop(s: string, i: nat, open: char, depth: nat)
    requires i <= |s| && depth > 0 && (i < |s| ==> Over(s, i) == None)
    ensures AnswerRight(s, i, open, depth)
  {
  }

  lemma ClosedStep(s: string, i: nat, m: nat, open: char, depth: nat)
    requires i < |s| && Over(s, i).Some? && m != i && depth + Weight(s[i], open) >= 0
    ensures var j, d := Over(s, i).value, depth + Weight(s[i], open);
            && (AllClosed(s, i, m, open, depth) <==> AllClosed(s, j, m, open, d))
            && (AllClosed(s, j, m, open, d) ==> j <= m)
  {
    hide Over;
    var j := Over(s, i).value;
    if Outside(s, j, m) {
      OutsideBounds(s, j, m);
    }
  }

  lemma OutsideStep(s: string, i: nat, m: nat)
    requires i < |s| && Over(s, i).Some? && m != i
    ensures Outside(s, i, m) <==> Outside(s, Over(s, i).value, m)
  {
    hide Over;
  }
}
