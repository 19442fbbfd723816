/** The two scanners that the compiler, the list parser and the block filter share: parse_string and
    parse_word (src/cs_parser.cc). Positions are indices into the text. */
module Scan {
  import opened Syntax

  predicate Newline(c: char) { c == '\r' || c == '\n' }

  predicate White(c: char) { c == ' ' || c == '\t' || Newline(c) }

  /** Just past the line break at `i`; a carriage return and a newline are one. */
  function AfterNewline(s: string, i: nat): (j: nat)
    requires i < |s|
    ensures i < j <= |s|
  {
    if s[i] == '\r' && i + 1 < |s| && s[i + 1] == '\n' then i + 2 else i + 1
  }

  /** `s` holds the text `q` at `a`. */
  predicate Holds(s: string, a: nat, q: string) {
    a + |q| <= |s| && s[a..a + |q|] == q
  }

  lemma HoldsAt(s: string, a: nat, q: string)
    requires a + |q| <= |s| && forall k :: 0 <= k < |q| ==> s[a + k] == q[k]
    ensures Holds(s, a, q)
  {
    assert forall k :: 0 <= k < |q| ==> s[a..a + |q|][k] == q[k];
  }

  lemma HoldsChar(s: string, a: nat, q: string, k: nat)
    requires Holds(s, a, q) && k < |q|
    ensures s[a + k] == q[k]
  {
    assert s[a..a + |q|][k] == q[k];
  }

  // ---- strings ----

  /** Where the string ends whose text goes on at `i`, or nothing if it is unfinished. */
  function StringEnd(s: string, i: nat): (r: Option<nat>)
    requires i <= |s|
    ensures r.Some? ==> i < r.value <= |s| && s[r.value - 1] == '"'
    decreases |s| - i
  {
    if i == |s| then None
    else if s[i] == '"' then Some(i + 1)
    else if Newline(s[i]) then None
    else if s[i] == '^' || s[i] == '\\' then
      if i + 1 == |s| then None
      else if Newline(s[i + 1]) then StringEnd(s, AfterNewline(s, i + 1))
      else if s[i] == '^' then StringEnd(s, i + 2)
      else if s[i + 1] == '"' then Some(i + 2)
      else None
    else StringEnd(s, i + 1)
  }

  /** Line breaks from `i` up to `j`. */
  function Breaks(s: string, i: nat, j: nat): nat
    requires j <= |s|
    decreases j - i
  {
    if i >= j then 0
    else if Newline(s[i]) then 1 + Breaks(s, AfterNewline(s, i), j)
    else Breaks(s, i + 1, j)
  }

  /** parse_string: also counts the lines of the string. */
  method ParseString(s: string, start: nat) returns (r: Option<nat>, nlines: nat)
    requires start <= |s|
    ensures !(start < |s| && s[start] == '"') ==> r == Some(start) && nlines == 0
    ensures start < |s| && s[start] == '"' ==>
              r == StringEnd(s, start + 1) && (r.Some? ==> nlines == 1 + Breaks(s, start, r.value))
  {
    if start == |s| || s[start] != '"' {
      return Some(start), 0;
    }
    ghost var end := StringEnd(s, start + 1);
    var beg := start + 1;
    nlines := 1;
    while beg != |s|
      invariant beg <= |s| && StringEnd(s, beg) == end
      invariant end.Some? ==> nlines + Breaks(s, beg, end.value) == 1 + Breaks(s, start, end.value)
      decreases |s| - beg
    {
      var c := s[beg];
      if Newline(c) || c == '"' {
        break;
      }
      if c == '^' || c == '\\' {
        beg := beg + 1;
        if beg == |s| {
          return None, nlines;
        }
        if Newline(s[beg]) {
          nlines := nlines + 1;
          if s[beg] == '\r' && beg + 1 != |s| && s[beg + 1] == '\n' {
            beg := beg + 1;
          }
        } else if c == '\\' {
          assert beg + 1 <= |s| && Breaks(s, beg + 1, beg + 1) == 0;
          return if s[beg] == '"' then Some(beg + 1) else None, nlines;
        }
      }
      beg := beg + 1;
    }
    r := if beg == |s| || s[beg] != '"' then None else Some(beg + 1);
  }

  // ---- what a string is ----

  predicate PlainChar(c: char) { c != '"' && c != '^' && c != '\\' && !Newline(c) }

  /** From `i` on, `n` characters are one that stands for itself, a caret and what it is before, or a caret
      or a backslash and the line break behind it. */
  predicate Piece(s: string, i: nat, n: nat) {
    i + n <= |s| &&
    if n == 1 then PlainChar(s[i])
    else if n == 2 then
      || (s[i] == '^' && !Newline(s[i + 1]))
      || ((s[i] == '^' || s[i] == '\\') && Newline(s[i + 1])
          && !(s[i + 1] == '\r' && i + 2 < |s| && s[i + 2] == '\n'))
    else n == 3 && (s[i] == '^' || s[i] == '\\') && s[i + 1] == '\r' && s[i + 2] == '\n'
  }

  ghost predicate Pieces(s: string, i: nat, k: nat)
    decreases k - i
  {
    i == k || exists n | 1 <= n <= 3 && i + n <= k :: Piece(s, i, n) && Pieces(s, i + n, k)
  }

  /** Text that goes on from `i` is a string up to `k`: pieces and a quote; a backslash may stand before the
      quote, which then ends the string nevertheless. */
  ghost predicate IsString(s: string, i: nat, k: nat) {
    && i < k <= |s| && s[k - 1] == '"'
    && (Pieces(s, i, k - 1) || (i + 2 <= k && s[k - 2] == '\\' && Pieces(s, i, k - 2)))
  }

  /** parse_string accepts exactly these, and reports an unfinished string if there is none. */
  lemma StringEndExactly(s: string, i: nat, k: nat)
    requires i <= |s|
    ensures StringEnd(s, i) == Some(k) <==> IsString(s, i, k)
    ensures StringEnd(s, i) == None <==> forall m: nat :: !IsString(s, i, m)
  {
    hide StringEnd, IsString;
    if StringEnd(s, i).Some? {
      EndIsString(s, i);
      assert IsString(s, i, StringEnd(s, i).value);
    }
    forall m: nat | IsString(s, i, m) ensures StringEnd(s, i) == Some(m) {
      StringHasEnd(s, i, m);
    }
  }

  lemma {:induction false} EndIsString(s: string, i: nat)
    requires i <= |s| && StringEnd(s, i).Some?
    ensures IsString(s, i, StringEnd(s, i).value)
    decreases |s| - i
  {
    hide Piece;
    var k := StringEnd(s, i).value;
    var j := StringNext(s, i);
    if j < k {
      EndIsString(s, j);
      NextIsPiece(s, i);
      PieceBefore(s, i, j - i, k);
    }
  }

  lemma NextIsPiece(s: string, i: nat)
    requires i <= |s| && StringEnd(s, i).Some? && StringNext(s, i) < StringEnd(s, i).value
    ensures var n := StringNext(s, i) - i; 1 <= n <= 3 && Piece(s, i, n)
  {
  }

  lemma PieceBefore(s: string, i: nat, n: nat, k: nat)
    requires 1 <= n <= 3 && Piece(s, i, n) && IsString(s, i + n, k)
    ensures IsString(s, i, k)
  {
    hide Piece;
  }

  lemma {:induction false} StringHasEnd(s: string, i: nat, k: nat)
    requires i <= |s| && IsString(s, i, k)
    ensures StringEnd(s, i) == Some(k)
    decreases k - i
  {
    if s[i] == '"' {
      NoPiece(s, i);
    } else if s[i] == '\\' && i + 2 == k {
    } else {
      var n := FirstPiece(s, i, k);
      StringHasEnd(s, i + n, k);
    }
  }

  lemma NoPiece(s: string, i: nat)
    requires i < |s| && s[i] == '"'
    ensures forall n :: 1 <= n <= 3 ==> !Piece(s, i, n)
  {
  }

  lemma FirstPiece(s: string, i: nat, k: nat) returns (n: nat)
    requires IsString(s, i, k) && s[i] != '"' && !(s[i] == '\\' && i + 2 == k)
    ensures 1 <= n <= 3 && i + n < k && Piece(s, i, n) && IsString(s, i + n, k)
  {
    hide Piece;
    if Pieces(s, i, k - 1) {
      n :| 1 <= n <= 3 && i + n <= k - 1 && Piece(s, i, n) && Pieces(s, i + n, k - 1);
    } else {
      n :| 1 <= n <= 3 && i + n <= k - 2 && Piece(s, i, n) && Pieces(s, i + n, k - 2);
    }
  }

  /** The line breaks from `i` up to `j`, counted from the end: line feeds behind a carriage return do not
      count again. */
  function LineBreaks(s: string, i: nat, j: nat): nat
    requires i <= j <= |s|
  {
    if i == j then 0
    else LineBreaks(s, i, j - 1) +
         if s[j - 1] == '\r' || (s[j - 1] == '\n' && !(j - 1 > i && s[j - 2] == '\r')) then 1 else 0
  }

  lemma {:induction false} BreaksCounted(s: string, i: nat, j: nat)
    requires i <= j <= |s|
    ensures Breaks(s, i, j) == LineBreaks(s, i, j)
    decreases j - i
  {
    if i < j {
      var m := if Newline(s[i]) then AfterNewline(s, i) else i + 1;
      if m <= j {
        BreaksCounted(s, m, j);
        BreaksJoin(s, i, m, j);
      }
    }
  }

  lemma {:induction false} BreaksJoin(s: string, i: nat, m: nat, j: nat)
    requires i < m <= j <= |s| && m == if Newline(s[i]) then AfterNewline(s, i) else i + 1
    ensures LineBreaks(s, i, j) == LineBreaks(s, m, j) + if Newline(s[i]) then 1 else 0
    decreases j - m
  {
    if m < j {
      BreaksJoin(s, i, m, j - 1);
      assert j - 1 == m && s[m] == '\n' ==> s[m - 1] != '\r';
    } else {
      assert LineBreaks(s, i, i + 1) == if Newline(s[i]) then 1 else 0;
      assert LineBreaks(s, j, j) == 0;
    }
  }

  /** A finished string is one wherever its text stands. */
  lemma {:induction false} StringMoves(s: string, i: nat, t: string, a: nat)
    requires i <= |s| && StringEnd(s, i).Some? && Holds(t, a, s[i..StringEnd(s, i).value])
    ensures StringEnd(t, a) == Some(a + StringEnd(s, i).value - i)
    decreases |s| - i
  {
    hide Holds, StringEnd;
    StringStepMoves(s, i, t, a);
    var k := StringEnd(s, i).value;
    var j := StringNext(s, i);
    if j < k {
      HoldsRest(t, a, s, i, j, k);
      StringMoves(s, j, t, a + (j - i));
    }
  }

  lemma StringStepMoves(s: string, i: nat, t: string, a: nat)
    requires i <= |s| && StringEnd(s, i).Some? && Holds(t, a, s[i..StringEnd(s, i).value])
    ensures var j := StringNext(s, i);
            var k := StringEnd(s, i).value;
            && a + (j - i) <= |t|
            && StringEnd(t, a) == if j < k then StringEnd(t, a + (j - i)) else Some(a + (j - i))
  {
    hide Holds;
    var k := StringEnd(s, i).value;
    HoldsBound(t, a, s[i..k]);
    HoldsChar(t, a, s[i..k], 0);
    if i + 1 < k {
      HoldsChar(t, a, s[i..k], 1);
    }
    if i + 2 < k {
      HoldsChar(t, a, s[i..k], 2);
    }
  }

  lemma HoldsBound(s: string, a: nat, q: string)
    requires Holds(s, a, q)
    ensures a + |q| <= |s|
  {
  }

  lemma HoldsRest(t: string, a: nat, s: string, i: nat, j: nat, k: nat)
    requires i <= j <= k <= |s| && Holds(t, a, s[i..k])
    ensures Holds(t, a + (j - i), s[j..k])
  {
    forall m | 0 <= m < k - j ensures t[a + (j - i) + m] == s[j..k][m] {
      HoldsChar(t, a, s[i..k], j - i + m);
    }
    HoldsAt(t, a + (j - i), s[j..k]);
  }

  /** The place from which the scan goes on after the character or pair at `i`, or its end. */
  function StringNext(s: string, i: nat): (j: nat)
    requires i <= |s| && StringEnd(s, i).Some?
    ensures i < j <= StringEnd(s, i).value
    ensures j < StringEnd(s, i).value ==> StringEnd(s, j) == StringEnd(s, i)
  {
    if s[i] == '"' then i + 1
    else if s[i] == '^' || s[i] == '\\' then (if Newline(s[i + 1]) then AfterNewline(s, i + 1) else i + 2)
    else i + 1
  }

  // ---- words ----

  predicate Comment(s: string, i: nat) { i + 1 < |s| && s[i] == '/' && s[i + 1] == '/' }

  predicate Closer(c: char) { c == ']' || c == ')' }

  predicate Delimiter(c: char) { c == '"' || c == ';' || White(c) }

  function CloserOf(c: char): char { if c == '[' then ']' else ')' }

  /** Where the word at `i` ends, or nothing if a bracket in it is not closed. */
  function WordEnd(s: string, i: nat): (r: Option<nat>)
    requires i <= |s|
    ensures r.Some? ==> i <= r.value <= |s|
    decreases |s| - i
  {
    if i == |s| || Delimiter(s[i]) || Closer(s[i]) || Comment(s, i) then Some(i)
    else if s[i] == '[' || s[i] == '(' then
      var j := WordEnd(s, i + 1);
      if j == None || j.value == |s| || s[j.value] != CloserOf(s[i]) then None else WordEnd(s, j.value + 1)
    else WordEnd(s, i + 1)
  }

  method FindFirstOf(s: string, start: nat, chars: string) returns (it: nat)
    requires start <= |s|
    ensures start <= it <= |s| && (it < |s| ==> s[it] in chars)
    ensures forall k :: start <= k < it ==> s[k] !in chars
  {
    it := start;
    while it != |s| && s[it] !in chars
      invariant start <= it <= |s| && forall k :: start <= k < it ==> s[k] !in chars
    {
      it := it + 1;
    }
  }

  const WORD_CHARS := "\"/;()[] \t\r\n"

  lemma {:induction false} NotInWordChars(s: string, i: nat, j: nat)
    requires i <= j <= |s| && forall k :: i <= k < j ==> s[k] !in WORD_CHARS
    ensures WordEnd(s, i) == WordEnd(s, j)
    decreases j - i
  {
    if i < j {
      WordCharsAre(s[i]);
      NotInWordChars(s, i + 1, j);
    }
  }

  lemma WordCharsAre(c: char)
    ensures c in WORD_CHARS <==> Delimiter(c) || Closer(c) || c == '[' || c == '(' || c == '/'
  {
    assert WORD_CHARS == ['"', '/', ';', '(', ')', '[', ']', ' ', '\t', '\r', '\n'];
  }

  /** parse_word. */
  method ParseWord(s: string, start: nat) returns (r: Option<nat>)
    requires start <= |s|
    ensures r == WordEnd(s, start)
    decreases |s| - start
  {
    var it := start;
    while it != |s|
      invariant start <= it <= |s| && WordEnd(s, it) == WordEnd(s, start)
      decreases |s| - it
    {
      var from := it;
      it := FindFirstOf(s, it, WORD_CHARS);
      NotInWordChars(s, from, it);
      if it == |s| {
        return Some(it);
      }
      var c := s[it];
      WordCharsAre(c);
      if Delimiter(c) || Closer(c) {
        return Some(it);
      }
      if c == '/' {
        if |s| - it > 1 && s[it + 1] == '/' {
          return Some(it);
        }
      } else {
        var inner := ParseWord(s, it + 1);
        if inner == None || inner.value == |s| || s[inner.value] != CloserOf(c) {
          return None;
        }
        it := inner.value;
      }
      it := it + 1;
    }
    return Some(it);
  }

  // ---- what a word is ----

  /** Reading `s` from `i` to `k` with the closers still expected on a stack: the stack afterwards, or
      nothing if a closer does not fit. */
  function Nest(s: string, i: nat, k: nat, st: seq<char>): Option<seq<char>>
    requires k <= |s|
    decreases k - i
  {
    if i >= k then Some(st)
    else if s[i] == '[' || s[i] == '(' then Nest(s, i + 1, k, st + [CloserOf(s[i])])
    else if Closer(s[i]) then
      if st == [] || st[|st| - 1] != s[i] then None else Nest(s, i + 1, k, st[..|st| - 1])
    else Nest(s, i + 1, k, st)
  }

  /** No quote, `;`, white space or comment begins from `i` up to `k`. */
  predicate Allowed(s: string, i: nat, k: nat)
    requires k <= |s|
  {
    forall j :: i <= j < k ==> !Delimiter(s[j]) && !Comment(s, j)
  }

  predicate Stops(s: string, k: nat) {
    k == |s| || (k < |s| && (Delimiter(s[k]) || Closer(s[k]) || Comment(s, k)))
  }

  /** From `i` to `k` there is a word: its brackets of both kinds are properly nested. */
  predicate IsWord(s: string, i: nat, k: nat) {
    i <= k <= |s| && Allowed(s, i, k) && Nest(s, i, k, []) == Some([])
  }

  lemma {:induction false} NestJoin(s: string, i: nat, j: nat, k: nat, st: seq<char>)
    requires i <= j <= k <= |s| && Nest(s, i, j, st).Some?
    ensures Nest(s, i, k, st) == Nest(s, j, k, Nest(s, i, j, st).value)
    decreases j - i
  {
    if i < j {
      if s[i] == '[' || s[i] == '(' {
        NestJoin(s, i + 1, j, k, st + [CloserOf(s[i])]);
      } else if Closer(s[i]) {
        NestJoin(s, i + 1, j, k, st[..|st| - 1]);
      } else {
        NestJoin(s, i + 1, j, k, st);
      }
    }
  }

  /** What parse_word passes over is properly nested, whatever is open before it. */
  lemma {:induction false} WordEndNests(s: string, i: nat, st: seq<char>)
    requires i <= |s| && WordEnd(s, i).Some?
    ensures var k := WordEnd(s, i).value;
            Allowed(s, i, k) && Nest(s, i, k, st) == Some(st) && Stops(s, k)
    decreases |s| - i
  {
    if i == |s| || Delimiter(s[i]) || Closer(s[i]) || Comment(s, i) {
    } else if s[i] == '[' || s[i] == '(' {
      var j := WordEnd(s, i + 1).value;
      WordEndNests(s, i + 1, st + [CloserOf(s[i])]);
      WordEndNests(s, j + 1, st);
      BracketNests(s, i, j, WordEnd(s, j + 1).value, st);
    } else {
      WordEndNests(s, i + 1, st);
    }
  }

  lemma BracketNests(s: string, i: nat, j: nat, k: nat, st: seq<char>)
    requires i < j < k <= |s| && (s[i] == '[' || s[i] == '(') && s[j] == CloserOf(s[i])
    requires Nest(s, i + 1, j, st + [CloserOf(s[i])]) == Some(st + [CloserOf(s[i])])
    ensures Nest(s, i, k, st) == Nest(s, j + 1, k, st)
  {
    var st' := st + [CloserOf(s[i])];
    NestJoin(s, i + 1, j, k, st');
    assert st'[..|st|] == st;
  }

  /** Conversely, wherever nested text stops, parse_word stops or has found the closer it was called
      for. */
  lemma {:induction false} NestedEnds(s: string, i: nat, k: nat, st: seq<char>)
    requires i <= k <= |s| && Allowed(s, i, k) && Nest(s, i, k, st) == Some([]) && Stops(s, k)
    ensures var r := WordEnd(s, i);
            && r.Some? && r.value <= k && Nest(s, r.value, k, st) == Some([])
            && (if st == [] then r.value == k else r.value < k && s[r.value] == st[|st| - 1])
    decreases k - i
  {
    if i < k {
      if s[i] == '[' || s[i] == '(' {
        var st' := st + [CloserOf(s[i])];
        NestedEnds(s, i + 1, k, st');
        var j := WordEnd(s, i + 1).value;
        assert st'[..|st|] == st;
        NestedEnds(s, j + 1, k, st);
      } else if Closer(s[i]) {
      } else {
        NestedEnds(s, i + 1, k, st);
      }
    }
  }

  /** parse_word ends exactly at the one place where a word stops, and reports an error if there is no
      such place. */
  lemma WordEndExactly(s: string, i: nat, k: nat)
    requires i <= |s|
    ensures WordEnd(s, i) == Some(k) <==> IsWord(s, i, k) && Stops(s, k)
    ensures WordEnd(s, i) == None <==> forall m: nat :: !(IsWord(s, i, m) && Stops(s, m))
  {
    if WordEnd(s, i).Some? {
      WordEndNests(s, i, []);
      assert IsWord(s, i, WordEnd(s, i).value);
    }
    forall m: nat | IsWord(s, i, m) && Stops(s, m) ensures WordEnd(s, i) == Some(m) {
      NestedEnds(s, i, m, []);
    }
  }

  lemma {:induction false} NestMoves(s: string, i: nat, k: nat, t: string, a: nat, st: seq<char>)
    requires i <= k <= |s| && Holds(t, a, s[i..k])
    ensures Nest(t, a, a + (k - i), st) == Nest(s, i, k, st)
    decreases k - i
  {
    if i < k {
      HoldsChar(t, a, s[i..k], 0);
      HoldsRest(t, a, s, i, i + 1, k);
      if s[i] == '[' || s[i] == '(' {
        NestMoves(s, i + 1, k, t, a + 1, st + [CloserOf(s[i])]);
      } else if Closer(s[i]) {
        if st != [] {
          NestMoves(s, i + 1, k, t, a + 1, st[..|st| - 1]);
        }
      } else {
        NestMoves(s, i + 1, k, t, a + 1, st);
      }
    }
  }

  /** A word is a word wherever its text stands, if the text then ends or goes on with a delimiter or
      a closer. */
  lemma WordMoves(s: string, i: nat, k: nat, t: string, a: nat)
    requires i <= |s| && WordEnd(s, i) == Some(k) && Holds(t, a, s[i..k])
    requires var e := a + (k - i); e == |t| || Delimiter(t[e]) || Closer(t[e])
    ensures WordEnd(t, a) == Some(a + (k - i))
  {
    hide WordEnd, Nest;
    var e := a + (k - i);
    WordEndExactly(s, i, k);
    NestMoves(s, i, k, t, a, []);
    forall j | a <= j < e ensures !Delimiter(t[j]) && !Comment(t, j) {
      HoldsChar(t, a, s[i..k], j - a);
      assert !Delimiter(s[i + (j - a)]) && !Comment(s, i + (j - a));
      if j + 1 < e {
        HoldsChar(t, a, s[i..k], j + 1 - a);
      }
    }
    WordEndExactly(t, a, e);
  }
}
