/** A block can be compiled from its source or, at run time, from the text that is left when the source
    has been filtered. What the parser reads with (skip_comments, parse_word and parse_string in
    src/cs_parser.cc) finds the same in both, if the source is harmless. */
module Sources {
  import opened Words
  import opened Syntax
  import opened Scan
  import opened Filter
  import Lists

  predicate Blank(c: char) { c == ' ' || c == '\t' || c == '\r' }

  /** skip_comments from `i` on; nothing for an invalid line break. After a backslash and a carriage
      return, the code looks for the line feed one character too late. */
  function SkipBlank(s: string, i: nat): (r: Option<nat>)
    requires i <= |s|
    ensures r.Some? ==> i <= r.value <= |s|
    decreases |s| - i
  {
    if i == |s| then Some(i)
    else if Blank(s[i]) then SkipBlank(s, i + 1)
    else if s[i] == '\\' then
      if i + 1 == |s| || !Newline(s[i + 1]) then None
      else SkipBlank(s, if s[i + 1] == '\r' && i + 3 < |s| && s[i + 3] == '\n' then i + 3 else i + 2)
    else if Comment(s, i) then Some(Lists.LineEnd(s, i + 2))
    else Some(i)
  }

  /** Carriage returns stand before line feeds only, and behind a backslash there is neither a carriage
      return nor a comment. */
  predicate Harmless(s: string) {
    && (forall k :: 0 <= k < |s| && s[k] == '\r' ==> k + 1 < |s| && s[k + 1] == '\n')
    && (forall k :: 0 <= k < |s| && s[k] == '\\' ==> !(k + 1 < |s| && s[k + 1] == '\r') && !Comment(s, k + 1))
  }

  /** From `a` on, `t` is what the filter leaves of `s` from `i` on. */
  predicate Tracks(s: Text, i: nat, t: Text, a: nat) {
    i <= |s| && a <= |t| && Filtered(s, i) == Some(t[a..])
  }

  lemma TrackEnd(s: Text, t: Text, a: nat)
    requires Tracks(s, |s|, t, a)
    ensures a == |t|
  {
    Nothing(s);
  }

  lemma TrackReturn(s: Text, i: nat, t: Text, a: nat)
    requires Tracks(s, i, t, a) && i < |s| && s[i] == '\r'
    ensures Tracks(s, i + 1, t, a)
  {
    hide Filtered;
    Unfold(s, i);
  }

  lemma TrackChar(s: Text, i: nat, t: Text, a: nat)
    requires Tracks(s, i, t, a) && i < |s| && s[i] != '\r' && s[i] != '"' && !Comment(s, i)
    ensures a < |t| && t[a] == s[i] && Tracks(s, i + 1, t, a + 1)
  {
    hide Filtered;
    Unfold(s, i);
    var rest := Filtered(s, i + 1).value;
    assert t[a..] == [s[i]] + rest;
    assert t[a..][0] == t[a] && t[a..][1..] == t[a + 1..] && ([s[i]] + rest)[1..] == rest;
  }

  /** Strings and comments that are kept pass through whole. */
  lemma TrackWhole(s: Text, i: nat, j: nat, t: Text, a: nat)
    requires i < j <= |s| && a <= |t| && Prepend(s[i..j], Filtered(s, j)) == Some(t[a..])
    ensures a + (j - i) <= |t| && t[a..a + (j - i)] == s[i..j] && Tracks(s, j, t, a + (j - i))
    ensures t[a] == s[i]
  {
    hide Filtered;
    var q, rest := s[i..j], Filtered(s, j).value;
    assert t[a..] == q + rest;
    assert t[a..][..|q|] == t[a..a + |q|] && t[a..][|q|..] == t[a + |q|..] && (q + rest)[|q|..] == rest;
    assert t[a..][0] == t[a] && (q + rest)[0] == s[i];
  }

  lemma TrackString(s: Text, i: nat, t: Text, a: nat)
    requires Tracks(s, i, t, a) && i < |s| && s[i] == '"'
    ensures StringEnd(s, i + 1).Some? && a < |t| && t[a] == '"'
    ensures var j := StringEnd(s, i + 1).value;
            StringEnd(t, a + 1) == Some(a + (j - i)) && Tracks(s, j, t, a + (j - i))
  {
    hide Filtered, StringEnd, Holds;
    Unfold(s, i);
    var j := StringEnd(s, i + 1).value;
    TrackWhole(s, i, j, t, a);
    HeldBehind(s, i, j, t, a);
    StringMoves(s, i + 1, t, a + 1);
  }

  lemma HeldBehind(s: Text, i: nat, j: nat, t: Text, a: nat)
    requires i < j <= |s| && a + (j - i) <= |t| && t[a..a + (j - i)] == s[i..j]
    ensures Holds(t, a + 1, s[i + 1..j])
  {
    assert t[a + 1..a + 1 + (j - i - 1)] == t[a..a + (j - i)][1..] && s[i + 1..j] == s[i..j][1..];
  }

  /** Where a comment was, the comment is, or its line ends. */
  lemma TrackComment(s: Text, i: nat, t: Text, a: nat)
    requires Tracks(s, i, t, a) && Comment(s, i)
    ensures var j := Lists.LineEnd(s, i + 2);
            if Comment(t, a) then
              Lists.LineEnd(t, a + 2) == a + (j - i) <= |t| && Tracks(s, j, t, a + (j - i))
            else Tracks(s, j, t, a) && (a == |t| || t[a] == '\n')
  {
    hide Filtered, Punctuation;
    Unfold(s, i);
    var j := Lists.LineEnd(s, i + 2);
    if Kept(s, i) {
      TrackWhole(s, i, j, t, a);
      KeptLine(s, i, t, a);
    } else {
      LineEnds(s, j, t, a);
    }
  }

  lemma LineEnds(s: Text, j: nat, t: Text, a: nat)
    requires Tracks(s, j, t, a) && (j < |s| ==> s[j] == '\n')
    ensures a == |t| || t[a] == '\n'
  {
    hide Filtered;
    if j < |s| {
      TrackChar(s, j, t, a);
    } else {
      TrackEnd(s, t, a);
    }
  }

  lemma KeptLine(s: Text, i: nat, t: Text, a: nat)
    requires Comment(s, i)
    requires var j := Lists.LineEnd(s, i + 2);
             a + (j - i) <= |t| && t[a..a + (j - i)] == s[i..j] && Tracks(s, j, t, a + (j - i))
    ensures Comment(t, a) && Lists.LineEnd(t, a + 2) == a + (Lists.LineEnd(s, i + 2) - i)
  {
    hide Filtered, Lists.LineEnd;
    var j := Lists.LineEnd(s, i + 2);
    var e := a + (j - i);
    forall k | a <= k < e ensures t[k] == s[i + (k - a)] {
      assert t[a..e][k - a] == s[i..j][k - a];
    }
    forall k | a + 2 <= k < e ensures t[k] != '\n' {
      LineEndNone(s, i + 2, i + (k - a));
    }
    LineEnds(s, j, t, e);
    LineEndIs(t, a + 2, e);
  }

  /** No comment arises. */
  lemma NoneArises(s: Text, i: nat, t: Text, a: nat)
    requires Harmless(s) && Tracks(s, i, t, a) && i < |s| && s[i] != '\r' && s[i] != '"' && !Comment(s, i)
    ensures !Comment(t, a)
  {
    hide Filtered;
    TrackChar(s, i, t, a);
    if s[i] == '/' && i + 1 < |s| {
      NextIs(s, i + 1, t, a + 1);
    } else if s[i] == '/' {
      TrackEnd(s, t, a + 1);
    }
  }

  /** The next character, if it is not the beginning of a comment; a carriage return is gone. */
  lemma NextIs(s: Text, i: nat, t: Text, a: nat)
    requires Harmless(s) && Tracks(s, i, t, a) && i < |s| && !Comment(s, i)
    ensures a < |t| && t[a] == if s[i] == '\r' then '\n' else s[i]
  {
    hide Filtered;
    if s[i] == '\r' {
      TrackReturn(s, i, t, a);
      TrackChar(s, i + 1, t, a);
    } else if s[i] == '"' {
      TrackString(s, i, t, a);
    } else {
      TrackChar(s, i, t, a);
    }
  }

  /** skip_comments comes to the same place, or fails on both. */
  lemma {:induction false} BlankTracks(s: Text, i: nat, t: Text, a: nat)
    requires Harmless(s) && Tracks(s, i, t, a)
    ensures SkipBlank(s, i) == None <==> SkipBlank(t, a) == None
    ensures SkipBlank(s, i).Some? ==> Tracks(s, SkipBlank(s, i).value, t, SkipBlank(t, a).value)
    decreases |s| - i
  {
    hide Filtered, Tracks, Harmless, StringEnd, Lists.LineEnd;
    TrackBounds(s, i, t, a);
    if i == |s| {
      TrackEnd(s, t, a);
    } else if s[i] == '\r' {
      TrackReturn(s, i, t, a);
      BlankTracks(s, i + 1, t, a);
    } else if s[i] == '"' {
      TrackString(s, i, t, a);
    } else if Comment(s, i) {
      TrackComment(s, i, t, a);
    } else {
      TrackChar(s, i, t, a);
      NoneArises(s, i, t, a);
      if Blank(s[i]) {
        BlankTracks(s, i + 1, t, a + 1);
      } else if s[i] == '\\' {
        BreakTracks(s, i, t, a);
        if i + 1 < |s| && s[i + 1] == '\n' {
          BlankTracks(s, i + 2, t, a + 2);
        }
      }
    }
  }

  lemma TrackBounds(s: Text, i: nat, t: Text, a: nat)
    requires Tracks(s, i, t, a)
    ensures i <= |s| && a <= |t|
  {
  }

  lemma BreakTracks(s: Text, i: nat, t: Text, a: nat)
    requires Harmless(s) && Tracks(s, i + 1, t, a + 1) && i < |s| && s[i] == '\\'
    ensures i + 1 == |s| <==> a + 1 == |t|
    ensures i + 1 < |s| ==> t[a + 1] == s[i + 1] != '\r'
    ensures i + 1 < |s| && s[i + 1] == '\n' ==> Tracks(s, i + 2, t, a + 2)
  {
    hide Filtered;
    if i + 1 < |s| {
      NextIs(s, i + 1, t, a + 1);
      if s[i + 1] == '\n' {
        TrackChar(s, i + 1, t, a + 1);
      }
    } else {
      TrackEnd(s, t, a + 1);
    }
  }

  predicate SameChars(s: Text, i: nat, t: Text, a: nat, n: nat) {
    i + n <= |s| && a + n <= |t| && t[a..a + n] == s[i..i + n]
  }

  ghost predicate WordAgrees(s: Text, i: nat, t: Text, a: nat)
    requires i <= |s| && a <= |t|
  {
    match WordEnd(s, i)
    case None => WordEnd(t, a) == None
    case Some(j) =>
      WordEnd(t, a) == Some(a + (j - i)) && SameChars(s, i, t, a, j - i) && Tracks(s, j, t, a + (j - i))
  }

  /** parse_word reads the same word, or fails on both. */
  lemma {:induction false} WordTracks(s: Text, i: nat, t: Text, a: nat)
    requires Harmless(s) && Tracks(s, i, t, a)
    ensures WordAgrees(s, i, t, a)
    decreases |s| - i, 1
  {
    hide Filtered, Tracks, Harmless, StringEnd, Lists.LineEnd, SameChars;
    TrackBounds(s, i, t, a);
    if i == |s| || Delimiter(s[i]) || Closer(s[i]) || Comment(s, i) {
      StopTracks(s, i, t, a);
      NoChars(s, i, t, a);
    } else {
      TrackChar(s, i, t, a);
      NoneArises(s, i, t, a);
      if s[i] == '[' || s[i] == '(' {
        BracketTracks(s, i, t, a);
      } else {
        WordTracks(s, i + 1, t, a + 1);
        if WordEnd(s, i + 1).Some? {
          OneChar(s, i, t, a);
          MoreChars(s, i, t, a, 1, WordEnd(s, i + 1).value - (i + 1));
        }
      }
    }
  }

  lemma {:induction false} BracketTracks(s: Text, i: nat, t: Text, a: nat)
    requires Harmless(s) && Tracks(s, i + 1, t, a + 1)
    requires i < |s| && a < |t| && t[a] == s[i] && (s[i] == '[' || s[i] == '(')
    ensures WordAgrees(s, i, t, a)
    decreases |s| - i, 0
  {
    hide Filtered, Tracks, Harmless, SameChars, WordEnd;
    BracketEnd(s, i);
    BracketEnd(t, a);
    WordTracks(s, i + 1, t, a + 1);
    if WordEnd(s, i + 1).Some? {
      var j, b := WordEnd(s, i + 1).value, WordEnd(t, a + 1).value;
      CloserTracks(s, i + 1, t, b, CloserOf(s[i]));
      if j < |s| && s[j] == CloserOf(s[i]) {
        WordTracks(s, j + 1, t, b + 1);
        if WordEnd(s, j + 1).Some? {
          BracketChars(s, i, j, t, a, WordEnd(s, j + 1).value - (j + 1));
        }
      }
    }
  }

  /** A bracket in a word. */
  lemma BracketEnd(s: string, i: nat)
    requires i < |s| && (s[i] == '[' || s[i] == '(')
    ensures var j := WordEnd(s, i + 1);
            WordEnd(s, i)
            == if j == None || j.value == |s| || s[j.value] != CloserOf(s[i]) then None else WordEnd(s, j.value + 1)
  {
  }

  lemma BracketChars(s: Text, i: nat, j: nat, t: Text, a: nat, n: nat)
    requires i < j < |s| && a + (j - i) < |t| && t[a] == s[i] && t[a + (j - i)] == s[j]
    requires SameChars(s, i + 1, t, a + 1, j - (i + 1)) && SameChars(s, j + 1, t, a + (j + 1 - i), n)
    ensures SameChars(s, i, t, a, j + 1 + n - i)
  {
    hide SameChars;
    OneChar(s, i, t, a);
    MoreChars(s, i, t, a, 1, j - (i + 1));
    OneChar(s, j, t, a + (j - i));
    MoreChars(s, i, t, a, j - i, 1);
    MoreChars(s, i, t, a, j + 1 - i, n);
  }

  lemma NoChars(s: Text, i: nat, t: Text, a: nat)
    requires i <= |s| && a <= |t|
    ensures SameChars(s, i, t, a, 0)
  {
  }

  lemma OneChar(s: Text, i: nat, t: Text, a: nat)
    requires i < |s| && a < |t| && t[a] == s[i]
    ensures SameChars(s, i, t, a, 1)
  {
  }

  lemma MoreChars(s: Text, i: nat, t: Text, a: nat, m: nat, n: nat)
    requires SameChars(s, i, t, a, m) && SameChars(s, i + m, t, a + m, n)
    ensures SameChars(s, i, t, a, m + n)
  {
    assert t[a..a + (m + n)] == t[a..a + m] + t[a + m..a + m + n];
    assert s[i..i + (m + n)] == s[i..i + m] + s[i + m..i + m + n];
  }

  /** Where a word stops, it stops. */
  lemma StopTracks(s: Text, i: nat, t: Text, a: nat)
    requires Harmless(s) && Tracks(s, i, t, a)
    requires i == |s| || Delimiter(s[i]) || Closer(s[i]) || Comment(s, i)
    ensures a == |t| || Delimiter(t[a]) || Closer(t[a]) || Comment(t, a)
  {
    hide Filtered, Lists.LineEnd;
    if i == |s| {
      TrackEnd(s, t, a);
    } else if Comment(s, i) {
      TrackComment(s, i, t, a);
    } else {
      NextIs(s, i, t, a);
    }
  }

  /** A closing bracket behind a word is one in both. */
  lemma CloserTracks(s: Text, i: nat, t: Text, b: nat, c: char)
    requires Harmless(s) && Closer(c) && i <= |s| && WordEnd(s, i).Some? && Tracks(s, WordEnd(s, i).value, t, b)
    ensures var j := WordEnd(s, i).value;
            && (j < |s| && s[j] == c <==> b < |t| && t[b] == c)
            && (j < |s| && s[j] == c ==> Tracks(s, j + 1, t, b + 1))
  {
    hide Filtered, Lists.LineEnd, WordEnd, Nest;
    WordEndNests(s, i, []);
    var j := WordEnd(s, i).value;
    if j == |s| {
      TrackEnd(s, t, b);
    } else if Comment(s, j) {
      TrackComment(s, j, t, b);
    } else {
      NextIs(s, j, t, b);
      if s[j] == c {
        TrackChar(s, j, t, b);
      }
    }
  }

  // ---- blocks within blocks ----

  /** The block that is open at `i` ends at the same place (parse_blockarg, without macros), and the text
      that the filter leaves of its inside is what there is in `t`. */
  ghost predicate BlockAgrees(s: Text, i: nat, t: Text, a: nat, open: char, depth: nat)
    requires i <= |s| && a <= |t| && depth > 0
  {
    match Lists.BlockEnd(s, i, open, depth)
    case BadString => false
    case Unclosed => Lists.BlockEnd(t, a, open, depth) == Lists.Unclosed
    case Closed(k) =>
      var r := Lists.BlockEnd(t, a, open, depth);
      r.Closed? && Tracks(s, k, t, r.end) && Filtered(s[..k - 1], i) == Some(t[a..r.end - 1])
  }

  lemma {:induction false} BlockTracks(s: Text, i: nat, t: Text, a: nat, open: char, depth: nat)
    requires Harmless(s) && Tracks(s, i, t, a) && depth > 0 && Lists.Opener(open)
    ensures BlockAgrees(s, i, t, a, open, depth)
    decreases |s| - i, 1
  {
    hide Filtered, Tracks, Harmless, StringEnd, Lists.LineEnd, Kept, Prepend;
    TrackBounds(s, i, t, a);
    if i == |s| {
      TrackEnd(s, t, a);
    } else if s[i] == '"' {
      StringInBlock(s, i, t, a, open, depth);
    } else if Comment(s, i) {
      CommentInBlock(s, i, t, a, open, depth);
    } else if s[i] == '\r' {
      TrackReturn(s, i, t, a);
      BlockTracks(s, i + 1, t, a, open, depth);
      if Lists.BlockEnd(s, i, open, depth).Closed? {
        InsideReturn(s, i, Lists.BlockEnd(s, i, open, depth).end - 1);
      }
    } else {
      CharInBlock(s, i, t, a, open, depth);
    }
  }

  lemma {:induction false} CharInBlock(s: Text, i: nat, t: Text, a: nat, open: char, depth: nat)
    requires Harmless(s) && Tracks(s, i, t, a) && depth > 0 && Lists.Opener(open)
    requires i < |s| && s[i] != '"' && s[i] != '\r' && !Comment(s, i)
    ensures a <= |t| && BlockAgrees(s, i, t, a, open, depth)
    decreases |s| - i, 0
  {
    hide Filtered, Tracks, Harmless, StringEnd, Lists.LineEnd;
    TrackChar(s, i, t, a);
    NoneArises(s, i, t, a);
    var d := if s[i] == open then depth + 1 else if s[i] == CloserOf(open) then depth - 1 else depth;
    if d > 0 {
      BlockTracks(s, i + 1, t, a + 1, open, d);
      if Lists.BlockEnd(s, i, open, depth).Closed? {
        InsideChar(s, i, Lists.BlockEnd(s, i, open, depth).end - 1, t, a, Lists.BlockEnd(t, a, open, depth).end - 1);
      }
    } else {
      Nothing(s[..i]);
      var none: Text := [];
      assert |s[..i]| == i && t[a..a] == none && s[..(i + 1) - 1] == s[..i];
      assert Lists.BlockEnd(s, i, open, depth) == Lists.Closed(i + 1);
      assert Lists.BlockEnd(t, a, open, depth) == Lists.Closed(a + 1);
    }
  }

  lemma {:induction false} StringInBlock(s: Text, i: nat, t: Text, a: nat, open: char, depth: nat)
    requires Harmless(s) && Tracks(s, i, t, a) && depth > 0 && Lists.Opener(open) && i < |s| && s[i] == '"'
    ensures a <= |t| && BlockAgrees(s, i, t, a, open, depth)
    decreases |s| - i, 0
  {
    hide Filtered, Tracks, Harmless, StringEnd, Lists.LineEnd;
    TrackString(s, i, t, a);
    var j := StringEnd(s, i + 1).value;
    BlockTracks(s, j, t, a + (j - i), open, depth);
    if Lists.BlockEnd(s, i, open, depth).Closed? {
      StringHeld(s, i, t, a);
      InsideString(s, i, Lists.BlockEnd(s, i, open, depth).end - 1, t, a, Lists.BlockEnd(t, a, open, depth).end - 1);
    }
  }

  lemma {:induction false} CommentInBlock(s: Text, i: nat, t: Text, a: nat, open: char, depth: nat)
    requires Harmless(s) && Tracks(s, i, t, a) && depth > 0 && Lists.Opener(open) && Comment(s, i)
    ensures a <= |t| && BlockAgrees(s, i, t, a, open, depth)
    decreases |s| - i, 0
  {
    hide Filtered, Tracks, Harmless, StringEnd, Lists.LineEnd, Kept, Lists.BlockEnd;
    TrackBounds(s, i, t, a);
    TrackComment(s, i, t, a);
    var j := Lists.LineEnd(s, i + 2);
    var b := if Comment(t, a) then a + (j - i) else a;
    BlockTracks(s, j, t, b, open, depth);
    BlockComment(s, i, open, depth);
    if Comment(t, a) {
      BlockComment(t, a, open, depth);
    }
    if Lists.BlockEnd(s, i, open, depth).Closed? {
      InsideComment(s, i, Lists.BlockEnd(s, i, open, depth).end - 1, t, a, b,
                    Lists.BlockEnd(t, a, open, depth).end - 1);
    }
  }

  lemma BlockComment(s: string, i: nat, open: char, depth: nat)
    requires Comment(s, i) && depth > 0
    ensures Lists.BlockEnd(s, i, open, depth) == Lists.BlockEnd(s, Lists.LineEnd(s, i + 2), open, depth)
  {
    assert Lists.LineEnd(s, i + 1) == Lists.LineEnd(s, i + 2);
  }

  lemma InsideReturn(s: Text, i: nat, e: nat)
    requires i < e <= |s| && s[i] == '\r'
    ensures Filtered(s[..e], i) == Filtered(s[..e], i + 1)
  {
    hide Filtered;
    Unfold(s[..e], i);
  }

  lemma InsideChar(s: Text, i: nat, e: nat, t: Text, a: nat, b: nat)
    requires i < e <= |s| && a < b <= |t| && t[a] == s[i] && s[i] != '"' && s[i] != '\r' && !Comment(s, i)
    requires Filtered(s[..e], i + 1) == Some(t[a + 1..b])
    ensures Filtered(s[..e], i) == Some(t[a..b])
  {
    hide Filtered;
    Unfold(s[..e], i);
    assert t[a..b] == [t[a]] + t[a + 1..b];
  }

  lemma StringHeld(s: Text, i: nat, t: Text, a: nat)
    requires Tracks(s, i, t, a) && i < |s| && s[i] == '"'
    ensures StringEnd(s, i + 1).Some?
    ensures var j := StringEnd(s, i + 1).value; a + (j - i) <= |t| && t[a..a + (j - i)] == s[i..j]
  {
    hide Filtered, StringEnd;
    Unfold(s, i);
    TrackWhole(s, i, StringEnd(s, i + 1).value, t, a);
  }

  lemma InsideString(s: Text, i: nat, e: nat, t: Text, a: nat, b: nat)
    requires i < |s| && s[i] == '"' && StringEnd(s, i + 1).Some?
    requires var j := StringEnd(s, i + 1).value;
             && j <= e <= |s| && a + (j - i) <= b <= |t| && t[a..a + (j - i)] == s[i..j]
             && Filtered(s[..e], j) == Some(t[a + (j - i)..b])
    ensures Filtered(s[..e], i) == Some(t[a..b])
  {
    hide Filtered, StringEnd;
    var j := StringEnd(s, i + 1).value;
    assert s[..e][i + 1..j] == s[i + 1..j] && s[..e][i..j] == s[i..j];
    StringMoves(s, i + 1, s[..e], i + 1);
    Unfold(s[..e], i);
    assert t[a..b] == t[a..a + (j - i)] + t[a + (j - i)..b];
  }

  lemma InsideComment(s: Text, i: nat, e: nat, t: Text, a: nat, m: nat, b: nat)
    requires Comment(s, i) && Tracks(s, i, t, a)
    requires var j := Lists.LineEnd(s, i + 2);
             && j <= e <= |s| && (if Comment(t, a) then m == a + (j - i) else m == a) && a <= m <= b <= |t|
             && Filtered(s[..e], j) == Some(t[m..b])
    ensures Filtered(s[..e], i) == Some(t[a..b])
  {
    hide Filtered, Punctuation;
    var j := Lists.LineEnd(s, i + 2);
    forall k | i + 2 <= k < j ensures s[..e][k] != '\n' {
      LineEndNone(s, i + 2, k);
    }
    LineEndIs(s[..e], i + 2, j);
    Unfold(s[..e], i);
    Unfold(s, i);
    LineFeedIsNone();
    if Kept(s, i) {
      TrackWhole(s, i, j, t, a);
      KeptLine(s, i, t, a);
      assert s[..e][i..j] == s[i..j];
      assert t[a..b] == t[a..m] + t[m..b];
    } else {
      LineEnds(s, j, t, a);
    }
  }

  lemma LineFeedIsNone()
    ensures !Punctuation('\n')
  {
  }

  /** A block within the source has the same text as in what is left of the source. */
  lemma NestedText(s: Text, i: nat, t: Text, a: nat, open: char)
    requires Harmless(s) && Tracks(s, i, t, a) && Lists.Opener(open) && Lists.BlockEnd(s, i, open, 1).Closed?
    ensures Lists.BlockEnd(t, a, open, 1).Closed?
    ensures var e, b := Lists.BlockEnd(s, i, open, 1).end - 1, Lists.BlockEnd(t, a, open, 1).end - 1;
            i <= e && a <= b <= |t| && Filtered(s[i..e], 0) == Filtered(t[a..b], 0) == Some(t[a..b])
  {
    hide Filtered, Lists.BlockEnd, Harmless, Tracks, NoSlashReturnSlash;
    BlockTracks(s, i, t, a, open, 1);
    var e, b := Lists.BlockEnd(s, i, open, 1).end - 1, Lists.BlockEnd(t, a, open, 1).end - 1;
    assert s[..e][i..] == s[i..e][0..];
    FilteredMoves(s[..e], i, s[i..e], 0);
    HarmlessInside(s, i, e);
    FilteredTwiceIsOnce(s[i..e]);
  }

  lemma HarmlessInside(s: Text, i: nat, e: nat)
    requires Harmless(s) && i <= e <= |s|
    ensures NoSlashReturnSlash(s[i..e])
  {
    var q := s[i..e];
    forall k, m | 0 <= k < m < |q| && q[k] == '/' && q[m] == '/' && m > k + 1 ensures !OnlyReturns(q, k + 1, m) {
      assert q[k + 1] == s[i + k + 1] && q[k + 2] == s[i + k + 2];
    }
  }

  // ---- sources that are not harmless ----

  lemma Harmful(s: string, k: nat)
    requires k + 1 < |s|
    requires (s[k] == '\r' && s[k + 1] != '\n') || (s[k] == '\\' && (s[k + 1] == '\r' || Comment(s, k + 1)))
    ensures !Harmless(s)
  {
  }

  lemma ReturnDropped(a: Text, b: Text, s: Text, t: Text)
    requires (forall c :: c in a ==> c !in FILTER_CHARS) && (forall c :: c in b ==> c !in FILTER_CHARS)
    requires s == a + ['\r'] + b && t == a + b
    ensures Filtered(s, 0) == Some(t)
  {
    hide Filtered;
    assert s[0..|a|] == a && s[|a| + 1..|s|] == b;
    NotInFilterChars(s, 0, |a|);
    Unfold(s, |a|);
    NotInFilterChars(s, |a| + 1, |s|);
    Nothing(s);
    Regrouped(b, [], Some([]));
  }

  /** A carriage return alone ends a word in the source; in the text that is left the words are one. */
  lemma JoinedWords()
    ensures Filtered("foo\rbar", 0) == Some("foobar") && !Harmless("foo\rbar")
    ensures WordEnd("foo\rbar", 0) == Some(3) && WordEnd("foobar", 0) == Some(6)
  {
    hide Filtered, WordEnd, Harmless;
    var s, t: Text := "foo\rbar", "foobar";
    Harmful(s, 3);
    ReturnDropped("foo", "bar", s, t);
    NotInWordChars(s, 0, 3);
    NotInWordChars(t, 0, 6);
    assert WordEnd(s, 3) == Some(3) && WordEnd(t, 6) == Some(6) by {
      WordStops(s, 3);
      WordStops(t, 6);
    }
  }

  lemma WordStops(s: string, i: nat)
    requires i == |s| || (i < |s| && Delimiter(s[i]))
    ensures WordEnd(s, i) == Some(i)
  {
  }

  /** A line that goes on behind a backslash, with a carriage return and a line feed: in the source the
      line feed is still there and ends the statement; in the text that is left it is passed over. */
  lemma ContinuedLine()
    ensures Filtered("f \\\r\n g", 0) == Some("f \\\n g") && !Harmless("f \\\r\n g")
    ensures SkipBlank("f \\\r\n g", 1) == Some(4) && "f \\\r\n g"[4] == '\n'
    ensures SkipBlank("f \\\n g", 1) == Some(5) && "f \\\n g"[5] == 'g'
  {
    hide Filtered, SkipBlank, Harmless;
    Harmful("f \\\r\n g", 2);
    ReturnDropped("f \\", "\n g", "f \\\r\n g", "f \\\n g");
    ContinuedBlank();
  }

  lemma ContinuedBlank()
    ensures SkipBlank("f \\\r\n g", 1) == Some(4) && SkipBlank("f \\\n g", 1) == Some(5)
  {
    hide SkipBlank;
    var s, t := "f \\\r\n g", "f \\\n g";
    BlankStep(s, 1);
    BlankStep(s, 2);
    BlankStep(s, 4);
    BlankStep(t, 1);
    BlankStep(t, 2);
    BlankStep(t, 4);
    BlankStep(t, 5);
  }

  /** A comment behind a backslash is an error in the source; what is left is a line that goes on. */
  lemma CommentedBreak()
    ensures Filtered("\\//c\n", 0) == Some("\\\n") && !Harmless("\\//c\n")
    ensures SkipBlank("\\//c\n", 0) == None && SkipBlank("\\\n", 0) == Some(2)
  {
    hide Filtered, SkipBlank, Harmless;
    Harmful("\\//c\n", 0);
    var s, t: Text := "\\//c\n", "\\\n";
    NotInFilterChars(s, 0, 1);
    NotInFilterChars(s, 4, 5);
    LineEndIs(s, 3, 4);
    Unfold(s, 1);
    Nothing(s);
    Regrouped(s[4..5], [], Some([]));
    assert s[0..1] + s[4..5] == t;
    BlankStep(s, 0);
    BlankStep(t, 0);
    BlankEnd(t);
  }

  lemma BlankStep(s: string, i: nat)
    requires i < |s|
    ensures Blank(s[i]) ==> SkipBlank(s, i) == SkipBlank(s, i + 1)
    ensures s[i] == '\\' ==>
              SkipBlank(s, i)
              == if i + 1 == |s| || !Newline(s[i + 1]) then None
                 else SkipBlank(s, if s[i + 1] == '\r' && i + 3 < |s| && s[i + 3] == '\n' then i + 3 else i + 2)
    ensures !Blank(s[i]) && s[i] != '\\' && !Comment(s, i) ==> SkipBlank(s, i) == Some(i)
  {
  }

  lemma BlankEnd(s: string)
    ensures SkipBlank(s, |s|) == Some(|s|)
  {
  }
}
