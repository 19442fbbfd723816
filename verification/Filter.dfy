/** The text of a block that is compiled to a string: gen_val_block and gen_str_filter in
    src/cs_gen.cc. */
module Filter {
  import opened Words
  import opened Literals
  import opened Syntax
  import opened Scan
  import Lists

  /** std::ispunct in the C locale. */
  predicate Punctuation(c: char) { '!' <= c <= '/' || ':' <= c <= '@' || '[' <= c <= '`' || '{' <= c <= '~' }

  /** A comment is kept if its slashes are followed by punctuation. */
  predicate Kept(s: Text, i: nat) { i + 2 < |s| && Punctuation(s[i + 2]) }

  function Prepend(a: Text, b: Option<Text>): Option<Text> {
    if b == None then None else Some(a + b.value)
  }

  /** The rest of the text from `i` on without carriage returns and comments; strings and the comments
      that are kept pass through whole. Nothing if a string is unfinished. */
  function Filtered(s: Text, i: nat): (r: Option<Text>)
    requires i <= |s|
    ensures r.Some? ==> |r.value| <= |s| - i
    decreases |s| - i
  {
    if i == |s| then Some([])
    else if s[i] == '\r' then Filtered(s, i + 1)
    else if s[i] == '"' then
      var j := StringEnd(s, i + 1);
      if j == None then None else Prepend(s[i..j.value], Filtered(s, j.value))
    else if Comment(s, i) then
      var j := Lists.LineEnd(s, i + 2);
      if Kept(s, i) then Prepend(s[i..j], Filtered(s, j)) else Filtered(s, j)
    else Prepend([s[i]], Filtered(s, i + 1))
  }

  const FILTER_CHARS := "\r/\"@]"

  lemma {:induction false} NotInFilterChars(s: Text, i: nat, j: nat)
    requires i <= j <= |s| && forall k :: i <= k < j ==> s[k] !in FILTER_CHARS
    ensures Filtered(s, i) == Prepend(s[i..j], Filtered(s, j))
    decreases j - i
  {
    if i < j {
      NotInFilterChars(s, i + 1, j);
      assert s[i..j] == [s[i]] + s[i + 1..j];
      Regrouped([s[i]], s[i + 1..j], Filtered(s, j));
    } else {
      NothingBefore(Filtered(s, j));
      assert s[i..j] == [];
    }
  }

  /** memcpy of `v` from `i` up to `j` to `buf` at `len`. */
  method Copy(buf: array<Byte>, len: nat, v: Text, i: nat, j: nat) returns (len': nat)
    requires i <= j <= |v| && len + (j - i) <= buf.Length
    modifies buf
    ensures len' == len + (j - i) && buf[..len'] == old(buf[..len]) + v[i..j]
  {
    len' := len;
    while len' < len + (j - i)
      invariant len <= len' <= len + (j - i)
      invariant buf[..len'] == old(buf[..len]) + v[i..i + (len' - len)]
    {
      buf[len'] := v[i + (len' - len)];
      len' := len' + 1;
    }
  }

  /** The function that gen_val_block hands to gen_str_filter: it writes to the buffer, which it never
      leaves, and returns the length; or a string is unfinished. */
  method FilterText(v: Text, buf: array<Byte>) returns (r: Option<nat>)
    requires |v| <= buf.Length
    modifies buf
    ensures r == None <==> Filtered(v, 0) == None
    ensures r.Some? ==> r.value <= |v| && buf[..r.value] == Filtered(v, 0).value
  {
    hide Filtered, StringEnd, Breaks, Lists.LineEnd;
    var str, len: nat := 0, 0;
    assert buf[..0] == [];
    Nothing(v);
    while str < |v|
      invariant len <= str <= |v|
      invariant Prepend(buf[..len], Filtered(v, str)) == Filtered(v, 0)
      decreases |v| - str
    {
      var orig := str;
      str := FindFirstOf(v, str, FILTER_CHARS);
      NotInFilterChars(v, orig, str);
      ghost var was := buf[..len];
      len := Copy(buf, len, v, orig, str);
      Regrouped(was, v[orig..str], Filtered(v, str));
      if str == |v| {
        Regrouped(buf[..len], [], Some([]));
        return Some(len);
      }
      Unfold(v, str);
      was := buf[..len];
      var start := str;
      if v[str] == '\r' {
        str := str + 1;
      } else if v[str] == '"' {
        var e, _ := ParseString(v, str);
        if e == None {
          return None;
        }
        str := e.value;
        len := Copy(buf, len, v, start, str);
        Regrouped(was, v[start..str], Filtered(v, str));
      } else if v[str] == '/' && str + 1 != |v| && v[str + 1] == '/' {
        str := FindFirstOf(v, str, ['\n']);
        assert str >= start + 2;
        LineEndIs(v, start + 2, str);
        if start + 2 != |v| && Punctuation(v[start + 2]) {
          len := Copy(buf, len, v, start, str);
          Regrouped(was, v[start..str], Filtered(v, str));
        }
      } else {
        buf[len] := v[str];
        len, str := len + 1, str + 1;
        assert buf[..len] == was + [v[start]];
        Regrouped(was, [v[start]], Filtered(v, str));
      }
    }
    Regrouped(buf[..len], [], Some([]));
    return Some(len);
  }

  lemma PackNext(text: Text, i: nat)
    requires i + 4 <= |text|
    ensures PackBytes(text[i..]) == [OfBits(Pad4(text[i..i + 4]))] + PackBytes(text[i + 4..])
  {
    assert text[i..][..4] == text[i..i + 4] && text[i..][4..] == text[i + 4..];
  }

  /** The bytes of the last word that the length does not cover are zero. */
  lemma PackLast(bs: Text, w: Text)
    requires |bs| < 4 && |w| == 4 && w[..|bs|] == bs && forall k :: |bs| <= k < 4 ==> w[k] == 0 as char
    ensures PackBytes(bs) == [OfBits(Pad4(w))]
  {
    assert forall k :: 0 <= k < |bs| ==> w[k] == w[..|bs|][k];
  }

  /** gen_val_block through gen_str_filter: the buffer has as many words as the text needs, and the code
      is the literal for the filtered text. */
  method GenValBlock(v: Text) returns (r: Option<Code>)
    ensures r == None <==> Filtered(v, 0) == None
    ensures r.Some? ==> r.value == LongString(Filtered(v, 0).value)
  {
    hide Filtered;
    var nwords := |v| / 4 + 1;
    var buf := new Byte[nwords * 4];
    var n := FilterText(v, buf);
    if n == None {
      return None;
    }
    var len := n.value;
    ghost var text := buf[..len];
    for k := len to len + (4 - len % 4)
      invariant buf[..len] == text && forall j :: len <= j < k ==> buf[j] == 0 as char
    {
      buf[k] := 0 as char;
    }
    var words := WordsOf(buf, len);
    return Some([Inst(VAL, RET_STRING, len)] + words);
  }

  /** The words that the first `len` bytes and their padding make up in memory. */
  method WordsOf(buf: array<Byte>, len: nat) returns (ws: Code)
    requires len + (4 - len % 4) <= buf.Length
    requires forall j :: len <= j < len + (4 - len % 4) ==> buf[j] == 0 as char
    ensures ws == PackBytes(buf[..len])
  {
    hide PackBytes, Pad4;
    ghost var text := buf[..len];
    ws := [];
    for k := 0 to len / 4
      invariant ws + PackBytes(text[4 * k..]) == PackBytes(text)
    {
      PackNext(text, 4 * k);
      assert text[4 * k..4 * k + 4] == buf[4 * k..4 * k + 4];
      ws := ws + [OfBits(Pad4(buf[4 * k..4 * k + 4]))];
    }
    var last := 4 * (len / 4);
    PackLast(text[last..], buf[last..last + 4]);
    ws := ws + [OfBits(Pad4(buf[last..last + 4]))];
  }

  lemma Regrouped(a: Text, b: Text, c: Option<Text>)
    ensures Prepend(a, Prepend(b, c)) == Prepend(a + b, c)
    ensures Prepend(a, Some([])) == Some(a)
  {
    if c.Some? {
      assert a + (b + c.value) == a + b + c.value;
    }
    var none: Text := [];
    assert a + none == a;
  }

  lemma Nothing(v: Text)
    ensures Filtered(v, |v|) == Some([]) && Prepend([], Filtered(v, 0)) == Filtered(v, 0)
  {
    NothingBefore(Filtered(v, 0));
  }

  lemma NothingBefore(r: Option<Text>)
    ensures Prepend([], r) == r
  {
    var none: Text := [];
    if r.Some? {
      assert none + r.value == r.value;
    }
  }

  lemma Unfold(s: Text, i: nat)
    requires i < |s|
    ensures s[i] == '\r' ==> Filtered(s, i) == Filtered(s, i + 1)
    ensures s[i] == '"' ==> Filtered(s, i) == var j := StringEnd(s, i + 1);
              if j == None then None else Prepend(s[i..j.value], Filtered(s, j.value))
    ensures Comment(s, i) ==> Filtered(s, i) == var j := Lists.LineEnd(s, i + 2);
              if Kept(s, i) then Prepend(s[i..j], Filtered(s, j)) else Filtered(s, j)
    ensures s[i] != '\r' && s[i] != '"' && !Comment(s, i) ==> Filtered(s, i) == Prepend([s[i]], Filtered(s, i + 1))
  {
  }

  lemma {:induction false} LineEndIs(s: string, i: nat, j: nat)
    requires i <= j <= |s| && (j < |s| ==> s[j] == '\n') && forall k :: i <= k < j ==> s[k] != '\n'
    ensures Lists.LineEnd(s, i) == j
    decreases j - i
  {
    if i < j {
      LineEndIs(s, i + 1, j);
    }
  }

  // ---- filtering twice ----

  lemma LineEndNone(s: string, i: nat, k: nat)
    requires i <= |s| && i <= k < Lists.LineEnd(s, i)
    ensures s[k] != '\n'
    decreases k - i
  {
    if i < k {
      LineEndNone(s, i + 1, k);
    }
  }

  /** What is left begins with the first character that is not a carriage return or a slash. */
  lemma {:induction false} FirstChar(s: Text, i: nat)
    requires i < |s| && s[i] != '\r' && s[i] != '/' && Filtered(s, i).Some?
    ensures Filtered(s, i).value != [] && Filtered(s, i).value[0] == s[i]
  {
    Unfold(s, i);
  }

  /** What the filter leaves whole from `i` on: outside of strings there is no carriage return, and
      every comment is one that is kept. */
  predicate Tidy(s: Text, i: nat)
    requires i <= |s|
    decreases |s| - i
  {
    if i == |s| then true
    else if s[i] == '\r' then false
    else if s[i] == '"' then StringEnd(s, i + 1).Some? && Tidy(s, StringEnd(s, i + 1).value)
    else if Comment(s, i) then Kept(s, i) && Tidy(s, Lists.LineEnd(s, i + 2))
    else Tidy(s, i + 1)
  }

  /** Filtering changes nothing exactly for tidy text; any other text is refused or gets shorter. */
  lemma {:induction false} UnchangedExactly(s: Text, i: nat)
    requires i <= |s|
    ensures Filtered(s, i) == Some(s[i..]) <==> Tidy(s, i)
    ensures !Tidy(s, i) && Filtered(s, i).Some? ==> |Filtered(s, i).value| < |s| - i
    decreases |s| - i
  {
    hide Filtered, StringEnd, Lists.LineEnd, Kept;
    Nothing(s);
    assert |s[i..]| == |s| - i;
    if i < |s| {
      Unfold(s, i);
      if s[i] == '"' {
        if StringEnd(s, i + 1).Some? {
          var j := StringEnd(s, i + 1).value;
          UnchangedExactly(s, j);
          assert s[i..] == s[i..j] + s[j..];
          Prepended(s[i..j], Filtered(s, j), s[j..]);
        }
      } else if Comment(s, i) {
        var j := Lists.LineEnd(s, i + 2);
        UnchangedExactly(s, j);
        assert s[i..] == s[i..j] + s[j..];
        Prepended(s[i..j], Filtered(s, j), s[j..]);
      } else {
        UnchangedExactly(s, i + 1);
        assert s[i..] == [s[i]] + s[i + 1..];
        Prepended([s[i]], Filtered(s, i + 1), s[i + 1..]);
      }
    }
  }

  /** What is left of the rest begins with a slash. */
  predicate BeforeSlash(s: Text, i: nat)
    requires i < |s|
  {
    var o := Filtered(s, i + 1);
    s[i] == '/' && o.Some? && o.value != [] && o.value[0] == '/'
  }

  /** No slash that is copied meets another slash in what the filter leaves of the rest. */
  predicate Seamless(s: Text, i: nat)
    requires i <= |s|
    decreases |s| - i
  {
    if i == |s| then true
    else if s[i] == '"' then StringEnd(s, i + 1).Some? ==> Seamless(s, StringEnd(s, i + 1).value)
    else if Comment(s, i) then Seamless(s, Lists.LineEnd(s, i + 2))
    else (s[i] == '\r' || !BeforeSlash(s, i)) && Seamless(s, i + 1)
  }

  /** If it does, the comment that arises does not begin with punctuation. */
  predicate PlainSeams(s: Text, i: nat)
    requires i <= |s|
    decreases |s| - i
  {
    if i == |s| then true
    else if s[i] == '"' then StringEnd(s, i + 1).Some? ==> PlainSeams(s, StringEnd(s, i + 1).value)
    else if Comment(s, i) then PlainSeams(s, Lists.LineEnd(s, i + 2))
    else
      && (s[i] != '\r' && BeforeSlash(s, i) ==> !Kept(['/'] + Filtered(s, i + 1).value, 0))
      && PlainSeams(s, i + 1)
  }

  /** No slash, one or more carriage returns, slash. */
  predicate NoSlashReturnSlash(s: Text) {
    forall k, m :: 0 <= k < m < |s| && s[k] == '/' && s[m] == '/' && m > k + 1 ==> !OnlyReturns(s, k + 1, m)
  }

  predicate OnlyReturns(s: Text, k: nat, m: nat)
    requires m <= |s|
  {
    forall i :: k <= i < m ==> s[i] == '\r'
  }

  lemma {:induction false} LineEndMoves(s: string, i: nat, t: string, a: nat)
    requires i <= |s| && a <= |t| && t[a..] == s[i..]
    ensures Lists.LineEnd(t, a) - a == Lists.LineEnd(s, i) - i
    decreases |s| - i
  {
    if i < |s| {
      LineEndMoves(s, i + 1, t, a + 1);
    } else {
      assert |t[a..]| == |s[i..]|;
    }
  }

  lemma StringTail(s: string, i: nat, t: string, a: nat)
    requires i <= |s| && a <= |t| && t[a..] == s[i..]
    ensures StringEnd(t, a) == var r := StringEnd(s, i); if r == None then None else Some(a + (r.value - i))
  {
    hide StringEnd, Holds;
    if StringEnd(s, i).Some? {
      TailHolds(s, i, t, a, StringEnd(s, i).value);
      StringMoves(s, i, t, a);
    } else if StringEnd(t, a).Some? {
      TailHolds(t, a, s, i, StringEnd(t, a).value);
      StringMoves(t, a, s, i);
    }
  }

  lemma TailHolds(s: string, i: nat, t: string, a: nat, k: nat)
    requires i <= k <= |s| && a <= |t| && t[a..] == s[i..]
    ensures Holds(t, a, s[i..k])
  {
    assert |t[a..]| == |s[i..]|;
    assert t[a..a + (k - i)] == t[a..][..k - i] && s[i..k] == s[i..][..k - i];
  }

  /** Filtering is about the text that is left only. */
  lemma {:induction false} FilteredMoves(s: Text, i: nat, t: Text, a: nat)
    requires i <= |s| && a <= |t| && t[a..] == s[i..]
    ensures Filtered(t, a) == Filtered(s, i)
    decreases |s| - i
  {
    hide Filtered, StringEnd, Lists.LineEnd, Holds, Kept, Comment, Prepend;
    Nothing(s);
    Nothing(t);
    assert |t[a..]| == |s[i..]|;
    if i < |s| {
      SameStart(s, i, t, a);
      Unfold(s, i);
      Unfold(t, a);
      if s[i] == '"' {
        StringMoved(s, i, t, a);
        if StringEnd(s, i + 1).Some? {
          FilteredMoves(s, StringEnd(s, i + 1).value, t, StringEnd(t, a + 1).value);
        }
      } else if Comment(s, i) {
        CommentMoved(s, i, t, a);
        FilteredMoves(s, Lists.LineEnd(s, i + 2), t, Lists.LineEnd(t, a + 2));
      } else {
        FilteredMoves(s, i + 1, t, a + 1);
      }
    }
  }

  lemma StringMoved(s: Text, i: nat, t: Text, a: nat)
    requires i < |s| && a < |t| && t[a..] == s[i..]
    ensures StringEnd(t, a + 1) == None <==> StringEnd(s, i + 1) == None
    ensures StringEnd(s, i + 1).Some? ==>
              var j, b := StringEnd(s, i + 1).value, StringEnd(t, a + 1).value;
              t[a..b] == s[i..j] && t[b..] == s[j..]
  {
    hide StringEnd;
    StringTail(s, i + 1, t, a + 1);
  }

  lemma CommentMoved(s: Text, i: nat, t: Text, a: nat)
    requires i + 2 <= |s| && a < |t| && t[a..] == s[i..]
    ensures a + 2 <= |t|
    ensures var j, b := Lists.LineEnd(s, i + 2), Lists.LineEnd(t, a + 2);
            t[a..b] == s[i..j] && t[b..] == s[j..]
  {
    hide Lists.LineEnd;
    LineEndMoves(s, i + 2, t, a + 2);
  }

  lemma SameStart(s: Text, i: nat, t: Text, a: nat)
    requires i < |s| && a <= |t| && t[a..] == s[i..]
    ensures Comment(s, i) ==> i + 2 <= |s|
    ensures a < |t| && t[a] == s[i] && (Comment(t, a) <==> Comment(s, i)) && (Kept(t, a) <==> Kept(s, i))
  {
    hide Punctuation;
  }

  /** A plain character, a string or a comment that is kept, before text that has been filtered. */
  lemma TidyChar(c: Byte, o: Text)
    requires c != '\r' && c != '"' && !(c == '/' && o != [] && o[0] == '/')
    ensures Filtered([c] + o, 0) == Some([c] + o) <==> Filtered(o, 0) == Some(o)
  {
    hide Filtered;
    var t := [c] + o;
    Unfold(t, 0);
    assert t[1..] == o[0..];
    FilteredMoves(o, 0, t, 1);
    Prepended([c], Filtered(o, 0), o);
  }

  lemma TidyString(q: Text, o: Text)
    requires q != [] && q[0] == '"' && StringEnd(q, 1) == Some(|q|)
    ensures Filtered(q + o, 0) == Some(q + o) <==> Filtered(o, 0) == Some(o)
  {
    hide Filtered, StringEnd, Holds;
    var t := q + o;
    assert Holds(t, 1, q[1..|q|]) by { HoldsAt(t, 1, q[1..|q|]); }
    StringMoves(q, 1, t, 1);
    Unfold(t, 0);
    assert t[|q|..] == o[0..] && t[0..|q|] == q;
    FilteredMoves(o, 0, t, |q|);
    Prepended(q, Filtered(o, 0), o);
  }

  lemma TidyComment(c: Text, o: Text)
    requires Comment(c, 0) && Kept(c, 0) && '\n' !in c && (o != [] ==> o[0] == '\n')
    ensures Filtered(c + o, 0) == Some(c + o) <==> Filtered(o, 0) == Some(o)
  {
    hide Filtered, StringEnd, Punctuation;
    var t := c + o;
    LineEndIs(t, 2, |c|);
    Unfold(t, 0);
    assert t[|c|..] == o[0..] && t[0..|c|] == c;
    FilteredMoves(o, 0, t, |c|);
    Prepended(c, Filtered(o, 0), o);
  }

  lemma Prepended(a: Text, b: Option<Text>, c: Text)
    ensures Prepend(a, b) == Some(a + c) <==> b == Some(c)
  {
    if b.Some? && a + b.value == a + c {
      assert (a + b.value)[|a|..] == b.value && (a + c)[|a|..] == c;
    }
  }

  /** A comment that arises and is not kept goes. */
  lemma SeamChanges(o: Text)
    requires o != [] && o[0] == '/' && !Kept(['/'] + o, 0)
    ensures Filtered(['/'] + o, 0) != Some(['/'] + o)
  {
    var t := ['/'] + o;
    UnchangedExactly(t, 0);
    assert t[0..] == t;
  }

  /** When filtering twice is the same as filtering once, for all text in which no comment that arises
      begins with punctuation: exactly if none arises. Otherwise the second time the text is refused or
      gets shorter. */
  lemma FilteredTwice(s: Text, i: nat)
    requires i <= |s| && PlainSeams(s, i) && Filtered(s, i).Some?
    ensures Filtered(Filtered(s, i).value, 0) == Filtered(s, i) <==> Seamless(s, i)
    ensures var twice := Filtered(Filtered(s, i).value, 0);
            !Seamless(s, i) && twice.Some? ==> |twice.value| < |Filtered(s, i).value|
  {
    hide Filtered, Tidy, Seamless, PlainSeams;
    SeamsShow(s, i);
    var o := Filtered(s, i).value;
    UnchangedExactly(o, 0);
    assert o[0..] == o;
  }

  lemma {:induction false} SeamsShow(s: Text, i: nat)
    requires i <= |s| && PlainSeams(s, i) && Filtered(s, i).Some?
    ensures Filtered(Filtered(s, i).value, 0) == Filtered(s, i) <==> Seamless(s, i)
    decreases |s| - i
  {
    hide Filtered, StringEnd, Lists.LineEnd, Punctuation, Kept, Comment;
    Nothing(s);
    Nothing([]);
    if i < |s| {
      Unfold(s, i);
      if s[i] == '"' {
        var j := StringEnd(s, i + 1).value;
        SeamsShow(s, j);
        StringAlone(s, i, j);
        TidyString(s[i..j], Filtered(s, j).value);
      } else if Comment(s, i) {
        var j := Lists.LineEnd(s, i + 2);
        SeamsShow(s, j);
        if Kept(s, i) {
          CommentAlone(s, i);
          if j < |s| {
            FirstChar(s, j);
          }
          TidyComment(s[i..j], Filtered(s, j).value);
        }
      } else {
        SeamsShow(s, i + 1);
        CharShows(s, i);
      }
    }
  }

  lemma CharShows(s: Text, i: nat)
    requires i < |s| && s[i] != '"' && !Comment(s, i) && Filtered(s, i).Some? && PlainSeams(s, i)
    requires Filtered(Filtered(s, i + 1).value, 0) == Filtered(s, i + 1) <==> Seamless(s, i + 1)
    ensures Filtered(Filtered(s, i).value, 0) == Filtered(s, i) <==> Seamless(s, i)
  {
    hide Filtered, Comment, Kept;
    Unfold(s, i);
    if s[i] != '\r' {
      var o := Filtered(s, i + 1).value;
      if BeforeSlash(s, i) {
        SeamChanges(o);
      } else {
        TidyChar(s[i], o);
      }
    }
  }

  /** Without a slash, one or more carriage returns and a slash there are no seams; so text without
      carriage returns, and any with other slashes before line ends, is filtered once and for all. */
  lemma {:induction false} NoSeams(s: Text, i: nat)
    requires i <= |s| && NoSlashReturnSlash(s) && Filtered(s, i).Some?
    ensures Seamless(s, i) && PlainSeams(s, i)
    decreases |s| - i
  {
    hide Filtered, StringEnd, Lists.LineEnd, Punctuation, NoSlashReturnSlash;
    if i < |s| {
      Unfold(s, i);
      if s[i] == '"' {
        NoSeams(s, StringEnd(s, i + 1).value);
      } else if Comment(s, i) {
        NoSeams(s, Lists.LineEnd(s, i + 2));
      } else {
        NoSeams(s, i + 1);
        if s[i] == '/' && BeforeSlash(s, i) {
          var m := FirstLeft(s, i + 1);
          assert OnlyReturns(s, i + 1, m) && m > i + 1;
          NotBetween(s, i, m);
        }
      }
    }
  }

  lemma NotBetween(s: Text, k: nat, m: nat)
    requires NoSlashReturnSlash(s) && k + 1 < m < |s| && s[k] == '/' && s[m] == '/'
    ensures !OnlyReturns(s, k + 1, m)
  {
  }

  /** Where the slash comes from that is left in front. */
  lemma {:induction false} FirstLeft(s: Text, i: nat) returns (m: nat)
    requires i <= |s| && Filtered(s, i).Some? && Filtered(s, i).value != [] && Filtered(s, i).value[0] == '/'
    ensures i <= m < |s| && s[m] == '/' && OnlyReturns(s, i, m)
    decreases |s| - i
  {
    hide Filtered;
    Nothing(s);
    m := i;
    if s[i] == '\r' {
      Unfold(s, i);
      m := FirstLeft(s, i + 1);
    } else if s[i] != '/' {
      FirstChar(s, i);
    }
  }

  lemma FilteredTwiceIsOnce(s: Text)
    requires NoSlashReturnSlash(s) && Filtered(s, 0).Some?
    ensures Filtered(Filtered(s, 0).value, 0) == Filtered(s, 0)
  {
    hide Filtered, NoSlashReturnSlash;
    NoSeams(s, 0);
    FilteredTwice(s, 0);
  }

  lemma StringAlone(s: Text, i: nat, j: nat)
    requires i < |s| && s[i] == '"' && StringEnd(s, i + 1) == Some(j)
    ensures s[i..j] != [] && s[i..j][0] == '"' && StringEnd(s[i..j], 1) == Some(|s[i..j]|)
  {
    hide StringEnd;
    var q := s[i..j];
    assert q[1..|q|] == s[i + 1..j];
    StringMoves(s, i + 1, q, 1);
  }

  lemma CommentAlone(s: Text, i: nat)
    requires Comment(s, i) && Kept(s, i)
    ensures var c := s[i..Lists.LineEnd(s, i + 2)]; Comment(c, 0) && Kept(c, 0) && '\n' !in c
  {
    hide Lists.LineEnd;
    var j := Lists.LineEnd(s, i + 2);
    forall k | i + 2 <= k < j ensures s[k] != '\n' {
      LineEndNone(s, i + 2, k);
    }
  }

  /** With a carriage return after a slash the two slashes around it become a comment. */
  lemma SlashReturnExample()
    ensures Filtered("/\r/x", 0) == Some("//x") && Filtered("//x", 0) == Some([])
  {
    var s: Text, o: Text := "/\r/x", "//x";
    var o1: Text, o2: Text, none: Text := "x", "/x", [];
    assert o1 + none == o1 && ['/'] + o1 == o2 && ['/'] + o2 == o && s[3] == 'x';
    Nothing(s);
    Unfold(s, 3);
    assert Filtered(s, 3) == Some(o1);
    Unfold(s, 2);
    Unfold(s, 1);
    assert Filtered(s, 1) == Some(o2);
    Unfold(s, 0);
    Unfold(o, 0);
    LineEndIs(o, 2, 3);
    Nothing(o);
  }

  const PUNCTUATION := "!\"#$%&'()*+,-./:;<=>?@[\\]^_`{|}~"

  /** A comment is left out, unless its slashes are followed by one of these characters. */
  lemma CommentRule(c: Text)
    requires Comment(c, 0) && '\n' !in c
    ensures Filtered(c, 0) == Some(if |c| > 2 && c[2] in PUNCTUATION then c else [])
  {
    hide Filtered, Punctuation;
    LineEndIs(c, 2, |c|);
    Unfold(c, 0);
    Nothing(c);
    Regrouped(c, [], Some([]));
    assert c[0..|c|] == c;
    if |c| > 2 {
      PunctuationIs(c[2]);
    }
  }

  lemma PunctuationIs(c: char)
    ensures Punctuation(c) <==> c in PUNCTUATION
  {
    assert PUNCTUATION == ['!', '"', '#', '$', '%', '&', '\'', '(', ')', '*', '+', ',', '-', '.', '/', ':', ';', '<',
                           '=', '>', '?', '@', '[', '\\', ']', '^', '_', '`', '{', '|', '}', '~'];
  }
}
