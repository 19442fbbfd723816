/** escape_string and unescape_string (include/cubescript/cubescript/util.hh). */
module Escape {
  import opened Syntax
  import opened Scan

  const FORM_FEED := 12 as char

  /** The letter that stands for a character after a caret. */
  predicate Special(c: char) { c == '\n' || c == '\t' || c == FORM_FEED || c == '"' || c == '^' }

  function CaretLetter(c: char): char {
    if c == '\n' then 'n' else if c == '\t' then 't' else if c == FORM_FEED then 'f' else c
  }

  function CaretMeaning(c: char): char {
    if c == 'n' then '\n' else if c == 't' then '\t' else if c == 'f' then FORM_FEED else c
  }

  function Escaped(x: string): string {
    if x == "" then ""
    else (if Special(x[0]) then ['^', CaretLetter(x[0])] else [x[0]]) + Escaped(x[1..])
  }

  function EscapeOf(x: string): string { ['"'] + Escaped(x) + ['"'] }

  /** What unescape_string writes for the text from `i` up to `k`. */
  function Unescaped(s: string, i: nat, k: nat): (u: string)
    requires k <= |s|
    ensures i <= k ==> |u| <= k - i
    decreases k - i
  {
    if i >= k then ""
    else if s[i] == '^' then
      if i + 1 == k then "" else [CaretMeaning(s[i + 1])] + Unescaped(s, i + 2, k)
    else if s[i] == '\\' then
      if i + 1 == k then ""
      else if Newline(s[i + 1]) then
        Unescaped(s, if s[i + 1] == '\r' && i + 2 < k && s[i + 2] == '\n' then i + 3 else i + 2, k)
      else ['\\'] + Unescaped(s, i + 2, k)
    else [s[i]] + Unescaped(s, i + 1, k)
  }

  method EscapeString(str: string) returns (w: string)
    ensures w == EscapeOf(str)
  {
    w := "\"";
    var i := 0;
    while i < |str|
      invariant i <= |str| && w + Escaped(str[i..]) == ['"'] + Escaped(str)
    {
      var c := str[i];
      ghost var was := w;
      if c == '\n' {
        w := w + "^n";
      } else if c == '\t' {
        w := w + "^t";
      } else if c == FORM_FEED {
        w := w + "^f";
      } else if c == '"' {
        w := w + "^\"";
      } else if c == '^' {
        w := w + "^^";
      } else {
        w := w + [c];
      }
      EscapedNext(was, str, i);
      i := i + 1;
    }
    w := w + "\"";
  }

  lemma EscapedNext(w: string, str: string, i: nat)
    requires i < |str|
    ensures w + Escaped(str[i..])
            == w + (if Special(str[i]) then ['^', CaretLetter(str[i])] else [str[i]]) + Escaped(str[i + 1..])
  {
    assert str[i..][1..] == str[i + 1..];
  }

  /** The place after the character, pair or continued line at `i`, and what is written for it. */
  function UnescapeNext(s: string, i: nat, k: nat): (r: (nat, string))
    requires i < k <= |s|
    ensures i < r.0 <= k
  {
    if s[i] != '^' && s[i] != '\\' then (i + 1, [s[i]])
    else if i + 1 == k then (i + 1, "")
    else if s[i] == '^' then (i + 2, [CaretMeaning(s[i + 1])])
    else if !Newline(s[i + 1]) then (i + 2, "\\")
    else if s[i + 1] == '\r' && i + 2 < k && s[i + 2] == '\n' then (i + 3, "")
    else (i + 2, "")
  }

  lemma UnescapeGoesOn(s: string, i: nat, k: nat)
    requires i < k <= |s|
    ensures var (j, u) := UnescapeNext(s, i, k); Unescaped(s, i, k) == u + Unescaped(s, j, k)
  {
  }

  lemma Regroup(a: string, b: string, c: string)
    ensures a + (b + c) == a + b + c
  {
  }

  method UnescapeString(str: string) returns (w: string)
    ensures w == Unescaped(str, 0, |str|)
  {
    w := "";
    var it := 0;
    assert Unescaped(str, |str|, |str|) == "";
    hide Unescaped, CaretMeaning, Newline;
    while it < |str|
      invariant it <= |str| && w + Unescaped(str, it, |str|) == Unescaped(str, 0, |str|)
      decreases |str| - it
    {
      ghost var was, next := w, UnescapeNext(str, it, |str|);
      UnescapeGoesOn(str, it, |str|);
      if str[it] == '^' {
        it := it + 1;
        if it == |str| {
          return;
        }
        w := w + [CaretMeaning(str[it])];
      } else if str[it] == '\\' {
        it := it + 1;
        if it == |str| {
          return;
        }
        var c := str[it];
        if Newline(c) {
          if c == '\r' && it + 1 != |str| && str[it + 1] == '\n' {
            it := it + 1;
          }
        } else {
          w := w + "\\";
        }
      } else {
        w := w + [str[it]];
      }
      it := it + 1;
      assert w == was + next.1 && it == next.0;
      Regroup(was, next.1, Unescaped(str, it, |str|));
    }
  }

  /** Free of the two characters that escape_string passes through but the readers do not. */
  predicate Clean(x: string) {
    x == "" || (x[0] != '\\' && x[0] != '\r' && Clean(x[1..]))
  }

  lemma {:induction false} CleanIs(x: string)
    ensures Clean(x) <==> '\\' !in x && '\r' !in x
  {
    if x != "" {
      CleanIs(x[1..]);
      assert x == [x[0]] + x[1..];
    }
  }

  /** Reading an escaped string back, wherever its text stands: parse_string finds its end or fails, it
      finds it if the string is clean, and then unescape_string gives the string back exactly if it is
      clean. */
  lemma {:induction false} EscapedReadsBack(t: string, a: nat, x: string)
    requires Holds(t, a, Escaped(x) + ['"'])
    ensures var k := a + |Escaped(x)|;
            && k < |t| && (StringEnd(t, a) == None || StringEnd(t, a) == Some(k + 1))
            && (Clean(x) ==> StringEnd(t, a).Some?)
            && (StringEnd(t, a).Some? ==>
                  |Unescaped(t, a, k)| <= |x| && (Unescaped(t, a, k) == x <==> Clean(x)))
    decreases |x|
  {
    hide Holds, Escaped, StringEnd, Unescaped;
    EscapedHeld(t, a, x);
    if x == "" {
      NothingReads(t, a);
    } else if x[0] == '\\' {
      if |x| > 1 && x[1] == '\r' {
        RestHeld(t, a, x);
        RestHeld(t, a + 1, x[1..]);
        assert x[1..][1..] == x[2..];
        EscapedHeld(t, a + 1, x[1..]);
        EscapedHeld(t, a + 2, x[2..]);
        EscapedReadsBack(t, a + 2, x[2..]);
        ContinuationReads(t, a, x);
      } else {
        BackslashReads(t, a, x);
      }
    } else if x[0] == '\r' {
      ReturnReads(t, a);
    } else {
      RestHeld(t, a, x);
      EscapedReadsBack(t, a + Width(x[0]), x[1..]);
      CharReads(t, a, x);
    }
  }

  function Width(c: char): nat { if Special(c) then 2 else 1 }

  lemma EscapedHeld(t: string, a: nat, x: string)
    requires Holds(t, a, Escaped(x) + ['"'])
    ensures a + |Escaped(x)| < |t| && t[a] == (Escaped(x) + ['"'])[0] && t[a] != '\n'
    ensures x == "" ==> |Escaped(x)| == 0 && t[a] == '"'
    ensures x != "" && !Special(x[0]) ==> t[a] == x[0] && |Escaped(x)| == 1 + |Escaped(x[1..])|
    ensures x != "" && Special(x[0]) ==>
              t[a] == '^' && t[a + 1] == CaretLetter(x[0]) && |Escaped(x)| == 2 + |Escaped(x[1..])|
  {
    hide Holds;
    HoldsBound(t, a, Escaped(x) + ['"']);
    HoldsChar(t, a, Escaped(x) + ['"'], 0);
    if x != "" && Special(x[0]) {
      HoldsChar(t, a, Escaped(x) + ['"'], 1);
    }
  }

  lemma RestHeld(t: string, a: nat, x: string)
    requires x != "" && Holds(t, a, Escaped(x) + ['"'])
    ensures Holds(t, a + Width(x[0]), Escaped(x[1..]) + ['"'])
  {
    hide Holds, Escaped;
    var e := Escaped(x) + ['"'];
    assert e[0..|e|] == e;
    var first := EscapedFirst(x);
    assert e == first + (Escaped(x[1..]) + ['"']);
    HoldsRest(t, a, e, 0, Width(x[0]), |e|);
    assert e[|first|..|e|] == Escaped(x[1..]) + ['"'];
  }

  lemma EscapedFirst(x: string) returns (first: string)
    requires x != ""
    ensures |first| == Width(x[0]) && Escaped(x) == first + Escaped(x[1..])
  {
    first := if Special(x[0]) then ['^', CaretLetter(x[0])] else [x[0]];
  }

  lemma NothingReads(t: string, a: nat)
    requires a < |t| && t[a] == '"'
    ensures StringEnd(t, a) == Some(a + 1) && Unescaped(t, a, a) == ""
  {
  }

  lemma ReturnReads(t: string, a: nat)
    requires a < |t| && t[a] == '\r'
    ensures StringEnd(t, a) == None
  {
  }

  /** One clean character. */
  lemma CharReads(t: string, a: nat, x: string)
    requires x != "" && x[0] != '\\' && x[0] != '\r' && a + |Escaped(x)| < |t|
    requires |Escaped(x)| == Width(x[0]) + |Escaped(x[1..])|
    requires if Special(x[0]) then t[a] == '^' && t[a + 1] == CaretLetter(x[0]) else t[a] == x[0]
    ensures var a' := a + Width(x[0]);
            var k := a + |Escaped(x)|;
            && StringEnd(t, a) == StringEnd(t, a')
            && |Unescaped(t, a, k)| == 1 + |Unescaped(t, a', k)|
            && (Unescaped(t, a, k) == x <==> Unescaped(t, a', k) == x[1..])
  {
    hide Escaped, Unescaped;
    var a' := a + Width(x[0]);
    var k := a + |Escaped(x)|;
    CharUnescaped(t, a, k, x[0]);
    assert x == [x[0]] + x[1..];
    assert ([x[0]] + Unescaped(t, a', k))[1..] == Unescaped(t, a', k);
  }

  lemma CharUnescaped(t: string, a: nat, k: nat, c: char)
    requires c != '\\' && a + Width(c) <= k <= |t|
    requires if Special(c) then t[a] == '^' && t[a + 1] == CaretLetter(c) else t[a] == c
    ensures Unescaped(t, a, k) == [c] + Unescaped(t, a + Width(c), k)
  {
  }

  /** A backslash before a carriage return continues the line: both characters are lost. */
  lemma ContinuationReads(t: string, a: nat, x: string)
    requires |x| > 1 && x[0] == '\\' && x[1] == '\r' && a + |Escaped(x)| < |t|
    requires |Escaped(x)| == 2 + |Escaped(x[2..])|
    requires t[a] == '\\' && t[a + 1] == '\r' && t[a + 2] != '\n'
    ensures var k := a + |Escaped(x)|;
            StringEnd(t, a) == StringEnd(t, a + 2) && Unescaped(t, a, k) == Unescaped(t, a + 2, k)
  {
    hide Escaped;
  }

  /** Any other backslash is an error inside the string and is lost at its end. */
  lemma BackslashReads(t: string, a: nat, x: string)
    requires x != "" && x[0] == '\\' && (|x| > 1 ==> x[1] != '\r') && Holds(t, a, Escaped(x) + ['"'])
    ensures var k := a + |Escaped(x)|;
            if |x| > 1 then StringEnd(t, a) == None
            else k < |t| && StringEnd(t, a) == Some(k + 1) && Unescaped(t, a, k) == ""
  {
    hide Holds, Escaped;
    EscapedHeld(t, a, x);
    RestHeld(t, a, x);
    EscapedHeld(t, a + 1, x[1..]);
  }

  /** An escaped text has no tab, line feed or form feed, and every quote in it stands behind a caret that
      is not itself escaped: it is pairs of a caret and one of five characters, and other characters. */
  predicate Safe(e: string)
    decreases |e|
  {
    e == "" || if e[0] == '^' then |e| >= 2 && e[1] in "ntf\"^" && Safe(e[2..])
               else e[0] != '\n' && e[0] != '\t' && e[0] != FORM_FEED && e[0] != '"' && Safe(e[1..])
  }

  lemma {:induction false} EscapedSafe(x: string)
    ensures Safe(Escaped(x))
    decreases |x|
  {
    if x != "" {
      var c, rest := x[0], Escaped(x[1..]);
      EscapedSafe(x[1..]);
      if Special(c) {
        assert Escaped(x)[0] == '^' && Escaped(x)[1] == CaretLetter(c) && Escaped(x)[2..] == rest;
      } else {
        assert Escaped(x)[0] == c && Escaped(x)[1..] == rest;
      }
    }
  }

  /** So these characters never occur in it, and a quote only behind a caret. */
  lemma {:induction false} SafeHolds(e: string, k: nat)
    requires Safe(e) && k < |e|
    ensures e[k] != '\n' && e[k] != '\t' && e[k] != FORM_FEED
    ensures e[k] == '"' ==> k > 0 && e[k - 1] == '^'
    decreases |e|
  {
    if e[0] == '^' {
      if k >= 2 {
        SafeHolds(e[2..], k - 2);
      }
    } else if k > 0 {
      SafeHolds(e[1..], k - 1);
    }
  }

  /** Text without carets and backslashes is written by unescape_string as it is. */
  lemma {:induction false} UnescapedPlain(s: string, i: nat, k: nat)
    requires i <= k <= |s| && forall j :: i <= j < k ==> s[j] != '^' && s[j] != '\\'
    ensures Unescaped(s, i, k) == s[i..k]
    decreases k - i
  {
    if i < k {
      UnescapedPlain(s, i + 1, k);
      assert s[i..k] == [s[i]] + s[i + 1..k];
    }
  }

  /** `t` has the characters of `x` from `a` on, each behind a caret. */
  predicate Careted(t: string, a: nat, x: string)
    decreases |x|
  {
    x == "" || (a + 1 < |t| && t[a] == '^' && t[a + 1] == x[0] && Careted(t, a + 2, x[1..]))
  }

  /** Behind a caret, every character but three stands for itself. */
  lemma {:induction false} CaretsRead(t: string, a: nat, x: string)
    requires a <= |t| && Careted(t, a, x) && forall c :: c in x ==> c !in "ntf"
    ensures a + 2 * |x| <= |t| && Unescaped(t, a, a + 2 * |x|) == x
    decreases |x|
  {
    if x != "" {
      CaretsRead(t, a + 2, x[1..]);
      assert x == [x[0]] + x[1..] && x[0] in x;
    }
  }
}
