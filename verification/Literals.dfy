/** How literals are laid out in words by the value emitters and read back by the VM. */
module Literals {
  import opened Words

  // ---- strings ----

  function Join4(b0: nat, b1: nat, b2: nat, b3: nat): nat {
    b0 + 0x100 * (b1 + 0x100 * (b2 + 0x100 * b3))
  }

  /** Byte `k` of a word in little-endian order. */
  function Digit(w: nat, k: nat): (d: nat)
    requires k < 4
    ensures d < 0x100
  {
    (if k == 0 then w else if k == 1 then w / 0x100 else if k == 2 then w / 0x1_0000 else w / 0x100_0000) % 0x100
  }

  lemma JoinDigits(b0: nat, b1: nat, b2: nat, b3: nat)
    requires b0 < 0x100 && b1 < 0x100 && b2 < 0x100 && b3 < 0x100
    ensures Digit(Join4(b0, b1, b2, b3), 0) == b0
    ensures Digit(Join4(b0, b1, b2, b3), 1) == b1
    ensures Digit(Join4(b0, b1, b2, b3), 2) == b2
    ensures Digit(Join4(b0, b1, b2, b3), 3) == b3
  {
  }

  /** Up to four bytes as one word, zero padded. */
  function Pad4(bs: Text): (n: nat)
    requires |bs| <= 4
    ensures n < WORD_LIMIT
    ensures |bs| <= 3 ==> n < DATA_LIMIT
  {
    Join4(
      if |bs| > 0 then bs[0] as int else 0, if |bs| > 1 then bs[1] as int else 0,
      if |bs| > 2 then bs[2] as int else 0, if |bs| > 3 then bs[3] as int else 0)
  }

  function ByteOf(w: nat, k: nat): Byte
    requires k < 4
  {
    Digit(w, k) as char
  }

  /** Words needed for `n` bytes and at least one byte of padding. */
  function PayloadSize(n: nat): (k: nat)
    ensures 0 < k
  {
    n / 4 + 1
  }

  /** The payload words of a long string: little-endian, zero padded, one more word than whole quadruples. */
  function PackBytes(bs: Text): (ws: Code)
    ensures |ws| == PayloadSize(|bs|)
  {
    if |bs| < 4 then [OfBits(Pad4(bs))] else [OfBits(Pad4(bs[..4]))] + PackBytes(bs[4..])
  }

  /** The four bytes a word occupies in memory. */
  function WordBytes(w: nat): Text {
    [ByteOf(w, 0), ByteOf(w, 1), ByteOf(w, 2), ByteOf(w, 3)]
  }

  /** The first `n` bytes of memory starting at a word. */
  function UnpackBytes(ws: Code, n: nat): (bs: Text)
    requires PayloadSize(n) <= |ws|
    ensures |bs| == n
    decreases n
  {
    if n < 4 then WordBytes(Bits(ws[0]))[..n] else WordBytes(Bits(ws[0])) + UnpackBytes(ws[1..], n - 4)
  }

  lemma JoinedBytes(bs: Text)
    requires |bs| <= 4
    ensures WordBytes(Pad4(bs))[..|bs|] == bs
  {
    JoinDigits(
      if |bs| > 0 then bs[0] as int else 0, if |bs| > 1 then bs[1] as int else 0,
      if |bs| > 2 then bs[2] as int else 0, if |bs| > 3 then bs[3] as int else 0);
  }

  /** One packed word gives its bytes back. */
  lemma Pad4Bytes(bs: Text)
    requires |bs| <= 4
    ensures WordBytes(Bits(OfBits(Pad4(bs))))[..|bs|] == bs
  {
    JoinedBytes(bs);
    NumberRoundTrip(Pad4(bs));
  }

  lemma {:induction false} PackUnpack(bs: Text)
    ensures UnpackBytes(PackBytes(bs), |bs|) == bs
  {
    if |bs| < 4 {
      Pad4Bytes(bs);
    } else {
      var q := bs[..4];
      Pad4Bytes(q);
      PackUnpack(bs[4..]);
      assert WordBytes(Bits(OfBits(Pad4(q)))) == q;
      assert q + bs[4..] == bs;
    }
  }

  /** What `set_string(char const *)` sees of a buffer: everything before the first NUL. */
  function CString(bs: Text): (s: Text)
    ensures |s| <= |bs| && s == bs[..|s|]
    ensures |s| < |bs| ==> bs[|s|] == 0 as char
    ensures 0 as char !in s
  {
    if bs == [] || bs[0] == 0 as char then [] else [bs[0]] + CString(bs[1..])
  }

  function LongString(s: Text): Code {
    [Inst(VAL, RET_STRING, |s|)] + PackBytes(s)
  }

  /** gen_val_string: up to three bytes travel inside the instruction word. */
  function StringLiteral(s: Text): Code {
    if |s| <= 3 then [Inst(VAL_INT, RET_STRING, Pad4(s))] else LongString(s)
  }

  /** The string that VAL_INT with a string mask pushes. */
  function ShortStringValue(w: Word): Text {
    CString([ByteOf(Bits(w), 1), ByteOf(Bits(w), 2), ByteOf(Bits(w), 3)])
  }

  /** The short form loses a string exactly when it holds a NUL byte. */
  lemma ShortStringRoundTrip(s: Text)
    requires |s| <= 3
    ensures ShortStringValue(Inst(VAL_INT, RET_STRING, Pad4(s))) == CString(s)
    ensures CString(s) == s <==> 0 as char !in s
  {
    ShortBytes(Inst(VAL_INT, RET_STRING, Pad4(s)), s);
    CStringWhole(s);
  }

  lemma ShiftedDigit(p: nat, k: nat)
    requires p < DATA_LIMIT && k < 3
    ensures Digit(p * 256 + 207, k + 1) == Digit(p, k)
  {
  }

  lemma ShortByte(w: Word, s: Text, k: nat)
    requires |s| <= 3 && k < 3 && w == Inst(VAL_INT, RET_STRING, Pad4(s))
    ensures ByteOf(Bits(w), k + 1) == if k < |s| then s[k] else 0 as char
  {
    var b0 := if |s| > 0 then s[0] as int else 0;
    var b1 := if |s| > 1 then s[1] as int else 0;
    var b2 := if |s| > 2 then s[2] as int else 0;
    JoinDigits(b0, b1, b2, 0);
    assert Pad4(s) == Join4(b0, b1, b2, 0) < DATA_LIMIT;
    ShiftedDigit(Pad4(s), k);
  }

  /** NUL padding is invisible to the reader. */
  lemma ShortBytes(w: Word, s: Text)
    requires |s| <= 3 && w == Inst(VAL_INT, RET_STRING, Pad4(s))
    ensures ShortStringValue(w) == CString(s)
  {
    ShortByte(w, s, 0);
    ShortByte(w, s, 1);
    ShortByte(w, s, 2);
    var raw: Text := [ByteOf(Bits(w), 1), ByteOf(Bits(w), 2), ByteOf(Bits(w), 3)];
    assert raw[..|s|] == s;
    CStringPrefix(raw, |s|);
  }

  lemma {:induction false} CStringPrefix(bs: Text, n: nat)
    requires n <= |bs|
    requires n < |bs| ==> bs[n] == 0 as char
    ensures CString(bs[..n]) == CString(bs)
  {
    if n > 0 {
      assert bs[..n][1..] == bs[1..][..n - 1];
      CStringPrefix(bs[1..], n - 1);
    }
  }

  lemma {:induction false} CStringWhole(s: Text)
    ensures CString(s) == s <==> 0 as char !in s
  {
    if |CString(s)| < |s| {
      assert s[|CString(s)|] in s;
    }
  }

  // ---- integers ----

  /** Two's complement reading of a word. */
  function ToInt32(w: nat): Int32
    requires w < WORD_LIMIT
  {
    if w < 0x8000_0000 then w else w - WORD_LIMIT
  }

  function FromInt32(i: Int32): (w: nat)
    ensures w < WORD_LIMIT
  {
    if i < 0 then i + WORD_LIMIT else i
  }

  /** gen_val_integer: 24-bit values travel inside the instruction word. */
  function IntLiteral(i: Int32): Code {
    if -0x80_0000 <= i <= 0x7F_FFFF then
      [Inst(VAL_INT, RET_INT, if i < 0 then i + DATA_LIMIT else i)]
    else
      [Inst(VAL, RET_INT, 0), OfBits(FromInt32(i))]
  }

  /** `integer_type(op) >> 8`: the arithmetic shift that VAL_INT reads its operand with. */
  function ShortIntValue(w: Word): Int32 {
    ToInt32(Bits(w)) / 256
  }

  /** The integer that the VM reads from the one or two words of an integer literal. */
  function IntValue(c: Code): Int32
    requires |c| > 0
  {
    if |c| == 1 then ShortIntValue(c[0]) else ToInt32(Bits(c[1]))
  }

  lemma IntLiteralRoundTrip(i: Int32)
    ensures IntValue(IntLiteral(i)) == i
    ensures |IntLiteral(i)| == 1 || |IntLiteral(i)| == 2
  {
  }
}
