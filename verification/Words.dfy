/** The 32-bit bytecode word: 24 data bits, 2 type bits, 6 opcode bits (src/cs_bcode.hh). */
module Words {
  const WORD_LIMIT := 0x1_0000_0000
  const DATA_LIMIT := 0x100_0000

  /** A word by its fields; `Bits` is the number that the array really holds. */
  datatype Fields = Fields(op: nat, ret: nat, data: nat)

  type Word = w: Fields | w.op < 64 && w.ret < 4 && w.data < DATA_LIMIT witness Fields(0, 0, 0)

  type Int32 = i: int | -0x8000_0000 <= i < 0x8000_0000
  type Byte = c: char | c as int < 256
  type Text = seq<Byte>

  /** A program is the flat array the emitter builds; index 0 of a whole one is START. */
  type Code = seq<Word>

  // Opcodes.
  const START := 0
  const OFFSET := 1
  const NULL := 2
  const TRUE := 3
  const FALSE := 4
  const NOT := 5
  const POP := 6
  const ENTER := 7
  const ENTER_RESULT := 8
  const EXIT := 9
  const RESULT := 10
  const RESULT_ARG := 11
  const FORCE := 12
  const DUP := 13
  const VAL := 14
  const VAL_INT := 15
  const DO := 17
  const JUMP := 19
  const JUMP_B := 20
  const JUMP_RESULT := 21
  const BLOCK := 23
  const EMPTY := 24
  const COMPILE := 25
  const COND := 26
  const LOOKUP := 29
  const ALIAS := 34
  const CALL := 36
  const COM := 38
  const COM_V := 39

  // Type masks, also used as the flag of the conditional jumps.
  const RET_NULL := 0
  const RET_INT := 1
  const RET_STRING := 3
  const FLAG_FALSE := 0
  const FLAG_TRUE := 1

  // Identifier indices: the 32 argument aliases come first, and the built-in
  // commands follow in the order the state constructor registers them.
  const MAX_ARGUMENTS := 32
  const IF_COMMAND := 40
  const AND_COMMAND := 43
  const OR_COMMAND := 44

  /** `op | ret << 6 | data << 8` */
  function Bits(w: Word): (b: nat)
    ensures b < WORD_LIMIT
  {
    w.data * 0x100 + w.ret * 0x40 + w.op
  }

  function OfBits(b: nat): Word
    requires b < WORD_LIMIT
  {
    Fields(b % 0x100 % 0x40, b % 0x100 / 0x40, b / 0x100)
  }

  /** Every 32-bit number is the number of exactly one word. */
  lemma NumberRoundTrip(b: nat)
    requires b < WORD_LIMIT
    ensures Bits(OfBits(b)) == b
  {
    var low := b % 0x100;
    assert low == low / 0x40 * 0x40 + low % 0x40;
  }

  lemma WordRoundTrip(w: Word)
    ensures OfBits(Bits(w)) == w
  {
    var low := w.ret * 0x40 + w.op;
    assert Bits(w) == w.data * 0x100 + low;
    assert Bits(w) / 0x100 == w.data;
  }

  /** An instruction; the shift drops data bits beyond the 24th. */
  function Inst(op: nat, ret: nat, data: nat): Word
    requires op < 64 && ret < 4
  {
    Fields(op, ret, if data < DATA_LIMIT then data else data % DATA_LIMIT)
  }

  /** `w & ~BC_INST_RET_MASK` */
  function ClearRet(w: Word): Word {
    w.(ret := 0)
  }

  /** `c` occurs in the program at index `i`. */
  ghost predicate At(prog: Code, i: nat, c: Code) {
    i + |c| <= |prog| && prog[i..i + |c|] == c
  }

  lemma AtSplit(prog: Code, i: nat, a: Code, b: Code)
    requires At(prog, i, a + b)
    ensures At(prog, i, a) && At(prog, i + |a|, b)
  {
    var c := prog[i..i + |a + b|];
    assert c[..|a|] == a;
    assert c[|a|..] == b;
    assert prog[i..i + |a|] == c[..|a|];
    assert prog[i + |a|..i + |a| + |b|] == c[|a|..];
  }

  lemma AtWord(prog: Code, i: nat, c: Code, k: nat)
    requires At(prog, i, c) && k < |c|
    ensures i + k < |prog| && prog[i + k] == c[k]
  {
    assert prog[i..i + |c|][k] == c[k];
  }
}
