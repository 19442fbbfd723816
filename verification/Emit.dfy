/** The words each construct compiles to, as functions of the construct and of the
    absolute position of its first word (src/cs_gen.cc driven by src/cs_parser.cc). */
module Emit {
  import opened Words
  import opened Literals
  import opened Syntax

  const NullLiteral: Code := [Inst(VAL_INT, RET_NULL, 0)]

  /** `ret_code(ltype)` for the forced types; the others leave the value alone. */
  function RetOf(want: Want): nat {
    match want
    case AsString => RET_STRING
    case AsInt => RET_INT
    case _ => RET_NULL
  }

  /** A lookup is forced to a string unless an integer or a condition is wanted. */
  function LookupRet(want: Want): nat {
    match want
    case AsInt => RET_INT
    case AsCond => RET_NULL
    case _ => RET_STRING
  }

  /** What turns a plain value into code, where code is wanted. */
  function Finish(want: Want): Code {
    match want
    case AsCode => [Inst(COMPILE, 0, 0)]
    case AsCond => [Inst(COND, 0, 0)]
    case _ => []
  }

  /** gen_val with empty text. */
  function EmptyLiteral(h: Host, want: Want): Code {
    match want
    case AsString => StringLiteral([])
    case AsInt => IntLiteral(h.toInt([]))
    case AsCode => [Inst(EMPTY, 0, 0)]
    case _ => NullLiteral
  }

  /** Text as a value. Words are never empty; quoted text always takes the long form. */
  function TextLiteral(spelling: Spelling, text: Text): Code {
    if spelling == Quoted || spelling == Bracketed then LongString(text)
    else StringLiteral(text)
  }

  /** gen_block: `body` is already compiled for position `pos + 2`. */
  function BlockLiteral(body: Code, pos: nat): Code {
    if body == [] then [Inst(EMPTY, 0, 0)]
    else [Inst(BLOCK, 0, |body| + 2), Inst(OFFSET, 0, pos + 2)] + body + [Inst(EXIT, 0, 0)]
  }

  function CompileArg(h: Host, a: Arg, want: Want, pos: nat): Code
    decreases a
  {
    match a
    case Absent => NullLiteral
    case Literal(spelling, text, body) =>
      (match want
       case AsInt =>
         if spelling == Bracketed then LongString(text) + [Inst(FORCE, RET_INT, 0)]
         else IntLiteral(h.toInt(text))
       case AsCode => BlockLiteral(CompileStmts(h, body, pos + 2), pos)
       case AsCond => if NoText(spelling, text) then NullLiteral else BlockLiteral(CompileStmts(h, body, pos + 2), pos)
       case _ => TextLiteral(spelling, text))
    case Lookup(id) => [Inst(LOOKUP, LookupRet(want), id)] + Finish(want)
    case Paren(stmts) =>
      var c := CompileStmts(h, stmts, pos);
      if c == [] then EmptyLiteral(h, want)
      else c + ([Inst(RESULT_ARG, RetOf(want), 0)] + Finish(want))
  }

  function CompileParams(h: Host, ps: List<Param>, pos: nat): Code
    decreases ps
  {
    match ps
    case Nil => []
    case Cons(p, rest) =>
      var c := CompileArg(h, p.arg, p.want, pos);
      c + CompileParams(h, rest, pos + |c|)
  }

  function Count<T>(xs: List<T>): nat {
    match xs
    case Nil => 0
    case Cons(_, rest) => 1 + Count(rest)
  }

  function CompileStmts(h: Host, ss: List<Stmt>, pos: nat): Code
    decreases ss
  {
    match ss
    case Nil => []
    case Cons(s, rest) =>
      var c := CompileStmt(h, s, pos);
      c + CompileStmts(h, rest, pos + |c|)
  }

  function CompileStmt(h: Host, s: Stmt, pos: nat): Code
    decreases s
  {
    match s
    case Assign(id, arg) =>
      (if arg == Absent then StringLiteral([]) else CompileArg(h, arg, Any, pos)) + [Inst(ALIAS, 0, id)]
    case Result(arg) =>
      if arg == Absent then [Inst(NULL, 0, 0)] else CompileArg(h, arg, Any, pos) + [Inst(RESULT, 0, 0)]
    case Not(arg) =>
      if arg == Absent then [Inst(TRUE, 0, 0)] else CompileArg(h, arg, Any, pos) + [Inst(NOT, 0, 0)]
    case Do(arg) =>
      if arg == Absent then [Inst(NULL, 0, 0)] else CompileArg(h, arg, AsCode, pos) + [Inst(DO, 0, 0)]
    case If(cond, thn, els) =>
      var c := CompileArg(h, cond, Any, pos);
      var t := CompileArg(h, thn, AsCode, pos + |c|);
      var e := CompileArg(h, els, AsCode, pos + |c| + |t|);
      c + CompileArms(t, e)
    case AndOr(isOr, ps) =>
      (match ps
       case Nil => [Inst(if isOr then FALSE else TRUE, 0, 0)]
       case Cons(p, rest) =>
         var c := CompileArg(h, p.arg, p.want, pos);
         c + (if AllBlocks(h, rest, pos + |c|) then JumpChain(h, isOr, rest, pos + |c|)
              else CompileParams(h, rest, pos + |c|)
                   + CallWords(if isOr then OR_COMMAND else AND_COMMAND, true, Count(ps))))
    case Command(id, variadic, ps) => CompileParams(h, ps, pos) + CallWords(id, variadic, Count(ps))
    case CallAlias(id, ps) => CompileParams(h, ps, pos) + [Inst(CALL, 0, id), OfBits(Count(ps) % WORD_LIMIT)]
    case IntStmt(i) => IntLiteral(i) + [Inst(RESULT, 0, 0)]
    case StrStmt(t) => StringLiteral(t) + [Inst(RESULT, 0, 0)]
  }

  /** gen_command_call: variadic commands are followed by the argument count. */
  function CallWords(id: nat, variadic: bool, count: nat): Code {
    if variadic then [Inst(COM_V, 0, id), OfBits(count % WORD_LIMIT)] else [Inst(COM, 0, id)]
  }

  /** is_block: the words are one block literal, from its BLOCK to its EXIT. */
  predicate IsBlock(c: Code) {
    c != [] && ClearRet(c[0]) == Inst(BLOCK, 0, |c| - 1)
  }

  /** gen_if with both arms present, and the call it falls back to. */
  function CompileArms(t: Code, e: Code): Code {
    if IsBlock(t) && IsBlock(e) && |t| >= 3 && |e| >= 3 then
      [Inst(JUMP_B, FLAG_FALSE, |t|), Inst(ENTER_RESULT, 0, 0)] + t[2..|t| - 1] + [ClearRet(t[|t| - 1])]
      + ([Inst(JUMP, 0, |e| - 1), Inst(ENTER_RESULT, 0, 0)] + e[2..|e| - 1] + [ClearRet(e[|e| - 1])])
    else if t != [] && IsBlock(e) && |e| >= 3 && ClearRet(t[0]) == Inst(EMPTY, 0, 0) then
      [Inst(NULL, e[0].ret, 0)] + t[1..]
      + ([Inst(JUMP_B, FLAG_TRUE, |e| - 1), Inst(ENTER_RESULT, 0, 0)] + e[2..|e| - 1] + [ClearRet(e[|e| - 1])])
    else
      t + e + [Inst(COM, 0, IF_COMMAND)]
  }

  /** Whether every parameter compiles to a block literal. */
  predicate AllBlocks(h: Host, ps: List<Param>, pos: nat)
    decreases ps
  {
    match ps
    case Nil => true
    case Cons(p, rest) =>
      var c := CompileArg(h, p.arg, p.want, pos);
      IsBlock(c) && |c| >= 3 && AllBlocks(h, rest, pos + |c|)
  }

  /** gen_and_or: every block is entered only if the result so far does not decide. */
  function JumpChain(h: Host, isOr: bool, ps: List<Param>, pos: nat): Code
    decreases ps
  {
    var flag := if isOr then FLAG_TRUE else FLAG_FALSE;
    match ps
    case Nil => [Inst(JUMP_RESULT, flag, 0)]
    case Cons(p, rest) =>
      var c := CompileArg(h, p.arg, p.want, pos);
      var k := JumpChain(h, isOr, rest, pos + |c|);
      if |c| < 3 then k
      else
        [Inst(JUMP_RESULT, flag, |c| + |k| - 1), Inst(ENTER, 0, 0)] + c[2..|c| - 1] + [ClearRet(c[|c| - 1])] + k
  }

  /** gen_main: a whole program. */
  function CompileMain(h: Host, ss: List<Stmt>): Code {
    [Inst(START, 0, 0)] + CompileStmts(h, ss, 1) + [Inst(EXIT, 0, 0)]
  }
}
