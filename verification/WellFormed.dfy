/** Which syntax the parser hands to the emitter, and how the emitted code begins. */
module WellFormed {
  import opened Words
  import opened Literals
  import opened Syntax
  import opened Emit

  /** The argument is one block literal. */
  predicate BlockArg(a: Arg, want: Want) {
    a.Literal? && a.body != Nil && (want == AsCode || (want == AsCond && !NoText(a.spelling, a.text)))
  }

  /** The first word emitted for the argument is the EMPTY instruction. */
  predicate StartsEmpty(a: Arg, want: Want)
    decreases a
  {
    match a
    case Literal(spelling, text, body) => body == Nil && (want == AsCode || (want == AsCond && !NoText(spelling, text)))
    case Paren(stmts) =>
      (match stmts
       case Nil => want == AsCode
       case Cons(s, _) => StmtStartsEmpty(s))
    case _ => false
  }

  predicate StmtStartsEmpty(s: Stmt)
    decreases s
  {
    match s
    case Assign(_, arg) => StartsEmpty(arg, Any)
    case Result(arg) => StartsEmpty(arg, Any)
    case Not(arg) => StartsEmpty(arg, Any)
    case Do(arg) => StartsEmpty(arg, AsCode)
    case If(cond, _, _) => StartsEmpty(cond, Any)
    case AndOr(_, ps) => ps.Cons? && StartsEmpty(ps.head.arg, ps.head.want)
    case Command(_, _, ps) => ps.Cons? && StartsEmpty(ps.head.arg, ps.head.want)
    case CallAlias(_, ps) => ps.Cons? && StartsEmpty(ps.head.arg, ps.head.want)
    case _ => false
  }

  /** The case that gen_if patches wrongly: the true arm is an expression whose code happens
      to begin with EMPTY, which gen_if takes for the empty block. */
  predicate MistakenForEmpty(thn: Arg, els: Arg) {
    thn.Paren? && thn.stmts != Nil && StartsEmpty(thn, AsCode) && BlockArg(els, AsCode)
  }

  predicate GoodArg(h: Host, a: Arg)
    decreases a
  {
    match a
    case Absent => true
    case Literal(spelling, text, body) =>
      && |text| < DATA_LIMIT
      && (spelling == Word && |text| <= 3 ==> 0 as char !in text)
      && (spelling == Hollow ==> text == [] && body == Nil)
      && GoodStmts(h, body)
    case Lookup(id) => id < DATA_LIMIT
    case Paren(stmts) => GoodStmts(h, stmts)
  }

  predicate GoodParams(h: Host, ps: List<Param>)
    decreases ps
  {
    match ps
    case Nil => true
    case Cons(p, rest) => GoodArg(h, p.arg) && GoodParams(h, rest)
  }

  predicate Wanted(ps: List<Param>, wants: set<Want>) {
    match ps
    case Nil => true
    case Cons(p, rest) => p.want in wants && Wanted(rest, wants)
  }

  predicate GoodStmt(h: Host, s: Stmt)
    decreases s
  {
    match s
    case Assign(id, arg) => id < DATA_LIMIT && GoodArg(h, arg)
    case Result(arg) => GoodArg(h, arg)
    case Not(arg) => GoodArg(h, arg)
    case Do(arg) => GoodArg(h, arg)
    case If(cond, thn, els) =>
      && GoodArg(h, cond) && GoodArg(h, thn) && GoodArg(h, els)
      && thn != Absent && els != Absent
      && !MistakenForEmpty(thn, els)
    case AndOr(_, ps) => GoodParams(h, ps) && Wanted(ps, {AsCond}) && Count(ps) < WORD_LIMIT
    case Command(id, variadic, ps) =>
      && GoodParams(h, ps) && Wanted(ps, {Any, AsString, AsInt})
      && (if variadic then Count(ps) < WORD_LIMIT else Count(ps) == h.arity(id))
      && id < DATA_LIMIT && id != IF_COMMAND && id != AND_COMMAND && id != OR_COMMAND
    case CallAlias(id, ps) =>
      && GoodParams(h, ps) && Wanted(ps, {Any})
      && id < DATA_LIMIT && Count(ps) < WORD_LIMIT
    case IntStmt(_) => true
    case StrStmt(t) => |t| < DATA_LIMIT && (|t| <= 3 ==> 0 as char !in t)
  }

  predicate GoodStmts(h: Host, ss: List<Stmt>)
    decreases ss
  {
    match ss
    case Nil => true
    case Cons(s, rest) => GoodStmt(h, s) && GoodStmts(h, rest)
  }

  ghost predicate Head(c: Code, isBlock: bool, startsEmpty: bool) {
    && c != []
    && (IsBlock(c) <==> isBlock)
    && (c[0].op == BLOCK ==> c[0].data + 1 <= |c|)
    && (if startsEmpty then c[0] == Inst(EMPTY, 0, 0) else c[0].op != EMPTY)
    && (IsBlock(c) ==> |c| >= 3)
  }

  lemma TextHead(spelling: Spelling, text: Text)
    ensures Head(TextLiteral(spelling, text), false, false)
  {
  }

  lemma IntHead(i: Int32)
    ensures Head(IntLiteral(i), false, false)
  {
  }

  lemma ValueHead(h: Host, a: Arg, want: Want, pos: nat)
    requires a.Literal? && want != AsCode && !(want == AsCond && !NoText(a.spelling, a.text))
    ensures Head(CompileArg(h, a, want, pos), false, false)
  {
    IntHead(h.toInt(a.text));
    TextHead(a.spelling, a.text);
  }

  /** How an argument's code begins: it is a block literal exactly when the syntax is one,
      it begins with EMPTY exactly when the syntax says so, and a block in front ends inside. */
  lemma {:induction false} ArgHead(h: Host, a: Arg, want: Want, pos: nat)
    requires |CompileArg(h, a, want, pos)| <= DATA_LIMIT
    ensures Head(CompileArg(h, a, want, pos), BlockArg(a, want), StartsEmpty(a, want))
    decreases a, 1
  {
    match a
    case Absent =>
    case Literal(spelling, text, _) =>
      if want == AsCode || (want == AsCond && !NoText(spelling, text)) {
        BlockArgHead(h, a, want, pos);
      } else {
        ValueHead(h, a, want, pos);
      }
    case Lookup(_) =>
    case Paren(_) => ParenHead(h, a, want, pos);
  }

  lemma {:induction false} BlockArgHead(h: Host, a: Arg, want: Want, pos: nat)
    requires a.Literal? && |CompileArg(h, a, want, pos)| <= DATA_LIMIT
    requires want == AsCode || (want == AsCond && !NoText(a.spelling, a.text))
    ensures Head(CompileArg(h, a, want, pos), BlockArg(a, want), StartsEmpty(a, want))
    decreases a, 0
  {
    var c := CompileStmts(h, a.body, pos + 2);
    assert CompileArg(h, a, want, pos) == BlockLiteral(c, pos);
    StmtsHead(h, a.body, pos + 2);
  }

  lemma {:induction false} ParenHead(h: Host, a: Arg, want: Want, pos: nat)
    requires a.Paren? && |CompileArg(h, a, want, pos)| <= DATA_LIMIT
    ensures Head(CompileArg(h, a, want, pos), false, StartsEmpty(a, want))
    decreases a, 0
  {
    var c := CompileStmts(h, a.stmts, pos);
    StmtsHead(h, a.stmts, pos);
    if a.stmts != Nil {
      assert CompileArg(h, a, want, pos)[0] == c[0];
    }
  }

  /** Statement code is never a block literal as a whole. */
  ghost predicate Start(c: Code, startsEmpty: bool) {
    && c != []
    && (c[0].op == BLOCK ==> c[0].data + 1 < |c|)
    && (if startsEmpty then c[0] == Inst(EMPTY, 0, 0) else c[0].op != EMPTY)
  }

  lemma {:induction false} StmtsHead(h: Host, ss: List<Stmt>, pos: nat)
    requires |CompileStmts(h, ss, pos)| <= DATA_LIMIT
    ensures var c := CompileStmts(h, ss, pos);
            && (c == [] <==> ss == Nil)
            && (c != [] ==> Start(c, StmtStartsEmpty(ss.head)))
    decreases ss
  {
    hide CompileStmt;
    match ss
    case Nil =>
    case Cons(s, rest) => StmtHead(h, s, pos);
  }

  lemma Prefixed(c: Code, rest: Code, isBlock: bool, startsEmpty: bool)
    requires Head(c, isBlock, startsEmpty) && rest != []
    ensures Start(c + rest, startsEmpty)
  {
    hide IsBlock;
  }

  lemma {:induction false} StmtHead(h: Host, s: Stmt, pos: nat)
    requires |CompileStmt(h, s, pos)| <= DATA_LIMIT
    ensures Start(CompileStmt(h, s, pos), StmtStartsEmpty(s))
    decreases s, 2
  {
    hide CompileArg, Head, IntLiteral, StringLiteral;
    match s
    case Assign(_, arg) =>
      TextHead(Word, []);
      Prefixed(StringLiteral([]), [Inst(ALIAS, 0, s.id)], false, false);
      if arg != Absent { FirstArg(h, arg, Any, pos, [Inst(ALIAS, 0, s.id)]); }
    case Result(arg) =>
      if arg != Absent { FirstArg(h, arg, Any, pos, [Inst(RESULT, 0, 0)]); }
    case Not(arg) =>
      if arg != Absent { FirstArg(h, arg, Any, pos, [Inst(NOT, 0, 0)]); }
    case Do(arg) =>
      if arg != Absent { FirstArg(h, arg, AsCode, pos, [Inst(DO, 0, 0)]); }
    case If(cond, _, _) =>
      var c := CompileArg(h, cond, Any, pos);
      FirstArg(h, cond, Any, pos, CompileStmt(h, s, pos)[|c|..]);
    case AndOr(_, ps) => if ps.Cons? { FirstParam(h, s, ps, pos); }
    case Command(_, _, ps) => if ps.Cons? { FirstParam(h, s, ps, pos); }
    case CallAlias(_, ps) => if ps.Cons? { FirstParam(h, s, ps, pos); }
    case IntStmt(i) =>
      IntHead(i);
      Prefixed(IntLiteral(i), [Inst(RESULT, 0, 0)], false, false);
    case StrStmt(t) =>
      TextHead(Word, t);
      Prefixed(StringLiteral(t), [Inst(RESULT, 0, 0)], false, false);
  }

  lemma {:induction false} FirstArg(h: Host, a: Arg, want: Want, pos: nat, rest: Code)
    requires rest != [] && |CompileArg(h, a, want, pos) + rest| <= DATA_LIMIT
    ensures Start(CompileArg(h, a, want, pos) + rest, StartsEmpty(a, want))
    decreases a, 2
  {
    hide CompileArg, Head, StartsEmpty, BlockArg;
    ArgHead(h, a, want, pos);
    Prefixed(CompileArg(h, a, want, pos), rest, BlockArg(a, want), StartsEmpty(a, want));
  }

  lemma {:induction false} FirstParam(h: Host, s: Stmt, ps: List<Param>, pos: nat)
    requires (s.AndOr? || s.Command? || s.CallAlias?) && ps == s.params && ps.Cons?
    requires |CompileStmt(h, s, pos)| <= DATA_LIMIT
    ensures Start(CompileStmt(h, s, pos), StmtStartsEmpty(s))
    decreases s, 1
  {
    hide CompileArg, StartsEmpty;
    var c := CompileArg(h, ps.head.arg, ps.head.want, pos);
    FirstArg(h, ps.head.arg, ps.head.want, pos, CompileStmt(h, s, pos)[|c|..]);
  }

  lemma {:induction false} ChainNotEmpty(h: Host, isOr: bool, ps: List<Param>, pos: nat)
    ensures JumpChain(h, isOr, ps, pos) != []
  {
    hide CompileArg;
    if ps.Cons? {
      ChainNotEmpty(h, isOr, ps.tail, pos + |CompileArg(h, ps.head.arg, ps.head.want, pos)|);
    }
  }

  // ---- the arms of `if` ----

  /** Two literal blocks, patched into a conditional jump over the true arm. */
  function JumpArms(t: Code, e: Code): Code {
    [Inst(JUMP_B, FLAG_FALSE, |t| + 3), Inst(ENTER_RESULT, 0, 0)] + t + [Inst(EXIT, 0, 0)]
    + ([Inst(JUMP, 0, |e| + 2), Inst(ENTER_RESULT, 0, 0)] + e + [Inst(EXIT, 0, 0)])
  }

  /** An empty true arm: no result yet, then jump over the false arm. */
  function SkipArms(e: Code): Code {
    [Inst(NULL, 0, 0), Inst(JUMP_B, FLAG_TRUE, |e| + 2), Inst(ENTER_RESULT, 0, 0)] + e + [Inst(EXIT, 0, 0)]
  }

  lemma BothBlocks(t: Code, e: Code, tpos: nat, epos: nat)
    requires t != [] && e != [] && |t| + 3 <= DATA_LIMIT && |e| + 3 <= DATA_LIMIT
    ensures CompileArms(BlockLiteral(t, tpos), BlockLiteral(e, epos)) == JumpArms(t, e)
  {
    var tb := BlockLiteral(t, tpos);
    var eb := BlockLiteral(e, epos);
    var exit := Inst(EXIT, 0, 0);
    assert tb[2..|tb| - 1] == t && ClearRet(tb[|tb| - 1]) == exit;
    assert eb[2..|eb| - 1] == e && ClearRet(eb[|eb| - 1]) == exit;
    assert IsBlock(tb) && IsBlock(eb);
    Armed([Inst(JUMP_B, FLAG_FALSE, |t| + 3), Inst(ENTER_RESULT, 0, 0)], tb, t,
          [Inst(JUMP, 0, |e| + 2), Inst(ENTER_RESULT, 0, 0)], eb, e, exit);
  }

  lemma Armed(j: Code, tb: Code, t: Code, k: Code, eb: Code, e: Code, exit: Word)
    requires |tb| >= 3 && tb[2..|tb| - 1] == t && |eb| >= 3 && eb[2..|eb| - 1] == e
    ensures j + tb[2..|tb| - 1] + [exit] + (k + eb[2..|eb| - 1] + [exit]) == j + t + [exit] + (k + e + [exit])
  {
  }

  lemma EmptyThenBlock(e: Code, tpos: nat, epos: nat)
    requires e != [] && |e| + 3 <= DATA_LIMIT
    ensures CompileArms(BlockLiteral([], tpos), BlockLiteral(e, epos)) == SkipArms(e)
  {
    var t := BlockLiteral([], tpos);
    var eb := BlockLiteral(e, epos);
    assert eb[2..|eb| - 1] == e;
    assert t[1..] == [];
  }

  lemma OtherArms(t: Code, e: Code)
    requires !(IsBlock(t) && IsBlock(e))
    requires IsBlock(e) && t != [] ==> t[0].op != EMPTY
    ensures CompileArms(t, e) == t + e + [Inst(COM, 0, IF_COMMAND)]
  {
  }

  /** The three shapes that the arms of `if` take are told apart by the syntax. */
  lemma ArmShapes(h: Host, thn: Arg, els: Arg, tpos: nat, epos: nat)
    requires |CompileArg(h, thn, AsCode, tpos)| <= DATA_LIMIT && |CompileArg(h, els, AsCode, epos)| <= DATA_LIMIT
    requires !MistakenForEmpty(thn, els) && thn != Absent
    ensures var t := CompileArg(h, thn, AsCode, tpos);
            var e := CompileArg(h, els, AsCode, epos);
            CompileArms(t, e) ==
            if BlockArg(thn, AsCode) && BlockArg(els, AsCode) then
              JumpArms(CompileStmts(h, thn.body, tpos + 2), CompileStmts(h, els.body, epos + 2))
            else if Skipped(thn, els) then
              SkipArms(CompileStmts(h, els.body, epos + 2))
            else
              t + e + [Inst(COM, 0, IF_COMMAND)]
  {
    hide CompileStmts, StmtStartsEmpty, CompileArms, IsBlock;
    ArgHead(h, thn, AsCode, tpos);
    ArgHead(h, els, AsCode, epos);
    if BlockArg(els, AsCode) {
      BodyFits(h, els, epos);
      if BlockArg(thn, AsCode) {
        BodyFits(h, thn, tpos);
        BothBlocks(CompileStmts(h, thn.body, tpos + 2), CompileStmts(h, els.body, epos + 2), tpos, epos);
      } else if Skipped(thn, els) {
        EmptyThenBlock(CompileStmts(h, els.body, epos + 2), tpos, epos);
        EmptyArm(h, thn, tpos);
      } else {
        OtherArms(CompileArg(h, thn, AsCode, tpos), CompileArg(h, els, AsCode, epos));
      }
    } else {
      OtherArms(CompileArg(h, thn, AsCode, tpos), CompileArg(h, els, AsCode, epos));
    }
  }

  lemma ArmsLength(t: Code, e: Code)
    ensures |t| + |e| <= |CompileArms(t, e)|
  {
  }

  lemma BodyFits(h: Host, a: Arg, pos: nat)
    requires BlockArg(a, AsCode) && |CompileArg(h, a, AsCode, pos)| <= DATA_LIMIT
    ensures var c := CompileStmts(h, a.body, pos + 2);
            c != [] && |c| + 3 <= DATA_LIMIT && CompileArg(h, a, AsCode, pos) == BlockLiteral(c, pos)
  {
    hide CompileStmts;
    ArgHead(h, a, AsCode, pos);
    assert CompileArg(h, a, AsCode, pos) == BlockLiteral(CompileStmts(h, a.body, pos + 2), pos);
  }

  lemma EmptyArm(h: Host, thn: Arg, pos: nat)
    requires (thn.Literal? && thn.body == Nil) || thn == Paren(Nil)
    ensures CompileArg(h, thn, AsCode, pos) == BlockLiteral([], pos)
  {
  }

  // ---- the chain of `&&` and `||` ----

  /** A block literal made into one link of the chain. */
  function Link(isOr: bool, c: Code, k: Code): Code
    requires |c| >= 3
  {
    [Inst(JUMP_RESULT, if isOr then FLAG_TRUE else FLAG_FALSE, |c| + |k| - 1), Inst(ENTER, 0, 0)]
    + c[2..|c| - 1] + [ClearRet(c[|c| - 1])] + k
  }

  lemma LinkOfChain(h: Host, isOr: bool, p: Param, rest: List<Param>, pos: nat)
    requires AllBlocks(h, Cons(p, rest), pos)
    ensures var c := CompileArg(h, p.arg, p.want, pos);
            && IsBlock(c) && |c| >= 3 && AllBlocks(h, rest, pos + |c|)
            && JumpChain(h, isOr, Cons(p, rest), pos) == Link(isOr, c, JumpChain(h, isOr, rest, pos + |c|))
            && |JumpChain(h, isOr, Cons(p, rest), pos)| == |c| + |JumpChain(h, isOr, rest, pos + |c|)|
  {
    hide CompileArg, IsBlock, Inst;
  }

  /** The patched chain is one word longer than the blocks it was patched from. */
  lemma {:induction false} ChainLength(h: Host, isOr: bool, ps: List<Param>, pos: nat)
    requires AllBlocks(h, ps, pos)
    ensures |JumpChain(h, isOr, ps, pos)| == |CompileParams(h, ps, pos)| + 1
  {
    hide CompileArg;
    match ps
    case Nil =>
    case Cons(p, rest) => ChainLength(h, isOr, rest, pos + |CompileArg(h, p.arg, p.want, pos)|);
  }
}
