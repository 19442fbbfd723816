/** How compiled code is laid out: whole instructions, jumps between them, and blocks within blocks. */
module Layout {
  import opened Words
  import opened Literals
  import opened Syntax
  import opened Emit
  import opened WellFormed

  predicate Enters(op: nat) { op == ENTER || op == ENTER_RESULT }

  predicate Jumps(op: nat) { op == JUMP || op == JUMP_B || op == JUMP_RESULT }

  /** Instructions that are neither part of a block nor a jump. */
  predicate Simple(op: nat) {
    op in {NULL, TRUE, FALSE, NOT, RESULT, RESULT_ARG, FORCE, VAL, VAL_INT, DO, EMPTY, COMPILE, COND, LOOKUP, ALIAS,
           CALL, COM, COM_V}
  }

  /** An instruction word and its payload. */
  function Size(w: Word): (n: nat)
    ensures n > 0
  {
    if w.op == VAL && w.ret == RET_STRING then 1 + PayloadSize(w.data)
    else if w.op == VAL && w.ret != RET_NULL then 2
    else if w.op == CALL || w.op == COM_V then 2
    else 1
  }

  /** Just past the EXIT that belongs to a block whose body begins here, `depth` blocks further in. */
  function ExitAt(c: Code, depth: nat): (r: Option<nat>)
    ensures r.Some? ==> 0 < r.value <= |c| && c[r.value - 1].op == EXIT
  {
    if c == [] || Size(c[0]) > |c| then None
    else if c[0].op == EXIT && depth == 0 then Some(1)
    else
      var d := if c[0].op == EXIT then depth - 1 else if c[0].op == BLOCK || Enters(c[0].op) then depth + 1 else depth;
      Later(Size(c[0]), ExitAt(c[Size(c[0])..], d))
  }

  function Later(n: nat, r: Option<nat>): Option<nat> {
    if r == None then None else Some(n + r.value)
  }

  /** A whole block, or a whole instruction. */
  function Unit(c: Code): (r: Option<nat>)
    requires c != []
    ensures r.Some? ==> 0 < r.value <= |c|
  {
    if c[0].op == BLOCK then (if |c| < 2 then None else Later(2, ExitAt(c[2..], 0)))
    else if Enters(c[0].op) then Later(1, ExitAt(c[1..], 0))
    else if Size(c[0]) <= |c| then Some(Size(c[0]))
    else None
  }

  /** A place between two units. */
  predicate Between(c: Code, k: nat)
    decreases |c|
  {
    k == 0 || (c != [] && Unit(c).Some? && Unit(c).value <= k && Between(c[Unit(c).value..], k - Unit(c).value))
  }

  /** The code at index `pos` of a program consists of whole units. A block's length leads just past its
      own EXIT and its OFFSET word holds the index of its body, which is not empty; a jump goes forward to
      a place between the units of the same block, or to its end. */
  predicate Laid(c: Code, pos: nat)
    decreases |c|, 1
  {
    c == [] || (Unit(c).Some? && UnitLaid(c, Unit(c).value, pos) && Laid(c[Unit(c).value..], pos + Unit(c).value))
  }

  predicate UnitLaid(c: Code, n: nat, pos: nat)
    requires 0 < n <= |c|
    decreases |c|, 0
  {
    if c[0].op == BLOCK then
      n >= 4 && c[0].data == n - 1 && c[1] == Fields(OFFSET, 0, pos + 2) && Laid(c[2..n - 1], pos + 2)
    else if Enters(c[0].op) then n >= 2 && Laid(c[1..n - 1], pos + 1)
    else if Jumps(c[0].op) then Between(c[1..], c[0].data)
    else Simple(c[0].op)
  }

  // ---- putting code together ----

  lemma {:induction false} ExitJoin(a: Code, b: Code, depth: nat)
    requires ExitAt(a, depth).Some?
    ensures ExitAt(a + b, depth) == ExitAt(a, depth)
    decreases |a|
  {
    var n := Size(a[0]);
    if !(a[0].op == EXIT && depth == 0) {
      assert (a + b)[n..] == a[n..] + b;
      ExitJoin(a[n..], b,
               if a[0].op == EXIT then depth - 1
               else if a[0].op == BLOCK || Enters(a[0].op) then depth + 1
               else depth);
    }
  }

  lemma UnitJoin(a: Code, b: Code)
    requires a != [] && Unit(a).Some?
    ensures Unit(a + b) == Unit(a)
  {
    if a[0].op == BLOCK {
      assert (a + b)[2..] == a[2..] + b;
      ExitJoin(a[2..], b, 0);
    } else if Enters(a[0].op) {
      assert (a + b)[1..] == a[1..] + b;
      ExitJoin(a[1..], b, 0);
    }
  }

  lemma {:induction false} BetweenJoin(a: Code, b: Code, k: nat)
    requires Between(a, k)
    ensures k <= |a| && Between(a + b, k)
    decreases |a|
  {
    if k > 0 {
      var n := Unit(a).value;
      UnitJoin(a, b);
      assert (a + b)[n..] == a[n..] + b;
      BetweenJoin(a[n..], b, k - n);
    }
  }

  lemma UnitLaidJoin(a: Code, b: Code, n: nat, pos: nat)
    requires 0 < n <= |a| && UnitLaid(a, n, pos)
    ensures UnitLaid(a + b, n, pos)
  {
    hide Laid, Between;
    if a[0].op == BLOCK {
      assert (a + b)[2..n - 1] == a[2..n - 1];
    } else if Enters(a[0].op) {
      assert (a + b)[1..n - 1] == a[1..n - 1];
    } else if Jumps(a[0].op) {
      assert (a + b)[1..] == a[1..] + b;
      BetweenJoin(a[1..], b, a[0].data);
    }
  }

  lemma {:induction false} LaidJoin(a: Code, b: Code, pos: nat)
    requires Laid(a, pos) && Laid(b, pos + |a|)
    ensures Laid(a + b, pos)
    decreases |a|
  {
    hide UnitLaid, Unit;
    if a == [] {
      assert a + b == b;
    } else {
      var n := Unit(a).value;
      UnitJoin(a, b);
      UnitLaidJoin(a, b, n, pos);
      assert (a + b)[n..] == a[n..] + b;
      LaidJoin(a[n..], b, pos + n);
    }
  }

  /** Between whole code and what follows there is such a place, and others lie further on. */
  lemma {:induction false} BetweenAfter(a: Code, b: Code, pos: nat, k: nat)
    requires Laid(a, pos) && Between(b, k)
    ensures Between(a + b, |a| + k)
    decreases |a|
  {
    hide Unit, UnitLaid;
    if a == [] {
      assert a + b == b;
    } else {
      var n := Unit(a).value;
      UnitJoin(a, b);
      assert (a + b)[n..] == a[n..] + b;
      BetweenAfter(a[n..], b, pos + n, k);
    }
  }

  /** Whole code in front of an EXIT changes nothing about where that is. */
  lemma {:induction false} ExitAfter(a: Code, b: Code, pos: nat, depth: nat)
    requires Laid(a, pos) && ExitAt(b, depth).Some?
    ensures ExitAt(a + b, depth) == Some(|a| + ExitAt(b, depth).value)
    decreases |a|, 1
  {
    hide ExitAt, UnitLaid, Unit;
    if a == [] {
      assert a + b == b;
    } else {
      var n := Unit(a).value;
      ExitAfter(a[n..], b, pos + n, depth);
      assert (a + b)[n..] == a[n..] + b;
      UnitJoin(a, b);
      UnitLaidJoin(a, b, n, pos);
      UnitPassed(a + b, n, pos, depth);
    }
  }

  /** A unit in front. */
  lemma {:induction false} UnitPassed(c: Code, n: nat, pos: nat, depth: nat)
    requires 0 < n <= |c| && Unit(c) == Some(n) && UnitLaid(c, n, pos) && ExitAt(c[n..], depth).Some?
    ensures ExitAt(c, depth) == Some(n + ExitAt(c[n..], depth).value)
    decreases n, 0
  {
    hide ExitAt, Laid, Between;
    if c[0].op == BLOCK {
      BodyPassed(c, 2, n, pos, depth);
      ExitHead(c, depth);
      ExitHead(c[1..], depth + 1);
      assert c[1..][1..] == c[2..];
    } else if Enters(c[0].op) {
      BodyPassed(c, 1, n, pos, depth);
      ExitHead(c, depth);
    } else {
      ExitHead(c, depth);
    }
  }

  lemma ExitHead(c: Code, depth: nat)
    requires c != [] && Size(c[0]) <= |c| && !(c[0].op == EXIT && depth == 0)
    ensures c[0].op == EXIT ==> ExitAt(c, depth) == Later(Size(c[0]), ExitAt(c[Size(c[0])..], depth - 1))
    ensures c[0].op == BLOCK || Enters(c[0].op) ==>
              Size(c[0]) == 1 && ExitAt(c, depth) == Later(1, ExitAt(c[1..], depth + 1))
    ensures !(c[0].op == EXIT || c[0].op == BLOCK || Enters(c[0].op)) ==>
              ExitAt(c, depth) == Later(Size(c[0]), ExitAt(c[Size(c[0])..], depth))
  {
  }

  /** The body of a block in front, and its own EXIT. */
  lemma {:induction false} BodyPassed(c: Code, h: nat, n: nat, pos: nat, depth: nat)
    requires 1 <= h < n <= |c| && Laid(c[h..n - 1], pos + h) && c[n - 1].op == EXIT && ExitAt(c[n..], depth).Some?
    ensures ExitAt(c[h..], depth + 1) == Some(n - h + ExitAt(c[n..], depth).value)
    decreases n - h, 2
  {
    hide ExitAt, Laid;
    var body, exit := c[h..n - 1], c[n - 1..];
    assert exit[1..] == c[n..];
    ExitHead(exit, depth + 1);
    ExitAfter(body, exit, pos + h, depth + 1);
    assert c[h..] == body + exit;
  }

  // ---- the shapes of units ----

  lemma OneUnit(c: Code, pos: nat)
    requires c != [] && Unit(c) == Some(|c|) && UnitLaid(c, |c|, pos)
    ensures Laid(c, pos)
  {
    hide Unit, UnitLaid;
    assert c[|c|..] == [];
  }

  lemma SimpleLaid(c: Code, pos: nat)
    requires c != [] && |c| == Size(c[0]) && Simple(c[0].op)
    ensures Laid(c, pos)
  {
    OneUnit(c, pos);
  }

  lemma ExitHere(c: Code)
    requires c != [] && c[0].op == EXIT
    ensures ExitAt(c, 0) == Some(1)
  {
  }

  lemma ExitOf(body: Code, x: Word, rest: Code, pos: nat)
    requires Laid(body, pos) && x.op == EXIT
    ensures ExitAt(body + [x] + rest, 0) == Some(|body| + 1)
  {
    hide ExitAt, Laid;
    var b := [x] + rest;
    ExitHere(b);
    ExitAfter(body, b, pos, 0);
    assert body + [x] + rest == body + b;
  }

  lemma BlockLaid(body: Code, pos: nat)
    requires Laid(body, pos + 2) && (body != [] ==> pos + |body| + 3 <= DATA_LIMIT)
    ensures Laid(BlockLiteral(body, pos), pos)
  {
    hide ExitAt, Laid;
    var c := BlockLiteral(body, pos);
    if body == [] {
      SimpleLaid(c, pos);
    } else {
      var x := Inst(EXIT, 0, 0);
      ExitOf(body, x, [], pos + 2);
      WrappedBy([Inst(BLOCK, 0, |body| + 2), Inst(OFFSET, 0, pos + 2)], body, x);
      OneUnit(c, pos);
    }
  }

  lemma WrappedBy(head: Code, body: Code, x: Word)
    ensures var c := head + body + [x];
            c[|head|..] == body + [x] + [] && c[|head|..|c| - 1] == body && c[|c| - 1] == x
  {
  }

  lemma EnterLaid(w: Word, body: Code, x: Word, pos: nat)
    requires Enters(w.op) && Laid(body, pos + 1) && x.op == EXIT
    ensures Laid([w] + body + [x], pos)
  {
    hide ExitAt, Laid;
    ExitOf(body, x, [], pos + 1);
    WrappedBy([w], body, x);
    OneUnit([w] + body + [x], pos);
  }

  lemma JumpLaid(w: Word, rest: Code, pos: nat)
    requires Jumps(w.op) && Laid(rest, pos + 1) && Between(rest, w.data)
    ensures Laid([w] + rest, pos)
  {
    assert ([w] + rest)[1..] == rest;
  }

  // ---- what the emitters produce ----

  lemma TextLaid(spelling: Spelling, text: Text, pos: nat)
    requires |text| < DATA_LIMIT
    ensures Laid(TextLiteral(spelling, text), pos) && Laid(LongString(text), pos) && Laid(StringLiteral(text), pos)
  {
    SimpleLaid(LongString(text), pos);
    SimpleLaid(StringLiteral(text), pos);
  }

  lemma IntLaid(i: Int32, pos: nat)
    ensures Laid(IntLiteral(i), pos)
  {
    SimpleLaid(IntLiteral(i), pos);
  }

  /** An instruction after whole code. */
  lemma ThenSimple(c: Code, d: Code, pos: nat)
    requires Laid(c, pos) && d != [] && |d| == Size(d[0]) && Simple(d[0].op)
    ensures Laid(c + d, pos)
  {
    SimpleLaid(d, pos + |c|);
    LaidJoin(c, d, pos);
  }

  lemma ThenFinish(c: Code, want: Want, pos: nat)
    requires Laid(c, pos)
    ensures Laid(c + Finish(want), pos)
  {
    if Finish(want) != [] {
      ThenSimple(c, Finish(want), pos);
    } else {
      assert c + Finish(want) == c;
    }
  }

  /** Both of gen_if's patches, and the call it falls back to. */
  lemma ArmsLaid(t: Code, e: Code, pos: nat)
    requires Laid(t, pos) && Laid(e, pos + |t|) && pos + |t| + |e| <= DATA_LIMIT
    ensures Laid(CompileArms(t, e), pos)
  {
    hide Laid, IsBlock;
    if IsBlock(t) && IsBlock(e) && |t| >= 3 && |e| >= 3 {
      BothArmsLaid(t, e, pos);
    } else if t != [] && IsBlock(e) && |e| >= 3 && ClearRet(t[0]) == Inst(EMPTY, 0, 0) {
      SkipArmsLaid(t, e, pos);
    } else {
      LaidJoin(t, e, pos);
      ThenSimple(t + e, [Inst(COM, 0, IF_COMMAND)], pos);
    }
  }

  /** One arm of a patched `if`, or one link of a chain: the block, entered in place by `w`. */
  function Entered(w: Word, b: Code): Code
    requires |b| >= 3
  {
    [w] + b[2..|b| - 1] + [ClearRet(b[|b| - 1])]
  }

  lemma EnteredLaid(w: Word, b: Code, pos: nat)
    requires Laid(b, pos) && IsBlock(b) && Enters(w.op) && |b| <= DATA_LIMIT
    ensures |b| >= 4 && Laid(Entered(w, b), pos + 1)
  {
    EnterLaid(w, b[2..|b| - 1], ClearRet(b[|b| - 1]), pos + 1);
  }

  lemma JumpToEnd(w: Word, rest: Code, pos: nat)
    requires Laid(rest, pos + 1) && Jumps(w.op) && w.data == |rest|
    ensures Laid([w] + rest, pos)
  {
    hide Laid;
    assert rest + [] == rest;
    BetweenAfter(rest, [], pos + 1, 0);
    JumpLaid(w, rest, pos);
  }

  lemma BothArmsLaid(t: Code, e: Code, pos: nat)
    requires Laid(t, pos) && Laid(e, pos + |t|) && IsBlock(t) && IsBlock(e) && pos + |t| + |e| <= DATA_LIMIT
    requires |t| >= 3 && |e| >= 3
    ensures Laid(CompileArms(t, e), pos)
  {
    hide Laid, IsBlock, CompileArms, Entered;
    var enter := Inst(ENTER_RESULT, 0, 0);
    EnteredLaid(enter, t, pos);
    EnteredLaid(enter, e, pos + |t|);
    BothArmsCode(t, e);
    var thn, els := Entered(enter, t), Entered(enter, e);
    var over := Inst(JUMP, 0, |e| - 1);
    JumpToEnd(over, els, pos + |t|);
    LaidJoin(thn, [over] + els, pos + 1);
    BetweenAfter(thn, [over] + els, pos + 1, 1);
    JumpLaid(Inst(JUMP_B, FLAG_FALSE, |t|), thn + ([over] + els), pos);
  }

  lemma BothArmsCode(t: Code, e: Code)
    requires IsBlock(t) && IsBlock(e) && |t| >= 3 && |e| >= 3
    ensures var enter := Inst(ENTER_RESULT, 0, 0);
            && |Entered(enter, t)| == |t| - 1 && |Entered(enter, e)| == |e| - 1
            && CompileArms(t, e) == [Inst(JUMP_B, FLAG_FALSE, |t|)]
                                    + (Entered(enter, t) + ([Inst(JUMP, 0, |e| - 1)] + Entered(enter, e)))
  {
    hide IsBlock, ClearRet, Inst;
  }

  lemma SkipArmsLaid(t: Code, e: Code, pos: nat)
    requires Laid(t, pos) && Laid(e, pos + |t|) && IsBlock(e) && |e| >= 3 && pos + |t| + |e| <= DATA_LIMIT
    requires t != [] && ClearRet(t[0]) == Inst(EMPTY, 0, 0)
    ensures Laid(CompileArms(t, e), pos)
  {
    hide Laid, IsBlock, CompileArms, Entered;
    var enter := Inst(ENTER_RESULT, 0, 0);
    var first := [Inst(NULL, e[0].ret, 0)] + t[1..];
    FirstReplaced(t, Inst(NULL, e[0].ret, 0), pos);
    EnteredLaid(enter, e, pos + |t|);
    SkipArmsCode(t, e);
    var over := Inst(JUMP_B, FLAG_TRUE, |e| - 1);
    JumpToEnd(over, Entered(enter, e), pos + |t|);
    LaidJoin(first, [over] + Entered(enter, e), pos);
  }

  lemma SkipArmsCode(t: Code, e: Code)
    requires IsBlock(e) && |e| >= 3 && t != [] && ClearRet(t[0]) == Inst(EMPTY, 0, 0)
    ensures var enter := Inst(ENTER_RESULT, 0, 0);
            && |Entered(enter, e)| == |e| - 1
            && CompileArms(t, e) == ([Inst(NULL, e[0].ret, 0)] + t[1..])
                                    + ([Inst(JUMP_B, FLAG_TRUE, |e| - 1)] + Entered(enter, e))
  {
    NotBlock(t);
    hide IsBlock, ClearRet, Inst;
  }

  lemma NotBlock(t: Code)
    requires t != [] && ClearRet(t[0]) == Inst(EMPTY, 0, 0)
    ensures !IsBlock(t)
  {
  }

  lemma FirstReplaced(t: Code, w: Word, pos: nat)
    requires Laid(t, pos) && t != [] && t[0].op == EMPTY && w.op == NULL
    ensures Laid([w] + t[1..], pos)
  {
    assert ([w] + t[1..])[1..] == t[1..];
  }

  /** A link in front of the rest of the chain. */
  lemma LinkLaid(isOr: bool, c: Code, k: Code, pos: nat)
    requires Laid(c, pos) && Laid(k, pos + |c|) && IsBlock(c) && |c| >= 3 && pos + |c| + |k| <= DATA_LIMIT
    ensures Laid(Link(isOr, c, k), pos)
  {
    hide Laid, IsBlock, Link, Entered;
    var enter := Inst(ENTER, 0, 0);
    EnteredLaid(enter, c, pos);
    LinkCode(isOr, c, k);
    LaidJoin(Entered(enter, c), k, pos + 1);
    var over := Inst(JUMP_RESULT, if isOr then FLAG_TRUE else FLAG_FALSE, |c| + |k| - 1);
    JumpToEnd(over, Entered(enter, c) + k, pos);
  }

  lemma LinkCode(isOr: bool, c: Code, k: Code)
    requires |c| >= 3
    ensures var enter := Inst(ENTER, 0, 0);
            && |Entered(enter, c)| == |c| - 1
            && Link(isOr, c, k) == [Inst(JUMP_RESULT, if isOr then FLAG_TRUE else FLAG_FALSE, |c| + |k| - 1)]
                                   + (Entered(enter, c) + k)
  {
    hide ClearRet, Inst;
  }

  // ---- every construct ----

  lemma {:induction false} ArgLaid(h: Host, a: Arg, want: Want, pos: nat)
    requires GoodArg(h, a) && pos + |CompileArg(h, a, want, pos)| <= DATA_LIMIT
    ensures Laid(CompileArg(h, a, want, pos), pos)
    decreases a, 0
  {
    hide Laid, IntLiteral, StringLiteral, LongString, CompileStmts, GoodStmts, BlockLiteral;
    match a
    case Absent => SimpleLaid(NullLiteral, pos);
    case Literal(spelling, text, body) =>
      if want == AsCode || (want == AsCond && !NoText(spelling, text)) {
        BlockLength(CompileStmts(h, body, pos + 2), pos);
        NothingLaid(pos + 2);
        if CompileStmts(h, body, pos + 2) != [] {
          StmtsLaid(h, body, pos + 2);
        }
        BlockLaid(CompileStmts(h, body, pos + 2), pos);
      } else if want == AsInt {
        IntLaid(h.toInt(text), pos);
        TextLaid(spelling, text, pos);
        ThenSimple(LongString(text), [Inst(FORCE, RET_INT, 0)], pos);
      } else {
        SimpleLaid(NullLiteral, pos);
        TextLaid(spelling, text, pos);
      }
    case Lookup(id) =>
      SimpleLaid([Inst(LOOKUP, LookupRet(want), id)], pos);
      ThenFinish([Inst(LOOKUP, LookupRet(want), id)], want, pos);
    case Paren(stmts) =>
      var c := CompileStmts(h, stmts, pos);
      if c == [] {
        EmptyLaid(h, want, pos);
      } else {
        StmtsLaid(h, stmts, pos);
        ThenSimple(c, [Inst(RESULT_ARG, RetOf(want), 0)], pos);
        ThenFinish(c + [Inst(RESULT_ARG, RetOf(want), 0)], want, pos);
        assert c + [Inst(RESULT_ARG, RetOf(want), 0)] + Finish(want)
            == c + ([Inst(RESULT_ARG, RetOf(want), 0)] + Finish(want));
      }
  }

  lemma BlockLength(body: Code, pos: nat)
    ensures body != [] ==> |BlockLiteral(body, pos)| == |body| + 3
  {
  }

  lemma EmptyLaid(h: Host, want: Want, pos: nat)
    ensures Laid(EmptyLiteral(h, want), pos)
  {
    hide Laid;
    match want
    case AsInt => IntLaid(h.toInt([]), pos);
    case AsString => TextLaid(Word, [], pos);
    case _ => SimpleLaid(EmptyLiteral(h, want), pos);
  }

  lemma {:induction false} ParamsLaid(h: Host, ps: List<Param>, pos: nat)
    requires GoodParams(h, ps) && pos + |CompileParams(h, ps, pos)| <= DATA_LIMIT
    ensures Laid(CompileParams(h, ps, pos), pos)
    decreases ps
  {
    hide Laid, CompileArg, GoodArg;
    match ps
    case Nil => NothingLaid(pos);
    case Cons(p, rest) =>
      var c := CompileArg(h, p.arg, p.want, pos);
      ArgLaid(h, p.arg, p.want, pos);
      ParamsLaid(h, rest, pos + |c|);
      LaidJoin(c, CompileParams(h, rest, pos + |c|), pos);
  }

  lemma NothingLaid(pos: nat)
    ensures Laid([], pos)
  {
  }

  lemma {:induction false} StmtsLaid(h: Host, ss: List<Stmt>, pos: nat)
    requires GoodStmts(h, ss) && pos + |CompileStmts(h, ss, pos)| <= DATA_LIMIT
    ensures Laid(CompileStmts(h, ss, pos), pos)
    decreases ss
  {
    hide Laid, CompileStmt, GoodStmt;
    match ss
    case Nil => NothingLaid(pos);
    case Cons(s, rest) =>
      var c := CompileStmt(h, s, pos);
      StmtLaid(h, s, pos);
      StmtsLaid(h, rest, pos + |c|);
      LaidJoin(c, CompileStmts(h, rest, pos + |c|), pos);
  }

  lemma {:induction false} ChainLaid(h: Host, isOr: bool, ps: List<Param>, pos: nat)
    requires GoodParams(h, ps) && AllBlocks(h, ps, pos) && pos + |JumpChain(h, isOr, ps, pos)| <= DATA_LIMIT
    ensures Laid(JumpChain(h, isOr, ps, pos), pos)
    decreases ps
  {
    hide Laid, CompileArg, GoodArg, IsBlock, Link, JumpChain, AllBlocks;
    match ps
    case Nil => LastLaid(h, isOr, pos);
    case Cons(p, rest) =>
      var c := CompileArg(h, p.arg, p.want, pos);
      LinkOfChain(h, isOr, p, rest, pos);
      ArgLaid(h, p.arg, p.want, pos);
      ChainLaid(h, isOr, rest, pos + |c|);
      LinkLaid(isOr, c, JumpChain(h, isOr, rest, pos + |c|), pos);
  }

  lemma LastLaid(h: Host, isOr: bool, pos: nat)
    ensures Laid(JumpChain(h, isOr, Nil, pos), pos)
  {
    hide Laid;
    var flag := if isOr then FLAG_TRUE else FLAG_FALSE;
    NothingLaid(pos + 1);
    JumpToEnd(Inst(JUMP_RESULT, flag, 0), [], pos);
    assert [Inst(JUMP_RESULT, flag, 0)] + [] == JumpChain(h, isOr, Nil, pos);
  }

  lemma {:induction false} ArgThen(h: Host, a: Arg, want: Want, w: Word, pos: nat)
    requires GoodArg(h, a) && pos + |CompileArg(h, a, want, pos)| <= DATA_LIMIT && Simple(w.op) && Size(w) == 1
    ensures Laid(CompileArg(h, a, want, pos) + [w], pos)
    decreases a, 1
  {
    hide Laid, CompileArg, GoodArg;
    ArgLaid(h, a, want, pos);
    ThenSimple(CompileArg(h, a, want, pos), [w], pos);
  }

  lemma {:induction false} StmtLaid(h: Host, s: Stmt, pos: nat)
    requires GoodStmt(h, s) && pos + |CompileStmt(h, s, pos)| <= DATA_LIMIT
    ensures Laid(CompileStmt(h, s, pos), pos)
    decreases s
  {
    hide Laid, CompileArg, GoodArg, CompileParams, GoodParams, IntLiteral, StringLiteral, CompileArms, JumpChain,
         AllBlocks;
    match s
    case Assign(id, arg) =>
      if arg == Absent {
        TextLaid(Word, [], pos);
        ThenSimple(StringLiteral([]), [Inst(ALIAS, 0, id)], pos);
      } else {
        ArgThen(h, arg, Any, Inst(ALIAS, 0, id), pos);
      }
    case Result(arg) =>
      if arg == Absent { SimpleLaid([Inst(NULL, 0, 0)], pos); } else { ArgThen(h, arg, Any, Inst(RESULT, 0, 0), pos); }
    case Not(arg) =>
      if arg == Absent { SimpleLaid([Inst(TRUE, 0, 0)], pos); } else { ArgThen(h, arg, Any, Inst(NOT, 0, 0), pos); }
    case Do(arg) =>
      if arg == Absent { SimpleLaid([Inst(NULL, 0, 0)], pos); } else { ArgThen(h, arg, AsCode, Inst(DO, 0, 0), pos); }
    case If(cond, thn, els) => IfLaid(h, s, pos);
    case AndOr(isOr, ps) =>
      if ps == Nil {
        SimpleLaid([Inst(if isOr then FALSE else TRUE, 0, 0)], pos);
      } else {
        AndOrLaid(h, s, pos);
      }
    case Command(id, variadic, ps) =>
      ParamsLaid(h, ps, pos);
      ThenSimple(CompileParams(h, ps, pos), CallWords(id, variadic, Count(ps)), pos);
    case CallAlias(id, ps) =>
      ParamsLaid(h, ps, pos);
      ThenSimple(CompileParams(h, ps, pos), [Inst(CALL, 0, id), OfBits(Count(ps) % WORD_LIMIT)], pos);
    case IntStmt(i) =>
      IntLaid(i, pos);
      ThenSimple(IntLiteral(i), [Inst(RESULT, 0, 0)], pos);
    case StrStmt(t) =>
      TextLaid(Word, t, pos);
      ThenSimple(StringLiteral(t), [Inst(RESULT, 0, 0)], pos);
  }

  lemma {:induction false} IfLaid(h: Host, s: Stmt, pos: nat)
    requires s.If? && GoodStmt(h, s) && pos + |CompileStmt(h, s, pos)| <= DATA_LIMIT
    ensures Laid(CompileStmt(h, s, pos), pos)
    decreases s, 0
  {
    hide Laid, CompileArg, GoodArg, CompileArms, MistakenForEmpty;
    var c := CompileArg(h, s.cond, Any, pos);
    var t := CompileArg(h, s.thn, AsCode, pos + |c|);
    var e := CompileArg(h, s.els, AsCode, pos + |c| + |t|);
    ArmsLength(t, e);
    ArgLaid(h, s.cond, Any, pos);
    ArgLaid(h, s.thn, AsCode, pos + |c|);
    ArgLaid(h, s.els, AsCode, pos + |c| + |t|);
    ArmsLaid(t, e, pos + |c|);
    LaidJoin(c, CompileArms(t, e), pos);
  }

  lemma {:induction false} AndOrLaid(h: Host, s: Stmt, pos: nat)
    requires s.AndOr? && s.params.Cons? && GoodStmt(h, s) && pos + |CompileStmt(h, s, pos)| <= DATA_LIMIT
    ensures Laid(CompileStmt(h, s, pos), pos)
    decreases s, 0
  {
    hide Laid, CompileArg, GoodArg, CompileParams, JumpChain, AllBlocks, Wanted, Count;
    var p, rest := s.params.head, s.params.tail;
    var c := CompileArg(h, p.arg, p.want, pos);
    ArgLaid(h, p.arg, p.want, pos);
    if AllBlocks(h, rest, pos + |c|) {
      ChainLaid(h, s.isOr, rest, pos + |c|);
      LaidJoin(c, JumpChain(h, s.isOr, rest, pos + |c|), pos);
    } else {
      var k := CompileParams(h, rest, pos + |c|);
      var call := CallWords(if s.isOr then OR_COMMAND else AND_COMMAND, true, Count(s.params));
      ParamsLaid(h, rest, pos + |c|);
      ThenSimple(k, call, pos + |c|);
      LaidJoin(c, k + call, pos);
    }
  }

  /** A whole program: START, whole units from index 1, and EXIT. */
  ghost predicate Whole(prog: Code) {
    |prog| >= 2 && prog[0].op == START && Laid(prog[1..|prog| - 1], 1) && prog[|prog| - 1].op == EXIT
  }

  /** Whatever is compiled, with both patchers at work at every level, is laid out like this. */
  lemma MainLaid(h: Host, ss: List<Stmt>)
    requires GoodStmts(h, ss) && |CompileMain(h, ss)| <= DATA_LIMIT
    ensures Whole(CompileMain(h, ss))
  {
    hide Laid;
    StmtsLaid(h, ss, 1);
    var prog := CompileMain(h, ss);
    assert prog[1..|prog| - 1] == CompileStmts(h, ss, 1);
  }
}
