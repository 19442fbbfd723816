/** The emitter as the source runs it: every operation appends to one code buffer, and some of them
    go back and overwrite words in it (src/cs_gen.cc, driven in the parser's order). */
module Gen {
  import opened Words
  import opened Literals
  import opened Syntax
  import opened Emit
  import opened WellFormed

  /** gen_if patches exactly these arms. */
  predicate Patchable(t: Code, e: Code) {
    IsBlock(e) && (IsBlock(t) || (t != [] && ClearRet(t[0]) == Inst(EMPTY, 0, 0)))
  }

  class GenState {
    const h: Host
    var code: Code

    constructor (h: Host)
      ensures this.h == h && code == []
    {
      this.h := h;
      code := [];
    }

    method PushBack(w: Word)
      modifies this
      ensures code == old(code) + [w]
    {
      code := code + [w];
    }

    method Append(c: Code)
      modifies this
      ensures code == old(code) + c
    {
      code := code + c;
    }

    /** `code[idx]` up to `epos` is one block literal. */
    predicate IsBlockAt(idx: nat, epos: nat)
      requires idx < epos <= |code|
      reads this
    {
      ClearRet(code[idx]) == Inst(BLOCK, 0, epos - idx - 1)
    }

    method GenValInteger(v: Int32)
      modifies this
      ensures code == old(code) + IntLiteral(v)
    {
      if -0x80_0000 <= v <= 0x7F_FFFF {
        PushBack(Inst(VAL_INT, RET_INT, if v < 0 then v + DATA_LIMIT else v));
      } else {
        PushBack(Inst(VAL, RET_INT, 0));
        PushBack(OfBits(FromInt32(v)));
      }
    }

    method GenValString(v: Text)
      modifies this
      ensures code == old(code) + StringLiteral(v)
    {
      if |v| <= 3 {
        PushBack(Inst(VAL_INT, RET_STRING, Pad4(v)));
      } else {
        GenLongString(v);
      }
    }

    method GenLongString(v: Text)
      modifies this
      ensures code == old(code) + LongString(v)
    {
      PushBack(Inst(VAL, RET_STRING, |v|));
      Append(PackBytes(v));
    }

    /** gen_val with empty text */
    method GenEmpty(want: Want)
      modifies this
      ensures code == old(code) + EmptyLiteral(h, want)
    {
      match want
      case AsString => GenValString([]);
      case AsInt => GenValInteger(h.toInt([]));
      case AsCode => PushBack(Inst(EMPTY, 0, 0));
      case _ => Append(NullLiteral);
    }

    /** COMPILE or COND after a value, where code is wanted. */
    method GenFinish(want: Want)
      modifies this
      ensures code == old(code) + Finish(want)
    {
      match want
      case AsCode => PushBack(Inst(COMPILE, 0, 0));
      case AsCond => PushBack(Inst(COND, 0, 0));
      case _ =>
    }

    method GenCommandCall(id: nat, variadic: bool, numargs: nat)
      modifies this
      ensures code == old(code) + CallWords(id, variadic, numargs)
    {
      if variadic {
        PushBack(Inst(COM_V, 0, id));
        PushBack(OfBits(numargs % WORD_LIMIT));
      } else {
        PushBack(Inst(COM, 0, id));
      }
    }

    /** gen_block: the length is filled in when the body is known; an empty body is taken back. */
    method GenBlock(body: List<Stmt>)
      requires |code| + |BlockLiteral(CompileStmts(h, body, |code| + 2), |code|)| < DATA_LIMIT
      modifies this
      ensures code == old(code) + BlockLiteral(CompileStmts(h, body, |old(code)| + 2), |old(code)|)
      decreases body, 1
    {
      hide CompileStmts, BlockLiteral;
      ghost var before, c := code, CompileStmts(h, body, |code| + 2);
      var csz := |code|;
      BlockSize(c, csz);
      PushBack(Inst(BLOCK, 0, 0));
      PushBack(Inst(OFFSET, 0, csz + 2));
      ParseStmts(body);
      CloseBlock(csz, before, c);
    }

    method CloseBlock(csz: nat, ghost before: Code, ghost c: Code)
      requires csz == |before| && code == before + [Inst(BLOCK, 0, 0)] + [Inst(OFFSET, 0, csz + 2)] + c
      modifies this
      ensures code == before + BlockLiteral(c, csz)
    {
      hide Inst;
      if |code| > csz + 2 {
        PushBack(Inst(EXIT, 0, 0));
        code := code[csz := Inst(BLOCK, 0, |code| - csz - 1)];
      } else {
        code := code[..csz];
        PushBack(Inst(EMPTY, 0, 0));
      }
    }

    /** gen_if: true if the arms have been patched in place, false if a call is needed. */
    method GenIf(tpos: nat, fpos: nat) returns (patched: bool)
      requires tpos < fpos < |code|
      requires IsBlock(code[fpos..]) ==> |code| - fpos >= 3
      requires IsBlock(code[tpos..fpos]) ==> fpos - tpos >= 3
      modifies this
      ensures var t, e := old(code[tpos..fpos]), old(code[fpos..]);
              && patched == Patchable(t, e)
              && code == if patched then old(code[..tpos]) + CompileArms(t, e) else old(code)
    {
      hide Inst, ClearRet, CompileArms;
      if !IsBlockAt(fpos, |code|) {
        return false;
      }
      if IsBlockAt(tpos, fpos) {
        PatchBoth(tpos, fpos);
        return true;
      } else if ClearRet(code[tpos]) == Inst(EMPTY, 0, 0) {
        PatchEmpty(tpos, fpos);
        return true;
      }
      return false;
    }

    method PatchBoth(tpos: nat, fpos: nat)
      requires tpos + 3 <= fpos && fpos + 3 <= |code|
      requires IsBlock(code[tpos..fpos]) && IsBlock(code[fpos..])
      modifies this
      ensures code == old(code[..tpos]) + CompileArms(old(code[tpos..fpos]), old(code[fpos..]))
    {
      hide Inst, ClearRet, IsBlock, CompileArms, JumpAndEnter;
      ghost var pre, t, e := code[..tpos], code[tpos..fpos], code[fpos..];
      PatchBlock(tpos, fpos, Inst(JUMP_B, FLAG_FALSE, fpos - tpos));
      Sliced(code, pre, JumpAndEnter(t, Inst(JUMP_B, FLAG_FALSE, |t|)), e);
      PatchBlock(fpos, |code|, Inst(JUMP, 0, |code| - fpos - 1));
      assert code == pre + (JumpAndEnter(t, Inst(JUMP_B, FLAG_FALSE, |t|)) + JumpAndEnter(e, Inst(JUMP, 0, |e| - 1)));
      BothPatched(t, e);
    }

    method PatchEmpty(tpos: nat, fpos: nat)
      requires tpos < fpos && fpos + 3 <= |code| && ClearRet(code[tpos]) == Inst(EMPTY, 0, 0)
      requires !IsBlock(code[tpos..fpos]) && IsBlock(code[fpos..])
      modifies this
      ensures code == old(code[..tpos]) + CompileArms(old(code[tpos..fpos]), old(code[fpos..]))
    {
      hide Inst, ClearRet, IsBlock, CompileArms, JumpAndEnter;
      ghost var pre, t, e := code[..tpos], code[tpos..fpos], code[fpos..];
      code := code[tpos := Inst(NULL, code[fpos].ret, 0)];
      assert code == pre + ([Inst(NULL, e[0].ret, 0)] + t[1..]) + e;
      Sliced(code, pre, [Inst(NULL, e[0].ret, 0)] + t[1..], e);
      PatchBlock(fpos, |code|, Inst(JUMP_B, FLAG_TRUE, |code| - fpos - 1));
      assert code == pre + (([Inst(NULL, e[0].ret, 0)] + t[1..]) + JumpAndEnter(e, Inst(JUMP_B, FLAG_TRUE, |e| - 1)));
      EmptyPatched(t, e);
    }

    /** Turn the block literal from `lo` to `hi` into a jump and an entered block. */
    method PatchBlock(lo: nat, hi: nat, jump: Word)
      requires lo + 3 <= hi <= |code|
      modifies this
      ensures |code| == |old(code)|
      ensures code == old(code[..lo]) + JumpAndEnter(old(code[lo..hi]), jump) + old(code[hi..])
    {
      hide Inst, ClearRet;
      PatchedSlice(code, lo, hi, jump, Inst(ENTER_RESULT, 0, 0), ClearRet(code[hi - 1]));
      code := code[lo := jump];
      code := code[lo + 1 := Inst(ENTER_RESULT, 0, 0)];
      code := code[hi - 1 := ClearRet(code[hi - 1])];
    }

    /** gen_and_or: every block literal from `start` on becomes a conditional jump to the end and an
        entered block. */
    method GenAndOr(isOr: bool, start: nat, ghost ps: List<Param>)
      requires start <= |code| && |code| + 1 <= DATA_LIMIT
      requires code[start..] == CompileParams(h, ps, start) && AllBlocks(h, ps, start)
      modifies this
      ensures code == old(code[..start]) + JumpChain(h, isOr, ps, start)
    {
      hide CompileArg, CompileParams, AllBlocks, JumpChain, Inst, Link;
      var op := Inst(JUMP_RESULT, if isOr then FLAG_TRUE else FLAG_FALSE, 0);
      PushBack(op);
      var end := |code|;
      var s := start;
      ghost var rest := ps;
      ghost var goal := old(code[..start]) + JumpChain(h, isOr, ps, start);
      while s + 1 < end
        invariant start <= s < end == |code|
        invariant code[s..] == CompileParams(h, rest, s) + [op]
        invariant AllBlocks(h, rest, s)
        invariant code[..s] + JumpChain(h, isOr, rest, s) == goal
      {
        LinkAhead(h, isOr, rest, s, op, code[s..]);
        ghost var c := CompileArg(h, rest.head.arg, rest.head.want, s);
        var len := PatchLink(isOr, s, end, c, JumpChain(h, isOr, rest.tail, s + |c|));
        s := s + len + 1;
        rest := rest.tail;
      }
      ChainEnd(h, isOr, rest, s, op, code[s..]);
      assert code == code[..s] + code[s..];
    }

    /** One round of the patch loop. */
    method PatchLink(isOr: bool, s: nat, end: nat, ghost c: Code, ghost k: Code) returns (len: nat)
      requires |c| >= 3 && end == |code| == s + |c| + |k|
      requires code[s..][..|c|] == c && c[0].data == |c| - 1
      modifies this
      ensures len + 1 == |c| && |code| == |old(code)|
      ensures code[..s + |c|] + k == old(code[..s]) + Link(isOr, c, k)
      ensures code[s + |c|..] == old(code[s..])[|c|..]
    {
      hide Inst, ClearRet, Link;
      len := code[s].data;
      LinkDone(isOr, code, s, c, k);
      code := code[s := Inst(JUMP_RESULT, if isOr then FLAG_TRUE else FLAG_FALSE, end - s - 1)];
      code := code[s + 1 := Inst(ENTER, 0, 0)];
      code := code[s + len := ClearRet(code[s + len])];
    }

    // ---- the parser's order of emission ----

    /** parse_arg */
    method ParseArg(a: Arg, want: Want)
      requires |code| + |CompileArg(h, a, want, |code|)| < DATA_LIMIT
      modifies this
      ensures code == old(code) + CompileArg(h, a, want, |old(code)|)
      decreases a, 2
    {
      hide CompileStmts;
      match a
      case Absent => Append(NullLiteral);
      case Literal(_, _, body) =>
        if want == AsCode || (want == AsCond && !NoText(a.spelling, a.text)) {
          GenBlock(body);
        } else {
          GenText(a, want);
        }
      case Lookup(id) =>
        PushBack(Inst(LOOKUP, LookupRet(want), id));
        GenFinish(want);
      case Paren(stmts) =>
        var start := |code|;
        ghost var before := code;
        ghost var c := CompileStmts(h, stmts, start);
        ParseStmts(stmts);
        if |code| > start {
          PushBack(Inst(RESULT_ARG, RetOf(want), 0));
          GenFinish(want);
          assert code == before + (c + ([Inst(RESULT_ARG, RetOf(want), 0)] + Finish(want)));
        } else {
          assert code == before;
          GenEmpty(want);
        }
    }

    /** Literal text wanted as a value. */
    method GenText(a: Arg, want: Want)
      requires a.Literal? && want != AsCode && !(want == AsCond && !NoText(a.spelling, a.text))
      modifies this
      ensures code == old(code) + CompileArg(h, a, want, |old(code)|)
    {
      hide CompileStmts, IntLiteral, StringLiteral, LongString;
      var long := a.spelling == Bracketed;
      if want == AsCond {
        Append(NullLiteral);
      } else if want == AsInt && !long {
        GenValInteger(h.toInt(a.text));
      } else if want == AsInt {
        GenLongString(a.text);
        PushBack(Inst(FORCE, RET_INT, 0));
      } else if a.spelling == Quoted || long {
        GenLongString(a.text);
      } else {
        GenValString(a.text);
      }
    }

    method ParseParams(ps: List<Param>)
      requires |code| + |CompileParams(h, ps, |code|)| < DATA_LIMIT
      modifies this
      ensures code == old(code) + CompileParams(h, ps, |old(code)|)
      decreases ps
    {
      hide CompileArg;
      match ps
      case Nil =>
      case Cons(p, rest) =>
        ParseArg(p.arg, p.want);
        ParseParams(rest);
    }

    /** parse_block */
    method ParseStmts(ss: List<Stmt>)
      requires CompileStmts(h, ss, |code|) != [] ==> |code| + |CompileStmts(h, ss, |code|)| < DATA_LIMIT
      modifies this
      ensures code == old(code) + CompileStmts(h, ss, |old(code)|)
      decreases ss, 0
    {
      hide CompileStmt, StmtStartsEmpty;
      StmtsHead(h, ss, |code|);
      match ss
      case Nil =>
      case Cons(s, rest) =>
        ParseStmt(s);
        ParseStmts(rest);
    }

    method ParseStmt(s: Stmt)
      requires |code| + |CompileStmt(h, s, |code|)| < DATA_LIMIT
      modifies this
      ensures code == old(code) + CompileStmt(h, s, |old(code)|)
      decreases s, 1
    {
      hide CompileArg, CompileParams, StringLiteral, IntLiteral, JumpChain, AllBlocks, CompileArms;
      match s
      case If(_, _, _) => ParseIf(s);
      case AndOr(_, _) => ParseAndOr(s);
      case Command(id, variadic, ps) =>
        ParseParams(ps);
        GenCommandCall(id, variadic, Count(ps));
      case CallAlias(id, ps) =>
        ParseParams(ps);
        PushBack(Inst(CALL, 0, id));
        PushBack(OfBits(Count(ps) % WORD_LIMIT));
      case IntStmt(i) =>
        GenValInteger(i);
        PushBack(Inst(RESULT, 0, 0));
      case StrStmt(t) =>
        GenValString(t);
        PushBack(Inst(RESULT, 0, 0));
      case _ => ParseUnary(s);
    }

    method ParseUnary(s: Stmt)
      requires s.Assign? || s.Result? || s.Not? || s.Do?
      requires |code| + |CompileStmt(h, s, |code|)| < DATA_LIMIT
      modifies this
      ensures code == old(code) + CompileStmt(h, s, |old(code)|)
      decreases s, 0
    {
      hide CompileArg, StringLiteral;
      match s
      case Assign(id, arg) =>
        if arg == Absent {
          GenValString([]);
        } else {
          ParseArg(arg, Any);
        }
        PushBack(Inst(ALIAS, 0, id));
      case Result(arg) =>
        if arg == Absent {
          PushBack(Inst(NULL, 0, 0));
        } else {
          ParseArg(arg, Any);
          PushBack(Inst(RESULT, 0, 0));
        }
      case Not(arg) =>
        if arg == Absent {
          PushBack(Inst(TRUE, 0, 0));
        } else {
          ParseArg(arg, Any);
          PushBack(Inst(NOT, 0, 0));
        }
      case Do(arg) =>
        if arg == Absent {
          PushBack(Inst(NULL, 0, 0));
        } else {
          ParseArg(arg, AsCode);
          PushBack(Inst(DO, 0, 0));
        }
    }

    /** parse_id_if */
    method ParseIf(s: Stmt)
      requires s.If? && |code| + |CompileStmt(h, s, |code|)| < DATA_LIMIT
      modifies this
      ensures code == old(code) + CompileStmt(h, s, |old(code)|)
      decreases s, 0
    {
      hide CompileArg, CompileArms, IsBlock, StartsEmpty, Inst, Patchable;
      ghost var before := code;
      ghost var c := CompileArg(h, s.cond, Any, |code|);
      ghost var t := CompileArg(h, s.thn, AsCode, |code| + |c|);
      ghost var e := CompileArg(h, s.els, AsCode, |code| + |c| + |t|);
      ArmsLength(t, e);
      ArgHead(h, s.thn, AsCode, |code| + |c|);
      ArgHead(h, s.els, AsCode, |code| + |c| + |t|);
      ParseArg(s.cond, Any);
      var tpos := |code|;
      ParseArg(s.thn, AsCode);
      var fpos := |code|;
      ParseArg(s.els, AsCode);
      assert code == (before + c) + t + e;
      GenArms(tpos, fpos, before + c, t, e);
      assert code == before + (c + CompileArms(t, e));
    }

    /** The end of parse_id_if: patch, or fall back to a call. */
    method GenArms(tpos: nat, fpos: nat, ghost before: Code, ghost t: Code, ghost e: Code)
      requires tpos == |before| && fpos == tpos + |t| && code == before + t + e && t != [] && e != []
      requires (IsBlock(t) ==> |t| >= 3) && (IsBlock(e) ==> |e| >= 3)
      modifies this
      ensures code == before + CompileArms(t, e)
    {
      hide CompileArms, IsBlock, Inst, Patchable;
      Sliced(code, before, t, e);
      assert code[tpos..fpos] == t;
      assert code[..tpos] == before;
      var patched := GenIf(tpos, fpos);
      if !patched {
        NotPatched(t, e);
        GenCommandCall(IF_COMMAND, false, 3);
      }
    }

    /** gen_if for an `if` without a false arm, where the position of that arm is given as 0. An arm that
        is no block gets an empty one beside it, for a call. For a block, the length is computed from the
        position 0 in 32 bits, and the last of the three words is written far outside of the code. */
    method GenIfOne(tpos: nat) returns (leaves: bool)
      requires tpos + 1 < |code| <= DATA_LIMIT || (tpos < |code| <= DATA_LIMIT && !IsBlock(code[tpos..]))
      modifies this
      ensures leaves <==> IsBlock(old(code[tpos..]))
      ensures !leaves ==> code == old(code) + [Inst(EMPTY, 0, 0)]
    {
      hide Inst, ClearRet;
      if IsBlockAt(tpos, |code|) {
        var tlen := WORD_LIMIT - tpos - 1;
        code := code[tpos := Inst(JUMP_B, FLAG_FALSE, tlen)];
        code := code[tpos + 1 := Inst(ENTER_RESULT, 0, 0)];
        assert tpos + tlen >= |code|;
        return true;
      }
      PushBack(Inst(EMPTY, 0, 0));
      return false;
    }

    /** parse_id_if without a false arm: what is compiled is the call with an empty false arm, unless the
        true arm is a literal block. */
    method ParseIfOne(cond: Arg, thn: Arg) returns (leaves: bool)
      requires cond != Absent && thn != Absent
      requires |code| + |CompileStmt(h, If(cond, thn, EmptyBlock), |code|)| < DATA_LIMIT
      modifies this
      ensures leaves <==> BlockArg(thn, AsCode)
      ensures !leaves ==> code == old(code) + CompileStmt(h, If(cond, thn, EmptyBlock), |old(code)|)
    {
      hide CompileArg, CompileArms, IsBlock, StartsEmpty, Inst, BlockArg;
      ghost var before := code;
      ghost var c := CompileArg(h, cond, Any, |code|);
      ghost var t := CompileArg(h, thn, AsCode, |code| + |c|);
      EmptyElse(h, t, |code| + |c| + |t|);
      ArgHead(h, thn, AsCode, |code| + |c|);
      ParseArg(cond, Any);
      var tpos := |code|;
      ParseArg(thn, AsCode);
      assert code[tpos..] == t;
      leaves := GenIfOne(tpos);
      if !leaves {
        GenCommandCall(IF_COMMAND, false, 3);
        assert code == before + (c + (t + [Inst(EMPTY, 0, 0)] + [Inst(COM, 0, IF_COMMAND)]));
      }
    }

    /** parse_id_and_or: go on as long as only block literals come, and patch if nothing else did. */
    method ParseAndOr(s: Stmt)
      requires s.AndOr? && |code| + |CompileStmt(h, s, |code|)| < DATA_LIMIT
      modifies this
      ensures code == old(code) + CompileStmt(h, s, |old(code)|)
      decreases s, 0
    {
      hide CompileArg, CompileParams, JumpChain, AllBlocks, Inst, CallWords, Count;
      if s.params == Nil {
        PushBack(Inst(if s.isOr then FALSE else TRUE, 0, 0));
        return;
      }
      var p, rest := s.params.head, s.params.tail;
      ghost var before, c := code, CompileArg(h, p.arg, p.want, |code|);
      ChainFits(h, s, |code|);
      ParseArg(p.arg, p.want);
      var start := |code|;
      var allBlocks := ParseBlocks(rest);
      Sliced(code, before, c, CompileParams(h, rest, start));
      if allBlocks {
        GenAndOr(s.isOr, start, rest);
        assert code == before + (c + JumpChain(h, s.isOr, rest, start));
      } else {
        GenCommandCall(if s.isOr then OR_COMMAND else AND_COMMAND, true, Count(s.params));
        assert code == before + (c + (CompileParams(h, rest, start)
                                      + CallWords(if s.isOr then OR_COMMAND else AND_COMMAND, true, Count(s.params))));
      }
    }

    /** Parse operands as long as they are block literals, and then the remaining ones. */
    method ParseBlocks(ps: List<Param>) returns (allBlocks: bool)
      requires |code| + |CompileParams(h, ps, |code|)| < DATA_LIMIT
      modifies this
      ensures code == old(code) + CompileParams(h, ps, |old(code)|)
      ensures allBlocks == AllBlocks(h, ps, |old(code)|)
      decreases ps, 4
    {
      hide CompileArg, StartsEmpty, Inst, IsBlock;
      ghost var before := code;
      var todo := ps;
      allBlocks := true;
      while allBlocks && todo.Cons?
        invariant ps nonincreases to todo
        invariant |code| + |CompileParams(h, todo, |code|)| < DATA_LIMIT
        invariant code + CompileParams(h, todo, |code|) == before + CompileParams(h, ps, |before|)
        invariant AllBlocks(h, ps, |before|) == (allBlocks && AllBlocks(h, todo, |code|))
        decreases todo
      {
        var p, end := todo.head, |code|;
        ghost var was, c := code, CompileArg(h, p.arg, p.want, |code|);
        ArgHead(h, p.arg, p.want, end);
        ParseArg(p.arg, p.want);
        assert code[end..] == c;
        SuffixIsBlock(code, end);
        assert code + CompileParams(h, todo.tail, |code|) == was + (c + CompileParams(h, todo.tail, |code|));
        allBlocks := IsBlockAt(end, |code|);
        todo := todo.tail;
      }
      if !allBlocks {
        ParseRest(ps, todo);
      }
    }

    method ParseRest(ghost ps: List<Param>, rest: List<Param>)
      requires ps nonincreases to rest
      requires |code| + |CompileParams(h, rest, |code|)| < DATA_LIMIT
      modifies this
      ensures code == old(code) + CompileParams(h, rest, |old(code)|)
      decreases ps, 3
    {
      hide CompileArg;
      ghost var before := code;
      var todo := rest;
      while todo.Cons?
        invariant ps nonincreases to todo
        invariant |code| + |CompileParams(h, todo, |code|)| < DATA_LIMIT
        invariant code + CompileParams(h, todo, |code|) == before + CompileParams(h, rest, |before|)
        decreases todo
      {
        ghost var was, c := code, CompileArg(h, todo.head.arg, todo.head.want, |code|);
        ParseArg(todo.head.arg, todo.head.want);
        assert code + CompileParams(h, todo.tail, |code|) == was + (c + CompileParams(h, todo.tail, |code|));
        todo := todo.tail;
      }
    }

    /** gen_main */
    method GenMain(ss: List<Stmt>)
      requires code == [] && |CompileMain(h, ss)| <= DATA_LIMIT
      modifies this
      ensures code == CompileMain(h, ss)
    {
      hide CompileStmts;
      PushBack(Inst(START, 0, 0));
      ParseStmts(ss);
      PushBack(Inst(EXIT, 0, 0));
    }
  }

  /** `[]`, as the arm that is not there. */
  const EmptyBlock: Arg := Literal(Hollow, [], Nil)

  lemma EmptyElse(h: Host, t: Code, pos: nat)
    ensures CompileArg(h, EmptyBlock, AsCode, pos) == [Inst(EMPTY, 0, 0)]
    ensures |t| + 1 <= |CompileArms(t, [Inst(EMPTY, 0, 0)])|
    ensures !IsBlock([Inst(EMPTY, 0, 0)])
    ensures CompileArms(t, [Inst(EMPTY, 0, 0)]) == t + [Inst(EMPTY, 0, 0)] + [Inst(COM, 0, IF_COMMAND)]
  {
  }

  /** A block literal made into a jump and an entered block. */
  function JumpAndEnter(c: Code, jump: Word): Code
    requires |c| >= 3
  {
    [jump, Inst(ENTER_RESULT, 0, 0)] + c[2..|c| - 1] + [ClearRet(c[|c| - 1])]
  }

  /** What lies ahead of the patch loop: one more block literal, and the rest. */
  lemma LinkAhead(h: Host, isOr: bool, ps: List<Param>, s: nat, op: Word, ahead: Code)
    requires ahead == CompileParams(h, ps, s) + [op] && 1 < |ahead| <= DATA_LIMIT && AllBlocks(h, ps, s)
    ensures ps.Cons?
    ensures var c := CompileArg(h, ps.head.arg, ps.head.want, s);
            var k := JumpChain(h, isOr, ps.tail, s + |c|);
            && |c| >= 3 && c[0].data == |c| - 1 && |ahead| == |c| + |k|
            && ahead[..|c|] == c && ahead[|c|..] == CompileParams(h, ps.tail, s + |c|) + [op]
            && AllBlocks(h, ps.tail, s + |c|) && JumpChain(h, isOr, ps, s) == Link(isOr, c, k)
  {
    hide CompileArg, Link;
    if ps.Cons? {
      var c := CompileArg(h, ps.head.arg, ps.head.want, s);
      LinkOfChain(h, isOr, ps.head, ps.tail, s);
      ChainLength(h, isOr, ps.tail, s + |c|);
      assert CompileParams(h, ps, s) == c + CompileParams(h, ps.tail, s + |c|);
    }
  }

  /** One round of the patch loop makes the next link. */
  lemma LinkDone(isOr: bool, before: Code, s: nat, c: Code, k: Code)
    requires |c| >= 3 && s + |c| + |k| == |before|
    requires before[s..][..|c|] == c
    ensures var after := before[s := Inst(JUMP_RESULT, if isOr then FLAG_TRUE else FLAG_FALSE, |c| + |k| - 1)]
                               [s + 1 := Inst(ENTER, 0, 0)][s + |c| - 1 := ClearRet(before[s + |c| - 1])];
            && after[..s + |c|] + k == before[..s] + Link(isOr, c, k)
            && after[s + |c|..] == before[s..][|c|..]
  {
    hide Inst, ClearRet;
    PatchedSlice(before, s, s + |c|, Inst(JUMP_RESULT, if isOr then FLAG_TRUE else FLAG_FALSE, |c| + |k| - 1),
                 Inst(ENTER, 0, 0), ClearRet(before[s + |c| - 1]));
    var after := before[s := Inst(JUMP_RESULT, if isOr then FLAG_TRUE else FLAG_FALSE, |c| + |k| - 1)]
                       [s + 1 := Inst(ENTER, 0, 0)][s + |c| - 1 := ClearRet(before[s + |c| - 1])];
    assert before[s..s + |c|] == c;
    assert c[|c| - 1] == before[s + |c| - 1];
    var link := [Inst(JUMP_RESULT, if isOr then FLAG_TRUE else FLAG_FALSE, |c| + |k| - 1), Inst(ENTER, 0, 0)]
                + c[2..|c| - 1] + [ClearRet(c[|c| - 1])];
    assert after == before[..s] + link + before[s + |c|..];
    Sliced(after, before[..s], link, before[s + |c|..]);
    assert Link(isOr, c, k) == link + k;
  }

  lemma PatchedSlice(before: Code, lo: nat, hi: nat, first: Word, second: Word, last: Word)
    requires lo + 3 <= hi <= |before|
    ensures before[lo := first][lo + 1 := second][hi - 1 := last]
         == before[..lo] + ([first, second] + before[lo..hi][2..hi - lo - 1] + [last]) + before[hi..]
  {
    var after := before[lo := first][lo + 1 := second][hi - 1 := last];
    var mid := [first, second] + before[lo..hi][2..hi - lo - 1] + [last];
    assert after[lo..hi] == mid;
    assert after[..lo] == before[..lo];
    assert after[hi..] == before[hi..];
    assert after == after[..lo] + after[lo..hi] + after[hi..];
  }

  lemma Sliced(c: Code, a: Code, b: Code, d: Code)
    requires c == a + b + d
    ensures c[..|a| + |b|] == a + b && c[|a| + |b|..] == d && c[|a| + |b|..|c|] == d && c[|c|..] == []
  {
  }

  lemma ChainEnd(h: Host, isOr: bool, ps: List<Param>, s: nat, op: Word, ahead: Code)
    requires ahead == CompileParams(h, ps, s) + [op] && |ahead| <= 1 && AllBlocks(h, ps, s)
    requires op == Inst(JUMP_RESULT, if isOr then FLAG_TRUE else FLAG_FALSE, 0)
    ensures ahead == JumpChain(h, isOr, ps, s)
  {
    hide CompileArg;
  }

  lemma NotPatched(t: Code, e: Code)
    requires !Patchable(t, e) && t != []
    ensures CompileArms(t, e) == t + e + [Inst(COM, 0, IF_COMMAND)]
  {
    hide Inst, ClearRet;
  }

  /** The unpatched operands are never longer than what they become. */
  lemma ChainFits(h: Host, s: Stmt, pos: nat)
    requires s.AndOr? && s.params.Cons?
    ensures var c := CompileArg(h, s.params.head.arg, s.params.head.want, pos);
            |c| + |CompileParams(h, s.params.tail, pos + |c|)| < |CompileStmt(h, s, pos)|
  {
    hide CompileArg, CompileParams, AllBlocks, JumpChain;
    var c := CompileArg(h, s.params.head.arg, s.params.head.want, pos);
    if AllBlocks(h, s.params.tail, pos + |c|) {
      ChainLength(h, s.isOr, s.params.tail, pos + |c|);
    }
  }

  lemma BlockSize(c: Code, pos: nat)
    ensures c != [] ==> |BlockLiteral(c, pos)| == |c| + 3
  {
  }

  lemma SuffixIsBlock(code: Code, idx: nat)
    requires idx < |code|
    ensures IsBlock(code[idx..]) <==> ClearRet(code[idx]) == Inst(BLOCK, 0, |code| - idx - 1)
  {
  }

  lemma BothPatched(t: Code, e: Code)
    requires IsBlock(t) && IsBlock(e) && |t| >= 3 && |e| >= 3
    ensures CompileArms(t, e)
            == JumpAndEnter(t, Inst(JUMP_B, FLAG_FALSE, |t|)) + JumpAndEnter(e, Inst(JUMP, 0, |e| - 1))
  {
    hide Inst, ClearRet, IsBlock;
  }

  lemma EmptyPatched(t: Code, e: Code)
    requires !IsBlock(t) && IsBlock(e) && t != [] && |e| >= 3 && ClearRet(t[0]) == Inst(EMPTY, 0, 0)
    ensures CompileArms(t, e)
            == ([Inst(NULL, e[0].ret, 0)] + t[1..]) + JumpAndEnter(e, Inst(JUMP_B, FLAG_TRUE, |e| - 1))
  {
    hide Inst, ClearRet, IsBlock;
  }
}
