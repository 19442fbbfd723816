/** Single steps of the VM on emitted words. */
module Steps {
  import opened Words
  import opened Literals
  import opened Syntax
  import opened Emit
  import opened Vm

  lemma PushOp(h: Host, prog: Code, pc: nat, depth: nat, r: Value, st: State)
    requires depth <= h.limit && pc < |prog| && IsPushOp(prog[pc].op)
    ensures Run(h, prog, pc, depth, r, st) == RunFlat(h, prog, pc, depth, PushStep(h, prog, pc, r, st), st)
  {
  }

  lemma PopOp(h: Host, prog: Code, pc: nat, depth: nat, r: Value, st: State)
    requires depth <= h.limit && pc < |prog| && IsPopOp(prog[pc].op) && st.stack != []
    ensures Run(h, prog, pc, depth, r, st) == RunFlat(h, prog, pc, depth, PopStep(h, prog, pc, r, st), st)
  {
  }

  lemma EnterOp(h: Host, prog: Code, pc: nat, depth: nat, r: Value, st: State)
    requires depth <= h.limit && pc < |prog| && (prog[pc].op == ENTER || prog[pc].op == ENTER_RESULT)
    ensures Run(h, prog, pc, depth, r, st) == RunEnter(h, prog, pc, depth, r, st)
  {
  }

  lemma CallOp(h: Host, prog: Code, pc: nat, depth: nat, r: Value, st: State)
    requires depth <= h.limit && pc < |prog|
    requires prog[pc].op == CALL || prog[pc].op == COM || prog[pc].op == COM_V
    ensures Run(h, prog, pc, depth, r, st) == RunCall(h, prog, pc, depth, st)
  {
  }

  lemma TopOp(h: Host, prog: Code, pc: nat, depth: nat, r: Value, st: State)
    requires depth <= h.limit && pc < |prog| && st.stack != [] && (prog[pc].op == DO || prog[pc].op == JUMP_RESULT)
    ensures Run(h, prog, pc, depth, r, st) == RunTop(h, prog, pc, depth, st)
  {
  }

  /** Running one push instruction that is known to go on. */
  lemma PushGoesOn(h: Host, prog: Code, pc: nat, pc': nat, depth: nat, r: Value, st: State, r': Value, st': State)
    requires depth <= h.limit && pc < |prog| && IsPushOp(prog[pc].op) && pc < pc'
    requires PushStep(h, prog, pc, r, st) == Next(pc', r', st')
    ensures Run(h, prog, pc, depth, r, st) == Run(h, prog, pc', depth, r', st')
  {
    PushOp(h, prog, pc, depth, r, st);
  }

  lemma PopGoesOn(h: Host, prog: Code, pc: nat, pc': nat, depth: nat, r: Value, st: State, r': Value, st': State)
    requires depth <= h.limit && pc < |prog| && IsPopOp(prog[pc].op) && st.stack != [] && pc < pc'
    requires PopStep(h, prog, pc, r, st) == Next(pc', r', st')
    ensures Run(h, prog, pc, depth, r, st) == Run(h, prog, pc', depth, r', st')
  {
    PopOp(h, prog, pc, depth, r, st);
  }

  lemma PayloadWords(prog: Code, pc: nat, w: Word, p: Code)
    requires At(prog, pc, [w] + p)
    ensures pc + 1 + |p| <= |prog|
    ensures prog[pc] == w && prog[pc + 1..pc + 1 + |p|] == p
  {
    AtSplit(prog, pc, [w], p);
    AtWord(prog, pc, [w], 0);
  }

  lemma LongValStep(h: Host, prog: Code, pc: nat, end: nat, r: Value, st: State)
    requires pc < end <= |prog| && prog[pc].op == VAL && prog[pc].ret == RET_STRING
    requires end == pc + 1 + PayloadSize(prog[pc].data)
    ensures PushStep(h, prog, pc, r, st)
         == Next(end, r, Push(st, Str(UnpackBytes(prog[pc + 1..end], prog[pc].data))))
  {
    hide UnpackBytes, Find, Force, ShortStringValue;
  }

  lemma LongStringStep(h: Host, prog: Code, pc: nat, s: Text, r: Value, st: State)
    requires At(prog, pc, LongString(s)) && |s| < DATA_LIMIT
    ensures pc < |prog| && IsPushOp(prog[pc].op)
    ensures PushStep(h, prog, pc, r, st) == Next(pc + |LongString(s)|, r, Push(st, Str(s)))
  {
    PayloadWords(prog, pc, Inst(VAL, RET_STRING, |s|), PackBytes(s));
    PackUnpack(s);
    LongValStep(h, prog, pc, pc + |LongString(s)|, r, st);
  }

  lemma ShortStringStep(h: Host, prog: Code, pc: nat, s: Text, r: Value, st: State)
    requires |s| <= 3 && At(prog, pc, [Inst(VAL_INT, RET_STRING, Pad4(s))])
    requires 0 as char !in s
    ensures pc < |prog| && IsPushOp(prog[pc].op)
    ensures PushStep(h, prog, pc, r, st) == Next(pc + 1, r, Push(st, Str(s)))
  {
    AtWord(prog, pc, [Inst(VAL_INT, RET_STRING, Pad4(s))], 0);
    ShortStringRoundTrip(s);
  }

  lemma StringStep(h: Host, prog: Code, pc: nat, s: Text, r: Value, st: State)
    requires At(prog, pc, StringLiteral(s)) && |s| < DATA_LIMIT
    requires |s| <= 3 ==> 0 as char !in s
    ensures pc < |prog| && IsPushOp(prog[pc].op)
    ensures PushStep(h, prog, pc, r, st) == Next(pc + |StringLiteral(s)|, r, Push(st, Str(s)))
  {
    if |s| <= 3 {
      ShortStringStep(h, prog, pc, s, r, st);
    } else {
      LongStringStep(h, prog, pc, s, r, st);
    }
  }

  lemma IntStep(h: Host, prog: Code, pc: nat, i: Int32, r: Value, st: State)
    requires At(prog, pc, IntLiteral(i))
    ensures pc < |prog| && IsPushOp(prog[pc].op)
    ensures PushStep(h, prog, pc, r, st) == Next(pc + |IntLiteral(i)|, r, Push(st, Int(i)))
  {
    IntLiteralRoundTrip(i);
    var c := IntLiteral(i);
    if |c| == 1 {
      assert c == [c[0]];
    } else {
      assert c == [c[0], c[1]];
    }
  }

  /** Every literal pushes exactly its value and the VM advances by exactly its words. */
  lemma TextRuns(h: Host, prog: Code, pc: nat, spelling: Spelling, s: Text, depth: nat, r: Value, st: State)
    requires depth <= h.limit
    requires At(prog, pc, TextLiteral(spelling, s)) && |s| < DATA_LIMIT
    requires (spelling == Word || spelling == Hollow) && |s| <= 3 ==> 0 as char !in s
    ensures Run(h, prog, pc, depth, r, st)
         == Run(h, prog, pc + |TextLiteral(spelling, s)|, depth, r, Push(st, Str(s)))
  {
    hide Run, PushStep, PackBytes;
    if spelling == Quoted || spelling == Bracketed {
      LongStringStep(h, prog, pc, s, r, st);
    } else {
      StringStep(h, prog, pc, s, r, st);
    }
    PushGoesOn(h, prog, pc, pc + |TextLiteral(spelling, s)|, depth, r, st, r, Push(st, Str(s)));
  }

  lemma IntRuns(h: Host, prog: Code, pc: nat, i: Int32, depth: nat, r: Value, st: State)
    requires depth <= h.limit && At(prog, pc, IntLiteral(i))
    ensures Run(h, prog, pc, depth, r, st) == Run(h, prog, pc + |IntLiteral(i)|, depth, r, Push(st, Int(i)))
  {
    hide Run;
    IntStep(h, prog, pc, i, r, st);
    PushGoesOn(h, prog, pc, pc + |IntLiteral(i)|, depth, r, st, r, Push(st, Int(i)));
  }

  lemma NullRuns(h: Host, prog: Code, pc: nat, depth: nat, r: Value, st: State)
    requires depth <= h.limit && At(prog, pc, NullLiteral)
    ensures Run(h, prog, pc, depth, r, st) == Run(h, prog, pc + 1, depth, r, Push(st, NoValue))
  {
    hide Run;
    AtWord(prog, pc, NullLiteral, 0);
    PushGoesOn(h, prog, pc, pc + 1, depth, r, st, r, Push(st, NoValue));
  }

  lemma ExitRuns(h: Host, prog: Code, pc: nat, depth: nat, r: Value, st: State)
    requires depth <= h.limit && At(prog, pc, [Inst(EXIT, 0, 0)])
    ensures Run(h, prog, pc, depth, r, st) == Done(pc + 1, r, st)
  {
    AtWord(prog, pc, [Inst(EXIT, 0, 0)], 0);
  }
}
