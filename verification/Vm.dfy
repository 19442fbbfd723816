/** What `vm_exec` computes, as a function of the program words (src/cs_vm.cc). */
module Vm {
  import opened Words
  import opened Literals
  import opened Syntax
  import opened Emit

  /** The VM stack and the environment of the running thread. */
  datatype State = State(stack: seq<Value>, env: Env)

  /** Done:  left through EXIT; `pc` is the index after it and `r` the result register.
      Err:   an error was thrown.
      Stuck: undefined in the source (popping an empty stack, running off the code,
             running a value that is not code) or an opcode outside of the fragment. */
  datatype Outcome = Done(pc: nat, r: Value, st: State) | Err(e: Error, st: State) | Stuck

  /** The effect of one instruction that does not enter the VM again. */
  datatype Flat = Next(pc: nat, r: Value, st: State) | Throw(e: Error) | Bad

  function Pop(s: seq<Value>): seq<Value>
    requires s != []
  {
    s[..|s| - 1]
  }

  function Top(s: seq<Value>): Value
    requires s != []
  {
    s[|s| - 1]
  }

  function Push(st: State, v: Value): State { st.(stack := st.stack + [v]) }

  /** `vector::resize` */
  function Resize(s: seq<Value>, n: nat): (r: seq<Value>)
    ensures |r| == n
  {
    if n <= |s| then s[..n] else s + seq(n - |s|, _ => NoValue)
  }

  /** COMPILE: the program for a value; text may fail to parse. */
  function CompileValue(h: Host, v: Value): Option<Code> {
    match v
    case Str(s) => (match h.parse(s) case Some(ss) => Some(CompileMain(h, ss)) case None => None)
    case Int(i) => Some([Inst(START, 0, 0)] + IntLiteral(i) + [Inst(RESULT, 0, 0), Inst(EXIT, 0, 0)])
    case _ => Some([Inst(START, 0, 0)] + NullLiteral + [Inst(RESULT, 0, 0), Inst(EXIT, 0, 0)])
  }

  function CompileTop(h: Host, v: Value, pc: nat, r: Value, st: State): Flat
    requires st.stack != []
  {
    match CompileValue(h, v)
    case None => Throw(SyntaxError)
    case Some(c) => Next(pc, r, st.(stack := Pop(st.stack) + [CodeRef(c, 1)]))
  }

  /** VAL and VAL_INT */
  function LiteralStep(prog: Code, pc: nat, r: Value, st: State): Flat
    requires pc < |prog|
  {
    var w := prog[pc];
    if w.op == VAL_INT then
      if w.ret == RET_STRING then Next(pc + 1, r, Push(st, Str(ShortStringValue(w))))
      else if w.ret == RET_INT then Next(pc + 1, r, Push(st, Int(ShortIntValue(w))))
      else if w.ret == RET_NULL then Next(pc + 1, r, Push(st, NoValue))
      else Bad
    else if w.ret == RET_STRING then
      var end := pc + 1 + PayloadSize(w.data);
      if end > |prog| then Bad
      else Next(end, r, Push(st, Str(UnpackBytes(prog[pc + 1..end], w.data))))
    else if w.ret == RET_INT then
      if pc + 2 > |prog| then Bad else Next(pc + 2, r, Push(st, Int(ToInt32(Bits(prog[pc + 1])))))
    else if w.ret == RET_NULL then Next(pc + 1, r, Push(st, NoValue))
    else Bad
  }

  /** Instructions that leave the stack alone or only push. */
  function PushStep(h: Host, prog: Code, pc: nat, r: Value, st: State): Flat
    requires pc < |prog|
  {
    var w := prog[pc];
    var op := w.op;
    if op == START || op == OFFSET then Next(pc + 1, r, st)
    else if op == NULL then Next(pc + 1, Force(h, NoValue, w.ret), st)
    else if op == TRUE then Next(pc + 1, Force(h, Int(1), w.ret), st)
    else if op == FALSE then Next(pc + 1, Force(h, Int(0), w.ret), st)
    else if op == RESULT_ARG then Next(pc + 1, NoValue, Push(st, Force(h, r, w.ret)))
    else if op == VAL || op == VAL_INT then LiteralStep(prog, pc, r, st)
    else if op == JUMP then Next(pc + 1 + w.data, r, st)
    else if op == BLOCK then Next(pc + 1 + w.data, r, Push(st, CodeRef(prog, pc + 2)))
    else if op == EMPTY then
      Next(pc + 1, r, Push(st, CodeRef([Inst(START, 0, 1), Inst(EXIT, w.ret, 0)], 1)))
    else if op == LOOKUP then
      (match Find(st.env, w.data)
       case Missed(e) => if e.Unspecified? then Bad else Throw(e)
       case Got(v) => Next(pc + 1, r, Push(st, Force(h, v, w.ret))))
    else Bad
  }

  /** Instructions that need a value on the stack. */
  function PopStep(h: Host, prog: Code, pc: nat, r: Value, st: State): Flat
    requires pc < |prog| && st.stack != []
  {
    var w := prog[pc];
    var op := w.op;
    var v := Top(st.stack);
    var rest := st.(stack := Pop(st.stack));
    if op == NOT then Next(pc + 1, Force(h, Int(if GetBool(h, v) then 0 else 1), w.ret), rest)
    else if op == POP then Next(pc + 1, r, rest)
    else if op == RESULT then Next(pc + 1, Force(h, v, w.ret), rest)
    else if op == FORCE then Next(pc + 1, r, Push(rest, Force(h, v, w.ret)))
    else if op == DUP then Next(pc + 1, r, Push(st, Force(h, v, w.ret)))
    else if op == JUMP_B then
      Next(pc + 1 + (if GetBool(h, v) == (w.ret != FLAG_FALSE) then w.data else 0), r, rest)
    else if op == COMPILE then CompileTop(h, v, pc + 1, r, st)
    else if op == COND then
      (if !v.Str? then Next(pc + 1, r, st)
       else if v.s == [] then Next(pc + 1, r, Push(rest, NoValue))
       else CompileTop(h, v, pc + 1, r, st))
    else if op == ALIAS then
      (if Lost(st.env, w.data) then Bad else Next(pc + 1, r, rest.(env := Bind(st.env, w.data, v))))
    else Bad
  }

  predicate IsPushOp(op: nat) {
    op == START || op == OFFSET || op == NULL || op == TRUE || op == FALSE || op == RESULT_ARG
    || op == VAL || op == VAL_INT || op == JUMP || op == BLOCK || op == EMPTY || op == LOOKUP
  }

  predicate IsPopOp(op: nat) {
    op == NOT || op == POP || op == RESULT || op == FORCE || op == DUP || op == JUMP_B
    || op == COMPILE || op == COND || op == ALIAS
  }

  /** How many arguments a call takes off the stack: fixed by the command, or in the next word. */
  function CallCount(h: Host, prog: Code, pc: nat): nat
    requires pc < |prog|
  {
    if prog[pc].op == COM then h.arity(prog[pc].data) else if pc + 1 < |prog| then Bits(prog[pc + 1]) else 0
  }

  function CallEnd(prog: Code, pc: nat): nat
    requires pc < |prog|
  {
    if prog[pc].op == COM then pc + 1 else pc + 2
  }

  /** The loop of `vm_exec` from index `pc`, at recursion depth `depth`. */
  function Run(h: Host, prog: Code, pc: nat, depth: nat, r: Value, st: State): (o: Outcome)
    requires depth <= h.limit
    ensures o.Done? ==> pc < o.pc <= |prog|
    decreases h.limit - depth, 1, |prog| - pc
  {
    if pc >= |prog| then Stuck else
    var w := prog[pc];
    var op := w.op;
    if op == EXIT then Done(pc + 1, Force(h, r, w.ret), st)
    else if IsPushOp(op) then RunFlat(h, prog, pc, depth, PushStep(h, prog, pc, r, st), st)
    else if op == ENTER || op == ENTER_RESULT then RunEnter(h, prog, pc, depth, r, st)
    else if op == CALL || op == COM || op == COM_V then RunCall(h, prog, pc, depth, st)
    else if st.stack == [] then Stuck
    else if IsPopOp(op) then RunFlat(h, prog, pc, depth, PopStep(h, prog, pc, r, st), st)
    else if op == DO || op == JUMP_RESULT then RunTop(h, prog, pc, depth, st)
    else Stuck
  }

  function RunEnter(h: Host, prog: Code, pc: nat, depth: nat, r: Value, st: State): (o: Outcome)
    requires depth <= h.limit && pc < |prog|
    ensures o.Done? ==> pc < o.pc <= |prog|
    decreases h.limit - depth, 1, |prog| - pc, 0
  {
    if prog[pc].op == ENTER then
      match Enter(h, prog, pc + 1, depth, Push(st, NoValue))
      case Done(pc', v, st') => Run(h, prog, pc', depth, r, st'.(stack := Pop(st'.stack) + [v]))
      case o => o
    else
      match Enter(h, prog, pc + 1, depth, st)
      case Done(pc', v, st') => Run(h, prog, pc', depth, v, st')
      case o => o
  }

  function RunCall(h: Host, prog: Code, pc: nat, depth: nat, st: State): (o: Outcome)
    requires depth <= h.limit && pc < |prog|
    ensures o.Done? ==> pc < o.pc <= |prog|
    decreases h.limit - depth, 1, |prog| - pc, 0
  {
    var w := prog[pc];
    var count := CallCount(h, prog, pc);
    var pc' := CallEnd(prog, pc);
    if pc' > |prog| || count > |st.stack| then Stuck else
    match Dispatch(h, w.op, w.data, st.stack[|st.stack| - count..], depth, st)
    case Done(_, v, st') =>
      Run(h, prog, pc', depth, Force(h, v, w.ret), st'.(stack := Resize(st'.stack, |st.stack| - count)))
    case o => o
  }

  /** DO and JUMP_RESULT */
  function RunTop(h: Host, prog: Code, pc: nat, depth: nat, st: State): (o: Outcome)
    requires depth <= h.limit && pc < |prog| && st.stack != []
    ensures o.Done? ==> pc < o.pc <= |prog|
    decreases h.limit - depth, 1, |prog| - pc, 0
  {
    var w := prog[pc];
    var rest := st.(stack := Pop(st.stack));
    if w.op == DO then
      match Invoke(h, Top(st.stack), depth, rest)
      case Done(_, v, st') => Run(h, prog, pc + 1, depth, Force(h, v, w.ret), st')
      case o => o
    else
      match InvokeOrKeep(h, Top(st.stack), depth, rest)
      case Done(_, v, st') =>
        Run(h, prog, pc + 1 + (if GetBool(h, v) == (w.ret != FLAG_FALSE) then w.data else 0), depth, v, st')
      case o => o
  }

  function RunFlat(h: Host, prog: Code, pc: nat, depth: nat, f: Flat, st: State): (o: Outcome)
    requires depth <= h.limit && pc < |prog|
    ensures o.Done? ==> pc < o.pc <= |prog|
    decreases h.limit - depth, 1, |prog| - pc, 0
  {
    match f
    case Next(pc', r', st') => if pc' <= pc then Stuck else Run(h, prog, pc', depth, r', st')
    case Throw(e) => Err(e, st)
    case Bad => Stuck
  }

  /** A whole call of `vm_exec`: the result starts out as no value, the recursion limit
      is checked, and on every exit the stack goes back to its height at entry. */
  function Enter(h: Host, prog: Code, start: nat, depth: nat, st: State): (o: Outcome)
    requires depth <= h.limit
    ensures o.Done? ==> start < o.pc <= |prog|
    ensures o.Done? ==> |o.st.stack| == |st.stack|
    decreases h.limit - depth, 0, 0
  {
    if depth >= h.limit then Err(RecursionLimit, st) else
    match Run(h, prog, start, depth + 1, NoValue, st)
    case Done(pc, v, st') => Done(pc, v, st'.(stack := Resize(st'.stack, |st.stack|)))
    case Err(e, st') => Err(e, st'.(stack := Resize(st'.stack, |st.stack|)))
    case Stuck => Stuck
  }

  /** `get_code().call()`: only code can be called. */
  function Invoke(h: Host, v: Value, depth: nat, st: State): (o: Outcome)
    requires depth <= h.limit
    ensures o.Done? ==> |o.st.stack| == |st.stack|
    decreases h.limit - depth, 0, 1
  {
    if v.CodeRef? then Enter(h, v.prog, v.start, depth, st) else Stuck
  }

  function InvokeOrKeep(h: Host, v: Value, depth: nat, st: State): (o: Outcome)
    requires depth <= h.limit
    ensures o.Done? ==> |o.st.stack| == |st.stack|
    decreases h.limit - depth, 0, 2
  {
    if v.CodeRef? then Invoke(h, v, depth, st) else Done(0, v, st)
  }

  /** CALL, COM and COM_V, with the arguments that lie on the stack. */
  function Dispatch(h: Host, op: nat, id: nat, args: seq<Value>, depth: nat, st: State): Outcome
    requires depth <= h.limit
    decreases h.limit - depth, 0, 4 + |args|
  {
    if op == CALL then RunAlias(h, id, args, depth, st)
    else if id == IF_COMMAND then
      if |args| < 3 then Stuck else Invoke(h, if GetBool(h, args[0]) then args[1] else args[2], depth, st)
    else if id == AND_COMMAND || id == OR_COMMAND then RunAndOr(h, id == OR_COMMAND, args, depth, st)
    else
      match h.command(id, args, st.env)
      case Success(v, env) => Done(0, v, st.(env := env))
      case Failure(e, env) => if e.Unspecified? then Stuck else Err(e, st.(env := env))
  }

  /** The command form of `&&` and `||`. */
  function RunAndOr(h: Host, isOr: bool, args: seq<Value>, depth: nat, st: State): Outcome
    requires depth <= h.limit
    decreases h.limit - depth, 0, 3 + |args|
  {
    if args == [] then Done(0, Int(if isOr then 0 else 1), st) else
    match InvokeOrKeep(h, args[0], depth, st)
    case Done(_, v, st') =>
      if GetBool(h, v) == isOr || |args| == 1 then Done(0, v, st')
      else RunAndOr(h, isOr, args[1..], depth, st')
    case o => o
  }

  /** The CALL instruction and exec_alias: run the alias text in a fresh frame and restore the caller's
      frame and flags. */
  function RunAlias(h: Host, id: nat, args: seq<Value>, depth: nat, st: State): Outcome
    requires depth <= h.limit
    decreases h.limit - depth, 0, 1
  {
    if Lost(st.env, id) then Stuck
    else if IsArgument(id) && !st.env.frame.Used(id) then Done(0, NoValue, st)
    else if !IsArgument(id) && id !in st.env.store then Err(UnknownCommand(id), st)
    else
      match h.parse(GetString(h, Callee(st.env, id, args)))
      case None => Err(SyntaxError, st.(env := NotCompiled(st.env, id, args)))
      case Some(ss) =>
        match Enter(h, CompileMain(h, ss), 1, depth, st.(env := Called(st.env, id, args)))
        case Done(_, v, st') => Done(0, v, st'.(env := Returned(st.env, st'.env)))
        case Err(e, st') => Err(e, st'.(env := Returned(st.env, st'.env)))
        case Stuck => Stuck
  }
}
