/** The VM as the source runs it: a loop over the words that updates the thread's stack,
    environment and call depth in place (src/cs_vm.cc). */
module Thread {
  import opened Words
  import opened Literals
  import opened Syntax
  import opened Emit
  import opened Vm
  import opened Steps

  /** How a call of the VM ends: normally, by an exception, or undefined. */
  datatype Exit = Left(pc: nat, r: Value) | Thrown(e: Error) | Undefined

  /** One instruction: go on at `pc`, throw, or undefined. */
  datatype Advance = On(pc: nat, r: Value) | Raise(e: Error) | Undef

  ghost predicate Ends(o: Outcome, x: Exit, st: State) {
    match o
    case Done(pc, r, st') => x == Left(pc, r) && st' == st
    case Err(e, st') => x == Thrown(e) && st' == st
    case Stuck => x == Undefined
  }

  /** A nested call ends: where a called value left off does not matter to the caller. */
  ghost predicate Answers(o: Outcome, x: Exit, st: State) {
    match o
    case Done(_, r, st') => x.Left? && x.r == r && st' == st
    case Err(e, st') => x == Thrown(e) && st' == st
    case Stuck => x == Undefined
  }

  ghost predicate Moves(f: Flat, a: Advance, st: State, before: State) {
    match f
    case Next(pc, r, st') => a == On(pc, r) && st' == st
    case Throw(e) => a == Raise(e) && st == before
    case Bad => a == Undef
  }

  /** The run from `pc` goes on as the instruction says. */
  ghost predicate Follows(h: Host, prog: Code, pc: nat, depth: nat, r: Value, before: State, a: Advance, st: State)
    requires depth <= h.limit
  {
    match a
    case On(pc', r') => pc < pc' && Run(h, prog, pc, depth, r, before) == Run(h, prog, pc', depth, r', st)
    case Raise(e) => Run(h, prog, pc, depth, r, before) == Err(e, st)
    case Undef => Run(h, prog, pc, depth, r, before) == Stuck
  }

  class ThreadState {
    const h: Host
    var vmstack: seq<Value>
    var env: Env
    var callDepth: nat

    constructor (h: Host, env: Env)
      ensures this.h == h && this.env == env && vmstack == [] && callDepth == 0
    {
      this.h := h;
      this.env := env;
      vmstack := [];
      callDepth := 0;
    }

    ghost function Now(): State
      reads this
    {
      State(vmstack, env)
    }

    method EmplaceBack(v: Value)
      modifies this`vmstack
      ensures vmstack == old(vmstack) + [v]
    {
      vmstack := vmstack + [v];
    }

    method PopBack() returns (v: Value)
      requires vmstack != []
      modifies this`vmstack
      ensures v == Top(old(vmstack)) && vmstack == Pop(old(vmstack))
    {
      v := vmstack[|vmstack| - 1];
      vmstack := vmstack[..|vmstack| - 1];
    }

    /** VAL and VAL_INT */
    method PushLiteral(prog: Code, pc: nat, r: Value) returns (a: Advance)
      requires pc < |prog| && (prog[pc].op == VAL || prog[pc].op == VAL_INT)
      modifies this`vmstack
      ensures Moves(LiteralStep(prog, pc, r, old(Now())), a, Now(), old(Now()))
    {
      var w := prog[pc];
      var code := pc + 1;
      if w.op == VAL_INT {
        if w.ret == RET_STRING {
          EmplaceBack(Str(ShortStringValue(w)));
        } else if w.ret == RET_INT {
          EmplaceBack(Int(ShortIntValue(w)));
        } else if w.ret == RET_NULL {
          EmplaceBack(NoValue);
        } else {
          return Undef;
        }
      } else if w.ret == RET_STRING {
        code := code + PayloadSize(w.data);
        if code > |prog| {
          return Undef;
        }
        EmplaceBack(Str(UnpackBytes(prog[pc + 1..code], w.data)));
      } else if w.ret == RET_INT {
        code := code + 1;
        if code > |prog| {
          return Undef;
        }
        EmplaceBack(Int(ToInt32(Bits(prog[pc + 1]))));
      } else if w.ret == RET_NULL {
        EmplaceBack(NoValue);
      } else {
        return Undef;
      }
      return On(code, r);
    }

    method PushInstruction(prog: Code, pc: nat, r: Value) returns (a: Advance)
      requires pc < |prog| && IsPushOp(prog[pc].op)
      modifies this`vmstack
      ensures Moves(PushStep(h, prog, pc, r, old(Now())), a, Now(), old(Now()))
    {
      hide LiteralStep, Find, Force;
      var w := prog[pc];
      var code := pc + 1;
      var result := r;
      if w.op == NULL {
        result := Force(h, NoValue, w.ret);
      } else if w.op == TRUE {
        result := Force(h, Int(1), w.ret);
      } else if w.op == FALSE {
        result := Force(h, Int(0), w.ret);
      } else if w.op == RESULT_ARG {
        EmplaceBack(Force(h, result, w.ret));
        result := NoValue;
      } else if w.op == VAL || w.op == VAL_INT {
        a := PushLiteral(prog, pc, r);
        return;
      } else if w.op == JUMP {
        code := code + w.data;
      } else if w.op == BLOCK {
        EmplaceBack(CodeRef(prog, code + 1));
        code := code + w.data;
      } else if w.op == EMPTY {
        EmplaceBack(CodeRef([Inst(START, 0, 1), Inst(EXIT, w.ret, 0)], 1));
      } else if w.op == LOOKUP {
        var found := Find(env, w.data);
        if found.Missed? {
          if found.e.Unspecified? {
            return Undef;
          }
          return Raise(found.e);
        }
        EmplaceBack(Force(h, found.v, w.ret));
      }
      return On(code, result);
    }

    /** Replace the value on top of the stack by code compiled from it. */
    method CompileBack(pc: nat, r: Value) returns (a: Advance)
      requires vmstack != []
      modifies this`vmstack
      ensures Moves(CompileTop(h, Top(old(vmstack)), pc, r, old(Now())), a, Now(), old(Now()))
    {
      hide CompileValue;
      var c := CompileValue(h, vmstack[|vmstack| - 1]);
      if c == None {
        return Raise(SyntaxError);
      }
      var _ := PopBack();
      EmplaceBack(CodeRef(c.value, 1));
      return On(pc, r);
    }

    method PopInstruction(prog: Code, pc: nat, r: Value) returns (a: Advance)
      requires pc < |prog| && IsPopOp(prog[pc].op) && vmstack != []
      modifies this`vmstack, this`env
      ensures Moves(PopStep(h, prog, pc, r, old(Now())), a, Now(), old(Now()))
    {
      hide CompileTop, GetBool, Force, Bind, Lost;
      var w := prog[pc];
      if w.op == COMPILE {
        a := CompileBack(pc + 1, r);
        return;
      }
      if w.op == COND {
        a := CondBack(pc + 1, r);
        return;
      }
      if w.op == DUP {
        EmplaceBack(Force(h, Top(vmstack), w.ret));
        return On(pc + 1, r);
      }
      var code := pc + 1;
      var result := r;
      var v := PopBack();
      if w.op == NOT {
        result := Force(h, Int(if GetBool(h, v) then 0 else 1), w.ret);
      } else if w.op == RESULT {
        result := Force(h, v, w.ret);
      } else if w.op == FORCE {
        EmplaceBack(Force(h, v, w.ret));
      } else if w.op == JUMP_B {
        if GetBool(h, v) == (w.ret != FLAG_FALSE) {
          code := code + w.data;
        }
      } else if w.op == ALIAS {
        if Lost(env, w.data) {
          return Undef;
        }
        env := Bind(env, w.data, v);
      }
      return On(code, result);
    }

    method CondBack(pc: nat, r: Value) returns (a: Advance)
      requires vmstack != []
      modifies this`vmstack
      ensures var v := Top(old(vmstack));
              Moves(if !v.Str? then Next(pc, r, old(Now()))
                    else if v.s == [] then Next(pc, r, State(Pop(old(vmstack)) + [NoValue], env))
                    else CompileTop(h, v, pc, r, old(Now())), a, Now(), old(Now()))
    {
      hide CompileTop;
      var v := vmstack[|vmstack| - 1];
      if v.Str? && v.s != [] {
        a := CompileBack(pc, r);
        return;
      }
      if v.Str? {
        var _ := PopBack();
        EmplaceBack(NoValue);
      }
      return On(pc, r);
    }

    /** vm_exec. Whatever happens, the call depth is as before and the stack as high as before. */
    method VmExec(prog: Code, start: nat) returns (x: Exit)
      requires callDepth <= h.limit
      modifies this
      ensures Ends(Enter(h, prog, start, old(callDepth), old(Now())), x, Now())
      ensures x != Undefined ==> callDepth == old(callDepth) && |vmstack| == |old(vmstack)|
      decreases h.limit - callDepth, 0, 0
    {
      hide Run;
      if callDepth >= h.limit {
        return Thrown(RecursionLimit);
      }
      var oldtop := |vmstack|;
      callDepth := callDepth + 1;
      x := Loop(prog, start);
      if x != Undefined {
        callDepth := callDepth - 1;
        vmstack := Resize(vmstack, oldtop);
      }
    }

    /** The instruction loop. */
    method Loop(prog: Code, start: nat) returns (x: Exit)
      requires 0 < callDepth <= h.limit
      modifies this
      ensures Ends(Run(h, prog, start, old(callDepth), NoValue, old(Now())), x, Now())
      ensures x != Undefined ==> callDepth == old(callDepth)
      decreases h.limit - callDepth, 4
    {
      hide Run, Force;
      var code := start;
      var result := NoValue;
      while true
        invariant callDepth == old(callDepth)
        invariant Run(h, prog, start, callDepth, NoValue, old(Now())) == Run(h, prog, code, callDepth, result, Now())
        decreases |prog| - code
      {
        ghost var before := Now();
        if code >= |prog| {
          RunOff(h, prog, code, callDepth, result, before);
          return Undefined;
        }
        var w := prog[code];
        if w.op == EXIT {
          RunExit(h, prog, code, callDepth, result, before);
          return Left(code + 1, Force(h, result, w.ret));
        }
        var a := Instruction(prog, code, result);
        match a {
          case Undef => return Undefined;
          case Raise(e) => return Thrown(e);
          case On(pc, r) => code, result := pc, r;
        }
      }
    }

    /** Any instruction but EXIT. */
    method Instruction(prog: Code, pc: nat, r: Value) returns (a: Advance)
      requires 0 < callDepth <= h.limit && pc < |prog| && prog[pc].op != EXIT
      modifies this
      ensures Follows(h, prog, pc, old(callDepth), r, old(Now()), a, Now())
      ensures a != Undef ==> callDepth == old(callDepth)
      decreases h.limit - callDepth, 3
    {
      hide Run, PushStep, PopStep;
      ghost var before := Now();
      var op := prog[pc].op;
      if IsPushOp(op) {
        a := PushInstruction(prog, pc, r);
        PushOp(h, prog, pc, callDepth, r, before);
        a := if a.On? && a.pc <= pc then Undef else a;
      } else if op == ENTER || op == ENTER_RESULT {
        a := EnterInstruction(prog, pc, r);
      } else if op == CALL || op == COM || op == COM_V {
        a := CallInstruction(prog, pc, r);
      } else if vmstack != [] && IsPopOp(op) {
        a := PopInstruction(prog, pc, r);
        PopOp(h, prog, pc, callDepth, r, before);
        a := if a.On? && a.pc <= pc then Undef else a;
      } else if vmstack != [] && (op == DO || op == JUMP_RESULT) {
        a := RunInstruction(prog, pc, r);
      } else {
        RunBad(h, prog, pc, callDepth, r, before);
        a := Undef;
      }
    }

    /** ENTER and ENTER_RESULT */
    method EnterInstruction(prog: Code, pc: nat, r: Value) returns (a: Advance)
      requires 0 < callDepth <= h.limit && pc < |prog| && (prog[pc].op == ENTER || prog[pc].op == ENTER_RESULT)
      modifies this
      ensures Follows(h, prog, pc, old(callDepth), r, old(Now()), a, Now())
      ensures a != Undef ==> callDepth == old(callDepth)
      decreases h.limit - callDepth, 2
    {
      hide Run, Enter;
      var result := r;
      EnterOp(h, prog, pc, callDepth, r, Now());
      if prog[pc].op == ENTER {
        EmplaceBack(NoValue);
      }
      var x := VmExec(prog, pc + 1);
      match x {
        case Undefined => a := Undef;
        case Thrown(e) => a := Raise(e);
        case Left(pc', v) =>
          if prog[pc].op == ENTER {
            var _ := PopBack();
            EmplaceBack(v);
          } else {
            result := v;
          }
          a := On(pc', result);
      }
    }

    /** DO and JUMP_RESULT */
    method RunInstruction(prog: Code, pc: nat, r: Value) returns (a: Advance)
      requires 0 < callDepth <= h.limit && pc < |prog| && vmstack != []
      requires prog[pc].op == DO || prog[pc].op == JUMP_RESULT
      modifies this
      ensures Follows(h, prog, pc, old(callDepth), r, old(Now()), a, Now())
      ensures a != Undef ==> callDepth == old(callDepth)
      decreases h.limit - callDepth, 2
    {
      hide Run, Enter, GetBool, Force;
      var w := prog[pc];
      TopOp(h, prog, pc, callDepth, r, Now());
      var v := PopBack();
      if !v.CodeRef? {
        if w.op == DO {
          assert Invoke(h, v, callDepth, Now()) == Stuck;
          return Undef;
        }
        assert InvokeOrKeep(h, v, callDepth, Now()) == Done(0, v, Now());
        return On(pc + 1 + (if GetBool(h, v) == (w.ret != FLAG_FALSE) then w.data else 0), v);
      }
      CallsEnter(h, v, callDepth, Now());
      var x := VmExec(v.prog, v.start);
      match x {
        case Undefined => a := Undef;
        case Thrown(e) => a := Raise(e);
        case Left(_, u) =>
          if w.op == DO {
            a := On(pc + 1, Force(h, u, w.ret));
          } else {
            a := On(pc + 1 + (if GetBool(h, u) == (w.ret != FLAG_FALSE) then w.data else 0), u);
          }
      }
    }

    /** CALL, COM and COM_V */
    method CallInstruction(prog: Code, pc: nat, r: Value) returns (a: Advance)
      requires 0 < callDepth <= h.limit && pc < |prog|
      requires prog[pc].op == CALL || prog[pc].op == COM || prog[pc].op == COM_V
      modifies this
      ensures Follows(h, prog, pc, old(callDepth), r, old(Now()), a, Now())
      ensures a != Undef ==> callDepth == old(callDepth)
      decreases h.limit - callDepth, 2
    {
      hide Run, Dispatch, Force, CallCount;
      var w := prog[pc];
      CallOp(h, prog, pc, callDepth, r, Now());
      var callargs := ArgumentCount(prog, pc);
      var code := CallEnd(prog, pc);
      if code > |prog| || callargs > |vmstack| {
        return Undef;
      }
      var offset := |vmstack| - callargs;
      var x := CallWith(w.op, w.data, vmstack[offset..]);
      match x {
        case Undefined => a := Undef;
        case Thrown(e) => a := Raise(e);
        case Left(_, v) =>
          vmstack := Resize(vmstack, offset);
          a := On(code, Force(h, v, w.ret));
      }
    }

    method ArgumentCount(prog: Code, pc: nat) returns (callargs: nat)
      requires pc < |prog|
      ensures callargs == CallCount(h, prog, pc)
    {
      if prog[pc].op == COM {
        callargs := h.arity(prog[pc].data);
      } else if pc + 1 < |prog| {
        callargs := Bits(prog[pc + 1]);
      } else {
        callargs := 0;
      }
    }

    method CallWith(op: nat, id: nat, args: seq<Value>) returns (x: Exit)
      requires callDepth <= h.limit
      modifies this
      ensures Answers(Dispatch(h, op, id, args, old(callDepth), old(Now())), x, Now())
      ensures x != Undefined ==> callDepth == old(callDepth)
      decreases h.limit - callDepth, 1
    {
      hide Enter, RunAlias, RunAndOr, GetBool;
      if op == CALL {
        x := ExecAlias(id, args);
      } else if id == IF_COMMAND {
        if |args| < 3 {
          return Undefined;
        }
        var v := if GetBool(h, args[0]) then args[1] else args[2];
        if !v.CodeRef? {
          return Undefined;
        }
        x := VmExec(v.prog, v.start);
      } else if id == AND_COMMAND || id == OR_COMMAND {
        x := AndOr(id == OR_COMMAND, args);
      } else {
        match h.command(id, args, env) {
          case Success(v, env') =>
            env := env';
            x := Left(0, v);
          case Failure(e, env') =>
            env := env';
            x := if e.Unspecified? then Undefined else Thrown(e);
        }
      }
    }

    /** The bodies of the commands `&&` and `||`. */
    method AndOr(isOr: bool, args: seq<Value>) returns (x: Exit)
      requires callDepth <= h.limit
      modifies this
      ensures Answers(RunAndOr(h, isOr, args, old(callDepth), old(Now())), x, Now())
      ensures x != Undefined ==> callDepth == old(callDepth)
      decreases h.limit - callDepth, 0, 1
    {
      hide Enter, GetBool;
      if args == [] {
        return Left(0, Int(if isOr then 0 else 1));
      }
      var i := 0;
      while true
        invariant 0 <= i < |args| && callDepth == old(callDepth)
        invariant RunAndOr(h, isOr, args, callDepth, old(Now())) == RunAndOr(h, isOr, args[i..], callDepth, Now())
        decreases |args| - i
      {
        assert args[i..][0] == args[i] && args[i..][1..] == args[i + 1..];
        var v := args[i];
        if v.CodeRef? {
          CallsEnter(h, v, callDepth, Now());
          x := VmExec(v.prog, v.start);
          if !x.Left? {
            return;
          }
          v := x.r;
        }
        if GetBool(h, v) == isOr || i + 1 == |args| {
          return Left(0, v);
        }
        i := i + 1;
      }
    }

    /** exec_alias: bind the arguments, run the text of the alias, and take the bindings back,
        also when an error passes through. If the text does not compile, they are not taken back. */
    method ExecAlias(id: nat, args: seq<Value>) returns (x: Exit)
      requires callDepth <= h.limit
      modifies this
      ensures Answers(RunAlias(h, id, args, old(callDepth), old(Now())), x, Now())
      ensures x != Undefined ==> callDepth == old(callDepth)
      decreases h.limit - callDepth, 0, 1
    {
      hide Enter, GetString, Callee, CompileMain;
      if Lost(env, id) {
        return Undefined;
      }
      if IsArgument(id) && !env.frame.Used(id) {
        return Left(0, NoValue);
      }
      if !IsArgument(id) && id !in env.store {
        return Thrown(UnknownCommand(id));
      }
      var body := h.parse(GetString(h, Callee(env, id, args)));
      var caller := env;
      if body == None {
        env := NotCompiled(caller, id, args);
        return Thrown(SyntaxError);
      }
      env := Called(caller, id, args);
      x := VmExec(CompileMain(h, body.value), 1);
      env := Returned(caller, env);
    }
  }

  lemma CallsEnter(h: Host, v: Value, depth: nat, st: State)
    requires depth <= h.limit && v.CodeRef?
    ensures Invoke(h, v, depth, st) == Enter(h, v.prog, v.start, depth, st)
    ensures InvokeOrKeep(h, v, depth, st) == Enter(h, v.prog, v.start, depth, st)
  {
  }

  lemma RunOff(h: Host, prog: Code, pc: nat, depth: nat, r: Value, st: State)
    requires depth <= h.limit && pc >= |prog|
    ensures Run(h, prog, pc, depth, r, st) == Stuck
  {
  }

  lemma RunExit(h: Host, prog: Code, pc: nat, depth: nat, r: Value, st: State)
    requires depth <= h.limit && pc < |prog| && prog[pc].op == EXIT
    ensures Run(h, prog, pc, depth, r, st) == Done(pc + 1, Force(h, r, prog[pc].ret), st)
  {
  }

  lemma RunBad(h: Host, prog: Code, pc: nat, depth: nat, r: Value, st: State)
    requires depth <= h.limit && pc < |prog|
    requires var op := prog[pc].op;
             && op != EXIT && !IsPushOp(op) && op != ENTER && op != ENTER_RESULT && op != CALL && op != COM
             && op != COM_V
             && (st.stack == [] || (!IsPopOp(op) && op != DO && op != JUMP_RESULT))
    ensures Run(h, prog, pc, depth, r, st) == Stuck
  {
  }
}
