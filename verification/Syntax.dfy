/** Values, the modelled fragment of the language, and what is taken from outside. */
module Syntax {
  import opened Words

  datatype List<+T> = Nil | Cons(head: T, tail: List<T>)

  datatype Option<+T> = None | Some(value: T)

  /** `any_value`. A code value is a program together with the index of its first instruction. */
  datatype Value = NoValue | Int(i: Int32) | Str(s: Text) | CodeRef(prog: Code, start: nat)
  {
    predicate Plain() { !CodeRef? }
  }

  /** What an argument is wanted for: `VAL_ANY`, `VAL_STRING`, `VAL_INT`, `VAL_CODE`, `VAL_COND`. */
  datatype Want = Any | AsString | AsInt | AsCode | AsCond

  /** The spellings of literal text: `word`, `"quoted"`, `[bracketed]`, and `[]`. The text of a block is
      filtered, so brackets with something between them can still have no text. */
  datatype Spelling = Word | Quoted | Bracketed | Hollow

  /** Literal text carries both its characters, for when it is wanted as a value,
      and the statements it consists of, for when it is wanted as code. */
  datatype Arg =
    | Absent
    | Literal(spelling: Spelling, text: Text, body: List<Stmt>)
    | Lookup(id: nat)                    // $alias
    | Paren(stmts: List<Stmt>)           // (statements)

  datatype Param = Param(want: Want, arg: Arg)

  datatype Stmt =
    | Assign(id: nat, arg: Arg)          // alias = arg
    | Result(arg: Arg)                   // result arg
    | Not(arg: Arg)                      // ! arg
    | Do(arg: Arg)                       // do arg
    | If(cond: Arg, thn: Arg, els: Arg)  // if cond thn els
    | AndOr(isOr: bool, params: List<Param>)
    | Command(id: nat, variadic: bool, params: List<Param>)
    | CallAlias(id: nat, params: List<Param>)
    | IntStmt(i: Int32)                  // a number standing alone
    | StrStmt(s: Text)                   // a word that cannot be a name

  /** Whether a condition is taken for no value at all. */
  predicate NoText(spelling: Spelling, text: Text) { spelling != Bracketed && text == [] }

  /** An empty true arm before a literal false arm: it is not entered at all, so that it cannot
      run into the recursion limit. */
  predicate Skipped(thn: Arg, els: Arg) {
    && ((thn.Literal? && thn.body == Nil) || thn == Paren(Nil))
    && els.Literal? && els.body != Nil
  }

  /** The arguments visible to the running body: argument index to value.
      Outside of any alias call every argument counts as present. After a call whose text does not
      compile, the argument stacks can point to nodes that are gone: then the frame is `dangling`. */
  datatype Frame = Frame(outermost: bool, args: map<nat, Value>, dangling: bool)
  {
    predicate Used(i: nat) { outermost || i in args }

    function Get(i: nat): Value { if i in args then args[i] else NoValue }
  }

  /** IDENT_FLAG_*. */
  datatype Flag = Argument | ReadOnly | Override | Overridden | Persist

  type Flags = set<Flag>

  /** An alias that has been given a value; one without counts as unknown. */
  datatype Alias = Alias(val: Value, flags: Flags)

  /** The aliases beside the arguments, the current arguments, and the thread's flags. */
  datatype Env = Env(store: map<nat, Alias>, frame: Frame, identFlags: Flags)

  /** Unspecified: the source reads beyond the bits of a mask or through a pointer to a node that is
      gone; nothing is known of what it does from there. */
  datatype Error =
    | Unspecified(id: nat)
    | RecursionLimit
    | UnknownAlias(id: nat)
    | UnknownCommand(id: nat)
    | SyntaxError
    | CommandError(code: int)

  datatype CommandResult = Success(value: Value, env: Env) | Failure(error: Error, env: Env)

  /** Everything the compiler and the VM take from outside of this model.

      limit:   the recursion limit (`max_call_depth`), not zero
      parse:   the text parser, used when text is compiled while running
      toInt:   parse_int
      intText: decimal formatting
      truthy:  get_bool on strings
      arity:   arg_count of a command
      command: the effect of a built-in command */
  datatype Host = Host(
    limit: nat,
    parse: Text -> Option<List<Stmt>>,
    toInt: Text -> Int32,
    intText: Int32 -> Text,
    truthy: Text -> bool,
    arity: nat -> nat,
    command: (nat, seq<Value>, Env) -> CommandResult)

  predicate IsArgument(id: nat) { id < MAX_ARGUMENTS }

  // ---- conversions of values (src/cs_val.cc) ----

  function GetBool(h: Host, v: Value): bool {
    match v
    case Int(i) => i != 0
    case Str(s) => h.truthy(s)
    case _ => false
  }

  function GetString(h: Host, v: Value): Text {
    match v
    case Str(s) => s
    case Int(i) => h.intText(i)
    case _ => []
  }

  function GetInt(h: Host, v: Value): Int32 {
    match v
    case Int(i) => i
    case Str(s) => h.toInt(s)
    case _ => 0
  }

  /** `force_val`: convert to the type in the mask; floats are not modelled. */
  function Force(h: Host, v: Value, ret: nat): Value {
    if ret == RET_STRING then Str(GetString(h, v))
    else if ret == RET_INT then Int(GetInt(h, v))
    else v
  }

  // ---- environments ----

  /** `is_arg` tests a flag, which an alias that is not an argument can have as well. */
  predicate Marked(env: Env, id: nat) {
    !IsArgument(id) && id in env.store && Argument in env.store[id].flags
  }

  /** Reading or setting the identifier has no meaning in the source: the mask of the running call has
      bits for the arguments only, and a dangling stack has no top. */
  predicate Lost(env: Env, id: nat) {
    if IsArgument(id) then env.frame.dangling else Marked(env, id) && !env.frame.outermost
  }

  datatype Sought = Got(v: Value) | Missed(e: Error)

  /** What LOOKUP finds; an argument that is not present reads as no value. */
  function Find(env: Env, id: nat): Sought {
    if Lost(env, id) then Missed(Unspecified(id))
    else if IsArgument(id) then Got(if env.frame.Used(id) then env.frame.Get(id) else NoValue)
    else if id in env.store then Got(env.store[id].val)
    else Missed(UnknownAlias(id))
  }

  /** The ALIAS instruction: arguments are set in the current frame; another alias takes over the
      thread's flags, unless it is marked. */
  function Bind(env: Env, id: nat, v: Value): Env {
    if IsArgument(id) then env.(frame := env.frame.(args := env.frame.args[id := v]))
    else if Marked(env, id) then env.(store := env.store[id := env.store[id].(val := v)])
    else env.(store := env.store[id := Alias(v, env.identFlags)])
  }

  /** The frame of an alias call; surplus arguments are ignored. */
  function NewFrame(args: seq<Value>): Frame {
    Frame(false, map i: nat | i < |args| && i < MAX_ARGUMENTS :: args[i], false)
  }

  // ---- alias calls ----

  function FlagsOf(env: Env, id: nat): Flags {
    if IsArgument(id) then {Argument} else if id in env.store then env.store[id].flags else {}
  }

  /** Whose text an alias call runs. Binding the arguments comes first, so calling
      argument N with at least N arguments runs the N-th argument. */
  function Callee(env: Env, id: nat, args: seq<Value>): Value {
    if IsArgument(id) then (if id < |args| then args[id] else env.frame.Get(id))
    else if id in env.store then env.store[id].val
    else NoValue
  }

  /** While the text runs, the thread has the flags of the alias. */
  function Called(env: Env, id: nat, args: seq<Value>): Env {
    env.(frame := NewFrame(args), identFlags := FlagsOf(env, id))
  }

  /** Arguments and flags are the caller's again; the aliases are as the text left them. */
  function Returned(caller: Env, after: Env): Env {
    Env(after.store, if after.frame.dangling then caller.frame.(dangling := true) else caller.frame, caller.identFlags)
  }

  /** Text that does not compile: only the call level is given up. The nodes of the arguments stay on
      their stacks, which the next level out no longer expects, and the thread keeps the flags. */
  function NotCompiled(env: Env, id: nat, args: seq<Value>): Env {
    env.(identFlags := FlagsOf(env, id),
         frame := if args == [] then env.frame
                  else if env.frame.outermost then env.frame.(args := env.frame.args + NewFrame(args).args)
                  else env.frame.(dangling := true))
  }

  ghost predicate PlainEnv(env: Env) {
    && (forall k :: k in env.store ==> env.store[k].val.Plain())
    && (forall k :: k in env.frame.args ==> env.frame.args[k].Plain())
    && !env.frame.dangling
  }

  ghost predicate PlainValues(vs: seq<Value>) {
    forall i :: 0 <= i < |vs| ==> vs[i].Plain()
  }
}
