# Verified model of the Cubescript compiler, VM and text layer

libcubescript compiles Cubescript text into a flat array of 32-bit words and runs the array on a small
stack machine. This project models that core in Dafny and proves what its parts promise each other:

* **Compiler and VM.** `Words`, `Literals`, `Emit` and `WellFormed` say which words the `gen_*` operations
  leave for each construct (literals, `$alias`, `(statements)`, assignment, `result`, `!`, `do`, two-armed
  `if`, `&&`, `||`, commands, alias calls). `Gen` has the emitter itself, a class that appends to a buffer and
  patches words in it. `Vm` says what `vm_exec` computes from the words, and `Thread` has it as a loop over a
  stack, a depth counter and an environment. `Eval` gives the meaning of the same constructs on the syntax
  alone: no words, no stack, no jumps. `Steps`, `Correct`, `Theorems` and `Script` connect them. `Frames` shows
  that a run does not touch what lies on the stack below it, and `Marks` what happens to aliases that are set
  while an argument alias runs; `Aliases` has what a lookup finds after assignments and calls.
* **Code layout and bytecode references.** `Layout` and `Places` show that compiled code, patched at every
  level, is whole instructions with jumps between them and blocks that end with their own EXIT; `Runs` follows the
  program counter over whole runs of such code; `Refs` has the header that counts exactly the live references over
  every run.
* **Arguments.** `Arguments` has the linked stack per `argN`, the bit masks and `exec_alias` as a class, and
  proves that they show exactly what a stack of per-call environments would.
* **Marshalling.** `Marshal` has the three readers of a command's format string, and `Conversions` what each
  letter makes of an argument in a compiled call and in a call at run time; they say when both agree.
* **Text.** `Scan` (strings and words), `Escape`, `Lists` (`list_parser`), `ListLaws` (joining and reading
  again), `Filter` (the block text filter), `Sources` (what the parser reads in the source of a block, and in what
  the filter leaves of it) and `Unique` (`uniquelist`).
* **String pool.** `Pool`: interning and reference counts over every run.

State that the source updates in place is a class with the same fields (`GenState`, `ThreadState`,
`ArgStacks`, `ListParser`, `StringPool`) or an array (`ExecCommand`, `FilterText`, `BlankRepeated`,
`BcodeAddref`); each method is proved against a function of the old state, and lemmas are about the functions.

Taken from outside as parameters (`Syntax.Host` and method parameters): the parser from text to syntax when
text is compiled while running, `parse_int`, `parse_float`, integer formatting, truth of strings, the built-in
commands other than `if`, `&&` and `||`, the recursion limit, the predicate that a `uniquelist` body computes, and
the allocator's choice of addresses.

## What the proofs found

* `gen_if` (src/cs_gen.cc:90-99) takes any true arm whose code merely begins with EMPTY for an empty block. For
  `if c (do [] ...) [...]` it overwrites the first word of the arm, and the VM then runs the condition as code
  (`Theorems.MistakenArmGetsStuck`, `Theorems.MistakenArmDiffers`). `Theorems.TakenForEmptyExactlyWhen` says for
  which arms this happens, and `Theorems.MistakenArmRunsElse` what it does to all of them: whatever reaches the end
  of such an arm runs the false arm.
* An `if` without a false arm whose true arm is a literal block makes `gen_if` compute a length from the position
  0 in 32 bits and write far outside of the code (`Gen.GenState.GenIfOne`); with any other true arm it is the call
  with an empty false arm (`Gen.GenState.ParseIfOne`).
* `exec_alias` gives the thread the flags of the alias that runs, and `set_alias` copies them to the alias that is
  set. An alias assigned while an argument alias runs counts as an argument from then on, and using it inside of
  any call reads beyond the 32 bits of the argument mask: `f = [arg1]`, `g = [result $x]`, `f "x = 5"`, `g`
  (`Marks.MarkedExample`). `Marks.BindMarks` says when an alias is marked, `Marks.StuckNeedsMark` that a program of
  the fragment gets stuck in no other way, and `Marks.CarefulProgram` which programs are safe.
* When the text of an alias does not compile, `exec_alias` only gives up the call level. The nodes of the
  arguments, `numargs` and the flags stay; if another call is around it, its clean-up leaves those arguments with
  nodes that are gone (`Arguments.ArgStacks.ExecUncompiled`, `Arguments.ArgStacks.LeaveAfterUncompiled`).
* The empty-true-arm patch differs from the `if` command in one case: a true condition exactly at the recursion
  limit, where the command fails to enter the empty block (`Theorems.SkippedIfIsTheCommandBelowTheLimit`).
* `exec_alias` binds arguments before it reads the callee's node, so calling `argN` with at least N arguments
  runs the N-th argument (`Syntax.Callee`).
* `parse_call_command` never returns for an accepted format whose repeated letters read no argument, if enough
  arguments are supplied (`Marshal.NeverReturns`; `$1...` is such a format, `Marshal.SelfRepeated`).
* A call that is compiled and one at run time convert some arguments differently: `(&& "")` passes no value when
  compiled and the number zero at run time (`Marshal.EmptyConditionVectors`). `Conversions.LetterAlike` lists all
  such arguments, and `Marshal.Agreement` says exactly when the two vectors are the same.
* A block that is wanted as code is compiled from its source in a compiled call, and from what the filter leaves of
  it at run time. `skip_comments` (src/cs_parser.cc:371-386) looks for the line feed behind a backslash and a carriage
  return one character too late, so a line that goes on ends its statement in a source with CRLF line ends and does
  not in the filtered text (`Sources.ContinuedLine`, `Conversions.ContinuedCalls`); a carriage return by itself ends a
  word in the source only (`Sources.JoinedWords`, `Conversions.JoinedCalls`); and a comment behind a backslash is an
  error in the source only (`Sources.CommentedBreak`). In sources without these the parser reads the same
  (`Sources.BlankTracks`, `Sources.WordTracks`, `Sources.NestedText`).
* At run time the buffer of a call has no room for repeated letters: with fewer arguments than letters
  `exec_command` writes beyond it (`Marshal.ExecCommand`; `c1...` without arguments,
  `Marshal.RepeatedWithoutRoom`), and with a group that is not filled it passes on entries beyond it
  (`Marshal.PassedInside`).
* `string_ref::operator=` does not drop the reference it writes over (src/cs_strman.cc:183-186), so the count
  exceeds the number of references for good (`Pool.LostStays`); the counts are right if and only if no assignment
  met two existing variables (`Pool.CountsExactly`). `bcode_ref::operator=` drops the old reference
  first, which frees the program if a variable with the only reference is assigned to itself
  (`Refs.DoesAgrees`). A bytecode header counts correctly up to 2^23 references (`Refs.FreedExactly`).
* The text filter is not idempotent on all text: a carriage return between two slashes
  (`Filter.SlashReturnExample`). `Filter.FilteredTwice` says when it is.
* `escape_string` documents that a vertical tab becomes `^f`; the code does that for a form feed. The model
  follows the code.

## Model

| member | source | states |
|---|---|---|
| `Words.NumberRoundTrip` | src/cs_bcode.hh:34-48 | every 32-bit number is the number of exactly one word: 6 opcode bits, 2 type bits and 24 data bits lose nothing |
| `Words.WordRoundTrip` | src/cs_bcode.hh:34-48 | a word is recovered from its number |
| `Literals.PackUnpack` | src/cs_gen.cc:173-197 | unpacking the payload words of any string gives the string back |
| `Literals.ShortStringRoundTrip` | src/cs_gen.cc:173-197 | a string of at most three bytes carried in the word is read back exactly if and only if it holds no NUL |
| `Literals.IntLiteralRoundTrip` | src/cs_gen.cc:141-150 | every 32-bit integer is read back from its literal, including sign extension of 24-bit values |
| `Steps.StringStep` | src/cs_vm.cc:349-404 | the VM pushes the string of a literal unchanged and goes on just past the words that were emitted for it |
| `Steps.IntStep` | src/cs_vm.cc:349-404 | the VM pushes the integer of a literal unchanged and goes on just past its words |
| `WellFormed.ArgHead` | src/cs_gen.cc:467-474 | the code of an argument is recognized as one block exactly when the syntax is one, and begins with EMPTY exactly when the syntax says so |
| `WellFormed.ArmShapes` | src/cs_gen.cc:60-103 | which of the three forms gen_if leaves is decided by the syntax of the two arms |
| `WellFormed.ChainLength` | src/cs_gen.cc:105-123 | patching a chain of blocks of any number makes it one word longer than the blocks |
| `Gen.GenState.GenValInteger` | src/cs_gen.cc:141-150 | appends the integer literal and changes nothing else |
| `Gen.GenState.GenValString` | src/cs_gen.cc:173-197 | appends the string literal and changes nothing else |
| `Gen.GenState.GenBlock` | src/cs_gen.cc:476-510 | compiles the body between BLOCK, OFFSET and EXIT and fills the length in afterwards, or leaves EMPTY |
| `Gen.GenState.CloseBlock` | src/cs_gen.cc:499-508 | what is appended or taken back once the body is there gives exactly the block literal |
| `Gen.GenState.GenIf` | src/cs_gen.cc:60-103 | patches the words in place to the jump form exactly when the arms allow it, and leaves the code alone otherwise |
| `Gen.GenState.PatchBoth` | src/cs_gen.cc:79-92 | overwriting six words of two adjacent blocks turns them into a conditional jump over the first and a jump over the second |
| `Gen.GenState.PatchEmpty` | src/cs_gen.cc:93-101 | overwriting the words of an empty true arm and a block gives the form that skips the block |
| `Gen.GenState.GenIfOne` | src/cs_gen.cc:60-73 | with the position 0 for a false arm that is not there, the code is left if and only if the true arm is a block; any other arm gets an empty block beside it |
| `Gen.GenState.ParseIfOne` | src/cs_parser.cc:1038-1063 | an `if` without a false arm compiles to the call with an empty one, unless the true arm is a literal block |
| `Gen.GenState.GenAndOr` | src/cs_gen.cc:105-123 | the loop over the pushed blocks leaves exactly the chain of conditional jumps, for any number of blocks |
| `Gen.GenState.PatchLink` | src/cs_gen.cc:115-122 | one turn of the loop makes one block into a link and finds the length of the next step |
| `Gen.GenState.ParseArg` | src/cs_parser.cc:758-876 | appends the code of an argument for what it is wanted for |
| `Gen.GenState.ParseParams` | src/cs_parser.cc:924-998 | appends the code of the parameters in order |
| `Gen.GenState.ParseStmts` | src/cs_parser.cc:1339-1417 | appends the code of the statements in order |
| `Gen.GenState.ParseStmt` | src/cs_parser.cc:1152-1205 | appends the code of one statement, by the gen operations in the order of the parser |
| `Gen.GenState.ParseIf` | src/cs_parser.cc:1038-1063 | compiles condition and arms and patches them or calls the command |
| `Gen.GenState.ParseAndOr` | src/cs_parser.cc:1065-1108 | compiles the operands and patches them if all but the first are blocks, or calls the command |
| `Gen.GenState.ParseBlocks` | src/cs_parser.cc:1078-1090 | compiles operands as long as they are blocks and tells whether all are |
| `Gen.GenState.GenMain` | src/cs_gen.cc:426-441 | the buffer holds START, the statements and EXIT |
| `Thread.ThreadState.VmExec` | src/cs_vm.cc:268-294 | the call ends as the specification of the VM says, with the call depth and the height of the stack at entry restored on normal and error exits |
| `Thread.ThreadState.Loop` | src/cs_vm.cc:292-804 | the instruction loop reaches the result, the environment and the stack that the specification gives |
| `Thread.ThreadState.PushLiteral` | src/cs_vm.cc:349-404 | VAL and VAL_INT push the value in their data or payload and skip the payload |
| `Thread.ThreadState.PushInstruction` | src/cs_vm.cc:295-309 | the instructions that only push or set the result; LOOKUP of an alias with the flag of an argument inside of a call is undefined |
| `Thread.ThreadState.PopInstruction` | src/cs_vm.cc:311-347 | the instructions that use the top of the stack; ALIAS copies the thread's flags to the alias |
| `Thread.ThreadState.EnterInstruction` | src/cs_vm.cc:320-326 | a nested run from the next word; its result goes to the stack or to the result register |
| `Thread.ThreadState.RunInstruction` | src/cs_vm.cc:441-478 | DO and JUMP_RESULT run code from the stack, JUMP_RESULT keeps a plain value |
| `Thread.ThreadState.CallInstruction` | src/cs_vm.cc:646-794 | the counted arguments are passed on and cut off the stack |
| `Thread.ThreadState.AndOr` | src/cs_state.cc:249-285 | the loop of the two commands stops at the first operand that decides |
| `Thread.ThreadState.ExecAlias` | src/cs_vm.cc:124-194 | the callee's text runs in a fresh frame and with the flags of the alias, and both are the caller's again afterwards; if the text does not compile, only the call level is given up |
| `Correct.BlockCorrect` | src/cs_vm.cc:268-804 | vm_exec started at the body of a block, wherever it lies and whatever surrounds it, ends just past the block's EXIT with exactly the result, aliases and arguments that the syntax means, or with exactly its error |
| `Correct.StmtCorrect` | src/cs_vm.cc:292-804 | the code of every statement, used up to its end, has the meaning of the statement and leaves the stack as it was |
| `Correct.StmtsCorrect` | src/cs_vm.cc:292-804 | the result register is carried from one statement to the next |
| `Correct.ArgCorrect` | src/cs_parser.cc:758-876 | the code of every argument pushes exactly one value, which stands for what the argument means, or code for what is not run yet |
| `Correct.ParamsCorrect` | src/cs_parser.cc:924-998 | the code of a list of parameters pushes exactly one value for each |
| `Correct.ParenCorrect` | src/cs_vm.cc:336-339 | the result of statements in parentheses is moved out of the result register |
| `Correct.AssignCorrect` | src/cs_vm.cc:624-637 | assigning sets an argument, or an alias together with its flags, and nothing else; assigning an alias that only counts as an argument is undefined inside of a call |
| `Correct.DoCorrect` | src/cs_vm.cc:441-447 | DO runs the block or the text that it is given |
| `Correct.IfCorrect` | src/cs_parser.cc:1038-1063 | the code of `if` runs the arm that the condition selects, in each of its three forms |
| `Correct.AndOrCorrect` | src/cs_parser.cc:1065-1108 | the code of `&&` and of the other connective evaluates operands from left to right until one decides, patched or not |
| `Correct.CommandCorrect` | src/cs_vm.cc:769-794 | commands receive exactly the values of their parameters |
| `Correct.AliasCallCorrect` | src/cs_vm.cc:646-668 | a call of an alias has the meaning of its text with the arguments bound |
| `Correct.CallCorrect` | src/cs_vm.cc:124-194 | running an alias through compiled text equals the meaning of the text in a new frame with the flags of the alias, at every depth up to the limit, and leaves what the source leaves if the text does not compile |
| `Correct.ChainCorrect` | src/cs_state.cc:249-285 | the command forms of the connectives have the meaning of the chain when code values stand for the operands |
| `Correct.JumpChainCorrect` | src/cs_gen.cc:105-123 | the patched chain, entered with the first operand on the stack, has the meaning of the chain for any number of blocks |
| `Correct.PushedArmsCorrect` | src/cs_state.cc:234-236 | pushing both arms and calling the `if` command runs the selected arm |
| `Correct.ArmsCorrect` | src/cs_gen.cc:74-99 | what gen_if leaves for two arms runs the selected arm |
| `Theorems.ProgramCorrect` | src/cs_vm.cc:268-804 | a compiled program, whatever lies on the stack, gives exactly the meaning or the error of the syntax, with aliases, their flags, arguments and the thread's flags, and with the stack as before; it is stuck exactly where the meaning is unspecified |
| `Theorems.PositionIndependent` | src/cs_gen.cc:480-510 | the code of a block does the same in any two programs and at any two positions, also if compiled for different ones |
| `Theorems.PatchedIfIsTheCommand` | src/cs_gen.cc:79-92 | two patched blocks mean the same as pushing both and calling the command, for every condition and all bodies |
| `Theorems.SkippedIfIsTheCommandBelowTheLimit` | src/cs_gen.cc:93-101 | an empty true arm means the same as the command if and only if it is not a true condition at the recursion limit |
| `Theorems.PatchedChainIsTheCommand` | src/cs_gen.cc:105-123 | the patched chain means the same as pushing all blocks and calling the command |
| `Theorems.NotOfValue` | src/cs_val.cc:405-430 | `!` gives 1 for zero and for no value, and 0 for every other number, negative ones too |
| `Theorems.IfOfValue` | src/cs_val.cc:405-430 | `if` runs the true arm for every number but zero, and the false arm for zero and no value |
| `Theorems.ChainOfNumber` | src/cs_state.cc:249-285 | `&&` goes on behind a number exactly if it is not zero, and the other connective exactly if it is |
| `Theorems.TakenForEmptyExactlyWhen` | src/cs_gen.cc:90-99 | for which arms gen_if sees an empty true arm, and that this is right exactly when the arm is one |
| `Theorems.MistakenArmRunsElse` | src/cs_gen.cc:93-101 | for every true arm that is mistaken for empty: whatever reaches its end runs the false arm, whether the condition was true or not, unless the result does not compile |
| `Theorems.MistakenArmGetsStuck` | src/cs_gen.cc:90-99 | for every true arm that begins with `do []`, every false block and every condition, the patched code is undefined |
| `Theorems.DoFirstMeans` | src/cs_gen.cc:90-99 | the meaning of such an arm is that of the arm without the `do []`, below the recursion limit |
| `Theorems.MistakenArmDiffers` | src/cs_gen.cc:90-99 | for all of these arms, false blocks and conditions: pushing both arms and calling the command is undefined if and only if its meaning is unspecified, while the patched code always is |
| `Script.Execute` | src/cs_gen.cc:426-441 | emitting and running a program leaves the thread exactly as the syntax says: result or error, aliases, arguments, flags, stack and depth |
| `Frames.RunAbove` | src/cs_vm.cc:292-804 | a run that is defined does the same above anything else on the stack, and all of that is still there when it ends or throws |
| `Frames.EnterAbove` | src/cs_vm.cc:268-294 | the same for a whole call of the VM |
| `Marks.BindMarks` | src/cs_ident.cc:287-295 | setting an alias marks it as an argument if and only if the thread has the flags of one, and marks are never taken away by setting it again |
| `Marks.BlockSound` | src/cs_vm.cc:124-194 | over every evaluation marks stay, unspecified behaviour comes from a marked alias only, and careful programs that start without marks make none |
| `Marks.StuckNeedsMark` | src/cs_ident.cc:456-458 | if a compiled program gets stuck, an alias has been marked and is used inside of a call |
| `Marks.CarefulProgram` | src/cs_vm.cc:143-146 | a program in which nothing that runs calls an argument alias marks nothing and has its meaning in full |
| `Marks.MarkedExample` | src/cs_vm.cc:585-603 | the input: after `f "x = 5"` with `f = [arg1]`, x reads as 5 outside of calls, and looking it up inside of `g` is unspecified |
| `Aliases.ReadAfterWrite` | src/cs_ident.cc:277-295 | in every environment, what is assigned is what a lookup finds, if and only if the assignment does not mark the alias inside of a call; every other identifier is found as before |
| `Aliases.WrittenTo` | src/cs_ident.cc:287-295 | an assignment changes one argument of the frame, or the value and the flags of one alias, and nothing else; the flags are the thread's unless the alias counts as an argument |
| `Aliases.ReadInCall` | src/cs_vm.cc:128-150 | inside of a call the arguments are those of the call, and the aliases of the caller are found as before |
| `Aliases.AssignThenLookup` | src/cs_vm.cc:624-637 | an assignment of any argument and a lookup give the text of the assigned value |
| `Aliases.AssignedTwice` | src/cs_vm.cc:624-637 | after two assignments the second value is found, whatever the alias was before |
| `Aliases.AssignedTwiceRuns` | src/cs_vm.cc:268-804 | and the compiled program results in it |
| `Aliases.CallLeaves` | src/cs_vm.cc:162-194 | a call whose text parses leaves, normally and on errors, the aliases exactly as the text left them, and the caller's arguments and flags |
| `Aliases.ReadAfterCall` | src/cs_vm.cc:162-194 | an alias is found after a call as the text of the call left it |
| `Aliases.AssignedInCall` | src/cs_vm.cc:124-194 | an assignment made in a called alias is found after the call, whether the alias existed before or not, and has given it the flags of the called alias |
| `Layout.LaidJoin` | src/cs_gen.cc:60-123 | whole code followed by whole code is whole code |
| `Layout.BlockLaid` | src/cs_gen.cc:480-510 | a block literal is whole: its length leads past its own EXIT and its OFFSET word holds the index of its body |
| `Layout.ArmsLaid` | src/cs_gen.cc:60-103 | every form that gen_if leaves is whole code, with jumps to places between units of the same block or to its end |
| `Layout.LinkLaid` | src/cs_gen.cc:105-123 | so is every link of a patched chain |
| `Layout.MainLaid` | src/cs_gen.cc:426-441 | a compiled program is START, whole units at every nesting level, and EXIT |
| `Places.LaidSplits` | src/cs_gen.cc:467-510 | reading instruction after instruction splits whole code exactly |
| `Places.LaidSound` | src/cs_gen.cc:60-123 | at every instruction of whole code, however deep: a jump lands on an instruction boundary in range, a BLOCK skip lands just past its own EXIT, and the word after BLOCK is OFFSET with the index of the body |
| `Places.NextIsPlace` | src/cs_vm.cc:292-505 | from an instruction boundary the program counter only moves to instruction boundaries, and never off the end before the last EXIT |
| `Places.StepStays` | src/cs_vm.cc:292-794 | the same for the VM's own steps |
| `Runs.RunStays` | src/cs_vm.cc:292-804 | over a whole run from a place of a block, with the blocks that it enters, every program counter is a place of that block, and the run ends just behind the EXIT of the block |
| `Runs.ProgramStays` | src/cs_vm.cc:268-804 | the same for a whole program from its first instruction, up to its last EXIT |
| `Runs.PushedStays` | src/cs_vm.cc:496-503 | the same for the body of every block that BLOCK pushes |
| `Places.ReferencesFindHeader` | src/cs_bcode.cc:119-136 | a reference to the program or to any block in it, at any depth and after patching, resolves to the word at index 0 |
| `Refs.BcodeAddref` | src/cs_bcode.cc:119-136 | increments the count in the header word that the reference resolves to, and nothing else |
| `Refs.BcodeUnref` | src/cs_bcode.cc:138-155 | decrements it and tells whether that frees the program |
| `Refs.FreedExactly` | src/cs_bcode.cc:112-117 | with the 32-bit signed comparison a program is freed exactly at the last reference for counts up to 2^23, and wrongly above |
| `Refs.AddAgrees` | src/cs_bcode.cc:9-16 | after one more reference every header still counts the live references |
| `Refs.DropAgrees` | src/cs_bcode.cc:18-20 | after one fewer too, and the program is freed exactly if it was the last |
| `Refs.CreatedAgrees` | src/cs_gen.cc:27-34 | a new program starts with one reference, to index 1 |
| `Refs.DoesAgrees` | src/cs_bcode.cc:22-29 | of all acts exactly the assignment of an only reference to itself goes wrong; all others keep every count |
| `Refs.InitialAgrees` | src/cs_bcode.cc:157-179 | the static empty blocks begin with a reference of their own |
| `Refs.RunCounts` | src/cs_bcode.cc:108-155 | over every run without such assignments a program is in memory exactly while references are live, its header is their number, and static empty blocks are never freed |
| `Arguments.ChainSame` | src/cs_ident.cc:268-275 | the chain of an argument depends only on nodes and levels that are its own |
| `Arguments.ArgStacks.Lookup` | src/cs_vm.cc:585-603 | reading an argument gives what the environment of the running call gives it |
| `Arguments.ArgStacks.SetArg` | src/cs_ident.cc:277-285 | assigning an argument changes it in the visible environment only, and nothing below the running call |
| `Arguments.ArgStacks.TouchArg` | src/cs_vm.cc:553-563 | mentioning an argument that was not given makes it a given one without a value |
| `Arguments.ArgStacks.EnterCall` | src/cs_vm.cc:128-150 | a call begins with an environment of exactly its arguments above the old ones |
| `Arguments.ArgStacks.LeaveCall` | src/cs_vm.cc:162-181 | the clean-up pops every argument in the level's mask once, cuts the node stack, and restores flags and `numargs` |
| `Arguments.ArgStacks.ExecAlias` | src/cs_vm.cc:124-194 | over every body, returned from normally or by an error, what is seen is what environments of their own give, and every stack, mask, node, `numargs` and the flags are exactly as before the call |
| `Arguments.ArgStacks.ExecUncompiled` | src/cs_vm.cc:151-160 | if the text does not compile, the call level is gone, and the nodes, `numargs` and the flags are exactly those of the call |
| `Arguments.ArgStacks.LeaveAfterUncompiled` | src/cs_vm.cc:162-194 | the clean-up of the call around it leaves exactly the arguments of the failed call with a node beyond the end of the node stack, and the others as before |
| `Arguments.ArgStacks.Run` | src/cs_vm.cc:553-603 | a run of any actions shows what the meaning shows and fails when it does |
| `Arguments.ArgStacks.CacheCode` | src/cs_vm.cc:151-157 | keeping compiled code in a node changes no environment; the code is never left over from another value |
| `Arguments.MeaningKeeps` | src/cs_ident.cc:261-266 | an environment only gains arguments while its body runs |
| `Arguments.FramesAgree` | src/cs_ident.cc:261-285 | lookups, assignments, entering and leaving calls agree, in values and flags, with the environment that compiled code is proved against |
| `Arguments.CalleeAgrees` | src/cs_vm.cc:131-151 | the text of a called argument is that of its new node if the call binds one, and else that of the old one |
| `Arguments.UncompiledAgrees` | src/cs_vm.cc:151-160 | so does a call whose text does not compile: the values left behind outside of any call, dangling arguments inside of one |
| `Marshal.NewCommand` | src/cs_state.cc:636-689 | a format is accepted if and only if it has one of the three shapes, and the arity is the number of letters that are not repeated |
| `Marshal.Refused` | src/cs_state.cc:651-689 | the first character that is not a letter decides that no shape fits |
| `Marshal.ParseCallCommand` | src/cs_parser.cc:924-998 | a fixed format pushes exactly the arity, and a variadic one exactly the count it passes on; for every fixed or open format each entry is the one of its letter: the identifier, the number of the entries before it that are not made up, the next argument, all that are left joined, or no value; for repeated letters that read arguments the vector goes round them |
| `Marshal.NumbersCount` | src/cs_parser.cc:959-962 | what `#` gives is the number of entries before it that are not made up |
| `Marshal.JoinedInOrder` | src/cs_parser.cc:934-946 | the joined text is the text of each remaining argument, in their order, with single spaces |
| `Marshal.NeverEnds` | src/cs_parser.cc:975-981 | outside of the condition that ParseCallCommand needs, from any state of the first pass or of a repeated group, no number of steps uses up the format |
| `Marshal.NeverReturns` | src/cs_parser.cc:924-998 | from the beginning: the loop returns if and only if the repeated letters read an argument or the arguments run out before them; here, the half that it does not |
| `Marshal.SelfRepeated` | src/cs_state.cc:636-689 | the input: `$1...` is accepted, and no call of it is ever compiled |
| `Marshal.StepProgress` | src/cs_parser.cc:928-994 | each character of the format extends the vector as intended, also after jumping back |
| `Marshal.ExecCommand` | src/cs_vm.cc:34-122 | the supplied values are converted in place to the intended vector, in a buffer of the size that the source gives it; the buffer is left if and only if there are fewer arguments than letters and the last are repeated; otherwise the number of entries passed on is exact, and entries beyond are untouched |
| `Marshal.ReadingLetter` | src/cs_vm.cc:41-53 | one letter reads the next argument, or adds a missing value in the first pass only |
| `Marshal.Agreement` | src/cs_vm.cc:34-122 | for all arguments, the entries of the compiled vector and of the vector at run time are alike if and only if no last `s` joins a surplus and no argument is of the kinds that its letter converts differently |
| `Marshal.CountedAgreement` | src/cs_vm.cc:34-122 | the same for formats with a last `#` |
| `Marshal.HarmlessAgreement` | src/cs_vm.cc:34-122 | with harmless sources of blocks, the condition on the arguments is one that can be seen from each of them |
| `Marshal.EmptyConditionVectors` | src/cs_vm.cc:70-80 | the input: format `c` and an empty text, no value in the compiled vector and zero in the other |
| `Marshal.PassedWhole` | src/cs_vm.cc:109-119 | at run time as many entries are passed on as in a compiled call if and only if the repeated groups are filled |
| `Marshal.PassedInside` | src/cs_vm.cc:717-724 | the entries passed on lie inside of the buffer if and only if there are arguments for all letters and for whole groups |
| `Marshal.RepeatedWithoutRoom` | src/cs_vm.cc:717-724 | the input: for `c1...` without arguments the buffer is empty and one entry is passed on |
| `Conversions.LetterAlike` | src/cs_vm.cc:54-95 | for every letter and every argument, the conversion of a compiled call and that at run time give entries that are alike if and only if the argument is none of the listed kinds and, for code and conditions in brackets, the source and the filtered text are the same program |
| `Conversions.HarmlessAlike` | src/cs_parser.cc:682-697 | for harmless sources the last condition always holds |
| `Conversions.JoinedCalls` | src/cs_parser.cc:682-697 | the input: `foo` and `bar` with a carriage return between them, in brackets; one call with an argument when compiled, the call of another alias at run time |
| `Conversions.ContinuedCalls` | src/cs_parser.cc:371-386 | the input: a line that goes on behind a backslash, with a CRLF line end, in brackets; two calls when compiled, one at run time |
| `Conversions.CompiledMeans` | src/cs_parser.cc:758-876 | the conversions taken for compiled calls are what the emitted code of the argument is proved to push |
| `Conversions.NegativeDiffers` | src/cs_parser.cc:288-304 | a negative number wanted as code is itself when compiled and the call of an unknown alias at run time |
| `Scan.StringEnd` | src/cs_parser.cc:15-65 | a string that is accepted ends with a quote inside of the text |
| `Scan.ParseString` | src/cs_parser.cc:15-65 | finds the end of the string or reports it unfinished, and counts one line more than the line breaks in it |
| `Scan.StringEndExactly` | src/cs_parser.cc:15-65 | a string up to k is accepted if and only if it consists of plain characters, caret pairs and continued lines, and the quote, before which a last backslash may stand; it is unfinished if and only if there is no such k |
| `Scan.BreaksCounted` | src/cs_parser.cc:15-65 | the lines counted are the carriage returns and the line feeds that do not follow one |
| `Scan.StringMoves` | src/cs_parser.cc:15-65 | a finished string is one wherever its text stands |
| `Scan.ParseWord` | src/cs_parser.cc:67-111 | the loop with its recursion returns the end that the specification gives |
| `Scan.WordEndNests` | src/cs_parser.cc:67-111 | what is passed over is properly nested in both kinds of brackets, free of quotes, `;`, white space and comments, and followed by the end, a delimiter, a comment or a closer |
| `Scan.NestedEnds` | src/cs_parser.cc:67-111 | conversely, nested text that stops is passed over, up to the closer of the innermost bracket still open |
| `Scan.WordEndExactly` | src/cs_parser.cc:67-111 | parse_word returns k if and only if a word stops at k, and reports an error if and only if no word does |
| `Scan.WordMoves` | src/cs_parser.cc:67-111 | a word is a word wherever its text stands before a delimiter or the end |
| `Escape.EscapeString` | include/cubescript/cubescript/util.hh:213-228 | writes the quoted and escaped text |
| `Escape.UnescapeString` | include/cubescript/cubescript/util.hh:245-281 | writes the text with pairs and continued lines replaced |
| `Escape.Unescaped` | src/cs_gen.cc:222-227 | unescaping never lengthens the text, so the word buffer of gen_str_filter suffices for it too |
| `Escape.EscapedReadsBack` | include/cubescript/cubescript/util.hh:213-281 | parse_string ends an escaped string at its last quote or fails; clean strings succeed; and unescaping gives the string back exactly if it is clean |
| `Escape.CleanIs` | include/cubescript/cubescript/util.hh:261-275 | clean means free of backslashes and carriage returns |
| `Escape.EscapedSafe` | include/cubescript/cubescript/util.hh:213-228 | an escaped text is pairs of a caret and one of five characters, and characters that need no escape |
| `Escape.SafeHolds` | include/cubescript/cubescript/util.hh:213-228 | so tabs, line feeds and form feeds never occur in it, and a quote only behind a caret |
| `Escape.UnescapedPlain` | include/cubescript/cubescript/util.hh:245-281 | text without carets and backslashes is unescaped to itself |
| `Escape.CaretsRead` | include/cubescript/cubescript/util.hh:245-281 | behind a caret, every character but `n`, `t` and `f` stands for itself |
| `Lists.ParseAt` | src/cs_parser.cc:1419-1503 | an item lies within the input in front of the place that is left, and every item found leaves strictly less input |
| `Lists.WordProgress` | src/cs_parser.cc:1490-1502 | only before a `;` can an item be empty, and then the `;` is passed over |
| `Lists.ListParser.SkipUntilItem` | src/cs_parser.cc:1522-1540 | passes over white space and comments to the place where neither begins |
| `Lists.SkipExactly` | src/cs_parser.cc:1522-1540 | only white space and whole comments are passed over, and all of them |
| `Lists.ListParser.ParseBlock` | src/cs_parser.cc:1436-1483 | finds where the block ends, or reports it unclosed or a string in it unfinished |
| `Lists.BlockEndExactly` | src/cs_parser.cc:1436-1483 | a block ends at k if and only if k is the first place outside of strings and comments at which all brackets of its kind are closed; it is unclosed if and only if there is none up to the end of the text |
| `Lists.ListParser.Parse` | src/cs_parser.cc:1419-1503 | answers and leaves slices and input as the specification says, with the old slice for a block that is not ended |
| `Lists.ListParser.Count` | src/cs_parser.cc:1505-1511 | terminates and counts the items |
| `Lists.ListParser.GetItem` | src/cs_parser.cc:1513-1520 | unescapes quoted items and returns others as they are |
| `Lists.CountsItems` | src/cs_parser.cc:1505-1511 | the count is the number of items read |
| `ListLaws.BlockMoves` | src/cs_parser.cc:1436-1483 | a block that ends is one wherever its text stands |
| `ListLaws.ParsedIsItem` | src/cs_parser.cc:1419-1503 | every item is empty, or a text that is by itself one string, block or word |
| `ListLaws.ItemParses` | src/cs_parser.cc:1419-1503 | such a text in front of the end or a space is read as just that item |
| `ListLaws.ItemValues` | src/cs_parser.cc:1513-1520 | get_item gives a string unescaped, a block without its brackets and a word as it is, from the text of the list |
| `ListLaws.JoinedItems` | src/lib_list.cc:130-137 | items joined with single spaces are read as those that are not empty |
| `ListLaws.ReadAgain` | src/lib_list.cc:130-137 | for every list that is read without error, joining the quoted items and reading again gives the items without the empty ones: the same list if and only if none is empty |
| `ListLaws.EscapedList` | src/cs_parser.cc:1419-1520 | the text at any place that is the escaped strings joined reads as them exactly if all are clean |
| `ListLaws.ListRoundTrip` | include/cubescript/cubescript/util.hh:213-281 | escaping, joining with spaces and reading gives back exactly the strings, and their number, if and only if no string holds a backslash or a carriage return |
| `Filter.Filtered` | src/cs_gen.cc:229-285 | the filter never lengthens the text |
| `Filter.FilterText` | src/cs_gen.cc:229-285 | the loop writes the filtered text into a buffer of the length of the text without leaving it, or reports an unfinished string |
| `Filter.GenValBlock` | src/cs_gen.cc:198-220 | the buffer's words suffice, and the words appended are the string literal of the filtered text |
| `Filter.FilteredTwice` | src/cs_gen.cc:229-285 | for all text in which no comment that arises begins with punctuation, a second pass changes nothing if and only if no copied slash meets a slash in what the filter leaves of the rest; otherwise the text is refused or gets shorter |
| `Filter.UnchangedExactly` | src/cs_gen.cc:229-285 | for all text, the filter changes nothing if and only if there is no carriage return outside of strings and comments, every comment is one that is kept and every string is finished; any other text is refused or gets shorter |
| `Filter.FilteredTwiceIsOnce` | src/cs_gen.cc:229-285 | text without a slash, one or more carriage returns and a slash is filtered once and for all |
| `Filter.SlashReturnExample` | src/cs_gen.cc:246-248 | dropping a carriage return between two slashes makes a comment that a second pass removes |
| `Filter.CommentRule` | src/cs_gen.cc:256-268 | a comment is left out unless its slashes are followed by one of the punctuation characters |
| `Sources.BlankTracks` | src/cs_parser.cc:366-397 | skip_comments comes to the same place, or fails, in a harmless source and in what the filter leaves of it |
| `Sources.WordTracks` | src/cs_parser.cc:67-111 | parse_word reads the same word, or fails, in both |
| `Sources.TrackString` | src/cs_parser.cc:15-65 | parse_string reads the same string in both |
| `Sources.BlockTracks` | src/cs_parser.cc:597-664 | a block within the source ends at the same place in both |
| `Sources.NestedText` | src/cs_gen.cc:229-285 | and its text is the same: what the filter leaves of the inner block, once or twice |
| `Sources.ContinuedLine` | src/cs_parser.cc:371-386 | the input: behind a backslash, a carriage return and a line feed, skip_comments stops at the line feed in the source and goes on in the filtered text |
| `Sources.CommentedBreak` | src/cs_parser.cc:371-375 | the input: a backslash before a comment is an invalid line break in the source and a continued line in the filtered text |
| `Sources.JoinedWords` | src/cs_parser.cc:67-111 | the input: two words of the source are one in the filtered text |
| `Unique.OnlyChoice` | src/lib_list.cc:569-587 | keeping an item exactly when it is not empty and matches no earlier kept one is the only choice in which no kept item matches an earlier kept one and every dropped one does |
| `Unique.FindSame` | src/lib_list.cc:575-581 | the inner loop finds the first earlier item that still has its text and matches |
| `Unique.BlankRepeated` | src/lib_list.cc:569-587 | in place, exactly the items that are not kept lose their text, and the two totals are those of the kept ones |
| `Unique.WrittenLength` | src/lib_list.cc:589-600 | the length of the output is exactly the reserved one |
| `Unique.WrittenReads` | src/lib_list.cc:589-600 | reading the output gives exactly the kept items in their order |
| `Unique.UniqueList` | src/lib_list.cc:526-602 | for every list: an error, the list itself if it has no items, or a text of exactly the reserved length that reads as exactly the kept items, in order; a block that is not ended counts as the item before it once more |
| `Unique.CollectedItems` | src/cs_parser.cc:1419-1503 | for a list in which all blocks are ended, what the loop over parse() collects are its items |
| `Pool.StringPool.Add` | src/cs_strman.cc:23-51 | content that is there gets one more reference at the same pointer, other content a new entry with one |
| `Pool.StringPool.Ref` | src/cs_strman.cc:53-60 | one more reference |
| `Pool.StringPool.Unref` | src/cs_strman.cc:89-112 | memory and entry go exactly with the last reference |
| `Pool.StringPool.Steal` | src/cs_strman.cc:62-87 | a buffer becomes the entry of its content, or is released for the one there |
| `Pool.StringPool.Assign` | src/cs_strman.cc:183-186 | the new entry is counted and the old one is not dropped |
| `Pool.StringPool.Find` | src/cs_strman.cc:114-127 | finds the entry of a content if there is one |
| `Pool.LessCounted` | src/cs_strman.cc:89-112 | releasing keeps one entry for each content with the right count |
| `Pool.SamePointerSameContent` | src/cs_strman.cc:196-198 | live references are the same pointer if and only if their contents are equal |
| `Pool.DoesAgrees` | src/cs_strman.cc:164-186 | every act on string references keeps the pool in agreement with the variables |
| `Pool.RunCounts` | src/cs_strman.cc:23-112 | over every run an entry is in memory exactly while referred to, its count is the number of references and lost ones, pointers are equal exactly if contents are, and nothing is lost without assignments |
| `Pool.LostStays` | src/cs_strman.cc:183-186 | what an assignment wrote over stays in memory whatever follows, with a count above the number of references |
| `Pool.CountsExactly` | src/cs_strman.cc:164-186 | over every run from an empty pool, each count is the number of variables that refer to the entry if and only if no assignment met two existing variables |

## Left out

- Theorems.ProgramCorrect: excludes true arms that gen_if mistakes for an empty block (`WellFormed.MistakenForEmpty`); for these the code is wrong, as TakenForEmptyExactlyWhen and MistakenArmRunsElse show. What the source does where the meaning is unspecified is not modelled beyond that point.
- Theorems.MistakenArmGetsStuck: arms that begin with `do []`; what other mistaken arms do before they end depends on the code that is left of them.
- Marks.StuckNeedsMark: commands are taken to keep marks and flags as they are (`Marks.Tame`).
- Filter.FilteredTwice: leaves out text in which a comment arises that begins with punctuation; it is kept, and may take a string or another comment apart. UnchangedExactly covers what is filtered for any text.
- Marshal.ParseCallCommand: for formats with repeated letters, the vector is stated if all letters read arguments; with `$` or `#` among them only its length, and when the loop returns.
- Marshal.ExecCommand: takes formats whose letters read arguments, also followed by a last `#`; what follows a write outside of the buffer is not modelled.
- Conversions.LetterAlike: values of arguments are texts, numbers or none, floats only come from reading these; text that does not parse counts as the same failure in both calls.
- Conversions.HarmlessAlike: the parser itself is not modelled; that it makes the same program of texts in which all of its reading operations agree is taken from it (`Conversions.ReadsThrough`).
- Gen.GenState.GenIfOne: what follows the write outside of the code is not modelled.
- Refs.RunCounts: bounds the run by 2^23 references, beyond which FreedExactly shows that the header does not count.
- Pool.RunCounts: operations happen one at a time; `add` and `steal` use two separate locked sections, whose interleavings are not modelled.
- Thread.ThreadState.VmExec: the recursion limit is not zero (zero means unlimited in the source).
- Thread.ThreadState.ExecAlias: compiles the callee's text on every call; the code that a node keeps is covered by ArgStacks.CacheCode.
- Arguments.ArgStacks.Run: its actions do not have the call whose text does not compile, after which the environments no longer hold; ExecUncompiled and LeaveAfterUncompiled have it.
- `local`, `doargs`, loops, `break` and `continue`: state outside of the fragment.
- Floats, variables (`VAR`, `SVAR` and such), lookup of identifiers by name, concatenation, identifier values inside compiled code, and surplus arguments that are compiled and popped.
- The parser from text to the syntax of statements, `@` macros and `parse_blockarg`: syntax is where the compiler model begins; the text of words, strings, lists and blocks is covered by the text modules.
- Assignment to arguments from inside commands (`command_impl::call_id` cuts the node stack afterwards).
- Sorting in `sortlist` (a library sort) and the adjacent duplicates removed after it.
- Call hooks, error messages and buffers, the allocator, reallocation of vectors: stack and nodes are stable objects here.
- The math and string libraries, the REPL and the build files: they add only easy members or I/O.
