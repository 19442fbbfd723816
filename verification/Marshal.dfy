/** A command's format string is read three times: when the command is registered, when a call is
    compiled, and when a call is made at run time (new_command in src/cs_state.cc,
    parse_call_command in src/cs_parser.cc, exec_command in src/cs_vm.cc). */
module Marshal {
  import opened Words
  import opened Syntax
  import opened Conversions
  import Sources

  /** Where an entry of the argument vector that a command receives comes from: the k-th supplied
      argument converted as a letter says (`a` leaves it alone), several of them joined into one string,
      no value, the identifier itself, or the number of arguments. */
  datatype Slot = Given(k: nat, letter: char) | Joined(from: nat, end: nat) | Missing | Self | Number(n: int)

  /** Several arguments, wanted as strings, with a space between them (gen_concat). */
  function JoinedText(c: Readings, xs: seq<Supplied>, from: nat, end: nat): Text
    requires from < end <= |xs|
    decreases end
  {
    var last := GetString(c.h, AnyValue(c.h, xs[end - 1]));
    if from + 1 == end then last else JoinedText(c, xs, from, end - 1) + [' '] + last
  }

  /** The arguments as strings, in their order. */
  function Parts(c: Readings, xs: seq<Supplied>, from: nat, end: nat): (ps: seq<Text>)
    requires from <= end <= |xs|
    ensures |ps| == end - from
  {
    seq(end - from, k requires 0 <= k < end - from => GetString(c.h, AnyValue(c.h, xs[from + k])))
  }

  /** The first, a space, and the others. */
  function Spaced(ps: seq<Text>): Text {
    if ps == [] then [] else if |ps| == 1 then ps[0] else ps[0] + [' '] + Spaced(ps[1..])
  }

  lemma {:induction false} SpacedLast(ps: seq<Text>)
    requires |ps| >= 2
    ensures Spaced(ps) == Spaced(ps[..|ps| - 1]) + [' '] + ps[|ps| - 1]
  {
    if |ps| > 2 {
      SpacedLast(ps[1..]);
      assert ps[1..][..|ps| - 2] == ps[..|ps| - 1][1..];
      Respaced(ps[0], Spaced(ps[..|ps| - 1][1..]), ps[|ps| - 1]);
    } else {
      assert ps[1..] == [ps[1]] && ps[..1] == [ps[0]];
    }
  }

  lemma Respaced(a: Text, b: Text, c: Text)
    ensures a + [' '] + (b + [' '] + c) == a + [' '] + b + [' '] + c
  {
  }

  /** What a last `s` passes is the text of each remaining argument, in their order, with single spaces. */
  lemma {:induction false} JoinedInOrder(c: Readings, xs: seq<Supplied>, from: nat, end: nat)
    requires from < end <= |xs|
    ensures JoinedText(c, xs, from, end) == Spaced(Parts(c, xs, from, end))
    decreases end
  {
    hide Spaced, AnyValue;
    var ps := Parts(c, xs, from, end);
    if from + 1 < end {
      JoinedInOrder(c, xs, from, end - 1);
      assert ps[..|ps| - 1] == Parts(c, xs, from, end - 1);
      SpacedLast(ps);
    } else {
      OnePart(ps);
    }
  }

  lemma OnePart(ps: seq<Text>)
    requires |ps| == 1
    ensures Spaced(ps) == ps[0]
  {
  }

  /** The entry itself, in a compiled call. */
  function CompiledEntry(c: Readings, xs: seq<Supplied>, slot: Slot): Entry {
    match slot
    case Given(k, letter) => if k < |xs| then AtCompileTime(c, letter, xs[k]) else Val(NoValue)
    case Joined(from, end) => Val(Str(if from < end <= |xs| then JoinedText(c, xs, from, end) else []))
    case Missing => Val(NoValue)
    case Self => Own
    case Number(n) => Count(n)
  }

  /** The entry itself, in a call made at run time, which does not join. */
  function RunEntry(c: Readings, xs: seq<Supplied>, slot: Slot): Entry {
    match slot
    case Given(k, letter) => if k < |xs| then AtRunTime(c, letter, AnyValue(c.h, xs[k])) else Val(NoValue)
    case Joined(_, _) => Val(NoValue)
    case Missing => Val(NoValue)
    case Self => Own
    case Number(n) => Count(n)
  }

  function CompiledEntries(c: Readings, xs: seq<Supplied>, v: seq<Slot>): (r: seq<Entry>)
    ensures |r| == |v|
  {
    seq(|v|, k requires 0 <= k < |v| => CompiledEntry(c, xs, v[k]))
  }

  function RunEntries(c: Readings, xs: seq<Supplied>, v: seq<Slot>): (r: seq<Entry>)
    ensures |r| == |v|
  {
    seq(|v|, k requires 0 <= k < |v| => RunEntry(c, xs, v[k]))
  }

  // ---- formats ----

  predicate Reader(c: char) {
    c == 'i' || c == 'f' || c == 's' || c == 'a' || c == 'c' || c == 'b' || c == 'v'
  }

  predicate Letter(c: char) { Reader(c) || c == '#' || c == '$' }

  predicate Digit(c: char) { '1' <= c <= '4' }

  function Value(c: char): nat
    requires Digit(c)
  {
    (c as int) - ('0' as int)
  }

  const Dots := "..."

  /** Letters; letters followed by three dots; or letters, a digit and three dots, where the digit says
      how many of the last letters are repeated. */
  datatype Shape = Fixed | Open | Repeated(d: nat)

  ghost predicate HasShape(fmt: string, letters: string, s: Shape) {
    && (forall k :: 0 <= k < |letters| ==> Letter(letters[k]))
    && match s
       case Fixed => fmt == letters
       case Open => fmt == letters + Dots
       case Repeated(d) =>
         1 <= d <= 4 && d <= |letters| && fmt == letters + [(d + '0' as int) as char] + Dots
  }

  /** The arguments that a call always has: what new_command stores as the arity. */
  function Arity(letters: string, s: Shape): nat
    requires s.Repeated? ==> s.d <= |letters|
  {
    if s.Repeated? then |letters| - s.d else |letters|
  }

  /** The check in new_command: the arity, or nothing if the format is refused. */
  method NewCommand(fmt: string) returns (nargs: Option<nat>, ghost letters: string, ghost s: Shape)
    ensures nargs.Some? ==> HasShape(fmt, letters, s) && nargs.value == Arity(letters, s)
    ensures nargs == None ==> forall ls, t :: !HasShape(fmt, ls, t)
  {
    var n := 0;
    var it := 0;
    letters, s := "", Fixed;
    while it < |fmt|
      invariant it <= |fmt| && n == it && letters == fmt[..it] && s == Fixed
      invariant forall k :: 0 <= k < it ==> Letter(fmt[k])
    {
      var c := fmt[it];
      if Letter(c) {
        n := n + 1;
      } else if Digit(c) {
        var nrep := Value(c);
        if n < nrep || |fmt| - it != 4 || fmt[it + 1] != '.' || fmt[it + 1..] != Dots {
          Refused(fmt, it);
          return None, letters, s;
        }
        s := Repeated(nrep);
        assert fmt == letters + [c] + Dots;
        return Some(n - nrep), letters, s;
      } else if c == '.' {
        if it + 3 != |fmt| || fmt[it..] != Dots {
          Refused(fmt, it);
          return None, letters, s;
        }
        s := Open;
        assert fmt == letters + Dots;
        return Some(n), letters, s;
      } else {
        Refused(fmt, it);
        return None, letters, s;
      }
      it := it + 1;
      letters := fmt[..it];
    }
    assert fmt == letters;
    nargs := Some(n);
  }

  /** The first character that is not a letter decides. */
  lemma Refused(fmt: string, it: nat)
    requires it < |fmt| && !Letter(fmt[it]) && forall k :: 0 <= k < it ==> Letter(fmt[k])
    requires !(fmt[it..] == Dots)
    requires !(Digit(fmt[it]) && Value(fmt[it]) <= it && fmt[it + 1..] == Dots)
    ensures forall ls, t :: !HasShape(fmt, ls, t)
  {
    forall ls, t ensures !HasShape(fmt, ls, t) {
      ShapeTail(fmt, ls, t, it);
    }
  }

  lemma ShapeTail(fmt: string, ls: string, t: Shape, it: nat)
    requires it < |fmt| && !Letter(fmt[it]) && forall k :: 0 <= k < it ==> Letter(fmt[k])
    ensures HasShape(fmt, ls, t) ==>
              fmt[it..] == Dots || (Digit(fmt[it]) && Value(fmt[it]) <= it && fmt[it + 1..] == Dots)
  {
    LeadingIs(fmt, it);
    if HasShape(fmt, ls, t) {
      LeadingIs(fmt, |ls|);
      assert fmt[|ls|..] == if t.Open? then Dots else if t.Repeated? then [(t.d + '0' as int) as char] + Dots else "";
      assert t.Repeated? ==> fmt[|ls| + 1..] == Dots;
    }
  }

  /** How many letters a format begins with. */
  function Leading(fmt: string): nat {
    if fmt == "" || !Letter(fmt[0]) then 0 else 1 + Leading(fmt[1..])
  }

  lemma {:induction false} LeadingIs(fmt: string, n: nat)
    requires n <= |fmt| && (n < |fmt| ==> !Letter(fmt[n])) && forall k :: 0 <= k < n ==> Letter(fmt[k])
    ensures Leading(fmt) == n
  {
    if n > 0 {
      assert Letter(fmt[0]);
      LeadingIs(fmt[1..], n - 1);
    }
  }

  // ---- what the vector should be ----

  predicate AllReaders(letters: string) {
    forall k :: 0 <= k < |letters| ==> Reader(letters[k])
  }

  function Min(a: nat, b: nat): nat { if a < b then a else b }

  /** Each letter takes the next argument, or no value if there are no more. */
  function FirstPass(letters: string, n: nat): (v: seq<Slot>)
    ensures |v| == |letters|
  {
    seq(|letters|, k requires 0 <= k < |letters| => if k < n then Given(k, letters[k]) else Missing)
  }

  /** The arguments beyond the letters: as they are, or in turn as the repeated letters say. */
  function Extra(letters: string, s: Shape, n: nat): seq<Slot>
    requires s.Repeated? ==> 1 <= s.d <= |letters|
  {
    if n <= |letters| || s == Fixed then [] else
    seq(n - |letters|, k requires 0 <= k < n - |letters| =>
      Given(|letters| + k, if s.Repeated? then letters[|letters| - s.d + k % s.d] else 'a'))
  }

  function Vector(letters: string, s: Shape, n: nat): seq<Slot>
    requires s.Repeated? ==> 1 <= s.d <= |letters|
  {
    FirstPass(letters, n) + Extra(letters, s, n)
  }

  /** A last `s` takes all of the remaining arguments, joined, when the call is compiled. */
  function JoinedVector(letters: string, n: nat): seq<Slot>
    requires letters != ""
  {
    FirstPass(letters[..|letters| - 1], n)
              + [if n == |letters| then Given(|letters| - 1, 's') else Joined(|letters| - 1, n)]
  }

  // ---- compiling a call ----

  /** The variables of the loop in parse_call_command; `used` counts the arguments parsed so far. */
  datatype Parse = Parse(it: int, more: bool, rep: bool, numargs: nat, fakeargs: nat, used: nat, out: seq<Slot>,
      variadic: bool)

  /** The arguments that are left, as they are. */
  function Rest(used: nat, n: nat): (r: seq<Slot>)
    requires used <= n
    ensures |r| == n - used
  {
    seq(n - used, k requires 0 <= k < n - used => Given(used + k, 'a'))
  }

  /** One character of the format. */
  function Step(fmt: string, n: nat, c: Parse): Parse
    requires 0 <= c.it < |fmt| && c.used <= n
  {
    var ch := fmt[c.it];
    if ch == '$' then c.(it := c.it + 1, out := c.out + [Self], numargs := c.numargs + 1)
    else if ch == '#' then
      c.(it := c.it + 1, out := c.out + [Number(c.numargs - c.fakeargs)], numargs := c.numargs + 1)
    else if ch == '.' then
      c.(it := c.it + 3, variadic := true, more := false, used := if c.more then n else c.used,
         out := c.out + (if c.more then Rest(c.used, n) else []),
         numargs := c.numargs + (if c.more then n - c.used else 0))
    else if Digit(ch) then
      if c.more then c.(it := c.it - Value(ch), rep := true) else c.(it := c.it + 1)
    else if c.more && c.used < n then
      if ch == 's' && c.it + 1 == |fmt| then
        // the last letter is `s`: join what is left
        c.(it := c.it + 1, used := n, more := false, numargs := c.numargs + 1,
           out := c.out + [if n - c.used == 1 then Given(c.used, 's') else Joined(c.used, n)])
      else
        c.(it := c.it + 1, used := c.used + 1, numargs := c.numargs + 1, out := c.out + [Given(c.used, ch)])
    else if c.rep then c.(it := c.it + 1, more := false)
    else
      c.(it := c.it + 1, more := false, fakeargs := c.fakeargs + 1, numargs := c.numargs + 1, out := c.out + [Missing])
  }

  const Begin := Parse(0, true, false, 0, 0, 0, [], false)

  /** What holds of every state of the loop, for any accepted format. */
  ghost predicate Sound(fmt: string, letters: string, s: Shape, n: nat, c: Parse) {
    var L := |letters|;
    && 0 <= c.it <= |fmt| && c.used <= n && |c.out| == c.numargs && c.fakeargs <= c.numargs
    && (c.it <= L && !c.rep ==> c.numargs == c.it)
    && (c.rep ==> s.Repeated? && L - s.d <= c.it)
    && (c.it > L ==> c.it == |fmt| || (s.Repeated? && c.it == L + 1))
    && (c.it > L ==> !c.more)
    && (c.variadic <==> c.it == |fmt| && s != Fixed)
  }

  lemma StepSound(fmt: string, letters: string, s: Shape, n: nat, c: Parse)
    requires HasShape(fmt, letters, s) && Sound(fmt, letters, s, n, c) && c.it < |fmt|
    ensures Sound(fmt, letters, s, n, Step(fmt, n, c))
  {
    hide Sound, HasShape, Step;
    if c.it < |letters| {
      LetterSound(fmt, letters, s, n, c);
    } else {
      TailSound(fmt, letters, s, n, c);
    }
  }

  lemma LetterSound(fmt: string, letters: string, s: Shape, n: nat, c: Parse)
    requires HasShape(fmt, letters, s) && Sound(fmt, letters, s, n, c) && c.it < |letters|
    ensures c.it < |fmt| && Sound(fmt, letters, s, n, Step(fmt, n, c))
  {
    assert fmt[c.it] == letters[c.it];
    assert !Digit(fmt[c.it]) && fmt[c.it] != '.';
  }

  lemma TailSound(fmt: string, letters: string, s: Shape, n: nat, c: Parse)
    requires HasShape(fmt, letters, s) && Sound(fmt, letters, s, n, c) && |letters| <= c.it < |fmt|
    ensures Sound(fmt, letters, s, n, Step(fmt, n, c))
  {
    if s.Repeated? && c.it == |letters| {
      assert fmt[c.it] == (s.d + '0' as int) as char;
      assert Value(fmt[c.it]) == s.d;
    } else {
      assert fmt[c.it] == '.';
    }
  }

  /** How the vector grows in the first pass over letters that all read arguments. */
  ghost predicate FirstPassState(letters: string, n: nat, c: Parse) {
    && 0 <= c.it <= |letters| && !c.rep && c.used == Min(c.it, n) && (c.more <==> c.it <= n)
    && c.numargs == c.it && c.fakeargs == c.it - Min(c.it, n) && c.out == FirstPass(letters[..c.it], n)
  }

  /** How it grows when a group is repeated. */
  ghost predicate RepeatState(letters: string, s: Shape, n: nat, c: Parse)
    requires s.Repeated? && 1 <= s.d <= |letters|
  {
    var L := |letters|;
    && L <= n && L - s.d <= c.it <= L && c.rep && L <= c.used <= n
    && c.out == Vector(letters, s, c.used)
    && (if c.more then c.it == L - s.d + (c.used - L) % s.d || (c.it == L && (c.used - L) % s.d == 0)
        else c.used == n)
  }

  ghost predicate Progress(fmt: string, letters: string, s: Shape, n: nat, c: Parse)
    requires HasShape(fmt, letters, s)
  {
    if c.it > |letters| then c.out == Vector(letters, s, n) && !c.more
    else if c.rep then s.Repeated? && RepeatState(letters, s, n, c)
    else if c.it == |fmt| && letters != "" && letters[|letters| - 1] == 's' && n >= |letters| then
      c.out == JoinedVector(letters, n)
    else FirstPassState(letters, n, c)
  }

  lemma FirstPassGrows(letters: string, n: nat, it: nat)
    requires it < |letters|
    ensures FirstPass(letters[..it + 1], n)
         == FirstPass(letters[..it], n) + [if it < n then Given(it, letters[it]) else Missing]
  {
  }

  lemma ExtraGrows(letters: string, s: Shape, used: nat)
    requires s.Repeated? && 1 <= s.d <= |letters| <= used
    ensures Vector(letters, s, used + 1)
         == Vector(letters, s, used) + [Given(used, letters[|letters| - s.d + (used - |letters|) % s.d])]
  {
  }

  lemma NextInGroup(x: nat, d: nat)
    requires 1 <= d <= 4
    ensures (x + 1) % d == if x % d + 1 == d then 0 else x % d + 1
  {
    if d == 2 {
    } else if d == 3 {
    } else if d == 4 {
    }
  }

  lemma StepProgress(fmt: string, letters: string, s: Shape, n: nat, c: Parse)
    requires HasShape(fmt, letters, s) && AllReaders(letters) && c.it < |fmt|
    requires Sound(fmt, letters, s, n, c) && Progress(fmt, letters, s, n, c)
    ensures Progress(fmt, letters, s, n, Step(fmt, n, c))
  {
    hide Vector, FirstPass;
    var L := |letters|;
    if c.it < L {
      assert fmt[c.it] == letters[c.it] && Reader(letters[c.it]);
      if c.rep {
        RepeatedLetter(fmt, letters, s, n, c);
      } else {
        FirstPassLetter(fmt, letters, n, c);
      }
    } else if c.it == L && s == Open {
      OpenEnd(fmt, letters, n, c);
    } else if c.it == L {
      AtDigit(fmt, letters, s, n, c);
    }
  }

  lemma FirstPassLetter(fmt: string, letters: string, n: nat, c: Parse)
    requires 0 <= c.it < |letters| <= |fmt| && Reader(letters[c.it]) && fmt[c.it] == letters[c.it]
    requires FirstPassState(letters, n, c)
    ensures var c' := Step(fmt, n, c);
            c'.it == c.it + 1 && !c'.rep
            && if c'.it == |fmt| && letters[|letters| - 1] == 's' && n >= |letters| then
                 c'.out == JoinedVector(letters, n)
               else FirstPassState(letters, n, c')
  {
    hide FirstPass;
    FirstPassGrows(letters, n, c.it);
  }

  lemma RepeatedLetter(fmt: string, letters: string, s: Shape, n: nat, c: Parse)
    requires HasShape(fmt, letters, s) && s.Repeated? && RepeatState(letters, s, n, c)
    requires c.it < |letters| && Reader(letters[c.it]) && fmt[c.it] == letters[c.it]
    ensures var c' := Step(fmt, n, c); c'.it == c.it + 1 && c'.rep && RepeatState(letters, s, n, c')
  {
    hide Vector;
    if c.more {
      NextInGroup(c.used - |letters|, s.d);
      ExtraGrows(letters, s, c.used);
    }
  }

  lemma OpenEnd(fmt: string, letters: string, n: nat, c: Parse)
    requires HasShape(fmt, letters, Open) && c.it == |letters| && FirstPassState(letters, n, c)
    ensures var c' := Step(fmt, n, c); c'.it == |fmt| && c'.out == Vector(letters, Open, n) && !c'.more
  {
    assert fmt[c.it] == '.';
    assert letters[..c.it] == letters;
  }

  lemma AtDigit(fmt: string, letters: string, s: Shape, n: nat, c: Parse)
    requires HasShape(fmt, letters, s) && s.Repeated? && c.it == |letters|
    requires if c.rep then RepeatState(letters, s, n, c) else FirstPassState(letters, n, c)
    ensures var c' := Step(fmt, n, c);
            if c.more then c'.rep && RepeatState(letters, s, n, c')
            else c'.it == |letters| + 1 && !c'.more && c'.out == Vector(letters, s, n)
  {
    hide FirstPass, Vector;
    assert fmt[c.it] == (s.d + '0' as int) as char;
    assert Value(fmt[c.it]) == s.d;
    assert letters[..c.it] == letters;
    if !c.rep {
      VectorIsFirst(letters, s, c.used);
      if c.more {
        EnoughArguments(letters, n);
      }
    }
  }

  lemma VectorIsFirst(letters: string, s: Shape, n: nat)
    requires (s.Repeated? ==> 1 <= s.d <= |letters|) && n <= |letters|
    ensures Vector(letters, s, n) == FirstPass(letters, n)
  {
  }

  lemma EnoughArguments(letters: string, n: nat)
    requires |letters| <= n
    ensures FirstPass(letters, n) == FirstPass(letters, |letters|)
  {
  }

  /** The vector that a compiled call passes, if all letters read arguments. */
  function CompiledVector(letters: string, s: Shape, n: nat): seq<Slot>
    requires s.Repeated? ==> 1 <= s.d <= |letters|
  {
    if s == Fixed && letters != "" && letters[|letters| - 1] == 's' && n >= |letters| then JoinedVector(letters, n)
    else Vector(letters, s, n)
  }

  /** The vector for letters that all read arguments, followed by `#`. */
  function CountedVector(rs: string, n: nat): seq<Slot> {
    FirstPass(rs, n) + [Number(Min(n, |rs|))]
  }

  /** The last letter gives the number of arguments. */
  predicate Counted(letters: string, s: Shape) {
    s == Fixed && letters != "" && letters[|letters| - 1] == '#'
  }

  function ReadersOf(letters: string, s: Shape): string {
    if Counted(letters, s) then letters[..|letters| - 1] else letters
  }

  ghost predicate CountProgress(rs: string, n: nat, c: Parse) {
    if c.it <= |rs| then FirstPassState(rs, n, c) else c.out == CountedVector(rs, n)
  }

  lemma StepCount(rs: string, n: nat, c: Parse)
    requires AllReaders(rs) && 0 <= c.it < |rs| + 1 && c.used <= n && CountProgress(rs, n, c)
    ensures CountProgress(rs, n, Step(rs + "#", n, c))
  {
    hide FirstPass;
    if c.it < |rs| {
      FirstPassLetter(rs + "#", rs, n, c);
    } else {
      assert (rs + "#")[c.it] == '#';
      assert rs[..c.it] == rs;
    }
  }

  /** Some repeated letter reads an argument. */
  ghost predicate GroupReads(letters: string, s: Shape) {
    s.Repeated? && s.d <= |letters| ==> exists g :: |letters| - s.d <= g < |letters| && Reader(letters[g])
  }

  /** How many letters read an argument. */
  function ReadersIn(letters: string): nat {
    if letters == "" then 0
    else ReadersIn(letters[..|letters| - 1]) + if Reader(letters[|letters| - 1]) then 1 else 0
  }

  /** Either the repeated letters use up arguments or there are none left to repeat them for. */
  ghost predicate Ends(letters: string, s: Shape, n: nat) {
    GroupReads(letters, s) || n < ReadersIn(letters)
  }

  /** The state in the first pass over letters of any kind. */
  ghost predicate Counting(letters: string, n: nat, c: Parse) {
    0 <= c.it <= |letters| && !c.rep ==>
      var r := ReadersIn(letters[..c.it]);
      c.used == Min(r, n) && (c.more <==> r <= n)
  }

  lemma StepCounting(fmt: string, letters: string, s: Shape, n: nat, c: Parse)
    requires HasShape(fmt, letters, s) && s.Repeated? && 0 <= c.it < |fmt| && c.used <= n && Counting(letters, n, c)
    requires c.it > |letters| ==> c.it == |letters| + 1
    ensures Counting(letters, n, Step(fmt, n, c))
  {
    if c.it < |letters| {
      assert fmt[c.it] == letters[c.it];
      assert letters[..c.it + 1][..c.it] == letters[..c.it];
    }
  }

  // ---- letters of any kind, nothing repeated ----

  /** The entry that the k-th letter makes: the identifier, the number of the entries before it that are
      not made up, or the next argument by its own count, if there is one. */
  function EntryAt(letters: string, n: nat, k: nat): Slot
    requires k < |letters|
  {
    var r := ReadersIn(letters[..k]);
    if letters[k] == '$' then Self
    else if letters[k] == '#' then Number(k - (r - Min(r, n)))
    else if r < n then Given(r, letters[k])
    else Missing
  }

  function Entries(letters: string, n: nat): (v: seq<Slot>)
    ensures |v| == |letters|
  {
    seq(|letters|, k requires 0 <= k < |letters| => EntryAt(letters, n, k))
  }

  /** The last letter is an `s` that finds an argument. */
  predicate LastJoins(letters: string, s: Shape, n: nat) {
    s == Fixed && letters != "" && letters[|letters| - 1] == 's' && ReadersIn(letters[..|letters| - 1]) < n
  }

  /** The vector of a compiled call for a fixed or an open format. */
  function WholeVector(letters: string, s: Shape, n: nat): seq<Slot>
    requires !s.Repeated?
  {
    var r := ReadersIn(letters);
    if LastJoins(letters, s, n) then
      Entries(letters[..|letters| - 1], n) + [if r == n then Given(n - 1, 's') else Joined(r - 1, n)]
    else if s == Open && r <= n then Entries(letters, n) + Rest(r, n)
    else Entries(letters, n)
  }

  /** How many of the entries are made up. */
  function MissingIn(v: seq<Slot>): nat {
    if v == [] then 0 else MissingIn(v[..|v| - 1]) + if v[|v| - 1] == Missing then 1 else 0
  }

  /** The number that `#` gives is that of the entries before it that are not made up. */
  lemma {:induction false} NumbersCount(letters: string, n: nat, k: nat)
    requires k <= |letters| && forall j :: 0 <= j < |letters| ==> Letter(letters[j])
    ensures var r := ReadersIn(letters[..k]); MissingIn(Entries(letters, n)[..k]) == r - Min(r, n)
    ensures k < |letters| && letters[k] == '#' ==>
              Entries(letters, n)[k] == Number(k - MissingIn(Entries(letters, n)[..k]))
  {
    if k > 0 {
      NumbersCount(letters, n, k - 1);
      assert Entries(letters, n)[..k][..k - 1] == Entries(letters, n)[..k - 1];
      assert letters[..k][..k - 1] == letters[..k - 1];
      assert Entries(letters, n)[k - 1] == EntryAt(letters, n, k - 1);
    }
  }

  ghost predicate EntriesState(letters: string, n: nat, c: Parse) {
    && 0 <= c.it <= |letters| && !c.rep && c.numargs == c.it && c.out == Entries(letters[..c.it], n)
    && var r := ReadersIn(letters[..c.it]);
       c.used == Min(r, n) && (c.more <==> r <= n) && c.fakeargs == r - Min(r, n)
  }

  ghost predicate WholeProgress(fmt: string, letters: string, s: Shape, n: nat, c: Parse)
    requires !s.Repeated?
  {
    if c.it > |letters| || (c.it == |fmt| && LastJoins(letters, s, n)) then c.out == WholeVector(letters, s, n)
    else EntriesState(letters, n, c)
  }

  lemma EntriesGrow(letters: string, n: nat, k: nat)
    requires k < |letters|
    ensures Entries(letters[..k + 1], n) == Entries(letters[..k], n) + [EntryAt(letters, n, k)]
    ensures ReadersIn(letters[..k + 1]) == ReadersIn(letters[..k]) + if Reader(letters[k]) then 1 else 0
  {
    assert letters[..k + 1][..k] == letters[..k];
    forall j | 0 <= j <= k
      ensures EntryAt(letters[..k + 1], n, j) == EntryAt(letters, n, j)
      ensures j < k ==> EntryAt(letters[..k], n, j) == EntryAt(letters, n, j)
    {
      assert letters[..k + 1][..j] == letters[..j];
      if j < k {
        assert letters[..k][..j] == letters[..j];
      }
    }
  }

  lemma StepWhole(fmt: string, letters: string, s: Shape, n: nat, c: Parse)
    requires HasShape(fmt, letters, s) && !s.Repeated? && c.it < |fmt|
    requires Sound(fmt, letters, s, n, c) && WholeProgress(fmt, letters, s, n, c)
    ensures WholeProgress(fmt, letters, s, n, Step(fmt, n, c))
  {
    hide Entries, EntryAt, ReadersIn, Rest;
    if c.it < |letters| {
      LetterEntry(fmt, letters, s, n, c);
    } else {
      assert fmt[c.it] == '.' && letters[..c.it] == letters;
    }
  }

  lemma LetterEntry(fmt: string, letters: string, s: Shape, n: nat, c: Parse)
    requires HasShape(fmt, letters, s) && !s.Repeated? && 0 <= c.it < |letters| && EntriesState(letters, n, c)
    ensures c.it < |fmt| && WholeProgress(fmt, letters, s, n, Step(fmt, n, c))
  {
    hide Entries, ReadersIn, Rest;
    EntriesGrow(letters, n, c.it);
    assert fmt[c.it] == letters[c.it] && Letter(letters[c.it]);
    assert letters[..|letters|] == letters;
  }

  /** parse_call_command for `n` supplied arguments. */
  method ParseCallCommand(fmt: string, n: nat, ghost letters: string, ghost s: Shape)
    returns (out: seq<Slot>, variadic: bool, numargs: nat)
    requires HasShape(fmt, letters, s) && Ends(letters, s, n)
    ensures numargs == |out| && (variadic <==> s != Fixed)
    ensures s == Fixed ==> |out| == Arity(letters, s)
    ensures !s.Repeated? ==> out == WholeVector(letters, s, n)
    ensures AllReaders(letters) ==> out == CompiledVector(letters, s, n)
    ensures Counted(letters, s) && AllReaders(ReadersOf(letters, s)) ==> out == CountedVector(ReadersOf(letters, s), n)
  {
    hide WholeVector, Looping, HasShape, Ends, Arity, CompiledVector, CountedVector, AllReaders, Counted, ReadersOf,
         Value, Rest;
    var it := 0;
    var more, rep := true, false;
    var fakeargs: nat, used: nat := 0, 0;
    out, variadic, numargs := [], false, 0;
    ghost var c := Begin;
    ghost var g := LoopBegin(fmt, letters, s, n);
    ghost var pass: nat := n + 2;
    while it < |fmt|
      invariant 0 <= it <= |fmt| && used <= n
      invariant c == Parse(it, more, rep, numargs, fakeargs, used, out, variadic)
      invariant Looping(fmt, letters, s, n, c, g, pass)
      decreases pass, |fmt| - it
    {
      pass := LoopStep(fmt, letters, s, n, c, g, pass);
      c := Step(fmt, n, c);
      var ch := fmt[it];
      if ch == '$' {
        out, numargs := out + [Self], numargs + 1;
      } else if ch == '#' {
        out, numargs := out + [Number(numargs - fakeargs)], numargs + 1;
      } else if ch == '.' {
        variadic := true;
        if more {
          out := out + Rest(used, n);
          numargs := numargs + (n - used);
          used, more := n, false;
        }
        it := it + 2;
      } else if Digit(ch) {
        if more {
          it, rep := it - (Value(ch) + 1), true;
        }
      } else if more && used < n {
        if ch == 's' && it + 1 == |fmt| {
          out := out + [if n - used == 1 then Given(used, 's') else Joined(used, n)];
          used, more := n, false;
        } else {
          out, used := out + [Given(used, ch)], used + 1;
        }
        numargs := numargs + 1;
      } else {
        more := false;
        if !rep {
          out, fakeargs, numargs := out + [Missing], fakeargs + 1, numargs + 1;
        }
      }
      it := it + 1;
    }
    InvariantsEnd(fmt, letters, s, n, c, g, pass);
  }

  /** What the loop keeps: with a repeated group that reads, the reader at `g` takes an argument in
      each pass; without one, nothing is ever repeated. */
  ghost predicate Looping(fmt: string, letters: string, s: Shape, n: nat, c: Parse, g: nat, pass: nat)
    requires HasShape(fmt, letters, s)
  {
    && Ends(letters, s, n) && Invariants(fmt, letters, s, n, c) && c.used <= n
    && (s.Repeated? && GroupReads(letters, s) ==>
          && |letters| - s.d <= g < |letters| && Reader(letters[g])
          && Left(n, c.used, c.more) <= pass && (c.more && c.it > g ==> Left(n, c.used, c.more) < pass))
    && (s.Repeated? && !GroupReads(letters, s) ==> !c.rep && Counting(letters, n, c))
  }

  lemma LoopBegin(fmt: string, letters: string, s: Shape, n: nat) returns (g: nat)
    requires HasShape(fmt, letters, s) && Ends(letters, s, n)
    ensures Looping(fmt, letters, s, n, Begin, g, n + 2)
  {
    hide Invariants;
    InvariantsBegin(fmt, letters, s, n);
    g := 0;
    if s.Repeated? && GroupReads(letters, s) {
      g := PickReader(fmt, letters, s);
    }
  }

  lemma LoopStep(fmt: string, letters: string, s: Shape, n: nat, c: Parse, g: nat, pass: nat) returns (pass': nat)
    requires HasShape(fmt, letters, s) && Looping(fmt, letters, s, n, c, g, pass) && c.it < |fmt|
    ensures 0 <= c.it && c.used <= n && 0 <= Step(fmt, n, c).it <= |fmt| && Step(fmt, n, c).used <= n
    ensures Looping(fmt, letters, s, n, Step(fmt, n, c), g, pass')
    ensures pass' < pass || (pass' == pass && Step(fmt, n, c).it > c.it)
    ensures Digit(fmt[c.it]) && c.more ==> pass' < pass
  {
    hide Invariants, Step, Reader, HasShape, GroupReads, Counting;
    InvariantsKept(fmt, letters, s, n, c);
    if s.Repeated? && GroupReads(letters, s) {
      StepLeft(fmt, letters, s, n, c, g);
    } else {
      NoRepetition(fmt, letters, s, n, c);
    }
    var c' := Step(fmt, n, c);
    pass' := if c'.it <= c.it then Left(n, c'.used, c'.more) else pass;
  }

  /** The digit is only reached with `more` set when the pass has taken an argument. */
  lemma StepLeft(fmt: string, letters: string, s: Shape, n: nat, c: Parse, g: nat)
    requires HasShape(fmt, letters, s) && Invariants(fmt, letters, s, n, c) && c.it < |fmt|
    requires s.Repeated? ==> |letters| - s.d <= g < |letters| && Reader(letters[g])
    ensures var c' := Step(fmt, n, c);
            && Left(n, c'.used, c'.more) <= Left(n, c.used, c.more)
            && (c'.it > c.it && c'.more && c.it == g && s.Repeated? ==>
                  Left(n, c'.used, c'.more) < Left(n, c.used, c.more))
            && (Digit(fmt[c.it]) && c.more ==> c'.it <= c.it)
            && (c'.it <= c.it ==> s.Repeated? && c.it == |letters| && c'.it <= g && c.more)
            && (c'.it > c.it && c'.more ==> c'.it == c.it + 1 && c.more)
  {
    if c.it < |letters| {
      assert fmt[c.it] == letters[c.it];
    }
  }

  /** Nothing is repeated if the format has no such part or the arguments have run out before it. */
  lemma NoRepetition(fmt: string, letters: string, s: Shape, n: nat, c: Parse)
    requires HasShape(fmt, letters, s) && Invariants(fmt, letters, s, n, c) && c.it < |fmt|
    requires s.Repeated? ==> !GroupReads(letters, s) && Ends(letters, s, n) && !c.rep && Counting(letters, n, c)
    ensures Step(fmt, n, c).it > c.it && !(Digit(fmt[c.it]) && c.more)
    ensures s.Repeated? ==> !Step(fmt, n, c).rep && Counting(letters, n, Step(fmt, n, c))
  {
    hide Progress, CountProgress, AllReaders;
    if s.Repeated? {
      StepCounting(fmt, letters, s, n, c);
      assert letters[..|letters|] == letters;
    }
    if c.it < |letters| {
      assert fmt[c.it] == letters[c.it];
    }
  }

  /** The loop after `k` more steps. */
  function Steps(fmt: string, n: nat, c: Parse, k: nat): Parse
    decreases k
  {
    if k == 0 || !(0 <= c.it < |fmt| && c.used <= n) then c else Steps(fmt, n, Step(fmt, n, c), k - 1)
  }

  /** Otherwise the compiler never leaves the loop: whatever the number of steps, the format is not
      yet used up. So `Ends` is exactly when parse_call_command returns. */
  lemma {:induction false} NeverEnds(fmt: string, letters: string, s: Shape, n: nat, c: Parse, k: nat)
    requires HasShape(fmt, letters, s) && !Ends(letters, s, n)
    requires 0 <= c.it <= |letters| && c.used <= n && c.more
    requires if c.rep then |letters| - s.d <= c.it else Counting(letters, n, c)
    ensures Steps(fmt, n, c, k).it < |fmt|
    decreases k
  {
    if k > 0 {
      StepInGroup(fmt, letters, s, n, c);
      NeverEnds(fmt, letters, s, n, Step(fmt, n, c), k - 1);
    }
  }

  /** From the beginning: a call of a format whose repeated letters read nothing, with arguments for all
      that read, is never compiled. */
  lemma NeverReturns(fmt: string, letters: string, s: Shape, n: nat)
    requires HasShape(fmt, letters, s) && !Ends(letters, s, n)
    ensures forall k: nat :: Steps(fmt, n, Begin, k).it < |fmt|
  {
    assert letters[..0] == "";
    forall k: nat ensures Steps(fmt, n, Begin, k).it < |fmt| {
      NeverEnds(fmt, letters, s, n, Begin, k);
    }
  }

  /** The input: format `$1...`, which is accepted, with any number of arguments. */
  lemma SelfRepeated(n: nat)
    ensures HasShape("$1...", "$", Repeated(1)) && Arity("$", Repeated(1)) == 0
    ensures forall k: nat :: Steps("$1...", n, Begin, k).it < |"$1..."|
  {
    assert "$1..." == "$" + ['1'] + Dots;
    assert ReadersIn("$"[..0]) == 0;
    NeverReturns("$1...", "$", Repeated(1), n);
  }

  lemma StepInGroup(fmt: string, letters: string, s: Shape, n: nat, c: Parse)
    requires HasShape(fmt, letters, s) && !Ends(letters, s, n)
    requires 0 <= c.it <= |letters| && c.used <= n && c.more
    requires if c.rep then |letters| - s.d <= c.it else Counting(letters, n, c)
    ensures c.it < |fmt|
    ensures var c' := Step(fmt, n, c);
            && 0 <= c'.it <= |letters| && c'.used <= n && c'.more
            && if c'.rep then |letters| - s.d <= c'.it else Counting(letters, n, c')
  {
    if c.it < |letters| {
      assert fmt[c.it] == letters[c.it];
      if !c.rep {
        StepCounting(fmt, letters, s, n, c);
        MoreReaders(letters, c.it + 1);
      }
    }
  }

  lemma {:induction false} MoreReaders(letters: string, k: nat)
    requires k <= |letters|
    ensures ReadersIn(letters[..k]) <= ReadersIn(letters)
    decreases |letters|
  {
    if k < |letters| {
      MoreReaders(letters[..|letters| - 1], k);
      assert letters[..|letters| - 1][..k] == letters[..k];
    } else {
      assert letters[..k] == letters;
    }
  }

  lemma PickReader(fmt: string, letters: string, s: Shape) returns (g: nat)
    requires s.Repeated? && HasShape(fmt, letters, s) && GroupReads(letters, s)
    ensures |letters| - s.d <= g < |letters| && Reader(letters[g])
  {
    g :| |letters| - s.d <= g < |letters| && Reader(letters[g]);
  }

  ghost predicate Invariants(fmt: string, letters: string, s: Shape, n: nat, c: Parse)
    requires HasShape(fmt, letters, s)
  {
    && Sound(fmt, letters, s, n, c)
    && (!s.Repeated? ==> WholeProgress(fmt, letters, s, n, c))
    && (AllReaders(letters) ==> Progress(fmt, letters, s, n, c))
    && (Counted(letters, s) && AllReaders(ReadersOf(letters, s)) ==> CountProgress(ReadersOf(letters, s), n, c))
  }

  lemma InvariantsBegin(fmt: string, letters: string, s: Shape, n: nat)
    requires HasShape(fmt, letters, s)
    ensures Invariants(fmt, letters, s, n, Begin)
  {
    assert FirstPass("", n) == [] && letters[..0] == "" && ReadersOf(letters, s)[..0] == "";
    assert Entries("", n) == [];
  }

  lemma InvariantsKept(fmt: string, letters: string, s: Shape, n: nat, c: Parse)
    requires HasShape(fmt, letters, s) && Invariants(fmt, letters, s, n, c) && c.it < |fmt|
    ensures 0 <= c.it && c.used <= n && Invariants(fmt, letters, s, n, Step(fmt, n, c))
    ensures 0 <= Step(fmt, n, c).it <= |fmt| && Step(fmt, n, c).used <= n
  {
    hide Step, Progress, CountProgress, Sound, WholeProgress;
    SoundBounds(fmt, letters, s, n, c);
    StepSound(fmt, letters, s, n, c);
    SoundBounds(fmt, letters, s, n, Step(fmt, n, c));
    if !s.Repeated? {
      StepWhole(fmt, letters, s, n, c);
    }
    if AllReaders(letters) {
      StepProgress(fmt, letters, s, n, c);
    }
    if Counted(letters, s) && AllReaders(ReadersOf(letters, s)) {
      assert letters == ReadersOf(letters, s) + "#";
      StepCount(ReadersOf(letters, s), n, c);
    }
  }

  lemma SoundBounds(fmt: string, letters: string, s: Shape, n: nat, c: Parse)
    requires Sound(fmt, letters, s, n, c)
    ensures 0 <= c.it <= |fmt| && c.used <= n
  {
  }

  lemma InvariantsEnd(fmt: string, letters: string, s: Shape, n: nat, c: Parse, g: nat, pass: nat)
    requires HasShape(fmt, letters, s) && Looping(fmt, letters, s, n, c, g, pass) && c.it == |fmt|
    ensures c.numargs == |c.out| && (c.variadic <==> s != Fixed)
    ensures s == Fixed ==> |c.out| == Arity(letters, s)
    ensures !s.Repeated? ==> c.out == WholeVector(letters, s, n)
    ensures AllReaders(letters) ==> c.out == CompiledVector(letters, s, n)
    ensures Counted(letters, s) && AllReaders(ReadersOf(letters, s)) ==>
            c.out == CountedVector(ReadersOf(letters, s), n)
  {
    hide Vector, FirstPass, Entries, Rest, CountedVector, JoinedVector;
    assert letters[..|letters|] == letters;
    VectorIsFixed(letters, n);
  }

  lemma VectorIsFixed(letters: string, n: nat)
    ensures Vector(letters, Fixed, n) == FirstPass(letters, n)
  {
  }

  function Left(n: nat, used: nat, more: bool): nat
    requires used <= n
  {
    n - used + if more then 1 else 0
  }

  // ---- making a call at run time ----

  /** Supplied arguments as they lie on the stack, before any conversion. */
  ghost predicate Raw(args: seq<Slot>, from: nat, n: nat) {
    forall k :: from <= k < n && k < |args| ==> args[k] == Given(k, 'a')
  }

  /** How many entries exec_command passes on: groups are always finished, even if the arguments are
      not enough for the last one. */
  function PassedCount(letters: string, s: Shape, n: nat): nat
    requires s.Repeated? ==> 1 <= s.d <= |letters|
  {
    if s == Fixed || n <= |letters| then |letters|
    else if s == Open then n
    else |letters| + (n - |letters| + s.d - 1) / s.d * s.d
  }

  /** The variables of exec_command's loop while letters that all read arguments are read. `i` is the
      index of the last entry. */
  ghost predicate Reading(letters: string, s: Shape, n: nat, it: int, rep: bool, i: int, fakeargs: nat, args: seq<Slot>)
    requires s.Repeated? ==> 1 <= s.d <= |letters|
  {
    var L := |letters|;
    && 0 <= it <= L && -1 <= i && n <= |args| && L <= |args| && Raw(args, i + 1, n)
    && (!rep ==> i == it - 1 && fakeargs == it - Min(it, n) && args[..it] == FirstPass(letters[..it], n))
    && (rep ==>
          && s.Repeated? && L < n && L - s.d <= it && L <= i + 1
          && args[..Min(i + 1, n)] == Vector(letters, s, Min(i + 1, n))
          && (it == L - s.d + (i + 1 - L) % s.d || (it == L && (i + 1 - L) % s.d == 0))
          && i + 1 - (it - (L - s.d)) < n)
  }

  /** What one letter does to the vector. */
  function Converted(args: seq<Slot>, i: int, n: nat, rep: bool, ch: char): seq<Slot>
    requires -1 <= i && n <= |args| && (!rep ==> i + 1 < |args|)
  {
    if i + 1 < n then args[i + 1 := Given(i + 1, ch)]
    else if rep then args
    else args[i + 1 := Missing]
  }

  lemma ReadingLetter(letters: string, s: Shape, n: nat, it: int, rep: bool, i: int, fakeargs: nat, args: seq<Slot>)
    requires s.Repeated? ==> 1 <= s.d <= |letters| && s.d <= 4
    requires Reading(letters, s, n, it, rep, i, fakeargs, args) && it < |letters|
    ensures Reading(letters, s, n, it + 1, rep, i + 1, if !rep && i + 1 >= n then fakeargs + 1 else fakeargs,
                    Converted(args, i, n, rep, letters[it]))
  {
    if rep {
      ReadingRepeated(letters, s, n, it, i, fakeargs, args);
    }
  }

  lemma ReadingRepeated(letters: string, s: Shape, n: nat, it: int, i: int, fakeargs: nat, args: seq<Slot>)
    requires s.Repeated? && 1 <= s.d <= |letters| && s.d <= 4
    requires Reading(letters, s, n, it, true, i, fakeargs, args) && it < |letters|
    ensures Reading(letters, s, n, it + 1, true, i + 1, fakeargs, Converted(args, i, n, true, letters[it]))
  {
    hide FirstPass, Vector, Raw;
    var args' := Converted(args, i, n, true, letters[it]);
    NextInGroup(i + 1 - |letters|, s.d);
    if i + 1 < n {
      ExtraGrows(letters, s, i + 1);
      assert args'[..i + 2] == args[..i + 1] + [Given(i + 1, letters[it])];
    }
    StillRaw(args, args', i + 1, n);
  }

  lemma StillRaw(args: seq<Slot>, args': seq<Slot>, from: nat, n: nat)
    requires Raw(args, from, n) && |args'| == |args| && forall k :: from < k < |args| ==> args'[k] == args[k]
    ensures Raw(args', from + 1, n)
  {
  }

  /** Going back to the first of the repeated letters. */
  lemma ReadingAgain(letters: string, s: Shape, n: nat, rep: bool, i: int, fakeargs: nat, args: seq<Slot>)
    requires s.Repeated? && 1 <= s.d <= |letters| && i + 1 < n
    requires Reading(letters, s, n, |letters|, rep, i, fakeargs, args)
    ensures Reading(letters, s, n, |letters| - s.d, true, i, fakeargs, args)
  {
    if !rep {
      assert letters[..|letters|] == letters;
      assert Vector(letters, s, |letters|) == FirstPass(letters, n);
    }
  }

  lemma WholeGroups(y: nat, m: nat, d: nat)
    requires 1 <= d <= 4 && y % d == 0 && y - d < m <= y
    ensures (m + d - 1) / d * d == y
  {
    if d == 2 {
    } else if d == 3 {
    } else if d == 4 {
    }
  }

  /** All letters are read and nothing is repeated any more. */
  lemma ReadingEnd(letters: string, s: Shape, n: nat, rep: bool, i: int, fakeargs: nat, args: seq<Slot>)
    requires s.Repeated? ==> 1 <= s.d <= |letters| && s.d <= 4 && i + 1 >= n
    requires Reading(letters, s, n, |letters|, rep, i, fakeargs, args)
    ensures var k := if s == Open && i + 1 < n then n else i + 1;
            && k == PassedCount(letters, s, n)
            && (s != Fixed && n > |letters| ==> args[..n] == Vector(letters, s, n))
            && (s == Fixed || n <= |letters| ==> k == |letters| && args[..k] == Vector(letters, s, n))
  {
    if rep {
      WholeGroups(i + 1 - |letters|, n - |letters|, s.d);
    }
  }

  ghost predicate RunState(letters: string, s: Shape, n: nat, lookup: bool, it: int, rep: bool, i: int, fakeargs: nat,
                           args: seq<Slot>)
    requires s.Repeated? ==> 1 <= s.d <= |letters|
  {
    var rs := ReadersOf(letters, s);
    if it <= |rs| then Reading(rs, s, n, it, rep, i, fakeargs, args)
    else if Counted(letters, s) then
      i == |rs| && |letters| <= |args| && (!lookup ==> args[..|letters|] == CountedVector(rs, n))
    else
      s.Repeated? && Reading(letters, s, n, |letters|, rep, i, fakeargs, args) && i + 1 >= n
  }

  lemma RunLetter(letters: string, s: Shape, n: nat, lookup: bool, it: int, rep: bool, i: int, fakeargs: nat,
                  args: seq<Slot>)
    requires s.Repeated? ==> 1 <= s.d <= |letters| && s.d <= 4
    requires RunState(letters, s, n, lookup, it, rep, i, fakeargs, args) && it < |ReadersOf(letters, s)|
    ensures -1 <= i && n <= |args| && (!rep ==> i + 1 == it < |args|)
    ensures RunState(letters, s, n, lookup, it + 1, rep, i + 1, if !rep && i + 1 >= n then fakeargs + 1 else fakeargs,
                     Converted(args, i, n, rep, letters[it]))
  {
    hide Vector, FirstPass;
    ReadingLetter(ReadersOf(letters, s), s, n, it, rep, i, fakeargs, args);
  }

  lemma RunCount(letters: string, s: Shape, n: nat, lookup: bool, rep: bool, i: int, fakeargs: nat, args: seq<Slot>)
    requires Counted(letters, s) && |letters| <= |args|
    requires RunState(letters, s, n, lookup, |letters| - 1, rep, i, fakeargs, args)
    ensures i + 1 == |letters| - 1 && |letters| <= Room(letters, s, n)
    ensures RunState(letters, s, n, lookup, |letters|, rep, i + 1, fakeargs,
                     args[i + 1 := Number(if lookup then -1 else i + 1 - fakeargs)])
  {
    hide FirstPass, Vector;
    var rs := ReadersOf(letters, s);
    var args' := args[i + 1 := Number(if lookup then -1 else i + 1 - fakeargs)];
    assert rs[..|rs|] == rs;
    assert args'[..|letters|] == args[..|rs|] + [args'[|rs|]];
  }

  lemma RunBegin(fmt: string, letters: string, s: Shape, n: nat, lookup: bool, args: seq<Slot>)
    requires HasShape(fmt, letters, s)
    requires n <= |args| && |letters| <= |args| && Raw(args, 0, n)
    ensures s.Repeated? ==> 1 <= s.d <= |letters| && s.d <= 4
    ensures |fmt| == |letters| + if s == Fixed then 0 else if s == Open then 3 else 4
    ensures AllReaders(letters) ==> !Counted(letters, s)
    ensures Counted(letters, s) ==> |letters| > 0
    ensures RunState(letters, s, n, lookup, 0, false, -1, 0, args)
  {
    var rs := ReadersOf(letters, s);
    assert args[..0] == FirstPass(rs[..0], n);
  }

  /** What the character at each place is, and how far `i` can be. */
  lemma RunBounds(fmt: string, letters: string, s: Shape, n: nat, lookup: bool, it: nat, rep: bool, i: int,
                  fakeargs: nat, args: seq<Slot>)
    requires HasShape(fmt, letters, s) && AllReaders(ReadersOf(letters, s)) && it < |fmt|
    requires it > |letters| ==> s.Repeated? && it == |letters| + 1
    requires RunState(letters, s, n, lookup, it, rep, i, fakeargs, args)
    ensures i < n + |letters| + 4
    ensures Reader(fmt[it]) <==> it < |ReadersOf(letters, s)|
    ensures Reader(fmt[it]) ==> it < |letters|
    ensures it < |letters| ==> fmt[it] == letters[it]
    ensures fmt[it] == '#' <==> |ReadersOf(letters, s)| <= it < |letters|
    ensures fmt[it] == '.' <==> (s == Open && it == |letters|) || it > |letters|
    ensures |ReadersOf(letters, s)| <= it < |letters| ==> it == |letters| - 1 && Counted(letters, s)
    ensures !Reader(fmt[it]) && fmt[it] != '#' && fmt[it] != '.' ==>
              it == |letters| && s.Repeated? && Digit(fmt[it]) && Value(fmt[it]) == s.d
  {
    hide Vector, FirstPass, CountedVector, Raw;
  }

  lemma RunAgain(letters: string, s: Shape, n: nat, lookup: bool, rep: bool, i: int, fakeargs: nat, args: seq<Slot>)
    requires s.Repeated? && 1 <= s.d <= |letters| && i + 1 < n
    requires RunState(letters, s, n, lookup, |letters|, rep, i, fakeargs, args)
    ensures RunState(letters, s, n, lookup, |letters| - s.d, true, i, fakeargs, args)
  {
    hide Reading;
    ReadingAgain(letters, s, n, rep, i, fakeargs, args);
  }

  lemma RunPast(letters: string, s: Shape, n: nat, lookup: bool, rep: bool, i: int, fakeargs: nat, args: seq<Slot>)
    requires s.Repeated? && 1 <= s.d <= |letters| && n <= i + 1
    requires RunState(letters, s, n, lookup, |letters|, rep, i, fakeargs, args)
    ensures RunState(letters, s, n, lookup, |letters| + 1, rep, i, fakeargs, args)
  {
  }

  lemma RunEnd(letters: string, s: Shape, n: nat, lookup: bool, it: nat, rep: bool, i: int, fakeargs: nat,
               args: seq<Slot>, count: int)
    requires s.Repeated? ==> 1 <= s.d <= |letters| && s.d <= 4
    requires if s.Repeated? then it == |letters| + 1 else it == |letters|
    requires RunState(letters, s, n, lookup, it, rep, i, fakeargs, args)
    requires count == if s != Fixed && i + 1 <= n then n else i + 1
    ensures |letters| <= |args| && 0 <= count
    ensures !Counted(letters, s) ==> count == PassedCount(letters, s, n) && |Vector(letters, s, n)| <= |args|
    ensures !Counted(letters, s) ==> args[..|Vector(letters, s, n)|] == Vector(letters, s, n)
    ensures Counted(letters, s) ==>
            count == |letters| && (!lookup ==> args[..count] == CountedVector(letters[..count - 1], n))
  {
    hide Reading, FirstPass, PassedCount;
    if !Counted(letters, s) {
      assert Reading(letters, s, n, |letters|, rep, i, fakeargs, args);
      ReadingEnd(letters, s, n, rep, i, fakeargs, args);
      ReadingBounds(letters, s, n, |letters|, rep, i, fakeargs, args);
      VectorLength(letters, s, n);
    }
  }

  lemma VectorLength(letters: string, s: Shape, n: nat)
    requires s.Repeated? ==> 1 <= s.d <= |letters|
    ensures |Vector(letters, s, n)| == if s == Fixed || n <= |letters| then |letters| else n
  {
  }

  lemma ReadingBounds(letters: string, s: Shape, n: nat, it: nat, rep: bool, i: int, fakeargs: nat, args: seq<Slot>)
    requires s.Repeated? ==> 1 <= s.d <= |letters|
    requires Reading(letters, s, n, it, rep, i, fakeargs, args)
    ensures n <= |args| && |letters| <= |args| && -1 <= i
  {
  }

  /** The buffer that a call gets: as large as the stored arity, or as the arguments. */
  function Room(letters: string, s: Shape, n: nat): nat
    requires s.Repeated? ==> s.d <= |letters|
  {
    if Arity(letters, s) < n then n else Arity(letters, s)
  }

  /** The arguments as they lie in the buffer, with no value behind them. */
  function OnStack(letters: string, n: nat): (slots: seq<Slot>)
    ensures n <= |slots| && |letters| <= |slots| && Raw(slots, 0, n)
  {
    seq(if |letters| < n then n else |letters|, k requires 0 <= k => if k < n then Given(k, 'a') else Missing)
  }

  lemma RoomForArguments(letters: string, s: Shape, n: nat)
    requires s.Repeated? ==> s.d <= |letters|
    ensures n <= Room(letters, s, n)
  {
  }

  ghost predicate Holds(c: Readings, xs: seq<Supplied>, args: seq<Entry>, slots: seq<Slot>) {
    |args| <= |slots| && forall k :: 0 <= k < |args| ==> args[k] == RunEntry(c, xs, slots[k])
  }

  lemma HoldsEntries(c: Readings, xs: seq<Supplied>, args: seq<Entry>, slots: seq<Slot>, v: seq<Slot>)
    requires Holds(c, xs, args, slots) && |v| <= |slots| && slots[..|v|] == v
    ensures |v| <= |args| ==> args[..|v|] == RunEntries(c, xs, v)
    ensures |args| <= |v| ==> args == RunEntries(c, xs, v[..|args|])
  {
    assert forall k :: 0 <= k < |v| ==> slots[k] == slots[..|v|][k] == v[k];
  }

  lemma HoldsBegin(c: Readings, xs: seq<Supplied>, args: seq<Entry>, slots: seq<Slot>)
    requires |args| <= |slots| && args == RunEntries(c, xs, slots[..|args|])
    ensures Holds(c, xs, args, slots)
  {
  }

  /** One entry is set, in the buffer or beyond it. */
  lemma HoldsSet(c: Readings, xs: seq<Supplied>, args: seq<Entry>, slots: seq<Slot>, i: nat, slot: Slot)
    requires Holds(c, xs, args, slots) && i < |slots|
    ensures i < |args| ==> Holds(c, xs, args[i := RunEntry(c, xs, slot)], slots[i := slot])
    ensures i >= |args| ==> Holds(c, xs, args, slots[i := slot])
  {
    hide RunEntry;
  }

  lemma BeginHolds(c: Readings, xs: seq<Supplied>, args: seq<Entry>, letters: string, s: Shape, n: nat)
    requires s.Repeated? ==> 1 <= s.d <= |letters|
    requires |args| == Room(letters, s, n) && args == RunEntries(c, xs, OnStack(letters, n)[..|args|])
    ensures Holds(c, xs, args, OnStack(letters, n)) && |OnStack(letters, n)| == if |letters| < n then n else |letters|
  {
    HoldsBegin(c, xs, args, OnStack(letters, n));
  }

  /** An argument that has not been read yet lies in its place. */
  lemma HoldsRaw(c: Readings, xs: seq<Supplied>, letters: string, s: Shape, lookup: bool, it: int, rep: bool,
                 i: int, fakeargs: nat, args: seq<Entry>, slots: seq<Slot>)
    requires s.Repeated? ==> 1 <= s.d <= |letters|
    requires RunState(letters, s, |xs|, lookup, it, rep, i, fakeargs, slots) && it < |ReadersOf(letters, s)|
    requires Holds(c, xs, args, slots) && |args| == Room(letters, s, |xs|)
    ensures -1 <= i && (i + 1 < |xs| ==> args[i + 1] == Val(AnyValue(c.h, xs[i + 1])))
  {
    hide Vector, FirstPass;
    if i + 1 < |xs| {
      assert slots[i + 1] == Given(i + 1, 'a');
    }
  }

  /** The buffer ends before the letters do only if the last letters are repeated; what has been
      written up to there is the beginning of the vector. */
  lemma RunLeaves(c: Readings, xs: seq<Supplied>, letters: string, s: Shape, lookup: bool, it: int, i: int,
                  fakeargs: nat, args: seq<Entry>, slots: seq<Slot>)
    requires s.Repeated? ==> 1 <= s.d <= |letters|
    requires RunState(letters, s, |xs|, lookup, it + 1, false, i, fakeargs, slots) && it < |ReadersOf(letters, s)|
    requires Holds(c, xs, args, slots) && i == |args| == Room(letters, s, |xs|)
    ensures s.Repeated? && |xs| < |letters| && !Counted(letters, s) && |args| <= |Vector(letters, s, |xs|)|
    ensures args == RunEntries(c, xs, Vector(letters, s, |xs|)[..|args|])
  {
    hide Holds, RunEntries;
    var v := Vector(letters, s, |xs|)[..|args|];
    assert slots[..it + 1] == FirstPass(letters[..it + 1], |xs|);
    assert slots[..|args|] == slots[..it + 1][..|args|] == v;
    HoldsEntries(c, xs, args, slots, v);
    assert v[..|args|] == v;
  }

  /** All letters are done, within the buffer. */
  lemma RunDone(c: Readings, xs: seq<Supplied>, letters: string, s: Shape, lookup: bool, it: nat, rep: bool, i: int,
                fakeargs: nat, args: seq<Entry>, slots: seq<Slot>, count: int)
    requires s.Repeated? ==> 1 <= s.d <= |letters| && s.d <= 4
    requires if s.Repeated? then it == |letters| + 1 else it == |letters|
    requires RunState(letters, s, |xs|, lookup, it, rep, i, fakeargs, slots) && Holds(c, xs, args, slots)
    requires count == if s != Fixed && i + 1 <= |xs| then |xs| else i + 1
    requires (!rep ==> i < |args|) && |args| == Room(letters, s, |xs|)
    ensures 0 <= count && !(s.Repeated? && |xs| < |letters|)
    ensures !Counted(letters, s) ==>
              && count == PassedCount(letters, s, |xs|) && |Vector(letters, s, |xs|)| <= |args|
              && args[..|Vector(letters, s, |xs|)|] == RunEntries(c, xs, Vector(letters, s, |xs|))
    ensures Counted(letters, s) ==> count == |letters| <= |args|
    ensures Counted(letters, s) && !lookup ==>
            args[..count] == RunEntries(c, xs, CountedVector(letters[..count - 1], |xs|))
  {
    hide Reading, FirstPass, PassedCount, Holds, RunEntries, Vector, CountedVector;
    var n := |xs|;
    RunEnd(letters, s, n, lookup, it, rep, i, fakeargs, slots, count);
    if Counted(letters, s) {
      if !lookup {
        CountedLength(letters[..count - 1], n);
        HoldsEntries(c, xs, args, slots, CountedVector(letters[..count - 1], n));
      }
    } else {
      VectorLength(letters, s, n);
      if s.Repeated? {
        RepeatsInside(letters, s, n, it, rep, i, fakeargs, slots, lookup);
      }
      HoldsEntries(c, xs, args, slots, Vector(letters, s, n));
    }
  }

  lemma CountedLength(rs: string, n: nat)
    ensures |CountedVector(rs, n)| == |rs| + 1
  {
  }

  lemma RepeatsInside(letters: string, s: Shape, n: nat, it: nat, rep: bool, i: int, fakeargs: nat, slots: seq<Slot>,
                      lookup: bool)
    requires s.Repeated? ==> 1 <= s.d <= |letters|
    requires RunState(letters, s, n, lookup, it, rep, i, fakeargs, slots) && s.Repeated? && it > |letters|
    ensures rep ==> |letters| < n
    ensures !rep ==> i == |letters| - 1
  {
    hide FirstPass, Vector, Raw;
  }

  /** exec_command up to the call: converts the supplied arguments in place and returns how many
      entries are passed on. A format whose last letters are repeated has room for the others only: if
      there are fewer arguments than letters, the buffer is left. */
  method ExecCommand(c: Readings, fmt: string, lookup: bool, args: array<Entry>, ghost xs: seq<Supplied>, n: nat,
                     ghost letters: string, ghost s: Shape) returns (leaves: bool, count: int)
    requires HasShape(fmt, letters, s) && AllReaders(ReadersOf(letters, s)) && n == |xs|
    requires args.Length == Room(letters, s, n) && args[..] == RunEntries(c, xs, OnStack(letters, n)[..args.Length])
    modifies args
    ensures leaves <==> s.Repeated? && n < |letters|
    ensures leaves ==> args[..] == RunEntries(c, xs, Vector(letters, s, n)[..args.Length])
    ensures !leaves && AllReaders(letters) ==>
            count == PassedCount(letters, s, n) && |Vector(letters, s, n)| <= args.Length
    ensures !leaves && AllReaders(letters) ==>
            args[..|Vector(letters, s, n)|] == RunEntries(c, xs, Vector(letters, s, n))
    ensures Counted(letters, s) ==> count == |letters| <= args.Length
    ensures Counted(letters, s) && !lookup ==>
            args[..count] == RunEntries(c, xs, CountedVector(letters[..count - 1], n))
    ensures !leaves ==> forall k :: 0 <= k < args.Length && k >= count ==> args[k] == old(args[k])
  {
    hide Reading, RunState, Vector, FirstPass, CountedVector, PassedCount, AllReaders, HasShape, Reader, ReadersOf,
         Counted, Value, Holds, AtRunTime, RunEntries, AnyValue, OnStack, Room;
    var i, fakeargs: nat := -1, 0;
    var rep := false;
    var it := 0;
    leaves := false;
    ghost var slots := OnStack(letters, n);
    RunBegin(fmt, letters, s, n, lookup, slots);
    BeginHolds(c, xs, args[..], letters, s, n);
    RoomForArguments(letters, s, n);
    while it < |fmt|
      invariant 0 <= it <= |fmt| && (it > |letters| ==> s.Repeated? && it == |letters| + 1)
      invariant RunState(letters, s, n, lookup, it, rep, i, fakeargs, slots) && Holds(c, xs, args[..], slots)
      invariant -1 <= i && (!rep ==> i < args.Length)
      invariant |slots| == if |letters| < n then n else |letters|
      invariant forall k :: 0 <= k < args.Length && k > i ==> args[k] == old(args[k])
      decreases n + |letters| + 5 - i, if it == |letters| then 1 else 0
    {
      RunBounds(fmt, letters, s, n, lookup, it, rep, i, fakeargs, slots);
      ghost var was := args[..];
      var ch := fmt[it];
      if Reader(ch) {
        RunLetter(letters, s, n, lookup, it, rep, i, fakeargs, slots);
        HoldsRaw(c, xs, letters, s, lookup, it, rep, i, fakeargs, args[..], slots);
        i := i + 1;
        if i < n || !rep {
          HoldsSet(c, xs, args[..], slots, i, if i < n then Given(i, ch) else Missing);
        }
        slots := Converted(slots, i - 1, n, rep, ch);
        if i >= n {
          if !rep {
            if i >= args.Length {
              leaves, count := true, i;
              RunLeaves(c, xs, letters, s, lookup, it, i, fakeargs + 1, args[..], slots);
              return;
            }
            args[i] := Val(NoValue);
            fakeargs := fakeargs + 1;
            assert args[..] == was[i := Val(NoValue)];
          }
        } else {
          args[i] := AtRunTime(c, ch, args[i].v);
          assert args[..] == was[i := args[i]];
        }
      } else if ch == '#' {
        RunCount(letters, s, n, lookup, rep, i, fakeargs, slots);
        i := i + 1;
        HoldsSet(c, xs, args[..], slots, i, Number(if lookup then -1 else i - fakeargs));
        args[i] := Count(if lookup then -1 else i - fakeargs);
        slots := slots[i := Number(if lookup then -1 else i - fakeargs)];
        assert args[..] == was[i := args[i]];
      } else if ch == '.' {
        count := if i + 1 > n then i + 1 else n;
        RunDone(c, xs, letters, s, lookup, it, rep, i, fakeargs, args[..], slots, count);
        return;
      } else if i + 1 < n {
        RunAgain(letters, s, n, lookup, rep, i, fakeargs, slots);
        it, rep := it - (Value(ch) + 1), true;
      } else {
        RunPast(letters, s, n, lookup, rep, i, fakeargs, slots);
      }
      it := it + 1;
    }
    count := i + 1;
    RunDone(c, xs, letters, s, lookup, it, rep, i, fakeargs, args[..], slots, count);
  }

  // ---- the two vectors ----

  /** The letter that reads the k-th argument. */
  function LetterAt(letters: string, s: Shape, k: nat): char
    requires s.Repeated? ==> 1 <= s.d <= |letters|
  {
    if k < |letters| then letters[k]
    else if s.Repeated? then letters[|letters| - s.d + (k - |letters|) % s.d]
    else 'a'
  }

  ghost predicate AllAlike(h: Host, a: seq<Entry>, b: seq<Entry>) {
    |a| == |b| && forall k :: 0 <= k < |a| ==> Alike(h, a[k], b[k])
  }

  predicate Joins(letters: string, s: Shape, n: nat) {
    s == Fixed && letters != "" && letters[|letters| - 1] == 's' && n > |letters|
  }

  /** The arguments that both calls turn into the same entry. */
  ghost predicate Same(h: Host, letter: char, x: Supplied) { !Differs(letter, x) && !Rewritten(h, letter, x) }

  /** A compiled call and a call at run time hand the command the same vector exactly when no surplus
      is joined (a last `s` of a format without dots takes it only when compiled) and no argument is of
      the kinds that its letter converts differently. */
  lemma Agreement(c: Readings, letters: string, s: Shape, xs: seq<Supplied>)
    requires AllReaders(letters) && (s.Repeated? ==> 1 <= s.d <= |letters| && s.d <= 4)
    requires Numerals(c) && forall k :: 0 <= k < |xs| ==> Usual(xs[k])
    ensures AllAlike(c.h, CompiledEntries(c, xs, CompiledVector(letters, s, |xs|)),
            RunEntries(c, xs, Vector(letters, s, |xs|)))
       <==> !Joins(letters, s, |xs|)
            && forall k :: 0 <= k < |xs| && k < |Vector(letters, s, |xs|)| ==> Same(c.h, LetterAt(letters, s, k), xs[k])
  {
    hide Alike, Numerals, CompiledEntry, RunEntry, Vector, JoinedVector, Usual, Same, LetterAt;
    var n := |xs|;
    var v := Vector(letters, s, n);
    var a, b := CompiledEntries(c, xs, CompiledVector(letters, s, n)), RunEntries(c, xs, v);
    if Joins(letters, s, n) {
      JoinedDiffers(c, letters, xs);
      var l := |letters| - 1;
      assert !Alike(c.h, a[l], b[l]);
    } else {
      if s == Fixed && letters != "" && letters[|letters| - 1] == 's' && n >= |letters| {
        NothingJoined(letters);
      }
      assert CompiledVector(letters, s, n) == v;
      forall k | 0 <= k < |v|
        ensures Alike(c.h, a[k], b[k]) <==> (k < n ==> Same(c.h, LetterAt(letters, s, k), xs[k]))
      {
        SlotAlike(c, letters, s, xs, k);
      }
    }
  }

  /** The same for letters that all read arguments, followed by `#`; nothing is joined then. */
  lemma CountedAgreement(c: Readings, rs: string, xs: seq<Supplied>)
    requires AllReaders(rs) && Numerals(c) && forall k :: 0 <= k < |xs| ==> Usual(xs[k])
    ensures AllAlike(c.h, CompiledEntries(c, xs, CountedVector(rs, |xs|)), RunEntries(c, xs, CountedVector(rs, |xs|)))
       <==> forall k :: 0 <= k < |rs| && k < |xs| ==> Same(c.h, rs[k], xs[k])
  {
    hide Alike, Numerals, Usual, Same, AtCompileTime, AtRunTime, AnyValue;
    var v := CountedVector(rs, |xs|);
    var a, b := CompiledEntries(c, xs, v), RunEntries(c, xs, v);
    forall k | 0 <= k < |v| ensures Alike(c.h, a[k], b[k]) <==> (k < |rs| && k < |xs| ==> Same(c.h, rs[k], xs[k])) {
      CountedEntryAlike(c, rs, xs, k);
    }
  }

  lemma CountedEntryAlike(c: Readings, rs: string, xs: seq<Supplied>, k: nat)
    requires Numerals(c) && (forall i :: 0 <= i < |xs| ==> Usual(xs[i])) && k <= |rs|
    ensures |CountedVector(rs, |xs|)| == |rs| + 1
    ensures var slot := CountedVector(rs, |xs|)[k];
            (Alike(c.h, CompiledEntry(c, xs, slot), RunEntry(c, xs, slot)) <==>
             (k < |rs| && k < |xs| ==> Same(c.h, rs[k], xs[k])))
  {
    hide Numerals, Usual, Differs, Rewritten, AtCompileTime, AtRunTime;
    if k < |rs| && k < |xs| {
      LetterAlike(c, rs[k], xs[k]);
    }
  }

  /** With harmless sources of blocks, which argument makes a difference is seen from the argument. */
  lemma HarmlessAgreement(c: Readings, letters: string, s: Shape, xs: seq<Supplied>)
    requires AllReaders(letters) && (s.Repeated? ==> 1 <= s.d <= |letters| && s.d <= 4)
    requires Numerals(c) && ReadsThrough(c.h)
    requires forall k :: 0 <= k < |xs| ==> Usual(xs[k]) && (xs[k].InBrackets? ==> Sources.Harmless(xs[k].source))
    ensures AllAlike(c.h, CompiledEntries(c, xs, CompiledVector(letters, s, |xs|)),
            RunEntries(c, xs, Vector(letters, s, |xs|)))
       <==> !Joins(letters, s, |xs|)
            && forall k :: 0 <= k < |xs| && k < |Vector(letters, s, |xs|)| ==> !Differs(LetterAt(letters, s, k), xs[k])
  {
    hide AllAlike, Numerals, ReadsThrough, Vector, CompiledVector, Usual, Differs, Rewritten, LetterAt,
         Sources.Harmless;
    Agreement(c, letters, s, xs);
    forall k | 0 <= k < |xs| && k < |Vector(letters, s, |xs|)|
      ensures Same(c.h, LetterAt(letters, s, k), xs[k]) <==> !Differs(LetterAt(letters, s, k), xs[k])
    {
      HarmlessAlike(c, LetterAt(letters, s, k), xs[k]);
    }
  }

  lemma VectorEntry(letters: string, s: Shape, n: nat, k: nat)
    requires s.Repeated? ==> 1 <= s.d <= |letters| && s.d <= 4
    requires k < |Vector(letters, s, n)|
    ensures Vector(letters, s, n)[k] == if k < n then Given(k, LetterAt(letters, s, k)) else Missing
  {
    hide LetterAt, Extra, FirstPass;
    if k < |letters| {
      assert Vector(letters, s, n)[k] == FirstPass(letters, n)[k];
      FirstEntry(letters, s, n, k);
    } else {
      ExtraEntry(letters, s, n, k);
    }
  }

  lemma FirstEntry(letters: string, s: Shape, n: nat, k: nat)
    requires (s.Repeated? ==> 1 <= s.d <= |letters| && s.d <= 4) && k < |letters|
    ensures FirstPass(letters, n)[k] == if k < n then Given(k, LetterAt(letters, s, k)) else Missing
  {
  }

  lemma ExtraEntry(letters: string, s: Shape, n: nat, k: nat)
    requires s.Repeated? ==> 1 <= s.d <= |letters| && s.d <= 4
    requires |letters| <= k < |letters| + |Extra(letters, s, n)|
    ensures k < n && Extra(letters, s, n)[k - |letters|] == Given(k, LetterAt(letters, s, k))
  {
  }

  lemma SlotAlike(c: Readings, letters: string, s: Shape, xs: seq<Supplied>, k: nat)
    requires s.Repeated? ==> 1 <= s.d <= |letters| && s.d <= 4
    requires Numerals(c) && forall i :: 0 <= i < |xs| ==> Usual(xs[i])
    requires k < |Vector(letters, s, |xs|)|
    ensures var slot := Vector(letters, s, |xs|)[k];
            (Alike(c.h, CompiledEntry(c, xs, slot), RunEntry(c, xs, slot)) <==>
             (k < |xs| ==> Same(c.h, LetterAt(letters, s, k), xs[k])))
  {
    hide Numerals, Usual, Differs, Rewritten, AtCompileTime, AtRunTime, Vector, LetterAt;
    VectorEntry(letters, s, |xs|, k);
    if k < |xs| {
      LetterAlike(c, LetterAt(letters, s, k), xs[k]);
    }
  }

  lemma NothingJoined(letters: string)
    requires letters != "" && letters[|letters| - 1] == 's'
    ensures JoinedVector(letters, |letters|) == Vector(letters, Fixed, |letters|)
  {
    var l := |letters| - 1;
    assert FirstPass(letters[..l], |letters|) == FirstPass(letters, |letters|)[..l];
  }

  /** The joined text is longer than its first part. */
  lemma JoinedDiffers(c: Readings, letters: string, xs: seq<Supplied>)
    requires letters != "" && letters[|letters| - 1] == 's' && |xs| > |letters|
    ensures |JoinedVector(letters, |xs|)| == |Vector(letters, Fixed, |xs|)| == |letters|
    ensures !Alike(c.h, CompiledEntry(c, xs, JoinedVector(letters, |xs|)[|letters| - 1]),
                   RunEntry(c, xs, Vector(letters, Fixed, |xs|)[|letters| - 1]))
  {
    hide AnyValue;
    var l := |letters| - 1;
    assert Vector(letters, Fixed, |xs|)[l] == Given(l, 's');
    assert JoinedVector(letters, |xs|)[l] == Joined(l, |xs|);
    JoinedLonger(c, xs, l, |xs|);
  }

  lemma {:induction false} JoinedLonger(c: Readings, xs: seq<Supplied>, from: nat, end: nat)
    requires from < end <= |xs|
    ensures var first := GetString(c.h, AnyValue(c.h, xs[from]));
            |JoinedText(c, xs, from, end)| >= |first| + (end - from - 1)
    decreases end
  {
    if from + 1 < end {
      JoinedLonger(c, xs, from, end - 1);
    }
  }

  /** The input: format `c` and the argument `""`. The compiled call passes no value, the call at run
      time the number zero. */
  lemma EmptyConditionVectors(c: Readings)
    ensures CompiledEntries(c, [InQuotes([])], CompiledVector("c", Fixed, 1)) == [Val(NoValue)]
    ensures RunEntries(c, [InQuotes([])], Vector("c", Fixed, 1)) == [Val(Int(0))]
  {
    assert Vector("c", Fixed, 1) == [Given(0, 'c')];
    EmptyCondition(c);
  }

  /** A repeated group that the arguments do not fill is passed on whole, at run time only. */
  lemma PassedWhole(letters: string, s: Shape, n: nat)
    requires s.Repeated? ==> 1 <= s.d <= |letters| && s.d <= 4
    ensures PassedCount(letters, s, n) == |CompiledVector(letters, s, n)| <==>
            !(s.Repeated? && n > |letters| && (n - |letters|) % s.d != 0)
  {
    VectorLength(letters, s, n);
    if s.Repeated? && n > |letters| {
      GroupCount(n - |letters|, s.d);
    }
  }

  /** What is passed on lies inside of the buffer exactly when there are arguments for all letters, and
      for whole groups of the repeated ones. */
  lemma PassedInside(letters: string, s: Shape, n: nat)
    requires s.Repeated? ==> 1 <= s.d <= |letters| && s.d <= 4
    ensures PassedCount(letters, s, n) <= Room(letters, s, n) <==>
            !(s.Repeated? && (n < |letters| || (n - |letters|) % s.d != 0))
  {
    if s.Repeated? && n > |letters| {
      GroupCount(n - |letters|, s.d);
      NotFewer(n - |letters|, s.d);
    }
  }

  lemma NotFewer(m: nat, d: nat)
    requires 1 <= d <= 4
    ensures m <= (m + d - 1) / d * d
  {
    if d == 2 {
    } else if d == 3 {
    } else if d == 4 {
    }
  }

  /** The input: format `c1...` without arguments. The buffer has no entries, the loop writes the first
      one, and one entry is passed on. */
  lemma RepeatedWithoutRoom()
    ensures HasShape("c1...", "c", Repeated(1)) && AllReaders(ReadersOf("c", Repeated(1)))
    ensures Room("c", Repeated(1), 0) == 0 && PassedCount("c", Repeated(1), 0) == 1
  {
    assert "c1..." == "c" + ['1'] + Dots;
  }

  lemma GroupCount(m: nat, d: nat)
    requires 1 <= d <= 4
    ensures (m + d - 1) / d * d == m <==> m % d == 0
  {
    if d == 2 {
    } else if d == 3 {
    } else if d == 4 {
    }
  }
}
