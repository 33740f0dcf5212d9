/** SMS login codes of one phone number (internal/service/logincode.go): two Redis keys with expiries of their own, the
    code and the attempt counter, changed only by two atomic scripts. Instants are in milliseconds. */
module LoginCode {
  import opened Wrappers

  type Code = string

  const TTL: int := 300_000
  const MAX_ATTEMPTS: int := 5

  /** A Redis key's value and the instant from which the key is gone. */
  datatype Timed<+T> = Timed(value: T, expiresAt: int)

  function Live<T>(key: Option<Timed<T>>, now: int): Option<T> {
    if key.Some? && now < key.value.expiresAt then Some(key.value.value) else None
  }

  datatype Outcome = Accepted | Mismatch | NoCode | Exhausted

  /** The two keys of one phone number; what the scripts do to them. */
  datatype Keys = Keys(code: Option<Timed<Code>>, tries: Option<Timed<int>>) {
    function Tries(now: int): int {
      match Live(tries, now) case Some(n) => n case None => 0
    }

    /** issueScript: a live code with attempts left is kept and both keys renewed, otherwise `fresher` takes its place
        and the counter goes. */
    function Issued(fresher: Code, now: int): Keys {
      if Live(code, now).Some? && Tries(now) < MAX_ATTEMPTS then
        Keys(Some(Timed(code.value.value, now + TTL)), if Tries(now) > 0 then Some(Timed(Tries(now), now + TTL))
            else tries)
      else Keys(Some(Timed(fresher, now + TTL)), None)
    }

    /** The counter after INCR, with an expiry set by the first increment only. */
    function Counted(now: int): Timed<int> {
      if Live(tries, now).None? then Timed(1, now + TTL) else Timed(tries.value.value + 1, tries.value.expiresAt)
    }

    function Outcome(given: Code, now: int): Outcome {
      if Live(code, now).None? then NoCode
      else if Tries(now) + 1 > MAX_ATTEMPTS then Exhausted
      else if code.value.value == given then Accepted
      else Mismatch
    }

    function Verified(given: Code, now: int): Keys {
      match Outcome(given, now)
      case NoCode => this
      case Mismatch => Keys(code, Some(Counted(now)))
      case _ => Keys(None, None)
    }
  }

  /** The scripts, command by command. */
  class Store {
    var code: Option<Timed<Code>>
    var tries: Option<Timed<int>>

    constructor ()
      ensures Value() == Keys(None, None)
    {
      code, tries := None, None;
    }

    function Value(): Keys
      reads this
    {
      Keys(code, tries)
    }

    /** The counter only ever holds what INCR left. */
    ghost predicate Valid()
      reads this
    {
      tries.Some? ==> tries.value.value > 0
    }

    method Issue(fresher: Code, now: int) returns (current: Code)
      requires Valid()
      modifies this
      ensures Valid() && Value() == old(Value()).Issued(fresher, now)
      ensures Live(code, now) == Some(current)
    {
      var n := 0;
      if tries.Some? && now < tries.value.expiresAt {
        n := tries.value.value;
      }
      if code.Some? && now < code.value.expiresAt && n < MAX_ATTEMPTS {
        code := Some(code.value.(expiresAt := now + TTL));
        if n > 0 {
          tries := Some(tries.value.(expiresAt := now + TTL));
        }
        return code.value.value;
      }
      code := Some(Timed(fresher, now + TTL));
      tries := None;
      return fresher;
    }

    method Verify(given: Code, now: int) returns (o: Outcome)
      requires Valid()
      modifies this
      ensures Valid() && Value() == old(Value()).Verified(given, now)
      ensures o == old(Value()).Outcome(given, now)
    {
      if code.None? || code.value.expiresAt <= now {
        return NoCode;
      }
      if tries.None? || tries.value.expiresAt <= now {
        tries := Some(Timed(0, now));
      }
      tries := Some(tries.value.(value := tries.value.value + 1));
      if tries.value.value == 1 {
        tries := Some(tries.value.(expiresAt := now + TTL));
      }
      if tries.value.value > MAX_ATTEMPTS {
        code, tries := None, None;
        return Exhausted;
      }
      if code.value.value == given {
        code, tries := None, None;
        return Accepted;
      }
      return Mismatch;
    }
  }

  // ----- Timed runs -----

  /** History per generated code: how often it was compared with a given code, and how often that succeeded. */
  datatype Use = Use(compared: nat, accepted: nat)

  /** `uses` has one entry per code generated so far; the stored code, if any, is the last of them. */
  datatype State = State(clock: int, keys: Keys, uses: seq<Use>) {
    /** Comparisons made with the latest code. */
    function Compared(): nat {
      if uses == [] then 0 else uses[|uses| - 1].compared
    }
  }

  const START := State(0, Keys(None, None), [])

  datatype Action =
    | Tick(d: nat)
    | Issue(fresher: Code)
    | Verify(given: Code)

  predicate Keeps(s: State) {
    Live(s.keys.code, s.clock).Some? && s.keys.Tries(s.clock) < MAX_ATTEMPTS
  }

  function Apply(s: State, a: Action): State {
    match a
    case Tick(d) => s.(clock := s.clock + d)
    case Issue(c) =>
      s.(keys := s.keys.Issued(c, s.clock), uses := if Keeps(s) then s.uses else s.uses + [Use(0, 0)])
    case Verify(c) => s.(keys := s.keys.Verified(c, s.clock), uses := Noted(s.uses, s.keys.Outcome(c, s.clock)))
  }

  function Noted(uses: seq<Use>, o: Outcome): seq<Use> {
    if uses == [] || o.NoCode? || o.Exhausted? then uses
    else
      var last := uses[|uses| - 1];
      uses[|uses| - 1 := Use(last.compared + 1, if o.Accepted? then last.accepted + 1 else last.accepted)]
  }

  function Run(s: State, actions: seq<Action>): State
    decreases |actions|
  {
    if actions == [] then s else Run(Apply(s, actions[0]), actions[1..])
  }

  /** While a code lives, the counter is exactly the number of comparisons made with it, and lives at least as long. */
  ghost predicate Inv(s: State) {
    && (s.keys.tries.Some? ==> s.keys.tries.value.value > 0)
    && (forall g :: 0 <= g < |s.uses| ==> s.uses[g].compared <= MAX_ATTEMPTS && s.uses[g].accepted <= 1)
    && (s.keys.code.Some? ==> s.uses != [])
    && (s.keys.code.Some? ==> s.keys.code.value.expiresAt <= s.clock + TTL)
    && (Live(s.keys.code, s.clock).Some? ==>
          var last := s.uses[|s.uses| - 1];
          && last.accepted == 0 && last.compared == s.keys.Tries(s.clock)
          && (last.compared > 0 ==> s.keys.code.value.expiresAt <= s.keys.tries.value.expiresAt))
  }

  lemma StepKeepsInv(s: State, a: Action)
    requires Inv(s)
    ensures Inv(Apply(s, a))
  {
  }

  lemma {:induction false} RunKeepsInv(s: State, actions: seq<Action>)
    requires Inv(s)
    ensures Inv(Run(s, actions))
    decreases |actions|
  {
    if actions == [] {
    } else {
      StepKeepsInv(s, actions[0]);
      RunKeepsInv(Apply(s, actions[0]), actions[1..]);
    }
  }

  /** In every timed run each generated code is compared at most five times and accepted at most once. */
  lemma FiveAttemptsOneLogin(actions: seq<Action>, g: nat)
    requires g < |Run(START, actions).uses|
    ensures Run(START, actions).uses[g].compared <= MAX_ATTEMPTS
    ensures Run(START, actions).uses[g].accepted <= 1
  {
    RunKeepsInv(START, actions);
  }

  /** The counter never expires before the code it counts for. */
  lemma CounterOutlivesCode(actions: seq<Action>, later: int)
    ensures var s := Run(START, actions);
            s.clock <= later && Live(s.keys.code, later).Some? && Live(s.keys.tries, s.clock).Some?
            ==> Live(s.keys.tries, later).Some?
  {
    RunKeepsInv(START, actions);
  }

  /** Issue replaces a live code exactly when it has been compared five times; otherwise it hands the same code out
      again, for another full five minutes. */
  lemma ReplacedOnlyWhenUsedUp(actions: seq<Action>, c: Code)
    ensures var s := Run(START, actions);
            Live(s.keys.code, s.clock).Some? ==>
              var n := Apply(s, Issue(c));
              (|n.uses| == |s.uses| <==> s.Compared() < MAX_ATTEMPTS)
    ensures var s := Run(START, actions);
            Live(s.keys.code, s.clock).Some? && s.Compared() < MAX_ATTEMPTS ==>
              Apply(s, Issue(c)).keys.code == Some(Timed(s.keys.code.value.value, s.clock + TTL))
    ensures var s := Run(START, actions);
            Live(s.keys.code, s.clock).Some? && s.Compared() >= MAX_ATTEMPTS ==>
              Apply(s, Issue(c)).keys == Keys(Some(Timed(c, s.clock + TTL)), None)
  {
    RunKeepsInv(START, actions);
  }

  /** The right code is accepted exactly when it is live and was compared fewer than five times before. */
  lemma RightCodeIsAccepted(actions: seq<Action>, c: Code)
    ensures var s := Run(START, actions);
            s.keys.Outcome(c, s.clock).Accepted? <==>
              Live(s.keys.code, s.clock) == Some(c) && s.Compared() < MAX_ATTEMPTS
  {
    RunKeepsInv(START, actions);
  }

  /** Once a code was accepted, nothing is accepted or even compared until the next Issue. */
  lemma AcceptedIsSpent(s: State, c: Code, rest: seq<Action>, again: Code)
    requires s.keys.Outcome(c, s.clock).Accepted? && forall a :: a in rest ==> !a.Issue?
    ensures var n := Run(Apply(s, Verify(c)), rest); n.keys.Outcome(again, n.clock) == NoCode
  {
    NoCodeStays(Apply(s, Verify(c)), rest);
  }

  lemma {:induction false} NoCodeStays(s: State, rest: seq<Action>)
    requires s.keys.code.None? && forall a :: a in rest ==> !a.Issue?
    ensures Run(s, rest).keys.code.None?
    decreases |rest|
  {
    if rest == [] {
    } else {
      assert !rest[0].Issue?;
      NoCodeStays(Apply(s, rest[0]), rest[1..]);
    }
  }

  /** The four answers, in every run: no live code; a live one compared five times, which goes; the right one; a wrong
      one. */
  lemma AnsweredExactly(actions: seq<Action>, given: Code)
    ensures var s := Run(START, actions);
            var o, live := s.keys.Outcome(given, s.clock), Live(s.keys.code, s.clock);
            && (o.NoCode? <==> live == None)
            && (o.Exhausted? <==> live.Some? && s.Compared() >= MAX_ATTEMPTS)
            && (o.Mismatch? <==> live.Some? && live != Some(given) && s.Compared() < MAX_ATTEMPTS)
    ensures var s := Run(START, actions);
            var o, n := s.keys.Outcome(given, s.clock), Apply(s, Verify(given));
            && (o.NoCode? ==> n.keys == s.keys)
            && (o.Exhausted? || o.Accepted? ==> n.keys == Keys(None, None))
            && (o.Mismatch? ==> n.keys.code == s.keys.code && n.Compared() == s.Compared() + 1)
  {
    RunKeepsInv(START, actions);
  }

  function Verifies(actions: seq<Action>): nat {
    if actions == [] then 0 else Verifies(actions[1..]) + if actions[0].Verify? then 1 else 0
  }

  /** So the right code still logs in after any wrong guesses, short of five in all, until its five minutes are over. */
  lemma {:induction false} WrongGuessesLeaveTheCode(s: State, c: Code, rest: seq<Action>)
    requires Inv(s) && Live(s.keys.code, s.clock) == Some(c) && s.Compared() + Verifies(rest) < MAX_ATTEMPTS
    requires Run(s, rest).clock < s.keys.code.value.expiresAt
    requires forall a :: a in rest ==> !a.Issue? && a != Verify(c)
    ensures var n := Run(s, rest); n.keys.code == s.keys.code && n.keys.Outcome(c, n.clock) == Accepted
    decreases |rest|
  {
    if rest == [] {
    } else {
      var n := Apply(s, rest[0]);
      assert rest[0] in rest;
      ClockGrows(n, rest[1..]);
      StepKeepsInv(s, rest[0]);
      WrongGuessesLeaveTheCode(n, c, rest[1..]);
    }
  }

  lemma {:induction false} ClockGrows(s: State, actions: seq<Action>)
    ensures s.clock <= Run(s, actions).clock
    decreases |actions|
  {
    if actions == [] {
    } else {
      ClockGrows(Apply(s, actions[0]), actions[1..]);
    }
  }

  /** The code an Issue hands out logs in for five minutes, after up to four wrong guesses of its own. */
  lemma IssuedCodeLogsIn(before: seq<Action>, fresher: Code, rest: seq<Action>)
    requires var s := Run(START, before);
             var n := Apply(s, Issue(fresher));
             && n.keys.code.Some?
             && Run(n, rest).clock < s.clock + TTL && n.Compared() + Verifies(rest) < MAX_ATTEMPTS
             && forall a :: a in rest ==> !a.Issue? && a != Verify(n.keys.code.value.value)
    ensures var n := Apply(Run(START, before), Issue(fresher));
            var m := Run(n, rest);
            m.keys.Outcome(n.keys.code.value.value, m.clock) == Accepted
  {
    RunKeepsInv(START, before);
    var s := Run(START, before);
    var n := Apply(s, Issue(fresher));
    StepKeepsInv(s, Issue(fresher));
    ClockGrows(n, rest);
    WrongGuessesLeaveTheCode(n, n.keys.code.value.value, rest);
  }
}
