/** The idempotency lease around sending a notification (internal/service/notify_send.go): one Redis key that holds a
    request's "processing" mark for a minute, renewed before every attempt, or "done" for a day. One step per Redis
    command or script, any number of requests with the same key. Instants are in seconds. */
module NotifyLease {
  import opened Wrappers

  type Id = nat

  const PROCESSING_TTL: int := 60
  const DONE_TTL: int := 86_400

  /** A processing mark carries its holder's random token, which no other request has. */
  datatype Mark = Processing(holder: Id) | Done

  datatype Key = Key(mark: Mark, expiresAt: int)

  datatype End = Sent | AlreadySent | InProgress | Failed | Crashed

  datatype Phase =
    | Claiming(round: nat)     // about to SETNX, in the first or second round
    | Looking(round: nat)      // SETNX lost, about to GET
    | Holding                  // dispatching, between attempts
    | Renewed                  // dispatching, the renewal before the next attempt is over
    | Attempting               // dispatching, a provider is being called
    | Delivered                // a provider took the message, "done" not yet written
    | Giving                   // all providers failed or the caller gave up, mark not yet released
    | Over(end: End)
  {
    predicate Dispatching() {
      Holding? || Renewed? || Attempting? || Delivered?
    }
  }

  /** History: a message a provider took, for which request and when. */
  datatype Message = Message(sender: Id, at: int)

  /** `doneUntil` and `messages` are history: when the latest "done" runs out, and everything delivered. */
  datatype State = State(clock: int, key: Option<Key>, phases: map<Id, Phase>, doneUntil: int, messages: seq<Message>) {
    function Live(): Option<Mark> {
      if key.Some? && clock < key.value.expiresAt then Some(key.value.mark) else None
    }

    predicate At(i: Id, p: Phase) {
      i in phases && phases[i] == p
    }

    predicate Dispatches(i: Id) {
      i in phases && phases[i].Dispatching()
    }

    function To(i: Id, p: Phase): State {
      this.(phases := phases[i := p])
    }
  }

  const START := State(0, None, map[], 0, [])

  datatype Action =
    | Tick(d: nat)
    | Arrive(id: Id)
    | Claim(id: Id)
    | Look(id: Id)
    | Renew(id: Id, reached: bool)         // a Redis error only gets logged
    | Attempt(id: Id)
    | Answer(id: Id, ok: bool)
    | GiveUp(id: Id)                       // no provider (left), or the caller is gone
    | Settle(id: Id)
    | Release(id: Id)
    | Crash(id: Id)                        // anywhere but between delivery and Settle

  function Apply(s: State, a: Action): State {
    match a
    case Tick(d) => s.(clock := s.clock + d)
    case Arrive(i) => if i in s.phases then s else s.To(i, Claiming(0))
    case Claim(i) =>
      if i !in s.phases || !s.phases[i].Claiming? then s
      else if s.Live().Some? then s.To(i, Looking(s.phases[i].round))
      else s.To(i, Holding).(key := Some(Key(Processing(i), s.clock + PROCESSING_TTL)))
    case Look(i) =>
      if i !in s.phases || !s.phases[i].Looking? then s
      else (match s.Live()
            case None => s.To(i, if s.phases[i].round == 0 then Claiming(1) else Over(InProgress))
            case Some(Done) => s.To(i, Over(AlreadySent))
            case Some(Processing(_)) => s.To(i, Over(InProgress)))
    case Renew(i, reached) =>
      if !s.At(i, Holding) then s
      else if reached && s.Live() == Some(Processing(i)) then
        s.To(i, Renewed).(key := Some(Key(Processing(i), s.clock + PROCESSING_TTL)))
      else s.To(i, Renewed)
    case Attempt(i) => if s.At(i, Renewed) then s.To(i, Attempting) else s
    case Answer(i, ok) =>
      if !s.At(i, Attempting) then s
      else if ok then s.To(i, Delivered).(messages := s.messages + [Message(i, s.clock)])
      else s.To(i, Holding)
    case GiveUp(i) => if s.At(i, Holding) || s.At(i, Renewed) then s.To(i, Giving) else s
    case Settle(i) =>
      if !s.At(i, Delivered) then s
      else s.To(i, Over(Sent)).(key := Some(Key(Done, s.clock + DONE_TTL)), doneUntil := s.clock + DONE_TTL)
    case Release(i) =>
      if !s.At(i, Giving) then s
      else s.To(i, Over(Failed)).(key := if s.Live() == Some(Processing(i)) then None else s.key)
    case Crash(i) => if i in s.phases && !s.phases[i].Delivered? then s.To(i, Over(Crashed)) else s
  }

  function Run(s: State, actions: seq<Action>): State
    decreases |actions|
  {
    if actions == [] then s else Run(Apply(s, actions[0]), actions[1..])
  }

  // ----- Every run -----

  /** The one request whose renewal or release may touch the key. */
  predicate IsOwn(a: Action, i: Id) {
    (a.Renew? || a.Release?) && a.id == i
  }

  /** A live mark stays exactly as it is, expiry included, through anything any number of other requests do, short of
      recording a success: no other request's claim, renewal, release or crash touches it. */
  lemma {:induction false} OthersMarksAreSafe(s: State, actions: seq<Action>, i: Id)
    requires s.Live() == Some(Processing(i)) && Run(s, actions).clock < s.key.value.expiresAt
    requires forall a :: a in actions ==> !IsOwn(a, i) && !a.Settle?
    ensures Run(s, actions).key == s.key
    decreases |actions|
  {
    if actions == [] {
    } else {
      var n := Apply(s, actions[0]);
      assert !IsOwn(actions[0], i) && !actions[0].Settle?;
      ClockGrows(n, actions[1..]);
      OthersMarksAreSafe(n, actions[1..], i);
    }
  }

  lemma {:induction false} ClockGrows(s: State, actions: seq<Action>)
    ensures s.clock <= Run(s, actions).clock
    decreases |actions|
  {
    if actions == [] {
    } else {
      ClockGrows(Apply(s, actions[0]), actions[1..]);
    }
  }

  predicate DoneInv(s: State) {
    s.doneUntil <= s.clock + DONE_TTL && (s.clock < s.doneUntil ==> s.key == Some(Key(Done, s.doneUntil)))
  }

  lemma {:induction false} DoneStays(s: State, actions: seq<Action>)
    requires DoneInv(s)
    ensures DoneInv(Run(s, actions)) && s.clock <= Run(s, actions).clock
    ensures s.doneUntil <= Run(s, actions).doneUntil
    decreases |actions|
  {
    if actions == [] {
    } else {
      DoneStays(Apply(s, actions[0]), actions[1..]);
    }
  }

  /** Whatever else happens in between, once a success has been recorded no request gets to dispatch under the key for
      24 hours. */
  lemma DoneBlocksForADay(before: seq<Action>, winner: Id, after: seq<Action>, next: Id)
    requires Run(START, before).At(winner, Delivered)
    ensures var recorded := Run(START, before);
            var s := Run(Apply(recorded, Settle(winner)), after);
            !s.Dispatches(next) && Apply(s, Claim(next)).Dispatches(next) ==> recorded.clock + DONE_TTL <= s.clock
  {
    DoneStays(START, before);
    DoneStays(Apply(Run(START, before), Settle(winner)), after);
  }

  // ----- Runs in which no holder's mark runs out while it dispatches -----

  /** Time never passes a dispatching request's own mark. */
  ghost predicate Calm(s: State, a: Action) {
    a.Tick? ==> forall i :: s.Dispatches(i) && s.Live() == Some(Processing(i)) ==> s.clock + a.d < s.key.value.expiresAt
  }

  ghost predicate CalmRun(s: State, actions: seq<Action>)
    decreases |actions|
  {
    actions == [] || (Calm(s, actions[0]) && CalmRun(Apply(s, actions[0]), actions[1..]))
  }

  predicate HolderInv(s: State, i: Id) {
    s.Dispatches(i) ==>
      && s.Live() == Some(Processing(i))
      && (s.phases[i].Delivered? ==> s.messages != [] && s.messages[|s.messages| - 1].sender == i)
      && (!s.phases[i].Delivered? && s.messages != [] ==> s.messages[|s.messages| - 1].at + DONE_TTL <= s.clock)
  }

  ghost predicate Spaced(messages: seq<Message>) {
    forall j, k :: 0 <= j < k < |messages| ==> messages[j].at + DONE_TTL <= messages[k].at
  }

  /** The latest message is either not recorded yet or recorded as done. */
  predicate RecordInv(s: State) {
    s.messages != [] ==>
      var last := s.messages[|s.messages| - 1];
      last.at <= s.clock && (s.At(last.sender, Delivered) || last.at + DONE_TTL <= s.doneUntil)
  }

  ghost predicate Inv(s: State) {
    DoneInv(s) && RecordInv(s) && Spaced(s.messages) && forall i :: HolderInv(s, i)
  }

  lemma StepKeepsHolder(s: State, a: Action, i: Id)
    requires Inv(s) && Calm(s, a)
    ensures HolderInv(Apply(s, a), i)
  {
    assert HolderInv(s, i);
    if !a.Tick? { assert HolderInv(s, a.id); }
    if s.messages != [] { assert HolderInv(s, s.messages[|s.messages| - 1].sender); }
  }

  lemma StepKeepsInv(s: State, a: Action)
    requires Inv(s) && Calm(s, a)
    ensures Inv(Apply(s, a))
  {
    forall i ensures HolderInv(Apply(s, a), i) {
      StepKeepsHolder(s, a, i);
    }
    if !a.Tick? { assert HolderInv(s, a.id); }
  }

  lemma {:induction false} RunKeepsInv(s: State, actions: seq<Action>)
    requires Inv(s) && CalmRun(s, actions)
    ensures Inv(Run(s, actions))
    decreases |actions|
  {
    if actions == [] {
    } else {
      StepKeepsInv(s, actions[0]);
      RunKeepsInv(Apply(s, actions[0]), actions[1..]);
    }
  }

  /** Then dispatches under one key never overlap, and any two messages are at least 24 hours apart. */
  lemma OneMessageADay(actions: seq<Action>, i: Id, k: Id)
    requires CalmRun(START, actions)
    ensures Run(START, actions).Dispatches(i) && Run(START, actions).Dispatches(k) ==> i == k
    ensures Spaced(Run(START, actions).messages)
  {
    RunKeepsInv(START, actions);
    var s := Run(START, actions);
    assert HolderInv(s, i) && HolderInv(s, k);
  }

  // ----- Why runs are calm: the time limits of the code -----

  /** One Redis call, one log write, one attempt take at most this long. */
  const OP_LIMIT: int := 5
  const LOG_LIMIT: int := 5
  const ATTEMPT_LIMIT: int := 30

  /** How long a dispatching request stays in a phase: the log of the last attempt and the renewal call; what is left of
      that call once the renewal took effect; the attempt; its log and the settling call. */
  function Limit(p: Phase): int {
    match p
    case Renewed => OP_LIMIT
    case Attempting => ATTEMPT_LIMIT
    case Delivered => LOG_LIMIT + OP_LIMIT
    case _ => LOG_LIMIT + OP_LIMIT
  }

  /** How much of the mark's minute is left at least when a phase begins. */
  function Room(p: Phase): int {
    match p
    case Renewed => PROCESSING_TTL
    case Attempting => PROCESSING_TTL - OP_LIMIT
    case _ => PROCESSING_TTL - OP_LIMIT - ATTEMPT_LIMIT
  }

  /** When each request entered its phase. */
  function Entered(s: State, since: map<Id, int>, a: Action): map<Id, int> {
    if a.Tick? || Apply(s, a).phases == s.phases then since else since[a.id := s.clock]
  }

  /** Nobody overstays, and every renewal reaches Redis. */
  ghost predicate Prompt(s: State, since: map<Id, int>, a: Action) {
    && (a.Renew? ==> a.reached)
    && (a.Tick? ==> forall i :: s.Dispatches(i) && i in since ==> s.clock + a.d <= since[i] + Limit(s.phases[i]))
  }

  ghost predicate PromptRun(s: State, since: map<Id, int>, actions: seq<Action>)
    decreases |actions|
  {
    actions == [] || (Prompt(s, since, actions[0])
        && PromptRun(Apply(s, actions[0]), Entered(s, since, actions[0]), actions[1..]))
  }

  predicate TimeInv(s: State, since: map<Id, int>, i: Id) {
    s.Dispatches(i) ==>
      && i in since && since[i] <= s.clock <= since[i] + Limit(s.phases[i])
      && s.key.Some? && s.key.value.expiresAt >= since[i] + Room(s.phases[i])
  }

  lemma PromptIsCalm(s: State, since: map<Id, int>, a: Action)
    requires Prompt(s, since, a) && forall i :: TimeInv(s, since, i)
    ensures Calm(s, a)
  {
    if a.Tick? {
      forall i | s.Dispatches(i) && s.Live() == Some(Processing(i)) ensures s.clock + a.d < s.key.value.expiresAt {
        assert TimeInv(s, since, i);
      }
    }
  }

  lemma StepKeepsTime(s: State, since: map<Id, int>, a: Action, i: Id)
    requires Inv(s) && Prompt(s, since, a) && (forall k :: TimeInv(s, since, k))
    ensures TimeInv(Apply(s, a), Entered(s, since, a), i)
  {
    assert TimeInv(s, since, i) && HolderInv(s, i);
    if !a.Tick? { assert TimeInv(s, since, a.id) && HolderInv(s, a.id); }
  }
  lemma {:induction false} PromptRunIsCalm(s: State, since: map<Id, int>, actions: seq<Action>)
    requires Inv(s) && PromptRun(s, since, actions) && forall i :: TimeInv(s, since, i)
    ensures CalmRun(s, actions)
    decreases |actions|
  {
    if actions == [] {
    } else {
      var a := actions[0];
      PromptIsCalm(s, since, a);
      StepKeepsInv(s, a);
      forall i ensures TimeInv(Apply(s, a), Entered(s, since, a), i) {
        StepKeepsTime(s, since, a, i);
      }
      PromptRunIsCalm(Apply(s, a), Entered(s, since, a), actions[1..]);
    }
  }

  /** So as long as every call keeps to its time limit and every renewal reaches Redis, however many providers are tried
      one after the other, dispatches never overlap and any two messages are at least 24 hours apart. */
  lemma LimitsKeepLeases(actions: seq<Action>, i: Id, k: Id)
    requires PromptRun(START, map[], actions)
    ensures Run(START, actions).Dispatches(i) && Run(START, actions).Dispatches(k) ==> i == k
    ensures Spaced(Run(START, actions).messages)
  {
    PromptRunIsCalm(START, map[], actions);
    OneMessageADay(actions, i, k);
  }

  /** Without that hypothesis two requests can dispatch the same notification: the first one's mark runs out a minute
      after it was claimed and never renewed. */
  lemma ExpiredMarkOverlaps()
    ensures var one := Apply(Apply(START, Arrive(0)), Claim(0));
            var two := Apply(Apply(Apply(one, Tick(PROCESSING_TTL)), Arrive(1)), Claim(1));
            !Calm(one, Tick(PROCESSING_TTL)) && two.Dispatches(0) && two.Dispatches(1)
  {
    var one := Apply(Apply(START, Arrive(0)), Claim(0));
    assert one.Dispatches(0) && one.Live() == Some(Processing(0));
  }

  // ----- What each request gets -----

  /** A claim gets the key, for a minute, exactly if no mark lives; otherwise it goes on to look, and the key stays. */
  lemma ClaimedExactly(s: State, i: Id, round: nat)
    requires s.At(i, Claiming(round))
    ensures var n := Apply(s, Claim(i));
            && (s.Live() == None ==> n.Dispatches(i) && n.key == Some(Key(Processing(i), s.clock + 60)))
            && (s.Live() != None ==> n.At(i, Looking(round)) && n.key == s.key)
  {
  }

  /** A request that lost its claim is told that the message was sent, or that another request is at it; if the mark is
      gone by then it claims once more, and after that gives up as in progress. The key stays. */
  lemma LookedExactly(s: State, i: Id, round: nat)
    requires s.At(i, Looking(round))
    ensures var n := Apply(s, Look(i));
            && n.key == s.key
            && (s.Live() == Some(Done) ==> n.At(i, Over(AlreadySent)))
            && (s.Live() == None && round == 0 ==> n.At(i, Claiming(1)))
            && ((s.Live() == None && round > 0) || (s.Live().Some? && s.Live() != Some(Done)) ==>
                  n.At(i, Over(InProgress)))
  {
  }

  /** A renewal that reaches Redis gives the request's own live mark a full minute again; it touches no other mark, and
      does not bring an expired one back. Either way the request goes on to its attempt. */
  lemma RenewedExactly(s: State, i: Id, reached: bool)
    requires s.At(i, Holding)
    ensures var n := Apply(s, Renew(i, reached));
            && n.At(i, Renewed)
            && n.key == (if reached && s.Live() == Some(Processing(i)) then Some(Key(Processing(i), s.clock + 60))
                         else s.key)
  {
  }

  /** After all providers failed, the request's own live mark goes, so that the next claim gets the key at once; another
      request's mark stays. */
  lemma FailureFreesTheKey(s: State, i: Id, next: Id, round: nat)
    requires s.At(i, Giving) && s.At(next, Claiming(round))
    ensures var n := Apply(s, Release(i));
            && n.At(i, Over(Failed))
            && (s.Live() == Some(Processing(i)) || s.Live() == None ==> Apply(n, Claim(next)).Dispatches(next))
            && (s.Live().Some? && s.Live() != Some(Processing(i)) ==> n.key == s.key)
  {
  }

  /** A request that nothing interferes with, on a free key, is sent with its first provider that takes it ... */
  lemma UndisturbedIsSent(s: State, i: Id)
    requires i !in s.phases && s.Live() == None
    ensures var attempt := Apply(Apply(Apply(Apply(s, Arrive(i)), Claim(i)), Renew(i, true)), Attempt(i));
            var n := Apply(Apply(attempt, Answer(i, true)), Settle(i));
            && n.At(i, Over(Sent)) && n.messages == s.messages + [Message(i, s.clock)]
            && n.key == Some(Key(Done, s.clock + DONE_TTL)) && n.doneUntil == s.clock + DONE_TTL
    ensures var attempt := Apply(Apply(Apply(Apply(s, Arrive(i)), Claim(i)), Renew(i, true)), Attempt(i));
            var again := Apply(Apply(attempt, Answer(i, false)), Renew(i, true));
            again.At(i, Renewed) && again.Live() == Some(Processing(i))
  {
  }

  /** ... and for 24 hours after a success every request that arrives is told so. */
  lemma ThenAlreadySent(before: seq<Action>, i: Id)
    requires var s := Run(START, before); i !in s.phases && s.clock < s.doneUntil
    ensures var n := Apply(Apply(Apply(Run(START, before), Arrive(i)), Claim(i)), Look(i));
            n.At(i, Over(AlreadySent)) && n.key == Run(START, before).key
  {
    DoneStays(START, before);
  }

  /** The key is touched by no other step, and a message comes only from an attempt that was answered. */
  lemma NothingElseTouches(s: State, a: Action)
    ensures !a.Claim? && !a.Renew? && !a.Settle? && !a.Release? ==> Apply(s, a).key == s.key
    ensures Apply(s, a).messages ==
              if a.Answer? && a.ok && s.At(a.id, Attempting) then s.messages + [Message(a.id, s.clock)] else s.messages
  {
  }
}
