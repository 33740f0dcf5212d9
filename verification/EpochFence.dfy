/** The race between signing in and freezing or resetting an account (internal/service/auth.go, account.go,
    session.go, internal/store/epoch.go), for one user and any number of logins, token rotations and administrative
    actions, one step per database or Redis operation. */
module EpochFence {
  type Token = nat
  type Id = nat

  datatype Status = Active | Frozen

  /** completeLogin after the user snapshot `hash` was read ACTIVE. Password hashes are numbered in the order they are
      written; a bcrypt hash never repeats. */
  datatype Login =
    | Snapshot(hash: nat)                               // CanLogin passed
    | EpochRead(hash: nat, epoch: nat)                  // Issue: epochs.Current
    | Stored(hash: nat, epoch: nat, token: Token)       // Issue: store.Put
    | HandedOut(hash: nat, epoch: nat, token: Token)    // recheckLoginable passed
    | Refused

  /** Validate, up to its verdict, and the rotation it may go on to. */
  datatype Check =
    | Fetched(token: Token, stamp: nat)                 // store.Get
    | Passed(token: Token, stamp: nat)                  // epochs.Current equal
    | Rejected(token: Token)
    | Closed(token: Token)

  /** SetStatus(FROZEN) and ResetPassword: write, Bump, sweep. `written` is the number of the hash in force after the
      write. */
  datatype Kind = Freeze | Reset

  datatype Op =
    | Written(kind: Kind, hash: nat)
    | Bumped(kind: Kind, hash: nat, epoch: nat)

  /** What is known of a token ever stored: the epoch stamped into it and the password hash its login had seen. */
  datatype Stamp = Stamp(epoch: nat, hash: nat)

  datatype State = State(
    status: Status, hash: nat, epoch: nat,
    sessions: set<Token>,
    logins: map<Id, Login>, checks: map<Id, Check>, ops: map<Id, Op>,
    // history
    stamps: map<Token, Stamp>,
    handed: set<Token>)

  const START := State(Active, 0, 0, {}, map[], map[], map[], map[], {})

  datatype Action =
    | ReadUser(login: Id)
    | ReadEpoch(login: Id)
    | StoreSession(login: Id, token: Token)
    | Recheck(login: Id)
    | GetSession(check: Id, token: Token)
    | CompareEpoch(check: Id)
    | StoreRotated(check: Id, token: Token)             // tryRotate: the successor
    | PutBack(check: Id)                                // tryExtend, or tryRotate's second Put: the presented token
    | WriteFrozen(op: Id)
    | WritePassword(op: Id)
    | Bump(op: Id)
    | Kick                                              // RevokeUsersSessions: a bump with no write before it
    | Sweep(token: Token)                               // any deletion: a sweep, a logout, an expiry

  function Apply(s: State, a: Action): State {
    match a
    case ReadUser(i) =>
      if i in s.logins then s
      else s.(logins := s.logins[i := if s.status == Active then Snapshot(s.hash) else Refused])
    case ReadEpoch(i) =>
      if i !in s.logins || !s.logins[i].Snapshot? then s
      else s.(logins := s.logins[i := EpochRead(s.logins[i].hash, s.epoch)])
    case StoreSession(i, t) =>
      if i !in s.logins || !s.logins[i].EpochRead? || t in s.stamps then s
      else
        var l := s.logins[i];
        s.(sessions := s.sessions + {t}, stamps := s.stamps[t := Stamp(l.epoch, l.hash)],
           logins := s.logins[i := Stored(l.hash, l.epoch, t)])
    case Recheck(i) =>
      if i !in s.logins || !s.logins[i].Stored? then s
      else
        var l := s.logins[i];
        if s.status != Active || s.hash != l.hash then
          s.(sessions := s.sessions - {l.token}, logins := s.logins[i := Refused])
        else
          s.(handed := s.handed + {l.token}, logins := s.logins[i := HandedOut(l.hash, l.epoch, l.token)])
    case GetSession(i, t) =>
      // only a token that was handed out can be presented
      if i in s.checks || t !in s.handed then s
      else s.(checks := s.checks[i := if t in s.sessions && t in s.stamps then Fetched(t, s.stamps[t].epoch)
          else Rejected(t)])
    case CompareEpoch(i) =>
      if i !in s.checks || !s.checks[i].Fetched? then s
      else
        var c := s.checks[i];
        if c.stamp != s.epoch then s.(sessions := s.sessions - {c.token}, checks := s.checks[i := Rejected(c.token)])
        else s.(checks := s.checks[i := Passed(c.token, c.stamp)])
    case StoreRotated(i, t) =>
      if i !in s.checks || !s.checks[i].Passed? || t in s.stamps || s.checks[i].token !in s.stamps then s
      else
        var c := s.checks[i];
        s.(sessions := s.sessions + {t}, stamps := s.stamps[t := Stamp(c.stamp, s.stamps[c.token].hash)],
           handed := s.handed + {t}, checks := s.checks[i := Closed(c.token)])
    case PutBack(i) =>
      if i !in s.checks || !(s.checks[i].Passed? || s.checks[i].Closed?) then s
      else s.(sessions := s.sessions + {s.checks[i].token})
    case WriteFrozen(i) =>
      if i in s.ops then s else s.(status := Frozen, ops := s.ops[i := Written(Freeze, s.hash)])
    case WritePassword(i) =>
      if i in s.ops then s else s.(hash := s.hash + 1, ops := s.ops[i := Written(Reset, s.hash + 1)])
    case Bump(i) =>
      if i !in s.ops || !s.ops[i].Written? then s
      else s.(epoch := s.epoch + 1, ops := s.ops[i := Bumped(s.ops[i].kind, s.ops[i].hash, s.epoch + 1)])
    case Kick => s.(epoch := s.epoch + 1)
    case Sweep(t) => s.(sessions := s.sessions - {t})
  }

  function Run(s: State, actions: seq<Action>): State
    decreases |actions|
  {
    if actions == [] then s else Run(Apply(s, actions[0]), actions[1..])
  }

  // ----- What every interleaving keeps -----

  /** Logins whose snapshot an administrative action outdates: all of them for a freeze, those that saw an older
      password for a reset. */
  predicate Outdates(op: Op, hash: nat) {
    op.kind == Freeze || hash < op.hash
  }

  predicate LoginInv(s: State, i: Id) {
    i in s.logins ==>
      match s.logins[i]
      case Snapshot(h) => h <= s.hash
      case EpochRead(h, e) => h <= s.hash && e <= s.epoch
      case Stored(h, e, t) => t in s.stamps && s.stamps[t] == Stamp(e, h)
      case HandedOut(h, e, t) => t in s.handed && t in s.stamps && s.stamps[t] == Stamp(e, h)
      case Refused => true
  }

  predicate CheckInv(s: State, i: Id) {
    i in s.checks ==>
      var c := s.checks[i];
      && c.token in s.handed
      && (c.Fetched? || c.Passed? ==> c.token in s.stamps && c.stamp == s.stamps[c.token].epoch)
  }

  predicate TokenInv(s: State, t: Token) {
    && (t in s.stamps ==> s.stamps[t].epoch <= s.epoch && s.stamps[t].hash <= s.hash)
    && (t in s.handed ==> t in s.stamps)
    && (t in s.sessions ==> t in s.stamps)
  }

  predicate OpInv(s: State, i: Id) {
    i in s.ops ==>
      && s.ops[i].hash <= s.hash
      && (s.ops[i].kind == Freeze ==> s.status == Frozen)
      && (s.ops[i].Bumped? ==> s.ops[i].epoch <= s.epoch)
  }

  /** The fence: a handed-out token whose login an action outdates is stamped before that action's epoch. */
  predicate FenceInv(s: State, i: Id, t: Token) {
    i in s.ops && s.ops[i].Bumped? && t in s.handed && t in s.stamps && Outdates(s.ops[i], s.stamps[t].hash)
    ==> s.stamps[t].epoch < s.ops[i].epoch
  }

  ghost predicate Inv(s: State) {
    && (forall i :: LoginInv(s, i) && CheckInv(s, i) && OpInv(s, i))
    && (forall t :: TokenInv(s, t))
    && forall i, t :: FenceInv(s, i, t)
  }

  lemma StepKeepsLogin(s: State, a: Action, i: Id)
    requires Inv(s)
    ensures LoginInv(Apply(s, a), i)
  {
    assert LoginInv(s, i);
  }

  lemma StepKeepsCheck(s: State, a: Action, i: Id)
    requires Inv(s)
    ensures CheckInv(Apply(s, a), i)
  {
    assert CheckInv(s, i);
    if a.GetSession? { assert TokenInv(s, a.token); }
  }

  lemma StepKeepsOp(s: State, a: Action, i: Id)
    requires Inv(s)
    ensures OpInv(Apply(s, a), i)
  {
    assert OpInv(s, i);
  }

  lemma StepKeepsToken(s: State, a: Action, t: Token)
    requires Inv(s)
    ensures TokenInv(Apply(s, a), t)
  {
    assert TokenInv(s, t);
    match a
    case StoreSession(j, _) => assert LoginInv(s, j);
    case Recheck(j) => assert LoginInv(s, j);
    case StoreRotated(j, _) =>
      if j in s.checks && s.checks[j].Passed? {
        assert CheckInv(s, j);
        assert TokenInv(s, s.checks[j].token);
      }
    case PutBack(j) =>
      if j in s.checks {
        assert CheckInv(s, j);
        assert TokenInv(s, s.checks[j].token);
      }
    case _ =>
  }

  lemma StepKeepsFence(s: State, a: Action, i: Id, t: Token)
    requires Inv(s)
    ensures FenceInv(Apply(s, a), i, t)
  {
    assert FenceInv(s, i, t) && OpInv(s, i) && TokenInv(s, t);
    match a
    case Recheck(j) =>
      // a recheck that passes saw an active account and the login's own hash: nothing outdates it
      assert LoginInv(s, j);
    case StoreRotated(j, u) =>
      if j in s.checks && s.checks[j].Passed? {
        assert CheckInv(s, j);
        assert FenceInv(s, i, s.checks[j].token);
      }
    case StoreSession(j, u) => assert TokenInv(s, u);
    case _ =>
  }

  lemma StepKeepsInv(s: State, a: Action)
    requires Inv(s)
    ensures Inv(Apply(s, a))
  {
    forall i ensures LoginInv(Apply(s, a), i) && CheckInv(Apply(s, a), i) && OpInv(Apply(s, a), i) {
      StepKeepsLogin(s, a, i);
      StepKeepsCheck(s, a, i);
      StepKeepsOp(s, a, i);
    }
    forall t ensures TokenInv(Apply(s, a), t) {
      StepKeepsToken(s, a, t);
    }
    forall i, t ensures FenceInv(Apply(s, a), i, t) {
      StepKeepsFence(s, a, i, t);
    }
  }

  lemma {:induction false} RunKeepsInv(s: State, actions: seq<Action>)
    requires Inv(s)
    ensures Inv(Run(s, actions))
    decreases |actions|
  {
    if actions == [] {
    } else {
      StepKeepsInv(s, actions[0]);
      RunKeepsInv(Apply(s, actions[0]), actions[1..]);
    }
  }

  // ----- The fence -----

  /** What the epoch comparison does, in every run: an equal stamp lets the check through and touches nothing else; any
      other stamp ends it and deletes the presented token, nothing else. */
  lemma ComparedExactly(actions: seq<Action>, check: Id)
    requires check in Run(START, actions).checks && Run(START, actions).checks[check].Fetched?
    ensures var s := Run(START, actions);
            s.checks[check].token in s.stamps
    ensures var s := Run(START, actions);
            var t := s.checks[check].token;
            s.stamps[t].epoch == s.epoch ==>
              Apply(s, CompareEpoch(check)) == s.(checks := s.checks[check := Passed(t, s.epoch)])
    ensures var s := Run(START, actions);
            var t := s.checks[check].token;
            s.stamps[t].epoch != s.epoch ==> TurnedAway(s, Apply(s, CompareEpoch(check)), check)
  {
    RunKeepsInv(START, actions);
    assert CheckInv(Run(START, actions), check);
  }

  /** From s to n the check was rejected and its token deleted, and nothing else happened. */
  ghost predicate TurnedAway(s: State, n: State, check: Id) {
    && check in s.checks && check in n.checks && n.checks[check] == Rejected(s.checks[check].token)
    && s.checks[check].token !in n.sessions
    && n == s.(checks := n.checks, sessions := n.sessions)
    && (forall i :: i != check ==> (i in n.checks <==> i in s.checks) && (i in s.checks ==> n.checks[i] == s.checks[i]))
    && (forall t :: t != s.checks[check].token ==> (t in n.sessions <==> t in s.sessions))
  }

  /** A rejected check stays rejected, and none of its steps does anything. */
  lemma {:induction false} RejectedForGood(s: State, rest: seq<Action>, check: Id, t: Token)
    requires check in s.checks && s.checks[check].Rejected?
    ensures var n := Run(s, rest);
            && check in n.checks && n.checks[check] == s.checks[check] && Apply(n, CompareEpoch(check)) == n
            && Apply(n, StoreRotated(check, t)) == n && Apply(n, PutBack(check)) == n
    decreases |rest|
  {
    if rest == [] {
    } else {
      RejectedStays(s, rest[0], check);
      RejectedForGood(Apply(s, rest[0]), rest[1..], check, t);
    }
  }

  lemma RejectedStays(s: State, a: Action, check: Id)
    requires check in s.checks && s.checks[check].Rejected?
    ensures var n := Apply(s, a); check in n.checks && n.checks[check] == s.checks[check]
  {
  }

  /** A token comes into the store only from a login, or from a check that passed the epoch comparison, which puts its
      own token back or stores a successor nobody had before. */
  lemma StoredOnlyByPassed(actions: seq<Action>, a: Action, t: Token)
    ensures var s := Run(START, actions);
            t !in s.sessions && t in Apply(s, a).sessions ==>
              match a
              case StoreSession(i, u) => u == t && t !in s.stamps && i in s.logins && s.logins[i].EpochRead?
              case StoreRotated(i, u) => u == t && t !in s.stamps && i in s.checks && s.checks[i].Passed?
              case PutBack(i) => i in s.checks && s.checks[i].token == t && (s.checks[i].Passed? || s.checks[i].Closed?)
              case _ => false
  {
  }

  /** A token leaves the store only by a deletion of its own, or because its check or its login's recheck turns it
      away. */
  lemma RemovedOnlyWhenTurnedAway(actions: seq<Action>, a: Action, t: Token)
    ensures var s := Run(START, actions);
            t in s.sessions && t !in Apply(s, a).sessions ==>
              match a
              case Sweep(u) => u == t
              case CompareEpoch(i) =>
                i in s.checks && s.checks[i].token == t && t in s.stamps && s.stamps[t].epoch != s.epoch
              case Recheck(i) =>
                && i in s.logins && s.logins[i].Stored? && s.logins[i].token == t
                && (s.status == Frozen || s.logins[i].hash < s.hash)
              case _ => false
  {
    RunKeepsInv(START, actions);
    var s := Run(START, actions);
    match a
    case CompareEpoch(i) => assert CheckInv(s, i);
    case Recheck(i) => assert LoginInv(s, i) && TokenInv(s, t);
    case _ =>
  }

  /** Only a freeze changes the status, only a reset the hash, and only a bump the epoch. */
  lemma OnlyItsOwnOperation(s: State, a: Action)
    ensures var n := Apply(s, a);
            && n.status == (if a.WriteFrozen? && a.op !in s.ops then Frozen else s.status)
            && n.hash == (if a.WritePassword? && a.op !in s.ops then s.hash + 1 else s.hash)
            && n.epoch == (if IsBump(s, a) then s.epoch + 1 else s.epoch)
  {
  }

  /** Once a freeze has bumped the epoch, every token ever handed out, before or after, by login or rotation, is turned
      away by the epoch comparison of every Validate that has not made it yet, whenever it fetched the session, and that
      Validate never stores anything. The same holds after a password reset for the tokens that go back to a login whose
      snapshot preceded the write. */
  lemma FenceHolds(actions: seq<Action>, check: Id, op: Id, rest: seq<Action>)
    requires var s := Run(START, actions);
             op in s.ops && s.ops[op].Bumped? && check in s.checks && s.checks[check].Fetched?
    ensures var s := Run(START, actions);
            var t := s.checks[check].token;
            t in s.stamps && (Outdates(s.ops[op], s.stamps[t].hash) ==> NeverPasses(s, check, rest))
  {
    RunKeepsInv(START, actions);
    var s := Run(START, actions);
    assert CheckInv(s, check) && OpInv(s, op);
    assert FenceInv(s, op, s.checks[check].token);
    if s.stamps[s.checks[check].token].epoch < s.epoch {
      StaleNeverPasses(actions, check, rest);
    }
  }

  /** The comparison turns the check away, and whatever happens then it stays away. */
  ghost predicate NeverPasses(s: State, check: Id, rest: seq<Action>)
    requires check in s.checks
  {
    var n := Apply(s, CompareEpoch(check));
    && TurnedAway(s, n, check)
    && check in Run(n, rest).checks && Run(n, rest).checks[check] == Rejected(s.checks[check].token)
  }

  /** The same for any check whose token carries an epoch that is over. */
  lemma StaleNeverPasses(actions: seq<Action>, check: Id, rest: seq<Action>)
    requires check in Run(START, actions).checks && Run(START, actions).checks[check].Fetched?
    requires var s := Run(START, actions);
             var t := s.checks[check].token; t in s.stamps && s.stamps[t].epoch != s.epoch
    ensures NeverPasses(Run(START, actions), check, rest)
  {
    var s := Run(START, actions);
    ComparedExactly(actions, check);
    RejectedForGood(Apply(s, CompareEpoch(check)), rest, check, 0);
  }

  predicate IsBump(s: State, a: Action) {
    a == Kick || (a.Bump? && a.op in s.ops && s.ops[a.op].Written?)
  }

  /** A kick (or any other bump) refuses every token already stamped, including one not yet handed out ... */
  lemma BumpRefusesWhatIsStamped(
      before: seq<Action>, after: seq<Action>, t: Token, a: Action, check: Id, rest: seq<Action>)
    requires t in Run(START, before).stamps && IsBump(Run(START, before), a)
    ensures var s := Run(Apply(Run(START, before), a), after);
            && t in s.stamps && s.stamps[t].epoch < s.epoch
            && (check in s.checks && s.checks[check].Fetched? && s.checks[check].token == t ==>
                  NeverPasses(s, check, rest))
  {
    RunKeepsInv(START, before);
    var s := Run(START, before);
    assert TokenInv(s, t);
    StampsStay(Apply(s, a), after, t);
    RunsJoin(START, before, [a] + after);
    assert ([a] + after)[1..] == after;
    var n := Run(START, before + ([a] + after));
    if check in n.checks && n.checks[check].Fetched? && n.checks[check].token == t {
      StaleNeverPasses(before + ([a] + after), check, rest);
    }
  }

  /** ... and one that is not even stored yet: a login that has read its epoch by then stamps the old one. */
  lemma BumpRefusesLoginsUnderWay(
      before: seq<Action>, after: seq<Action>, login: Id, a: Action, check: Id, rest: seq<Action>)
    requires login in Run(START, before).logins && Run(START, before).logins[login].EpochRead?
    requires IsBump(Run(START, before), a)
    ensures var s := Run(Apply(Run(START, before), a), after);
            login in s.logins && (s.logins[login].Stored? || s.logins[login].HandedOut?) ==>
              var t := s.logins[login].token;
              && t in s.stamps && s.stamps[t].epoch < s.epoch
              && (check in s.checks && s.checks[check].Fetched? && s.checks[check].token == t ==>
                    NeverPasses(s, check, rest))
  {
    RunKeepsInv(START, before);
    var s0 := Run(START, before);
    assert LoginInv(s0, login);
    var s1 := Apply(s0, a);
    StepKeepsInv(s0, a);
    LoginKeepsEpoch(s1, after, login);
    RunKeepsInv(s1, after);
    assert LoginInv(Run(s1, after), login);
    RunsJoin(START, before, [a] + after);
    assert ([a] + after)[1..] == after;
    var n := Run(START, before + ([a] + after));
    if check in n.checks && n.checks[check].Fetched? && n.checks[check].token in n.stamps
       && n.stamps[n.checks[check].token].epoch != n.epoch {
      StaleNeverPasses(before + ([a] + after), check, rest);
    }
  }

  lemma {:induction false} RunsJoin(s: State, first: seq<Action>, rest: seq<Action>)
    ensures Run(s, first + rest) == Run(Run(s, first), rest)
    decreases |first|
  {
    if first == [] {
      assert first + rest == rest;
    } else {
      assert (first + rest)[0] == first[0] && (first + rest)[1..] == first[1..] + rest;
      RunsJoin(Apply(s, first[0]), first[1..], rest);
    }
  }

  // ----- And nobody else is kept out -----

  /** A login of an active account that nothing interferes with hands out its token, stored under the current epoch,
      ... */
  lemma UndisturbedLogin(actions: seq<Action>, login: Id, t: Token)
    requires var s := Run(START, actions); s.status == Active && login !in s.logins && t !in s.stamps
    ensures var s := Run(START, actions);
            var r := Apply(Apply(s, ReadUser(login)), ReadEpoch(login));
            var n := Apply(Apply(r, StoreSession(login, t)), Recheck(login));
            && t in n.sessions && t in n.handed && t in n.stamps && n.stamps[t] == Stamp(s.epoch, s.hash)
            && n.epoch == s.epoch && n.checks == s.checks
  {
  }

  /** ... a stored token that was handed out under the current epoch passes every Validate that nothing interferes with,
      and a rotation then stores and hands out the successor under the same stamp. */
  lemma UndisturbedCheck(actions: seq<Action>, check: Id, t: Token, successor: Token)
    requires var s := Run(START, actions);
             && check !in s.checks && t in s.sessions && t in s.handed && t in s.stamps && s.stamps[t].epoch == s.epoch
             && successor !in s.stamps
    ensures var n := Apply(Apply(Run(START, actions), GetSession(check, t)), CompareEpoch(check));
            && check in n.checks && n.checks[check].Passed? && n.checks[check].token == t
            && n.sessions == Run(START, actions).sessions
    ensures var s := Run(START, actions);
            var m := Apply(Apply(Apply(s, GetSession(check, t)), CompareEpoch(check)), StoreRotated(check, successor));
            && successor in m.sessions && successor in m.handed
            && successor in m.stamps && m.stamps[successor] == s.stamps[t] && t in m.sessions
  {
  }

  /** The recheck hands the token out exactly if the account is still active with the password the login had seen;
      otherwise it deletes the token. */
  lemma RecheckExactly(s: State, login: Id)
    requires login in s.logins && s.logins[login].Stored?
    ensures var n, t := Apply(s, Recheck(login)), s.logins[login].token;
            && (s.status == Active && s.hash == s.logins[login].hash ==>
                  t in n.handed && n.sessions == s.sessions && n.logins[login].HandedOut?)
            && (s.status == Frozen || s.hash != s.logins[login].hash ==>
                  n.handed == s.handed && t !in n.sessions && n.logins[login].Refused?)
  {
  }

  /** Past its epoch read a login keeps what it read until it ends. */
  predicate KeepsEpoch(before: Login, after: Login) {
    after.Refused? || (!after.Snapshot? && !before.Snapshot? && !before.Refused? && after.epoch == before.epoch)
  }

  lemma StepKeepsEpoch(s: State, a: Action, i: Id)
    requires i in s.logins && !s.logins[i].Snapshot?
    ensures var n := Apply(s, a); s.epoch <= n.epoch && i in n.logins && KeepsEpoch(s.logins[i], n.logins[i])
  {
  }

  lemma {:induction false} LoginKeepsEpoch(s: State, actions: seq<Action>, i: Id)
    requires i in s.logins && !s.logins[i].Snapshot?
    ensures var n := Run(s, actions); s.epoch <= n.epoch && i in n.logins && KeepsEpoch(s.logins[i], n.logins[i])
    decreases |actions|
  {
    if actions == [] {
    } else {
      StepKeepsEpoch(s, actions[0], i);
      LoginKeepsEpoch(Apply(s, actions[0]), actions[1..], i);
    }
  }

  lemma {:induction false} StampsStay(s: State, actions: seq<Action>, t: Token)
    requires t in s.stamps
    ensures var s' := Run(s, actions); t in s'.stamps && s'.stamps[t] == s.stamps[t] && s.epoch <= s'.epoch
    decreases |actions|
  {
    if actions == [] {
    } else {
      StampsStay(Apply(s, actions[0]), actions[1..], t);
    }
  }

  /** A rotation carries the epoch and the login's snapshot over: it cannot launder a stamp. */
  lemma RotationInheritsStamp(actions: seq<Action>, check: Id, t: Token)
    ensures var s := Run(START, actions);
            var s' := Apply(s, StoreRotated(check, t));
            t !in s.stamps && t in s'.stamps ==> s'.stamps[t] == s.stamps[s.checks[check].token]
  {
    RunKeepsInv(START, actions);
    assert CheckInv(Run(START, actions), check);
  }

  /** The order write, bump is what closes the race: with a bump before the write instead, a login reads the new
      epoch, passes its recheck before the write, and validates on a frozen account. */
  lemma BumpBeforeWriteWouldLeak()
    ensures var s1 := Apply(Apply(Apply(START, ReadUser(1)), Kick), ReadEpoch(1));
            var s2 := Apply(Apply(Apply(s1, StoreSession(1, 7)), Recheck(1)), WriteFrozen(2));
            var s3 := Apply(s2, GetSession(3, 7));
            var s4 := Apply(s3, CompareEpoch(3));
            s4.status == Frozen && s4.epoch == 1 && 7 in s4.sessions && 3 in s4.checks && s4.checks[3] == Passed(7, 1)
  {
    var s1 := Apply(Apply(Apply(START, ReadUser(1)), Kick), ReadEpoch(1));
    assert s1 == State(Active, 0, 1, {}, map[1 := EpochRead(0, 1)], map[], map[], map[], {});
    var r := Apply(Apply(s1, StoreSession(1, 7)), Recheck(1));
    assert r == State(Active, 0, 1, {7}, map[1 := HandedOut(0, 1, 7)], map[], map[], map[7 := Stamp(1, 0)], {7});
    var s2 := Apply(r, WriteFrozen(2));
    assert s2.sessions == {7} && s2.handed == {7} && s2.checks == map[] && s2.stamps == map[7 := Stamp(1, 0)];
    assert Apply(s2, GetSession(3, 7)) == s2.(checks := map[3 := Fetched(7, 1)]);
  }
}
