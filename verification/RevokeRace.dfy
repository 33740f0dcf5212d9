/** Revoking one session while validations of it are under way (internal/service/session.go, Validate, tryExtend,
    tryRotate; Revoke and RevokeSession bump no epoch). One step per store call or clock reading. A validation that
    fetched the session before it was deleted can store it again; here is exactly when. */
module RevokeRace {
  import opened Wrappers
  import opened SessionPolicy
  import opened Sessions

  type Id = nat

  /** Validate and what it may go on to. The clock is read after the epoch comparison. */
  datatype Check =
    | Fetched(session: Session)                                   // store.Get
    | Compared(session: Session)                                  // epochs.Current equal
    | Due(session: Session, now: int, rotate: bool)               // rotation or extension is due, lock not tried
    | Extending(session: Session, now: int)                       // has the extension lock
    | Rotating(session: Session, now: int, spare: Token)          // has the rotation lock
    | Superseding(session: Session, now: int)                     // has stored the successor
    | Ended(accepted: bool)                                       // with which verdict

  datatype State = State(
    clock: int, epoch: nat, sessions: map<Token, Cell<Session>>,
    rotLocks: map<nat, int>, extLocks: map<Token, int>, checks: map<Id, Check>)

  datatype Action =
    | Tick(d: nat)
    | Fetch(check: Id, token: Token)
    | Compare(check: Id)
    | ReadClock(check: Id)
    | TryLock(check: Id, spare: Token)
    | Store(check: Id)                 // the next Put of an extension or rotation
    | Delete(token: Token)             // a sweep
    | Bump

  function Until(locks: map<nat, int>, k: nat, clock: int): int {
    if k in locks && clock < locks[k] then locks[k] else clock
  }

  function Apply(s: State, p: Policy, a: Action): State {
    match a
    case Tick(d) => s.(clock := s.clock + d)
    case Fetch(i, t) =>
      if i in s.checks then s
      else
        var found := Read(s.sessions, t, s.clock);
        s.(checks := s.checks[i := match found case None => Ended(false) case Some(z) => Fetched(z)])
    case Compare(i) =>
      if i !in s.checks || !s.checks[i].Fetched? then s
      else if s.checks[i].session.epoch == s.epoch then s.(checks := s.checks[i := Compared(s.checks[i].session)])
      else s.(checks := s.checks[i := Ended(false)], sessions := s.sessions - {s.checks[i].session.token})
    case ReadClock(i) =>
      if i !in s.checks || !s.checks[i].Compared? then s
      else s.(checks := s.checks[i := AfterClock(s.checks[i].session, p, s.clock)])
    case TryLock(i, spare) => if i in s.checks && s.checks[i].Due? then Locking(s, p, i, s.checks[i], spare) else s
    case Store(i) => if i in s.checks then Storing(s, p, i, s.checks[i]) else s
    case Delete(t) => s.(sessions := s.sessions - {t})
    case Bump => s.(epoch := s.epoch + 1)
  }

  function AfterClock(z: Session, p: Policy, now: int): Check {
    if z.RemainingAt(now, p) <= 0 then Ended(false)
    else if now - z.issuedAt >= p.rotateInterval * 1000 then Due(z, now, true)
    else if now - z.lastExtendedAt >= p.extendInterval * 1000 then Due(z, now, false)
    else Ended(true)
  }

  /** SETNX of the lock; the loser writes nothing. */
  function Locking(s: State, p: Policy, i: Id, c: Check, spare: Token): State
    requires c.Due?
  {
    if c.rotate then
      if Locked(s.rotLocks, c.session.id, s.clock) then s.(checks := s.checks[i := Ended(true)])
      else s.(rotLocks := s.rotLocks[c.session.id := s.clock + Grace(p)], checks := s.checks[i := Rotating(c.session,
          c.now, spare)])
    else if Locked(s.extLocks, c.session.token, s.clock) then s.(checks := s.checks[i := Ended(true)])
    else s.(extLocks := s.extLocks[c.session.token := s.clock + EXTEND_LOCK_TTL],
        checks := s.checks[i := Extending(c.session, c.now)])
  }

  /** What a check stores next, and with which ttl. */
  function Written(c: Check, p: Policy): Session
    requires c.Extending? || c.Rotating? || c.Superseding?
  {
    match c
    case Extending(z, now) => Extended(z, p, now)
    case Rotating(z, now, spare) => Successor(z, p, now, spare)
    case Superseding(z, now) => Superseded(z, p, now)
  }

  function Ttl(c: Check, p: Policy): int
    requires c.Extending? || c.Rotating? || c.Superseding?
  {
    if c.Superseding? then Grace(p) else Written(c, p).RemainingAt(c.now, p)
  }

  function Storing(s: State, p: Policy, i: Id, c: Check): State {
    if !c.Extending? && !c.Rotating? && !c.Superseding? then s
    else if Ttl(c, p) <= 0 then s.(checks := s.checks[i := Ended(false)])
    else s.(sessions := s.sessions[Written(c, p).token := Cell(Written(c, p), s.clock + Ttl(c, p))],
            checks := s.checks[i := if c.Rotating? then Superseding(c.session, c.now) else Ended(true)])
  }

  function Run(s: State, p: Policy, actions: seq<Action>): State
    decreases |actions|
  {
    if actions == [] then s else Run(Apply(s, p, actions[0]), p, actions[1..])
  }

  // ----- What can still validate -----

  /** A Validate of this token that runs now, undisturbed, accepts it. */
  predicate Validates(s: State, p: Policy, t: Token) {
    && t in s.sessions && s.clock < s.sessions[t].expiry
    && s.sessions[t].value.epoch == s.epoch && s.clock < s.sessions[t].value.ExpiresAt(p)
  }

  /** And that is what the steps do: fetched, compared, clocked and, if due, locked and stored without pause, a check
      ends accepted exactly then. */
  lemma ValidatesIsTheSteps(s: State, p: Policy, t: Token, i: Id, spare: Token)
    requires p.Valid() && i !in s.checks
    ensures var c := Apply(Apply(Apply(s, p, Fetch(i, t)), p, Compare(i)), p, ReadClock(i));
            var n := Apply(Apply(Apply(c, p, TryLock(i, spare)), p, Store(i)), p, Store(i));
            i in n.checks && n.checks[i].Ended? && (n.checks[i].accepted <==> Validates(s, p, t))
  {
    var c := Apply(Apply(Apply(s, p, Fetch(i, t)), p, Compare(i)), p, ReadClock(i));
    VerdictOrDue(s, p, t, i);
    if c.checks[i].Due? { DueEndsAccepted(c, p, i, spare); }
  }

  lemma VerdictOrDue(s: State, p: Policy, t: Token, i: Id)
    requires i !in s.checks
    ensures var c := Apply(Apply(Apply(s, p, Fetch(i, t)), p, Compare(i)), p, ReadClock(i));
            && i in c.checks && c.clock == s.clock
            && (if Validates(s, p, t) then
                  || c.checks[i] == Ended(true)
                  || (c.checks[i].Due? && c.checks[i].now == s.clock < c.checks[i].session.MaxExpiresAt(p))
                else c.checks[i] == Ended(false))
  {
    var f := Apply(s, p, Fetch(i, t));
    assert f.clock == s.clock && f.epoch == s.epoch && f.sessions == s.sessions;
    var g := Apply(f, p, Compare(i));
    assert g.clock == s.clock;
    assert g.checks[i] == if t in s.sessions && s.clock < s.sessions[t].expiry && s.sessions[t].value.epoch == s.epoch
                          then Compared(s.sessions[t].value) else Ended(false);
  }

  lemma DueEndsAccepted(c: State, p: Policy, i: Id, spare: Token)
    requires p.Valid() && i in c.checks && c.checks[i].Due? && c.checks[i].now < c.checks[i].session.MaxExpiresAt(p)
    ensures var n := Apply(Apply(Apply(c, p, TryLock(i, spare)), p, Store(i)), p, Store(i));
            i in n.checks && n.checks[i] == Ended(true)
  {
    var m := Apply(c, p, TryLock(i, spare));
    assert m.checks[i].Extending? || m.checks[i].Rotating? ==> Ttl(m.checks[i], p) > 0;
    var k := Apply(m, p, Store(i));
    assert k.checks[i] == Ended(true) || (k.checks[i].Superseding? && Ttl(k.checks[i], p) > 0);
  }

  /** Some token of session x validates. */
  ghost predicate Usable(s: State, p: Policy, x: nat) {
    exists t :: t in s.sessions && s.sessions[t].value.id == x && Validates(s, p, t)
  }

  /** In some continuation a token of x validates. */
  ghost predicate Revivable(s: State, p: Policy, x: nat) {
    exists rest :: Usable(Run(s, p, rest), p, x)
  }

  function Max(a: int, b: int): int {
    if a < b then b else a
  }

  function Min(a: int, b: int): int {
    if a < b then a else b
  }

  /** The latest instant from which a session just written under the reading `now` no longer validates. */
  function Reach(z: Session, p: Policy, now: int, rotate: bool): int {
    Min(z.MaxExpiresAt(p), now + if rotate then Max(p.IdleFor(z.mobile), Grace(p)) else p.IdleFor(z.mobile))
  }

  /** The rotation or extension lock is free at some instant at which what is then written under `now` still counts. */
  predicate InTime(s: State, z: Session, p: Policy, now: int, rotate: bool) {
    (if rotate then Until(s.rotLocks, z.id, s.clock)
        else Until(s.extLocks, z.token, s.clock)) < Reach(z, p, now, rotate)
  }

  /** The last instant at which this session can be read as due. */
  function LastDue(z: Session, p: Policy, rotate: bool): int {
    if rotate then z.ExpiresAt(p) - 1 else Min(z.ExpiresAt(p), z.issuedAt + p.rotateInterval * 1000) - 1
  }

  function FirstDue(z: Session, p: Policy, rotate: bool): int {
    if rotate then z.issuedAt + p.rotateInterval * 1000 else z.lastExtendedAt + p.extendInterval * 1000
  }

  /** The clock can still be read at an instant at which the session is due, and the lock got in time after it. */
  predicate WillBeDue(s: State, z: Session, p: Policy, rotate: bool) {
    && Max(s.clock, FirstDue(z, p, rotate)) <= LastDue(z, p, rotate)
    && InTime(s, z, p, LastDue(z, p, rotate), rotate)
  }

  /** This check can still store a token that validates. */
  predicate Able(s: State, p: Policy, c: Check) {
    match c
    case Fetched(z) => z.epoch == s.epoch && (WillBeDue(s, z, p, true) || WillBeDue(s, z, p, false))
    case Compared(z) => z.epoch == s.epoch && (WillBeDue(s, z, p, true) || WillBeDue(s, z, p, false))
    case Due(z, now, rotate) => z.epoch == s.epoch && now < z.MaxExpiresAt(p) && InTime(s, z, p, now, rotate)
    case Extending(z, now) => z.epoch == s.epoch && now < z.MaxExpiresAt(p) && s.clock < Reach(z, p, now, false)
    case Rotating(z, now, _) => z.epoch == s.epoch && now < z.MaxExpiresAt(p) && s.clock < Reach(z, p, now, true)
    case Superseding(z, now) => z.epoch == s.epoch && s.clock < Min(z.MaxExpiresAt(p), now + Grace(p))
    case Ended(_) => false
  }

  ghost predicate Source(s: State, p: Policy, x: nat) {
    || Usable(s, p, x)
    || exists i :: i in s.checks && !s.checks[i].Ended? && s.checks[i].session.id == x && Able(s, p, s.checks[i])
  }

  /** No session carries an epoch still to come. */
  ghost predicate Sane(s: State) {
    && (forall t :: t in s.sessions ==> s.sessions[t].value.epoch <= s.epoch)
    && (forall i :: i in s.checks && !s.checks[i].Ended? ==> s.checks[i].session.epoch <= s.epoch)
  }

  lemma StepKeepsSane(s: State, p: Policy, a: Action)
    requires Sane(s)
    ensures Sane(Apply(s, p, a))
  {
  }

  // ----- Without a source nothing comes back -----

  /** As long as the lock is not free in time, later is no better. */
  lemma StepWithoutStored(s: State, p: Policy, a: Action, x: nat)
    requires p.Valid() && Sane(s) && !Source(s, p, x)
    ensures !Usable(Apply(s, p, a), p, x)
  {
    var n := Apply(s, p, a);
    forall t | t in n.sessions && n.sessions[t].value.id == x ensures !Validates(n, p, t) {
      if a.Store? && a.check in s.checks {
        StoresNothingUsable(s, p, a.check, x, t);
      } else {
        assert t in s.sessions && n.sessions[t] == s.sessions[t];
        assert !Validates(s, p, t);
      }
    }
  }

  lemma StoresNothingUsable(s: State, p: Policy, i: Id, x: nat, t: Token)
    requires p.Valid() && !Source(s, p, x) && i in s.checks
    ensures var n := Apply(s, p, Store(i)); t in n.sessions && n.sessions[t].value.id == x ==> !Validates(n, p, t)
  {
    var c := s.checks[i];
    if !c.Ended? && c.session.id == x { assert !Able(s, p, c); }
    if t in s.sessions && s.sessions[t].value.id == x { assert !Validates(s, p, t); }
  }

  /** Later is no better: the clock, the epoch and the locks only move on. */
  predicate Later(s: State, n: State, z: Session) {
    && s.clock <= n.clock && s.epoch <= n.epoch
    && Until(s.rotLocks, z.id, s.clock) <= Until(n.rotLocks, z.id, n.clock)
    && Until(s.extLocks, z.token, s.clock) <= Until(n.extLocks, z.token, n.clock)
  }

  lemma StepIsLater(s: State, p: Policy, a: Action, z: Session)
    requires p.Valid()
    ensures Later(s, Apply(s, p, a), z)
  {
  }

  lemma AbleEarlier(s: State, n: State, p: Policy, c: Check)
    requires !c.Ended? && Later(s, n, c.session) && c.session.epoch <= s.epoch && Able(n, p, c)
    ensures Able(s, p, c)
  {
  }

  /** What a check becomes was possible before, or it has just fetched a session that validates. */
  lemma StepWithoutAble(s: State, p: Policy, a: Action, x: nat, i: Id)
    requires p.Valid() && Sane(s) && !Source(s, p, x)
    ensures Unable(Apply(s, p, a), p, i, x)
  {
    if IsStepOf(a, i) {
      OwnStepUnable(s, p, a, x, i);
    } else {
      StillUnable(s, p, a, x, i);
    }
  }

  predicate IsStepOf(a: Action, i: Id) {
    (a.Fetch? || a.Compare? || a.ReadClock? || a.TryLock? || a.Store?) && a.check == i
  }

  lemma OwnStepUnable(s: State, p: Policy, a: Action, x: nat, i: Id)
    requires p.Valid() && Sane(s) && !Source(s, p, x) && IsStepOf(a, i)
    ensures Unable(Apply(s, p, a), p, i, x)
  {
    match a
    case Fetch(_, t) => FetchedUnusable(s, p, i, t, x);
    case Compare(_) => ComparedUnable(s, p, i, x);
    case ReadClock(_) => ReadUnable(s, p, i, x);
    case TryLock(_, spare) => LockedUnable(s, p, i, spare, x);
    case Store(_) => StoredUnable(s, p, i, x);
  }

  /** The check has nothing that counts to go on with. */
  ghost predicate Unable(n: State, p: Policy, i: Id, x: nat) {
    i in n.checks && !n.checks[i].Ended? && n.checks[i].session.id == x ==> !Able(n, p, n.checks[i])
  }

  lemma Untouched(s: State, p: Policy, a: Action, i: Id)
    requires !IsStepOf(a, i)
    ensures var n := Apply(s, p, a); (i in n.checks <==> i in s.checks) && (i in s.checks ==>
        n.checks[i] == s.checks[i])
  {
  }

  lemma StillUnable(s: State, p: Policy, a: Action, x: nat, i: Id)
    requires p.Valid() && Sane(s) && !Source(s, p, x) && !IsStepOf(a, i)
    ensures Unable(Apply(s, p, a), p, i, x)
  {
    var n := Apply(s, p, a);
    Untouched(s, p, a, i);
    if i in n.checks && !n.checks[i].Ended? && n.checks[i].session.id == x {
      var c := n.checks[i];
      assert !Able(s, p, c);
      StepIsLater(s, p, a, c.session);
      if Able(n, p, c) { AbleEarlier(s, n, p, c); }
    }
  }

  lemma FetchedUnusable(s: State, p: Policy, i: Id, t: Token, x: nat)
    requires !Source(s, p, x)
    ensures Unable(Apply(s, p, Fetch(i, t)), p, i, x)
  {
    if i in s.checks && !s.checks[i].Ended? && s.checks[i].session.id == x { assert !Able(s, p, s.checks[i]); }
    if t in s.sessions && s.sessions[t].value.id == x { assert !Validates(s, p, t); }
  }

  lemma ComparedUnable(s: State, p: Policy, i: Id, x: nat)
    requires !Source(s, p, x)
    ensures Unable(Apply(s, p, Compare(i)), p, i, x)
  {
    if i in s.checks && !s.checks[i].Ended? && s.checks[i].session.id == x { assert !Able(s, p, s.checks[i]); }
  }

  lemma ReadUnable(s: State, p: Policy, i: Id, x: nat)
    requires p.Valid() && !Source(s, p, x)
    ensures Unable(Apply(s, p, ReadClock(i)), p, i, x)
  {
    if i in s.checks && !s.checks[i].Ended? && s.checks[i].session.id == x {
      assert !Able(s, p, s.checks[i]);
      var z := s.checks[i].session;
      ReachGrows(z, p, s.clock, LastDue(z, p, true), true);
      ReachGrows(z, p, s.clock, LastDue(z, p, false), false);
    }
  }

  lemma ReachGrows(z: Session, p: Policy, now: int, later: int, rotate: bool)
    ensures now <= later ==> Reach(z, p, now, rotate) <= Reach(z, p, later, rotate)
  {
  }

  lemma LockedUnable(s: State, p: Policy, i: Id, spare: Token, x: nat)
    requires !Source(s, p, x)
    ensures Unable(Apply(s, p, TryLock(i, spare)), p, i, x)
  {
    if i in s.checks && !s.checks[i].Ended? && s.checks[i].session.id == x { assert !Able(s, p, s.checks[i]); }
  }

  lemma StoredUnable(s: State, p: Policy, i: Id, x: nat)
    requires p.Valid() && !Source(s, p, x)
    ensures Unable(Apply(s, p, Store(i)), p, i, x)
  {
    if i in s.checks && !s.checks[i].Ended? && s.checks[i].session.id == x { assert !Able(s, p, s.checks[i]); }
  }

  lemma StepWithoutSource(s: State, p: Policy, a: Action, x: nat)
    requires p.Valid() && Sane(s) && !Source(s, p, x)
    ensures Sane(Apply(s, p, a)) && !Source(Apply(s, p, a), p, x)
  {
    var n := Apply(s, p, a);
    StepKeepsSane(s, p, a);
    StepWithoutStored(s, p, a, x);
    if i :| i in n.checks && !n.checks[i].Ended? && n.checks[i].session.id == x && Able(n, p, n.checks[i]) {
      StepWithoutAble(s, p, a, x, i);
      assert false;
    }
  }

  lemma {:induction false} RunWithoutSource(s: State, p: Policy, rest: seq<Action>, x: nat)
    requires p.Valid() && Sane(s) && !Source(s, p, x)
    ensures !Source(Run(s, p, rest), p, x)
    decreases |rest|
  {
    if rest == [] {
    } else {
      StepWithoutSource(s, p, rest[0], x);
      RunWithoutSource(Apply(s, p, rest[0]), p, rest[1..], x);
    }
  }

  // ----- With one a token of the session can validate again -----

  lemma First(s: State, p: Policy, a: Action, x: nat)
    requires Revivable(Apply(s, p, a), p, x)
    ensures Revivable(s, p, x)
  {
    var rest :| Usable(Run(Apply(s, p, a), p, rest), p, x);
    assert ([a] + rest)[1..] == rest;
    assert Run(s, p, [a] + rest) == Run(Apply(s, p, a), p, rest);
  }

  lemma UsableNow(s: State, p: Policy, x: nat, t: Token)
    requires t in s.sessions && s.sessions[t].value.id == x && Validates(s, p, t)
    ensures Revivable(s, p, x)
  {
    assert Run(s, p, []) == s;
  }

  lemma WriterRevives(s: State, p: Policy, i: Id)
    requires p.Valid() && i in s.checks && Able(s, p, s.checks[i])
    requires s.checks[i].Extending? || s.checks[i].Rotating? || s.checks[i].Superseding?
    ensures Revivable(s, p, s.checks[i].session.id)
  {
    var c := s.checks[i];
    var n := Apply(s, p, Store(i));
    var z := Written(c, p);
    assert Ttl(c, p) > 0;
    if s.clock < z.ExpiresAt(p) {
      UsableNow(n, p, c.session.id, z.token);
    } else {
      // the successor came too late, but the grace period of its predecessor has not run out
      assert c.Rotating? && n.checks[i] == Superseding(c.session, c.now);
      var m := Apply(n, p, Store(i));
      UsableNow(m, p, c.session.id, Superseded(c.session, p, c.now).token);
      First(n, p, Store(i), c.session.id);
    }
    First(s, p, Store(i), c.session.id);
  }

  lemma DueRevives(s: State, p: Policy, i: Id)
    requires p.Valid() && i in s.checks && s.checks[i].Due? && Able(s, p, s.checks[i])
    ensures Revivable(s, p, s.checks[i].session.id)
  {
    var c := s.checks[i];
    var free := if c.rotate then Until(s.rotLocks, c.session.id, s.clock)
        else Until(s.extLocks, c.session.token, s.clock);
    var n := Apply(s, p, Tick(free - s.clock));
    assert n.clock == free && n.checks == s.checks;
    WriterRevives(Apply(n, p, TryLock(i, 0)), p, i);
    First(n, p, TryLock(i, 0), c.session.id);
    First(s, p, Tick(free - s.clock), c.session.id);
  }

  lemma ComparedRevives(s: State, p: Policy, i: Id)
    requires p.Valid() && i in s.checks && s.checks[i].Compared? && Able(s, p, s.checks[i])
    ensures Revivable(s, p, s.checks[i].session.id)
  {
    var z := s.checks[i].session;
    var rotate := WillBeDue(s, z, p, true);
    var at := LastDue(z, p, rotate);
    var n := Apply(s, p, Tick(at - s.clock));
    assert n.clock == at && n.checks == s.checks;
    var m := Apply(n, p, ReadClock(i));
    assert m.checks[i] == Due(z, at, rotate);
    DueRevives(m, p, i);
    First(n, p, ReadClock(i), z.id);
    First(s, p, Tick(at - s.clock), z.id);
  }

  lemma CheckRevives(s: State, p: Policy, i: Id)
    requires p.Valid() && i in s.checks && Able(s, p, s.checks[i])
    ensures Revivable(s, p, s.checks[i].session.id)
  {
    match s.checks[i]
    case Fetched(z) =>
      var n := Apply(s, p, Compare(i));
      assert n == s.(checks := s.checks[i := Compared(z)]);
      ComparedRevives(n, p, i);
      First(s, p, Compare(i), z.id);
    case Compared(_) => ComparedRevives(s, p, i);
    case Due(_, _, _) => DueRevives(s, p, i);
    case _ => WriterRevives(s, p, i);
  }

  // ----- Exactly when -----

  lemma RevivableExactly(s: State, p: Policy, x: nat)
    requires p.Valid() && Sane(s)
    ensures Revivable(s, p, x) <==> Source(s, p, x)
  {
    if !Source(s, p, x) {
      forall rest ensures !Usable(Run(s, p, rest), p, x) {
        RunWithoutSource(s, p, rest, x);
      }
    } else if t :| t in s.sessions && s.sessions[t].value.id == x && Validates(s, p, t) {
      UsableNow(s, p, x, t);
    } else {
      var i :| i in s.checks && !s.checks[i].Ended? && s.checks[i].session.id == x && Able(s, p, s.checks[i]);
      CheckRevives(s, p, i);
    }
  }

  /** Once a sweep has deleted every token of session x, one of them (or a successor) validates again in some
      continuation exactly when a validation that fetched the session before is still under way and can yet extend or
      rotate it: same epoch, due at some reading of the clock, lock free in time. */
  lemma RevokedRevivesExactly(s: State, p: Policy, x: nat)
    requires p.Valid() && Sane(s) && forall t :: t in s.sessions ==> s.sessions[t].value.id != x
    ensures Revivable(s, p, x) <==>
              exists i :: i in s.checks && !s.checks[i].Ended? && s.checks[i].session.id == x && Able(s, p, s.checks[i])
  {
    RevivableExactly(s, p, x);
  }

  /** In particular a revoked session is gone for good once no validation of it is under way. */
  lemma RevokedForGood(s: State, p: Policy, x: nat, rest: seq<Action>)
    requires p.Valid() && Sane(s) && forall t :: t in s.sessions ==> s.sessions[t].value.id != x
    requires forall i :: i in s.checks && !s.checks[i].Ended? ==> s.checks[i].session.id != x
    ensures !Usable(Run(s, p, rest), p, x)
  {
    RevokedRevivesExactly(s, p, x);
  }

  /** A session just issued, under any valid policy. */
  function JustIssued(z: Session, ttl: int): State {
    State(0, z.epoch, map[z.token := Cell(z, ttl)], map[], map[], map[])
  }

  /** It does happen, under every policy that extends or rotates anything before the maximal lifetime, and only under
      those: a validation fetches a session just issued, the session is deleted, the validation stores it again. */
  lemma RevokedComesBack(p: Policy, id: nat, token: Token, user: nat, app: nat, epoch: nat)
    requires p.Valid()
    ensures var s := JustIssued(Issued(id, token, user, app, p, false, epoch, 0), p.IdleFor(false));
            var n := Apply(Apply(s, p, Fetch(0, token)), p, Delete(token));
            && n.sessions == map[]
            && (Revivable(n, p, id) <==> p.extendInterval < p.maxLifetime || p.rotateInterval < p.maxLifetime)
  {
    var z := Issued(id, token, user, app, p, false, epoch, 0);
    var s := JustIssued(z, p.IdleFor(false));
    var n := Apply(Apply(s, p, Fetch(0, token)), p, Delete(token));
    assert n.checks == map[0 := Fetched(z)];
    assert n.sessions == map[];
    WhenDue(n, p, z);
    RevokedRevivesExactly(n, p, id);
  }

  lemma WhenDue(s: State, p: Policy, z: Session)
    requires p.Valid() && s.clock == 0 && s.rotLocks == map[] && s.extLocks == map[]
    requires z.firstAuthAt == 0 && z.issuedAt == 0 && z.lastExtendedAt == 0 && z.idleExpiresAt == p.IdleFor(false)
        && !z.mobile
    ensures (WillBeDue(s, z, p, true) || WillBeDue(s, z, p, false))
            <==> p.extendInterval < p.maxLifetime || p.rotateInterval < p.maxLifetime
  {
  }
}
