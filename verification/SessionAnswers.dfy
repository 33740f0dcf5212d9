/** What Validate answers, told from the session stored under the presented token, and how long a token goes on
    validating when nothing touches it. */
module SessionAnswers {
  import opened Wrappers
  import opened SessionPolicy
  import opened Sessions
  import opened SessionRuns

  // ----- A mapping exists only for a token that was exchanged -----

  predicate MappingsAreExchanges(s: Sys) {
    forall t :: t in s.keys.rotations ==> t in s.succ
  }

  lemma StepKeepsMappings(s: Sys, p: Policy, a: Action)
    requires p.Valid() && Inv(s, p) && MappingsAreExchanges(s)
    ensures MappingsAreExchanges(Apply(s, p, a))
  {
    if a.Check? {
      assert TokenInv(s, p, a.token) && TokenInv(s, p, a.spare);
      CheckCases(s, p, a.token, a.app, a.later, a.spare);
    }
  }

  lemma {:induction false} RunKeepsMappings(s: Sys, p: Policy, actions: seq<Action>)
    requires p.Valid() && Inv(s, p) && MappingsAreExchanges(s)
    ensures MappingsAreExchanges(Run(s, p, actions))
    decreases |actions|
  {
    if actions == [] {
    } else {
      StepKeepsInv(s, p, actions[0]);
      StepKeepsMappings(s, p, actions[0]);
      RunKeepsMappings(Apply(s, p, actions[0]), p, actions[1..]);
    }
  }

  lemma ReachedMappings(s: Sys, p: Policy, actions: seq<Action>)
    requires Reached(s, p, actions)
    ensures Inv(s, p) && MappingsAreExchanges(s)
  {
    ReachedInv(s, p, actions);
    RunKeepsMappings(START, p, actions);
  }

  // ----- Who is accepted -----

  /** The key is there, the token belongs to the asking application, its epoch is its user's, and neither the idle
      timeout nor the lifetime is over. */
  predicate Live(s: Sys, p: Policy, t: Token, app: nat) {
    && t in s.keys.sessions && s.clock < s.keys.sessions[t].expiry
    && var x := s.keys.sessions[t].value;
       && x.app == app && x.epoch == s.EpochOf(x.user)
       && s.clock < x.idleExpiresAt && s.clock < x.firstAuthAt + p.maxLifetime * 1000
  }

  /** Validate accepts exactly the live tokens; every other answer is Unauthorized, and it removes the presented token's
      session, and no other key, exactly when the application is right and the epoch is not. */
  lemma AcceptedExactly(s: Sys, p: Policy, actions: seq<Action>, t: Token, app: nat, later: int, spare: Token)
    requires Reached(s, p, actions)
    ensures var e := Checked(s, p, t, app, later, spare);
            && (e.verdict.Accepted? <==> Live(s, p, t, app))
            && (e.verdict.Accepted? || e.verdict.Unauthorized?)
    ensures var e := Checked(s, p, t, app, later, spare);
            var stale := && t in s.keys.sessions && s.clock < s.keys.sessions[t].expiry
                         && s.keys.sessions[t].value.app == app
                         && s.keys.sessions[t].value.epoch != s.EpochOf(s.keys.sessions[t].value.user);
            && (stale ==> e.keys == s.keys.(sessions := s.keys.sessions - {t}, index := e.keys.index))
            && (!stale && !Live(s, p, t, app) ==> e.keys == s.keys)
  {
    ReachedInv(s, p, actions);
    assert TokenInv(s, p, t);
    CheckCases(s, p, t, app, later, spare);
  }

  // ----- What is answered -----

  function Min(a: int, b: int): int { if a < b then a else b }

  /** The time a client may cache the answer: token_cache_ttl, cut to what is left of the reported session. */
  function Granted(x: Session, p: Policy, later: int): int {
    var left := Min(x.idleExpiresAt, x.firstAuthAt + p.maxLifetime * 1000) - later;
    if left <= 0 then 0 else Min(left, p.tokenCacheTtl * 1000)
  }

  predicate SameOwner(r: Session, x: Session) {
    r.id == x.id && r.user == x.user && r.app == x.app && r.firstAuthAt == x.firstAuthAt && r.mobile == x.mobile
    && r.epoch == x.epoch
  }

  /** The idle timeout counted from `now`: the mobile one on a mobile session if the application has one. */
  predicate IdleFrom(r: Session, p: Policy, now: int) {
    && (r.mobile && p.idleTimeoutMobile > 0 ==> r.idleExpiresAt == now + p.idleTimeoutMobile * 1000)
    && (!r.mobile || p.idleTimeoutMobile == 0 ==> r.idleExpiresAt == now + p.idleTimeout * 1000)
  }

  /** Every accepted Validate reports the session, the user and the application the presented token is stored for, as
      they are stored afterwards under the reported session's own token, and the exact cache time of that session. */
  lemma ReportsTheStoredSession(s: Sys, p: Policy, actions: seq<Action>, t: Token, app: nat, later: int, spare: Token)
    requires Reached(s, p, actions) && later >= s.clock && spare !in s.used && Live(s, p, t, app)
    ensures var e := Checked(s, p, t, app, later, spare);
            var r := e.verdict.session;
            && e.verdict.Accepted? && SameOwner(r, s.keys.sessions[t].value)
            && r.token in e.keys.sessions && e.keys.sessions[r.token].value == r
            && s.clock < e.keys.sessions[r.token].expiry
            && e.verdict.cacheTtl == Granted(r, p, later)
  {
    ReachedInv(s, p, actions);
    assert TokenInv(s, p, t) && TokenInv(s, p, spare);
    CheckCases(s, p, t, app, later, spare);
    IdlePositive(p, s.keys.sessions[t].value.mobile);
  }

  /** Which of the four answers it is. A superseded token: its own session and its successor. A token past the rotation
      interval whose session no one is rotating: the session under the new token, as new. A token past the extension
      interval that no one is extending: the session with a new idle timeout. Any other: the session as stored, no new
      token, and no key changes. */
  lemma WhichAnswer(s: Sys, p: Policy, actions: seq<Action>, t: Token, app: nat, later: int, spare: Token)
    requires Reached(s, p, actions) && later >= s.clock && spare !in s.used && Live(s, p, t, app)
    ensures var e := Checked(s, p, t, app, later, spare);
            var x, r := s.keys.sessions[t].value, e.verdict.session;
            var due := s.clock - x.issuedAt >= p.rotateInterval * 1000;
            var rotates := due && !(x.id in s.keys.rotLocks && s.clock < s.keys.rotLocks[x.id]);
            var prolongs := && !due && s.clock - x.lastExtendedAt >= p.extendInterval * 1000
                           && !(t in s.keys.extLocks && s.clock < s.keys.extLocks[t]);
            && (t in s.succ ==> !rotates && !prolongs && r == x && e.verdict.newToken == Some(s.succ[t]))
            && (rotates ==>
                  && e.verdict.newToken == Some(spare) && r.token == spare
                  && r.issuedAt == s.clock && r.lastExtendedAt == s.clock && IdleFrom(r, p, s.clock))
            && (prolongs ==>
                  && e.verdict.newToken == None && r.token == t
                  && r.issuedAt == x.issuedAt && r.lastExtendedAt == s.clock && IdleFrom(r, p, s.clock))
            && (!rotates && !prolongs ==>
                  && r == x && e.keys == s.keys
                  && (t !in s.succ ==> e.verdict.newToken == None))
  {
    ReachedMappings(s, p, actions);
    assert TokenInv(s, p, t) && TokenInv(s, p, spare);
    CheckCases(s, p, t, app, later, spare);
    if t in s.succ {
      SupersededFindsLock(s, p, t, app);
    }
  }

  lemma CheckLeavesOthers(s: Sys, p: Policy, t: Token, app: nat, later: int, spare: Token, u: Token)
    requires p.Valid() && TokenInv(s, p, t) && u != t && u != spare
    ensures var k := Checked(s, p, t, app, later, spare).keys;
            && (u in k.sessions <==> u in s.keys.sessions)
            && (u in s.keys.sessions ==> k.sessions[u] == s.keys.sessions[u])
  {
    CheckCases(s, p, t, app, later, spare);
  }

  /** A rotation takes the session's lock and leaves the mapping to the new token, both for a grace period; an extension
      takes the token's lock for ten seconds. So no second one starts meanwhile. */
  lemma TakesTheLock(s: Sys, p: Policy, actions: seq<Action>, t: Token, app: nat, later: int, spare: Token)
    requires Reached(s, p, actions) && later >= s.clock && spare !in s.used && Live(s, p, t, app)
    ensures var e, x := Checked(s, p, t, app, later, spare), s.keys.sessions[t].value;
            var grace := if p.tokenCacheTtl > 15 then p.tokenCacheTtl * 1000 else 15_000;
            && (e.verdict.newToken == Some(spare) ==>
                  && x.id in e.keys.rotLocks && e.keys.rotLocks[x.id] == s.clock + grace
                  && t in e.keys.rotations && e.keys.rotations[t] == Cell(spare, s.clock + grace)
                  && e.keys.extLocks == s.keys.extLocks)
            && (e.verdict.newToken == None && e.keys != s.keys ==>
                  && t in e.keys.extLocks && e.keys.extLocks[t] == s.clock + 10_000
                  && e.keys.rotLocks == s.keys.rotLocks && e.keys.rotations == s.keys.rotations)
  {
    ReachedMappings(s, p, actions);
    assert TokenInv(s, p, t) && TokenInv(s, p, spare);
    CheckCases(s, p, t, app, later, spare);
    if Checked(s, p, t, app, later, spare).verdict.newToken == Some(spare) {
      ToldMeansRotated(s, p, actions, t, app, later, spare);
    }
  }

  /** A Validate leaves every session other than the presented token's and the spare one's as it was. */
  lemma OthersAreLeftAlone(s: Sys, p: Policy, actions: seq<Action>, t: Token, app: nat, later: int, spare: Token,
                           u: Token)
    requires Reached(s, p, actions) && u != t && u != spare
    ensures var e := Checked(s, p, t, app, later, spare);
            && (u in e.keys.sessions <==> u in s.keys.sessions)
            && (u in s.keys.sessions ==> e.keys.sessions[u] == s.keys.sessions[u])
  {
    ReachedInv(s, p, actions);
    CheckLeavesOthers(s, p, t, app, later, spare, u);
  }

  // ----- How long a token goes on validating -----

  /** No Validate or revocation of t itself, and no bump of its user. */
  predicate Undisturbed(actions: seq<Action>, t: Token, user: nat) {
    forall i :: 0 <= i < |actions| ==>
      && (actions[i].Check? ==> actions[i].token != t)
      && actions[i] != Revoke(t) && actions[i] != Bump(user)
  }

  lemma StepLeavesToken(s: Sys, p: Policy, a: Action, t: Token)
    requires p.Valid() && Inv(s, p) && t in s.keys.sessions
    requires Undisturbed([a], t, s.keys.sessions[t].value.user)
    ensures var n := Apply(s, p, a);
            && t in n.keys.sessions && n.keys.sessions[t] == s.keys.sessions[t] && s.clock <= n.clock
            && n.EpochOf(s.keys.sessions[t].value.user) == s.EpochOf(s.keys.sessions[t].value.user)
  {
    assert TokenInv(s, p, t) && [a][0] == a;
    if a.Check? {
      CheckLeavesToken(s, p, a, t);
    }
  }

  lemma CheckLeavesToken(s: Sys, p: Policy, a: Action, t: Token)
    requires p.Valid() && Inv(s, p) && t in s.keys.sessions && a.Check? && a.token != t
    ensures var n := Apply(s, p, a);
            && t in n.keys.sessions && n.keys.sessions[t] == s.keys.sessions[t]
            && n.clock == s.clock && n.epochs == s.epochs
  {
    assert TokenInv(s, p, t) && TokenInv(s, p, a.token);
    if a.spare !in s.used {
      CheckLeavesOthers(s, p, a.token, a.app, a.later, a.spare, t);
    }
  }

  lemma {:induction false} RunLeavesToken(s: Sys, p: Policy, actions: seq<Action>, t: Token)
    requires p.Valid() && Inv(s, p) && t in s.keys.sessions
    requires Undisturbed(actions, t, s.keys.sessions[t].value.user)
    ensures var n := Run(s, p, actions);
            && Inv(n, p) && t in n.keys.sessions && n.keys.sessions[t] == s.keys.sessions[t] && s.clock <= n.clock
            && n.EpochOf(s.keys.sessions[t].value.user) == s.EpochOf(s.keys.sessions[t].value.user)
    decreases |actions|
  {
    if actions == [] {
    } else {
      assert [actions[0]][0] == actions[0];
      StepLeavesToken(s, p, actions[0], t);
      StepKeepsInv(s, p, actions[0]);
      RunLeavesToken(Apply(s, p, actions[0]), p, actions[1..], t);
    }
  }

  /** Whatever the rest of the system does, a stored token of the current epoch validates, for its own user and
      application, exactly until its idle timeout or its lifetime is over. */
  lemma ValidatesUntilExpiry(s: Sys, p: Policy, before: seq<Action>, t: Token, after: seq<Action>, app: nat, later: int,
                             spare: Token)
    requires Reached(s, p, before) && t in s.keys.sessions
    requires var x := s.keys.sessions[t].value; x.epoch == s.EpochOf(x.user) && Undisturbed(after, t, x.user)
    ensures var n, x := Run(s, p, after), s.keys.sessions[t].value;
            var v := Checked(n, p, t, app, later, spare).verdict;
            && (v.Accepted? <==>
                  app == x.app && n.clock < x.idleExpiresAt && n.clock < x.firstAuthAt + p.maxLifetime * 1000)
            && (v.Accepted? && later >= n.clock && spare !in n.used ==>
                  SameOwner(v.session, x) && v.cacheTtl == Granted(v.session, p, later))
  {
    ReachedInv(s, p, before);
    RunLeavesToken(s, p, after, t);
    RunsJoin(START, p, before, after);
    var n := Run(s, p, after);
    assert Reached(n, p, before + after) && TokenInv(n, p, t);
    AcceptedExactly(n, p, before + after, t, app, later, spare);
    if Live(n, p, t, app) && later >= n.clock && spare !in n.used {
      ReportsTheStoredSession(n, p, before + after, t, app, later, spare);
    }
  }

  lemma {:induction false} RunsJoin(s: Sys, p: Policy, first: seq<Action>, rest: seq<Action>)
    ensures Run(s, p, first + rest) == Run(Run(s, p, first), p, rest)
    decreases |first|
  {
    if first == [] {
      assert first + rest == rest;
    } else {
      assert (first + rest)[0] == first[0] && (first + rest)[1..] == first[1..] + rest;
      RunsJoin(Apply(s, p, first[0]), p, first[1..], rest);
    }
  }

  /** A login stores its session under its token for the user, application and device it was made for, with both
      timeouts counted from now, and touches no other session ... */
  lemma LoginStores(s: Sys, p: Policy, actions: seq<Action>, id: nat, t: Token, user: nat, app: nat, mobile: bool)
    requires Reached(s, p, actions) && id !in s.born && t !in s.used
    ensures var n := Apply(s, p, Login(id, t, user, app, mobile));
            && t in n.keys.sessions && n.clock < n.keys.sessions[t].expiry && Live(n, p, t, app)
            && var x := n.keys.sessions[t].value;
               && x.id == id && x.token == t && x.user == user && x.app == app && x.mobile == mobile
               && x.firstAuthAt == x.issuedAt == x.lastExtendedAt == s.clock && x.epoch == s.EpochOf(user)
               && IdleFrom(x, p, s.clock)
    ensures var n := Apply(s, p, Login(id, t, user, app, mobile));
            forall u :: u != t ==>
              && (u in n.keys.sessions <==> u in s.keys.sessions)
              && (u in s.keys.sessions ==> n.keys.sessions[u] == s.keys.sessions[u])
  {
    IdlePositive(p, mobile);
  }

  /** ... and a revocation takes its token out, so that no Validate accepts it, and nothing else. */
  lemma RevokeRemoves(s: Sys, p: Policy, actions: seq<Action>, t: Token, app: nat, later: int, spare: Token)
    requires Reached(s, p, actions)
    ensures var n := Apply(s, p, Revoke(t));
            && n.keys == s.keys.(sessions := n.keys.sessions, index := n.keys.index)
            && n == s.(keys := n.keys)
            && n.keys.sessions == (map u | u in s.keys.sessions && u != t :: s.keys.sessions[u])
            && Checked(n, p, t, app, later, spare).verdict == Unauthorized
  {
  }

  /** After a rotation the successor validates, and until one of its own intervals is over a Validate of it reports it
      unchanged, with no further token, and writes nothing. */
  lemma SuccessorIsSettled(s: Sys, p: Policy, actions: seq<Action>, t: Token, app: nat, later: int, spare: Token,
                           after: seq<Action>, again: int, other: Token)
    requires Reached(s, p, actions) && later >= s.clock && spare !in s.used && Live(s, p, t, app)
    requires Checked(s, p, t, app, later, spare).verdict.newToken == Some(spare)
    requires Undisturbed(after, spare, s.keys.sessions[t].value.user)
    ensures var r := Checked(s, p, t, app, later, spare).verdict.session;
            var n := Run(Apply(s, p, Check(t, app, later, spare)), p, after);
            var e := Checked(n, p, spare, app, again, other);
            && (e.verdict.Accepted? <==>
                  n.clock < r.idleExpiresAt && n.clock < r.firstAuthAt + p.maxLifetime * 1000)
            && (e.verdict.Accepted? && again >= n.clock && other !in n.used
                && n.clock - s.clock < p.extendInterval * 1000 && n.clock - s.clock < p.rotateInterval * 1000 ==>
                  e.keys == n.keys && e.verdict.session == r && e.verdict.newToken == None)
  {
    RotatedIsStored(s, p, actions, t, app, later, spare);
    var m := Apply(s, p, Check(t, app, later, spare));
    var run := actions + [Check(t, app, later, spare)];
    RunsJoin(START, p, actions, [Check(t, app, later, spare)]);
    assert [Check(t, app, later, spare)][1..] == [];
    assert Reached(m, p, run);
    ValidatesUntilExpiry(m, p, run, spare, after, app, again, other);
    var n := Run(m, p, after);
    ReachedInv(m, p, run);
    RunLeavesToken(m, p, after, spare);
    RunsJoin(START, p, run, after);
    assert Reached(n, p, run + after);
    if Checked(n, p, spare, app, again, other).verdict.Accepted? && again >= n.clock && other !in n.used {
      AcceptedExactly(n, p, run + after, spare, app, again, other);
      WhichAnswer(n, p, run + after, spare, app, again, other);
    }
  }

  lemma RotatedIsStored(s: Sys, p: Policy, actions: seq<Action>, t: Token, app: nat, later: int, spare: Token)
    requires Reached(s, p, actions) && later >= s.clock && spare !in s.used && Live(s, p, t, app)
    requires Checked(s, p, t, app, later, spare).verdict.newToken == Some(spare)
    ensures var e, n := Checked(s, p, t, app, later, spare), Apply(s, p, Check(t, app, later, spare));
            var r := e.verdict.session;
            && spare in n.keys.sessions && n.keys.sessions[spare].value == r && n.clock == s.clock
            && r.app == app && r.user == s.keys.sessions[t].value.user && r.epoch == n.EpochOf(r.user)
            && r.issuedAt == r.lastExtendedAt == s.clock
  {
    ReachedMappings(s, p, actions);
    assert TokenInv(s, p, t) && TokenInv(s, p, spare);
    CheckCases(s, p, t, app, later, spare);
    ReportsTheStoredSession(s, p, actions, t, app, later, spare);
    WhichAnswer(s, p, actions, t, app, later, spare);
  }

  /** The rotated token itself goes on validating, for whoever still holds it, for exactly a grace period: 15 seconds,
      or the time clients may cache answers if that is longer (the session's lifetime permitting). */
  lemma RotatedTokenLastsItsGrace(s: Sys, p: Policy, actions: seq<Action>, t: Token, app: nat, later: int, spare: Token,
                                  after: seq<Action>, again: int, other: Token)
    requires Reached(s, p, actions) && later >= s.clock && spare !in s.used && Live(s, p, t, app)
    requires Checked(s, p, t, app, later, spare).verdict.newToken == Some(spare)
    requires Undisturbed(after, t, s.keys.sessions[t].value.user)
    ensures var n := Run(Apply(s, p, Check(t, app, later, spare)), p, after);
            var grace := if p.tokenCacheTtl > 15 then p.tokenCacheTtl * 1000 else 15_000;
            Checked(n, p, t, app, again, other).verdict.Accepted? <==>
              && n.clock < s.clock + grace
              && n.clock < s.keys.sessions[t].value.firstAuthAt + p.maxLifetime * 1000
  {
    RotatedIsStored(s, p, actions, t, app, later, spare);
    SupersededIsStored(s, p, actions, t, app, later, spare);
    var m := Apply(s, p, Check(t, app, later, spare));
    var run := actions + [Check(t, app, later, spare)];
    RunsJoin(START, p, actions, [Check(t, app, later, spare)]);
    assert [Check(t, app, later, spare)][1..] == [];
    assert Reached(m, p, run);
    ValidatesUntilExpiry(m, p, run, t, after, app, again, other);
  }

  lemma SupersededIsStored(s: Sys, p: Policy, actions: seq<Action>, t: Token, app: nat, later: int, spare: Token)
    requires Reached(s, p, actions) && later >= s.clock && spare !in s.used && Live(s, p, t, app)
    requires Checked(s, p, t, app, later, spare).verdict.newToken == Some(spare)
    ensures var n, x := Apply(s, p, Check(t, app, later, spare)), s.keys.sessions[t].value;
            && t in n.keys.sessions && n.clock == s.clock && n.epochs == s.epochs
            && SameOwner(n.keys.sessions[t].value, x)
            && n.keys.sessions[t].value.idleExpiresAt
               == s.clock + (if p.tokenCacheTtl > 15 then p.tokenCacheTtl * 1000 else 15_000)
  {
    ReachedInv(s, p, actions);
    assert TokenInv(s, p, t) && TokenInv(s, p, spare);
    ToldMeansRotated(s, p, actions, t, app, later, spare);
    CheckCases(s, p, t, app, later, spare);
  }

  lemma ToldMeansRotated(s: Sys, p: Policy, actions: seq<Action>, t: Token, app: nat, later: int, spare: Token)
    requires Reached(s, p, actions) && later >= s.clock && spare !in s.used && Live(s, p, t, app)
    requires Checked(s, p, t, app, later, spare).verdict.newToken == Some(spare)
    ensures Rotates(s, p, t, app) && t !in s.succ
  {
    ReachedMappings(s, p, actions);
    assert TokenInv(s, p, t);
    WhichAnswer(s, p, actions, t, app, later, spare);
  }

  // ----- Bumping a user's epoch -----

  predicate BehindEpoch(s: Sys, t: Token) {
    t in s.keys.sessions ==> s.keys.sessions[t].value.epoch <= s.EpochOf(s.keys.sessions[t].value.user)
  }

  lemma StepKeepsBehind(s: Sys, p: Policy, a: Action, t: Token)
    requires p.Valid() && Inv(s, p) && (forall u :: BehindEpoch(s, u))
    ensures BehindEpoch(Apply(s, p, a), t)
  {
    assert BehindEpoch(s, t);
    if a.Check? {
      CheckKeepsBehind(s, p, a, t);
    }
  }

  lemma CheckKeepsBehind(s: Sys, p: Policy, a: Action, t: Token)
    requires p.Valid() && Inv(s, p) && a.Check? && (forall u :: BehindEpoch(s, u))
    ensures BehindEpoch(Apply(s, p, a), t)
  {
    assert BehindEpoch(s, t) && BehindEpoch(s, a.token) && TokenInv(s, p, a.token);
    CheckCases(s, p, a.token, a.app, a.later, a.spare);
  }

  lemma {:induction false} RunKeepsBehind(s: Sys, p: Policy, actions: seq<Action>)
    requires p.Valid() && Inv(s, p) && (forall u :: BehindEpoch(s, u))
    ensures forall t :: BehindEpoch(Run(s, p, actions), t)
    decreases |actions|
  {
    if actions == [] {
    } else {
      forall t ensures BehindEpoch(Apply(s, p, actions[0]), t) {
        StepKeepsBehind(s, p, actions[0], t);
      }
      StepKeepsInv(s, p, actions[0]);
      RunKeepsBehind(Apply(s, p, actions[0]), p, actions[1..]);
    }
  }

  /** A bump logs the user out of every session there is, and nobody else out of any. */
  lemma BumpLogsOutTheUser(s: Sys, p: Policy, actions: seq<Action>, user: nat, t: Token, app: nat, later: int,
                           spare: Token)
    requires Reached(s, p, actions) && t in s.keys.sessions
    ensures var n := Apply(s, p, Bump(user));
            && n.keys == s.keys && n.clock == s.clock
            && (Checked(n, p, t, app, later, spare).verdict.Accepted? <==>
                  s.keys.sessions[t].value.user != user && Checked(s, p, t, app, later, spare).verdict.Accepted?)
  {
    RunKeepsBehind(START, p, actions);
    assert BehindEpoch(s, t);
    RunsJoin(START, p, actions, [Bump(user)]);
    assert [Bump(user)][1..] == [];
    assert Reached(Apply(s, p, Bump(user)), p, actions + [Bump(user)]);
    AcceptedExactly(s, p, actions, t, app, later, spare);
    AcceptedExactly(Apply(s, p, Bump(user)), p, actions + [Bump(user)], t, app, later, spare);
  }
}
