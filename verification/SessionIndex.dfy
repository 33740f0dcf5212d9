/** The per-user token index that device lists and bulk revocation read (internal/store/session.go, Put). Its comment
    promises that the index never expires before a session it lists; each Put resets the index's expiry from that one
    session's ttl alone. Here is when the promise is kept. */
module SessionIndex {
  import opened Wrappers
  import opened SessionPolicy
  import opened Sessions
  import opened SessionRuns

  /** SMEMBERS, then the members whose session key is gone are skipped. */
  function ListUserTokens(k: Keys, u: nat, now: int): set<Token> {
    match Read(k.index, u, now)
    case None => {}
    case Some(members) => set t | t in members && Read(k.sessions, t, now).Some?
  }

  /** This token, for as long as its session key lasts, is among what the user's index yields. */
  predicate Covered(k: Keys, t: Token, now: int) {
    t in k.sessions && now < k.sessions[t].expiry ==>
      var u := k.sessions[t].value.user;
      u in k.index && t in k.index[u].value && k.sessions[t].expiry <= k.index[u].expiry
  }

  /** From `now` on, the user's live sessions are exactly what the index yields. */
  ghost predicate Covers(k: Keys, u: nat, now: int) {
    forall t, at :: now <= at && Read(k.sessions, t, at).Some? && k.sessions[t].value.user == u ==>
        t in ListUserTokens(k, u, at)
  }

  lemma CoversIsCovered(k: Keys, u: nat, now: int)
    ensures Covers(k, u, now) <==> forall t :: t in k.sessions && k.sessions[t].value.user == u ==> Covered(k, t, now)
  {
    if Covers(k, u, now) {
      forall t | t in k.sessions && k.sessions[t].value.user == u && now < k.sessions[t].expiry
          ensures Covered(k, t, now) {
        var last := k.sessions[t].expiry - 1;
        assert Read(k.sessions, t, last).Some?;
        assert t in ListUserTokens(k, u, last);
      }
    } else {
      var t, at :| now <= at && Read(k.sessions, t, at).Some? && k.sessions[t].value.user == u
          && t !in ListUserTokens(k, u, at);
      assert !Covered(k, t, now);
    }
  }

  // ----- What the list shows -----

  /** A Put adds the token to its user's list, for at least seven days and at least as long as its own key, and changes
      no other user's; a Delete takes it off, and nothing else. */
  lemma ListFollowsTheSessions(k: Keys, z: Session, ttl: int, now: int, t: Token, u: nat)
    requires ttl > 0
    ensures var n := Put(k, z, ttl, now).value;
            && ListUserTokens(n, z.user, now) == ListUserTokens(k, z.user, now) + {z.token}
            && z.user in n.index && n.index[z.user].expiry == now + (if ttl > 604_800_000 then ttl else 604_800_000)
            && (u != z.user ==> (u in n.index <==> u in k.index) && (u in k.index ==> n.index[u] == k.index[u]))
    ensures ListUserTokens(Delete(k, t, now), u, now) == ListUserTokens(k, u, now) - {t}
    ensures t in k.sessions && now < k.sessions[t].expiry && k.sessions[t].value.user in k.index ==>
              t !in Delete(k, t, now).index[k.sessions[t].value.user].value
  {
  }

  // ----- One Put -----

  /** The other live sessions of the user end before the index does. */
  predicate Outlasts(k: Keys, u: nat, now: int, end: int, but: set<Token>) {
    forall o :: o in k.sessions && o !in but && now < k.sessions[o].expiry && k.sessions[o].value.user == u ==>
        k.sessions[o].expiry <= end
  }

  /** A Put keeps the index complete exactly when no other live session of the user outlasts both the new one and
      seven days. */
  lemma PutKeepsCoverIff(k: Keys, z: Session, ttl: int, now: int)
    requires ttl > 0 && Covers(k, z.user, now) && (z.token in k.sessions ==> k.sessions[z.token].value.user == z.user)
    ensures Covers(Put(k, z, ttl, now).value, z.user, now) <==> Outlasts(k, z.user, now, now + IndexTtl(ttl), {z.token})
  {
    var n := Put(k, z, ttl, now).value;
    CoversIsCovered(k, z.user, now);
    CoversIsCovered(n, z.user, now);
    forall t | t in k.sessions && t != z.token && k.sessions[t].value.user == z.user
      ensures Covered(n, t, now) <==> now < k.sessions[t].expiry ==> k.sessions[t].expiry <= now + IndexTtl(ttl)
    {
      assert Covered(k, t, now);
    }
  }

  /** A rotation puts the successor and then the predecessor with the grace period: the second Put alone decides. The
      index stays complete exactly when neither the successor nor any other live session outlasts the grace period and
      seven days. */
  lemma RotationKeepsCoverIff(k: Keys, z: Session, p: Policy, spare: Token, ttl: int, now: int)
    requires p.Valid() && ttl > 0 && Covers(k, z.user, now) && spare !in k.sessions && spare != z.token
    requires z.token in k.sessions ==> k.sessions[z.token].value.user == z.user
    ensures var first := Put(k, Successor(z, p, now, spare), ttl, now).value;
            var both := Put(first, Superseded(z, p, now), Grace(p), now).value;
            Covers(both, z.user, now) <==>
              ttl <= IndexTtl(Grace(p)) && Outlasts(k, z.user, now, now + IndexTtl(Grace(p)), {z.token})
  {
    var first := Put(k, Successor(z, p, now, spare), ttl, now).value;
    var both := Put(first, Superseded(z, p, now), Grace(p), now).value;
    CoversIsCovered(k, z.user, now);
    CoversIsCovered(both, z.user, now);
    assert both.index[z.user].expiry == now + IndexTtl(Grace(p));
    forall t | t in k.sessions && t != z.token && t != spare && k.sessions[t].value.user == z.user
      ensures Covered(both, t, now) <==> now < k.sessions[t].expiry ==> k.sessions[t].expiry <= now + IndexTtl(Grace(p))
    {
      assert Covered(k, t, now);
    }
    assert Covered(both, spare, now) <==> ttl <= IndexTtl(Grace(p));
  }

  // ----- Many Puts with one ttl, however long -----

  datatype Call = Call(session: Session, at: int)

  ghost predicate Ordered(calls: seq<Call>, from: int)
    decreases |calls|
  {
    calls == [] || (from <= calls[0].at && Ordered(calls[1..], calls[0].at))
  }

  function PutAll(k: Keys, calls: seq<Call>, ttl: int): Keys
    requires ttl > 0
    decreases |calls|
  {
    if calls == [] then k else PutAll(Put(k, calls[0].session, ttl, calls[0].at).value, calls[1..], ttl)
  }

  function LastOf(calls: seq<Call>, from: int): int {
    if calls == [] then from else calls[|calls| - 1].at
  }

  predicate EqualInv(k: Keys, t: Token, now: int, ttl: int) {
    Covered(k, t, now) && (t in k.sessions && now < k.sessions[t].expiry ==> k.sessions[t].expiry <= now + ttl)
  }

  lemma {:induction false} PutAllKeepsEqual(k: Keys, calls: seq<Call>, ttl: int, from: int)
    requires ttl > 0 && Ordered(calls, from) && forall t :: EqualInv(k, t, from, ttl)
    ensures forall t :: EqualInv(PutAll(k, calls, ttl), t, LastOf(calls, from), ttl)
    decreases |calls|
  {
    if calls == [] {
    } else {
      var c, rest := calls[0], calls[1..];
      var n := Put(k, c.session, ttl, c.at).value;
      forall t ensures EqualInv(n, t, c.at, ttl) {
        assert EqualInv(k, t, from, ttl);
      }
      PutAllKeepsEqual(n, rest, ttl, c.at);
      assert LastOf(rest, c.at) == LastOf(calls, from);
    }
  }

  /** Sessions that all get the same ttl never lose each other, however many are stored, in whatever order of users. */
  lemma EqualTtlsKeepCover(calls: seq<Call>, ttl: int, from: int, u: nat)
    requires ttl > 0 && Ordered(calls, from)
    ensures Covers(PutAll(Keys(map[], map[], map[], map[], map[]), calls, ttl), u, LastOf(calls, from))
  {
    var none := Keys(map[], map[], map[], map[], map[]);
    PutAllKeepsEqual(none, calls, ttl, from);
    var k := PutAll(none, calls, ttl);
    forall t ensures Covered(k, t, LastOf(calls, from)) {
      assert EqualInv(k, t, LastOf(calls, from), ttl);
    }
    CoversIsCovered(k, u, LastOf(calls, from));
  }

  // ----- Whole runs -----

  /** Neither idle timeout is above seven days. */
  predicate ShortIdle(p: Policy) {
    p.Valid() && p.IdleFor(false) <= INDEX_MIN_TTL && p.IdleFor(true) <= INDEX_MIN_TTL
  }

  /** Then no key outlasts seven days, so none outlasts the index. */
  predicate IndexInv(k: Keys, t: Token, now: int) {
    Covered(k, t, now) && (t in k.sessions && now < k.sessions[t].expiry ==>
        k.sessions[t].expiry <= now + INDEX_MIN_TTL)
  }

  lemma PutKeepsIndex(k: Keys, z: Session, ttl: int, now: int, t: Token)
    requires 0 < ttl <= INDEX_MIN_TTL && IndexInv(k, t, now)
    ensures IndexInv(Put(k, z, ttl, now).value, t, now)
  {
  }

  lemma DeleteKeepsIndex(k: Keys, d: Token, now: int, t: Token)
    requires IndexInv(k, t, now)
    ensures IndexInv(Delete(k, d, now), t, now)
  {
  }

  lemma RotatedIsTwoPuts(k: Keys, x: Session, p: Policy, now: int, spare: Token)
    requires p.Valid() && now < x.MaxExpiresAt(p)
    ensures var n := Successor(x, p, now, spare);
            var ttl := n.ExpiresAt(p) - now;
            && 0 < ttl <= p.IdleFor(x.mobile)
            && var both := Put(Put(k, n, ttl, now).value, Superseded(x, p, now), Grace(p), now).value;
               RotatedKeys(k, x, p, now, spare).sessions == both.sessions
                   && RotatedKeys(k, x, p, now, spare).index == both.index
  {
    IdlePositive(p, x.mobile);
  }

  lemma RotationKeepsIndex(k: Keys, x: Session, p: Policy, now: int, spare: Token, t: Token)
    requires ShortIdle(p) && now < x.MaxExpiresAt(p) && IndexInv(k, t, now)
    ensures IndexInv(RotatedKeys(k, x, p, now, spare), t, now)
  {
    RotatedIsTwoPuts(k, x, p, now, spare);
    var n := Successor(x, p, now, spare);
    PutKeepsIndex(k, n, n.ExpiresAt(p) - now, now, t);
    PutKeepsIndex(Put(k, n, n.ExpiresAt(p) - now, now).value, Superseded(x, p, now), Grace(p), now, t);
  }

  lemma ExtensionKeepsIndex(k: Keys, x: Session, p: Policy, now: int, t: Token)
    requires ShortIdle(p) && now < x.MaxExpiresAt(p) && IndexInv(k, t, now)
    ensures IndexInv(ExtendedKeys(k, x, p, now), t, now)
  {
    var e := Extended(x, p, now);
    IdlePositive(p, x.mobile);
    PutKeepsIndex(k, e, e.ExpiresAt(p) - now, now, t);
  }

  lemma CheckKeepsIndex(s: Sys, p: Policy, token: Token, app: nat, later: int, spare: Token, t: Token)
    requires ShortIdle(p) && Inv(s, p) && IndexInv(s.keys, t, s.clock)
    ensures IndexInv(Checked(s, p, token, app, later, spare).keys, t, s.clock)
  {
    assert TokenInv(s, p, token);
    CheckCases(s, p, token, app, later, spare);
    if Rotates(s, p, token, app) {
      RotationKeepsIndex(s.keys, s.keys.sessions[token].value, p, s.clock, spare, t);
    } else if Extends(s, p, token, app) {
      ExtensionKeepsIndex(s.keys, s.keys.sessions[token].value, p, s.clock, t);
    } else if Drops(s, token, app) {
      DeleteKeepsIndex(s.keys, token, s.clock, t);
    }
  }

  lemma StepKeepsIndex(s: Sys, p: Policy, a: Action, t: Token)
    requires ShortIdle(p) && Inv(s, p) && IndexInv(s.keys, t, s.clock)
    ensures IndexInv(Apply(s, p, a).keys, t, Apply(s, p, a).clock)
  {
    match a
    case Login(id, token, user, app, mobile) =>
      IdlePositive(p, mobile);
      PutKeepsIndex(s.keys, Issued(id, token, user, app, p, mobile, s.EpochOf(user), s.clock), p.IdleFor(mobile),
          s.clock, t);
    case Check(token, app, later, spare) => CheckKeepsIndex(s, p, token, app, later, spare, t);
    case Revoke(token) => DeleteKeepsIndex(s.keys, token, s.clock, t);
    case Tick(_) =>
    case Bump(_) =>
  }

  lemma {:induction false} RunKeepsIndex(s: Sys, p: Policy, actions: seq<Action>)
    requires ShortIdle(p) && Inv(s, p) && forall t :: IndexInv(s.keys, t, s.clock)
    ensures forall t :: IndexInv(Run(s, p, actions).keys, t, Run(s, p, actions).clock)
    decreases |actions|
  {
    if actions == [] {
    } else {
      var n := Apply(s, p, actions[0]);
      forall t ensures IndexInv(n.keys, t, n.clock) {
        StepKeepsIndex(s, p, actions[0], t);
      }
      StepKeepsInv(s, p, actions[0]);
      RunKeepsIndex(n, p, actions[1..]);
    }
  }

  /** Under a policy whose idle timeouts are at most seven days the promise is kept in every run: every live session of
      every user is listed, now and for as long as nothing else happens. */
  lemma ShortIdleKeepsCover(s: Sys, p: Policy, actions: seq<Action>, u: nat)
    requires ShortIdle(p) && Reached(s, p, actions)
    ensures Covers(s.keys, u, s.clock)
  {
    ReachedInv(START, p, []);
    RunKeepsIndex(START, p, actions);
    forall t | t in s.keys.sessions && s.keys.sessions[t].value.user == u ensures Covered(s.keys, t, s.clock) {
      assert IndexInv(s.keys, t, s.clock);
    }
    CoversIsCovered(s.keys, u, s.clock);
  }

  // ----- And with longer ones -----

  const DEFAULT_POLICY := Policy(7 * 24 * 3600, 30 * 24 * 3600, 90 * 24 * 3600, 24 * 3600, 600, 30)

  const DAY := 24 * 3_600_000

  /** Under the default policy a desktop login after a mobile one breaks it: seven days on, the mobile session (30 days)
      still validates and no listing finds it, so no sweep would revoke it. */
  lemma DesktopLoginUnlistsMobile(u: nat, app: nat)
    ensures DEFAULT_POLICY.Valid()
    ensures var one := Apply(START, DEFAULT_POLICY, Login(1, 1, u, app, true));
            var s := Apply(Apply(one, DEFAULT_POLICY, Login(2, 2, u, app, false)), DEFAULT_POLICY, Tick(INDEX_MIN_TTL));
            Passes(s, DEFAULT_POLICY, 1, app) && ListUserTokens(s.keys, u, s.clock) == {}
  {
  }

  /** One mobile session that rotates breaks it too: on the first day its token is exchanged, seven days after that the
      new token still validates and no listing finds it. */
  lemma RotationUnlistsMobile(u: nat, app: nat)
    ensures var day := Apply(Apply(START, DEFAULT_POLICY, Login(1, 1, u, app, true)), DEFAULT_POLICY, Tick(DAY));
            var s := Apply(Apply(day, DEFAULT_POLICY, Check(1, app, DAY, 2)), DEFAULT_POLICY, Tick(INDEX_MIN_TTL));
            Passes(s, DEFAULT_POLICY, 2, app) && ListUserTokens(s.keys, u, s.clock) == {}
  {
    var p := DEFAULT_POLICY;
    var one := Apply(START, p, Login(1, 1, u, app, true));
    var x := Issued(1, 1, u, app, p, true, 0, 0);
    assert one.keys.sessions == map[1 := Cell(x, p.IdleFor(true))];
    var day := Apply(one, p, Tick(DAY));
    assert Rotates(day, p, 1, app);
    RotateWrites(day.keys, x, p, DAY, DAY, 2);
    assert Checked(day, p, 1, app, DAY, 2).keys == RotatedKeys(day.keys, x, p, DAY, 2);
  }
}
