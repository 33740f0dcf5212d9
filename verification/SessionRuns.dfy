/** Every run of issue, validate (which extends and rotates), revoke and epoch bumps, under one valid policy and a
    nondecreasing clock: who validates, for how long, and what a superseded token is told. */
module SessionRuns {
  import opened Wrappers
  import opened SessionPolicy
  import opened Sessions

  /** `used`, `born`, `head` and `succ` are history: tokens ever drawn, login time and current token per session, and
      the token each rotated one was exchanged for. */
  datatype Sys = Sys(
    clock: int, keys: Keys, epochs: map<nat, nat>,
    used: set<Token>, born: map<nat, int>, head: map<nat, Token>, succ: map<Token, Token>)
  {
    function EpochOf(user: nat): nat {
      if user in epochs then epochs[user] else 0
    }

    function EpochFor(t: Token): nat {
      if t in keys.sessions then EpochOf(keys.sessions[t].value.user) else 0
    }
  }

  const START := Sys(0, Keys(map[], map[], map[], map[], map[]), map[], {}, map[], map[], map[])

  datatype Action =
    | Tick(ms: nat)
    | Login(id: nat, token: Token, user: nat, app: nat, mobile: bool)
    | Check(token: Token, app: nat, later: int, spare: Token)
    | Revoke(token: Token)          // one Delete of a sweep, a logout or a kick
    | Bump(user: nat)

  function Checked(s: Sys, p: Policy, token: Token, app: nat, later: int, spare: Token): Effect {
    Validate(s.keys, token, app, p, s.EpochFor(token), s.clock, later, spare)
  }

  /** Random tokens and session ids are drawn anew; the second clock reading is not before the first. */
  function Apply(s: Sys, p: Policy, a: Action): Sys {
    match a
    case Tick(ms) => s.(clock := s.clock + ms)
    case Login(id, token, user, app, mobile) =>
      if id in s.born || token in s.used then s
      else
        var n := Issued(id, token, user, app, p, mobile, s.EpochOf(user), s.clock);
        (match Put(s.keys, n, p.IdleFor(mobile), s.clock)
         case None => s
         case Some(k) => s.(keys := k, used := s.used + {token}, born := s.born[id := s.clock],
             head := s.head[id := token]))
    case Check(token, app, later, spare) =>
      if later < s.clock || spare in s.used then s
      else
        var k := Checked(s, p, token, app, later, spare).keys;
        if token in s.keys.sessions && spare in k.sessions then
          s.(keys := k, used := s.used + {spare}, head := s.head[s.keys.sessions[token].value.id := spare],
             succ := s.succ[token := spare])
        else s.(keys := k)
    case Revoke(token) => s.(keys := Delete(s.keys, token, s.clock))
    case Bump(user) => s.(epochs := s.epochs[user := s.EpochOf(user) + 1])
  }

  function Run(s: Sys, p: Policy, actions: seq<Action>): Sys
    decreases |actions|
  {
    if actions == [] then s else Run(Apply(s, p, actions[0]), p, actions[1..])
  }

  // ----- What every run keeps -----

  /** About the stored session of one token. */
  predicate TokenInv(s: Sys, p: Policy, t: Token) {
    t in s.keys.sessions ==>
      var x := s.keys.sessions[t].value;
      && x.token == t && t in s.used
      && x.id in s.born && x.firstAuthAt == s.born[x.id] && x.id in s.head
      && s.keys.sessions[t].expiry >= x.ExpiresAt(p)
      && (t !in s.succ ==> s.head[x.id] == t)
      && (t in s.succ ==>
            && x.id in s.keys.rotLocks && x.idleExpiresAt <= s.keys.rotLocks[x.id]
            && s.clock - x.issuedAt >= p.rotateInterval * 1000
            && t in s.keys.rotations && s.keys.rotations[t].value == s.succ[t]
            && x.idleExpiresAt <= s.keys.rotations[t].expiry
            && (s.clock < x.idleExpiresAt ==> s.succ[t] == s.head[x.id]))
  }

  ghost predicate HistoryInv(s: Sys) {
    && (forall t :: t in s.succ ==> t in s.used && s.succ[t] in s.used)
    && (forall t, u :: t in s.succ && u in s.succ && s.succ[t] == s.succ[u] ==> t == u)
    && (forall id :: id in s.head ==> id in s.born && s.head[id] in s.used)
  }

  ghost predicate Inv(s: Sys, p: Policy) {
    HistoryInv(s) && forall t :: TokenInv(s, p, t)
  }

  /** The session a Check acts on, once it got past the app, epoch and lifetime tests. */
  predicate Passes(s: Sys, p: Policy, t: Token, app: nat) {
    && Read(s.keys.sessions, t, s.clock).Some?
    && var x := s.keys.sessions[t].value;
       x.app == app && x.epoch == s.EpochFor(t) && x.RemainingAt(s.clock, p) > 0
  }

  /** A superseded token that still passes finds the rotation lock held and the mapping in place. */
  lemma SupersededFindsLock(s: Sys, p: Policy, t: Token, app: nat)
    requires Inv(s, p) && t in s.succ && Passes(s, p, t, app)
    ensures var x := s.keys.sessions[t].value;
            && Locked(s.keys.rotLocks, x.id, s.clock)
            && Read(s.keys.rotations, x.token, s.clock) == Some(s.succ[t])
            && s.clock - x.issuedAt >= p.rotateInterval * 1000
  {
    assert TokenInv(s, p, t);
  }

  // The four things a Check can do to the keys.

  predicate Rotates(s: Sys, p: Policy, t: Token, app: nat) {
    && Passes(s, p, t, app)
    && var x := s.keys.sessions[t].value;
       s.clock - x.issuedAt >= p.rotateInterval * 1000 && !Locked(s.keys.rotLocks, x.id, s.clock)
  }

  predicate Extends(s: Sys, p: Policy, t: Token, app: nat) {
    && Passes(s, p, t, app)
    && var x := s.keys.sessions[t].value;
       && s.clock - x.issuedAt < p.rotateInterval * 1000
       && s.clock - x.lastExtendedAt >= p.extendInterval * 1000
       && !Locked(s.keys.extLocks, x.token, s.clock)
  }

  predicate Drops(s: Sys, t: Token, app: nat) {
    && Read(s.keys.sessions, t, s.clock).Some?
    && s.keys.sessions[t].value.app == app && s.keys.sessions[t].value.epoch != s.EpochFor(t)
  }

  function RotatedKeys(k: Keys, x: Session, p: Policy, now: int, spare: Token): Keys {
    var n := Successor(x, p, now, spare);
    Keys(k.sessions[spare := Cell(n, n.ExpiresAt(p))][x.token := Cell(Superseded(x, p, now), now + Grace(p))],
         k.rotations[x.token := Cell(spare, now + Grace(p))],
         k.rotLocks[x.id := now + Grace(p)],
         k.extLocks,
         Indexed(Indexed(k.index, x.user, spare, n.ExpiresAt(p) - now, now), x.user, x.token, Grace(p), now))
  }

  function ExtendedKeys(k: Keys, x: Session, p: Policy, now: int): Keys {
    var e := Extended(x, p, now);
    k.(sessions := k.sessions[x.token := Cell(e, e.ExpiresAt(p))],
        extLocks := k.extLocks[x.token := now + EXTEND_LOCK_TTL],
       index := Indexed(k.index, x.user, x.token, e.ExpiresAt(p) - now, now))
  }

  lemma IdlePositive(p: Policy, mobile: bool)
    requires p.Valid()
    ensures p.IdleFor(mobile) > 0
  {
  }

  lemma RemainingIsUntilExpiry(x: Session, p: Policy, now: int)
    ensures x.RemainingAt(now, p) == if now < x.ExpiresAt(p) then x.ExpiresAt(p) - now else 0
  {
  }

  lemma RotateWrites(k: Keys, x: Session, p: Policy, now: int, later: int, spare: Token)
    requires p.Valid() && now < x.MaxExpiresAt(p) && !Locked(k.rotLocks, x.id, now)
    ensures Rotate(k, x, p, now, later, spare)
         == Effect(RotatedKeys(k, x, p, now, spare), Answer(Successor(x, p, now, spare), p, later, Some(spare)))
  {
    var n := Successor(x, p, now, spare);
    IdlePositive(p, x.mobile);
    RemainingIsUntilExpiry(n, p, now);
  }

  lemma ExtendWrites(k: Keys, x: Session, p: Policy, now: int, later: int)
    requires p.Valid() && now < x.MaxExpiresAt(p) && !Locked(k.extLocks, x.token, now)
    ensures Extend(k, x, p, now, later)
         == Effect(ExtendedKeys(k, x, p, now), Answer(Extended(x, p, now), p, later, None))
  {
    var e := Extended(x, p, now);
    IdlePositive(p, x.mobile);
    RemainingIsUntilExpiry(e, p, now);
  }

  lemma CheckCases(s: Sys, p: Policy, t: Token, app: nat, later: int, spare: Token)
    requires p.Valid() && TokenInv(s, p, t)
    ensures var e := Checked(s, p, t, app, later, spare);
            && (Rotates(s, p, t, app) ==>
                  var x := s.keys.sessions[t].value;
                  e == Effect(RotatedKeys(s.keys, x, p, s.clock, spare),
                              Answer(Successor(x, p, s.clock, spare), p, later, Some(spare))))
            && (Extends(s, p, t, app) ==>
                  var x := s.keys.sessions[t].value;
                  e == Effect(ExtendedKeys(s.keys, x, p, s.clock), Answer(Extended(x, p, s.clock), p, later, None)))
            && (Drops(s, t, app) ==> e == Effect(Delete(s.keys, t, s.clock), Unauthorized))
            && (!Rotates(s, p, t, app) && !Extends(s, p, t, app) && !Drops(s, t, app) ==> e.keys == s.keys)
            && (e.verdict.Accepted? <==> Passes(s, p, t, app))
            && e.verdict != Internal
  {
    if Passes(s, p, t, app) {
      var x := s.keys.sessions[t].value;
      RemainingIsUntilExpiry(x, p, s.clock);
      if Rotates(s, p, t, app) { RotateWrites(s.keys, x, p, s.clock, later, spare); }
      if Extends(s, p, t, app) { ExtendWrites(s.keys, x, p, s.clock, later); }
    }
  }

  lemma CheckKeepsToken(s: Sys, p: Policy, token: Token, app: nat, later: int, spare: Token, t: Token)
    requires p.Valid() && Inv(s, p)
    ensures TokenInv(Apply(s, p, Check(token, app, later, spare)), p, t)
  {
    assert TokenInv(s, p, t) && TokenInv(s, p, token) && TokenInv(s, p, spare);
    CheckCases(s, p, token, app, later, spare);
    if Passes(s, p, token, app) && token in s.succ {
      SupersededFindsLock(s, p, token, app);
    }
    if Rotates(s, p, token, app) && spare !in s.used {
      RotateKeepsToken(s, p, token, app, spare, t);
    }
  }

  /** A rotation of `token`, seen from any token `t`. */
  lemma RotateKeepsToken(s: Sys, p: Policy, token: Token, app: nat, spare: Token, t: Token)
    requires p.Valid() && Inv(s, p) && Rotates(s, p, token, app) && spare !in s.used && token !in s.succ
    ensures var x := s.keys.sessions[token].value;
            TokenInv(s.(keys := RotatedKeys(s.keys, x, p, s.clock, spare), used := s.used + {spare},
                        head := s.head[x.id := spare], succ := s.succ[token := spare]), p, t)
  {
    assert TokenInv(s, p, t) && TokenInv(s, p, token);
  }

  lemma LoginKeepsToken(s: Sys, p: Policy, id: nat, token: Token, user: nat, app: nat, mobile: bool, t: Token)
    requires p.Valid() && Inv(s, p)
    ensures TokenInv(Apply(s, p, Login(id, token, user, app, mobile)), p, t)
  {
    assert TokenInv(s, p, t);
    IdlePositive(p, mobile);
  }

  lemma StepKeepsToken(s: Sys, p: Policy, a: Action, t: Token)
    requires p.Valid() && Inv(s, p)
    ensures TokenInv(Apply(s, p, a), p, t)
  {
    assert TokenInv(s, p, t);
    match a
    case Check(token, app, later, spare) => CheckKeepsToken(s, p, token, app, later, spare, t);
    case Login(id, token, user, app, mobile) => LoginKeepsToken(s, p, id, token, user, app, mobile, t);
    case Tick(_) =>
    case Revoke(_) =>
    case Bump(_) =>
  }

  /** A check leaves the history alone, or exchanges a token that was not exchanged before for the spare one. */
  lemma CheckExchanges(s: Sys, p: Policy, token: Token, app: nat, later: int, spare: Token)
    requires p.Valid() && Inv(s, p)
    ensures var n := Apply(s, p, Check(token, app, later, spare));
            && n.born == s.born
            && ((n.succ == s.succ && n.head == s.head && n.used == s.used)
                || (&& token in s.keys.sessions && token in s.used && token !in s.succ && spare !in s.used
                    && var id := s.keys.sessions[token].value.id;
                       && id in s.born && n.used == s.used + {spare}
                       && n.head == s.head[id := spare] && n.succ == s.succ[token := spare]))
  {
    assert TokenInv(s, p, token) && TokenInv(s, p, spare);
    CheckCases(s, p, token, app, later, spare);
    if Passes(s, p, token, app) && token in s.succ {
      SupersededFindsLock(s, p, token, app);
    }
  }

  lemma StepKeepsHistory(s: Sys, p: Policy, a: Action)
    requires p.Valid() && Inv(s, p)
    ensures HistoryInv(Apply(s, p, a))
    ensures forall t :: t in s.succ ==> t in Apply(s, p, a).succ && Apply(s, p, a).succ[t] == s.succ[t]
    ensures forall id :: id in s.born ==> id in Apply(s, p, a).born && Apply(s, p, a).born[id] == s.born[id]
  {
    if a.Check? {
      CheckExchanges(s, p, a.token, a.app, a.later, a.spare);
    }
  }

  lemma StepKeepsInv(s: Sys, p: Policy, a: Action)
    requires p.Valid() && Inv(s, p)
    ensures Inv(Apply(s, p, a), p)
  {
    StepKeepsHistory(s, p, a);
    forall t ensures TokenInv(Apply(s, p, a), p, t) {
      StepKeepsToken(s, p, a, t);
    }
  }

  lemma {:induction false} RunKeepsInv(s: Sys, p: Policy, actions: seq<Action>)
    requires p.Valid() && Inv(s, p)
    ensures Inv(Run(s, p, actions), p)
    ensures forall t :: t in s.succ ==> t in Run(s, p, actions).succ && Run(s, p, actions).succ[t] == s.succ[t]
    ensures forall id :: id in s.born ==> id in Run(s, p, actions).born && Run(s, p, actions).born[id] == s.born[id]
    decreases |actions|
  {
    if actions == [] {
    } else {
      StepKeepsHistory(s, p, actions[0]);
      StepKeepsInv(s, p, actions[0]);
      RunKeepsInv(Apply(s, p, actions[0]), p, actions[1..]);
    }
  }

  // ----- What it means -----

  predicate Reached(s: Sys, p: Policy, actions: seq<Action>) {
    p.Valid() && s == Run(START, p, actions)
  }

  lemma ReachedInv(s: Sys, p: Policy, actions: seq<Action>)
    requires Reached(s, p, actions)
    ensures Inv(s, p)
  {
    RunKeepsInv(START, p, actions);
  }

  /** The tokens of one session that a Validate at this instant would accept. */
  ghost function Accepting(s: Sys, p: Policy, id: nat): set<Token> {
    set t | t in s.keys.sessions && s.keys.sessions[t].value.id == id
         && Checked(s, p, t, s.keys.sessions[t].value.app, s.clock, 0).verdict.Accepted?
  }

  lemma AcceptedPasses(s: Sys, p: Policy, t: Token, app: nat, later: int, spare: Token)
    requires p.Valid()
    ensures Checked(s, p, t, app, later, spare).verdict.Accepted? <==> Passes(s, p, t, app)
  {
  }

  /** At most two tokens of one session validate at any instant. */
  lemma AtMostTwoValidate(s: Sys, p: Policy, actions: seq<Action>, id: nat)
    requires Reached(s, p, actions)
    ensures |Accepting(s, p, id)| <= 2
  {
    ReachedInv(s, p, actions);
    var live := Accepting(s, p, id);
    if t, u :| t in live && u in live && t != u {
      forall v | v in live
        ensures id in s.head && if v in s.succ then s.succ[v] == s.head[id] else s.head[id] == v
      {
        assert TokenInv(s, p, v);
        AcceptedPasses(s, p, v, s.keys.sessions[v].value.app, s.clock, 0);
      }
      assert live == {t, u};
    } else if t :| t in live {
      assert live == {t};
    } else {
      assert live == {};
    }
  }

  /** A superseded token is never extended or rotated again: any accepted Validate of it leaves every key as it was,
      and reports the one successor it was exchanged for, which no later step changes. */
  lemma SupersededReportsItsSuccessor(s: Sys, p: Policy, before: seq<Action>, after: seq<Action>,
                                      t: Token, app: nat, later: int, spare: Token)
    requires p.Valid() && s == Run(START, p, before) && t in s.succ
    ensures var s' := Run(s, p, after);
            && t in s'.succ && s'.succ[t] == s.succ[t]
            && var e := Checked(s', p, t, app, later, spare);
               e.verdict.Accepted? ==> e.keys == s'.keys && e.verdict.newToken == Some(s.succ[t])
  {
    ReachedInv(s, p, before);
    RunKeepsInv(s, p, after);
    var s' := Run(s, p, after);
    AcceptedPasses(s', p, t, app, later, spare);
    if Passes(s', p, t, app) {
      SupersededFindsLock(s', p, t, app);
    }
  }

  /** No extension or rotation outlives the login: a token is accepted only strictly before its session's login time
      plus max_lifetime, and the login time never changes. */
  lemma LifetimeIsBounded(s: Sys, p: Policy, before: seq<Action>, after: seq<Action>, t: Token, app: nat, later: int,
      spare: Token)
    requires p.Valid() && s == Run(START, p, before)
    ensures var s' := Run(s, p, after);
            Checked(s', p, t, app, later, spare).verdict.Accepted? ==>
              var id := s'.keys.sessions[t].value.id;
              && id in s'.born && s'.clock < s'.born[id] + p.maxLifetime * 1000
              && (id in s.born ==> s'.born[id] == s.born[id])
  {
    ReachedInv(s, p, before);
    RunKeepsInv(s, p, after);
    var s' := Run(s, p, after);
    AcceptedPasses(s', p, t, app, later, spare);
    assert TokenInv(s', p, t);
  }

  /** The cache time granted, counted from the call's first clock reading, ends no later than the presented token
      itself does after the call: neither its session nor its key is gone before. And no ttl handed to the store is
      ever zero or negative. */
  lemma CacheTtlIsSafe(s: Sys, p: Policy, actions: seq<Action>, t: Token, app: nat, later: int, spare: Token)
    requires Reached(s, p, actions) && later >= s.clock && spare !in s.used
    ensures var e := Checked(s, p, t, app, later, spare);
            && e.verdict != Internal
            && (e.verdict.Accepted? ==>
                  && t in e.keys.sessions
                  && 0 <= e.verdict.cacheTtl <= p.tokenCacheTtl * 1000
                  && s.clock + e.verdict.cacheTtl <= e.keys.sessions[t].value.ExpiresAt(p)
                  && s.clock + e.verdict.cacheTtl <= e.keys.sessions[t].expiry)
  {
    ReachedInv(s, p, actions);
    assert TokenInv(s, p, t) && TokenInv(s, p, spare);
    CheckCases(s, p, t, app, later, spare);
    if Passes(s, p, t, app) {
      var x := s.keys.sessions[t].value;
      IdlePositive(p, x.mobile);
      RemainingIsUntilExpiry(x, p, later);
      RemainingIsUntilExpiry(Extended(x, p, s.clock), p, later);
      RemainingIsUntilExpiry(Successor(x, p, s.clock, spare), p, later);
    }
  }

  /** After an accepted Validate that rotated, the old token's session and key both end one grace period later, and the
      new token belongs to the same session, with its login time and epoch. */
  lemma GraceIsExact(s: Sys, p: Policy, actions: seq<Action>, t: Token, app: nat, later: int, spare: Token)
    requires Reached(s, p, actions) && later >= s.clock && spare !in s.used
    requires Checked(s, p, t, app, later, spare).verdict.Accepted?
        && spare in Checked(s, p, t, app, later, spare).keys.sessions
    ensures var k := Checked(s, p, t, app, later, spare).keys;
            && t in k.sessions
            && k.sessions[t].value.idleExpiresAt == s.clock + Grace(p) == k.sessions[t].expiry
            && k.sessions[spare].value.firstAuthAt == s.keys.sessions[t].value.firstAuthAt
            && k.sessions[spare].value.epoch == s.keys.sessions[t].value.epoch
            && k.sessions[spare].value.id == s.keys.sessions[t].value.id
  {
    ReachedInv(s, p, actions);
    assert TokenInv(s, p, t) && TokenInv(s, p, spare);
    CheckCases(s, p, t, app, later, spare);
  }

  /** A superseded token's session is only ever removed, never written again. */
  lemma StepLeavesSuperseded(s: Sys, p: Policy, a: Action, t: Token)
    requires p.Valid() && Inv(s, p) && t in s.succ
    ensures var n := Apply(s, p, a);
            t in n.keys.sessions ==> t in s.keys.sessions && n.keys.sessions[t] == s.keys.sessions[t]
    ensures t in Apply(s, p, a).succ
  {
    if a.Check? {
      CheckExchanges(s, p, a.token, a.app, a.later, a.spare);
      assert TokenInv(s, p, a.token);
      CheckCases(s, p, a.token, a.app, a.later, a.spare);
      if Passes(s, p, a.token, a.app) && a.token in s.succ {
        SupersededFindsLock(s, p, a.token, a.app);
      }
    }
  }

  lemma {:induction false} RunLeavesSuperseded(s: Sys, p: Policy, actions: seq<Action>, t: Token)
    requires p.Valid() && Inv(s, p) && t in s.succ
    ensures var n := Run(s, p, actions);
            t in n.keys.sessions ==> t in s.keys.sessions && n.keys.sessions[t] == s.keys.sessions[t]
    decreases |actions|
  {
    if actions == [] {
    } else {
      StepLeavesSuperseded(s, p, actions[0], t);
      StepKeepsInv(s, p, actions[0]);
      RunLeavesSuperseded(Apply(s, p, actions[0]), p, actions[1..], t);
    }
  }

  /** Once its grace period is over, a rotated token never validates again, whatever happens in between. */
  lemma NeverAfterGrace(s: Sys, p: Policy, actions: seq<Action>, t: Token, app: nat, later: int, spare: Token,
                        after: seq<Action>, again: int, other: Token)
    requires Reached(s, p, actions) && later >= s.clock && spare !in s.used
    requires Checked(s, p, t, app, later, spare).verdict.Accepted?
        && spare in Checked(s, p, t, app, later, spare).keys.sessions
    ensures var n := Run(Apply(s, p, Check(t, app, later, spare)), p, after);
            n.clock >= s.clock + Grace(p) ==> !Checked(n, p, t, app, again, other).verdict.Accepted?
  {
    GraceIsExact(s, p, actions, t, app, later, spare);
    ReachedInv(s, p, actions);
    StepKeepsInv(s, p, Check(t, app, later, spare));
    var n := Apply(s, p, Check(t, app, later, spare));
    RunLeavesSuperseded(n, p, after, t);
    AcceptedPasses(Run(n, p, after), p, t, app, again, other);
  }
}
