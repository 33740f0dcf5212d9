/** Issuing, validating, extending, rotating and revoking session tokens (internal/service/session.go) over the keys
    of internal/store/session.go. A key with an expiry exists strictly before it. */
module Sessions {
  import opened Wrappers
  import opened SessionPolicy

  type Token = nat

  datatype Cell<V> = Cell(value: V, expiry: int)

  /** fp:sess:{token}, fp:rot:{old token}, fp:lock:rot:{session id}, fp:lock:ext:{token}, fp:usess:{user id}. */
  datatype Keys = Keys(
    sessions: map<Token, Cell<Session>>,
    rotations: map<Token, Cell<Token>>,
    rotLocks: map<nat, int>,
    extLocks: map<Token, int>,
    index: map<nat, Cell<set<Token>>>)

  const INDEX_MIN_TTL := 7 * 24 * 3_600_000

  function IndexTtl(ttl: int): int {
    if ttl < INDEX_MIN_TTL then INDEX_MIN_TTL else ttl
  }

  /** SADD, onto nothing if the user's index key has expired, and EXPIRE. */
  function Indexed(index: map<nat, Cell<set<Token>>>, user: nat, t: Token, ttl: int, now: int): map<nat,
      Cell<set<Token>>> {
    var members := if user in index && now < index[user].expiry then index[user].value else {};
    index[user := Cell(members + {t}, now + IndexTtl(ttl))]
  }

  /** SREM */
  function Unindexed(index: map<nat, Cell<set<Token>>>, user: nat, t: Token): map<nat, Cell<set<Token>>> {
    if user in index then index[user := Cell(index[user].value - {t}, index[user].expiry)] else index
  }

  function Read<V>(m: map<Token, Cell<V>>, k: Token, now: int): Option<V> {
    if k in m && now < m[k].expiry then Some(m[k].value) else None
  }

  predicate Locked(m: map<nat, int>, k: nat, now: int) {
    k in m && now < m[k]
  }

  /** Validate's answers. Internal is what Put and PutRotation return for a ttl that is not positive. */
  datatype Verdict =
    | Accepted(session: Session, cacheTtl: int, newToken: Option<Token>)
    | Unauthorized
    | Internal

  // ----- Specification, one call at a time -----

  datatype Effect = Effect(keys: Keys, verdict: Verdict)

  function Put(k: Keys, s: Session, ttl: int, now: int): Option<Keys> {
    if ttl <= 0 then None
    else Some(k.(sessions := k.sessions[s.token := Cell(s, now + ttl)], index := Indexed(k.index, s.user, s.token,
        ttl, now)))
  }

  /** Reads the session first, to know whose index it is in. */
  function Delete(k: Keys, t: Token, now: int): Keys {
    match Read(k.sessions, t, now)
    case None => k.(sessions := k.sessions - {t})
    case Some(s) => k.(sessions := k.sessions - {t}, index := Unindexed(k.index, s.user, t))
  }

  function PutRotation(k: Keys, from: Token, to: Token, ttl: int, now: int): Option<Keys> {
    if ttl <= 0 then None else Some(k.(rotations := k.rotations[from := Cell(to, now + ttl)]))
  }

  function Extended(s: Session, p: Policy, now: int): Session {
    s.(lastExtendedAt := now, idleExpiresAt := now + p.IdleFor(s.mobile))
  }

  /** The session under its new token: same id, first authentication and epoch. */
  function Successor(s: Session, p: Policy, now: int, spare: Token): Session {
    s.(token := spare, issuedAt := now, lastExtendedAt := now, idleExpiresAt := now + p.IdleFor(s.mobile))
  }

  /** The session under its old token once superseded. */
  function Superseded(s: Session, p: Policy, now: int): Session {
    s.(idleExpiresAt := now + Grace(p))
  }

  function Answer(s: Session, p: Policy, later: int, newToken: Option<Token>): Verdict {
    Accepted(s, CacheTtl(s.RemainingAt(later, p), p), newToken)
  }

  function Extend(k: Keys, s: Session, p: Policy, now: int, later: int): Effect {
    if Locked(k.extLocks, s.token, now) then Effect(k, Answer(s, p, later, None))
    else
      var e := Extended(s, p, now);
      var locked := k.(extLocks := k.extLocks[s.token := now + EXTEND_LOCK_TTL]);
      match Put(locked, e, e.RemainingAt(now, p), now)
      case None => Effect(locked, Internal)
      case Some(k') => Effect(k', Answer(e, p, later, None))
  }

  /** What a rotation leaves, whether its stores succeeded, the token it tells, and the session it answers for. */
  datatype Rotation = Rotation(keys: Keys, ok: bool, told: Option<Token>, current: Session)

  function Rotating(k: Keys, s: Session, p: Policy, now: int, spare: Token): Rotation {
    if Locked(k.rotLocks, s.id, now) then Rotation(k, true, Read(k.rotations, s.token, now), s)
    else
      var n := Successor(s, p, now, spare);
      var k0 := k.(rotLocks := k.rotLocks[s.id := now + Grace(p)]);
      match Put(k0, n, n.RemainingAt(now, p), now)
      case None => Rotation(k0, false, None, s)
      case Some(k1) =>
        match PutRotation(k1, s.token, spare, Grace(p), now)
        case None => Rotation(k1, false, None, s)
        case Some(k2) =>
          match Put(k2, Superseded(s, p, now), Grace(p), now)
          case None => Rotation(k2, false, None, s)
          case Some(k3) => Rotation(k3, true, Some(spare), n)
  }

  function Rotate(k: Keys, s: Session, p: Policy, now: int, later: int, spare: Token): Effect {
    var r := Rotating(k, s, p, now, spare);
    Effect(r.keys, if r.ok then Answer(r.current, p, later, r.told) else Internal)
  }

  /** `now` and `later` are the two clock readings of the call, `epoch` the user's current epoch, `spare` the random
      token a rotation would use. */
  function Validate(k: Keys, token: Token, app: nat, p: Policy, epoch: nat, now: int, later: int,
      spare: Token): Effect {
    match Read(k.sessions, token, now)
    case None => Effect(k, Unauthorized)
    case Some(s) =>
      if s.app != app then Effect(k, Unauthorized)
      else if s.epoch != epoch then Effect(Delete(k, s.token, now), Unauthorized)
      else if s.RemainingAt(now, p) <= 0 then Effect(k, Unauthorized)
      else if now - s.issuedAt >= p.rotateInterval * 1000 then Rotate(k, s, p, now, later, spare)
      else if now - s.lastExtendedAt >= p.extendInterval * 1000 then Extend(k, s, p, now, later)
      else Effect(k, Answer(s, p, later, None))
  }

  function Issued(id: nat, token: Token, user: nat, app: nat, p: Policy, mobile: bool, epoch: nat, now: int): Session {
    Session(id, token, user, app, now, now, now, now + p.IdleFor(mobile), mobile, epoch)
  }

  // ----- The code -----

  class Service {
    const policy: Policy
    var sessions: map<Token, Cell<Session>>
    var rotations: map<Token, Cell<Token>>
    var rotLocks: map<nat, int>
    var extLocks: map<Token, int>
    var index: map<nat, Cell<set<Token>>>

    constructor (p: Policy)
      ensures policy == p && Snapshot() == Keys(map[], map[], map[], map[], map[])
    {
      policy := p;
      sessions, rotations, rotLocks, extLocks, index := map[], map[], map[], map[], map[];
    }

    ghost function Snapshot(): Keys
      reads this
    {
      Keys(sessions, rotations, rotLocks, extLocks, index)
    }

    method StorePut(s: Session, ttl: int, now: int) returns (ok: bool)
      modifies this`sessions, this`index
      ensures ok <==> Put(old(Snapshot()), s, ttl, now).Some?
      ensures Snapshot() == if ok then Put(old(Snapshot()), s, ttl, now).value else old(Snapshot())
    {
      if ttl <= 0 {
        return false;
      }
      var indexTtl := ttl;
      if indexTtl < INDEX_MIN_TTL {
        indexTtl := INDEX_MIN_TTL;
      }
      var members := if s.user in index && now < index[s.user].expiry then index[s.user].value else {};
      sessions := sessions[s.token := Cell(s, now + ttl)];
      index := index[s.user := Cell(members + {s.token}, now + indexTtl)];
      return true;
    }

    method StoreDelete(t: Token, now: int)
      modifies this`sessions, this`index
      ensures Snapshot() == Delete(old(Snapshot()), t, now)
    {
      if t in sessions && now < sessions[t].expiry {
        var user := sessions[t].value.user;
        if user in index {
          index := index[user := Cell(index[user].value - {t}, index[user].expiry)];
        }
      }
      sessions := sessions - {t};
    }

    method TryExtend(s: Session, now: int) returns (ok: bool, updated: Option<Session>)
      modifies this`extLocks, this`sessions, this`index
      ensures forall later :: var e := Extend(old(Snapshot()), s, policy, now, later);
                && Snapshot() == e.keys && (ok <==> e.verdict != Internal)
                && (ok ==> e.verdict == Answer(if updated.Some? then updated.value else s, policy, later, None))
    {
      if s.token in extLocks && now < extLocks[s.token] {
        return true, None;
      }
      extLocks := extLocks[s.token := now + EXTEND_LOCK_TTL];
      var e := s.(lastExtendedAt := now);
      e := e.(idleExpiresAt := now + policy.IdleFor(s.mobile));
      ok := StorePut(e, e.RemainingAt(now, policy), now);
      return ok, if ok then Some(e) else None;
    }

    method TryRotate(s: Session, now: int, spare: Token)
        returns (ok: bool, newToken: Option<Token>, newSession: Option<Session>)
      modifies this`rotLocks, this`sessions, this`rotations, this`index
      ensures Rotation(Snapshot(), ok, newToken, if newSession.Some? then newSession.value else s)
           == Rotating(old(Snapshot()), s, policy, now, spare)
      ensures newSession.Some? ==> newToken.Some?
    {
      var grace := Grace(policy);
      if s.id in rotLocks && now < rotLocks[s.id] {
        if s.token in rotations && now < rotations[s.token].expiry {
          return true, Some(rotations[s.token].value), None;
        }
        return true, None, None;
      }
      rotLocks := rotLocks[s.id := now + grace];
      var n := s.(token := spare);
      n := n.(issuedAt := now, lastExtendedAt := now);
      n := n.(idleExpiresAt := now + policy.IdleFor(s.mobile));
      ok := StorePut(n, n.RemainingAt(now, policy), now);
      if !ok {
        return false, None, None;
      }
      if grace <= 0 {
        return false, None, None;
      }
      rotations := rotations[s.token := Cell(spare, now + grace)];
      var previous := s.(idleExpiresAt := now + grace);
      ok := StorePut(previous, grace, now);
      if !ok {
        return false, None, None;
      }
      return true, Some(spare), Some(n);
    }

    method ValidateToken(token: Token, app: nat, epoch: nat, now: int, later: int, spare: Token) returns (v: Verdict)
      modifies this
      ensures Effect(Snapshot(), v) == Validate(old(Snapshot()), token, app, policy, epoch, now, later, spare)
    {
      if token !in sessions || now >= sessions[token].expiry {
        return Unauthorized;
      }
      var s := sessions[token].value;
      if s.app != app {
        return Unauthorized;
      }
      if epoch != s.epoch {
        StoreDelete(s.token, now);
        return Unauthorized;
      }
      if s.RemainingAt(now, policy) <= 0 {
        return Unauthorized;
      }
      var result, told := s, None;
      if now - s.issuedAt >= policy.rotateInterval * 1000 {
        var ok, newToken, newSession := TryRotate(s, now, spare);
        if !ok {
          return Internal;
        }
        if newToken.Some? {
          told := newToken;
          if newSession.Some? {
            result := newSession.value;
          }
        }
      } else if now - s.lastExtendedAt >= policy.extendInterval * 1000 {
        var ok, updated := TryExtend(s, now);
        if !ok {
          return Internal;
        }
        if updated.Some? {
          result := updated.value;
        }
      }
      return Accepted(result, CacheTtl(result.RemainingAt(later, policy), policy), told);
    }

    method Issue(id: nat, token: Token, user: nat, app: nat, mobile: bool, epoch: nat, now: int)
        returns (s: Option<Session>)
      modifies this`sessions, this`index
      ensures var n := Issued(id, token, user, app, policy, mobile, epoch, now);
              var k := Put(old(Snapshot()), n, policy.IdleFor(mobile), now);
              && s == (if k.Some? then Some(n) else None)
              && Snapshot() == (if k.Some? then k.value else old(Snapshot()))
    {
      var idle := policy.IdleFor(mobile);
      var n := Session(id, token, user, app, now, now, now, now + idle, mobile, epoch);
      var ok := StorePut(n, idle, now);
      return if ok then Some(n) else None;
    }
  }
}
