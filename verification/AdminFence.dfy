/** Console logins against account changes and resets (internal/service/admin.go): the epoch is read before the row,
    and the row is committed before the epoch is incremented. One step per database or Redis operation. */
module AdminFence {
  type AdminId = nat
  type Id = nat
  type Token = nat

  /** bcrypt hashes are drawn anew: a number never used before. */
  datatype Row = Row(hash: nat, active: bool)

  /** A row as someone who verified its password saw it. */
  datatype Version = Version(admin: AdminId, hash: nat)

  datatype Login =
    | EpochRead(epoch: nat)
    | Verified(epoch: nat, version: Version)
    | Issued(token: Token)
    | Denied

  datatype Op =
    | Loaded(version: Version)                        // ChangeAccount has checked the old password
    | Committed
    | Bumped
    | Failed

  /** The payload stored under a token, with the row version its login verified (history). */
  datatype Session = Session(epoch: nat, verified: Version)

  /** Authenticate: the payload is read first, the current epoch after it. */
  datatype Check = Fetched(session: Session) | Accepted | Rejected

  datatype State = State(
    rows: map<AdminId, Row>, epoch: nat, sessions: map<Token, Session>,
    logins: map<Id, Login>, ops: map<Id, Op>, checks: map<Id, Check>, nextHash: nat)
  {
    /** A login that reads the row now can still verify this version. */
    predicate InForce(v: Version) {
      v.admin in rows && rows[v.admin] == Row(v.hash, true)
    }
  }

  datatype Action =
    | ReadEpoch(login: Id)
    | ReadRow(login: Id, admin: AdminId)              // and the password matched
    | IssueToken(login: Id, token: Token)
    | LoadRow(op: Id, admin: AdminId)                 // ChangeAccount, and the old password matched
    | CommitChange(op: Id, newPassword: bool)
    | CommitReset(op: Id, keep: AdminId)
    | Incr(op: Id)
    | FetchPayload(check: Id, token: Token)
    | CompareEpoch(check: Id)
    | Forget(token: Token)                            // logout or expiry

  function Apply(s: State, a: Action): State {
    match a
    case ReadEpoch(i) =>
      if i in s.logins then s else s.(logins := s.logins[i := EpochRead(s.epoch)])
    case ReadRow(i, admin) =>
      if i !in s.logins || !s.logins[i].EpochRead? then s
      else if admin !in s.rows || !s.rows[admin].active then s.(logins := s.logins[i := Denied])
      else s.(logins := s.logins[i := Verified(s.logins[i].epoch, Version(admin, s.rows[admin].hash))])
    case IssueToken(i, t) =>
      if i !in s.logins || !s.logins[i].Verified? || t in s.sessions then s
      else s.(sessions := s.sessions[t := Session(s.logins[i].epoch, s.logins[i].version)],
              logins := s.logins[i := Issued(t)])
    case LoadRow(i, admin) =>
      if i in s.ops then s
      else if admin !in s.rows || !s.rows[admin].active then s.(ops := s.ops[i := Failed])
      else s.(ops := s.ops[i := Loaded(Version(admin, s.rows[admin].hash))])
    case CommitChange(i, newPassword) =>
      if i !in s.ops || !s.ops[i].Loaded? then s
      else
        var was := s.ops[i].version;
        // WHERE id = $1 AND password_hash = $4 AND status = 'ACTIVE'
        if !s.InForce(was) then s.(ops := s.ops[i := Failed])
        else if newPassword then
          s.(rows := s.rows[was.admin := Row(s.nextHash, true)], nextHash := s.nextHash + 1,
              ops := s.ops[i := Committed])
        else s.(ops := s.ops[i := Committed])
    case CommitReset(i, keep) =>
      if !CanReset(s, i, keep) then s
      else s.(rows := Reset(s.rows, keep, s.nextHash), nextHash := s.nextHash + 1, ops := s.ops[i := Committed])
    case Incr(i) =>
      if i !in s.ops || !s.ops[i].Committed? then s else s.(epoch := s.epoch + 1, ops := s.ops[i := Bumped])
    case FetchPayload(i, t) =>
      if i in s.checks then s
      else s.(checks := s.checks[i := if t in s.sessions then Fetched(s.sessions[t]) else Rejected])
    case CompareEpoch(i) =>
      if i !in s.checks || !s.checks[i].Fetched? then s
      else s.(checks := s.checks[i := if s.checks[i].session.epoch == s.epoch then Accepted else Rejected])
    case Forget(t) => s.(sessions := s.sessions - {t})
  }

  /** The oldest row is kept, or one is created in an empty table. */
  predicate CanReset(s: State, op: Id, keep: AdminId) {
    op !in s.ops && (keep in s.rows || s.rows == map[])
  }

  function Reset(rows: map<AdminId, Row>, keep: AdminId, hash: nat): map<AdminId, Row> {
    map x | x in rows.Keys + {keep} :: if x == keep then Row(hash, true) else rows[x].(active := false)
  }

  function Run(s: State, actions: seq<Action>): State
    decreases |actions|
  {
    if actions == [] then s else Run(Apply(s, actions[0]), actions[1..])
  }

  // ----- What every interleaving keeps -----

  predicate RowInv(s: State, a: AdminId) {
    a in s.rows ==> s.rows[a].hash < s.nextHash
  }

  predicate LoginInv(s: State, l: Id) {
    l in s.logins ==>
      match s.logins[l]
      case EpochRead(e) => e <= s.epoch
      case Verified(e, v) => e <= s.epoch
      case _ => true
  }

  predicate SessionInv(s: State, t: Token) {
    t in s.sessions ==> s.sessions[t].epoch <= s.epoch
  }

  predicate CheckInv(s: State, c: Id) {
    c in s.checks && s.checks[c].Fetched? ==> s.checks[c].session.epoch <= s.epoch
  }

  ghost predicate Inv(s: State) {
    && (forall a :: RowInv(s, a))
    && (forall l :: LoginInv(s, l))
    && (forall t :: SessionInv(s, t))
    && (forall c :: CheckInv(s, c))
  }

  /** Any set of rows may have been there before. */
  ghost predicate Starts(s: State) {
    s.sessions == map[] && s.logins == map[] && s.ops == map[] && s.checks == map[] && forall a :: RowInv(s, a)
  }

  ghost predicate Reachable(s: State) {
    exists start, actions :: Starts(start) && s == Run(start, actions)
  }

  lemma ReachableInv(s: State)
    requires Reachable(s)
    ensures Inv(s)
  {
    var start, actions :| Starts(start) && s == Run(start, actions);
    RunKeepsInv(start, actions);
  }

  lemma StepKeepsRow(s: State, a: Action, r: AdminId)
    requires Inv(s)
    ensures RowInv(Apply(s, a), r)
  {
    assert RowInv(s, r);
  }

  lemma StepKeepsLogin(s: State, a: Action, l: Id)
    requires Inv(s)
    ensures LoginInv(Apply(s, a), l)
  {
    assert LoginInv(s, l);
  }

  lemma StepKeepsSession(s: State, a: Action, t: Token)
    requires Inv(s)
    ensures SessionInv(Apply(s, a), t)
  {
    assert SessionInv(s, t);
    if a.IssueToken? { assert LoginInv(s, a.login); }
  }

  lemma StepKeepsCheck(s: State, a: Action, c: Id)
    requires Inv(s)
    ensures CheckInv(Apply(s, a), c)
  {
    assert CheckInv(s, c);
    if a.FetchPayload? { assert SessionInv(s, a.token); }
  }

  lemma StepKeepsInv(s: State, a: Action)
    requires Inv(s)
    ensures Inv(Apply(s, a))
  {
    forall r ensures RowInv(Apply(s, a), r) { StepKeepsRow(s, a, r); }
    forall l ensures LoginInv(Apply(s, a), l) { StepKeepsLogin(s, a, l); }
    forall t ensures SessionInv(Apply(s, a), t) { StepKeepsSession(s, a, t); }
    forall c ensures CheckInv(Apply(s, a), c) { StepKeepsCheck(s, a, c); }
  }

  lemma {:induction false} RunKeepsInv(s: State, actions: seq<Action>)
    requires Inv(s)
    ensures Inv(Run(s, actions))
    decreases |actions|
  {
    if actions == [] {
    } else {
      StepKeepsInv(s, actions[0]);
      RunKeepsInv(Apply(s, actions[0]), actions[1..]);
    }
  }

  // ----- The fence -----

  /** A version that is no longer in force, and whose hash is not one still to come. */
  predicate Ended(s: State, v: Version) {
    v.hash < s.nextHash && !s.InForce(v)
  }

  /** Everything that goes back to v carries an epoch before e: logins under way, stored payloads, fetched payloads. */
  ghost predicate Behind(s: State, v: Version, e: nat) {
    && Ended(s, v) && e <= s.epoch
    && (forall l :: l in s.logins && s.logins[l].Verified? && s.logins[l].version == v ==> s.logins[l].epoch < e)
    && (forall t :: t in s.sessions && s.sessions[t].verified == v ==> s.sessions[t].epoch < e)
    && (forall c :: c in s.checks && s.checks[c].Fetched? && s.checks[c].session.verified == v ==>
        s.checks[c].session.epoch < e)
  }

  lemma StepKeepsEnded(s: State, a: Action, v: Version)
    requires Inv(s) && Ended(s, v)
    ensures Ended(Apply(s, a), v)
  {
    assert RowInv(s, v.admin);
  }

  lemma {:induction false} RunKeepsEnded(s: State, actions: seq<Action>, v: Version)
    requires Inv(s) && Ended(s, v)
    ensures Ended(Run(s, actions), v)
    decreases |actions|
  {
    if actions == [] {
    } else {
      StepKeepsInv(s, actions[0]);
      StepKeepsEnded(s, actions[0], v);
      RunKeepsEnded(Apply(s, actions[0]), actions[1..], v);
    }
  }

  lemma StepKeepsBehind(s: State, a: Action, v: Version, e: nat)
    requires Inv(s) && Behind(s, v, e)
    ensures Behind(Apply(s, a), v, e)
  {
    StepKeepsEnded(s, a, v);
    NextHashGrows(s, a);
    var n := Apply(s, a);
    forall l | l in n.logins && n.logins[l].Verified? && n.logins[l].version == v ensures n.logins[l].epoch < e {
      StepLeavesLogin(s, a, v, l);
    }
    forall t | t in n.sessions && n.sessions[t].verified == v ensures n.sessions[t].epoch < e {
      StepLeavesSession(s, a, v, e, t);
    }
    forall c | c in n.checks && n.checks[c].Fetched? && n.checks[c].session.verified == v
      ensures n.checks[c].session.epoch < e
    {
      StepLeavesCheck(s, a, v, e, c);
    }
  }

  lemma StepLeavesSession(s: State, a: Action, v: Version, e: nat, t: Token)
    requires Behind(s, v, e)
    ensures var n := Apply(s, a); t in n.sessions && n.sessions[t].verified == v ==> n.sessions[t].epoch < e
  {
  }

  lemma StepLeavesCheck(s: State, a: Action, v: Version, e: nat, c: Id)
    requires Behind(s, v, e)
    ensures var n := Apply(s, a);
            c in n.checks && n.checks[c].Fetched? && n.checks[c].session.verified == v ==> n.checks[c].session.epoch < e
  {
  }

  /** A login verifies v now only if it had verified it before. */
  lemma StepLeavesLogin(s: State, a: Action, v: Version, l: Id)
    requires Ended(s, v)
    ensures var n := Apply(s, a);
            l in n.logins && n.logins[l].Verified? && n.logins[l].version == v ==>
                l in s.logins && s.logins[l] == n.logins[l]
  {
  }

  lemma {:induction false} RunKeepsBehind(s: State, actions: seq<Action>, v: Version, e: nat)
    requires Inv(s) && Behind(s, v, e)
    ensures Behind(Run(s, actions), v, e)
    decreases |actions|
  {
    if actions == [] {
    } else {
      StepKeepsInv(s, actions[0]);
      StepKeepsBehind(s, actions[0], v, e);
      RunKeepsBehind(Apply(s, actions[0]), actions[1..], v, e);
    }
  }

  /** The INCR leaves behind whatever goes back to a version that ended before it. */
  lemma IncrLeavesBehind(s: State, op: Id, v: Version)
    requires Inv(s) && Ended(s, v) && op in s.ops && s.ops[op].Committed?
    ensures Behind(Apply(s, Incr(op)), v, s.epoch + 1)
  {
    forall l | l in s.logins && s.logins[l].Verified? ensures s.logins[l].epoch <= s.epoch {
      assert LoginInv(s, l);
    }
    forall t | t in s.sessions ensures s.sessions[t].epoch <= s.epoch {
      assert SessionInv(s, t);
    }
    forall c | c in s.checks && s.checks[c].Fetched? ensures s.checks[c].session.epoch <= s.epoch {
      assert CheckInv(s, c);
    }
  }

  /** The verdict of a check that reads the epoch now. */
  predicate Rejects(s: State, check: Id) {
    var n := Apply(s, CompareEpoch(check));
    check in n.checks && n.checks[check] == Rejected
  }

  /** Let an account change or a reset end the version v of a row: its password was replaced or the row disabled. From
      that operation's INCR on, no Authenticate whose epoch read comes later accepts a token that goes back to a login
      that verified v: not one issued before, not one issued since, not one whose payload was fetched in between, in
      every interleaving of any number of logins, changes, resets and checks. */
  lemma ReplacedPasswordIsLoggedOut(s: State, commit: Action, between: seq<Action>, committed: State, op: Id,
                                    after: seq<Action>, later: State, v: Version, check: Id)
    requires Reachable(s) && s.InForce(v) && !Apply(s, commit).InForce(v)
    requires committed == Run(Apply(s, commit), between) && op in committed.ops && committed.ops[op].Committed?
    requires later == Run(Apply(committed, Incr(op)), after)
    ensures check in later.checks && later.checks[check].Fetched? && later.checks[check].session.verified == v
            ==> Rejects(later, check)
  {
    ReachableInv(s);
    CommitEnds(s, commit, v);
    RunKeepsInv(Apply(s, commit), between);
    RunKeepsEnded(Apply(s, commit), between, v);
    IncrLeavesBehind(committed, op, v);
    StepKeepsInv(committed, Incr(op));
    RunKeepsBehind(Apply(committed, Incr(op)), after, v, committed.epoch + 1);
    if check in later.checks && later.checks[check].Fetched? {
      BehindIsRejected(later, v, committed.epoch + 1, check);
    }
  }

  lemma CommitEnds(s: State, commit: Action, v: Version)
    requires Inv(s) && s.InForce(v) && !Apply(s, commit).InForce(v)
    ensures Inv(Apply(s, commit)) && Ended(Apply(s, commit), v)
  {
    assert RowInv(s, v.admin);
    StepKeepsInv(s, commit);
    NextHashGrows(s, commit);
  }

  lemma BehindIsRejected(s: State, v: Version, e: nat, check: Id)
    requires Behind(s, v, e) && check in s.checks && s.checks[check].Fetched?
    ensures s.checks[check].session.verified == v ==> Rejects(s, check)
  {
  }

  lemma NextHashGrows(s: State, a: Action)
    ensures s.nextHash <= Apply(s, a).nextHash && s.epoch <= Apply(s, a).epoch
  {
  }

  /** Which versions an operation ends: a change exactly the one it loaded, and only with a new password; a reset every
      version there is. Nothing else ends one. */
  lemma WhatEndsAVersion(s: State, a: Action, v: Version)
    requires Reachable(s) && s.InForce(v)
    ensures !Apply(s, a).InForce(v) <==>
              match a
              case CommitChange(op, newPassword) => newPassword && op in s.ops && s.ops[op] == Loaded(v)
              case CommitReset(op, keep) => CanReset(s, op, keep)
              case _ => false
  {
    ReachableInv(s);
    assert RowInv(s, v.admin);
    if a.CommitChange? && a.op in s.ops && s.ops[a.op].Loaded? {
      assert RowInv(s, s.ops[a.op].version.admin);
    }
  }

  /** Every operation that gets as far as its INCR, a mere renaming included, logs out all sessions stored by then. */
  lemma IncrLogsOutEverySession(s: State, op: Id, t: Token, after: seq<Action>)
    requires Reachable(s) && op in s.ops && s.ops[op].Committed? && t in s.sessions
    ensures s.sessions[t].epoch < Run(Apply(s, Incr(op)), after).epoch
  {
    ReachableInv(s);
    assert SessionInv(s, t);
    EpochGrows(Apply(s, Incr(op)), after);
  }

  lemma {:induction false} EpochGrows(s: State, actions: seq<Action>)
    ensures s.epoch <= Run(s, actions).epoch
    decreases |actions|
  {
    if actions == [] {
    } else {
      NextHashGrows(s, actions[0]);
      EpochGrows(Apply(s, actions[0]), actions[1..]);
    }
  }

  // ----- And nobody else is kept out -----

  /** The epoch comparison accepts exactly the payloads of the current epoch, and touches nothing but its own check. */
  lemma ComparedExactly(s: State, check: Id)
    requires check in s.checks && s.checks[check].Fetched?
    ensures var n := Apply(s, CompareEpoch(check));
            && check in n.checks && n == s.(checks := n.checks)
            && (s.checks[check].session.epoch == s.epoch ==> n.checks[check] == Accepted)
            && (s.checks[check].session.epoch != s.epoch ==> n.checks[check] == Rejected)
  {
  }

  /** A login on an active row that nothing interferes with stores a session of the current epoch ... */
  lemma UndisturbedLogin(s: State, login: Id, admin: AdminId, t: Token)
    requires login !in s.logins && admin in s.rows && s.rows[admin].active && t !in s.sessions
    ensures var n := Apply(Apply(Apply(s, ReadEpoch(login)), ReadRow(login, admin)), IssueToken(login, t));
            && n.sessions == s.sessions[t := Session(s.epoch, Version(admin, s.rows[admin].hash))]
            && n == s.(sessions := n.sessions, logins := n.logins)
  {
  }

  /** No operation gets to its INCR, and the session is not forgotten. */
  predicate Quiet(s: State, actions: seq<Action>, t: Token)
    decreases |actions|
  {
    actions == []
    || (&& !(actions[0].Incr? && actions[0].op in s.ops && s.ops[actions[0].op].Committed?)
        && actions[0] != Forget(t) && Quiet(Apply(s, actions[0]), actions[1..], t))
  }

  lemma {:induction false} QuietKeeps(s: State, actions: seq<Action>, t: Token)
    requires t in s.sessions && Quiet(s, actions, t)
    ensures var n := Run(s, actions); t in n.sessions && n.sessions[t] == s.sessions[t] && n.epoch == s.epoch
    decreases |actions|
  {
    if actions == [] {
    } else {
      StepLeavesOthers(s, actions[0], t);
      QuietKeeps(Apply(s, actions[0]), actions[1..], t);
    }
  }

  lemma StepLeavesOthers(s: State, a: Action, t: Token)
    requires t in s.sessions && a != Forget(t)
    ensures var n := Apply(s, a);
            && t in n.sessions && n.sessions[t] == s.sessions[t]
            && n.epoch == (if a.Incr? && a.op in s.ops && s.ops[a.op].Committed? then s.epoch + 1 else s.epoch)
  {
  }

  /** ... and a session of the current epoch authenticates until the next INCR, through any logins, checks and
      operations that do not get that far. */
  lemma CurrentSessionAuthenticates(s: State, actions: seq<Action>, t: Token, check: Id)
    requires t in s.sessions && s.sessions[t].epoch == s.epoch && Quiet(s, actions, t)
    ensures var n := Run(s, actions);
            check !in n.checks ==>
              var m := Apply(Apply(n, FetchPayload(check, t)), CompareEpoch(check));
              check in m.checks && m.checks[check] == Accepted
  {
    QuietKeeps(s, actions, t);
  }

  /** A change that loaded the version in force puts the new password in force, on that row only; one whose version is
      no longer in force fails and writes nothing; a renaming alone leaves the version. */
  lemma ChangeWrites(s: State, op: Id, newPassword: bool)
    requires op in s.ops && s.ops[op].Loaded?
    ensures var n, v := Apply(s, CommitChange(op, newPassword)), s.ops[op].version;
            && op in n.ops
            && (!s.InForce(v) ==> n.ops[op] == Failed && n.rows == s.rows && n.nextHash == s.nextHash)
            && (s.InForce(v) ==> n.ops[op] == Committed)
            && (s.InForce(v) && !newPassword ==> n.rows == s.rows)
            && (s.InForce(v) && newPassword ==>
                  && n.InForce(Version(v.admin, s.nextHash)) && n.nextHash > s.nextHash
                  && n.rows.Keys == s.rows.Keys
                  && forall a :: a in s.rows && a != v.admin ==> n.rows[a] == s.rows[a])
  {
  }

  /** A reset leaves one active row, the kept one, under a new password, and disables every other. */
  lemma ResetWrites(s: State, op: Id, keep: AdminId)
    requires op !in s.ops && (keep in s.rows || s.rows == map[])
    ensures var n := Apply(s, CommitReset(op, keep));
            && op in n.ops && n.ops[op] == Committed && n.nextHash > s.nextHash
            && n.InForce(Version(keep, s.nextHash)) && n.rows.Keys == s.rows.Keys + {keep}
            && forall a :: a in s.rows && a != keep ==> !n.rows[a].active && n.rows[a].hash == s.rows[a].hash
  {
  }

  /** Nothing else writes a row, and nothing but the INCR of a committed operation, once each, moves the epoch. */
  lemma NothingElseWrites(s: State, a: Action)
    ensures !a.CommitChange? && !a.CommitReset? ==> Apply(s, a).rows == s.rows
    ensures var counts := a.Incr? && a.op in s.ops && s.ops[a.op].Committed?;
            var n := Apply(s, a);
            && n.epoch == (if counts then s.epoch + 1 else s.epoch)
            && (counts ==> a.op in n.ops && n.ops[a.op] == Bumped)
  {
  }
}
