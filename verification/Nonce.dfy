/** Replay protection for signed requests: the nonce table (sdk/nonce.go) and the window check before it
    (sdk/accesskey.go). Clock readings are in nanoseconds, timestamps and expiries in seconds. */
module Nonce {
  type Key = string
  type Id = nat

  const SECOND: int := 1_000_000_000
  const WINDOW: int := 900

  datatype Verdict = Recorded | Used | Full

  function Unix(now: int): int {
    now / SECOND
  }

  function Unexpired(seen: map<Key, int>, now: int): map<Key, int> {
    map k | k in seen && seen[k] > now :: seen[k]
  }

  /** What add leaves behind and reports; `now` is in seconds. */
  function Added(seen: map<Key, int>, cap: nat, key: Key, expireAt: int, now: int): (Verdict, map<Key, int>) {
    if key in seen && seen[key] > now then (Used, seen)
    else if |seen| < cap then (Recorded, seen[key := expireAt])
    else if |Unexpired(seen, now)| >= cap then (Full, Unexpired(seen, now))
    else (Recorded, Unexpired(seen, now)[key := expireAt])
  }

  class NonceStore {
    const cap: nat
    var seen: map<Key, int>

    constructor (capacity: nat)
      ensures cap == capacity && seen == map[]
    {
      cap, seen := capacity, map[];
    }

    method Add(key: Key, expireAt: int, now: int) returns (verdict: Verdict)
      modifies this
      ensures (verdict, seen) == Added(old(seen), cap, key, expireAt, now)
    {
      if key in seen && seen[key] > now {
        return Used;
      }
      if |seen| >= cap {
        Prune(now);
        if |seen| >= cap {
          return Full;
        }
      }
      seen := seen[key := expireAt];
      return Recorded;
    }

    /** Deletes the expired records one by one, in whatever order the map yields them. */
    method Prune(now: int)
      modifies this
      ensures seen == Unexpired(old(seen), now)
    {
      var rest := seen.Keys;
      while rest != {}
        invariant rest <= seen.Keys
        invariant forall k :: k in seen <==> k in old(seen) && (k in rest || old(seen)[k] > now)
        invariant forall k :: k in seen ==> seen[k] == old(seen)[k]
        decreases |rest|
      {
        var k :| k in rest;
        if seen[k] <= now {
          seen := seen - {k};
        }
        rest := rest - {k};
      }
    }
  }

  // ----- Requests racing on one table -----

  /** Everything a replayed request repeats. */
  datatype Request = Request(ak: string, nonce: string, ts: int)

  predicate IsNonceChar(c: char) {
    'a' <= c <= 'z' || 'A' <= c <= 'Z' || '0' <= c <= '9' || c == '-' || c == '_'
  }

  predicate ValidNonce(s: string) {
    0 < |s| <= 64 && forall i :: 0 <= i < |s| ==> IsNonceChar(s[i])
  }

  function KeyOf(r: Request): Key {
    r.ak + ":" + r.nonce
  }

  /** Two requests share a record only when they repeat both the access key and the nonce. */
  lemma KeysDistinguish(r: Request, q: Request)
    requires ValidNonce(r.nonce) && ValidNonce(q.nonce)
    ensures KeyOf(r) == KeyOf(q) <==> r.ak == q.ak && r.nonce == q.nonce
  {
    if |r.ak| < |q.ak| {
      ColonPlaced(r, q);
    } else if |q.ak| < |r.ak| {
      ColonPlaced(q, r);
    } else if KeyOf(r) == KeyOf(q) {
      assert r.ak == KeyOf(r)[..|r.ak|] && q.ak == KeyOf(q)[..|q.ak|];
      assert r.nonce == KeyOf(r)[|r.ak| + 1..] && q.nonce == KeyOf(q)[|q.ak| + 1..];
    }
  }

  lemma ColonPlaced(r: Request, q: Request)
    requires ValidNonce(r.nonce) && |r.ak| < |q.ak|
    ensures KeyOf(r) != KeyOf(q)
  {
    assert KeyOf(q)[|q.ak|] == ':';
    if |q.ak| < |KeyOf(r)| {
      assert KeyOf(r)[|q.ak|] == r.nonce[|q.ak| - |r.ak| - 1];
    }
  }

  /** The difference from the server's clock may be exactly the window, either way. */
  predicate InWindow(ts: int, now: int) {
    -WINDOW * SECOND <= now - ts * SECOND <= WINDOW * SECOND
  }

  /** A request past the window check, holding the clock reading it made. */
  datatype Pending = Pending(request: Request, reading: int)

  /** History: an accepted request, the reading it was judged by and the clock when it was recorded. */
  datatype Acceptance = Acceptance(request: Request, reading: int, at: int)

  datatype State = State(clock: int, cap: nat, seen: map<Key, int>, pending: map<Id, Pending>,
      accepted: seq<Acceptance>)

  function Start(cap: nat, clock: int): State {
    State(clock, cap, map[], map[], [])
  }

  datatype Action =
    | Tick(d: nat)
    | Arrive(id: Id, request: Request)     // read the clock and check the window
    | Record(id: Id)                       // after the key lookup and the signature check: add

  function Apply(s: State, a: Action): State {
    match a
    case Tick(d) => s.(clock := s.clock + d)
    case Arrive(i, r) =>
      if i in s.pending || !InWindow(r.ts, s.clock) then s
      else s.(pending := s.pending[i := Pending(r, s.clock)])
    case Record(i) => if i in s.pending then Recording(s, i, s.pending[i]) else s
  }

  function Recording(s: State, i: Id, p: Pending): State {
    var (verdict, seen) := Added(s.seen, s.cap, KeyOf(p.request), p.request.ts + WINDOW, Unix(p.reading));
    s.(seen := seen, pending := s.pending - {i},
       accepted := if verdict.Recorded? then s.accepted + [Acceptance(p.request, p.reading, s.clock)] else s.accepted)
  }

  function Run(s: State, actions: seq<Action>): State
    decreases |actions|
  {
    if actions == [] then s else Run(Apply(s, actions[0]), actions[1..])
  }

  predicate Accepts(s: State, i: Id) {
    i in s.pending &&
    Added(s.seen, s.cap, KeyOf(s.pending[i].request), s.pending[i].request.ts + WINDOW,
        Unix(s.pending[i].reading)).0.Recorded?
  }

  /** Pruning at `now` seconds, which happens only when the table is full, leaves a free place. */
  predicate HasRoom(seen: map<Key, int>, cap: nat, now: int) {
    |seen| < cap || |Unexpired(seen, now)| < cap
  }

  /** The table has a record of the request's access key and nonce that expires after `now` seconds. */
  predicate OnRecord(seen: map<Key, int>, r: Request, now: int) {
    KeyOf(r) in seen && seen[KeyOf(r)] > now
  }

  /** What Record does with a request that waits: it accepts exactly if no record of its key is unexpired at its reading
      and there is room, and then the record of its key holds until timestamp + 900 s; each acceptance is counted, and a
      refused request leaves only expired records gone. */
  lemma RecordedExactly(s: State, i: Id)
    requires i in s.pending
    ensures var p, n := s.pending[i], Apply(s, Record(i));
            var now := Unix(p.reading);
            && n.pending == s.pending - {i} && n.clock == s.clock
            && (Accepts(s, i) <==> !OnRecord(s.seen, p.request, now) && HasRoom(s.seen, s.cap, now))
            && (Accepts(s, i) ==>
                  && n.accepted == s.accepted + [Acceptance(p.request, p.reading, s.clock)]
                  && KeyOf(p.request) in n.seen && n.seen[KeyOf(p.request)] == p.request.ts + 900)
            && (!Accepts(s, i) ==> n.accepted == s.accepted && n.seen.Keys <= s.seen.Keys)
    ensures var p, n := s.pending[i], Apply(s, Record(i));
            forall k :: k != KeyOf(p.request) ==>
              && (k in n.seen ==> k in s.seen && n.seen[k] == s.seen[k])
              && (k in s.seen && k !in n.seen ==> s.seen[k] <= Unix(p.reading))
  {
  }

  /** A request gets past the window check exactly if its timestamp is within 900 s of the clock, either way. */
  lemma ArrivesExactly(s: State, i: Id, r: Request)
    requires i !in s.pending
    ensures var n := Apply(s, Arrive(i, r));
            if s.clock - 900 * SECOND <= r.ts * SECOND <= s.clock + 900 * SECOND then
              n == s.(pending := s.pending[i := Pending(r, s.clock)])
            else
              n == s
  {
  }

  /** An accepted request stays on record for as long as its window lasts. */
  predicate RecordInv(s: State, a: Acceptance) {
    a in s.accepted && Unix(s.clock) < a.request.ts + WINDOW ==>
      KeyOf(a.request) in s.seen && s.seen[KeyOf(a.request)] >= a.request.ts + WINDOW
  }

  predicate PendingInv(s: State, i: Id) {
    i in s.pending ==> s.pending[i].reading <= s.clock && InWindow(s.pending[i].request.ts, s.pending[i].reading)
  }

  ghost predicate Inv(s: State) {
    && |s.seen| <= s.cap
    && (forall a :: RecordInv(s, a))
    && (forall i :: PendingInv(s, i))
  }

  lemma AddedFits(seen: map<Key, int>, cap: nat, key: Key, expireAt: int, now: int)
    requires |seen| <= cap
    ensures |Added(seen, cap, key, expireAt, now).1| <= cap
  {
    var kept := Unexpired(seen, now);
    Fewer(kept, seen);
    assert seen[key := expireAt].Keys == seen.Keys + {key};
    assert kept[key := expireAt].Keys == kept.Keys + {key};
  }

  lemma Fewer(m: map<Key, int>, n: map<Key, int>)
    requires m.Keys <= n.Keys
    ensures |m| <= |n|
  {
    SubsetSize(m.Keys, n.Keys);
    assert |m| == |m.Keys| && |n| == |n.Keys|;
  }

  lemma {:induction false} SubsetSize(a: set<Key>, b: set<Key>)
    requires a <= b
    ensures |a| <= |b|
  {
    if a != {} {
      var k :| k in a;
      SubsetSize(a - {k}, b - {k});
    }
  }

  /** A full table never makes room by forgetting a record that still matters. */
  lemma NoLiveRecordEvicted(seen: map<Key, int>, cap: nat, key: Key, expireAt: int, now: int, k: Key)
    requires k in seen && seen[k] > now
    ensures k in Added(seen, cap, key, expireAt, now).1 && Added(seen, cap, key, expireAt, now).1[k] == seen[k]
  {
  }

  lemma UnixMonotone(a: int, b: int)
    requires a <= b
    ensures Unix(a) <= Unix(b)
  {
  }

  lemma StepKeepsRecord(s: State, a: Action, acc: Acceptance)
    requires Inv(s)
    ensures RecordInv(Apply(s, a), acc)
  {
    assert RecordInv(s, acc);
    match a
    case Tick(d) => UnixMonotone(s.clock, s.clock + d);
    case Arrive(_, _) =>
    case Record(i) =>
      assert PendingInv(s, i);
      if i in s.pending {
        UnixMonotone(s.pending[i].reading, s.clock);
      }
  }

  lemma StepKeepsInv(s: State, a: Action)
    requires Inv(s)
    ensures Inv(Apply(s, a))
  {
    var n := Apply(s, a);
    forall acc ensures RecordInv(n, acc) {
      StepKeepsRecord(s, a, acc);
    }
    forall i ensures PendingInv(n, i) {
      assert PendingInv(s, i);
    }
    if a.Record? && a.id in s.pending {
      var p := s.pending[a.id];
      AddedFits(s.seen, s.cap, KeyOf(p.request), p.request.ts + WINDOW, Unix(p.reading));
    }
  }

  lemma {:induction false} RunKeepsInv(s: State, actions: seq<Action>)
    requires Inv(s)
    ensures Inv(Run(s, actions)) && Run(s, actions).cap == s.cap
    decreases |actions|
  {
    if actions == [] {
    } else {
      StepKeepsInv(s, actions[0]);
      RunKeepsInv(Apply(s, actions[0]), actions[1..]);
    }
  }

  predicate IsReplay(s: State, i: Id, first: Acceptance) {
    first in s.accepted && i in s.pending && s.pending[i].request == first.request
  }

  /** When exactly a request that was accepted once is accepted again, in every interleaving: it is recorded at
      timestamp + 900 s or later, no record of its key outlasts the reading it was judged by, and there is room. */
  lemma ReplayExact(cap: nat, clock: int, actions: seq<Action>, i: Id, first: Acceptance)
    requires IsReplay(Run(Start(cap, clock), actions), i, first)
    ensures var s := Run(Start(cap, clock), actions);
            var p := s.pending[i];
            Accepts(s, i) <==>
              && Unix(s.clock) >= p.request.ts + WINDOW
              && !OnRecord(s.seen, p.request, Unix(p.reading)) && HasRoom(s.seen, cap, Unix(p.reading))
  {
    RunKeepsInv(Start(cap, clock), actions);
    var s := Run(Start(cap, clock), actions);
    assert RecordInv(s, first) && PendingInv(s, i);
    UnixMonotone(s.pending[i].reading, s.clock);
  }

  /** A replay judged by a reading made at the moment it is recorded is accepted exactly at the instant
      timestamp + 900 s, if no request with the same key and a later timestamp is on record and there is room. */
  lemma PromptReplayExact(cap: nat, clock: int, actions: seq<Action>, i: Id, first: Acceptance)
    requires IsReplay(Run(Start(cap, clock), actions), i, first)
    requires Run(Start(cap, clock), actions).pending[i].reading == Run(Start(cap, clock), actions).clock
    ensures var s := Run(Start(cap, clock), actions);
            var end := first.request.ts + WINDOW;
            Accepts(s, i) <==>
              s.clock == end * SECOND && !OnRecord(s.seen, first.request, end) && HasRoom(s.seen, cap, end)
  {
    RunKeepsInv(Start(cap, clock), actions);
    ReplayExact(cap, clock, actions, i, first);
    assert PendingInv(Run(Start(cap, clock), actions), i);
  }

  /** The table never exceeds its capacity. */
  lemma TableFits(cap: nat, clock: int, actions: seq<Action>)
    ensures |Run(Start(cap, clock), actions).seen| <= cap
  {
    RunKeepsInv(Start(cap, clock), actions);
  }

  /** That instant can be reached with every request: a replay of it passes when nothing else happened in between. */
  lemma ReplayAtTheBoundary(cap: nat, clock: int, r: Request)
    requires cap > 0 && InWindow(r.ts, clock)
    ensures var s := Apply(Apply(Start(cap, clock), Arrive(0, r)), Record(0));
            var late := Apply(Apply(s, Tick((r.ts + WINDOW) * SECOND - clock)), Arrive(1, r));
            (exists a :: a in late.accepted && a.request == r) && Accepts(late, 1)
  {
    var s := Apply(Apply(Start(cap, clock), Arrive(0, r)), Record(0));
    assert Acceptance(r, clock, clock) in s.accepted;
    var late := Apply(Apply(s, Tick((r.ts + WINDOW) * SECOND - clock)), Arrive(1, r));
    assert Acceptance(r, clock, clock) in late.accepted;
  }

  /** r arrives twice; one copy is recorded, the other still waits with its reading 0, and the table of two is full. */
  function HalfWay(r: Request, filler: Request): State {
    State(0, 2, map[KeyOf(r) := WINDOW, KeyOf(filler) := WINDOW], map[1 := Pending(r, 0)],
          [Acceptance(r, 0, 0), Acceptance(filler, 0, 0)])
  }

  function Arrived(r: Request, filler: Request): State {
    State(0, 2, map[], map[0 := Pending(r, 0), 1 := Pending(r, 0), 2 := Pending(filler, 0)], [])
  }

  function Once(r: Request, filler: Request): State {
    State(0, 2, map[KeyOf(r) := WINDOW], map[1 := Pending(r, 0), 2 := Pending(filler, 0)], [Acceptance(r, 0, 0)])
  }

  lemma RecordsOne(r: Request, filler: Request)
    requires r.ts == 0
    ensures Apply(Arrived(r, filler), Record(0)) == Once(r, filler)
  {
    var s := Arrived(r, filler);
    assert Added(s.seen, 2, KeyOf(r), WINDOW, 0) == (Recorded, map[KeyOf(r) := WINDOW]);
    assert s.pending - {0} == Once(r, filler).pending;
  }

  lemma RecordsTwo(r: Request, filler: Request)
    requires filler.ts == 0 && KeyOf(r) != KeyOf(filler)
    ensures Apply(Once(r, filler), Record(2)) == HalfWay(r, filler)
  {
    var s := Once(r, filler);
    assert |s.seen| == 1 by { assert s.seen.Keys == {KeyOf(r)} && |s.seen| == |s.seen.Keys|; }
    assert Added(s.seen, 2, KeyOf(filler), WINDOW, 0) == (Recorded, HalfWay(r, filler).seen);
    assert s.pending - {2} == HalfWay(r, filler).pending;
  }

  /** 901 seconds later another request finds the table full, prunes both expired records and takes a place. */
  function Pruned(r: Request, filler: Request, other: Request): State {
    State((WINDOW + 1) * SECOND, 2, map[KeyOf(other) := other.ts + WINDOW], map[1 := Pending(r, 0)],
          HalfWay(r, filler).accepted + [Acceptance(other, (WINDOW + 1) * SECOND, (WINDOW + 1) * SECOND)])
  }

  lemma OtherPrunes(r: Request, filler: Request, other: Request)
    requires other.ts == WINDOW + 1 && KeyOf(r) != KeyOf(filler)
    ensures var late := Apply(Apply(HalfWay(r, filler), Tick((WINDOW + 1) * SECOND)), Arrive(3, other));
            Apply(late, Record(3)) == Pruned(r, filler, other)
  {
    var half, late := HalfWay(r, filler), (WINDOW + 1) * SECOND;
    var s := Apply(Apply(half, Tick(late)), Arrive(3, other));
    assert s == half.(clock := late, pending := map[1 := Pending(r, 0), 3 := Pending(other, late)]);
    assert Unix(late) == WINDOW + 1;
    assert Unexpired(s.seen, WINDOW + 1) == map[];
    TwoEntries(s.seen, KeyOf(r), KeyOf(filler));
    assert Added(s.seen, 2, KeyOf(other), other.ts + WINDOW, WINDOW + 1)
        == (Recorded, map[KeyOf(other) := other.ts + WINDOW]);
    assert s.pending - {3} == map[1 := Pending(r, 0)];
  }

  lemma TwoEntries(m: map<Key, int>, a: Key, b: Key)
    requires a != b && m.Keys == {a, b}
    ensures |m| == 2
  {
    assert |m| == |m.Keys|;
  }

  lemma HeldOnePasses(r: Request, filler: Request, other: Request)
    requires r.ts == 0 && KeyOf(r) != KeyOf(other)
    ensures Acceptance(r, 0, (WINDOW + 1) * SECOND) in Apply(Pruned(r, filler, other), Record(1)).accepted
  {
    var s := Pruned(r, filler, other);
    assert |s.seen| == 1 by { assert s.seen.Keys == {KeyOf(other)} && |s.seen| == |s.seen.Keys|; }
  }

  ghost predicate Reached(s: State) {
    exists actions :: s == Run(Start(2, 0), actions)
  }

  lemma {:induction false} RunOneMore(s: State, actions: seq<Action>, a: Action)
    ensures Run(s, actions + [a]) == Apply(Run(s, actions), a)
    decreases |actions|
  {
    if actions == [] {
      assert Run(s, [a]) == Run(Apply(s, a), []);
      assert actions + [a] == [a];
    } else {
      assert (actions + [a])[1..] == actions[1..] + [a];
      RunOneMore(Apply(s, actions[0]), actions[1..], a);
    }
  }

  lemma Onward(s: State, a: Action)
    requires Reached(s)
    ensures Reached(Apply(s, a))
  {
    var actions :| s == Run(Start(2, 0), actions);
    RunOneMore(Start(2, 0), actions, a);
    assert Apply(s, a) == Run(Start(2, 0), actions + [a]);
  }

  /** So a request held between its reading and its recording can be accepted twice in one run, both readings, the very
      same instant, inside its window. */
  lemma StaleReadingReplays(r: Request, filler: Request, other: Request)
    requires r.ts == 0 && filler.ts == 0 && other.ts == WINDOW + 1
    requires KeyOf(r) != KeyOf(filler) && KeyOf(r) != KeyOf(other)
    ensures exists actions ::
              var s := Run(Start(2, 0), actions);
              Acceptance(r, 0, 0) in s.accepted && Acceptance(r, 0, (WINDOW + 1) * SECOND) in s.accepted
  {
    PrunedIsReached(r, filler, other);
    var s := Pruned(r, filler, other);
    Onward(s, Record(1));
    HeldOnePasses(r, filler, other);
    var actions :| Apply(s, Record(1)) == Run(Start(2, 0), actions);
    assert Acceptance(r, 0, 0) in Run(Start(2, 0), actions).accepted;
  }

  lemma PrunedIsReached(r: Request, filler: Request, other: Request)
    requires r.ts == 0 && filler.ts == 0 && other.ts == WINDOW + 1
    requires KeyOf(r) != KeyOf(filler) && KeyOf(r) != KeyOf(other)
    ensures Reached(Pruned(r, filler, other))
  {
    HalfWayIsReached(r, filler);
    var half := HalfWay(r, filler);
    var ticked := Apply(half, Tick((WINDOW + 1) * SECOND));
    Onward(half, Tick((WINDOW + 1) * SECOND));
    Onward(ticked, Arrive(3, other));
    Onward(Apply(ticked, Arrive(3, other)), Record(3));
    OtherPrunes(r, filler, other);
  }

  lemma HalfWayIsReached(r: Request, filler: Request)
    requires r.ts == 0 && filler.ts == 0 && KeyOf(r) != KeyOf(filler)
    ensures Reached(HalfWay(r, filler))
  {
    ArrivedIsReached(r, filler);
    Onward(Arrived(r, filler), Record(0));
    RecordsOne(r, filler);
    Onward(Once(r, filler), Record(2));
    RecordsTwo(r, filler);
  }

  lemma ArrivedIsReached(r: Request, filler: Request)
    requires r.ts == 0 && filler.ts == 0
    ensures Reached(Arrived(r, filler))
  {
    var s := Start(2, 0);
    assert s == Run(Start(2, 0), []);
    Onward(s, Arrive(0, r));
    Onward(Apply(s, Arrive(0, r)), Arrive(1, r));
    Onward(Apply(Apply(s, Arrive(0, r)), Arrive(1, r)), Arrive(2, filler));
    assert Apply(Apply(Apply(s, Arrive(0, r)), Arrive(1, r)), Arrive(2, filler)) == Arrived(r, filler);
  }
}
