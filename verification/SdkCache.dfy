/** The SDK's cache of validation answers (sdk/cache.go) and the fetches, revocation pushes and purges that race on it
    (sdk/auth.go). Instants and durations are in nanoseconds. */
module SdkCache {
  import opened Wrappers

  type Token = nat
  type Id = nat

  const UINT64_LIMIT: nat := 0x1_0000_0000_0000_0000

  datatype Entry = Entry(app: string, user: string, cachedAt: int, ttl: int)

  datatype Lookup = Miss | Fresh(entry: Entry) | Stale(entry: Entry)

  function NextGen(gen: nat): nat {
    if gen + 1 < UINT64_LIMIT then gen + 1 else 0
  }

  /** The window this lookup allows: a positive maxTtl only ever tightens it. */
  function Effective(ttl: int, maxTtl: int): int {
    if 0 < maxTtl < ttl then maxTtl else ttl
  }

  function Judge(found: Option<Entry>, now: int, maxTtl: int, maxStale: int): Lookup {
    if found.None? then Miss
    else
      var e, age := found.value, now - found.value.cachedAt;
      if age < Effective(e.ttl, maxTtl) then Fresh(e)
      else if maxStale > 0 && age < Effective(e.ttl, maxTtl) + maxStale then Stale(e)
      else Miss
  }

  // ----- The cache object -----

  /** The entries, and their tokens with the least recently used one first. */
  datatype Lru = Lru(entries: map<Token, Entry>, order: seq<Token>) {
    ghost predicate Valid(capacity: nat) {
      && (forall t :: t in order <==> t in entries)
      && (forall i, j :: 0 <= i < j < |order| ==> order[i] != order[j])
      && |order| <= capacity
    }

    function Find(t: Token): Option<Entry> {
      if t in entries then Some(entries[t]) else None
    }

    function Touched(t: Token): Lru {
      if t in entries then Lru(entries, Others(order, t) + [t]) else this
    }

    function Removed(t: Token): Lru {
      Lru(entries - {t}, Others(order, t))
    }

    /** A new token in a full table pushes out the least recently used one. */
    function Added(t: Token, e: Entry, capacity: nat): Lru {
      if t !in entries && |order| >= capacity > 0 then
        Lru(entries[t := e] - {order[0]}, order[1..] + [t])
      else Lru(entries[t := e], Others(order, t) + [t])
    }

    function RemovedAll(tokens: seq<Token>): Lru
      decreases |tokens|
    {
      if tokens == [] then this else Removed(tokens[0]).RemovedAll(tokens[1..])
    }
  }

  function Others(order: seq<Token>, t: Token): seq<Token> {
    if order == [] then []
    else if order[0] == t then Others(order[1..], t)
    else [order[0]] + Others(order[1..], t)
  }

  lemma {:induction false} OthersAre(order: seq<Token>, t: Token)
    requires forall i, j :: 0 <= i < j < |order| ==> order[i] != order[j]
    ensures forall x :: x in Others(order, t) <==> x in order && x != t
    ensures forall i, j :: 0 <= i < j < |Others(order, t)| ==> Others(order, t)[i] != Others(order, t)[j]
    ensures |Others(order, t)| == |order| - if t in order then 1 else 0
  {
    if order == [] {
    } else {
      OthersAre(order[1..], t);
      assert order[0] !in order[1..];
      assert forall x :: x in order <==> x == order[0] || x in order[1..];
    }
  }

  lemma RemovedIsValid(l: Lru, t: Token, capacity: nat)
    requires l.Valid(capacity)
    ensures l.Removed(t).Valid(capacity)
  {
    OthersAre(l.order, t);
  }

  lemma TouchedIsValid(l: Lru, t: Token, capacity: nat)
    requires l.Valid(capacity)
    ensures l.Touched(t).Valid(capacity)
  {
    OthersAre(l.order, t);
  }

  lemma AddedIsValid(l: Lru, t: Token, e: Entry, capacity: nat)
    requires l.Valid(capacity) && capacity > 0
    ensures l.Added(t, e, capacity).Valid(capacity)
  {
    OthersAre(l.order, t);
    if t !in l.entries && |l.order| >= capacity {
      var n := l.Added(t, e, capacity);
      assert l.order[0] in l.order && l.order[0] !in l.order[1..];
      assert forall x :: x in l.order <==> x == l.order[0] || x in l.order[1..];
    }
  }

  lemma {:induction false} RemovedAllKeepsTheRest(l: Lru, tokens: seq<Token>, t: Token)
    ensures t in l.RemovedAll(tokens).entries <==> t in l.entries && t !in tokens
    ensures t in l.entries && t !in tokens ==> l.RemovedAll(tokens).entries[t] == l.entries[t]
    decreases |tokens|
  {
    if tokens == [] {
    } else {
      RemovedAllKeepsTheRest(l.Removed(tokens[0]), tokens[1..], t);
    }
  }

  class Cache {
    const capacity: nat
    var lru: Lru
    var gen: nat

    constructor (capacity: nat)
      requires capacity > 0
      ensures Valid() && this.capacity == capacity && lru == Lru(map[], []) && gen == 0
    {
      this.capacity := capacity;
      lru, gen := Lru(map[], []), 0;
    }

    ghost predicate Valid()
      reads this
    {
      capacity > 0 && lru.Valid(capacity) && gen < UINT64_LIMIT
    }

    /** Looking an entry up makes it the most recently used; an expired one is removed. */
    method Get(token: Token, now: int, maxTtl: int, maxStale: int) returns (r: Lookup)
      requires Valid()
      modifies this`lru
      ensures Valid()
      ensures r == Judge(old(lru).Find(token), now, maxTtl, maxStale)
      ensures lru == if r.Miss? && token in old(lru).entries then old(lru).Touched(token).Removed(token)
                     else old(lru).Touched(token)
    {
      if token !in lru.entries {
        return Miss;
      }
      var e := lru.entries[token];
      TouchedIsValid(lru, token, capacity);
      lru := lru.Touched(token);
      var effective := e.ttl;
      if maxTtl > 0 && maxTtl < effective {
        effective := maxTtl;
      }
      var age := now - e.cachedAt;
      if age < effective {
        return Fresh(e);
      } else if maxStale > 0 && age < effective + maxStale {
        return Stale(e);
      }
      RemovedIsValid(lru, token, capacity);
      lru := lru.Removed(token);
      return Miss;
    }

    /** A ttl of zero or less means "do not cache". */
    method Put(token: Token, app: string, user: string, ttl: int, now: int)
      requires Valid()
      modifies this`lru
      ensures Valid()
      ensures lru == if ttl <= 0 then old(lru) else old(lru).Added(token, Entry(app, user, now, ttl), capacity)
    {
      if ttl <= 0 {
        return;
      }
      AddedIsValid(lru, token, Entry(app, user, now, ttl), capacity);
      lru := lru.Added(token, Entry(app, user, now, ttl), capacity);
    }

    method PutIfGen(token: Token, app: string, user: string, ttl: int, now: int, wanted: nat)
      requires Valid()
      modifies this`lru
      ensures Valid()
      ensures lru == if gen != wanted || ttl <= 0 then old(lru)
          else old(lru).Added(token, Entry(app, user, now, ttl), capacity)
    {
      if gen != wanted {
        return;
      }
      Put(token, app, user, ttl, now);
    }

    /** The named tokens go, everything else stays. */
    method Drop(tokens: seq<Token>)
      requires Valid()
      modifies this
      ensures Valid()
      ensures gen == NextGen(old(gen)) && lru == old(lru).RemovedAll(tokens)
      ensures forall t :: t in lru.entries <==> t in old(lru).entries && t !in tokens
      ensures forall t :: t in lru.entries ==> lru.entries[t] == old(lru).entries[t]
    {
      gen := NextGen(gen);
      var rest := tokens;
      while rest != []
        invariant gen == NextGen(old(gen)) && lru.Valid(capacity)
        invariant lru.RemovedAll(rest) == old(lru).RemovedAll(tokens)
      {
        RemovedIsValid(lru, rest[0], capacity);
        lru := lru.Removed(rest[0]);
        rest := rest[1..];
      }
      forall t
        ensures t in lru.entries <==> t in old(lru).entries && t !in tokens
        ensures t in lru.entries ==> lru.entries[t] == old(lru).entries[t]
      {
        RemovedAllKeepsTheRest(old(lru), tokens, t);
      }
    }

    method Purge()
      requires Valid()
      modifies this
      ensures Valid()
      ensures gen == NextGen(old(gen)) && lru == Lru(map[], [])
    {
      gen := NextGen(gen);
      lru := Lru(map[], []);
    }
  }

  // ----- Everything that races on it, one atomic operation per step -----

  /** A validation in flight: the generation captured before it started, when it started (counted in steps), and the
      server's answer once there is one. */
  datatype Fetch = Fetch(token: Token, gen: nat, started: nat, answer: Option<Answer>)

  datatype Answer = Answer(ttl: int, at: int)

  /** A drop between its generation bump (step `begun`) and its last removal, or a purge between its two writes. */
  datatype Invalidation = Dropping(begun: nat, left: set<Token>) | Purging(begun: nat)

  /** A cached entry with, as history, the validation it came from: when that started and when the server decided. */
  datatype Held = Held(entry: Entry, started: nat, decidedAt: int)

  /** The generation and, as history, how often it was bumped and the step of the latest bump. */
  datatype Gens = Gens(gen: nat, bumps: nat, lastBegun: nat)

  /** History: per token and overall, the step of the latest generation bump whose removal is done. */
  datatype Removed = Removed(dropped: map<Token, nat>, purged: nat) {
    function For(t: Token): nat {
      if t in dropped then dropped[t] else 0
    }
  }

  /** What the SDK cannot change: from which instant the server refuses a token, and the longest time from the server's
      decision to the put. */
  datatype World = World(refuseFrom: map<Token, int>, delay: int) {
    predicate Refuses(t: Token, clock: int) {
      t in refuseFrom && clock >= refuseFrom[t]
    }
  }

  datatype State = State(
    clock: int, steps: nat, held: map<Token, Held>, gens: Gens, fetches: map<Id, Fetch>,
    invalidations: map<Id, Invalidation>, removed: Removed, world: World)
  {
    function Find(t: Token): Option<Entry> {
      if t in held then Some(held[t].entry) else None
    }
  }

  function Start(world: World): State {
    State(0, 1, map[], Gens(0, 0, 0), map[], map[], Removed(map[], 0), world)
  }

  datatype Action =
    | Tick(d: nat)
    | Begin(id: Id, token: Token)                  // capture the generation
    | Decide(id: Id, ttl: int)                     // the server accepts and grants ttl
    | PutBack(id: Id)                              // putIfGen
    | BeginDrop(id: Id, tokens: set<Token>)        // the generation bump of drop
    | RemoveOne(id: Id, token: Token)
    | BeginPurge(id: Id)                           // the generation bump of purge
    | RemoveAll(id: Id)
    | Evict(token: Token)                          // a full table, an expired entry, dropUser

  function Bumped(s: State): Gens {
    Gens(NextGen(s.gens.gen), s.gens.bumps + 1, s.steps)
  }

  function Step(s: State, a: Action): State {
    match a
    case Tick(d) => s.(clock := s.clock + d)
    case Begin(i, t) =>
      if i in s.fetches then s else s.(fetches := s.fetches[i := Fetch(t, s.gens.gen, s.steps, None)])
    case Decide(i, ttl) => if i in s.fetches then Decided(s, i, ttl) else s
    case PutBack(i) => if i in s.fetches then Landed(s, i, s.fetches[i]) else s
    case BeginDrop(i, ts) =>
      if i in s.invalidations then s
      else s.(gens := Bumped(s), invalidations := s.invalidations[i := Dropping(s.steps, ts)])
    case RemoveOne(i, t) => if i in s.invalidations then DroppedOne(s, i, s.invalidations[i], t) else s
    case BeginPurge(i) =>
      if i in s.invalidations then s
      else s.(gens := Bumped(s), invalidations := s.invalidations[i := Purging(s.steps)])
    case RemoveAll(i) =>
      if i in s.invalidations && s.invalidations[i].Purging? then
        s.(held := map[], removed := s.removed.(purged := Max(s.removed.purged, s.invalidations[i].begun)),
           invalidations := s.invalidations - {i})
      else s
    case Evict(t) => s.(held := s.held - {t})
  }

  function Max(a: nat, b: nat): nat {
    if a < b then b else a
  }

  function Decided(s: State, i: Id, ttl: int): State
    requires i in s.fetches
  {
    if s.fetches[i].answer.Some? || s.world.Refuses(s.fetches[i].token, s.clock) then s
    else s.(fetches := s.fetches[i := s.fetches[i].(answer := Some(Answer(ttl, s.clock)))])
  }

  function Landed(s: State, i: Id, f: Fetch): State {
    if f.answer.None? || s.clock > f.answer.value.at + s.world.delay then s
    else if s.gens.gen != f.gen || f.answer.value.ttl <= 0 then s.(fetches := s.fetches - {i})
    else s.(fetches := s.fetches - {i}, held := s.held[f.token := Landing(s, f)])
  }

  function Landing(s: State, f: Fetch): Held
    requires f.answer.Some?
  {
    Held(Entry("", "", s.clock, f.answer.value.ttl), f.started, f.answer.value.at)
  }

  function DroppedOne(s: State, i: Id, d: Invalidation, t: Token): State {
    if !d.Dropping? || t !in d.left then s
    else s.(held := s.held - {t},
            removed := s.removed.(dropped := s.removed.dropped[t := Max(s.removed.For(t), d.begun)]),
            invalidations := s.invalidations[i := d.(left := d.left - {t})])
  }

  function Apply(s: State, a: Action): State {
    Step(s, a).(steps := s.steps + 1)
  }

  function Run(s: State, actions: seq<Action>): State
    decreases |actions|
  {
    if actions == [] then s else Run(Apply(s, actions[0]), actions[1..])
  }

  // ----- What every interleaving keeps -----

  /** As far as the generation can tell, nothing was invalidated since this fetch began. */
  predicate FetchInv(s: State, i: Id) {
    i in s.fetches ==>
      var f := s.fetches[i];
      && f.gen <= s.gens.gen && f.started < s.steps
      && (f.gen == s.gens.gen ==> s.gens.lastBegun < f.started)
      && (f.answer.Some? ==> f.answer.value.at <= s.clock)
      && (f.answer.Some? && f.token in s.world.refuseFrom ==> f.answer.value.at < s.world.refuseFrom[f.token])
  }

  predicate BegunInv(s: State, i: Id) {
    i in s.invalidations ==> s.invalidations[i].begun <= s.gens.lastBegun
  }

  predicate EntryInv(s: State, t: Token) {
    && s.removed.For(t) <= s.gens.lastBegun
    && (t in s.held ==>
          var h := s.held[t];
          && s.removed.For(t) < h.started && s.removed.purged < h.started
          && h.entry.ttl > 0 && h.entry.cachedAt <= s.clock && h.entry.cachedAt <= h.decidedAt + s.world.delay
          && (t in s.world.refuseFrom ==> h.decidedAt < s.world.refuseFrom[t]))
  }

  ghost predicate Inv(s: State) {
    && s.gens.gen == s.gens.bumps && s.gens.lastBegun < s.steps && s.removed.purged <= s.gens.lastBegun
    && (forall i :: FetchInv(s, i))
    && (forall i :: BegunInv(s, i))
    && (forall t :: EntryInv(s, t))
  }

  /** The parts of the state that every step treats alike. */
  lemma StepFrame(s: State, a: Action)
    ensures var n := Apply(s, a);
            n.world == s.world && n.steps == s.steps + 1 && s.clock <= n.clock && n.gens.bumps <= s.gens.bumps + 1
            && (n.gens == s.gens || n.gens == Bumped(s))
  {
  }

  lemma StepKeepsFetch(s: State, a: Action, i: Id)
    requires Inv(s) && s.gens.bumps + 1 < UINT64_LIMIT
    ensures FetchInv(Apply(s, a), i)
  {
    StepFrame(s, a);
    assert FetchInv(s, i);
  }

  lemma StepKeepsBegun(s: State, a: Action, i: Id)
    requires Inv(s) && s.gens.bumps + 1 < UINT64_LIMIT
    ensures BegunInv(Apply(s, a), i)
  {
    StepFrame(s, a);
    assert BegunInv(s, i);
  }

  lemma StepKeepsEntry(s: State, a: Action, t: Token)
    requires Inv(s) && s.gens.bumps + 1 < UINT64_LIMIT
    ensures EntryInv(Apply(s, a), t)
  {
    StepFrame(s, a);
    assert EntryInv(s, t);
    match a
    case PutBack(i) => assert FetchInv(s, i);
    case RemoveOne(i, _) => assert BegunInv(s, i);
    case RemoveAll(i) => assert BegunInv(s, i);
    case _ =>
  }

  lemma StepKeepsInv(s: State, a: Action)
    requires Inv(s) && s.gens.bumps + 1 < UINT64_LIMIT
    ensures Inv(Apply(s, a))
  {
    StepFrame(s, a);
    forall i ensures FetchInv(Apply(s, a), i) {
      StepKeepsFetch(s, a, i);
    }
    forall i ensures BegunInv(Apply(s, a), i) {
      StepKeepsBegun(s, a, i);
    }
    forall t ensures EntryInv(Apply(s, a), t) {
      StepKeepsEntry(s, a, t);
    }
    if a.RemoveAll? { assert BegunInv(s, a.id); }
  }

  lemma {:induction false} RunKeepsInv(s: State, actions: seq<Action>)
    requires Inv(s) && s.gens.bumps + |actions| < UINT64_LIMIT
    ensures Inv(Run(s, actions))
    decreases |actions|
  {
    if actions == [] {
    } else {
      StepFrame(s, actions[0]);
      StepKeepsInv(s, actions[0]);
      RunKeepsInv(Apply(s, actions[0]), actions[1..]);
    }
  }

  lemma {:induction false} RunFrame(s: State, actions: seq<Action>)
    requires s.gens.lastBegun < s.steps
    ensures var n := Run(s, actions);
            n.world == s.world && n.gens.bumps <= s.gens.bumps + |actions|
            && s.gens.lastBegun <= n.gens.lastBegun < n.steps
    decreases |actions|
  {
    if actions == [] {
    } else {
      StepFrame(s, actions[0]);
      RunFrame(Apply(s, actions[0]), actions[1..]);
    }
  }

  /** In every interleaving (of fewer than 2^64 steps, so the generation cannot come round), a fresh answer comes from
      a validation that started after the generation bump of every finished purge and of every finished removal naming
      the token, and is younger than both the granted ttl and the caller's cap. */
  lemma FreshIsCurrent(world: World, actions: seq<Action>, t: Token, maxTtl: int, maxStale: int)
    requires |actions| < UINT64_LIMIT
    ensures var s := Run(Start(world), actions);
            var r := Judge(s.Find(t), s.clock, maxTtl, maxStale);
            r.Fresh? ==>
              && s.removed.For(t) < s.held[t].started && s.removed.purged < s.held[t].started
              && 0 <= s.clock - r.entry.cachedAt < r.entry.ttl
              && (maxTtl > 0 ==> s.clock - r.entry.cachedAt < maxTtl)
  {
    RunKeepsInv(Start(world), actions);
    assert EntryInv(Run(Start(world), actions), t);
  }

  /** A token the server refuses from some instant on is nowhere fresh once that instant plus the delay from decision
      to put plus the entry's ttl has passed, even if no push ever arrives. */
  lemma RefusalReachesEveryCache(world: World, actions: seq<Action>, t: Token, maxTtl: int, maxStale: int)
    requires |actions| < UINT64_LIMIT && t in world.refuseFrom
    ensures var s := Run(Start(world), actions);
            var r := Judge(s.Find(t), s.clock, maxTtl, maxStale);
            r.Fresh? ==> s.clock < world.refuseFrom[t] + world.delay + r.entry.ttl
  {
    RunKeepsInv(Start(world), actions);
    RunFrame(Start(world), actions);
    assert EntryInv(Run(Start(world), actions), t);
  }

  /** An answer that was under way when any token was dropped is thrown away, however late it arrives. */
  lemma OvertakenAnswerIsDiscarded(world: World, before: seq<Action>, after: seq<Action>, fetch: Id, drop: Id,
      tokens: set<Token>)
    requires |before| + |after| + 1 < UINT64_LIMIT
    requires var s := Run(Start(world), before); fetch in s.fetches && drop !in s.invalidations
    ensures var s := Run(Start(world), before);
            var later := Run(Apply(s, BeginDrop(drop, tokens)), after);
            fetch in later.fetches && later.fetches[fetch].started == s.fetches[fetch].started
            ==> Apply(later, PutBack(fetch)).held == later.held
  {
    var s := Run(Start(world), before);
    RunKeepsInv(Start(world), before);
    RunFrame(Start(world), before);
    assert FetchInv(s, fetch);
    var begun := Apply(s, BeginDrop(drop, tokens));
    StepKeepsInv(s, BeginDrop(drop, tokens));
    assert begun.gens == Bumped(s);
    RunKeepsInv(begun, after);
    RunFrame(begun, after);
    assert FetchInv(Run(begun, after), fetch);
  }
}
