/** What the cache keeps and serves: when exactly a lookup is fresh or stale, which answers enter, how long they stay,
    and which token a full table pushes out. */
module SdkCacheLaws {
  import opened Wrappers
  import opened SdkCache

  /** Fresh while younger than the granted ttl and, if there is one, the caller's cap; stale, if the caller takes that,
      for maxStale more; the entry returned is the stored one. */
  lemma LookedUpExactly(e: Entry, now: int, maxTtl: int, maxStale: int)
    ensures var r, age := Judge(Some(e), now, maxTtl, maxStale), now - e.cachedAt;
            && (r == Fresh(e) <==> age < e.ttl && (maxTtl <= 0 || age < maxTtl))
            && (r == Stale(e) <==>
                  && r != Fresh(e) && maxStale > 0
                  && age < e.ttl + maxStale && (maxTtl <= 0 || age < maxTtl + maxStale))
            && (r == Fresh(e) || r == Stale(e) || r == Miss)
    ensures Judge(None, now, maxTtl, maxStale) == Miss
  {
  }

  // ----- Which answers enter -----

  /** Nothing was invalidated since the fetch began: then the generation is still the one it captured. */
  ghost predicate CurrentKnown(s: State) {
    forall i :: i in s.fetches && s.gens.lastBegun < s.fetches[i].started ==> s.fetches[i].gen == s.gens.gen
  }

  lemma StepKeepsCurrent(s: State, a: Action)
    requires Inv(s) && CurrentKnown(s)
    ensures CurrentKnown(Apply(s, a))
  {
    var n := Apply(s, a);
    forall i | i in n.fetches && n.gens.lastBegun < n.fetches[i].started ensures n.fetches[i].gen == n.gens.gen {
      assert FetchInv(s, i);
    }
  }

  lemma {:induction false} RunKeepsCurrent(s: State, actions: seq<Action>)
    requires Inv(s) && CurrentKnown(s) && s.gens.bumps + |actions| < UINT64_LIMIT
    ensures CurrentKnown(Run(s, actions))
    decreases |actions|
  {
    if actions == [] {
    } else {
      StepFrame(s, actions[0]);
      StepKeepsInv(s, actions[0]);
      StepKeepsCurrent(s, actions[0]);
      RunKeepsCurrent(Apply(s, actions[0]), actions[1..]);
    }
  }

  /** An answer that came in time enters the cache, as the token's entry and as young as can be, exactly if the server
      granted a time and nothing was invalidated since its fetch began; otherwise no entry changes. */
  lemma AnswerEntersExactly(world: World, actions: seq<Action>, i: Id)
    requires |actions| < UINT64_LIMIT
    requires var s := Run(Start(world), actions);
             && i in s.fetches && s.fetches[i].answer.Some?
             && s.clock <= s.fetches[i].answer.value.at + world.delay
    ensures var s := Run(Start(world), actions);
            var n, f := Apply(s, PutBack(i)), s.fetches[i];
            var enters := f.answer.value.ttl > 0 && s.gens.lastBegun < f.started;
            && i !in n.fetches
            && (!enters ==> n.held == s.held)
            && (enters ==>
                  && f.token in n.held
                  && n.held[f.token].entry.cachedAt == s.clock && n.held[f.token].entry.ttl == f.answer.value.ttl
                  && n.held[f.token].started == f.started && n.held[f.token].decidedAt == f.answer.value.at
                  && forall t :: t != f.token ==>
                       (t in n.held <==> t in s.held) && (t in s.held ==> n.held[t] == s.held[t]))
  {
    var s := Run(Start(world), actions);
    RunKeepsInv(Start(world), actions);
    RunKeepsCurrent(Start(world), actions);
    RunFrame(Start(world), actions);
    assert FetchInv(s, i);
  }

  /** A fetch carries its own token, the generation and the step it began at; the server's answer comes with the instant
      of the decision, unless the server refuses the token by then. */
  lemma FetchedExactly(s: State, i: Id, t: Token, ttl: int)
    requires i !in s.fetches
    ensures var n := Apply(s, Begin(i, t));
            && i in n.fetches && n.held == s.held && n.gens == s.gens
            && n.fetches[i] == Fetch(t, s.gens.gen, s.steps, None)
            && var m := Apply(n, Decide(i, ttl));
               && i in m.fetches && m.held == s.held
               && (t in s.world.refuseFrom && s.clock >= s.world.refuseFrom[t] ==> m.fetches[i] == n.fetches[i])
               && (t !in s.world.refuseFrom || s.clock < s.world.refuseFrom[t] ==>
                     m.fetches[i] == n.fetches[i].(answer := Some(Answer(ttl, s.clock))))
  {
  }

  // ----- How long they stay -----

  /** The steps that write or remove this token's entry. */
  predicate Touches(s: State, a: Action, t: Token) {
    match a
    case PutBack(i) => i in s.fetches && s.fetches[i].token == t
    case RemoveOne(i, u) =>
      u == t && i in s.invalidations && s.invalidations[i].Dropping? && t in s.invalidations[i].left
    case RemoveAll(i) => i in s.invalidations && s.invalidations[i].Purging?
    case Evict(u) => u == t
    case _ => false
  }

  predicate Untouched(s: State, actions: seq<Action>, t: Token)
    decreases |actions|
  {
    actions == [] || (!Touches(s, actions[0], t) && Untouched(Apply(s, actions[0]), actions[1..], t))
  }

  lemma StepLeavesEntry(s: State, a: Action, t: Token)
    requires !Touches(s, a, t)
    ensures var n := Apply(s, a); (t in n.held <==> t in s.held) && (t in s.held ==> n.held[t] == s.held[t])
  {
  }

  /** A cached answer is served, unchanged, to every caller without a cap until its ttl is over, whatever happens to
      other tokens. */
  lemma {:induction false} ServedUntilExpiry(s: State, actions: seq<Action>, t: Token, maxStale: int)
    requires t in s.held && Untouched(s, actions, t)
    ensures var n, e := Run(s, actions), s.held[t].entry;
            && n.Find(t) == Some(e)
            && (Judge(n.Find(t), n.clock, 0, maxStale) == Fresh(e) <==> n.clock < e.cachedAt + e.ttl)
    decreases |actions|
  {
    if actions == [] {
    } else {
      StepLeavesEntry(s, actions[0], t);
      ServedUntilExpiry(Apply(s, actions[0]), actions[1..], t, maxStale);
    }
  }

  /** The steps of an invalidation take out what they name, and nothing else. */
  lemma InvalidationRemoves(s: State, i: Id, t: Token, u: Token)
    requires i in s.invalidations
    ensures var n := Apply(s, RemoveOne(i, t));
            && (s.invalidations[i].Dropping? && t in s.invalidations[i].left ==> t !in n.held)
            && (u != t && u in s.held ==> u in n.held && n.held[u] == s.held[u])
    ensures s.invalidations[i].Purging? ==> Apply(s, RemoveAll(i)).held == map[]
    ensures s.invalidations[i].Dropping? ==> Apply(s, RemoveAll(i)).held == s.held
    ensures u != t && u in s.held ==> u in Apply(s, Evict(t)).held && t !in Apply(s, Evict(t)).held
  {
  }

  // ----- Which token a full table pushes out -----

  datatype Use = Look(token: Token) | Store(token: Token, entry: Entry) | Discard(token: Token)

  /** The table, and when each token in it was last looked up or stored. */
  datatype Table = Table(lru: Lru, lastUse: map<Token, nat>, clock: nat)

  const NEW := Table(Lru(map[], []), map[], 0)

  function Using(t: Table, u: Use, capacity: nat): Table {
    match u
    case Look(x) =>
      Table(t.lru.Touched(x), if x in t.lru.entries then t.lastUse[x := t.clock] else t.lastUse, t.clock + 1)
    case Store(x, e) => Table(t.lru.Added(x, e, capacity), t.lastUse[x := t.clock], t.clock + 1)
    case Discard(x) => Table(t.lru.Removed(x), t.lastUse, t.clock + 1)
  }

  function UsedAll(t: Table, uses: seq<Use>, capacity: nat): Table
    decreases |uses|
  {
    if uses == [] then t else UsedAll(Using(t, uses[0], capacity), uses[1..], capacity)
  }

  /** Earlier in the order, earlier used. */
  ghost predicate ByUse(order: seq<Token>, lastUse: map<Token, nat>, clock: nat) {
    && (forall x :: x in order ==> x in lastUse && lastUse[x] < clock)
    && (forall i, j :: 0 <= i < j < |order| ==> lastUse[order[i]] < lastUse[order[j]])
  }

  lemma {:induction false} OthersByUse(order: seq<Token>, t: Token, lastUse: map<Token, nat>, clock: nat)
    requires ByUse(order, lastUse, clock)
    ensures ByUse(Others(order, t), lastUse, clock)
    ensures forall x :: x in Others(order, t) <==> x in order && x != t
  {
    if order == [] {
    } else {
      var rest := Others(order[1..], t);
      OthersByUse(order[1..], t, lastUse, clock);
      assert forall x :: x in order <==> x == order[0] || x in order[1..];
      forall x | x in rest ensures lastUse[order[0]] < lastUse[x] {
        assert x in order[1..];
      }
    }
  }

  lemma MovedToTheEnd(order: seq<Token>, t: Token, lastUse: map<Token, nat>, clock: nat)
    requires ByUse(order, lastUse, clock) && t !in order
    ensures ByUse(order + [t], lastUse[t := clock], clock + 1)
  {
  }

  lemma UseKeepsOrder(t: Table, u: Use, capacity: nat)
    requires t.lru.Valid(capacity) && capacity > 0 && ByUse(t.lru.order, t.lastUse, t.clock)
    ensures var n := Using(t, u, capacity); n.lru.Valid(capacity) && ByUse(n.lru.order, n.lastUse, n.clock)
  {
    var x, order := u.token, t.lru.order;
    OthersByUse(order, x, t.lastUse, t.clock);
    MovedToTheEnd(Others(order, x), x, t.lastUse, t.clock);
    match u
    case Look(_) => TouchedIsValid(t.lru, x, capacity);
    case Discard(_) => RemovedIsValid(t.lru, x, capacity);
    case Store(_, e) =>
      AddedIsValid(t.lru, x, e, capacity);
      if x !in t.lru.entries && |order| >= capacity {
        assert forall y :: y in order[1..] ==> y in order;
        MovedToTheEnd(order[1..], x, t.lastUse, t.clock);
      }
  }

  lemma {:induction false} UsesKeepOrder(t: Table, uses: seq<Use>, capacity: nat)
    requires t.lru.Valid(capacity) && capacity > 0 && ByUse(t.lru.order, t.lastUse, t.clock)
    ensures var n := UsedAll(t, uses, capacity); n.lru.Valid(capacity) && ByUse(n.lru.order, n.lastUse, n.clock)
    decreases |uses|
  {
    if uses == [] {
    } else {
      UseKeepsOrder(t, uses[0], capacity);
      UsesKeepOrder(Using(t, uses[0], capacity), uses[1..], capacity);
    }
  }

  lemma FrontIsOldest(t: Table, capacity: nat)
    requires t.lru.Valid(capacity) && ByUse(t.lru.order, t.lastUse, t.clock)
    ensures forall z :: z in t.lru.entries ==>
              var front := t.lru.order[0];
              && front in t.lru.entries && front in t.lastUse && z in t.lastUse
              && (z != front ==> t.lastUse[front] < t.lastUse[z])
  {
    forall z | z in t.lru.entries
      ensures var front := t.lru.order[0];
              && front in t.lru.entries && front in t.lastUse && z in t.lastUse
              && (z != front ==> t.lastUse[front] < t.lastUse[z])
    {
      assert z in t.lru.order && t.lru.order[0] in t.lru.order;
      var k :| 0 <= k < |t.lru.order| && t.lru.order[k] == z;
    }
  }

  /** In every run, storing keeps every other entry, except that a new token in a full table pushes out exactly the one
      that was looked up or stored the longest time ago; the stored entry is there afterwards. */
  lemma LeastRecentlyUsedGoes(uses: seq<Use>, capacity: nat, x: Token, e: Entry, y: Token)
    requires capacity > 0 && y != x
    ensures var t := UsedAll(NEW, uses, capacity);
            var n := Using(t, Store(x, e), capacity).lru.entries;
            && x in n && n[x] == e
            && (y in n ==> y in t.lru.entries && n[y] == t.lru.entries[y])
            && (y in t.lru.entries && (x in t.lru.entries || |t.lru.entries| < capacity) ==> y in n)
            && (y in t.lru.entries && x !in t.lru.entries && |t.lru.entries| == capacity ==>
                  (y !in n <==> forall z :: z in t.lru.entries && z != y ==>
                                  z in t.lastUse && y in t.lastUse && t.lastUse[y] < t.lastUse[z]))
  {
    UsesKeepOrder(NEW, uses, capacity);
    var t := UsedAll(NEW, uses, capacity);
    SizeOfOrder(t.lru.order, t.lru.entries.Keys);
    FrontIsOldest(t, capacity);
  }

  lemma {:induction false} SizeOfOrder(order: seq<Token>, tokens: set<Token>)
    requires forall x :: x in order <==> x in tokens
    requires forall i, j :: 0 <= i < j < |order| ==> order[i] != order[j]
    ensures |order| == |tokens|
    decreases |order|
  {
    if order == [] {
      assert tokens == {};
    } else {
      assert order[0] !in order[1..];
      assert forall x :: x in order <==> x == order[0] || x in order[1..];
      SizeOfOrder(order[1..], tokens - {order[0]});
    }
  }
}
