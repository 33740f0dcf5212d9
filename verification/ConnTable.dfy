/** The hub's connection table, its two events per connection, and the counter graceful shutdown waits on
    (internal/im/hub/hub.go). */
module ConnTable {
  type ConnId = int
  type Key = string

  // ----- The protocol, one step per critical section or event -----

  datatype Event = Connected(delivered: bool) | Disconnected

  /** How far a RemoveConn that took the entry has come. */
  datatype Stage = Waiting | Finished

  datatype State = State(
    table: set<ConnId>,              // registered connections
    teardowns: nat,                  // the counter of the code
    adding: set<ConnId>,             // AddConn calls whose Connected event is not handled yet
    removing: map<ConnId, Stage>,    // RemoveConn calls that took the entry and have not returned
    delivered: map<ConnId, bool>,    // entry.delivered, readable once established is closed
    // history
    added: set<ConnId>,
    timedOut: set<ConnId>,
    events: map<ConnId, seq<Event>>)
  {
    function Unsettled(): nat {
      |table| + teardowns
    }

    function EventsOf(c: ConnId): seq<Event> {
      if c in events then events[c] else []
    }
  }

  const START := State({}, 0, {}, map[], map[], {}, {}, map[])

  datatype Action =
    | Add(c: ConnId)                           // AddConn up to the unlock
    | HandleConnected(c: ConnId, ok: bool)     // emit, entry.delivered, close(established)
    | Remove(c: ConnId)                        // RemoveConn up to the unlock
    | HandleDisconnected(c: ConnId)            // established seen; emit unless Connected was not delivered
    | GiveUp(c: ConnId)                        // the 30-second wait ran out; no event
    | Return(c: ConnId)                        // the deferred decrement

  function Apply(s: State, a: Action): State {
    match a
    case Add(c) =>
      if c in s.added then s   // connection ids are unique
      else s.(table := s.table + {c}, adding := s.adding + {c}, added := s.added + {c})
    case HandleConnected(c, ok) =>
      if c !in s.adding then s
      else s.(adding := s.adding - {c}, delivered := s.delivered[c := ok],
              events := s.events[c := s.EventsOf(c) + [Connected(ok)]])
    case Remove(c) =>
      if c !in s.table then s
      else s.(table := s.table - {c}, teardowns := s.teardowns + 1, removing := s.removing[c := Waiting])
    case HandleDisconnected(c) =>
      if c !in s.removing || s.removing[c] != Waiting || c !in s.delivered then s
      else
        var t := s.(removing := s.removing[c := Finished]);
        if s.delivered[c] then t.(events := s.events[c := s.EventsOf(c) + [Disconnected]]) else t
    case GiveUp(c) =>
      if c !in s.removing || s.removing[c] != Waiting then s
      else s.(removing := s.removing[c := Finished], timedOut := s.timedOut + {c})
    case Return(c) =>
      if c !in s.removing || s.removing[c] != Finished || s.teardowns == 0 then s
      else s.(removing := s.removing - {c}, teardowns := s.teardowns - 1)
  }

  function Run(s: State, actions: seq<Action>): State
    decreases |actions|
  {
    if actions == [] then s else Run(Apply(s, actions[0]), actions[1..])
  }

  /** A full pair of events, or a Connected that was not delivered, after which no Disconnected follows. */
  predicate Complete(s: State, c: ConnId) {
    s.EventsOf(c) == [Connected(false)] || s.EventsOf(c) == [Connected(true), Disconnected]
  }

  /** What holds of one connection, whatever the others do. */
  predicate ConnInv(s: State, c: ConnId) {
    && (c in s.table ==> c in s.added && c !in s.removing && c !in s.timedOut)
    && (c in s.adding || c in s.removing || c in s.timedOut ==> c in s.added)
    && (c in s.delivered <==> c in s.added && c !in s.adding)
    && (c in s.adding || c !in s.added ==> s.EventsOf(c) == [])
    && (c in s.delivered ==>
          || s.EventsOf(c) == [Connected(s.delivered[c])]
          || (s.EventsOf(c) == [Connected(true), Disconnected] && c !in s.table
              && (c in s.removing ==> s.removing[c] == Finished)))
    && ((c in s.added && c !in s.table && (c in s.removing ==> s.removing[c] == Finished))
        ==> c in s.timedOut || Complete(s, c))
  }

  ghost predicate Inv(s: State) {
    && s.teardowns == |s.removing|
    && forall c :: ConnInv(s, c)
  }

  lemma StepKeepsConn(s: State, a: Action, c: ConnId)
    requires ConnInv(s, c)
    ensures ConnInv(Apply(s, a), c)
  {
  }

  lemma StepKeepsInv(s: State, a: Action)
    requires Inv(s)
    ensures Inv(Apply(s, a))
  {
    forall c ensures ConnInv(Apply(s, a), c) {
      StepKeepsConn(s, a, c);
    }
    match a
    case Remove(c) =>
      assert ConnInv(s, c);
      CountKeys(s.removing, c, Waiting);
    case HandleDisconnected(c) => CountKeys(s.removing, c, Finished);
    case GiveUp(c) => CountKeys(s.removing, c, Finished);
    case Return(c) => if c in s.removing { CountRemoved(s.removing, c); }
    case Add(_) =>
    case HandleConnected(_, _) =>
  }

  lemma CountKeys<V>(m: map<ConnId, V>, c: ConnId, v: V)
    ensures |m[c := v]| == |m| + if c in m then 0 else 1
  {
    var n := m[c := v];
    assert n.Keys == m.Keys + {c};
    assert |n.Keys| == |m.Keys| + if c in m then 0 else 1;
  }

  lemma CountRemoved<V>(m: map<ConnId, V>, c: ConnId)
    requires c in m
    ensures |m - {c}| == |m| - 1
  {
    var n := m - {c};
    assert n.Keys == m.Keys - {c};
    assert |n.Keys| == |m.Keys| - 1;
  }

  lemma {:induction false} RunKeepsInv(s: State, actions: seq<Action>)
    requires Inv(s)
    ensures Inv(Run(s, actions))
    decreases |actions|
  {
    if actions == [] {
    } else {
      StepKeepsInv(s, actions[0]);
      RunKeepsInv(Apply(s, actions[0]), actions[1..]);
    }
  }

  /** In every interleaving each connection's events are a prefix of Connected, Disconnected, and Disconnected is
      emitted only if Connected was delivered. */
  lemma EventsInOrder(actions: seq<Action>, c: ConnId)
    ensures var e := Run(START, actions).EventsOf(c);
            e == [] || e == [Connected(false)] || e == [Connected(true)] || e == [Connected(true), Disconnected]
  {
    RunKeepsInv(START, actions);
    assert ConnInv(Run(START, actions), c);
  }

  /** Some continuation gives this connection one more event. */
  ghost predicate HasEventLeft(s: State, c: ConnId) {
    exists rest :: Run(s, rest).EventsOf(c) != s.EventsOf(c)
  }

  /** When UnsettledConns() is 0, no RemoveConn is at work, and of the connections there were exactly those have an
      event left whose Connected is not handled yet; their RemoveConn gave up waiting for it. All others have emitted
      all they ever will: a full pair, a Connected nobody received, or, after a wait that was given up, a Connected
      alone. */
  lemma SettledMeansDone(actions: seq<Action>, c: ConnId)
    requires Run(START, actions).Unsettled() == 0 && c in Run(START, actions).added
    ensures var s := Run(START, actions);
            s.removing == map[] && s.adding <= s.timedOut
    ensures HasEventLeft(Run(START, actions), c) <==> c in Run(START, actions).adding
    ensures var s := Run(START, actions);
            c !in s.adding ==> Complete(s, c) || (c in s.timedOut && s.EventsOf(c) == [Connected(true)])
  {
    RunKeepsInv(START, actions);
    var s := Run(START, actions);
    assert s.removing.Keys == {} && s.table == {};
    assert ConnInv(s, c);
    forall d | d in s.adding ensures d in s.timedOut {
      assert ConnInv(s, d);
    }
    if c in s.adding {
      OneMore(s, c);
    } else {
      forall rest ensures Run(s, rest).EventsOf(c) == s.EventsOf(c) {
        QuietStays(s, rest, c);
      }
    }
  }

  lemma OneMore(s: State, c: ConnId)
    requires c in s.adding
    ensures HasEventLeft(s, c)
  {
    var handle := HandleConnected(c, true);
    assert Run(s, [handle]) == Run(Apply(s, handle), []);
    assert |Run(s, [handle]).EventsOf(c)| == |s.EventsOf(c)| + 1;
  }

  /** A connection that is gone and has nothing under way stays silent. */
  lemma {:induction false} QuietStays(s: State, rest: seq<Action>, c: ConnId)
    requires c in s.added && c !in s.table && c !in s.adding && c !in s.removing
    ensures Run(s, rest).EventsOf(c) == s.EventsOf(c)
    decreases |rest|
  {
    if rest == [] {
    } else {
      QuietStays(Apply(s, rest[0]), rest[1..], c);
    }
  }

  /** The exception is real in every reachable state: a registered connection whose Connected is still under way leaves
      the count altogether once its removal gives up waiting, and its Connected comes all the same. */
  lemma TimeoutLeavesAnEvent(actions: seq<Action>, c: ConnId, ok: bool)
    requires c in Run(START, actions).table && c in Run(START, actions).adding
    ensures var s := Run(START, actions);
            var n := GaveUp(s, c);
            && n.Unsettled() == s.Unsettled() - 1 && c in n.adding && c !in n.table && c !in n.removing
            && n.EventsOf(c) == [] && Apply(n, HandleConnected(c, ok)).EventsOf(c) == [Connected(ok)]
  {
    RunKeepsInv(START, actions);
    var s := Run(START, actions);
    assert ConnInv(s, c);
    GivingUp(s, c);
  }

  /** A whole RemoveConn whose wait ran out. */
  function GaveUp(s: State, c: ConnId): State {
    Apply(Apply(Apply(s, Remove(c)), GiveUp(c)), Return(c))
  }

  lemma GivingUp(s: State, c: ConnId)
    requires c in s.table && c !in s.removing
    ensures GaveUp(s, c) == s.(table := s.table - {c}, timedOut := s.timedOut + {c})
    ensures GaveUp(s, c).Unsettled() == s.Unsettled() - 1
  {
    var taken := Apply(s, Remove(c));
    assert taken.removing == s.removing[c := Waiting];
    var given := Apply(taken, GiveUp(c));
    assert given.removing == s.removing[c := Finished];
    assert given.removing - {c} == s.removing;
  }

  // ----- The table itself -----

  /** A connection signed in without a token has the empty one. */
  datatype Conn = Conn(id: ConnId, token: string)

  function KeyOf(app: string, rest: string): Key {
    app + "\0" + rest
  }

  /** The connections a revocation of that token closes. */
  function Listed(byToken: map<Key, seq<Conn>>, tk: Key): seq<Conn> {
    if tk in byToken then byToken[tk] else []
  }

  /** The nested map of the code, key(app, subject) to connection id to connection, and the list of connections under
      each key(app, token). */
  class Table {
    var conns: map<Key, map<ConnId, Conn>>
    var byToken: map<Key, seq<Conn>>
    var teardowns: nat

    constructor ()
      ensures Valid() && Registered() == {} && byToken == map[] && teardowns == 0
    {
      conns, byToken, teardowns := map[], map[], 0;
    }

    /** No key is left with an empty inner map or list. */
    ghost predicate Valid()
      reads this
    {
      && (forall k :: k in conns ==> conns[k] != map[])
      && (forall k :: k in byToken ==> byToken[k] != [])
    }

    ghost function Registered(): set<(Key, ConnId)>
      reads this
    {
      Entries(conns)
    }

    method Add(app: string, subject: string, c: Conn)
      requires Valid()
      modifies this`conns, this`byToken
      ensures Valid()
      ensures Registered() == old(Registered()) + {(KeyOf(app, subject), c.id)}
      ensures forall k, i :: (k, i) in Registered() ==>
                conns[k][i] == if (k, i) == (KeyOf(app, subject), c.id) then c else old(conns[k][i])
      ensures byToken == if c.token == "" then old(byToken)
          else old(byToken)[KeyOf(app, c.token) := Listed(old(byToken), KeyOf(app, c.token)) + [c]]
    {
      var k := KeyOf(app, subject);
      if k !in conns {
        conns := conns[k := map[]];
      }
      conns := conns[k := conns[k][c.id := c]];
      assert c.id in conns[k];
      if c.token != "" {
        var tk := KeyOf(app, c.token);
        byToken := byToken[tk := Listed(byToken, tk) + [c]];
      }
    }

    /** Takes the entry, its place in the token's list and counts the teardown, in one critical section; a second call
        finds nothing. */
    method Take(app: string, subject: string, id: ConnId) returns (ok: bool)
      requires Valid()
      modifies this
      ensures Valid()
      ensures ok <==> (KeyOf(app, subject), id) in old(Registered())
      ensures Registered() == old(Registered()) - {(KeyOf(app, subject), id)}
      ensures teardowns == old(teardowns) + if ok then 1 else 0
      ensures forall k, i :: (k, i) in Registered() ==> conns[k][i] == old(conns[k][i])
      ensures forall tk :: Listed(byToken, tk) ==
                if ok && Tokened(old(conns), app, subject, id, tk) then Without(Listed(old(byToken), tk), id)
                else Listed(old(byToken), tk)
    {
      var k := KeyOf(app, subject);
      EntryIn(conns, (k, id));
      ok := k in conns && id in conns[k];
      if ok {
        var token := conns[k][id].token;
        TakenEntries(conns, k, id);
        var row := conns[k] - {id};
        conns := if |row| == 0 then conns - {k} else conns[k := row];
        if token != "" {
          Unlist(KeyOf(app, token), id);
        }
        teardowns := teardowns + 1;
      }
    }

    /** Rebuilds the list under tk without the connection, and drops the key of an empty one. */
    method Unlist(tk: Key, id: ConnId)
      requires forall k :: k in byToken ==> byToken[k] != []
      modifies this`byToken
      ensures forall k :: k in byToken ==> byToken[k] != []
      ensures forall k :: Listed(byToken, k) ==
                            if k == tk then Without(Listed(old(byToken), k), id) else Listed(old(byToken), k)
    {
      var all, list := Listed(byToken, tk), [];
      for i := 0 to |all|
        invariant list + Without(all[i..], id) == Without(all, id)
        invariant byToken == old(byToken)
      {
        assert all[i..][0] == all[i] && all[i..][1..] == all[i + 1..];
        if all[i].id != id {
          assert list + ([all[i]] + Without(all[i + 1..], id)) == (list + [all[i]]) + Without(all[i + 1..], id);
          list := list + [all[i]];
        }
      }
      assert all[|all|..] == [];
      byToken := if |list| == 0 then byToken - {tk} else byToken[tk := list];
    }

    /** Registered connections plus teardowns still running. */
    method UnsettledConns() returns (n: nat)
      requires Valid()
      ensures n == |Registered()| + teardowns
    {
      n := 0;
      var left := conns.Keys;
      while left != {}
        invariant left <= conns.Keys
        invariant n == |Entries(conns - left)|
        decreases left
      {
        var k :| k in left;
        EntriesGrow(conns, left, k);
        n := n + |conns[k]|;
        left := left - {k};
      }
      assert conns - {} == conns;
      n := n + teardowns;
    }
  }

  function Without(list: seq<Conn>, id: ConnId): seq<Conn> {
    if list == [] then []
    else if list[0].id == id then Without(list[1..], id)
    else [list[0]] + Without(list[1..], id)
  }

  lemma {:induction false} WithoutKeepsTheRest(list: seq<Conn>, id: ConnId, c: Conn)
    ensures c in Without(list, id) <==> c in list && c.id != id
  {
    if list == [] {
    } else {
      WithoutKeepsTheRest(list[1..], id, c);
    }
  }

  /** The entry's token is the one tk is made of. */
  predicate Tokened(conns: map<Key, map<ConnId, Conn>>, app: string, subject: string, id: ConnId, tk: Key)
    requires KeyOf(app, subject) in conns && id in conns[KeyOf(app, subject)]
  {
    var token := conns[KeyOf(app, subject)][id].token;
    token != "" && tk == KeyOf(app, token)
  }

  function Taken(conns: map<Key, map<ConnId, Conn>>, k: Key, id: ConnId): map<Key, map<ConnId, Conn>>
    requires k in conns
  {
    if |conns[k] - {id}| == 0 then conns - {k} else conns[k := conns[k] - {id}]
  }

  lemma TakenEntries(conns: map<Key, map<ConnId, Conn>>, k: Key, id: ConnId)
    requires k in conns
    ensures Entries(Taken(conns, k, id)) == Entries(conns) - {(k, id)}
  {
    forall e: (Key, ConnId) ensures e in Entries(Taken(conns, k, id)) <==> e in Entries(conns) && e != (k, id) {
      EntryIn(conns, e);
      EntryIn(Taken(conns, k, id), e);
      TakenAt(conns, k, id, e);
    }
  }

  lemma TakenAt(conns: map<Key, map<ConnId, Conn>>, k: Key, id: ConnId, e: (Key, ConnId))
    requires k in conns
    ensures var n := Taken(conns, k, id);
            e.0 in n && e.1 in n[e.0] <==> e.0 in conns && e.1 in conns[e.0] && e != (k, id)
  {
    assert e == (e.0, e.1);
    if |conns[k] - {id}| == 0 { assert conns[k] - {id} == map[]; }
  }

  ghost function Entries(conns: map<Key, map<ConnId, Conn>>): set<(Key, ConnId)> {
    set k, i | k in conns && i in conns[k] :: (k, i)
  }

  ghost function Row<K, I>(k: K, ids: set<I>): set<(K, I)> {
    set i | i in ids :: (k, i)
  }

  lemma EntriesGrow(conns: map<Key, map<ConnId, Conn>>, left: set<Key>, k: Key)
    requires k in left && left <= conns.Keys
    ensures |Entries(conns - (left - {k}))| == |Entries(conns - left)| + |conns[k]|
  {
    var row := Row(k, conns[k].Keys);
    RowSize(k, conns[k].Keys);
    var seen, more := conns - left, conns - (left - {k});
    forall e: (Key, ConnId) ensures e in Entries(more) <==> e in Entries(seen) || e in row {
      EntryIn(more, e);
      EntryIn(seen, e);
      RowIn(k, conns[k].Keys, e);
    }
    forall e | e in row ensures e !in Entries(seen) {
      EntryIn(seen, e);
    }
    assert Entries(more) == Entries(seen) + row;
  }

  lemma EntryIn(conns: map<Key, map<ConnId, Conn>>, e: (Key, ConnId))
    ensures e in Entries(conns) <==> e.0 in conns && e.1 in conns[e.0]
  {
    if e.0 in conns && e.1 in conns[e.0] {
      var k, i := e.0, e.1;
      assert k in conns && i in conns[k];
      assert (k, i) in Entries(conns);
    }
  }

  lemma RowIn<K, I>(k: K, ids: set<I>, e: (K, I))
    ensures e in Row(k, ids) <==> e.0 == k && e.1 in ids
  {
    assert e == (e.0, e.1);
  }

  lemma {:induction false} RowSize<K, I>(k: K, ids: set<I>)
    ensures |Row(k, ids)| == |ids|
  {
    if ids == {} {
      assert Row(k, ids) == {};
    } else {
      var i :| i in ids;
      RowSize(k, ids - {i});
      assert Row(k, ids) == Row(k, ids - {i}) + {(k, i)};
    }
  }
}
