/** Revoking many users' sessions at once and announcing it (internal/service/session.go, revokeMatching): what is
    deleted, what is published, and what happens when a store call fails half way. */
module RevokeBatch {
  import opened Wrappers

  type Token = nat
  type User = nat
  type App = nat

  const MAX_TOKENS_PER_EVENT: nat := 1000

  datatype Session = Session(id: nat, user: User, app: App)

  datatype Event = Event(tokens: seq<Token>, users: set<User>, app: App)

  // ----- Specification -----

  ghost predicate NoDuplicates<T>(s: seq<T>) {
    forall i, j :: 0 <= i < j < |s| ==> s[i] != s[j]
  }

  ghost function Elements<T>(s: seq<T>): set<T> {
    set x | x in s
  }

  /** The tokens among `done` whose session belongs to `app`, in order. */
  function OfApp(done: seq<Token>, sessions: map<Token, Session>, app: App): seq<Token>
    requires forall t :: t in done ==> t in sessions
  {
    if done == [] then []
    else
      var front := OfApp(done[..|done| - 1], sessions, app);
      var t := done[|done| - 1];
      if sessions[t].app == app then front + [t] else front
  }

  /** Cutting a list into events of at most 1000 tokens. */
  function Chunks(tokens: seq<Token>, users: set<User>, app: App): seq<Event>
    decreases |tokens|
  {
    if tokens == [] then []
    else if |tokens| <= MAX_TOKENS_PER_EVENT then [Event(tokens, users, app)]
    else [Event(tokens[..MAX_TOKENS_PER_EVENT], users, app)] + Chunks(tokens[MAX_TOKENS_PER_EVENT..], users, app)
  }

  /** All tokens announced for one app, concatenated in publishing order. */
  function Announced(events: seq<Event>, app: App): seq<Token> {
    if events == [] then []
    else
      var front := Announced(events[..|events| - 1], app);
      var e := events[|events| - 1];
      if e.app == app then front + e.tokens else front
  }

  lemma {:induction false} AnnouncedConcat(a: seq<Event>, b: seq<Event>, app: App)
    ensures Announced(a + b, app) == Announced(a, app) + Announced(b, app)
  {
    if b == [] {
      assert a + b == a && Announced(a, app) + [] == Announced(a, app);
    } else {
      var n := |b| - 1;
      AnnouncedConcat(a, b[..n], app);
      assert (a + b)[..|a + b| - 1] == a + b[..n];
      assert Announced(a, app) + (Announced(b[..n], app) + b[n].tokens) == Announced(a, app) + Announced(b[..n],
          app) + b[n].tokens;
    }
  }

  lemma {:induction false} ChunksLaw(tokens: seq<Token>, users: set<User>, app: App)
    ensures Announced(Chunks(tokens, users, app), app) == tokens
    ensures forall other :: other != app ==> Announced(Chunks(tokens, users, app), other) == []
    ensures forall e :: e in Chunks(tokens, users, app) ==>
              e.app == app && e.users == users && 0 < |e.tokens| <= MAX_TOKENS_PER_EVENT
    decreases |tokens|
  {
    if |tokens| > MAX_TOKENS_PER_EVENT {
      var first := [Event(tokens[..MAX_TOKENS_PER_EVENT], users, app)];
      var rest := tokens[MAX_TOKENS_PER_EVENT..];
      ChunksLaw(rest, users, app);
      AnnouncedOne(first[0], app);
      AnnouncedConcat(first, Chunks(rest, users, app), app);
      assert tokens[..MAX_TOKENS_PER_EVENT] + rest == tokens;
      forall other | other != app ensures Announced(Chunks(tokens, users, app), other) == [] {
        AnnouncedOne(first[0], other);
        AnnouncedConcat(first, Chunks(rest, users, app), other);
      }
    } else if tokens != [] {
      forall other {
        AnnouncedOne(Event(tokens, users, app), other);
      }
    }
  }

  lemma AnnouncedOne(e: Event, app: App)
    ensures Announced([e], app) == if e.app == app then e.tokens else []
  {
    assert [e][..0] == [] && Announced([], app) == [];
  }

  /** The users that lost a token of `app`. */
  ghost function Contributors(done: seq<Token>, sessions: map<Token, Session>, app: App): set<User>
    requires forall t :: t in done ==> t in sessions
  {
    set t | t in done && sessions[t].app == app :: sessions[t].user
  }

  // ----- The store, with one call that may fail -----

  class Store {
    var sessions: map<Token, Session>
    /** A user's indexed tokens; a superset of the live ones. */
    var index: map<User, seq<Token>>
    /** The call that fails, counted from now; a negative number never comes. */
    var failIn: int

    constructor (sessions: map<Token, Session>, index: map<User, seq<Token>>, failIn: int)
      ensures this.sessions == sessions && this.index == index && this.failIn == failIn
    {
      this.sessions, this.index, this.failIn := sessions, index, failIn;
    }

    /** Indexed tokens belong to the user they are indexed under, each once. */
    ghost predicate Valid()
      reads this
    {
      && (forall u :: u in index ==> NoDuplicates(index[u]))
      && (forall u, t :: u in index && t in index[u] && t in sessions ==> sessions[t].user == u)
    }

    method Fails() returns (failed: bool)
      modifies this`failIn
      ensures failed <==> old(failIn) == 0
      ensures old(failIn) < 0 ==> failIn < 0
    {
      failed := failIn == 0;
      failIn := failIn - 1;
    }

    method ListUserTokens(u: User) returns (r: Option<seq<Token>>)
      requires Valid()
      modifies this`failIn
      ensures old(failIn) < 0 ==> failIn < 0 && r.Some?
      ensures r.Some? ==> NoDuplicates(r.value)
      ensures r.Some? ==> forall t :: t in r.value <==> u in index && t in index[u] && t in sessions
    {
      var failed := Fails();
      if failed {
        return None;
      }
      var tokens, alive: seq<Token> := if u in index then index[u] else [], [];
      for i := 0 to |tokens|
        invariant failIn < 0 <== old(failIn) < 0
        invariant NoDuplicates(alive)
        invariant forall t :: t in alive <==> t in tokens[..i] && t in sessions
      {
        if tokens[i] in sessions {
          alive := alive + [tokens[i]];
        }
      }
      assert tokens[..|tokens|] == tokens;
      return Some(alive);
    }

    method Get(t: Token) returns (failed: bool, s: Option<Session>)
      modifies this`failIn
      ensures old(failIn) < 0 ==> failIn < 0 && !failed
      ensures !failed ==> s == if t in sessions then Some(sessions[t]) else None
    {
      failed := Fails();
      s := if !failed && t in sessions then Some(sessions[t]) else None;
    }

    method Delete(t: Token) returns (failed: bool)
      modifies this`failIn, this`sessions
      ensures old(failIn) < 0 ==> failIn < 0 && !failed
      ensures sessions == if failed then old(sessions) else old(sessions) - {t}
    {
      failed := Fails();
      if !failed {
        sessions := sessions - {t};
      }
    }
  }

  datatype Group = Group(tokens: seq<Token>, users: set<User>)

  // ----- The code -----

  class Service {
    const store: Store
    var published: seq<Event>

    constructor (s: Store)
      ensures store == s && published == []
    {
      store, published := s, [];
    }

    method AnnounceBatch(tokens: seq<Token>, users: set<User>, app: App)
      modifies this`published
      ensures published == old(published) + Chunks(tokens, users, app)
    {
      var start := 0;
      ghost var rest := tokens;
      assert tokens[0..] == tokens;
      while start < |tokens|
        invariant 0 <= start
        invariant rest == tokens[if start < |tokens| then start else |tokens|..]
        invariant published + Chunks(rest, users, app) == old(published) + Chunks(tokens, users, app)
      {
        var end := if start + MAX_TOKENS_PER_EVENT < |tokens| then start + MAX_TOKENS_PER_EVENT else |tokens|;
        var event := Event(tokens[start..end], users, app);
        ghost var next := tokens[end..];
        assert event.tokens == rest[..end - start] && next == rest[end - start..];
        ChunksStep(rest, end - start, users, app);
        assert published + ([event] + Chunks(next, users, app)) == (published + [event]) + Chunks(next, users, app);
        published := published + [event];
        start := start + MAX_TOKENS_PER_EVENT;
        rest := next;
      }
    }

    /** `done` lists what has been deleted so far, oldest first; `groups` holds it by app. */
    ghost predicate Grouped(groups: map<App, Group>, done: seq<Token>, was: map<Token, Session>)
      reads store
    {
      && store.Valid()
      && NoDuplicates(done)
      && (forall t :: t in done ==> t in was)
      && store.sessions == was - Elements(done)
      && ByApp(groups, done, was)
    }

    /** One pass of the inner loop. */
    method RevokeOne(t: Token, u: User, matches: Session -> bool, groups: map<App, Group>, ghost done: seq<Token>,
                     ghost was: map<Token, Session>)
      returns (failed: bool, groups': map<App, Group>, ghost done': seq<Token>)
      requires Grouped(groups, done, was) && u in store.index && t in store.index[u]
      modifies store`failIn, store`sessions
      ensures Grouped(groups', done', was)
      ensures done' == done || (done' == done + [t] && t in was && matches(was[t]) && was[t].user == u)
      ensures old(store.failIn) < 0 ==> !failed && store.failIn < 0
      ensures !failed ==> t !in store.sessions || !matches(store.sessions[t])
    {
      groups', done' := groups, done;
      var s;
      failed, s := store.Get(t);
      if failed || s.None? || !matches(s.value) {
        return failed, groups', done';
      }
      failed := store.Delete(t);
      if failed {
        return true, groups', done';
      }
      var a := s.value.app;
      var g := if a in groups then groups[a] else Group([], {});
      groups' := groups[a := Group(g.tokens + [t], g.users + {u})];
      done' := done + [t];
      DoneStep(done, was, t);
      ByAppStep(groups, done, was, t);
    }

    method RevokeUserTokens(u: User, matches: Session -> bool, groups: map<App, Group>, ghost done: seq<Token>,
                            ghost was: map<Token, Session>)
      returns (failed: bool, groups': map<App, Group>, ghost done': seq<Token>)
      requires Grouped(groups, done, was)
      modifies store`failIn, store`sessions
      ensures Grouped(groups', done', was)
      ensures Elements(done) <= Elements(done')
      ensures forall t :: t in done' && t !in done ==> t in was && matches(was[t]) && was[t].user == u
      ensures old(store.failIn) < 0 ==> !failed && store.failIn < 0
      ensures !failed ==> Swept(store, u, matches)
    {
      groups', done' := groups, done;
      var tokens := store.ListUserTokens(u);
      if tokens.None? {
        return true, groups, done;
      }
      for i := 0 to |tokens.value|
        invariant Grouped(groups', done', was)
        invariant Elements(done) <= Elements(done')
        invariant forall t :: t in done' && t !in done ==> t in was && matches(was[t]) && was[t].user == u
        invariant forall t :: t in tokens.value[..i] && t in store.sessions ==> !matches(store.sessions[t])
        invariant forall t :: u in store.index && t in store.index[u] && t in store.sessions ==> t in tokens.value
        invariant forall t :: t in tokens.value ==> u in store.index && t in store.index[u]
        invariant old(store.failIn) < 0 ==> store.failIn < 0
      {
        var t := tokens.value[i];
        assert tokens.value[..i + 1] == tokens.value[..i] + [t];
        assert t in tokens.value;
        failed, groups', done' := RevokeOne(t, u, matches, groups', done', was);
        if failed {
          return true, groups', done';
        }
      }
      assert tokens.value[..|tokens.value|] == tokens.value;
      return false, groups', done';
    }

    /** `done` are the deleted tokens in order, `events` what this call published. */
    method RevokeMatching(users: seq<User>, matches: Session -> bool)
      returns (count: nat, failed: bool, ghost done: seq<Token>, ghost events: seq<Event>)
      requires store.Valid()
      modifies this`published, store`failIn, store`sessions
      ensures store.Valid() && store.index == old(store.index)
      // exactly the deleted tokens, each once
      ensures NoDuplicates(done) && forall t :: t in done ==> t in old(store.sessions)
      ensures store.sessions == old(store.sessions) - Elements(done)
      ensures count == |done|
      // of the requested users, and matching
      ensures forall t :: t in done ==> matches(old(store.sessions)[t]) && old(store.sessions)[t].user in users
      // published per app: those tokens in order, with the users that lost one there, at most 1000 an event
      ensures published == old(published) + events && AnnouncesAll(events, done, old(store.sessions))
      // without a failure nothing that is indexed and matches survives
      ensures old(store.failIn) < 0 ==> !failed
      ensures !failed ==> forall u :: u in users ==> Swept(store, u, matches)
    {
      ghost var was := store.sessions;
      var groups: map<App, Group> := map[];
      done, failed := [], false;
      assert was - Elements(done) == was;
      var i := 0;
      while i < |users| && !failed
        invariant 0 <= i <= |users|
        invariant published == old(published)
        invariant Grouped(groups, done, was)
        invariant forall t :: t in done ==> matches(was[t]) && was[t].user in users
        invariant old(store.failIn) < 0 ==> !failed && store.failIn < 0
        invariant !failed ==> forall u :: u in users[..i] ==> Swept(store, u, matches)
        decreases |users| - i, !failed
      {
        assert users[..i + 1] == users[..i] + [users[i]];
        failed, groups, done := RevokeUserTokens(users[i], matches, groups, done, was);
        i := i + 1;
      }
      assert !failed ==> users[..i] == users;
      count := RevokedCount(groups, done, was);
      ghost var order := AnnounceAll(groups);
      events := AllEvents(groups, order);
      AllEventsAnnounce(groups, order, done, was);
      assert groups.Keys - Elements(order) == {};
    }

    method RevokedCount(groups: map<App, Group>, ghost done: seq<Token>, ghost was: map<Token, Session>)
        returns (n: nat)
      requires Grouped(groups, done, was)
      ensures n == |done|
    {
      n := 0;
      var left := groups.Keys;
      ghost var rest := done;
      forall t | t in done ensures was[t].app in left {
        OfAppIn(done, was, was[t].app, t);
      }
      while left != {}
        invariant left <= groups.Keys
        invariant forall t :: t in rest ==> t in was && was[t].app in left
        invariant forall a :: a in left ==> OfApp(rest, was, a) == OfApp(done, was, a)
        invariant n + |rest| == |done|
        decreases left
      {
        var a :| a in left;
        SplitByApp(rest, was, a);
        n := n + |groups[a].tokens|;
        rest := NotOfApp(rest, was, a);
        left := left - {a};
      }
      AnElement(rest);
    }

    /** The deferred loop over the groups, in some order. */
    method AnnounceAll(groups: map<App, Group>) returns (ghost order: seq<App>)
      modifies this`published
      ensures NoDuplicates(order) && Elements(order) == groups.Keys && forall a :: a in order ==> a in groups
      ensures published == old(published) + AllEvents(groups, order)
    {
      order := [];
      var left := groups.Keys;
      assert Elements(order) == groups.Keys - left;
      while left != {}
        invariant left <= groups.Keys
        invariant Ordered(groups, order, left)
        invariant published == old(published) + AllEvents(groups, order)
        decreases left
      {
        var a :| a in left;
        OrderStep(groups, order, left, a);
        AnnounceBatch(groups[a].tokens, groups[a].users, a);
        order, left := order + [a], left - {a};
      }
    }
  }

  /** `order` lists the groups that are not left, each once. */
  ghost predicate Ordered(groups: map<App, Group>, order: seq<App>, left: set<App>) {
    (forall a :: a in order ==> a in groups) && NoDuplicates(order) && Elements(order) == groups.Keys - left
  }

  lemma OrderStep(groups: map<App, Group>, order: seq<App>, left: set<App>, a: App)
    requires Ordered(groups, order, left) && a in left && left <= groups.Keys
    ensures Ordered(groups, order + [a], left - {a})
    ensures AllEvents(groups, order + [a]) == AllEvents(groups, order) + Chunks(groups[a].tokens, groups[a].users, a)
  {
    assert a !in Elements(order);
    assert Elements(order + [a]) == Elements(order) + {a};
    assert groups.Keys - (left - {a}) == (groups.Keys - left) + {a};
    assert (order + [a])[..|order|] == order;
  }

  lemma AnElement<T>(s: seq<T>)
    ensures s == [] || exists x :: x in s
  {
    if s != [] { assert s[0] in s; }
  }

  ghost function AllEvents(groups: map<App, Group>, order: seq<App>): seq<Event>
    requires forall a :: a in order ==> a in groups
  {
    if order == [] then []
    else
      var a := order[|order| - 1];
      AllEvents(groups, order[..|order| - 1]) + Chunks(groups[a].tokens, groups[a].users, a)
  }

  lemma {:induction false} AllEventsAnnounce(groups: map<App, Group>, order: seq<App>, done: seq<Token>,
      was: map<Token, Session>)
    requires (forall t :: t in done ==> t in was) && ByApp(groups, done, was)
    requires NoDuplicates(order) && forall a :: a in order ==> a in groups
    ensures AnnouncesBut(AllEvents(groups, order), done, was, groups.Keys - Elements(order))
  {
    if order == [] {
      AnnounceNothing(groups, done, was);
      assert groups.Keys - Elements(order) == groups.Keys;
    } else {
      var a, front := order[|order| - 1], order[..|order| - 1];
      AllEventsAnnounce(groups, front, done, was);
      assert Elements(order) == Elements(front) + {a};
      assert a !in front;
      AnnounceStep(groups, AllEvents(groups, front), done, was, groups.Keys - Elements(front), a);
      assert groups.Keys - Elements(order) == groups.Keys - Elements(front) - {a};
    }
  }

  /** Nothing indexed under the user that is still stored matches. */
  ghost predicate Swept(store: Store, u: User, matches: Session -> bool)
    reads store
  {
    u in store.index ==> forall t :: t in store.index[u] && t in store.sessions ==> !matches(store.sessions[t])
  }

  ghost predicate ByApp(groups: map<App, Group>, done: seq<Token>, was: map<Token, Session>)
    requires forall t :: t in done ==> t in was
  {
    forall a :: if a in groups then groups[a] == Group(OfApp(done, was, a), Contributors(done, was, a))
                else OfApp(done, was, a) == []
  }

  /** Per app the deleted tokens in order, skipping the apps in `left`. */
  ghost predicate AnnouncesBut(events: seq<Event>, done: seq<Token>, was: map<Token, Session>, left: set<App>)
    requires forall t :: t in done ==> t in was
  {
    && (forall a :: Announced(events, a) == if a in left then [] else OfApp(done, was, a))
    && forall e :: e in events ==> 0 < |e.tokens| <= MAX_TOKENS_PER_EVENT && e.users == Contributors(done, was, e.app)
  }

  ghost predicate AnnouncesAll(events: seq<Event>, done: seq<Token>, was: map<Token, Session>)
    requires forall t :: t in done ==> t in was
  {
    AnnouncesBut(events, done, was, {})
  }

  lemma AnnounceNothing(groups: map<App, Group>, done: seq<Token>, was: map<Token, Session>)
    requires (forall t :: t in done ==> t in was) && ByApp(groups, done, was)
    ensures AnnouncesBut([], done, was, groups.Keys)
  {
  }

  lemma AnnounceStep(groups: map<App, Group>, events: seq<Event>, done: seq<Token>, was: map<Token, Session>,
                     left: set<App>, a: App)
    requires (forall t :: t in done ==> t in was) && ByApp(groups, done, was)
    requires AnnouncesBut(events, done, was, left) && a in left && a in groups
    ensures AnnouncesBut(events + Chunks(groups[a].tokens, groups[a].users, a), done, was, left - {a})
  {
    var batch := Chunks(groups[a].tokens, groups[a].users, a);
    ChunksLaw(groups[a].tokens, groups[a].users, a);
    forall b ensures Announced(events + batch, b) == if b in left - {a} then [] else OfApp(done, was, b) {
      AnnouncedConcat(events, batch, b);
      assert b != a ==> Announced(batch, b) == [];
    }
  }

  lemma ChunksStep(tokens: seq<Token>, n: nat, users: set<User>, app: App)
    requires tokens != [] && n == if |tokens| <= MAX_TOKENS_PER_EVENT then |tokens| else MAX_TOKENS_PER_EVENT
    ensures Chunks(tokens, users, app) == [Event(tokens[..n], users, app)] + Chunks(tokens[n..], users, app)
  {
    if n == |tokens| {
      assert tokens[..n] == tokens && tokens[n..] == [];
    }
  }

  lemma DoneStep(done: seq<Token>, was: map<Token, Session>, t: Token)
    requires t in was - Elements(done) && NoDuplicates(done)
    ensures NoDuplicates(done + [t])
    ensures was - Elements(done + [t]) == was - Elements(done) - {t}
  {
    assert Elements(done + [t]) == Elements(done) + {t};
    assert t !in done;
  }

  lemma ByAppStep(groups: map<App, Group>, done: seq<Token>, was: map<Token, Session>, t: Token)
    requires (forall x :: x in done ==> x in was) && t in was && ByApp(groups, done, was)
    ensures var a := was[t].app;
            var g := if a in groups then groups[a] else Group([], {});
            ByApp(groups[a := Group(g.tokens + [t], g.users + {was[t].user})], done + [t], was)
  {
    var a := was[t].app;
    assert (done + [t])[..|done + [t]| - 1] == done;
    forall b ensures OfApp(done + [t], was, b) == if b == a then OfApp(done, was, b) + [t] else OfApp(done, was, b)
             ensures Contributors(done + [t], was, b) ==
                 if b == a then Contributors(done, was, b) + {was[t].user} else Contributors(done, was, b) {
    }
    if a !in groups {
      forall x | x in done ensures was[x].app != a {
        OfAppIn(done, was, a, x);
      }
    }
  }

  ghost function NotOfApp(done: seq<Token>, sessions: map<Token, Session>, app: App): seq<Token>
    requires forall t :: t in done ==> t in sessions
  {
    if done == [] then []
    else
      var front := NotOfApp(done[..|done| - 1], sessions, app);
      var t := done[|done| - 1];
      if sessions[t].app != app then front + [t] else front
  }

  lemma {:induction false} SplitByApp(done: seq<Token>, was: map<Token, Session>, app: App)
    requires forall t :: t in done ==> t in was
    ensures var rest := NotOfApp(done, was, app);
            && |done| == |OfApp(done, was, app)| + |rest|
            && (forall t :: t in rest <==> t in done && was[t].app != app)
            && (forall b :: b != app ==> OfApp(rest, was, b) == OfApp(done, was, b))
  {
    if done == [] {
    } else {
      var front := done[..|done| - 1];
      var t := done[|done| - 1];
      assert done == front + [t];
      SplitByApp(front, was, app);
      var rest := NotOfApp(front, was, app);
      if was[t].app != app {
        assert (rest + [t])[..|rest|] == rest;
      }
    }
  }

  lemma {:induction false} OfAppIn(done: seq<Token>, was: map<Token, Session>, app: App, t: Token)
    requires forall x :: x in done ==> x in was
    ensures t in OfApp(done, was, app) <==> t in done && was[t].app == app
  {
    if done == [] {
    } else {
      assert done == done[..|done| - 1] + [done[|done| - 1]];
      OfAppIn(done[..|done| - 1], was, app, t);
    }
  }

  /** Reading RevokeMatching's promise token by token: a token is announced, and under its own session's app only,
      exactly when it was deleted. */
  lemma AnnouncedExactlyDeleted(events: seq<Event>, done: seq<Token>, was: map<Token, Session>, t: Token, app: App)
    requires forall x :: x in done ==> x in was
    requires forall a :: Announced(events, a) == OfApp(done, was, a)
    ensures t in Announced(events, app) <==> t in done && was[t].app == app
  {
    OfAppIn(done, was, app, t);
  }
}
