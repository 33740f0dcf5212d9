/** What scan-to-login does for those who follow it: what each step may touch, how long a state can be used, and the
    runs that end in a login, polls that come too early included. */
module OAuthSteps {
  import opened OAuthFlow
  import opened OAuthExact

  // ----- What a step may touch -----

  predicate Doing(s: State, a: Action, r: Request) {
    !a.Tick? && !a.StartOAuth? && a.id in s.requests && s.requests[a.id] == r
  }

  predicate LiveResult(s: State, x: Sid) {
    x in s.keys.results && s.clock < s.keys.results[x].expiresAt
  }

  /** The steps that end a state: a callback that finishes outside poll mode, and a poll that takes a result. */
  predicate Voids(s: State, a: Action, x: Sid) {
    || (a.Finish? && Doing(s, a, Claimed(x)) && !IsPoll(s, x))
    || (a.TakeResult? && a.id in s.requests && s.requests[a.id].Polling? && s.requests[a.id].sid == x
        && LiveResult(s, x))
  }

  /** A state comes only from its own start and goes only by a step that ends it ... */
  lemma StatesChangeOnlyBy(s: State, a: Action, x: Sid)
    ensures var n := Apply(s, a);
            x in s.keys.states && !Voids(s, a, x) && !(a.StartOAuth? && x !in s.hist.started) ==>
              x in n.keys.states && n.keys.states[x] == s.keys.states[x]
    ensures x !in s.keys.states && x in Apply(s, a).keys.states ==>
              a.StartOAuth? && a.sid == x && x !in s.hist.started
  {
  }

  /** ... a done mark only from a claim of a callback that read the state while there was no live mark ... */
  lemma DoneChangesOnlyBy(s: State, a: Action, x: Sid)
    ensures var n := Apply(s, a);
            !(a.Claim? && Doing(s, a, Seen(x)) && !Live(s.keys.done, x, s.clock)) ==>
              (x in n.keys.done <==> x in s.keys.done) && (x in s.keys.done ==> n.keys.done[x] == s.keys.done[x])
  {
  }

  /** ... a result only from its claimed callback in poll mode, or by the poll that takes it ... */
  lemma ResultsChangeOnlyBy(s: State, a: Action, x: Sid)
    ensures var n := Apply(s, a);
            !(a.Finish? && Doing(s, a, Claimed(x)) && IsPoll(s, x)) && !Voids(s, a, x) ==>
              && (x in n.keys.results <==> x in s.keys.results)
              && (x in s.keys.results ==> n.keys.results[x] == s.keys.results[x])
  {
  }

  /** ... a ticket only from a claimed callback or by being presented, a bind ticket only from a request that asks for
      the phone or by being taken. */
  lemma TicketsChangeOnlyBy(s: State, a: Action, t: TicketId)
    ensures var n := Apply(s, a);
            !(a.Finish? && a.ticket == t && t !in s.hist.issued) && !(a.Exchange? && a.ticket == t) ==>
              && (t in n.keys.tickets <==> t in s.keys.tickets)
              && (t in s.keys.tickets ==> n.keys.tickets[t] == s.keys.tickets[t])
    ensures var n := Apply(s, a);
            !(a.AskPhone? && a.bind == t && t !in s.hist.issued)
            && !(a.TakeBind? && a.id in s.requests && s.requests[a.id].Binding? && s.requests[a.id].bind == t) ==>
              && (t in n.keys.binds <==> t in s.keys.binds)
              && (t in s.keys.binds ==> n.keys.binds[t] == s.keys.binds[t])
  {
  }

  /** A request in flight changes by its own steps alone, and only a sign-in adds a login. */
  lemma RequestsChangeOnlyBy(s: State, a: Action, i: Id)
    ensures var n := Apply(s, a);
            (a.Tick? || a.StartOAuth? || a.id != i) ==>
              && (i in n.requests <==> i in s.requests)
              && (i in s.requests ==> n.requests[i] == s.requests[i])
    ensures !a.SignIn? ==> Apply(s, a).hist.logins == s.hist.logins
  {
  }

  // ----- The steps that lose -----

  /** A poll that finds no live result ends as pending: that is all it does. */
  lemma PendingPollChangesNothing(s: State, i: Id, x: Sid, app: App)
    requires i in s.requests && s.requests[i] == Polling(x, app) && !LiveResult(s, x)
    ensures var n := Apply(s, TakeResult(i)); n == s.(requests := n.requests) && n.requests == s.requests - {i}
  {
  }

  /** A second callback that comes while the done mark lives ends, and changes no key. */
  lemma SecondClaimLoses(s: State, i: Id, x: Sid)
    requires i in s.requests && s.requests[i] == Seen(x) && x in s.keys.done && s.clock < s.keys.done[x]
    ensures var n := Apply(s, Claim(i)); n == s.(requests := n.requests) && n.requests == s.requests - {i}
  {
  }

  /** A ticket presented by another application is used up, and gives nothing; a bind ticket stays. */
  lemma WrongAppGetsNothing(s: State, i: Id, t: TicketId, app: App)
    requires i !in s.requests
    ensures t in s.keys.tickets && s.keys.tickets[t].app != app && s.clock < s.keys.tickets[t].expiresAt ==>
              var n := Apply(s, Exchange(i, t, app));
              n == s.(keys := s.keys.(tickets := n.keys.tickets)) && t !in n.keys.tickets
    ensures t in s.keys.binds && s.keys.binds[t].app != app ==> Apply(s, Peek(i, t, app)) == s
  {
  }

  /** A callback that comes back with an error makes no ticket; in poll mode its result waits for the poll, with the
      state, and the poll that takes it ends both and holds nothing. */
  lemma FailedCallbackLogsNobodyIn(s: State, c: Id, x: Sid, t: TicketId, p: Id, app: App)
    requires c in s.requests && s.requests[c] == Claimed(x) && x in s.hist.started && t !in s.hist.issued
    requires p in s.requests && s.requests[p] == Polling(x, app) && p != c
    ensures var n := Apply(s, Finish(c, false, t));
            && n.keys.tickets == s.keys.tickets && c !in n.requests
            && (!IsPoll(s, x) ==> x !in n.keys.states && n.keys.results == s.keys.results)
            && (IsPoll(s, x) ==>
                  && n.keys == s.keys.(results := s.keys.results[x := Result(false, s.clock + 300)])
                  && var m := Apply(n, TakeResult(p));
                     p !in m.requests && x !in m.keys.states && x !in m.keys.results)
  {
  }

  // ----- How long a state can be used -----

  predicate NeverVoided(s: State, actions: seq<Action>, x: Sid)
    decreases |actions|
  {
    actions == [] || (!Voids(s, actions[0], x) && NeverVoided(Apply(s, actions[0]), actions[1..], x))
  }

  lemma {:induction false} StateStays(s: State, actions: seq<Action>, x: Sid)
    requires x in s.keys.states && x in s.hist.started && NeverVoided(s, actions, x)
    ensures var n := Run(s, actions);
            && x in n.keys.states && n.keys.states[x] == s.keys.states[x]
            && x in n.hist.started && n.hist.started[x] == s.hist.started[x]
    decreases |actions|
  {
    if actions == [] {
    } else {
      StartedStays(s, actions[0], x);
      StepLeavesState(s, actions[0], x);
      StateStays(Apply(s, actions[0]), actions[1..], x);
    }
  }

  lemma StepLeavesState(s: State, a: Action, x: Sid)
    requires x in s.keys.states && x in s.hist.started && !Voids(s, a, x)
    ensures x in Apply(s, a).keys.states && Apply(s, a).keys.states[x] == s.keys.states[x]
  {
  }

  /** Until a callback finishes outside poll mode or a poll takes a result, a started state can be read by any callback,
      and in poll mode by any poll of its application, for exactly 300 seconds, whatever else happens. */
  lemma ReadableFor300Seconds(s: State, x: Sid, app: App, delivery: Delivery, actions: seq<Action>, i: Id)
    requires x !in s.hist.started && NeverVoided(Apply(s, StartOAuth(x, app, delivery)), actions, x)
    ensures var n := Run(Apply(s, StartOAuth(x, app, delivery)), actions);
            i !in n.requests ==>
              && Apply(n, ReadState(i, x)) ==
                   (if n.clock < s.clock + 300 then n.(requests := n.requests[i := Seen(x)]) else n)
              && Apply(n, ReadForPoll(i, x, app)) ==
                   (if n.clock < s.clock + 300 && delivery == Poll then n.(requests := n.requests[i := Polling(x, app)])
                    else n)
  {
    StateStays(Apply(s, StartOAuth(x, app, delivery)), actions, x);
  }

  // ----- Runs that end in a login -----

  lemma Unfold(s: State, a: Action, rest: seq<Action>)
    ensures Run(s, [a] + rest) == Run(Apply(s, a), rest)
  {
    assert ([a] + rest)[1..] == rest;
  }

  /** Polls of one state in turn, each after waiting a while. */
  function Polls(x: Sid, app: App, polls: seq<(Id, nat)>): seq<Action> {
    if polls == [] then []
    else
      [Tick(polls[0].1)] + ([ReadForPoll(polls[0].0, x, app)]
        + ([TakeResult(polls[0].0)] + Polls(x, app, polls[1..])))
  }

  function Waited(polls: seq<(Id, nat)>): nat {
    if polls == [] then 0 else polls[0].1 + Waited(polls[1..])
  }

  /** Any number of polls before there is a result leave everything as it was, but for the time that went by. */
  lemma {:induction false} EarlyPollsChangeNothing(s: State, x: Sid, app: App, polls: seq<(Id, nat)>)
    requires x !in s.keys.results && forall k :: 0 <= k < |polls| ==> polls[k].0 !in s.requests
    ensures Run(s, Polls(x, app, polls)) == s.(clock := s.clock + Waited(polls))
    decreases |polls|
  {
    if polls == [] {
    } else {
      var i, rest := polls[0].0, Polls(x, app, polls[1..]);
      var n := Apply(s, Tick(polls[0].1));
      var m := Apply(n, ReadForPoll(i, x, app));
      assert m == n || m == n.(requests := n.requests[i := Polling(x, app)]);
      assert n.requests[i := Polling(x, app)] - {i} == n.requests;
      assert Apply(m, TakeResult(i)) == n;
      Unfold(s, Tick(polls[0].1), [ReadForPoll(i, x, app)] + ([TakeResult(i)] + rest));
      Unfold(n, ReadForPoll(i, x, app), [TakeResult(i)] + rest);
      Unfold(m, TakeResult(i), rest);
      EarlyPollsChangeNothing(n, x, app, polls[1..]);
    }
  }

  function Callback(c: Id, x: Sid, t: TicketId, d1: nat, d2: nat): seq<Action> {
    [ReadState(c, x)] + ([Tick(d1)] + ([Claim(c)] + ([Tick(d2)] + ([Finish(c, true, t)] + []))))
  }

  lemma ReadsAndClaims(s: State, x: Sid, c: Id, d: nat)
    requires x in s.hist.started && x in s.keys.states && s.clock < s.keys.states[x] && c !in s.requests
    requires !(x in s.keys.done && s.clock + d < s.keys.done[x])
    ensures var n := Apply(Apply(Apply(s, ReadState(c, x)), Tick(d)), Claim(c));
            && n.clock == s.clock + d && n.requests == s.requests[c := Claimed(x)]
            && n.keys == s.keys.(done := n.keys.done) && x in n.keys.done && n.keys.done[x] == n.clock + 300
            && n.hist.started == s.hist.started && n.hist.issued == s.hist.issued && n.hist.logins == s.hist.logins
  {
    var s1 := Apply(s, ReadState(c, x));
    assert s1 == s.(requests := s.requests[c := Seen(x)]);
  }

  lemma FinishesOk(s: State, x: Sid, c: Id, t: TicketId)
    requires x in s.hist.started && c in s.requests && s.requests[c] == Claimed(x) && t !in s.hist.issued
    ensures var m, app := Apply(s, Finish(c, true, t)), s.hist.started[x].app;
            && m.clock == s.clock && m.requests == s.requests - {c} && m.hist.started == s.hist.started
            && m.hist.logins == s.hist.logins && m.hist.issued <= s.hist.issued + {t}
            && (IsPoll(s, x) ==> m.keys == s.keys.(results := s.keys.results[x := Result(true, m.clock + 300)]))
            && (!IsPoll(s, x) ==>
                  x !in m.keys.states && t in m.keys.tickets && m.keys.tickets[t] == Ticket(x, app, m.clock + 120))
  {
  }

  /** A callback that reads a live state while no done mark lives and comes back "ok", however long it takes, leaves in
      poll mode its result for 300 seconds, with the state as it was, and otherwise a ticket for the starting
      application for 120 seconds, and no state. */
  lemma CallbackSucceeds(s: State, x: Sid, c: Id, t: TicketId, d1: nat, d2: nat)
    requires x in s.hist.started && x in s.keys.states && s.clock < s.keys.states[x]
    requires !(x in s.keys.done && s.clock + d1 < s.keys.done[x]) && c !in s.requests && t !in s.hist.issued
    ensures var m, app := Run(s, Callback(c, x, t, d1, d2)), s.hist.started[x].app;
            && m.clock == s.clock + d1 + d2 && m.requests == s.requests && m.hist.started == s.hist.started
            && m.hist.logins == s.hist.logins && m.hist.issued <= s.hist.issued + {t}
            && (IsPoll(s, x) ==>
                  m.keys == s.keys.(done := m.keys.done, results := s.keys.results[x := Result(true, m.clock + 300)]))
            && (!IsPoll(s, x) ==>
                  x !in m.keys.states && t in m.keys.tickets && m.keys.tickets[t] == Ticket(x, app, m.clock + 120))
  {
    var s1 := Apply(s, ReadState(c, x));
    var s2 := Apply(s1, Tick(d1));
    var s3 := Apply(s2, Claim(c));
    ReadsAndClaims(s, x, c, d1);
    var s4 := Apply(s3, Tick(d2));
    assert s.requests[c := Claimed(x)] - {c} == s.requests;
    FinishesOk(s4, x, c, t);
    Unfold(s, ReadState(c, x), [Tick(d1)] + ([Claim(c)] + ([Tick(d2)] + ([Finish(c, true, t)] + []))));
    Unfold(s1, Tick(d1), [Claim(c)] + ([Tick(d2)] + ([Finish(c, true, t)] + [])));
    Unfold(s2, Claim(c), [Tick(d2)] + ([Finish(c, true, t)] + []));
    Unfold(s3, Tick(d2), [Finish(c, true, t)] + []);
    Unfold(s4, Finish(c, true, t), []);
  }

  function PollAndSignIn(p: Id, x: Sid, app: App, d: nat): seq<Action> {
    [Tick(d)] + ([ReadForPoll(p, x, app)] + ([TakeResult(p)] + ([SignIn(p)] + [])))
  }

  /** A poll of the application while both the state and an "ok" result live takes the result, ends the state and logs
      in, once. */
  lemma ResultLogsIn(s: State, x: Sid, p: Id, d: nat)
    requires IsPoll(s, x) && x in s.keys.states && s.clock + d < s.keys.states[x] && p !in s.requests
    requires x in s.keys.results && s.keys.results[x].ok && s.clock + d < s.keys.results[x].expiresAt
    ensures var app := s.hist.started[x].app;
            var n := Run(s, PollAndSignIn(p, x, app, d));
            && n.hist.logins == s.hist.logins + [Login(x, app)] && n.requests == s.requests
            && x !in n.keys.states && x !in n.keys.results
  {
    var app := s.hist.started[x].app;
    var s1 := Apply(s, Tick(d));
    var s2 := Apply(s1, ReadForPoll(p, x, app));
    assert s2 == s1.(requests := s.requests[p := Polling(x, app)]);
    var s3 := Apply(s2, TakeResult(p));
    assert s3.requests == s.requests[p := Settling(x, app)] && s3.hist.logins == s.hist.logins;
    assert s.requests[p := Settling(x, app)] - {p} == s.requests;
    Unfold(s, Tick(d), [ReadForPoll(p, x, app)] + ([TakeResult(p)] + ([SignIn(p)] + [])));
    Unfold(s1, ReadForPoll(p, x, app), [TakeResult(p)] + ([SignIn(p)] + []));
    Unfold(s2, TakeResult(p), [SignIn(p)] + []);
    Unfold(s3, SignIn(p), []);
  }

  function ExchangeAndSignIn(e: Id, t: TicketId, app: App, d: nat): seq<Action> {
    [Tick(d)] + ([Exchange(e, t, app)] + ([SignIn(e)] + []))
  }

  /** A ticket presented in time by its application is used up and logs in. */
  lemma TicketLogsIn(s: State, t: TicketId, e: Id, d: nat)
    requires t in s.keys.tickets && s.clock + d < s.keys.tickets[t].expiresAt && e !in s.requests
    ensures var k := s.keys.tickets[t];
            var n := Run(s, ExchangeAndSignIn(e, t, k.app, d));
            n.hist.logins == s.hist.logins + [Login(k.sid, k.app)] && n.requests == s.requests && t !in n.keys.tickets
  {
    var k := s.keys.tickets[t];
    var s1 := Apply(s, Tick(d));
    var s2 := Apply(s1, Exchange(e, t, k.app));
    assert s2.requests == s.requests[e := Settling(k.sid, k.app)] && s2.hist.logins == s.hist.logins;
    assert s.requests[e := Settling(k.sid, k.app)] - {e} == s.requests;
    Unfold(s, Tick(d), [Exchange(e, t, k.app)] + ([SignIn(e)] + []));
    Unfold(s1, Exchange(e, t, k.app), [SignIn(e)] + []);
    Unfold(s2, SignIn(e), []);
  }

  function AskAndBind(e: Id, b: TicketId, q: Id, app: App, d: nat): seq<Action> {
    [AskPhone(e, b)] + ([Tick(d)] + ([Peek(q, b, app)] + ([TakeBind(q)] + ([SignIn(q)] + []))))
  }

  lemma BindLogsIn(s: State, b: TicketId, q: Id)
    requires b in s.keys.binds && s.clock < s.keys.binds[b].expiresAt && q !in s.requests
    ensures var k := s.keys.binds[b];
            var n := Apply(Apply(Apply(s, Peek(q, b, k.app)), TakeBind(q)), SignIn(q));
            && n.hist.logins == s.hist.logins + [Login(k.sid, k.app)] && n.requests == s.requests
            && b !in n.keys.binds
  {
    var k := s.keys.binds[b];
    var s1 := Apply(s, Peek(q, b, k.app));
    assert s1.keys == s.keys && s1.requests == s.requests[q := Binding(b, k.app)];
    var s2 := Apply(s1, TakeBind(q));
    assert s2.requests == s.requests[q := Linking(k.sid, k.app)] && s2.hist.logins == s.hist.logins;
    assert s.requests[q := Linking(k.sid, k.app)] - {q} == s.requests;
  }

  /** An outcome that needs a phone first gives a bind ticket; presented by the application within 600 seconds, with the
      right code, it is used up and logs in. */
  lemma PhoneLogsIn(s: State, e: Id, x: Sid, app: App, b: TicketId, q: Id, d: nat)
    requires e in s.requests && s.requests[e] == Settling(x, app) && b !in s.hist.issued && d < 600 && q !in s.requests
    ensures var n := Run(s, AskAndBind(e, b, q, app, d));
            && n.hist.logins == s.hist.logins + [Login(x, app)] && n.requests == s.requests - {e}
            && b !in n.keys.binds
  {
    var s1 := Apply(s, AskPhone(e, b));
    assert s1.keys.binds[b] == Ticket(x, app, s.clock + 600) && s1.requests == s.requests - {e};
    var s2 := Apply(s1, Tick(d));
    BindLogsIn(s2, b, q);
    var s3 := Apply(s2, Peek(q, b, app));
    var s4 := Apply(s3, TakeBind(q));
    Unfold(s, AskPhone(e, b), [Tick(d)] + ([Peek(q, b, app)] + ([TakeBind(q)] + ([SignIn(q)] + []))));
    Unfold(s1, Tick(d), [Peek(q, b, app)] + ([TakeBind(q)] + ([SignIn(q)] + [])));
    Unfold(s2, Peek(q, b, app), [TakeBind(q)] + ([SignIn(q)] + []));
    Unfold(s3, TakeBind(q), [SignIn(q)] + []);
    Unfold(s4, SignIn(q), []);
  }

  /** A result belongs to a started state. */
  predicate ResultsAreStarted(s: State) {
    forall x :: x in s.keys.results ==> x in s.hist.started
  }

  lemma {:induction false} RunKeepsResultsStarted(s: State, actions: seq<Action>)
    requires ResultsAreStarted(s)
    ensures ResultsAreStarted(Run(s, actions))
    decreases |actions|
  {
    if actions == [] {
    } else {
      StepKeepsResultsStarted(s, actions[0]);
      RunKeepsResultsStarted(Apply(s, actions[0]), actions[1..]);
    }
  }

  lemma StepKeepsResultsStarted(s: State, a: Action)
    requires ResultsAreStarted(s)
    ensures ResultsAreStarted(Apply(s, a))
  {
    forall x | x in Apply(s, a).keys.results ensures x in Apply(s, a).hist.started {
      if x in s.hist.started { StartedStays(s, a, x); }
    }
  }

  /** The ordinary scan, whatever ran before it: a desktop application starts, polls as often as it likes before the
      user has scanned, the callback comes back "ok", and the next poll logs the application in, all within 300
      seconds. */
  lemma ScanLogsIn(actions: seq<Action>, x: Sid, app: App, polls: seq<(Id, nat)>, c: Id, t: TicketId, p: Id,
                   d1: nat, d2: nat, d3: nat)
    requires var s := Run(START, actions);
             && x !in s.hist.started && c !in s.requests && p !in s.requests && t !in s.hist.issued
             && forall k :: 0 <= k < |polls| ==> polls[k].0 !in s.requests
    requires Waited(polls) + d1 + d2 + d3 < 300
    ensures var s := Run(START, actions);
            var started := Apply(s, StartOAuth(x, app, Poll));
            var n := Run(Run(Run(started, Polls(x, app, polls)), Callback(c, x, t, d1, d2)),
                         PollAndSignIn(p, x, app, d3));
            n.hist.logins == s.hist.logins + [Login(x, app)] && n.requests == s.requests && x !in n.keys.states
  {
    var s := Run(START, actions);
    RunKeepsInv(START, actions);
    RunKeepsResultsStarted(START, actions);
    assert StateInv(s, x);
    var started := Apply(s, StartOAuth(x, app, Poll));
    EarlyPollsChangeNothing(started, x, app, polls);
    var polled := Run(started, Polls(x, app, polls));
    CallbackSucceeds(polled, x, c, t, d1, d2);
    ResultLogsIn(Run(polled, Callback(c, x, t, d1, d2)), x, p, d3);
  }
}
