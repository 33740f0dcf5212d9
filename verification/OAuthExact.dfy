/** When exactly a state of scan-to-login can still lead to a login (internal/service/auth_oauth.go,
    internal/service/oauth_store.go), from any point of any run. */
module OAuthExact {
  import opened OAuthFlow

  /** Completed logins of one state. */
  function Count(logins: seq<Login>, x: Sid): nat {
    if logins == [] then 0
    else Count(logins[..|logins| - 1], x) + if logins[|logins| - 1].sid == x then 1 else 0
  }

  lemma CountOneMore(logins: seq<Login>, l: Login, x: Sid)
    ensures Count(logins + [l], x) == Count(logins, x) + if l.sid == x then 1 else 0
  {
    assert (logins + [l])[..|logins + [l]| - 1] == logins;
  }

  /** Some continuation completes another login of x. */
  ghost predicate LoginPossible(s: State, x: Sid) {
    exists rest :: Count(Run(s, rest).hist.logins, x) > Count(s.hist.logins, x)
  }

  predicate IsPoll(s: State, x: Sid) {
    x in s.hist.started && s.hist.started[x].delivery.Poll?
  }

  // ----- What a login can still come from -----

  /** A request that took an "ok" outcome or a bind ticket, or a ticket that has not run out. */
  ghost predicate Holder(s: State, x: Sid) {
    || (exists i :: i in s.requests && (s.requests[i].Settling? || s.requests[i].Linking?) && s.requests[i].sid == x)
    || (exists t :: t in s.keys.tickets && s.keys.tickets[t].sid == x && s.clock < s.keys.tickets[t].expiresAt)
    || (exists b :: b in s.keys.binds && s.keys.binds[b].sid == x && s.clock < s.keys.binds[b].expiresAt)
  }

  /** A callback under way, or a state that one can still read. */
  ghost predicate Callback(s: State, x: Sid) {
    || (exists i :: i in s.requests && (s.requests[i] == Seen(x) || s.requests[i] == Claimed(x)))
    || Live(s.keys.states, x, s.clock)
  }

  /** A poll under way, or a state that one can still read. */
  ghost predicate Poller(s: State, x: Sid) {
    || (exists i :: i in s.requests && s.requests[i].Polling? && s.requests[i].sid == x)
    || (IsPoll(s, x) && Live(s.keys.states, x, s.clock))
  }

  predicate HasResult(s: State, x: Sid) {
    x in s.keys.results && s.keys.results[x].ok && s.clock < s.keys.results[x].expiresAt
  }

  /** In poll mode a login takes both a callback and a poll; otherwise a callback is enough. */
  ghost predicate Source(s: State, x: Sid) {
    || Holder(s, x)
    || (!IsPoll(s, x) && Callback(s, x))
    || (Poller(s, x) && (HasResult(s, x) || (IsPoll(s, x) && Callback(s, x))))
  }

  // ----- Without any of it there is no login, ever -----

  lemma StepWithoutSource(s: State, a: Action, x: Sid)
    requires x in s.hist.started && !Source(s, x)
    ensures x in Apply(s, a).hist.started && !Source(Apply(s, a), x)
    ensures Count(Apply(s, a).hist.logins, x) == Count(s.hist.logins, x)
  {
    StepWithoutHolder(s, a, x);
    StepWithoutPair(s, a, x);
    if a.SignIn? && a.id in s.requests && (s.requests[a.id].Settling? || s.requests[a.id].Linking?) {
      CountOneMore(s.hist.logins, Login(s.requests[a.id].sid, s.requests[a.id].app), x);
    }
  }

  lemma StepWithoutHolder(s: State, a: Action, x: Sid)
    requires x in s.hist.started && !Source(s, x)
    ensures !Holder(Apply(s, a), x)
  {
    match a
    case Finish(_, _, _) =>
    case TakeResult(_) =>
    case Exchange(_, _, _) =>
    case AskPhone(_, _) =>
    case TakeBind(_) =>
    case _ =>
  }

  lemma StepWithoutPair(s: State, a: Action, x: Sid)
    requires x in s.hist.started && !Source(s, x)
    ensures var n := Apply(s, a);
            && x in n.hist.started && n.hist.started[x] == s.hist.started[x]
            && (!IsPoll(n, x) ==> !Callback(n, x))
            && (Poller(n, x) ==> !HasResult(n, x) && !(IsPoll(n, x) && Callback(n, x)))
  {
    StartedStays(s, a, x);
    if !Callback(s, x) {
      StepWithoutCallback(s, a, x);
      if !HasResult(s, x) { StepWithoutResult(s, a, x); }
    }
    if !Poller(s, x) { StepWithoutPoller(s, a, x); }
  }

  lemma StartedStays(s: State, a: Action, x: Sid)
    requires x in s.hist.started
    ensures x in Apply(s, a).hist.started && Apply(s, a).hist.started[x] == s.hist.started[x]
  {
  }

  lemma StepWithoutCallback(s: State, a: Action, x: Sid)
    requires x in s.hist.started && !Callback(s, x)
    ensures !Callback(Apply(s, a), x)
  {
  }

  lemma StepWithoutResult(s: State, a: Action, x: Sid)
    requires !Callback(s, x) && !HasResult(s, x)
    ensures !HasResult(Apply(s, a), x)
  {
  }

  lemma StepWithoutPoller(s: State, a: Action, x: Sid)
    requires x in s.hist.started && !Poller(s, x)
    ensures !Poller(Apply(s, a), x)
  {
  }

  lemma {:induction false} RunWithoutSource(s: State, rest: seq<Action>, x: Sid)
    requires x in s.hist.started && !Source(s, x)
    ensures Count(Run(s, rest).hist.logins, x) == Count(s.hist.logins, x)
    decreases |rest|
  {
    if rest == [] {
    } else {
      StepWithoutSource(s, rest[0], x);
      RunWithoutSource(Apply(s, rest[0]), rest[1..], x);
    }
  }

  // ----- With it there is one -----

  lemma {:induction false} Unused(used: set<nat>) returns (n: nat)
    ensures forall m :: m in used ==> m < n
  {
    n := 0;
    if used != {} {
      var m :| m in used;
      n := Unused(used - {m});
      if n <= m { n := m + 1; }
      forall k | k in used ensures k < n {
        if k != m { assert k in used - {m}; }
      }
    }
  }

  /** A step that completes nothing may come first. */
  lemma First(s: State, a: Action, x: Sid)
    requires Apply(s, a).hist.logins == s.hist.logins && LoginPossible(Apply(s, a), x)
    ensures LoginPossible(s, x)
  {
    var rest :| Count(Run(Apply(s, a), rest).hist.logins, x) > Count(Apply(s, a).hist.logins, x);
    assert ([a] + rest)[1..] == rest;
    assert Run(s, [a] + rest) == Run(Apply(s, a), rest);
  }

  lemma HeldLogsIn(s: State, x: Sid, i: Id)
    requires i in s.requests && (s.requests[i].Settling? || s.requests[i].Linking?) && s.requests[i].sid == x
    ensures LoginPossible(s, x)
  {
    var n := Apply(s, SignIn(i));
    CountOneMore(s.hist.logins, Login(x, s.requests[i].app), x);
    assert Run(s, [SignIn(i)]) == Run(n, []);
    assert Count(Run(s, [SignIn(i)]).hist.logins, x) > Count(s.hist.logins, x);
  }

  lemma TicketLogsIn(s: State, x: Sid, t: TicketId)
    requires t in s.keys.tickets && s.keys.tickets[t].sid == x && s.clock < s.keys.tickets[t].expiresAt
    ensures LoginPossible(s, x)
  {
    var i := Unused(s.requests.Keys);
    var a := Exchange(i, t, s.keys.tickets[t].app);
    HeldLogsIn(Apply(s, a), x, i);
    First(s, a, x);
  }

  lemma BindLogsIn(s: State, x: Sid, b: TicketId)
    requires b in s.keys.binds && s.keys.binds[b].sid == x && s.clock < s.keys.binds[b].expiresAt
    ensures LoginPossible(s, x)
  {
    var i := Unused(s.requests.Keys);
    var peek := Peek(i, b, s.keys.binds[b].app);
    var n := Apply(s, peek);
    assert n.requests == s.requests[i := Binding(b, s.keys.binds[b].app)] && n.keys == s.keys && n.clock == s.clock;
    HeldLogsIn(Apply(n, TakeBind(i)), x, i);
    First(n, TakeBind(i), x);
    First(s, peek, x);
  }

  lemma ResultLogsIn(s: State, x: Sid, p: Id)
    requires p in s.requests && s.requests[p].Polling? && s.requests[p].sid == x && HasResult(s, x)
    ensures LoginPossible(s, x)
  {
    HeldLogsIn(Apply(s, TakeResult(p)), x, p);
    First(s, TakeResult(p), x);
  }

  /** A claimed callback comes back "ok"; in poll mode a poll p has to be under way. */
  lemma ClaimedLogsIn(s: State, x: Sid, i: Id, p: Id)
    requires i in s.requests && s.requests[i] == Claimed(x) && x in s.hist.started
    requires IsPoll(s, x) ==> p in s.requests && s.requests[p].Polling? && s.requests[p].sid == x
    ensures LoginPossible(s, x)
  {
    var t := Unused(s.hist.issued);
    var a := Finish(i, true, t);
    if IsPoll(s, x) {
      ResultLogsIn(Apply(s, a), x, p);
    } else {
      TicketLogsIn(Apply(s, a), x, t);
    }
    First(s, a, x);
  }

  /** A callback that has read the state waits until the done mark, if any, has run out, and claims. */
  lemma SeenLogsIn(s: State, x: Sid, i: Id, p: Id)
    requires i in s.requests && s.requests[i] == Seen(x) && x in s.hist.started
    requires IsPoll(s, x) ==> p in s.requests && s.requests[p].Polling? && s.requests[p].sid == x
    ensures LoginPossible(s, x)
  {
    var d := if x in s.keys.done && s.clock < s.keys.done[x] then s.keys.done[x] - s.clock else 0;
    var n := Apply(s, Tick(d));
    assert !Live(n.keys.done, x, n.clock);
    var m := Apply(n, Claim(i));
    assert m.requests == s.requests[i := Claimed(x)] && m.hist.started == s.hist.started;
    ClaimedLogsIn(m, x, i, p);
    First(n, Claim(i), x);
    First(s, Tick(d), x);
  }

  lemma CallbackLogsIn(s: State, x: Sid, p: Id)
    requires Callback(s, x) && x in s.hist.started
    requires IsPoll(s, x) ==> p in s.requests && s.requests[p].Polling? && s.requests[p].sid == x
    ensures LoginPossible(s, x)
  {
    if i :| i in s.requests && s.requests[i] == Seen(x) {
      SeenLogsIn(s, x, i, p);
    } else if i :| i in s.requests && s.requests[i] == Claimed(x) {
      ClaimedLogsIn(s, x, i, p);
    } else {
      var i := Unused(s.requests.Keys);
      var n := Apply(s, ReadState(i, x));
      assert n == s.(requests := s.requests[i := Seen(x)]);
      SeenLogsIn(n, x, i, p);
      First(s, ReadState(i, x), x);
    }
  }

  lemma PolledLogsIn(s: State, x: Sid, p: Id)
    requires p in s.requests && s.requests[p].Polling? && s.requests[p].sid == x && x in s.hist.started
    requires HasResult(s, x) || (IsPoll(s, x) && Callback(s, x))
    ensures LoginPossible(s, x)
  {
    if HasResult(s, x) {
      ResultLogsIn(s, x, p);
    } else {
      CallbackLogsIn(s, x, p);
    }
  }

  lemma PairLogsIn(s: State, x: Sid)
    requires x in s.hist.started && Poller(s, x) && (HasResult(s, x) || (IsPoll(s, x) && Callback(s, x)))
    ensures LoginPossible(s, x)
  {
    if p :| p in s.requests && s.requests[p].Polling? && s.requests[p].sid == x {
      PolledLogsIn(s, x, p);
    } else {
      var p := Unused(s.requests.Keys);
      var a := ReadForPoll(p, x, s.hist.started[x].app);
      var n := Apply(s, a);
      assert n == s.(requests := s.requests[p := Polling(x, s.hist.started[x].app)]);
      assert Live(n.keys.states, x, n.clock);
      PolledLogsIn(n, x, p);
      First(s, a, x);
    }
  }

  // ----- Exactly when -----

  /** From any state of the system, another login of x can follow exactly when it still has a source. */
  lemma LoginPossibleExactly(s: State, x: Sid)
    requires x in s.hist.started
    ensures LoginPossible(s, x) <==> Source(s, x)
  {
    if !Source(s, x) {
      forall rest ensures Count(Run(s, rest).hist.logins, x) == Count(s.hist.logins, x) {
        RunWithoutSource(s, rest, x);
      }
    } else if Holder(s, x) {
      HolderLogsIn(s, x);
    } else if !IsPoll(s, x) && Callback(s, x) {
      CallbackLogsIn(s, x, 0);
    } else {
      PairLogsIn(s, x);
    }
  }

  lemma HolderLogsIn(s: State, x: Sid)
    requires Holder(s, x)
    ensures LoginPossible(s, x)
  {
    if i :| i in s.requests && (s.requests[i].Settling? || s.requests[i].Linking?) && s.requests[i].sid == x {
      HeldLogsIn(s, x, i);
    } else if t :| t in s.keys.tickets && s.keys.tickets[t].sid == x && s.clock < s.keys.tickets[t].expiresAt {
      TicketLogsIn(s, x, t);
    } else {
      var b :| b in s.keys.binds && s.keys.binds[b].sid == x && s.clock < s.keys.binds[b].expiresAt;
      BindLogsIn(s, x, b);
    }
  }

  /** After the login of a state, as long as no second callback was claimed, another login can follow exactly when a
      callback that read the state is still under way, and in poll mode a poll that read it as well. */
  lemma SecondLoginExactly(actions: seq<Action>, k: nat)
    requires var h := Run(START, actions).hist; k < |h.logins| && h.logins[k].sid !in h.reclaimed
    ensures var s := Run(START, actions);
            var x := s.hist.logins[k].sid;
            LoginPossible(s, x) <==>
              && (exists i :: i in s.requests && s.requests[i] == Seen(x))
              && (IsPoll(s, x) ==> exists p :: p in s.requests && s.requests[p].Polling? && s.requests[p].sid == x)
  {
    RunKeepsInv(START, actions);
    var s := Run(START, actions);
    var x := s.hist.logins[k].sid;
    assert LoginInv(s, k);
    LoginPossibleExactly(s, x);
    OnlyReaders(s, x);
  }

  /** Once the right is gone and was not claimed again, nothing holds it but callbacks and polls that read the state. */
  lemma OnlyReaders(s: State, x: Sid)
    requires Inv(s) && x !in s.hist.reclaimed && HoldsAlone(s, x, Gone)
    ensures !Holder(s, x) && !Live(s.keys.states, x, s.clock) && !HasResult(s, x)
    ensures forall i :: i in s.requests ==> s.requests[i] != Claimed(x)
  {
    forall i | i in s.requests
      ensures s.requests[i] != Claimed(x)
      ensures s.requests[i].Settling? || s.requests[i].Linking? ==> s.requests[i].sid != x
    {
      assert RequestInv(s, i);
    }
    forall t | t in s.keys.tickets ensures s.keys.tickets[t].sid != x {
      assert TicketInv(s, t);
    }
    forall b | b in s.keys.binds ensures s.keys.binds[b].sid != x {
      assert BindInv(s, b);
    }
    assert ResultInv(s, x);
  }

  /** It does happen: with one login over and a second callback of the same state stalled after reading it, another
      login follows. */
  lemma StalledCallbackLogsInAgain(app: App)
    ensures Count(Stalled(app).hist.logins, 0) == 1 && LoginPossible(Stalled(app), 0)
  {
    var s := Stalled(app);
    assert s.hist.logins[..0] == [];
    assert 1 in s.requests && s.requests[1] == Seen(0);
    LoginPossibleExactly(s, 0);
  }

  lemma {:induction false} RunsJoin(s: State, first: seq<Action>, rest: seq<Action>)
    ensures Run(s, first + rest) == Run(Run(s, first), rest)
    decreases |first|
  {
    if first == [] {
      assert first + rest == rest;
    } else {
      assert (first + rest)[0] == first[0] && (first + rest)[1..] == first[1..] + rest;
      RunsJoin(Apply(s, first[0]), first[1..], rest);
    }
  }

  ghost predicate Reached(s: State) {
    exists actions :: s == Run(START, actions)
  }

  lemma Onward(s: State, a: Action)
    requires Reached(s)
    ensures Reached(Apply(s, a))
  {
    var actions :| s == Run(START, actions);
    RunsJoin(START, actions, [a]);
    assert Run(s, [a]) == Run(Apply(s, a), []);
    assert Apply(s, a) == Run(START, actions + [a]);
  }

  lemma StalledIsReached(app: App)
    ensures Reached(Stalled(app))
  {
    assert START == Run(START, []);
    Onward(START, StartOAuth(0, app, Web));
    Onward(Apply(START, StartOAuth(0, app, Web)), ReadState(0, 0));
    Onward(Apply(Apply(START, StartOAuth(0, app, Web)), ReadState(0, 0)), ReadState(1, 0));
    BothReadReached(app);
    Onward(BothRead(app), Claim(0));
    Onward(Apply(BothRead(app), Claim(0)), Finish(0, true, 0));
    TicketOutReached(app);
    Onward(TicketOut(app), Exchange(2, 0, app));
    Onward(Apply(TicketOut(app), Exchange(2, 0, app)), SignIn(2));
    StalledReached(app);
  }

  /** So some run from the start completes two logins of one state. */
  lemma OneStateLogsInTwice(app: App)
    ensures exists actions :: Count(Run(START, actions).hist.logins, 0) > 1
  {
    StalledIsReached(app);
    var first :| Stalled(app) == Run(START, first);
    StalledCallbackLogsInAgain(app);
    var rest :| Count(Run(Stalled(app), rest).hist.logins, 0) > Count(Stalled(app).hist.logins, 0);
    RunsJoin(START, first, rest);
    assert Count(Run(START, first + rest).hist.logins, 0) > 1;
  }
}
