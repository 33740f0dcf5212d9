/** Scan-to-login (internal/service/auth_oauth.go, internal/service/oauth_store.go): state -> callback -> result or
    ticket -> bind ticket -> login, each a Redis key with an expiry. Callbacks, exchanges, polls and phone binds
    interleave freely and may stall between any two of their steps. A step is one Redis command, except that taking a
    result and finishing a callback also contain the DEL of the state next to it: what reads the state between the two
    commands could as well have read it right before or right after both. Instants are in seconds. */
module OAuthFlow {
  type Sid = nat          // the random state parameter of one StartOAuth
  type App = nat
  type Id = nat           // a request in flight
  type TicketId = nat

  const STATE_TTL: int := 300
  const TICKET_TTL: int := 120
  const BIND_TTL: int := 600

  datatype Delivery = Web | Scheme | Poll

  datatype Started = Started(app: App, delivery: Delivery, at: int)

  datatype Result = Result(ok: bool, expiresAt: int)

  datatype Ticket = Ticket(sid: Sid, app: App, expiresAt: int)

  /** What Redis holds; a key past its expiry counts as absent. Only results that are "ok" become tickets. */
  datatype Keys = Keys(
    states: map<Sid, int>, done: map<Sid, int>, results: map<Sid, Result>,
    tickets: map<TicketId, Ticket>, binds: map<TicketId, Ticket>)

  datatype Request =
    | Seen(sid: Sid)                        // a callback that read the state
    | Claimed(sid: Sid)                     // ... and claimed it
    | Polling(sid: Sid, app: App)           // a poll that read the state
    | Settling(sid: Sid, app: App)          // holds an "ok" outcome it took
    | Binding(bind: TicketId, app: App)     // peeked at a bind ticket, is checking the code
    | Linking(sid: Sid, app: App)           // took the bind ticket

  /** History: where the one right to log in that a state stands for is at the moment. */
  datatype Place = WithRequest(id: Id) | InResult | InTicket(ticket: TicketId) | InBind(ticket: TicketId) | Gone

  datatype Login = Login(sid: Sid, app: App)

  /** `started` is fixed by StartOAuth; the rest is history. `issued` keeps random tickets from repeating, `claimedAt`
      is when a state's callback was last claimed, and `reclaimed` holds the states claimed more than once. */
  datatype History = History(
    started: map<Sid, Started>, issued: set<TicketId>, place: map<Sid, Place>, claimedAt: map<Sid, int>,
    reclaimed: set<Sid>, logins: seq<Login>)
  {
    function Moved(x: Sid, p: Place): History {
      this.(place := place[x := p])
    }
  }

  datatype State = State(clock: int, keys: Keys, requests: map<Id, Request>, hist: History)

  const START := State(0, Keys(map[], map[], map[], map[], map[]), map[], History(map[], {}, map[], map[], {}, []))

  datatype Action =
    | Tick(d: nat)
    | StartOAuth(sid: Sid, app: App, delivery: Delivery)
    | ReadState(id: Id, sid: Sid)                        // callback: getState
    | Claim(id: Id)                                      // callback: claimCallback
    | Finish(id: Id, ok: bool, ticket: TicketId)         // callback: exchangeCode, then putResult or putTicket
    | ReadForPoll(id: Id, sid: Sid, app: App)            // PollOAuth: getState
    | TakeResult(id: Id)                                 // PollOAuth: takeResult
    | Exchange(id: Id, ticket: TicketId, app: App)       // ExchangeOAuth: takeTicket
    | SignIn(id: Id)                                     // settle or BindPhone: completeLogin
    | AskPhone(id: Id, bind: TicketId)                   // settle: putBind
    | Fail(id: Id)
    | Peek(id: Id, bind: TicketId, app: App)             // BindPhone: peekBind
    | TakeBind(id: Id)                                   // BindPhone: the code was right, takeBind

  predicate Live<K>(keys: map<K, int>, k: K, clock: int) {
    k in keys && clock < keys[k]
  }

  function Apply(s: State, a: Action): State {
    match a
    case Tick(d) => s.(clock := s.clock + d)
    case StartOAuth(x, app, delivery) =>
      if x in s.hist.started then s
      else s.(keys := s.keys.(states := s.keys.states[x := s.clock + STATE_TTL]),
              hist := s.hist.(started := s.hist.started[x := Started(app, delivery, s.clock)]))
    case ReadState(i, x) =>
      if i in s.requests || !Live(s.keys.states, x, s.clock) then s else s.(requests := s.requests[i := Seen(x)])
    case Claim(i) => if i in s.requests && s.requests[i].Seen? then Claiming(s, i, s.requests[i].sid) else s
    case Finish(i, ok, t) =>
      if i in s.requests && s.requests[i].Claimed? then Finishing(s, i, s.requests[i].sid, ok, t) else s
    case ReadForPoll(i, x, app) =>
      if i in s.requests || !Live(s.keys.states, x, s.clock) || x !in s.hist.started
         || s.hist.started[x].app != app || !s.hist.started[x].delivery.Poll? then s
      else s.(requests := s.requests[i := Polling(x, app)])
    case TakeResult(i) => if i in s.requests && s.requests[i].Polling? then Taking(s, i, s.requests[i].sid) else s
    case Exchange(i, t, app) => if i !in s.requests && t in s.keys.tickets then Exchanging(s, i, t, app) else s
    case SignIn(i) =>
      if i in s.requests && (s.requests[i].Settling? || s.requests[i].Linking?) then SigningIn(s, i,
          s.requests[i].sid) else s
    case AskPhone(i, b) =>
      if i in s.requests && s.requests[i].Settling?
          && b !in s.hist.issued then Asking(s, i, s.requests[i].sid, b) else s
    case Fail(i) => s.(requests := s.requests - {i})
    case Peek(i, b, app) =>
      if i in s.requests || b !in s.keys.binds || s.clock >= s.keys.binds[b].expiresAt
         || s.keys.binds[b].app != app then s
      else s.(requests := s.requests[i := Binding(b, app)])
    case TakeBind(i) => if i in s.requests && s.requests[i].Binding? then TakingBind(s, i, s.requests[i].bind) else s
  }

  /** SETNX of the done key: the loser's callback ends as expired. */
  function Claiming(s: State, i: Id, x: Sid): State {
    if Live(s.keys.done, x, s.clock) then s.(requests := s.requests - {i})
    else s.(keys := s.keys.(done := s.keys.done[x := s.clock + STATE_TTL]), requests := s.requests[i := Claimed(x)],
            hist := s.hist.Moved(x, WithRequest(i)).(
              claimedAt := s.hist.claimedAt[x := s.clock],
              reclaimed := if x in s.hist.place then s.hist.reclaimed + {x} else s.hist.reclaimed))
  }

  /** Poll mode leaves the outcome under the state; the other modes delete the state and, for "ok", make a ticket. */
  function Finishing(s: State, i: Id, x: Sid, ok: bool, t: TicketId): State {
    if x !in s.hist.started || t in s.hist.issued then s
    else
      var st := s.hist.started[x];
      if st.delivery.Poll? then
        s.(keys := s.keys.(results := s.keys.results[x := Result(ok, s.clock + STATE_TTL)]),
           requests := s.requests - {i}, hist := s.hist.Moved(x, if ok then InResult else Gone))
      else if ok then
        s.(keys := s.keys.(states := s.keys.states - {x},
                           tickets := s.keys.tickets[t := Ticket(x, st.app, s.clock + TICKET_TTL)]),
           requests := s.requests - {i}, hist := s.hist.Moved(x, InTicket(t)).(issued := s.hist.issued + {t}))
      else s.(keys := s.keys.(states := s.keys.states - {x}), requests := s.requests - {i}, hist := s.hist.Moved(x,
          Gone))
  }

  /** Takes the result and voids the state; without a result the poll just ends as pending. */
  function Taking(s: State, i: Id, x: Sid): State
    requires i in s.requests && s.requests[i].Polling?
  {
    if x !in s.keys.results || s.clock >= s.keys.results[x].expiresAt then s.(requests := s.requests - {i})
    else
      var taken := s.keys.(results := s.keys.results - {x}, states := s.keys.states - {x});
      if s.keys.results[x].ok then
        s.(keys := taken, requests := s.requests[i := Settling(x, s.requests[i].app)], hist := s.hist.Moved(x,
            WithRequest(i)))
      else s.(keys := taken, requests := s.requests - {i})
  }

  /** The ticket is consumed even when another app presents it. */
  function Exchanging(s: State, i: Id, t: TicketId, app: App): State
    requires t in s.keys.tickets
  {
    var ticket := s.keys.tickets[t];
    if s.clock >= ticket.expiresAt then s
    else if ticket.app != app then s.(keys := s.keys.(tickets := s.keys.tickets - {t}))
    else s.(keys := s.keys.(tickets := s.keys.tickets - {t}), requests := s.requests[i := Settling(ticket.sid, app)],
            hist := s.hist.Moved(ticket.sid, WithRequest(i)))
  }

  function SigningIn(s: State, i: Id, x: Sid): State
    requires i in s.requests && (s.requests[i].Settling? || s.requests[i].Linking?)
  {
    s.(requests := s.requests - {i},
       hist := s.hist.Moved(x, Gone).(logins := s.hist.logins + [Login(x, s.requests[i].app)]))
  }

  function Asking(s: State, i: Id, x: Sid, b: TicketId): State
    requires i in s.requests && s.requests[i].Settling?
  {
    s.(keys := s.keys.(binds := s.keys.binds[b := Ticket(x, s.requests[i].app, s.clock + BIND_TTL)]),
       requests := s.requests - {i}, hist := s.hist.Moved(x, InBind(b)).(issued := s.hist.issued + {b}))
  }

  function TakingBind(s: State, i: Id, b: TicketId): State
    requires i in s.requests && s.requests[i].Binding?
  {
    if b !in s.keys.binds || s.clock >= s.keys.binds[b].expiresAt then s.(requests := s.requests - {i})
    else s.(keys := s.keys.(binds := s.keys.binds - {b}),
            requests := s.requests[i := Linking(s.keys.binds[b].sid, s.requests[i].app)],
            hist := s.hist.Moved(s.keys.binds[b].sid, WithRequest(i)))
  }

  function Run(s: State, actions: seq<Action>): State
    decreases |actions|
  {
    if actions == [] then s else Run(Apply(s, actions[0]), actions[1..])
  }

  // ----- What every interleaving keeps -----

  /** Unless a second callback claimed, the right is where the history says. */
  predicate Holds(s: State, x: Sid, p: Place) {
    x in s.hist.started && x in s.hist.place && (x in s.hist.reclaimed || s.hist.place[x] == p)
  }

  /** The same once the callback is over: the state is void then (in poll mode, once its outcome is taken). */
  predicate HoldsAlone(s: State, x: Sid, p: Place) {
    Holds(s, x, p) && x !in s.keys.states
  }

  predicate OwnedBy(s: State, x: Sid, app: App) {
    x in s.hist.started && s.hist.started[x].app == app
  }

  /** The done mark lasts for 300 seconds from the latest claim. */
  predicate StateInv(s: State, x: Sid) {
    && (x in s.keys.states ==> x in s.hist.started)
    && (x in s.hist.place <==> x in s.hist.claimedAt)
    && (x in s.hist.place <==> x in s.keys.done)
    && (x in s.hist.place ==>
          && x in s.hist.started && s.keys.done[x] == s.hist.claimedAt[x] + STATE_TTL
          && s.hist.started[x].at <= s.hist.claimedAt[x])
    && (x in s.hist.started ==> s.hist.started[x].at <= s.clock)
  }

  predicate ResultInv(s: State, x: Sid) {
    x in s.keys.results && s.keys.results[x].ok ==> Holds(s, x, InResult)
  }

  /** A request that holds the right to log in ... */
  predicate RequestInv(s: State, i: Id) {
    i in s.requests ==>
      match s.requests[i]
      case Claimed(x) => Holds(s, x, WithRequest(i))
      case Settling(x, app) => HoldsAlone(s, x, WithRequest(i)) && OwnedBy(s, x, app)
      case Linking(x, app) => HoldsAlone(s, x, WithRequest(i)) && OwnedBy(s, x, app)
      case _ => true
  }

  /** ... and one that has only read something. */
  predicate ReaderInv(s: State, i: Id) {
    i in s.requests ==>
      match s.requests[i]
      case Seen(x) => x in s.hist.started
      case Polling(x, app) => OwnedBy(s, x, app)
      case Binding(b, app) => b in s.hist.issued && (b in s.keys.binds ==> s.keys.binds[b].app == app)
      case _ => true
  }

  predicate TicketInv(s: State, t: TicketId) {
    t in s.keys.tickets ==>
      var ticket := s.keys.tickets[t];
      HoldsAlone(s, ticket.sid, InTicket(t)) && OwnedBy(s, ticket.sid, ticket.app)
  }

  predicate BindInv(s: State, b: TicketId) {
    b in s.keys.binds ==>
      var ticket := s.keys.binds[b];
      b in s.hist.issued && HoldsAlone(s, ticket.sid, InBind(b)) && OwnedBy(s, ticket.sid, ticket.app)
  }

  predicate LoginInv(s: State, k: nat) {
    k < |s.hist.logins| ==>
      var login := s.hist.logins[k];
      HoldsAlone(s, login.sid, Gone) && OwnedBy(s, login.sid, login.app)
  }

  ghost predicate Distinct(s: State) {
    forall j, k :: 0 <= j < k < |s.hist.logins| && s.hist.logins[j].sid == s.hist.logins[k].sid ==>
                     s.hist.logins[j].sid in s.hist.reclaimed
  }

  ghost predicate Inv(s: State) {
    && (forall x :: StateInv(s, x))
    && (forall x :: ResultInv(s, x))
    && (forall i :: RequestInv(s, i))
    && (forall i :: ReaderInv(s, i))
    && (forall t :: TicketInv(s, t))
    && (forall b :: BindInv(s, b))
    && (forall k :: LoginInv(s, k))
    && Distinct(s)
  }

  lemma StepKeepsState(s: State, a: Action, x: Sid)
    requires Inv(s)
    ensures StateInv(Apply(s, a), x)
  {
    assert StateInv(s, x);
    Known(s, a);
  }

  lemma StepKeepsResult(s: State, a: Action, x: Sid)
    requires Inv(s)
    ensures ResultInv(Apply(s, a), x)
  {
    assert ResultInv(s, x);
    Known(s, a);
  }

  lemma StepKeepsRequest(s: State, a: Action, i: Id)
    requires Inv(s)
    ensures RequestInv(Apply(s, a), i)
  {
    assert RequestInv(s, i);
    Known(s, a);
  }

  lemma StepKeepsReader(s: State, a: Action, i: Id)
    requires Inv(s)
    ensures ReaderInv(Apply(s, a), i)
  {
    assert ReaderInv(s, i);
    Known(s, a);
  }

  lemma StepKeepsTicket(s: State, a: Action, t: TicketId)
    requires Inv(s)
    ensures TicketInv(Apply(s, a), t)
  {
    assert TicketInv(s, t);
    Known(s, a);
  }

  lemma StepKeepsBind(s: State, a: Action, b: TicketId)
    requires Inv(s)
    ensures BindInv(Apply(s, a), b)
  {
    assert BindInv(s, b);
    Known(s, a);
  }

  lemma StepKeepsLogin(s: State, a: Action, k: nat)
    requires Inv(s)
    ensures LoginInv(Apply(s, a), k)
  {
    assert LoginInv(s, k);
    Known(s, a);
  }

  /** The invariants at what the step touches. */
  lemma Known(s: State, a: Action)
    requires Inv(s)
    ensures match a
            case Tick(_) => true
            case StartOAuth(x, _, _) => StateInv(s, x)
            case ReadState(_, x) => StateInv(s, x)
            case ReadForPoll(_, x, _) => StateInv(s, x)
            case Exchange(_, t, _) => TicketInv(s, t)
            case Peek(_, b, _) => BindInv(s, b)
            case _ => RequestInv(s, a.id) && ReaderInv(s, a.id)
    ensures !a.Tick? && !a.StartOAuth? && a.id in s.requests ==>
              match s.requests[a.id]
              case Binding(b, _) => BindInv(s, b)
              case r => StateInv(s, r.sid) && ResultInv(s, r.sid)
  {
  }

  lemma StepKeepsInv(s: State, a: Action)
    requires Inv(s)
    ensures Inv(Apply(s, a))
  {
    var n := Apply(s, a);
    forall x ensures StateInv(n, x) { StepKeepsState(s, a, x); }
    forall x ensures ResultInv(n, x) { StepKeepsResult(s, a, x); }
    forall i ensures RequestInv(n, i) { StepKeepsRequest(s, a, i); }
    forall i ensures ReaderInv(n, i) { StepKeepsReader(s, a, i); }
    forall t ensures TicketInv(n, t) { StepKeepsTicket(s, a, t); }
    forall b ensures BindInv(n, b) { StepKeepsBind(s, a, b); }
    forall k ensures LoginInv(n, k) { StepKeepsLogin(s, a, k); }
    StepKeepsDistinct(s, a);
  }

  lemma StepKeepsDistinct(s: State, a: Action)
    requires Inv(s)
    ensures Distinct(Apply(s, a))
  {
    Known(s, a);
    if a.SignIn? && a.id in s.requests && (s.requests[a.id].Settling? || s.requests[a.id].Linking?) {
      var x := s.requests[a.id].sid;
      forall j: nat | j < |s.hist.logins| && s.hist.logins[j].sid == x
        ensures x in s.hist.reclaimed
      {
        assert LoginInv(s, j);
      }
    }
  }

  lemma {:induction false} RunKeepsInv(s: State, actions: seq<Action>)
    requires Inv(s)
    ensures Inv(Run(s, actions))
    decreases |actions|
  {
    if actions == [] {
    } else {
      StepKeepsInv(s, actions[0]);
      RunKeepsInv(Apply(s, actions[0]), actions[1..]);
    }
  }

  /** In every interleaving each state leads to at most one completed login, unless two callbacks of it were claimed;
      and every login is for the app that started it. */
  lemma AtMostOneLogin(actions: seq<Action>, j: nat, k: nat)
    requires j < k < |Run(START, actions).hist.logins|
    ensures var h := Run(START, actions).hist; h.logins[j].sid == h.logins[k].sid ==> h.logins[j].sid in h.reclaimed
    ensures var h := Run(START, actions).hist;
            h.logins[k].sid in h.started && h.started[h.logins[k].sid].app == h.logins[k].app
    ensures var h := Run(START, actions).hist;
            h.logins[j].sid in h.started && h.started[h.logins[j].sid].app == h.logins[j].app
  {
    RunKeepsInv(START, actions);
    assert LoginInv(Run(START, actions), j) && LoginInv(Run(START, actions), k);
  }

  /** When exactly a callback that has read the state is claimed: the first one always, a later one if and only if 300
      seconds have passed since the latest claim. The loser ends as expired, changing nothing. */
  lemma ClaimExact(actions: seq<Action>, x: Sid, i: Id)
    requires var s := Run(START, actions); i in s.requests && s.requests[i] == Seen(x)
    ensures var s := Run(START, actions);
            Apply(s, Claim(i)).requests == s.requests[i := Claimed(x)]
            <==> (x in s.hist.claimedAt ==> s.clock >= s.hist.claimedAt[x] + STATE_TTL)
    ensures var s := Run(START, actions);
            x in s.hist.claimedAt && s.clock < s.hist.claimedAt[x] + STATE_TTL ==>
              Apply(s, Claim(i)) == s.(requests := s.requests - {i})
    ensures var s := Run(START, actions);
            x in s.hist.claimedAt ==> x in s.hist.started && s.hist.started[x].at <= s.hist.claimedAt[x]
  {
    RunKeepsInv(START, actions);
    var s := Run(START, actions);
    assert StateInv(s, x);
    assert i !in s.requests - {i};
  }

  /** One web login is over; a second callback of the same state has read it and stalls. */
  function Stalled(app: App): State {
    State(0, Keys(map[], map[0 := STATE_TTL], map[], map[], map[]), map[1 := Seen(0)],
          History(map[0 := Started(app, Web, 0)], {0}, map[0 := Gone], map[0 := 0], {}, [Login(0, app)]))
  }

  function BothRead(app: App): State {
    State(0, Keys(map[0 := STATE_TTL], map[], map[], map[], map[]), map[0 := Seen(0), 1 := Seen(0)],
          History(map[0 := Started(app, Web, 0)], {}, map[], map[], {}, []))
  }

  lemma BothReadReached(app: App)
    ensures Apply(Apply(Apply(START, StartOAuth(0, app, Web)), ReadState(0, 0)), ReadState(1, 0)) == BothRead(app)
  {
  }

  function TicketOut(app: App): State {
    State(0, Keys(map[], map[0 := STATE_TTL], map[], map[0 := Ticket(0, app, TICKET_TTL)], map[]), map[1 := Seen(0)],
          History(map[0 := Started(app, Web, 0)], {0}, map[0 := InTicket(0)], map[0 := 0], {}, []))
  }

  lemma TicketOutReached(app: App)
    ensures Apply(Apply(BothRead(app), Claim(0)), Finish(0, true, 0)) == TicketOut(app)
  {
    var claimed := Apply(BothRead(app), Claim(0));
    assert claimed.requests == map[0 := Claimed(0), 1 := Seen(0)];
    var finished := Apply(claimed, Finish(0, true, 0));
    assert finished.requests == map[1 := Seen(0)] && finished.keys.states == map[];
  }

  lemma StalledReached(app: App)
    ensures Apply(Apply(TicketOut(app), Exchange(2, 0, app)), SignIn(2)) == Stalled(app)
  {
    var settling := Apply(TicketOut(app), Exchange(2, 0, app));
    assert settling.requests == map[1 := Seen(0), 2 := Settling(0, app)] && settling.keys.tickets == map[];
    assert Apply(settling, SignIn(2)).requests == map[1 := Seen(0)];
  }
}
