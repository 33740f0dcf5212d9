/** The batching Redis runner (internal/im/redisx/runner.go). One action per critical section; timers fire, and their
    callbacks wait for the lock, at any moment, also after Stop came too late. */
module Runner {
  import opened Wrappers

  type Job = nat
  type TimerId = nat

  /** The runner's fields and the timers it armed. A fired timer's callback is `waiting` until it gets the lock.
      `arrived` (every accepted job), `taken` (every non-empty batch, in the order taken), `flushed` (which of those
      were sent) and `answers` (the done channels written) are history. */
  datatype State = State(
    pending: seq<Job>, timer: Option<TimerId>, closed: bool,
    armed: set<TimerId>, waiting: set<TimerId>, next: TimerId,
    arrived: seq<Job>, taken: seq<seq<Job>>, flushed: set<nat>, answers: multiset<Job>)

  const START := State([], None, false, {}, {}, 0, [], [], {}, multiset{})

  datatype Action =
    | Submit(job: Job)             // Run, up to its unlock
    | Fire(timer: TimerId)         // the timer runs out: its callback starts
    | Callback(timer: TimerId)     // flushByTimer, up to its unlock
    | Flush(batch: nat)            // the pipeline of one taken batch returns
    | Close

  /** take: empties pending and stops the timer. A callback that is already waiting is not called back. */
  function Took(s: State): State {
    s.(pending := [], timer := None, armed := if s.timer.Some? then s.armed - {s.timer.value} else s.armed,
       taken := if s.pending == [] then s.taken else s.taken + [s.pending])
  }

  function Submitted(s: State, size: int, job: Job): State {
    if s.closed then s
    else
      var queued := s.(pending := s.pending + [job], arrived := s.arrived + [job]);
      if size > 1 && |queued.pending| >= size then Took(queued)
      else if |queued.pending| == 1 then
        queued.(timer := Some(s.next), armed := s.armed + {s.next}, next := s.next + 1)
      else queued
  }

  function Apply(size: int, s: State, a: Action): State {
    match a
    case Submit(job) => Submitted(s, size, job)
    case Fire(t) => if t in s.armed then s.(armed := s.armed - {t}, waiting := s.waiting + {t}) else s
    case Callback(t) => if t in s.waiting then Took(s.(waiting := s.waiting - {t})) else s
    case Flush(b) =>
      if b >= |s.taken| || b in s.flushed then s
      else s.(flushed := s.flushed + {b}, answers := s.answers + multiset(s.taken[b]))
    case Close => Took(s.(closed := true))
  }

  function Run(size: int, s: State, actions: seq<Action>): State
    decreases |actions|
  {
    if actions == [] then s else Run(size, Apply(size, s, actions[0]), actions[1..])
  }

  // ----- The runner itself -----

  datatype Outcome = Direct | Refused | Queued | Full(batch: seq<Job>)

  class BatchRunner {
    const interval: int
    const size: int
    var pending: seq<Job>
    var timer: Option<TimerId>
    var closed: bool
    // the runtime's timers
    var armed: set<TimerId>
    var waiting: set<TimerId>
    var next: TimerId
    // history
    ghost var arrived: seq<Job>
    ghost var taken: seq<seq<Job>>
    ghost var flushed: set<nat>
    ghost var answers: multiset<Job>

    constructor (interval: int, size: int)
      ensures this.interval == interval && this.size == size && Value() == START
    {
      this.interval, this.size := interval, size;
      pending, timer, closed := [], None, false;
      armed, waiting, next := {}, {}, 0;
      arrived, taken, flushed, answers := [], [], {}, multiset{};
    }

    ghost function Value(): State
      reads this
    {
      State(pending, timer, closed, armed, waiting, next, arrived, taken, flushed, answers)
    }

    method Take() returns (batch: seq<Job>)
      modifies this
      ensures Value() == Took(old(Value())) && batch == old(pending)
    {
      batch := pending;
      if pending != [] {
        taken := taken + [pending];
      }
      pending := [];
      if timer.Some? {
        armed := armed - {timer.value};
        timer := None;
      }
    }

    /** Run up to its unlock; a full batch is then flushed by this caller. */
    method Submit(job: Job) returns (o: Outcome)
      modifies this
      ensures o.Direct? <==> interval <= 0
      ensures o.Refused? <==> interval > 0 && old(closed)
      ensures o.Full? <==> interval > 0 && !old(closed) && size > 1 && |old(pending)| + 1 >= size
      ensures o.Full? ==> o.batch == old(pending) + [job]
      ensures Value() == if interval <= 0 then old(Value()) else Apply(size, old(Value()), Action.Submit(job))
    {
      if interval <= 0 {
        return Direct;
      }
      if closed {
        return Refused;
      }
      pending := pending + [job];
      arrived := arrived + [job];
      if size > 1 && |pending| >= size {
        var batch := Take();
        return Full(batch);
      }
      if |pending| == 1 {
        timer, armed, next := Some(next), armed + {next}, next + 1;
      }
      return Queued;
    }

    method FlushByTimer(t: TimerId) returns (batch: seq<Job>)
      requires t in waiting
      modifies this
      ensures Value() == Apply(size, old(Value()), Action.Callback(t)) && batch == old(pending)
    {
      waiting := waiting - {t};
      batch := Take();
    }

    method Close() returns (batch: seq<Job>)
      modifies this
      ensures Value() == Apply(size, old(Value()), Action.Close) && batch == old(pending)
    {
      closed := true;
      batch := Take();
    }

    /** The pipeline of batch number b returned: its result goes to every job's done channel. */
    method Flush(batch: seq<Job>, ghost b: nat)
      requires b < |taken| && taken[b] == batch && b !in flushed
      modifies this
      ensures Value() == Apply(size, old(Value()), Action.Flush(b))
    {
      ghost var before := answers;
      for i := 0 to |batch|
        invariant answers == before + multiset(batch[..i])
        invariant Value() == old(Value()).(answers := answers)
      {
        assert batch[..i + 1] == batch[..i] + [batch[i]];
        answers := answers + multiset{batch[i]};
      }
      assert batch[..|batch|] == batch;
      flushed := flushed + {b};
    }
  }

  // ----- Every interleaving -----

  function Flatten(batches: seq<seq<Job>>): seq<Job> {
    if batches == [] then [] else Flatten(batches[..|batches| - 1]) + batches[|batches| - 1]
  }

  /** The jobs of the first n batches that were not answered yet. */
  function Unanswered(taken: seq<seq<Job>>, flushed: set<nat>, n: nat): multiset<Job>
    requires n <= |taken|
  {
    if n == 0 then multiset{}
    else Unanswered(taken, flushed, n - 1) + if n - 1 in flushed then multiset{} else multiset(taken[n - 1])
  }

  lemma {:induction false} FlushedOne(taken: seq<seq<Job>>, flushed: set<nat>, n: nat, b: nat)
    requires n <= |taken| && b < |taken| && b !in flushed
    ensures Unanswered(taken, flushed, n)
         == Unanswered(taken, flushed + {b}, n) + if b < n then multiset(taken[b]) else multiset{}
  {
    if n > 0 {
      FlushedOne(taken, flushed, n - 1, b);
    }
  }

  lemma {:induction false} TakenOneMore(taken: seq<seq<Job>>, batch: seq<Job>, flushed: set<nat>, n: nat)
    requires n <= |taken|
    ensures Unanswered(taken + [batch], flushed, n) == Unanswered(taken, flushed, n)
  {
    if n > 0 {
      TakenOneMore(taken, batch, flushed, n - 1);
    }
  }

  ghost predicate TimerInv(s: State) {
    && (s.pending != [] <==> s.timer.Some?)
    && (s.timer.Some? ==> s.timer.value in s.armed || s.timer.value in s.waiting)
    && (s.closed ==> s.pending == [])
    && (forall t :: t in s.armed || t in s.waiting ==> t < s.next)
  }

  /** Every accepted job is in exactly one place, in arrival order, and has been answered or is still owed an answer. */
  ghost predicate BatchInv(size: int, s: State) {
    && Flatten(s.taken) + s.pending == s.arrived
    && (forall b :: b in s.flushed ==> b < |s.taken|)
    && (forall b :: 0 <= b < |s.taken| ==> s.taken[b] != [] && (size > 1 ==> |s.taken[b]| <= size))
    && s.answers + Unanswered(s.taken, s.flushed, |s.taken|) + multiset(s.pending) == multiset(s.arrived)
  }

  ghost predicate Inv(size: int, s: State) {
    TimerInv(s) && BatchInv(size, s) && (size > 1 ==> |s.pending| < size)
  }

  lemma StepKeepsTimer(size: int, s: State, a: Action)
    requires TimerInv(s)
    ensures TimerInv(Apply(size, s, a))
  {
  }

  /** take moves the pending jobs into one batch. */
  lemma TookKeepsBatches(size: int, s: State)
    requires BatchInv(size, s) && (size > 1 ==> |s.pending| <= size)
    ensures BatchInv(size, Took(s))
  {
    if s.pending != [] {
      var n := |s.taken|;
      assert Took(s).taken[..n] == s.taken;
      TakenOneMore(s.taken, s.pending, s.flushed, n);
      assert n !in s.flushed;
      assert Unanswered(Took(s).taken, s.flushed, n + 1) == Unanswered(s.taken, s.flushed, n) + multiset(s.pending);
    }
  }

  lemma QueuedKeepsBatches(size: int, s: State, job: Job)
    requires BatchInv(size, s)
    ensures BatchInv(size, s.(pending := s.pending + [job], arrived := s.arrived + [job]))
  {
    assert Flatten(s.taken) + (s.pending + [job]) == s.arrived + [job];
  }

  lemma SubmitKeepsBatches(size: int, s: State, job: Job)
    requires Inv(size, s)
    ensures BatchInv(size, Submitted(s, size, job)) && (size > 1 ==> |Submitted(s, size, job).pending| < size)
  {
    QueuedKeepsBatches(size, s, job);
    TookKeepsBatches(size, s.(pending := s.pending + [job], arrived := s.arrived + [job]));
  }

  lemma FlushKeepsBatches(size: int, s: State, b: nat)
    requires BatchInv(size, s)
    ensures BatchInv(size, Apply(size, s, Flush(b)))
  {
    if b < |s.taken| && b !in s.flushed {
      FlushedOne(s.taken, s.flushed, |s.taken|, b);
    }
  }

  lemma StepKeepsInv(size: int, s: State, a: Action)
    requires Inv(size, s)
    ensures Inv(size, Apply(size, s, a))
  {
    StepKeepsTimer(size, s, a);
    match a
    case Submit(job) => SubmitKeepsBatches(size, s, job);
    case Fire(t) =>
    case Callback(t) => TookKeepsBatches(size, s.(waiting := s.waiting - {t}));
    case Flush(b) => FlushKeepsBatches(size, s, b);
    case Close => TookKeepsBatches(size, s.(closed := true));
  }

  lemma {:induction false} RunKeepsInv(size: int, s: State, actions: seq<Action>)
    requires Inv(size, s)
    ensures Inv(size, Run(size, s, actions))
    decreases |actions|
  {
    if actions == [] {
    } else {
      StepKeepsInv(size, s, actions[0]);
      RunKeepsInv(size, Apply(size, s, actions[0]), actions[1..]);
    }
  }

  /** In every interleaving the batches, joined in the order taken and followed by what is pending, are exactly the jobs
      accepted, in the order they arrived; no batch is empty or larger than the flush size. */
  lemma BatchesAreTheArrivals(size: int, actions: seq<Action>)
    ensures var s := Run(size, START, actions);
            Flatten(s.taken) + s.pending == s.arrived
    ensures var s := Run(size, START, actions);
            forall b :: 0 <= b < |s.taken| ==> 0 < |s.taken[b]| && (size > 1 ==> |s.taken[b]| <= size)
  {
    RunKeepsInv(size, START, actions);
  }

  /** Every job is answered once: what was answered, what taken batches still owe and what is pending make up the
      arrivals. Once every taken batch was flushed and nothing is pending, all have been answered. */
  lemma EveryJobIsAnsweredOnce(size: int, actions: seq<Action>)
    ensures var s := Run(size, START, actions);
            s.answers + Unanswered(s.taken, s.flushed, |s.taken|) + multiset(s.pending) == multiset(s.arrived)
    ensures var s := Run(size, START, actions);
            s.pending == [] && (forall b :: 0 <= b < |s.taken| ==> b in s.flushed) ==> s.answers == multiset(s.arrived)
  {
    RunKeepsInv(size, START, actions);
    var s := Run(size, START, actions);
    if forall b :: 0 <= b < |s.taken| ==> b in s.flushed {
      NothingOwed(s.taken, s.flushed, |s.taken|);
    }
  }

  lemma {:induction false} NothingOwed(taken: seq<seq<Job>>, flushed: set<nat>, n: nat)
    requires n <= |taken| && forall b :: 0 <= b < n ==> b in flushed
    ensures Unanswered(taken, flushed, n) == multiset{}
  {
    if n > 0 {
      NothingOwed(taken, flushed, n - 1);
    }
  }

  /** No job is stranded: while anything is pending, the current timer is armed or its callback is on its way, and that
      callback takes everything. */
  lemma PendingWillBeTaken(size: int, actions: seq<Action>)
    ensures var s := Run(size, START, actions);
            s.pending != [] ==> s.timer.Some? && (s.timer.value in s.armed || s.timer.value in s.waiting)
    ensures var s := Run(size, START, actions);
            s.pending != [] ==>
              var n := Apply(size, Apply(size, s, Fire(s.timer.value)), Callback(s.timer.value));
              n.pending == [] && Flatten(n.taken) == s.arrived
  {
    RunKeepsInv(size, START, actions);
    var s := Run(size, START, actions);
    if s.pending != [] {
      StepKeepsInv(size, s, Fire(s.timer.value));
      StepKeepsInv(size, Apply(size, s, Fire(s.timer.value)), Callback(s.timer.value));
    }
  }

  /** After Close nothing is ever pending again, and later jobs are refused. */
  lemma NothingAfterClose(size: int, before: seq<Action>, after: seq<Action>)
    ensures var closed := Apply(size, Run(size, START, before), Close);
            var s := Run(size, closed, after);
            s.pending == [] && s.arrived == closed.arrived && s.taken == closed.taken
  {
    RunKeepsInv(size, START, before);
    StepKeepsInv(size, Run(size, START, before), Close);
    ClosedStays(size, Apply(size, Run(size, START, before), Close), after);
  }

  lemma {:induction false} ClosedStays(size: int, s: State, actions: seq<Action>)
    requires s.closed && s.pending == []
    ensures var n := Run(size, s, actions); n.closed && n.pending == [] && n.arrived == s.arrived && n.taken == s.taken
    decreases |actions|
  {
    if actions == [] {
    } else {
      ClosedStays(size, Apply(size, s, actions[0]), actions[1..]);
    }
  }

  /** A job joins the pending ones; with it they leave as one batch exactly when a flush size above 1 is reached, and
      otherwise a timer is armed exactly when it is the first. A closed runner does nothing. */
  lemma SubmitExactly(size: int, s: State, job: Job)
    ensures s.closed ==> Apply(size, s, Submit(job)) == s
    ensures var n, all := Apply(size, s, Submit(job)), s.pending + [job];
            !s.closed ==>
              && n.arrived == s.arrived + [job] && !n.closed
              && (size > 1 && |all| >= size ==>
                    n.pending == [] && n.taken == s.taken + [all] && n.timer == None && n.armed <= s.armed)
              && (!(size > 1 && |all| >= size) ==> n.pending == all && n.taken == s.taken)
              && (!(size > 1 && |all| >= size) && s.pending == [] ==>
                    n.timer == Some(s.next) && n.armed == s.armed + {s.next} && n.next > s.next)
              && (!(size > 1 && |all| >= size) && s.pending != [] ==> n.timer == s.timer && n.armed == s.armed)
  {
  }

  /** A timer's callback and a close take all that is pending, as one batch unless there is nothing. */
  lemma TakesEverything(size: int, s: State, a: Action)
    requires a.Close? || (a.Callback? && a.timer in s.waiting)
    ensures var n := Apply(size, s, a);
            && n.pending == [] && n.timer == None && n.arrived == s.arrived && n.closed == (s.closed || a.Close?)
            && n.taken == (if s.pending == [] then s.taken else s.taken + [s.pending])
  {
  }
}
