/** The prober of broken forwarders: a queue of targets, a worker pool, and the set of
    tracked forwarders, changed by concurrent steps under one lock. */
module Prober {
  import opened Runs

  const PROBE_ROUTINE_COUNT: nat := 10

  type Fwder = string
  type Request = string

  datatype Target = Target(fwder: Fwder, request: Request)

  /** The shared state, the targets the tick loop has taken but not yet handed to the
      pool, and the targets the pool is probing. */
  datatype State = State(tracked: set<Fwder>, queue: seq<Target>, batch: seq<Target>, inFlight: seq<Target>)

  /** Everything that can happen before the prober is stopped.  The tick loop is one
      goroutine, so it takes a new batch only once the last one is handed over. */
  datatype Event =
    | AddProbe(fwder: Fwder, request: Request)
    | Tick
    | Sent
    | Busy
    | ProbeFailed(index: nat)
    | ProbeRestored(index: nat)

  function Taken(queue: seq<Target>): nat {
    if |queue| < PROBE_ROUTINE_COUNT then |queue| else PROBE_ROUTINE_COUNT
  }

  function Step(s: State, e: Event): State {
    match e
    case AddProbe(f, request) =>
      if f in s.tracked then s else s.(queue := s.queue + [Target(f, request)], tracked := s.tracked + {f})
    case Tick =>
      if s.batch != [] then s
      else s.(queue := s.queue[Taken(s.queue)..], batch := s.queue[..Taken(s.queue)])
    case Sent =>
      if s.batch == [] then s else s.(batch := s.batch[1..], inFlight := s.inFlight + [s.batch[0]])
    case Busy =>
      if s.batch == [] then s else s.(batch := s.batch[1..], queue := s.queue + [s.batch[0]])
    case ProbeFailed(i) =>
      if i >= |s.inFlight| then s
      else s.(inFlight := Dropped(s.inFlight, i), queue := s.queue + [s.inFlight[i]])
    case ProbeRestored(i) =>
      if i >= |s.inFlight| then s
      else s.(inFlight := Dropped(s.inFlight, i), tracked := s.tracked - {s.inFlight[i].fwder})
  }

  function Dropped(targets: seq<Target>, i: nat): seq<Target>
    requires i < |targets|
  {
    targets[..i] + targets[i + 1..]
  }

  const Idle := State({}, [], [], [])

  // ----- conservation

  function Fwders(targets: seq<Target>): multiset<Fwder> {
    if targets == [] then multiset{}
    else Fwders(targets[..|targets| - 1]) + multiset{targets[|targets| - 1].fwder}
  }

  lemma {:induction false} FwdersAppend(a: seq<Target>, b: seq<Target>)
    ensures Fwders(a + b) == Fwders(a) + Fwders(b)
    decreases |b|
  {
    if b == [] {
      assert a + b == a;
    } else {
      assert (a + b)[..|a + b| - 1] == a + b[..|b| - 1];
      FwdersAppend(a, b[..|b| - 1]);
    }
  }

  lemma FwdersOne(t: Target)
    ensures Fwders([t]) == multiset{t.fwder}
  {
    assert [t][..0] == [];
  }

  /** Where forwarders are: queued, in the tick loop's hands, or being probed. */
  function Places(s: State): multiset<Fwder> {
    Fwders(s.queue) + Fwders(s.batch) + Fwders(s.inFlight)
  }

  ghost predicate Conserved(s: State) {
    Places(s) == multiset(s.tracked)
  }

  lemma SplitFwders(targets: seq<Target>, k: nat)
    requires k <= |targets|
    ensures Fwders(targets) == Fwders(targets[..k]) + Fwders(targets[k..])
  {
    assert targets == targets[..k] + targets[k..];
    FwdersAppend(targets[..k], targets[k..]);
  }

  lemma PushFwders(targets: seq<Target>, t: Target)
    ensures Fwders(targets + [t]) == Fwders(targets) + multiset{t.fwder}
  {
    FwdersAppend(targets, [t]);
    FwdersOne(t);
  }

  lemma DropFwders(targets: seq<Target>, i: nat)
    requires i < |targets|
    ensures Fwders(targets) == Fwders(Dropped(targets, i)) + multiset{targets[i].fwder}
  {
    SplitFwders(targets, i);
    PopFwders(targets[i..]);
    assert targets[i..][1..] == targets[i + 1..];
    FwdersAppend(targets[..i], targets[i + 1..]);
  }

  lemma PopFwders(targets: seq<Target>)
    requires targets != []
    ensures Fwders(targets) == multiset{targets[0].fwder} + Fwders(targets[1..])
  {
    SplitFwders(targets, 1);
    FwdersOne(targets[0]);
    assert targets[..1] == [targets[0]];
  }

  lemma AddConserves(s: State, f: Fwder, request: Request)
    requires Conserved(s) && f !in s.tracked
    ensures Conserved(Step(s, AddProbe(f, request)))
  {
    PushFwders(s.queue, Target(f, request));
    OneMore(Fwders(s.queue), Fwders(s.batch), Fwders(s.inFlight), f, s.tracked);
  }

  lemma OneMore(a: multiset<Fwder>, b: multiset<Fwder>, c: multiset<Fwder>, f: Fwder, tracked: set<Fwder>)
    requires a + b + c == multiset(tracked) && f !in tracked
    ensures (a + multiset{f}) + b + c == multiset(tracked + {f})
  {
    assert (a + multiset{f}) + b + c == (a + b + c) + multiset{f};
    assert multiset(tracked + {f}) == multiset(tracked) + multiset{f};
  }

  lemma TickConserves(s: State)
    requires s.batch == []
    ensures Places(Step(s, Tick)) == Places(s)
  {
    SplitFwders(s.queue, Taken(s.queue));
  }

  /** A target that moves between two places leaves the places as they were. */
  lemma SentConserves(s: State)
    requires s.batch != []
    ensures Places(Step(s, Sent)) == Places(s)
  {
    PopFwders(s.batch);
    PushFwders(s.inFlight, s.batch[0]);
  }

  lemma BusyConserves(s: State)
    requires s.batch != []
    ensures Places(Step(s, Busy)) == Places(s)
  {
    PopFwders(s.batch);
    PushFwders(s.queue, s.batch[0]);
  }

  lemma FailedConserves(s: State, i: nat)
    requires i < |s.inFlight|
    ensures Places(Step(s, ProbeFailed(i))) == Places(s)
  {
    DropFwders(s.inFlight, i);
    PushFwders(s.queue, s.inFlight[i]);
  }

  lemma RestoredConserves(s: State, i: nat)
    requires Conserved(s) && i < |s.inFlight|
    ensures Conserved(Step(s, ProbeRestored(i)))
  {
    DropFwders(s.inFlight, i);
    RestoredOnce(s, i);
    var f := s.inFlight[i].fwder;
    assert Places(s) == Places(Step(s, ProbeRestored(i))) + multiset{f};
  }

  lemma StepConserves(s: State, e: Event)
    requires Conserved(s)
    ensures Conserved(Step(s, e))
  {
    match e
    case AddProbe(f, request) => if f !in s.tracked { AddConserves(s, f, request); }
    case Tick => if s.batch == [] { TickConserves(s); }
    case Sent => if s.batch != [] { SentConserves(s); }
    case Busy => if s.batch != [] { BusyConserves(s); }
    case ProbeFailed(i) => if i < |s.inFlight| { FailedConserves(s, i); }
    case ProbeRestored(i) => if i < |s.inFlight| { RestoredConserves(s, i); }
  }

  lemma RestoredOnce(s: State, i: nat)
    requires Conserved(s) && i < |s.inFlight|
    ensures s.inFlight[i].fwder in s.tracked
    ensures multiset(s.tracked - {s.inFlight[i].fwder}) == multiset(s.tracked) - multiset{s.inFlight[i].fwder}
  {
    DropFwders(s.inFlight, i);
    assert s.inFlight[i].fwder in Places(s);
  }

  /** Main result: in every interleaving of new probes, ticks, busy requeues, failed and
      restored probes, each tracked forwarder is in exactly one place, once, and nothing
      else is queued, taken or in flight. */
  lemma ProbesConserved(events: seq<Event>, f: Fwder)
    ensures var s := Run(Step, Idle, events);
            Places(s)[f] == if f in s.tracked then 1 else 0
  {
    forall s, e | Conserved(s) ensures Conserved(Step(s, e)) {
      StepConserves(s, e);
    }
    RunKeeps(Step, s => Conserved(s), Idle, events);
  }

  /** The target at that place is one for `f`. */
  predicate Stands(targets: seq<Target>, i: nat, f: Fwder) {
    i < |targets| && targets[i].fwder == f
  }

  lemma TrackingMoves(s: State, e: Event, f: Fwder)
    ensures var after := Step(s, e);
            && (f !in s.tracked ==> (f in after.tracked <==> e.AddProbe? && e.fwder == f))
            && (f in s.tracked ==> (f !in after.tracked <==> e.ProbeRestored? && Stands(s.inFlight, e.index, f)))
  {
  }

  /** The events that queue a forwarder. */
  predicate Queues(s: State, e: Event, f: Fwder) {
    match e
    case AddProbe(g, _) => f == g && f !in s.tracked
    case Busy => Stands(s.batch, 0, f)
    case ProbeFailed(i) => Stands(s.inFlight, i, f)
    case _ => false
  }

  lemma QueueGains(s: State, e: Event, f: Fwder)
    requires Queues(s, e, f)
    ensures f in Fwders(Step(s, e).queue)
  {
    PushFwders(s.queue, if e.AddProbe? then Target(f, e.request) else if e.Busy? then s.batch[0] else s.inFlight[e.index]);
  }

  /** Main result: where a step of any interleaving puts a forwarder.  It becomes tracked,
      and queued, by being added and by nothing else; it stays tracked until its own probe
      succeeds, and is then nowhere; a failed probe or a busy pool puts it back in the
      queue and only there. */
  lemma ProbeMoves(events: seq<Event>, e: Event, f: Fwder)
    ensures var (s, after) := (Run(Step, Idle, events), Step(Run(Step, Idle, events), e));
            && (f !in s.tracked ==> (f in after.tracked <==> e.AddProbe? && e.fwder == f))
            && (f in s.tracked ==> (f !in after.tracked <==> e.ProbeRestored? && Stands(s.inFlight, e.index, f)))
            && (f !in after.tracked ==> Places(after)[f] == 0)
            && (Queues(s, e, f) ==> Places(after)[f] == 1 == Fwders(after.queue)[f])
            && (e.Sent? && Stands(s.batch, 0, f) ==> Places(after)[f] == 1 == Fwders(after.inFlight)[f])
  {
    var s := Run(Step, Idle, events);
    TrackingMoves(s, e, f);
    assert (events + [e])[..|events|] == events;
    ProbesConserved(events + [e], f);
    if e.Sent? && Stands(s.batch, 0, f) {
      PushFwders(s.inFlight, s.batch[0]);
    } else if Queues(s, e, f) {
      QueueGains(s, e, f);
    }
  }

  // ----- waiting in the queue

  /** How many ticks took a batch. */
  function Rounds(s: State, events: seq<Event>): nat {
    if events == [] then 0
    else
      var before := events[..|events| - 1];
      Rounds(s, before) + if events[|events| - 1].Tick? && Run(Step, s, before).batch == [] then 1 else 0
  }

  /** A batch moves everyone behind it up by its size; nothing else moves anyone. */
  lemma QueueKeeps(s: State, e: Event, q: nat)
    requires q < |s.queue|
    requires e.Tick? && s.batch == [] ==> q >= PROBE_ROUTINE_COUNT
    ensures var ahead := if e.Tick? && s.batch == [] then PROBE_ROUTINE_COUNT else 0;
            q - ahead < |Step(s, e).queue| && Step(s, e).queue[q - ahead] == s.queue[q]
  {
  }

  lemma {:induction false} QueueMovesUp(s: State, events: seq<Event>, p: nat)
    requires p < |s.queue| && PROBE_ROUTINE_COUNT * Rounds(s, events) <= p
    ensures var after := Run(Step, s, events);
            var q := p - PROBE_ROUTINE_COUNT * Rounds(s, events);
            q < |after.queue| && after.queue[q] == s.queue[p]
  {
    if events != [] {
      var before := events[..|events| - 1];
      QueueMovesUp(s, before, p);
      QueueKeeps(Run(Step, s, before), events[|events| - 1], p - PROBE_ROUTINE_COUNT * Rounds(s, before));
    }
  }

  /** Main result: whatever happens meanwhile, a queued target waits for the batches before
      its own and for no others: the one behind `p` targets goes into batch number p / 10. */
  lemma TakenInTurn(s: State, events: seq<Event>, p: nat)
    requires p < |s.queue| && Rounds(s, events) == p / PROBE_ROUTINE_COUNT
    requires Run(Step, s, events).batch == []
    ensures var batch := Run(Step, s, events + [Tick]).batch;
            p % PROBE_ROUTINE_COUNT < |batch| <= PROBE_ROUTINE_COUNT &&
            batch[p % PROBE_ROUTINE_COUNT] == s.queue[p]
  {
    QueueMovesUp(s, events, p);
    assert (events + [Tick])[..|events|] == events;
  }

  // ----- the steps as they run, each under the lock

  class Prober {
    var targets: seq<Target>
    var targetFwders: set<Fwder>
    /** `probeTargets` of the tick loop. */
    var probeTargets: seq<Target>
    /** The pool's tasks. */
    var tasks: seq<Target>

    function Snapshot(): State
      reads this
    {
      State(targetFwders, targets, probeTargets, tasks)
    }

    constructor ()
      ensures Snapshot() == Idle
    {
      targets, targetFwders, probeTargets, tasks := [], {}, [], [];
    }

    /** `AddProbe`. */
    method Add(f: Fwder, request: Request)
      modifies this
      ensures Snapshot() == Step(old(Snapshot()), AddProbe(f, request))
    {
      if f !in targetFwders {
        targets := targets + [Target(f, request)];
        targetFwders := targetFwders + {f};
      }
    }

    /** The loop of a tick that takes targets off the queue. */
    method TakeBatch()
      requires probeTargets == []
      modifies this
      ensures Snapshot() == Step(old(Snapshot()), Tick)
    {
      var i := 0;
      while i < PROBE_ROUTINE_COUNT && |targets| > 0
        invariant 0 <= i <= Taken(old(targets))
        invariant targets == old(targets)[i..] && probeTargets == old(targets)[..i]
        invariant targetFwders == old(targetFwders) && tasks == old(tasks)
      {
        var target := targets[0];
        targets := targets[1..];
        probeTargets := probeTargets + [target];
        i := i + 1;
      }
    }

    /** One turn of the loop that hands targets to the pool; a busy pool requeues. */
    method SendNext(busy: bool)
      requires probeTargets != []
      modifies this
      ensures Snapshot() == Step(old(Snapshot()), if busy then Busy else Sent)
    {
      var target := probeTargets[0];
      probeTargets := probeTargets[1..];
      if busy {
        targets := targets + [target];
      } else {
        tasks := tasks + [target];
      }
    }

    /** The end of a probe in a worker. */
    method ProbeDone(i: nat, failed: bool)
      requires i < |tasks|
      modifies this
      ensures Snapshot() == Step(old(Snapshot()), if failed then ProbeFailed(i) else ProbeRestored(i))
    {
      var target := tasks[i];
      tasks := Dropped(tasks, i);
      if failed {
        targets := targets + [target];
      } else {
        targetFwders := targetFwders - {target.fwder};
      }
    }
  }
}
