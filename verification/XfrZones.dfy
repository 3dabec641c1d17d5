/** A transfer against its zone: the serial the machine keeps and the serial of the open
    transaction move in step, and what a finished transfer leaves live. */
module XfrZones {
  import opened Dns
  import opened Runs
  import opened Ixfr
  import opened ZoneModel
  import opened ZoneInvariants
  import opened ZoneTransactions
  import opened ZoneUpdates

  /** The zone operation an updator call performs; tree is what the domain tree chooses. */
  function CallOp(call: Call, tree: set<Name>): Op {
    match call
    case CallDelete(rr) => Op.DeleteRRset(rr, tree)
    case CallIncrease => IncreaseSerial
    case CallAdd(rr) => Op.Add(rr, tree)
  }

  /** The operations of a call trace; tree(i) is what the domain tree chooses in call i. */
  function CallOps(calls: seq<Call>, tree: nat -> set<Name>): (ops: seq<Op>)
    ensures |ops| == |calls|
  {
    seq(|calls|, i requires 0 <= i < |calls| => CallOp(calls[i], tree(i)))
  }

  function OpenOn(live: Zone): OpenTx {
    OpenTx(live, BeginTx(live).tx.value, 0)
  }

  // ----- the machine's serial

  /** How many delete sections the events complete before one is refused. */
  function SectionsDone(m: Machine, events: seq<Ixfr.Event>): nat
    decreases |events|
  {
    if events == [] then 0
    else
      var (m', err) := Fire(m, events[0]);
      (if m.state == DeleteSection && m'.state == AddSection then 1 else 0) +
      if Refuses(events[0], err) then 0 else SectionsDone(m', events[1..])
  }

  predicate IsIncrease(call: Call) {
    call.CallIncrease?
  }

  predicate IsBump(op: Op) {
    op.IncreaseSerial?
  }

  function Increases(calls: seq<Call>): nat {
    Count(IsIncrease, calls)
  }

  /** SOA RRsets raise SOA events only. */
  ghost predicate DataEvents(events: seq<Ixfr.Event>) {
    forall e | e in events && e.NoneSOA? :: e.rr.typ != SOA
  }

  ghost predicate DataCalls(calls: seq<Call>) {
    forall c | c in calls && !c.CallIncrease? :: c.rr.typ != SOA
  }

  lemma FireSerial(m: Machine, e: Ixfr.Event)
    requires DataCalls(m.calls) && (e.NoneSOA? ==> e.rr.typ != SOA)
    ensures var m' := Fire(m, e).0;
            var done := if m.state == DeleteSection && m'.state == AddSection then 1 else 0;
            && DataCalls(m'.calls)
            && m'.current == Add32(m.current, done)
            && Increases(m'.calls) == Increases(m.calls) + done
  {
    var m' := Fire(m, e).0;
    assert Add32(m.current, 1) == Inc32(Add32(m.current, 0));
    if |m'.calls| > |m.calls| {
      assert m'.calls[..|m'.calls| - 1] == m.calls;
    }
  }

  lemma {:induction false} RunSerial(m: Machine, events: seq<Ixfr.Event>)
    requires DataCalls(m.calls) && DataEvents(events)
    ensures var m' := RunEvents(m, events).0;
            && DataCalls(m'.calls)
            && m'.current == Add32(m.current, SectionsDone(m, events))
            && Increases(m'.calls) == Increases(m.calls) + SectionsDone(m, events)
    decreases |events|
  {
    if events != [] {
      var (m', err) := Fire(m, events[0]);
      assert events[0] in events && forall e | e in events[1..] :: e in events;
      FireSerial(m, events[0]);
      if !Refuses(events[0], err) {
        RunSerial(m', events[1..]);
        Add32Sum(m.current, m', SectionsDone(m', events[1..]));
      }
    }
  }

  lemma Add32Sum(from: uint32, m: Machine, k: nat)
    ensures m.current == Add32(from, 0) ==> Add32(m.current, k) == Add32(from, k)
    ensures m.current == Add32(from, 1) ==> Add32(m.current, k) == Add32(from, 1 + k)
  {
    Add32Step(from, k);
    assert Add32(from, 1) == Inc32(Add32(from, 0));
  }

  // ----- the transaction's serial

  /** k bumps went through: both the transaction and the live zone show them. */
  ghost predicate InStep(first: Zone, o: OpenTx, k: nat)
    requires Serial(first).Some?
  {
    && Isolated(first, o)
    && o.bumps == k
    && o.tx.shared
    && Serial(o.tx.tmp) == Serial(o.live) == Some(Add32(Serial(first).value, k))
  }

  lemma SharedSerial(first: Zone, o: OpenTx)
    requires Serial(first).Some? && Isolated(first, o) && o.tx.shared
    ensures InStep(first, o, o.bumps)
  {
    WithSerialLaws(first, Add32(Serial(first).value, o.bumps), 0);
  }

  predicate SparesSOA(op: Op) {
    op.IncreaseSerial? || (op.Add? && op.rr.typ != SOA) || op.DeleteRRset?
  }

  lemma OpInStep(first: Zone, o: OpenTx, k: nat, op: Op)
    requires Serial(first).Some? && InStep(first, o, k) && SparesSOA(op)
    ensures InStep(first, OpenStep(o, op), k + if IsBump(op) then 1 else 0)
  {
    OpenStepKeeps(first, o, op);
    if !op.IncreaseSerial? {
      ApexSOAAfter(o.tx.tmp, op);
    }
    SharedSerial(first, OpenStep(o, op));
  }

  lemma OpsInStep(live: Zone, ops: seq<Op>)
    requires LiveInv(live) && Serial(live).Some? && forall op | op in ops :: SparesSOA(op)
    ensures InStep(live, Run(OpenStep, OpenOn(live), ops), Count(IsBump, ops))
  {
    MovedStep(live, 0);
    SharedSerial(live, OpenOn(live));
    forall o, k: nat, op | InStep(live, o, k) && op in ops
      ensures InStep(live, OpenStep(o, op), k + if IsBump(op) then 1 else 0)
    {
      OpInStep(live, o, k, op);
    }
    RunCounts(OpenStep, (o, k: nat) => InStep(live, o, k), IsBump, OpenOn(live), 0, ops);
  }

  lemma {:induction false} OpsOfCalls(calls: seq<Call>, tree: nat -> set<Name>)
    requires DataCalls(calls)
    ensures forall op | op in CallOps(calls, tree) :: SparesSOA(op)
    ensures Count(IsBump, CallOps(calls, tree)) == Increases(calls)
    decreases |calls|
  {
    if calls != [] {
      var n := |calls| - 1;
      var ops := CallOps(calls, tree);
      PrefixOps(calls, tree, n);
      OpsOfCalls(calls[..n], tree);
      assert ops[n] == CallOp(calls[n], tree(n)) && calls[n] in calls;
      assert ops == ops[..n] + [ops[n]];
    }
  }

  lemma PrefixOps(calls: seq<Call>, tree: nat -> set<Name>, k: nat)
    requires k <= |calls|
    ensures CallOps(calls, tree)[..k] == CallOps(calls[..k], tree)
  {
  }

  // ----- performing the calls, up to a panic

  /** How far a sequence of operations got in an open transaction. */
  type Attempt = Progress<OpenTx>

  predicate OpPanics(o: OpenTx, op: Op) {
    Apply(o.tx.tmp, op).1 == Panicked
  }

  /** The callbacks ignore errors, but a panic ends the process: nothing after it happens. */
  function Perform(o: OpenTx, ops: seq<Op>): (a: Attempt)
    ensures a.done <= |ops| && (a.stopped <==> a.done < |ops|)
  {
    RunUntil(OpenStep, OpPanics, o, ops)
  }

  // ----- the apex NS entry, which alone decides about a panic

  datatype ApexNS = NoEntry | NilEntry | Records(rdatas: seq<Rdata>)

  function NsOf(z: Zone): ApexNS {
    if !Holds(z, z.origin, NS) then NoEntry
    else
      match RRsetAt(z, z.origin, NS)
      case None => NilEntry
      case Some(rr) => Records(rr.rdatas)
  }

  predicate TouchesApexNS(origin: Name, rr: RRset) {
    rr.typ == NS && rr.name == origin
  }

  /** The apex NS entry after a call, from the call alone; None is a panic: deleting the
      NS set when there is none to compare with, or adding to a nil one. */
  function NsStep(origin: Name, ns: ApexNS, call: Call): Option<ApexNS> {
    match call
    case CallIncrease => Some(ns)
    case CallDelete(rr) =>
      if !TouchesApexNS(origin, rr) then Some(ns)
      else if !ns.Records? then None
      else if RdatasDiff(ns.rdatas, rr.rdatas) == [] then Some(ns)
      else Some(NoEntry)
    case CallAdd(rr) =>
      if !TouchesApexNS(origin, rr) || IsWildCard(origin) then Some(ns)
      else
        match ns
        case NoEntry => Some(Records(rr.rdatas))
        case NilEntry => None
        case Records(was) => Some(Records(MergeRdatas(was, rr.rdatas)))
  }

  function NsRun(origin: Name, ns: ApexNS, calls: seq<Call>): Option<ApexNS>
    decreases |calls|
  {
    if calls == [] then Some(ns)
    else
      match NsRun(origin, ns, calls[..|calls| - 1])
      case None => None
      case Some(before) => NsStep(origin, before, calls[|calls| - 1])
  }

  lemma AddNsAt(z: Zone, rr: RRset, tree: set<Name>)
    requires ZoneInv(z) && ApexSOA(z).Some? && rr.typ != SOA
    ensures var (z', o) := AddRRset(z, rr, tree);
            var next := NsStep(z.origin, NsOf(z), CallAdd(rr));
            && (o == Panicked <==> next.None?)
            && (o != Panicked ==> Some(NsOf(z')) == next)
  {
    AddPanics(z, rr, tree);
    if TouchesApexNS(z.origin, rr) && !IsWildCard(z.origin) {
      AddApexNS(z, rr, tree);
    } else {
      AddOtherNS(z, rr, tree);
    }
  }

  lemma AddPanics(z: Zone, rr: RRset, tree: set<Name>)
    requires ZoneInv(z) && rr.typ != SOA
    ensures AddRRset(z, rr, tree).1 == Panicked <==>
            TouchesApexNS(z.origin, rr) && !IsWildCard(z.origin) && NsOf(z) == NilEntry
  {
    if Holds(z, rr.name, rr.typ) {
      assert NodeInv(z.origin, rr.name, z.nodes[rr.name]);
      assert EntryInv(z.origin, rr.name, rr.typ, z.nodes[rr.name].data.value[rr.typ]);
    }
  }

  lemma AddOtherNS(z: Zone, rr: RRset, tree: set<Name>)
    requires z.origin in z.nodes && (!TouchesApexNS(z.origin, rr) || IsWildCard(z.origin))
    ensures NsOf(AddRRset(z, rr, tree).0) == NsOf(z)
  {
  }

  lemma AddApexNS(z: Zone, rr: RRset, tree: set<Name>)
    requires ZoneInv(z) && ApexSOA(z).Some? && TouchesApexNS(z.origin, rr) && !IsWildCard(z.origin)
    ensures NsOf(z) != NilEntry ==>
              Some(NsOf(AddRRset(z, rr, tree).0)) == NsStep(z.origin, NsOf(z), CallAdd(rr))
  {
    assert NodeInv(z.origin, z.origin, z.nodes[z.origin]);
    if NsOf(z).Records? {
      var was := NsOf(z).rdatas;
      var merged := MergeRdatas(was, rr.rdatas);
      MergeRdatasMember(was, rr.rdatas, OpaqueData(""));
      assert merged[..|was|] == was;
      assert |merged| == |was| ==> merged == was;
    }
  }

  lemma DeleteNsAt(z: Zone, rr: RRset, tree: set<Name>)
    requires ZoneInv(z)
    ensures var (z', o) := EraseRRset(z, rr, tree);
            var next := NsStep(z.origin, NsOf(z), CallDelete(rr));
            && (o == Panicked <==> next.None?)
            && (o != Panicked ==> Some(NsOf(z')) == next)
  {
    if Holds(z, rr.name, rr.typ) {
      EraseTypeApex(z, rr.name, rr.typ, tree, NS);
    }
  }

  /** Exactly when a call that brings no SOA panics: it raises a serial that is not that of
      a single SOA record, deletes the apex NS set while there is none, or adds to a nil one. */
  lemma CallPanicsExactly(z: Zone, call: Call, tree: set<Name>)
    requires ZoneInv(z) && ApexSOA(z).Some? && (call.CallIncrease? || call.rr.typ != SOA)
    ensures var (z', o) := Apply(z, CallOp(call, tree));
            var next := NsStep(z.origin, NsOf(z), call);
            && (o == Panicked <==> next.None? || (call.CallIncrease? && Serial(z).None?))
            && (o != Panicked ==> Some(NsOf(z')) == next)
  {
    match call
    case CallIncrease => if Serial(z).Some? { BumpedKeys(z); }
    case CallAdd(rr) => AddNsAt(z, rr, tree);
    case CallDelete(rr) => DeleteNsAt(z, rr, tree);
  }

  /** What data calls leave alone: the apex SOA, but for the serial of a single record. */
  ghost predicate Trackable(live: Zone, z: Zone) {
    ZoneInv(z) && z.origin == live.origin && ApexSOA(z).Some? && (Serial(z).Some? <==> Serial(live).Some?)
  }

  lemma OpTrackable(live: Zone, z: Zone, op: Op)
    requires Trackable(live, z) && SparesSOA(op)
    ensures Trackable(live, ApplyStep(z, op))
  {
    ApplyKeeps(z, op);
    if !op.IncreaseSerial? {
      ApexSOAAfter(z, op);
    } else if Serial(z).Some? {
      BumpKeeps(z);
      BumpedSOA(z);
    }
  }

  lemma PerformTrackable(live: Zone, ops: seq<Op>)
    requires ZoneInv(live) && ApexSOA(live).Some? && forall op | op in ops :: SparesSOA(op)
    ensures Trackable(live, Perform(OpenOn(live), ops).state.tx.tmp)
  {
    var done := ops[..Perform(OpenOn(live), ops).done];
    RunUntilIsRun(OpenStep, OpPanics, OpenOn(live), ops);
    TmpFollows(OpenOn(live), done);
    forall z, op | Trackable(live, z) && op in done ensures Trackable(live, ApplyStep(z, op)) {
      OpTrackable(live, z, op);
    }
    RunKeeps(ApplyStep, z => Trackable(live, z), live, done);
  }

  lemma PerformInStep(live: Zone, ops: seq<Op>)
    requires LiveInv(live) && Serial(live).Some? && forall op | op in ops :: SparesSOA(op)
    ensures var a := Perform(OpenOn(live), ops);
            InStep(live, a.state, Count(IsBump, ops[..a.done]))
  {
    var a := Perform(OpenOn(live), ops);
    RunUntilIsRun(OpenStep, OpPanics, OpenOn(live), ops);
    OpsInStep(live, ops[..a.done]);
  }

  /** Whether the calls of a transfer crash it is decided by its apex NS records, and by
      whether the live zone has a single SOA record to raise. */
  lemma {:induction false} CrashesExactly(live: Zone, calls: seq<Call>, tree: nat -> set<Name>)
    requires ZoneInv(live) && ApexSOA(live).Some? && DataCalls(calls)
    ensures var a := Perform(OpenOn(live), CallOps(calls, tree));
            var ns := NsRun(live.origin, NsOf(live), calls);
            && (a.stopped <==> ns.None? || (Serial(live).None? && Increases(calls) > 0))
            && (!a.stopped ==> Some(NsOf(a.state.tx.tmp)) == ns)
    decreases |calls|
  {
    if calls != [] {
      var n := |calls| - 1;
      PrefixOps(calls, tree, n);
      CrashesExactly(live, calls[..n], tree);
      OpsOfCalls(calls[..n], tree);
      PerformTrackable(live, CallOps(calls[..n], tree));
      CallPanicsExactly(Perform(OpenOn(live), CallOps(calls[..n], tree)).state.tx.tmp, calls[n], tree(n));
    }
  }

  /** Without a serial to raise, no call moves the live zone. */
  lemma UnmovedWithoutSerial(live: Zone, ops: seq<Op>)
    requires ZoneInv(live) && ApexSOA(live).Some? && Serial(live).None? && forall op | op in ops :: SparesSOA(op)
    ensures Perform(OpenOn(live), ops).state.live == live
  {
    var done := ops[..Perform(OpenOn(live), ops).done];
    RunUntilIsRun(OpenStep, OpPanics, OpenOn(live), ops);
    var inv := (o: OpenTx) => Trackable(live, o.tx.tmp) && o.live == live;
    forall o, op | inv(o) && op in done ensures inv(OpenStep(o, op)) {
      OpTrackable(live, o.tx.tmp, op);
      OneTmp(o, op);
      UnmovedStep(o, op);
    }
    RunKeeps(OpenStep, inv, OpenOn(live), done);
  }

  lemma UnmovedStep(o: OpenTx, op: Op)
    requires Serial(o.tx.tmp).None?
    ensures OpenStep(o, op).live == o.live
  {
  }

  // ----- the serial of a transfer

  /** Transaction and live zone both show the serial, and nothing else in the live zone
      has changed since the transaction began. */
  ghost predicate AtSerial(live: Zone, o: OpenTx, serial: uint32)
    requires Serial(live).Some?
  {
    && Serial(o.tx.tmp) == Serial(o.live) == Some(serial)
    && o.live == WithSerial(live, serial)
    && (o.live == live <==> serial == Serial(live).value)
  }

  /** Main result: a machine started with the zone's own serial stays in step with the
      transaction it drives.  After any events, accepted or refused, its current serial,
      the transaction's and the live zone's are all the start plus the completed delete
      sections, wrapping at 2^32; if a call panicked on the way, both zones stand at the
      increases made before it. */
  lemma SerialLockstep(live: Zone, machine: Machine, events: seq<Ixfr.Event>, tree: nat -> set<Name>)
    requires LiveInv(live) && Serial(live) == Some(machine.current) && machine.calls == [] && DataEvents(events)
    ensures var m := RunEvents(machine, events).0;
            var a := Perform(OpenOn(live), CallOps(m.calls, tree));
            m.current == Add32(machine.current, SectionsDone(machine, events)) && InLockstep(live, m, a)
  {
    RunSerial(machine, events);
    CallsMove(live, RunEvents(machine, events).0, tree);
  }

  /** Both zones stand at the increases performed, which are the machine's own unless a
      call panicked. */
  ghost predicate InLockstep(live: Zone, m: Machine, a: Attempt)
    requires Serial(live).Some? && a.done <= |m.calls|
  {
    && AtSerial(live, a.state, Add32(Serial(live).value, Increases(m.calls[..a.done])))
    && (!a.stopped ==> AtSerial(live, a.state, m.current))
  }

  /** The live serial moves before any Commit: a transfer that is rolled back leaves the
      live zone as it was if and only if it completed a multiple of 2^32 delete sections,
      none in practice. */
  lemma RollBackInvisible(live: Zone, machine: Machine, events: seq<Ixfr.Event>, tree: nat -> set<Name>)
    requires LiveInv(live) && Serial(live) == Some(machine.current) && machine.calls == [] && DataEvents(events)
    ensures var a := Perform(OpenOn(live), CallOps(RunEvents(machine, events).0.calls, tree));
            !a.stopped ==> (a.state.live == live <==> SectionsDone(machine, events) % UINT32_SIZE == 0)
  {
    SerialLockstep(live, machine, events, tree);
    Add32Back(machine.current, SectionsDone(machine, events));
  }

  /** The zone side: every serial increase performed moves transaction and live zone. */
  lemma CallsMove(live: Zone, m: Machine, tree: nat -> set<Name>)
    requires LiveInv(live) && Serial(live).Some? && DataCalls(m.calls)
    requires m.current == Add32(Serial(live).value, Increases(m.calls))
    ensures InLockstep(live, m, Perform(OpenOn(live), CallOps(m.calls, tree)))
  {
    OpsOfCalls(m.calls, tree);
    var a := Perform(OpenOn(live), CallOps(m.calls, tree));
    PerformInStep(live, CallOps(m.calls, tree));
    PrefixOps(m.calls, tree, a.done);
    OpsOfCalls(m.calls[..a.done], tree);
    InStepSerial(live, a.state, Increases(m.calls[..a.done]));
    if !a.stopped {
      assert m.calls[..a.done] == m.calls;
    }
  }

  lemma InStepSerial(live: Zone, o: OpenTx, k: nat)
    requires Serial(live).Some? && InStep(live, o, k)
    ensures AtSerial(live, o, Add32(Serial(live).value, k))
  {
    WithSerialLaws(live, Add32(Serial(live).value, k), 0);
  }

  // ----- an accepted IXFR

  lemma TmpFollows(o: OpenTx, ops: seq<Op>)
    ensures Run(OpenStep, o, ops).tx.tmp == ApplyAll(o.tx.tmp, ops)
  {
    var tmp := (o: OpenTx) => o.tx.tmp;
    forall o, op ensures tmp(OpenStep(o, op)) == ApplyStep(tmp(o), op) {
      OneTmp(o, op);
    }
    RunProjects(OpenStep, tmp, ApplyStep, o, ops);
  }

  lemma OneTmp(o: OpenTx, op: Op)
    ensures OpenStep(o, op).tx.tmp == ApplyStep(o.tx.tmp, op)
  {
  }

  ghost predicate DataDeltas(deltas: seq<Delta>) {
    forall d | d in deltas :: forall rr | rr in d.deletes || rr in d.adds :: rr.typ != SOA
  }

  lemma {:induction false} RowCalls(rrs: seq<RRset>)
    ensures forall c | c in Deletes(rrs) :: c.CallDelete? && c.rr in rrs
    ensures forall c | c in Adds(rrs) :: c.CallAdd? && c.rr in rrs
  {
    if rrs != [] {
      RowCalls(rrs[1..]);
    }
  }

  lemma OneIncrease(d: Delta)
    ensures Increases(DeltaCalls(d)) == 1
    ensures forall c | c in DeltaCalls(d) :: c.CallIncrease? || c.rr in d.deletes || c.rr in d.adds
  {
    RowCalls(d.deletes);
    RowCalls(d.adds);
    CountNone(IsIncrease, Deletes(d.deletes));
    CountNone(IsIncrease, Adds(d.adds));
    assert (Deletes(d.deletes) + [CallIncrease])[..|Deletes(d.deletes)|] == Deletes(d.deletes);
    CountAppend(IsIncrease, Deletes(d.deletes) + [CallIncrease], Adds(d.adds));
  }

  lemma {:induction false} DeltasIncrease(deltas: seq<Delta>)
    requires DataDeltas(deltas)
    ensures Increases(Calls(deltas)) == |deltas| && DataCalls(Calls(deltas))
    decreases |deltas|
  {
    if deltas != [] {
      assert deltas[0] in deltas && forall d | d in deltas[1..] :: d in deltas;
      DeltasIncrease(deltas[1..]);
      OneIncrease(deltas[0]);
      CountAppend(IsIncrease, DeltaCalls(deltas[0]), Calls(deltas[1..]));
    }
  }

  /** How a transfer ends. */
  datatype XfrEnd = Committed | CommitFailed(error: ZoneError) | RolledBack | XfrCrashed

  /** The end of a transfer whose machine gave its verdict after the attempt. */
  function Conclude(a: Attempt, ok: bool): (Zone, XfrEnd) {
    if a.stopped then (a.state.live, XfrCrashed)
    else if !ok then (a.state.live, RolledBack)
    else
      var (s, outcome) := CommitTx(a.state.live, a.state.tx);
      (s.live, if outcome.Refused? then CommitFailed(outcome.error) else Committed)
  }

  /** An IXFR from Begin to Commit, RollBack or panic, over the events of its answer. */
  function IxfrEnd(live: Zone, current: uint32, notified: uint32, events: seq<Ixfr.Event>, tree: nat -> set<Name>)
    : (Zone, XfrEnd)
  {
    var (m, ok) := RunEvents(NewMachine(current, notified), events);
    Conclude(Perform(OpenOn(live), CallOps(m.calls, tree)), ok)
  }

  /** Main result: how an accepted IXFR ends.  The encoding of deltas from the zone's
      serial is fatal if the zone has no single SOA record to raise or the apex NS records
      panic; Commit refuses it, with only the live serial moved, if they end without an
      entry; otherwise it is published, at the start serial plus the number of deltas.
      `IxfrRecords` says which records that are. */
  lemma IxfrPublishesDeltas(
      live: Zone, notified: uint32, latest: uint32, deltas: seq<Delta>, tree: nat -> set<Name>)
    requires LiveInv(live) && ApexSerial(live).Some? && deltas != [] && DataDeltas(deltas)
    ensures var start := ApexSerial(live).value;
            var target := ApplyAll(live, CallOps(Calls(deltas), tree));
            IxfrEnd(live, start, notified, FlatEvents(Encode(latest, start, deltas)), tree) ==
            if Serial(live).None? then (live, XfrCrashed)
            else
              match NsRun(live.origin, NsOf(live), Calls(deltas))
              case None => (Perform(OpenOn(live), CallOps(Calls(deltas), tree)).state.live, XfrCrashed)
              case Some(NoEntry) => (WithSerial(live, Add32(start, |deltas|)), CommitFailed(ShortOfNS))
              case Some(_) => (target, Committed)
    ensures Serial(live).Some? && NsRun(live.origin, NsOf(live), Calls(deltas)).Some? ==>
              Serial(ApplyAll(live, CallOps(Calls(deltas), tree))) == Some(Add32(Serial(live).value, |deltas|))
  {
    EncodingAccepted(ApexSerial(live).value, notified, latest, deltas);
    DeltasIncrease(deltas);
    CrashesExactly(live, Calls(deltas), tree);
    if Serial(live).None? {
      OpsOfCalls(Calls(deltas), tree);
      UnmovedWithoutSerial(live, CallOps(Calls(deltas), tree));
    } else if NsRun(live.origin, NsOf(live), Calls(deltas)).Some? {
      PerformedDeltas(live, deltas, tree);
    }
  }

  /** The end of an attempt that was not cut short. */
  ghost predicate EndsAt(live: Zone, a: Attempt, serial: uint32, target: Zone)
    requires Serial(live).Some?
  {
    && a.state.tx.tmp == target && Serial(target) == Some(serial)
    && Conclude(a, true) == if NsOf(target) == NoEntry then (WithSerial(live, serial), CommitFailed(ShortOfNS))
                            else (target, Committed)
  }

  lemma PerformedDeltas(live: Zone, deltas: seq<Delta>, tree: nat -> set<Name>)
    requires LiveInv(live) && Serial(live).Some? && DataDeltas(deltas)
    requires !Perform(OpenOn(live), CallOps(Calls(deltas), tree)).stopped
    ensures EndsAt(live, Perform(OpenOn(live), CallOps(Calls(deltas), tree)),
                   Add32(Serial(live).value, |deltas|), ApplyAll(live, CallOps(Calls(deltas), tree)))
  {
    var ops := CallOps(Calls(deltas), tree);
    var serial := Add32(Serial(live).value, |deltas|);
    DeltasIncrease(deltas);
    CallsMove(live, Machine(AddSection, serial, 0, Calls(deltas)), tree);
    PerformedAll(live, ops);
    CommittedAt(live, Perform(OpenOn(live), ops), serial, ApplyAll(live, ops));
  }

  lemma PerformedAll(live: Zone, ops: seq<Op>)
    requires !Perform(OpenOn(live), ops).stopped
    ensures Perform(OpenOn(live), ops).state.tx.tmp == ApplyAll(live, ops)
  {
    RunUntilIsRun(OpenStep, OpPanics, OpenOn(live), ops);
    assert ops[..|ops|] == ops;
    TmpFollows(OpenOn(live), ops);
  }

  lemma PrefixRun(live: Zone, ops: seq<Op>)
    requires ops != [] && !Perform(OpenOn(live), ops).stopped
    ensures var n := |ops| - 1;
            && !Perform(OpenOn(live), ops[..n]).stopped
            && Apply(ApplyAll(live, ops[..n]), ops[n]).1 != Panicked
  {
    PerformedAll(live, ops[..|ops| - 1]);
  }

  lemma CommittedAt(live: Zone, a: Attempt, serial: uint32, target: Zone)
    requires Serial(live).Some? && AtSerial(live, a.state, serial) && !a.stopped && a.state.tx.tmp == target
    ensures EndsAt(live, a, serial, target)
  {
    ValidateKeys(target);
  }

  /** A transfer the server does not survive: the apex NS set is replaced over two deltas,
      the first taking one of its records.  That delete drops the whole set, and the
      second one finds nothing to compare with. */
  lemma NSReplacementCrashes(
      live: Zone, notified: uint32, latest: uint32, first: RRset, second: RRset, third: RRset, tree: nat -> set<Name>)
    requires LiveInv(live) && Serial(live).Some? && NsOf(live).Records?
    requires forall rr | rr in {first, second, third} :: rr.typ == NS && rr.name == live.origin
    requires RdatasDiff(NsOf(live).rdatas, first.rdatas) != []
    ensures var deltas := [Delta([first], []), Delta([second], [third])];
            var events := FlatEvents(Encode(latest, Serial(live).value, deltas));
            IxfrEnd(live, Serial(live).value, notified, events, tree).1 == XfrCrashed
  {
    var deltas := [Delta([first], []), Delta([second], [third])];
    IxfrPublishesDeltas(live, notified, latest, deltas, tree);
    NSReplacementCalls(first, second, third);
    var calls := [CallDelete(first), CallIncrease, CallDelete(second), CallIncrease, CallAdd(third)];
    var ns := NsOf(live);
    assert calls[..4][..3] == calls[..3] && calls[..3][..2] == calls[..2] && calls[..2][..1] == calls[..1];
    assert calls[..1][..0] == [] && calls[..5] == calls && calls[..5][..4] == calls[..4];
    assert NsRun(live.origin, ns, calls[..1]) == Some(NoEntry);
    assert NsRun(live.origin, ns, calls[..2]) == Some(NoEntry);
    assert NsRun(live.origin, ns, calls[..3]) == None;
    assert NsRun(live.origin, ns, calls[..4]) == None;
  }

  lemma NSReplacementCalls(first: RRset, second: RRset, third: RRset)
    ensures Calls([Delta([first], []), Delta([second], [third])]) ==
            [CallDelete(first), CallIncrease, CallDelete(second), CallIncrease, CallAdd(third)]
  {
    var deltas := [Delta([first], []), Delta([second], [third])];
    assert deltas[1..] == [deltas[1]] && deltas[1..][1..] == [];
    assert [first][1..] == [] && [second][1..] == [] && [third][1..] == [];
    assert Deletes([first]) == [CallDelete(first)] && Deletes([second]) == [CallDelete(second)];
    assert Adds([third]) == [CallAdd(third)] && Adds([]) == [];
    assert DeltaCalls(deltas[0]) == [CallDelete(first), CallIncrease];
    assert DeltaCalls(deltas[1]) == [CallDelete(second), CallIncrease, CallAdd(third)];
    assert Calls([deltas[1]]) == DeltaCalls(deltas[1]) + Calls([]);
  }
}
