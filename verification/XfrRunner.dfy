/** The transfer runner: which zones are being transferred, so that no zone is
    transferred twice at once, and a transfer run on the heap zone. */
module XfrRunner {
  import opened Dns
  import opened Runs
  import opened Ixfr
  import opened ZoneModel
  import opened ZoneTransactions
  import opened ZoneUpdates
  import opened XfrMachines
  import opened XfrZones
  import opened AxfrZones
  import opened XfrDriver
  import opened MemoryZones
  import opened DynamicZones

  type View = string

  type InFlight = map<View, seq<Name>>

  function Listed(inFlight: InFlight, view: View): seq<Name> {
    if view in inFlight then inFlight[view] else []
  }

  /** The list without the first occurrence of the zone. */
  function Without(zones: seq<Name>, zone: Name): seq<Name> {
    if zones == [] then []
    else if zones[0] == zone then zones[1..]
    else [zones[0]] + Without(zones[1..], zone)
  }

  class Runner {
    var inFlightIXFR: InFlight

    constructor ()
      ensures inFlightIXFR == map[]
    {
      inFlightIXFR := map[];
    }

    /** `addZoneToTransfer`. */
    method AddZoneToTransfer(view: View, zone: Name) returns (ok: bool)
      modifies this
      ensures ok <==> zone !in Listed(old(inFlightIXFR), view)
      ensures inFlightIXFR == if ok then AfterAdd(old(inFlightIXFR), view, zone) else old(inFlightIXFR)
    {
      var zones := Listed(inFlightIXFR, view);
      for i := 0 to |zones|
        invariant zone !in zones[..i]
      {
        if zones[i] == zone {
          return false;
        }
      }
      assert zones[..|zones|] == zones;
      inFlightIXFR := inFlightIXFR[view := zones + [zone]];
      ok := true;
    }

    /** `removeZoneFromTransfer`. */
    method RemoveZoneFromTransfer(view: View, zone: Name)
      modifies this
      ensures inFlightIXFR == AfterRemove(old(inFlightIXFR), view, zone)
    {
      var zones := Listed(inFlightIXFR, view);
      var i := 0;
      while i < |zones| && zones[i] != zone
        invariant 0 <= i <= |zones|
        invariant zone !in zones[..i]
      {
        i := i + 1;
      }
      FoundAt(zones, zone, i);
      var left := if i < |zones| then zones[..i] + zones[i + 1..] else zones;
      inFlightIXFR := inFlightIXFR[view := left];
    }
  }

  lemma {:induction false} FoundAt(zones: seq<Name>, zone: Name, i: nat)
    requires i <= |zones| && zone !in zones[..i] && (i < |zones| ==> zones[i] == zone)
    ensures Without(zones, zone) == if i < |zones| then zones[..i] + zones[i + 1..] else zones
    decreases i
  {
    if i > 0 {
      assert zones[0] in zones[..i];
      assert zones[1..][..i - 1] == zones[..i][1..];
      FoundAt(zones[1..], zone, i - 1);
    }
  }

  function AfterAdd(inFlight: InFlight, view: View, zone: Name): InFlight {
    inFlight[view := Listed(inFlight, view) + [zone]]
  }

  function AfterRemove(inFlight: InFlight, view: View, zone: Name): InFlight {
    inFlight[view := Without(Listed(inFlight, view), zone)]
  }

  // ----- every interleaving

  /** The list and the transfers running: one `doXFR` goroutine per element. */
  datatype State = State(inFlight: InFlight, running: multiset<(View, Name)>)

  /** A notify of a known zone either starts a transfer or, for a master zone or an
      unknown sender, returns early without taking the zone off the list. */
  datatype Event = Notify(view: View, zone: Name, starts: bool) | Finish(view: View, zone: Name)

  function Step(s: State, e: Event): State {
    match e
    case Notify(view, zone, starts) =>
      if zone in Listed(s.inFlight, view) then s
      else State(AfterAdd(s.inFlight, view, zone), if starts then s.running + multiset{(view, zone)} else s.running)
    case Finish(view, zone) =>
      if (view, zone) !in s.running then s
      else State(AfterRemove(s.inFlight, view, zone), s.running - multiset{(view, zone)})
  }

  const Idle := State(map[], multiset{})

  /** How often the zone is listed for the view. */
  function Entries(inFlight: InFlight, view: View, zone: Name): nat {
    multiset(Listed(inFlight, view))[zone]
  }

  ghost predicate ExclusiveAt(s: State, view: View, zone: Name) {
    s.running[(view, zone)] <= Entries(s.inFlight, view, zone) <= 1
  }

  ghost predicate Exclusive(s: State) {
    forall view, zone :: ExclusiveAt(s, view, zone)
  }

  lemma {:induction false} WithoutCount(zones: seq<Name>, zone: Name)
    ensures multiset(Without(zones, zone)) == multiset(zones) - multiset{zone}
  {
    if zones != [] {
      assert zones == [zones[0]] + zones[1..];
      WithoutCount(zones[1..], zone);
    }
  }

  lemma EntriesAfter(inFlight: InFlight, at: View, which: Name, view: View, zone: Name)
    ensures Entries(AfterAdd(inFlight, at, which), view, zone) ==
            Entries(inFlight, view, zone) + if (at, which) == (view, zone) then 1 else 0
    ensures Entries(AfterRemove(inFlight, at, which), view, zone) ==
            if (at, which) == (view, zone) && Entries(inFlight, view, zone) > 0
            then Entries(inFlight, view, zone) - 1 else Entries(inFlight, view, zone)
    ensures zone in Listed(inFlight, view) <==> Entries(inFlight, view, zone) > 0
  {
    var listed := Listed(inFlight, at);
    WithoutCount(listed, which);
    AppendCount(listed, which, zone);
    assert Listed(AfterAdd(inFlight, at, which), view) == if at == view then listed + [which] else Listed(inFlight, view);
    assert Listed(AfterRemove(inFlight, at, which), view) ==
           if at == view then Without(listed, which) else Listed(inFlight, view);
  }

  lemma AppendCount(zones: seq<Name>, which: Name, zone: Name)
    ensures multiset(zones + [which])[zone] == multiset(zones)[zone] + if which == zone then 1 else 0
  {
  }

  lemma StepExclusiveAt(s: State, e: Event, view: View, zone: Name)
    requires ExclusiveAt(s, view, zone)
    ensures ExclusiveAt(Step(s, e), view, zone)
  {
    EntriesAfter(s.inFlight, e.view, e.zone, view, zone);
  }

  lemma StepExclusive(s: State, e: Event)
    requires Exclusive(s)
    ensures Exclusive(Step(s, e))
  {
    forall view, zone ensures ExclusiveAt(Step(s, e), view, zone) {
      StepExclusiveAt(s, e, view, zone);
    }
  }

  lemma ReachableExclusive(events: seq<Event>)
    ensures Exclusive(Run(Step, Idle, events))
  {
    forall s, e | Exclusive(s) ensures Exclusive(Step(s, e)) {
      StepExclusive(s, e);
    }
    RunKeeps(Step, s => Exclusive(s), Idle, events);
  }

  /** Main result: over every interleaving of notifies and finishing transfers, at most
      one transfer runs per view and zone, and every running one is listed. */
  lemma AtMostOneTransfer(events: seq<Event>, view: View, zone: Name)
    ensures var s := Run(Step, Idle, events);
            && s.running[(view, zone)] <= 1
            && ((view, zone) in s.running ==> zone in Listed(s.inFlight, view))
  {
    ReachableExclusive(events);
    var s := Run(Step, Idle, events);
    assert ExclusiveAt(s, view, zone);
  }

  lemma NotifyStarts(s: State, view: View, zone: Name)
    requires ExclusiveAt(s, view, zone) && zone !in Listed(s.inFlight, view)
    ensures var started := Step(s, Notify(view, zone, true));
            started.running[(view, zone)] == 1 && zone in Listed(started.inFlight, view)
  {
    EntriesAfter(s.inFlight, view, zone, view, zone);
  }

  lemma FinishFrees(s: State, e: Event, view: View, zone: Name)
    requires ExclusiveAt(s, view, zone) && (view, zone) in s.running
    ensures (view, zone) !in Step(s, e).running <==> e == Finish(view, zone)
    ensures zone !in Listed(Step(s, e).inFlight, view) <==> e == Finish(view, zone)
  {
    EntriesAfter(s.inFlight, e.view, e.zone, view, zone);
    ListedCount(Step(s, e).inFlight, view, zone);
    assert s.running[(view, zone)] == 1;
  }

  lemma ListedCount(inFlight: InFlight, view: View, zone: Name)
    ensures zone in Listed(inFlight, view) <==> Entries(inFlight, view, zone) > 0
  {
  }

  /** Main result: a notify for a zone not listed starts its transfer, whatever else goes
      on; when that transfer finishes, and not by any other event, the zone can be
      transferred again. */
  lemma TransferLifeCycle(events: seq<Event>, e: Event, view: View, zone: Name)
    ensures var s := Run(Step, Idle, events);
            if zone !in Listed(s.inFlight, view) then
              Step(s, Notify(view, zone, true)).running[(view, zone)] == 1
            else (view, zone) in s.running ==>
              ((view, zone) !in Step(s, e).running <==> e == Finish(view, zone)) &&
              (zone !in Listed(Step(s, e).inFlight, view) <==> e == Finish(view, zone))
  {
    ReachableExclusive(events);
    var s := Run(Step, Idle, events);
    assert ExclusiveAt(s, view, zone);
    if zone !in Listed(s.inFlight, view) {
      NotifyStarts(s, view, zone);
    } else if (view, zone) in s.running {
      FinishFrees(s, e, view, zone);
    }
  }

  ghost predicate Blocked(s: State, view: View, zone: Name) {
    Entries(s.inFlight, view, zone) > 0 && (view, zone) !in s.running
  }

  lemma StepBlocked(s: State, e: Event, view: View, zone: Name)
    requires Blocked(s, view, zone)
    ensures Blocked(Step(s, e), view, zone)
  {
    EntriesAfter(s.inFlight, e.view, e.zone, view, zone);
  }

  /** The cost of an early return: from then on that zone is never transferred again,
      whatever happens. */
  lemma EarlyReturnBlocksForever(events: seq<Event>, view: View, zone: Name, more: seq<Event>)
    requires zone !in Listed(Run(Step, Idle, events).inFlight, view)
    ensures var s := Run(Step, Idle, events + [Notify(view, zone, false)] + more);
            (view, zone) !in s.running && zone in Listed(s.inFlight, view)
  {
    ReachableExclusive(events);
    var s := Run(Step, Idle, events);
    var leak := Notify(view, zone, false);
    assert ExclusiveAt(s, view, zone);
    EntriesAfter(s.inFlight, view, zone, view, zone);
    assert (events + [leak])[..|events|] == events;
    RunAppend(Step, Idle, events + [leak], more);
    forall s, e | Blocked(s, view, zone) ensures Blocked(Step(s, e), view, zone) {
      StepBlocked(s, e, view, zone);
    }
    RunKeeps(Step, s => Blocked(s, view, zone), Step(s, leak), more);
  }

  // ----- one transfer

  datatype XfrType = AXFR | IXFR

  /** What the tree chooses during the IXFR and during the AXFR after it. */
  datatype Trees = Trees(ixfr: nat -> set<Name>, axfr: nat -> set<Name>)

  /** One attempt of either type. */
  function AttemptEnd(
      typ: XfrType, live: Zone, current: uint32, notified: uint32, answers: seq<RRset>, trees: Trees): (Zone, XfrEnd)
    requires TypedAnswers(answers)
  {
    if typ == AXFR then AxfrEnd(live, notified, answers, trees.axfr)
    else IxfrEnd(live, current, notified, AnswerEvents(ToAnswers(answers), true), trees.ixfr)
  }

  /** What a transfer leaves live and how it ends: an IXFR that was rolled back is followed
      by one AXFR over the same answers, begun on what the IXFR left. */
  function TransferEnd(
      typ: XfrType, live: Zone, current: uint32, notified: uint32, answers: seq<RRset>, trees: Trees): (Zone, XfrEnd)
    requires TypedAnswers(answers)
  {
    var (live', end) := AttemptEnd(typ, live, current, notified, answers, trees);
    if typ == IXFR && end == RolledBack then AttemptEnd(AXFR, live', current, notified, answers, trees)
    else (live', end)
  }

  lemma XfrOpsOnly(calls: seq<Call>, rrs: seq<RRset>, tree: nat -> set<Name>)
    ensures forall op | op in CallOps(calls, tree) :: IsXfrOp(op)
    ensures forall op | op in AddOps(rrs, tree) :: IsXfrOp(op)
  {
    var (a, b) := (CallOps(calls, tree), AddOps(rrs, tree));
    forall op | op in a ensures IsXfrOp(op) {
      var i :| 0 <= i < |a| && a[i] == op;
      assert op == CallOp(calls[i], tree(i));
    }
    assert forall i | 0 <= i < |b| :: b[i] == Op.Add(rrs[i], tree(i));
  }

  /** The machine's verdict, and the operations its updator calls are. */
  method RunMachine(
      typ: XfrType, current: uint32, notified: uint32, answers: seq<RRset>, trees: Trees) returns (ops: seq<Op>, ok: bool)
    requires TypedAnswers(answers)
    ensures forall op | op in ops :: IsXfrOp(op)
    ensures typ == AXFR ==> var run := RunAxfr(notified, answers); ops == AddOps(run.0, trees.axfr) && ok == run.1
    ensures typ == IXFR ==>
              var run := RunEvents(NewMachine(current, notified), AnswerEvents(ToAnswers(answers), true));
              ops == CallOps(run.0.calls, trees.ixfr) && ok == run.1
  {
    if typ == IXFR {
      var machine := new IxfrMachine(current, notified);
      ok := machine.Run(ToAnswers(answers));
      ops := CallOps(machine.calls, trees.ixfr);
      XfrOpsOnly(machine.calls, [], trees.ixfr);
    } else {
      var machine := new AxfrMachine(notified);
      ok := machine.Run(answers);
      assert machine.added == RunAxfr(notified, answers).0;
      ops := AddOps(machine.added, trees.axfr);
      XfrOpsOnly([], machine.added, trees.axfr);
    }
  }

  /** The machine runs beside the zone, which notices nothing. */
  method RunBeside(
      ghost z: DynamicZone, typ: XfrType, current: uint32, notified: uint32, answers: seq<RRset>, trees: Trees)
      returns (ops: seq<Op>, ok: bool)
    requires TypedAnswers(answers) && z.Valid() && z.tmp == null
    ensures z.Valid() && forall op | op in ops :: IsXfrOp(op)
    ensures typ == AXFR ==> var run := RunAxfr(notified, answers); ops == AddOps(run.0, trees.axfr) && ok == run.1
    ensures typ == IXFR ==>
              var run := RunEvents(NewMachine(current, notified), AnswerEvents(ToAnswers(answers), true));
              ops == CallOps(run.0.calls, trees.ixfr) && ok == run.1
  {
    ops, ok := RunMachine(typ, current, notified, answers, trees);
    DerefUnchanged(z.live.shapes);
  }

  lemma CloseKeeps(live: Zone, tx: Tx)
    requires SysInv(Sys(live, Some(tx)))
    ensures SysInv(CommitTx(live, tx).0) && SysInv(Sys(live, None)) && CommitTx(live, tx).0.tx.None?
    ensures CommitTx(live, tx).1 != Panicked
  {
  }

  lemma BeginKeeps(live: Zone)
    requires SysInv(Sys(live, None))
    ensures SysInv(BeginTx(live)) && BeginTx(live) == SysOf(OpenOn(live))
  {
  }

  /** Commit or RollBack of an open transaction. */
  method Close(z: DynamicZone, ok: bool, ghost a: Attempt) returns (end: XfrEnd)
    requires z.Valid() && z.tmp != null && z.state == SysOf(a.state) && SysInv(z.state) && !a.stopped
    modifies z
    ensures z.Valid() && z.tmp == null && SysInv(z.state) && (z.state.live, end) == Conclude(a, ok)
    ensures end == RolledBack ==> z.live == old(z.live)
    ensures end != XfrCrashed
  {
    CloseKeeps(a.state.live, a.state.tx);
    if ok {
      var res := z.Commit();
      end := if res.Refused? then CommitFailed(res.error) else Committed;
    } else {
      z.RollBack();
      end := RolledBack;
    }
  }

  /** One Begin and the Commit or RollBack that closes it; only a panic leaves it open. */
  method Attempted(z: DynamicZone, ops: seq<Op>, ok: bool) returns (end: XfrEnd)
    requires z.Valid() && z.tmp == null && SysInv(z.state) && forall op | op in ops :: IsXfrOp(op)
    modifies z, if z.live.SoaObject() == null then {} else {z.live.SoaObject()}
    ensures (z.state.live, end) == Conclude(Perform(OpenOn(old(z.state).live), ops), ok)
    ensures end != XfrCrashed ==> z.Valid() && z.tmp == null && SysInv(z.state)
    ensures end == RolledBack ==> z.live == old(z.live)
  {
    ghost var a := Perform(OpenOn(z.state.live), ops);
    var crashed := BeginAndPerform(z, ops);
    if crashed {
      return XfrCrashed;
    }
    end := Close(z, ok, a);
  }

  method PerformFrom(z: DynamicZone, ghost tmp: MemoryZone, ghost mine: set<object>, ops: seq<Op>, ghost live: Zone)
      returns (crashed: bool)
    requires Driving(z, tmp, mine) && z.state == BeginTx(live) && SysInv(z.state) && forall op | op in ops :: IsXfrOp(op)
    modifies z`state, tmp, mine
    ensures var a := Perform(OpenOn(live), ops);
            crashed == a.stopped && if crashed then z.state.live == a.state.live else z.state == SysOf(a.state)
    ensures z.live == old(z.live) && (!crashed ==> z.Valid() && z.tmp == tmp && SysInv(z.state))
  {
    crashed := PerformOps(z, tmp, mine, ops, OpenOn(live));
  }

  ghost function OwnedBy(tmp: MemoryZone): set<object>
    reads tmp
  {
    tmp.objs + if tmp.SoaObject() == null then {} else {tmp.SoaObject()}
  }

  lemma OwnedApart(z: DynamicZone, tmp: MemoryZone)
    ensures z !in OwnedBy(tmp) && Owns(tmp, OwnedBy(tmp))
  {
  }

  method BeginAndPerform(z: DynamicZone, ops: seq<Op>) returns (crashed: bool)
    requires z.Valid() && z.tmp == null && SysInv(z.state) && forall op | op in ops :: IsXfrOp(op)
    modifies z, if z.live.SoaObject() == null then {} else {z.live.SoaObject()}
    ensures var a := Perform(OpenOn(old(z.state).live), ops);
            crashed == a.stopped && if crashed then z.state.live == a.state.live else z.state == SysOf(a.state)
    ensures !crashed ==> z.Valid() && z.tmp != null && SysInv(z.state) && z.live == old(z.live)
  {
    ghost var live := z.state.live;
    z.Begin();
    BeginKeeps(live);
    ghost var mine: set<object> := OwnedBy(z.tmp);
    OwnedApart(z, z.tmp);
    crashed := PerformFrom(z, z.tmp, mine, ops, live);
  }

  /** One attempt on the heap zone. */
  method AttemptOnce(
      typ: XfrType, z: DynamicZone, current: uint32, notified: uint32, answers: seq<RRset>, trees: Trees)
      returns (end: XfrEnd)
    requires z.Valid() && z.tmp == null && SysInv(z.state) && TypedAnswers(answers)
    modifies z, if z.live.SoaObject() == null then {} else {z.live.SoaObject()}
    ensures (z.state.live, end) == AttemptEnd(typ, old(z.state).live, current, notified, answers, trees)
    ensures end != XfrCrashed ==> z.Valid() && z.tmp == null && SysInv(z.state)
    ensures end == RolledBack ==> z.live == old(z.live)
  {
    var ops, ok := RunBeside(z, typ, current, notified, answers, trees);
    end := Attempted(z, ops, ok);
  }

  /** `updateZoneUseXFR` on the heap zone: the live zone and the end are exactly those of
      the transfer, and unless the process panicked no transaction is left open. */
  method UpdateZoneUseXFR(
      typ: XfrType, z: DynamicZone, current: uint32, notified: uint32, answers: seq<RRset>, trees: Trees)
      returns (end: XfrEnd)
    requires z.Valid() && z.tmp == null && SysInv(z.state) && TypedAnswers(answers)
    modifies z, if z.live.SoaObject() == null then {} else {z.live.SoaObject()}
    ensures (z.state.live, end) == TransferEnd(typ, old(z.state).live, current, notified, answers, trees)
    ensures end != XfrCrashed ==> z.Valid() && z.tmp == null && SysInv(z.state)
    decreases typ == IXFR
  {
    end := AttemptOnce(typ, z, current, notified, answers, trees);
    if end == RolledBack && typ == IXFR {
      end := UpdateZoneUseXFR(AXFR, z, current, notified, answers, trees);
    }
  }

  // ----- what a transfer comes to

  /** Main result: answers that encode deltas from the zone's serial, however their SOAs
      are grouped, are settled by IXFR alone: published, refused by Commit, or fatal, as
      `IxfrPublishesDeltas` decides, but never rolled back. */
  lemma DeltasTransfer(
      live: Zone, notified: uint32, latest: uint32, deltas: seq<Delta>, answers: seq<RRset>, trees: Trees)
    requires LiveInv(live) && ApexSerial(live).Some? && deltas != [] && DataDeltas(deltas) && TypedAnswers(answers)
    requires Grouped(ToAnswers(answers))
    requires Flatten(ToAnswers(answers)) == Encode(latest, ApexSerial(live).value, deltas)
    ensures var start := ApexSerial(live).value;
            var end := IxfrEnd(live, start, notified, FlatEvents(Encode(latest, start, deltas)), trees.ixfr);
            TransferEnd(IXFR, live, start, notified, answers, trees) == end && end.1 != RolledBack
  {
    AnswersFlat(ToAnswers(answers));
    SettledByIxfr(live, notified, latest, deltas, trees.ixfr);
  }

  lemma SettledByIxfr(live: Zone, notified: uint32, latest: uint32, deltas: seq<Delta>, tree: nat -> set<Name>)
    requires LiveInv(live) && ApexSerial(live).Some? && deltas != [] && DataDeltas(deltas)
    ensures var events := FlatEvents(Encode(latest, ApexSerial(live).value, deltas));
            IxfrEnd(live, ApexSerial(live).value, notified, events, tree).1 != RolledBack
  {
    IxfrPublishesDeltas(live, notified, latest, deltas, tree);
  }

  /** Main result: an AXFR-style answer to an IXFR is settled by AXFR, begun on the live
      zone as it was: the refused IXFR has made no call. */
  lemma AxfrStyleFallsBack(
      live: Zone, current: uint32, notified: uint32, answers: seq<RRset>, trees: Trees)
    requires TypedAnswers(answers) && |answers| >= 2
    requires answers[0].typ == SOA && IsOneSOA(answers[0]) && answers[1].typ != SOA
    ensures TransferEnd(IXFR, live, current, notified, answers, trees) ==
            AxfrEnd(live, notified, answers, trees.axfr)
  {
    AxfrStyleEvents(answers);
    var events := AnswerEvents(ToAnswers(answers), true);
    var m := NewMachine(current, notified);
    var started := m.(state := Start, latest := answers[0].rdatas[0].serial);
    assert Fire(m, events[0]) == (started, None) && Fire(started, events[1..][0]).1 == Some(InvalidEvent);
    assert RunEvents(started, events[1..]) == (started, false);
    assert RunEvents(m, events) == (started, false);
    assert CallOps([], trees.ixfr) == [];
  }

  lemma AxfrStyleEvents(answers: seq<RRset>)
    requires TypedAnswers(answers) && |answers| >= 2
    requires answers[0].typ == SOA && IsOneSOA(answers[0]) && answers[1].typ != SOA
    ensures var events := AnswerEvents(ToAnswers(answers), true);
            && |events| >= 2 && events[0] == WrapperSOA(answers[0].rdatas[0].serial)
            && events[1..] != [] && events[1..][0] == NoneSOA(answers[1])
  {
    var all := ToAnswers(answers);
    var rdatas := answers[0].rdatas;
    assert rdatas[1..] == [] && Serials(rdatas) == [rdatas[0].serial];
    OneSOA(rdatas[0].serial);
    assert AnswerEvents(all, true) == [WrapperSOA(rdatas[0].serial)] + AnswerEvents(all[1..], false);
    assert all[1..][0] == DataSet(answers[1]);
    Cons(WrapperSOA(rdatas[0].serial), AnswerEvents(all[1..], false));
  }
}
