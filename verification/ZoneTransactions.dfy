/** Transactions over a live zone: `Begin` copies the tree but shares every RRset, so
    the one write that reaches the live zone before Commit is a serial bump through
    a shared SOA.  Safety of every zone that ever goes live. */
module ZoneTransactions {
  import opened Dns
  import opened Runs
  import opened ZoneModel
  import opened ZoneInvariants

  /** `shared`: the transaction's apex SOA is still the live zone's SOA object. */
  datatype Tx = Tx(tmp: Zone, shared: bool)

  datatype Sys = Sys(live: Zone, tx: Option<Tx>)

  function ApexSOA(z: Zone): Option<RRset> {
    RRsetAt(z, z.origin, SOA)
  }

  function BeginTx(live: Zone): Sys {
    Sys(live, Some(Tx(live, ApexSOA(live).Some?)))
  }

  function InTx(live: Zone, tx: Tx, op: Op): (Sys, Outcome) {
    var (tmp, outcome) := Apply(tx.tmp, op);
    if op.IncreaseSerial? then
      (Sys(if outcome == Done && tx.shared && Serial(live).Some? then BumpSOA(live) else live,
           Some(Tx(tmp, tx.shared))), outcome)
    else (Sys(live, Some(Tx(tmp, tx.shared && ApexSOA(tmp) == ApexSOA(tx.tmp)))), outcome)
  }

  function CommitTx(live: Zone, tx: Tx): (Sys, Outcome) {
    var check := Validate(tx.tmp);
    (Sys(if check == Done then tx.tmp else live, None), check)
  }

  /** `Load`: a new zone from the RRsets received until the channel is closed or the load
      aborted; ineffective ones are skipped, any other refusal abandons the load. */
  function LoadZone(z: Zone, rrs: seq<(RRset, set<Name>)>, aborted: bool): (Zone, Outcome)
    decreases |rrs|
  {
    if rrs == [] then (z, if aborted then Refused(LoadAborted) else Validate(z))
    else
      var (z', outcome) := AddRRset(z, rrs[0].0, rrs[0].1);
      if outcome == Done || outcome == Refused(NoEffectiveUpdate) then LoadZone(z', rrs[1..], aborted)
      else (z', outcome)
  }

  datatype Event =
    | LoadEvent(rrs: seq<(RRset, set<Name>)>, aborted: bool)
    | BeginEvent
    | OpEvent(op: Op)
    | CommitEvent
    | RollBackEvent

  /** The lock lets Begin and Load in only while no transaction is open. */
  function Step(s: Sys, e: Event): Sys {
    match (e, s.tx)
    case (LoadEvent(rrs, aborted), None) =>
      var (z, outcome) := LoadZone(NewZone(s.live.origin), rrs, aborted);
      if outcome == Done then Sys(z, None) else s
    case (BeginEvent, None) => BeginTx(s.live)
    case (OpEvent(op), Some(tx)) => InTx(s.live, tx, op).0
    case (CommitEvent, Some(tx)) => CommitTx(s.live, tx).0
    case (RollBackEvent, Some(tx)) => Sys(s.live, None)
    case _ => s
  }

  function NewSys(origin: Name): Sys {
    Sys(NewZone(origin), None)
  }

  // ----- invariant

  /** `isEmpty`: the apex never got data. */
  predicate IsEmptyZone(z: Zone) {
    !HasData(z.nodes, z.origin)
  }

  ghost predicate LiveInv(live: Zone) {
    ZoneInv(live) && (IsEmptyZone(live) || IsPublishable(live))
  }

  ghost predicate TxInv(live: Zone, tx: Tx) {
    && ZoneInv(tx.tmp)
    && tx.tmp.origin == live.origin
    && SharesSOA(live, tx)
  }

  predicate SharesSOA(live: Zone, tx: Tx) {
    tx.shared ==> ApexSOA(live).Some? && ApexSOA(tx.tmp) == ApexSOA(live)
  }

  ghost predicate SysInv(s: Sys) {
    LiveInv(s.live) && (s.tx.Some? ==> TxInv(s.live, s.tx.value))
  }

  lemma InTxKeeps(live: Zone, tx: Tx, op: Op)
    requires LiveInv(live) && TxInv(live, tx)
    ensures SysInv(InTx(live, tx, op).0)
  {
    ApplyKeeps(tx.tmp, op);
    if op.IncreaseSerial? && Serial(tx.tmp).Some? && tx.shared {
      BumpKeeps(live);
      BumpKeeps(tx.tmp);
      BumpedSOA(live);
      BumpedSOA(tx.tmp);
    }
    if op.IncreaseSerial? && Serial(tx.tmp).Some? && !tx.shared {
      BumpKeeps(tx.tmp);
    }
  }

  lemma BumpedSOA(z: Zone)
    requires Serial(z).Some?
    ensures ApexSOA(BumpSOA(z)) ==
            var soa := ApexSOA(z).value;
            Some(soa.(rdatas := [soa.rdatas[0].(serial := Inc32(soa.rdatas[0].serial))]))
    ensures BumpSOA(z).origin == z.origin
  {
  }

  lemma {:induction false} LoadKeeps(z: Zone, rrs: seq<(RRset, set<Name>)>, aborted: bool)
    requires ZoneInv(z)
    ensures var r := LoadZone(z, rrs, aborted);
            ZoneInv(r.0) && r.0.origin == z.origin && (r.1 == Done ==> IsPublishable(r.0))
    decreases |rrs|
  {
    if rrs != [] {
      AddKeeps(z, rrs[0].0, rrs[0].1);
      LoadKeeps(AddRRset(z, rrs[0].0, rrs[0].1).0, rrs[1..], aborted);
    }
  }

  lemma StepKeeps(s: Sys, e: Event)
    requires SysInv(s)
    ensures SysInv(Step(s, e)) && Step(s, e).live.origin == s.live.origin
    ensures IsPublishable(s.live) ==> IsPublishable(Step(s, e).live)
  {
    match (e, s.tx)
    case (LoadEvent(rrs, aborted), None) =>
      NewZoneInv(s.live.origin);
      LoadKeeps(NewZone(s.live.origin), rrs, aborted);
    case (OpEvent(op), Some(tx)) =>
      InTxKeeps(s.live, tx, op);
      if Serial(s.live).Some? {
        BumpKeeps(s.live);
      }
    case _ =>
  }

  /** Main result: over every interleaving of loads, transactions and their operations,
      committed or not, the live zone keeps the node invariants, and once it maps both
      SOA and NS at the apex it always does; before that it is empty. */
  lemma LiveZonesArePublishable(origin: Name, events: seq<Event>)
    ensures SysInv(Run(Step, NewSys(origin), events))
    ensures Run(Step, NewSys(origin), events).live.origin == origin
  {
    NewZoneInv(origin);
    var inv := (s: Sys) => SysInv(s) && s.live.origin == origin;
    forall s, e | inv(s) ensures inv(Step(s, e)) {
      StepKeeps(s, e);
    }
    RunKeeps(Step, inv, NewSys(origin), events);
  }

  lemma PublishableForever(origin: Name, events: seq<Event>, more: seq<Event>)
    requires IsPublishable(Run(Step, NewSys(origin), events).live)
    ensures IsPublishable(Run(Step, NewSys(origin), events + more).live)
  {
    LiveZonesArePublishable(origin, events);
    RunAppend(Step, NewSys(origin), events, more);
    var inv := (s: Sys) => SysInv(s) && IsPublishable(s.live);
    forall s, e | inv(s) ensures inv(Step(s, e)) {
      StepKeeps(s, e);
    }
    RunKeeps(Step, inv, Run(Step, NewSys(origin), events), more);
  }

  // ----- isolation

  /** An open transaction, and how many bumps went through a shared SOA so far. */
  datatype OpenTx = OpenTx(live: Zone, tx: Tx, bumps: nat)

  function OpenStep(o: OpenTx, op: Op): OpenTx {
    var next := InTx(o.live, o.tx, op).0;
    OpenTx(next.live, next.tx.value, o.bumps + if BumpsLive(o.tx, op) then 1 else 0)
  }

  predicate BumpsLive(tx: Tx, op: Op) {
    op.IncreaseSerial? && tx.shared && Serial(tx.tmp).Some?
  }

  /** The live zone after k bumps through a shared SOA. */
  function Moved(live: Zone, k: nat): Zone {
    if Serial(live).Some? then WithSerial(live, Add32(Serial(live).value, k)) else live
  }

  lemma MovedStep(live: Zone, k: nat)
    ensures Moved(live, 0) == live
    ensures Serial(live).Some? ==>
              Serial(Moved(live, k)).Some? && BumpSOA(Moved(live, k)) == Moved(live, k + 1)
    ensures Serial(live).None? ==> Moved(live, k) == live
  {
    if Serial(live).Some? {
      var s := Serial(live).value;
      Add32Step(s, k);
      WithSerialLaws(live, Add32(s, k), Add32(s, k + 1));
    }
  }

  ghost predicate Isolated(first: Zone, o: OpenTx) {
    LiveInv(o.live) && TxInv(o.live, o.tx) && o.live == Moved(first, o.bumps)
  }

  lemma OpenStepKeeps(first: Zone, o: OpenTx, op: Op)
    requires Isolated(first, o)
    ensures Isolated(first, OpenStep(o, op))
  {
    InTxKeeps(o.live, o.tx, op);
    LiveAfterOp(o.live, o.tx, op, first, o.bumps);
  }

  lemma LiveAfterOp(live: Zone, tx: Tx, op: Op, first: Zone, k: nat)
    requires SharesSOA(live, tx) && live == Moved(first, k)
    ensures InTx(live, tx, op).0.live == Moved(first, if BumpsLive(tx, op) then k + 1 else k)
  {
    MovedStep(first, k);
    if BumpsLive(tx, op) {
      assert Serial(live).Some?;
    }
  }

  /** Main result: while a transaction is open, no sequence of operations changes the
      live zone, except that each bump made while the transaction still holds the live
      SOA moves the apex serial by one, and nothing else. */
  lemma OpenTransactionIsIsolated(live: Zone, tx: Tx, ops: seq<Op>)
    requires LiveInv(live) && TxInv(live, tx)
    ensures Isolated(live, Run(OpenStep, OpenTx(live, tx, 0), ops))
  {
    MovedStep(live, 0);
    forall o, op | Isolated(live, o) ensures Isolated(live, OpenStep(o, op)) {
      OpenStepKeeps(live, o, op);
    }
    RunKeeps(OpenStep, o => Isolated(live, o), OpenTx(live, tx, 0), ops);
  }

  // ----- whole transactions

  function OnCopy(z: Zone, op: Op): Zone {
    Apply(z, op).0
  }

  function OpEvents(ops: seq<Op>): seq<Event> {
    seq(|ops|, i requires 0 <= i < |ops| => OpEvent(ops[i]))
  }

  /** How many of the operations raise the serial. */
  function Raises(ops: seq<Op>): nat {
    Count((op: Op) => op.IncreaseSerial?, ops)
  }

  /** A transaction open on `copy`, with the live zone moved by k bumps. */
  ghost predicate OpenAt(live: Zone, s: Sys, copy: Zone, k: nat) {
    SysInv(s) && s.tx.Some? && s.tx.value.tmp == copy && s.live == Moved(live, k)
  }

  lemma OpenOne(live: Zone, s: Sys, copy: Zone, k: nat, op: Op)
    requires OpenAt(live, s, copy, k)
    ensures OpenAt(live, Step(s, OpEvent(op)), OnCopy(copy, op), if BumpsLive(s.tx.value, op) then k + 1 else k)
  {
    InTxKeeps(s.live, s.tx.value, op);
    LiveAfterOp(s.live, s.tx.value, op, live, k);
  }

  lemma {:induction false} OpenRun(live: Zone, ops: seq<Op>) returns (k: nat)
    requires LiveInv(live)
    ensures OpenAt(live, Run(Step, BeginTx(live), OpEvents(ops)), Run(OnCopy, live, ops), k)
    ensures k <= Raises(ops)
    decreases |ops|
  {
    if ops == [] {
      MovedStep(live, 0);
      return 0;
    }
    var n := |ops| - 1;
    k := OpenRun(live, ops[..n]);
    var s := Run(Step, BeginTx(live), OpEvents(ops[..n]));
    assert OpEvents(ops)[..n] == OpEvents(ops[..n]);
    OpenOne(live, s, Run(OnCopy, live, ops[..n]), k, ops[n]);
    k := if BumpsLive(s.tx.value, ops[n]) then k + 1 else k;
  }

  /** Main result: a transaction works on its own copy, whatever becomes of the live zone:
      Commit publishes that copy with every operation in it, if and only if it holds SOA
      and NS at the apex; RollBack, or a Commit that refuses, leaves the live zone as it
      was but for its serial, and exactly as it was when no operation raised one. */
  lemma WholeTransaction(live: Zone, ops: seq<Op>)
    requires LiveInv(live)
    ensures var open := Run(Step, Sys(live, None), [BeginEvent] + OpEvents(ops));
            var copy := Run(OnCopy, live, ops);
            && (exists k: nat :: k <= Raises(ops) && Step(open, RollBackEvent) == Sys(Moved(live, k), None))
            && (Raises(ops) == 0 ==> Step(open, RollBackEvent) == Sys(live, None))
            && (IsPublishable(copy) ==> Step(open, CommitEvent) == Sys(copy, None))
            && (!IsPublishable(copy) ==> Step(open, CommitEvent) == Step(open, RollBackEvent))
  {
    var k := OpenRun(live, ops);
    var start := Sys(live, None);
    assert [BeginEvent][..0] == [] && Run(Step, start, [BeginEvent]) == BeginTx(live);
    RunAppend(Step, start, [BeginEvent], OpEvents(ops));
    MovedStep(live, 0);
    assert Step(Run(Step, start, [BeginEvent] + OpEvents(ops)), RollBackEvent) == Sys(Moved(live, k), None);
  }
}
