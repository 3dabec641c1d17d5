/** Which records a dynamic update or a load leaves, and how it ends, read from the class
    and type of each record (section 2.5 of RFC 2136). */
module BatchRecords {
  import opened Dns
  import opened Runs
  import opened ZoneModel
  import opened ZoneInvariants
  import opened ZoneEffects
  import opened ZoneTransactions
  import opened ZoneUpdates

  // ----- what is filed under a name and type

  datatype Filed = Absent | Nil | Has(records: set<Rdata>)

  function FiledAt(z: Zone, n: Name, t: RRType): Filed {
    if !Holds(z, n, t) then Absent
    else
      match RRsetAt(z, n, t)
      case None => Nil
      case Some(rr) => Has(RdataSet(rr.rdatas))
  }

  function RecordsIn(f: Filed): set<Rdata> {
    match f
    case Has(records) => records
    case _ => {}
  }

  function Named(rr: RRset): set<Rdata> {
    RdataSet(rr.rdatas)
  }

  // ----- one record

  /** A record that is added: it joins its set, a CNAME replaces it, and an NS at a wildcard
      is passed over. */
  function AddStep(n: Name, t: RRType, was: Filed, rr: RRset): Filed {
    if rr.name != n || rr.typ != t || (t == NS && IsWildCard(n)) then was
    else if t == CNAME then Has(Named(rr))
    else Has(RecordsIn(was) + Named(rr))
  }

  /** An update record that goes through.  Class IN adds.  Otherwise type ANY empties the
      name, but for the apex NS set; class ANY drops the type, whatever records it names;
      and any other class takes the named records away, and the type with the last one. */
  function RecordStep(origin: Name, n: Name, t: RRType, was: Filed, rr: RRset): Filed {
    if rr.class_ == IN then AddStep(n, t, was, rr)
    else if rr.name != n then was
    else if rr.typ == ANY then
      if n == origin && t == NS then (if was.Absent? then Nil else was) else Absent
    else if rr.typ != t then was
    else if rr.class_ == CLASS_ANY then Absent
    else if RecordsIn(was) <= Named(rr) then Absent
    else Has(RecordsIn(was) - Named(rr))
  }

  /** A record that does not stop the batch. */
  predicate Passes(o: Outcome) {
    o == Done || o == Refused(NoEffectiveUpdate)
  }

  lemma SameFiled(z: Zone, z': Zone, n: Name, t: RRType)
    requires SameAt(z, z', n, t)
    ensures FiledAt(z', n, t) == FiledAt(z, n, t)
  {
  }

  lemma AddEffect(z: Zone, rr: RRset, split: set<Name>, n: Name, t: RRType)
    requires ZoneInv(z) && t != SOA && Passes(AddRRset(z, rr, split).1)
    ensures FiledAt(AddRRset(z, rr, split).0, n, t) == AddStep(n, t, FiledAt(z, n, t), rr)
  {
    var (z', o) := AddRRset(z, rr, split);
    AddElsewhere(z, rr, split);
    AddRefusesExactly(z, rr, split);
    if o == Done && n == rr.name && t == rr.typ {
      AddStores(z, rr, split);
      Joined(RRsetAt(z, n, t), RRsetAt(z', n, t), rr);
    } else {
      assert SameAt(z, z', n, t);
      SameFiled(z, z', n, t);
    }
  }

  lemma Joined(was: Option<RRset>, now: Option<RRset>, rr: RRset)
    requires now.Some?
    ensures now == Some(rr) ==> RdataSet(now.value.rdatas) == {} + Named(rr) == Named(rr)
    ensures was.Some? && (forall r :: r in now.value.rdatas <==> r in was.value.rdatas || r in rr.rdatas) ==>
              RdataSet(now.value.rdatas) == RdataSet(was.value.rdatas) + Named(rr)
  {
  }

  lemma DeleteTypeEffect(z: Zone, rr: RRset, drop: set<Name>, n: Name, t: RRType)
    requires EraseRRset(z, rr, drop).1 == Done
    ensures FiledAt(EraseRRset(z, rr, drop).0, n, t) == if n == rr.name && t == rr.typ then Absent else FiledAt(z, n, t)
  {
    DeleteRRsetEffect(z, rr, drop);
    if !(n == rr.name && t == rr.typ) {
      assert SameAt(z, EraseRRset(z, rr, drop).0, n, t);
    }
  }

  lemma DeleteRecordsEffect(z: Zone, rr: RRset, drop: set<Name>, n: Name, t: RRType)
    requires EraseRr(z, rr, drop).1 == Done
    ensures FiledAt(EraseRr(z, rr, drop).0, n, t) ==
            if !(n == rr.name && t == rr.typ) then FiledAt(z, n, t)
            else if RecordsIn(FiledAt(z, n, t)) <= Named(rr) then Absent
            else Has(RecordsIn(FiledAt(z, n, t)) - Named(rr))
  {
    var z' := EraseRr(z, rr, drop).0;
    DeleteRrEffect(z, rr, drop);
    if !(n == rr.name && t == rr.typ) {
      assert SameAt(z, z', n, t);
    } else {
      var was := RRsetAt(z, n, t).value;
      LeftExists(was.rdatas, rr.rdatas);
      if Holds(z', n, t) {
        LeftSet(was.rdatas, RRsetAt(z', n, t).value.rdatas, rr.rdatas);
      }
    }
  }

  lemma LeftExists(was: seq<Rdata>, named: seq<Rdata>)
    ensures RdataSet(was) <= RdataSet(named) <==> !exists r :: r in was && r !in named
  {
    if r :| r in was && r !in named {
      assert r in RdataSet(was) && r !in RdataSet(named);
    }
  }

  lemma LeftSet(was: seq<Rdata>, now: seq<Rdata>, named: seq<Rdata>)
    requires forall r :: r in now <==> r in was && r !in named
    ensures RdataSet(now) == RdataSet(was) - RdataSet(named)
  {
  }

  lemma DeleteNameEffect(z: Zone, name: Name, drop: set<Name>, n: Name, t: RRType)
    requires EraseDomain(z, name, drop).1 == Done && t != SOA
    ensures FiledAt(EraseDomain(z, name, drop).0, n, t) ==
            if n != name then FiledAt(z, n, t)
            else if n == z.origin && t == NS then (if FiledAt(z, n, t).Absent? then Nil else FiledAt(z, n, t))
            else Absent
  {
    DeleteDomainEffect(z, name, drop, n, t);
  }

  /** Main result for one record: its class and type decide what it does at every name and
      type. */
  lemma RecordEffect(z: Zone, item: Item, n: Name, t: RRType)
    requires ZoneInv(z) && t != SOA && Passes(Apply(z, ToOp(item)).1)
    ensures FiledAt(Apply(z, ToOp(item)).0, n, t) == RecordStep(z.origin, n, t, FiledAt(z, n, t), item.rr)
  {
    var rr := item.rr;
    match ToOp(item)
    case Add(_, split) => AddEffect(z, rr, split, n, t);
    case DeleteRRset(_, drop) => DeleteRefusesExactly(z, rr, drop); DeleteTypeEffect(z, rr, drop, n, t);
    case DeleteRr(_, drop) => DeleteRefusesExactly(z, rr, drop); DeleteRecordsEffect(z, rr, drop, n, t);
    case DeleteDomain(name, drop) => DeleteDomainRefusesExactly(z, name, drop); DeleteNameEffect(z, name, drop, n, t);
  }

  // ----- a batch

  function RecordRun(origin: Name, n: Name, t: RRType, was: Filed, batch: seq<Item>): Filed
    decreases |batch|
  {
    if batch == [] then was else RecordRun(origin, n, t, RecordStep(origin, n, t, was, batch[0].rr), batch[1..])
  }

  lemma {:induction false} BatchEffect(z: Zone, batch: seq<Item>, explicitSOA: bool, modified: bool, n: Name, t: RRType)
    requires ZoneInv(z) && t != SOA
    ensures match ApplyBatch(z, batch, explicitSOA, modified)
            case Stopped(_) => true
            case Applied(z', _, _) => FiledAt(z', n, t) == RecordRun(z.origin, n, t, FiledAt(z, n, t), batch)
    decreases |batch|
  {
    if batch != [] {
      var (z', o) := Apply(z, ToOp(batch[0]));
      ApplyKeeps(z, ToOp(batch[0]));
      if Passes(o) {
        RecordEffect(z, batch[0], n, t);
        BatchEffect(z', batch[1..], explicitSOA || batch[0].rr.typ == SOA, true, n, t);
        BatchEffect(z', batch[1..], explicitSOA, modified, n, t);
      }
    }
  }

  lemma BumpFiled(z: Zone, n: Name, t: RRType)
    requires Serial(z).Some? && t != SOA
    ensures FiledAt(BumpSOA(z), n, t) == FiledAt(z, n, t)
  {
  }

  /** Main result: at every name and every type but SOA, a published batch leaves exactly
      what its records say, one after the other. */
  lemma PublishedRecords(live: Zone, batch: seq<Item>, n: Name, t: RRType)
    requires LiveInv(live) && t != SOA && Update(live, batch).1 == Published
    ensures FiledAt(Update(live, batch).0, n, t) == RecordRun(live.origin, n, t, FiledAt(live, n, t), batch)
  {
    UpdateRefines(live, batch);
    BatchEffect(live, batch, false, false, n, t);
    var z := ApplyBatch(live, batch, false, false).zone;
    if Serial(z).Some? {
      BumpFiled(z, n, t);
    }
  }

  // ----- how a batch ends

  function Ops(batch: seq<Item>): (ops: seq<Op>)
    ensures |ops| == |batch| && forall i | 0 <= i < |ops| :: ops[i] == ToOp(batch[i])
  {
    seq(|batch|, i requires 0 <= i < |batch| => ToOp(batch[i]))
  }

  /** An operation that stops the run: refused for a reason other than "no effect", or a panic. */
  predicate StopsAt(z: Zone, op: Op) {
    !Passes(Apply(z, op).1)
  }

  /** The operations one after the other, up to the first that stops the run. */
  function Until(z: Zone, ops: seq<Op>): (p: Progress<Zone>)
    ensures p.done <= |ops| && (p.stopped <==> p.done < |ops|)
  {
    RunUntil(ApplyStep, StopsAt, z, ops)
  }

  function StopEnd(o: Outcome): UpdateEnd {
    match o
    case Refused(e) => Rejected(e)
    case _ => Crashed
  }

  predicate IsPassedOver(item: Item) {
    item.rr.class_ == IN && item.rr.typ == NS && IsWildCard(item.rr.name)
  }

  ghost predicate BringsSOA(batch: seq<Item>) {
    exists item :: item in batch && item.rr.typ == SOA
  }

  ghost predicate Effective(batch: seq<Item>) {
    exists item :: item in batch && !IsPassedOver(item)
  }

  /** Only a wildcard NS is passed over. */
  lemma PassedOver(z: Zone, item: Item)
    requires ZoneInv(z)
    ensures Apply(z, ToOp(item)).1 == Refused(NoEffectiveUpdate) <==> IsPassedOver(item)
  {
    var rr := item.rr;
    match ToOp(item)
    case Add(_, split) => AddRefusesExactly(z, rr, split);
    case DeleteRRset(_, drop) => DeleteRefusesExactly(z, rr, drop);
    case DeleteRr(_, drop) => DeleteRefusesExactly(z, rr, drop);
    case DeleteDomain(name, drop) => DeleteDomainRefusesExactly(z, name, drop);
  }

  /** What the whole batch comes to, from the run of its operations. */
  ghost function Outlook(z: Zone, batch: seq<Item>, explicitSOA: bool, modified: bool): Applied {
    var p := Until(z, Ops(batch));
    if p.stopped then Stopped(StopEnd(Apply(p.state, Ops(batch)[p.done]).1))
    else Applied(p.state, explicitSOA || BringsSOA(batch), modified || Effective(batch))
  }

  /** The outlook after the first record. */
  lemma OutlookFront(z: Zone, batch: seq<Item>, explicitSOA: bool, modified: bool)
    requires ZoneInv(z) && batch != []
    ensures var (z', o) := Apply(z, ToOp(batch[0]));
            Outlook(z, batch, explicitSOA, modified) ==
            if !Passes(o) then Stopped(StopEnd(o))
            else Outlook(z', batch[1..], explicitSOA || (o == Done && batch[0].rr.typ == SOA), modified || o == Done)
  {
    var ops := Ops(batch);
    RunUntilFront(ApplyStep, StopsAt, z, ops);
    assert ops[1..] == Ops(batch[1..]);
    PassedOver(z, batch[0]);
    assert batch == [batch[0]] + batch[1..];
    assert BringsSOA(batch) <==> batch[0].rr.typ == SOA || BringsSOA(batch[1..]);
    assert Effective(batch) <==> !IsPassedOver(batch[0]) || Effective(batch[1..]);
  }

  lemma {:induction false} ApplyBatchExactly(z: Zone, batch: seq<Item>, explicitSOA: bool, modified: bool)
    requires ZoneInv(z)
    ensures ApplyBatch(z, batch, explicitSOA, modified) == Outlook(z, batch, explicitSOA, modified)
    decreases |batch|
  {
    if batch == [] {
      assert Ops(batch) == [];
    } else {
      var (z', o) := Apply(z, ToOp(batch[0]));
      OutlookFront(z, batch, explicitSOA, modified);
      ApplyKeeps(z, ToOp(batch[0]));
      if Passes(o) {
        ApplyBatchExactly(z', batch[1..], explicitSOA || (o == Done && batch[0].rr.typ == SOA), modified || o == Done);
      }
    }
  }

  /** Main result: how an update ends.  The first record that is refused for any reason but
      "no effect" rejects the whole batch with that reason, or crashes it; if none is and
      all are wildcard NS records, nothing is done; else the serial is raised, unless some
      record is an SOA, and the zone is committed. */
  lemma UpdateEndsExactly(live: Zone, batch: seq<Item>)
    requires LiveInv(live)
    ensures var p := Until(live, Ops(batch));
            Update(live, batch) ==
            if p.stopped then (live, StopEnd(Apply(p.state, Ops(batch)[p.done]).1))
            else if !Effective(batch) then (live, NothingToDo)
            else CommittedEnd(live, p.state, BringsSOA(batch))
  {
    UpdateRefines(live, batch);
    ApplyBatchExactly(live, batch, false, false);
    EndIs(live, Until(live, Ops(batch)).state, BringsSOA(batch));
  }

  lemma EndIs(live: Zone, z: Zone, bringsSOA: bool)
    ensures EndOf(live, z, bringsSOA, true) == CommittedEnd(live, z, bringsSOA)
  {
    if Serial(z).Some? {
      BumpedKeys(z);
    }
  }

  /** The end of a batch that went through, from the zone its records leave. */
  ghost function CommittedEnd(live: Zone, z: Zone, bringsSOA: bool): (Zone, UpdateEnd) {
    if bringsSOA then
      if !Holds(z, z.origin, SOA) then (live, CommitRefused(ShortOfSOA))
      else if !Holds(z, z.origin, NS) then (live, CommitRefused(ShortOfNS))
      else (z, Published)
    else if Serial(z).None? then (live, Crashed)
    else if !Holds(z, z.origin, NS) then (if Serial(live).Some? then BumpSOA(live) else live, CommitRefused(ShortOfNS))
    else (BumpSOA(z), Published)
  }

  /** The apex SOA a published batch leaves: the last newer one it brings, or, if it brings
      none of any name, the old one with the next serial. */
  lemma PublishedSOA(live: Zone, batch: seq<Item>)
    requires LiveInv(live) && ApexSOA(live).Some? && Update(live, batch).1 == Published
    ensures BringsSOA(batch) ==>
              ApexSOA(Update(live, batch).0) == SoaAfter(live.origin, ApexSOA(live), batch)
    ensures !BringsSOA(batch) ==>
              && Serial(live).Some?
              && var soa := ApexSOA(live).value;
                 ApexSOA(Update(live, batch).0) == Some(soa.(rdatas := [soa.rdatas[0].(serial := Inc32(Serial(live).value))]))
  {
    UpdateRefines(live, batch);
    BatchKeeps(live, batch, false, false);
    ExplicitExactly(live, batch, false, false);
    var applied := ApplyBatch(live, batch, false, false);
    if Serial(applied.zone).Some? {
      BumpedSOA(applied.zone);
    }
  }

  lemma {:induction false} ExplicitExactly(z: Zone, batch: seq<Item>, explicitSOA: bool, modified: bool)
    requires ZoneInv(z)
    ensures match ApplyBatch(z, batch, explicitSOA, modified)
            case Stopped(_) => true
            case Applied(_, e, _) => e <==> explicitSOA || BringsSOA(batch)
    decreases |batch|
  {
    if batch != [] {
      var (z', o) := Apply(z, ToOp(batch[0]));
      ApplyKeeps(z, ToOp(batch[0]));
      PassedOver(z, batch[0]);
      assert batch == [batch[0]] + batch[1..];
      assert BringsSOA(batch) <==> batch[0].rr.typ == SOA || BringsSOA(batch[1..]);
      ExplicitExactly(z', batch[1..], explicitSOA || batch[0].rr.typ == SOA, true);
      ExplicitExactly(z', batch[1..], explicitSOA, modified);
    }
  }

  // ----- loads

  function LoadOps(rrs: seq<(RRset, set<Name>)>): (ops: seq<Op>)
    ensures |ops| == |rrs| && forall i | 0 <= i < |ops| :: ops[i] == Op.Add(rrs[i].0, rrs[i].1)
  {
    seq(|rrs|, i requires 0 <= i < |rrs| => Op.Add(rrs[i].0, rrs[i].1))
  }

  /** Main result for loads: the first RRset refused for any reason but "no effect"
      abandons the load with that reason; if none is, the zone with all of them is
      complete or not, unless the load was aborted. */
  lemma {:induction false} LoadEndsExactly(z: Zone, rrs: seq<(RRset, set<Name>)>, aborted: bool)
    ensures var p := Until(z, LoadOps(rrs));
            && (p.stopped ==> LoadZone(z, rrs, aborted).1 == Apply(p.state, LoadOps(rrs)[p.done]).1)
            && (!p.stopped ==>
                  LoadZone(z, rrs, aborted) == (p.state, if aborted then Refused(LoadAborted) else Validate(p.state)))
    decreases |rrs|
  {
    if rrs == [] {
      assert LoadOps(rrs) == [];
    } else {
      RunUntilFront(ApplyStep, StopsAt, z, LoadOps(rrs));
      assert LoadOps(rrs)[1..] == LoadOps(rrs[1..]);
      LoadEndsExactly(AddRRset(z, rrs[0].0, rrs[0].1).0, rrs[1..], aborted);
    }
  }

  function LoadRun(n: Name, t: RRType, was: Filed, rrs: seq<(RRset, set<Name>)>): Filed
    decreases |rrs|
  {
    if rrs == [] then was else LoadRun(n, t, AddStep(n, t, was, rrs[0].0), rrs[1..])
  }

  lemma {:induction false} LoadEffect(z: Zone, rrs: seq<(RRset, set<Name>)>, n: Name, t: RRType)
    requires ZoneInv(z) && t != SOA && LoadZone(z, rrs, false).1 == Done
    ensures FiledAt(LoadZone(z, rrs, false).0, n, t) == LoadRun(n, t, FiledAt(z, n, t), rrs)
    decreases |rrs|
  {
    if rrs != [] {
      AddEffect(z, rrs[0].0, rrs[0].1, n, t);
      AddKeeps(z, rrs[0].0, rrs[0].1);
      LoadEffect(AddRRset(z, rrs[0].0, rrs[0].1).0, rrs[1..], n, t);
    }
  }

  /** The RRset is one that is stored at the name and type. */
  predicate Counts(n: Name, t: RRType, rr: RRset) {
    rr.name == n && rr.typ == t && !(t == NS && IsWildCard(n))
  }

  lemma {:induction false} LoadRunMeans(n: Name, t: RRType, was: Filed, rrs: seq<(RRset, set<Name>)>)
    requires IsPlain(t)
    ensures var f := LoadRun(n, t, was, rrs);
            && (f == was || f.Has?)
            && (f.Has? <==> was.Has? || exists p :: p in rrs && Counts(n, t, p.0))
            && (forall r :: r in RecordsIn(f) <==>
                  r in RecordsIn(was) || exists p :: p in rrs && Counts(n, t, p.0) && r in p.0.rdatas)
    decreases |rrs|
  {
    if rrs != [] {
      var first := rrs[0];
      assert rrs == [first] + rrs[1..];
      LoadRunMeans(n, t, AddStep(n, t, was, first.0), rrs[1..]);
      forall r ensures r in RecordsIn(AddStep(n, t, was, first.0)) <==>
                       r in RecordsIn(was) || (Counts(n, t, first.0) && r in first.0.rdatas)
      {
      }
    }
  }

  /** Main result: a completed load holds, at every name and type but SOA and CNAME, exactly
      the records it received there, a wildcard's NS aside. */
  lemma LoadedRecords(origin: Name, rrs: seq<(RRset, set<Name>)>, n: Name, t: RRType)
    requires IsPlain(t) && LoadZone(NewZone(origin), rrs, false).1 == Done
    ensures var z := LoadZone(NewZone(origin), rrs, false).0;
            && (Holds(z, n, t) <==> exists p :: p in rrs && Counts(n, t, p.0))
            && (forall r :: r in RecordsIn(FiledAt(z, n, t)) <==>
                  exists p :: p in rrs && Counts(n, t, p.0) && r in p.0.rdatas)
  {
    NewZoneInv(origin);
    LoadEffect(NewZone(origin), rrs, n, t);
    LoadRunMeans(n, t, Absent, rrs);
  }
}
