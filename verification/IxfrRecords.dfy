/** Which records an IXFR publishes: the calls read name by name, and how that differs from
    what section 4 of RFC 1995 says a sequence of deltas means.  The updator drops a whole
    type where a delta names single records, and refuses to empty the apex NS set. */
module IxfrRecords {
  import opened Dns
  import opened Ixfr
  import opened ZoneModel
  import opened ZoneInvariants
  import opened ZoneEffects
  import opened ZoneTransactions
  import opened ZoneUpdates
  import opened XfrZones

  // ----- the records at a name

  /** The types a name holds, with the records of each; None for a nil entry, and for an
      SOA, whose serial transfers raise. */
  type Records = map<RRType, Option<set<Rdata>>>

  function EntryRecords(t: RRType, entry: Option<RRset>): Option<set<Rdata>> {
    if t == SOA || entry.None? then None else Some(RdataSet(entry.value.rdatas))
  }

  function RecordsAt(z: Zone, n: Name): (s: Records)
    ensures forall t :: t in s <==> Holds(z, n, t)
    ensures forall t | t in s :: s[t] == EntryRecords(t, RRsetAt(z, n, t))
  {
    if HasData(z.nodes, n) then map t | t in z.nodes[n].data.value :: EntryRecords(t, z.nodes[n].data.value[t])
    else map[]
  }

  /** The records of one type, none for a type that is not there. */
  function Of(s: Records, t: RRType): set<Rdata> {
    if t in s && s[t].Some? then s[t].value else {}
  }

  function RecordsOf(z: Zone, n: Name, t: RRType): set<Rdata> {
    Of(RecordsAt(z, n), t)
  }

  // ----- reading a call

  /** An add is not refused: in the zone, no NS at a wildcard, no CNAME beside other data. */
  predicate Goes(origin: Name, n: Name, s: Records, rr: RRset) {
    && !(rr.typ == NS && IsWildCard(n)) && IsSubDomain(n, origin)
    && (s == map[] || (rr.typ == CNAME <==> CNAME in s))
  }

  /** A delete is refused although its type is there: it names the whole apex NS set. */
  predicate IsRefused(origin: Name, n: Name, s: Records, rr: RRset) {
    n == origin && rr.typ == NS && NS in s && s[NS].Some? && s[NS].value <= RdataSet(rr.rdatas)
  }

  /** What a call does to the records at a name. */
  function NameStep(origin: Name, n: Name, s: Records, call: Call): Records {
    match call
    case CallIncrease => s
    case CallDelete(rr) => if rr.name != n || IsRefused(origin, n, s, rr) then s else s - {rr.typ}
    case CallAdd(rr) =>
      if rr.name != n || !Goes(origin, n, s, rr) then s
      else if rr.typ == CNAME then s[CNAME := Some(RdataSet(rr.rdatas))]
      else s[rr.typ := Some(Of(s, rr.typ) + RdataSet(rr.rdatas))]
  }

  function NameRun(origin: Name, n: Name, s: Records, calls: seq<Call>): Records
    decreases |calls|
  {
    if calls == [] then s
    else NameStep(origin, n, NameRun(origin, n, s, calls[..|calls| - 1]), calls[|calls| - 1])
  }

  lemma ReadAs(z: Zone, n: Name, s: Records)
    requires forall t :: t in s <==> Holds(z, n, t)
    requires forall t | t in s :: s[t] == EntryRecords(t, RRsetAt(z, n, t))
    ensures RecordsAt(z, n) == s
  {
  }

  lemma ReadSame(z: Zone, z': Zone, n: Name)
    requires forall u :: SameAt(z, z', n, u)
    ensures RecordsAt(z', n) == RecordsAt(z, n)
  {
    forall u ensures (Holds(z', n, u) <==> Holds(z, n, u)) && RRsetAt(z', n, u) == RRsetAt(z, n, u) {
      assert SameAt(z, z', n, u);
    }
    ReadAs(z', n, RecordsAt(z, n));
  }

  /** All entries at the name are the same but one. */
  lemma ReadButOne(z: Zone, z': Zone, n: Name, t: RRType)
    requires forall u | u != t :: SameAt(z, z', n, u)
    ensures RecordsAt(z', n) ==
            if Holds(z', n, t) then RecordsAt(z, n)[t := EntryRecords(t, RRsetAt(z', n, t))] else RecordsAt(z, n) - {t}
  {
    var s := RecordsAt(z, n);
    var s' := if Holds(z', n, t) then s[t := EntryRecords(t, RRsetAt(z', n, t))] else s - {t};
    forall u ensures (u in s' <==> Holds(z', n, u)) && (u in s' ==> s'[u] == EntryRecords(u, RRsetAt(z', n, u))) {
      if u != t {
        assert SameAt(z, z', n, u);
      }
    }
    ReadAs(z', n, s');
  }

  lemma BumpReads(z: Zone, n: Name)
    requires Serial(z).Some?
    ensures RecordsAt(BumpSOA(z), n) == RecordsAt(z, n)
  {
    ReadAs(BumpSOA(z), n, RecordsAt(z, n));
  }

  lemma GoesExactly(z: Zone, rr: RRset, split: set<Name>)
    requires ZoneInv(z)
    ensures var o := AddRRset(z, rr, split).1;
            Goes(z.origin, rr.name, RecordsAt(z, rr.name), rr) <==>
            o != Refused(NoEffectiveUpdate) && o != Refused(OutOfZone) && o != Refused(CNameCoExists)
  {
    AddRefusesExactly(z, rr, split);
    if HasData(z.nodes, rr.name) {
      assert NodeInv(z.origin, rr.name, z.nodes[rr.name]);
      var t :| t in z.nodes[rr.name].data.value;
      assert Holds(z, rr.name, t);
    }
  }

  lemma AddReads(z: Zone, rr: RRset, split: set<Name>, n: Name)
    requires ZoneInv(z) && rr.typ != SOA && AddRRset(z, rr, split).1 != Panicked
    ensures RecordsAt(AddRRset(z, rr, split).0, n) == NameStep(z.origin, n, RecordsAt(z, n), CallAdd(rr))
  {
    var (z', o) := AddRRset(z, rr, split);
    AddElsewhere(z, rr, split);
    if n != rr.name {
      ReadSame(z, z', n);
    } else {
      ReadButOne(z, z', n, rr.typ);
      GoesExactly(z, rr, split);
      if Goes(z.origin, n, RecordsAt(z, n), rr) {
        AddedEntry(z, rr, split);
      } else {
        assert SameAt(z, z', n, rr.typ);
      }
    }
  }

  /** The entry an add is about, when it is not refused. */
  lemma AddedEntry(z: Zone, rr: RRset, split: set<Name>)
    requires ZoneInv(z) && rr.typ != SOA
    requires var o := AddRRset(z, rr, split).1; o == Done || o == Refused(DuplicateRdata)
    ensures var z' := AddRRset(z, rr, split).0;
            && Holds(z', rr.name, rr.typ)
            && EntryRecords(rr.typ, RRsetAt(z', rr.name, rr.typ)) ==
               Some((if rr.typ == CNAME then {} else RecordsOf(z, rr.name, rr.typ)) + RdataSet(rr.rdatas))
  {
    var (z', o) := AddRRset(z, rr, split);
    var (was, now) := (RRsetAt(z, rr.name, rr.typ), RRsetAt(z', rr.name, rr.typ));
    if o == Done {
      AddStores(z, rr, split);
    } else {
      AddElsewhere(z, rr, split);
      AddRefusesExactly(z, rr, split);
      assert SameAt(z, z', rr.name, rr.typ);
    }
    assert {} + RdataSet(rr.rdatas) == RdataSet(rr.rdatas);
    if was.Some? && rr.typ != CNAME {
      SetUnion(was.value.rdatas, now.value.rdatas, rr.rdatas);
    }
  }

  lemma SetUnion(was: seq<Rdata>, now: seq<Rdata>, more: seq<Rdata>)
    requires forall r :: r in now <==> r in was || r in more
    ensures RdataSet(now) == RdataSet(was) + RdataSet(more)
  {
  }

  lemma RefusedExactly(z: Zone, rr: RRset, drop: set<Name>)
    requires ZoneInv(z) && rr.typ != SOA && Holds(z, rr.name, rr.typ)
    ensures EraseRRset(z, rr, drop).1 != Panicked ==>
              (EraseRRset(z, rr, drop).1 == Done <==> !IsRefused(z.origin, rr.name, RecordsAt(z, rr.name), rr))
  {
    assert NodeInv(z.origin, rr.name, z.nodes[rr.name]);
    var ns := RRsetAt(z, z.origin, NS);
    if ns.Some? {
      NothingLeft(ns.value.rdatas, rr.rdatas);
    }
  }

  lemma NothingLeft(first: seq<Rdata>, second: seq<Rdata>)
    ensures RdatasDiff(first, second) == [] <==> RdataSet(first) <= RdataSet(second)
  {
    forall r ensures r in RdatasDiff(first, second) <==> r in first && r !in second {
      RdatasDiffMember(first, second, r);
    }
    if RdatasDiff(first, second) != [] {
      var r := RdatasDiff(first, second)[0];
      assert r in RdatasDiff(first, second);
      assert r in RdataSet(first) && r !in RdataSet(second);
    } else {
      assert forall r | r in first :: r in second;
    }
  }

  lemma DeleteReads(z: Zone, rr: RRset, drop: set<Name>, n: Name)
    requires ZoneInv(z) && rr.typ != SOA && EraseRRset(z, rr, drop).1 != Panicked
    ensures RecordsAt(EraseRRset(z, rr, drop).0, n) == NameStep(z.origin, n, RecordsAt(z, n), CallDelete(rr))
  {
    var z' := EraseRRset(z, rr, drop).0;
    DeleteRRsetEffect(z, rr, drop);
    if n != rr.name {
      ReadSame(z, z', n);
    } else {
      ReadButOne(z, z', n, rr.typ);
      if Holds(z, n, rr.typ) {
        RefusedExactly(z, rr, drop);
      }
    }
  }

  lemma CallReads(z: Zone, call: Call, tree: set<Name>, n: Name)
    requires ZoneInv(z) && (call.CallIncrease? || call.rr.typ != SOA) && Apply(z, CallOp(call, tree)).1 != Panicked
    ensures RecordsAt(Apply(z, CallOp(call, tree)).0, n) == NameStep(z.origin, n, RecordsAt(z, n), call)
  {
    match call
    case CallIncrease => BumpReads(z, n);
    case CallAdd(rr) => AddReads(z, rr, tree, n);
    case CallDelete(rr) => DeleteReads(z, rr, tree, n);
  }

  /** The records at every name after the calls of a transfer that did not panic: a delete
      that is not refused takes the whole type, an add that is not refused adds to it. */
  lemma {:induction false} TraceReads(live: Zone, calls: seq<Call>, tree: nat -> set<Name>, n: Name)
    requires ZoneInv(live) && DataCalls(calls) && !Perform(OpenOn(live), CallOps(calls, tree)).stopped
    ensures RecordsAt(ApplyAll(live, CallOps(calls, tree)), n) == NameRun(live.origin, n, RecordsAt(live, n), calls)
    decreases |calls|
  {
    if calls != [] {
      var k := |calls| - 1;
      var ops := CallOps(calls, tree);
      PrefixOps(calls, tree, k);
      PrefixRun(live, ops);
      TraceReads(live, calls[..k], tree, n);
      OpsKeep(live, ops[..k]);
      assert calls[k] in calls;
      CallReads(ApplyAll(live, ops[..k]), calls[k], tree(k), n);
    }
  }

  // ----- what the deltas mean

  /** The records that RRsets of a section give for a name and type. */
  function Named(n: Name, t: RRType, rrs: seq<RRset>): set<Rdata> {
    if rrs == [] then {} else (if IsAt(n, t, rrs[0]) then RdataSet(rrs[0].rdatas) else {}) + Named(n, t, rrs[1..])
  }

  predicate IsAt(n: Name, t: RRType, rr: RRset) {
    rr.name == n && rr.typ == t
  }

  /** Section 4 of RFC 1995: each delta's deletes are taken away record by record, and its
      adds put in. */
  function Meant(n: Name, t: RRType, was: set<Rdata>, deltas: seq<Delta>): set<Rdata>
    decreases |deltas|
  {
    if deltas == [] then was
    else Meant(n, t, was - Named(n, t, deltas[0].deletes) + Named(n, t, deltas[0].adds), deltas[1..])
  }

  /** The same, call by call. */
  function MeantStep(n: Name, t: RRType, r: set<Rdata>, call: Call): set<Rdata> {
    match call
    case CallIncrease => r
    case CallDelete(rr) => if IsAt(n, t, rr) then r - RdataSet(rr.rdatas) else r
    case CallAdd(rr) => if IsAt(n, t, rr) then r + RdataSet(rr.rdatas) else r
  }

  function MeantRun(n: Name, t: RRType, r: set<Rdata>, calls: seq<Call>): set<Rdata>
    decreases |calls|
  {
    if calls == [] then r else MeantStep(n, t, MeantRun(n, t, r, calls[..|calls| - 1]), calls[|calls| - 1])
  }

  lemma {:induction false} MeantAppend(n: Name, t: RRType, r: set<Rdata>, a: seq<Call>, b: seq<Call>)
    ensures MeantRun(n, t, r, a + b) == MeantRun(n, t, MeantRun(n, t, r, a), b)
    decreases |b|
  {
    if b == [] {
      assert a + b == a;
    } else {
      assert (a + b)[..|a + b| - 1] == a + b[..|b| - 1];
      MeantAppend(n, t, r, a, b[..|b| - 1]);
    }
  }

  lemma {:induction false} MeantDeletes(n: Name, t: RRType, r: set<Rdata>, rrs: seq<RRset>)
    ensures MeantRun(n, t, r, Deletes(rrs)) == r - Named(n, t, rrs)
    decreases |rrs|
  {
    if rrs != [] {
      MeantAppend(n, t, r, [CallDelete(rrs[0])], Deletes(rrs[1..]));
      assert [CallDelete(rrs[0])][..0] == [];
      MeantDeletes(n, t, MeantStep(n, t, r, CallDelete(rrs[0])), rrs[1..]);
    }
  }

  lemma {:induction false} MeantAdds(n: Name, t: RRType, r: set<Rdata>, rrs: seq<RRset>)
    ensures MeantRun(n, t, r, Adds(rrs)) == r + Named(n, t, rrs)
    decreases |rrs|
  {
    if rrs != [] {
      MeantAppend(n, t, r, [CallAdd(rrs[0])], Adds(rrs[1..]));
      assert [CallAdd(rrs[0])][..0] == [];
      MeantAdds(n, t, MeantStep(n, t, r, CallAdd(rrs[0])), rrs[1..]);
    }
  }

  /** Reading the calls one by one gives what the deltas mean. */
  lemma {:induction false} MeantByCalls(n: Name, t: RRType, r: set<Rdata>, deltas: seq<Delta>)
    ensures MeantRun(n, t, r, Calls(deltas)) == Meant(n, t, r, deltas)
    decreases |deltas|
  {
    if deltas != [] {
      var d := deltas[0];
      var r1 := r - Named(n, t, d.deletes);
      MeantAppend(n, t, r, DeltaCalls(d), Calls(deltas[1..]));
      MeantAppend(n, t, r, Deletes(d.deletes) + [CallIncrease], Adds(d.adds));
      MeantAppend(n, t, r, Deletes(d.deletes), [CallIncrease]);
      MeantDeletes(n, t, r, d.deletes);
      assert [CallIncrease][..0] == [];
      assert MeantRun(n, t, r1, [CallIncrease]) == r1;
      MeantAdds(n, t, r1, d.adds);
      MeantByCalls(n, t, r1 + Named(n, t, d.adds), deltas[1..]);
    }
  }

  // ----- when the two agree

  ghost predicate NoDeletes(n: Name, t: RRType, calls: seq<Call>) {
    forall c | c in calls && c.CallDelete? :: !IsAt(n, t, c.rr)
  }

  /** The records the calls bring to a name and type. */
  function Brought(n: Name, t: RRType, calls: seq<Call>): set<Rdata>
    decreases |calls|
  {
    if calls == [] then {}
    else
      var k := |calls| - 1;
      Brought(n, t, calls[..k]) +
      if calls[k].CallAdd? && IsAt(n, t, calls[k].rr) then RdataSet(calls[k].rr.rdatas) else {}
  }

  /** Those among them whose adds are not refused. */
  function Accepted(origin: Name, n: Name, t: RRType, s: Records, calls: seq<Call>): set<Rdata>
    decreases |calls|
  {
    if calls == [] then {}
    else
      var k := |calls| - 1;
      Accepted(origin, n, t, s, calls[..k]) +
      if calls[k].CallAdd? && IsAt(n, t, calls[k].rr) && Goes(origin, n, NameRun(origin, n, s, calls[..k]), calls[k].rr)
      then RdataSet(calls[k].rr.rdatas) else {}
  }

  lemma StepOf(origin: Name, n: Name, t: RRType, s: Records, call: Call)
    requires IsPlain(t) && !(call.CallDelete? && IsAt(n, t, call.rr))
    ensures Of(NameStep(origin, n, s, call), t) ==
            Of(s, t) + if call.CallAdd? && IsAt(n, t, call.rr) && Goes(origin, n, s, call.rr)
                       then RdataSet(call.rr.rdatas) else {}
  {
  }

  lemma {:induction false} GrowsByAccepted(origin: Name, n: Name, t: RRType, s: Records, calls: seq<Call>)
    requires IsPlain(t) && NoDeletes(n, t, calls)
    ensures Of(NameRun(origin, n, s, calls), t) == Of(s, t) + Accepted(origin, n, t, s, calls)
    ensures Accepted(origin, n, t, s, calls) <= Brought(n, t, calls)
    decreases |calls|
  {
    if calls != [] {
      var k := |calls| - 1;
      assert forall c | c in calls[..k] :: c in calls;
      GrowsByAccepted(origin, n, t, s, calls[..k]);
      assert calls[k] in calls;
      StepOf(origin, n, t, NameRun(origin, n, s, calls[..k]), calls[k]);
    }
  }

  lemma {:induction false} MeansBrought(n: Name, t: RRType, r: set<Rdata>, calls: seq<Call>)
    requires NoDeletes(n, t, calls)
    ensures MeantRun(n, t, r, calls) == r + Brought(n, t, calls)
    decreases |calls|
  {
    if calls != [] {
      var k := |calls| - 1;
      assert forall c | c in calls[..k] :: c in calls;
      MeansBrought(n, t, r, calls[..k]);
      assert calls[k] in calls;
    }
  }

  lemma {:induction false} NameAppend(origin: Name, n: Name, s: Records, a: seq<Call>, b: seq<Call>)
    ensures NameRun(origin, n, s, a + b) == NameRun(origin, n, NameRun(origin, n, s, a), b)
    decreases |b|
  {
    if b == [] {
      assert a + b == a;
    } else {
      assert (a + b)[..|a + b| - 1] == a + b[..|b| - 1];
      NameAppend(origin, n, s, a, b[..|b| - 1]);
    }
  }

  /** What survives a delete at the name and type: nothing, unless it is refused. */
  function Survives(origin: Name, n: Name, t: RRType, s: Records, rr: RRset): set<Rdata> {
    if IsRefused(origin, n, s, rr) then Of(s, t) else {}
  }

  /** The condition on a trace whose last delete at (n, t) is rr: before it the name holds
      s and the deltas mean r.  Every record the deltas keep is brought again, every record
      they bring is accepted or was kept by the refusal, and whatever a refused delete
      left is brought anyway. */
  ghost predicate ComesRight(
      origin: Name, n: Name, t: RRType, s: Records, r: set<Rdata>, rr: RRset, after: seq<Call>)
  {
    var accepted := Accepted(origin, n, t, NameStep(origin, n, s, CallDelete(rr)), after);
    var brought := Brought(n, t, after);
    && r - RdataSet(rr.rdatas) <= accepted
    && brought - accepted <= Survives(origin, n, t, s, rr) <= brought
  }

  lemma MatchesExactly(
      origin: Name, n: Name, t: RRType, s: Records, r: set<Rdata>, before: seq<Call>, rr: RRset, after: seq<Call>)
    requires IsPlain(t) && IsAt(n, t, rr) && NoDeletes(n, t, after)
    ensures var calls := before + [CallDelete(rr)] + after;
            Of(NameRun(origin, n, s, calls), t) == MeantRun(n, t, r, calls) <==>
            ComesRight(origin, n, t, NameRun(origin, n, s, before), MeantRun(n, t, r, before), rr, after)
  {
    var first := before + [CallDelete(rr)];
    var (s1, r1) := (NameRun(origin, n, s, before), MeantRun(n, t, r, before));
    assert first[..|before|] == before;
    NameAppend(origin, n, s, first, after);
    MeantAppend(n, t, r, first, after);
    var s2 := NameStep(origin, n, s1, CallDelete(rr));
    GrowsByAccepted(origin, n, t, s2, after);
    MeansBrought(n, t, r1 - RdataSet(rr.rdatas), after);
    Unions(r1 - RdataSet(rr.rdatas), Brought(n, t, after), Survives(origin, n, t, s1, rr),
           Accepted(origin, n, t, s2, after));
  }

  lemma Unions(kept: set<Rdata>, brought: set<Rdata>, left: set<Rdata>, accepted: set<Rdata>)
    requires accepted <= brought && left !! kept
    ensures left + accepted == kept + brought <==> kept <= accepted && brought - accepted <= left <= brought
  {
  }

  /** Every trace has no delete at a name and type, or a last one. */
  lemma {:induction false} LastDelete(n: Name, t: RRType, calls: seq<Call>)
    returns (before: seq<Call>, rr: RRset, after: seq<Call>)
    requires !NoDeletes(n, t, calls)
    ensures calls == before + [CallDelete(rr)] + after && IsAt(n, t, rr) && NoDeletes(n, t, after)
    decreases |calls|
  {
    var k := |calls| - 1;
    var (front, c) := (calls[..k], calls[k]);
    assert calls == front + [c];
    if c.CallDelete? && IsAt(n, t, c.rr) {
      before, rr, after := front, c.rr, [];
    } else {
      before, rr, after := LastDelete(n, t, front);
      after := after + [c];
    }
  }

  // ----- published zones

  /** The zone an encoding of deltas publishes, when it does. */
  ghost predicate Publishes(live: Zone, notified: uint32, latest: uint32, deltas: seq<Delta>, tree: nat -> set<Name>)
    requires ApexSerial(live).Some?
  {
    var start := ApexSerial(live).value;
    IxfrEnd(live, start, notified, FlatEvents(Encode(latest, start, deltas)), tree).1 == Committed
  }

  function PublishedBy(live: Zone, notified: uint32, latest: uint32, deltas: seq<Delta>, tree: nat -> set<Name>): Zone
    requires ApexSerial(live).Some?
  {
    var start := ApexSerial(live).value;
    IxfrEnd(live, start, notified, FlatEvents(Encode(latest, start, deltas)), tree).0
  }

  /** The records at every name of a published zone. */
  lemma PublishedReads(
      live: Zone, notified: uint32, latest: uint32, deltas: seq<Delta>, tree: nat -> set<Name>, n: Name)
    requires LiveInv(live) && ApexSerial(live).Some? && deltas != [] && DataDeltas(deltas)
    requires Publishes(live, notified, latest, deltas, tree)
    ensures RecordsAt(PublishedBy(live, notified, latest, deltas, tree), n) ==
            NameRun(live.origin, n, RecordsAt(live, n), Calls(deltas))
  {
    IxfrPublishesDeltas(live, notified, latest, deltas, tree);
    DeltasIncrease(deltas);
    CrashesExactly(live, Calls(deltas), tree);
    TraceReads(live, Calls(deltas), tree, n);
  }

  /** Main result: a published IXFR leaves at a name and type exactly the records the
      deltas mean if and only if the last delete there comes right; rr is that delete. */
  lemma IxfrMeantExactly(
      live: Zone, notified: uint32, latest: uint32, deltas: seq<Delta>, tree: nat -> set<Name>,
      n: Name, t: RRType, before: seq<Call>, rr: RRset, after: seq<Call>)
    requires LiveInv(live) && ApexSerial(live).Some? && deltas != [] && DataDeltas(deltas)
    requires Publishes(live, notified, latest, deltas, tree) && IsPlain(t)
    requires Calls(deltas) == before + [CallDelete(rr)] + after && IsAt(n, t, rr) && NoDeletes(n, t, after)
    ensures RecordsOf(PublishedBy(live, notified, latest, deltas, tree), n, t) ==
              Meant(n, t, RecordsOf(live, n, t), deltas) <==>
            ComesRight(live.origin, n, t, NameRun(live.origin, n, RecordsAt(live, n), before),
                       MeantRun(n, t, RecordsOf(live, n, t), before), rr, after)
  {
    PublishedReads(live, notified, latest, deltas, tree, n);
    MeantByCalls(n, t, RecordsOf(live, n, t), deltas);
    MatchesExactly(live.origin, n, t, RecordsAt(live, n), RecordsOf(live, n, t), before, rr, after);
  }

  /** Main result, without a delete at the name and type: the records are those the deltas
      mean if and only if every record whose add is refused was there already or is
      accepted another time. */
  lemma IxfrMeantByAdds(
      live: Zone, notified: uint32, latest: uint32, deltas: seq<Delta>, tree: nat -> set<Name>, n: Name, t: RRType)
    requires LiveInv(live) && ApexSerial(live).Some? && deltas != [] && DataDeltas(deltas)
    requires Publishes(live, notified, latest, deltas, tree) && IsPlain(t) && NoDeletes(n, t, Calls(deltas))
    ensures RecordsOf(PublishedBy(live, notified, latest, deltas, tree), n, t) ==
              Meant(n, t, RecordsOf(live, n, t), deltas) <==>
            Brought(n, t, Calls(deltas)) - Accepted(live.origin, n, t, RecordsAt(live, n), Calls(deltas)) <=
              RecordsOf(live, n, t)
  {
    PublishedReads(live, notified, latest, deltas, tree, n);
    MeantByCalls(n, t, RecordsOf(live, n, t), deltas);
    GrowsByAccepted(live.origin, n, t, RecordsAt(live, n), Calls(deltas));
    MeansBrought(n, t, RecordsOf(live, n, t), Calls(deltas));
  }

  // ----- one delta

  lemma OneDeltaCalls(gone: RRset, adds: seq<RRset>)
    requires |adds| <= 1
    ensures Calls([Delta([gone], adds)]) ==
            [CallDelete(gone), CallIncrease] + if adds == [] then [] else [CallAdd(adds[0])]
  {
    var d := Delta([gone], adds);
    assert [d][1..] == [] && [gone][1..] == [] && (adds != [] ==> adds[1..] == []);
    assert Deletes([gone]) == [CallDelete(gone)];
    assert Adds(adds) == if adds == [] then [] else [CallAdd(adds[0])];
    assert Calls([d]) == DeltaCalls(d) + Calls([]);
  }

  /** Main result for one delta that deletes and adds records of a type the zone holds: it
      leaves what it means if and only if it brings again every record it does not name,
      or, naming the whole apex NS set, brings every record it names. */
  lemma OneDeltaMeantExactly(
      live: Zone, notified: uint32, latest: uint32, gone: RRset, added: RRset, tree: nat -> set<Name>)
    requires LiveInv(live) && ApexSerial(live).Some? && IsPlain(gone.typ) && IsAt(gone.name, gone.typ, added)
    requires RRsetAt(live, gone.name, gone.typ).Some? && !(gone.typ == NS && IsWildCard(gone.name))
    requires Publishes(live, notified, latest, [Delta([gone], [added])], tree)
    ensures var (n, t) := (gone.name, gone.typ);
            var (was, named, brought) := (RecordsOf(live, n, t), RdataSet(gone.rdatas), RdataSet(added.rdatas));
            RecordsOf(PublishedBy(live, notified, latest, [Delta([gone], [added])], tree), n, t) ==
              was - named + brought <==>
            if n == live.origin && t == NS && was <= named then was <= brought else was - named <= brought
  {
    var (n, t) := (gone.name, gone.typ);
    var deltas := [Delta([gone], [added])];
    var after := [CallIncrease, CallAdd(added)];
    var s := RecordsAt(live, n);
    OneDeltaCalls(gone, [added]);
    assert Calls(deltas) == [] + [CallDelete(gone)] + after;
    IxfrMeantExactly(live, notified, latest, deltas, tree, n, t, [], gone, after);
    MeantByOne(n, t, RecordsOf(live, n, t), gone, added);
    HeldGoes(live, gone, added);
    BroughtByOne(live.origin, n, t, NameStep(live.origin, n, s, CallDelete(gone)), added);
  }

  lemma MeantByOne(n: Name, t: RRType, was: set<Rdata>, gone: RRset, added: RRset)
    requires IsAt(n, t, gone) && IsAt(n, t, added)
    ensures Meant(n, t, was, [Delta([gone], [added])]) == was - RdataSet(gone.rdatas) + RdataSet(added.rdatas)
  {
    var d := Delta([gone], [added]);
    assert [d][1..] == [] && [gone][1..] == [] && [added][1..] == [];
    assert Named(n, t, [gone]) == RdataSet(gone.rdatas) + Named(n, t, []);
    assert Named(n, t, [added]) == RdataSet(added.rdatas) + Named(n, t, []);
    assert Meant(n, t, was, [d]) == Meant(n, t, was - RdataSet(gone.rdatas) + RdataSet(added.rdatas), []);
  }

  lemma HeldGoes(live: Zone, gone: RRset, added: RRset)
    requires ZoneInv(live) && IsPlain(gone.typ) && IsAt(gone.name, gone.typ, added)
    requires Holds(live, gone.name, gone.typ) && !(gone.typ == NS && IsWildCard(gone.name))
    ensures Goes(live.origin, gone.name,
                 NameStep(live.origin, gone.name, RecordsAt(live, gone.name), CallDelete(gone)), added)
  {
    assert NodeInv(live.origin, gone.name, live.nodes[gone.name]);
  }

  lemma BroughtByOne(origin: Name, n: Name, t: RRType, s: Records, added: RRset)
    requires IsAt(n, t, added) && Goes(origin, n, s, added)
    ensures var after := [CallIncrease, CallAdd(added)];
            && NoDeletes(n, t, after)
            && Brought(n, t, after) == RdataSet(added.rdatas) == Accepted(origin, n, t, s, after)
  {
    assert [CallIncrease, CallAdd(added)][..1] == [CallIncrease];
    IncreaseBringsNothing(origin, n, t, s);
  }

  lemma IncreaseBringsNothing(origin: Name, n: Name, t: RRType, s: Records)
    ensures NameRun(origin, n, s, [CallIncrease]) == s
    ensures Brought(n, t, [CallIncrease]) == {} == Accepted(origin, n, t, s, [CallIncrease])
  {
    assert [CallIncrease][..0] == [];
  }

  /** A delete of one record publishes a zone without any record of its type. */
  lemma PartialDeleteDropsType(live: Zone, notified: uint32, latest: uint32, rr: RRset, tree: nat -> set<Name>)
    requires LiveInv(live) && Serial(live).Some? && NsOf(live).Records?
    requires rr.typ != SOA && rr.typ != NS && Holds(live, rr.name, rr.typ)
    ensures Publishes(live, notified, latest, [Delta([rr], [])], tree)
    ensures !Holds(PublishedBy(live, notified, latest, [Delta([rr], [])], tree), rr.name, rr.typ)
  {
    var deltas := [Delta([rr], [])];
    var calls := [CallDelete(rr), CallIncrease];
    OneDeltaCalls(rr, []);
    assert calls[..1] == [CallDelete(rr)] && calls[..1][..0] == [];
    assert NsRun(live.origin, NsOf(live), calls[..1]) == Some(NsOf(live));
    assert NsRun(live.origin, NsOf(live), calls) == Some(NsOf(live));
    IxfrPublishesDeltas(live, notified, latest, deltas, tree);
    PublishedReads(live, notified, latest, deltas, tree, rr.name);
    var s := RecordsAt(live, rr.name);
    assert NameRun(live.origin, rr.name, s, calls[..1]) == s - {rr.typ};
    assert NameRun(live.origin, rr.name, s, calls) == s - {rr.typ};
    assert rr.typ !in RecordsAt(PublishedBy(live, notified, latest, deltas, tree), rr.name);
  }

  /** Replacing the whole apex NS set publishes the old records beside the new ones. */
  lemma WholeNSReplacementKeepsOld(
      live: Zone, notified: uint32, latest: uint32, gone: RRset, added: RRset, tree: nat -> set<Name>)
    requires LiveInv(live) && Serial(live).Some? && NsOf(live).Records?
    requires IsAt(live.origin, NS, gone) && IsAt(live.origin, NS, added)
    requires RecordsOf(live, live.origin, NS) <= RdataSet(gone.rdatas)
    ensures Publishes(live, notified, latest, [Delta([gone], [added])], tree)
    ensures RecordsOf(live, live.origin, NS) <=
            RecordsOf(PublishedBy(live, notified, latest, [Delta([gone], [added])], tree), live.origin, NS)
  {
    var deltas := [Delta([gone], [added])];
    var calls := [CallDelete(gone), CallIncrease, CallAdd(added)];
    OneDeltaCalls(gone, [added]);
    assert Calls(deltas) == calls;
    WholeNSRun(live, gone, added);
    IxfrPublishesDeltas(live, notified, latest, deltas, tree);
    PublishedReads(live, notified, latest, deltas, tree, live.origin);
  }

  lemma WholeNSRun(live: Zone, gone: RRset, added: RRset)
    requires NsOf(live).Records? && IsAt(live.origin, NS, gone) && IsAt(live.origin, NS, added)
    requires RecordsOf(live, live.origin, NS) <= RdataSet(gone.rdatas)
    ensures var calls := [CallDelete(gone), CallIncrease, CallAdd(added)];
            var s := RecordsAt(live, live.origin);
            && NsRun(live.origin, NsOf(live), calls).Some?
            && NsRun(live.origin, NsOf(live), calls).value.Records?
            && Of(s, NS) <= Of(NameRun(live.origin, live.origin, s, calls), NS)
  {
    var (o, ns, s) := (live.origin, NsOf(live), RecordsAt(live, live.origin));
    var calls := [CallDelete(gone), CallIncrease, CallAdd(added)];
    assert calls[..2] == [CallDelete(gone), CallIncrease] && calls[..2][..1] == [CallDelete(gone)];
    assert calls[..2][..1][..0] == [];
    NothingLeft(ns.rdatas, gone.rdatas);
    assert NsRun(o, ns, calls[..2][..1]) == Some(ns) && NsRun(o, ns, calls[..2]) == Some(ns);
    assert IsRefused(o, o, s, gone);
    assert NameRun(o, o, s, calls[..2][..1]) == s && NameRun(o, o, s, calls[..2]) == s;
  }
}
