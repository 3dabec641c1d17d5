/** What an accepted AXFR leaves live: it adds the answer to a copy of the live zone, so
    whatever the answer lacks survives.  When the result is the answered zone after all. */
module AxfrZones {
  import opened Dns
  import opened Runs
  import opened ZoneModel
  import opened ZoneInvariants
  import opened ZoneEffects
  import opened ZoneTransactions
  import opened XfrMachines
  import opened XfrZones

  function AddOps(rrs: seq<RRset>, tree: nat -> set<Name>): (ops: seq<Op>)
    ensures |ops| == |rrs| && forall i | 0 <= i < |rrs| :: ops[i] == Op.Add(rrs[i], tree(i))
  {
    seq(|rrs|, i requires 0 <= i < |rrs| => Op.Add(rrs[i], tree(i)))
  }

  /** An AXFR from Begin to Commit, RollBack or panic. */
  function AxfrEnd(live: Zone, notified: uint32, answers: seq<RRset>, tree: nat -> set<Name>): (Zone, XfrEnd) {
    var (added, ok) := RunAxfr(notified, answers);
    Conclude(Perform(OpenOn(live), AddOps(added, tree)), ok)
  }

  // ----- adds only grow a zone

  predicate Within(some: seq<Rdata>, all: seq<Rdata>) {
    forall r | r in some :: r in all
  }

  /** An entry only gains: records of a plain type, or a newer SOA. */
  ghost predicate GrewAt(z: Zone, z': Zone, n: Name, t: RRType) {
    && (Holds(z, n, t) ==> Holds(z', n, t))
    && (RRsetAt(z, n, t).Some? ==>
          && RRsetAt(z', n, t).Some?
          && var (was, now) := (RRsetAt(z, n, t).value, RRsetAt(z', n, t).value);
             && (IsPlain(t) ==> Within(was.rdatas, now.rdatas))
             && (t == SOA ==> now == was || IsNewer(was, now)))
  }

  predicate IsNewer(was: RRset, now: RRset) {
    match (FirstSerial(was.rdatas), FirstSerial(now.rdatas))
    case (Some(a), Some(b)) => a < b
    case _ => false
  }

  lemma AddGrows(z: Zone, rr: RRset, split: set<Name>, n: Name, t: RRType)
    ensures GrewAt(z, AddRRset(z, rr, split).0, n, t)
  {
    AddElsewhere(z, rr, split);
    assert !(n == rr.name && t == rr.typ) ==> SameAt(z, AddRRset(z, rr, split).0, n, t);
    if AddRRset(z, rr, split).1 == Done {
      AddStores(z, rr, split);
    } else {
      assert SameAt(z, AddRRset(z, rr, split).0, n, t);
    }
  }

  lemma GrewBoth(z: Zone, z1: Zone, z2: Zone, n: Name, t: RRType)
    requires GrewAt(z, z1, n, t) && GrewAt(z1, z2, n, t)
    ensures GrewAt(z, z2, n, t)
  {
    if RRsetAt(z, n, t).Some? && IsPlain(t) {
      assert Within(RRsetAt(z, n, t).value.rdatas, RRsetAt(z1, n, t).value.rdatas);
      assert Within(RRsetAt(z1, n, t).value.rdatas, RRsetAt(z2, n, t).value.rdatas);
    }
  }

  /** Every entry of the live zone survives an AXFR, whether the answer has it or not. */
  lemma AddsGrow(z: Zone, ops: seq<Op>, n: Name, t: RRType)
    requires forall op | op in ops :: op.Add?
    ensures GrewAt(z, ApplyAll(z, ops), n, t)
  {
    forall z', op | GrewAt(z, z', n, t) && op in ops ensures GrewAt(z, ApplyStep(z', op), n, t) {
      AddGrows(z', op.rr, op.split, n, t);
      GrewBoth(z, z', ApplyStep(z', op), n, t);
    }
    RunKeeps(ApplyStep, z' => GrewAt(z, z', n, t), z, ops);
  }

  // ----- the answered zone

  /** The same records: equal SOA and CNAME, equal TTL and record set otherwise. */
  ghost predicate SameRecords(a: Option<RRset>, b: Option<RRset>, t: RRType) {
    match (a, b)
    case (Some(x), Some(y)) =>
      if IsPlain(t) then x.ttl == y.ttl && forall r :: r in x.rdatas <==> r in y.rdatas else x == y
    case (None, None) => true
    case _ => false
  }

  ghost predicate SameZone(z: Zone, z': Zone) {
    forall n, t :: SameEntry(z, z', n, t)
  }

  ghost predicate SameEntry(z: Zone, z': Zone, n: Name, t: RRType) {
    (Holds(z, n, t) <==> Holds(z', n, t)) && SameRecords(RRsetAt(z, n, t), RRsetAt(z', n, t), t)
  }

  /** The answered zone has this entry of the live zone, with all its records; an SOA it
      has in a newer version, or the very same. */
  ghost predicate CoveredAt(live: Zone, answered: Zone, n: Name, t: RRType) {
    && (Holds(live, n, t) ==> Holds(answered, n, t))
    && (RRsetAt(live, n, t).Some? && RRsetAt(answered, n, t).Some? ==>
          var (was, now) := (RRsetAt(live, n, t).value, RRsetAt(answered, n, t).value);
          && (IsPlain(t) ==> Within(was.rdatas, now.rdatas))
          && (t == SOA ==> was == now || IsNewer(was, now)))
  }

  ghost predicate Covered(live: Zone, answered: Zone) {
    forall n, t :: CoveredAt(live, answered, n, t)
  }

  /** a is live with b added to it, entry by entry. */
  ghost predicate UnionAt(live: Zone, a: Zone, b: Zone, n: Name, t: RRType) {
    && (Holds(a, n, t) <==> Holds(live, n, t) || Holds(b, n, t))
    && (!Holds(b, n, t) ==> RRsetAt(a, n, t) == RRsetAt(live, n, t))
    && (Holds(b, n, t) ==>
          && RRsetAt(a, n, t).Some? && RRsetAt(b, n, t).Some?
          && IsUnion(RRsetAt(live, n, t), RRsetAt(a, n, t).value, RRsetAt(b, n, t).value, t))
  }

  ghost predicate IsUnion(was: Option<RRset>, x: RRset, y: RRset, t: RRType) {
    if t == CNAME then x == y
    else if t == SOA then
      FirstSerial(y.rdatas).Some? && x == if was.Some? && !IsNewer(was.value, y) then was.value else y
    else
      && x.ttl == y.ttl
      && forall r :: r in x.rdatas <==> r in y.rdatas || (was.Some? && r in was.value.rdatas)
  }

  ghost predicate IsUnionZone(live: Zone, a: Zone, b: Zone) {
    forall n, t :: UnionAt(live, a, b, n, t)
  }

  /** Neither zone holds a CNAME where the other holds something else. */
  ghost predicate Compatible(live: Zone, b: Zone) {
    forall n, t, u | Holds(live, n, t) && Holds(b, n, u) :: t == CNAME <==> u == CNAME
  }

  lemma CoveredCompatible(live: Zone, answered: Zone)
    requires ZoneInv(answered) && Covered(live, answered)
    ensures Compatible(live, answered)
  {
    forall n, t, u | Holds(live, n, t) && Holds(answered, n, u) ensures t == CNAME <==> u == CNAME {
      assert CoveredAt(live, answered, n, t);
      assert NodeInv(answered.origin, n, answered.nodes[n]);
    }
  }

  lemma DataHolds(z: Zone, n: Name)
    requires ZoneInv(z)
    ensures HasData(z.nodes, n) <==> exists t :: Holds(z, n, t)
  {
    if HasData(z.nodes, n) {
      assert NodeInv(z.origin, n, z.nodes[n]);
      var d := z.nodes[n].data.value;
      var t :| t in d;
      assert Holds(z, n, t);
    }
  }

  lemma PanicHolds(z: Zone, rr: RRset, split: set<Name>)
    ensures AddRRset(z, rr, split).1 == Panicked ==> Holds(z, rr.name, rr.typ)
  {
  }

  lemma AddedHolds(z: Zone, rr: RRset, split: set<Name>)
    requires ZoneInv(z) && CheckAddable(z, rr) == Done && AddRRset(z, rr, split).1 != Refused(CNameCoExists)
    ensures Holds(AddRRset(z, rr, split).0, rr.name, rr.typ)
  {
    PanicHolds(z, rr, split);
    AddRefusesExactly(z, rr, split);
    AddElsewhere(z, rr, split);
    if AddRRset(z, rr, split).1 == Done {
      AddStores(z, rr, split);
    } else {
      assert SameAt(z, AddRRset(z, rr, split).0, rr.name, rr.typ);
    }
  }

  /** A CNAME conflict refuses the record in both zones or in neither. */
  lemma SameConflict(live: Zone, a: Zone, b: Zone, rr: RRset, split: set<Name>)
    requires ZoneInv(a) && ZoneInv(b) && a.origin == b.origin && IsUnionZone(live, a, b)
    requires Compatible(live, AddRRset(b, rr, split).0)
    ensures AddRRset(a, rr, split).1 == Refused(CNameCoExists) <==> AddRRset(b, rr, split).1 == Refused(CNameCoExists)
  {
    AddRefusesExactly(a, rr, split);
    AddRefusesExactly(b, rr, split);
    DataHolds(a, rr.name);
    DataHolds(b, rr.name);
    assert forall t :: UnionAt(live, a, b, rr.name, t);
    var b' := AddRRset(b, rr, split).0;
    forall t | Holds(b, rr.name, t) ensures Holds(b', rr.name, t) {
      AddGrows(b, rr, split, rr.name, t);
    }
    var n := rr.name;
    if CheckAddable(b, rr) == Done && AddRRset(b, rr, split).1 != Refused(CNameCoExists) {
      AddedHolds(b, rr, split);
      forall t | Holds(live, n, t) ensures t == CNAME <==> rr.typ == CNAME {
        assert Holds(b', n, rr.typ);
      }
      assert UnionAt(live, a, b, n, CNAME);
      if HasData(a.nodes, n) {
        var t :| Holds(a, n, t);
        assert UnionAt(live, a, b, n, t);
      }
    } else if HasData(b.nodes, n) {
      var t :| Holds(b, n, t);
      assert Holds(live, n, CNAME) && Holds(b', n, t) ==> t == CNAME;
      assert NodeInv(b.origin, n, b.nodes[n]);
      assert UnionAt(live, a, b, n, t) && UnionAt(live, a, b, n, CNAME) && Holds(a, n, t);
    }
  }

  /** The entry an add is about, in both zones. */
  lemma UnionHere(live: Zone, a: Zone, b: Zone, rr: RRset, split: set<Name>)
    requires ZoneInv(a) && ZoneInv(b) && a.origin == b.origin && UnionAt(live, a, b, rr.name, rr.typ)
    requires AddRRset(a, rr, split).1 == Refused(CNameCoExists) <==> AddRRset(b, rr, split).1 == Refused(CNameCoExists)
    requires AddRRset(a, rr, split).1 != Panicked && (rr.typ == SOA ==> FirstSerial(rr.rdatas).Some?)
    ensures UnionAt(live, AddRRset(a, rr, split).0, AddRRset(b, rr, split).0, rr.name, rr.typ)
  {
    AddElsewhere(a, rr, split);
    AddElsewhere(b, rr, split);
    AddRefusesExactly(a, rr, split);
    AddRefusesExactly(b, rr, split);
    NoPanic(b, rr, split);
    var (oa, ob) := (AddRRset(a, rr, split).1, AddRRset(b, rr, split).1);
    if oa != Done {
      assert SameAt(a, AddRRset(a, rr, split).0, rr.name, rr.typ);
    } else {
      AddStores(a, rr, split);
    }
    if ob != Done {
      assert SameAt(b, AddRRset(b, rr, split).0, rr.name, rr.typ);
    } else {
      AddStores(b, rr, split);
    }
  }

  lemma NoPanic(z: Zone, rr: RRset, split: set<Name>)
    requires Holds(z, rr.name, rr.typ) ==> RRsetAt(z, rr.name, rr.typ).Some?
    requires rr.typ == SOA ==> FirstSerial(rr.rdatas).Some?
    requires rr.typ == SOA && Holds(z, rr.name, SOA) ==> FirstSerial(RRsetAt(z, rr.name, SOA).value.rdatas).Some?
    ensures AddRRset(z, rr, split).1 != Panicked
  {
  }

  lemma UnionStep(live: Zone, a: Zone, b: Zone, rr: RRset, split: set<Name>)
    requires ZoneInv(a) && ZoneInv(b) && a.origin == b.origin && IsUnionZone(live, a, b)
    requires Compatible(live, AddRRset(b, rr, split).0)
    requires AddRRset(a, rr, split).1 != Panicked && (rr.typ == SOA ==> FirstSerial(rr.rdatas).Some?)
    ensures IsUnionZone(live, AddRRset(a, rr, split).0, AddRRset(b, rr, split).0)
  {
    var (a', b') := (AddRRset(a, rr, split).0, AddRRset(b, rr, split).0);
    SameConflict(live, a, b, rr, split);
    assert UnionAt(live, a, b, rr.name, rr.typ);
    UnionHere(live, a, b, rr, split);
    AddElsewhere(a, rr, split);
    AddElsewhere(b, rr, split);
    forall n, t | !(n == rr.name && t == rr.typ) ensures UnionAt(live, a', b', n, t) {
      assert UnionAt(live, a, b, n, t) && SameAt(a, a', n, t) && SameAt(b, b', n, t);
    }
  }

  // ----- the whole run

  lemma {:induction false} EntriesStay(z: Zone, ops: seq<Op>, k: nat)
    requires k <= |ops| && forall op | op in ops :: op.Add?
    ensures forall n, t :: Holds(ApplyAll(z, ops[..k]), n, t) ==> Holds(ApplyAll(z, ops), n, t)
  {
    var mid := ApplyAll(z, ops[..k]);
    assert ops == ops[..k] + ops[k..];
    RunAppend(ApplyStep, z, ops[..k], ops[k..]);
    forall n, t ensures Holds(mid, n, t) ==> Holds(ApplyAll(z, ops), n, t) {
      AddsGrow(mid, ops[k..], n, t);
    }
  }

  ghost predicate SoasHaveSerials(ops: seq<Op>) {
    forall op | op in ops :: op.Add? && (op.rr.typ == SOA ==> FirstSerial(op.rr.rdatas).Some?)
  }

  lemma {:induction false} UnionRun(live: Zone, ops: seq<Op>)
    requires ZoneInv(live) && SoasHaveSerials(ops) && !Perform(OpenOn(live), ops).stopped
    requires Compatible(live, ApplyAll(NewZone(live.origin), ops))
    ensures IsUnionZone(live, ApplyAll(live, ops), ApplyAll(NewZone(live.origin), ops))
    decreases |ops|
  {
    var blank := NewZone(live.origin);
    if ops != [] {
      var n := |ops| - 1;
      EntriesStay(blank, ops, n);
      PrefixRun(live, ops);
      UnionRun(live, ops[..n]);
      NewZoneInv(live.origin);
      OpsKeep(live, ops[..n]);
      OpsKeep(blank, ops[..n]);
      assert ops[n] in ops;
      UnionStep(live, ApplyAll(live, ops[..n]), ApplyAll(blank, ops[..n]), ops[n].rr, ops[n].split);
    }
  }

  lemma UnionIsSame(live: Zone, a: Zone, b: Zone)
    requires IsUnionZone(live, a, b) && Covered(live, b)
    ensures SameZone(a, b)
  {
    forall n, t ensures SameEntry(a, b, n, t) {
      assert UnionAt(live, a, b, n, t) && CoveredAt(live, b, n, t);
    }
  }

  lemma SameIsCovered(live: Zone, a: Zone, b: Zone, n: Name, t: RRType)
    requires GrewAt(live, a, n, t) && SameEntry(a, b, n, t)
    ensures CoveredAt(live, b, n, t)
  {
    if RRsetAt(live, n, t).Some? && IsPlain(t) {
      assert Within(RRsetAt(live, n, t).value.rdatas, RRsetAt(a, n, t).value.rdatas);
    }
  }

  /** Main result: the zone after the adds of an AXFR is the zone the answer describes, the
      one those adds build from nothing, if and only if the answer covers the live zone:
      every entry, every record, and a newer SOA or the same. */
  lemma AxfrReplacesExactly(live: Zone, added: seq<RRset>, tree: nat -> set<Name>)
    requires ZoneInv(live) && !Perform(OpenOn(live), AddOps(added, tree)).stopped
    requires forall rr | rr in added && rr.typ == SOA :: FirstSerial(rr.rdatas).Some?
    ensures var ops := AddOps(added, tree);
            var answered := ApplyAll(NewZone(live.origin), ops);
            SameZone(ApplyAll(live, ops), answered) <==> Covered(live, answered)
  {
    var ops := AddOps(added, tree);
    var (target, answered) := (ApplyAll(live, ops), ApplyAll(NewZone(live.origin), ops));
    assert SoasHaveSerials(ops);
    NewZoneInv(live.origin);
    OpsKeep(NewZone(live.origin), ops);
    if Covered(live, answered) {
      CoveredCompatible(live, answered);
      UnionRun(live, ops);
      UnionIsSame(live, target, answered);
    }
    if SameZone(target, answered) {
      forall n, t ensures CoveredAt(live, answered, n, t) {
        AddsGrow(live, ops, n, t);
        assert SameEntry(target, answered, n, t);
        SameIsCovered(live, target, answered, n, t);
      }
    }
  }

  // ----- an AXFR end to end

  lemma {:induction false} AddedSOAs(s: AxfrState, latest: uint32, answers: seq<RRset>, opens: bool)
    ensures forall rr | rr in AxfrRest(s, latest, answers, opens).0 && rr.typ == SOA :: FirstSerial(rr.rdatas).Some?
    decreases |answers|
  {
    if answers != [] {
      match AxfrStep(s, latest, answers[0], opens || |answers| == 1)
      case None =>
      case Some((next, _)) => AddedSOAs(next, latest, answers[1..], false);
    }
  }

  /** Every SOA in the zone has a serial to compare. */
  ghost predicate SerialsThere(z: Zone) {
    forall n :: RRsetAt(z, n, SOA).Some? ==> FirstSerial(RRsetAt(z, n, SOA).value.rdatas).Some?
  }

  ghost predicate Steady(live: Zone, z: Zone) {
    ZoneInv(z) && z.origin == live.origin && SerialsThere(z) && (NsOf(z) == NilEntry <==> NsOf(live) == NilEntry)
  }

  lemma AddSteady(live: Zone, z: Zone, rr: RRset, split: set<Name>)
    requires Steady(live, z) && (rr.typ == SOA ==> FirstSerial(rr.rdatas).Some?)
    ensures AddRRset(z, rr, split).1 == Panicked <==> CrashesAxfr(live, rr)
    ensures Steady(live, AddRRset(z, rr, split).0)
  {
    var z' := AddRRset(z, rr, split).0;
    ApplyKeeps(z, Op.Add(rr, split));
    AddElsewhere(z, rr, split);
    if AddRRset(z, rr, split).1 == Done {
      AddStores(z, rr, split);
    }
    forall n ensures RRsetAt(z', n, SOA).Some? ==> FirstSerial(RRsetAt(z', n, SOA).value.rdatas).Some? {
      assert !(n == rr.name && rr.typ == SOA) || AddRRset(z, rr, split).1 != Done ==> SameAt(z, z', n, SOA);
    }
    assert !TouchesApexNS(z.origin, rr) || AddRRset(z, rr, split).1 != Done ==> SameAt(z, z', z.origin, NS);
    if rr.typ == SOA {
      SOADoesNotPanic(z, rr, split);
    } else {
      AddPanics(z, rr, split);
    }
  }

  lemma SOADoesNotPanic(z: Zone, rr: RRset, split: set<Name>)
    requires SerialsThere(z) && rr.typ == SOA && FirstSerial(rr.rdatas).Some?
    ensures AddRRset(z, rr, split).1 != Panicked
  {
    assert RRsetAt(z, rr.name, SOA).Some? ==> FirstSerial(RRsetAt(z, rr.name, SOA).value.rdatas).Some?;
  }

  /** An apex NS record for a zone whose apex NS entry is nil. */
  predicate CrashesAxfr(live: Zone, rr: RRset) {
    NsOf(live) == NilEntry && TouchesApexNS(live.origin, rr) && !IsWildCard(live.origin)
  }

  /** An AXFR panics if and only if it brings an apex NS record to a nil apex NS entry; it
      never touches the live zone before Commit. */
  lemma {:induction false} AxfrCrashesExactly(live: Zone, added: seq<RRset>, tree: nat -> set<Name>)
    requires ZoneInv(live) && SerialsThere(live)
    requires forall rr | rr in added && rr.typ == SOA :: FirstSerial(rr.rdatas).Some?
    ensures var a := Perform(OpenOn(live), AddOps(added, tree));
            && (a.stopped <==> exists rr :: rr in added && CrashesAxfr(live, rr))
            && a.state.live == live && Steady(live, a.state.tx.tmp)
    decreases |added|
  {
    if added != [] {
      var n := |added| - 1;
      assert AddOps(added, tree)[..n] == AddOps(added[..n], tree);
      AxfrCrashesExactly(live, added[..n], tree);
      var a := Perform(OpenOn(live), AddOps(added[..n], tree));
      assert added == added[..n] + [added[n]];
      AddSteady(live, a.state.tx.tmp, added[n], tree(n));
      OpenAdd(a.state, added[n], tree(n));
    }
  }

  lemma OpenAdd(o: OpenTx, rr: RRset, split: set<Name>)
    ensures OpenStep(o, Op.Add(rr, split)).live == o.live
    ensures OpenStep(o, Op.Add(rr, split)).tx.tmp == AddRRset(o.tx.tmp, rr, split).0
  {
  }

  /** Main result: an AXFR end to end.  Unless it panics, a refused answer leaves the live
      zone as it was, and an accepted one publishes the live zone with the answer added,
      or changes nothing if that lacks an apex SOA or NS. */
  lemma AxfrEnds(live: Zone, notified: uint32, answers: seq<RRset>, tree: nat -> set<Name>)
    requires LiveInv(live) && SerialsThere(live)
    ensures var (added, ok) := RunAxfr(notified, answers);
            var target := ApplyAll(live, AddOps(added, tree));
            AxfrEnd(live, notified, answers, tree) ==
            if exists rr :: rr in added && CrashesAxfr(live, rr) then (live, XfrCrashed)
            else if !ok then (live, RolledBack)
            else
              match Validate(target)
              case Refused(e) => (live, CommitFailed(e))
              case _ => (target, Committed)
  {
    var (added, ok) := RunAxfr(notified, answers);
    AddedSOAs(AxfrInit, notified, answers, true);
    AxfrCrashesExactly(live, added, tree);
    if !Perform(OpenOn(live), AddOps(added, tree)).stopped {
      PerformedAll(live, AddOps(added, tree));
    }
  }
}
