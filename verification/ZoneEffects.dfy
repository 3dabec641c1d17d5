/** What adds and deletes do to the contents of a zone, record by record: what is stored,
    when they refuse, what they leave alone, and how one undoes the other. */
module ZoneEffects {
  import opened Dns
  import opened ZoneModel

  /** The same entry is filed under a name and type. */
  predicate SameAt(z: Zone, z': Zone, n: Name, t: RRType) {
    (Holds(z', n, t) <==> Holds(z, n, t)) && RRsetAt(z', n, t) == RRsetAt(z, n, t)
  }

  ghost predicate SameContents(z: Zone, z': Zone) {
    forall n, t :: SameAt(z, z', n, t)
  }

  ghost predicate SameElsewhere(z: Zone, z': Zone, name: Name, typ: RRType) {
    forall n, t | !(n == name && t == typ) :: SameAt(z, z', n, t)
  }

  /** Types whose RRsets gather records; a CNAME or SOA is replaced. */
  predicate IsPlain(t: RRType) {
    t != SOA && t != CNAME
  }

  // ----- adding

  lemma AddFrame(z: Zone, rr: RRset, split: set<Name>, n: Name, t: RRType)
    requires !(n == rr.name && t == rr.typ)
    ensures SameAt(z, AddRRset(z, rr, split).0, n, t)
  {
  }

  /** An add touches nothing but its own name and type, and nothing at all if refused. */
  lemma AddElsewhere(z: Zone, rr: RRset, split: set<Name>)
    ensures SameElsewhere(z, AddRRset(z, rr, split).0, rr.name, rr.typ)
    ensures AddRRset(z, rr, split).1 != Done ==> SameContents(z, AddRRset(z, rr, split).0)
  {
    forall n, t | !(n == rr.name && t == rr.typ) ensures SameAt(z, AddRRset(z, rr, split).0, n, t) {
      AddFrame(z, rr, split, n, t);
    }
  }

  /** What a successful add stores: the old and new records with the new TTL; a CNAME or
      the first RRset of its type as given; an SOA only over a smaller serial. */
  lemma AddStores(z: Zone, rr: RRset, split: set<Name>)
    requires AddRRset(z, rr, split).1 == Done
    ensures var was := RRsetAt(z, rr.name, rr.typ);
            var now := RRsetAt(AddRRset(z, rr, split).0, rr.name, rr.typ);
            && Holds(AddRRset(z, rr, split).0, rr.name, rr.typ)
            && (was.None? || rr.typ == CNAME ==> now == Some(rr))
            && (was.Some? && rr.typ == SOA ==>
                  var (a, b) := (FirstSerial(was.value.rdatas), FirstSerial(rr.rdatas));
                  a.Some? && b.Some? && now == if a.value < b.value then Some(rr) else was)
            && (was.Some? && rr.typ != SOA && rr.typ != CNAME ==>
                  && now.Some? && now.value == was.value.(ttl := rr.ttl, rdatas := now.value.rdatas)
                  && was.value.rdatas <= now.value.rdatas
                  && forall r :: r in now.value.rdatas <==> r in was.value.rdatas || r in rr.rdatas)
  {
    var was := RRsetAt(z, rr.name, rr.typ);
    if was.Some? && rr.typ != SOA && rr.typ != CNAME {
      forall r ensures r in MergeRdatas(was.value.rdatas, rr.rdatas) <==> r in was.value.rdatas || r in rr.rdatas {
        MergeRdatasMember(was.value.rdatas, rr.rdatas, r);
      }
      MergeRdatasMember(was.value.rdatas, rr.rdatas, OpaqueData(""));
    }
  }

  lemma {:induction false} MergedNothing(was: seq<Rdata>, more: seq<Rdata>)
    ensures |MergeRdatas(was, more)| == |was| <==> forall r | r in more :: r in was
    decreases |more|
  {
    if more != [] {
      var next := if more[0] in was then was else was + [more[0]];
      MergedNothing(next, more[1..]);
      MergeRdatasMember(next, more[1..], more[0]);
      assert more == [more[0]] + more[1..];
    }
  }

  /** When an add refuses, and with what: each refusal has exactly one cause. */
  lemma AddRefusesExactly(z: Zone, rr: RRset, split: set<Name>)
    requires ZoneInv(z)
    ensures var o := AddRRset(z, rr, split).1;
            var free := CheckAddable(z, rr) == Done;
            var was := RRsetAt(z, rr.name, rr.typ);
            && (o == Refused(NoEffectiveUpdate) <==> rr.typ == NS && IsWildCard(rr.name))
            && (o == Refused(OutOfZone) <==> !(rr.typ == NS && IsWildCard(rr.name)) && !IsSubDomain(rr.name, z.origin))
            && (o == Refused(CNameCoExists) <==>
                  free && HasData(z.nodes, rr.name) && (rr.typ == CNAME <==> !Holds(z, rr.name, CNAME)))
            && (o == Refused(DuplicateRdata) <==>
                  && free && rr.typ != SOA && rr.typ != CNAME && was.Some?
                  && rr.ttl == was.value.ttl && forall r | r in rr.rdatas :: r in was.value.rdatas)
  {
    var was := RRsetAt(z, rr.name, rr.typ);
    if HasData(z.nodes, rr.name) {
      assert NodeInv(z.origin, rr.name, z.nodes[rr.name]);
    }
    if was.Some? {
      MergedNothing(was.value.rdatas, rr.rdatas);
    }
  }

  // ----- deleting

  lemma EraseTypeSame(z: Zone, name: Name, typ: RRType, drop: set<Name>, n: Name, t: RRType)
    requires Holds(z, name, typ) && !(n == name && t == typ)
    ensures SameAt(z, EraseType(z, name, typ, drop), n, t)
  {
    var left := z.nodes[name].data.value - {typ};
    if left == map[] {
      if n == name {
        EmptiedSame(z, name, typ, drop, t);
      } else {
        PrunedSame(z, name, drop, n, t);
      }
    } else if n == name {
      assert t in left <==> t in z.nodes[name].data.value;
    }
  }

  lemma EmptiedSame(z: Zone, name: Name, typ: RRType, drop: set<Name>, t: RRType)
    requires Holds(z, name, typ) && t != typ && z.nodes[name].data.value - {typ} == map[]
    ensures !Holds(z, name, t) && !Holds(DeleteNode(z, name, drop), name, t)
  {
    assert t !in z.nodes[name].data.value - {typ};
  }

  lemma EraseTypeElsewhere(z: Zone, name: Name, typ: RRType, drop: set<Name>)
    requires Holds(z, name, typ)
    ensures !Holds(EraseType(z, name, typ, drop), name, typ)
    ensures SameElsewhere(z, EraseType(z, name, typ, drop), name, typ)
  {
    forall n, t | !(n == name && t == typ) ensures SameAt(z, EraseType(z, name, typ, drop), n, t) {
      EraseTypeSame(z, name, typ, drop, n, t);
    }
  }

  /** Deleting a type takes away exactly that entry, whatever rdatas came with it. */
  lemma DeleteRRsetEffect(z: Zone, rr: RRset, drop: set<Name>)
    ensures var (z', o) := EraseRRset(z, rr, drop);
            && SameElsewhere(z, z', rr.name, rr.typ)
            && (o == Done ==> Holds(z, rr.name, rr.typ) && !Holds(z', rr.name, rr.typ))
            && (o != Done ==> z' == z)
  {
    if Holds(z, rr.name, rr.typ) {
      EraseTypeElsewhere(z, rr.name, rr.typ, drop);
    }
  }

  /** A delete at the apex that must not pass: it names every record of the NS set. */
  ghost predicate NamesWholeNS(z: Zone, rr: RRset) {
    && rr.name == z.origin && rr.typ == NS && RRsetAt(z, z.origin, NS).Some?
    && forall r | r in RRsetAt(z, z.origin, NS).value.rdatas :: r in rr.rdatas
  }

  ghost predicate MeetsNilNS(z: Zone, rr: RRset) {
    rr.name == z.origin && rr.typ == NS && RRsetAt(z, z.origin, NS).None?
  }

  lemma {:induction false} NothingLeftOver(first: seq<Rdata>, second: seq<Rdata>)
    ensures RdatasDiff(first, second) == [] <==> forall r | r in first :: r in second
  {
    if first != [] {
      NothingLeftOver(first[1..], second);
      assert first == [first[0]] + first[1..];
    }
  }

  /** When a delete of a type or of records goes through, is refused, and panics: each
      outcome has exactly one cause. */
  ghost predicate DeleteOutcome(z: Zone, rr: RRset, o: Outcome) {
    var inZone := IsSubDomain(rr.name, z.origin);
    var apexSOA := rr.name == z.origin && rr.typ == SOA;
    && (o == Refused(OutOfZone) <==> !inZone)
    && (o == Refused(ShortOfSOA) <==> inZone && apexSOA)
    && (o == Panicked <==> inZone && MeetsNilNS(z, rr))
    && (o == Refused(ShortOfNS) <==> inZone && NamesWholeNS(z, rr))
    && (o == Refused(UnknownRRset) <==>
          inZone && !apexSOA && !MeetsNilNS(z, rr) && !NamesWholeNS(z, rr) && !Holds(z, rr.name, rr.typ))
    && (o == Done <==>
          inZone && !apexSOA && !MeetsNilNS(z, rr) && !NamesWholeNS(z, rr) && Holds(z, rr.name, rr.typ))
  }

  lemma DeleteRefusesExactly(z: Zone, rr: RRset, drop: set<Name>)
    requires ZoneInv(z)
    ensures DeleteOutcome(z, rr, EraseRRset(z, rr, drop).1)
    ensures DeleteOutcome(z, rr, EraseRr(z, rr, drop).1)
  {
    var ns := RRsetAt(z, z.origin, NS);
    if ns.Some? {
      NothingLeftOver(ns.value.rdatas, rr.rdatas);
    }
    if Holds(z, rr.name, rr.typ) {
      assert NodeInv(z.origin, rr.name, z.nodes[rr.name]);
      assert EntryInv(z.origin, rr.name, rr.typ, z.nodes[rr.name].data.value[rr.typ]);
    }
  }

  lemma DeleteDomainRefusesExactly(z: Zone, name: Name, drop: set<Name>)
    ensures var o := EraseDomain(z, name, drop).1;
            && (o == Refused(OutOfZone) <==> !IsSubDomain(name, z.origin))
            && (o == Refused(UnknownRRset) <==> IsSubDomain(name, z.origin) && !HasData(z.nodes, name))
            && (o == Done <==> IsSubDomain(name, z.origin) && HasData(z.nodes, name))
  {
  }

  /** Deleting records leaves exactly the others of the RRset, and no RRset without any. */
  lemma DeleteRrEffect(z: Zone, rr: RRset, drop: set<Name>)
    ensures var (z', o) := EraseRr(z, rr, drop);
            && SameElsewhere(z, z', rr.name, rr.typ)
            && (o != Done ==> z' == z)
            && (o == Done ==>
                  var (was, now) := (RRsetAt(z, rr.name, rr.typ), RRsetAt(z', rr.name, rr.typ));
                  && was.Some?
                  && (Holds(z', rr.name, rr.typ) <==> exists r :: r in was.value.rdatas && r !in rr.rdatas)
                  && (Holds(z', rr.name, rr.typ) ==>
                        && now.Some? && now.value == was.value.(rdatas := now.value.rdatas)
                        && forall r :: r in now.value.rdatas <==> r in was.value.rdatas && r !in rr.rdatas))
  {
    if EraseRr(z, rr, drop).1 == Done {
      EraseTypeElsewhere(z, rr.name, rr.typ, drop);
      var was := RRsetAt(z, rr.name, rr.typ).value;
      var left := RdatasDiff(was.rdatas, rr.rdatas);
      forall r ensures r in left <==> r in was.rdatas && r !in rr.rdatas {
        RdatasDiffMember(was.rdatas, rr.rdatas, r);
      }
      if left != [] {
        assert left[0] in was.rdatas && left[0] !in rr.rdatas;
      }
    }
  }

  lemma PrunedSame(z: Zone, name: Name, drop: set<Name>, n: Name, t: RRType)
    requires name in z.nodes && n != name
    ensures SameAt(z, DeleteNode(z, name, drop), n, t)
  {
  }

  /** Deleting a domain takes away all its types and no other name's; at the apex it
      leaves the SOA and NS entries as they were found. */
  lemma DeleteDomainEffect(z: Zone, name: Name, drop: set<Name>, n: Name, t: RRType)
    ensures var (z', o) := EraseDomain(z, name, drop);
            && (n != name ==> SameAt(z, z', n, t))
            && (o != Done ==> z' == z)
            && (o == Done && n == name ==>
                  if name == z.origin && (t == SOA || t == NS) then
                    Holds(z', n, t) && RRsetAt(z', n, t) == RRsetAt(z, n, t)
                  else !Holds(z', n, t))
  {
    if HasData(z.nodes, name) && n != name && name != z.origin {
      PrunedSame(z, name, drop, n, t);
    }
  }

  // ----- round trips

  /** Deleting what was just added under a new type restores the contents exactly. */
  lemma AddThenDelete(z: Zone, rr: RRset, split: set<Name>, drop: set<Name>)
    requires !Holds(z, rr.name, rr.typ) && AddRRset(z, rr, split).1 == Done
    requires rr.name != z.origin || (rr.typ != SOA && rr.typ != NS)
    ensures var added := AddRRset(z, rr, split).0;
            EraseRRset(added, rr, drop).1 == Done && SameContents(z, EraseRRset(added, rr, drop).0)
  {
    var added := AddRRset(z, rr, split).0;
    AddElsewhere(z, rr, split);
    AddStores(z, rr, split);
    DeleteRRsetEffect(added, rr, drop);
    var left := EraseRRset(added, rr, drop).0;
    forall n, t ensures SameAt(z, left, n, t) {
      if !(n == rr.name && t == rr.typ) {
        assert SameAt(z, added, n, t) && SameAt(added, left, n, t);
      }
    }
  }

  /** Deleting records and adding them again restores the set of records of their RRset,
      whether or not others were left in between. */
  lemma DeleteThenAdd(z: Zone, rr: RRset, drop: set<Name>, split: set<Name>, r: Rdata)
    requires Holds(z, rr.name, rr.typ) && EraseRr(z, rr, drop).1 == Done && rr.typ != SOA && rr.typ != CNAME
    requires forall x | x in rr.rdatas :: x in RRsetAt(z, rr.name, rr.typ).value.rdatas
    requires AddRRset(EraseRr(z, rr, drop).0, rr, split).1 == Done
    ensures var back := RRsetAt(AddRRset(EraseRr(z, rr, drop).0, rr, split).0, rr.name, rr.typ);
            back.Some? && (r in back.value.rdatas <==> r in RRsetAt(z, rr.name, rr.typ).value.rdatas)
  {
    var z' := EraseRr(z, rr, drop).0;
    DeleteRrEffect(z, rr, drop);
    AddStores(z', rr, split);
    var was := RRsetAt(z, rr.name, rr.typ).value;
    if !Holds(z', rr.name, rr.typ) && r in was.rdatas {
      assert r in rr.rdatas;
    }
  }
}
