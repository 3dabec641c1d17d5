/** Query processing over a live zone: the sections it fills, and why its "zone short
    of" panics cannot happen on any zone that ever goes live. */
module ZoneQueries {
  import opened Dns
  import opened Runs
  import opened ZoneModel
  import opened ZoneLookup
  import opened ZoneTransactions

  datatype Rcode = NOERROR | NXDOMAIN | SERVFAIL

  /** How `Process` ends: with a response, or in one of its panics. */
  datatype QueryEnd = Answered | PanicInFind | PanicShortOfNS | PanicShortOfSOA

  /** `DynamicZone.Find`: an empty zone answers SERVFAIL. */
  function LiveFind(live: Zone, name: Name, typ: RRType): FindResult {
    if IsEmptyZone(live) then ServFail else Find(live, name, typ, DefaultFind)
  }

  // ----- additional addresses

  /** The name in an NS, MX or SRV record. */
  type Targets = Rdata -> Name

  /** `getAdditioanlAddrs`: the addresses found for a name, glue included; None is a panic
      of the lookup.  A type AAAA is only taken from the node of the name itself. */
  function AddressesOf(z: Zone, name: Name): Option<seq<Option<RRset>>> {
    match Find(z, name, A, GlueOkFind)
    case Success(rr) => Some([rr] + Aaaa(z, name))
    case NXRRset => Some(Aaaa(z, name))
    case CutPanic => None
    case WildcardPanic => None
    case _ => Some([])
  }

  function Aaaa(z: Zone, name: Name): seq<Option<RRset>> {
    if Holds(z, name, AAAA) then [RRsetAt(z, name, AAAA)] else []
  }

  function AddressesOfAll(z: Zone, rdatas: seq<Rdata>, target: Targets): Option<seq<Option<RRset>>> {
    if rdatas == [] then Some([])
    else
      match (AddressesOfAll(z, rdatas[..|rdatas| - 1], target), AddressesOf(z, target(rdatas[|rdatas| - 1])))
      case (Some(before), Some(more)) => Some(before + more)
      case _ => None
  }

  predicate HasTargets(t: RRType) {
    t == NS || t == MX || t == SRV
  }

  /** `GetAdditional`. */
  function Additional(z: Zone, rr: Option<RRset>, target: Targets): Option<seq<Option<RRset>>> {
    if rr.Some? && HasTargets(rr.value.typ) then AddressesOfAll(z, rr.value.rdatas, target) else Some([])
  }

  /** An address RRset of the name. */
  predicate IsAddressOf(rr: Option<RRset>, name: Name) {
    rr.Some? && rr.value.name == name && (rr.value.typ == A || rr.value.typ == AAAA)
  }

  lemma AddressOwner(z: Zone, name: Name)
    requires ZoneInv(z) && AddressesOf(z, name).Some?
    ensures forall rr | rr in AddressesOf(z, name).value :: IsAddressOf(rr, name)
  {
    if Holds(z, name, A) {
      assert NodeInv(z.origin, name, z.nodes[name]);
      assert EntryInv(z.origin, name, A, z.nodes[name].data.value[A]);
    }
    if Holds(z, name, AAAA) {
      assert NodeInv(z.origin, name, z.nodes[name]);
      assert EntryInv(z.origin, name, AAAA, z.nodes[name].data.value[AAAA]);
    }
    FoundAddress(z, name);
  }

  lemma FoundAddress(z: Zone, name: Name)
    requires ZoneInv(z)
    ensures match Find(z, name, A, GlueOkFind)
            case Success(rr) => IsAddressOf(rr, name)
            case _ => true
  {
    var found := Find(z, name, A, GlueOkFind);
    if found.Success? {
      WalkGlueOk(z, name, |name|);
      if name in z.nodes {
        assert NodeInv(z.origin, name, z.nodes[name]);
        assert EntryInv(z.origin, name, A, z.nodes[name].data.value[A]);
      } else {
        var w := ClosestNode(z, name, |name|).value + [WILDCARD];
        assert NodeInv(z.origin, w, z.nodes[w]);
        assert EntryInv(z.origin, w, A, z.nodes[w].data.value[A]);
      }
    }
  }

  /** Main result for the additional section: it holds address RRsets only, each owned by
      a name one of the records points to. */
  lemma {:induction false} AdditionalsAreAddresses(z: Zone, rdatas: seq<Rdata>, target: Targets)
    requires ZoneInv(z) && AddressesOfAll(z, rdatas, target).Some?
    ensures forall rr | rr in AddressesOfAll(z, rdatas, target).value ::
              exists r :: r in rdatas && IsAddressOf(rr, target(r))
  {
    if rdatas != [] {
      var n := |rdatas| - 1;
      AdditionalsAreAddresses(z, rdatas[..n], target);
      AddressOwner(z, target(rdatas[n]));
      assert rdatas == rdatas[..n] + [rdatas[n]];
      forall rr | rr in AddressesOfAll(z, rdatas, target).value ensures exists r :: r in rdatas && IsAddressOf(rr, target(r)) {
        if rr in AddressesOfAll(z, rdatas[..n], target).value {
          var r :| r in rdatas[..n] && IsAddressOf(rr, target(r));
          assert r in rdatas;
        } else {
          assert rdatas[n] in rdatas && IsAddressOf(rr, target(rdatas[n]));
        }
      }
    }
  }

  /** And it misses none: for every record of an NS, MX or SRV set, the A set a glue-ok
      lookup of its target finds, and the AAAA set beside that, or beside none. */
  lemma {:induction false} AdditionalsComplete(z: Zone, rdatas: seq<Rdata>, target: Targets, r: Rdata)
    requires AddressesOfAll(z, rdatas, target).Some? && r in rdatas
    ensures var (all, found) := (AddressesOfAll(z, rdatas, target).value, Find(z, target(r), A, GlueOkFind));
            && (found.Success? ==> found.rr in all)
            && ((found.Success? || found.NXRRset?) && Holds(z, target(r), AAAA) ==> RRsetAt(z, target(r), AAAA) in all)
  {
    var n := |rdatas| - 1;
    assert rdatas == rdatas[..n] + [rdatas[n]];
    if r in rdatas[..n] {
      AdditionalsComplete(z, rdatas[..n], target, r);
    }
  }

  /** Which sets have additional records at all. */
  lemma AdditionalTypes(z: Zone, rr: RRset, target: Targets)
    ensures rr.typ == NS || rr.typ == MX || rr.typ == SRV ==>
              Additional(z, Some(rr), target) == AddressesOfAll(z, rr.rdatas, target)
    ensures rr.typ != NS && rr.typ != MX && rr.typ != SRV ==> Additional(z, Some(rr), target) == Some([])
  {
  }

  /** The loop of `GetAdditional`. */
  method GetAdditional(z: Zone, rr: Option<RRset>, target: Targets) returns (addrs: Option<seq<Option<RRset>>>)
    ensures addrs == Additional(z, rr, target)
  {
    if rr.None? || !HasTargets(rr.value.typ) {
      return Some([]);
    }
    var rdatas := rr.value.rdatas;
    var found := [];
    assert rdatas[..0] == [];
    for i := 0 to |rdatas|
      invariant AddressesOfAll(z, rdatas[..i], target) == Some(found)
    {
      assert rdatas[..i + 1][..i] == rdatas[..i];
      var more := AddressesOf(z, target(rdatas[i]));
      if more.None? {
        NoneStays(z, rdatas, target, i);
        return None;
      }
      found := found + more.value;
    }
    assert rdatas[..|rdatas|] == rdatas;
    addrs := Some(found);
  }

  lemma {:induction false} NoneStays(z: Zone, rdatas: seq<Rdata>, target: Targets, i: nat)
    requires i < |rdatas| && AddressesOf(z, target(rdatas[i])).None?
    ensures AddressesOfAll(z, rdatas, target) == None
    decreases |rdatas|
  {
    var n := |rdatas| - 1;
    if i < n {
      NoneStays(z, rdatas[..n], target, i);
    }
  }

  // ----- the query

  /** A nil RRset pointer in a section is None. */
  class Query {
    var aa: bool
    var rcode: Rcode
    var answers: seq<Option<RRset>>
    var authorities: seq<Option<RRset>>
    var additionals: seq<Option<RRset>>

    constructor ()
      ensures answers == [] && authorities == [] && additionals == []
    {
      aa, rcode, answers, authorities, additionals := false, NOERROR, [], [], [];
    }

    /** Append the addresses a record set points to; false is a panic of a lookup. */
    method AddAdditional(z: Zone, rr: Option<RRset>, target: Targets) returns (ok: bool)
      modifies `additionals
      ensures var more := Additional(z, rr, target);
              ok == more.Some? && additionals == if ok then old(additionals) + more.value else old(additionals)
    {
      var more := GetAdditional(z, rr, target);
      ok := more.Some?;
      if ok {
        additionals := additionals + more.value;
      }
    }

    /** `addAuthAdditional`. */
    method AddAuthAdditional(live: Zone, target: Targets) returns (end: QueryEnd)
      modifies `authorities, `additionals
      ensures var ns := LiveFind(live, live.origin, NS);
              if !ns.Success? then
                end == PanicShortOfNS && authorities == old(authorities) && additionals == old(additionals)
              else
                var more := Additional(live, ns.rr, target);
                && authorities == old(authorities) + [ns.rr]
                && end == (if more.Some? then Answered else PanicInFind)
                && additionals == old(additionals) + if more.Some? then more.value else []
    {
      var ns := LiveFind(live, live.origin, NS);
      if !ns.Success? {
        return PanicShortOfNS;
      }
      authorities := authorities + [ns.rr];
      var ok := AddAdditional(live, ns.rr, target);
      end := if ok then Answered else PanicInFind;
    }

    /** `addSOA`. */
    method AddSOA(live: Zone) returns (end: QueryEnd)
      modifies `authorities
      ensures var soa := LiveFind(live, live.origin, SOA);
              if soa.Success? then end == Answered && authorities == old(authorities) + [soa.rr]
              else end == PanicShortOfSOA && authorities == old(authorities)
    {
      var soa := LiveFind(live, live.origin, SOA);
      if !soa.Success? {
        return PanicShortOfSOA;
      }
      authorities := authorities + [soa.rr];
      end := Answered;
    }

    /** The response to what the first look found; own and ns are the addresses the answer
        and the apex NS set point to. */
    ghost predicate Responds(found: FindResult, withNS: bool, second: Zone, own: Option<seq<Option<RRset>>>,
                             ns: Option<seq<Option<RRset>>>, end: QueryEnd)
      reads this
    {
      match found
      case Success(rr) =>
        && aa && rcode == NOERROR && answers == [rr]
        && end == (if own.Some? && (withNS ==> ns.Some?) then Answered else PanicInFind)
        && (end == Answered ==>
              && authorities == (if withNS then [RRsetAt(second, second.origin, NS)] else [])
              && additionals == own.value + if withNS then ns.value else [])
      case CNameFound(rr) =>
        aa && rcode == NOERROR && answers == [rr] && authorities == additionals == [] && end == Answered
      case Delegation(rr) =>
        && !aa && rcode == NOERROR && answers == [] && authorities == [rr]
        && end == (if own.Some? then Answered else PanicInFind) && (end == Answered ==> additionals == own.value)
      case NXDomain =>
        && aa && rcode == NXDOMAIN && answers == additionals == []
        && authorities == [ApexSOA(second)] && end == Answered
      case NXRRset =>
        && aa && rcode == NOERROR && answers == additionals == []
        && authorities == [ApexSOA(second)] && end == Answered
      case ServFail => rcode == SERVFAIL && answers == authorities == additionals == [] && end == Answered
      case _ => end == PanicInFind
    }

    /** A nil RRset waits in a section for the response to be assembled. */
    predicate HasNil()
      reads this
    {
      None in answers || None in authorities || None in additionals
    }

    /** `Process` up to the assembly of its sections.  The zone is read twice with the lock
        released in between, so the second look may see a later live zone.  The only panics
        left are those of lookups, and a section holds nil exactly when an apex entry it
        takes is nil. */
    method Process(name: Name, typ: RRType, exactZone: bool, first: Zone, second: Zone, target: Targets)
        returns (end: QueryEnd)
      requires LiveInv(first) && LiveInv(second) && second.origin == first.origin
      requires IsPublishable(first) ==> IsPublishable(second)
      requires answers == [] && authorities == [] && additionals == []
      modifies this
      ensures end == Answered || end == PanicInFind
      ensures end == Answered ==> (HasNil() <==> ServesNil(first, second, name, typ, !(exactZone && typ == NS)))
      ensures Responds(LiveFind(first, name, typ), !(exactZone && typ == NS), second,
                       Additional(first, FoundRR(LiveFind(first, name, typ)), target),
                       Additional(second, RRsetAt(second, second.origin, NS), target), end)
    {
      if IsPublishable(second) {
        ApexFound(second, SOA);
        ApexFound(second, NS);
      }
      FoundNil(first, name, typ);
      NoNilAdditional(first, FoundRR(LiveFind(first, name, typ)), target);
      NoNilAdditional(second, RRsetAt(second, second.origin, NS), target);
      end := Respond(LiveFind(first, name, typ), !exactZone || typ != NS, first, second, target);
    }

    /** The switch of `Process` on what the first look found. */
    method Respond(found: FindResult, withNS: bool, first: Zone, second: Zone, target: Targets) returns (end: QueryEnd)
      requires found != ServFail ==> ApexThere(second)
      requires answers == [] && authorities == [] && additionals == []
      modifies this
      ensures end == Answered || end == PanicInFind
      ensures Responds(found, withNS, second, Additional(first, FoundRR(found), target),
                       Additional(second, RRsetAt(second, second.origin, NS), target), end)
    {
      aa, rcode := true, NOERROR;
      end := Answered;
      match found
      case CNameFound(rr) =>
        answers := answers + [rr];
      case Success(rr) =>
        answers := answers + [rr];
        var ok := AddAdditional(first, rr, target);
        if !ok {
          return PanicInFind;
        }
        if withNS {
          end := AddAuthAdditional(second, target);
        }
      case Delegation(rr) =>
        aa := false;
        authorities := authorities + [rr];
        var ok := AddAdditional(first, rr, target);
        end := if ok then Answered else PanicInFind;
      case NXDomain =>
        rcode := NXDOMAIN;
        end := AddSOA(second);
      case NXRRset =>
        end := AddSOA(second);
      case ServFail =>
        rcode := SERVFAIL;
      case CutPanic =>
        end := PanicInFind;
      case WildcardPanic =>
        end := PanicInFind;
    }
  }

  /** The response takes an apex SOA or NS entry that is nil: as the answer itself, as the
      NS set beside an answer, or as the SOA of a negative answer. */
  predicate ServesNil(first: Zone, second: Zone, name: Name, typ: RRType, withNS: bool) {
    match LiveFind(first, name, typ)
    case Success(_) =>
      || (name == first.origin && (typ == SOA || typ == NS) && RRsetAt(first, name, typ).None?)
      || (withNS && RRsetAt(second, second.origin, NS).None?)
    case NXDomain => ApexSOA(second).None?
    case NXRRset => ApexSOA(second).None?
    case _ => false
  }

  lemma EntryNil(z: Zone, n: Name, t: RRType)
    requires ZoneInv(z) && Holds(z, n, t) && RRsetAt(z, n, t).None?
    ensures n == z.origin && (t == SOA || t == NS)
  {
    assert NodeInv(z.origin, n, z.nodes[n]);
    assert EntryInv(z.origin, n, t, z.nodes[n].data.value[t]);
  }

  /** A result whose RRset is nil only at the apex, for SOA or NS. */
  ghost predicate NilAtApexOnly(z: Zone, name: Name, typ: RRType, found: FindResult) {
    match found
    case Success(rr) => rr.None? <==> name == z.origin && (typ == SOA || typ == NS) && RRsetAt(z, name, typ).None?
    case CNameFound(rr) => rr.Some?
    case Delegation(rr) => rr.Some?
    case _ => true
  }

  lemma FoundNil(z: Zone, name: Name, typ: RRType)
    requires ZoneInv(z)
    ensures NilAtApexOnly(z, name, typ, LiveFind(z, name, typ))
  {
    WalkDefault(z, name, |name|);
    var c := CutOrNone(z, name, |name|);
    if TopmostCut(z, name, |name|, c) {
      CutEntry(z, name[..c]);
    }
    if name in z.nodes {
      ExactNil(z, name, typ);
    } else {
      PartialNil(z, name, typ);
    }
  }

  lemma CutEntry(z: Zone, cut: Name)
    requires ZoneInv(z) && IsCut(z, cut)
    ensures Holds(z, cut, NS) ==> RRsetAt(z, cut, NS).Some?
  {
    assert NodeInv(z.origin, cut, z.nodes[cut]);
    if Holds(z, cut, NS) && RRsetAt(z, cut, NS).None? {
      EntryNil(z, cut, NS);
    }
  }

  lemma ExactNil(z: Zone, name: Name, typ: RRType)
    requires ZoneInv(z) && name in z.nodes
    ensures NilAtApexOnly(z, name, typ, FindExact(z, name, typ))
  {
    forall t | Holds(z, name, t) && RRsetAt(z, name, t).None? ensures name == z.origin && (t == SOA || t == NS) {
      EntryNil(z, name, t);
    }
  }

  lemma PartialNil(z: Zone, name: Name, typ: RRType)
    requires ZoneInv(z) && name !in z.nodes
    ensures NilAtApexOnly(z, name, typ, FindPartial(z, name, typ, FindState(None, false, false)))
  {
  }

  lemma NoNilAdditional(z: Zone, rr: Option<RRset>, target: Targets)
    requires ZoneInv(z)
    ensures Additional(z, rr, target).Some? ==> None !in Additional(z, rr, target).value
  {
    if rr.Some? && HasTargets(rr.value.typ) && Additional(z, rr, target).Some? {
      AdditionalsAreAddresses(z, rr.value.rdatas, target);
    }
  }

  function FoundRR(found: FindResult): Option<RRset> {
    match found
    case Success(rr) => rr
    case Delegation(rr) => rr
    case _ => None
  }

  /** The apex SOA and NS are found. */
  predicate ApexThere(z: Zone) {
    && LiveFind(z, z.origin, SOA) == Success(RRsetAt(z, z.origin, SOA))
    && LiveFind(z, z.origin, NS) == Success(RRsetAt(z, z.origin, NS))
  }

  /** Main result: whatever was loaded, begun, updated, committed or rolled back before
      and between the two looks of a query, both zones it sees meet the conditions under
      which `Process` has no "zone short of" panic, and once published the apex SOA and NS
      are found. */
  lemma QueriesNeverFindZoneShort(origin: Name, events: seq<Event>, more: seq<Event>)
    ensures var first := Run(Step, NewSys(origin), events).live;
            var second := Run(Step, NewSys(origin), events + more).live;
            && LiveInv(first) && LiveInv(second) && second.origin == first.origin == origin
            && (IsPublishable(first) ==> IsPublishable(second))
            && (!IsEmptyZone(first) ==>
                 LiveFind(second, origin, SOA).Success? && LiveFind(second, origin, NS).Success?)
  {
    LiveZonesArePublishable(origin, events);
    LiveZonesArePublishable(origin, events + more);
    var first := Run(Step, NewSys(origin), events).live;
    var second := Run(Step, NewSys(origin), events + more).live;
    if IsPublishable(first) {
      PublishableForever(origin, events, more);
      ApexFound(second, SOA);
      ApexFound(second, NS);
    }
  }
}
