/** Dynamic update (section 3.4 of RFC 2136): a batch of records applied in one
    transaction.  When a batch is all-or-nothing, and what it does to the serial. */
module ZoneUpdates {
  import opened Dns
  import opened Runs
  import opened ZoneModel
  import opened ZoneInvariants
  import opened ZoneTransactions

  /** An update record and the choices the tree makes while applying it. */
  datatype Item = Item(rr: RRset, tree: set<Name>)

  function ToOp(item: Item): Op {
    if item.rr.class_ == IN then Add(item.rr, item.tree)
    else if item.rr.typ == ANY then DeleteDomain(item.rr.name, item.tree)
    else if item.rr.class_ == CLASS_ANY then DeleteRRset(item.rr, item.tree)
    else DeleteRr(item.rr, item.tree)
  }

  datatype UpdateEnd =
    | NotAuthorized
    | Published
    | NothingToDo
    | Rejected(error: ZoneError)
    | CommitRefused(error: ZoneError)
    | Crashed

  /** `handleDynamicRRsets` after Begin: the two flags, the transaction and the live
      zone it may write through. */
  function Handle(live: Zone, tx: Tx, batch: seq<Item>, explicitSOA: bool, modified: bool): (Zone, UpdateEnd)
    decreases |batch|
  {
    if batch == [] then Finish(live, tx, explicitSOA, modified)
    else
      var (s, outcome) := InTx(live, tx, ToOp(batch[0]));
      match outcome
      case Done => Handle(s.live, s.tx.value, batch[1..], explicitSOA || batch[0].rr.typ == SOA, true)
      case Refused(e) =>
        if e == NoEffectiveUpdate then Handle(s.live, s.tx.value, batch[1..], explicitSOA, modified)
        else (s.live, Rejected(e))
      case Panicked => (s.live, Crashed)
  }

  function Finish(live: Zone, tx: Tx, explicitSOA: bool, modified: bool): (Zone, UpdateEnd) {
    if !modified then (live, NothingToDo)
    else if explicitSOA then Close(live, tx)
    else
      var (s, outcome) := InTx(live, tx, IncreaseSerial);
      if outcome == Panicked then (s.live, Crashed) else Close(s.live, s.tx.value)
  }

  function Close(live: Zone, tx: Tx): (Zone, UpdateEnd) {
    var (s, outcome) := CommitTx(live, tx);
    (s.live, if outcome.Refused? then CommitRefused(outcome.error) else Published)
  }

  function Update(live: Zone, batch: seq<Item>): (Zone, UpdateEnd) {
    Handle(live, BeginTx(live).tx.value, batch, false, false)
  }

  // ----- the reference: a batch on a plain value, no transaction, no sharing

  datatype Applied = Applied(zone: Zone, explicitSOA: bool, modified: bool) | Stopped(end: UpdateEnd)

  function ApplyBatch(z: Zone, batch: seq<Item>, explicitSOA: bool, modified: bool): (r: Applied)
    ensures r.Stopped? ==> r.end.Rejected? || r.end.Crashed?
    decreases |batch|
  {
    if batch == [] then Applied(z, explicitSOA, modified)
    else
      var (z', outcome) := Apply(z, ToOp(batch[0]));
      match outcome
      case Done => ApplyBatch(z', batch[1..], explicitSOA || batch[0].rr.typ == SOA, true)
      case Refused(e) =>
        if e == NoEffectiveUpdate then ApplyBatch(z', batch[1..], explicitSOA, modified)
        else Stopped(Rejected(e))
      case Panicked => Stopped(Crashed)
  }

  // ----- what one operation does at the apex

  /** rr replaces the apex SOA, with a greater serial when there was one. */
  predicate Supersedes(rr: RRset, was: Option<RRset>) {
    rr.typ == SOA &&
    (was.Some? ==>
      match (FirstSerial(was.value.rdatas), FirstSerial(rr.rdatas))
      case (Some(a), Some(b)) => a < b
      case _ => false)
  }

  lemma AddApexSOA(z: Zone, rr: RRset, split: set<Name>)
    requires z.origin in z.nodes
    ensures var (z', o) := AddRRset(z, rr, split);
            ApexSOA(z') == ApexSOA(z) || (o == Done && ApexSOA(z') == Some(rr) && Supersedes(rr, ApexSOA(z)))
  {
  }

  /** Only a class IN SOA at the apex changes the apex SOA, and then to a greater serial. */
  lemma ApexSOAAfter(z: Zone, op: Op)
    requires z.origin in z.nodes && !op.IncreaseSerial?
    ensures var (z', o) := Apply(z, op);
            || ApexSOA(z') == ApexSOA(z)
            || (op.Add? && o == Done && ApexSOA(z') == Some(op.rr) && Supersedes(op.rr, ApexSOA(z)))
  {
    match op
    case Add(rr, split) => AddApexSOA(z, rr, split);
    case DeleteRRset(rr, drop) => if Holds(z, rr.name, rr.typ) { EraseTypeApex(z, rr.name, rr.typ, drop, SOA); }
    case DeleteRr(rr, drop) => if Holds(z, rr.name, rr.typ) { EraseTypeApex(z, rr.name, rr.typ, drop, SOA); }
    case DeleteDomain(n, drop) => if n in z.nodes && n != z.origin { PruneApex(z, n, drop); }
  }

  lemma PruneApex(z: Zone, n: Name, drop: set<Name>)
    requires n in z.nodes && n != z.origin && z.origin in z.nodes
    ensures z.origin in DeleteNode(z, n, drop).nodes
    ensures DeleteNode(z, n, drop).nodes[z.origin].data == z.nodes[z.origin].data
  {
  }

  lemma EraseTypeApex(z: Zone, n: Name, t: RRType, drop: set<Name>, kept: RRType)
    requires Holds(z, n, t) && z.origin in z.nodes
    ensures !(n == z.origin && t == kept) ==>
              RRsetAt(EraseType(z, n, t, drop), z.origin, kept) == RRsetAt(z, z.origin, kept) &&
              (Holds(EraseType(z, n, t, drop), z.origin, kept) <==> Holds(z, z.origin, kept))
    ensures n == z.origin && t == kept ==> !Holds(EraseType(z, n, t, drop), z.origin, kept)
  {
    var left := z.nodes[n].data.value - {t};
    if n == z.origin && t != kept && Holds(z, n, kept) {
      assert kept in left;
    }
  }

  /** Whether the apex still maps NS, judged from the record alone: a class ANY NS delete
      at the apex takes the entry away; an NS add, or deleting the whole apex, brings it back. */
  function NsKeyAfter(origin: Name, batch: seq<Item>, had: bool): bool
    decreases |batch|
  {
    if batch == [] then had
    else NsKeyAfter(origin, batch[1..], NsKeyStep(origin, batch[0], had))
  }

  predicate NsKeyStep(origin: Name, item: Item, had: bool) {
    match ToOp(item)
    case Add(rr, _) => had || (rr.typ == NS && rr.name == origin && !IsWildCard(origin))
    case DeleteRRset(rr, _) => had && !(rr.typ == NS && rr.name == origin)
    case DeleteRr(_, _) => had
    case DeleteDomain(n, _) => had || n == origin
    case IncreaseSerial => had
  }

  lemma AddNsKey(z: Zone, rr: RRset, split: set<Name>)
    requires z.origin in z.nodes
    requires AddRRset(z, rr, split).1 in {Done, Refused(NoEffectiveUpdate)}
    ensures Holds(AddRRset(z, rr, split).0, z.origin, NS) <==>
            Holds(z, z.origin, NS) || (rr.typ == NS && rr.name == z.origin && !IsWildCard(z.origin))
  {
  }

  lemma NsKeyTracks(z: Zone, item: Item)
    requires z.origin in z.nodes
    requires Apply(z, ToOp(item)).1 in {Done, Refused(NoEffectiveUpdate)}
    ensures Holds(Apply(z, ToOp(item)).0, z.origin, NS) <==> NsKeyStep(z.origin, item, Holds(z, z.origin, NS))
  {
    match ToOp(item)
    case Add(rr, split) => AddNsKey(z, rr, split);
    case DeleteRRset(rr, drop) => EraseTypeApex(z, rr.name, rr.typ, drop, NS);
    case DeleteRr(rr, drop) => EraseTypeApex(z, rr.name, rr.typ, drop, NS);
    case DeleteDomain(n, drop) => if n != z.origin { PruneApex(z, n, drop); }
  }

  // ----- the handler against the reference

  /** How a fully applied batch ends, given the live zone it started from. */
  function EndOf(live: Zone, z: Zone, explicitSOA: bool, modified: bool): (Zone, UpdateEnd) {
    if !modified then (live, NothingToDo)
    else if !explicitSOA && Serial(z).None? then (live, Crashed)
    else
      var final := if explicitSOA then z else BumpSOA(z);
      match Validate(final)
      case Refused(e) => (if explicitSOA || Serial(live).None? then live else BumpSOA(live), CommitRefused(e))
      case _ => (final, Published)
  }

  /** While no SOA record went through, the transaction still holds the live SOA. */
  ghost predicate Linked(live: Zone, tx: Tx, explicitSOA: bool) {
    !explicitSOA ==> ApexSOA(tx.tmp) == ApexSOA(live) && tx.shared == ApexSOA(live).Some?
  }

  lemma FinishRefines(live: Zone, tx: Tx, explicitSOA: bool, modified: bool)
    requires Linked(live, tx, explicitSOA)
    ensures Finish(live, tx, explicitSOA, modified) == EndOf(live, tx.tmp, explicitSOA, modified)
  {
  }

  lemma LinkedStep(live: Zone, tx: Tx, explicitSOA: bool, item: Item)
    requires TxInv(live, tx) && Linked(live, tx, explicitSOA)
    ensures var (s, o) := InTx(live, tx, ToOp(item));
            && s.live == live
            && (s.tx.value.tmp, o) == Apply(tx.tmp, ToOp(item))
            && Linked(live, s.tx.value, explicitSOA || (o == Done && item.rr.typ == SOA))
  {
    ApexSOAAfter(tx.tmp, ToOp(item));
  }

  lemma {:induction false} HandleRefines(live: Zone, tx: Tx, batch: seq<Item>, explicitSOA: bool, modified: bool)
    requires LiveInv(live) && TxInv(live, tx) && Linked(live, tx, explicitSOA)
    ensures Handle(live, tx, batch, explicitSOA, modified) ==
            match ApplyBatch(tx.tmp, batch, explicitSOA, modified)
            case Stopped(end) => (live, end)
            case Applied(z, e, m) => EndOf(live, z, e, m)
    decreases |batch|
  {
    if batch == [] {
      FinishRefines(live, tx, explicitSOA, modified);
    } else {
      var (s, o) := InTx(live, tx, ToOp(batch[0]));
      LinkedStep(live, tx, explicitSOA, batch[0]);
      InTxKeeps(live, tx, ToOp(batch[0]));
      if o == Done {
        HandleRefines(live, s.tx.value, batch[1..], explicitSOA || batch[0].rr.typ == SOA, true);
      } else if o == Refused(NoEffectiveUpdate) {
        HandleRefines(live, s.tx.value, batch[1..], explicitSOA, modified);
      }
    }
  }

  /** Main result: the handler, with its transaction and shared SOA, ends as the plain
      fold over the batch says; a refused Commit is the one case that touches the live zone. */
  lemma UpdateRefines(live: Zone, batch: seq<Item>)
    requires LiveInv(live)
    ensures Update(live, batch) ==
            match ApplyBatch(live, batch, false, false)
            case Stopped(end) => (live, end)
            case Applied(z, e, m) => EndOf(live, z, e, m)
  {
    HandleRefines(live, BeginTx(live).tx.value, batch, false, false);
  }

  // ----- what a whole batch keeps

  /** The first serial of the apex SOA, also of one with several records. */
  function ApexSerial(z: Zone): Option<uint32> {
    if ApexSOA(z).Some? then FirstSerial(ApexSOA(z).value.rdatas) else None
  }

  predicate IsSingleSOA(rr: RRset) {
    |rr.rdatas| == 1 && rr.rdatas[0].SoaData?
  }

  /** The apex SOA after a batch, judged from its SOA records alone: the last one that is
      of the apex and newer than the one before it. */
  function SoaAfter(origin: Name, soa: Option<RRset>, batch: seq<Item>): Option<RRset>
    decreases |batch|
  {
    if batch == [] then soa else SoaAfter(origin, SoaStep(origin, soa, batch[0]), batch[1..])
  }

  function SoaStep(origin: Name, soa: Option<RRset>, item: Item): Option<RRset> {
    if item.rr.class_ == IN && item.rr.name == origin && Supersedes(item.rr, soa) then Some(item.rr) else soa
  }

  lemma {:induction false} SoaAfterRises(origin: Name, soa: RRset, batch: seq<Item>)
    requires FirstSerial(soa.rdatas).Some?
    ensures SoaAfter(origin, Some(soa), batch).Some?
    ensures var last := FirstSerial(SoaAfter(origin, Some(soa), batch).value.rdatas);
            last.Some? && last.value >= FirstSerial(soa.rdatas).value
    decreases |batch|
  {
    if batch != [] {
      SoaAfterRises(origin, SoaStep(origin, Some(soa), batch[0]).value, batch[1..]);
    }
  }

  lemma SoaTracks(z: Zone, item: Item)
    requires ZoneInv(z) && ApexSOA(z).Some?
    ensures ApexSOA(Apply(z, ToOp(item)).0) == SoaStep(z.origin, ApexSOA(z), item)
  {
    assert NodeInv(z.origin, z.origin, z.nodes[z.origin]);
    ApexSOAAfter(z, ToOp(item));
    if ToOp(item).Add? && item.rr.name == z.origin && Supersedes(item.rr, ApexSOA(z)) {
      NewSOAStored(z, item.rr, item.tree);
    } else if ToOp(item).Add? && item.rr.name != z.origin {
      AddNoApexSOA(z, item.rr, item.tree);
    }
  }

  lemma NewSOAStored(z: Zone, rr: RRset, split: set<Name>)
    requires ZoneInv(z) && ApexSOA(z).Some? && rr.name == z.origin && Supersedes(rr, ApexSOA(z))
    ensures ApexSOA(AddRRset(z, rr, split).0) == Some(rr)
  {
    assert NodeInv(z.origin, z.origin, z.nodes[z.origin]);
  }

  lemma AddNoApexSOA(z: Zone, rr: RRset, split: set<Name>)
    requires z.origin in z.nodes && rr.name != z.origin
    ensures ApexSOA(AddRRset(z, rr, split).0) == ApexSOA(z)
  {
  }

  lemma ItemKeeps(z: Zone, item: Item)
    requires ZoneInv(z) && ApexSOA(z).Some?
    ensures ZoneInv(Apply(z, ToOp(item)).0) && Apply(z, ToOp(item)).0.origin == z.origin
    ensures ApexSOA(Apply(z, ToOp(item)).0) == SoaStep(z.origin, ApexSOA(z), item)
    ensures Apply(z, ToOp(item)).1 == Refused(NoEffectiveUpdate) ==> Apply(z, ToOp(item)).0 == z
    ensures Apply(z, ToOp(item)).1 != Done || item.rr.typ != SOA ==>
              ApexSOA(Apply(z, ToOp(item)).0) == ApexSOA(z)
  {
    ApplyKeeps(z, ToOp(item));
    SoaTracks(z, item);
    ApexSOAAfter(z, ToOp(item));
    if ToOp(item).Add? {
      IneffectiveAdd(z, item.rr, item.tree);
    }
  }

  lemma IneffectiveAdd(z: Zone, rr: RRset, split: set<Name>)
    ensures AddRRset(z, rr, split).1 == Refused(NoEffectiveUpdate) ==> AddRRset(z, rr, split).0 == z
  {
  }

  /** What a fully applied batch leaves: the invariants, the apex SOA and NS entries that
      its records say, and the SOA untouched unless an SOA record went through. */
  ghost predicate BatchLeaves(z: Zone, batch: seq<Item>, z': Zone, explicitSOA: bool, modified: bool) {
    && ZoneInv(z') && z'.origin == z.origin
    && ApexSOA(z').Some? && ApexSOA(z') == SoaAfter(z.origin, ApexSOA(z), batch)
    && (!explicitSOA ==> ApexSOA(z') == ApexSOA(z))
    && (Holds(z', z.origin, NS) <==> NsKeyAfter(z.origin, batch, Holds(z, z.origin, NS)))
    && (!modified ==> z' == z)
  }

  lemma {:induction false} BatchKeeps(z: Zone, batch: seq<Item>, explicitSOA: bool, modified: bool)
    requires ZoneInv(z) && ApexSOA(z).Some?
    ensures match ApplyBatch(z, batch, explicitSOA, modified)
            case Stopped(_) => true
            case Applied(z', e, m) => BatchLeaves(z, batch, z', e, m) && (explicitSOA ==> e)
    decreases |batch|
  {
    if batch != [] {
      var (z', o) := Apply(z, ToOp(batch[0]));
      ItemKeeps(z, batch[0]);
      if o == Done {
        NsKeyTracks(z, batch[0]);
        BatchKeeps(z', batch[1..], explicitSOA || batch[0].rr.typ == SOA, true);
        ModifiedStays(z', batch[1..], explicitSOA || batch[0].rr.typ == SOA);
      } else if o == Refused(NoEffectiveUpdate) {
        NsKeyTracks(z, batch[0]);
        BatchKeeps(z', batch[1..], explicitSOA, modified);
      }
    }
  }

  lemma {:induction false} ModifiedStays(z: Zone, batch: seq<Item>, explicitSOA: bool)
    ensures match ApplyBatch(z, batch, explicitSOA, true)
            case Stopped(_) => true
            case Applied(_, _, m) => m
    decreases |batch|
  {
    if batch != [] {
      var (z', o) := Apply(z, ToOp(batch[0]));
      if o == Done {
        ModifiedStays(z', batch[1..], explicitSOA || batch[0].rr.typ == SOA);
      } else if o == Refused(NoEffectiveUpdate) {
        ModifiedStays(z', batch[1..], explicitSOA);
      }
    }
  }

  // ----- all or nothing

  /** No record is refused, none that went through is an SOA, and the last one to touch
      the apex NS entry is a class ANY delete of it.  Whether a record is refused depends
      on those before it; a caller who cannot follow that can check `SafeBatch`, which
      rules this out from the records alone. */
  ghost predicate DropsApexNS(live: Zone, batch: seq<Item>) {
    match ApplyBatch(live, batch, false, false)
    case Stopped(_) => false
    case Applied(_, explicitSOA, _) => !explicitSOA && !NsKeyAfter(live.origin, batch, true)
  }

  lemma BumpDiffers(z: Zone)
    requires Serial(z).Some?
    ensures BumpSOA(z) != z
  {
    WithSerialLaws(z, Inc32(Serial(z).value), 0);
  }

  /** Main result, for every batch on every live zone: a batch that is not published leaves
      the live zone, contents and serial, exactly as it was, if and only if it does not
      drop the apex NS set of a zone with a serial; one that does is refused by Commit with
      the live serial already raised. */
  lemma AllOrNothingExactly(live: Zone, batch: seq<Item>)
    requires LiveInv(live)
    ensures var (live', end) := Update(live, batch);
            var leaks := Serial(live).Some? && DropsApexNS(live, batch);
            && (end != Published ==> (live' == live <==> !leaks))
            && (leaks ==> live' == BumpSOA(live) && end == CommitRefused(ShortOfNS))
  {
    UpdateRefines(live, batch);
    if Serial(live).Some? {
      BatchKeeps(live, batch, false, false);
      BumpDiffers(live);
      match ApplyBatch(live, batch, false, false)
      case Stopped(_) =>
      case Applied(z, explicitSOA, modified) =>
        ValidateKeys(z);
        if Serial(z).Some? {
          BumpedKeys(z);
        }
    }
  }

  lemma ValidateKeys(z: Zone)
    requires ApexSOA(z).Some?
    ensures Validate(z) == if Holds(z, z.origin, NS) then Done else Refused(ShortOfNS)
  {
  }

  lemma BumpedKeys(z: Zone)
    requires Serial(z).Some?
    ensures Validate(BumpSOA(z)) == if Holds(z, z.origin, NS) then Done else Refused(ShortOfNS)
  {
  }

  // ----- the serial

  const MAX_SERIAL: uint32 := UINT32_SIZE - 1

  /** Main result: a published batch without SOA records raises the serial by exactly
      one; any published batch leaves it no lower, unless it was at the uint32 maximum;
      and it leaves a serial that can be raised again if and only if the last SOA record
      that took effect came alone in its RRset. */
  lemma PublishedSerial(live: Zone, batch: seq<Item>)
    requires LiveInv(live) && ApexSerial(live).Some? && Update(live, batch).1 == Published
    ensures ApexSerial(Update(live, batch).0).Some?
    ensures (forall item | item in batch :: item.rr.typ != SOA) ==>
              Serial(live).Some? && Serial(Update(live, batch).0) == Some(Inc32(Serial(live).value))
    ensures ApexSerial(live).value != MAX_SERIAL ==>
              ApexSerial(Update(live, batch).0).value >= ApexSerial(live).value
    ensures SoaAfter(live.origin, ApexSOA(live), batch).Some?
    ensures Serial(Update(live, batch).0).Some? <==>
            IsSingleSOA(SoaAfter(live.origin, ApexSOA(live), batch).value)
  {
    UpdateRefines(live, batch);
    BatchKeeps(live, batch, false, false);
    SoaAfterRises(live.origin, ApexSOA(live).value, batch);
    NoSOANotExplicit(live, batch, false);
    var applied := ApplyBatch(live, batch, false, false);
    EndSerial(live, applied.zone, applied.explicitSOA, applied.modified);
  }

  lemma EndSerial(live: Zone, z: Zone, explicitSOA: bool, modified: bool)
    requires ApexSerial(z).Some? && EndOf(live, z, explicitSOA, modified).1 == Published
    ensures var final := EndOf(live, z, explicitSOA, modified).0;
            && (explicitSOA ==> final == z)
            && (!explicitSOA ==> Serial(z).Some? && Serial(final) == ApexSerial(final) == Some(Inc32(Serial(z).value)))
  {
    if Serial(z).Some? {
      WithSerialLaws(z, Inc32(Serial(z).value), 0);
    }
  }

  lemma {:induction false} NoSOANotExplicit(z: Zone, batch: seq<Item>, modified: bool)
    ensures (forall item | item in batch :: item.rr.typ != SOA) ==>
              match ApplyBatch(z, batch, false, modified)
              case Stopped(_) => true
              case Applied(_, e, _) => !e
    decreases |batch|
  {
    if batch != [] && forall item | item in batch :: item.rr.typ != SOA {
      var (z', o) := Apply(z, ToOp(batch[0]));
      assert batch[0] in batch && forall item | item in batch[1..] :: item in batch;
      NoSOANotExplicit(z', batch[1..], true);
      NoSOANotExplicit(z', batch[1..], modified);
    }
  }

  // ----- runs of updates

  predicate IsTypedSOA(rdatas: seq<Rdata>) {
    rdatas != [] && forall r | r in rdatas :: r.SoaData?
  }

  ghost predicate SoasTyped(z: Zone) {
    forall n | Holds(z, n, SOA) :: RRsetAt(z, n, SOA).Some? ==> IsTypedSOA(RRsetAt(z, n, SOA).value.rdatas)
  }

  /** A zone with its SOA and NS in place. */
  ghost predicate Sound(z: Zone) {
    ZoneInv(z) && ApexSOA(z).Some? && RRsetAt(z, z.origin, NS).Some? && SoasTyped(z)
  }

  /** A batch that never deletes the apex NS set by class ANY, and whose SOA RRsets hold
      SOA records, as read from the wire. */
  ghost predicate SafeBatch(origin: Name, batch: seq<Item>) {
    forall item | item in batch :: SafeItem(origin, item)
  }

  predicate SafeItem(origin: Name, item: Item) {
    && (item.rr.class_ == IN && item.rr.typ == SOA ==> IsTypedSOA(item.rr.rdatas))
    && !(ToOp(item).DeleteRRset? && item.rr.typ == NS && item.rr.name == origin)
  }

  lemma AddDoesNotPanic(z: Zone, rr: RRset, split: set<Name>)
    requires Sound(z) && (rr.typ == SOA ==> IsTypedSOA(rr.rdatas))
    ensures AddRRset(z, rr, split).1 != Panicked
  {
    if Holds(z, rr.name, rr.typ) {
      assert NodeInv(z.origin, rr.name, z.nodes[rr.name]);
      assert EntryInv(z.origin, rr.name, rr.typ, z.nodes[rr.name].data.value[rr.typ]);
    }
  }

  lemma ItemDoesNotPanic(z: Zone, item: Item)
    requires Sound(z) && SafeItem(z.origin, item)
    ensures Apply(z, ToOp(item)).1 != Panicked
  {
    var rr := item.rr;
    match ToOp(item)
    case Add(_, split) => AddDoesNotPanic(z, rr, split);
    case DeleteRr(_, drop) =>
      if Holds(z, rr.name, rr.typ) {
        assert NodeInv(z.origin, rr.name, z.nodes[rr.name]);
        assert EntryInv(z.origin, rr.name, rr.typ, z.nodes[rr.name].data.value[rr.typ]);
      }
    case _ =>
  }

  /** What an operation can leave as the SOA at a name. */
  ghost predicate SoaFrom(z: Zone, op: Op, n: Name, soa: Option<RRset>) {
    || soa == None
    || soa == RRsetAt(z, n, SOA)
    || (op.Add? && op.rr.typ == SOA && soa == Some(op.rr))
    || (&& op.DeleteRr? && RRsetAt(z, n, SOA).Some?
        && RdatasDiff(RRsetAt(z, n, SOA).value.rdatas, op.rr.rdatas) != []
        && soa.value.rdatas == RdatasDiff(RRsetAt(z, n, SOA).value.rdatas, op.rr.rdatas))
  }

  lemma AddSoaAt(z: Zone, rr: RRset, split: set<Name>, n: Name)
    ensures SoaFrom(z, Add(rr, split), n, RRsetAt(AddRRset(z, rr, split).0, n, SOA))
  {
  }

  lemma EraseTypeAt(z: Zone, m: Name, t: RRType, drop: set<Name>, n: Name)
    requires Holds(z, m, t)
    ensures RRsetAt(EraseType(z, m, t, drop), n, SOA) in {None, RRsetAt(z, n, SOA)}
  {
    var left := z.nodes[m].data.value - {t};
    if left == map[] {
      DeletedNode(z, m, drop, n);
    }
  }

  lemma SoaAt(z: Zone, op: Op, n: Name)
    requires ZoneInv(z) && !op.IncreaseSerial?
    ensures SoaFrom(z, op, n, RRsetAt(Apply(z, op).0, n, SOA))
  {
    match op
    case Add(rr, split) => AddSoaAt(z, rr, split, n);
    case DeleteRRset(rr, drop) => if Holds(z, rr.name, rr.typ) { EraseTypeAt(z, rr.name, rr.typ, drop, n); }
    case DeleteRr(rr, drop) => if Holds(z, rr.name, rr.typ) { EraseTypeAt(z, rr.name, rr.typ, drop, n); }
    case DeleteDomain(m, drop) => if m in z.nodes { DeletedNode(z, m, drop, n); }
  }

  lemma TypedAfter(z: Zone, item: Item)
    requires ZoneInv(z) && SoasTyped(z) && SafeItem(z.origin, item)
    ensures SoasTyped(Apply(z, ToOp(item)).0)
  {
    var z' := Apply(z, ToOp(item)).0;
    forall n | Holds(z', n, SOA)
      ensures RRsetAt(z', n, SOA).Some? ==> IsTypedSOA(RRsetAt(z', n, SOA).value.rdatas)
    {
      SoaAt(z, ToOp(item), n);
      if RRsetAt(z, n, SOA).Some? {
        assert Holds(z, n, SOA);
        forall r | r in RdatasDiff(RRsetAt(z, n, SOA).value.rdatas, item.rr.rdatas) ensures r.SoaData? {
          RdatasDiffMember(RRsetAt(z, n, SOA).value.rdatas, item.rr.rdatas, r);
        }
      }
    }
  }

  lemma AddKeepsNS(z: Zone, rr: RRset, split: set<Name>)
    requires RRsetAt(z, z.origin, NS).Some?
    ensures RRsetAt(AddRRset(z, rr, split).0, z.origin, NS).Some?
  {
  }

  lemma NSAfter(z: Zone, item: Item)
    requires ZoneInv(z) && RRsetAt(z, z.origin, NS).Some? && SafeItem(z.origin, item)
    ensures RRsetAt(Apply(z, ToOp(item)).0, z.origin, NS).Some?
  {
    var rr := item.rr;
    match ToOp(item)
    case Add(_, split) => AddKeepsNS(z, rr, split);
    case DeleteRRset(_, drop) => if Holds(z, rr.name, rr.typ) { EraseTypeApex(z, rr.name, rr.typ, drop, NS); }
    case DeleteRr(_, drop) => if Holds(z, rr.name, rr.typ) { EraseTypeApex(z, rr.name, rr.typ, drop, NS); }
    case DeleteDomain(n, drop) => if n in z.nodes && n != z.origin { PruneApex(z, n, drop); }
  }

  lemma {:induction false} BatchSound(z: Zone, batch: seq<Item>, explicitSOA: bool, modified: bool)
    requires Sound(z) && SafeBatch(z.origin, batch)
    ensures match ApplyBatch(z, batch, explicitSOA, modified)
            case Stopped(end) => end.Rejected?
            case Applied(z', _, _) => Sound(z') && z'.origin == z.origin
    decreases |batch|
  {
    if batch != [] {
      var (z', o) := Apply(z, ToOp(batch[0]));
      assert SafeItem(z.origin, batch[0]);
      ItemKeeps(z, batch[0]);
      ItemDoesNotPanic(z, batch[0]);
      TypedAfter(z, batch[0]);
      NSAfter(z, batch[0]);
      assert forall item | item in batch[1..] :: item in batch;
      if o == Done {
        BatchSound(z', batch[1..], explicitSOA || batch[0].rr.typ == SOA, true);
      } else if o == Refused(NoEffectiveUpdate) {
        BatchSound(z', batch[1..], explicitSOA, modified);
      }
    }
  }

  lemma BumpSound(z: Zone)
    requires Sound(z) && Serial(z).Some?
    ensures Sound(BumpSOA(z))
  {
    BumpKeeps(z);
    var z' := BumpSOA(z);
    forall n | Holds(z', n, SOA)
      ensures RRsetAt(z', n, SOA).Some? ==> IsTypedSOA(RRsetAt(z', n, SOA).value.rdatas)
    {
      assert Holds(z, n, SOA);
    }
  }

  /** Main result, one update: from a sound zone a safe batch is published whole or
      changes nothing, and leaves a sound zone either way; it crashes if and only if
      records went through, none of them an SOA, and the apex SOA the zone came with is
      not a single record. */
  lemma SafeUpdate(live: Zone, batch: seq<Item>)
    requires Sound(live) && SafeBatch(live.origin, batch)
    ensures var (live', end) := Update(live, batch);
            && Sound(live') && live'.origin == live.origin
            && (end == Published || ((end == NothingToDo || end.Rejected? || end == Crashed) && live' == live))
            && (end == Crashed <==> Serial(live).None? && BumpDue(live, batch))
  {
    UpdateRefines(live, batch);
    BatchSound(live, batch, false, false);
    BatchKeeps(live, batch, false, false);
    match ApplyBatch(live, batch, false, false)
    case Stopped(_) =>
    case Applied(z, explicitSOA, _) =>
      ValidateKeys(z);
      if Serial(z).Some? {
        BumpSound(z);
        BumpedKeys(z);
      }
  }

  /** Every record went through or had no effect, some did, and none of these is an SOA. */
  ghost predicate BumpDue(live: Zone, batch: seq<Item>) {
    match ApplyBatch(live, batch, false, false)
    case Stopped(_) => false
    case Applied(_, explicitSOA, modified) => modified && !explicitSOA
  }

  /** An SOA RRset of several records is published like any other, but leaves no serial to
      raise: the next update that succeeds without an SOA panics, with the lock held. */
  lemma TwoSOAsCrashNext(live: Zone, soa: Item, next: Item)
    requires Sound(live) && ToOp(soa).Add? && soa.rr.typ == SOA && soa.rr.name == live.origin
    requires IsTypedSOA(soa.rr.rdatas) && |soa.rr.rdatas| > 1 && Supersedes(soa.rr, ApexSOA(live))
    requires next.rr.typ != SOA && Apply(Update(live, [soa]).0, ToOp(next)).1 == Done
    ensures Update(live, [soa]).1 == Published && Serial(Update(live, [soa]).0) == None
    ensures Update(Update(live, [soa]).0, [next]) == (Update(live, [soa]).0, Crashed)
  {
    UpdateRefines(live, [soa]);
    ItemKeeps(live, soa);
    NewSOADone(live, soa.rr, soa.tree);
    OneItem(live, soa);
    var live' := Apply(live, ToOp(soa)).0;
    NsKeyTracks(live, soa);
    ValidateKeys(live');
    UpdateRefines(live', [next]);
    ItemKeeps(live', next);
    OneItem(live', next);
  }

  lemma NewSOADone(z: Zone, rr: RRset, split: set<Name>)
    requires ZoneInv(z) && ApexSOA(z).Some? && rr.name == z.origin && Supersedes(rr, ApexSOA(z))
    ensures AddRRset(z, rr, split).1 == Done
  {
    assert NodeInv(z.origin, z.origin, z.nodes[z.origin]);
  }

  /** What happens to a live zone: updates, and queries between them, which reorder the
      records inside RRsets. */
  datatype Happening = Batch(items: seq<Item>) | Rotate(zone: Zone)

  ghost predicate IsRotation(z: Zone, z': Zone) {
    && z'.origin == z.origin && z'.nodes.Keys == z.nodes.Keys
    && forall n | n in z.nodes :: IsRotatedNode(z.nodes[n], z'.nodes[n])
  }

  ghost predicate IsRotatedNode(a: Node, b: Node) {
    && b.cut == a.cut && b.wild == a.wild && (b.data.Some? <==> a.data.Some?)
    && (a.data.Some? ==>
          && b.data.value.Keys == a.data.value.Keys
          && forall t | t in a.data.value :: IsRotatedEntry(a.data.value[t], b.data.value[t]))
  }

  ghost predicate IsRotatedEntry(a: Option<RRset>, b: Option<RRset>) {
    match (a, b)
    case (Some(r), Some(q)) => q == r.(rdatas := q.rdatas) && multiset(q.rdatas) == multiset(r.rdatas)
    case (None, None) => true
    case _ => false
  }

  ghost function UpdateStep(live: Zone, h: Happening): Zone {
    match h
    case Batch(items) => Update(live, items).0
    case Rotate(z) => if IsRotation(live, z) then z else live
  }

  lemma RotationInv(z: Zone, z': Zone)
    requires ZoneInv(z) && IsRotation(z, z')
    ensures ZoneInv(z')
  {
    forall n | n in z'.nodes ensures NodeInv(z'.origin, n, z'.nodes[n]) {
      assert NodeInv(z.origin, n, z.nodes[n]) && IsRotatedNode(z.nodes[n], z'.nodes[n]);
      RotatedNodeInv(z.origin, n, z.nodes[n], z'.nodes[n]);
    }
    forall n | n in z'.nodes && z'.nodes[n].wild ensures HasData(z'.nodes, n + [WILDCARD]) {
      assert IsRotatedNode(z.nodes[n], z'.nodes[n]);
      assert HasData(z.nodes, n + [WILDCARD]);
      assert IsRotatedNode(z.nodes[n + [WILDCARD]], z'.nodes[n + [WILDCARD]]);
    }
    forall m | m in z'.nodes && z'.nodes[m].data.Some? && IsWildCard(m)
      ensures Parent(m) in z'.nodes && z'.nodes[Parent(m)].wild
    {
      assert IsRotatedNode(z.nodes[m], z'.nodes[m]);
      assert IsRotatedNode(z.nodes[Parent(m)], z'.nodes[Parent(m)]);
    }
  }

  lemma RotatedNodeInv(origin: Name, n: Name, a: Node, b: Node)
    requires NodeInv(origin, n, a) && IsRotatedNode(a, b)
    ensures NodeInv(origin, n, b)
  {
    if b.data.Some? {
      forall t | t in b.data.value ensures EntryInv(origin, n, t, b.data.value[t]) {
        assert EntryInv(origin, n, t, a.data.value[t]) && IsRotatedEntry(a.data.value[t], b.data.value[t]);
      }
      assert a.data.value != map[] ==> b.data.value != map[] by {
        if t :| t in a.data.value {
          assert t in b.data.value;
        }
      }
    }
  }

  lemma RotatedAt(z: Zone, z': Zone, n: Name, t: RRType)
    requires IsRotation(z, z')
    ensures Holds(z', n, t) <==> Holds(z, n, t)
    ensures IsRotatedEntry(RRsetAt(z, n, t), RRsetAt(z', n, t))
  {
    if n in z.nodes {
      assert IsRotatedNode(z.nodes[n], z'.nodes[n]);
    }
  }

  /** Reordering keeps a zone sound and the serial of a single SOA record. */
  lemma RotationKeeps(z: Zone, z': Zone)
    requires Sound(z) && IsRotation(z, z')
    ensures Sound(z') && z'.origin == z.origin && Serial(z') == Serial(z)
  {
    RotationInv(z, z');
    RotatedAt(z, z', z.origin, NS);
    RotatedAt(z, z', z.origin, SOA);
    var (a, b) := (ApexSOA(z).value.rdatas, ApexSOA(z').value.rdatas);
    SamePermutation(a, b);
    forall n | Holds(z', n, SOA)
      ensures RRsetAt(z', n, SOA).Some? ==> IsTypedSOA(RRsetAt(z', n, SOA).value.rdatas)
    {
      RotatedAt(z, z', n, SOA);
      if RRsetAt(z, n, SOA).Some? {
        SamePermutation(RRsetAt(z, n, SOA).value.rdatas, RRsetAt(z', n, SOA).value.rdatas);
      }
    }
  }

  lemma SamePermutation(a: seq<Rdata>, b: seq<Rdata>)
    requires multiset(b) == multiset(a)
    ensures |b| == |a| && (forall r :: r in b <==> r in a) && (|a| == 1 ==> b == a)
  {
    assert |multiset(a)| == |a| && |multiset(b)| == |b|;
    forall r ensures r in b <==> r in a {
      assert r in b <==> r in multiset(b);
    }
    if |a| == 1 {
      assert b[0] in a && b == [b[0]] && a == [a[0]];
    }
  }

  /** Main result, whole runs: over any sequence of safe batches, with queries reordering
      records in between, the zone stays sound; and as long as every zone on the way has a
      single SOA record, and no serial on the way is the uint32 maximum, the serial never
      drops. */
  lemma {:induction false} SerialNeverDrops(live: Zone, happenings: seq<Happening>)
    requires Sound(live) && forall h | h in happenings && h.Batch? :: SafeBatch(live.origin, h.items)
    ensures Sound(Run(UpdateStep, live, happenings)) && Run(UpdateStep, live, happenings).origin == live.origin
    ensures AllClimb(live, happenings) && Serial(Run(UpdateStep, live, happenings)).Some? ==>
              Serial(live).Some? && Serial(Run(UpdateStep, live, happenings)).value >= Serial(live).value
    decreases |happenings|
  {
    if happenings != [] {
      var n := |happenings| - 1;
      var before := happenings[..n];
      assert forall h | h in before :: h in happenings;
      assert happenings[n] in happenings;
      SerialNeverDrops(live, before);
      HappeningSerial(Run(UpdateStep, live, before), happenings[n]);
    }
  }

  /** A single SOA record, with room above its serial. */
  predicate Climbs(z: Zone) {
    Serial(z).Some? && Serial(z).value != MAX_SERIAL
  }

  /** Every zone on the way, the last one aside, is such a zone. */
  ghost predicate AllClimb(live: Zone, happenings: seq<Happening>) {
    happenings == [] ||
    (AllClimb(live, happenings[..|happenings| - 1]) && Climbs(Run(UpdateStep, live, happenings[..|happenings| - 1])))
  }

  lemma HappeningSerial(live: Zone, h: Happening)
    requires Sound(live) && (h.Batch? ==> SafeBatch(live.origin, h.items))
    ensures Sound(UpdateStep(live, h)) && UpdateStep(live, h).origin == live.origin
    ensures Climbs(live) && Serial(UpdateStep(live, h)).Some? ==>
              Serial(UpdateStep(live, h)).value >= Serial(live).value
  {
    match h
    case Batch(items) =>
      SoundSerial(live);
      UpdateSerial(live, items);
    case Rotate(z) =>
      if IsRotation(live, z) {
        RotationKeeps(live, z);
      }
  }

  /** With several SOA records there is no such bound: a query that swaps two of them
      lowers the serial a transfer would start from. */
  lemma RotationLowers(z: Zone, x: Rdata, y: Rdata) returns (z': Zone)
    requires ApexSOA(z).Some? && ApexSOA(z).value.rdatas == [x, y]
    requires x.SoaData? && y.SoaData? && y.serial < x.serial
    ensures IsRotation(z, z') && ApexSerial(z').Some? && ApexSerial(z').value < ApexSerial(z).value
  {
    var node := z.nodes[z.origin];
    var soa := node.data.value[SOA].value;
    var data := node.data.value[SOA := Some(soa.(rdatas := [y, x]))];
    z' := z.(nodes := z.nodes[z.origin := node.(data := Some(data))]);
    assert IsRotatedEntry(Some(soa), data[SOA]);
    forall n | n in z.nodes ensures IsRotatedNode(z.nodes[n], z'.nodes[n]) {
      ReflexiveNode(z.nodes[n]);
    }
  }

  lemma ReflexiveNode(a: Node)
    ensures IsRotatedNode(a, a)
  {
  }

  lemma SoundSerial(z: Zone)
    requires Sound(z)
    ensures ApexSerial(z).Some?
  {
    assert Holds(z, z.origin, SOA);
    assert ApexSOA(z).value.rdatas[0] in ApexSOA(z).value.rdatas;
  }

  lemma UpdateSerial(live: Zone, batch: seq<Item>)
    requires Sound(live) && SafeBatch(live.origin, batch) && ApexSerial(live).Some?
    ensures Sound(Update(live, batch).0) && Update(live, batch).0.origin == live.origin
    ensures ApexSerial(Update(live, batch).0).Some?
    ensures ApexSerial(live).value != MAX_SERIAL ==>
              ApexSerial(Update(live, batch).0).value >= ApexSerial(live).value
  {
    SafeUpdate(live, batch);
    if Update(live, batch).1 == Published {
      PublishedSerial(live, batch);
    }
  }

  // ----- batches that are not safe

  /** A standard "delete the RRset" record for the apex NS set: no rdata at all. */
  function NSDelete(origin: Name, tree: set<Name>): Item {
    Item(RRset(origin, NS, CLASS_ANY, 0, []), tree)
  }

  lemma {:induction false} NothingSubtracted(rdatas: seq<Rdata>)
    ensures RdatasDiff(rdatas, []) == rdatas
  {
    if rdatas != [] {
      NothingSubtracted(rdatas[1..]);
    }
  }

  lemma NSDeleteApplies(live: Zone, tree: set<Name>)
    requires ZoneInv(live) && RRsetAt(live, live.origin, NS).Some?
    requires RRsetAt(live, live.origin, NS).value.rdatas != []
    ensures Apply(live, ToOp(NSDelete(live.origin, tree))) == (EraseType(live, live.origin, NS, tree), Done)
  {
    NothingSubtracted(RRsetAt(live, live.origin, NS).value.rdatas);
  }

  lemma OneItem(z: Zone, item: Item)
    ensures Apply(z, ToOp(item)).1 == Done ==>
              ApplyBatch(z, [item], false, false) == Applied(Apply(z, ToOp(item)).0, item.rr.typ == SOA, true)
    ensures NsKeyAfter(z.origin, [item], true) == NsKeyStep(z.origin, item, true)
  {
    assert [item][1..] == [];
    assert forall z', e :: ApplyBatch(z', [], e, true) == Applied(z', e, true);
  }

  /** The guard against losing the NS set subtracts only the rdatas it is given, so one
      class ANY delete without rdata passes it: Commit then refuses the zone, but the
      live serial has already been raised. */
  lemma NSDeleteLeaksSerial(live: Zone, tree: set<Name>)
    requires LiveInv(live) && Serial(live).Some? && RRsetAt(live, live.origin, NS).Some?
    requires RRsetAt(live, live.origin, NS).value.rdatas != []
    ensures var (live', end) := Update(live, [NSDelete(live.origin, tree)]);
            && end == CommitRefused(ShortOfNS)
            && Serial(live') == Some(Inc32(Serial(live).value))
  {
    var batch := [NSDelete(live.origin, tree)];
    NSDeleteApplies(live, tree);
    OneItem(live, batch[0]);
    assert !NsKeyStep(live.origin, batch[0], true);
    assert DropsApexNS(live, batch);
    AllOrNothingExactly(live, batch);
    BumpKeeps(live);
  }

  /** Followed by deleting the whole apex, which copies the absent NS entry, the same
      delete even publishes a zone whose apex NS is a nil pointer. */
  lemma NilNSPublished(live: Zone, tree: set<Name>)
    requires LiveInv(live) && Serial(live).Some? && RRsetAt(live, live.origin, NS).Some?
    requires RRsetAt(live, live.origin, NS).value.rdatas != []
    ensures var batch := [NSDelete(live.origin, tree), Item(RRset(live.origin, ANY, CLASS_ANY, 0, []), tree)];
            var (live', end) := Update(live, batch);
            end == Published && Holds(live', live.origin, NS) && RRsetAt(live', live.origin, NS) == None
  {
    var batch := [NSDelete(live.origin, tree), Item(RRset(live.origin, ANY, CLASS_ANY, 0, []), tree)];
    NSDeleteApplies(live, tree);
    var without := EraseType(live, live.origin, NS, tree);
    EraseTypeApex(live, live.origin, NS, tree, SOA);
    EraseTypeApex(live, live.origin, NS, tree, NS);
    ApexCleared(without, tree);
    TwoItems(live, batch[0], batch[1]);
    UpdateRefines(live, batch);
    NilNSEnds(live, EraseDomain(without, live.origin, tree).0);
  }

  lemma ApexCleared(z: Zone, tree: set<Name>)
    requires ApexSOA(z).Some? && !Holds(z, z.origin, NS)
    ensures var (z', o) := EraseDomain(z, z.origin, tree);
            && o == Done && z'.origin == z.origin && ApexSOA(z') == ApexSOA(z)
            && Holds(z', z.origin, NS) && RRsetAt(z', z.origin, NS) == None
  {
  }

  lemma NilNSEnds(live: Zone, z: Zone)
    requires Serial(z).Some? && Holds(z, z.origin, NS) && RRsetAt(z, z.origin, NS) == None
    ensures var (live', end) := EndOf(live, z, false, true);
            end == Published && Holds(live', z.origin, NS) && RRsetAt(live', z.origin, NS) == None
  {
    BumpedKeys(z);
  }

  lemma TwoItems(z: Zone, a: Item, b: Item)
    requires Apply(z, ToOp(a)).1 == Done && Apply(Apply(z, ToOp(a)).0, ToOp(b)).1 == Done
    requires a.rr.typ != SOA && b.rr.typ != SOA
    ensures ApplyBatch(z, [a, b], false, false) == Applied(Apply(Apply(z, ToOp(a)).0, ToOp(b)).0, false, true)
  {
    var (z1, z2) := (Apply(z, ToOp(a)).0, Apply(Apply(z, ToOp(a)).0, ToOp(b)).0);
    assert [a, b][1..] == [b] && [b][1..] == [];
    assert ApplyBatch(z2, [], false, true) == Applied(z2, false, true);
    assert ApplyBatch(z1, [b], false, true) == ApplyBatch(z2, [], false, true);
  }
}
