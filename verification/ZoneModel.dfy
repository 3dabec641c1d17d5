/** The authoritative zone as a value, its update operations, and the
    invariants every add and delete keeps.

    The domain tree is a map from names to nodes.  Two effects of the unseen tree
    are left open and range over every choice: `split`, the internal nodes an
    insertion may create (empty and unflagged), and `drop`, the nodes a removal
    may prune (empty, with no data below them). */
module ZoneModel {
  import opened Dns
  import opened Runs

  /** A node's `NameNode`; None is a nil RRset pointer stored under a type. */
  type NodeData = map<RRType, Option<RRset>>

  /** A tree node; D is what it stores. */
  datatype TreeNode<D> = Node(data: Option<D>, cut: bool, wild: bool)

  type Node = TreeNode<NodeData>

  datatype Zone = Zone(origin: Name, nodes: map<Name, Node>)

  datatype ZoneError =
    | NoEffectiveUpdate | OutOfZone | CNameCoExists | ShortOfSOA | ShortOfNS | UnknownRRset | DuplicateRdata | LoadAborted

  datatype Outcome = Done | Refused(error: ZoneError) | Panicked

  datatype Op =
    | Add(rr: RRset, split: set<Name>)
    | DeleteRRset(rr: RRset, drop: set<Name>)
    | DeleteRr(rr: RRset, drop: set<Name>)
    | DeleteDomain(name: Name, drop: set<Name>)
    | IncreaseSerial

  // ----- reading

  function NewZone(origin: Name): Zone {
    Zone(origin, map[origin := Node(None, false, false)])
  }

  predicate HasData<D>(nodes: map<Name, TreeNode<D>>, n: Name) {
    n in nodes && nodes[n].data.Some?
  }

  predicate Holds(z: Zone, n: Name, t: RRType) {
    HasData(z.nodes, n) && t in z.nodes[n].data.value
  }

  /** The RRset pointer stored at a name and type, nil (None) when absent. */
  function RRsetAt(z: Zone, n: Name, t: RRType): Option<RRset> {
    if Holds(z, n, t) then z.nodes[n].data.value[t] else None
  }

  /** `validate`: what Commit and Load ask of a zone before it goes live. */
  predicate IsPublishable(z: Zone) {
    Holds(z, z.origin, SOA) && Holds(z, z.origin, NS)
  }

  function Validate(z: Zone): Outcome {
    if !Holds(z, z.origin, SOA) then Refused(ShortOfSOA)
    else if !Holds(z, z.origin, NS) then Refused(ShortOfNS)
    else Done
  }

  /** The apex serial, when the apex holds exactly one SOA record. */
  function Serial(z: Zone): Option<uint32> {
    var soa := RRsetAt(z, z.origin, SOA);
    if soa.Some? && |soa.value.rdatas| == 1 then FirstSerial(soa.value.rdatas) else None
  }

  // ----- the tree

  function InsertNode<D>(nodes: map<Name, TreeNode<D>>, n: Name, split: set<Name>): map<Name, TreeNode<D>> {
    map m | m in nodes.Keys + split + {n} :: if m in nodes then nodes[m] else Node(None, false, false)
  }

  predicate Prunable<D>(nodes: map<Name, TreeNode<D>>, m: Name) {
    m in nodes && nodes[m].data.None? && forall k | k in nodes && m < k :: nodes[k].data.None?
  }

  function RemoveNode<D>(nodes: map<Name, TreeNode<D>>, origin: Name, n: Name, drop: set<Name>)
    : map<Name, TreeNode<D>>
    requires n in nodes
  {
    var emptied := nodes[n := nodes[n].(data := None)];
    map m | m in emptied && !(m in drop && m != origin && Prunable(emptied, m)) :: emptied[m]
  }

  // ----- adding

  datatype Stored = Keep(outcome: Outcome) | Store(data: NodeData)

  /** The part of `addRRset` that decides a node's new contents. */
  function StoreRRset(data: Option<NodeData>, rr: RRset): Stored {
    match data
    case None => Store(map[rr.typ := Some(rr)])
    case Some(d) =>
      if !CouldBeAdded(d, rr) then Keep(Refused(CNameCoExists))
      else if rr.typ == SOA then StoreSOA(d, rr)
      else if rr.typ !in d || rr.typ == CNAME then Store(d[rr.typ := Some(rr)])
      else MergeInto(d, rr)
  }

  predicate CouldBeAdded(d: NodeData, rr: RRset) {
    if rr.typ != CNAME then CNAME !in d else |d| <= 1 && CNAME in d
  }

  function StoreSOA(d: NodeData, rr: RRset): Stored {
    if SOA !in d || d[SOA].None? then Store(d[SOA := Some(rr)])
    else
      match (FirstSerial(d[SOA].value.rdatas), FirstSerial(rr.rdatas))
      case (Some(was), Some(next)) => if was >= next then Keep(Done) else Store(d[SOA := Some(rr)])
      case _ => Keep(Panicked)
  }

  function MergeInto(d: NodeData, rr: RRset): Stored
    requires rr.typ in d
  {
    match d[rr.typ]
    case None => Keep(Panicked)
    case Some(was) =>
      var merged := MergeRdatas(was.rdatas, rr.rdatas);
      if |merged| == |was.rdatas| && rr.ttl == was.ttl then Keep(Refused(DuplicateRdata))
      else Store(d[rr.typ := Some(was.(ttl := rr.ttl, rdatas := merged))])
  }

  function CheckAddable(z: Zone, rr: RRset): Outcome {
    if rr.typ == NS && IsWildCard(rr.name) then Refused(NoEffectiveUpdate)
    else if !IsSubDomain(rr.name, z.origin) then Refused(OutOfZone)
    else Done
  }

  function AddRRset(z: Zone, rr: RRset, split: set<Name>): (Zone, Outcome) {
    var check := CheckAddable(z, rr);
    if check != Done then (z, check)
    else
      var nodes := InsertNode(z.nodes, rr.name, split);
      match StoreRRset(nodes[rr.name].data, rr)
      case Keep(o) => (z.(nodes := nodes), o)
      case Store(d) => (z.(nodes := MarkParent(PutData(z.origin, nodes, rr.name, rr.typ, d), rr.name)), Done)
  }

  /** Store the data and flag the zone cut. */
  function PutData<D>(origin: Name, nodes: map<Name, TreeNode<D>>, n: Name, t: RRType, d: D): map<Name, TreeNode<D>>
    requires n in nodes
  {
    nodes[n := nodes[n].(data := Some(d), cut := nodes[n].cut || (t == NS && n != origin))]
  }

  /** `markWildcardParent`, called for wildcard owners. */
  function MarkParent<D>(nodes: map<Name, TreeNode<D>>, n: Name): map<Name, TreeNode<D>> {
    if !IsWildCard(n) then nodes
    else
      var inserted := InsertNode(nodes, Parent(n), {});
      inserted[Parent(n) := inserted[Parent(n)].(wild := true)]
  }

  // ----- deleting

  function CheckDeletable(z: Zone, rr: RRset): Outcome {
    if !IsSubDomain(rr.name, z.origin) then Refused(OutOfZone)
    else if rr.name == z.origin && rr.typ == SOA then Refused(ShortOfSOA)
    else if rr.name == z.origin && rr.typ == NS then
      var ns := RRsetAt(z, z.origin, NS);
      if ns.None? then Panicked
      else if RdatasDiff(ns.value.rdatas, rr.rdatas) == [] then Refused(ShortOfNS)
      else Done
    else Done
  }

  /** `deleteNode`: the tree's removal, then `unmarkWildcardParent`. */
  function PruneNode<D>(nodes: map<Name, TreeNode<D>>, origin: Name, n: Name, drop: set<Name>)
    : map<Name, TreeNode<D>>
    requires n in nodes
  {
    var left := RemoveNode(nodes, origin, n, drop);
    if IsWildCard(n) && Parent(n) in left then left[Parent(n) := left[Parent(n)].(wild := false)] else left
  }

  function DeleteNode(z: Zone, n: Name, drop: set<Name>): Zone
    requires n in z.nodes
  {
    z.(nodes := PruneNode(z.nodes, z.origin, n, drop))
  }

  function EraseType(z: Zone, n: Name, t: RRType, drop: set<Name>): Zone
    requires Holds(z, n, t)
  {
    var left := z.nodes[n].data.value - {t};
    if left == map[] then DeleteNode(z, n, drop)
    else z.(nodes := z.nodes[n := z.nodes[n].(data := Some(left))])
  }

  function EraseRRset(z: Zone, rr: RRset, drop: set<Name>): (Zone, Outcome) {
    var check := CheckDeletable(z, rr);
    if check != Done then (z, check)
    else if !Holds(z, rr.name, rr.typ) then (z, Refused(UnknownRRset))
    else (EraseType(z, rr.name, rr.typ, drop), Done)
  }

  function EraseRr(z: Zone, rr: RRset, drop: set<Name>): (Zone, Outcome) {
    var check := CheckDeletable(z, rr);
    if check != Done then (z, check)
    else if !Holds(z, rr.name, rr.typ) then (z, Refused(UnknownRRset))
    else
      match RRsetAt(z, rr.name, rr.typ)
      case None => (z, Panicked)
      case Some(was) =>
        (KeepRdatas(z, rr.name, rr.typ, was, RdatasDiff(was.rdatas, rr.rdatas), drop), Done)
  }

  /** The RRset with only the records left, or gone with its last one. */
  function KeepRdatas(z: Zone, n: Name, t: RRType, was: RRset, left: seq<Rdata>, drop: set<Name>): Zone
    requires Holds(z, n, t)
  {
    if left == [] then EraseType(z, n, t, drop)
    else
      var node := z.nodes[n];
      z.(nodes := z.nodes[n := node.(data := Some(node.data.value[t := Some(was.(rdatas := left))]))])
  }

  function EraseDomain(z: Zone, n: Name, drop: set<Name>): (Zone, Outcome) {
    if !IsSubDomain(n, z.origin) then (z, Refused(OutOfZone))
    else if !HasData(z.nodes, n) then (z, Refused(UnknownRRset))
    else if n == z.origin then
      var kept: NodeData := map[SOA := RRsetAt(z, n, SOA), NS := RRsetAt(z, n, NS)];
      (z.(nodes := z.nodes[n := z.nodes[n].(data := Some(kept))]), Done)
    else (DeleteNode(z, n, drop), Done)
  }

  // ----- the serial

  /** The zone with another serial in its apex SOA and nothing else changed. */
  function WithSerial(z: Zone, serial: uint32): Zone
    requires Serial(z).Some?
  {
    var node := z.nodes[z.origin];
    var soa := node.data.value[SOA].value;
    var moved := soa.(rdatas := [soa.rdatas[0].(serial := serial)]);
    z.(nodes := z.nodes[z.origin := node.(data := Some(node.data.value[SOA := Some(moved)]))])
  }

  function BumpSOA(z: Zone): Zone
    requires Serial(z).Some?
  {
    WithSerial(z, Inc32(Serial(z).value))
  }

  function RaiseSerial(z: Zone): (Zone, Outcome) {
    if Serial(z).Some? then (BumpSOA(z), Done) else (z, Panicked)
  }

  function Apply(z: Zone, op: Op): (Zone, Outcome) {
    match op
    case Add(rr, split) => AddRRset(z, rr, split)
    case DeleteRRset(rr, drop) => EraseRRset(z, rr, drop)
    case DeleteRr(rr, drop) => EraseRr(z, rr, drop)
    case DeleteDomain(n, drop) => EraseDomain(z, n, drop)
    case IncreaseSerial => RaiseSerial(z)
  }

  function ApplyStep(z: Zone, op: Op): Zone {
    Apply(z, op).0
  }

  /** The zone after any sequence of operations, each successful or refused. */
  function ApplyAll(z: Zone, ops: seq<Op>): Zone {
    Run(ApplyStep, z, ops)
  }

  // ----- invariants

  ghost predicate DataInv(origin: Name, n: Name, d: NodeData) {
    && IsSubDomain(n, origin)
    && d != map[]
    && (CNAME in d ==> d.Keys == {CNAME})
    && (forall t | t in d :: EntryInv(origin, n, t, d[t]))
  }

  /** A stored RRset carries the name and type it is filed under; only the apex
      SOA and NS entries can be nil. */
  ghost predicate EntryInv(origin: Name, n: Name, t: RRType, entry: Option<RRset>) {
    match entry
    case Some(r) => r.name == n && r.typ == t
    case None => n == origin && (t == SOA || t == NS)
  }

  ghost predicate NodeInv(origin: Name, n: Name, node: Node) {
    && (node.data.Some? ==> DataInv(origin, n, node.data.value))
    && (node.cut ==> origin < n)
  }

  ghost predicate MarksSound(nodes: map<Name, Node>) {
    forall n {:trigger nodes[n].wild} | n in nodes && nodes[n].wild :: HasData(nodes, n + [WILDCARD])
  }

  ghost predicate MarksComplete(nodes: map<Name, Node>) {
    forall m {:trigger IsWildCard(m)} | m in nodes && nodes[m].data.Some? && IsWildCard(m) ::
      Parent(m) in nodes && nodes[Parent(m)].wild
  }

  ghost predicate ZoneInv(z: Zone) {
    && z.origin in z.nodes
    && (forall n | n in z.nodes :: NodeInv(z.origin, n, z.nodes[n]))
    && MarksSound(z.nodes)
    && MarksComplete(z.nodes)
  }
}
