/** The zone on the heap: nodes whose maps are updated in place and RRset objects
    shared by reference between the live zone and a transaction's copy.  Every
    operation refines the value-level one of ZoneModel and writes no RRset object,
    except the serial bump, which writes the apex SOA object wherever it is shared. */
module MemoryZones {
  import opened Dns
  import opened ZoneModel

  class RRsetObject {
    const name: Name
    const typ: RRType
    const class_: RRClass
    const ttl: nat
    var rdatas: seq<Rdata>

    constructor (name: Name, typ: RRType, class_: RRClass, ttl: nat, rdatas: seq<Rdata>)
      ensures Val() == RRset(name, typ, class_, ttl, rdatas)
      ensures this.name == name && this.typ == typ
    {
      this.name, this.typ, this.class_, this.ttl, this.rdatas := name, typ, class_, ttl, rdatas;
    }

    ghost function Val(): RRset
      reads this
    {
      RRset(name, typ, class_, ttl, rdatas)
    }
  }

  type HeapData = map<RRType, RRsetObject?>

  class NodeObject {
    const name: Name
    var data: Option<HeapData>
    var cut: bool
    var wild: bool

    constructor (name: Name, data: Option<HeapData>, cut: bool, wild: bool)
      ensures this.name == name && this.data == data && this.cut == cut && this.wild == wild
    {
      this.name, this.data, this.cut, this.wild := name, data, cut, wild;
    }
  }

  // ----- what nodes and maps denote, given the RRset objects they refer to

  /** The nodes of a zone with pointers not followed. */
  type Shape = TreeNode<HeapData>

  type Shapes = map<Name, Shape>

  ghost function DataRefs(d: HeapData): set<RRsetObject> {
    set t | t in d && d[t] != null :: d[t]
  }

  ghost function ShapeRefs(sh: Shape): set<RRsetObject> {
    if sh.data.Some? then DataRefs(sh.data.value) else {}
  }

  ghost function Refs(shapes: Shapes): set<RRsetObject> {
    set n, o | n in shapes && o in ShapeRefs(shapes[n]) :: o
  }

  ghost function EntryVal(o: RRsetObject?): Option<RRset>
    reads o
  {
    if o == null then None else Some(o.Val())
  }

  ghost function DataVal(d: HeapData): NodeData
    reads DataRefs(d)
  {
    map t | t in d :: EntryVal(d[t])
  }

  ghost function OptDataVal(data: Option<HeapData>): Option<NodeData>
    reads if data.Some? then DataRefs(data.value) else {}
  {
    match data
    case None => None
    case Some(d) => Some(DataVal(d))
  }

  ghost function ShapeVal(sh: Shape): Node
    reads ShapeRefs(sh)
  {
    Node(OptDataVal(sh.data), sh.cut, sh.wild)
  }

  ghost function Deref(shapes: Shapes): map<Name, Node>
    reads Refs(shapes)
  {
    map n | n in shapes :: ShapeVal(shapes[n])
  }

  twostate lemma DataUnchanged(d: HeapData)
    requires forall o | o in DataRefs(d) :: o.rdatas == old(o.rdatas)
    ensures DataVal(d) == old(DataVal(d))
  {
    forall t | t in d ensures EntryVal(d[t]) == old(EntryVal(d[t])) {
      assert d[t] != null ==> d[t] in DataRefs(d);
    }
  }

  twostate lemma DerefUnchanged(shapes: Shapes)
    requires forall o | o in Refs(shapes) :: o.rdatas == old(o.rdatas)
    ensures Deref(shapes) == old(Deref(shapes))
  {
    forall n | n in shapes ensures ShapeVal(shapes[n]) == old(ShapeVal(shapes[n])) {
      if shapes[n].data.Some? {
        assert DataRefs(shapes[n].data.value) == ShapeRefs(shapes[n]) <= Refs(shapes);
        DataUnchanged(shapes[n].data.value);
      }
    }
  }

  // ----- following pointers commutes with the tree operations

  lemma DerefUpdate(shapes: Shapes, n: Name, sh: Shape)
    ensures Deref(shapes[n := sh]) == Deref(shapes)[n := ShapeVal(sh)]
  {
  }

  lemma DerefInsert(shapes: Shapes, n: Name, split: set<Name>)
    ensures Deref(InsertNode(shapes, n, split)) == InsertNode(Deref(shapes), n, split)
  {
  }

  lemma DerefPut(shapes: Shapes, origin: Name, n: Name, t: RRType, d: HeapData)
    requires n in shapes
    ensures Deref(PutData(origin, shapes, n, t, d)) == PutData(origin, Deref(shapes), n, t, DataVal(d))
  {
    DerefUpdate(shapes, n, PutData(origin, shapes, n, t, d)[n]);
  }

  lemma DerefMark(shapes: Shapes, n: Name)
    ensures Deref(MarkParent(shapes, n)) == MarkParent(Deref(shapes), n)
  {
    if IsWildCard(n) {
      DerefInsert(shapes, Parent(n), {});
      var inserted := InsertNode(shapes, Parent(n), {});
      DerefUpdate(inserted, Parent(n), inserted[Parent(n)].(wild := true));
    }
  }

  lemma DerefPrunable(shapes: Shapes, m: Name)
    ensures Prunable(Deref(shapes), m) <==> Prunable(shapes, m)
  {
    assert forall k | k in shapes :: Deref(shapes)[k].data.None? <==> shapes[k].data.None?;
  }

  lemma DerefRemove(shapes: Shapes, origin: Name, n: Name, drop: set<Name>)
    requires n in shapes
    ensures Deref(RemoveNode(shapes, origin, n, drop)) == RemoveNode(Deref(shapes), origin, n, drop)
  {
    var emptied := shapes[n := shapes[n].(data := None)];
    DerefUpdate(shapes, n, emptied[n]);
    forall m ensures Prunable(Deref(emptied), m) <==> Prunable(emptied, m) {
      DerefPrunable(emptied, m);
    }
  }

  lemma DerefPrune(shapes: Shapes, origin: Name, n: Name, drop: set<Name>)
    requires n in shapes
    ensures Deref(PruneNode(shapes, origin, n, drop)) == PruneNode(Deref(shapes), origin, n, drop)
  {
    var left := RemoveNode(shapes, origin, n, drop);
    DerefRemove(shapes, origin, n, drop);
    if IsWildCard(n) && Parent(n) in left {
      DerefUpdate(left, Parent(n), left[Parent(n)].(wild := false));
    }
  }

  lemma DataValUpdate(d: HeapData, t: RRType, o: RRsetObject?)
    ensures DataVal(d[t := o]) == DataVal(d)[t := EntryVal(o)]
  {
  }

  lemma DataValErase(d: HeapData, t: RRType)
    ensures DataVal(d - {t}) == DataVal(d) - {t}
    ensures d - {t} == map[] <==> DataVal(d) - {t} == map[]
  {
    assert DataVal(d).Keys - {t} == (DataVal(d) - {t}).Keys;
    assert d.Keys - {t} == (d - {t}).Keys;
  }

  function SoaEntry(data: Option<HeapData>): RRsetObject? {
    if data.Some? && SOA in data.value then data.value[SOA] else null
  }

  // ----- deciding what to store

  /** What `addRRset` decides for a node: leave it, or file new data. */
  datatype HeapStored = HeapKeep(outcome: Outcome) | HeapStore(data: HeapData)

  ghost function StoredVal(r: HeapStored): Stored
    reads if r.HeapStore? then DataRefs(r.data) else {}
  {
    match r
    case HeapKeep(o) => Keep(o)
    case HeapStore(d) => Store(DataVal(d))
  }

  /** The `AddRdata` loop over a clone of the old RRset. */
  method MergeLoop(was: seq<Rdata>, more: seq<Rdata>) returns (merged: seq<Rdata>, allDuplicate: bool)
    ensures merged == MergeRdatas(was, more)
    ensures allDuplicate <==> |merged| == |was|
  {
    merged, allDuplicate := was, true;
    for i := 0 to |more|
      invariant merged == MergeRdatas(was, more[..i])
      invariant |merged| >= |was| && (allDuplicate <==> |merged| == |was|)
    {
      MergeRdatasAppend(was, more[..i], more[i]);
      assert more[..i + 1] == more[..i] + [more[i]];
      if more[i] !in merged {
        merged := merged + [more[i]];
        allDuplicate := false;
      }
    }
    assert more[..|more|] == more;
  }

  method MergeObjects(was: RRsetObject, rr: RRsetObject) returns (merged: RRsetObject, duplicate: bool)
    ensures fresh(merged)
    ensures merged.Val() == was.Val().(ttl := rr.ttl, rdatas := MergeRdatas(was.rdatas, rr.rdatas))
    ensures duplicate <==> |merged.rdatas| == |was.rdatas| && rr.ttl == was.ttl
  {
    var rdatas, allDuplicate := MergeLoop(was.rdatas, rr.rdatas);
    merged := new RRsetObject(was.name, was.typ, was.class_, rr.ttl, rdatas);
    duplicate := allDuplicate && rr.ttl == was.ttl;
  }

  /** `checkRRsetCouldBeAdded` and the branches that file the RRset. */
  method Decide(data: Option<HeapData>, rr: RRsetObject) returns (r: HeapStored)
    ensures StoredVal(r) == StoreRRset(OptDataVal(data), rr.Val())
    ensures r.HeapStore? ==> SoaEntry(Some(r.data)) == if rr.typ == SOA then rr else SoaEntry(data)
    ensures r.HeapStore? && rr.typ == SOA && SoaEntry(data) != null ==>
              FirstSerial(SoaEntry(data).rdatas) != FirstSerial(rr.rdatas)
  {
    if data == None {
      r := HeapStore(map[rr.typ := rr]);
      assert DataVal(r.data) == map[rr.typ := Some(rr.Val())];
      return;
    }
    var d := data.value;
    assert DataVal(d).Keys == d.Keys;
    if rr.typ != CNAME {
      if CNAME in d {
        return HeapKeep(Refused(CNameCoExists));
      }
    } else if |d.Keys| > 1 || CNAME !in d {
      return HeapKeep(Refused(CNameCoExists));
    }
    if rr.typ in d && d[rr.typ] != null && rr.typ == SOA {
      var was, next := FirstSerial(d[SOA].rdatas), FirstSerial(rr.rdatas);
      if was.None? || next.None? {
        return HeapKeep(Panicked);
      }
      if was.value >= next.value {
        return HeapKeep(Done);
      }
    } else if rr.typ in d && rr.typ != SOA && rr.typ != CNAME {
      if d[rr.typ] == null {
        return HeapKeep(Panicked);
      }
      var merged, duplicate := MergeObjects(d[rr.typ], rr);
      if duplicate {
        return HeapKeep(Refused(DuplicateRdata));
      }
      DataValUpdate(d, rr.typ, merged);
      return HeapStore(d[rr.typ := merged]);
    }
    DataValUpdate(d, rr.typ, rr);
    return HeapStore(d[rr.typ := rr]);
  }

  /** `addRRset` with pointers not followed, given what was decided for the node. */
  ghost function AddShape(origin: Name, shapes: Shapes, rr: RRsetObject, split: set<Name>, r: HeapStored): Shapes {
    var inserted := InsertNode(shapes, rr.name, split);
    match r
    case HeapKeep(_) => inserted
    case HeapStore(d) => MarkParent(PutData(origin, inserted, rr.name, rr.typ, d), rr.name)
  }

  lemma DerefAdd(origin: Name, shapes: Shapes, rr: RRsetObject, split: set<Name>, r: HeapStored)
    requires StoredVal(r) == StoreRRset(OptDataVal(InsertNode(shapes, rr.name, split)[rr.name].data), rr.Val())
    requires CheckAddable(Zone(origin, Deref(shapes)), rr.Val()) == Done
    ensures AddRRset(Zone(origin, Deref(shapes)), rr.Val(), split) ==
            (Zone(origin, Deref(AddShape(origin, shapes, rr, split, r))), if r.HeapKeep? then r.outcome else Done)
  {
    var inserted := InsertNode(shapes, rr.name, split);
    DerefInsert(shapes, rr.name, split);
    assert Deref(inserted)[rr.name].data == OptDataVal(inserted[rr.name].data);
    match r
    case HeapKeep(_) =>
    case HeapStore(d) =>
      DerefPut(inserted, origin, rr.name, rr.typ, d);
      DerefMark(PutData(origin, inserted, rr.name, rr.typ, d), rr.name);
  }

  /** Adding leaves the apex SOA pointer alone or makes it the added object. */
  lemma AddShapeSoa(origin: Name, shapes: Shapes, rr: RRsetObject, split: set<Name>, r: HeapStored)
    requires origin in shapes
    requires r.HeapStore? ==>
               SoaEntry(Some(r.data)) ==
               if rr.typ == SOA then rr else SoaEntry(InsertNode(shapes, rr.name, split)[rr.name].data)
    ensures var next := AddShape(origin, shapes, rr, split, r);
            && origin in next
            && (SoaEntry(next[origin].data) == SoaEntry(shapes[origin].data) ||
                (r.HeapStore? && rr.typ == SOA && rr.name == origin && SoaEntry(next[origin].data) == rr))
  {
  }

  /** Dropping a type, and the node with its last type. */
  ghost function EraseShape(origin: Name, shapes: Shapes, n: Name, t: RRType, drop: set<Name>): Shapes
    requires n in shapes && shapes[n].data.Some?
  {
    var left := shapes[n].data.value - {t};
    if left == map[] then PruneNode(shapes, origin, n, drop)
    else shapes[n := shapes[n].(data := Some(left))]
  }

  lemma DerefErase(origin: Name, shapes: Shapes, n: Name, t: RRType, drop: set<Name>)
    requires n in shapes && shapes[n].data.Some? && t in shapes[n].data.value
    ensures Holds(Zone(origin, Deref(shapes)), n, t)
    ensures Deref(EraseShape(origin, shapes, n, t, drop)) ==
            EraseType(Zone(origin, Deref(shapes)), n, t, drop).nodes
  {
    var d := shapes[n].data.value;
    assert Deref(shapes)[n].data == Some(DataVal(d));
    DataValErase(d, t);
    if d - {t} == map[] {
      DerefPrune(shapes, origin, n, drop);
    } else {
      DerefUpdate(shapes, n, shapes[n].(data := Some(d - {t})));
    }
  }

  /** Dropping another type than SOA leaves the apex SOA pointer alone. */
  lemma EraseShapeSoa(origin: Name, shapes: Shapes, n: Name, t: RRType, drop: set<Name>)
    requires origin in shapes
    requires n in shapes && shapes[n].data.Some? && (n == origin ==> t != SOA)
    ensures var next := EraseShape(origin, shapes, n, t, drop);
            origin in next && SoaEntry(next[origin].data) == SoaEntry(shapes[origin].data)
  {
    var d := shapes[n].data.value;
    if n == origin && SOA in d {
      assert SOA in d - {t};
    }
  }

  /** One entry of one node replaced. */
  ghost function RefileShape(shapes: Shapes, n: Name, t: RRType, o: RRsetObject): Shapes
    requires n in shapes && shapes[n].data.Some?
  {
    shapes[n := shapes[n].(data := Some(shapes[n].data.value[t := o]))]
  }

  lemma DerefRefile(shapes: Shapes, n: Name, t: RRType, o: RRsetObject)
    requires n in shapes && shapes[n].data.Some?
    ensures Deref(shapes)[n].data.Some?
    ensures Deref(RefileShape(shapes, n, t, o)) ==
            var node := Deref(shapes)[n];
            Deref(shapes)[n := node.(data := Some(node.data.value[t := Some(o.Val())]))]
  {
    DataValUpdate(shapes[n].data.value, t, o);
    DerefUpdate(shapes, n, RefileShape(shapes, n, t, o)[n]);
  }

  /** The apex with only its SOA and NS entries. */
  function ApexOnly(d: HeapData): HeapData {
    map[SOA := if SOA in d then d[SOA] else null, NS := if NS in d then d[NS] else null]
  }

  ghost function EraseDomainShape(origin: Name, shapes: Shapes, n: Name, drop: set<Name>): Shapes
    requires n in shapes && shapes[n].data.Some?
  {
    if n == origin then shapes[n := shapes[n].(data := Some(ApexOnly(shapes[n].data.value)))]
    else PruneNode(shapes, origin, n, drop)
  }

  lemma DerefEraseDomain(origin: Name, shapes: Shapes, n: Name, drop: set<Name>)
    requires n in shapes && shapes[n].data.Some? && IsSubDomain(n, origin)
    ensures EraseDomain(Zone(origin, Deref(shapes)), n, drop) ==
            (Zone(origin, Deref(EraseDomainShape(origin, shapes, n, drop))), Done)
  {
    if n == origin {
      var z := Zone(origin, Deref(shapes));
      var d := shapes[origin].data.value;
      HoldsDeref(origin, shapes, origin, SOA);
      HoldsDeref(origin, shapes, origin, NS);
      assert DataVal(ApexOnly(d)) == map[SOA := RRsetAt(z, origin, SOA), NS := RRsetAt(z, origin, NS)];
      DerefUpdate(shapes, origin, shapes[origin].(data := Some(ApexOnly(d))));
    } else {
      DerefPrune(shapes, origin, n, drop);
    }
  }

  lemma HoldsDeref(origin: Name, shapes: Shapes, n: Name, t: RRType)
    ensures Holds(Zone(origin, Deref(shapes)), n, t) <==>
            n in shapes && shapes[n].data.Some? && t in shapes[n].data.value
    ensures Holds(Zone(origin, Deref(shapes)), n, t) ==>
              RRsetAt(Zone(origin, Deref(shapes)), n, t) == EntryVal(shapes[n].data.value[t])
  {
  }

  // ----- writing through the apex SOA object

  /** Objects are filed under their own name and type, so none is filed twice. */
  ghost predicate Filed(shapes: Shapes) {
    forall n | n in shapes && shapes[n].data.Some? :: DataFiled(n, shapes[n].data.value)
  }

  ghost predicate DataFiled(n: Name, d: HeapData) {
    forall t | t in d :: FiledUnder(d[t], n, t)
  }

  predicate FiledUnder(o: RRsetObject?, n: Name, t: RRType) {
    o != null ==> o.name == n && o.typ == t
  }

  lemma FiledByInv(z: Zone, shapes: Shapes)
    requires ZoneInv(z) && z.nodes == Deref(shapes)
    ensures Filed(shapes)
  {
    forall n | n in shapes && shapes[n].data.Some? ensures DataFiled(n, shapes[n].data.value) {
      var d := shapes[n].data.value;
      assert NodeInv(z.origin, n, z.nodes[n]);
      forall t | t in d ensures FiledUnder(d[t], n, t) {
        assert z.nodes[n].data.value[t] == EntryVal(d[t]);
        assert EntryInv(z.origin, n, t, z.nodes[n].data.value[t]);
      }
    }
  }

  /** Node values with one entry replaced. */
  function SetEntry(nodes: map<Name, Node>, n: Name, t: RRType, r: RRset): map<Name, Node> {
    if HasData(nodes, n) then nodes[n := nodes[n].(data := Some(nodes[n].data.value[t := Some(r)]))] else nodes
  }

  /** An object that was written, and the nodes that may refer to it. */
  datatype Written = Written(shapes: Shapes, o: RRsetObject)
  {
    predicate IsFiled() {
      && o.name in shapes && shapes[o.name].data.Some?
      && o.typ in shapes[o.name].data.value && shapes[o.name].data.value[o.typ] == o
    }

    predicate IsFiledIn(m: Name) {
      m == o.name && IsFiled()
    }
  }

  /** A write to one object is seen where it is filed and nowhere else. */
  twostate lemma WriteSeen(w: Written)
    requires Filed(w.shapes)
    requires forall p | p in Refs(w.shapes) && p != w.o :: p.rdatas == old(p.rdatas)
    ensures Deref(w.shapes) ==
            if w.IsFiled() then SetEntry(old(Deref(w.shapes)), w.o.name, w.o.typ, w.o.Val())
            else old(Deref(w.shapes))
  {
    forall m | m in w.shapes && w.shapes[m].data.Some?
      ensures DataVal(w.shapes[m].data.value) ==
              if w.IsFiledIn(m) then old(DataVal(w.shapes[m].data.value))[w.o.typ := Some(w.o.Val())]
              else old(DataVal(w.shapes[m].data.value))
    {
      var d := w.shapes[m].data.value;
      assert DataFiled(m, d);
      assert DataRefs(d) == ShapeRefs(w.shapes[m]) <= Refs(w.shapes);
      forall u | u in d ensures EntryVal(d[u]) == if d[u] == w.o then Some(w.o.Val()) else old(EntryVal(d[u])) {
        assert d[u] != null ==> d[u] in DataRefs(d);
      }
    }
  }

  /** A write to an SOA object is seen by the zones whose apex SOA it is. */
  twostate lemma SoaWriteSeen(w: Written)
    requires Filed(w.shapes) && w.o.typ == SOA
    requires forall p | p in Refs(w.shapes) && p != w.o :: p.rdatas == old(p.rdatas)
    ensures Deref(w.shapes) ==
            if w.o.name in w.shapes && SoaEntry(w.shapes[w.o.name].data) == w.o
            then SetEntry(old(Deref(w.shapes)), w.o.name, SOA, w.o.Val())
            else old(Deref(w.shapes))
  {
    WriteSeen(w);
  }

  lemma SoaIsApex(origin: Name, shapes: Shapes)
    requires origin in shapes
    ensures RRsetAt(Zone(origin, Deref(shapes)), origin, SOA) == EntryVal(SoaEntry(shapes[origin].data))
  {
    HoldsDeref(origin, shapes, origin, SOA);
  }

  // ----- the zone

  class MemoryZone {
    const origin: Name
    var domains: map<Name, NodeObject>
    /** The fields of every node, and the node objects; Valid() ties them together. */
    ghost var shapes: Shapes
    ghost var objs: set<NodeObject>

    ghost predicate Valid()
      reads this, objs
    {
      && origin in domains
      && (forall n :: n in shapes <==> n in domains)
      && (forall n | n in domains ::
            && domains[n] in objs && domains[n].name == n
            && shapes[n] == Node(domains[n].data, domains[n].cut, domains[n].wild))
    }

    ghost function Value(): Zone
      reads this, Refs(shapes)
    {
      Zone(origin, Deref(shapes))
    }

    ghost function SoaObject(): RRsetObject?
      reads this
    {
      if origin in shapes then SoaEntry(shapes[origin].data) else null
    }

    constructor (origin: Name)
      ensures Valid() && Value() == NewZone(origin)
      ensures this.origin == origin && fresh(objs)
    {
      this.origin := origin;
      var nd := new NodeObject(origin, None, false, false);
      domains := map[origin := nd];
      shapes, objs := map[origin := Node(None, false, false)], {nd};
    }

    constructor WithDomains(origin: Name, domains: map<Name, NodeObject>, ghost shapes: Shapes, ghost objs: set<NodeObject>)
      requires origin in domains
      requires forall n :: n in shapes <==> n in domains
      requires forall n | n in domains ::
                 domains[n] in objs && domains[n].name == n &&
                 shapes[n] == Node(domains[n].data, domains[n].cut, domains[n].wild)
      ensures Valid() && this.origin == origin && this.shapes == shapes && this.objs == objs
    {
      this.origin, this.domains, this.shapes, this.objs := origin, domains, shapes, objs;
    }

    /** One node of the tree, created empty when it is not there yet. */
    method EnsureNode(n: Name) returns (nd: NodeObject)
      requires Valid()
      modifies this
      ensures Valid() && fresh(objs - old(objs))
      ensures n in domains && domains[n] == nd
      ensures shapes == WithNode(old(shapes), n)
    {
      if n in domains {
        nd := domains[n];
      } else {
        nd := new NodeObject(n, None, false, false);
        domains := domains[n := nd];
        shapes, objs := shapes[n := Node(None, false, false)], objs + {nd};
      }
    }

    /** The tree's `Insert`: the named node, and whatever internal nodes it splits off. */
    method Insert(n: Name, split: set<Name>) returns (nd: NodeObject)
      requires Valid()
      modifies this
      ensures Valid() && fresh(objs - old(objs))
      ensures n in domains && domains[n] == nd
      ensures shapes == InsertNode(old(shapes), n, split)
      decreases split
    {
      if split == {} {
        nd := EnsureNode(n);
        InsertMore(old(shapes), n, {}, n);
      } else {
        var m :| m in split;
        nd := Insert(n, split - {m});
        InsertMore(old(shapes), n, split - {m}, m);
        assert split - {m} + {m} == split;
        var other := EnsureNode(m);
        nd := domains[n];
      }
    }

    /** Write one node's fields in place. */
    method WriteNode(n: Name, data: Option<HeapData>, cut: bool, wild: bool)
      requires Valid() && n in domains
      modifies `shapes, domains[n]
      ensures Valid()
      ensures shapes == old(shapes)[n := Node(data, cut, wild)]
    {
      var nd := domains[n];
      nd.data, nd.cut, nd.wild := data, cut, wild;
      shapes := shapes[n := Node(data, cut, wild)];
    }

    /** `markWildcardParent`. */
    method MarkWildcardParent(n: Name)
      requires Valid() && IsWildCard(n)
      modifies this, objs
      ensures Valid() && fresh(objs - old(objs))
      ensures shapes == MarkParent(old(shapes), n)
    {
      var nd := Insert(Parent(n), {});
      WriteNode(Parent(n), nd.data, nd.cut, true);
    }

    /** The storing half of `addRRset`: data, zone-cut flag, wildcard mark. */
    method FileData(rr: RRsetObject, d: HeapData)
      requires Valid() && rr.name in domains
      modifies this, objs
      ensures Valid() && fresh(objs - old(objs))
      ensures shapes == MarkParent(PutData(origin, old(shapes), rr.name, rr.typ, d), rr.name)
    {
      var nd := domains[rr.name];
      WriteNode(rr.name, Some(d), nd.cut || (rr.typ == NS && rr.name != origin), nd.wild);
      if IsWildCard(rr.name) {
        MarkWildcardParent(rr.name);
      }
    }

    /** `addRRset` up to the point where the node's new contents are known. */
    method Prepare(rr: RRsetObject, split: set<Name>) returns (r: HeapStored, ghost goal: Zone)
      requires Valid()
      requires CheckAddable(Value(), rr.Val()) == Done
      modifies this
      ensures Valid() && fresh(objs - old(objs)) && rr.name in domains
      ensures shapes == InsertNode(old(shapes), rr.name, split)
      ensures ZoneModel.AddRRset(old(Value()), rr.Val(), split) == (goal, if r.HeapKeep? then r.outcome else Done)
      ensures goal == Zone(origin, Deref(AddShape(origin, old(shapes), rr, split, r)))
      ensures r.HeapStore? ==>
                SoaEntry(Some(r.data)) == if rr.typ == SOA then rr else SoaEntry(shapes[rr.name].data)
      ensures r.HeapStore? && rr.typ == SOA && SoaEntry(shapes[rr.name].data) != null ==>
                FirstSerial(SoaEntry(shapes[rr.name].data).rdatas) != FirstSerial(rr.rdatas)
    {
      var nd := Insert(rr.name, split);
      r := Decide(nd.data, rr);
      DerefUnchanged(old(shapes));
      DerefAdd(origin, old(shapes), rr, split, r);
      goal := Zone(origin, Deref(AddShape(origin, old(shapes), rr, split, r)));
    }

    /** The apex SOA pointer becomes rr, which carries another serial. */
    ghost predicate SoaReplacedBy(was: RRsetObject?, rr: RRsetObject)
      reads this, was, rr
    {
      SoaObject() == rr && rr.typ == SOA && (was != null ==> FirstSerial(was.rdatas) != FirstSerial(rr.rdatas))
    }

    /** `addRRset`. */
    method AddRRset(rr: RRsetObject, split: set<Name>) returns (res: Outcome)
      requires Valid()
      modifies this, objs
      ensures Valid() && fresh(objs - old(objs))
      ensures (Value(), res) == ZoneModel.AddRRset(old(Value()), rr.Val(), split)
      ensures SoaObject() == old(SoaObject()) || SoaReplacedBy(old(SoaObject()), rr)
    {
      if rr.typ == NS && IsWildCard(rr.name) {
        return Refused(NoEffectiveUpdate);
      }
      if !IsSubDomain(rr.name, origin) {
        return Refused(OutOfZone);
      }
      var r, goal := Prepare(rr, split);
      AddShapeSoa(origin, old(shapes), rr, split, r);
      res := FileOrKeep(rr, r, AddShape(origin, old(shapes), rr, split, r));
    }

    /** The end of `addRRset`; no RRset that nodes may refer to changes. */
    method FileOrKeep(rr: RRsetObject, r: HeapStored, ghost nodes: Shapes) returns (res: Outcome)
      requires Valid() && rr.name in domains
      modifies this, objs
      ensures Valid() && fresh(objs - old(objs))
      ensures r.HeapKeep? ==> shapes == old(shapes) && res == r.outcome
      ensures r.HeapStore? ==>
                shapes == MarkParent(PutData(origin, old(shapes), rr.name, rr.typ, r.data), rr.name) && res == Done
      ensures Deref(nodes) == old(Deref(nodes))
    {
      if r.HeapKeep? {
        return r.outcome;
      }
      FileData(rr, r.data);
      DerefUnchanged(nodes);
      res := Done;
    }

    /** The tree's `Remove`: the node loses its data, and prunable nodes may go. */
    method Remove(n: Name, drop: set<Name>)
      requires Valid() && n in domains
      modifies this, objs
      ensures Valid() && objs == old(objs)
      ensures shapes == RemoveNode(old(shapes), origin, n, drop)
    {
      WriteNode(n, None, domains[n].cut, domains[n].wild);
      domains := map m | m in domains && !(m in drop && m != origin && IsPrunable(m)) :: domains[m];
      shapes := RemoveNode(old(shapes), origin, n, drop);
    }

    predicate IsPrunable(m: Name)
      requires Valid()
      reads this, objs
      ensures IsPrunable(m) <==> Prunable(shapes, m)
    {
      m in domains && domains[m].data.None? && forall k | k in domains && m < k :: domains[k].data.None?
    }

    /** `deleteNode`, with `unmarkWildcardParent`. */
    method DeleteNode(n: Name, drop: set<Name>)
      requires Valid() && n in domains
      modifies this, objs
      ensures Valid() && objs == old(objs)
      ensures shapes == PruneNode(old(shapes), origin, n, drop)
    {
      Remove(n, drop);
      if IsWildCard(n) && Parent(n) in domains {
        var nd := domains[Parent(n)];
        WriteNode(Parent(n), nd.data, nd.cut, false);
      }
    }

    method EraseTypeAt(n: Name, t: RRType, drop: set<Name>)
      requires Valid() && n in domains && domains[n].data.Some? && t in domains[n].data.value
      modifies this, objs
      ensures Valid() && objs == old(objs)
      ensures shapes == EraseShape(origin, old(shapes), n, t, drop)
    {
      var nd := domains[n];
      var left := nd.data.value - {t};
      if left == map[] {
        DeleteNode(n, drop);
      } else {
        WriteNode(n, Some(left), nd.cut, nd.wild);
      }
    }

    /** `checkRRsetCouldBeDeleted`. */
    method CouldBeDeleted(rr: RRsetObject) returns (res: Outcome)
      requires Valid()
      ensures res == CheckDeletable(Value(), rr.Val())
    {
      HoldsDeref(origin, shapes, origin, NS);
      if !IsSubDomain(rr.name, origin) {
        return Refused(OutOfZone);
      }
      if rr.name == origin {
        if rr.typ == SOA {
          return Refused(ShortOfSOA);
        }
        if rr.typ == NS {
          var data := domains[origin].data;
          if data.None? || NS !in data.value || data.value[NS] == null {
            return Panicked;
          }
          var left := ComputeRdatasDiff(data.value[NS].rdatas, rr.rdatas);
          if left == [] {
            return Refused(ShortOfNS);
          }
        }
      }
      return Done;
    }

    /** `deleteRRset`. */
    method DeleteRRset(rr: RRsetObject, drop: set<Name>) returns (res: Outcome)
      requires Valid()
      modifies this, objs
      ensures Valid() && objs == old(objs)
      ensures (Value(), res) == EraseRRset(old(Value()), rr.Val(), drop)
      ensures SoaObject() == old(SoaObject())
    {
      res := CouldBeDeleted(rr);
      DerefUnchanged(shapes);
      if res != Done {
        return;
      }
      HoldsDeref(origin, shapes, rr.name, rr.typ);
      if rr.name !in domains || domains[rr.name].data.None? || rr.typ !in domains[rr.name].data.value {
        return Refused(UnknownRRset);
      }
      DerefErase(origin, shapes, rr.name, rr.typ, drop);
      EraseShapeSoa(origin, shapes, rr.name, rr.typ, drop);
      ghost var next := EraseShape(origin, shapes, rr.name, rr.typ, drop);
      EraseTypeAt(rr.name, rr.typ, drop);
      DerefUnchanged(next);
    }

    /** `deleteRr`: the RRset keeps the records that were not named, in a new object. */
    method DeleteRr(rr: RRsetObject, drop: set<Name>) returns (res: Outcome)
      requires Valid()
      modifies this, objs
      ensures Valid() && objs == old(objs)
      ensures (Value(), res) == EraseRr(old(Value()), rr.Val(), drop)
      ensures SoaObject() == old(SoaObject())
    {
      res := CouldBeDeleted(rr);
      DerefUnchanged(shapes);
      if res != Done {
        return;
      }
      HoldsDeref(origin, shapes, rr.name, rr.typ);
      if rr.name !in domains || domains[rr.name].data.None? || rr.typ !in domains[rr.name].data.value {
        return Refused(UnknownRRset);
      }
      var was := domains[rr.name].data.value[rr.typ];
      if was == null {
        return Panicked;
      }
      var left := ComputeRdatasDiff(was.rdatas, rr.rdatas);
      DerefUnchanged(shapes);
      KeepRecords(rr.name, rr.typ, was, left, drop);
    }

    method KeepRecords(n: Name, t: RRType, was: RRsetObject, left: seq<Rdata>, drop: set<Name>)
      requires Valid() && n in domains && !(t == SOA && n == origin)
      requires domains[n].data.Some? && t in domains[n].data.value && domains[n].data.value[t] == was
      modifies this, objs
      ensures Valid() && objs == old(objs)
      ensures Holds(old(Value()), n, t)
      ensures Value() == KeepRdatas(old(Value()), n, t, old(was.Val()), left, drop)
      ensures SoaObject() == old(SoaObject())
    {
      HoldsDeref(origin, shapes, n, t);
      ghost var next;
      if left == [] {
        DerefErase(origin, shapes, n, t, drop);
        EraseShapeSoa(origin, shapes, n, t, drop);
        next := EraseShape(origin, shapes, n, t, drop);
        EraseTypeAt(n, t, drop);
        DerefUnchanged(next);
      } else {
        Shrink(n, t, was, left);
      }
    }

    method Shrink(n: Name, t: RRType, was: RRsetObject, left: seq<Rdata>)
      requires Valid() && n in domains && !(t == SOA && n == origin)
      requires domains[n].data.Some? && t in domains[n].data.value && domains[n].data.value[t] == was
      modifies this, objs
      ensures Valid() && objs == old(objs)
      ensures n in old(Deref(shapes)) && old(Deref(shapes))[n].data.Some?
      ensures Deref(shapes) ==
              var node := old(Deref(shapes))[n];
              old(Deref(shapes))[n := node.(data := Some(node.data.value[t := Some(old(was.Val()).(rdatas := left))]))]
      ensures SoaObject() == old(SoaObject())
    {
      var kept := new RRsetObject(was.name, was.typ, was.class_, was.ttl, left);
      DerefUnchanged(shapes);
      DerefRefile(shapes, n, t, kept);
      ghost var next := RefileShape(shapes, n, t, kept);
      label Writing:
      Refile(n, t, kept);
      DerefUnchanged@Writing(next);
    }

    method Refile(n: Name, t: RRType, o: RRsetObject)
      requires Valid() && n in domains && domains[n].data.Some? && !(t == SOA && n == origin)
      modifies this, objs
      ensures Valid() && objs == old(objs)
      ensures shapes == RefileShape(old(shapes), n, t, o)
      ensures SoaObject() == old(SoaObject())
    {
      var nd := domains[n];
      WriteNode(n, Some(nd.data.value[t := o]), nd.cut, nd.wild);
    }

    /** `deleteDomain`: the apex keeps its SOA and NS entries, present or not. */
    method DeleteDomain(n: Name, drop: set<Name>) returns (res: Outcome)
      requires Valid()
      modifies this, objs
      ensures Valid() && objs == old(objs)
      ensures (Value(), res) == EraseDomain(old(Value()), n, drop)
      ensures SoaObject() == old(SoaObject())
    {
      if !IsSubDomain(n, origin) {
        return Refused(OutOfZone);
      }
      if n !in domains || domains[n].data.None? {
        return Refused(UnknownRRset);
      }
      ghost var next := EraseDomainShape(origin, shapes, n, drop);
      DerefEraseDomain(origin, shapes, n, drop);
      EraseDomainAt(n, drop);
      DerefUnchanged(next);
      res := Done;
    }

    method EraseDomainAt(n: Name, drop: set<Name>)
      requires Valid() && n in domains && domains[n].data.Some?
      modifies this, objs
      ensures Valid() && objs == old(objs)
      ensures shapes == EraseDomainShape(origin, old(shapes), n, drop)
      ensures SoaObject() == old(SoaObject())
    {
      if n == origin {
        var nd := domains[origin];
        WriteNode(origin, Some(ApexOnly(nd.data.value)), nd.cut, nd.wild);
      } else {
        DeleteNode(n, drop);
      }
    }

    /** `increaseSerialNumber`: a write through the SOA object. */
    method IncreaseSerialNumber() returns (res: Outcome)
      requires Valid() && Filed(shapes)
      modifies if SoaObject() == null then {} else {SoaObject()}
      ensures Valid() && shapes == old(shapes)
      ensures (Value(), res) == RaiseSerial(old(Value()))
      ensures res == Done ==> SoaObject() != null && SoaObject().name == origin && SoaObject().typ == SOA
      ensures res != Done ==> SoaObject() == null || SoaObject().rdatas == old(SoaObject().rdatas)
    {
      HoldsDeref(origin, shapes, origin, SOA);
      var data := domains[origin].data;
      if data.None? || SOA !in data.value || data.value[SOA] == null {
        return Panicked;
      }
      var soa := data.value[SOA];
      if |soa.rdatas| != 1 || !soa.rdatas[0].SoaData? {
        return Panicked;
      }
      soa.rdatas := [soa.rdatas[0].(serial := Inc32(soa.rdatas[0].serial))];
      WriteSeen(Written(shapes, soa));
      res := Done;
    }

    /** `clone`: new nodes, the same RRset objects. */
    method Clone() returns (c: MemoryZone)
      requires Valid()
      ensures fresh(c) && fresh(c.objs) && c.Valid()
      ensures c.origin == origin && c.shapes == shapes && c.Value() == old(Value())
    {
      var copies, made := CopyNodes();
      c := new MemoryZone.WithDomains(origin, copies, shapes, made);
      DerefUnchanged(shapes);
    }

    method CopyNodes() returns (copies: map<Name, NodeObject>, ghost made: set<NodeObject>)
      requires Valid()
      ensures fresh(made)
      ensures forall n :: n in copies <==> n in domains
      ensures forall n | n in copies :: IsCopy(n, copies[n]) && copies[n] in made
    {
      copies, made := map[], {};
      var todo := domains.Keys;
      while todo != {}
        invariant fresh(made) && todo <= domains.Keys
        invariant forall n :: n in copies <==> n in domains && n !in todo
        invariant forall n | n in copies :: IsCopy(n, copies[n]) && copies[n] in made
        decreases todo
      {
        var n :| n in todo;
        var nd := new NodeObject(n, domains[n].data, domains[n].cut, domains[n].wild);
        copies, made, todo := copies[n := nd], made + {nd}, todo - {n};
      }
    }

    ghost predicate IsCopy(n: Name, nd: NodeObject)
      reads this, nd
    {
      nd.name == n && n in shapes && shapes[n] == Node(nd.data, nd.cut, nd.wild)
    }
  }

  function WithNode<D>(nodes: map<Name, TreeNode<D>>, n: Name): map<Name, TreeNode<D>> {
    if n in nodes then nodes else nodes[n := Node(None, false, false)]
  }

  lemma InsertMore<D>(nodes: map<Name, TreeNode<D>>, n: Name, done: set<Name>, m: Name)
    ensures WithNode(InsertNode(nodes, n, done), m) == InsertNode(nodes, n, done + {m})
    ensures InsertNode(nodes, n, {}) == WithNode(nodes, n)
  {
  }
}
