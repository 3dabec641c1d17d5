/** Every sequence of adds, deletes and serial bumps, successful or refused, keeps
    the node invariants: CNAME exclusivity and exact wildcard marking. */
module ZoneInvariants {
  import opened Dns
  import Runs
  import opened ZoneModel

  lemma NewZoneInv(origin: Name)
    ensures ZoneInv(NewZone(origin))
  {
  }

  lemma InsertKeeps(z: Zone, n: Name, split: set<Name>)
    requires ZoneInv(z)
    ensures ZoneInv(z.(nodes := InsertNode(z.nodes, n, split)))
  {
  }

  lemma StoredDataInv(origin: Name, data: Option<NodeData>, rr: RRset)
    requires IsSubDomain(rr.name, origin)
    requires data.Some? ==> DataInv(origin, rr.name, data.value)
    ensures StoreRRset(data, rr).Store? ==> DataInv(origin, rr.name, StoreRRset(data, rr).data)
  {
    match StoreRRset(data, rr)
    case Keep(_) =>
    case Store(d) =>
      assert rr.typ in d;
      if data.Some? && rr.typ == CNAME {
        assert d.Keys == data.value.Keys;
      }
  }

  lemma PutNode(z: Zone, rr: RRset, d: NodeData, m: Name)
    requires ZoneInv(z) && rr.name in z.nodes
    requires DataInv(z.origin, rr.name, d)
    requires m in MarkParent(PutData(z.origin, z.nodes, rr.name, rr.typ, d), rr.name)
    ensures NodeInv(z.origin, m, MarkParent(PutData(z.origin, z.nodes, rr.name, rr.typ, d), rr.name)[m])
  {
    if m in z.nodes {
      assert NodeInv(z.origin, m, z.nodes[m]);
    }
  }

  lemma PutMarked(z: Zone, rr: RRset, d: NodeData, m: Name)
    requires ZoneInv(z) && rr.name in z.nodes
    ensures var nodes := MarkParent(PutData(z.origin, z.nodes, rr.name, rr.typ, d), rr.name);
            m in nodes && nodes[m].wild ==> HasData(nodes, m + [WILDCARD])
  {
    var nodes := MarkParent(PutData(z.origin, z.nodes, rr.name, rr.typ, d), rr.name);
    if m in nodes && nodes[m].wild {
      if IsWildCard(rr.name) && m == Parent(rr.name) {
        assert m + [WILDCARD] == rr.name;
      } else {
        assert m in z.nodes && z.nodes[m].wild;
        assert HasData(z.nodes, m + [WILDCARD]);
      }
    }
  }

  lemma PutCovered(z: Zone, rr: RRset, d: NodeData, m: Name)
    requires ZoneInv(z) && rr.name in z.nodes
    ensures var nodes := MarkParent(PutData(z.origin, z.nodes, rr.name, rr.typ, d), rr.name);
            HasData(nodes, m) && IsWildCard(m) ==> Parent(m) in nodes && nodes[Parent(m)].wild
  {
    var nodes := MarkParent(PutData(z.origin, z.nodes, rr.name, rr.typ, d), rr.name);
    if HasData(nodes, m) && IsWildCard(m) && m != rr.name {
      assert HasData(z.nodes, m);
    }
  }

  /** Giving a node new data keeps the invariant, once its wildcard parent is marked. */
  lemma PutKeeps(z: Zone, rr: RRset, d: NodeData)
    requires ZoneInv(z) && rr.name in z.nodes
    requires DataInv(z.origin, rr.name, d)
    ensures ZoneInv(z.(nodes := MarkParent(PutData(z.origin, z.nodes, rr.name, rr.typ, d), rr.name)))
  {
    var nodes := MarkParent(PutData(z.origin, z.nodes, rr.name, rr.typ, d), rr.name);
    forall m | m in nodes ensures NodeInv(z.origin, m, nodes[m]) {
      PutNode(z, rr, d, m);
    }
    forall m | m in nodes && nodes[m].wild ensures HasData(nodes, m + [WILDCARD]) {
      PutMarked(z, rr, d, m);
    }
    forall m | m in nodes && nodes[m].data.Some? && IsWildCard(m)
      ensures Parent(m) in nodes && nodes[Parent(m)].wild
    {
      PutCovered(z, rr, d, m);
    }
  }

  lemma AddKeeps(z: Zone, rr: RRset, split: set<Name>)
    requires ZoneInv(z)
    ensures ZoneInv(AddRRset(z, rr, split).0)
  {
    if CheckAddable(z, rr) == Done {
      var inserted := z.(nodes := InsertNode(z.nodes, rr.name, split));
      InsertKeeps(z, rr.name, split);
      var data := inserted.nodes[rr.name].data;
      StoredDataInv(z.origin, data, rr);
      if StoreRRset(data, rr).Store? {
        PutKeeps(inserted, rr, StoreRRset(data, rr).data);
      }
    }
  }

  /** Replacing the data of a node that has data changes no mark. */
  lemma ReplaceKeeps(z: Zone, n: Name, d: NodeData)
    requires ZoneInv(z) && HasData(z.nodes, n)
    requires DataInv(z.origin, n, d)
    ensures ZoneInv(z.(nodes := z.nodes[n := z.nodes[n].(data := Some(d))]))
  {
    var nodes := z.nodes[n := z.nodes[n].(data := Some(d))];
    forall m | m in nodes && nodes[m].wild ensures HasData(nodes, m + [WILDCARD]) {
      assert z.nodes[m].wild;
    }
  }

  /** What `deleteNode(n)` leaves of the node named m: only n loses its data. */
  ghost predicate LeftBy(z: Zone, n: Name, nodes: map<Name, Node>, m: Name) {
    && (m in nodes ==>
         && m in z.nodes
         && nodes[m].cut == z.nodes[m].cut
         && nodes[m].data == (if m == n then None else z.nodes[m].data)
         && nodes[m].wild == (z.nodes[m].wild && !(IsWildCard(n) && m == Parent(n))))
    && (m != n && HasData(z.nodes, m) ==> m in nodes)
    && (m == z.origin && m in z.nodes ==> m in nodes)
  }

  lemma DeletedNode(z: Zone, n: Name, drop: set<Name>, m: Name)
    requires n in z.nodes
    ensures LeftBy(z, n, DeleteNode(z, n, drop).nodes, m)
  {
  }

  lemma DeletedMarked(z: Zone, n: Name, nodes: map<Name, Node>, m: Name)
    requires MarksSound(z.nodes)
    requires m in nodes && nodes[m].wild
    requires LeftBy(z, n, nodes, m) && LeftBy(z, n, nodes, m + [WILDCARD])
    ensures HasData(nodes, m + [WILDCARD])
  {
    assert z.nodes[m].wild;
    assert Parent(m + [WILDCARD]) == m;
  }

  /** The marked parent of a wildcard that keeps its data is never pruned. */
  lemma DeletedParent(z: Zone, n: Name, drop: set<Name>, m: Name)
    requires MarksComplete(z.nodes) && HasData(z.nodes, n)
    requires m != n && HasData(z.nodes, m) && IsWildCard(m)
    ensures Parent(m) in DeleteNode(z, n, drop).nodes
  {
    var p := Parent(m);
    var emptied := z.nodes[n := z.nodes[n].(data := None)];
    assert p in z.nodes && p < m;
    assert HasData(emptied, m);
    assert !Prunable(emptied, p);
    assert p in RemoveNode(z.nodes, z.origin, n, drop);
  }

  lemma DeletedCovered(z: Zone, n: Name, nodes: map<Name, Node>, m: Name)
    requires MarksComplete(z.nodes)
    requires HasData(nodes, m) && IsWildCard(m) && Parent(m) in nodes
    requires LeftBy(z, n, nodes, m) && LeftBy(z, n, nodes, Parent(m))
    ensures nodes[Parent(m)].wild
  {
    WildcardChild(m, n);
  }

  lemma WildcardChild(m: Name, n: Name)
    ensures IsWildCard(m) && IsWildCard(n) && Parent(m) == Parent(n) ==> m == n
  {
    if IsWildCard(m) && IsWildCard(n) {
      assert m == Parent(m) + [WILDCARD] && n == Parent(n) + [WILDCARD];
    }
  }

  lemma DeleteNodeKeeps(z: Zone, n: Name, drop: set<Name>)
    requires ZoneInv(z) && HasData(z.nodes, n)
    ensures ZoneInv(DeleteNode(z, n, drop))
  {
    var nodes := DeleteNode(z, n, drop).nodes;
    DeletedNode(z, n, drop, z.origin);
    forall m | m in nodes ensures NodeInv(z.origin, m, nodes[m]) {
      DeletedNode(z, n, drop, m);
      assert NodeInv(z.origin, m, z.nodes[m]);
    }
    forall m {:trigger nodes[m].wild} | m in nodes && nodes[m].wild ensures HasData(nodes, m + [WILDCARD]) {
      DeletedNode(z, n, drop, m);
      DeletedNode(z, n, drop, m + [WILDCARD]);
      DeletedMarked(z, n, nodes, m);
    }
    forall m {:trigger IsWildCard(m)} | m in nodes && nodes[m].data.Some? && IsWildCard(m)
      ensures Parent(m) in nodes && nodes[Parent(m)].wild
    {
      DeletedNode(z, n, drop, m);
      DeletedParent(z, n, drop, m);
      DeletedNode(z, n, drop, Parent(m));
      DeletedCovered(z, n, nodes, m);
    }
  }

  lemma EraseTypeKeeps(z: Zone, n: Name, t: RRType, drop: set<Name>)
    requires ZoneInv(z) && Holds(z, n, t)
    ensures ZoneInv(EraseType(z, n, t, drop))
  {
    var d := z.nodes[n].data.value;
    assert DataInv(z.origin, n, d);
    if d - {t} == map[] {
      DeleteNodeKeeps(z, n, drop);
    } else {
      ReplaceKeeps(z, n, d - {t});
    }
  }

  lemma EraseRrKeeps(z: Zone, rr: RRset, drop: set<Name>)
    requires ZoneInv(z)
    ensures ZoneInv(EraseRr(z, rr, drop).0)
  {
    if CheckDeletable(z, rr) == Done && Holds(z, rr.name, rr.typ) && RRsetAt(z, rr.name, rr.typ).Some? {
      var d := z.nodes[rr.name].data.value;
      var was := d[rr.typ].value;
      var left := RdatasDiff(was.rdatas, rr.rdatas);
      assert DataInv(z.origin, rr.name, d);
      if left == [] {
        EraseTypeKeeps(z, rr.name, rr.typ, drop);
      } else {
        var d' := d[rr.typ := Some(was.(rdatas := left))];
        assert d'.Keys == d.Keys;
        assert rr.typ in d';
        ReplaceKeeps(z, rr.name, d');
      }
    }
  }

  lemma EraseDomainKeeps(z: Zone, n: Name, drop: set<Name>)
    requires ZoneInv(z)
    ensures ZoneInv(EraseDomain(z, n, drop).0)
  {
    if IsSubDomain(n, z.origin) && HasData(z.nodes, n) {
      assert NodeInv(z.origin, n, z.nodes[n]);
      if n == z.origin {
        var kept: NodeData := map[SOA := RRsetAt(z, n, SOA), NS := RRsetAt(z, n, NS)];
        assert SOA in kept;
        ReplaceKeeps(z, n, kept);
      } else {
        DeleteNodeKeeps(z, n, drop);
      }
    }
  }

  lemma WithSerialLaws(z: Zone, a: uint32, b: uint32)
    requires Serial(z).Some?
    ensures Serial(WithSerial(z, a)) == Some(a)
    ensures WithSerial(z, a).origin == z.origin
    ensures WithSerial(WithSerial(z, a), b) == WithSerial(z, b)
    ensures WithSerial(z, Serial(z).value) == z
  {
    var node := z.nodes[z.origin];
    var soa := node.data.value[SOA].value;
    assert soa.rdatas == [soa.rdatas[0].(serial := Serial(z).value)];
    assert node.data.value[SOA := Some(soa)] == node.data.value;
    assert z.nodes[z.origin := node] == z.nodes;
    var da := WithSerial(z, a).nodes[z.origin].data.value;
    var db := WithSerial(z, b).nodes[z.origin].data.value;
    assert da[SOA := db[SOA]] == db;
  }

  lemma BumpKeeps(z: Zone)
    requires ZoneInv(z) && Serial(z).Some?
    ensures ZoneInv(BumpSOA(z))
    ensures Serial(BumpSOA(z)) == Some(Inc32(Serial(z).value))
    ensures IsPublishable(BumpSOA(z)) == IsPublishable(z)
  {
    var d := z.nodes[z.origin].data.value;
    var d' := BumpSOA(z).nodes[z.origin].data.value;
    assert NodeInv(z.origin, z.origin, z.nodes[z.origin]);
    assert d'.Keys == d.Keys;
    assert SOA in d';
    ReplaceKeeps(z, z.origin, d');
  }

  lemma ApplyKeeps(z: Zone, op: Op)
    requires ZoneInv(z)
    ensures ZoneInv(Apply(z, op).0)
    ensures Apply(z, op).0.origin == z.origin
  {
    match op
    case Add(rr, split) => AddKeeps(z, rr, split);
    case DeleteRRset(rr, drop) =>
      if CheckDeletable(z, rr) == Done && Holds(z, rr.name, rr.typ) {
        EraseTypeKeeps(z, rr.name, rr.typ, drop);
      }
    case DeleteRr(rr, drop) => EraseRrKeeps(z, rr, drop);
    case DeleteDomain(n, drop) => EraseDomainKeeps(z, n, drop);
    case IncreaseSerial => if Serial(z).Some? { BumpKeeps(z); }
  }

  lemma OpsKeep(z: Zone, ops: seq<Op>)
    requires ZoneInv(z)
    ensures ZoneInv(ApplyAll(z, ops)) && ApplyAll(z, ops).origin == z.origin
  {
    var inv := (z': Zone) => ZoneInv(z') && z'.origin == z.origin;
    forall z', op | inv(z') ensures inv(ApplyStep(z', op)) {
      ApplyKeeps(z', op);
    }
    Runs.RunKeeps(ApplyStep, inv, z, ops);
  }

  /** Main result: whatever is done to a new zone, a node holding CNAME holds
      nothing else, and a node carries the wildcard mark exactly when its `*` child
      holds data. */
  lemma NodeInvariants(origin: Name, ops: seq<Op>)
    ensures var z := ApplyAll(NewZone(origin), ops);
            && (forall n | Holds(z, n, CNAME) :: z.nodes[n].data.value.Keys == {CNAME})
            && (forall n: Name :: n in z.nodes && z.nodes[n].wild <==> HasData(z.nodes, n + [WILDCARD]))
  {
    NewZoneInv(origin);
    OpsKeep(NewZone(origin), ops);
    var z := ApplyAll(NewZone(origin), ops);
    forall n | Holds(z, n, CNAME) ensures z.nodes[n].data.value.Keys == {CNAME} {
      assert NodeInv(origin, n, z.nodes[n]);
    }
    forall n: Name ensures n in z.nodes && z.nodes[n].wild <==> HasData(z.nodes, n + [WILDCARD]) {
      if HasData(z.nodes, n + [WILDCARD]) {
        assert IsWildCard(n + [WILDCARD]) && Parent(n + [WILDCARD]) == n;
      }
    }
  }
}
