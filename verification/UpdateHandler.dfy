/** `handleDynamicRRsets` on the heap zone: the loop over the update records, the two
    flags, and the closing bump and Commit, proved to be exactly `Update`. */
module UpdateHandler {
  import opened Dns
  import opened ZoneModel
  import opened ZoneTransactions
  import opened ZoneUpdates
  import opened MemoryZones
  import opened DynamicZones

  /** An update record as it arrives: its RRset object and the tree's choices. */
  datatype Record = Record(rr: RRsetObject, tree: set<Name>)

  ghost function Objects(records: seq<Record>): set<RRsetObject> {
    set r | r in records :: r.rr
  }

  /** One record applied in the open transaction. */
  method ApplyRecord(z: DynamicZone, r: Record, ghost item: Item) returns (res: Outcome)
    requires z.Valid() && z.tmp != null && r.rr != z.live.SoaObject() && item == Item(r.rr.Val(), r.tree)
    modifies z`state, z.tmp, z.tmp.objs
    ensures z.Valid() && fresh(z.tmp.objs - old(z.tmp.objs))
    ensures (z.state, res) == InTx(old(z.state).live, old(z.state).tx.value, ToOp(item))
    ensures z.tmp.SoaObject() == old(z.tmp.SoaObject()) || z.tmp.SoaObject() == r.rr
  {
    if r.rr.class_ == IN {
      res := z.Add(r.rr, r.tree);
    } else if r.rr.typ == ANY {
      res := z.DeleteDomain(r.rr.name, r.tree);
    } else if r.rr.class_ == CLASS_ANY {
      res := z.DeleteRRset(r.rr, r.tree);
    } else {
      res := z.DeleteRr(r.rr, r.tree);
    }
  }

  /** Where the handler stands after a record: stopped, or going on with its flags. */
  datatype Progress = Going(explicitSOA: bool, modified: bool) | Stop(end: UpdateEnd)

  /** What is left to do from a state with some records still to come. */
  ghost function Rest(s: Sys, p: Progress, items: seq<Item>): (Zone, UpdateEnd) {
    match p
    case Stop(end) => (s.live, end)
    case Going(e, m) => if s.tx.None? then (s.live, NothingToDo) else Handle(s.live, s.tx.value, items, e, m)
  }

  function Progressed(p: Progress, r: RRType, res: Outcome): Progress
    requires p.Going?
  {
    match res
    case Done => Going(p.explicitSOA || r == SOA, true)
    case Panicked => Stop(Crashed)
    case Refused(e) => if e != NoEffectiveUpdate then Stop(Rejected(e)) else p
  }

  /** The state and progress after one record, and after all of them. */
  datatype Point = Point(s: Sys, p: Progress)

  ghost function AfterOne(at: Point, item: Item): Point {
    if at.s.tx.None? || at.p.Stop? then at
    else
      var (s, res) := InTx(at.s.live, at.s.tx.value, ToOp(item));
      Point(s, Progressed(at.p, item.rr.typ, res))
  }

  ghost function AfterAll(at: Point, items: seq<Item>): Point
    decreases |items|
  {
    if items == [] then at else AfterAll(AfterOne(at, items[0]), items[1..])
  }

  lemma {:induction false} AfterAllStopped(at: Point, items: seq<Item>)
    requires at.p.Stop?
    ensures AfterAll(at, items) == at
    decreases |items|
  {
    if items != [] {
      AfterAllStopped(at, items[1..]);
    }
  }

  lemma AfterOneKeeps(at: Point, item: Item)
    requires SysInv(at.s) && at.s.tx.Some?
    ensures SysInv(AfterOne(at, item).s) && AfterOne(at, item).s.tx.Some?
  {
    InTxKeeps(at.s.live, at.s.tx.value, ToOp(item));
  }

  /** Going through the records this way is what `Handle` computes. */
  lemma {:induction false} AfterAllHandles(at: Point, items: seq<Item>)
    requires SysInv(at.s) && at.s.tx.Some?
    ensures var end := AfterAll(at, items);
            && SysInv(end.s) && end.s.tx.Some?
            && Rest(at.s, at.p, items) == Rest(end.s, end.p, [])
    decreases |items|
  {
    if items != [] {
      AfterOneKeeps(at, items[0]);
      AfterAllHandles(AfterOne(at, items[0]), items[1..]);
    }
  }

  /** The items are the records' values. */
  ghost predicate Read(records: seq<Record>, items: seq<Item>)
    reads Objects(records)
  {
    |records| == |items| && forall k | 0 <= k < |items| :: items[k] == Item(records[k].rr.Val(), records[k].tree)
  }

  /** The handler at work on a copy: the live SOA is none of the records, and the copy's
      SOA is the one it started with or one of them. */
  ghost predicate Working(z: DynamicZone, tmp: MemoryZone, soas: set<RRsetObject?>, records: seq<Record>)
    reads z, z.live, z.live.objs, Refs(z.live.shapes)
    reads z.tmp, if z.tmp == null then {} else z.tmp.objs + Refs(z.tmp.shapes)
    reads tmp
  {
    z.Valid() && z.tmp == tmp && z.live.SoaObject() !in Objects(records) && tmp.SoaObject() in soas
  }

  /** One turn of the loop. */
  method Turn(z: DynamicZone, ghost tmp: MemoryZone, ghost soas: set<RRsetObject?>, records: seq<Record>, i: nat,
              p: Progress, ghost items: seq<Item>) returns (p': Progress)
    requires Working(z, tmp, soas, records) && Objects(records) <= soas
    requires Read(records, items) && i < |records| && p.Going?
    modifies z`state, tmp, tmp.objs
    ensures Working(z, tmp, soas, records) && fresh(tmp.objs - old(tmp.objs))
    ensures AfterAll(Point(z.state, p'), items[i + 1..]) == AfterAll(Point(old(z.state), p), items[i..])
  {
    ghost var at := Point(z.state, p);
    assert records[i] in records;
    var res := ApplyRecord(z, records[i], items[i]);
    p' := Progressed(p, records[i].rr.typ, res);
    AfterAllStep(at, items, i);
  }

  /** The loop over the records: it stops at the first refusal that is not "no effect". */
  method ApplyRecords(z: DynamicZone, ghost tmp: MemoryZone, ghost soas: set<RRsetObject?>, records: seq<Record>,
                      ghost items: seq<Item>) returns (p: Progress)
    requires Working(z, tmp, soas, records) && Objects(records) <= soas && Read(records, items)
    modifies z`state, tmp, tmp.objs
    ensures Working(z, tmp, soas, records)
    ensures Point(z.state, p) == AfterAll(Point(old(z.state), Going(false, false)), items)
  {
    p := Going(false, false);
    var i := 0;
    assert items[0..] == items;
    while i < |records| && p.Going?
      invariant 0 <= i <= |records|
      invariant Working(z, tmp, soas, records) && fresh(tmp.objs - old(tmp.objs))
      invariant AfterAll(Point(z.state, p), items[i..]) == AfterAll(Point(old(z.state), Going(false, false)), items)
    {
      p := Turn(z, tmp, soas, records, i, p, items);
      i := i + 1;
    }
    AfterAllEnd(Point(z.state, p), items, i);
  }

  lemma AfterAllEnd(at: Point, items: seq<Item>, i: nat)
    requires i == |items| || (i < |items| && at.p.Stop?)
    ensures AfterAll(at, items[i..]) == at
  {
    if i == |items| {
      assert items[i..] == [];
    } else {
      AfterAllStopped(at, items[i..]);
    }
  }

  lemma AfterAllStep(at: Point, items: seq<Item>, i: nat)
    requires i < |items|
    ensures AfterAll(at, items[i..]) == AfterAll(AfterOne(at, items[i]), items[i + 1..])
  {
    assert items[i..][1..] == items[i + 1..];
  }

  /** The closing steps once every record went through: RollBack when nothing was
      modified, else the bump (unless an SOA record went through) and Commit. */
  method CloseUp(z: DynamicZone, explicitSOA: bool, modified: bool) returns (end: UpdateEnd)
    requires z.Valid() && z.tmp != null
    requires Filed(z.live.shapes) && Filed(z.tmp.shapes) && SharesSOA(z.state.live, z.state.tx.value)
    modifies z, if z.tmp.SoaObject() == null then {} else {z.tmp.SoaObject()}
    ensures (z.state.live, end) == Finish(old(z.state).live, old(z.state).tx.value, explicitSOA, modified)
    ensures end != Crashed ==> z.Valid() && z.tmp == null
  {
    if !modified {
      z.RollBack();
      return NothingToDo;
    }
    if !explicitSOA {
      var bumped := z.IncreaseSerialNumber();
      if bumped == Panicked {
        return Crashed;
      }
    }
    var res := z.Commit();
    end := if res.Refused? then CommitRefused(res.error) else Published;
  }

  /** `handleDynamicRRsets`: without an updator for the zone and client nothing happens;
      else what it leaves live, and how it ends, is `Update`, and only a
      crash leaves the transaction open and the lock held. */
  method HandleDynamicRRsets(z: DynamicZone, authorized: bool, records: seq<Record>, ghost items: seq<Item>) returns (end: UpdateEnd)
    requires z.Valid() && z.tmp == null && SysInv(z.state) && Read(records, items)
    requires z.live.SoaObject() !in Objects(records)
    modifies z, if z.live.SoaObject() == null then {} else {z.live.SoaObject()}, Objects(records)
    ensures (z.state.live, end) ==
            if authorized then Update(old(z.state).live, items) else (old(z.state).live, NotAuthorized)
    ensures end != Crashed ==> z.Valid() && z.tmp == null
  {
    if !authorized {
      return NotAuthorized;
    }
    end := ApplyUpdate(z, records, items);
  }

  /** The handler once it has its updator. */
  method ApplyUpdate(z: DynamicZone, records: seq<Record>, ghost items: seq<Item>) returns (end: UpdateEnd)
    requires z.Valid() && z.tmp == null && SysInv(z.state) && Read(records, items)
    requires z.live.SoaObject() !in Objects(records)
    modifies z, if z.live.SoaObject() == null then {} else {z.live.SoaObject()}, Objects(records)
    ensures (z.state.live, end) == Update(old(z.state).live, items)
    ensures end != Crashed ==> z.Valid() && z.tmp == null
  {
    z.Begin();
    ghost var first := Point(z.state, Going(false, false));
    ghost var soas: set<RRsetObject?> := {z.tmp.SoaObject()} + Objects(records);
    var p := ApplyRecords(z, z.tmp, soas, records, items);
    AfterAllHandles(first, items);
    match p
    case Stop(e) =>
      if e != Crashed {
        z.RollBack();
      }
      end := e;
    case Going(explicitSOA, modified) =>
      FiledByInv(z.state.live, z.live.shapes);
      FiledByInv(z.state.tx.value.tmp, z.tmp.shapes);
      end := CloseUp(z, explicitSOA, modified);
  }
}
