/** Operations of a transfer performed on the heap zone, up to a panic. */
module XfrDriver {
  import opened Dns
  import opened Runs
  import opened ZoneModel
  import opened ZoneTransactions
  import opened XfrZones
  import opened MemoryZones
  import opened DynamicZones

  /** Everything the transaction may write to besides its own fields: the copy's nodes and
      its SOA object. */
  ghost predicate Owns(tmp: MemoryZone, mine: set<object>)
    reads tmp
  {
    tmp.objs <= mine && (tmp.SoaObject() != null ==> tmp.SoaObject() in mine)
  }

  /** An open transaction in good order, whose writes stay inside `mine`. */
  ghost predicate Driving(z: DynamicZone, tmp: MemoryZone, mine: set<object>)
    reads z, z.live, z.live.objs, Refs(z.live.shapes)
    reads z.tmp, if z.tmp == null then {} else z.tmp.objs + Refs(z.tmp.shapes)
    reads tmp
  {
    z.Valid() && z.tmp == tmp && Owns(tmp, mine) && z !in mine
  }

  /** A record read from the wire is an object of its own, and no zone notices it. */
  method Decoded(ghost z: DynamicZone, ghost tmp: MemoryZone, ghost mine: set<object>, rr: RRset)
      returns (o: RRsetObject)
    requires Driving(z, tmp, mine)
    ensures Driving(z, tmp, mine) && o !in mine && o != z.live.SoaObject()
    ensures fresh(o) && o.Val() == rr
  {
    o := new RRsetObject(rr.name, rr.typ, rr.class_, rr.ttl, rr.rdatas);
    DerefUnchanged(z.live.shapes);
    DerefUnchanged(tmp.shapes);
  }

  method AddDecoded(z: DynamicZone, ghost tmp: MemoryZone, ghost mine: set<object>, rr: RRset, split: set<Name>)
      returns (res: Outcome, ghost more: set<object>)
    requires Driving(z, tmp, mine)
    modifies z`state, tmp, mine
    ensures z.Valid() && z.tmp == tmp && Owns(tmp, mine + more) && fresh(more)
    ensures (z.state, res) == InTx(old(z.state).live, old(z.state).tx.value, Op.Add(rr, split))
  {
    var o := Decoded(z, tmp, mine, rr);
    ghost var nodes;
    res, nodes := AddObject(z, tmp, mine, o, split);
    more := nodes + {o};
    assert fresh(nodes) && fresh(o);
  }

  method AddObject(z: DynamicZone, ghost tmp: MemoryZone, ghost mine: set<object>, o: RRsetObject, split: set<Name>)
      returns (res: Outcome, ghost more: set<object>)
    requires Driving(z, tmp, mine) && o !in mine && o != z.live.SoaObject()
    modifies z`state, tmp, mine
    ensures z.Valid() && z.tmp == tmp && Owns(tmp, mine + (more + {o})) && fresh(more)
    ensures (z.state, res) == InTx(old(z.state).live, old(z.state).tx.value, Op.Add(o.Val(), split))
  {
    res := z.Add(o, split);
    more := tmp.objs - old(tmp.objs);
  }

  method DeleteDecoded(z: DynamicZone, ghost tmp: MemoryZone, ghost mine: set<object>, rr: RRset, drop: set<Name>)
      returns (res: Outcome)
    requires Driving(z, tmp, mine)
    modifies z`state, tmp, mine
    ensures z.Valid() && z.tmp == tmp && Owns(tmp, mine)
    ensures (z.state, res) == InTx(old(z.state).live, old(z.state).tx.value, Op.DeleteRRset(rr, drop))
  {
    var o := Decoded(z, tmp, mine, rr);
    res := z.DeleteRRset(o, drop);
  }

  method Bump(z: DynamicZone, ghost tmp: MemoryZone, ghost mine: set<object>) returns (res: Outcome)
    requires Driving(z, tmp, mine) && SysInv(z.state)
    modifies z`state, mine
    ensures z.Valid() && z.tmp == tmp && Owns(tmp, mine)
    ensures (z.state, res) == InTx(old(z.state).live, old(z.state).tx.value, IncreaseSerial)
  {
    FiledByInv(z.state.live, z.live.shapes);
    FiledByInv(z.state.tx.value.tmp, tmp.shapes);
    res := BumpFiled(z, tmp, mine);
  }

  method BumpFiled(z: DynamicZone, ghost tmp: MemoryZone, ghost mine: set<object>) returns (res: Outcome)
    requires Driving(z, tmp, mine)
    requires Filed(z.live.shapes) && Filed(tmp.shapes) && SharesSOA(z.state.live, z.state.tx.value)
    modifies z`state, mine
    ensures z.Valid() && z.tmp == tmp && Owns(tmp, mine)
    ensures (z.state, res) == InTx(old(z.state).live, old(z.state).tx.value, IncreaseSerial)
  {
    ghost var soa: object? := tmp.SoaObject();
    assert z != soa && tmp != soa;
    res := z.IncreaseSerialNumber();
  }

  /** The operations a transfer asks of the updator. */
  predicate IsXfrOp(op: Op) {
    op.Add? || op.DeleteRRset? || op.IncreaseSerial?
  }

  /** One operation of a transfer. */
  method PerformOp(z: DynamicZone, ghost tmp: MemoryZone, ghost mine: set<object>, op: Op)
      returns (res: Outcome, ghost more: set<object>)
    requires Driving(z, tmp, mine) && SysInv(z.state) && IsXfrOp(op)
    modifies z`state, tmp, mine
    ensures z.Valid() && z.tmp == tmp && Owns(tmp, mine + more) && fresh(more)
    ensures (z.state, res) == InTx(old(z.state).live, old(z.state).tx.value, op)
  {
    more := {};
    match op
    case Add(rr, split) => res, more := AddDecoded(z, tmp, mine, rr, split);
    case DeleteRRset(rr, drop) => res := DeleteDecoded(z, tmp, mine, rr, drop);
    case IncreaseSerial => res := Bump(z, tmp, mine);
  }

  function SysOf(o: OpenTx): Sys {
    Sys(o.live, Some(o.tx))
  }

  /** The zone stands where the model of the open transaction does. */
  ghost predicate StandsAt(z: DynamicZone, tmp: MemoryZone, mine: set<object>, at: OpenTx)
    reads z, z.live, z.live.objs, Refs(z.live.shapes)
    reads z.tmp, if z.tmp == null then {} else z.tmp.objs + Refs(z.tmp.shapes)
    reads tmp
  {
    Driving(z, tmp, mine) && z.state == SysOf(at) && SysInv(SysOf(at))
  }

  lemma NextFacts(at: OpenTx, op: Op)
    requires SysInv(SysOf(at))
    ensures InTx(at.live, at.tx, op).0 == SysOf(OpenStep(at, op)) && SysInv(SysOf(OpenStep(at, op)))
    ensures InTx(at.live, at.tx, op).1 == Panicked <==> OpPanics(at, op)
    ensures OpPanics(at, op) ==> OpenStep(at, op).live == at.live
  {
    InTxKeeps(at.live, at.tx, op);
  }

  /** One operation and where it leads. */
  method PerformNext(z: DynamicZone, ghost tmp: MemoryZone, ghost mine: set<object>, op: Op,
                     ghost at: OpenTx, ghost next: OpenTx) returns (crashed: bool, ghost more: set<object>)
    requires StandsAt(z, tmp, mine, at) && IsXfrOp(op) && next == OpenStep(at, op)
    modifies z`state, tmp, mine
    ensures crashed == OpPanics(at, op) && (crashed ==> next.live == at.live)
    ensures StandsAt(z, tmp, mine + more, next) && fresh(more)
  {
    NextFacts(at, op);
    var res;
    res, more := PerformOp(z, tmp, mine, op);
    crashed := res == Panicked;
  }

  /** The operations, one after the other, until one panics; after a panic only the live
      zone is told. */
  method PerformOps(z: DynamicZone, ghost tmp: MemoryZone, ghost mine: set<object>, ops: seq<Op>, ghost first: OpenTx)
      returns (crashed: bool)
    requires StandsAt(z, tmp, mine, first) && forall op | op in ops :: IsXfrOp(op)
    modifies z`state, tmp, mine
    ensures crashed == Perform(first, ops).stopped && z.live == old(z.live)
    ensures crashed ==> z.state.live == Perform(first, ops).state.live
    ensures !crashed ==> z.Valid() && z.tmp == tmp && z.state == SysOf(Perform(first, ops).state) && SysInv(z.state)
    decreases |ops|
  {
    if ops == [] {
      return false;
    }
    RunUntilFront(OpenStep, OpPanics, first, ops);
    ghost var (next, more) := (OpenStep(first, ops[0]), {});
    crashed, more := PerformNext(z, tmp, mine, ops[0], first, next);
    if !crashed {
      crashed := PerformOps(z, tmp, mine + more, ops[1..], next);
    }
  }
}
