/** `DynamicZone` and its transactions on the heap: Begin, the updator methods, Commit,
    RollBack and Load, each proved to take exactly the step of ZoneTransactions. */
module DynamicZones {
  import opened Dns
  import opened ZoneModel
  import opened ZoneTransactions
  import opened MemoryZones

  /** The step an operation other than a bump takes, from its effect on the copy. */
  lemma NextTx(live: Zone, tx: Tx, op: Op, next: Tx, res: Outcome)
    requires !op.IncreaseSerial?
    requires (next.tmp, res) == Apply(tx.tmp, op)
    requires next.shared <==> tx.shared && ApexSOA(next.tmp) == ApexSOA(tx.tmp)
    ensures InTx(live, tx, op) == (Sys(live, Some(next)), res)
  {
  }

  /** What a bump does to the copy and, through a shared object, to the live zone. */
  ghost predicate BumpEffect(live: Zone, tx: Tx, live': Zone, next: Tx, res: Outcome) {
    && (next.tmp, res) == RaiseSerial(tx.tmp)
    && next.shared == tx.shared
    && live'.origin == live.origin == tx.tmp.origin
    && (if res == Done && tx.shared then
          ApexSOA(next.tmp).Some? && live'.nodes == SetEntry(live.nodes, live.origin, SOA, ApexSOA(next.tmp).value)
        else live'.nodes == live.nodes)
  }

  lemma NextBump(live: Zone, tx: Tx, live': Zone, next: Tx, res: Outcome)
    requires SharesSOA(live, tx) && BumpEffect(live, tx, live', next, res)
    ensures InTx(live, tx, IncreaseSerial) == (Sys(live', Some(next)), res)
  {
  }

  /** An RRset to load, and the tree's choices for it. */
  datatype LoadRecord = LoadRecord(rr: RRsetObject, split: set<Name>)

  ghost predicate Tied(records: seq<LoadRecord>, rrs: seq<(RRset, set<Name>)>)
    reads set r | r in records :: r.rr
  {
    |records| == |rrs| && forall k | 0 <= k < |rrs| :: rrs[k] == (records[k].rr.Val(), records[k].split)
  }

  /** `validate` on the heap zone. */
  function Checked(z: MemoryZone): Outcome
    requires z.Valid()
    reads z, z.objs
  {
    var data := z.domains[z.origin].data;
    if data.None? || SOA !in data.value then Refused(ShortOfSOA)
    else if NS !in data.value then Refused(ShortOfNS)
    else Done
  }

  lemma CheckedIsValidate(z: MemoryZone)
    requires z.Valid()
    ensures Checked(z) == Validate(z.Value())
  {
    HoldsDeref(z.origin, z.shapes, z.origin, SOA);
    HoldsDeref(z.origin, z.shapes, z.origin, NS);
  }

  /** The loop of `Load` over what it receives until the channel is closed or the load
      aborted: ineffective records are skipped, any other refusal ends it. */
  method Fill(z: MemoryZone, records: seq<LoadRecord>, aborted: bool, ghost rrs: seq<(RRset, set<Name>)>) returns (res: Outcome)
    requires z.Valid() && Tied(records, rrs)
    modifies z, z.objs
    ensures z.Valid()
    ensures (z.Value(), res) == LoadZone(old(z.Value()), rrs, aborted)
  {
    assert rrs[0..] == rrs;
    for i := 0 to |records|
      invariant z.Valid() && fresh(z.objs - old(z.objs))
      invariant LoadZone(z.Value(), rrs[i..], aborted) == LoadZone(old(z.Value()), rrs, aborted)
    {
      ghost var before := z.Value();
      res := z.AddRRset(records[i].rr, records[i].split);
      LoadStep(before, rrs, i, aborted);
      if res != Done && res != Refused(NoEffectiveUpdate) {
        return;
      }
    }
    assert rrs[|rrs|..] == [];
    CheckedIsValidate(z);
    res := if aborted then Refused(LoadAborted) else Checked(z);
  }

  lemma LoadStep(z: Zone, rrs: seq<(RRset, set<Name>)>, i: nat, aborted: bool)
    requires i < |rrs|
    ensures var (z', outcome) := ZoneModel.AddRRset(z, rrs[i].0, rrs[i].1);
            LoadZone(z, rrs[i..], aborted) ==
            if outcome == Done || outcome == Refused(NoEffectiveUpdate) then LoadZone(z', rrs[i + 1..], aborted)
            else (z', outcome)
  {
    assert rrs[i..][1..] == rrs[i + 1..];
  }

  method LoadAside(origin: Name, records: seq<LoadRecord>, aborted: bool, ghost rrs: seq<(RRset, set<Name>)>)
      returns (z: MemoryZone, res: Outcome)
    requires Tied(records, rrs)
    ensures fresh(z) && z.Valid() && (z.Value(), res) == LoadZone(NewZone(origin), rrs, aborted)
  {
    z := new MemoryZone(origin);
    res := Fill(z, records, aborted, rrs);
  }

  class DynamicZone {
    var live: MemoryZone
    /** The open transaction's copy; while it is there the zone's lock is held. */
    var tmp: MemoryZone?
    /** What the two zones hold; Valid() ties it to the heap. */
    ghost var state: Sys

    /** Live zone and copy share RRset objects, never nodes. */
    ghost predicate Separate()
      reads this, live, live.objs, tmp, if tmp == null then {} else tmp.objs
    {
      && live.Valid()
      && (tmp != null ==> tmp != live && tmp.Valid() && tmp.objs !! live.objs && tmp.origin == live.origin)
    }

    ghost predicate LiveTied()
      reads this, live, Refs(live.shapes)
    {
      state.live == live.Value()
    }

    ghost predicate TxTied()
      reads this, live, tmp, if tmp == null then {} else Refs(tmp.shapes)
    {
      if tmp == null then state.tx == None
      else state.tx == Some(Tx(tmp.Value(), live.SoaObject() != null && live.SoaObject() == tmp.SoaObject()))
    }

    ghost predicate Valid()
      reads this, live, live.objs, Refs(live.shapes)
      reads tmp, if tmp == null then {} else tmp.objs + Refs(tmp.shapes)
    {
      Separate() && LiveTied() && TxTied()
    }

    /** `NewDynamicZone`. */
    constructor (origin: Name)
      ensures Valid() && state == NewSys(origin)
    {
      live := new MemoryZone(origin);
      tmp := null;
      state := NewSys(origin);
    }

    /** `Begin`. */
    method Begin()
      requires Valid() && tmp == null
      modifies this
      ensures Valid() && tmp != null && fresh(tmp) && fresh(tmp.objs) && live == old(live)
      ensures tmp.SoaObject() == live.SoaObject()
      ensures state == BeginTx(old(state).live)
    {
      var copy := live.Clone();
      DerefUnchanged(live.shapes);
      Open(copy);
    }

    method Open(copy: MemoryZone)
      requires live.Valid() && LiveTied() && tmp == null
      requires copy != live && copy.Valid() && copy.objs !! live.objs
      requires copy.origin == live.origin && copy.shapes == live.shapes
      modifies this
      ensures Valid() && tmp == copy && live == old(live) && tmp.SoaObject() == live.SoaObject()
      ensures state == BeginTx(old(state).live)
    {
      SoaIsApex(live.origin, live.shapes);
      tmp, state := copy, BeginTx(state.live);
      DerefUnchanged(live.shapes);
    }

    /** `RollBack`. */
    method RollBack()
      requires Valid() && tmp != null
      modifies this
      ensures Valid() && tmp == null && live == old(live)
      ensures state == Sys(old(state).live, None)
    {
      tmp := null;
      state := Sys(state.live, None);
      DerefUnchanged(live.shapes);
    }

    /** `Commit`. */
    method Commit() returns (res: Outcome)
      requires Valid() && tmp != null
      modifies this
      ensures Valid() && tmp == null
      ensures (state, res) == CommitTx(old(state).live, old(state).tx.value)
    {
      CheckedIsValidate(tmp);
      res := Checked(tmp);
      if res == Done {
        live := tmp;
      }
      tmp := null;
      state := CommitTx(state.live, state.tx.value).0;
      DerefUnchanged(live.shapes);
    }

    /** `Load`: a new zone is filled aside and swapped in only if it is complete and the
        load was not aborted. */
    method Load(records: seq<LoadRecord>, aborted: bool, ghost rrs: seq<(RRset, set<Name>)>) returns (res: Outcome)
      requires Valid() && tmp == null && Tied(records, rrs)
      modifies this
      ensures Valid() && tmp == null
      ensures state == Step(old(state), LoadEvent(rrs, aborted))
      ensures res == LoadZone(NewZone(old(live).origin), rrs, aborted).1
    {
      var z;
      z, res := LoadAside(live.origin, records, aborted, rrs);
      DerefUnchanged(live.shapes);
      if res == Done {
        Swap(z);
      }
    }

    method Swap(z: MemoryZone)
      requires z.Valid() && tmp == null
      modifies this
      ensures Valid() && tmp == null && state == Sys(old(z.Value()), None)
    {
      live, state := z, Sys(z.Value(), None);
      DerefUnchanged(live.shapes);
    }

    /** The transaction as it stands on the heap. */
    ghost function HeapTx(): Tx
      requires tmp != null
      reads this, live, tmp, Refs(tmp.shapes)
    {
      Tx(tmp.Value(), live.SoaObject() != null && live.SoaObject() == tmp.SoaObject())
    }

    /** Record the step an updator method took in its copy. */
    ghost method Record()
      requires tmp != null && Separate() && LiveTied()
      modifies `state
      ensures Valid() && state == Sys(old(state).live, Some(old(HeapTx())))
    {
      state := Sys(state.live, Some(HeapTx()));
      DerefUnchanged(live.shapes);
      DerefUnchanged(tmp.shapes);
    }

    /** `Add`. */
    method Add(rr: RRsetObject, split: set<Name>) returns (res: Outcome)
      requires Valid() && tmp != null && rr != live.SoaObject()
      modifies `state, tmp, tmp.objs
      ensures Valid() && fresh(tmp.objs - old(tmp.objs))
      ensures (state, res) == InTx(old(state).live, old(state).tx.value, Op.Add(rr.Val(), split))
      ensures tmp.SoaObject() == old(tmp.SoaObject()) || tmp.SoaObject() == rr
    {
      SoaIsApex(tmp.origin, tmp.shapes);
      res := AddInCopy(rr, split);
      SoaIsApex(tmp.origin, tmp.shapes);
      NextTx(state.live, state.tx.value, Op.Add(rr.Val(), split), HeapTx(), res);
      Record();
    }

    method AddInCopy(rr: RRsetObject, split: set<Name>) returns (res: Outcome)
      requires Valid() && tmp != null && rr != live.SoaObject()
      modifies tmp, tmp.objs
      ensures Separate() && LiveTied() && fresh(tmp.objs - old(tmp.objs))
      ensures (tmp.Value(), res) == Apply(state.tx.value.tmp, Op.Add(rr.Val(), split))
      ensures tmp.SoaObject() == old(tmp.SoaObject()) || tmp.SoaReplacedBy(old(tmp.SoaObject()), rr)
    {
      res := tmp.AddRRset(rr, split);
      DerefUnchanged(live.shapes);
    }

    /** `DeleteRRset`. */
    method DeleteRRset(rr: RRsetObject, drop: set<Name>) returns (res: Outcome)
      requires Valid() && tmp != null
      modifies `state, tmp, tmp.objs
      ensures Valid() && tmp.objs == old(tmp.objs)
      ensures (state, res) == InTx(old(state).live, old(state).tx.value, Op.DeleteRRset(rr.Val(), drop))
      ensures tmp.SoaObject() == old(tmp.SoaObject())
    {
      SoaIsApex(tmp.origin, tmp.shapes);
      res := DeleteRRsetInCopy(rr, drop);
      SoaIsApex(tmp.origin, tmp.shapes);
      NextTx(state.live, state.tx.value, Op.DeleteRRset(rr.Val(), drop), HeapTx(), res);
      Record();
    }

    method DeleteRRsetInCopy(rr: RRsetObject, drop: set<Name>) returns (res: Outcome)
      requires Valid() && tmp != null
      modifies tmp, tmp.objs
      ensures Separate() && LiveTied() && tmp.objs == old(tmp.objs)
      ensures (tmp.Value(), res) == Apply(state.tx.value.tmp, Op.DeleteRRset(rr.Val(), drop))
      ensures tmp.SoaObject() == old(tmp.SoaObject())
    {
      res := tmp.DeleteRRset(rr, drop);
      DerefUnchanged(live.shapes);
    }

    /** `DeleteRr`. */
    method DeleteRr(rr: RRsetObject, drop: set<Name>) returns (res: Outcome)
      requires Valid() && tmp != null
      modifies `state, tmp, tmp.objs
      ensures Valid() && tmp.objs == old(tmp.objs)
      ensures (state, res) == InTx(old(state).live, old(state).tx.value, Op.DeleteRr(rr.Val(), drop))
      ensures tmp.SoaObject() == old(tmp.SoaObject())
    {
      SoaIsApex(tmp.origin, tmp.shapes);
      res := DeleteRrInCopy(rr, drop);
      SoaIsApex(tmp.origin, tmp.shapes);
      NextTx(state.live, state.tx.value, Op.DeleteRr(rr.Val(), drop), HeapTx(), res);
      Record();
    }

    method DeleteRrInCopy(rr: RRsetObject, drop: set<Name>) returns (res: Outcome)
      requires Valid() && tmp != null
      modifies tmp, tmp.objs
      ensures Separate() && LiveTied() && tmp.objs == old(tmp.objs)
      ensures (tmp.Value(), res) == Apply(state.tx.value.tmp, Op.DeleteRr(rr.Val(), drop))
      ensures tmp.SoaObject() == old(tmp.SoaObject())
    {
      res := tmp.DeleteRr(rr, drop);
      DerefUnchanged(live.shapes);
    }

    /** `DeleteDomain`. */
    method DeleteDomain(n: Name, drop: set<Name>) returns (res: Outcome)
      requires Valid() && tmp != null
      modifies `state, tmp, tmp.objs
      ensures Valid() && tmp.objs == old(tmp.objs)
      ensures (state, res) == InTx(old(state).live, old(state).tx.value, Op.DeleteDomain(n, drop))
      ensures tmp.SoaObject() == old(tmp.SoaObject())
    {
      SoaIsApex(tmp.origin, tmp.shapes);
      res := DeleteDomainInCopy(n, drop);
      SoaIsApex(tmp.origin, tmp.shapes);
      NextTx(state.live, state.tx.value, Op.DeleteDomain(n, drop), HeapTx(), res);
      Record();
    }

    method DeleteDomainInCopy(n: Name, drop: set<Name>) returns (res: Outcome)
      requires Valid() && tmp != null
      modifies tmp, tmp.objs
      ensures Separate() && LiveTied() && tmp.objs == old(tmp.objs)
      ensures (tmp.Value(), res) == Apply(state.tx.value.tmp, Op.DeleteDomain(n, drop))
      ensures tmp.SoaObject() == old(tmp.SoaObject())
    {
      res := tmp.DeleteDomain(n, drop);
      DerefUnchanged(live.shapes);
    }

    /** `IncreaseSerialNumber`: the write goes through the SOA object, so the live zone
        sees it exactly when it refers to the same object. */
    method IncreaseSerialNumber() returns (res: Outcome)
      requires Valid() && tmp != null
      requires Filed(live.shapes) && Filed(tmp.shapes) && SharesSOA(state.live, state.tx.value)
      modifies `state, if tmp.SoaObject() == null then {} else {tmp.SoaObject()}
      ensures Valid()
      ensures (state, res) == InTx(old(state).live, old(state).tx.value, IncreaseSerial)
    {
      res := BumpBoth();
      NextBump(state.live, state.tx.value, live.Value(), HeapTx(), res);
      Rebind();
    }

    method BumpBoth() returns (res: Outcome)
      requires Valid() && tmp != null && Filed(live.shapes) && Filed(tmp.shapes)
      modifies if tmp.SoaObject() == null then {} else {tmp.SoaObject()}
      ensures Separate()
      ensures BumpEffect(state.live, state.tx.value, live.Value(), HeapTx(), res)
    {
      res := BumpSeparate();
      SoaIsApex(tmp.origin, tmp.shapes);
    }

    method BumpSeparate() returns (res: Outcome)
      requires Separate() && tmp != null && Filed(live.shapes) && Filed(tmp.shapes)
      modifies if tmp.SoaObject() == null then {} else {tmp.SoaObject()}
      ensures Separate()
      ensures (tmp.Value(), res) == RaiseSerial(old(tmp.Value()))
      ensures live.Value().nodes ==
              if res == Done && live.SoaObject() != null && live.SoaObject() == tmp.SoaObject()
              then SetEntry(old(live.Value()).nodes, live.origin, SOA, live.SoaObject().Val())
              else old(live.Value()).nodes
    {
      res := BumpObjects();
    }

    method BumpObjects() returns (res: Outcome)
      requires tmp != null && tmp.Valid() && Filed(live.shapes) && Filed(tmp.shapes)
      requires live.origin in live.shapes && live.origin == tmp.origin
      modifies if tmp.SoaObject() == null then {} else {tmp.SoaObject()}
      ensures tmp.Valid()
      ensures (tmp.Value(), res) == RaiseSerial(old(tmp.Value()))
      ensures Deref(live.shapes) ==
              if res == Done && live.SoaObject() != null && live.SoaObject() == tmp.SoaObject()
              then SetEntry(old(Deref(live.shapes)), live.origin, SOA, live.SoaObject().Val())
              else old(Deref(live.shapes))
    {
      ghost var soa := tmp.SoaObject();
      res := tmp.IncreaseSerialNumber();
      if res == Done {
        SoaWriteSeen(Written(live.shapes, soa));
      } else {
        DerefUnchanged(live.shapes);
      }
    }

    /** Record a bump, which both zones may have seen. */
    ghost method Rebind()
      requires tmp != null && Separate()
      modifies `state
      ensures Valid() && state == Sys(old(live.Value()), Some(old(HeapTx())))
    {
      state := Sys(live.Value(), Some(HeapTx()));
      DerefUnchanged(live.shapes);
      DerefUnchanged(tmp.shapes);
    }
  }
}
