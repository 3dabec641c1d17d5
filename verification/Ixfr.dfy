/** Incremental zone transfer (section 4 of RFC 1995): the event machine, the exact
    language of answers it accepts, and what it asks of the updator. */
module Ixfr {
  import opened Dns

  datatype State = Init | Start | DeleteSection | AddSection | Finished

  datatype Event = WrapperSOA(serial: uint32) | MidSOA(serial: uint32) | NoneSOA(rr: RRset)

  /** A call on the updator, in the order it was made. */
  datatype Call = CallDelete(rr: RRset) | CallIncrease | CallAdd(rr: RRset)

  datatype EventError = NoTransition | InvalidEvent | NotInPair | SerialIsWrong

  /** The machine's state, the generator's two serials, and the updator calls so far. */
  datatype Machine = Machine(state: State, current: uint32, latest: uint32, calls: seq<Call>)

  // ----- the event engine

  /** The transition table: a partial map from event and state to state. */
  function Next(e: Event, s: State): Option<State> {
    match (e, s)
    case (WrapperSOA(_), Init) => Some(Start)
    case (WrapperSOA(_), AddSection) => Some(Finished)
    case (MidSOA(_), Start) => Some(DeleteSection)
    case (MidSOA(_), DeleteSection) => Some(AddSection)
    case (MidSOA(_), AddSection) => Some(DeleteSection)
    case (NoneSOA(_), DeleteSection) => Some(DeleteSection)
    case (NoneSOA(_), AddSection) => Some(AddSection)
    case _ => None
  }

  /** The "before" callbacks: they may cancel the event or change the generator. */
  function Before(m: Machine, e: Event): (Machine, Option<EventError>) {
    match e
    case WrapperSOA(serial) =>
      if m.state == Init then (m.(latest := serial), None)
      else if m.latest != serial then (m, Some(NotInPair))
      else (m, None)
    case MidSOA(serial) =>
      if m.state == Start || m.state == AddSection then
        (m, if serial != m.current then Some(SerialIsWrong) else None)
      else if serial != Inc32(m.current) then (m, Some(SerialIsWrong))
      else (m.(current := Inc32(m.current), calls := m.calls + [CallIncrease]), None)
    case NoneSOA(_) => (m, None)
  }

  /** The "after" callback; it also runs for a self-loop. */
  function After(m: Machine, e: Event): Machine {
    match e
    case NoneSOA(rr) =>
      m.(calls := m.calls + [if m.state == DeleteSection then CallDelete(rr) else CallAdd(rr)])
    case _ => m
  }

  function Fire(m: Machine, e: Event): (Machine, Option<EventError>) {
    match Next(e, m.state)
    case None => (m, Some(InvalidEvent))
    case Some(next) =>
      var (m', cancelled) := Before(m, e);
      if cancelled.Some? then (m', cancelled)
      else if next == m.state then (After(m', e), Some(NoTransition))
      else (After(m', e).(state := next), None)
  }

  /** What `runIXFRFSM` takes as a refusal: any error for an SOA, any outcome but "no
      transition" for other records. */
  predicate Refuses(e: Event, err: Option<EventError>) {
    if e.NoneSOA? then err != Some(NoTransition) else err.Some?
  }

  /** The machine after the events, up to the first refused one. */
  function RunEvents(m: Machine, events: seq<Event>): (Machine, bool)
    decreases |events|
  {
    if events == [] then (m, true)
    else
      var (m', err) := Fire(m, events[0]);
      if Refuses(events[0], err) then (m', false) else RunEvents(m', events[1..])
  }

  lemma {:induction false} RunEventsAppend(m: Machine, first: seq<Event>, more: seq<Event>)
    ensures RunEvents(m, first + more) ==
            var (m', ok) := RunEvents(m, first);
            if ok then RunEvents(m', more) else (m', false)
    decreases |first|
  {
    if first == [] {
      assert first + more == more;
    } else {
      assert (first + more)[1..] == first[1..] + more;
      RunEventsAppend(Fire(m, first[0]).0, first[1..], more);
    }
  }

  // ----- answers as flat records

  datatype Rec = SoaRec(serial: uint32) | DataRec(rr: RRset)

  function MidEvent(r: Rec): Event {
    match r
    case SoaRec(serial) => MidSOA(serial)
    case DataRec(rr) => NoneSOA(rr)
  }

  function WrapEvent(r: Rec): Event {
    match r
    case SoaRec(serial) => WrapperSOA(serial)
    case DataRec(rr) => NoneSOA(rr)
  }

  function MidEvents(recs: seq<Rec>): seq<Event> {
    if recs == [] then [] else [MidEvent(recs[0])] + MidEvents(recs[1..])
  }

  /** The first and the last record, when they are SOAs, are the wrapper. */
  function FlatEvents(recs: seq<Rec>): seq<Event> {
    if recs == [] then []
    else if |recs| == 1 then [WrapEvent(recs[0])]
    else [WrapEvent(recs[0])] + MidEvents(recs[1..|recs| - 1]) + [WrapEvent(recs[|recs| - 1])]
  }

  // ----- the encoding of deltas

  datatype Delta = Delta(deletes: seq<RRset>, adds: seq<RRset>)

  function Datas(rrs: seq<RRset>): seq<Rec> {
    if rrs == [] then [] else [DataRec(rrs[0])] + Datas(rrs[1..])
  }

  function EncodeDelta(from: uint32, d: Delta): seq<Rec> {
    [SoaRec(from)] + Datas(d.deletes) + [SoaRec(Inc32(from))] + Datas(d.adds)
  }

  function EncodeDeltas(from: uint32, deltas: seq<Delta>): seq<Rec>
    decreases |deltas|
  {
    if deltas == [] then [] else EncodeDelta(from, deltas[0]) + EncodeDeltas(Inc32(from), deltas[1..])
  }

  function Deletes(rrs: seq<RRset>): seq<Call> {
    if rrs == [] then [] else [CallDelete(rrs[0])] + Deletes(rrs[1..])
  }

  function Adds(rrs: seq<RRset>): seq<Call> {
    if rrs == [] then [] else [CallAdd(rrs[0])] + Adds(rrs[1..])
  }

  function DeltaCalls(d: Delta): seq<Call> {
    Deletes(d.deletes) + [CallIncrease] + Adds(d.adds)
  }

  /** Each delta's deletes, one serial increase and its adds, in order. */
  function Calls(deltas: seq<Delta>): seq<Call>
    decreases |deltas|
  {
    if deltas == [] then []
    else DeltaCalls(deltas[0]) + Calls(deltas[1..])
  }

  /** Everything the machine can read between the wrapper SOAs from an add section:
      more adds, whole deltas, and possibly a delta broken off in its delete section. */
  datatype Body = Body(adds: seq<RRset>, deltas: seq<Delta>, open: Option<seq<RRset>>)

  function EncodeBody(from: uint32, b: Body): seq<Rec> {
    Datas(b.adds) + EncodeDeltas(from, b.deltas) + EncodeOpen(Add32(from, |b.deltas|), b.open)
  }

  function EncodeOpen(from: uint32, open: Option<seq<RRset>>): seq<Rec> {
    match open
    case None => []
    case Some(deletes) => [SoaRec(from)] + Datas(deletes)
  }

  function BodyCalls(b: Body): seq<Call> {
    Adds(b.adds) + Calls(b.deltas) + if b.open.Some? then Deletes(b.open.value) else []
  }

  function AfterBody(m: Machine, b: Body): Machine {
    Machine(if b.open.Some? then DeleteSection else AddSection,
            Add32(m.current, |b.deltas|), m.latest, m.calls + BodyCalls(b))
  }

  lemma Assoc<T>(a: seq<T>, b: seq<T>, c: seq<T>)
    ensures a + (b + c) == (a + b) + c
  {
  }

  lemma Cons<T>(x: T, s: seq<T>)
    ensures ([x] + s)[1..] == s
  {
  }

  // ----- encodings are accepted

  lemma {:induction false} MidEventsAppend(a: seq<Rec>, b: seq<Rec>)
    ensures MidEvents(a + b) == MidEvents(a) + MidEvents(b)
  {
    if a == [] {
      assert a + b == b;
    } else {
      MidEventsAppend(a[1..], b);
      assert (a + b)[1..] == a[1..] + b;
    }
  }

  /** The machine reads a from m to m', without refusing. */
  predicate Reads(m: Machine, a: seq<Rec>, m': Machine) {
    RunEvents(m, MidEvents(a)) == (m', true)
  }

  lemma ReadsBoth(m: Machine, a: seq<Rec>, m1: Machine, b: seq<Rec>, m2: Machine)
    requires Reads(m, a, m1) && Reads(m1, b, m2)
    ensures Reads(m, a + b, m2)
  {
    MidEventsAppend(a, b);
    RunEventsAppend(m, MidEvents(a), MidEvents(b));
  }

  lemma {:induction false} RunAdds(m: Machine, rrs: seq<RRset>)
    requires m.state == AddSection
    ensures Reads(m, Datas(rrs), m.(calls := m.calls + Adds(rrs)))
    decreases |rrs|
  {
    if rrs == [] {
      assert m.calls + [] == m.calls;
    } else {
      var m' := m.(calls := m.calls + [CallAdd(rrs[0])]);
      RunAdds(m', rrs[1..]);
      Cons(DataRec(rrs[0]), Datas(rrs[1..]));
      Cons(NoneSOA(rrs[0]), MidEvents(Datas(rrs[1..])));
      Assoc(m.calls, [CallAdd(rrs[0])], Adds(rrs[1..]));
    }
  }

  lemma {:induction false} RunDeletes(m: Machine, rrs: seq<RRset>)
    requires m.state == DeleteSection
    ensures Reads(m, Datas(rrs), m.(calls := m.calls + Deletes(rrs)))
    decreases |rrs|
  {
    if rrs == [] {
      assert m.calls + [] == m.calls;
    } else {
      var m' := m.(calls := m.calls + [CallDelete(rrs[0])]);
      RunDeletes(m', rrs[1..]);
      Cons(DataRec(rrs[0]), Datas(rrs[1..]));
      Cons(NoneSOA(rrs[0]), MidEvents(Datas(rrs[1..])));
      Assoc(m.calls, [CallDelete(rrs[0])], Deletes(rrs[1..]));
    }
  }

  lemma RunOneMid(m: Machine, serial: uint32)
    requires Fire(m, MidSOA(serial)).1 == None
    ensures Reads(m, [SoaRec(serial)], Fire(m, MidSOA(serial)).0)
  {
    assert MidEvents([SoaRec(serial)]) == [MidSOA(serial)];
  }

  lemma RunDelta(m: Machine, d: Delta)
    requires m.state == AddSection || m.state == Start
    ensures Reads(m, EncodeDelta(m.current, d),
                  Machine(AddSection, Inc32(m.current), m.latest, m.calls + DeltaCalls(d)))
  {
    var m1 := m.(state := DeleteSection);
    var m2 := m1.(calls := m.calls + Deletes(d.deletes));
    var m3 := Machine(AddSection, Inc32(m.current), m.latest, m2.calls + [CallIncrease]);
    var m4 := m3.(calls := m3.calls + Adds(d.adds));
    var (a, b, c, e) := ([SoaRec(m.current)], Datas(d.deletes), [SoaRec(Inc32(m.current))], Datas(d.adds));
    RunOneMid(m, m.current);
    RunDeletes(m1, d.deletes);
    RunOneMid(m2, Inc32(m.current));
    RunAdds(m3, d.adds);
    ReadsBoth(m, a, m1, b, m2);
    ReadsBoth(m, a + b, m2, c, m3);
    ReadsBoth(m, a + b + c, m3, e, m4);
    assert m4.calls == m.calls + DeltaCalls(d);
  }

  lemma {:induction false} RunDeltas(m: Machine, deltas: seq<Delta>)
    requires m.state == AddSection || (m.state == Start && deltas != [])
    ensures Reads(m, EncodeDeltas(m.current, deltas),
                  Machine(AddSection, Add32(m.current, |deltas|), m.latest, m.calls + Calls(deltas)))
    decreases |deltas|
  {
    if deltas == [] {
      assert m.calls + [] == m.calls;
    } else {
      var m1 := Machine(AddSection, Inc32(m.current), m.latest, m.calls + DeltaCalls(deltas[0]));
      var m2 := Machine(AddSection, Add32(m.current, |deltas|), m.latest, m.calls + Calls(deltas));
      RunDelta(m, deltas[0]);
      RunDeltas(m1, deltas[1..]);
      Add32Step(m.current, |deltas| - 1);
      Assoc(m.calls, DeltaCalls(deltas[0]), Calls(deltas[1..]));
      ReadsBoth(m, EncodeDelta(m.current, deltas[0]), m1, EncodeDeltas(m1.current, deltas[1..]), m2);
    }
  }

  lemma RunOpen(m: Machine, open: Option<seq<RRset>>)
    requires m.state == AddSection || (m.state == Start && open.Some?)
    ensures Reads(m, EncodeOpen(m.current, open),
                  if open.None? then m else m.(state := DeleteSection, calls := m.calls + Deletes(open.value)))
  {
    match open
    case None =>
    case Some(deletes) =>
      var m1 := m.(state := DeleteSection);
      RunOneMid(m, m.current);
      RunDeletes(m1, deletes);
      ReadsBoth(m, [SoaRec(m.current)], m1, Datas(deletes), m1.(calls := m.calls + Deletes(deletes)));
  }

  /** A body is read to its end, with exactly its calls. */
  lemma RunBody(m: Machine, b: Body)
    requires m.state == AddSection || (m.state == Start && b.adds == [] && (b.deltas != [] || b.open.Some?))
    ensures Reads(m, EncodeBody(m.current, b), AfterBody(m, b))
  {
    var m1 := m.(calls := m.calls + Adds(b.adds));
    var n := Add32(m.current, |b.deltas|);
    var m2 := if b.deltas == [] then m1 else Machine(AddSection, n, m.latest, m1.calls + Calls(b.deltas));
    if b.adds == [] {
      assert m1 == m;
    } else {
      RunAdds(m, b.adds);
    }
    assert Reads(m, Datas(b.adds), m1);
    if b.deltas != [] {
      RunDeltas(m1, b.deltas);
    }
    RunOpen(m2, b.open);
    ReadsBoth(m, Datas(b.adds), m1, EncodeDeltas(m.current, b.deltas), m2);
    var m3 := if b.open.None? then m2 else m2.(state := DeleteSection, calls := m2.calls + Deletes(b.open.value));
    ReadsBoth(m, Datas(b.adds) + EncodeDeltas(m.current, b.deltas), m2, EncodeOpen(n, b.open), m3);
    Assoc(m.calls, Adds(b.adds), Calls(b.deltas));
    if b.deltas == [] {
      assert m1.calls + [] == m1.calls;
    }
    if b.open.Some? {
      Assoc(m.calls, Adds(b.adds) + Calls(b.deltas), Deletes(b.open.value));
    } else {
      assert (Adds(b.adds) + Calls(b.deltas)) + [] == Adds(b.adds) + Calls(b.deltas);
    }
  }

  // ----- only encodings are accepted

  predicate Accepts(m: Machine, recs: seq<Rec>) {
    RunEvents(m, MidEvents(recs)).1
  }

  lemma {:induction false} ParseAdd(m: Machine, recs: seq<Rec>) returns (b: Body)
    requires m.state == AddSection && Accepts(m, recs)
    ensures recs == EncodeBody(m.current, b)
    decreases |recs|
  {
    if recs == [] {
      b := Body([], [], None);
    } else {
      var m' := Fire(m, MidEvent(recs[0])).0;
      assert MidEvents(recs)[1..] == MidEvents(recs[1..]);
      match recs[0]
      case DataRec(rr) =>
        var b' := ParseAdd(m', recs[1..]);
        b := b'.(adds := [rr] + b'.adds);
        assert Datas(b.adds) == [DataRec(rr)] + Datas(b'.adds) by { assert b.adds[1..] == b'.adds; }
      case SoaRec(serial) =>
        var deletes, rest := ParseDelete(m', recs[1..]);
        match rest
        case None =>
          b := Body([], [], Some(deletes));
        case Some(b') =>
          b := Body([], [Delta(deletes, b'.adds)] + b'.deltas, b'.open);
          JoinDelta(m.current, deletes, b');
    }
  }

  lemma JoinDelta(from: uint32, deletes: seq<RRset>, b: Body)
    ensures EncodeBody(from, Body([], [Delta(deletes, b.adds)] + b.deltas, b.open)) ==
            [SoaRec(from)] + (Datas(deletes) + ([SoaRec(Inc32(from))] + EncodeBody(Inc32(from), b)))
  {
    var deltas := [Delta(deletes, b.adds)] + b.deltas;
    assert deltas[1..] == b.deltas;
    Add32Step(from, |b.deltas|);
    Regroup([SoaRec(from)], Datas(deletes), [SoaRec(Inc32(from))], Datas(b.adds),
            EncodeDeltas(Inc32(from), b.deltas), EncodeOpen(Add32(Inc32(from), |b.deltas|), b.open));
  }

  lemma Regroup<T>(a: seq<T>, b: seq<T>, c: seq<T>, d: seq<T>, e: seq<T>, f: seq<T>)
    ensures [] + ((a + b + c + d) + e) + f == a + (b + (c + (d + e + f)))
  {
  }

  lemma {:induction false} ParseDelete(m: Machine, recs: seq<Rec>) returns (deletes: seq<RRset>, rest: Option<Body>)
    requires m.state == DeleteSection && Accepts(m, recs)
    ensures recs == Datas(deletes) +
                    match rest
                    case None => []
                    case Some(b) => [SoaRec(Inc32(m.current))] + EncodeBody(Inc32(m.current), b)
    decreases |recs|
  {
    if recs == [] {
      deletes, rest := [], None;
    } else {
      var m' := Fire(m, MidEvent(recs[0])).0;
      assert MidEvents(recs)[1..] == MidEvents(recs[1..]);
      match recs[0]
      case DataRec(rr) =>
        var deletes';
        deletes', rest := ParseDelete(m', recs[1..]);
        deletes := [rr] + deletes';
        Cons(rr, deletes');
      case SoaRec(serial) =>
        var b := ParseAdd(m', recs[1..]);
        deletes, rest := [], Some(b);
    }
  }

  /** The start state reads like an add section that has to open with an SOA. */
  lemma StartLikeAdd(m: Machine, recs: seq<Rec>)
    requires m.state == Start && recs != []
    ensures Accepts(m, recs) <==> recs[0].SoaRec? && Accepts(m.(state := AddSection), recs)
    ensures Accepts(m, recs) ==>
              RunEvents(m, MidEvents(recs)) == RunEvents(m.(state := AddSection), MidEvents(recs))
  {
    assert MidEvents(recs)[1..] == MidEvents(recs[1..]);
  }

  lemma ParseStart(m: Machine, recs: seq<Rec>) returns (b: Body)
    requires m.state == Start && recs != [] && Accepts(m, recs)
    ensures b.adds == [] && recs == EncodeBody(m.current, b)
    ensures RunEvents(m, MidEvents(recs)) == (AfterBody(m, b), true)
  {
    StartLikeAdd(m, recs);
    b := ParseAdd(m.(state := AddSection), recs);
    RunBody(m.(state := AddSection), b);
  }

  // ----- whole answers

  function Encode(latest: uint32, from: uint32, deltas: seq<Delta>): seq<Rec> {
    Wrapped(latest, EncodeDeltas(from, deltas), latest)
  }

  /** The machine of a new transfer. */
  function NewMachine(current: uint32, latest: uint32): Machine {
    Machine(Init, current, latest, [])
  }

  function RunFlat(m: Machine, recs: seq<Rec>): (Machine, bool) {
    RunEvents(m, FlatEvents(recs))
  }

  /** The records between two SOAs, and the events of such an answer. */
  function Wrapped(latest: uint32, body: seq<Rec>, end: uint32): seq<Rec> {
    [SoaRec(latest)] + body + [SoaRec(end)]
  }

  lemma WrappedEvents(latest: uint32, body: seq<Rec>, end: uint32)
    ensures FlatEvents(Wrapped(latest, body, end)) == [WrapperSOA(latest)] + (MidEvents(body) + [WrapperSOA(end)])
  {
    var recs := Wrapped(latest, body, end);
    assert recs[1..|recs| - 1] == body && recs[|recs| - 1] == SoaRec(end);
    Assoc([WrapperSOA(latest)], MidEvents(body), [WrapperSOA(end)]);
  }

  lemma RunLast(m: Machine, end: uint32)
    ensures RunEvents(m, [WrapperSOA(end)]) == (Fire(m, WrapperSOA(end)).0, Fire(m, WrapperSOA(end)).1.None?)
  {
    assert [WrapperSOA(end)][1..] == [];
  }

  /** How a new machine reads such an answer. */
  lemma RunWrapped(m: Machine, latest: uint32, body: seq<Rec>, end: uint32)
    requires m.state == Init
    ensures RunFlat(m, Wrapped(latest, body, end)) ==
            var (m', ok) := RunEvents(m.(state := Start, latest := latest), MidEvents(body));
            if ok then RunEvents(m', [WrapperSOA(end)]) else (m', false)
  {
    var (started, events) := (m.(state := Start, latest := latest), MidEvents(body) + [WrapperSOA(end)]);
    WrappedEvents(latest, body, end);
    Cons(WrapperSOA(latest), events);
    assert Fire(m, WrapperSOA(latest)) == (started, None);
    RunEventsAppend(started, MidEvents(body), [WrapperSOA(end)]);
  }

  /** Every encoding is accepted, with exactly its calls: whatever the latest serial is,
      since nothing compares it with the serial the deltas lead to. */
  lemma EncodingAccepted(current: uint32, notified: uint32, latest: uint32, deltas: seq<Delta>)
    requires deltas != []
    ensures RunFlat(NewMachine(current, notified), Encode(latest, current, deltas)) ==
            (Machine(Finished, Add32(current, |deltas|), latest, Calls(deltas)), true)
  {
    var end := Machine(AddSection, Add32(current, |deltas|), latest, Calls(deltas));
    RunWrapped(NewMachine(current, notified), latest, EncodeDeltas(current, deltas), latest);
    RunFromStart(current, latest, deltas);
    RunLast(end, latest);
  }

  lemma RunFromStart(current: uint32, latest: uint32, deltas: seq<Delta>)
    requires deltas != []
    ensures Reads(Machine(Start, current, latest, []), EncodeDeltas(current, deltas),
                  Machine(AddSection, Add32(current, |deltas|), latest, Calls(deltas)))
  {
    RunDeltas(Machine(Start, current, latest, []), deltas);
    assert [] + Calls(deltas) == Calls(deltas);
  }

  /** Main result: an answer of at least two records that ends in an SOA is accepted if
      and only if it is SOA(L), one or more consecutive deltas from the current serial,
      and SOA(L) again. */
  lemma AcceptedExactlyDeltas(current: uint32, notified: uint32, recs: seq<Rec>)
    requires |recs| >= 2 && recs[|recs| - 1].SoaRec?
    ensures RunFlat(NewMachine(current, notified), recs).1 <==>
            exists latest, deltas :: deltas != [] && recs == Encode(latest, current, deltas)
  {
    if latest, deltas :| deltas != [] && recs == Encode(latest, current, deltas) {
      EncodingAccepted(current, notified, latest, deltas);
    }
    if RunFlat(NewMachine(current, notified), recs).1 {
      var latest, deltas := Decode(current, notified, recs);
    }
  }

  lemma Decode(current: uint32, notified: uint32, recs: seq<Rec>) returns (latest: uint32, deltas: seq<Delta>)
    requires |recs| >= 2 && recs[|recs| - 1].SoaRec?
    requires RunFlat(NewMachine(current, notified), recs).1
    ensures deltas != [] && recs == Encode(latest, current, deltas)
  {
    var m := NewMachine(current, notified);
    FirstIsSOA(m, recs);
    var n := |recs| - 1;
    var (body, end) := (recs[1..n], recs[n].serial);
    latest := recs[0].serial;
    IsWrapped(recs);
    RunWrapped(m, latest, body, end);
    RunLast(RunEvents(m.(state := Start, latest := latest), MidEvents(body)).0, end);
    deltas := DecodeBody(m.(state := Start, latest := latest), body, end);
  }

  lemma IsWrapped(recs: seq<Rec>)
    requires |recs| >= 2 && recs[0].SoaRec? && recs[|recs| - 1].SoaRec?
    ensures recs == Wrapped(recs[0].serial, recs[1..|recs| - 1], recs[|recs| - 1].serial)
  {
  }

  lemma FirstIsSOA(m: Machine, recs: seq<Rec>)
    requires m.state == Init && recs != [] && RunFlat(m, recs).1
    ensures recs[0].SoaRec?
  {
    assert FlatEvents(recs)[0] == WrapEvent(recs[0]);
  }

  lemma DecodeBody(m: Machine, body: seq<Rec>, end: uint32) returns (deltas: seq<Delta>)
    requires m.state == Start && Accepts(m, body)
    requires Fire(RunEvents(m, MidEvents(body)).0, WrapperSOA(end)).1 == None
    ensures deltas != [] && body == EncodeDeltas(m.current, deltas) && end == m.latest
  {
    if body == [] {
      assert false;
    }
    var b := ParseStart(m, body);
    deltas := b.deltas;
  }

  lemma EndingInData(recs: seq<Rec>)
    requires |recs| >= 2 && recs[|recs| - 1].DataRec?
    ensures FlatEvents(recs) == [WrapEvent(recs[0])] + MidEvents(recs[1..])
  {
    var n := |recs| - 1;
    MidEventsAppend(recs[1..n], [recs[n]]);
    assert recs[1..n] + [recs[n]] == recs[1..];
    assert MidEvents([recs[n]]) == [WrapEvent(recs[n])];
    Assoc([WrapEvent(recs[0])], MidEvents(recs[1..n]), [WrapEvent(recs[n])]);
  }

  /** An answer broken off after a data record is accepted exactly when it is a proper
      beginning of an encoding. */
  lemma TruncatedAccepted(current: uint32, notified: uint32, recs: seq<Rec>)
    requires |recs| >= 2 && recs[|recs| - 1].DataRec?
    ensures RunFlat(NewMachine(current, notified), recs).1 <==>
            exists latest, b: Body :: b.adds == [] && recs == [SoaRec(latest)] + EncodeBody(current, b)
  {
    var m := NewMachine(current, notified);
    EndingInData(recs);
    Cons(WrapEvent(recs[0]), MidEvents(recs[1..]));
    if RunFlat(m, recs).1 {
      FirstIsSOA(m, recs);
      var latest := recs[0].serial;
      var b := ParseStart(m.(state := Start, latest := latest), recs[1..]);
      assert recs == [SoaRec(latest)] + EncodeBody(current, b);
    }
    if latest, b: Body :| b.adds == [] && recs == [SoaRec(latest)] + EncodeBody(current, b) {
      Cons(SoaRec(latest), EncodeBody(current, b));
      RunBody(m.(state := Start, latest := latest), b);
    }
  }

  /** Any other answer: nothing, a lone SOA, or one broken off after a data record; all
      three are accepted too. */
  lemma AcceptedOtherwise(current: uint32, notified: uint32, recs: seq<Rec>)
    requires |recs| < 2 || recs[|recs| - 1].DataRec?
    ensures RunFlat(NewMachine(current, notified), recs).1 <==>
            || recs == []
            || (|recs| == 1 && recs[0].SoaRec?)
            || exists latest, b: Body :: b.adds == [] && recs == [SoaRec(latest)] + EncodeBody(current, b)
  {
    var m := NewMachine(current, notified);
    if |recs| >= 2 {
      TruncatedAccepted(current, notified, recs);
    } else if |recs| == 1 {
      assert FlatEvents(recs) == [WrapEvent(recs[0])] && FlatEvents(recs)[1..] == [];
      assert RunEvents(Fire(m, WrapEvent(recs[0])).0, []).1;
      if latest, b: Body :| b.adds == [] && recs == [SoaRec(latest)] + EncodeBody(current, b) {
        assert recs[0] == SoaRec(latest);
      }
    }
  }
}
