/** The transfer machines as they run: the event loops over grouped answers, for IXFR
    and for AXFR (section 2.2 of RFC 5936). */
module XfrMachines {
  import opened Dns
  import opened Ixfr

  /** An RRset of the answer section: SOA records in one RRset, or data. */
  datatype Answer = SoaSet(serials: seq<uint32>) | DataSet(rr: RRset)

  function SoaRecs(serials: seq<uint32>): seq<Rec> {
    if serials == [] then [] else [SoaRec(serials[0])] + SoaRecs(serials[1..])
  }

  function FlattenOne(a: Answer): seq<Rec> {
    match a
    case SoaSet(serials) => SoaRecs(serials)
    case DataSet(rr) => [DataRec(rr)]
  }

  function Flatten(answers: seq<Answer>): seq<Rec> {
    if answers == [] then [] else FlattenOne(answers[0]) + Flatten(answers[1..])
  }

  // ----- the events of the nested loop

  /** The events of an SOA RRset: its first record opens the wrapper in the first RRset,
      its last one closes it in the last RRset. */
  function SoaEvents(serials: seq<uint32>, opens: bool, closes: bool): seq<Event> {
    if serials == [] then []
    else
      var e := if opens || (closes && |serials| == 1) then WrapperSOA(serials[0]) else MidSOA(serials[0]);
      [e] + SoaEvents(serials[1..], false, closes)
  }

  function SetEvents(a: Answer, opens: bool, closes: bool): seq<Event> {
    match a
    case SoaSet(serials) => SoaEvents(serials, opens, closes)
    case DataSet(rr) => [NoneSOA(rr)]
  }

  /** The events of answers that are all, or all but the first, of the section. */
  function AnswerEvents(answers: seq<Answer>, opens: bool): seq<Event>
    decreases |answers|
  {
    if answers == [] then []
    else SetEvents(answers[0], opens, |answers| == 1) + AnswerEvents(answers[1..], false)
  }

  class IxfrMachine {
    var state: State
    var currentSerial: uint32
    var latestSerial: uint32
    /** The calls made on the updator. */
    var calls: seq<Call>

    function Snapshot(): Machine
      reads this
    {
      Machine(state, currentSerial, latestSerial, calls)
    }

    /** `newFSMGenerator` and `genIXFRStateMachine`. */
    constructor (currentSerial: uint32, latestSerial: uint32)
      ensures Snapshot() == NewMachine(currentSerial, latestSerial)
    {
      state, this.currentSerial, this.latestSerial, calls := Init, currentSerial, latestSerial, [];
    }

    /** One event: table lookup, "before" callback, move, "after" callback. */
    method Event(e: Event) returns (err: Option<EventError>)
      modifies this
      ensures (Snapshot(), err) == Fire(old(Snapshot()), e)
    {
      var next := Next(e, state);
      if next.None? {
        return Some(InvalidEvent);
      }
      var source := state;
      match e {
        case WrapperSOA(serial) =>
          if source == Init {
            latestSerial := serial;
          } else if latestSerial != serial {
            return Some(NotInPair);
          }
        case MidSOA(serial) =>
          if source == Start || source == AddSection {
            if serial != currentSerial {
              return Some(SerialIsWrong);
            }
          } else {
            if serial != Inc32(currentSerial) {
              return Some(SerialIsWrong);
            }
            calls := calls + [CallIncrease];
            currentSerial := Inc32(currentSerial);
          }
        case NoneSOA(rr) =>
      }
      state := next.value;
      if e.NoneSOA? {
        calls := calls + [if source == DeleteSection then CallDelete(e.rr) else CallAdd(e.rr)];
      }
      err := if next.value == source then Some(NoTransition) else None;
    }

    /** The inner loop of `runIXFRFSM` over one SOA RRset; more are the events to come. */
    method RunSOAs(serials: seq<uint32>, opens: bool, closes: bool, ghost more: seq<Event>) returns (ok: bool)
      modifies this
      ensures RunEvents(old(Snapshot()), SoaEvents(serials, opens, closes) + more) ==
              if ok then RunEvents(Snapshot(), more) else (Snapshot(), false)
    {
      ghost var all := SoaEvents(serials, opens, closes) + more;
      var j := 0;
      assert serials[0..] == serials;
      while j < |serials|
        invariant 0 <= j <= |serials|
        invariant RunEvents(old(Snapshot()), all) ==
                  RunEvents(Snapshot(), SoaEvents(serials[j..], opens && j == 0, closes) + more)
      {
        var wrapper := (opens && j == 0) || (closes && j == |serials| - 1);
        var e := if wrapper then WrapperSOA(serials[j]) else MidSOA(serials[j]);
        ghost var events := SoaEvents(serials[j..], opens && j == 0, closes) + more;
        assert serials[j..][1..] == serials[j + 1..];
        Assoc([e], SoaEvents(serials[j + 1..], false, closes), more);
        Cons(e, SoaEvents(serials[j + 1..], false, closes) + more);
        assert events == [e] + (SoaEvents(serials[j + 1..], false, closes) + more);
        var err := Event(e);
        if err.Some? {
          return false;
        }
        j := j + 1;
      }
      assert serials[j..] == [];
      assert [] + more == more;
      ok := true;
    }

    /** `runIXFRFSM`: verdict, machine and updator calls are those of the event sequence. */
    method Run(answers: seq<Answer>) returns (ok: bool)
      modifies this
      ensures (Snapshot(), ok) == RunEvents(old(Snapshot()), AnswerEvents(answers, true))
    {
      assert answers[0..] == answers;
      for i := 0 to |answers|
        invariant RunEvents(old(Snapshot()), AnswerEvents(answers, true)) ==
                  RunEvents(Snapshot(), AnswerEvents(answers[i..], i == 0))
      {
        ghost var more := AnswerEvents(answers[i + 1..], false);
        assert answers[i..][1..] == answers[i + 1..];
        match answers[i] {
          case SoaSet(serials) =>
            ok := RunSOAs(serials, i == 0, i == |answers| - 1, more);
            if !ok {
              return;
            }
          case DataSet(rr) =>
            assert ([NoneSOA(rr)] + more)[1..] == more;
            var err := Event(NoneSOA(rr));
            if err != Some(NoTransition) {
              return false;
            }
        }
      }
      assert answers[|answers|..] == [];
      ok := true;
    }
  }

  // ----- grouping

  /** Every SOA RRset carries at least one record. */
  ghost predicate Grouped(answers: seq<Answer>) {
    forall a | a in answers :: a.SoaSet? ==> a.serials != []
  }

  /** The events of records after the first: only the last one can be a wrapper. */
  function TailEvents(recs: seq<Rec>): seq<Event> {
    if recs == [] then []
    else if |recs| == 1 then [WrapEvent(recs[0])]
    else [MidEvent(recs[0])] + TailEvents(recs[1..])
  }

  lemma {:induction false} TailIsFlat(recs: seq<Rec>)
    requires recs != []
    ensures TailEvents(recs) == MidEvents(recs[..|recs| - 1]) + [WrapEvent(recs[|recs| - 1])]
  {
    if |recs| > 1 {
      TailIsFlat(recs[1..]);
      assert recs[..|recs| - 1][1..] == recs[1..][..|recs| - 2];
    }
  }

  lemma {:induction false} TailAppend(a: seq<Rec>, b: seq<Rec>)
    requires b != []
    ensures TailEvents(a + b) == MidEvents(a) + TailEvents(b)
  {
    if a == [] {
      assert a + b == b;
      assert [] + TailEvents(b) == TailEvents(b);
    } else {
      TailAppend(a[1..], b);
      var ab := a + b;
      Assoc([a[0]], a[1..], b);
      assert [a[0]] + a[1..] == a;
      Cons(a[0], a[1..] + b);
      assert ab[0] == a[0];
      assert TailEvents(ab) == [MidEvent(a[0])] + (MidEvents(a[1..]) + TailEvents(b));
      Assoc([MidEvent(a[0])], MidEvents(a[1..]), TailEvents(b));
    }
  }

  lemma {:induction false} SoaEventsFlat(serials: seq<uint32>)
    ensures SoaEvents(serials, false, true) == TailEvents(SoaRecs(serials))
    ensures SoaEvents(serials, false, false) == MidEvents(SoaRecs(serials))
  {
    if serials != [] {
      SoaEventsFlat(serials[1..]);
      assert SoaRecs(serials)[1..] == SoaRecs(serials[1..]);
      if |serials| > 1 {
        assert SoaRecs(serials[1..]) != [];
      } else {
        assert serials[1..] == [];
      }
    }
  }

  lemma SetEventsFlat(a: Answer)
    ensures SetEvents(a, false, true) == TailEvents(FlattenOne(a))
    ensures SetEvents(a, false, false) == MidEvents(FlattenOne(a))
  {
    match a
    case SoaSet(serials) => SoaEventsFlat(serials);
    case DataSet(rr) =>
      assert [DataRec(rr)][1..] == [];
  }

  lemma {:induction false} TailAnswersFlat(answers: seq<Answer>)
    requires Grouped(answers)
    ensures AnswerEvents(answers, false) == TailEvents(Flatten(answers))
    ensures answers != [] ==> Flatten(answers) != []
    decreases |answers|
  {
    if answers != [] {
      var (a, rest) := (answers[0], answers[1..]);
      assert forall b | b in rest :: b in answers;
      TailAnswersFlat(rest);
      SetEventsFlat(a);
      assert a in answers && FlattenOne(a) != [];
      if rest == [] {
        assert FlattenOne(a) + [] == FlattenOne(a);
        assert TailEvents(FlattenOne(a)) + [] == TailEvents(FlattenOne(a));
      } else {
        TailAppend(FlattenOne(a), Flatten(rest));
      }
    }
  }

  /** Grouped answers raise the events of their flat records, however SOAs are grouped. */
  lemma AnswersFlat(answers: seq<Answer>)
    requires Grouped(answers)
    ensures AnswerEvents(answers, true) == FlatEvents(Flatten(answers))
  {
    if answers != [] {
      TailAnswersFlat(answers);
      assert answers[0] in answers;
      OpeningEvent(answers[0], |answers| == 1);
      var recs := Flatten(answers);
      assert recs[0] == FlattenOne(answers[0])[0];
      FlatFromTail(recs);
      ReplaceHead(WrapEvent(recs[0]), SetEvents(answers[0], false, |answers| == 1), AnswerEvents(answers[1..], false));
    }
  }

  lemma ReplaceHead<T>(x: T, a: seq<T>, b: seq<T>)
    requires a != []
    ensures ([x] + a[1..]) + b == [x] + (a + b)[1..]
  {
  }

  lemma Inner<T>(s: seq<T>)
    requires |s| > 1
    ensures s[1..][..|s[1..]| - 1] == s[1..|s| - 1] && s[1..][|s[1..]| - 1] == s[|s| - 1]
  {
  }

  lemma FlatFromTail(recs: seq<Rec>)
    requires recs != []
    ensures TailEvents(recs) != []
    ensures FlatEvents(recs) == [WrapEvent(recs[0])] + TailEvents(recs)[1..]
  {
    if |recs| > 1 {
      Inner(recs);
      TailIsFlat(recs[1..]);
      Cons(MidEvent(recs[0]), TailEvents(recs[1..]));
      Assoc([WrapEvent(recs[0])], MidEvents(recs[1..|recs| - 1]), [WrapEvent(recs[|recs| - 1])]);
    }
  }

  lemma OpeningEvent(a: Answer, closes: bool)
    requires a.SoaSet? ==> a.serials != []
    ensures FlattenOne(a) != []
    ensures SetEvents(a, false, closes) != []
    ensures SetEvents(a, true, closes) == [WrapEvent(FlattenOne(a)[0])] + SetEvents(a, false, closes)[1..]
  {
  }

  /** Main result: merging adjacent SOA records into one RRset, or splitting them, never
      changes the verdict, the final machine or the updator calls of a run. */
  lemma GroupingDoesNotMatter(m: Machine, a: seq<Answer>, b: seq<Answer>)
    requires Grouped(a) && Grouped(b) && Flatten(a) == Flatten(b)
    ensures RunEvents(m, AnswerEvents(a, true)) == RunEvents(m, AnswerEvents(b, true))
  {
    AnswersFlat(a);
    AnswersFlat(b);
  }

  /** An SOA RRset without records is not neutral: in front of an accepted answer it
      makes the first real SOA a middle one, and the run is refused. */
  lemma EmptySOASetMatters(current: uint32, latest: uint32, rr: RRset)
    ensures var answers := [SoaSet([latest]), SoaSet([current]), DataSet(rr)];
            && Flatten([SoaSet([])] + answers) == Flatten(answers)
            && RunEvents(NewMachine(current, latest), AnswerEvents(answers, true)).1
            && !RunEvents(NewMachine(current, latest), AnswerEvents([SoaSet([])] + answers, true)).1
  {
    var answers := [SoaSet([latest]), SoaSet([current]), DataSet(rr)];
    var padded := [SoaSet([])] + answers;
    assert padded[1..] == answers;
    OneSOA(latest);
    OneSOA(current);
    assert answers[1..] == [SoaSet([current]), DataSet(rr)] && answers[1..][1..] == [DataSet(rr)];
    assert answers[1..][1..][1..] == [];
    assert AnswerEvents(answers[1..][1..], false) == [NoneSOA(rr)];
    assert AnswerEvents(answers[1..], false) == [MidSOA(current), NoneSOA(rr)];
    assert AnswerEvents(answers, true) == [WrapperSOA(latest), MidSOA(current), NoneSOA(rr)];
    assert AnswerEvents(padded, true) == [MidSOA(latest), MidSOA(current), NoneSOA(rr)];
    TruncatedRun(current, latest, rr);
  }

  lemma OneSOA(serial: uint32)
    ensures SoaEvents([serial], false, false) == [MidSOA(serial)]
    ensures SoaEvents([serial], true, false) == [WrapperSOA(serial)]
  {
    assert [serial][1..] == [];
  }

  lemma TruncatedRun(current: uint32, latest: uint32, rr: RRset)
    ensures RunEvents(NewMachine(current, latest), [WrapperSOA(latest), MidSOA(current), NoneSOA(rr)]).1
  {
    var m := NewMachine(current, latest);
    var (m1, m2) := (m.(state := Start), m.(state := DeleteSection));
    var m3 := m2.(calls := [CallDelete(rr)]);
    var events := [WrapperSOA(latest), MidSOA(current), NoneSOA(rr)];
    assert events[1..] == [MidSOA(current), NoneSOA(rr)] && events[1..][1..] == [NoneSOA(rr)];
    assert [NoneSOA(rr)][1..] == [];
    assert Fire(m, events[0]) == (m1, None) && Fire(m1, MidSOA(current)) == (m2, None);
    assert m3.calls == m2.calls + [CallDelete(rr)];
    assert Fire(m2, NoneSOA(rr)) == (m3, Some(NoTransition));
    assert RunEvents(m3, []) == (m3, true);
    assert RunEvents(m2, [NoneSOA(rr)]) == (m3, true);
    assert RunEvents(m1, events[1..]) == (m3, true);
  }

  // ----- answers as RRsets

  function Serials(rdatas: seq<Rdata>): seq<uint32>
    requires forall r | r in rdatas :: r.SoaData?
  {
    if rdatas == [] then [] else [rdatas[0].serial] + Serials(rdatas[1..])
  }

  /** SOA RRsets hold SOA records, as read from the wire. */
  ghost predicate TypedAnswers(answers: seq<RRset>) {
    forall rr | rr in answers && rr.typ == SOA :: forall r | r in rr.rdatas :: r.SoaData?
  }

  function ToAnswer(rr: RRset): Answer
    requires rr.typ == SOA ==> forall r | r in rr.rdatas :: r.SoaData?
  {
    if rr.typ == SOA then SoaSet(Serials(rr.rdatas)) else DataSet(rr)
  }

  function ToAnswers(answers: seq<RRset>): (r: seq<Answer>)
    requires TypedAnswers(answers)
    ensures |r| == |answers| && forall i | 0 <= i < |r| :: r[i] == ToAnswer(answers[i])
  {
    seq(|answers|, i requires 0 <= i < |answers| => ToAnswer(answers[i]))
  }

  // ----- AXFR

  datatype AxfrState = AxfrInit | AxfrStart | AxfrAddSection | AxfrDone

  predicate IsOneSOA(rr: RRset) {
    |rr.rdatas| == 1 && rr.rdatas[0].SoaData?
  }

  /** `get_wrapper_soa` in the AXFR machine: the next state, or None for an error. */
  function AxfrWrapper(s: AxfrState, latest: uint32, serial: uint32): Option<AxfrState> {
    if s == AxfrInit && serial == latest then Some(AxfrStart)
    else if s == AxfrAddSection && serial == latest then Some(AxfrDone)
    else None
  }

  /** One RRset: the next state and what the updator is asked to add, or None for an error. */
  function AxfrStep(s: AxfrState, latest: uint32, rr: RRset, wraps: bool): Option<(AxfrState, seq<RRset>)> {
    if rr.typ == SOA then
      if !IsOneSOA(rr) then None
      else if !wraps then Some((s, []))
      else
        match AxfrWrapper(s, latest, rr.rdatas[0].serial)
        case None => None
        case Some(next) => Some((next, if s == AxfrInit then [rr] else []))
    else if s != AxfrStart && s != AxfrAddSection then None
    else Some((AxfrAddSection, [rr]))
  }

  /** The rest of an AXFR run: the RRsets added and whether it is accepted. */
  function AxfrRest(s: AxfrState, latest: uint32, answers: seq<RRset>, opens: bool): (seq<RRset>, bool)
    decreases |answers|
  {
    if answers == [] then ([], true)
    else
      match AxfrStep(s, latest, answers[0], opens || |answers| == 1)
      case None => ([], false)
      case Some((next, added)) =>
        var (more, ok) := AxfrRest(next, latest, answers[1..], false);
        (added + more, ok)
  }

  /** What a new AXFR machine makes of the answers. */
  function RunAxfr(latest: uint32, answers: seq<RRset>): (seq<RRset>, bool) {
    AxfrRest(AxfrInit, latest, answers, true)
  }

  class AxfrMachine {
    var state: AxfrState
    const latestSerial: uint32
    /** The RRsets the updator was asked to add. */
    var added: seq<RRset>

    constructor (latestSerial: uint32)
      ensures state == AxfrInit && added == [] && this.latestSerial == latestSerial
    {
      state, added, this.latestSerial := AxfrInit, [], latestSerial;
    }

    /** The events of one RRset; a middle SOA raises none. */
    method Event(rr: RRset, wraps: bool) returns (ok: bool)
      modifies this
      ensures ok == AxfrStep(old(state), latestSerial, rr, wraps).Some?
      ensures var step := AxfrStep(old(state), latestSerial, rr, wraps);
              if ok then state == step.value.0 && added == old(added) + step.value.1
              else state == old(state) && added == old(added)
    {
      if rr.typ == SOA {
        if |rr.rdatas| != 1 || !rr.rdatas[0].SoaData? {
          return false;
        }
        if wraps {
          var next := AxfrWrapper(state, latestSerial, rr.rdatas[0].serial);
          if next.None? {
            return false;
          }
          if state == AxfrInit {
            added := added + [rr];
          }
          state := next.value;
        }
      } else {
        if state != AxfrStart && state != AxfrAddSection {
          return false;
        }
        state := AxfrAddSection;
        added := added + [rr];
      }
      ok := true;
    }

    /** `runAXFRFSM`. */
    method Run(answers: seq<RRset>) returns (ok: bool)
      modifies this
      ensures added == old(added) + AxfrRest(old(state), latestSerial, answers, true).0
      ensures ok == AxfrRest(old(state), latestSerial, answers, true).1
    {
      assert answers[0..] == answers;
      for i := 0 to |answers|
        invariant old(added) + AxfrRest(old(state), latestSerial, answers, true).0 ==
                  added + AxfrRest(state, latestSerial, answers[i..], i == 0).0
        invariant AxfrRest(old(state), latestSerial, answers, true).1 ==
                  AxfrRest(state, latestSerial, answers[i..], i == 0).1
      {
        assert answers[i..][1..] == answers[i + 1..];
        ghost var (before, step) := (added, AxfrStep(state, latestSerial, answers[i], i == 0 || i == |answers| - 1));
        ok := Event(answers[i], i == 0 || i == |answers| - 1);
        if !ok {
          return;
        }
        Assoc(before, step.value.1, AxfrRest(state, latestSerial, answers[i + 1..], false).0);
      }
      assert answers[|answers|..] == [];
      ok := true;
    }
  }

  /** The RRsets of the answer other than SOAs, in order. */
  function DataOf(answers: seq<RRset>): seq<RRset> {
    if answers == [] then []
    else (if answers[0].typ != SOA then [answers[0]] else []) + DataOf(answers[1..])
  }

  predicate AnyData(answers: seq<RRset>) {
    exists rr | rr in answers :: rr.typ != SOA
  }

  predicate SinglesOnly(answers: seq<RRset>) {
    forall rr | rr in answers :: rr.typ == SOA ==> IsOneSOA(rr)
  }

  /** If the answer ends in an SOA, that SOA repeats the serial and data came before. */
  predicate ClosedBy(latest: uint32, answers: seq<RRset>, hadData: bool) {
    answers != [] && answers[|answers| - 1].typ == SOA ==>
      FirstSerial(answers[|answers| - 1].rdatas) == Some(latest) && (hadData || AnyData(answers))
  }

  lemma {:induction false} AxfrTail(s: AxfrState, latest: uint32, answers: seq<RRset>)
    requires s == AxfrStart || s == AxfrAddSection
    ensures AxfrRest(s, latest, answers, false).1 <==>
            SinglesOnly(answers) && ClosedBy(latest, answers, s == AxfrAddSection)
    ensures AxfrRest(s, latest, answers, false).1 ==> AxfrRest(s, latest, answers, false).0 == DataOf(answers)
    decreases |answers|
  {
    if answers != [] {
      var (a, rest) := (answers[0], answers[1..]);
      assert answers == [a] + rest;
      assert forall b :: b in answers <==> b == a || b in rest;
      if a.typ != SOA {
        AxfrTail(AxfrAddSection, latest, rest);
      } else if rest != [] {
        AxfrTail(s, latest, rest);
      }
    }
  }

  /** Main result for AXFR: a non-empty answer is accepted exactly when it opens with one
      SOA of the notified serial, holds SOA RRsets of one record only, and, if it also ends
      in an SOA, ends in the same serial with data in between; its data is then added in
      order after the SOA.  A missing closing SOA is not noticed. */
  lemma AxfrAcceptedExactly(latest: uint32, answers: seq<RRset>)
    requires answers != []
    ensures var (added, ok) := RunAxfr(latest, answers);
            && (ok <==> && answers[0].typ == SOA && FirstSerial(answers[0].rdatas) == Some(latest)
                        && SinglesOnly(answers) && ClosedBy(latest, answers[1..], false))
            && (ok ==> added == [answers[0]] + DataOf(answers))
  {
    var (a, rest) := (answers[0], answers[1..]);
    assert answers == [a] + rest;
    assert forall b :: b in answers <==> b == a || b in rest;
    AxfrTail(AxfrStart, latest, rest);
  }

  /** The IXFR machine refuses an AXFR-style answer at its first data record, before any
      updator call: falling back starts from an untouched zone. */
  lemma IxfrRefusesAxfrStyle(current: uint32, notified: uint32, recs: seq<Rec>)
    requires |recs| >= 2 && recs[0].SoaRec? && recs[1].DataRec?
    ensures var (m, ok) := RunFlat(NewMachine(current, notified), recs);
            !ok && m.calls == [] && m.current == current
  {
    var events := FlatEvents(recs);
    assert events[0] == WrapEvent(recs[0]);
    FlatFromTail(recs);
    assert events[1..] == TailEvents(recs)[1..] == TailEvents(recs[1..]);
    assert events[1..][0] == NoneSOA(recs[1].rr);
    assert !RunEvents(NewMachine(current, notified).(state := Start, latest := recs[0].serial), events[1..]).1;
  }
}
