/** Fixed-window rate limiting: the two access records, the bound per window, and the
    bound it gives on every interval of one second. */
module RateLimit {
  import opened Dns

  /** Nanoseconds on a clock that never goes back. */
  type Time = nat

  const SECOND: nat := 1_000_000_000

  /** A window: how many accesses it allowed, and when it opened. */
  datatype Window = Window(token: uint32, start: Time)

  predicate Expired(w: Window, now: Time) {
    now - w.start > SECOND
  }

  /** One access to an open record, in uint32 arithmetic. */
  function Access(w: Window, limit: uint32, now: Time): (Window, bool) {
    if Expired(w, now) then (Window(1, now), true)
    else if Inc32(w.token) > limit then (w, false)
    else (w.(token := Inc32(w.token)), true)
  }

  /** The access that finds no window yet: an IP record is created by it and allows it; a
      name record opens an empty window and then decides. */
  datatype Kind = IpRecord | NameRecord

  function FirstAccess(kind: Kind, limit: uint32, now: Time): (Window, bool) {
    match kind
    case IpRecord => (Window(1, now), true)
    case NameRecord => Access(Window(0, now), limit, now)
  }

  class IPAccessRecord {
    var token: uint32
    var start: Time

    /** `newIPAccessRecord`, called for the first access, which is allowed. */
    constructor (now: Time, ghost limit: uint32)
      ensures (Window(token, start), true) == FirstAccess(IpRecord, limit, now)
    {
      token, start := 1, now;
    }

    /** `IPAccessRecord.IsAccessAllowed`. */
    method IsAccessAllowed(limit: uint32, now: Time) returns (allowed: bool)
      modifies this
      ensures (Window(token, start), allowed) == Access(old(Window(token, start)), limit, now)
    {
      if now - start > SECOND {
        token, start := 1, now;
        return true;
      }
      if Inc32(token) > limit {
        return false;
      }
      token := Inc32(token);
      allowed := true;
    }
  }

  class NameAccessRecord {
    var token: uint32
    /** None is the zero time of a record never used. */
    var start: Option<Time>
    const limit: uint32

    ghost predicate Valid()
      reads this
    {
      start.None? ==> token == 0
    }

    constructor (limit: uint32)
      ensures Valid() && start == None && this.limit == limit
    {
      token, start, this.limit := 0, None, limit;
    }

    /** `NameAccessRecord.IsAccessAllowed`. */
    method IsAccessAllowed(now: Time) returns (allowed: bool)
      requires Valid()
      modifies this
      ensures Valid() && start.Some?
      ensures (Window(token, start.value), allowed) ==
              if old(start).None? then FirstAccess(NameRecord, limit, now)
              else Access(Window(old(token), old(start).value), limit, now)
    {
      if start.None? {
        start := Some(now);
      }
      if now - start.value > SECOND {
        token, start := 1, Some(now);
        return true;
      }
      if Inc32(token) > limit {
        allowed := false;
      } else {
        token := Inc32(token);
        allowed := true;
      }
    }
  }

  // ----- runs

  /** What one access of a run got, and the window it fell in. */
  datatype Decision = Decision(allowed: bool, window: Time)

  datatype Trace = Trace(last: Window, decisions: seq<Decision>)

  /** All the accesses of a record, at the given times. */
  function Accesses(kind: Kind, limit: uint32, times: seq<Time>): (t: Trace)
    requires times != []
    ensures |t.decisions| == |times|
  {
    var n := |times| - 1;
    if n == 0 then
      var (w, allowed) := FirstAccess(kind, limit, times[0]);
      Trace(w, [Decision(allowed, w.start)])
    else
      var t := Accesses(kind, limit, times[..n]);
      var (w, allowed) := Access(t.last, limit, times[n]);
      Trace(w, t.decisions + [Decision(allowed, w.start)])
  }

  /** Time does not go back. */
  ghost predicate Ordered(times: seq<Time>) {
    forall i, j | 0 <= i < j < |times| :: times[i] <= times[j]
  }

  function Bound(limit: uint32): nat {
    if limit == 0 then 1 else limit
  }

  const UNLIMITED: uint32 := UINT32_SIZE - 1

  /** The accesses a window allowed. */
  ghost function AllowedIn(decisions: seq<Decision>, window: Time): set<int> {
    set i | 0 <= i < |decisions| && decisions[i].allowed && decisions[i].window == window
  }

  lemma AllowedInMore(decisions: seq<Decision>, d: Decision, window: Time)
    ensures AllowedIn(decisions + [d], window) ==
            AllowedIn(decisions, window) + if d.allowed && d.window == window then {|decisions|} else {}
  {
  }

  /** The token counts the last window; earlier windows kept to the bound. */
  ghost predicate Counted(t: Trace, limit: uint32) {
    && |AllowedIn(t.decisions, t.last.start)| == t.last.token <= Bound(limit)
    && forall w :: |AllowedIn(t.decisions, w)| <= Bound(limit)
  }

  ghost predicate Spaced(times: seq<Time>, d: seq<Decision>)
    requires |d| == |times|
  {
    && (forall i | 0 <= i < |d| :: d[i].window <= times[i] <= d[i].window + SECOND)
    && (forall i, j | 0 <= i < j < |d| :: Apart(times, d, i, j))
  }

  /** Two accesses share a window, or the later one's opened more than a second after the
      earlier one's, and no earlier than the earlier access. */
  predicate Apart(times: seq<Time>, d: seq<Decision>, i: nat, j: nat)
    requires i < |d| && j < |d| && |d| == |times|
  {
    d[i].window == d[j].window || (times[i] <= d[j].window && d[i].window + SECOND < d[j].window)
  }

  /** One more access keeps windows apart. */
  lemma SpacedMore(times: seq<Time>, d: seq<Decision>, now: Time, x: Decision)
    requires d != [] && |d| == |times| && Spaced(times, d)
    requires forall i | 0 <= i < |d| :: times[i] <= now
    requires x.window <= now <= x.window + SECOND
    requires x.window == d[|d| - 1].window || (x.window == now && d[|d| - 1].window + SECOND < now)
    ensures Spaced(times + [now], d + [x])
  {
    var n := |d|;
    var (times', d') := (times + [now], d + [x]);
    forall i, j | 0 <= i < j <= n ensures Apart(times', d', i, j) {
      if j < n {
        assert Apart(times, d, i, j);
      } else if i < n - 1 {
        assert Apart(times, d, i, n - 1);
      }
    }
  }

  lemma {:induction false} TraceSpaced(kind: Kind, limit: uint32, times: seq<Time>)
    requires times != [] && Ordered(times)
    ensures var t := Accesses(kind, limit, times);
            Spaced(times, t.decisions) && t.last.start == t.decisions[|times| - 1].window
  {
    var n := |times| - 1;
    if n > 0 {
      var before := times[..n];
      TraceSpaced(kind, limit, before);
      var t := Accesses(kind, limit, before);
      var d := Accesses(kind, limit, times).decisions;
      SpacedMore(before, t.decisions, times[n], d[n]);
      assert times == before + [times[n]];
    }
  }

  /** A window that opens now has allowed nothing yet. */
  lemma NewWindow(times: seq<Time>, d: seq<Decision>, last: Window, now: Time)
    requires d != [] && |d| == |times| && Spaced(times, d) && last.start == d[|d| - 1].window && Expired(last, now)
    ensures AllowedIn(d, now) == {}
  {
    forall i | 0 <= i < |d| ensures d[i].window != now {
      if i < |d| - 1 {
        assert Apart(times, d, i, |d| - 1);
      }
    }
  }

  lemma CountedMore(times: seq<Time>, t: Trace, limit: uint32, now: Time)
    requires |t.decisions| == |times| && t.decisions != [] && Spaced(times, t.decisions)
    requires t.last.start == t.decisions[|times| - 1].window
    requires Counted(t, limit) && limit < UNLIMITED
    ensures var (w, allowed) := Access(t.last, limit, now);
            Counted(Trace(w, t.decisions + [Decision(allowed, w.start)]), limit)
  {
    var (w, allowed) := Access(t.last, limit, now);
    var d := Decision(allowed, w.start);
    if Expired(t.last, now) {
      NewWindow(times, t.decisions, t.last, now);
    }
    forall v ensures |AllowedIn(t.decisions + [d], v)| ==
                     |AllowedIn(t.decisions, v)| + (if allowed && v == w.start then 1 else 0)
    {
      AllowedInMore(t.decisions, d, v);
    }
  }

  lemma {:induction false} TraceCounted(kind: Kind, limit: uint32, times: seq<Time>)
    requires times != [] && Ordered(times) && limit < UNLIMITED
    ensures Counted(Accesses(kind, limit, times), limit)
  {
    var n := |times| - 1;
    if n == 0 {
      var d := Accesses(kind, limit, times).decisions;
      forall v ensures AllowedIn(d, v) == if d[0].allowed && d[0].window == v then {0} else {} {
        AllowedInMore([], d[0], v);
        assert d == [] + [d[0]];
      }
    } else {
      TraceCounted(kind, limit, times[..n]);
      TraceSpaced(kind, limit, times[..n]);
      CountedMore(times[..n], Accesses(kind, limit, times[..n]), limit, times[n]);
    }
  }

  /** Main result: what every access gets.  An access more than a second after its
      predecessor's window opened opens a new one and is allowed; any other is refused if
      and only if that window has already allowed `limit` accesses. */
  lemma AccessExactly(kind: Kind, limit: uint32, times: seq<Time>)
    requires |times| > 1 && Ordered(times) && limit < UNLIMITED
    ensures var n := |times| - 1;
            var before := Accesses(kind, limit, times[..n]).decisions;
            var (d, open) := (Accesses(kind, limit, times).decisions[n], before[n - 1].window);
            && Accesses(kind, limit, times).decisions[..n] == before
            && (times[n] - open > SECOND ==> d.allowed && d.window == times[n])
            && (times[n] - open <= SECOND ==> d.window == open && (!d.allowed <==> |AllowedIn(before, open)| >= limit))
  {
    var n := |times| - 1;
    TraceCounted(kind, limit, times[..n]);
    TraceSpaced(kind, limit, times[..n]);
  }

  /** The first access: allowed for an IP record, which it creates; for a name record
      refused if and only if the limit is zero. */
  lemma FirstAccessExactly(limit: uint32, now: Time)
    ensures Accesses(IpRecord, limit, [now]).decisions == [Decision(true, now)]
    ensures Accesses(NameRecord, limit, [now]).decisions == [Decision(limit != 0, now)]
  {
  }

  /** The accesses allowed at times from `from` to one second later, both included. */
  ghost function AllowedWithin(times: seq<Time>, d: seq<Decision>, from: Time): set<int>
    requires |d| == |times|
  {
    set i | 0 <= i < |d| && d[i].allowed && from <= times[i] <= from + SECOND
  }

  /** An interval of one second meets at most two windows. */
  lemma TwoWindows(times: seq<Time>, d: seq<Decision>, from: Time) returns (a: Time, b: Time)
    requires |d| == |times| && Spaced(times, d)
    ensures AllowedWithin(times, d, from) <= AllowedIn(d, a) + AllowedIn(d, b)
  {
    var inside := AllowedWithin(times, d, from);
    var first := 0;
    while first < |d| && first !in inside
      invariant 0 <= first <= |d| && forall i | 0 <= i < first :: i !in inside
    {
      first := first + 1;
    }
    a := if first < |d| then d[first].window else 0;
    var second := first;
    while second < |d| && (second !in inside || d[second].window == a)
      invariant first <= second <= |d| && forall i | 0 <= i < second && i in inside :: d[i].window == a
    {
      second := second + 1;
    }
    b := if second < |d| then d[second].window else a;
    forall i | i in inside ensures d[i].window == a || d[i].window == b {
      if second < i {
        assert Apart(times, d, first, second) && Apart(times, d, second, i);
      }
    }
  }

  /** Main result: with a limit below 2^32 - 1, a record of either kind allows at most
      max(1, limit) accesses per window, and at most twice that in any closed interval of
      one second. */
  lemma RateBound(kind: Kind, limit: uint32, times: seq<Time>, from: Time)
    requires times != [] && Ordered(times) && limit < UNLIMITED
    ensures var d := Accesses(kind, limit, times).decisions;
            && |AllowedIn(d, from)| <= Bound(limit)
            && |AllowedWithin(times, d, from)| <= 2 * Bound(limit)
  {
    TraceCounted(kind, limit, times);
    TraceSpaced(kind, limit, times);
    var d := Accesses(kind, limit, times).decisions;
    var a, b := TwoWindows(times, d, from);
    var both := AllowedIn(d, a) + AllowedIn(d, b);
    assert |both| <= |AllowedIn(d, a)| + |AllowedIn(d, b)|;
    Smaller(AllowedWithin(times, d, from), both);
  }

  lemma Smaller(a: set<int>, b: set<int>)
    requires a <= b
    ensures |a| <= |b|
  {
    assert b == a + (b - a);
  }

  /** At the largest limit the uint32 comparison never refuses: every access of every run
      is allowed, so no bound holds. */
  lemma {:induction false} UnlimitedAtMaximum(kind: Kind, times: seq<Time>)
    requires times != []
    ensures forall i | 0 <= i < |times| :: Accesses(kind, UNLIMITED, times).decisions[i].allowed
  {
    if |times| > 1 {
      UnlimitedAtMaximum(kind, times[..|times| - 1]);
    }
  }
}
