/** Forwarder selection: the cyclic search for a forwarder that is up, and bounded
    waiting of round-robin selection while others go up and down at will. */
module RoundRobin {

  /** Which forwarders are up at the time of a call. */
  type Status = seq<bool>

  /** The index k places after i, around a circle of n. */
  function Around(i: nat, k: nat, n: nat): (r: nat)
    requires i < n && k <= n
    ensures r < n
  {
    if i + k < n then i + k else i + k - n
  }

  /** How many places j is after i. */
  function Distance(i: nat, j: nat, n: nat): (d: nat)
    requires i < n && j < n
    ensures d < n && Around(i, d, n) == j
    ensures forall k: nat | k < n && Around(i, k, n) == j :: k == d
  {
    if i <= j then j - i else j + n - i
  }

  /** The step of every search: (i + 1) mod n, where i can be -1. */
  method Advance(i: int, n: nat) returns (r: nat)
    requires -1 <= i < n && n > 0
    ensures r < n && r == if i == -1 then 0 else Around(i, 1, n)
  {
    r := (i + 1) % n;
  }

  /** The target is up and every forwarder from `from` to just before it is down. */
  ghost predicate IsNextUp(up: Status, from: nat, target: nat) {
    && from < |up| && target < |up| && up[target]
    && forall k: nat | k < Distance(from, target, |up|) :: !up[Around(from, k, |up|)]
  }

  ghost predicate AllDown(up: Status) {
    forall i | 0 <= i < |up| :: !up[i]
  }

  /** `selectNextUsableFwder`; -1 is no forwarder. */
  method SelectNextUsableFwder(up: Status, fromIndex: nat) returns (target: int)
    requires fromIndex < |up|
    ensures target == -1 <==> AllDown(up)
    ensures target != -1 ==> 0 <= target < |up| && IsNextUp(up, fromIndex, target)
  {
    var n, at := |up|, fromIndex;
    for i := 0 to n
      invariant at == Around(fromIndex, i, n)
      invariant forall k: nat | k < i :: !up[Around(fromIndex, k, n)]
    {
      if up[at] {
        assert Distance(fromIndex, at, n) == i;
        return at;
      }
      at := Advance(at, n);
    }
    forall j | 0 <= j < n ensures !up[j] {
      assert Around(fromIndex, Distance(fromIndex, j, n), n) == j;
    }
    target := -1;
  }

  class RoundRobinSelector {
    var next: nat
    const count: nat

    ghost predicate Valid()
      reads this
    {
      next < count
    }

    constructor (count: nat)
      requires count > 0
      ensures Valid() && next == 0 && this.count == count
    {
      next, this.count := 0, count;
    }

    /** `SelectFwder`: the next one up, and the search resumes just after it; when none
        is up it resumes at the first. */
    method SelectFwder(up: Status) returns (target: int)
      requires Valid() && |up| == count
      modifies this
      ensures Valid()
      ensures target == -1 <==> AllDown(up)
      ensures target == -1 ==> next == 0
      ensures target != -1 ==> 0 <= target < count && IsNextUp(up, old(next), target) && next == Around(target, 1, count)
    {
      target := SelectNextUsableFwder(up, next);
      next := Advance(target, count);
    }
  }

  // ----- runs

  /** One call: where the search started and what it selected. */
  ghost predicate Selects(up: Status, from: nat, target: int, next: nat)
    requires from < |up|
  {
    if AllDown(up) then target == -1 && next == 0
    else 0 <= target < |up| && IsNextUp(up, from, target) && next == Around(target, 1, |up|)
  }

  /** A run of calls: nexts[i] is `next` before call i, targets[i] what it selected. */
  ghost predicate IsRun(n: nat, ups: seq<Status>, nexts: seq<nat>, targets: seq<int>) {
    && |nexts| == |ups| + 1 && |targets| == |ups|
    && (forall i | 0 <= i < |nexts| :: nexts[i] < n)
    && (forall i | 0 <= i < |ups| :: |ups[i]| == n && Selects(ups[i], nexts[i], targets[i], nexts[i + 1]))
  }

  /** While f is up and not selected, every call brings the search strictly closer to f. */
  lemma Closer(up: Status, from: nat, target: int, next: nat, f: nat)
    requires from < |up| && f < |up| && up[f] && Selects(up, from, target, next)
    ensures target == f || (next < |up| && Distance(next, f, |up|) < Distance(from, f, |up|))
  {
    assert up[Around(from, Distance(from, f, |up|), |up|)];
  }

  lemma {:induction false} WaitsAtMost(n: nat, ups: seq<Status>, nexts: seq<nat>, targets: seq<int>, f: nat)
    requires IsRun(n, ups, nexts, targets) && f < n
    requires forall i | 0 <= i < |ups| :: ups[i][f]
    requires |ups| > Distance(nexts[0], f, n)
    ensures f in targets
    decreases |ups|
  {
    Closer(ups[0], nexts[0], targets[0], nexts[1], f);
    assert targets[0] in targets;
    if targets[0] != f {
      var (ups1, nexts1, targets1) := (ups[1..], nexts[1..], targets[1..]);
      assert forall i | 0 <= i < |ups1| :: ups1[i] == ups[i + 1] && targets1[i] == targets[i + 1];
      assert forall i | 0 <= i < |nexts1| :: nexts1[i] == nexts[i + 1];
      TailRun(n, ups, nexts, targets);
      WaitsAtMost(n, ups1, nexts1, targets1, f);
    }
  }

  lemma TailRun(n: nat, ups: seq<Status>, nexts: seq<nat>, targets: seq<int>)
    requires IsRun(n, ups, nexts, targets) && ups != []
    ensures IsRun(n, ups[1..], nexts[1..], targets[1..])
  {
    forall i | 0 <= i < |ups| - 1
      ensures |ups[1..][i]| == n && Selects(ups[1..][i], nexts[1..][i], targets[1..][i], nexts[1..][i + 1])
    {
      assert ups[1..][i] == ups[i + 1];
    }
  }

  /** Main result: a forwarder that stays up is selected within any n consecutive calls,
      however the others go up and down in between. */
  lemma BoundedWaiting(n: nat, ups: seq<Status>, nexts: seq<nat>, targets: seq<int>, f: nat, start: nat)
    requires IsRun(n, ups, nexts, targets) && f < n && start + n <= |ups|
    requires forall i | start <= i < start + n :: ups[i][f]
    ensures exists i :: start <= i < start + n && targets[i] == f
  {
    var (u, x, t) := (ups[start..start + n], nexts[start..start + n + 1], targets[start..start + n]);
    forall i | 0 <= i < n ensures |u[i]| == n && Selects(u[i], x[i], t[i], x[i + 1]) {
      assert u[i] == ups[start + i];
    }
    WaitsAtMost(n, u, x, t, f);
    var i :| 0 <= i < |t| && t[i] == f;
    assert targets[start + i] == f;
  }
}
