/** Linked lists of distinct elements, as sequences: removal by identity. */
module Lists {

  /** `list.Remove`. */
  function Without<T(==)>(ll: seq<T>, e: T): (r: seq<T>)
    ensures forall x | x in r :: x in ll && x != e
    ensures forall x | x in ll && x != e :: x in r
  {
    if ll == [] then []
    else if ll[0] == e then Without(ll[1..], e)
    else [ll[0]] + Without(ll[1..], e)
  }

  ghost predicate Distinct<T>(ll: seq<T>) {
    forall i, j | 0 <= i < j < |ll| :: ll[i] != ll[j]
  }

  lemma {:induction false} WithoutDistinct<T>(ll: seq<T>, e: T)
    requires Distinct(ll)
    ensures Distinct(Without(ll, e))
  {
    if ll != [] {
      WithoutDistinct(ll[1..], e);
      assert ll[0] !in ll[1..];
    }
  }

  lemma {:induction false} WithoutNone<T>(ll: seq<T>, e: T)
    requires e !in ll
    ensures Without(ll, e) == ll
  {
    if ll != [] {
      WithoutNone(ll[1..], e);
    }
  }

  lemma {:induction false} WithoutAt<T>(ll: seq<T>, i: nat)
    requires i < |ll| && Distinct(ll)
    ensures Without(ll, ll[i]) == ll[..i] + ll[i + 1..]
  {
    assert ll[0] !in ll[1..];
    if i == 0 {
      WithoutNone(ll[1..], ll[0]);
    } else {
      WithoutAt(ll[1..], i - 1);
      assert ll[1..][i - 1] == ll[i];
    }
  }

  lemma WithoutLast<T>(ll: seq<T>)
    requires ll != [] && Distinct(ll)
    ensures Without(ll, ll[|ll| - 1]) == ll[..|ll| - 1]
  {
    WithoutAt(ll, |ll| - 1);
  }

  lemma {:induction false} WithoutMultiset<T>(ll: seq<T>, e: T)
    requires Distinct(ll) && e in ll
    ensures multiset([e] + Without(ll, e)) == multiset(ll)
  {
    assert ll == [ll[0]] + ll[1..];
    if ll[0] == e {
      WithoutNone(ll[1..], e);
    } else {
      WithoutMultiset(ll[1..], e);
      assert multiset([e] + Without(ll, e)) == multiset{ll[0]} + multiset([e] + Without(ll[1..], e));
    }
  }
}
