/** DNS values shared by every component: names, types, records, RRsets. */
module Dns {

  datatype Option<+T> = None | Some(value: T)

  const UINT32_SIZE: nat := 0x1_0000_0000

  type uint32 = x: nat | x < UINT32_SIZE

  /** The uint32 increment of Go, which wraps around. */
  function Inc32(x: uint32): uint32 {
    if x + 1 == UINT32_SIZE then 0 else x + 1
  }

  /** A serial after k increments. */
  function Add32(x: uint32, k: nat): uint32 {
    if k == 0 then x else Inc32(Add32(x, k - 1))
  }

  lemma ModInc(y: nat)
    ensures (y + 1) % UINT32_SIZE == Inc32(y % UINT32_SIZE)
  {
    var (q, r) := (y / UINT32_SIZE, y % UINT32_SIZE);
    assert y == q * UINT32_SIZE + r;
  }

  /** Increments are addition modulo 2^32. */
  lemma {:induction false} Add32Mod(x: uint32, k: nat)
    ensures Add32(x, k) == (x + k) % UINT32_SIZE
  {
    if k > 0 {
      Add32Mod(x, k - 1);
      ModInc(x + k - 1);
    }
  }

  lemma Add32Back(x: uint32, k: nat)
    ensures Add32(x, k) == x <==> k % UINT32_SIZE == 0
  {
    Add32Mod(x, k);
    ModBack(x, k);
  }

  lemma ModBack(x: uint32, k: nat)
    ensures (x + k) % UINT32_SIZE == x <==> k % UINT32_SIZE == 0
  {
    var (q, r) := (k / UINT32_SIZE, k % UINT32_SIZE);
    assert x + k == q * UINT32_SIZE + (x + r);
    assert (x + k) % UINT32_SIZE == if x + r < UINT32_SIZE then x + r else x + r - UINT32_SIZE;
  }

  lemma {:induction false} Add32Step(x: uint32, k: nat)
    ensures Add32(Inc32(x), k) == Add32(x, k + 1)
  {
    if k > 0 {
      Add32Step(x, k - 1);
    }
  }

  /** Labels are listed from the root down and already case-folded, so a
      superdomain is a prefix: www.example.org is ["org", "example", "www"]. */
  type Name = seq<string>

  const WILDCARD: string := "*"

  predicate IsSubDomain(name: Name, zone: Name) {
    zone <= name
  }

  predicate IsWildCard(name: Name) {
    |name| > 0 && name[|name| - 1] == WILDCARD
  }

  function Parent(name: Name): Name
    requires |name| > 0
  {
    name[..|name| - 1]
  }

  datatype RRType = A | NS | CNAME | SOA | MX | AAAA | SRV | ANY | OtherType(code: nat)

  datatype RRClass = IN | CLASS_NONE | CLASS_ANY | OtherClass(code: nat)

  /** Only the serial of an SOA record matters here; other rdata is opaque. */
  datatype Rdata = SoaData(serial: uint32, rest: string) | OpaqueData(text: string)

  datatype RRset = RRset(name: Name, typ: RRType, class_: RRClass, ttl: nat, rdatas: seq<Rdata>)

  /** The serial in the first rdata; None where the Go code would panic on
      `Rdatas[0].(*g53.SOA)`. */
  function FirstSerial(rdatas: seq<Rdata>): Option<uint32> {
    if |rdatas| > 0 && rdatas[0].SoaData? then Some(rdatas[0].serial) else None
  }

  /** `AddRdata` for each of `more`: an rdata already present is not added again. */
  function MergeRdatas(was: seq<Rdata>, more: seq<Rdata>): seq<Rdata>
    decreases |more|
  {
    if more == [] then was
    else MergeRdatas(if more[0] in was then was else was + [more[0]], more[1..])
  }

  function RdataSet(rdatas: seq<Rdata>): set<Rdata> {
    set r | r in rdatas
  }

  /** What `rdatasDiff` computes: the records of `first` not equal to any of `second`. */
  function RdatasDiff(first: seq<Rdata>, second: seq<Rdata>): seq<Rdata> {
    if first == [] then []
    else (if first[0] in second then [] else [first[0]]) + RdatasDiff(first[1..], second)
  }

  lemma {:induction false} RdatasDiffMember(first: seq<Rdata>, second: seq<Rdata>, r: Rdata)
    ensures r in RdatasDiff(first, second) <==> r in first && r !in second
  {
    if first != [] {
      RdatasDiffMember(first[1..], second, r);
      assert first == [first[0]] + first[1..];
    }
  }

  /** Each as often as it was there. */
  lemma {:induction false} RdatasDiffCount(first: seq<Rdata>, second: seq<Rdata>, r: Rdata)
    ensures multiset(RdatasDiff(first, second))[r] == if r in second then 0 else multiset(first)[r]
  {
    if first != [] {
      RdatasDiffCount(first[1..], second, r);
      assert first == [first[0]] + first[1..];
    }
  }

  lemma {:induction false} RdatasDiffAppend(first: seq<Rdata>, r: Rdata, second: seq<Rdata>)
    ensures RdatasDiff(first + [r], second) ==
            RdatasDiff(first, second) + (if r in second then [] else [r])
  {
    if first == [] {
      assert first + [r] == [r];
    } else {
      RdatasDiffAppend(first[1..], r, second);
      assert (first + [r])[1..] == first[1..] + [r];
    }
  }

  lemma {:induction false} MergeRdatasMember(was: seq<Rdata>, more: seq<Rdata>, r: Rdata)
    ensures r in MergeRdatas(was, more) <==> r in was || r in more
    ensures was <= MergeRdatas(was, more)
    decreases |more|
  {
    if more != [] {
      MergeRdatasMember(if more[0] in was then was else was + [more[0]], more[1..], r);
      assert more == [more[0]] + more[1..];
    }
  }

  /** Old records stay as often as they were there, and a new one comes in once, however
      often it is given. */
  lemma {:induction false} MergeRdatasCount(was: seq<Rdata>, more: seq<Rdata>, r: Rdata)
    ensures multiset(MergeRdatas(was, more))[r] ==
            if r in was then multiset(was)[r] else if r in more then 1 else 0
    decreases |more|
  {
    if more != [] {
      var next := if more[0] in was then was else was + [more[0]];
      MergeRdatasCount(next, more[1..], r);
      assert r in more <==> r == more[0] || r in more[1..];
      assert r !in was ==> multiset(was)[r] == 0;
    }
  }

  lemma {:induction false} MergeRdatasAppend(was: seq<Rdata>, more: seq<Rdata>, r: Rdata)
    ensures MergeRdatas(was, more + [r]) ==
            var m := MergeRdatas(was, more); if r in m then m else m + [r]
    decreases |more|
  {
    if more == [] {
      assert more + [r] == [r];
    } else {
      MergeRdatasAppend(if more[0] in was then was else was + [more[0]], more[1..], r);
      assert (more + [r])[1..] == more[1..] + [r];
    }
  }

  /** `rdatasDiff`: the nested search loops of the original. */
  method ComputeRdatasDiff(first: seq<Rdata>, second: seq<Rdata>) returns (left: seq<Rdata>)
    ensures left == RdatasDiff(first, second)
    ensures forall r :: r in left <==> r in first && r !in second
  {
    left := [];
    for i := 0 to |first|
      invariant left == RdatasDiff(first[..i], second)
    {
      var inSecond := false;
      for j := 0 to |second|
        invariant !inSecond && first[i] !in second[..j]
      {
        if first[i] == second[j] {
          inSecond := true;
          break;
        }
      }
      if !inSecond {
        left := left + [first[i]];
      }
      RdatasDiffAppend(first[..i], first[i], second);
      assert first[..i + 1] == first[..i] + [first[i]];
    }
    assert first[..|first|] == first;
    forall r ensures r in left <==> r in first && r !in second {
      RdatasDiffMember(first, second, r);
    }
  }
}
