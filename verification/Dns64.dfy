/** DNS64: an IPv4 address embedded in an IPv6 one (section 2.2 of RFC 6052). */
module Dns64 {

  type byte = b: nat | b < 256

  const IPV6_LEN: nat := 16
  const MAX_PREFIX_LEN: nat := 96

  predicate IsPrefixLen(bits: nat) {
    bits == 32 || bits == 40 || bits == 48 || bits == 56 || bits == 64 || bits == MAX_PREFIX_LEN
  }

  /** Where octet j of the IPv4 address goes: after a prefix of p octets, around octet 8. */
  function Position(p: nat, j: nat): nat {
    if p <= 8 <= p + j then p + j + 1 else p + j
  }

  /** The first octet after the embedded address. */
  function End(p: nat): nat {
    Position(p, 3) + 1
  }

  /** The four positions are those the standard's table gives for each prefix length. */
  lemma PositionTable(prefixLen: nat)
    requires IsPrefixLen(prefixLen)
    ensures var p := prefixLen / 8;
            [Position(p, 0), Position(p, 1), Position(p, 2), Position(p, 3)] ==
            if prefixLen == 32 then [4, 5, 6, 7]
            else if prefixLen == 40 then [5, 6, 7, 9]
            else if prefixLen == 48 then [6, 7, 9, 10]
            else if prefixLen == 56 then [7, 9, 10, 11]
            else if prefixLen == 64 then [9, 10, 11, 12]
            else [12, 13, 14, 15]
  {
  }

  /** Prefix, embedded octets, octet 8 zero where the address goes around it, suffix. */
  ghost predicate IsSynthesis(prefix: seq<byte>, suffix: seq<byte>, p: nat, v4: seq<byte>, v6: seq<byte>)
    requires |prefix| == IPV6_LEN && |v4| == 4 && p <= 12 && (End(p) < IPV6_LEN ==> |suffix| == IPV6_LEN)
  {
    && |v6| == IPV6_LEN
    && v6[..p] == prefix[..p]
    && (forall j | 0 <= j < 4 :: Position(p, j) < IPV6_LEN && v6[Position(p, j)] == v4[j])
    && (p <= 8 < End(p) ==> v6[8] == 0)
    && (forall k | End(p) <= k < IPV6_LEN :: v6[k] == suffix[k])
  }

  /** n octets are embedded, and everything from octet `at` on is still zero. */
  ghost predicate Embedded(v6: seq<byte>, prefix: seq<byte>, p: nat, v4: seq<byte>, at: nat, n: nat)
    requires |prefix| == |v6| == IPV6_LEN && |v4| == 4
  {
    && p <= at <= IPV6_LEN && n <= 4
    && at == p + n + (if p <= 8 < at then 1 else 0)
    && (n == 4 ==> at == End(p))
    && v6[..p] == prefix[..p]
    && (forall j | 0 <= j < n :: Position(p, j) < at && v6[Position(p, j)] == v4[j])
    && (p <= 8 < at ==> v6[8] == 0)
    && (forall k | at <= k < IPV6_LEN :: v6[k] == 0)
  }

  /** The loop of `synthesisAddr` over its two indices. */
  method EmbedV4(v6: array<byte>, prefix: seq<byte>, p: nat, v4: seq<byte>) returns (copied: nat)
    requires v6.Length == |prefix| == IPV6_LEN && |v4| == 4 && (p <= 8 || p == 12)
    requires Embedded(v6[..], prefix, p, v4, p, 0)
    modifies v6
    ensures copied == End(p) && Embedded(v6[..], prefix, p, v4, copied, 4)
  {
    copied := p;
    var v4Index := 0;
    while copied < 16 && v4Index < 4
      invariant Embedded(v6[..], prefix, p, v4, copied, v4Index)
    {
      ghost var was := v6[..];
      if copied != 8 {
        v6[copied] := v4[v4Index];
        v4Index := v4Index + 1;
      }
      copied := copied + 1;
      assert forall k | 0 <= k < IPV6_LEN && k != copied - 1 :: v6[..][k] == was[k];
      assert v6[..][..p] == was[..p];
    }
  }

  /** `synthesisAddr`. */
  method SynthesisAddr(prefix: seq<byte>, suffix: seq<byte>, prefixLen: nat, v4: seq<byte>) returns (v6: array<byte>)
    requires IsPrefixLen(prefixLen) && |prefix| == IPV6_LEN && |v4| == 4
    requires prefixLen != MAX_PREFIX_LEN ==> |suffix| == IPV6_LEN
    ensures v6.Length == IPV6_LEN && IsSynthesis(prefix, suffix, prefixLen / 8, v4, v6[..])
  {
    v6 := new byte[IPV6_LEN](_ => 0);
    var p := prefixLen / 8;
    for i := 0 to p
      invariant v6[..i] == prefix[..i] && forall k | i <= k < IPV6_LEN :: v6[k] == 0
    {
      v6[i] := prefix[i];
    }
    var copied := EmbedV4(v6, prefix, p, v4);
    ghost var filled := v6[..];
    for i := copied to IPV6_LEN
      invariant v6[..copied] == filled[..copied]
      invariant forall k | copied <= k < i :: v6[k] == suffix[k]
    {
      v6[i] := suffix[i];
    }
    assert forall k | 0 <= k < copied :: v6[k] == v6[..copied][k] == filled[k];
    assert v6[..][..p] == filled[..p];
  }

  /** Reading the four octets back. */
  function Extract(p: nat, v6: seq<byte>): seq<byte>
    requires |v6| == IPV6_LEN && p <= 12
  {
    [v6[Position(p, 0)], v6[Position(p, 1)], v6[Position(p, 2)], v6[Position(p, 3)]]
  }

  /** Main result: for every prefix length the IPv4 address is read back unchanged; octet
      8 is zero from /40 to /64, and comes from the suffix for /32 and the prefix for /96. */
  lemma RoundTrip(prefix: seq<byte>, suffix: seq<byte>, prefixLen: nat, v4: seq<byte>, v6: seq<byte>)
    requires IsPrefixLen(prefixLen) && |prefix| == IPV6_LEN && |v4| == 4
    requires prefixLen != MAX_PREFIX_LEN ==> |suffix| == IPV6_LEN
    requires IsSynthesis(prefix, suffix, prefixLen / 8, v4, v6)
    ensures Extract(prefixLen / 8, v6) == v4
    ensures v6[8] == if prefixLen == 32 then suffix[8] else if prefixLen == MAX_PREFIX_LEN then prefix[8] else 0
  {
    var p := prefixLen / 8;
    assert forall j | 0 <= j < 4 :: v6[Position(p, j)] == v4[j];
    assert p == 12 ==> v6[8] == v6[..p][8] == prefix[..p][8];
  }

  /** The description leaves no octet open. */
  lemma SynthesisUnique(prefix: seq<byte>, suffix: seq<byte>, prefixLen: nat, v4: seq<byte>, a: seq<byte>, b: seq<byte>)
    requires IsPrefixLen(prefixLen) && |prefix| == IPV6_LEN && |v4| == 4
    requires prefixLen != MAX_PREFIX_LEN ==> |suffix| == IPV6_LEN
    requires IsSynthesis(prefix, suffix, prefixLen / 8, v4, a) && IsSynthesis(prefix, suffix, prefixLen / 8, v4, b)
    ensures a == b
  {
    var p := prefixLen / 8;
    forall k | 0 <= k < IPV6_LEN ensures a[k] == b[k] {
      if k < p {
        assert a[k] == a[..p][k] && b[k] == b[..p][k];
      } else if k < End(p) && !(p <= 8 == k) {
        var j := if p <= 8 <= k then k - p - 1 else k - p;
        assert Position(p, j) == k;
      }
    }
  }
}
