/** The message cache's specification: a list of entries with distinct keys, most
    recently used first, and what every run of such a cache guarantees. */
module LruLists {
  import opened Dns

  type Hash = Name -> uint32
  type TypeCode = x: nat | x < 0x1_0000
  type Key = nat
  /** Nanoseconds on a clock that never goes back. */
  type Time = nat

  const SECOND: nat := 1_000_000_000
  const SOA_CODE: TypeCode := 6
  const PREFETCH_TIME: nat := 10

  datatype CachedRdata = SoaRdata(minimum: uint32) | OtherRdata(text: string)

  datatype CachedRR = CachedRR(name: Name, typ: TypeCode, ttl: uint32, rdatas: seq<CachedRdata>)

  datatype Message = Message(
    qname: Name, qtype: TypeCode, answers: seq<CachedRR>, auths: seq<CachedRR>, additionals: seq<CachedRR>)

  datatype Entry = Entry(message: Message, expireTime: Time)

  datatype Config =
    Config(positiveTtl: uint32, negativeTtl: uint32, maxSize: nat, shortAnswer: bool, prefetch: bool)

  // ----- keys

  /** `keyForMessage`: the hash in the upper half, the type in the lower. */
  function PackKey(hash: uint32, typ: TypeCode): Key {
    hash * UINT32_SIZE + typ
  }

  /** The same on machine words, where the source shifts and ors. */
  lemma PackedWord(hash: bv64, typ: bv64)
    requires hash <= 0xffff_ffff && typ <= 0xffff
    ensures (hash << 32) | typ == hash * 0x1_0000_0000 + typ
  {
  }

  function KeyFor(h: Hash, name: Name, typ: TypeCode): Key {
    PackKey(h(name), typ)
  }

  function KeyOf(h: Hash, e: Entry): Key {
    KeyFor(h, e.message.qname, e.message.qtype)
  }

  /** The packing loses nothing: equal keys have equal hash and equal type. */
  lemma PackKeyInjective(a: uint32, t: TypeCode, b: uint32, u: TypeCode)
    requires PackKey(a, t) == PackKey(b, u)
    ensures a == b && t == u
  {
  }

  // ----- lifetimes

  function Min(a: nat, b: nat): nat {
    if a < b then a else b
  }

  function Clamped(rr: CachedRR, limit: uint32): CachedRR {
    rr.(ttl := Min(rr.ttl, limit))
  }

  function ClampedAll(rrs: seq<CachedRR>, limit: uint32): seq<CachedRR> {
    seq(|rrs|, i requires 0 <= i < |rrs| => Clamped(rrs[i], limit))
  }

  function SmallestTtl(rrs: seq<CachedRR>, limit: uint32): uint32 {
    if rrs == [] then limit else Min(SmallestTtl(rrs[..|rrs| - 1], limit), rrs[|rrs| - 1].ttl)
  }

  predicate HasNegativeSOA(m: Message) {
    |m.auths| == 1 && m.auths[0].typ == SOA_CODE && |m.auths[0].rdatas| == 1 && m.auths[0].rdatas[0].SoaRdata?
  }

  /** How long a message may be served, in seconds. */
  function Lifetime(c: Config, m: Message): uint32 {
    if m.answers != [] then SmallestTtl(m.answers, c.positiveTtl)
    else if HasNegativeSOA(m) then Min(Min(c.negativeTtl, m.auths[0].rdatas[0].minimum), m.auths[0].ttl)
    else c.negativeTtl
  }

  /** The message as it is kept and served. */
  function Served(c: Config, m: Message): Message {
    if m.answers != [] then
      m.(answers := ClampedAll(m.answers, c.positiveTtl),
         auths := if c.shortAnswer then [] else m.auths,
         additionals := if c.shortAnswer then [] else m.additionals)
    else
      m.(auths := if HasNegativeSOA(m) then [m.auths[0].(ttl := Lifetime(c, m))] else m.auths,
         additionals := if c.shortAnswer then [] else m.additionals)
  }

  function EntryFor(c: Config, m: Message, now: Time): Entry {
    Entry(Served(c, m), now + Lifetime(c, m) * SECOND)
  }

  lemma {:induction false} SmallestIsLeast(rrs: seq<CachedRR>, limit: uint32)
    ensures SmallestTtl(rrs, limit) <= limit
    ensures forall rr | rr in rrs :: SmallestTtl(rrs, limit) <= rr.ttl
    ensures SmallestTtl(rrs, limit) == limit || exists rr :: rr in rrs && rr.ttl == SmallestTtl(rrs, limit)
  {
    if rrs != [] {
      SmallestIsLeast(rrs[..|rrs| - 1], limit);
      assert rrs == rrs[..|rrs| - 1] + [rrs[|rrs| - 1]];
    }
  }

  /** No record is served with a TTL below what is left of the entry's life: the lifetime
      is the smallest TTL served in the answer, or that of the SOA in a negative one. */
  lemma LifetimeIsSmallestServed(c: Config, m: Message)
    ensures m.answers != [] ==>
              && (forall rr | rr in Served(c, m).answers :: Lifetime(c, m) <= rr.ttl)
              && (exists rr :: rr in Served(c, m).answers && rr.ttl == Lifetime(c, m))
    ensures m.answers == [] && HasNegativeSOA(m) ==> Served(c, m).auths[0].ttl == Lifetime(c, m)
  {
    if m.answers != [] {
      SmallestIsLeast(m.answers, c.positiveTtl);
      var served := Served(c, m).answers;
      forall rr | rr in served ensures Lifetime(c, m) <= rr.ttl {
        var i :| 0 <= i < |served| && served[i] == rr;
        assert m.answers[i] in m.answers;
      }
      var least := SmallestTtl(m.answers, c.positiveTtl);
      if rr :| rr in m.answers && rr.ttl == least {
        var i :| 0 <= i < |m.answers| && m.answers[i] == rr;
        assert served[i] in served && served[i].ttl == least;
      } else {
        assert m.answers[0] in m.answers && least == c.positiveTtl;
        assert served[0] in served && served[0].ttl == least;
      }
    }
  }

  /** A negative answer with one SOA record to go by. */
  predicate GoesBySOA(m: Message) {
    && m.answers == [] && |m.auths| == 1 && m.auths[0].typ == 6
    && |m.auths[0].rdatas| == 1 && m.auths[0].rdatas[0].SoaRdata?
  }

  /** The lifetime of a negative answer: the least of the configured limit, the SOA minimum
      and the SOA TTL (section 5 of RFC 2308), or the limit alone without an SOA. */
  lemma NegativeLifetime(c: Config, m: Message)
    requires m.answers == []
    ensures Lifetime(c, m) <= c.negativeTtl
    ensures !GoesBySOA(m) ==> Lifetime(c, m) == c.negativeTtl
    ensures GoesBySOA(m) ==>
              var (minimum, ttl) := (m.auths[0].rdatas[0].minimum, m.auths[0].ttl);
              && Lifetime(c, m) <= minimum && Lifetime(c, m) <= ttl
              && (Lifetime(c, m) == c.negativeTtl || Lifetime(c, m) == minimum || Lifetime(c, m) == ttl)
  {
  }

  /** What is served: the question as it was, every answer with its TTL cut to the limit,
      every authority record but for the TTL of a negative SOA, and with short answers no
      additional records, nor authorities beside a positive answer. */
  lemma ServedSections(c: Config, m: Message)
    ensures var s := Served(c, m);
            && s.qname == m.qname && s.qtype == m.qtype && |s.answers| == |m.answers|
            && (forall i | 0 <= i < |m.answers| ::
                  && s.answers[i] == m.answers[i].(ttl := s.answers[i].ttl)
                  && s.answers[i].ttl <= m.answers[i].ttl && s.answers[i].ttl <= c.positiveTtl
                  && (s.answers[i].ttl == m.answers[i].ttl || s.answers[i].ttl == c.positiveTtl))
            && s.additionals == (if c.shortAnswer then [] else m.additionals)
            && (m.answers != [] ==> s.auths == if c.shortAnswer then [] else m.auths)
            && (m.answers == [] && !GoesBySOA(m) ==> s.auths == m.auths)
            && (GoesBySOA(m) ==> s.auths == [m.auths[0].(ttl := s.auths[0].ttl)] && s.auths[0].ttl == Lifetime(c, m))
  {
  }

  // ----- the list

  function WithoutKey(h: Hash, s: seq<Entry>, k: Key): seq<Entry> {
    if s == [] then []
    else if KeyOf(h, s[0]) == k then WithoutKey(h, s[1..], k)
    else [s[0]] + WithoutKey(h, s[1..], k)
  }

  function Find(h: Hash, s: seq<Entry>, k: Key): Option<Entry> {
    if s == [] then None else if KeyOf(h, s[0]) == k then Some(s[0]) else Find(h, s[1..], k)
  }

  function Trim(s: seq<Entry>, maxSize: nat): seq<Entry> {
    if maxSize != 0 && |s| > maxSize then s[..|s| - 1] else s
  }

  function LruAdd(h: Hash, s: seq<Entry>, e: Entry, maxSize: nat): seq<Entry> {
    Trim([e] + WithoutKey(h, s, KeyOf(h, e)), maxSize)
  }

  /** A hit needs an unexpired entry of the asked name; only it moves to the front. */
  function LruGet(h: Hash, s: seq<Entry>, name: Name, typ: TypeCode, now: Time): (seq<Entry>, Option<Entry>) {
    var k := KeyFor(h, name, typ);
    match Find(h, s, k)
    case Some(e) =>
      if now <= e.expireTime && e.message.qname == name then ([e] + WithoutKey(h, s, k), Some(e)) else (s, None)
    case None => (s, None)
  }

  /** `NeedPrefetch`: the entry expires within the prefetch time. */
  predicate ExpiresSoon(e: Entry, now: Time) {
    e.expireTime < now + PREFETCH_TIME * SECOND
  }

  ghost predicate DistinctKeys(h: Hash, s: seq<Entry>) {
    forall i, j | 0 <= i < j < |s| :: KeyOf(h, s[i]) != KeyOf(h, s[j])
  }

  lemma {:induction false} FindLaws(h: Hash, s: seq<Entry>, k: Key)
    ensures match Find(h, s, k)
            case Some(e) => e in s && KeyOf(h, e) == k
            case None => forall e | e in s :: KeyOf(h, e) != k
  {
    if s != [] {
      FindLaws(h, s[1..], k);
      assert s == [s[0]] + s[1..];
    }
  }

  lemma {:induction false} WithoutKeyLaws(h: Hash, s: seq<Entry>, k: Key)
    requires DistinctKeys(h, s)
    ensures DistinctKeys(h, WithoutKey(h, s, k))
    ensures forall e :: e in WithoutKey(h, s, k) <==> e in s && KeyOf(h, e) != k
    ensures |WithoutKey(h, s, k)| == |s| - if Find(h, s, k).Some? then 1 else 0
  {
    if s != [] {
      var rest := s[1..];
      assert s == [s[0]] + rest;
      WithoutKeyLaws(h, rest, k);
      FindLaws(h, rest, k);
      assert forall e | e in rest :: KeyOf(h, e) != KeyOf(h, s[0]);
      if KeyOf(h, s[0]) == k {
        assert Find(h, rest, k).None?;
      }
    }
  }

  lemma {:induction false} KeepsAll(h: Hash, s: seq<Entry>, k: Key)
    requires Find(h, s, k).None?
    ensures WithoutKey(h, s, k) == s
  {
    if s != [] {
      KeepsAll(h, s[1..], k);
    }
  }

  ghost predicate CacheInv(h: Hash, s: seq<Entry>, maxSize: nat) {
    DistinctKeys(h, s) && (maxSize != 0 ==> |s| <= maxSize)
  }

  /** What one add does: the new entry goes first, and only a new key in a full cache
      costs an entry, which is the last one. */
  lemma AddShape(h: Hash, s: seq<Entry>, e: Entry, maxSize: nat)
    requires CacheInv(h, s, maxSize)
    ensures LruAdd(h, s, e, maxSize) ==
            [e] + if Find(h, s, KeyOf(h, e)).None? && |s| == maxSize && maxSize != 0 then s[..|s| - 1]
                  else WithoutKey(h, s, KeyOf(h, e))
  {
    var k := KeyOf(h, e);
    WithoutKeyLaws(h, s, k);
    if Find(h, s, k).None? && |s| == maxSize && maxSize != 0 {
      KeepsAll(h, s, k);
      assert ([e] + s)[..|s|] == [e] + s[..|s| - 1];
    }
  }

  lemma FrontKeeps(h: Hash, s: seq<Entry>, e: Entry)
    requires DistinctKeys(h, s)
    ensures DistinctKeys(h, [e] + WithoutKey(h, s, KeyOf(h, e)))
  {
    WithoutKeyLaws(h, s, KeyOf(h, e));
  }

  /** The newest entry is first, so it is never the one evicted. */
  lemma AddKeeps(h: Hash, s: seq<Entry>, e: Entry, maxSize: nat)
    requires CacheInv(h, s, maxSize)
    ensures CacheInv(h, LruAdd(h, s, e, maxSize), maxSize)
    ensures LruAdd(h, s, e, maxSize) != [] && LruAdd(h, s, e, maxSize)[0] == e
  {
    AddShape(h, s, e, maxSize);
    FrontKeeps(h, s, e);
    WithoutKeyLaws(h, s, KeyOf(h, e));
  }

  // ----- runs

  datatype Event =
    | AddEvent(message: Message, now: Time)
    | GetEvent(name: Name, typ: TypeCode, now: Time)
    | RemoveEvent(name: Name, typ: TypeCode)
    | ClearEvent

  function Step(h: Hash, c: Config, s: seq<Entry>, e: Event): seq<Entry> {
    match e
    case AddEvent(m, now) => LruAdd(h, s, EntryFor(c, m, now), c.maxSize)
    case GetEvent(name, typ, now) => LruGet(h, s, name, typ, now).0
    case RemoveEvent(name, typ) => WithoutKey(h, s, KeyFor(h, name, typ))
    case ClearEvent => []
  }

  function After(h: Hash, c: Config, events: seq<Event>): seq<Entry> {
    if events == [] then []
    else Step(h, c, After(h, c, events[..|events| - 1]), events[|events| - 1])
  }

  lemma StepKeeps(h: Hash, c: Config, s: seq<Entry>, e: Event)
    requires CacheInv(h, s, c.maxSize)
    ensures CacheInv(h, Step(h, c, s, e), c.maxSize)
  {
    match e
    case AddEvent(m, now) => AddKeeps(h, s, EntryFor(c, m, now), c.maxSize);
    case GetEvent(name, typ, now) =>
      var k := KeyFor(h, name, typ);
      FindLaws(h, s, k);
      WithoutKeyLaws(h, s, k);
      if Find(h, s, k).Some? {
        FrontKeeps(h, s, Find(h, s, k).value);
      }
    case RemoveEvent(name, typ) => WithoutKeyLaws(h, s, KeyFor(h, name, typ));
    case ClearEvent =>
  }

  /** Keys stay distinct and a non-zero maximum is never exceeded, over every run. */
  lemma {:induction false} RunInv(h: Hash, c: Config, events: seq<Event>)
    ensures CacheInv(h, After(h, c, events), c.maxSize)
    decreases |events|
  {
    if events != [] {
      RunInv(h, c, events[..|events| - 1]);
      StepKeeps(h, c, After(h, c, events[..|events| - 1]), events[|events| - 1]);
    }
  }

  // ----- the simple map it refines

  /** The reference: the last message added under the key since it was last removed. */
  function Latest(h: Hash, c: Config, events: seq<Event>, k: Key): Option<Entry> {
    if events == [] then None
    else
      var before := Latest(h, c, events[..|events| - 1], k);
      match events[|events| - 1]
      case AddEvent(m, now) => if KeyFor(h, m.qname, m.qtype) == k then Some(EntryFor(c, m, now)) else before
      case GetEvent(_, _, _) => before
      case RemoveEvent(name, typ) => if KeyFor(h, name, typ) == k then None else before
      case ClearEvent => None
  }

  lemma {:induction false} FindWithout(h: Hash, s: seq<Entry>, j: Key, k: Key)
    ensures Find(h, WithoutKey(h, s, j), k) == if j == k then None else Find(h, s, k)
  {
    if s != [] {
      FindWithout(h, s[1..], j, k);
    }
  }

  lemma {:induction false} FindPrefix(h: Hash, s: seq<Entry>, n: nat, k: Key)
    requires n <= |s|
    ensures Find(h, s[..n], k).Some? ==> Find(h, s[..n], k) == Find(h, s, k)
    decreases |s|
  {
    if n > 0 {
      FindPrefix(h, s[1..], n - 1, k);
      assert s[..n][1..] == s[1..][..n - 1];
    }
  }

  lemma FindFront(h: Hash, e: Entry, s: seq<Entry>, k: Key)
    ensures Find(h, [e] + s, k) == if KeyOf(h, e) == k then Some(e) else Find(h, s, k)
  {
    assert ([e] + s)[1..] == s;
  }

  lemma FindAfterAdd(h: Hash, s: seq<Entry>, e: Entry, maxSize: nat, k: Key)
    requires CacheInv(h, s, maxSize)
    ensures var found := Find(h, LruAdd(h, s, e, maxSize), k);
            && (KeyOf(h, e) == k ==> found == Some(e))
            && (KeyOf(h, e) != k ==> found == Find(h, s, k) || (found == None && maxSize != 0))
  {
    var j := KeyOf(h, e);
    AddShape(h, s, e, maxSize);
    FindWithout(h, s, j, k);
    FindFront(h, e, WithoutKey(h, s, j), k);
    if |s| > 0 {
      FindPrefix(h, s, |s| - 1, k);
      FindFront(h, e, s[..|s| - 1], k);
    }
  }

  lemma FindAfterGet(h: Hash, s: seq<Entry>, name: Name, typ: TypeCode, now: Time, k: Key)
    ensures Find(h, LruGet(h, s, name, typ, now).0, k) == Find(h, s, k)
  {
    var j := KeyFor(h, name, typ);
    FindLaws(h, s, j);
    FindWithout(h, s, j, k);
    if Find(h, s, j).Some? {
      FindFront(h, Find(h, s, j).value, WithoutKey(h, s, j), k);
    }
  }

  /** Main result: over every run, what the cache holds under a key is the latest message
      added under it, never an older or removed one; without a maximum it holds all. */
  lemma {:induction false} CacheRefinesMap(h: Hash, c: Config, events: seq<Event>, k: Key)
    ensures var found := Find(h, After(h, c, events), k);
            found == Latest(h, c, events, k) || (found == None && c.maxSize != 0)
    decreases |events|
  {
    if events != [] {
      var before := events[..|events| - 1];
      CacheRefinesMap(h, c, before, k);
      RunInv(h, c, before);
      var s := After(h, c, before);
      match events[|events| - 1]
      case AddEvent(m, now) => FindAfterAdd(h, s, EntryFor(c, m, now), c.maxSize, k);
      case GetEvent(name, typ, now) => FindAfterGet(h, s, name, typ, now, k);
      case RemoveEvent(name, typ) => FindWithout(h, s, KeyFor(h, name, typ), k);
      case ClearEvent =>
    }
  }

  lemma {:induction false} LatestWasAdded(h: Hash, c: Config, events: seq<Event>, k: Key) returns (i: nat)
    requires Latest(h, c, events, k).Some?
    ensures i < |events| && events[i].AddEvent?
    ensures Latest(h, c, events, k).value == EntryFor(c, events[i].message, events[i].now)
    ensures KeyFor(h, events[i].message.qname, events[i].message.qtype) == k
    decreases |events|
  {
    var n := |events| - 1;
    if events[n].AddEvent? && KeyFor(h, events[n].message.qname, events[n].message.qtype) == k {
      i := n;
    } else {
      i := LatestWasAdded(h, c, events[..n], k);
    }
  }

  /** Main result: a hit answers the asked name and type, with a message added earlier in
      the run, no later than the smallest TTL it is served with after that add. */
  lemma HitIsRight(h: Hash, c: Config, events: seq<Event>, name: Name, typ: TypeCode, now: Time) returns (i: nat)
    requires LruGet(h, After(h, c, events), name, typ, now).1.Some?
    ensures i < |events| && events[i].AddEvent?
    ensures var (hit, m, added) :=
              (LruGet(h, After(h, c, events), name, typ, now).1.value.message, events[i].message, events[i].now);
            && hit == Served(c, m) && hit.qname == name && hit.qtype == typ
            && now <= added + Lifetime(c, m) * SECOND
            && (forall rr | rr in hit.answers :: now <= added + rr.ttl * SECOND)
            && (m.answers == [] ==> now <= added + c.negativeTtl * SECOND)
            && (GoesBySOA(m) ==>
                  now <= added + m.auths[0].rdatas[0].minimum * SECOND && now <= added + m.auths[0].ttl * SECOND)
  {
    var k := KeyFor(h, name, typ);
    CacheRefinesMap(h, c, events, k);
    i := LatestWasAdded(h, c, events, k);
    var m := events[i].message;
    PackKeyInjective(h(m.qname), m.qtype, h(name), typ);
    LifetimeIsSmallestServed(c, m);
    assert forall rr | rr in Served(c, m).answers :: Lifetime(c, m) <= rr.ttl;
    if m.answers == [] {
      NegativeLifetime(c, m);
    }
  }

  /** The last add under a key since it was last removed, as an index into the run. */
  ghost predicate IsLatestAdd(h: Hash, events: seq<Event>, k: Key, i: nat) {
    && i < |events| && events[i].AddEvent? && KeyFor(h, events[i].message.qname, events[i].message.qtype) == k
    && forall j | i < j < |events| :: !Discards(h, events[j], k)
  }

  lemma {:induction false} LatestIsLast(h: Hash, c: Config, events: seq<Event>, k: Key, i: nat)
    requires IsLatestAdd(h, events, k, i)
    ensures Latest(h, c, events, k) == Some(EntryFor(c, events[i].message, events[i].now))
    decreases |events|
  {
    var n := |events| - 1;
    if i < n {
      assert !Discards(h, events[n], k);
      assert forall j | i < j < n :: events[..n][j] == events[j];
      LatestIsLast(h, c, events[..n], k, i);
    }
  }

  /** Main result: a query hits if and only if the key is still in the list, its latest add
      was for the asked name, and the time since does not exceed that message's lifetime;
      in a cache without a maximum the key is always in the list. */
  lemma HitExactly(h: Hash, c: Config, events: seq<Event>, name: Name, typ: TypeCode, now: Time, i: nat)
    requires IsLatestAdd(h, events, KeyFor(h, name, typ), i)
    ensures var (k, s, m) := (KeyFor(h, name, typ), After(h, c, events), events[i].message);
            && (LruGet(h, s, name, typ, now).1.Some? <==>
                  Find(h, s, k).Some? && m.qname == name && now <= events[i].now + Lifetime(c, m) * SECOND)
            && (c.maxSize == 0 ==> Find(h, s, k).Some?)
  {
    var k := KeyFor(h, name, typ);
    CacheRefinesMap(h, c, events, k);
    LatestIsLast(h, c, events, k, i);
  }

  // ----- eviction

  /** The entries used more recently than the key. */
  function Ahead(h: Hash, s: seq<Entry>, k: Key): seq<Entry> {
    if s == [] || KeyOf(h, s[0]) == k then [] else [s[0]] + Ahead(h, s[1..], k)
  }

  ghost predicate KeysIn(h: Hash, s: seq<Entry>, keys: set<Key>) {
    forall e | e in s :: KeyOf(h, e) in keys
  }

  lemma {:induction false} DistinctFit(h: Hash, s: seq<Entry>, keys: set<Key>)
    requires DistinctKeys(h, s) && KeysIn(h, s, keys)
    ensures |s| <= |keys|
  {
    if s != [] {
      assert s[0] in s && forall e | e in s[1..] :: e in s && KeyOf(h, e) != KeyOf(h, s[0]);
      DistinctFit(h, s[1..], keys - {KeyOf(h, s[0])});
    }
  }

  lemma {:induction false} AheadIsPrefix(h: Hash, s: seq<Entry>, k: Key)
    ensures Ahead(h, s, k) <= s
  {
    if s != [] && KeyOf(h, s[0]) != k {
      AheadIsPrefix(h, s[1..], k);
    }
  }

  lemma {:induction false} AheadWithout(h: Hash, s: seq<Entry>, j: Key, k: Key, keys: set<Key>)
    requires j != k && KeysIn(h, Ahead(h, s, k), keys)
    ensures KeysIn(h, Ahead(h, WithoutKey(h, s, j), k), keys)
  {
    if s != [] {
      if KeyOf(h, s[0]) != k {
        assert Ahead(h, s, k)[1..] == Ahead(h, s[1..], k);
        assert s[0] in Ahead(h, s, k) && forall e | e in Ahead(h, s[1..], k) :: e in Ahead(h, s, k);
      } else {
        assert Ahead(h, WithoutKey(h, s, j), k) == [];
      }
      if KeyOf(h, s[0]) != k {
        AheadWithout(h, s[1..], j, k, keys);
      }
    }
  }

  lemma {:induction false} Reaches(h: Hash, s: seq<Entry>, n: nat, k: Key)
    requires Find(h, s, k).Some? && |Ahead(h, s, k)| < n <= |s|
    ensures Find(h, s[..n], k) == Find(h, s, k) && Ahead(h, s[..n], k) == Ahead(h, s, k)
    decreases |s|
  {
    if KeyOf(h, s[0]) != k {
      Reaches(h, s[1..], n - 1, k);
      assert s[..n][1..] == s[1..][..n - 1];
    }
  }

  /** The entry sits behind keys of a small set only. */
  ghost predicate Recent(h: Hash, s: seq<Entry>, k: Key, e: Entry, keys: set<Key>) {
    Find(h, s, k) == Some(e) && KeysIn(h, Ahead(h, s, k), keys)
  }

  lemma RecentFront(h: Hash, s: seq<Entry>, k: Key, e: Entry, keys: set<Key>, f: Entry)
    requires Recent(h, s, k, e, keys) && KeyOf(h, f) in keys && k !in keys
    ensures Recent(h, [f] + WithoutKey(h, s, KeyOf(h, f)), k, e, keys)
  {
    var w := WithoutKey(h, s, KeyOf(h, f));
    FindWithout(h, s, KeyOf(h, f), k);
    AheadWithout(h, s, KeyOf(h, f), k, keys);
    assert ([f] + w)[1..] == w;
  }

  lemma RecentTrimmed(h: Hash, s: seq<Entry>, k: Key, e: Entry, keys: set<Key>, maxSize: nat)
    requires DistinctKeys(h, s) && Recent(h, s, k, e, keys) && |keys| < maxSize
    ensures Recent(h, Trim(s, maxSize), k, e, keys)
  {
    AheadIsPrefix(h, s, k);
    DistinctFit(h, Ahead(h, s, k), keys);
    if |s| > maxSize {
      Reaches(h, s, |s| - 1, k);
    }
  }

  /** The key an event brings to the front, if any. */
  function Touches(h: Hash, e: Event): set<Key> {
    match e
    case AddEvent(m, _) => {KeyFor(h, m.qname, m.qtype)}
    case GetEvent(name, typ, _) => {KeyFor(h, name, typ)}
    case _ => {}
  }

  predicate Discards(h: Hash, e: Event, k: Key) {
    match e
    case AddEvent(m, _) => KeyFor(h, m.qname, m.qtype) == k
    case RemoveEvent(name, typ) => KeyFor(h, name, typ) == k
    case ClearEvent => true
    case GetEvent(_, _, _) => false
  }

  lemma RecentStep(h: Hash, c: Config, s: seq<Entry>, k: Key, e: Entry, keys: set<Key>, event: Event)
    requires CacheInv(h, s, c.maxSize) && Recent(h, s, k, e, keys) && k !in keys
    requires (c.maxSize == 0 || |keys| < c.maxSize) && Touches(h, event) <= keys + {k} && !Discards(h, event, k)
    ensures Recent(h, Step(h, c, s, event), k, e, keys)
  {
    match event
    case AddEvent(m, now) =>
      var f := EntryFor(c, m, now);
      RecentFront(h, s, k, e, keys, f);
      FrontKeeps(h, s, f);
      if c.maxSize != 0 {
        RecentTrimmed(h, [f] + WithoutKey(h, s, KeyOf(h, f)), k, e, keys, c.maxSize);
      }
    case GetEvent(name, typ, now) =>
      var j := KeyFor(h, name, typ);
      FindLaws(h, s, j);
      if LruGet(h, s, name, typ, now).1.Some? {
        var f := LruGet(h, s, name, typ, now).1.value;
        if j == k {
          FindFront(h, f, WithoutKey(h, s, k), k);
        } else {
          RecentFront(h, s, k, e, keys, f);
        }
      }
    case RemoveEvent(name, typ) =>
      FindWithout(h, s, KeyFor(h, name, typ), k);
      AheadWithout(h, s, KeyFor(h, name, typ), k, keys);
  }

  /** The event uses the entry: adds it, or hits it. */
  ghost predicate Uses(h: Hash, c: Config, s: seq<Entry>, use: Event, k: Key, e: Entry) {
    match use
    case AddEvent(m, now) => k == KeyFor(h, m.qname, m.qtype) && e == EntryFor(c, m, now)
    case GetEvent(name, typ, now) => k == KeyFor(h, name, typ) && LruGet(h, s, name, typ, now).1 == Some(e)
    case _ => false
  }

  lemma UsedIsFirst(h: Hash, c: Config, s: seq<Entry>, use: Event, k: Key, e: Entry)
    requires CacheInv(h, s, c.maxSize) && Uses(h, c, s, use, k, e)
    ensures Recent(h, Step(h, c, s, use), k, e, {})
  {
    FindLaws(h, s, k);
    if use.AddEvent? {
      AddKeeps(h, s, e, c.maxSize);
    } else {
      FindFront(h, e, WithoutKey(h, s, k), k);
    }
  }

  /** Main result: an entry added or hit stays cached until it is replaced or removed, or
      until as many other keys as the cache has room for have been used since. */
  lemma {:induction false} RecentlyUsedSurvive(
      h: Hash, c: Config, events: seq<Event>, use: Event, k: Key, e: Entry, more: seq<Event>, keys: set<Key>)
    requires Uses(h, c, After(h, c, events), use, k, e)
    requires k !in keys && (c.maxSize == 0 || |keys| < c.maxSize)
    requires forall event | event in more :: Touches(h, event) <= keys + {k} && !Discards(h, event, k)
    ensures Recent(h, After(h, c, events + [use] + more), k, e, keys)
    decreases |more|
  {
    var first := events + [use];
    if more == [] {
      assert first + more == first && first[..|first| - 1] == events;
      RunInv(h, c, events);
      UsedIsFirst(h, c, After(h, c, events), use, k, e);
    } else {
      var n := |more| - 1;
      RecentlyUsedSurvive(h, c, events, use, k, e, more[..n], keys);
      assert (first + more)[..|first + more| - 1] == first + more[..n];
      RunInv(h, c, first + more[..n]);
      assert more[n] in more;
      RecentStep(h, c, After(h, c, first + more[..n]), k, e, keys, more[n]);
    }
  }
}
