/** The message cache: a map from keys to the elements of a linked list, changed
    together, proved to be the list of LruLists at every call. */
module MessageCache {
  import opened Dns
  import opened Lists
  import opened LruLists

  const DEFAULT_NEGATIVE_TTL: uint32 := 60
  const DEFAULT_POSITIVE_TTL: uint32 := 3600

  /** An element of the linked list. */
  class Element {
    var value: Entry

    constructor (value: Entry)
      ensures this.value == value
    {
      this.value := value;
    }
  }

  function Entries(ll: seq<Element>): (entries: seq<Entry>)
    reads ll
    ensures |entries| == |ll|
  {
    if ll == [] then [] else [ll[0].value] + Entries(ll[1..])
  }

  lemma {:induction false} EntriesFront(ll: seq<Element>, n: nat)
    requires n <= |ll|
    ensures Entries(ll[..n]) == Entries(ll)[..n]
    decreases |ll|
  {
    if ll != [] {
      EntriesFront(ll[1..], if n == 0 then 0 else n - 1);
      if n > 0 {
        assert ll[..n][1..] == ll[1..][..n - 1];
      }
    }
  }

  /** The only element under the key: removing it removes the key's entries. */
  lemma {:induction false} EntriesWithout(h: Hash, ll: seq<Element>, e: Element, k: Key)
    requires forall x | x in ll :: KeyOf(h, x.value) == k <==> x == e
    ensures Entries(Without(ll, e)) == WithoutKey(h, Entries(ll), k)
    ensures Find(h, Entries(ll), k) == if e in ll then Some(e.value) else None
  {
    if ll != [] {
      assert ll[0] in ll && forall x | x in ll[1..] :: x in ll;
      EntriesWithout(h, ll[1..], e, k);
      assert Entries(ll)[1..] == Entries(ll[1..]);
    }
  }

  lemma {:induction false} EntriesMiss(h: Hash, ll: seq<Element>, k: Key)
    requires forall x | x in ll :: KeyOf(h, x.value) != k
    ensures WithoutKey(h, Entries(ll), k) == Entries(ll) && Find(h, Entries(ll), k) == None
  {
    if ll != [] {
      assert ll[0] in ll && forall x | x in ll[1..] :: x in ll;
      EntriesMiss(h, ll[1..], k);
      assert Entries(ll)[1..] == Entries(ll[1..]);
    }
  }

  class Cache {
    const hash: Hash
    const config: Config
    var ll: seq<Element>
    var cache: map<Key, Element>

    /** Map and list are in bijection, each element filed under its own message's key. */
    ghost predicate Valid()
      reads this, ll
    {
      && Distinct(ll)
      && (forall k | k in cache :: cache[k] in ll && KeyOf(hash, cache[k].value) == k)
      && (forall e | e in ll :: KeyOf(hash, e.value) in cache && cache[KeyOf(hash, e.value)] == e)
    }

    ghost function Contents(): seq<Entry>
      reads this, ll
    {
      Entries(ll)
    }

    /** `newMessageCache` with `reloadConfig`: zero TTL limits stand for the defaults. */
    constructor (hash: Hash, conf: Config)
      ensures Valid() && Fits() && Contents() == [] && this.hash == hash
      ensures config == conf.(positiveTtl := if conf.positiveTtl == 0 then DEFAULT_POSITIVE_TTL else conf.positiveTtl,
                              negativeTtl := if conf.negativeTtl == 0 then DEFAULT_NEGATIVE_TTL else conf.negativeTtl)
    {
      this.hash := hash;
      config := conf.(positiveTtl := if conf.positiveTtl == 0 then DEFAULT_POSITIVE_TTL else conf.positiveTtl,
                      negativeTtl := if conf.negativeTtl == 0 then DEFAULT_NEGATIVE_TTL else conf.negativeTtl);
      ll, cache := [], map[];
    }

    /** A cache that was never larger than its present maximum; only a lowered maximum
        could leave it otherwise. */
    ghost predicate Fits()
      reads this
    {
      config.maxSize != 0 ==> |ll| <= config.maxSize
    }

    /** The list of a valid cache of the right size has the invariant of `LruLists`. */
    lemma ValidIsInv()
      requires Valid() && Fits()
      ensures CacheInv(hash, Contents(), config.maxSize)
    {
      forall i, j | 0 <= i < j < |ll|
        ensures KeyOf(hash, Entries(ll)[i]) != KeyOf(hash, Entries(ll)[j])
      {
        EntryAt(ll, i);
        EntryAt(ll, j);
        assert ll[i] in ll && ll[j] in ll;
      }
    }

    /** What the map says of a key, in terms of the list. */
    lemma Lookup(key: Key)
      requires Valid()
      ensures key in cache ==>
                && Find(hash, Contents(), key) == Some(cache[key].value)
                && WithoutKey(hash, Contents(), key) == Entries(Without(ll, cache[key]))
      ensures key !in cache ==> Find(hash, Contents(), key) == None && WithoutKey(hash, Contents(), key) == Contents()
    {
      if key in cache {
        EntriesWithout(hash, ll, cache[key], key);
      } else {
        EntriesMiss(hash, ll, key);
      }
    }

    // ----- messages

    /** `messageToCache`. */
    method MessageToCache(message: Message, now: Time) returns (entry: Entry)
      ensures entry == EntryFor(config, message, now)
    {
      if |message.answers| > 0 {
        entry := PositiveMessageToCache(message, now);
      } else {
        entry := NegativeMessageToCache(message, now);
      }
    }

    /** `positiveMessageToCache`. */
    method PositiveMessageToCache(message: Message, now: Time) returns (entry: Entry)
      requires message.answers != []
      ensures entry == EntryFor(config, message, now)
    {
      var m := message;
      if config.shortAnswer {
        m := m.(auths := [], additionals := []);
      }
      var answers, minTtl := ClampAnswers(m.answers);
      entry := Entry(m.(answers := answers), now + minTtl * SECOND);
    }

    /** Its loop: one pass finds the smallest TTL and clamps the others. */
    method ClampAnswers(rrs: seq<CachedRR>) returns (answers: seq<CachedRR>, minTtl: uint32)
      ensures answers == ClampedAll(rrs, config.positiveTtl)
      ensures minTtl == SmallestTtl(rrs, config.positiveTtl)
    {
      answers, minTtl := rrs, config.positiveTtl;
      for i := 0 to |answers|
        invariant |answers| == |rrs|
        invariant minTtl == SmallestTtl(rrs[..i], config.positiveTtl)
        invariant minTtl <= config.positiveTtl
        invariant forall j | 0 <= j < i :: answers[j] == Clamped(rrs[j], config.positiveTtl)
        invariant forall j | i <= j < |answers| :: answers[j] == rrs[j]
      {
        var ttl := answers[i].ttl;
        assert rrs[..i + 1][..i] == rrs[..i];
        if ttl < minTtl {
          minTtl := ttl;
        } else if ttl > config.positiveTtl {
          answers := answers[i := answers[i].(ttl := config.positiveTtl)];
        }
      }
      assert rrs[..|answers|] == rrs;
    }

    /** `negativeMessageToCache`. */
    method NegativeMessageToCache(message: Message, now: Time) returns (entry: Entry)
      requires message.answers == []
      ensures entry == EntryFor(config, message, now)
    {
      var m, minTtl := message, config.negativeTtl;
      if |m.auths| == 1 && m.auths[0].typ == SOA_CODE && |m.auths[0].rdatas| == 1 {
        var soa := m.auths[0];
        if soa.rdatas[0].SoaRdata? {
          if minTtl > soa.rdatas[0].minimum {
            minTtl := soa.rdatas[0].minimum;
          }
          if soa.ttl < minTtl {
            minTtl := soa.ttl;
          } else {
            m := m.(auths := [soa.(ttl := minTtl)]);
          }
        }
      }
      if config.shortAnswer {
        m := m.(additionals := []);
      }
      assert |message.auths| == 1 ==> message.auths == [message.auths[0]];
      entry := Entry(m, now + minTtl * SECOND);
    }

    // ----- the list and the map

    /** `Add`. */
    method Add(message: Message, now: Time)
      requires Valid()
      modifies this, ll
      ensures Valid() && fresh(set e | e in ll && e !in old(ll))
      ensures Contents() == LruAdd(hash, old(Contents()), EntryFor(config, message, now), config.maxSize)
      ensures old(Fits()) ==> Fits() && CacheInv(hash, Contents(), config.maxSize)
    {
      ghost var (was, fits) := (Contents(), Fits());
      if fits {
        ValidIsInv();
        AddKeeps(hash, was, EntryFor(config, message, now), config.maxSize);
      }
      AddMessage(message, now);
    }

    method AddMessage(message: Message, now: Time)
      requires Valid()
      modifies this, ll
      ensures Valid() && fresh(set e | e in ll && e !in old(ll))
      ensures Contents() == LruAdd(hash, old(Contents()), EntryFor(config, message, now), config.maxSize)
    {
      var entry := MessageToCache(message, now);
      var key := KeyFor(hash, message.qname, message.qtype);
      Put(key, entry);
      if config.maxSize != 0 && |ll| > config.maxSize {
        RemoveOldest();
      }
    }

    /** The first half of `add`: replace and move to the front, or push a new element. */
    method Put(key: Key, entry: Entry)
      requires Valid() && key == KeyOf(hash, entry)
      modifies this, ll
      ensures Valid() && fresh(set e | e in ll && e !in old(ll))
      ensures Contents() == [entry] + WithoutKey(hash, old(Contents()), key)
    {
      Lookup(key);
      if key in cache {
        var elem := cache[key];
        MoveToFront(elem);
        Replace(elem, entry);
      } else {
        Push(key, entry);
      }
    }

    method Replace(elem: Element, entry: Entry)
      requires Valid() && ll != [] && elem == ll[0] && KeyOf(hash, entry) == KeyOf(hash, elem.value)
      modifies elem
      ensures Valid() && Contents() == [entry] + old(Contents()[1..])
    {
      elem.value := entry;
      SameEntries(ll[1..]);
    }

    method Push(key: Key, entry: Entry)
      requires Valid() && key == KeyOf(hash, entry) && key !in cache
      modifies this
      ensures Valid() && ll != [] && fresh(ll[0]) && ll == [ll[0]] + old(ll)
      ensures Contents() == [entry] + old(Contents())
    {
      var elem := new Element(entry);
      ghost var was := ll;
      ll := [elem] + ll;
      cache := cache[key := elem];
      SameEntries(was);
      assert ll[1..] == was;
    }

    /** `Get`: the message of a hit, and whether it is handed to the prefetcher. */
    method Get(name: Name, typ: TypeCode, now: Time) returns (found: Option<Message>, prefetch: bool)
      requires Valid()
      modifies this
      ensures Valid() && multiset(ll) == multiset(old(ll))
      ensures var (after, hit) := LruGet(hash, old(Contents()), name, typ, now);
              && Contents() == after
              && found == (if hit.Some? then Some(hit.value.message) else None)
              && (prefetch <==> hit.Some? && config.prefetch && hit.value.expireTime < now + PREFETCH_TIME * SECOND)
      ensures old(Fits()) ==> Fits() && CacheInv(hash, Contents(), config.maxSize)
    {
      if Fits() {
        ValidIsInv();
        StepKeeps(hash, config, Contents(), GetEvent(name, typ, now));
      }
      var entry := LookUp(name, typ, now);
      match entry {
        case Some(e) => found, prefetch := Some(e.message), config.prefetch && ExpiresSoon(e, now);
        case None => found, prefetch := None, false;
      }
    }

    /** `get`. */
    method LookUp(name: Name, typ: TypeCode, now: Time) returns (found: Option<Entry>)
      requires Valid()
      modifies this
      ensures Valid() && multiset(ll) == multiset(old(ll))
      ensures (Contents(), found) == LruGet(hash, old(Contents()), name, typ, now)
    {
      var key := KeyFor(hash, name, typ);
      Lookup(key);
      if key in cache {
        var elem := cache[key];
        var entry := elem.value;
        if now <= entry.expireTime && entry.message.qname == name {
          MoveToFront(elem);
          return Some(entry);
        }
      }
      found := None;
    }

    /** `list.MoveToFront`. */
    method MoveToFront(elem: Element)
      requires Valid() && elem in ll
      modifies this
      ensures Valid() && cache == old(cache) && ll == [elem] + Without(old(ll), elem)
      ensures ll[1..] == Without(old(ll), elem) && multiset(ll) == multiset(old(ll))
      ensures Contents() == [elem.value] + old(Entries(Without(ll, elem)))
    {
      WithoutDistinct(ll, elem);
      WithoutMultiset(ll, elem);
      ll := [elem] + Without(ll, elem);
      SameEntries(ll[1..]);
    }

    /** `Remove`. */
    method Remove(name: Name, typ: TypeCode)
      requires Valid()
      modifies this
      ensures Valid() && forall e | e in ll :: e in old(ll)
      ensures Contents() == WithoutKey(hash, old(Contents()), KeyFor(hash, name, typ))
      ensures old(Fits()) ==> Fits() && CacheInv(hash, Contents(), config.maxSize)
    {
      var key := KeyFor(hash, name, typ);
      Lookup(key);
      if Fits() {
        ValidIsInv();
        StepKeeps(hash, config, Contents(), RemoveEvent(name, typ));
      }
      if key in cache {
        RemoveElement(cache[key]);
      }
    }

    /** `removeOldest`. */
    method RemoveOldest()
      requires Valid()
      modifies this
      ensures Valid() && forall e | e in ll :: e in old(ll)
      ensures Contents() == if old(ll) == [] then [] else old(Contents())[..|old(ll)| - 1]
    {
      if ll != [] {
        WithoutLast(ll);
        EntriesFront(ll, |ll| - 1);
        RemoveElement(ll[|ll| - 1]);
      }
    }

    /** `removeElement`: off the list, and its own key off the map. */
    method RemoveElement(e: Element)
      requires Valid() && e in ll
      modifies this
      ensures Valid() && ll == Without(old(ll), e)
      ensures Contents() == old(Entries(Without(ll, e)))
    {
      WithoutDistinct(ll, e);
      DropElement(e);
      SameEntries(ll);
    }

    method DropElement(e: Element)
      requires Valid() && e in ll && Distinct(Without(ll, e))
      modifies this
      ensures Valid() && ll == Without(old(ll), e)
    {
      ll, cache := Without(ll, e), cache - {KeyOf(hash, e.value)};
    }

    /** `Clear`. */
    method Clear()
      modifies this
      ensures Valid() && Contents() == [] && Fits() && CacheInv(hash, Contents(), config.maxSize)
    {
      ll, cache := [], map[];
    }
  }

  lemma {:induction false} EntryAt(ll: seq<Element>, i: nat)
    requires i < |ll|
    ensures Entries(ll)[i] == ll[i].value
  {
    if i > 0 {
      EntryAt(ll[1..], i - 1);
    }
  }

  /** Elements not written to keep their entries. */
  twostate lemma SameEntries(ll: seq<Element>)
    requires forall e | e in ll :: old(allocated(e)) && e.value == old(e.value)
    ensures Entries(ll) == old(Entries(ll))
  {
    if ll != [] {
      assert ll[0] in ll && forall x | x in ll[1..] :: x in ll;
      SameEntries(ll[1..]);
    }
  }
}
