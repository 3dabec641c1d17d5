/** The recursor's name-server cache: a tree of zones and a list of the same elements in
    order of use.  Selection evicts what it cannot use; enforcement bounds the list. */
module NsasCache {
  import opened Dns
  import opened Lists
  import opened NameServers

  const DEFAULT_MAX_CACHE_SIZE: nat := 4096
  const EXPIRED_ZONE_CHECK_BATCH: nat := 100

  /** A list element; its zone entry never changes. */
  class ZoneElement {
    const entry: ZoneEntry

    constructor (entry: ZoneEntry)
      ensures this.entry == entry
    {
      this.entry := entry;
    }
  }

  type ZoneTree = map<Name, ZoneElement>

  datatype Nsas = Nsas(zones: ZoneTree, visited: seq<ZoneElement>, servers: Servers)

  /** Every zone in the tree has its element in the list.  The list can hold more: an
      element replaced by `addZone` stays. */
  ghost predicate TreeListed(zones: ZoneTree, visited: seq<ZoneElement>) {
    Distinct(visited) && forall z | z in zones :: zones[z] in visited && zones[z].entry.zone == z
  }

  ghost predicate Inv(h: Hash, s: Nsas) {
    ServersInv(h, s.servers) && TreeListed(s.zones, s.visited)
  }

  // ----- the tree

  /** The tree's search: the deepest cached zone that encloses the name. */
  function Search(zones: ZoneTree, name: Name): (r: Option<Name>)
    ensures match r
            case Some(z) => z in zones && IsSubDomain(name, z)
            case None => true
    decreases |name|
  {
    if name in zones then Some(name)
    else if name == [] then None
    else Search(zones, Parent(name))
  }

  lemma {:induction false} SearchDeepest(zones: ZoneTree, name: Name, z: Name)
    requires z in zones && IsSubDomain(name, z)
    ensures Search(zones, name).Some? && |z| <= |Search(zones, name).value|
    decreases |name|
  {
    if name !in zones {
      assert z != name && IsSubDomain(Parent(name), z);
      SearchDeepest(zones, Parent(name), z);
    }
  }

  // ----- selection

  /** `removeZone`: the zone leaves the tree, the element the list, and the zone's
      servers the manager, even when another zone uses them too. */
  function Removed(h: Hash, s: Nsas, elem: ZoneElement): Nsas {
    Nsas(s.zones - {elem.entry.zone}, Without(s.visited, elem), Drop(h, s.servers, elem.entry.nameServers))
  }

  function UsableOf(h: Hash, s: Nsas, elem: ZoneElement, now: Time): seq<NameServer>
    requires ServersInv(h, s.servers)
  {
    if Expired(elem.entry.expireTime, now) then []
    else Usable(h, s.servers, elem.entry.zone, elem.entry.nameServers, now)
  }

  ghost function Select(h: Hash, s: Nsas, name: Name, now: Time): (Nsas, seq<NameServer>)
    requires Inv(h, s)
    decreases |s.zones|
  {
    match Search(s.zones, name)
    case None => (s, [])
    case Some(z) =>
      var elem := s.zones[z];
      var servers := UsableOf(h, s, elem, now);
      if servers != [] then (s.(visited := [elem] + Without(s.visited, elem)), servers)
      else
        RemovedInv(h, s, z);
        Select(h, Removed(h, s, elem), name, now)
  }

  lemma TreeWithout(zones: ZoneTree, visited: seq<ZoneElement>, elem: ZoneElement)
    requires TreeListed(zones, visited)
    ensures TreeListed(zones - {elem.entry.zone}, Without(visited, elem))
  {
    WithoutDistinct(visited, elem);
  }

  lemma RemovedInv(h: Hash, s: Nsas, z: Name)
    requires Inv(h, s) && z in s.zones
    ensures Inv(h, Removed(h, s, s.zones[z])) && |Removed(h, s, s.zones[z]).zones| < |s.zones|
  {
    TreeWithout(s.zones, s.visited, s.zones[z]);
    assert s.zones.Keys == (s.zones - {z}).Keys + {z};
    assert |(s.zones - {z}).Keys| < |s.zones.Keys|;
  }

  /** Zones at or above the depth, and zones that do not enclose the name, are as before. */
  ghost predicate OnlyDeeperGone(s: Nsas, s': Nsas, name: Name, depth: nat) {
    && (forall y | y in s'.zones :: y in s.zones && s'.zones[y] == s.zones[y])
    && (forall y | y in s.zones && !(IsSubDomain(name, y) && |y| > depth) :: y in s'.zones)
    && (forall y | y in s'.zones && IsSubDomain(name, y) :: |y| <= depth)
  }

  /** The servers come from zone z: cached, unexpired, enclosing, now most recently used. */
  ghost predicate ServedBy(h: Hash, s': Nsas, name: Name, now: Time, servers: seq<NameServer>, z: Name) {
    && z in s'.zones && IsSubDomain(name, z)
    && now <= s'.zones[z].entry.expireTime
    && NamesOf(servers) == KnownOf(h, s'.servers, s'.zones[z].entry.nameServers, now)
    && (forall server | server in servers ::
          IsUsable(h, s'.servers, z, s'.zones[z].entry.nameServers, now, server) && server.zone == z)
    && s'.visited != [] && s'.visited[0] == s'.zones[z]
  }

  /** Elements the tree has forgotten stay in the list, and none comes in. */
  ghost predicate ListKept(s: Nsas, s': Nsas) {
    && (forall e | e in s'.visited :: e in s.visited)
    && (forall e | e in s.visited && !IsCurrent(s.zones, e) :: e in s'.visited)
  }

  predicate IsCurrent(zones: ZoneTree, e: ZoneElement) {
    e.entry.zone in zones && zones[e.entry.zone] == e
  }

  /** What `removeZone` leaves: no entry of the zone's servers, everything filed under other
      hashes, every other element in its order, every other zone. */
  lemma RemovedLaws(h: Hash, s: Nsas, z: Name)
    requires Inv(h, s) && z in s.zones
    ensures var (elem, r) := (s.zones[z], Removed(h, s, s.zones[z]));
            && (forall n | n in elem.entry.nameServers :: Get(h, r.servers, n).None?)
            && (forall n | (forall m | m in elem.entry.nameServers :: h(m) != h(n)) ::
                  Get(h, r.servers, n) == Get(h, s.servers, n))
            && (exists i :: 0 <= i < |s.visited| && s.visited[i] == elem && r.visited == s.visited[..i] + s.visited[i + 1..])
            && (forall y :: y in r.zones <==> y in s.zones && y != z)
            && (forall y | y in r.zones :: r.zones[y] == s.zones[y])
  {
    var i :| 0 <= i < |s.visited| && s.visited[i] == s.zones[z];
    WithoutAt(s.visited, i);
  }

  /** Main result: selection ends, with no servers only if every enclosing zone has been
      evicted, and otherwise with every unexpired server of one unexpired enclosing zone,
      in order and each at its fastest address, every deeper enclosing zone having been
      evicted. */
  lemma {:induction false} SelectLaws(h: Hash, s: Nsas, name: Name, now: Time)
    requires Inv(h, s)
    ensures var (s', servers) := Select(h, s, name, now);
            && Inv(h, s') && ListKept(s, s')
            && (servers == [] ==> forall y :: y in s'.zones <==> y in s.zones && !IsSubDomain(name, y))
            && (servers != [] ==>
                  exists z :: ServedBy(h, s', name, now, servers, z) && OnlyDeeperGone(s, s', name, |z|))
    decreases |s.zones|
  {
    match Search(s.zones, name)
    case None =>
      forall y | y in s.zones ensures !IsSubDomain(name, y) {
        if IsSubDomain(name, y) {
          SearchDeepest(s.zones, name, y);
        }
      }
    case Some(z) =>
      var elem := s.zones[z];
      if UsableOf(h, s, elem, now) != [] {
        SelectHit(h, s, name, now, z);
      } else {
        RemovedInv(h, s, z);
        var r := Removed(h, s, elem);
        SelectLaws(h, r, name, now);
        var (s', servers) := Select(h, r, name, now);
        if servers != [] {
          var w :| ServedBy(h, s', name, now, servers, w) && OnlyDeeperGone(r, s', name, |w|);
          SelectMiss(s, z, name, s', r, w);
        }
      }
  }

  lemma SelectHit(h: Hash, s: Nsas, name: Name, now: Time, z: Name)
    requires Inv(h, s) && Search(s.zones, name) == Some(z) && UsableOf(h, s, s.zones[z], now) != []
    ensures var s' := s.(visited := [s.zones[z]] + Without(s.visited, s.zones[z]));
            && Inv(h, s')
            && ServedBy(h, s', name, now, UsableOf(h, s, s.zones[z], now), z)
            && OnlyDeeperGone(s, s', name, |z|)
  {
    var e := s.zones[z].entry;
    WithoutDistinct(s.visited, s.zones[z]);
    UsableLaws(h, s.servers, z, e.nameServers, now);
    forall y | y in s.zones && IsSubDomain(name, y) ensures |y| <= |z| {
      SearchDeepest(s.zones, name, y);
    }
  }

  lemma SelectMiss(s: Nsas, z: Name, name: Name, s': Nsas, r: Nsas, w: Name)
    requires Search(s.zones, name) == Some(z) && r.zones == s.zones - {z}
    requires OnlyDeeperGone(r, s', name, |w|) && w in s'.zones && IsSubDomain(name, w)
    ensures OnlyDeeperGone(s, s', name, |w|)
  {
    assert w in s.zones && w != z;
    SearchDeepest(s.zones, name, w);
    assert w == name[..|w|] && z == name[..|z|];
  }

  // ----- what selection evicts

  /** Deleting the names' entries takes the entry of n with them. */
  ghost predicate GoesWith(h: Hash, names: seq<Name>, n: Name) {
    exists m :: m in names && h(m) == h(n)
  }

  /** A zone evicted below y took the entry of n with it. */
  ghost predicate LostBelow(h: Hash, s: Nsas, s': Nsas, y: Name, n: Name) {
    exists w :: w in s.zones && w !in s'.zones && |w| > |y| && GoesWith(h, s.zones[w].entry.nameServers, n)
  }

  /** Zone y has expired, or has no server left: each is unknown or lost with a deeper zone. */
  ghost predicate IsUseless(h: Hash, s: Nsas, s': Nsas, now: Time, y: Name)
    requires y in s.zones
  {
    || s.zones[y].entry.expireTime < now
    || forall n | n in s.zones[y].entry.nameServers :: IsKnown(h, s.servers, n, now) ==> LostBelow(h, s, s', y, n)
  }

  lemma KnownAfterRemoved(h: Hash, s: Nsas, elem: ZoneElement, n: Name, now: Time)
    requires IsKnown(h, s.servers, n, now) && !GoesWith(h, elem.entry.nameServers, n)
    ensures IsKnown(h, Removed(h, s, elem).servers, n, now)
  {
  }

  lemma UselessBefore(h: Hash, s: Nsas, s': Nsas, now: Time, z: Name, y: Name)
    requires z in s.zones && z !in s'.zones && s.zones[z].entry.zone == z && y in s.zones && |y| < |z|
    requires IsUseless(h, Removed(h, s, s.zones[z]), s', now, y)
    ensures IsUseless(h, s, s', now, y)
  {
    var r := Removed(h, s, s.zones[z]);
    if s.zones[y].entry.expireTime >= now {
      forall n | n in s.zones[y].entry.nameServers && IsKnown(h, s.servers, n, now) ensures LostBelow(h, s, s', y, n) {
        if !GoesWith(h, s.zones[z].entry.nameServers, n) {
          KnownAfterRemoved(h, s, s.zones[z], n, now);
          var w :| w in r.zones && w !in s'.zones && |w| > |y| && GoesWith(h, r.zones[w].entry.nameServers, n);
          assert s.zones[w] == r.zones[w];
        }
      }
    }
  }

  /** The zone found first, and that it goes too: y itself, or a zone below y. */
  lemma GoneFound(h: Hash, s: Nsas, name: Name, now: Time, y: Name) returns (z: Name)
    requires Inv(h, s) && y in s.zones && y !in Select(h, s, name, now).0.zones
    ensures Search(s.zones, name) == Some(z) && (y == z || |y| < |z|)
    ensures UsableOf(h, s, s.zones[z], now) == []
  {
    GoneEncloses(h, s, name, now, y);
    SearchDeepest(s.zones, name, y);
    z := Search(s.zones, name).value;
    if |y| == |z| {
      SameDepth(name, y, z);
    }
  }

  lemma SameDepth(name: Name, y: Name, z: Name)
    requires IsSubDomain(name, y) && IsSubDomain(name, z) && |y| == |z|
    ensures y == z
  {
    assert y == name[..|y|];
    assert z == name[..|z|];
  }

  lemma GoneEncloses(h: Hash, s: Nsas, name: Name, now: Time, y: Name)
    requires Inv(h, s) && y in s.zones && y !in Select(h, s, name, now).0.zones
    ensures IsSubDomain(name, y)
  {
    SelectLaws(h, s, name, now);
  }

  lemma GoneForGood(h: Hash, s: Nsas, name: Name, now: Time, y: Name)
    requires Inv(h, s) && y !in s.zones
    ensures y !in Select(h, s, name, now).0.zones
  {
    SelectLaws(h, s, name, now);
  }

  /** Main result: selection evicts no zone it could have used: one that goes had expired or
      had no unexpired server left once the zones below it were gone. */
  lemma {:induction false} SelectEvictsUseless(h: Hash, s: Nsas, name: Name, now: Time, y: Name)
    requires Inv(h, s) && y in s.zones && y !in Select(h, s, name, now).0.zones
    ensures IsUseless(h, s, Select(h, s, name, now).0, now, y)
    decreases |s.zones|
  {
    var z := GoneFound(h, s, name, now, y);
    var elem := s.zones[z];
    if y == z {
      UsableLaws(h, s.servers, z, elem.entry.nameServers, now);
    } else {
      RemovedInv(h, s, z);
      var r := Removed(h, s, elem);
      SelectEvictsUseless(h, r, name, now, y);
      GoneForGood(h, r, name, now, z);
      UselessBefore(h, s, Select(h, r, name, now).0, now, z, y);
    }
  }

  // ----- enforcement

  /** What is left of a stretch of the list once its expired zones are removed. */
  function Fresh(elems: seq<ZoneElement>, now: Time): (r: seq<ZoneElement>)
    ensures |r| <= |elems|
    ensures forall e | e in r :: e in elems
  {
    if elems == [] then []
    else (if Expired(elems[0].entry.expireTime, now) then [] else [elems[0]]) + Fresh(elems[1..], now)
  }

  /** The last elements of the list, at most a batch of them. */
  function BatchStart(n: nat): nat {
    if n > EXPIRED_ZONE_CHECK_BATCH then n - EXPIRED_ZONE_CHECK_BATCH else 0
  }

  function Batch(visited: seq<ZoneElement>): seq<ZoneElement> {
    visited[BatchStart(|visited|)..]
  }

  function ExpiredInBatch(visited: seq<ZoneElement>, now: Time): nat {
    |Batch(visited)| - |Fresh(Batch(visited), now)|
  }

  /** The list once everything from element k on has been looked at. */
  function LeftAt(all: seq<ZoneElement>, k: nat, now: Time): seq<ZoneElement>
    requires k <= |all|
  {
    all[..k] + Fresh(all[k..], now)
  }

  function AfterBatch(visited: seq<ZoneElement>, now: Time): seq<ZoneElement> {
    LeftAt(visited, BatchStart(|visited|), now)
  }

  /** Of the batch the first loop leaves those that have not expired, each as often as it
      was there. */
  lemma {:induction false} FreshCount(elems: seq<ZoneElement>, now: Time, e: ZoneElement)
    ensures multiset(Fresh(elems, now))[e] == if now <= e.entry.expireTime then multiset(elems)[e] else 0
  {
    if elems != [] {
      FreshCount(elems[1..], now, e);
      assert elems == [elems[0]] + elems[1..];
    }
  }

  /** And they stay in their order. */
  lemma {:induction false} FreshInOrder(elems: seq<ZoneElement>, more: seq<ZoneElement>, now: Time)
    ensures Fresh(elems + more, now) == Fresh(elems, now) + Fresh(more, now)
  {
    if elems == [] {
      assert elems + more == more;
    } else {
      assert (elems + more)[1..] == elems[1..] + more;
      FreshInOrder(elems[1..], more, now);
    }
  }

  /** The tree without the zones of the elements that left the list. */
  ghost predicate ZonesFollow(zones: ZoneTree, visited: seq<ZoneElement>, zones': ZoneTree, visited': seq<ZoneElement>) {
    && (forall e | e in visited' :: e in visited)
    && zones' == zones - set e | e in visited && e !in visited' :: e.entry.zone
  }

  lemma FollowStep(zones: ZoneTree, visited: seq<ZoneElement>, zones1: ZoneTree, visited1: seq<ZoneElement>, elem: ZoneElement)
    requires ZonesFollow(zones, visited, zones1, visited1) && elem in visited1
    ensures ZonesFollow(zones, visited, zones1 - {elem.entry.zone}, Without(visited1, elem))
  {
    var gone1 := set e | e in visited && e !in visited1 :: e.entry.zone;
    var gone := set e | e in visited && e !in Without(visited1, elem) :: e.entry.zone;
    assert gone == gone1 + {elem.entry.zone};
  }

  /** Worth asking for: not known, or known only from outside its zone. */
  predicate IsMissing(h: Hash, m: Servers, name: Name, now: Time) {
    IsKnown(h, m, name, now) ==> Get(h, m, name).value.trustLevel == OUT_OF_ZONE
  }

  function MissingOf(h: Hash, m: Servers, names: seq<Name>, now: Time): seq<Name> {
    if names == [] then []
    else
      var n := |names| - 1;
      MissingOf(h, m, names[..n], now) + if IsMissing(h, m, names[n], now) then [names[n]] else []
  }

  /** Every server name is known or missing, as often as it is listed; one trusted least
      is both. */
  lemma SortedServers(h: Hash, m: Servers, names: seq<Name>, now: Time, name: Name)
    ensures multiset(KnownOf(h, m, names, now))[name] == if IsKnown(h, m, name, now) then multiset(names)[name] else 0
    ensures multiset(MissingOf(h, m, names, now))[name] == if IsMissing(h, m, name, now) then multiset(names)[name] else 0
  {
    KnownCount(h, m, names, now, name);
    MissingCount(h, m, names, now, name);
  }

  lemma {:induction false} KnownCount(h: Hash, m: Servers, names: seq<Name>, now: Time, name: Name)
    ensures multiset(KnownOf(h, m, names, now))[name] == if IsKnown(h, m, name, now) then multiset(names)[name] else 0
  {
    if names != [] {
      KnownCount(h, m, names[1..], now, name);
      assert names == [names[0]] + names[1..];
    }
  }

  lemma {:induction false} MissingCount(h: Hash, m: Servers, names: seq<Name>, now: Time, name: Name)
    ensures multiset(MissingOf(h, m, names, now))[name] == if IsMissing(h, m, name, now) then multiset(names)[name] else 0
  {
    if names != [] {
      var n := |names| - 1;
      MissingCount(h, m, names[..n], now, name);
      assert names == names[..n] + [names[n]];
      CountOneMore(names[..n], names[n], true, name);
      CountOneMore(MissingOf(h, m, names[..n], now), names[n], IsMissing(h, m, names[n], now), name);
    }
  }

  lemma CountOneMore(names: seq<Name>, last: Name, taken: bool, name: Name)
    ensures multiset(names + if taken then [last] else [])[name] ==
            multiset(names)[name] + if taken && last == name then 1 else 0
  {
  }

  lemma SortStep(h: Hash, m: Servers, names: seq<Name>, i: nat, now: Time)
    requires i < |names|
    ensures MissingOf(h, m, names[..i + 1], now) ==
            MissingOf(h, m, names[..i], now) + if IsMissing(h, m, names[i], now) then [names[i]] else []
    ensures KnownOf(h, m, names[..i + 1], now) ==
            KnownOf(h, m, names[..i], now) + if IsKnown(h, m, names[i], now) then [names[i]] else []
  {
    assert names[..i + 1][..i] == names[..i];
    assert names[..i + 1] == names[..i] + [names[i]];
    KnownAppend(h, m, names[..i], names[i], now);
  }

  class NsasCache {
    var zones: ZoneTree
    var visitedZone: seq<ZoneElement>
    const nameServers: NameServerManager
    const maxCacheSize: nat

    ghost function State(): Nsas
      reads this, nameServers
    {
      Nsas(zones, visitedZone, nameServers.nsEntrys)
    }

    ghost predicate Valid()
      reads this, nameServers
    {
      maxCacheSize > 0 && Inv(nameServers.hash, State())
    }

    /** `NewNsasCache`. */
    constructor (hash: Hash, maxCacheSize: int)
      ensures Valid() && fresh(nameServers) && zones == map[] && visitedZone == []
      ensures this.maxCacheSize == if maxCacheSize <= 0 then DEFAULT_MAX_CACHE_SIZE else maxCacheSize
    {
      zones, visitedZone := map[], [];
      nameServers := new NameServerManager(hash);
      this.maxCacheSize := if maxCacheSize <= 0 then DEFAULT_MAX_CACHE_SIZE else maxCacheSize;
    }

    /** `removeZone`. */
    method RemoveZone(elem: ZoneElement)
      requires Valid()
      modifies this, nameServers
      ensures Valid() && State() == Removed(nameServers.hash, old(State()), elem)
    {
      TreeWithout(zones, visitedZone, elem);
      zones := zones - {elem.entry.zone};
      visitedZone := Without(visitedZone, elem);
      nameServers.DeleteNameServers(elem.entry.nameServers);
    }

    /** `selectNameServers`. */
    method SelectNameServers(name: Name, now: Time) returns (servers: seq<NameServer>)
      requires Valid()
      modifies this, nameServers
      ensures Valid() && (State(), servers) == Select(nameServers.hash, old(State()), name, now)
      decreases |zones|
    {
      var found := Search(zones, name);
      if found.None? {
        return [];
      }
      var elem := zones[found.value];
      RemovedInv(nameServers.hash, State(), found.value);
      servers := [];
      if !Expired(elem.entry.expireTime, now) {
        servers := ZoneSelectNameServer(elem.entry, nameServers, now);
      }
      if |servers| == 0 {
        RemoveZone(elem);
        servers := SelectNameServers(name, now);
      } else {
        MoveToFront(elem);
      }
    }

    /** `list.MoveToFront`. */
    method MoveToFront(elem: ZoneElement)
      requires Valid() && elem in visitedZone
      modifies this
      ensures Valid() && State() == old(State()).(visited := [elem] + Without(old(visitedZone), elem))
      ensures multiset(visitedZone) == multiset(old(visitedZone))
    {
      WithoutDistinct(visitedZone, elem);
      WithoutMultiset(visitedZone, elem);
      visitedZone := [elem] + Without(visitedZone, elem);
    }

    /** The loop of `addZone` over the server names. */
    method SortServers(names: seq<Name>, now: Time) returns (missing: seq<Name>, known: seq<Name>)
      ensures missing == MissingOf(nameServers.hash, nameServers.nsEntrys, names, now)
      ensures known == KnownOf(nameServers.hash, nameServers.nsEntrys, names, now)
    {
      missing, known := [], [];
      assert names[..0] == [];
      for i := 0 to |names|
        invariant missing == MissingOf(nameServers.hash, nameServers.nsEntrys, names[..i], now)
        invariant known == KnownOf(nameServers.hash, nameServers.nsEntrys, names[..i], now)
      {
        SortStep(nameServers.hash, nameServers.nsEntrys, names, i, now);
        var e := Get(nameServers.hash, nameServers.nsEntrys, names[i]);
        if e.None? || Expired(e.value.expireTime, now) {
          missing := missing + [names[i]];
        } else if e.value.trustLevel == OUT_OF_ZONE {
          missing, known := missing + [names[i]], known + [names[i]];
        } else {
          known := known + [names[i]];
        }
      }
      assert names[..|names|] == names;
    }

    /** The rest of `addZone`: an unexpired entry of higher trust stays; else a new element
        goes to the front of the list and into the tree, where `overwrites` says whether
        the tree lets it take the place of an element already there. */
    method AddZone(entry: ZoneEntry, now: Time, overwrites: bool) returns (added: bool)
      requires Valid()
      modifies this
      ensures Valid() && nameServers.nsEntrys == old(nameServers.nsEntrys)
      ensures added <==> !(entry.zone in old(zones) &&
                           !Expired(old(zones)[entry.zone].entry.expireTime, now) &&
                           old(zones)[entry.zone].entry.trustLevel > entry.trustLevel)
      ensures !added ==> zones == old(zones) && multiset(visitedZone) == multiset(old(visitedZone))
      ensures !added ==> visitedZone[..1] == [zones[entry.zone]]
      ensures added ==> |visitedZone| == |old(visitedZone)| + 1 && visitedZone[1..] == old(visitedZone)
      ensures added ==> fresh(visitedZone[0]) && visitedZone[0].entry == entry
      ensures added ==> zones == if overwrites || entry.zone !in old(zones)
                                 then old(zones)[entry.zone := visitedZone[0]] else old(zones)
    {
      if entry.zone in zones {
        var elem := zones[entry.zone];
        if !Expired(elem.entry.expireTime, now) && elem.entry.trustLevel > entry.trustLevel {
          MoveToFront(elem);
          return false;
        }
      }
      var elem := new ZoneElement(entry);
      visitedZone := [elem] + visitedZone;
      if overwrites || entry.zone !in zones {
        zones := zones[entry.zone := elem];
      }
      added := true;
    }

    /** The first loop of `EnforceMemoryLimit`: from the back, at most a batch. */
    method RemoveExpired(now: Time)
      requires Valid()
      modifies this, nameServers
      ensures Valid() && visitedZone == AfterBatch(old(visitedZone), now)
      ensures ZonesFollow(old(zones), old(visitedZone), zones, visitedZone)
    {
      ghost var (all, tree) := (visitedZone, zones);
      var i, k := 0, |visitedZone|;
      assert LeftAt(all, k, now) == all;
      while i < EXPIRED_ZONE_CHECK_BATCH && k > 0
        invariant 0 <= i <= EXPIRED_ZONE_CHECK_BATCH && 0 <= k && k + i == |all|
        invariant Valid() && visitedZone == LeftAt(all, k, now) && ZonesFollow(tree, all, zones, visitedZone)
      {
        LookAt(k, now, all, tree);
        i, k := i + 1, k - 1;
      }
    }

    /** One turn of that loop: element k - 1 goes if it has expired. */
    method LookAt(k: nat, now: Time, ghost all: seq<ZoneElement>, ghost tree: ZoneTree)
      requires Valid() && 0 < k <= |all| && visitedZone == LeftAt(all, k, now)
      requires ZonesFollow(tree, all, zones, visitedZone)
      modifies this, nameServers
      ensures Valid() && visitedZone == LeftAt(all, k - 1, now) && ZonesFollow(tree, all, zones, visitedZone)
    {
      BatchTurn(all, k, now, visitedZone);
      var elem := visitedZone[k - 1];
      if Expired(elem.entry.expireTime, now) {
        FollowStep(tree, all, zones, visitedZone, elem);
        RemoveZone(elem);
      }
    }

    /** The second loop: from the back, one element a turn; on an empty list it panics. */
    method RemoveOldest(count: nat) returns (panicked: bool)
      requires Valid()
      modifies this, nameServers
      ensures Valid() && (panicked <==> count > |old(visitedZone)|)
      ensures !panicked ==> visitedZone == old(visitedZone)[..|old(visitedZone)| - count]
      ensures !panicked ==> ZonesFollow(old(zones), old(visitedZone), zones, visitedZone)
    {
      ghost var all := visitedZone;
      for i := 0 to count
        invariant Valid() && i <= |all| && visitedZone == all[..|all| - i]
        invariant ZonesFollow(old(zones), all, zones, visitedZone)
      {
        if |visitedZone| == 0 {
          return true;
        }
        var elem := visitedZone[|visitedZone| - 1];
        WithoutLast(visitedZone);
        FollowStep(old(zones), all, zones, visitedZone, elem);
        RemoveZone(elem);
      }
      panicked := false;
    }

    /** `EnforceMemoryLimit`: it panics exactly when the batch holds more expired zones
        than the maximum; otherwise a list over the maximum ends exactly as many below it
        as zones had expired, having lost those and then the least recently used. */
    method EnforceMemoryLimit(now: Time) returns (panicked: bool)
      requires Valid()
      modifies this, nameServers
      ensures Valid()
      ensures |old(visitedZone)| <= maxCacheSize ==> !panicked && State() == old(State())
      ensures |old(visitedZone)| > maxCacheSize ==>
                (panicked <==> ExpiredInBatch(old(visitedZone), now) > maxCacheSize)
      ensures |old(visitedZone)| > maxCacheSize && !panicked ==>
                && |visitedZone| == maxCacheSize - ExpiredInBatch(old(visitedZone), now)
                && visitedZone <= AfterBatch(old(visitedZone), now)
      ensures !panicked ==> ZonesFollow(old(zones), old(visitedZone), zones, visitedZone)
      ensures maxCacheSize >= EXPIRED_ZONE_CHECK_BATCH ==> !panicked
    {
      var zoneCount := |visitedZone|;
      if zoneCount <= maxCacheSize {
        return false;
      }
      ghost var (zones0, all) := (zones, visitedZone);
      RemoveExpired(now);
      ghost var (zones1, rest) := (zones, visitedZone);
      panicked := RemoveOldest(zoneCount - maxCacheSize);
      if !panicked {
        FollowBoth(zones0, all, zones1, rest, zones, visitedZone);
      }
    }
  }

  lemma FollowBoth(a: ZoneTree, va: seq<ZoneElement>, b: ZoneTree, vb: seq<ZoneElement>, c: ZoneTree, vc: seq<ZoneElement>)
    requires ZonesFollow(a, va, b, vb) && ZonesFollow(b, vb, c, vc)
    ensures ZonesFollow(a, va, c, vc)
  {
    var goneB := set e | e in va && e !in vb :: e.entry.zone;
    var goneC := set e | e in vb && e !in vc :: e.entry.zone;
    var gone := set e | e in va && e !in vc :: e.entry.zone;
    assert gone == goneB + goneC;
  }

  /** One turn of the first loop: what the list is before and after looking at element k - 1. */
  lemma BatchTurn(all: seq<ZoneElement>, k: nat, now: Time, visited: seq<ZoneElement>)
    requires 0 < k <= |all| && visited == LeftAt(all, k, now) && Distinct(visited)
    ensures |visited| >= k && visited[k - 1] == all[k - 1]
    ensures LeftAt(all, k - 1, now) ==
            if Expired(all[k - 1].entry.expireTime, now) then Without(visited, all[k - 1]) else visited
  {
    var (front, rest) := (all[..k - 1], Fresh(all[k..], now));
    assert all[k - 1..][1..] == all[k..];
    assert all[..k] == front + [all[k - 1]];
    WithoutAt(visited, k - 1);
    Around(front, all[k - 1], rest);
  }

  lemma Around<T>(a: seq<T>, x: T, b: seq<T>)
    ensures (a + [x] + b)[..|a|] == a && (a + [x] + b)[|a| + 1..] == b
    ensures a + ([x] + b) == a + [x] + b
    ensures a + ([] + b) == a + b
  {
  }

  /** The tree is never larger than the list that is bounded. */
  lemma {:induction false} TreeFits(zones: ZoneTree, visited: seq<ZoneElement>)
    requires TreeListed(zones, visited)
    ensures |zones| <= |visited|
    decreases |visited|
  {
    if visited == [] {
      assert zones == map[] by {
        if z :| z in zones {
          assert false;
        }
      }
    } else {
      var e := visited[0];
      TreeWithout(zones, visited, e);
      WithoutAt(visited, 0);
      TreeFits(zones - {e.entry.zone}, Without(visited, e));
      assert (zones - {e.entry.zone}).Keys == zones.Keys - {e.entry.zone};
      assert |zones.Keys - {e.entry.zone}| + 1 >= |zones.Keys| == |zones|;
      assert |(zones - {e.entry.zone}).Keys| == |zones - {e.entry.zone}|;
    }
  }
}
