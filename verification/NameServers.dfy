/** Name servers of the recursor: addresses with round-trip times, entries with trust
    and expiry, filed by name hash, and the servers a cached zone can use. */
module NameServers {
  import opened Dns

  type Hash = Name -> uint32
  /** A clock that never goes back. */
  type Time = nat
  /** From outside its zone (0), from a referral (1), or authoritative (2). */
  type TrustLevel = t: nat | t <= 2

  const OUT_OF_ZONE: TrustLevel := 0

  datatype AddressEntry = AddressEntry(addr: string, rtt: int)

  datatype NameServerEntry =
    NameServerEntry(name: Name, addrs: seq<AddressEntry>, expireTime: Time, trustLevel: TrustLevel)

  datatype NameServer = NameServer(zone: Name, name: Name, addr: string, rtt: int)

  datatype ZoneEntry =
    ZoneEntry(zone: Name, nameServers: seq<Name>, expireTime: Time, trustLevel: TrustLevel)

  predicate Expired(expireTime: Time, now: Time) {
    expireTime < now
  }

  // ----- one server

  /** The first of the addresses with the smallest round-trip time. */
  ghost predicate IsFastest(addrs: seq<AddressEntry>, i: nat) {
    && i < |addrs|
    && (forall j | 0 <= j < |addrs| :: addrs[i].rtt <= addrs[j].rtt)
    && (forall j | 0 <= j < i :: addrs[i].rtt < addrs[j].rtt)
  }

  ghost predicate IsFastestServer(e: NameServerEntry, zone: Name, s: NameServer) {
    exists i: nat :: IsFastest(e.addrs, i) && s == NameServer(zone, e.name, e.addrs[i].addr, e.addrs[i].rtt)
  }

  function Fastest(addrs: seq<AddressEntry>): (i: nat)
    requires addrs != []
    ensures IsFastest(addrs, i)
  {
    if |addrs| == 1 then 0
    else
      var n := |addrs| - 1;
      var i := Fastest(addrs[..n]);
      if addrs[n].rtt < addrs[i].rtt then n else i
  }

  lemma OneFastest(addrs: seq<AddressEntry>, i: nat, j: nat)
    requires IsFastest(addrs, i) && IsFastest(addrs, j)
    ensures i == j
  {
    assert addrs[i].rtt <= addrs[j].rtt && addrs[j].rtt <= addrs[i].rtt;
  }

  function ServerOf(e: NameServerEntry, zone: Name): NameServer
    requires e.addrs != []
  {
    var best := e.addrs[Fastest(e.addrs)];
    NameServer(zone, e.name, best.addr, best.rtt)
  }

  /** `NameServerEntry.selectNameServer`, with the zone its caller fills in. */
  method SelectNameServer(e: NameServerEntry, zone: Name) returns (s: NameServer)
    requires e.addrs != []
    ensures s == ServerOf(e, zone)
    ensures IsFastestServer(e, zone, s)
  {
    var k, minRtt := 0, e.addrs[0].rtt;
    for i := 1 to |e.addrs|
      invariant IsFastest(e.addrs[..i], k) && minRtt == e.addrs[k].rtt
    {
      var rtt := e.addrs[i].rtt;
      if rtt < minRtt {
        minRtt, k := rtt, i;
      }
    }
    assert e.addrs[..|e.addrs|] == e.addrs;
    OneFastest(e.addrs, k, Fastest(e.addrs));
    s := NameServer(zone, e.name, e.addrs[k].addr, minRtt);
  }

  // ----- the manager

  type Servers = map<uint32, NameServerEntry>

  /** Every entry is filed under its own name's hash and has an address. */
  ghost predicate ServersInv(h: Hash, m: Servers) {
    forall k | k in m :: h(m[k].name) == k && m[k].addrs != []
  }

  /** `getNameServer`: a colliding entry of another name is a miss. */
  function Get(h: Hash, m: Servers, name: Name): Option<NameServerEntry> {
    if h(name) in m && m[h(name)].name == name then Some(m[h(name)]) else None
  }

  function Put(h: Hash, m: Servers, e: NameServerEntry, now: Time): Servers {
    var k := h(e.name);
    if k in m && !Expired(m[k].expireTime, now) && m[k].trustLevel >= e.trustLevel then m else m[k := e]
  }

  function Drop(h: Hash, m: Servers, names: seq<Name>): Servers {
    m - set n | n in names :: h(n)
  }

  class NameServerManager {
    const hash: Hash
    var nsEntrys: Servers

    constructor (hash: Hash)
      ensures nsEntrys == map[] && this.hash == hash
    {
      this.hash, nsEntrys := hash, map[];
    }

    /** `addNameServer`; without addresses the source panics. */
    method AddNameServer(e: NameServerEntry, now: Time) returns (panicked: bool)
      requires ServersInv(hash, nsEntrys)
      modifies this
      ensures ServersInv(hash, nsEntrys)
      ensures panicked <==> e.addrs == []
      ensures nsEntrys == if panicked then old(nsEntrys) else Put(hash, old(nsEntrys), e, now)
    {
      if |e.addrs| == 0 {
        return true;
      }
      var key := hash(e.name);
      if key in nsEntrys {
        var was := nsEntrys[key];
        if !Expired(was.expireTime, now) && was.trustLevel >= e.trustLevel {
          return false;
        }
      }
      nsEntrys := nsEntrys[key := e];
      panicked := false;
    }

    /** `deleteNameServers`. */
    method DeleteNameServers(names: seq<Name>)
      requires ServersInv(hash, nsEntrys)
      modifies this
      ensures ServersInv(hash, nsEntrys) && nsEntrys == Drop(hash, old(nsEntrys), names)
    {
      assert names[..0] == [];
      for i := 0 to |names|
        invariant nsEntrys == Drop(hash, old(nsEntrys), names[..i])
      {
        assert forall n :: n in names[..i + 1] <==> n in names[..i] || n == names[i];
        nsEntrys := nsEntrys - {hash(names[i])};
      }
      assert names[..|names|] == names;
    }
  }

  /** A kept entry was unexpired and at least as trusted: trust never falls while an
      entry lives, and what was just added is found unless such an entry was there. */
  lemma PutLaws(h: Hash, m: Servers, e: NameServerEntry, now: Time)
    requires ServersInv(h, m)
    ensures var kept := h(e.name) in m && !Expired(m[h(e.name)].expireTime, now) && m[h(e.name)].trustLevel >= e.trustLevel;
            && (!kept ==> Get(h, Put(h, m, e, now), e.name) == Some(e))
            && (kept ==> Put(h, m, e, now) == m)
            && (forall n | h(n) != h(e.name) :: Get(h, Put(h, m, e, now), n) == Get(h, m, n))
  {
  }

  // ----- one zone

  function UsableOne(h: Hash, m: Servers, zone: Name, name: Name, now: Time): seq<NameServer>
    requires ServersInv(h, m)
  {
    match Get(h, m, name)
    case Some(e) => if Expired(e.expireTime, now) then [] else [ServerOf(e, zone)]
    case None => []
  }

  function Usable(h: Hash, m: Servers, zone: Name, names: seq<Name>, now: Time): seq<NameServer>
    requires ServersInv(h, m)
  {
    if names == [] then []
    else Usable(h, m, zone, names[..|names| - 1], now) + UsableOne(h, m, zone, names[|names| - 1], now)
  }

  /** An unexpired server of the zone, at its entry's fastest address. */
  ghost predicate IsUsable(h: Hash, m: Servers, zone: Name, names: seq<Name>, now: Time, s: NameServer) {
    && s.name in names
    && Get(h, m, s.name).Some?
    && now <= Get(h, m, s.name).value.expireTime
    && IsFastestServer(Get(h, m, s.name).value, zone, s)
  }

  /** The cache has an entry of the name that has not expired. */
  predicate IsKnown(h: Hash, m: Servers, name: Name, now: Time) {
    Get(h, m, name).Some? && now <= Get(h, m, name).value.expireTime
  }

  /** The known names, in the order and as often as they are listed. */
  function KnownOf(h: Hash, m: Servers, names: seq<Name>, now: Time): seq<Name> {
    if names == [] then []
    else (if IsKnown(h, m, names[0], now) then [names[0]] else []) + KnownOf(h, m, names[1..], now)
  }

  lemma {:induction false} KnownAppend(h: Hash, m: Servers, names: seq<Name>, name: Name, now: Time)
    ensures KnownOf(h, m, names + [name], now) ==
            KnownOf(h, m, names, now) + if IsKnown(h, m, name, now) then [name] else []
  {
    if names == [] {
      assert names + [name] == [name];
    } else {
      KnownAppend(h, m, names[1..], name, now);
      assert (names + [name])[1..] == names[1..] + [name];
    }
  }

  function NamesOf(servers: seq<NameServer>): seq<Name> {
    seq(|servers|, i requires 0 <= i < |servers| => servers[i].name)
  }

  /** The servers of a zone are exactly its known ones, in order and as often as listed,
      each at the fastest address of its entry. */
  lemma {:induction false} UsableLaws(h: Hash, m: Servers, zone: Name, names: seq<Name>, now: Time)
    requires ServersInv(h, m)
    ensures NamesOf(Usable(h, m, zone, names, now)) == KnownOf(h, m, names, now)
    ensures forall s | s in Usable(h, m, zone, names, now) :: IsUsable(h, m, zone, names, now, s)
    ensures Usable(h, m, zone, names, now) == [] <==> forall n | n in names :: !IsKnown(h, m, n, now)
  {
    if names != [] {
      var n := |names| - 1;
      UsableLaws(h, m, zone, names[..n], now);
      assert names == names[..n] + [names[n]];
      KnownAppend(h, m, names[..n], names[n], now);
      forall s | s in UsableOne(h, m, zone, names[n], now) ensures IsUsable(h, m, zone, names, now, s) {
        assert IsFastest(Get(h, m, names[n]).value.addrs, Fastest(Get(h, m, names[n]).value.addrs));
      }
    }
  }

  /** `ZoneEntry.selectNameServer`. */
  method ZoneSelectNameServer(e: ZoneEntry, manager: NameServerManager, now: Time) returns (servers: seq<NameServer>)
    requires ServersInv(manager.hash, manager.nsEntrys)
    ensures servers == Usable(manager.hash, manager.nsEntrys, e.zone, e.nameServers, now)
  {
    servers := [];
    assert e.nameServers[..0] == [];
    for i := 0 to |e.nameServers|
      invariant servers == Usable(manager.hash, manager.nsEntrys, e.zone, e.nameServers[..i], now)
    {
      assert e.nameServers[..i + 1][..i] == e.nameServers[..i];
      var ns := Get(manager.hash, manager.nsEntrys, e.nameServers[i]);
      if ns.Some? && !Expired(ns.value.expireTime, now) {
        var server := SelectNameServer(ns.value, e.zone);
        servers := servers + [server];
      }
    }
    assert e.nameServers[..|e.nameServers|] == e.nameServers;
  }
}
