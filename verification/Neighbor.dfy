/** IPv4 to MAC cache with static seeds and expiring learned entries (src/neighbor.cpp). */
module Neighbors {
  import opened Base
  import opened Packet

  datatype Entry = Entry(mac: Mac, lastSeen: u64, isStatic: bool)

  type Cache = map<u32, Entry>

  function Learn(c: Cache, ip: u32, mac: Mac, now: u64): Cache {
    if ip in c && c[ip].isStatic then c else c[ip := Entry(mac, now, false)]
  }

  predicate Stale(e: Entry, timeout: u64, now: u64) {
    !e.isStatic && Age(now, e.lastSeen) >= timeout
  }

  /** `expire`: only stale learned entries go. */
  function Expire(c: Cache, timeout: u64, now: u64): Cache {
    map ip | ip in c && !Stale(c[ip], timeout, now) :: c[ip]
  }

  /**
   An address seen at `since` is still cached: by a static entry or by a learned one that is
   at least as recent.
   */
  ghost predicate KnownSince(c: Cache, ip: u32, since: u64) {
    ip in c && (c[ip].isStatic || since <= c[ip].lastSeen)
  }

  /** Expiry cannot remove an address seen less than the timeout ago, the clock being monotone. */
  lemma ExpireKeepsKnown(c: Cache, ip: u32, since: u64, timeout: u64, now: u64)
    requires KnownSince(c, ip, since)
    requires forall e :: e in c ==> c[e].lastSeen <= now
    requires now < since + timeout
    ensures KnownSince(Expire(c, timeout, now), ip, since)
  {
  }
}

/** The cache as the program keeps it. */
module NeighborTables {
  import opened Base
  import opened Packet
  import opened Neighbors

  class NeighborTable {
    const timeout: u64
    var entries: Cache

    constructor (timeout: u64)
      ensures this.timeout == timeout && entries == map[]
    {
      this.timeout := timeout;
      entries := map[];
    }

    method Seed(ip: u32, mac: Mac)
      modifies this
      ensures entries == old(entries)[ip := Entry(mac, 0, true)]
    {
      entries := entries[ip := Entry(mac, 0, true)];
    }

    method Lookup(ip: u32) returns (r: Option<Mac>)
      ensures r == (if ip in entries then Some(entries[ip].mac) else None)
    {
      if ip !in entries { return None; }
      return Some(entries[ip].mac);
    }

    method Learn(ip: u32, mac: Mac, now: u64)
      modifies this
      ensures entries == Neighbors.Learn(old(entries), ip, mac, now)
    {
      if ip in entries && entries[ip].isStatic { return; }
      entries := entries[ip := Entry(mac, now, false)];
    }

    /** Visits every entry once, in whatever order the hash table has, erasing as it goes. */
    method Expire(now: u64)
      modifies this
      ensures entries == Neighbors.Expire(old(entries), timeout, now)
    {
      var todo := entries.Keys;
      while todo != {}
        invariant todo <= entries.Keys <= old(entries).Keys
        invariant forall ip :: ip in entries ==> entries[ip] == old(entries)[ip]
        invariant forall ip :: ip in old(entries) && !Stale(old(entries)[ip], timeout, now) ==> ip in entries
        invariant forall ip :: ip in entries && ip !in todo ==> !Stale(old(entries)[ip], timeout, now)
        decreases todo
      {
        var ip :| ip in todo;
        todo := todo - {ip};
        if !entries[ip].isStatic && Age(now, entries[ip].lastSeen) >= timeout {
          entries := entries - {ip};
        }
      }
    }
  }
}
