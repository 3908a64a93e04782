/** The published upstream list and the two ways of picking from it (src/upstream.cpp). */
module Upstreams {
  import opened Base
  import opened Sessions
  import opened Hashing

  datatype Endpoint = Endpoint(ip: u32, port: u16)
  datatype Policy = Mod | Rr
  datatype Ups = Ups(policy: Policy, nodes: seq<Endpoint>, counter: u64)

  const NO_UPSTREAMS := Ups(Mod, [], 0)

  /** `hash_key`: mixes source address and source port only. */
  function HashKey(key: FlowKey): u32 {
    Hash(key.srcIp, key.srcPort)
  }

  /** The position that `pick` chooses. */
  function Index(u: Ups, key: FlowKey): nat
    requires u.nodes != []
  {
    match u.policy
    case Rr => u.counter % |u.nodes|
    case Mod => HashKey(key) % |u.nodes|
  }

  /** `pick`: the round-robin counter moves only under that policy, and wraps at 64 bits. */
  function Pick(u: Ups, key: FlowKey): (Ups, Option<Endpoint>) {
    if u.nodes == [] then (u, None)
    else
      (if u.policy == Rr then u.(counter := (u.counter + 1) % 0x1_0000_0000_0000_0000) else u,
       Some(u.nodes[Index(u, key)]))
  }

  // ----------------------------------------------------- round-robin fairness

  /** How many of the picks `c, c+1, ..., c+k-1` land on position `i` of `n`. */
  ghost function Hits(c: nat, k: nat, n: nat, i: nat): nat
    requires 0 < n
  {
    if k == 0 then 0 else Hits(c, k - 1, n, i) + if (c + k - 1) % n == i then 1 else 0
  }

  lemma {:induction false} HitsSplit(c: nat, j: nat, k: nat, n: nat, i: nat)
    requires 0 < n
    ensures Hits(c, j + k, n, i) == Hits(c, j, n, i) + Hits(c + j, k, n, i)
    decreases k
  {
    if k > 0 {
      HitsSplit(c, j, k - 1, n, i);
      assert c + (j + k) - 1 == c + j + k - 1;
    }
  }

  lemma {:induction false} HitsBelow(k: nat, n: nat, i: nat)
    requires 0 < n && k <= n && i < n
    ensures Hits(0, k, n, i) == if i < k then 1 else 0
    decreases k
  {
    if k > 0 {
      HitsBelow(k - 1, n, i);
      DivModUnique(k - 1, n, 0, k - 1);
    }
  }

  lemma ModShift(c: nat, n: nat)
    requires 0 < n
    ensures (c + n) % n == c % n && (c + n) / n == c / n + 1
  {
    assert (c / n + 1) * n == c / n * n + n;
    DivModUnique(c + n, n, c / n + 1, c % n);
  }

  /** Any `n` consecutive picks visit every position exactly once. */
  lemma {:induction false} OneRound(c: nat, n: nat, i: nat)
    requires 0 < n && i < n
    ensures Hits(c, n, n, i) == 1
    decreases c
  {
    if c == 0 {
      HitsBelow(n, n, i);
    } else {
      OneRound(c - 1, n, i);
      HitsSplit(c - 1, 1, n - 1, n, i);
      HitsSplit(c, n - 1, 1, n, i);
      ModShift(c - 1, n);
      assert Hits(c - 1, 1, n, i) == Hits(c + n - 1, 1, n, i) by {
        assert Hits(c - 1, 1, n, i) == if (c - 1) % n == i then 1 else 0;
        assert Hits(c + n - 1, 1, n, i) == if (c + n - 1) % n == i then 1 else 0;
      }
    }
  }

  lemma {:induction false} HitsMonotone(c: nat, j: nat, k: nat, n: nat, i: nat)
    requires 0 < n && j <= k
    ensures Hits(c, j, n, i) <= Hits(c, k, n, i)
    decreases k - j
  {
    if j < k {
      HitsMonotone(c, j, k - 1, n, i);
    }
  }

  /** Over any `k` consecutive picks each position is chosen floor(k/n) or ceil(k/n) times. */
  lemma {:induction false} FairHits(c: nat, k: nat, n: nat, i: nat)
    requires 0 < n && i < n
    ensures k / n <= Hits(c, k, n, i) <= k / n + if k % n == 0 then 0 else 1
    decreases k
  {
    if k < n {
      HitsMonotone(c, k, n, n, i);
      OneRound(c, n, i);
      DivModUnique(k, n, 0, k);
    } else {
      HitsSplit(c, n, k - n, n, i);
      OneRound(c, n, i);
      FairHits(c + n, k - n, n, i);
      ModShift(k - n, n);
    }
  }

  /** The positions chosen by picks in a row from a fixed list, whatever the flows are. */
  ghost function Positions(u: Ups, keys: seq<FlowKey>): seq<nat>
    requires u.nodes != []
    ensures |Positions(u, keys)| == |keys|
  {
    if keys == [] then []
    else
      var k := |keys| - 1;
      Positions(u, keys[..k]) + [Index(PickedTo(u, keys[..k]), keys[k])]
  }

  ghost function PickedTo(u: Ups, keys: seq<FlowKey>): (r: Ups)
    ensures r.nodes == u.nodes
  {
    if keys == [] then u else Pick(PickedTo(u, keys[..|keys| - 1]), keys[|keys| - 1]).0
  }

  lemma RrPick(u: Ups, j: nat, key: FlowKey)
    requires u.policy == Rr && u.nodes != [] && u.counter + j + 1 < 0x1_0000_0000_0000_0000
    ensures var v := u.(counter := u.counter + j);
            && Index(v, key) == (u.counter + j) % |u.nodes|
            && Pick(v, key) == (u.(counter := u.counter + j + 1), Some(u.nodes[(u.counter + j) % |u.nodes|]))
  {
  }

  function PositionDue(c: nat, j: nat, n: nat): nat
    requires 0 < n
  {
    (c + j) % n
  }

  /** Pick number `j` of a round-robin run takes position `(counter + j) % n`. */
  lemma {:induction false} RrPicks(u: Ups, keys: seq<FlowKey>)
    requires u.policy == Rr && u.nodes != []
    requires u.counter + |keys| < 0x1_0000_0000_0000_0000
    ensures PickedTo(u, keys) == u.(counter := u.counter + |keys|)
    ensures forall j :: 0 <= j < |keys| ==> Positions(u, keys)[j] == PositionDue(u.counter, j, |u.nodes|)
  {
    if keys != [] {
      var k := |keys| - 1;
      RrPicks(u, keys[..k]);
      RrPick(u, k, keys[k]);
      assert Index(u.(counter := u.counter + k), keys[k]) == PositionDue(u.counter, k, |u.nodes|);
      hide Pick, PositionDue, Index;
    }
  }

  lemma {:induction false} OccurrencesHits(ps: seq<nat>, c: nat, n: nat, i: nat)
    requires i < n && forall j :: 0 <= j < |ps| ==> ps[j] == PositionDue(c, j, n)
    ensures Occurrences(ps, i) == Hits(c, |ps|, n, i)
    decreases |ps|
  {
    if ps != [] {
      var k := |ps| - 1;
      OccurrencesHits(ps[..k], c, n, i);
      assert ps[k] == PositionDue(c, k, n);
    }
  }

  /** Fairness of the picker itself: over `k` picks from a list of `n` each position gets its share. */
  lemma RrFair(u: Ups, keys: seq<FlowKey>, i: nat)
    requires u.policy == Rr && i < |u.nodes|
    requires u.counter + |keys| < 0x1_0000_0000_0000_0000
    ensures var k, n := |keys|, |u.nodes|;
            k / n <= Occurrences(Positions(u, keys), i) <= k / n + if k % n == 0 then 0 else 1
  {
    hide Occurrences, Positions, PickedTo, Hits, PositionDue;
    RrPicks(u, keys);
    OccurrencesHits(Positions(u, keys), u.counter, |u.nodes|, i);
    FairHits(u.counter, |keys|, |u.nodes|, i);
  }

  // -------------------------------------------------------- balance under `mod`

  /** Under `mod` the choice depends on source address and source port alone. */
  lemma ModDependsOnSource(u: Ups, k: FlowKey, l: FlowKey)
    requires u.policy == Mod && u.nodes != [] && k.srcIp == l.srcIp && k.srcPort == l.srcPort
    ensures Pick(u, k) == Pick(u, l) && Pick(u, k).0 == u
    ensures Pick(u, k).1 == Some(u.nodes[Hash(k.srcIp, k.srcPort) % |u.nodes|])
  {
    hide Hash;
  }

  /** The words below `m` with remainder `i`. */
  ghost function WithRemainder(m: nat, n: nat, i: nat): set<int>
    requires 0 < n
  {
    set v: int | 0 <= v < m && v % n == i
  }

  lemma {:induction false} RemainderCount(m: nat, n: nat, i: nat)
    requires 0 < n
    ensures |WithRemainder(m, n, i)| == Hits(0, m, n, i)
  {
    if m > 0 {
      RemainderCount(m - 1, n, i);
      var before, after := WithRemainder(m - 1, n, i), WithRemainder(m, n, i);
      if (m - 1) % n == i {
        assert after == before + {m - 1};
      } else {
        assert after == before;
      }
    }
  }

  /** Addresses that a flow from source port `port` may have, hashed. */
  ghost function Hashes(ips: set<u32>, port: u16): set<int> {
    set ip | ip in ips :: Hash(ip, port) as int
  }

  lemma {:induction false} HashesCount(ips: set<u32>, port: u16)
    ensures |Hashes(ips, port)| == |ips|
    decreases |ips|
  {
    hide Hash;
    if ips != {} {
      var ip :| ip in ips;
      var rest := ips - {ip};
      HashesCount(rest, port);
      forall x | x in rest
        ensures Hash(x, port) != Hash(ip, port)
      {
        if Hash(x, port) == Hash(ip, port) {
          HashInjective(x, ip, port);
        }
      }
      assert ips == rest + {ip};
      assert Hashes(ips, port) == Hashes(rest, port) + {Hash(ip, port) as int};
    }
  }

  /** The source addresses that `mod` sends to position `i` of `n`. */
  ghost function SentTo(port: u16, n: nat, i: nat): set<u32>
    requires 0 < n
  {
    set ip: u32 | Hash(ip, port) % n == i
  }

  lemma SentToHashes(port: u16, n: nat, i: nat)
    requires 0 < n
    ensures Hashes(SentTo(port, n, i), port) == WithRemainder(WORD, n, i)
  {
    hide Hash, Unhash;
    forall v | v in WithRemainder(WORD, n, i)
      ensures v in Hashes(SentTo(port, n, i), port)
    {
      HashUnhash(v, port);
      assert Unhash(v, port) in SentTo(port, n, i);
    }
  }

  /**
   Balance of the default policy: for any source port, of all 2^32 source addresses each of `n` positions
   gets floor(2^32/n) or ceil(2^32/n).
   */
  lemma ModBalanced(port: u16, n: nat, i: nat)
    requires 0 < n && i < n
    ensures WORD / n <= |SentTo(port, n, i)| <= WORD / n + if WORD % n == 0 then 0 else 1
  {
    hide Hash, Hits;
    SentToHashes(port, n, i);
    HashesCount(SentTo(port, n, i), port);
    RemainderCount(WORD, n, i);
    FairHits(0, WORD, n, i);
  }
}

module UpstreamTables {
  import opened Base
  import opened Sessions
  import opened Upstreams

  class UpstreamTable {
    var policy: Policy
    var nodes: seq<Endpoint>
    var counter: u64

    ghost function State(): Ups
      reads this
    {
      Ups(policy, nodes, counter)
    }

    constructor ()
      ensures State() == NO_UPSTREAMS
    {
      policy, nodes, counter := Mod, [], 0;
    }

    method Set(endpoints: seq<Endpoint>)
      modifies this
      ensures State() == old(State()).(nodes := endpoints)
    {
      nodes := endpoints;
    }

    method SetPolicy(p: Policy)
      modifies this
      ensures State() == old(State()).(policy := p)
    {
      policy := p;
    }

    method Pick(key: FlowKey) returns (r: Option<Endpoint>)
      modifies this
      ensures (State(), r) == Upstreams.Pick(old(State()), key)
    {
      if nodes == [] { return None; }
      var index;
      if policy == Rr {
        index := counter % |nodes|;
        counter := (counter + 1) % 0x1_0000_0000_0000_0000;
      } else {
        index := HashKey(key) % |nodes|;
      }
      return Some(nodes[index]);
    }
  }
}
