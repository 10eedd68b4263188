/** Searching a cluster after any sequence of writes: the gathered answer is that of one
    index which took the same writes. */
module ClusterSearch {
  import opened KeyTable
  import opened TopK
  import opened Cluster
  import Gather

  /** Distance of a stored vector to the query. */
  type Distance = Vector -> real

  /** The hits a table holds for the query: its live entries. */
  ghost function LiveHits(t: Table, dist: Distance): set<Hit> {
    set k | k in t.entries && !t.entries[k].deleted :: Hit(k, dist(t.entries[k].vector))
  }

  ghost function OwnedHits(all: set<Hit>, owner: Owner, i: nat): set<Hit> {
    set h | h in all && owner(h.key) == i
  }

  ghost function HitsFrom(all: set<Hit>, owner: Owner, m: nat): set<Hit> {
    set h | h in all && owner(h.key) >= m
  }

  lemma SliceHits(shard: Table, single: Table, i: nat, owner: Owner, dist: Distance)
    requires Slice(shard, single, i, owner)
    ensures LiveHits(shard, dist) == OwnedHits(LiveHits(single, dist), owner, i)
  {
  }

  lemma OneMoreShard(all: set<Hit>, owner: Owner, m: nat)
    ensures multiset(HitsFrom(all, owner, m))
         == multiset(OwnedHits(all, owner, m)) + multiset(HitsFrom(all, owner, m + 1))
  {
    var a, b := OwnedHits(all, owner, m), HitsFrom(all, owner, m + 1);
    assert HitsFrom(all, owner, m) == a + b && a !! b;
  }

  /** Shard i answered and holds what table i holds. */
  ghost predicate Serves(shards: seq<Gather.Shard>, tables: seq<Table>, dist: Distance) {
    && |shards| == |tables|
    && forall i :: 0 <= i < |shards| ==>
         shards[i].reply.Answer? && shards[i].holds == multiset(LiveHits(tables[i], dist))
  }

  lemma {:induction false} TotalFrom(owner: Owner, tables: seq<Table>, single: Table, dist: Distance,
                                     shards: seq<Gather.Shard>, m: nat)
    requires Owns(owner, |tables|) && Refines(owner, tables, single) && Serves(shards, tables, dist) && m <= |shards|
    ensures Gather.Reachable(shards[m..]) == multiset(HitsFrom(LiveHits(single, dist), owner, m))
    decreases |shards| - m
  {
    var all := LiveHits(single, dist);
    if m == |shards| {
      assert HitsFrom(all, owner, m) == {};
    } else {
      TotalFrom(owner, tables, single, dist, shards, m + 1);
      Gather.TotalCons(shards[m..]);
      assert shards[m..][1..] == shards[m + 1..];
      assert SliceAt(owner, tables, single, m);
      SliceHits(tables[m], single, m, owner, dist);
      OneMoreShard(all, owner, m);
    }
  }

  /** Together the shards hold exactly the hits of the one index. */
  lemma ShardsHoldEverything(owner: Owner, tables: seq<Table>, single: Table, dist: Distance, shards: seq<Gather.Shard>)
    requires Owns(owner, |tables|) && Refines(owner, tables, single) && Serves(shards, tables, dist)
    ensures Gather.Reachable(shards) == multiset(LiveHits(single, dist)) && Gather.Failures(shards) == 0
  {
    TotalFrom(owner, tables, single, dist, shards, 0);
    assert shards[0..] == shards && HitsFrom(LiveHits(single, dist), owner, 0) == LiveHits(single, dist);
    NoFailures(shards);
  }

  lemma {:induction false} NoFailures(shards: seq<Gather.Shard>)
    requires forall i :: 0 <= i < |shards| ==> shards[i].reply.Answer?
    ensures Gather.Failures(shards) == 0
  {
    if shards != [] {
      NoFailures(shards[1..]);
    }
  }

  /** Any writes whose keys fit their shards, then a search: whatever the order in which the
      shards answer, each exactly, the gathered answer is a k nearest list of the one index. */
  method SearchAfterWrites(dim: nat, capacities: seq<nat>, ops: seq<Write>, ghost dist: Distance,
                           ghost shards: seq<Gather.Shard>, arrivals: seq<Gather.Shard>, k: nat, allowPartial: bool)
    returns (r: Gather.Result)
    requires capacities != []
    requires KeysFit(HashOwner(|capacities|), dim, capacities, ops)
    requires Serves(shards, RouteAll(HashOwner(|capacities|), EmptyShards(dim, capacities), ops).0, dist)
    requires multiset(arrivals) == multiset(shards) && Gather.ExactShards(shards, k)
    ensures r.Gathered? && r.failed == 0
    ensures IsTopK(multiset(LiveHits(DirectAll(OneIndex(dim, capacities), ops).0, dist)), k, r.results)
  {
    ghost var owner, single := HashOwner(|capacities|), DirectAll(OneIndex(dim, capacities), ops).0;
    ClusterIsOneIndex(dim, capacities, ops);
    ShardsHoldEverything(owner, RouteAll(owner, EmptyShards(dim, capacities), ops).0, single, dist, shards);
    Gather.ArrivalOrderIrrelevant(arrivals, shards);
    Gather.ArrivalKeepsExactness(shards, arrivals, k);
    r := Gather.Search(arrivals, k, allowPartial);
  }
}
