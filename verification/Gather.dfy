/** Scatter-gather search: every shard is asked for its k nearest, the answers are collected
    in whatever order they arrive, sorted by distance and cut to k. */
module Gather {
  import opened Bytes
  import opened KeyTable
  import opened TopK

  datatype Reply = Answer(hits: seq<Hit>) | Failure

  /** One shard: the hits it stores for the query, and what it replied. */
  datatype Shard = Shard(holds: multiset<Hit>, reply: Reply)

  datatype Result = Gathered(results: seq<Hit>, queried: nat, failed: nat) | Aborted

  function ListOf(s: Shard): seq<Hit> {
    if s.reply.Answer? then s.reply.hits else []
  }

  /** What a shard contributes to the search: nothing if it failed. */
  function PartOf(s: Shard): multiset<Hit> {
    if s.reply.Answer? then s.holds else multiset{}
  }

  function Lists(shards: seq<Shard>): seq<seq<Hit>> {
    seq(|shards|, i requires 0 <= i < |shards| => ListOf(shards[i]))
  }

  function Parts(shards: seq<Shard>): seq<multiset<Hit>> {
    seq(|shards|, i requires 0 <= i < |shards| => PartOf(shards[i]))
  }

  /** All answers, in order of arrival. */
  function Concatenated(shards: seq<Shard>): seq<Hit> {
    if shards == [] then [] else ListOf(shards[0]) + Concatenated(shards[1..])
  }

  function Failures(shards: seq<Shard>): nat {
    if shards == [] then 0 else (if shards[0].reply.Failure? then 1 else 0) + Failures(shards[1..])
  }

  /** Shards that answered; together with the failed ones, all that were asked. */
  function Healthy(shards: seq<Shard>): (n: nat)
    ensures n + Failures(shards) == |shards|
  {
    if shards == [] then 0 else (if shards[0].reply.Answer? then 1 else 0) + Healthy(shards[1..])
  }

  /** Everything the healthy shards hold. */
  ghost function Reachable(shards: seq<Shard>): multiset<Hit> {
    Total(Parts(shards))
  }

  /** Every shard that answers returns its exact k nearest. */
  ghost predicate ExactShards(shards: seq<Shard>, k: nat) {
    forall s :: s in shards && s.reply.Answer? ==> IsTopK(s.holds, k, s.reply.hits)
  }

  /** What there is to merge: a hit occurs in it as often as in the replies of the shards that
      answered. */
  ghost function TimesAnswered(shards: seq<Shard>, x: Hit): nat {
    if shards == [] then 0
    else (match shards[0].reply case Answer(hits) => multiset(hits)[x] case Failure => 0) + TimesAnswered(shards[1..], x)
  }

  lemma {:induction false} ConcatenatedHits(shards: seq<Shard>, x: Hit)
    ensures multiset(Concatenated(shards))[x] == TimesAnswered(shards, x)
  {
    if shards != [] {
      ConcatenatedHits(shards[1..], x);
    }
  }

  /** sort.Slice by distance: ascending, the same hits; how ties are ordered is left open. */
  method SortByDistance(all: seq<Hit>) returns (sorted: seq<Hit>)
    ensures ByDistance(sorted) && multiset(sorted) == multiset(all)
  {
    sorted := [];
    for i := 0 to |all|
      invariant ByDistance(sorted) && multiset(sorted) == multiset(all[..i])
    {
      assert all[..i + 1] == all[..i] + [all[i]];
      sorted := InsertByDistance(sorted, all[i]);
    }
    assert all[..|all|] == all;
  }

  method InsertByDistance(s: seq<Hit>, x: Hit) returns (out: seq<Hit>)
    requires ByDistance(s)
    ensures ByDistance(out) && multiset(out) == multiset(s) + multiset{x}
  {
    var j := 0;
    while j < |s| && s[j].dist <= x.dist
      invariant j <= |s| && forall i :: 0 <= i < j ==> s[i].dist <= x.dist
    {
      j := j + 1;
    }
    out := s[..j] + [x] + s[j..];
    InsertedInOrder(s, x, j);
  }

  lemma InsertedInOrder(s: seq<Hit>, x: Hit, j: nat)
    requires ByDistance(s) && j <= |s| && (forall i :: 0 <= i < j ==> s[i].dist <= x.dist) && (j < |s| ==> x.dist <= s[j].dist)
    ensures ByDistance(s[..j] + [x] + s[j..]) && multiset(s[..j] + [x] + s[j..]) == multiset(s) + multiset{x}
  {
    var out := s[..j] + [x] + s[j..];
    forall a, b | 0 <= a < b < |out| ensures out[a].dist <= out[b].dist {
      assert out[a] == if a < j then s[a] else if a == j then x else s[a - 1];
      assert out[b] == if b < j then s[b] else if b == j then x else s[b - 1];
    }
    InsertedOnce(s[..j], x, s[j..]);
    assert s == s[..j] + s[j..];
  }

  lemma InsertedOnce(a: seq<Hit>, x: Hit, b: seq<Hit>)
    ensures multiset(a + [x] + b) == multiset(a + b) + multiset{x}
  {
  }

  lemma CollectMore(all: seq<Hit>, hits: seq<Hit>, later: seq<Hit>)
    ensures all + (hits + later) == (all + hits) + later
  {
  }

  /** The replies collected in the order they arrive. */
  method Collect(arrivals: seq<Shard>) returns (all: seq<Hit>, failed: nat)
    ensures all == Concatenated(arrivals) && failed == Failures(arrivals)
  {
    all, failed := [], 0;
    assert arrivals[0..] == arrivals;
    for i := 0 to |arrivals|
      invariant all + Concatenated(arrivals[i..]) == Concatenated(arrivals)
      invariant failed + Failures(arrivals[i..]) == Failures(arrivals)
    {
      assert arrivals[i..][1..] == arrivals[i + 1..];
      match arrivals[i].reply {
        case Failure =>
          failed := failed + 1;
        case Answer(hits) =>
          CollectMore(all, hits, Concatenated(arrivals[i + 1..]));
          all := all + hits;
      }
    }
    assert arrivals[|arrivals|..] == [] && all + [] == all;
  }

  /** Search, with the replies in the order they arrive. A failed shard aborts the search
      unless partial answers are allowed; then it only counts. Whatever the healthy shards answered,
      the result is a k nearest list of it; if they answered their exact k nearest, it is one of all
      they hold. */
  method Search(arrivals: seq<Shard>, k: nat, allowPartial: bool) returns (r: Result)
    ensures r.Aborted? <==> !allowPartial && Failures(arrivals) > 0
    ensures r.Gathered? ==>
      && r.queried == |arrivals| == Healthy(arrivals) + r.failed && r.failed == Failures(arrivals)
      && IsTopK(multiset(Concatenated(arrivals)), k, r.results)
      && (ExactShards(arrivals, k) ==> IsTopK(Reachable(arrivals), k, r.results))
  {
    var all, failed := Collect(arrivals);
    if failed > 0 && !allowPartial {
      return Aborted;
    }
    var sorted := SortByDistance(all);
    var results := if |sorted| > k then sorted[..k] else sorted;
    assert results == sorted[..Min(k, |sorted|)];
    PrefixIsTopK(sorted, k);
    if ExactShards(arrivals, k) {
      ExactAnswers(arrivals, k);
      ConcatenatedIsFlat(arrivals);
      MergeIsTopK(Parts(arrivals), k, Lists(arrivals), sorted);
    }
    return Gathered(results, |arrivals|, failed);
  }

  lemma {:induction false} ConcatenatedIsFlat(shards: seq<Shard>)
    ensures Concatenated(shards) == Flatten(Lists(shards))
  {
    if shards != [] {
      assert Lists(shards)[1..] == Lists(shards[1..]);
      ConcatenatedIsFlat(shards[1..]);
    }
  }

  lemma ExactAnswers(shards: seq<Shard>, k: nat)
    requires ExactShards(shards, k)
    ensures Answers(Parts(shards), k, Lists(shards))
  {
    forall i | 0 <= i < |shards| ensures IsTopK(Parts(shards)[i], k, Lists(shards)[i]) {
      assert shards[i] in shards;
    }
  }

  /** The order in which shards answer makes no difference to what there is to find. */
  lemma {:induction false} ArrivalOrderIrrelevant(a: seq<Shard>, b: seq<Shard>)
    requires multiset(a) == multiset(b)
    ensures Reachable(a) == Reachable(b) && Failures(a) == Failures(b) && |a| == |b|
    decreases |a|
  {
    assert |a| == |multiset(a)| && |b| == |multiset(b)|;
    if a != [] {
      assert a[0] in multiset(b);
      var j :| 0 <= j < |b| && b[j] == a[0];
      WithoutOne(a, b, j);
      ArrivalOrderIrrelevant(a[1..], b[..j] + b[j + 1..]);
      PullOut(b[..j], b[j], b[j + 1..]);
      assert b == b[..j] + [b[j]] + b[j + 1..];
      TotalCons(a);
    }
  }

  lemma WithoutOne(a: seq<Shard>, b: seq<Shard>, j: nat)
    requires multiset(a) == multiset(b) && a != [] && j < |b| && b[j] == a[0]
    ensures multiset(a[1..]) == multiset(b[..j] + b[j + 1..])
  {
    assert a == [a[0]] + a[1..] && b == b[..j] + [b[j]] + b[j + 1..];
    assert multiset(a) == multiset{a[0]} + multiset(a[1..]);
    assert multiset(b) == multiset(b[..j]) + multiset{b[j]} + multiset(b[j + 1..]);
    assert multiset(b[..j] + b[j + 1..]) == multiset(b[..j]) + multiset(b[j + 1..]);
    assert multiset(a[1..]) == multiset(a) - multiset{a[0]};
  }

  lemma ArrivalKeepsExactness(a: seq<Shard>, b: seq<Shard>, k: nat)
    requires multiset(a) == multiset(b) && ExactShards(a, k)
    ensures ExactShards(b, k)
  {
    assert forall s :: s in b ==> s in multiset(b);
    assert forall s :: s in multiset(a) ==> s in a;
  }

  lemma TotalCons(a: seq<Shard>)
    requires a != []
    ensures Reachable(a) == PartOf(a[0]) + Reachable(a[1..])
  {
    assert Parts(a)[1..] == Parts(a[1..]);
  }

  lemma {:induction false} PullOut(x: seq<Shard>, s: Shard, y: seq<Shard>)
    ensures Reachable(x + [s] + y) == PartOf(s) + Reachable(x + y)
    ensures Failures(x + [s] + y) == (if s.reply.Failure? then 1 else 0) + Failures(x + y)
    decreases |x|
  {
    var whole := x + [s] + y;
    TotalCons(whole);
    if x == [] {
      assert whole[1..] == y && x + y == y;
    } else {
      assert whole[1..] == x[1..] + [s] + y && (x + y)[1..] == x[1..] + y;
      PullOut(x[1..], s, y);
      TotalCons(x + y);
    }
  }

  /** Scatter-gather agrees with one big index: for every order of arrival, the merged answer
      has the distances of the k nearest of everything the healthy shards hold, and lists every
      hit strictly nearer than its last one. */
  lemma GatherMatchesOneIndex(shards: seq<Shard>, arrivals: seq<Shard>, k: nat, results: seq<Hit>, single: seq<Hit>)
    requires multiset(arrivals) == multiset(shards)
    requires IsTopK(Reachable(arrivals), k, results) && IsTopK(Reachable(shards), k, single)
    ensures |results| == |single| && forall i :: 0 <= i < |single| ==> results[i].dist == single[i].dist
    ensures forall x :: x in Reachable(shards) && (|results| < k || (results != [] && x.dist < results[|results| - 1].dist))
                        ==> x in results
  {
    ArrivalOrderIrrelevant(arrivals, shards);
    TopKDistancesUnique(Reachable(shards), k, results, single);
    forall x | x in Reachable(shards) && (|results| < k || (results != [] && x.dist < results[|results| - 1].dist))
      ensures x in results
    {
      InsideCutoffIsListed(Reachable(shards), k, results, x);
    }
  }

  /** n hits at the distances from + 1, from + 2, ... */
  function Block(from: nat, n: nat): (s: seq<Hit>)
    requires from + n <= TWO_64
    ensures |s| == n
  {
    seq(n, i requires 0 <= i < n => Hit(Key(0, from + i), (from + i + 1) as real))
  }

  lemma BlockIsAscending(from: nat, n: nat, m: nat)
    requires from + n <= TWO_64 && m <= n
    ensures ByDistance(Block(from, n)) && IsTopK(multiset(Block(from, n)), m, Block(from, n)[..m])
  {
    PrefixIsTopK(Block(from, n), m);
  }

  /** Of what the two shards return for k', only k' hits are within k' + 1. */
  lemma FewAreNear(k: nat, k': nat, results: seq<Hit>)
    requires k' < k && 2 * k <= TWO_64
    requires multiset(results) <= multiset(Block(0, k)[..k'] + Block(k, k)[..k'])
    ensures (forall x :: x in results ==> x.dist <= (k' + 1) as real) ==> |results| <= k'
  {
    var near, far := Block(0, k)[..k'], Block(k, k)[..k'];
    assert multiset(near + far) == multiset(near) + multiset(far);
    if forall x :: x in results ==> x.dist <= (k' + 1) as real {
      forall x ensures multiset(results)[x] <= multiset(near)[x] {
        assert x in far ==> x.dist > (k' + 1) as real;
      }
      SubMultisetSize(multiset(results), multiset(near));
      assert |multiset(results)| == |results| && |multiset(near)| == k';
    }
  }

  /** Asking the shards for fewer than k is wrong for some placement: with the k nearest on one
      shard, no cut of what two shards return for k' < k is the k nearest of both. */
  lemma AskingForFewerIsWrong(k: nat, k': nat, results: seq<Hit>)
    requires k' < k && 2 * k <= TWO_64
    requires multiset(results) <= multiset(Block(0, k)[..k'] + Block(k, k)[..k'])
    ensures var near, far := Block(0, k), Block(k, k);
      && IsTopK(multiset(near), k', near[..k']) && IsTopK(multiset(far), k', far[..k'])
      && !IsTopK(multiset(near) + multiset(far), k, results)
  {
    var near, far := Block(0, k), Block(k, k);
    BlockIsAscending(0, k, k');
    BlockIsAscending(k, k, k');
    FewAreNear(k, k', results);
    MissedIsNotAnswered(k, k');
    var missed := near[k'];
    assert multiset(near[..k'] + far[..k']) == multiset(near[..k']) + multiset(far[..k']);
    assert multiset(results)[missed] == 0 && missed in near;
    assert missed in (multiset(near) + multiset(far)) - multiset(results);
    assert |multiset(near) + multiset(far)| == 2 * k;
  }

  lemma MissedIsNotAnswered(k: nat, k': nat)
    requires k' < k && 2 * k <= TWO_64
    ensures Block(0, k)[k'] !in multiset(Block(0, k)[..k']) && Block(0, k)[k'] !in multiset(Block(k, k)[..k'])
  {
    var near, far := Block(0, k), Block(k, k);
    assert forall i :: 0 <= i < k' ==> near[..k'][i].dist != near[k'].dist && far[..k'][i].dist != near[k'].dist;
  }
}
