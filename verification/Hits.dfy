/** From a result heap to the answer list: keep the k nearest, farthest popped first. */
module Hits {
  import opened KeyTable
  import opened Candidates
  import opened TopK
  import opened Beam

  /** The answer line of a candidate. */
  function HitOf(labels: seq<Key>, c: Cand): Hit {
    Hit(if c.id < |labels| then labels[c.id] else Key(0, 0), c.dist)
  }

  ghost function HitsOf(labels: seq<Key>, cs: set<Cand>): set<Hit> {
    set c | c in cs :: HitOf(labels, c)
  }

  ghost predicate Apart(labels: seq<Key>, cs: set<Cand>) {
    forall c, d :: c in cs && d in cs && HitOf(labels, c) == HitOf(labels, d) ==> c == d
  }

  lemma {:induction false} SameNumber(labels: seq<Key>, cs: set<Cand>)
    requires Apart(labels, cs)
    ensures |HitsOf(labels, cs)| == |cs|
  {
    if cs != {} {
      var c :| c in cs;
      SameNumber(labels, cs - {c});
      assert HitsOf(labels, cs) == HitsOf(labels, cs - {c}) + {HitOf(labels, c)};
      assert HitOf(labels, c) !in HitsOf(labels, cs - {c});
    }
  }

  /** A list of distinct members that leaves out nothing nearer is a top k of the set. */
  lemma DistinctListIsTopK(all: set<Hit>, k: nat, s: seq<Hit>)
    requires ByDistance(s) && |s| == Min(k, |all|)
    requires forall i, j :: 0 <= i < j < |s| ==> s[i] != s[j]
    requires forall x :: x in s ==> x in all
    requires forall x, y :: x in s && y in all && y !in s ==> x.dist <= y.dist
    ensures IsTopK(multiset(all), k, s)
  {
    DistinctCounts(s);
  }

  /** A list of some of a set's members, as often as they occur in it, lists no member twice. */
  lemma ListedOnce(all: set<Hit>, s: seq<Hit>, i: nat, j: nat)
    requires multiset(s) <= multiset(all) && i < j < |s|
    ensures s[i] != s[j]
  {
    assert s == s[..j] + [s[j]] + s[j + 1..];
    assert multiset(s)[s[j]] >= multiset(s[..j])[s[j]] + 1 && multiset(all)[s[j]] <= 1;
    assert s[i] == s[..j][i] && s[i] in multiset(s[..j]) && s[j] !in multiset(s[..j]);
  }

  /** A k nearest list of a set that is shorter than k lists all of it. */
  lemma InsideCutoffForAll(all: set<Hit>, k: nat, s: seq<Hit>)
    requires IsTopK(multiset(all), k, s) && |s| < k
    ensures forall h :: h in all ==> h in s
  {
    forall h | h in all ensures h in s {
      assert h in multiset(all);
      InsideCutoffIsListed(multiset(all), k, s, h);
    }
  }

  /** What is to be found, and what a beam found of it: all of it unless the beam was full. */
  lemma AllOrFull(all: set<Hit>, hits: set<Hit>, width: nat, k: nat, out: seq<Hit>)
    requires hits <= all && (|hits| < width ==> all <= hits) && k <= width && IsTopK(multiset(hits), k, out)
    ensures |all| <= width ==> IsTopK(multiset(all), k, out)
    ensures |out| < k ==> forall h :: h in all ==> h in out
  {
    if |hits| < width {
      assert hits == all;
    } else if |all| <= width {
      SubsetOfSameSize(hits, all);
    }
    assert |multiset(hits)| == |hits|;
    if |out| < k {
      InsideCutoffForAll(hits, k, out);
    }
  }

  lemma {:induction false} DistinctCounts(s: seq<Hit>)
    requires forall i, j :: 0 <= i < j < |s| ==> s[i] != s[j]
    ensures forall x :: multiset(s)[x] == if x in s then 1 else 0
  {
    if s != [] {
      var n := |s| - 1;
      DistinctCounts(s[..n]);
      assert s == s[..n] + [s[n]];
      assert s[n] !in s[..n];
    }
  }

  /** The heap cut down to k entries by popping the farthest. */
  method CutTo(results: set<Cand>, k: nat) returns (top: set<Cand>)
    ensures top <= results && |top| == Min(k, |results|)
    ensures forall c, d :: c in top && d in results - top ==> c.dist <= d.dist
  {
    top := results;
    while |top| > k
      invariant top <= results && (|top| >= k || top == results)
      invariant forall c, d :: c in top && d in results - top ==> c.dist <= d.dist
    {
      var far := Farthest(top);
      top := top - {far};
    }
  }

  /** The answer filled from the back, farthest first. */
  method FillBackwards(labels: seq<Key>, top: set<Cand>) returns (out: seq<Hit>, ghost order: seq<Cand>)
    ensures |out| == |order| == |top|
    ensures forall i :: 0 <= i < |out| ==> out[i] == HitOf(labels, order[i])
    ensures forall c :: c in order <==> c in top
    ensures forall i, j :: 0 <= i < j < |order| ==> order[i] != order[j]
    ensures ByDistance(out)
  {
    var rest := top;
    out, order := [], [];
    while rest != {}
      invariant |out| == |order| && forall i :: 0 <= i < |out| ==> out[i] == HitOf(labels, order[i])
      invariant Divided(top, rest, order) && NearestFirst(order) && Inside(rest, order)
    {
      var far := Farthest(rest);
      PoppedNext(top, rest, order, far);
      rest := rest - {far};
      out := [HitOf(labels, far)] + out;
      order := [far] + order;
    }
  }

  /** What is popped and what is left make up the heap. */
  ghost predicate Divided(top: set<Cand>, rest: set<Cand>, order: seq<Cand>) {
    |order| + |rest| == |top| && forall c :: c in top <==> c in rest || c in order
  }

  ghost predicate NearestFirst(order: seq<Cand>) {
    forall i, j :: 0 <= i < j < |order| ==> order[i] != order[j] && order[i].dist <= order[j].dist
  }

  /** Nothing left has been popped, or is farther than what has. */
  ghost predicate Inside(rest: set<Cand>, order: seq<Cand>) {
    forall i, c :: 0 <= i < |order| && c in rest ==> c != order[i] && c.dist <= order[i].dist
  }

  lemma PoppedNext(top: set<Cand>, rest: set<Cand>, order: seq<Cand>, far: Cand)
    requires Divided(top, rest, order) && NearestFirst(order) && Inside(rest, order)
    requires far in rest && forall x :: x in rest ==> x.dist <= far.dist
    ensures Divided(top, rest - {far}, [far] + order) && NearestFirst([far] + order) && Inside(rest - {far}, [far] + order)
  {
    var order' := [far] + order;
    assert forall c :: c in order' <==> c == far || c in order;
    assert forall i :: 0 < i < |order'| ==> order'[i] == order[i - 1];
  }

  /** Both steps: the k nearest of the heap, in ascending distance, without repetition. */
  method Answer(labels: seq<Key>, results: set<Cand>, k: nat) returns (out: seq<Hit>)
    requires Apart(labels, results)
    ensures IsTopK(multiset(HitsOf(labels, results)), k, out)
  {
    var top := CutTo(results, k);
    ghost var order: seq<Cand>;
    out, order := FillBackwards(labels, top);
    AnswerIsTopK(labels, results, top, k, out, order);
  }

  lemma AnswerIsTopK(labels: seq<Key>, results: set<Cand>, top: set<Cand>, k: nat, out: seq<Hit>, order: seq<Cand>)
    requires Apart(labels, results) && top <= results && |out| == |order| == |top| == Min(k, |results|)
    requires forall c, d :: c in top && d in results - top ==> c.dist <= d.dist
    requires forall i :: 0 <= i < |out| ==> out[i] == HitOf(labels, order[i])
    requires forall c :: c in order <==> c in top
    requires forall i, j :: 0 <= i < j < |order| ==> order[i] != order[j]
    requires ByDistance(out)
    ensures IsTopK(multiset(HitsOf(labels, results)), k, out)
  {
    SameNumber(labels, results);
    forall i | 0 <= i < |order| ensures order[i] in results && out[i] in HitsOf(labels, results) {
      assert order[i] in order;
    }
    forall c | c in top ensures HitOf(labels, c) in out {
      assert c in order;
      var j :| 0 <= j < |order| && order[j] == c;
      assert out[j] in out;
    }
    forall x, y | x in out && y in HitsOf(labels, results) && y !in out ensures x.dist <= y.dist {
      var i :| 0 <= i < |out| && out[i] == x;
      var d :| d in results && y == HitOf(labels, d);
      assert order[i] in top && d !in top;
    }
    DistinctListIsTopK(HitsOf(labels, results), k, out);
  }
}
