/** What the beam search (Algorithm 2 of Malkov and Yashunin) knows while it runs and what
    it has found when it stops, stated on one layer of the graph. */
module Beam {
  import opened Candidates

  /** One layer: the neighbour list of every node present on it. */
  type Layer = map<nat, seq<nat>>

  /** Running maximum of the result heap; Unbounded stands for the largest float, which
      the search starts from while it has no result. */
  datatype Bound = Unbounded | At(d: real)

  ghost predicate Closed(layer: Layer) {
    forall x, y :: x in layer && y in layer[x] ==> y in layer
  }

  ghost predicate IsPath(layer: Layer, p: seq<nat>) {
    && p != []
    && (forall i :: 0 <= i < |p| ==> p[i] in layer)
    && (forall i :: 0 < i < |p| ==> p[i] in layer[p[i - 1]])
  }

  ghost predicate Reachable(layer: Layer, a: nat, b: nat) {
    exists p :: IsPath(layer, p) && p[0] == a && p[|p| - 1] == b
  }

  /** The heap entry of node x. */
  function Scored(dist: nat -> real, x: nat): Cand {
    Cand(dist(x), x)
  }

  /** The query as the search sees it: distances, which nodes may be returned, beam width. */
  datatype Query = Query(dist: nat -> real, live: nat -> bool, ef: nat)

  /** Visited nodes, expanded nodes, the two heaps and the cached worst distance. */
  datatype State = State(visited: set<nat>, expanded: set<nat>,
                         frontier: set<Cand>, results: set<Cand>, worst: Bound)

  ghost predicate WorstInStep(results: set<Cand>, worst: Bound) {
    if results == {} then worst == Unbounded
    else
      && worst.At?
      && (forall c :: c in results ==> c.dist <= worst.d)
      && (exists c :: c in results && c.dist == worst.d)
  }

  /** The beam is full and x is no closer than its worst member. */
  ghost predicate Beaten(q: Query, s: State, x: nat) {
    |s.results| >= q.ef && s.worst.At? && q.dist(x) >= s.worst.d
  }

  /** Facts that hold for every width. */
  ghost predicate Tracked(layer: Layer, q: Query, entry: nat, s: State) {
    && s.visited <= layer.Keys && entry in s.visited && s.expanded <= s.visited
    && (forall x :: x in s.visited ==> Reachable(layer, entry, x))
    && (forall c :: c in s.frontier ==> c == Scored(q.dist, c.id) && c.id in s.visited && c.id !in s.expanded)
    && (forall c :: c in s.results ==> c == Scored(q.dist, c.id) && c.id in s.visited && q.live(c.id))
    && WorstInStep(s.results, s.worst)
  }

  /** The results are the ef best live nodes visited so far, and a visited node is expanded,
      waiting on the frontier, or beaten. */
  ghost predicate BestSoFar(q: Query, s: State) {
    && |s.results| <= q.ef
    && (forall c :: c in s.results ==> c.id in s.expanded || c in s.frontier)
    && (forall x :: x in s.visited ==> x in s.expanded || Scored(q.dist, x) in s.frontier || Beaten(q, s, x))
    && (forall x :: x in s.visited && q.live(x) ==> Scored(q.dist, x) in s.results || Beaten(q, s, x))
  }

  ghost predicate Inv(layer: Layer, q: Query, entry: nat, s: State) {
    Tracked(layer, q, entry, s) && (q.ef >= 1 ==> BestSoFar(q, s))
  }

  /** Every neighbour of an expanded node has been visited. */
  ghost predicate ExpandedClosed(layer: Layer, visited: set<nat>, expanded: set<nat>) {
    forall x, y :: x in expanded && x in layer && y in layer[x] ==> y in visited
  }

  /** The loop's exits: nothing left to expand, or a full beam that beats the whole frontier. */
  ghost predicate Stopped(q: Query, s: State) {
    || s.frontier == {}
    || (|s.results| >= q.ef && s.worst.At? && forall c :: c in s.frontier ==> c.dist > s.worst.d)
  }

  lemma ReachableSelf(layer: Layer, x: nat)
    requires x in layer
    ensures Reachable(layer, x, x)
  {
    assert IsPath(layer, [x]);
  }

  lemma ReachableStep(layer: Layer, a: nat, x: nat, y: nat)
    requires Reachable(layer, a, x) && x in layer && y in layer[x] && y in layer
    ensures Reachable(layer, a, y)
  {
    var p :| IsPath(layer, p) && p[0] == a && p[|p| - 1] == x;
    var p' := p + [y];
    assert IsPath(layer, p');
  }

  /** The search starts with the entry node visited, waiting, and returned if it may be. */
  lemma StartInv(layer: Layer, q: Query, entry: nat, results: set<Cand>, worst: Bound)
    requires entry in layer
    requires results == if q.live(entry) then {Scored(q.dist, entry)} else {}
    requires worst == if results == {} then Unbounded else At(q.dist(entry))
    ensures Inv(layer, q, entry, State({entry}, {}, {Scored(q.dist, entry)}, results, worst))
  {
    ReachableSelf(layer, entry);
    if q.live(entry) {
      assert Scored(q.dist, entry) in results;
    }
  }

  /** Popping the nearest frontier node for expansion. */
  lemma ExpandKeepsInv(layer: Layer, q: Query, entry: nat, s: State, best: Cand)
    requires Inv(layer, q, entry, s) && best in s.frontier
    ensures Inv(layer, q, entry, s.(frontier := s.frontier - {best}, expanded := s.expanded + {best.id}))
  {
  }

  lemma ExpandedGrows(layer: Layer, s: State, t: State, x: nat)
    requires ExpandedClosed(layer, s.visited, s.expanded) && x in layer
    requires t.expanded == s.expanded + {x} && s.visited <= t.visited <= layer.Keys
    requires forall y :: y in layer[x] ==> y in t.visited
    ensures ExpandedClosed(layer, t.visited, t.expanded)
    ensures t.visited == s.visited || layer.Keys - t.visited < layer.Keys - s.visited
  {
    if t.visited != s.visited {
      var z :| z in t.visited && z !in s.visited;
      assert z in layer.Keys - s.visited && z !in layer.Keys - t.visited;
    }
  }

  /** A newly visited node that is no better than a full beam. */
  lemma SkipKeepsInv(layer: Layer, q: Query, entry: nat, s: State, y: nat)
    requires Inv(layer, q, entry, s)
    requires y in layer && y !in s.visited && Reachable(layer, entry, y)
    requires |s.results| >= q.ef && s.worst.At? && q.dist(y) >= s.worst.d
    ensures Inv(layer, q, entry, s.(visited := s.visited + {y}))
  {
  }

  /** A newly visited node that may not be returned only widens the frontier. */
  lemma PassKeepsInv(layer: Layer, q: Query, entry: nat, s: State, y: nat)
    requires Inv(layer, q, entry, s)
    requires y in layer && y !in s.visited && Reachable(layer, entry, y) && !q.live(y)
    ensures Inv(layer, q, entry, s.(visited := s.visited + {y}, frontier := s.frontier + {Scored(q.dist, y)}))
  {
  }

  /** The result heap after a live node y with a good enough distance was pushed and, if the
      heap overflowed, one of its farthest entries `out` popped. */
  ghost predicate Pushed(q: Query, s: State, y: nat, results: set<Cand>, out: Cand)
  {
    var grown := s.results + {Scored(q.dist, y)};
    if |grown| > q.ef then
      && out in grown && (forall c :: c in grown ==> c.dist <= out.dist)
      && results == grown - {out}
    else results == grown
  }

  ghost predicate WorstUpdated(results: set<Cand>, old_: Bound, worst: Bound) {
    if results == {} then worst == old_ else WorstInStep(results, worst)
  }

  lemma PushKeepsInv(layer: Layer, q: Query, entry: nat, s: State, y: nat,
                     results: set<Cand>, out: Cand, worst: Bound)
    requires Inv(layer, q, entry, s)
    requires y in layer && y !in s.visited && Reachable(layer, entry, y) && q.live(y)
    requires |s.results| < q.ef || s.worst.Unbounded? || q.dist(y) < s.worst.d
    requires Pushed(q, s, y, results, out) && WorstUpdated(results, s.worst, worst)
    ensures Inv(layer, q, entry, s.(visited := s.visited + {y}, frontier := s.frontier + {Scored(q.dist, y)},
                                    results := results, worst := worst))
  {
    var t := s.(visited := s.visited + {y}, frontier := s.frontier + {Scored(q.dist, y)},
                results := results, worst := worst);
    PushKeepsTracked(layer, q, entry, s, y, results, out, worst);
    if q.ef >= 1 {
      PushKeepsBest(q, s, y, results, out, worst, t);
    }
  }

  lemma PushKeepsTracked(layer: Layer, q: Query, entry: nat, s: State, y: nat,
                         results: set<Cand>, out: Cand, worst: Bound)
    requires Tracked(layer, q, entry, s)
    requires y in layer && y !in s.visited && Reachable(layer, entry, y) && q.live(y)
    requires Pushed(q, s, y, results, out) && WorstUpdated(results, s.worst, worst)
    ensures Tracked(layer, q, entry, s.(visited := s.visited + {y}, frontier := s.frontier + {Scored(q.dist, y)},
                                        results := results, worst := worst))
  {
    var grown := s.results + {Scored(q.dist, y)};
    assert |grown| == |s.results| + 1;
  }

  lemma PushKeepsBest(q: Query, s: State, y: nat, results: set<Cand>, out: Cand, worst: Bound, t: State)
    requires q.ef >= 1 && BestSoFar(q, s) && WorstInStep(s.results, s.worst)
    requires y !in s.visited && forall c :: c in s.results ==> c == Scored(q.dist, c.id) && c.id in s.visited
    requires |s.results| < q.ef || s.worst.Unbounded? || q.dist(y) < s.worst.d
    requires Pushed(q, s, y, results, out) && WorstUpdated(results, s.worst, worst)
    requires t == s.(visited := s.visited + {y}, frontier := s.frontier + {Scored(q.dist, y)},
                     results := results, worst := worst)
    ensures BestSoFar(q, t)
  {
    assert |s.results + {Scored(q.dist, y)}| == |s.results| + 1;
    if |s.results| == q.ef {
      FullBeamSwaps(q, s, y, results, out, worst, t);
    } else {
      assert forall x :: !Beaten(q, s, x);
    }
  }

  /** With a full beam the pushed node is closer than the old worst, so an old worst member leaves. */
  lemma FullBeamSwaps(q: Query, s: State, y: nat, results: set<Cand>, out: Cand, worst: Bound, t: State)
    requires q.ef >= 1 && BestSoFar(q, s) && WorstInStep(s.results, s.worst) && |s.results| == q.ef
    requires y !in s.visited && forall c :: c in s.results ==> c == Scored(q.dist, c.id) && c.id in s.visited
    requires s.worst.Unbounded? || q.dist(y) < s.worst.d
    requires Pushed(q, s, y, results, out) && WorstUpdated(results, s.worst, worst)
    requires t == s.(visited := s.visited + {y}, frontier := s.frontier + {Scored(q.dist, y)},
                     results := results, worst := worst)
    ensures BestSoFar(q, t)
  {
    var grown := s.results + {Scored(q.dist, y)};
    assert |grown| == q.ef + 1;
    assert |results| == q.ef && results != {} && s.results != {};
    var w :| w in s.results && w.dist == s.worst.d;
    assert w in grown;
    assert out.dist == s.worst.d && out in s.results;
    assert worst.d <= s.worst.d;
    assert forall x :: Beaten(q, s, x) ==> Beaten(q, t, x);
    assert Beaten(q, t, out.id);
  }

  /** A path that leaves an expanded node and then stays strictly inside the worst returned
      distance never leaves the expanded nodes. */
  lemma {:induction false} PathStaysExpanded(layer: Layer, q: Query, entry: nat, s: State, p: seq<nat>)
    requires q.ef >= 1 && Inv(layer, q, entry, s) && ExpandedClosed(layer, s.visited, s.expanded) && Stopped(q, s)
    requires IsPath(layer, p) && p[0] in s.expanded
    requires forall i :: 0 < i < |p| ==> (s.worst.At? ==> q.dist(p[i]) < s.worst.d) || |s.results| < q.ef
    ensures forall i :: 0 <= i < |p| ==> p[i] in s.expanded
    decreases |p|
  {
    if |p| > 1 {
      var x, y := p[|p| - 2], p[|p| - 1];
      var front := p[..|p| - 1];
      assert IsPath(layer, front);
      PathStaysExpanded(layer, q, entry, s, front);
      assert front[|p| - 2] in s.expanded && y in layer[x];
      assert y in s.visited;
      assert !Beaten(q, s, y);
      assert Scored(q.dist, y) !in s.frontier;
    }
  }

  /** What a finished search guarantees about its results, for every width of at least one.
      `expanded` are the nodes whose links were followed. */
  ghost predicate Complete(layer: Layer, q: Query, entry: nat, results: set<Cand>, expanded: set<nat>)
  {
    && |results| <= q.ef
    && (forall c :: c in results ==> c.id in expanded)
    && (|results| < q.ef ==>
          forall x :: x in layer && Reachable(layer, entry, x) && q.live(x) ==> Scored(q.dist, x) in results)
    && (forall p, w :: IsPath(layer, p) && p[0] in expanded && WorstInStep(results, At(w))
                       && (forall i :: 0 < i < |p| ==> q.dist(p[i]) < w)
          ==> forall i :: 0 < i < |p| ==> p[i] in expanded && (q.live(p[i]) ==> Scored(q.dist, p[i]) in results))
    && (forall x :: x in expanded && q.live(x) && Scored(q.dist, x) !in results
          ==> forall c :: c in results ==> c.dist <= q.dist(x))
    && (q.live(entry) && Scored(q.dist, entry) !in results ==> forall c :: c in results ==> c.dist <= q.dist(entry))
  }

  /** Every result is a live reachable node with its true distance. */
  ghost predicate Sound(layer: Layer, q: Query, entry: nat, results: set<Cand>) {
    forall c :: c in results ==>
      c == Scored(q.dist, c.id) && c.id in layer && q.live(c.id) && Reachable(layer, entry, c.id)
  }

  lemma StoppedIsComplete(layer: Layer, q: Query, entry: nat, s: State)
    requires Inv(layer, q, entry, s) && ExpandedClosed(layer, s.visited, s.expanded) && Stopped(q, s)
    ensures Sound(layer, q, entry, s.results)
    ensures q.ef >= 1 ==> Complete(layer, q, entry, s.results, s.expanded)
    ensures q.ef >= 1 && q.live(entry) ==> s.results != {}
  {
    if q.ef >= 1 {
      StoppedWideIsComplete(layer, q, entry, s);
    }
  }

  lemma StoppedWideIsComplete(layer: Layer, q: Query, entry: nat, s: State)
    requires q.ef >= 1 && Inv(layer, q, entry, s) && ExpandedClosed(layer, s.visited, s.expanded) && Stopped(q, s)
    ensures Complete(layer, q, entry, s.results, s.expanded)
  {
    assert forall c :: c in s.results ==> c.id in s.expanded;
    if |s.results| < q.ef {
      forall x | x in layer && Reachable(layer, entry, x) && q.live(x)
        ensures Scored(q.dist, x) in s.results
      {
        var p :| IsPath(layer, p) && p[0] == entry && p[|p| - 1] == x;
        PathStaysExpanded(layer, q, entry, s, p);
      }
    }
    forall p, w | IsPath(layer, p) && p[0] in s.expanded && WorstInStep(s.results, At(w))
                  && (forall i :: 0 < i < |p| ==> q.dist(p[i]) < w)
      ensures forall i :: 0 < i < |p| ==> p[i] in s.expanded && (q.live(p[i]) ==> Scored(q.dist, p[i]) in s.results)
    {
      assert s.worst == At(w) by {
        var c :| c in s.results && c.dist == w;
        var c' :| c' in s.results && c'.dist == s.worst.d;
      }
      PathStaysExpanded(layer, q, entry, s, p);
    }
  }

  /** When the beam is at least as wide as the live reachable part, the search is exact. */
  lemma WideBeamIsExact(layer: Layer, q: Query, entry: nat, results: set<Cand>, expanded: set<nat>, all: set<Cand>)
    requires q.ef >= 1 && Sound(layer, q, entry, results) && Complete(layer, q, entry, results, expanded)
    requires forall c :: c in all <==> c == Scored(q.dist, c.id) && c.id in layer && q.live(c.id)
                                       && Reachable(layer, entry, c.id)
    requires |all| <= q.ef
    ensures results == all
  {
    assert results <= all;
    if |results| < q.ef {
      assert all <= results;
    } else {
      SubsetOfSameSize(results, all);
    }
  }

  lemma SubsetOfSameSize<T>(a: set<T>, b: set<T>)
    requires a <= b && |a| >= |b|
    ensures a == b
  {
    assert |b - a| == |b| - |a|;
  }
}
