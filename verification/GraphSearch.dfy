/** Searching the layered graph: greedy descent through the upper layers, then the beam
    search of the bottom layer (Algorithm 5 of Malkov and Yashunin). */
module GraphSearch {
  import opened Candidates
  import opened VisitedLists
  import opened Beam
  import opened LayerSearch
  import opened LayerGraph
  import opened GraphStore

  lemma OkIsSearchable(g: Graph, l: nat)
    requires g.Stored() && LayerOk(g.Layer(l), g.Capacity(l)) && 2 * g.arena.m <= MAX_DEGREE
    ensures Searchable(g.Layer(l), |g.levels|)
  {
    OkIsClosed(g.Layer(l), g.Capacity(l));
    assert forall x :: x in g.Layer(l) ==> ListOk(g.Layer(l), x, g.Layer(l)[x], g.Capacity(l));
  }

  /** b is reached from a, no farther than a, and none of its links is closer. */
  ghost predicate Climbed(layer: Layer, dist: nat -> real, a: nat, b: nat) {
    && b in layer && Reachable(layer, a, b) && dist(b) <= dist(a)
    && forall y :: y in layer[b] ==> dist(b) <= dist(y)
  }

  /** One climb on each of the layers from, from - 1, ..., above + 1. */
  ghost predicate IsDescent(g: Graph, dist: nat -> real, from: nat, above: nat, trail: seq<nat>)
    requires g.Stored()
  {
    && |trail| == (if from > above then from - above else 0) + 1
    && forall i: nat :: i + 1 < |trail| ==> Climbed(g.Layer(from - i), dist, trail[i], trail[i + 1])
  }

  /** The descent from entry ends at cur. */
  ghost predicate Descended(g: Graph, dist: nat -> real, from: nat, above: nat, entry: nat, cur: nat)
    requires g.Stored()
  {
    exists trail :: IsDescent(g, dist, from, above, trail) && trail[0] == entry && trail[|trail| - 1] == cur
  }

  /** Greedy descent through the layers from `from` down to `above` + 1. */
  method Descend(g: Graph, dist: nat -> real, entry: nat, from: nat, above: nat) returns (cur: nat)
    requires g.Stored() && forall l: nat :: l > above ==> g.LayerSound(l)
    requires entry in g.Layer(from)
    ensures cur in g.Layer(if from > above then above + 1 else from)
    ensures dist(cur) <= dist(entry)
    ensures Descended(g, dist, from, above, entry, cur)
  {
    cur := entry;
    var l: nat := from;
    ghost var trail := [entry];
    while l > above
      invariant if from > above then above <= l <= from else l == from
      invariant dist(cur) <= dist(entry)
      invariant cur in g.Layer(if l < from then l + 1 else from)
      invariant IsDescent(g, dist, from, l, trail) && trail[0] == entry && trail[|trail| - 1] == cur
    {
      assert g.LayerSound(l) && cur in g.Layer(l);
      OkIsClosed(g.Layer(l), g.Capacity(l));
      var d: real;
      ghost var before := cur;
      cur, d := GreedyDescend(g.Layer(l), dist, cur);
      DescendOneMore(g, dist, from, l, trail, before, cur);
      trail := trail + [cur];
      l := l - 1;
    }
  }

  lemma DescendOneMore(g: Graph, dist: nat -> real, from: nat, l: nat, trail: seq<nat>, a: nat, b: nat)
    requires g.Stored() && 0 < l <= from && IsDescent(g, dist, from, l, trail) && trail[|trail| - 1] == a
    requires Climbed(g.Layer(l), dist, a, b)
    ensures IsDescent(g, dist, from, l - 1, trail + [b])
  {
    var longer := trail + [b];
    forall i: nat | i + 1 < |longer| ensures Climbed(g.Layer(from - i), dist, longer[i], longer[i + 1]) {
      if i + 1 < |trail| {
        assert Climbed(g.Layer(from - i), dist, trail[i], trail[i + 1]);
      }
    }
  }

  /** Scored entries of the nodes the query may return that layer 0 connects to `start`. */
  ghost function LiveFrom(g: Graph, q: Query, start: nat): set<Cand>
    requires g.Stored()
  {
    set x | x in g.Layer(0) && q.live(x) && Reachable(g.Layer(0), start, x) :: Scored(q.dist, x)
  }

  /** The search down to the result heap; `start` is where the descent ends. */
  method SearchGraph(visited: VisitedList, g: Graph, q: Query, entry: nat, top: nat)
    returns (found: set<Cand>, start: nat, ghost expanded: set<nat>)
    requires g.Ok() && entry < g.count && g.levels[entry] == top && 2 * g.arena.m <= MAX_DEGREE
    requires visited.Valid() && visited.marks.Length == |g.levels|
    modifies visited, visited.marks
    ensures visited.Valid()
    ensures start in g.Layer(0) && q.dist(start) <= q.dist(entry) && Descended(g, q.dist, top, 0, entry, start)
    ensures Sound(g.Layer(0), q, start, found)
    ensures q.ef >= 1 ==> Complete(g.Layer(0), q, start, found, expanded)
    ensures q.ef >= 1 && |LiveFrom(g, q, start)| <= q.ef ==> found == LiveFrom(g, q, start)
  {
    start := Descend(g, q.dist, entry, top, 0);
    assert g.LayerSound(0);
    OkIsSearchable(g, 0);
    found, expanded := SearchLayer(visited, g.Layer(0), q, start);
    if q.ef >= 1 && |LiveFrom(g, q, start)| <= q.ef {
      WideBeamIsExact(g.Layer(0), q, start, found, expanded, LiveFrom(g, q, start));
    }
  }
}
