/** The two traversals of one layer: greedy hill climbing and beam search. They read the
    neighbour lists of the layer and call the query's distance; every bound, every tie and
    every recycled visited list is covered. */
module LayerSearch {
  import opened Candidates
  import opened VisitedLists
  import opened Beam

  /** A search copies at most this many links out of a block. */
  const MAX_DEGREE: nat := 256

  /** Every list is short enough to be copied whole, and every id has a visited slot. */
  ghost predicate Searchable(layer: Layer, slots: nat) {
    && Closed(layer)
    && forall x :: x in layer ==> x < slots && |layer[x]| <= MAX_DEGREE
  }

  ghost function Closer(layer: Layer, dist: nat -> real, d: real): set<nat> {
    set x | x in layer && dist(x) < d
  }

  /** The admission of one newly visited node to the frontier and the result heap. */
  method Admit(ghost layer: Layer, ef: nat, live: bool, c: Cand,
               frontier: set<Cand>, results: set<Cand>, worst: Bound,
               ghost q: Query, ghost entry: nat, ghost s: State)
    returns (frontier': set<Cand>, results': set<Cand>, worst': Bound, ghost s': State)
    requires q.ef == ef && live == q.live(c.id) && c == Scored(q.dist, c.id)
    requires s.frontier == frontier && s.results == results && s.worst == worst
    requires Inv(layer, q, entry, s)
    requires c.id in layer && c.id !in s.visited && Reachable(layer, entry, c.id)
    ensures s' == State(s.visited + {c.id}, s.expanded, frontier', results', worst')
    ensures Inv(layer, q, entry, s')
  {
    frontier', results', worst' := frontier, results, worst;
    if |results| < ef || worst.Unbounded? || c.dist < worst.d {
      frontier' := frontier + {c};
      if live {
        results' := results + {c};
        ghost var out := c;
        if |results'| > ef {
          var far := Farthest(results');
          out := far;
          results' := results' - {far};
        }
        if results' != {} {
          var top := Farthest(results');
          worst' := At(top.dist);
        }
        PushKeepsInv(layer, q, entry, s, c.id, results', out, worst');
      } else {
        if results' != {} {
          var top := Farthest(results');
          worst' := At(top.dist);
        }
        PassKeepsInv(layer, q, entry, s, c.id);
      }
    } else {
      SkipKeepsInv(layer, q, entry, s, c.id);
    }
    s' := State(s.visited + {c.id}, s.expanded, frontier', results', worst');
  }

  /** Hill climbing: ends on a node none of whose links is closer. */
  method GreedyDescend(layer: Layer, dist: nat -> real, entry: nat) returns (cur: nat, curDist: real)
    requires Closed(layer) && entry in layer
    ensures cur in layer && Reachable(layer, entry, cur)
    ensures curDist == dist(cur) <= dist(entry)
    ensures forall y :: y in layer[cur] ==> dist(cur) <= dist(y)
  {
    cur := entry;
    curDist := dist(cur);
    ReachableSelf(layer, entry);
    var changed := true;
    while changed
      invariant cur in layer && Reachable(layer, entry, cur)
      invariant curDist == dist(cur) <= dist(entry)
      invariant !changed ==> forall y :: y in layer[cur] ==> dist(cur) <= dist(y)
      decreases Closer(layer, dist, curDist), changed
    {
      changed := false;
      var from := cur;
      var links := layer[from];
      for i := 0 to |links|
        invariant cur in layer && Reachable(layer, entry, cur)
        invariant curDist == dist(cur) <= dist(from)
        invariant if changed then dist(cur) < dist(from) else cur == from
        invariant forall j :: 0 <= j < i ==> curDist <= dist(links[j])
      {
        var cand := links[i];
        assert cand in layer[from] && cand in layer;
        var d := dist(cand);
        if d < curDist {
          ReachableStep(layer, entry, from, cand);
          curDist := d;
          cur := cand;
          changed := true;
        }
      }
      assert changed ==> cur in Closer(layer, dist, dist(from)) - Closer(layer, dist, curDist);
    }
  }

  /** The real variables of a search agree with the state the proofs speak of. */
  ghost predicate Mirrors(visited: VisitedList, frontier: set<Cand>, results: set<Cand>, worst: Bound, s: State)
    reads visited, visited.marks
  {
    && visited.Valid() && visited.Members() == s.visited
    && frontier == s.frontier && results == s.results && worst == s.worst
  }

  /** Following the links of one expanded node. */
  method VisitLinks(visited: VisitedList, layer: Layer, q: Query, best: nat,
                    frontier: set<Cand>, results: set<Cand>, worst: Bound, ghost entry: nat, ghost s: State)
    returns (frontier': set<Cand>, results': set<Cand>, worst': Bound, ghost s': State)
    requires Searchable(layer, visited.marks.Length) && best in s.expanded
    requires Mirrors(visited, frontier, results, worst, s)
    requires Inv(layer, q, entry, s)
    modifies visited.marks
    ensures Mirrors(visited, frontier', results', worst', s')
    ensures Inv(layer, q, entry, s')
    ensures s'.expanded == s.expanded && s.visited <= s'.visited
    ensures s'.visited == s.visited ==> s'.frontier == s.frontier
    ensures forall y :: y in layer[best] ==> y in s'.visited
  {
    frontier', results', worst', s' := frontier, results, worst, s;
    var links := layer[best];
    var n := if |links| < MAX_DEGREE then |links| else MAX_DEGREE;
    for i := 0 to n
      invariant Mirrors(visited, frontier', results', worst', s')
      invariant Inv(layer, q, entry, s')
      invariant s'.expanded == s.expanded && s.visited <= s'.visited
      invariant s'.visited == s.visited ==> s'.frontier == s.frontier
      invariant forall j :: 0 <= j < i ==> links[j] in s'.visited
    {
      var cand := links[i];
      assert cand in layer;
      var was := visited.TestAndSet(cand);
      if !was {
        ReachableStep(layer, entry, best, cand);
        frontier', results', worst', s' := Admit(layer, q.ef, q.live(cand), Cand(q.dist(cand), cand),
                                                 frontier', results', worst', q, entry, s');
      }
    }
  }

  /** Beam search with any recycled visited list. */
  method SearchLayer(visited: VisitedList, layer: Layer, q: Query, entry: nat)
    returns (results: set<Cand>, ghost expanded: set<nat>)
    requires Searchable(layer, visited.marks.Length) && entry in layer && visited.Valid()
    modifies visited, visited.marks
    ensures visited.Valid()
    ensures Sound(layer, q, entry, results)
    ensures q.ef >= 1 ==> Complete(layer, q, entry, results, expanded)
    ensures q.ef >= 1 && q.live(entry) ==> results != {}
  {
    visited.Reset();
    var d0 := q.dist(entry);
    var frontier := {Cand(d0, entry)};
    results := {};
    if q.live(entry) {
      results := {Cand(d0, entry)};
    }
    var _ := visited.TestAndSet(entry);
    var worst := if results == {} then Unbounded else At(d0);
    ghost var s := State({entry}, {}, frontier, results, worst);
    StartInv(layer, q, entry, results, worst);

    while frontier != {}
      invariant Mirrors(visited, frontier, results, worst, s)
      invariant Inv(layer, q, entry, s)
      invariant ExpandedClosed(layer, s.visited, s.expanded)
      decreases layer.Keys - s.visited, |s.frontier|
    {
      var best := Nearest(frontier);
      if worst.At? && best.dist > worst.d && |results| >= q.ef {
        break;
      }
      ExpandKeepsInv(layer, q, entry, s, best);
      frontier := frontier - {best};
      ghost var s0 := s;
      s := s.(frontier := frontier, expanded := s.expanded + {best.id});
      frontier, results, worst, s := VisitLinks(visited, layer, q, best.id, frontier, results, worst, entry, s);
      ExpandedGrows(layer, s0, s, best.id);
    }
    expanded := s.expanded;
    StoppedIsComplete(layer, q, entry, s);
  }
}
