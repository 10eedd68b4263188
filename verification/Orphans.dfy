/** Which insertions leave the new node without a link to it: exact condition and an instance. A
    search that does not start at such a node never finds it, however wide its beam. */
module Orphans {
  import opened Candidates
  import opened Neighbors
  import opened Beam
  import opened LayerGraph

  /** No link of the layer leads to id. */
  ghost predicate NoLinkTo(layer: Layer, id: nat) {
    forall x :: x in layer ==> id !in layer[x]
  }

  /** Of n's links and the newcomer it is the newcomer that re-pruning drops. */
  ghost predicate DropsNewcomer(between: Between, n: nat, id: nat, cap: nat, before: seq<nat>, cands: seq<Cand>, pool: set<Cand>) {
    && IsPool(between, n, before, id, pool) && SortingOf(cands, pool) && |cands| == |pool| == cap + 1
    && cands[Dropped(between, cands)].id == id
  }

  /** n's block is full and gives the newcomer up. */
  ghost predicate GivesUp(between: Between, n: nat, id: nat, cap: nat, before: seq<nat>) {
    |before| >= cap && exists cands, pool :: DropsNewcomer(between, n, id, cap, before, cands, pool)
  }

  lemma DroppingIsDetermined(between: Between, n: nat, id: nat, cap: nat, before: seq<nat>, cands: seq<Cand>, pool: set<Cand>)
    requires IsPool(between, n, before, id, pool) && SortingOf(cands, pool) && |cands| == |pool| == cap + 1 && |before| >= cap
    ensures GivesUp(between, n, id, cap, before) <==> cands[Dropped(between, cands)].id == id
  {
    if GivesUp(between, n, id, cap, before) {
      var cands', pool' :| DropsNewcomer(between, n, id, cap, before, cands', pool');
      SamePool(between, n, before, id, pool, pool');
      SortingIsUnique(cands, cands', pool);
    }
    if cands[Dropped(between, cands)].id == id {
      assert DropsNewcomer(between, n, id, cap, before, cands, pool);
    }
  }

  lemma SamePool(between: Between, n: nat, links: seq<nat>, id: nat, a: set<Cand>, b: set<Cand>)
    requires IsPool(between, n, links, id, a) && IsPool(between, n, links, id, b)
    ensures a == b
  {
    forall c ensures c in a <==> c in b {
    }
  }

  /** One linked-back node: the newcomer is missing from its list exactly if it is given up. */
  lemma MissingIffGivenUp(between: Between, n: nat, id: nat, cap: nat, before: seq<nat>, after: seq<nat>)
    requires Updated(between, n, id, cap, before, after) && id !in before
    ensures id !in after <==> GivesUp(between, n, id, cap, before)
  {
    if |before| < cap {
      assert after[|before|] == id;
    } else {
      var cands, pool :| Pruned(between, n, id, cap, before, after, cands, pool);
      PruneConserves(between, n, id, cap, before, after, cands, pool);
      DroppingIsDetermined(between, n, id, cap, before, cands, pool);
    }
  }

  /** A queue has one ascending listing. */
  lemma SortingIsUnique(a: seq<Cand>, b: seq<Cand>, queue: set<Cand>)
    requires SortingOf(a, queue) && SortingOf(b, queue) && |a| == |b| == |queue|
    ensures a == b
    decreases |a|
  {
    if a != [] {
      var x := a[0];
      assert x in queue && b[0] in queue && x in b && b[0] in a;
      FirstIsFirst(a, queue, b[0]);
      FirstIsFirst(b, queue, x);
      assert x == b[0];
      RestSorts(a, queue);
      RestSorts(b, queue);
      SortingIsUnique(a[1..], b[1..], queue - {x});
      assert a == [x] + a[1..] && b == [x] + b[1..];
    }
  }

  lemma FirstIsFirst(a: seq<Cand>, queue: set<Cand>, y: Cand)
    requires SortingOf(a, queue) && a != [] && y in a
    ensures y == a[0] || Before(a[0], y)
  {
    var i :| 0 <= i < |a| && a[i] == y;
  }

  lemma RestSorts(a: seq<Cand>, queue: set<Cand>)
    requires SortingOf(a, queue) && a != [] && |a| == |queue|
    ensures SortingOf(a[1..], queue - {a[0]}) && |a[1..]| == |queue - {a[0]}|
  {
    assert forall i :: 0 < i < |a| ==> Before(a[0], a[i]);
    forall c ensures c in a[1..] <==> c in queue - {a[0]} {
      if c in a[1..] {
        var i :| 0 <= i < |a[1..]| && a[1..][i] == c;
        assert a[i + 1] == c && c in a;
      }
      if c in queue - {a[0]} {
        assert c in a;
        var i :| 0 <= i < |a| && a[i] == c;
        assert a[1..][i - 1] == c;
      }
    }
  }

  /** The new node ends up without a link to it if and only if every node it selected is full and
      gives it up. */
  lemma OrphanedIff(between: Between, before: Layer, after: Layer, id: nat, selected: seq<nat>, cap: nat)
    requires Relinked(between, before, after, id, selected, cap) && Isolated(before, id) && id !in selected
    requires forall n :: n in selected ==> n in before
    ensures NoLinkTo(after, id) <==> forall n :: n in selected ==> GivesUp(between, n, id, cap, before[n])
  {
    forall n | n in selected ensures id !in after[n] <==> GivesUp(between, n, id, cap, before[n]) {
      MissingIffGivenUp(between, n, id, cap, before[n], after[n]);
    }
  }

  // --- an instance: M = 1 on layer 0, where a block has room for two links

  /** Points of the plane: 0 at the origin, 1 and 2 at distance 1 on either side of it, 3 at distance
      2 from it, at right angles. Distances are squared. */
  function Squared(x: nat, y: nat): real {
    var px, py := if x == 1 then -1.0 else if x == 2 then 1.0 else 0.0, if x == 3 then 2.0 else 0.0;
    var qx, qy := if y == 1 then -1.0 else if y == 2 then 1.0 else 0.0, if y == 3 then 2.0 else 0.0;
    (px - qx) * (px - qx) + (py - qy) * (py - qy)
  }

  /** What the instance needs of the distances. */
  ghost predicate AtRightAngles(between: Between) {
    && between(0, 1) == 1.0 && between(0, 2) == 1.0 && between(0, 3) == 4.0 && between(2, 1) == 4.0
    && between(3, 0) == 4.0 && between(3, 1) == 5.0 && between(3, 2) == 5.0
  }

  lemma SquaredIs()
    ensures AtRightAngles(Squared)
  {
  }

  /** Before and after connecting 3, whose one selected neighbour is 0. */
  function Old(): Layer {
    map[0 := [1, 2], 1 := [0], 2 := [0], 3 := []]
  }

  function New(): Layer {
    map[0 := [1, 2], 1 := [0], 2 := [0], 3 := [0]]
  }

  lemma ZeroPool(between: Between, pool: set<Cand>)
    requires AtRightAngles(between) && pool == {Cand(1.0, 1), Cand(1.0, 2), Cand(4.0, 3)}
    ensures IsPool(between, 0, [1, 2], 3, pool)
  {
    forall c: Cand ensures c in pool <==> c.dist == between(0, c.id) && (c.id in [1, 2] || c.id == 3) {
      assert c.id in [1, 2] <==> c.id == 1 || c.id == 2;
    }
  }

  lemma ZeroSorts(cands: seq<Cand>, pool: set<Cand>)
    requires cands == [Cand(1.0, 1), Cand(1.0, 2), Cand(4.0, 3)] && pool == {Cand(1.0, 1), Cand(1.0, 2), Cand(4.0, 3)}
    ensures SortingOf(cands, pool) && |cands| == |pool| == 3
  {
  }

  lemma PrunedIsUpdated(between: Between, n: nat, id: nat, cap: nat, before: seq<nat>, after: seq<nat>,
                        cands: seq<Cand>, pool: set<Cand>)
    requires Pruned(between, n, id, cap, before, after, cands, pool) && |before| >= cap
    ensures Updated(between, n, id, cap, before, after)
  {
  }

  /** Node 0 re-prunes 1, 2 and the newcomer 3 to two links and gives 3 up. */
  lemma ZeroKeepsItsLinks(between: Between, links: seq<nat>)
    requires AtRightAngles(between) && links == [1, 2]
    ensures Updated(between, 0, 3, 2, links, links)
  {
    var cands, pool := [Cand(1.0, 1), Cand(1.0, 2), Cand(4.0, 3)], {Cand(1.0, 1), Cand(1.0, 2), Cand(4.0, 3)};
    ZeroPool(between, pool);
    ZeroSorts(cands, pool);
    TwoUncovered(between, cands);
    PrunedIsUpdated(between, 0, 3, 2, links, links, cands, pool);
  }

  lemma TwoUncovered(between: Between, cands: seq<Cand>)
    requires AtRightAngles(between) && cands == [Cand(1.0, 1), Cand(1.0, 2), Cand(4.0, 3)]
    ensures IdsAt(cands, Choose(between, cands, 2)) == [1, 2]
  {
    assert !Covered(between, cands, 0) && !Covered(between, cands, 1);
    assert Positions(between, cands, 0, false) == [];
    assert Positions(between, cands, 1, false) == [0];
    assert Positions(between, cands, 2, false) == [0, 1];
    PositionsPrefix(between, cands, 2, 3, false);
    assert Choose(between, cands, 2) == [0, 1];
  }

  /** Of the three nodes the search finds for 3, the heuristic picks the nearest, 0. */
  lemma ZeroIsPicked(between: Between, cands: seq<Cand>)
    requires AtRightAngles(between) && cands == [Cand(4.0, 0), Cand(5.0, 1), Cand(5.0, 2)]
    ensures SortingOf(cands, {Cand(between(3, 0), 0), Cand(between(3, 1), 1), Cand(between(3, 2), 2)})
    ensures IdsAt(cands, Choose(between, cands, 1)) == [0]
  {
    assert !Covered(between, cands, 0);
    assert Positions(between, cands, 0, false) == [];
    assert Positions(between, cands, 1, false) == [0];
    PositionsPrefix(between, cands, 1, 3, false);
    assert Choose(between, cands, 1) == [0];
  }

  lemma OldIsOk()
    ensures LayerOk(Old(), 2) && Isolated(Old(), 3)
  {
    forall x | x in Old() ensures ListOk(Old(), x, Old()[x], 2) && 3 !in Old()[x] {
    }
  }

  lemma NewIsOk()
    ensures LayerOk(New(), 2) && NoLinkTo(New(), 3)
  {
    forall x | x in New() ensures ListOk(New(), x, New()[x], 2) && 3 !in New()[x] {
    }
  }

  lemma ThreeConnected(between: Between, before: Layer, after: Layer, selected: seq<nat>)
    requires before.Keys == after.Keys == {0, 1, 2, 3} && selected == [0] && after[3] == selected
    requires Updated(between, 0, 3, 2, before[0], after[0]) && after[1] == before[1] && after[2] == before[2]
    ensures Relinked(between, before, after, 3, selected, 2)
  {
    assert forall n: nat :: n in selected <==> n == 0;
  }

  lemma OldAndNew(before: Layer, after: Layer)
    requires before == Old() && after == New()
    ensures before.Keys == after.Keys == {0, 1, 2, 3}
    ensures before[0] == after[0] == [1, 2] && after[1] == before[1] && after[2] == before[2] && after[3] == [0]
  {
  }

  /** The insertion of 3: a step the algorithm can take, between sound layers, after which nothing links
      to 3. SquaredIs gives such distances for L2. */
  lemma AnOrphan(between: Between, before: Layer, after: Layer, selected: seq<nat>)
    requires AtRightAngles(between) && before == Old() && after == New() && selected == [0]
    ensures Relinked(between, before, after, 3, selected, 2) && LayerOk(before, 2) && LayerOk(after, 2)
    ensures Isolated(before, 3) && NoLinkTo(after, 3)
  {
    OldAndNew(before, after);
    ZeroKeepsItsLinks(between, before[0]);
    ThreeConnected(between, before, after, selected);
    OldIsOk();
    NewIsOk();
  }
}
