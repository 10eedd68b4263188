/** The link structure of one layer: what makes it well formed and what connecting a new
    node does to it. */
module LayerGraph {
  import opened Candidates
  import opened Neighbors
  import opened Beam

  ghost predicate Distinct(s: seq<nat>) {
    forall i, j :: 0 <= i < j < |s| ==> s[i] != s[j]
  }

  /** A node's links: within capacity, no repetition, no self-link, all on this layer. */
  ghost predicate ListOk(layer: Layer, x: nat, s: seq<nat>, cap: nat) {
    && |s| <= cap && Distinct(s) && x !in s
    && forall y :: y in s ==> y in layer
  }

  ghost predicate LayerOk(layer: Layer, cap: nat) {
    forall x :: x in layer ==> ListOk(layer, x, layer[x], cap)
  }

  /** As soon as a layer holds a second node, every node on it has a link. */
  ghost predicate AllLinked(layer: Layer) {
    forall x, y :: x in layer && y in layer && x != y ==> layer[x] != []
  }

  /** The same, leaving out a node that is still being inserted. */
  ghost predicate AllLinkedBut(layer: Layer, id: nat) {
    forall x, y :: x in layer && y in layer && x != y && x != id && y != id ==> layer[x] != []
  }

  /** No link leads from or to id. */
  ghost predicate Isolated(layer: Layer, id: nat) {
    && (id in layer ==> layer[id] == [])
    && forall x :: x in layer ==> id !in layer[x]
  }

  lemma OkIsClosed(layer: Layer, cap: nat)
    requires LayerOk(layer, cap)
    ensures Closed(layer)
  {
  }

  lemma AbsentIsIsolated(layer: Layer, id: nat, cap: nat)
    requires LayerOk(layer, cap) && id !in layer
    ensures Isolated(layer, id)
  {
    assert forall x :: x in layer ==> ListOk(layer, x, layer[x], cap);
  }

  /** A node that enters a layer without links. */
  lemma AddIsolated(layer: Layer, id: nat, cap: nat)
    requires LayerOk(layer, cap) && AllLinked(layer) && id !in layer
    ensures var after := layer[id := []];
      && LayerOk(after, cap) && Isolated(after, id) && AllLinkedBut(after, id)
      && (layer == map[] ==> AllLinked(after))
  {
    AbsentIsIsolated(layer, id, cap);
    var after := layer[id := []];
    forall x | x in after ensures ListOk(after, x, after[x], cap) {
      assert x != id ==> ListOk(layer, x, layer[x], cap);
    }
  }

  lemma IsolatedNotReached(layer: Layer, id: nat, a: nat, x: nat)
    requires Isolated(layer, id) && a != id && Reachable(layer, a, x)
    ensures x != id
  {
    var p :| IsPath(layer, p) && p[0] == a && p[|p| - 1] == x;
    if |p| > 1 {
      assert p[|p| - 1] in layer[p[|p| - 2]];
    }
  }

  /** Entries of one queue have different ids. */
  ghost predicate DistinctIds(queue: set<Cand>) {
    forall c, d :: c in queue && d in queue && c.id == d.id ==> c == d
  }

  /** The list the heuristic picks from a queue: distinct members, as many as fit. */
  lemma PickedList(between: Between, cands: seq<Cand>, top: set<Cand>, m: nat)
    requires SortingOf(cands, top) && |cands| == |top| && DistinctIds(top)
    ensures var picked := IdsAt(cands, Choose(between, cands, m));
      && |picked| == (if |top| <= m then |top| else m)
      && Distinct(picked)
      && (forall y :: y in picked ==> exists c :: c in top && c.id == y)
  {
    var ps := Choose(between, cands, m);
    var picked := IdsAt(cands, ps);
    ChooseCounts(between, cands, m);
    forall i, j | 0 <= i < j < |picked| ensures picked[i] != picked[j] {
      PositionsApart(cands, top, ps[i], ps[j]);
    }
    forall y | y in picked ensures exists c :: c in top && c.id == y {
      var i :| 0 <= i < |picked| && picked[i] == y;
      assert cands[ps[i]] in cands;
    }
  }

  lemma PositionsApart(cands: seq<Cand>, top: set<Cand>, p: nat, r: nat)
    requires SortingOf(cands, top) && DistinctIds(top)
    requires p < |cands| && r < |cands| && p != r
    ensures cands[p].id != cands[r].id
  {
    assert cands[p] in cands && cands[r] in cands;
    if p < r {
      assert Before(cands[p], cands[r]);
    } else {
      assert Before(cands[r], cands[p]);
    }
  }

  /** The queue a full node n re-prunes: its links and the newcomer. */
  ghost predicate IsPool(between: Between, n: nat, links: seq<nat>, id: nat, pool: set<Cand>) {
    forall c :: c in pool <==> c.dist == between(n, c.id) && (c.id in links || c.id == id)
  }

  /** n's list after the newcomer id linked to it. */
  ghost predicate Updated(between: Between, n: nat, id: nat, cap: nat, before: seq<nat>, after: seq<nat>) {
    if |before| < cap then after == before + [id]
    else exists cands, pool :: Pruned(between, n, id, cap, before, after, cands, pool)
  }

  ghost predicate Pruned(between: Between, n: nat, id: nat, cap: nat, before: seq<nat>, after: seq<nat>,
                         cands: seq<Cand>, pool: set<Cand>) {
    && IsPool(between, n, before, id, pool)
    && SortingOf(cands, pool) && |cands| == |pool| == cap + 1
    && after == IdsAt(cands, Choose(between, cands, cap))
  }

  /** Re-pruning a full node keeps its degree and gives up exactly one of its links and
      the newcomer: the farthest covered one, or the farthest when none is covered. */
  lemma PruneConserves(between: Between, n: nat, id: nat, cap: nat, before: seq<nat>, after: seq<nat>,
                       cands: seq<Cand>, pool: set<Cand>)
    requires Pruned(between, n, id, cap, before, after, cands, pool)
    ensures |after| == cap && Distinct(after)
    ensures forall y :: y in after <==>
              (y in before || y == id) && y != cands[Dropped(between, cands)].id
  {
    var ps := Choose(between, cands, cap);
    var gone := Dropped(between, cands);
    PickedList(between, cands, pool, cap);
    PruneDropsOne(between, cands, cap);
    forall y | y in after ensures (y in before || y == id) && y != cands[gone].id {
      var i :| 0 <= i < |after| && after[i] == y;
      assert ps[i] in ps && cands[ps[i]] in cands;
      PositionsApart(cands, pool, ps[i], gone);
    }
    forall y | (y in before || y == id) && y != cands[gone].id ensures y in after {
      var c := Cand(between(n, y), y);
      assert c in pool && c in cands;
      var p :| 0 <= p < |cands| && cands[p] == c;
      assert p in ps;
      var i :| 0 <= i < |ps| && ps[i] == p;
      assert after[i] == y;
    }
  }

  lemma UpdatedIsOk(between: Between, layer: Layer, n: nat, id: nat, cap: nat, after: seq<nat>)
    requires n in layer && id in layer && id != n && id !in layer[n]
    requires ListOk(layer, n, layer[n], cap)
    requires Updated(between, n, id, cap, layer[n], after)
    ensures ListOk(layer, n, after, cap) && |after| >= |layer[n]|
    ensures cap >= 1 ==> after != []
  {
    if |layer[n]| >= cap {
      var cands, pool :| Pruned(between, n, id, cap, layer[n], after, cands, pool);
      PruneConserves(between, n, id, cap, layer[n], after, cands, pool);
    }
  }

  /** Connecting id: its own list is `selected`, the selected nodes' lists take id in, and
      nobody else's list changes. */
  ghost predicate Relinked(between: Between, before: Layer, after: Layer, id: nat, selected: seq<nat>, cap: nat) {
    && after.Keys == before.Keys && id in before && after[id] == selected
    && forall n :: n in before && n != id ==>
         if n in selected then Updated(between, n, id, cap, before[n], after[n])
         else after[n] == before[n]
  }

  lemma RelinkKeepsOk(between: Between, before: Layer, after: Layer, id: nat, selected: seq<nat>, cap: nat)
    requires cap >= 1 && LayerOk(before, cap) && Isolated(before, id) && AllLinkedBut(before, id)
    requires ListOk(before, id, selected, cap) && selected != []
    requires Relinked(between, before, after, id, selected, cap)
    ensures LayerOk(after, cap) && AllLinked(after)
    ensures forall n :: n in before ==> |after[n]| >= |before[n]|
  {
    forall n | n in before && n != id
      ensures ListOk(before, n, after[n], cap) && |after[n]| >= |before[n]|
      ensures n in selected ==> after[n] != []
    {
      if n in selected {
        UpdatedIsOk(between, before, n, id, cap, after[n]);
      }
    }
    assert selected[0] in selected && selected[0] in before;
  }

  /** The picked list is a proper list for the new node. */
  lemma PickedFits(layer: Layer, id: nat, top: set<Cand>, picked: seq<nat>, m: nat, cap: nat)
    requires forall c :: c in top ==> c.id in layer && c.id != id
    requires Distinct(picked) && |picked| <= m <= cap
    requires forall y :: y in picked ==> exists c :: c in top && c.id == y
    ensures ListOk(layer, id, picked, cap)
  {
  }

  /** Linking back has reached the first i of the selected nodes. */
  ghost predicate PartlyRelinked(between: Between, base: Layer, now: Layer, id: nat, selected: seq<nat>, i: nat, cap: nat)
    requires i <= |selected|
  {
    && now.Keys == base.Keys && id in base && now[id] == selected
    && forall n :: n in base && n != id ==>
         if n in selected[..i] then Updated(between, n, id, cap, base[n], now[n])
         else now[n] == base[n]
  }

  lemma NotYetRelinked(between: Between, base: Layer, now: Layer, id: nat, selected: seq<nat>, i: nat, cap: nat)
    requires i < |selected| && ListOk(base, id, selected, cap) && LayerOk(base, cap) && Isolated(base, id)
    requires PartlyRelinked(between, base, now, id, selected, i, cap)
    ensures var n := selected[i];
      && n in base && n != id && n in now && id in now && now[n] == base[n]
      && id !in now[n] && ListOk(now, n, now[n], cap)
  {
    assert selected[i] in selected && selected[i] !in selected[..i];
  }

  lemma RelinkOneMore(between: Between, base: Layer, before: Layer, after: Layer, id: nat, selected: seq<nat>, i: nat, cap: nat)
    requires i < |selected| && Distinct(selected)
    requires PartlyRelinked(between, base, before, id, selected, i, cap)
    requires selected[i] in base && selected[i] != id
    requires selected[i] in after && after == before[selected[i] := after[selected[i]]]
    requires Updated(between, selected[i], id, cap, before[selected[i]], after[selected[i]])
    ensures PartlyRelinked(between, base, after, id, selected, i + 1, cap)
  {
    assert selected[..i + 1] == selected[..i] + [selected[i]];
    assert selected[i] !in selected[..i];
  }
}
