/** Connecting a node on one layer: the new node's own links and the links back to it
    (the linking half of Algorithm 1 of Malkov and Yashunin). */
module Linking {
  import opened Candidates
  import opened Neighbors
  import opened Beam
  import opened LayerGraph
  import opened GraphStore

  /** The queue a full node re-prunes, filled link by link. */
  method GatherPool(between: Between, n: nat, links: seq<nat>, id: nat) returns (pool: set<Cand>)
    requires Distinct(links) && id !in links
    ensures IsPool(between, n, links, id, pool) && |pool| == |links| + 1
  {
    pool := {Cand(between(n, id), id)};
    for i := 0 to |links|
      invariant |pool| == i + 1
      invariant forall c :: c in pool <==> c.dist == between(n, c.id) && (c.id in links[..i] || c.id == id)
    {
      assert links[..i + 1] == links[..i] + [links[i]];
      assert links[i] !in links[..i];
      var c := Cand(between(n, links[i]), links[i]);
      assert c !in pool;
      pool := pool + {c};
    }
    assert links[..|links|] == links;
  }

  /** Node n takes the newcomer id into its list, re-pruning when the block is full. */
  method LinkBack(g: Graph, between: Between, n: nat, id: nat, level: nat) returns (h: Graph)
    requires g.Stored() && n in g.Layer(level) && id in g.Layer(level) && id != n
    requires ListOk(g.Layer(level), n, g.Layer(level)[n], g.Capacity(level)) && id !in g.Layer(level)[n]
    ensures h.Stored() && SameBut(g, h, level)
    ensures n in h.Layer(level) && h.Layer(level) == g.Layer(level)[n := h.Layer(level)[n]]
    ensures Updated(between, n, id, g.Capacity(level), g.Layer(level)[n], h.Layer(level)[n])
  {
    var links := g.arena.Links(n, level);
    var maxDeg := g.Capacity(level);
    if |links| < maxDeg {
      h := ExtendList(g, n, level, id);
    } else {
      var pool := GatherPool(between, n, links, id);
      var kept, cands := SelectNeighbors(between, pool, maxDeg);
      assert Pruned(between, n, id, maxDeg, links, kept, cands, pool);
      PruneConserves(between, n, id, maxDeg, links, kept, cands, pool);
      assert forall i :: 0 <= i < |kept| ==> kept[i] in kept;
      h := StoreList(g, n, level, kept);
    }
  }

  /** Links every selected node back to id. */
  method LinkAllBack(g: Graph, between: Between, id: nat, picked: seq<nat>, level: nat, ghost base: Layer)
    returns (h: Graph)
    requires g.Stored() && LayerOk(base, g.Capacity(level)) && Isolated(base, id)
    requires ListOk(base, id, picked, g.Capacity(level))
    requires PartlyRelinked(between, base, g.Layer(level), id, picked, 0, g.Capacity(level))
    ensures h.Stored() && SameBut(g, h, level)
    ensures Relinked(between, base, h.Layer(level), id, picked, g.Capacity(level))
  {
    h := g;
    for i := 0 to |picked|
      invariant h.Stored() && SameBut(g, h, level)
      invariant PartlyRelinked(between, base, h.Layer(level), id, picked, i, g.Capacity(level))
    {
      ghost var before := h.Layer(level);
      NotYetRelinked(between, base, before, id, picked, i, g.Capacity(level));
      h := LinkBack(h, between, picked[i], id, level);
      RelinkOneMore(between, base, before, h.Layer(level), id, picked, i, g.Capacity(level));
    }
    assert picked[..|picked|] == picked;
  }

  /** Gives id its links and links back. */
  method WireUp(g: Graph, between: Between, id: nat, picked: seq<nat>, level: nat) returns (h: Graph)
    requires g.Stored() && id in g.Layer(level)
    requires LayerOk(g.Layer(level), g.Capacity(level)) && Isolated(g.Layer(level), id)
    requires ListOk(g.Layer(level), id, picked, g.Capacity(level))
    ensures h.Stored() && SameBut(g, h, level)
    ensures Relinked(between, g.Layer(level), h.Layer(level), id, picked, g.Capacity(level))
  {
    assert forall i :: 0 <= i < |picked| ==> picked[i] in picked;
    h := StoreList(g, id, level, picked);
    h := LinkAllBack(h, between, id, picked, level, g.Layer(level));
  }

  /** connectNewElement: picks the new node's links on one layer and links back. The returned
      node is where the search of the next layer down starts. */
  method ConnectNewElement(g: Graph, between: Between, id: nat, top: set<Cand>, level: nat, m: nat)
    returns (h: Graph, nextEntry: nat, ghost selected: seq<nat>, ghost cands: seq<Cand>)
    requires g.Stored() && id in g.Layer(level) && m <= g.Capacity(level)
    requires LayerOk(g.Layer(level), g.Capacity(level)) && Isolated(g.Layer(level), id)
    requires DistinctIds(top) && forall c :: c in top ==> c.id in g.Layer(level) && c.id != id
    ensures h.Stored() && SameBut(g, h, level)
    ensures SortingOf(cands, top) && |cands| == |top|
    ensures selected == IdsAt(cands, Choose(between, cands, m))
    ensures ListOk(g.Layer(level), id, selected, g.Capacity(level))
    ensures selected == [] ==> nextEntry == id && h == g
    ensures selected != [] ==>
      && nextEntry == selected[0]
      && Relinked(between, g.Layer(level), h.Layer(level), id, selected, g.Capacity(level))
  {
    var picked: seq<nat>;
    picked, cands := SelectNeighbors(between, top, m);
    selected := picked;
    PickedList(between, cands, top, m);
    PickedFits(g.Layer(level), id, top, picked, m, g.Capacity(level));
    if picked == [] {
      return g, id, selected, cands;
    }
    nextEntry := picked[0];
    h := WireUp(g, between, id, picked, level);
  }
}
