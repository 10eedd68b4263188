/** Whole runs of one index: every sequence of insertions, with whatever levels, and of soft
    deletes and undeletes keeps the graph invariant and computes the table the calls spell. */
module IndexRuns {
  import opened KeyTable
  import opened VisitedLists
  import opened GraphStore
  import opened LayerGraph
  import opened NodeSlots
  import opened HnswIndex
  import opened Insertion

  datatype Call = Insert(vector: Vector, key: Key, level: nat) | Delete(key: Key) | Undelete(key: Key)

  /** The write a call asks for. */
  function WriteOf(metric: Metric, c: Call): Write {
    match c
    case Insert(v, k, _) => Write.Insert(k, metric.prepare(v))
    case Delete(k) => Mark(k, true)
    case Undelete(k) => Mark(k, false)
  }

  /** What a call does to the table of keys. */
  function Effect(metric: Metric, t: Table, c: Call): Reply {
    KeyTable.Perform(t, WriteOf(metric, c))
  }

  function TableAfter(metric: Metric, t: Table, calls: seq<Call>): Table {
    if calls == [] then t
    else Effect(metric, TableAfter(metric, t, calls[..|calls| - 1]), calls[|calls| - 1]).table
  }

  /** The calls that are answered with success, in order. */
  function Successes(metric: Metric, t: Table, calls: seq<Call>): seq<bool> {
    if calls == [] then []
    else
      var before := calls[..|calls| - 1];
      Successes(metric, t, before)
      + [Effect(metric, TableAfter(metric, t, before), calls[|calls| - 1]).outcome == Ok]
  }

  ghost predicate RightSize(calls: seq<Call>, dim: nat) {
    forall c :: c in calls && c.Insert? ==> |c.vector| == dim
  }

  /** One call. */
  method Perform(index: Index, visited: VisitedList, c: Call) returns (ok: bool)
    requires index.Valid() && (c.Insert? ==> |c.vector| == index.dim)
    requires visited.Valid() && visited.marks.Length == index.maxElements
    modifies index, visited, visited.marks
    ensures index.Valid() && visited.Valid()
    ensures index.Contents() == Effect(index.metric, old(index.Contents()), c).table
    ensures ok <==> Effect(index.metric, old(index.Contents()), c).outcome == Ok
    ensures DegreesKept(old(index.graph), index.graph)
  {
    match c {
      case Insert(v, k, level) =>
        ok := PerformInsert(index, visited, v, k, level);
      case Delete(k) =>
        ok := index.MarkDeleted(k);
        NothingShorter(index.graph);
      case Undelete(k) =>
        ok := index.UnmarkDeleted(k);
        NothingShorter(index.graph);
    }
  }

  method PerformInsert(index: Index, visited: VisitedList, v: Vector, k: Key, level: nat) returns (ok: bool)
    requires index.Valid() && |v| == index.dim
    requires visited.Valid() && visited.marks.Length == index.maxElements
    modifies index, visited, visited.marks
    ensures index.Valid() && visited.Valid()
    ensures index.Contents() == Add(old(index.Contents()), k, index.metric.prepare(v)).table
    ensures ok <==> Add(old(index.Contents()), k, index.metric.prepare(v)).outcome == Ok
    ensures DegreesKept(old(index.graph), index.graph)
  {
    NothingShorter(index.graph);
    var r := index.AddPoint(visited, v, k, level);
    ok := r.Added?;
  }

  lemma NothingShorter(g: Graph)
    requires g.Stored()
    ensures DegreesKept(g, g)
  {
    forall l: nat ensures DegreesKeptOn(g, g, l) {
    }
  }

  /** Every run from any valid index. */
  method PerformAll(index: Index, visited: VisitedList, calls: seq<Call>) returns (oks: seq<bool>)
    requires index.Valid() && RightSize(calls, index.dim)
    requires visited.Valid() && visited.marks.Length == index.maxElements
    modifies index, visited, visited.marks
    ensures index.Valid() && visited.Valid()
    ensures index.Contents() == TableAfter(index.metric, old(index.Contents()), calls)
    ensures oks == Successes(index.metric, old(index.Contents()), calls)
    ensures DegreesKept(old(index.graph), index.graph)
  {
    oks := [];
    ghost var start, graph := index.Contents(), index.graph;
    for i := 0 to |calls|
      invariant index.Valid() && visited.Valid()
      invariant index.Contents() == TableAfter(index.metric, start, calls[..i])
      invariant oks == Successes(index.metric, start, calls[..i])
      invariant DegreesKept(graph, index.graph)
    {
      assert calls[..i + 1][..i] == calls[..i] && calls[i] in calls;
      ghost var before := index.graph;
      var ok := Perform(index, visited, calls[i]);
      DegreesTransitive(graph, before, index.graph);
      oks := oks + [ok];
    }
    assert calls[..|calls|] == calls;
  }

  /** One node's links on one layer: within the block and the layer's degree, to other nodes,
      each once, all existing and tall enough; and not empty once the layer has two nodes. */
  ghost predicate LinksSound(g: Graph, id: nat, l: nat)
    requires g.Stored() && id < g.count && l <= g.levels[id]
  {
    && g.arena.InBounds(id, l, g.arena.Capacity(l)) && g.arena.HasBlock(id, l)
    && var links := g.arena.Links(id, l);
    && |links| <= (if l == 0 then 2 * g.arena.m else g.arena.m)
    && (forall i, j :: 0 <= i < j < |links| ==> links[i] != links[j])
    && (forall i :: 0 <= i < |links| ==> links[i] != id && links[i] < g.count && g.levels[links[i]] >= l)
    && ((exists y: nat :: y < g.count && y != id && g.levels[y] >= l) ==> links != [])
  }

  lemma NodeLinks(g: Graph, id: nat, l: nat)
    requires g.Ok() && id < g.count && l <= g.levels[id]
    ensures LinksSound(g, id, l)
  {
    assert g.LayerSound(l);
    var layer := g.Layer(l);
    assert g.arena.HasBlock(id, l);
    assert id in layer && layer[id] == g.arena.Links(id, l);
    assert ListOk(layer, id, layer[id], g.Capacity(l));
    var links := layer[id];
    forall i | 0 <= i < |links| ensures links[i] in layer && links[i] != id {
      assert links[i] in links;
    }
    if y: nat :| y < g.count && y != id && g.levels[y] >= l {
      assert y in layer && layer[id] != [];
    }
  }

  /** What a valid index guarantees, in plain terms: every node's links on every layer, the entry
      point on top, the label map inverse to the labels, the number of tombstones. */
  lemma IndexInvariant(index: Index)
    requires index.Valid()
    ensures forall id: nat, l: nat :: id < index.graph.count && l <= index.graph.levels[id]
              ==> LinksSound(index.graph, id, l)
    ensures index.graph.count > 0 ==>
      && index.entryPoint < index.graph.count && index.graph.levels[index.entryPoint] == index.maxLevel
      && forall x :: 0 <= x < index.graph.count ==> index.graph.levels[x] <= index.maxLevel
    ensures forall k, id: nat :: k in index.nodes.labelToId && index.nodes.labelToId[k] == id
              <==> id < index.graph.count && index.nodes.labels[id] == k
    ensures index.numDeleted == Tombstones(index.nodes.deleted, index.graph.count)
  {
    forall id: nat, l: nat | id < index.graph.count && l <= index.graph.levels[id]
      ensures LinksSound(index.graph, id, l)
    {
      NodeLinks(index.graph, id, l);
    }
    var nodes, count := index.nodes, index.graph.count;
    forall k, id: nat
      ensures k in nodes.labelToId && nodes.labelToId[k] == id <==> id < count && nodes.labels[id] == k
    {
      assert k in nodes.labelToId ==> nodes.KeyOk(k, count);
      assert id < count ==> nodes.SlotOk(id, index.dim);
    }
  }
}
