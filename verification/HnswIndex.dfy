/** The HNSW index: layered graph, per-node metadata, entry point, label map. Insertions
    are taken one at a time. */
module HnswIndex {
  import opened KeyTable
  import opened Candidates
  import opened GraphStore
  import opened NodeSlots
  import opened VisitedLists
  import opened Insertion
  import opened GraphSearch
  import opened TopK
  import opened Hits
  import opened LayerGraph
  import Beam
  import Placement
  import LayerSearch
  import Neighbors

  /** The "no entry point" id. */
  const NONE: nat := 0xFFFF_FFFF

  /** The space: what is stored for an inserted vector (normalised for cosine, itself for
      L2) and the distance of two stored vectors. Any two such functions will do. */
  datatype Metric = Metric(prepare: Vector -> Vector, raw: (Vector, Vector) -> real)

  ghost predicate KeepsLength(metric: Metric) {
    forall v: Vector :: |metric.prepare(v)| == |v|
  }

  function DistancesTo(metric: Metric, data: seq<Vector>, q: Vector): nat -> real {
    (x: nat) => if x < |data| then metric.raw(q, data[x]) else 0.0
  }

  function DistancesBetween(metric: Metric, data: seq<Vector>): Neighbors.Between {
    (x: nat, y: nat) => if x < |data| && y < |data| then metric.raw(data[x], data[y]) else 0.0
  }

  function LiveNodes(deleted: seq<bool>, filterDeleted: bool): nat -> bool {
    (x: nat) => !filterDeleted || (x < |deleted| && !deleted[x])
  }

  /** d gives the distance of any two stored vectors. */
  ghost predicate Measures(metric: Metric, data: seq<Vector>, d: Neighbors.Between) {
    forall x: nat, y: nat :: x < |data| && y < |data| ==> d(x, y) == metric.raw(data[x], data[y])
  }

  /** Inserting the node whose vector and label the slots already hold made `after` out of `before`,
      starting from this entry point: as Algorithm 1 has it, with the stored vectors' distances and a
      beam of this width, and so in terms of distances alone. */
  ghost predicate LinkedInto(metric: Metric, width: nat, nodes: Nodes, before: Graph, after: Graph,
                             level: nat, entry: nat, top: nat) {
    exists d, q :: LinkedBy(metric, width, nodes, before, after, level, entry, top, d, q)
  }

  ghost predicate LinkedBy(metric: Metric, width: nat, nodes: Nodes, before: Graph, after: Graph,
                           level: nat, entry: nat, top: nat, d: Neighbors.Between, q: Beam.Query) {
    && before.count < |nodes.data| && before.count < |before.levels| && before.count < |before.arena.upper|
    && Measures(metric, nodes.data, d) && Placement.PlacingQuery(d, q, before.count, width)
    && Inserted(d, q, before, after, level, entry, top)
    && Placement.Placed(d, before, after, width, level, entry, top)
  }

  /** The query an insertion makes: the new vector, tombstoned nodes included. */
  function PlacingQuery(metric: Metric, width: nat, nodes: Nodes, id: nat): Beam.Query
    requires id < |nodes.data|
  {
    Beam.Query(DistancesTo(metric, nodes.data, nodes.data[id]), LiveNodes(nodes.deleted, false), width)
  }

  /** An insertion by the code's distances and query is one in terms of stored vectors. */
  lemma InsertedIsLinked(metric: Metric, width: nat, nodes: Nodes, before: Graph, after: Graph, level: nat, entry: nat, top: nat)
    requires before.Ok() && before.count < |before.levels| == |nodes.data| && before.arena.m >= 1
    requires before.count > 0 ==> entry < before.count && before.levels[entry] == top && LevelsUpTo(before, top)
    requires before.count < |before.arena.upper|
    requires Inserted(DistancesBetween(metric, nodes.data), PlacingQuery(metric, width, nodes, before.count),
                      before, after, level, entry, top)
    ensures LinkedInto(metric, width, nodes, before, after, level, entry, top)
  {
    var d, q := DistancesBetween(metric, nodes.data), PlacingQuery(metric, width, nodes, before.count);
    assert Measures(metric, nodes.data, d) && Placement.PlacingQuery(d, q, before.count, width);
    Placement.InsertedIsPlaced(d, q, before, after, width, level, entry, top);
    assert LinkedBy(metric, width, nodes, before, after, level, entry, top, d, q);
  }

  /** Nothing that was found is nearer to the new node's vector than its first link. */
  ghost predicate FirstIsNearest(metric: Metric, data: seq<Vector>, id: nat, found: set<nat>, links: seq<nat>) {
    && id < |data| && links != [] && links[0] < |data|
    && forall x: nat :: x in found ==>
         x < |data| && metric.raw(data[id], data[links[0]]) <= metric.raw(data[id], data[x])
  }

  /** Of any two of the first k links the farther is no closer to the nearer than to the base point. */
  ghost predicate FirstAreDiverse(metric: Metric, data: seq<Vector>, base: nat, links: seq<nat>, k: nat) {
    && base < |data| && k <= |links|
    && forall i, j :: 0 <= i < j < k ==>
         && links[i] < |data| && links[j] < |data|
         && metric.raw(data[links[j]], data[links[i]]) >= metric.raw(data[base], data[links[j]])
  }

  /** One of the first k links is closer to x than the base point is. */
  ghost predicate Shadowed(metric: Metric, data: seq<Vector>, base: nat, links: seq<nat>, k: nat, x: nat) {
    && base < |data| && x < |data| && k <= |links|
    && exists i :: 0 <= i < k && links[i] < |data| && metric.raw(data[x], data[links[i]]) < metric.raw(data[base], data[x])
  }

  /** Links to the found nodes, to all of them if they are at most m, otherwise to m of them; the first
      is a nearest one. If there was a choice, the first k links are diverse; the links after them are
      shadowed by them, and so is everything left out, unless m diverse ones came before it. */
  ghost predicate PickedLinks(metric: Metric, data: seq<Vector>, id: nat, found: set<nat>, m: nat, links: seq<nat>, k: nat) {
    && Distinct(links) && (forall y: nat :: y in links ==> y in found)
    && |links| == (if |found| <= m then |found| else m)
    && FirstIsNearest(metric, data, id, found, links)
    && (|found| > m ==>
          && FirstAreDiverse(metric, data, id, links, k)
          && (forall p :: k <= p < |links| ==> Shadowed(metric, data, id, links, k, links[p]))
          && (k < m ==> forall x: nat :: x in found && x !in links ==> Shadowed(metric, data, id, links, k, x)))
  }

  /** What an insertion did on a layer it shares with the entry point, by the distances of the stored
      vectors. A search found some nodes of the layer, no more than the beam is wide, and the links
      were picked from those. */
  lemma NewLinks(metric: Metric, width: nat, nodes: Nodes, before: Graph, after: Graph, level: nat, entry: nat, top: nat, l: nat)
    returns (found: set<nat>, k: nat)
    requires LinkedInto(metric, width, nodes, before, after, level, entry, top)
    requires before.Ok() && before.count > 0 && l <= level && l <= top && before.arena.m >= 1
    ensures after.Stored() && before.count in after.Layer(l)
    ensures 0 < |found| <= width && forall x: nat :: x in found ==> x < before.count && before.levels[x] >= l
    ensures PickedLinks(metric, nodes.data, before.count, found, before.arena.m, after.Layer(l)[before.count], k)
  {
    var d, q :| LinkedBy(metric, width, nodes, before, after, level, entry, top, d, q);
    found := Placement.PlacedLayer(d, before, after, width, level, entry, top, l);
    FoundBefore(before, l, found);
    k := PickInRaw(metric, nodes.data, d, before.count, found, before.arena.m, after.Layer(l)[before.count]);
  }

  lemma FoundBefore(g: Graph, l: nat, found: set<nat>)
    requires g.Stored() && g.count !in found && forall x :: x in found ==> x in g.Layer(l)[g.count := []]
    ensures forall x: nat :: x in found ==> x < g.count && g.levels[x] >= l
  {
  }

  lemma PickInRaw(metric: Metric, data: seq<Vector>, d: Neighbors.Between, id: nat, found: set<nat>, m: nat, links: seq<nat>)
    returns (k: nat)
    requires Measures(metric, data, d) && id < |data| && (forall x: nat :: x in found ==> x < id)
    requires Placement.Selected(d, id, found, m, links) && m >= 1 && found != {}
    ensures PickedLinks(metric, data, id, found, m, links, k)
  {
    var some :| some in found;
    forall x: nat | x in found ensures links != [] && links[0] in found && d(id, links[0]) <= d(id, x) {
      Placement.FirstIsNearest(d, id, found, m, links, x);
    }
    k := 0;
    if |found| > m {
      k :| k <= |links| && Placement.Division(d, id, found, m, links, k);
      assert forall i :: 0 <= i < |links| ==> links[i] in found;
      forall p | k <= p < |links| ensures Shadowed(metric, data, id, links, k, links[p]) {
        CoverShadows(metric, data, d, id, links, k, links[p]);
      }
      if k < m {
        forall x: nat | x in found && x !in links ensures Shadowed(metric, data, id, links, k, x) {
          CoverShadows(metric, data, d, id, links, k, x);
        }
      }
    }
  }

  lemma CoverShadows(metric: Metric, data: seq<Vector>, d: Neighbors.Between, base: nat, links: seq<nat>, k: nat, x: nat)
    requires Measures(metric, data, d) && base < |data| && x < |data| && k <= |links|
    requires forall i :: 0 <= i < |links| ==> links[i] < |data|
    requires Placement.CoveredBy(d, base, links[..k], x)
    ensures Shadowed(metric, data, base, links, k, x)
  {
    var i :| 0 <= i < k && d(x, links[..k][i]) < d(base, x);
    assert links[..k][i] == links[i];
  }

  /** A full neighbour that an insertion links back to keeps its degree and gives up one of its links
      and the newcomer, by the distances of the stored vectors: one to which something it kept is closer
      than the neighbour itself is, or else one that nothing it kept is farther than. */
  lemma FullNeighbour(metric: Metric, width: nat, nodes: Nodes, before: Graph, after: Graph, level: nat, entry: nat, top: nat,
                      l: nat, n: nat)
    returns (y: nat)
    requires LinkedInto(metric, width, nodes, before, after, level, entry, top)
    requires before.Ok() && after.Ok() && after.count == before.count + 1 && 0 < before.count && l <= level && l <= top
    requires n in before.Layer(l) && before.count in after.Layer(l) && n in after.Layer(l)[before.count]
    requires |before.Layer(l)[n]| == if l == 0 then 2 * before.arena.m else before.arena.m
    ensures n in after.Layer(l) && |after.Layer(l)[n]| == |before.Layer(l)[n]|
    ensures y in before.Layer(l)[n] || y == before.count
    ensures forall z :: z in after.Layer(l)[n] <==> (z in before.Layer(l)[n] || z == before.count) && z != y
    ensures GivenUp(metric, nodes.data, n, after.Layer(l)[n], y)
  {
    var d, q :| LinkedBy(metric, width, nodes, before, after, level, entry, top, d, q);
    var found := Placement.PlacedLayer(d, before, after, width, level, entry, top, l);
    assert before.LayerSound(l) && after.LayerSound(l);
    var cap, old', new' := |before.Layer(l)[n]|, before.Layer(l)[n], after.Layer(l)[n];
    LinksExist(before, l, n);
    y := Placement.FullNodeGivesUp(d, n, before.count, cap, old', new');
    GivenUpInRaw(metric, nodes.data, d, n, new', y);
  }

  lemma LinksExist(g: Graph, l: nat, n: nat)
    requires g.Stored() && g.LayerSound(l) && n in g.Layer(l)
    ensures Distinct(g.Layer(l)[n]) && g.count !in g.Layer(l)[n] && forall z :: z in g.Layer(l)[n] ==> z < g.count
  {
    assert ListOk(g.Layer(l), n, g.Layer(l)[n], g.Capacity(l));
  }

  /** Something n kept is closer to y than n is, or nothing n kept is farther from n than y. */
  ghost predicate GivenUp(metric: Metric, data: seq<Vector>, n: nat, kept: seq<nat>, y: nat) {
    && n < |data| && y < |data|
    && ((exists r :: r in kept && r < |data| && metric.raw(data[y], data[r]) < metric.raw(data[n], data[y]))
        || (forall z :: z in kept ==> z < |data| && metric.raw(data[n], data[z]) <= metric.raw(data[n], data[y])))
  }

  lemma GivenUpInRaw(metric: Metric, data: seq<Vector>, d: Neighbors.Between, n: nat, kept: seq<nat>, y: nat)
    requires Measures(metric, data, d) && n < |data| && y < |data| && forall z :: z in kept ==> z < |data|
    requires (exists r :: r in kept && d(y, r) < d(n, y)) || forall z :: z in kept ==> d(n, z) <= d(n, y)
    ensures GivenUp(metric, data, n, kept, y)
  {
  }

  datatype AddResult = Added(id: nat) | DuplicateLabel | IndexFull

  class Index {
    const metric: Metric
    const dim: nat
    const maxElements: nat
    const m: nat
    const efConstruction: nat

    var nodes: Nodes
    var graph: Graph
    var numDeleted: nat
    var entryPoint: nat
    var maxLevel: nat

    ghost predicate Parameters()
      reads this
    {
      && 0 < dim && 0 < maxElements <= NONE && 1 <= m && 2 * m <= LayerSearch.MAX_DEGREE && m <= efConstruction
      && graph.arena.m == m && |graph.levels| == maxElements
      && KeepsLength(metric)
    }

    /** The entry point is a node of the highest level, and maxLevel is that level. */
    ghost predicate EntryOk()
      requires graph.count <= |graph.levels|
      reads this
    {
      if graph.count == 0 then entryPoint == NONE && maxLevel == 0
      else entryPoint < graph.count && graph.levels[entryPoint] == maxLevel && LevelsUpTo(graph, maxLevel)
    }

    ghost predicate Valid()
      reads this
    {
      && Parameters() && graph.Ok() && EntryOk() && nodes.Ok(maxElements, graph.count, dim)
      && numDeleted == Tombstones(nodes.deleted, graph.count)
    }

    /** The index as a table of keys. */
    ghost function Contents(): Table
      reads this
    {
      Table(dim, maxElements, EntriesOf(nodes))
    }

    constructor (metric: Metric, dim: nat, maxElements: nat, m: nat, efConstruction: nat)
      requires 0 < dim && 0 < maxElements <= NONE && 1 <= m && 2 * m <= LayerSearch.MAX_DEGREE
      requires KeepsLength(metric)
      ensures Valid() && graph.count == 0 && Contents() == Empty(dim, maxElements)
      ensures entryPoint == 0xFFFF_FFFF && maxLevel == 0
      ensures this.metric == metric && this.m == m
      ensures this.efConstruction == if efConstruction < m then m else efConstruction
    {
      this.metric := metric;
      this.dim, this.maxElements, this.m := dim, maxElements, m;
      this.efConstruction := if efConstruction < m then m else efConstruction;
      nodes := Nodes(seq(maxElements, _ => []), seq(maxElements, _ => Key(0, 0)), seq(maxElements, _ => false), map[]);
      graph := EmptyGraph(m, maxElements);
      numDeleted, entryPoint, maxLevel := 0, NONE, 0;
      new;
      EmptyGraphOk(m, maxElements);
    }

    /** Flips the tombstone of a stored label. */
    method Flag(k: Key, flag: bool)
      requires Valid() && nodes.KeyOk(k, graph.count) && nodes.deleted[nodes.labelToId[k]] != flag
      modifies this`nodes, this`numDeleted
      ensures Valid()
      ensures Contents() == SetDeleted(old(Contents()), k, flag).table
      ensures SetDeleted(old(Contents()), k, flag).outcome == Ok
    {
      NodeFlagged(nodes, maxElements, graph.count, dim, k, flag);
      nodes := nodes.(deleted := nodes.deleted[nodes.labelToId[k] := flag]);
      numDeleted := if flag then numDeleted + 1 else numDeleted - 1;
    }

    method MarkDeleted(k: Key) returns (ok: bool)
      requires Valid()
      modifies this`nodes, this`numDeleted
      ensures Valid()
      ensures Contents() == SetDeleted(old(Contents()), k, true).table
      ensures ok <==> SetDeleted(old(Contents()), k, true).outcome == Ok
    {
      assert k in nodes.labelToId ==> nodes.KeyOk(k, graph.count);
      EntriesKeys(nodes, maxElements, graph.count, dim);
      ok := k in nodes.labelToId && !nodes.deleted[nodes.labelToId[k]];
      if ok {
        Flag(k, true);
      }
    }

    method UnmarkDeleted(k: Key) returns (ok: bool)
      requires Valid()
      modifies this`nodes, this`numDeleted
      ensures Valid()
      ensures Contents() == SetDeleted(old(Contents()), k, false).table
      ensures ok <==> SetDeleted(old(Contents()), k, false).outcome == Ok
    {
      assert k in nodes.labelToId ==> nodes.KeyOk(k, graph.count);
      EntriesKeys(nodes, maxElements, graph.count, dim);
      ok := k in nodes.labelToId && nodes.deleted[nodes.labelToId[k]];
      if ok {
        Flag(k, false);
      }
    }

    /** The part of addPoint that links the newest slot's node into the graph. */
    method Link(visited: VisitedList, level: nat)
      requires graph.Ok() && EntryOk() && graph.count < maxElements == |graph.levels| == |nodes.data|
      requires 1 <= graph.arena.m && 2 * graph.arena.m <= LayerSearch.MAX_DEGREE && efConstruction >= 1
      requires visited.Valid() && visited.marks.Length == maxElements
      modifies this`graph, visited, visited.marks
      ensures visited.Valid() && graph.Ok() && DegreesKept(old(graph), graph)
      ensures graph.count == old(graph.count) + 1 && graph.arena.m == old(graph.arena.m)
      ensures graph.levels == old(graph.levels)[old(graph.count) := level]
      ensures LinkedInto(metric, efConstruction, nodes, old(graph), graph, level, entryPoint, maxLevel)
    {
      var q := PlacingQuery(metric, efConstruction, nodes, graph.count);
      ghost var before := graph;
      graph := InsertNode(visited, graph, DistancesBetween(metric, nodes.data), q, level, entryPoint, maxLevel);
      InsertedIsLinked(metric, efConstruction, nodes, before, graph, level, entryPoint, maxLevel);
    }

    /** The new node becomes the entry point if it is the first or the highest. */
    method Promote(id: nat, level: nat)
      requires 1 <= graph.count <= |graph.levels| <= NONE && id == graph.count - 1 && graph.levels[id] == level
      requires if id == 0 then entryPoint == NONE
               else entryPoint < id && graph.levels[entryPoint] == maxLevel
                    && forall x :: 0 <= x < id ==> graph.levels[x] <= maxLevel
      modifies this`entryPoint, this`maxLevel
      ensures EntryOk()
      ensures var promoted := id == 0 || level > old(maxLevel);
        && maxLevel == (if promoted then level else old(maxLevel))
        && entryPoint == (if promoted then id else old(entryPoint))
    {
      if entryPoint == NONE || level > maxLevel {
        entryPoint, maxLevel := id, level;
      }
    }

    /** Linking the newest slot's node and, if it is the first or the highest, promoting it. */
    method LinkAndPromote(visited: VisitedList, level: nat)
      requires graph.Ok() && EntryOk() && graph.count < maxElements == |graph.levels| == |nodes.data| <= NONE
      requires 1 <= graph.arena.m && 2 * graph.arena.m <= LayerSearch.MAX_DEGREE && efConstruction >= 1
      requires visited.Valid() && visited.marks.Length == maxElements
      modifies this`graph, this`entryPoint, this`maxLevel, visited, visited.marks
      ensures visited.Valid() && graph.Ok() && EntryOk() && DegreesKept(old(graph), graph)
      ensures graph.count == old(graph.count) + 1 && graph.arena.m == old(graph.arena.m)
      ensures graph.levels == old(graph.levels)[old(graph.count) := level]
      ensures LinkedInto(metric, efConstruction, nodes, old(graph), graph, level, old(entryPoint), old(maxLevel))
      ensures var promoted := old(graph.count) == 0 || level > old(maxLevel);
        && maxLevel == (if promoted then level else old(maxLevel))
        && entryPoint == (if promoted then old(graph.count) else old(entryPoint))
    {
      hide LinkedInto;
      var id := graph.count;
      Link(visited, level);
      Promote(id, level);
    }

    /** The next slot takes the vector and the label. */
    method TakeSlot(v: Vector, k: Key)
      requires nodes.Ok(maxElements, graph.count, dim) && numDeleted == Tombstones(nodes.deleted, graph.count)
      requires |v| == dim && k !in nodes.labelToId && graph.count < maxElements
      modifies this`nodes
      ensures nodes == old(nodes).With(graph.count, k, v)
      ensures nodes.Ok(maxElements, graph.count + 1, dim) && numDeleted == Tombstones(nodes.deleted, graph.count + 1)
    {
      NodeAdded(nodes, maxElements, graph.count, dim, k, v);
      nodes := nodes.With(graph.count, k, v);
    }

    /** addPoint once the label is known to be new and a slot to be free. */
    method Place(visited: VisitedList, v: Vector, k: Key, level: nat)
      requires Valid() && |v| == dim && k !in nodes.labelToId && graph.count < maxElements
      requires visited.Valid() && visited.marks.Length == maxElements
      modifies this, visited, visited.marks
      ensures Valid() && visited.Valid()
      ensures graph.count == old(graph.count) + 1 && DegreesKept(old(graph), graph)
      ensures nodes == old(nodes).With(old(graph.count), k, v)
      ensures graph.levels == old(graph.levels)[old(graph.count) := level]
      ensures LinkedInto(metric, efConstruction, nodes, old(graph), graph, level, old(entryPoint), old(maxLevel))
      ensures var promoted := old(graph.count) == 0 || level > old(maxLevel);
        && maxLevel == (if promoted then level else old(maxLevel))
        && entryPoint == (if promoted then old(graph.count) else old(entryPoint))
    {
      hide LinkedInto;
      TakeSlot(v, k);
      LinkAndPromote(visited, level);
    }

    /** addPoint, with the random level as an argument. The links the new node gets depend on
        how ties are broken; the ensured facts hold for every choice. */
    method AddPoint(visited: VisitedList, vec: Vector, k: Key, level: nat) returns (r: AddResult)
      requires Valid() && |vec| == dim
      requires visited.Valid() && visited.marks.Length == maxElements
      modifies this, visited, visited.marks
      ensures Valid() && visited.Valid()
      ensures Contents() == Add(old(Contents()), k, metric.prepare(vec)).table
      ensures match Add(old(Contents()), k, metric.prepare(vec)).outcome
        case Duplicate => r == DuplicateLabel && unchanged(this)
        case Full => r == IndexFull && unchanged(this)
        case _ =>
          && r == Added(old(graph.count)) && graph.count == old(graph.count) + 1
          && nodes == old(nodes).With(r.id, k, metric.prepare(vec))
          && graph.levels == old(graph.levels)[r.id := level]
          && DegreesKept(old(graph), graph)
          && LinkedInto(metric, efConstruction, nodes, old(graph), graph, level, old(entryPoint), old(maxLevel))
          && (var promoted := r.id == 0 || level > old(maxLevel);
              && maxLevel == (if promoted then level else old(maxLevel))
              && entryPoint == (if promoted then r.id else old(entryPoint)))
    {
      hide LinkedInto;
      EntriesKeys(nodes, maxElements, graph.count, dim);
      if k in nodes.labelToId {
        return DuplicateLabel;
      }
      var id := graph.count;
      if id >= maxElements {
        return IndexFull;
      }
      NodeAdded(nodes, maxElements, id, dim, k, metric.prepare(vec));
      Place(visited, metric.prepare(vec), k, level);
      return Added(id);
    }

    /** q is the query vector's: its distances to the stored vectors, as the index normalises it, and
        exactly the live nodes may be returned. */
    ghost predicate Asks(q: Beam.Query, query: Vector, width: nat)
      reads this
    {
      && q.ef == width
      && (forall x: nat :: x < |nodes.data| ==> q.dist(x) == metric.raw(metric.prepare(query), nodes.data[x]))
      && (forall x: nat :: x < |nodes.deleted| ==> (q.live(x) <==> !nodes.deleted[x]))
    }

    /** Layer 0 leads from `start` to the node with this label. */
    ghost predicate Around(k: Key, start: nat)
      requires graph.Stored()
      reads this
    {
      k in nodes.labelToId && Beam.Reachable(graph.Layer(0), start, nodes.labelToId[k])
    }

    /** The answer lines of the live entries around `start`. */
    ghost function LiveHitsAround(query: Vector, start: nat): set<Hit>
      requires graph.Stored()
      reads this
    {
      set k | k in Contents().entries && !Contents().entries[k].deleted && Around(k, start) ::
        Hit(k, metric.raw(metric.prepare(query), Contents().entries[k].vector))
    }

    /** Descent to layer 0, beam search of width max(ef, k) there, and the k nearest found.
        `start` is where the descent ends, `found` what the beam search returned, for the query q. The
        answer consists of live entries at their true distances, each once, ascending. If the beam is
        at least as wide as the live part of layer 0 around `start`, the answer is exact; and if it
        has fewer than k lines, nothing live around `start` is missing. */
    method Search(visited: VisitedList, query: Vector, k: nat, ef: nat)
      returns (out: seq<Hit>, ghost q: Beam.Query, ghost start: nat, ghost found: set<Cand>, ghost expanded: set<nat>)
      requires Valid() && |query| == dim
      requires visited.Valid() && visited.marks.Length == maxElements
      modifies visited, visited.marks
      ensures visited.Valid()
      ensures graph.count == 0 ==> out == []
      ensures |out| <= k && forall i, j :: 0 <= i < j < |out| ==> out[i].key != out[j].key && out[i].dist <= out[j].dist
      ensures forall h :: h in out ==>
        && h.key in Contents().entries && !Contents().entries[h.key].deleted
        && h.dist == metric.raw(metric.prepare(query), Contents().entries[h.key].vector)
      ensures graph.count > 0 && |LiveHitsAround(query, start)| <= (if ef < k then k else ef) ==>
        IsTopK(multiset(LiveHitsAround(query, start)), k, out)
      ensures graph.count > 0 && |out| < k ==> forall h :: h in LiveHitsAround(query, start) ==> h in out
      ensures graph.count > 0 ==>
        && Asks(q, query, if ef < k then k else ef)
        && start in graph.Layer(0) && q.dist(start) <= q.dist(entryPoint)
        && Descended(graph, q.dist, maxLevel, 0, entryPoint, start)
        && Beam.Sound(graph.Layer(0), q, start, found)
        && (q.ef >= 1 ==> Beam.Complete(graph.Layer(0), q, start, found, expanded))
        && IsTopK(multiset(HitsOf(nodes.labels, found)), k, out)
    {
      out, start, found, expanded := [], 0, {}, {};
      var asked := Beam.Query(DistancesTo(metric, nodes.data, metric.prepare(query)), LiveNodes(nodes.deleted, true),
                              if ef < k then k else ef);
      q := asked;
      if graph.count != 0 && entryPoint != NONE {
        var top, cur;
        top, cur, expanded := SearchGraph(visited, graph, asked, entryPoint, maxLevel);
        start, found := cur, top;
        FoundApart(q, cur, top);
        out := Answer(nodes.labels, top, k);
        AnswerIsStored(q, query, q.ef, start, found, k, out);
        AnswerIsAll(q, query, q.ef, start, found, expanded, k, out);
      }
    }

    /** The line of a found node is that of a live entry. */
    lemma FoundIsStored(q: Beam.Query, query: Vector, width: nat, start: nat, found: set<Cand>, c: Cand)
      requires Valid() && Asks(q, query, width) && Beam.Sound(graph.Layer(0), q, start, found) && c in found
      ensures var h := HitOf(nodes.labels, c);
        && h.key in Contents().entries && !Contents().entries[h.key].deleted && h in LiveHitsAround(query, start)
        && h.dist == metric.raw(metric.prepare(query), Contents().entries[h.key].vector)
    {
      assert nodes.SlotOk(c.id, dim);
      var k := nodes.labels[c.id];
      assert nodes.KeyOk(k, graph.count) && nodes.labelToId[k] == c.id;
      assert Around(k, start);
    }

    lemma AnswerIsStored(q: Beam.Query, query: Vector, width: nat, start: nat, found: set<Cand>, k: nat, out: seq<Hit>)
      requires Valid() && Asks(q, query, width) && Beam.Sound(graph.Layer(0), q, start, found)
      requires Apart(nodes.labels, found) && IsTopK(multiset(HitsOf(nodes.labels, found)), k, out)
      ensures |out| <= k && forall i, j :: 0 <= i < j < |out| ==> out[i].key != out[j].key && out[i].dist <= out[j].dist
      ensures forall h :: h in out ==>
        && h.key in Contents().entries && !Contents().entries[h.key].deleted
        && h.dist == metric.raw(metric.prepare(query), Contents().entries[h.key].vector)
    {
      forall h | h in out
        ensures h.key in Contents().entries && !Contents().entries[h.key].deleted
        ensures h.dist == metric.raw(metric.prepare(query), Contents().entries[h.key].vector)
      {
        assert h in multiset(out);
        var c :| c in found && HitOf(nodes.labels, c) == h;
        FoundIsStored(q, query, width, start, found, c);
      }
      forall i, j | 0 <= i < j < |out| ensures out[i].key != out[j].key {
        ListedOnce(HitsOf(nodes.labels, found), out, i, j);
        assert out[i] in out && out[j] in out;
      }
    }

    lemma FoundAreLive(q: Beam.Query, query: Vector, width: nat, start: nat, found: set<Cand>)
      requires Valid() && Asks(q, query, width) && Beam.Sound(graph.Layer(0), q, start, found)
      ensures HitsOf(nodes.labels, found) <= LiveHitsAround(query, start)
    {
      forall h | h in HitsOf(nodes.labels, found) ensures h in LiveHitsAround(query, start) {
        var c :| c in found && HitOf(nodes.labels, c) == h;
        FoundIsStored(q, query, width, start, found, c);
      }
    }

    lemma LiveAreFound(q: Beam.Query, query: Vector, width: nat, start: nat, found: set<Cand>, expanded: set<nat>)
      requires Valid() && Asks(q, query, width) && |found| < q.ef
      requires Beam.Complete(graph.Layer(0), q, start, found, expanded)
      ensures LiveHitsAround(query, start) <= HitsOf(nodes.labels, found)
    {
      forall h | h in LiveHitsAround(query, start) ensures h in HitsOf(nodes.labels, found) {
        LiveIsFound(q, query, width, start, found, expanded, h);
      }
    }

    /** What the beam leaves out: nothing live around the start if it is wide enough or not full. */
    lemma AnswerIsAll(q: Beam.Query, query: Vector, width: nat, start: nat, found: set<Cand>, expanded: set<nat>, k: nat, out: seq<Hit>)
      requires Valid() && Asks(q, query, width) && Beam.Sound(graph.Layer(0), q, start, found) && k <= width
      requires Apart(nodes.labels, found) && IsTopK(multiset(HitsOf(nodes.labels, found)), k, out)
      requires q.ef >= 1 ==> Beam.Complete(graph.Layer(0), q, start, found, expanded)
      ensures |LiveHitsAround(query, start)| <= width ==> IsTopK(multiset(LiveHitsAround(query, start)), k, out)
      ensures |out| < k ==> forall h :: h in LiveHitsAround(query, start) ==> h in out
    {
      SameNumber(nodes.labels, found);
      FoundAreLive(q, query, width, start, found);
      if |found| < width {
        LiveAreFound(q, query, width, start, found, expanded);
      }
      AllOrFull(LiveHitsAround(query, start), HitsOf(nodes.labels, found), width, k, out);
    }

    /** A live entry around the start is found if the beam is not full. */
    lemma LiveIsFound(q: Beam.Query, query: Vector, width: nat, start: nat, found: set<Cand>, expanded: set<nat>, h: Hit)
      requires Valid() && Asks(q, query, width) && h in LiveHitsAround(query, start) && |found| < q.ef
      requires Beam.Complete(graph.Layer(0), q, start, found, expanded)
      ensures h in HitsOf(nodes.labels, found)
    {
      assert nodes.KeyOk(h.key, graph.count);
      var id := nodes.labelToId[h.key];
      var p :| Beam.IsPath(graph.Layer(0), p) && p[0] == start && p[|p| - 1] == id;
      var c := Beam.Scored(q.dist, id);
      assert c in found && HitOf(nodes.labels, c) == h;
    }

    /** Different nodes carry different labels. */
    lemma FoundApart(q: Beam.Query, start: nat, found: set<Cand>)
      requires Valid() && Beam.Sound(graph.Layer(0), q, start, found)
      ensures Apart(nodes.labels, found)
    {
      forall c, d | c in found && d in found && HitOf(nodes.labels, c) == HitOf(nodes.labels, d) ensures c == d {
        assert nodes.SlotOk(c.id, dim) && nodes.SlotOk(d.id, dim);
      }
    }
  }

}
