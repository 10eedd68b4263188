/** Inserting one node into the layered graph (Algorithm 1 of Malkov and Yashunin), and the
    invariant that every insertion keeps. */
module Insertion {
  import opened Candidates
  import opened VisitedLists
  import opened Beam
  import opened LayerSearch
  import opened LayerGraph
  import opened GraphStore
  import opened GraphSearch
  import opened Linking
  import Neighbors

  /** Layer l is well formed, but id is not connected on it yet. */
  ghost predicate Pending(g: Graph, id: nat, l: nat)
    requires g.Stored()
  {
    LayerOk(g.Layer(l), g.Capacity(l)) && Isolated(g.Layer(l), id) && AllLinkedBut(g.Layer(l), id)
  }

  /** The insertion of id has connected the layers from l up and not yet those below. */
  ghost predicate Partial(g: Graph, id: nat, l: nat) {
    && g.Stored()
    && (forall l': nat :: l' < l ==> Pending(g, id, l'))
    && (forall l': nat :: l' >= l ==> g.LayerSound(l'))
  }

  /** Nobody's list on layer l got shorter. */
  ghost predicate DegreesKeptOn(g: Graph, h: Graph, l: nat)
    requires g.Stored() && h.Stored()
  {
    forall x :: x in g.Layer(l) ==> x in h.Layer(l) && |h.Layer(l)[x]| >= |g.Layer(l)[x]|
  }

  ghost predicate DegreesKept(g: Graph, h: Graph)
    requires g.Stored() && h.Stored()
  {
    forall l: nat :: DegreesKeptOn(g, h, l)
  }

  /** No node is above the given level. */
  ghost predicate LevelsUpTo(g: Graph, top: nat)
    requires g.count <= |g.levels|
  {
    forall x :: 0 <= x < g.count ==> g.levels[x] <= top
  }

  lemma ClaimIsPartial(g: Graph, level: nat, top: nat)
    requires g.Ok() && g.count < |g.levels| && LevelsUpTo(g, top)
    ensures var c := if level < top then level else top;
      && Partial(Claim(g, level), g.count, c + 1) && DegreesKept(g, Claim(g, level))
  {
    NodeStartsIsolated(g.arena, g.levels, g.count, level);
    var h, id := Claim(g, level), g.count;
    forall l: nat
      ensures Pending(h, id, l) && (l > level || l > top ==> h.LayerSound(l)) && DegreesKeptOn(g, h, l)
    {
      assert g.LayerSound(l);
      assert l > top ==> g.Layer(l) == map[];
      LayerAfterClaim(g, h, level, l);
    }
  }

  lemma LayerAfterClaim(g: Graph, h: Graph, level: nat, l: nat)
    requires g.Stored() && h.Stored() && g.LayerSound(l) && h.arena.m == g.arena.m
    requires h.Layer(l) == if l <= level then g.Layer(l)[g.count := []] else g.Layer(l)
    ensures Pending(h, g.count, l) && DegreesKeptOn(g, h, l)
    ensures l > level || g.Layer(l) == map[] ==> h.LayerSound(l)
  {
    AbsentIsIsolated(g.Layer(l), g.count, g.Capacity(l));
    AddIsolated(g.Layer(l), g.count, g.Capacity(l));
  }

  lemma FirstNodeOk(g: Graph, level: nat)
    requires g.Ok() && g.count == 0 < |g.levels|
    ensures Claim(g, level).Ok() && DegreesKept(g, Claim(g, level))
  {
    NodeStartsIsolated(g.arena, g.levels, 0, level);
    var h := Claim(g, level);
    forall l: nat ensures h.LayerSound(l) && DegreesKeptOn(g, h, l) {
      assert g.LayerSound(l) && g.Layer(l) == map[];
      AddIsolated(g.Layer(l), 0, g.Capacity(l));
    }
  }

  /** Connecting one layer moves the insertion one layer down. */
  lemma ConnectStep(between: Neighbors.Between, g: Graph, h: Graph, id: nat, l: nat, selected: seq<nat>)
    requires Partial(g, id, l + 1) && h.Stored() && SameBut(g, h, l) && g.arena.m >= 1
    requires selected != [] && ListOk(g.Layer(l), id, selected, g.Capacity(l))
    requires Relinked(between, g.Layer(l), h.Layer(l), id, selected, g.Capacity(l))
    ensures Partial(h, id, l) && DegreesKept(g, h)
  {
    assert Pending(g, id, l);
    RelinkKeepsOk(between, g.Layer(l), h.Layer(l), id, selected, g.Capacity(l));
    forall l': nat ensures DegreesKeptOn(g, h, l') {
      assert l' != l ==> h.Layer(l') == g.Layer(l');
    }
    forall l': nat | l' < l ensures Pending(h, id, l') {
      assert Pending(g, id, l') && h.Layer(l') == g.Layer(l');
    }
    forall l': nat | l' >= l ensures h.LayerSound(l') {
      assert l' > l ==> g.LayerSound(l') && h.Layer(l') == g.Layer(l');
    }
  }

  /** What the search of one layer hands to the linking step. */
  lemma TopAvoidsNewNode(layer: Layer, q: Query, cur: nat, id: nat, top: set<Cand>)
    requires Isolated(layer, id) && cur != id && Sound(layer, q, cur, top)
    ensures DistinctIds(top) && forall c :: c in top ==> c.id in layer && c.id != id
  {
    forall c | c in top ensures c.id != id {
      IsolatedNotReached(layer, id, cur, c.id);
    }
  }

  /** One layer's share of the insertion: the beam search from cur found `top`, the heuristic
      picked at most m of it, id got those links and the picked nodes took id in; the nearest
      picked node is where the next layer starts. */
  ghost predicate Connection(between: Neighbors.Between, q: Query, g: Graph, h: Graph, id: nat, cur: nat, l: nat, next: nat,
                             top: set<Cand>, expanded: set<nat>, cands: seq<Cand>)
    requires g.Stored() && h.Stored()
  {
    var selected := Neighbors.IdsAt(cands, Neighbors.Choose(between, cands, g.arena.m));
    && Sound(g.Layer(l), q, cur, top) && Complete(g.Layer(l), q, cur, top, expanded)
    && SortingOf(cands, top) && |cands| == |top|
    && selected != [] && next == selected[0]
    && SameBut(g, h, l) && Relinked(between, g.Layer(l), h.Layer(l), id, selected, g.Capacity(l))
  }

  ghost predicate Connected(between: Neighbors.Between, q: Query, g: Graph, h: Graph, id: nat, cur: nat, l: nat, next: nat) {
    && g.Stored() && h.Stored()
    && exists top, expanded, cands :: Connection(between, q, g, h, id, cur, l, next, top, expanded, cands)
  }

  /** The graph between two layers of an insertion, and where the next search starts. */
  datatype Stage = Stage(graph: Graph, at: nat)

  /** From one stage to the next, on a layer. */
  type Step = (Stage, Stage, nat) -> bool

  /** Connecting id on a layer, as such a step. */
  ghost function LayerStep(between: Neighbors.Between, q: Query, id: nat): Step {
    (a: Stage, b: Stage, l: nat) => Connected(between, q, a.graph, b.graph, id, a.at, l, b.at)
  }

  /** step holds wherever a layer was connected. */
  ghost predicate Covers(step: Step, between: Neighbors.Between, q: Query, id: nat) {
    forall a: Stage, b: Stage, l: nat ::
      Connected(between, q, a.graph, b.graph, id, a.at, l, b.at) ==> step(a, b, l)
  }

  lemma LayerStepCovers(between: Neighbors.Between, q: Query, id: nat)
    ensures Covers(LayerStep(between, q, id), between, q, id)
  {
  }

  lemma StepTaken(step: Step, between: Neighbors.Between, q: Query, id: nat, a: Stage, b: Stage, l: nat)
    requires Covers(step, between, q, id) && Connected(between, q, a.graph, b.graph, id, a.at, l, b.at)
    ensures step(a, b, l)
  {
  }

  /** Searches one layer and connects id on it. */
  method ConnectLayer(visited: VisitedList, g: Graph, between: Neighbors.Between, q: Query, id: nat, cur: nat, l: nat,
                      ghost step: Step)
    returns (h: Graph, next: nat)
    requires Covers(step, between, q, id)
    requires Partial(g, id, l + 1) && 1 <= g.arena.m && 2 * g.arena.m <= MAX_DEGREE && q.ef >= 1
    requires forall x :: q.live(x)
    requires id in g.Layer(l) && cur in g.Layer(l) && cur != id
    requires visited.Valid() && visited.marks.Length == |g.levels|
    modifies visited, visited.marks
    ensures visited.Valid()
    ensures Partial(h, id, l) && DegreesKept(g, h) && SameBut(g, h, l)
    ensures next in h.Layer(l) && next != id
    ensures step(Stage(g, cur), Stage(h, next), l)
  {
    assert Pending(g, id, l);
    OkIsSearchable(g, l);
    var top, expanded := SearchLayer(visited, g.Layer(l), q, cur);
    TopAvoidsNewNode(g.Layer(l), q, cur, id, top);
    ghost var selected, cands;
    h, next, selected, cands := ConnectNewElement(g, between, id, top, l, g.arena.m);
    assert cands != [] && selected != [] by {
      Neighbors.ChooseCounts(between, cands, g.arena.m);
    }
    ConnectStep(between, g, h, id, l, selected);
    assert selected[0] in selected;
    assert Connection(between, q, g, h, id, cur, l, next, top, expanded, cands);
    StepTaken(step, between, q, id, Stage(g, cur), Stage(h, next), l);
  }

  /** One step on each of the layers c, c - 1, ..., l. */
  ghost predicate IsLinking(step: Step, c: nat, l: nat, stages: seq<Stage>) {
    && l <= c + 1 && |stages| == c + 2 - l
    && forall i: nat :: i + 1 < |stages| ==> step(stages[i], stages[i + 1], c - i)
  }

  /** g became h by connecting id on the layers c, ..., 0, the first search starting at entry. */
  ghost predicate Linked(step: Step, c: nat, g: Graph, entry: nat, h: Graph) {
    exists stages: seq<Stage> :: IsLinking(step, c, 0, stages)
                                 && stages[0] == Stage(g, entry) && stages[c + 1].graph == h
  }

  lemma LinkOneMore(step: Step, c: nat, l: nat, stages: seq<Stage>, s: Stage)
    requires 0 < l && IsLinking(step, c, l, stages) && step(stages[|stages| - 1], s, l - 1)
    ensures IsLinking(step, c, l - 1, stages + [s])
  {
    var longer := stages + [s];
    forall i: nat | i + 1 < |longer| ensures step(longer[i], longer[i + 1], c - i) {
      if i + 1 < |stages| {
        assert step(stages[i], stages[i + 1], c - i);
      }
    }
  }

  /** On the way from g to the inserted graph, the layers from l up are connected. */
  ghost predicate Underway(g: Graph, h: Graph, id: nat, l: nat) {
    && g.Stored() && Partial(h, id, l) && DegreesKept(g, h)
    && h.levels == g.levels && h.count == g.count && h.arena.m == g.arena.m
  }

  lemma UnderwayStep(g: Graph, before: Graph, h: Graph, id: nat, l: nat)
    requires Underway(g, before, id, l + 1) && Partial(h, id, l) && DegreesKept(before, h) && SameBut(before, h, l)
    ensures Underway(g, h, id, l)
  {
    DegreesTransitive(g, before, h);
  }

  lemma OnLayer(g: Graph, x: nat, l: nat)
    requires g.Stored()
    ensures x in g.Layer(l) <==> x < g.count && g.levels[x] >= l
  {
  }

  /** The next layer of an insertion that is under way. */
  method ConnectNext(visited: VisitedList, ghost g: Graph, h: Graph, between: Neighbors.Between, q: Query, id: nat, cur: nat,
                     l: nat, ghost step: Step)
    returns (k: Graph, next: nat)
    requires Covers(step, between, q, id)
    requires Underway(g, h, id, l + 1) && 1 <= h.arena.m && 2 * h.arena.m <= MAX_DEGREE && q.ef >= 1
    requires forall x :: q.live(x)
    requires id < g.count && g.levels[id] >= l && cur < g.count && g.levels[cur] >= l && cur != id
    requires visited.Valid() && visited.marks.Length == |h.levels|
    modifies visited, visited.marks
    ensures visited.Valid()
    ensures Underway(g, k, id, l) && next < g.count && g.levels[next] >= l && next != id
    ensures step(Stage(h, cur), Stage(k, next), l)
  {
    OnLayer(h, id, l);
    OnLayer(h, cur, l);
    k, next := ConnectLayer(visited, h, between, q, id, cur, l, step);
    OnLayer(k, next, l);
    UnderwayStep(g, h, k, id, l);
  }

  /** Connects id on the layers c, c - 1, ..., 0. */
  method ConnectAll(visited: VisitedList, g: Graph, between: Neighbors.Between, q: Query, id: nat, entry: nat, c: nat,
                    ghost step: Step)
    returns (h: Graph)
    requires Covers(step, between, q, id)
    requires Underway(g, g, id, c + 1) && 1 <= g.arena.m && 2 * g.arena.m <= MAX_DEGREE && q.ef >= 1
    requires forall x :: q.live(x)
    requires id < g.count && g.levels[id] >= c && entry < g.count && g.levels[entry] >= c && entry != id
    requires visited.Valid() && visited.marks.Length == |g.levels|
    modifies visited, visited.marks
    ensures visited.Valid()
    ensures Underway(g, h, id, 0)
    ensures Linked(step, c, g, entry, h)
  {
    h := g;
    var cur: nat := entry;
    var l: nat := c + 1;
    ghost var stages := [Stage(g, entry)];
    while l > 0
      invariant l <= c + 1
      invariant Underway(g, h, id, l)
      invariant cur < g.count && g.levels[cur] >= (if l > c then c else l) && cur != id
      invariant IsLinking(step, c, l, stages)
      invariant stages[0] == Stage(g, entry) && stages[|stages| - 1] == Stage(h, cur)
      invariant visited.Valid()
    {
      h, cur := ConnectNext(visited, g, h, between, q, id, cur, l - 1, step);
      LinkOneMore(step, c, l, stages, Stage(h, cur));
      stages := stages + [Stage(h, cur)];
      l := l - 1;
    }
  }

  lemma DegreesTransitive(g: Graph, h: Graph, k: Graph)
    requires g.Stored() && h.Stored() && k.Stored() && DegreesKept(g, h) && DegreesKept(h, k)
    ensures DegreesKept(g, k)
  {
    forall l: nat ensures DegreesKeptOn(g, k, l) {
      assert DegreesKeptOn(g, h, l) && DegreesKeptOn(h, k, l);
    }
  }

  /** The insertion as a relation: the slot is claimed; unless it is the first, the descent from
      the entry point leads to `start`, and from there id is connected on every shared layer. */
  ghost predicate Inserted(between: Neighbors.Between, q: Query, g: Graph, h: Graph, level: nat, entry: nat, top: nat)
    requires g.count < |g.levels| && g.count < |g.arena.upper|
  {
    var claimed := Claim(g, level);
    if g.count == 0 then h == claimed
    else exists start :: LinkedFrom(between, q, g.count, level, top, claimed, entry, start, h)
  }

  ghost predicate LinkedFrom(between: Neighbors.Between, q: Query, id: nat, level: nat, top: nat, g: Graph,
                             entry: nat, start: nat, h: Graph) {
    && g.Stored() && Descended(g, q.dist, top, level, entry, start)
    && Linked(LayerStep(between, q, id), if level < top then level else top, g, start, h)
  }

  /** The claimed slot's node is linked: descend from the entry point to the node's level,
      then connect on every layer both share. */
  method LinkNode(visited: VisitedList, g: Graph, between: Neighbors.Between, q: Query, id: nat, level: nat,
                  entry: nat, top: nat)
    returns (h: Graph, ghost start: nat)
    requires Partial(g, id, (if level < top then level else top) + 1)
    requires 1 <= g.arena.m && 2 * g.arena.m <= MAX_DEGREE && q.ef >= 1 && forall x :: q.live(x)
    requires id < g.count && g.levels[id] == level && entry < g.count && g.levels[entry] == top && entry != id
    requires visited.Valid() && visited.marks.Length == |g.levels|
    modifies visited, visited.marks
    ensures visited.Valid()
    ensures h.Ok() && DegreesKept(g, h)
    ensures h.levels == g.levels && h.count == g.count && h.arena.m == g.arena.m
    ensures LinkedFrom(between, q, id, level, top, g, entry, start, h)
  {
    var cur := entry;
    if level < top {
      cur := Descend(g, q.dist, cur, top, level);
    } else {
      assert IsDescent(g, q.dist, top, level, [entry]);
    }
    start := cur;
    LayerStepCovers(between, q, id);
    h := ConnectAll(visited, g, between, q, id, cur, if level < top then level else top, LayerStep(between, q, id));
  }

  /** The whole insertion, into an empty graph or starting at the entry point. */
  method InsertNode(visited: VisitedList, g: Graph, between: Neighbors.Between, q: Query, level: nat,
                    entry: nat, top: nat)
    returns (h: Graph)
    requires g.Ok() && g.count < |g.levels| && 1 <= g.arena.m && 2 * g.arena.m <= MAX_DEGREE
    requires q.ef >= 1 && forall x :: q.live(x)
    requires g.count > 0 ==> entry < g.count && g.levels[entry] == top && LevelsUpTo(g, top)
    requires visited.Valid() && visited.marks.Length == |g.levels|
    modifies visited, visited.marks
    ensures visited.Valid()
    ensures h.Ok() && DegreesKept(g, h)
    ensures h.levels == g.levels[g.count := level] && h.count == g.count + 1 && h.arena.m == g.arena.m
    ensures Inserted(between, q, g, h, level, entry, top)
  {
    h := Claim(g, level);
    if g.count == 0 {
      FirstNodeOk(g, level);
    } else {
      ClaimIsPartial(g, level, top);
      ghost var start;
      h, start := LinkNode(visited, h, between, q, g.count, level, entry, top);
      DegreesTransitive(g, Claim(g, level), h);
    }
  }
}
