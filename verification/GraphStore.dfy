/** The layered graph as it lies in the link arena. */
module GraphStore {
  import opened Bytes
  import opened LinkArena
  import opened Beam
  import opened LayerGraph

  /** Every block of every node is in bounds and its count word is within capacity. */
  ghost predicate BlocksOk(a: Arena, levels: seq<nat>) {
    && a.Shape(levels)
    && forall id: nat, l: nat :: id < |levels| && l <= levels[id] ==> a.HasBlock(id, l)
  }

  ghost predicate Blank(a: Arena, levels: seq<nat>, id: nat)
    requires BlocksOk(a, levels) && id < |levels|
  {
    levels[id] == 0 && a.Links(id, 0) == []
  }

  /** Slots from count on hold no node yet. */
  ghost predicate BlankFrom(a: Arena, levels: seq<nat>, count: nat)
    requires BlocksOk(a, levels)
  {
    forall id: nat :: count <= id < |levels| ==> Blank(a, levels, id)
  }

  /** Layer l: the neighbour lists of the nodes whose level reaches l. */
  function LayerOf(a: Arena, levels: seq<nat>, count: nat, l: nat): Layer
    requires BlocksOk(a, levels) && count <= |levels|
  {
    map id: nat | id < count && l <= levels[id] :: a.Links(id, l)
  }

  lemma BlocksAfterWrite(a: Arena, b: Arena, levels: seq<nat>, id: nat, level: nat)
    requires BlocksOk(a, levels) && OnlyBlock(a, b, id, level) && b.HasBlock(id, level)
    ensures BlocksOk(b, levels)
    ensures forall id': nat, l: nat :: id' < |levels| && l <= levels[id'] && (id', l) != (id, level)
              ==> b.Links(id', l) == a.Links(id', l)
  {
    forall id': nat, l: nat | id' < |levels| && l <= levels[id'] && (id', l) != (id, level)
      ensures b.HasBlock(id', l) && b.Links(id', l) == a.Links(id', l)
    {
      OtherLinksSame(a, b, id, level, id', l);
    }
  }

  /** Writing one block changes one list of one layer. */
  lemma WriteChangesOneList(a: Arena, b: Arena, levels: seq<nat>, count: nat, id: nat, level: nat)
    requires BlocksOk(a, levels) && BlankFrom(a, levels, count) && count <= |levels|
    requires id < count && level <= levels[id]
    requires OnlyBlock(a, b, id, level) && b.HasBlock(id, level)
    ensures BlocksOk(b, levels) && BlankFrom(b, levels, count) && b.m == a.m
    ensures LayerOf(b, levels, count, level) == LayerOf(a, levels, count, level)[id := b.Links(id, level)]
    ensures forall l: nat :: l != level ==> LayerOf(b, levels, count, l) == LayerOf(a, levels, count, l)
  {
    BlocksAfterWrite(a, b, levels, id, level);
    forall id': nat | count <= id' < |levels| ensures Blank(b, levels, id') {
      assert Blank(a, levels, id');
    }
    forall l: nat | l != level ensures LayerOf(b, levels, count, l) == LayerOf(a, levels, count, l) {
      SameLinksSameLayer(a, b, levels, count, l);
    }
    OneListChanged(a, b, levels, count, id, level);
  }

  lemma SameLinksSameLayer(a: Arena, b: Arena, levels: seq<nat>, count: nat, l: nat)
    requires BlocksOk(a, levels) && BlocksOk(b, levels) && count <= |levels|
    requires forall id: nat :: id < count && l <= levels[id] ==> b.Links(id, l) == a.Links(id, l)
    ensures LayerOf(b, levels, count, l) == LayerOf(a, levels, count, l)
  {
  }

  lemma OneListChanged(a: Arena, b: Arena, levels: seq<nat>, count: nat, id: nat, l: nat)
    requires BlocksOk(a, levels) && BlocksOk(b, levels) && id < count <= |levels| && l <= levels[id]
    requires forall id': nat :: id' < count && l <= levels[id'] && id' != id ==> b.Links(id', l) == a.Links(id', l)
    ensures LayerOf(b, levels, count, l) == LayerOf(a, levels, count, l)[id := b.Links(id, l)]
  {
  }

  /** Everything a layered graph consists of. */
  datatype Graph = Graph(arena: Arena, levels: seq<nat>, count: nat)
  {
    /** The links are stored properly, whatever they are. */
    ghost predicate Stored()
    {
      && BlocksOk(arena, levels) && count <= |levels| < TWO_32 && 2 * arena.m < TWO_32
      && BlankFrom(arena, levels, count)
    }

    function Layer(l: nat): Layer
      requires BlocksOk(arena, levels) && count <= |levels|
    {
      LayerOf(arena, levels, count, l)
    }

    function Capacity(l: nat): nat {
      arena.Capacity(l)
    }

    /** Layer l is well formed and every node that has company on it is linked. */
    ghost predicate LayerSound(l: nat)
      requires Stored()
    {
      LayerOk(Layer(l), Capacity(l)) && AllLinked(Layer(l))
    }

    ghost predicate Ok()
    {
      && Stored()
      && forall l: nat :: LayerSound(l)
    }
  }

  /** h has the nodes of g and, except on one layer, its links. */
  ghost predicate SameBut(g: Graph, h: Graph, level: nat)
    requires g.Stored() && h.Stored()
  {
    && h.levels == g.levels && h.count == g.count && h.arena.m == g.arena.m
    && forall l: nat :: l != level ==> h.Layer(l) == g.Layer(l)
  }

  method StoreList(g: Graph, id: nat, level: nat, ns: seq<nat>) returns (h: Graph)
    requires g.Stored() && id in g.Layer(level) && |ns| <= g.Capacity(level)
    requires forall i :: 0 <= i < |ns| ==> ns[i] < |g.levels|
    ensures h.Stored() && SameBut(g, h, level) && h.Layer(level) == g.Layer(level)[id := ns]
  {
    assert g.arena.HasBlock(id, level);
    var b := SetLinks(g.arena, id, level, ns);
    WriteChangesOneList(g.arena, b, g.levels, g.count, id, level);
    h := g.(arena := b);
  }

  method ExtendList(g: Graph, id: nat, level: nat, x: nat) returns (h: Graph)
    requires g.Stored() && id in g.Layer(level) && x < |g.levels|
    requires |g.Layer(level)[id]| < g.Capacity(level)
    ensures h.Stored() && SameBut(g, h, level) && h.Layer(level) == g.Layer(level)[id := g.Layer(level)[id] + [x]]
  {
    var b := AppendLink(g.arena, id, level, x);
    WriteChangesOneList(g.arena, b, g.levels, g.count, id, level);
    h := g.(arena := b);
  }

  /** The arena after addPoint has claimed slot count for a node of the given level. */
  function WithNode(a: Arena, count: nat, level: nat): Arena
    requires count < |a.upper|
  {
    if level == 0 then a
    else
      var blank: seq<U32> := seq(BlockWords(level, a.m + 1), _ => 0);
      a.(upper := a.upper[count := blank])
  }

  /** The upper blocks a new node gets are empty. */
  lemma NewBlock(a: Arena, count: nat, level: nat, l: nat)
    requires count < |a.upper| && 0 < l <= level
    ensures WithNode(a, count, level).HasBlock(count, l) && WithNode(a, count, level).Links(count, l) == []
  {
    BlocksApart(l - 1, level, a.m + 1);
  }

  /** A block that was stored, other than an upper one of the claimed slot, stays. */
  lemma KeptBlock(a: Arena, count: nat, level: nat, id: nat, l: nat)
    requires count < |a.upper| && a.HasBlock(id, l) && (id == count ==> l == 0)
    ensures WithNode(a, count, level).HasBlock(id, l) && WithNode(a, count, level).Links(id, l) == a.Links(id, l)
  {
    var b := WithNode(a, count, level);
    assert b.l0 == a.l0 && b.m == a.m && (l > 0 ==> b.upper[id] == a.upper[id]);
  }

  /** Claiming a slot leaves every other block as it was, and the new blocks are empty. */
  lemma NodeBlocks(a: Arena, levels: seq<nat>, count: nat, level: nat, id: nat, l: nat)
    requires BlocksOk(a, levels) && count < |levels| && BlankFrom(a, levels, count)
    requires id < |levels| && l <= levels[count := level][id]
    ensures WithNode(a, count, level).HasBlock(id, l)
    ensures WithNode(a, count, level).Links(id, l) == if id == count then [] else a.Links(id, l)
  {
    assert Blank(a, levels, count);
    if id == count && l > 0 {
      NewBlock(a, count, level, l);
    } else {
      assert a.HasBlock(id, l);
      KeptBlock(a, count, level, id, l);
    }
  }

  /** Claiming a slot adds an isolated node to the layers 0..level. */
  lemma NodeStartsIsolated(a: Arena, levels: seq<nat>, count: nat, level: nat)
    requires BlocksOk(a, levels) && count < |levels| && BlankFrom(a, levels, count)
    ensures var a', levels' := WithNode(a, count, level), levels[count := level];
      && BlocksOk(a', levels') && BlankFrom(a', levels', count + 1)
      && forall l: nat :: LayerOf(a', levels', count + 1, l)
           == if l <= level then LayerOf(a, levels, count, l)[count := []] else LayerOf(a, levels, count, l)
  {
    var a', levels' := WithNode(a, count, level), levels[count := level];
    assert Blank(a, levels, count);
    forall id: nat, l: nat | id < |levels'| && l <= levels'[id]
      ensures a'.HasBlock(id, l)
      ensures a'.Links(id, l) == if id == count then [] else a.Links(id, l)
    {
      NodeBlocks(a, levels, count, level, id, l);
    }
    assert a'.Shape(levels');
    forall id: nat | count + 1 <= id < |levels| ensures Blank(a', levels', id) {
      assert Blank(a, levels, id);
    }
    forall l: nat ensures LayerOf(a', levels', count + 1, l)
           == if l <= level then LayerOf(a, levels, count, l)[count := []] else LayerOf(a, levels, count, l)
    {
      LayerWithNode(a, levels, count, level, l);
    }
  }

  lemma LayerWithNode(a: Arena, levels: seq<nat>, count: nat, level: nat, l: nat)
    requires BlocksOk(a, levels) && count < |levels| && BlankFrom(a, levels, count)
    requires BlocksOk(WithNode(a, count, level), levels[count := level])
    ensures LayerOf(WithNode(a, count, level), levels[count := level], count + 1, l)
         == if l <= level then LayerOf(a, levels, count, l)[count := []] else LayerOf(a, levels, count, l)
  {
    var before := LayerOf(a, levels, count, l);
    var after := LayerOf(WithNode(a, count, level), levels[count := level], count + 1, l);
    assert after.Keys == before.Keys + if l <= level then {count} else {};
    forall id | id in after ensures after[id] == if id == count then [] else before[id] {
      NodeBlocks(a, levels, count, level, id, l);
    }
  }

  /** addPoint claims the next slot. */
  function Claim(g: Graph, level: nat): Graph
    requires g.count < |g.arena.upper| && g.count < |g.levels|
  {
    Graph(WithNode(g.arena, g.count, level), g.levels[g.count := level], g.count + 1)
  }

  /** A freshly allocated arena: all words zero, every node on level 0. */
  function EmptyGraph(m: nat, nodes: nat): Graph {
    Graph(Arena(m, seq(BlockWords(nodes, 2 * m + 1), _ => 0), seq(nodes, _ => [])), seq(nodes, _ => 0), 0)
  }

  lemma EmptyGraphOk(m: nat, nodes: nat)
    requires nodes < TWO_32 && 2 * m < TWO_32
    ensures EmptyGraph(m, nodes).Ok()
  {
    var g := EmptyGraph(m, nodes);
    forall id: nat, l: nat | id < nodes && l <= g.levels[id] ensures g.arena.HasBlock(id, l) {
      BlocksInBounds(g.arena, g.levels, id, l);
    }
    assert BlocksOk(g.arena, g.levels);
    forall id: nat | id < nodes ensures Blank(g.arena, g.levels, id) {
      assert g.arena.HasBlock(id, 0) && g.arena.Word(id, 0, 0) == 0;
    }
    forall l: nat ensures g.LayerSound(l) {
      assert g.Layer(l) == map[];
    }
  }
}
