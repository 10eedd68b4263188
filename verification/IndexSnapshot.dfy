/** Saving an index to a file and loading it back. */
module IndexSnapshot {
  import opened Bytes
  import opened Options
  import opened KeyTable
  import opened LinkArena
  import opened GraphStore
  import opened NodeSlots
  import opened SnapshotCodec
  import opened SnapshotFormat
  import opened SnapshotBytes
  import opened HnswIndex

  function Prefix<T>(s: seq<T>, n: nat): seq<T> {
    if n <= |s| then s[..n] else s
  }

  /** Levels as the 32-bit words of the file. */
  function LevelWords(levels: seq<nat>): (ws: seq<U32>)
    ensures |ws| == |levels|
  {
    seq(|levels|, i requires 0 <= i < |levels| => levels[i] % TWO_32)
  }

  /** The part of the graph and of the node arrays that the file holds. */
  function BodyFor(nodes: Nodes, g: Graph): Body {
    var n := g.count;
    Body(Prefix(nodes.data, n), LevelWords(Prefix(g.levels, n)), Prefix(nodes.labels, n), Prefix(nodes.deleted, n),
         Prefix(g.arena.l0, BlockWords(n, 2 * g.arena.m + 1)), Prefix(g.arena.upper, n))
  }

  function Padded<T>(s: seq<T>, n: nat, x: T): (r: seq<T>)
    ensures |s| <= n ==> |r| == n
    ensures forall i :: 0 <= i < |r| ==> r[i] == if i < |s| then s[i] else x
  {
    if |s| <= n then s + seq(n - |s|, _ => x) else s
  }

  /** The label map rebuilt from the first n labels. */
  function LabelMap(labels: seq<Key>, n: nat): map<Key, nat>
    requires n <= |labels|
  {
    if n == 0 then map[] else LabelMap(labels, n - 1)[labels[n - 1] := n - 1]
  }

  method RebuildLabels(labels: seq<Key>, n: nat) returns (ids: map<Key, nat>)
    requires n <= |labels|
    ensures ids == LabelMap(labels, n)
  {
    ids := map[];
    for i := 0 to n
      invariant ids == LabelMap(labels, i)
    {
      ids := ids[labels[i] := i];
    }
  }

  lemma {:induction false} LabelMapOf(nodes: Nodes, slots: nat, count: nat, dim: nat, n: nat)
    requires nodes.Ok(slots, count, dim) && n <= count
    ensures forall k :: k in LabelMap(nodes.labels, n) <==> k in nodes.labelToId && nodes.labelToId[k] < n
    ensures forall k :: k in LabelMap(nodes.labels, n) ==> LabelMap(nodes.labels, n)[k] == nodes.labelToId[k]
  {
    if n > 0 {
      LabelMapOf(nodes, slots, count, dim, n - 1);
      assert nodes.SlotOk(n - 1, dim);
      assert forall k :: k in nodes.labelToId ==> nodes.KeyOk(k, count);
    }
  }

  lemma {:induction false} LabelMapPrefix(a: seq<Key>, b: seq<Key>, n: nat)
    requires n <= |a| && n <= |b| && a[..n] == b[..n]
    ensures LabelMap(a, n) == LabelMap(b, n)
  {
    if n > 0 {
      assert a[n - 1] == a[..n][n - 1] == b[n - 1];
      assert a[..n - 1] == a[..n][..n - 1] == b[..n - 1];
      LabelMapPrefix(a, b, n - 1);
    }
  }

  /** The label map is always the inverse of the labels below count, so rebuilding it
      restores it. */
  lemma RebuiltLabels(nodes: Nodes, slots: nat, count: nat, dim: nat)
    requires nodes.Ok(slots, count, dim)
    ensures LabelMap(nodes.labels, count) == nodes.labelToId
  {
    LabelMapOf(nodes, slots, count, dim, count);
    assert forall k :: k in nodes.labelToId ==> nodes.KeyOk(k, count);
    assert LabelMap(nodes.labels, count).Keys == nodes.labelToId.Keys;
  }

  function NodesFrom(b: Body, slots: nat): Nodes {
    Nodes(Padded(b.data, slots, []), Padded(b.labels, slots, Key(0, 0)), Padded(b.deleted, slots, false),
          LabelMap(b.labels, |b.labels|))
  }

  function GraphFrom(h: Header, b: Body): Graph {
    Graph(Arena(h.m, Padded(b.l0, BlockWords(h.maxElements, 2 * h.m + 1), 0), Padded(b.upper, h.maxElements, [])),
          Padded(b.levels, h.maxElements, 0), h.count)
  }

  lemma {:induction false} TombstonesPrefix(a: seq<bool>, b: seq<bool>, n: nat)
    requires n <= |a| && n <= |b| && forall i :: 0 <= i < n ==> a[i] == b[i]
    ensures Tombstones(a, n) == Tombstones(b, n)
  {
    if n > 0 {
      TombstonesPrefix(a, b, n - 1);
    }
  }

  /** Nodes that agree below count and on the label map store the same. */
  lemma SameNodes(old': Nodes, new': Nodes, slots: nat, count: nat, dim: nat)
    requires old'.Ok(slots, count, dim) && new'.labelToId == old'.labelToId
    requires |new'.data| == |new'.labels| == |new'.deleted| == slots
    requires forall i :: 0 <= i < count ==>
               new'.data[i] == old'.data[i] && new'.labels[i] == old'.labels[i] && new'.deleted[i] == old'.deleted[i]
    ensures new'.Ok(slots, count, dim) && EntriesOf(new') == EntriesOf(old')
  {
    forall k | k in new'.labelToId ensures new'.KeyOk(k, count) {
      assert old'.KeyOk(k, count);
    }
    forall id: nat | id < count ensures new'.SlotOk(id, dim) {
      assert old'.SlotOk(id, dim);
    }
    EntriesKeys(old', slots, count, dim);
    EntriesKeys(new', slots, count, dim);
    assert forall k :: k in old'.labelToId ==> old'.KeyOk(k, count);
  }

  lemma NodesRestored(nodes: Nodes, b: Body, slots: nat, count: nat, dim: nat)
    requires nodes.Ok(slots, count, dim)
    requires b.data == nodes.data[..count] && b.labels == nodes.labels[..count] && b.deleted == nodes.deleted[..count]
    ensures var copy := NodesFrom(b, slots);
      && copy.Ok(slots, count, dim) && EntriesOf(copy) == EntriesOf(nodes) && copy.labelToId == nodes.labelToId
      && Tombstones(copy.deleted, count) == Tombstones(nodes.deleted, count)
  {
    var copy := NodesFrom(b, slots);
    RebuiltLabels(nodes, slots, count, dim);
    LabelMapPrefix(b.labels, nodes.labels, count);
    SameNodes(nodes, copy, slots, count, dim);
    TombstonesPrefix(copy.deleted, nodes.deleted, count);
  }

  /** The copy c agrees with g on everything the file holds and is blank elsewhere. */
  ghost predicate CopiedLinks(g: Graph, c: Graph) {
    var held := BlockWords(g.count, 2 * g.arena.m + 1);
    && c.count == g.count && c.levels == g.levels && c.arena.m == g.arena.m
    && |c.arena.l0| == |g.arena.l0| && |c.arena.upper| == |g.arena.upper|
    && (forall i :: 0 <= i < |c.arena.l0| ==> c.arena.l0[i] == if i < held then g.arena.l0[i] else 0)
    && (forall i :: 0 <= i < |c.arena.upper| ==> c.arena.upper[i] == if i < g.count then g.arena.upper[i] else [])
  }

  lemma CopyShape(g: Graph, c: Graph)
    requires g.Stored() && CopiedLinks(g, c)
    ensures c.arena.Shape(c.levels)
  {
    forall id | 0 <= id < |c.levels| ensures |c.arena.upper[id]| == BlockWords(c.levels[id], c.arena.m + 1) {
      if id >= g.count {
        assert Blank(g.arena, g.levels, id);
      }
    }
  }

  /** A stored block is copied word by word. */
  lemma StoredBlock(g: Graph, c: Graph, id: nat, l: nat)
    requires g.Stored() && CopiedLinks(g, c) && id < g.count && l <= g.levels[id]
    ensures c.arena.HasBlock(id, l) && c.arena.Links(id, l) == g.arena.Links(id, l)
  {
    assert g.arena.HasBlock(id, l);
    if l == 0 {
      BlocksApart(id, g.count, 2 * g.arena.m + 1);
    }
    assert forall i: nat :: i <= g.arena.Capacity(l) ==>
      c.arena.InBounds(id, l, i) && g.arena.InBounds(id, l, i) && c.arena.Word(id, l, i) == g.arena.Word(id, l, i);
  }

  lemma BlankBlock(g: Graph, c: Graph, id: nat)
    requires g.Stored() && CopiedLinks(g, c) && g.count <= id < |g.levels|
    ensures c.levels[id] == 0 && c.arena.HasBlock(id, 0) && c.arena.Links(id, 0) == []
  {
    assert Blank(g.arena, g.levels, id) && g.arena.HasBlock(id, 0);
    if g.count < id {
      BlocksApart(g.count, id, 2 * g.arena.m + 1);
    }
  }

  lemma CopyStored(g: Graph, c: Graph)
    requires g.Stored() && CopiedLinks(g, c)
    ensures c.Stored()
  {
    CopyShape(g, c);
    forall id: nat, l: nat | id < |c.levels| && l <= c.levels[id] ensures c.arena.HasBlock(id, l) {
      if id < g.count {
        StoredBlock(g, c, id, l);
      } else {
        BlankBlock(g, c, id);
      }
    }
    forall id: nat | c.count <= id < |c.levels| ensures Blank(c.arena, c.levels, id) {
      BlankBlock(g, c, id);
    }
  }

  lemma CopyLayer(g: Graph, c: Graph, l: nat)
    requires g.Stored() && c.Stored() && CopiedLinks(g, c)
    ensures c.Layer(l) == g.Layer(l)
  {
    forall id: nat | id < g.count && l <= g.levels[id] ensures c.arena.Links(id, l) == g.arena.Links(id, l) {
      StoredBlock(g, c, id, l);
    }
  }

  /** The copy is as sound as the original and has the same layers. */
  lemma CopyOk(g: Graph, c: Graph)
    requires g.Ok() && CopiedLinks(g, c)
    ensures c.Ok() && forall l: nat :: c.Layer(l) == g.Layer(l)
  {
    CopyStored(g, c);
    forall l: nat ensures c.Layer(l) == g.Layer(l) && c.LayerSound(l) {
      assert g.LayerSound(l);
      CopyLayer(g, c, l);
    }
  }

  /** What restricts the file format: levels and the lengths of upper rows are written as
      32-bit numbers. */
  ghost predicate LevelsFit(g: Graph)
    requires g.count <= |g.levels|
  {
    forall id :: 0 <= id < g.count ==> g.levels[id] < TWO_32 && BlockWords(g.levels[id], g.arena.m + 1) < TWO_32
  }

  /** Levels that can be drawn always fit: the highest is the natural logarithm of the smallest
      positive normal double, divided by that of M, with M at least 2. */
  lemma DrawnLevelsFit(g: Graph)
    requires g.count <= |g.levels| && 2 * g.arena.m <= 256
    requires forall id :: 0 <= id < g.count ==> g.levels[id] <= 1022
    ensures LevelsFit(g)
  {
    forall id | 0 <= id < g.count ensures g.levels[id] < TWO_32 && BlockWords(g.levels[id], g.arena.m + 1) < TWO_32 {
      BlockWordsGrow(g.levels[id], 1022, g.arena.m + 1);
      BlockWordsIsProduct(1022, g.arena.m + 1);
    }
  }

  /** A sound index of which h is the header. */
  ghost predicate Image(h: Header, nodes: Nodes, g: Graph) {
    && g.Ok() && LevelsFit(g) && nodes.Ok(|g.levels|, g.count, h.dim) && GoodParameters(h)
    && h.m == g.arena.m && h.maxElements == |g.levels| && h.count == g.count
  }

  lemma WordsHeld(h: Header, nodes: Nodes, g: Graph)
    requires Image(h, nodes, g)
    ensures BlockWords(g.count, 2 * g.arena.m + 1) <= |g.arena.l0| && |g.arena.upper| == |g.levels|
    ensures forall i :: 0 <= i < g.count ==> |nodes.data[i]| == h.dim && |g.arena.upper[i]| < TWO_32
  {
    BlockWordsGrow(g.count, |g.levels|, 2 * g.arena.m + 1);
    forall i: nat | i < g.count ensures |nodes.data[i]| == h.dim && |g.arena.upper[i]| < TWO_32 {
      assert nodes.SlotOk(i, h.dim);
    }
  }

  lemma ImageFits(h: Header, nodes: Nodes, g: Graph)
    requires Image(h, nodes, g)
    ensures Fits(h, BodyFor(nodes, g))
    ensures var b := BodyFor(nodes, g); forall i :: 0 <= i < |b.upper| ==> |b.upper[i]| < TWO_32
  {
    WordsHeld(h, nodes, g);
  }

  lemma GraphRestored(h: Header, nodes: Nodes, g: Graph)
    requires Image(h, nodes, g)
    ensures CopiedLinks(g, GraphFrom(h, BodyFor(nodes, g)))
  {
    WordsHeld(h, nodes, g);
    LevelsRestored(g);
  }

  /** Slots from count on are on level 0, in the original and in the copy. */
  lemma LevelsRestored(g: Graph)
    requires g.Stored() && LevelsFit(g)
    ensures Padded(LevelWords(Prefix(g.levels, g.count)), |g.levels|, 0) == g.levels
  {
    forall id: nat | g.count <= id < |g.levels| ensures g.levels[id] == 0 {
      assert Blank(g.arena, g.levels, id);
    }
  }

  lemma {:induction false} BlockWordsGrow(a: nat, b: nat, stride: nat)
    requires a <= b
    ensures BlockWords(a, stride) <= BlockWords(b, stride)
  {
    if a < b {
      BlockWordsGrow(a, b - 1, stride);
    }
  }

  method WriteRows(rows: seq<seq<U32>>) returns (out: seq<U8>)
    ensures out == WriteList(Row(), rows)
  {
    out := [];
    for i := 0 to |rows|
      invariant out == WriteList(Row(), rows[..i])
    {
      assert rows[..i + 1] == rows[..i] + [rows[i]];
      WriteListSnoc(Row(), rows[..i], rows[i]);
      out := out + Row().write(rows[i]);
    }
    assert rows[..|rows|] == rows;
  }

  /** save: the pieces written one after the other. */
  method WriteFile(h: Header, b: Body) returns (file: seq<U8>)
    requires Fits(h, b)
    ensures file == Serialize(h, b)
  {
    var preamble, fields := List(Word(), 2).write(Preamble()), HeaderCodec().write(FieldsOf(h));
    var nodes := NodeCodec(h.dim, h.count).write(PartsOf(b).0);
    var l0 := List(Word(), |b.l0|).write(b.l0);
    var rows := WriteRows(b.upper);
    file := preamble + fields + nodes + l0 + rows;
    Regroup(preamble + fields + nodes, l0, rows);
    Regroup(preamble + fields, nodes, l0 + rows);
    Regroup(preamble, fields, nodes + (l0 + rows));
  }

  lemma {:induction false} ReadListSnoc<T>(c: Codec<T>, n: nat, s: seq<U8>)
    ensures ReadList(c, n + 1, s) ==
      match ReadList(c, n, s)
      case None => None
      case Some((xs, rest)) =>
        match c.read(rest)
        case None => None
        case Some((x, end)) => Some((xs + [x], end))
  {
    if n == 0 {
      if c.read(s).Some? {
        var (x, rest) := c.read(s).value;
        assert ReadList(c, 0, rest) == Some(([], rest)) && [] + [x] == [x] + [];
      }
    } else if c.read(s).Some? {
      var (x, rest) := c.read(s).value;
      ReadListSnoc(c, n - 1, rest);
      if ReadList(c, n - 1, rest).Some? && c.read(ReadList(c, n - 1, rest).value.1).Some? {
        var (xs, end) := ReadList(c, n - 1, rest).value;
        var (y, _) := c.read(end).value;
        assert [x] + (xs + [y]) == ([x] + xs) + [y];
      }
    }
  }

  lemma {:induction false} ReadListFails<T>(c: Codec<T>, i: nat, n: nat, s: seq<U8>)
    requires i <= n && ReadList(c, i, s).None?
    ensures ReadList(c, n, s).None?
  {
    if i < n {
      ReadListSnoc(c, n - 1, s);
      ReadListFails(c, i, n - 1, s);
    }
  }

  method ReadRows(n: nat, s: seq<U8>) returns (r: Option<(seq<seq<U32>>, seq<U8>)>)
    ensures r == ReadList(Row(), n, s)
  {
    var rows: seq<seq<U32>>, rest := [], s;
    for i := 0 to n
      invariant ReadList(Row(), i, s) == Some((rows, rest))
    {
      ReadListSnoc(Row(), i, s);
      match Row().read(rest) {
        case None =>
          ReadListFails(Row(), i + 1, n, s);
          return None;
        case Some((row, end)) =>
          rows, rest := rows + [row], end;
      }
    }
    return Some((rows, rest));
  }

  /** The node arrays, the layer 0 words, then the rows. */
  method ReadParts(nodeCodec: Codec<NodeFields>, wordCodec: Codec<seq<U32>>, h: Header, s: seq<U8>) returns (r: Result)
    ensures r == LoadWith(Pair(nodeCodec, Pair(wordCodec, List(Row(), h.count))), h, s)
  {
    r := Failed(Truncated);
    var nodes := nodeCodec.read(s);
    if nodes.Some? {
      var words := wordCodec.read(nodes.value.1);
      if words.Some? {
        var rows := ReadRows(h.count, words.value.1);
        if rows.Some? {
          r := Loaded(h, BodyOf((nodes.value.0, (words.value.0, rows.value.0))));
        }
      }
    }
  }

  lemma BodyCodecParts(h: Header, words: nat)
    requires words == BlockWords(h.count, 2 * h.m + 1)
    ensures BodyCodec(h) == Pair(NodeCodec(h.dim, h.count), Pair(List(Word(), words), List(Row(), h.count)))
  {
    assert BodyCodec(h) == Pair(NodeCodec(h.dim, h.count), LinkCodec(words, h.count));
  }

  method ReadBody(h: Header, s: seq<U8>) returns (r: Result)
    ensures r == LoadBody(h, s)
  {
    var words := BlockWords(h.count, 2 * h.m + 1);
    var nodeCodec, wordCodec := NodeCodec(h.dim, h.count), List(Word(), words);
    BodyCodecParts(h, words);
    r := ReadParts(nodeCodec, wordCodec, h, s);
  }

  /** load up to the point where the file is known to be good. */
  method ReadFile(file: seq<U8>) returns (r: Result)
    ensures r == Deserialize(file)
  {
    var first := List(Word(), 2).read(file);
    if first.None? {
      return Failed(Truncated);
    } else if first.value.0[0] != MAGIC {
      return Failed(NotAnIndex);
    } else if first.value.0[1] != VERSION {
      return Failed(WrongVersion);
    }
    var second := HeaderCodec().read(first.value.1);
    var header := if second.None? then None else HeaderOf(second.value.0);
    if header.None? {
      return Failed(Truncated);
    } else if !GoodParameters(header.value) {
      return Failed(BadParameters);
    }
    r := ReadBody(header.value, second.value.1);
  }

  /** The metric a space code stands for. */
  type Spaces = U32 -> Metric

  datatype Opened = Opened(index: Index) | Refused(error: LoadError)

  /** A fresh index filled from the file's contents. */
  method Build(h: Header, b: Body, metric: Metric) returns (index: Index)
    requires GoodParameters(h) && forall v: Vector :: |metric.prepare(v)| == |v|
    ensures fresh(index) && index.metric == metric && index.dim == h.dim && index.maxElements == h.maxElements
    ensures index.m == h.m && index.efConstruction == if h.efConstruction < h.m then h.m else h.efConstruction
    ensures index.nodes == NodesFrom(b, h.maxElements) && index.graph == GraphFrom(h, b)
    ensures index.numDeleted == h.numDeleted && index.maxLevel == h.maxLevel && index.entryPoint == h.entryPoint
  {
    index := new Index(metric, h.dim, h.maxElements, h.m, h.efConstruction);
    var ids := RebuildLabels(b.labels, |b.labels|);
    index.nodes := Nodes(Padded(b.data, h.maxElements, []), Padded(b.labels, h.maxElements, Key(0, 0)),
                         Padded(b.deleted, h.maxElements, false), ids);
    index.graph := GraphFrom(h, b);
    index.numDeleted, index.maxLevel, index.entryPoint := h.numDeleted, h.maxLevel, h.entryPoint;
  }

  /** The index holds what header and arrays say, the rest blank. */
  ghost predicate FilledFrom(index: Index, h: Header, b: Body, spaces: Spaces)
    reads index
  {
    && index.metric == spaces(h.space) && index.dim == h.dim && index.maxElements == h.maxElements && index.m == h.m
    && index.efConstruction == (if h.efConstruction < h.m then h.m else h.efConstruction)
    && index.nodes == NodesFrom(b, h.maxElements) && index.graph == GraphFrom(h, b)
    && index.numDeleted == h.numDeleted && index.maxLevel == h.maxLevel && index.entryPoint == h.entryPoint
  }

  method Load(file: seq<U8>, spaces: Spaces) returns (r: Opened)
    requires forall space: U32, v: Vector :: |spaces(space).prepare(v)| == |v|
    ensures match Deserialize(file)
      case Failed(e) => r == Refused(e)
      case Loaded(h, b) => r.Opened? && fresh(r.index) && FilledFrom(r.index, h, b, spaces)
  {
    var parsed := ReadFile(file);
    match parsed {
      case Failed(e) =>
        r := Refused(e);
      case Loaded(h, b) =>
        var index := Build(h, b, spaces(h.space));
        r := Opened(index);
    }
  }

  /** The index holds, for the nodes in the file, what the file says, byte by byte: parameters,
      vectors, labels, tombstones, levels, link words; each label leads to the last slot that carries
      it; slots without a node are blank. */
  ghost predicate HoldsBytes(index: Index, file: seq<U8>, h: Header, spaces: Spaces)
    reads index
  {
    && HeaderAt(file, h) && index.metric == spaces(h.space) && index.dim == h.dim && index.maxElements == h.maxElements
    && index.m == h.m == index.graph.arena.m && index.efConstruction == (if h.efConstruction < h.m then h.m else h.efConstruction)
    && index.graph.count == h.count && index.numDeleted == h.numDeleted
    && index.maxLevel == h.maxLevel && index.entryPoint == h.entryPoint
    && ArraysAt(file, h.dim, h.m, h.count, index.nodes.data, index.graph.levels, index.nodes.labels, index.nodes.deleted,
                index.graph.arena.l0, index.graph.arena.upper)
    && |index.nodes.labels| == |index.nodes.deleted| == |index.graph.levels| == h.maxElements
    && LastSlots(index.nodes.labels, h.count, index.nodes.labelToId)
    && (forall i :: h.count <= i < h.maxElements ==> !index.nodes.deleted[i] && index.graph.levels[i] == 0)
  }

  /** ids leads every label of the first n slots to the last of them that carries it, and knows no
      other label. */
  ghost predicate LastSlots(labels: seq<Key>, n: nat, ids: map<Key, nat>)
    requires n <= |labels|
  {
    && (forall k :: k in ids ==> ids[k] < n && labels[ids[k]] == k)
    && (forall i :: 0 <= i < n ==> labels[i] in ids && i <= ids[labels[i]])
  }

  lemma {:induction false} LabelMapLast(labels: seq<Key>, longer: seq<Key>, n: nat)
    requires n <= |labels| && n <= |longer| && labels[..n] == longer[..n]
    ensures LastSlots(longer, n, LabelMap(labels, n))
  {
    if n > 0 {
      assert labels[n - 1] == labels[..n][n - 1] == longer[n - 1];
      assert labels[..n - 1] == labels[..n][..n - 1] == longer[..n - 1];
      LabelMapLast(labels, longer, n - 1);
    }
  }

  lemma PaddedIsPrefix(h: Header, b: Body)
    requires GoodParameters(h) && Fits(h, b)
    ensures var nodes, g := NodesFrom(b, h.maxElements), GraphFrom(h, b);
      IsPrefix(b, h.count, HeldWords(h.m, h.count), nodes.data, g.levels, nodes.labels, nodes.deleted, g.arena.l0, g.arena.upper)
  {
    BlockWordsIsProduct(h.count, 2 * h.m + 1);
    BlockWordsGrow(h.count, h.maxElements, 2 * h.m + 1);
  }

  lemma FilledHoldsBytes(index: Index, file: seq<U8>, h: Header, b: Body, spaces: Spaces)
    requires GoodParameters(h) && Fits(h, b) && LaidOut(file, h, b) && FilledFrom(index, h, b, spaces)
    ensures HoldsBytes(index, file, h, spaces)
  {
    PaddedIsPrefix(h, b);
    LongerLaidOut(file, h, HeldWords(h.m, h.count), b, index.nodes.data, index.graph.levels, index.nodes.labels, index.nodes.deleted,
                 index.graph.arena.l0, index.graph.arena.upper);
    LabelMapLast(b.labels, index.nodes.labels, h.count);
  }

  /** load, conversely: of any file whose bytes are laid out like this, whoever wrote it and whatever
      follows, load makes an index that holds what the bytes say. */
  method LoadBytes(file: seq<U8>, spaces: Spaces, ghost h: Header, ghost b: Body) returns (r: Opened)
    requires forall space: U32, v: Vector :: |spaces(space).prepare(v)| == |v|
    requires GoodParameters(h) && Fits(h, b) && ShortRows(b.upper) && LaidOut(file, h, b)
    ensures r.Opened? && fresh(r.index) && HoldsBytes(r.index, file, h, spaces)
  {
    r := Load(file, spaces);
    ReadsLaidOut(file, h, b);
    FilledHoldsBytes(r.index, file, h, b, spaces);
  }

  lemma ReadsLaidOut(file: seq<U8>, h: Header, b: Body)
    requires GoodParameters(h) && Fits(h, b) && ShortRows(b.upper) && LaidOut(file, h, b)
    ensures Deserialize(file) == Loaded(h, b)
  {
    LayoutIff(file, h, b);
    var tail := RestOf(Serialize(h, b), file);
    RoundTripExact(h, b, tail);
  }

  /** A file that does not begin with magic number and version is refused. */
  lemma WrongStart(file: seq<U8>)
    requires |file| >= 8
    ensures Deserialize(file) == Failed(NotAnIndex) <==> !Word32(file, 0, 0x484E5357)
    ensures Deserialize(file) == Failed(WrongVersion) <==> Word32(file, 0, 0x484E5357) && !Word32(file, 4, 2)
  {
    FirstWords(file);
    LaterErrors(file[8..]);
  }

  /** A file with magic number, version and all nine header fields is refused for its parameters
      exactly if the constructor would refuse them or the nodes do not fit. */
  lemma BadHeader(file: seq<U8>, h: Header)
    requires HeaderAt(file, h)
    ensures Deserialize(file) == Failed(BadParameters)
       <==> h.dim == 0 || h.maxElements == 0 || h.maxElements > 0xFFFF_FFFF || h.m == 0 || h.m > 128 || h.count > h.maxElements
  {
    var rest := AfterHeader(file, h);
    HeaderDecides(h, rest);
  }

  lemma AfterHeader(file: seq<U8>, h: Header) returns (rest: seq<U8>)
    requires HeaderAt(file, h)
    ensures Deserialize(file) == LoadHeader(HeaderCodec().write(FieldsOf(h)) + rest)
  {
    var p, f := List(Word(), 2).write(Preamble()), HeaderCodec().write(FieldsOf(h));
    FileReads(file);
    StartHere(ViewOf(file), h);
    HeaderMeans(file, h);
    StartsWith(file, p + f);
    rest := RestOf(p + f, file);
    Regroup(p, f, rest);
    PreambleGives(f + rest);
  }

  lemma HeaderDecides(h: Header, rest: seq<U8>)
    ensures LoadHeader(HeaderCodec().write(FieldsOf(h)) + rest) == Failed(BadParameters)
       <==> h.dim == 0 || h.maxElements == 0 || h.maxElements > 0xFFFF_FFFF || h.m == 0 || h.m > 128 || h.count > h.maxElements
  {
    LoadHeaderGives(h, rest);
    BodyErrors(h, rest);
  }

  lemma BodyErrors(h: Header, s: seq<U8>)
    ensures LoadBody(h, s) != Failed(BadParameters)
  {
  }

  lemma LaterErrors(s: seq<U8>)
    ensures LoadHeader(s) != Failed(NotAnIndex) && LoadHeader(s) != Failed(WrongVersion)
  {
  }

  lemma FirstWords(file: seq<U8>)
    requires |file| >= 8
    ensures List(Word(), 2).read(file) == Some(([ReadU32(file[0..4]), ReadU32(file[4..8])], file[8..]))
  {
    var rest := file[4..];
    assert file[..4] == file[0..4] && rest[..4] == file[4..8] && rest[4..] == file[8..];
    var p, q := ReadU32(file[0..4]), ReadU32(file[4..8]);
    ReadNone(rest[4..]);
    ReadOne(rest, []);
    assert [q] + [] == [q];
    ReadOne(file, [q]);
    assert [p] + [q] == [p, q];
    assert List(Word(), 2).read(file) == ReadList(Word(), 2, file);
  }

  lemma ReadNone(s: seq<U8>)
    ensures ReadList(Word(), 0, s) == Some(([], s))
  {
  }

  lemma ReadOne(s: seq<U8>, xs: seq<U32>)
    requires |s| >= 4 && ReadList(Word(), |xs|, s[4..]).Some? && ReadList(Word(), |xs|, s[4..]).value.0 == xs
    ensures ReadList(Word(), |xs| + 1, s) == Some(([ReadU32(s[..4])] + xs, ReadList(Word(), |xs|, s[4..]).value.1))
  {
  }

  lemma RestOf(s: seq<U8>, file: seq<U8>) returns (rest: seq<U8>)
    requires s <= file
    ensures file == s + rest
  {
    rest := file[|s|..];
  }

  /** The index's numbers fit the fields of the file. */
  ghost predicate Storable(index: Index)
    requires index.Valid()
    reads index
  {
    index.dim < TWO_64 && index.efConstruction < TWO_64 && index.maxLevel < TWO_32 && LevelsFit(index.graph)
  }

  ghost predicate IsHeader(h: Header, index: Index, space: U32)
    reads index
  {
    && h.space == space && h.dim == index.dim && h.maxElements == index.maxElements && h.m == index.m
    && h.efConstruction == index.efConstruction && h.count == index.graph.count && h.numDeleted == index.numDeleted
    && h.maxLevel == index.maxLevel && h.entryPoint == index.entryPoint
  }

  lemma {:induction false} TombstonesBound(flags: seq<bool>, n: nat)
    requires n <= |flags|
    ensures Tombstones(flags, n) <= n
  {
    if n > 0 {
      TombstonesBound(flags, n - 1);
    }
  }

  lemma ValidIsImage(index: Index, h: Header, space: U32)
    requires index.Valid() && Storable(index) && IsHeader(h, index, space)
    ensures Image(h, index.nodes, index.graph)
  {
  }

  /** The file of an index, byte by byte. */
  ghost predicate ImageAt(file: seq<U8>, h: Header, nodes: Nodes, g: Graph) {
    && HeaderAt(file, h)
    && ArraysAt(file, h.dim, h.m, h.count, nodes.data, g.levels, nodes.labels, nodes.deleted, g.arena.l0, g.arena.upper)
    && |file| == FileEnd(h, g.arena.upper)
  }

  lemma BodyIsPrefix(h: Header, nodes: Nodes, g: Graph)
    requires Image(h, nodes, g)
    ensures IsPrefix(BodyFor(nodes, g), h.count, HeldWords(h.m, h.count), nodes.data, g.levels, nodes.labels, nodes.deleted,
                     g.arena.l0, g.arena.upper)
  {
    WordsHeld(h, nodes, g);
    BlockWordsIsProduct(h.count, 2 * h.m + 1);
    PartsArePrefix(nodes, g, HeldWords(h.m, h.count));
  }

  lemma PartsArePrefix(nodes: Nodes, g: Graph, words: nat)
    requires g.count <= |nodes.data| && g.count <= |g.levels| && g.count <= |nodes.labels| && g.count <= |nodes.deleted|
    requires words == BlockWords(g.count, 2 * g.arena.m + 1) && words <= |g.arena.l0| && g.count <= |g.arena.upper|
    requires LevelsFit(g)
    ensures IsPrefix(BodyFor(nodes, g), g.count, words, nodes.data, g.levels, nodes.labels, nodes.deleted,
                     g.arena.l0, g.arena.upper)
  {
  }

  lemma ImageLaidOut(h: Header, nodes: Nodes, g: Graph, file: seq<U8>)
    requires Image(h, nodes, g) && file == Serialize(h, BodyFor(nodes, g))
    ensures ImageAt(file, h, nodes, g)
  {
    var b := BodyFor(nodes, g);
    ImageFits(h, nodes, g);
    LayoutIff(file, h, b);
    BodyIsPrefix(h, nodes, g);
    LongerLaidOut(file, h, HeldWords(h.m, h.count), b, nodes.data, g.levels, nodes.labels, nodes.deleted, g.arena.l0, g.arena.upper);
  }

  /** save: the file, byte by byte, holds the index's parameters and its arrays. */
  method Save(index: Index, space: U32) returns (file: seq<U8>, ghost h: Header)
    requires index.Valid() && Storable(index)
    ensures IsHeader(h, index, space) && file == Serialize(h, BodyFor(index.nodes, index.graph))
    ensures forall g: Header :: IsHeader(g, index, space) ==> ImageAt(file, g, index.nodes, index.graph)
    ensures Deserialize(file) == Loaded(h, BodyFor(index.nodes, index.graph))
  {
    TombstonesBound(index.nodes.deleted, index.graph.count);
    var header := Header(space, index.dim, index.maxElements, index.m, index.efConstruction, index.graph.count,
                         index.numDeleted, index.maxLevel, index.entryPoint);
    ValidIsImage(index, header, space);
    file := WriteImage(header, index.nodes, index.graph);
    h := header;
    ImageLaidOut(h, index.nodes, index.graph, file);
  }

  method WriteImage(h: Header, nodes: Nodes, g: Graph) returns (file: seq<U8>)
    requires Image(h, nodes, g)
    ensures file == Serialize(h, BodyFor(nodes, g)) && Deserialize(file) == Loaded(h, BodyFor(nodes, g))
  {
    var b := BodyFor(nodes, g);
    ImageFits(h, nodes, g);
    file := WriteFile(h, b);
    ReadsBack(h, b, file);
  }

  /** What the file of an index gives back. */
  lemma ImageRestored(h: Header, nodes: Nodes, g: Graph)
    requires Image(h, nodes, g)
    ensures var copy, c := NodesFrom(BodyFor(nodes, g), h.maxElements), GraphFrom(h, BodyFor(nodes, g));
      && copy.Ok(h.maxElements, h.count, h.dim) && EntriesOf(copy) == EntriesOf(nodes)
      && copy.labelToId == nodes.labelToId
      && Tombstones(copy.deleted, h.count) == Tombstones(nodes.deleted, h.count)
      && c.Ok() && CopiedLinks(g, c) && forall l: nat :: c.Layer(l) == g.Layer(l)
  {
    ImageFits(h, nodes, g);
    GraphRestored(h, nodes, g);
    CopyOk(g, GraphFrom(h, BodyFor(nodes, g)));
    NodesRestored(nodes, BodyFor(nodes, g), h.maxElements, h.count, h.dim);
  }

  /** A copy is valid and stores the same. */
  lemma CopyIsValid(index: Index, copy: Index, h: Header, space: U32, spaces: Spaces, nodes: Nodes, g: Graph)
    requires index.Valid() && IsHeader(h, index, space) && spaces(space) == index.metric
    requires FilledFrom(copy, h, BodyFor(index.nodes, index.graph), spaces) && copy.nodes == nodes && copy.graph == g
    requires nodes.Ok(index.maxElements, index.graph.count, index.dim) && EntriesOf(nodes) == EntriesOf(index.nodes)
    requires Tombstones(nodes.deleted, index.graph.count) == Tombstones(index.nodes.deleted, index.graph.count)
    requires g.Ok() && CopiedLinks(index.graph, g)
    ensures copy.Valid() && copy.Contents() == index.Contents()
  {
  }

  lemma FilledIsCopy(index: Index, copy: Index, h: Header, space: U32, spaces: Spaces)
    requires index.Valid() && Storable(index) && IsHeader(h, index, space) && spaces(space) == index.metric
    requires FilledFrom(copy, h, BodyFor(index.nodes, index.graph), spaces)
    ensures copy.Valid() && copy.Contents() == index.Contents() && copy.nodes.labelToId == index.nodes.labelToId
    ensures CopiedLinks(index.graph, copy.graph) && forall l: nat :: copy.graph.Layer(l) == index.graph.Layer(l)
  {
    ValidIsImage(index, h, space);
    ImageRestored(h, index.nodes, index.graph);
    CopyIsValid(index, copy, h, space, spaces, copy.nodes, copy.graph);
  }

  /** load undoes save: the copy is a valid index with the same parameters, entry point, levels,
      links on every layer, and the same vector and tombstone for every label. */
  method SaveThenLoad(index: Index, space: U32, spaces: Spaces) returns (r: Opened)
    requires index.Valid() && Storable(index) && spaces(space) == index.metric
    requires forall space: U32, v: Vector :: |spaces(space).prepare(v)| == |v|
    ensures r.Opened? && fresh(r.index) && r.index.Valid()
    ensures r.index.metric == index.metric && r.index.m == index.m && r.index.efConstruction == index.efConstruction
    ensures r.index.Contents() == index.Contents() && r.index.numDeleted == index.numDeleted
    ensures r.index.entryPoint == index.entryPoint && r.index.maxLevel == index.maxLevel
    ensures r.index.nodes.labelToId == index.nodes.labelToId
    ensures CopiedLinks(index.graph, r.index.graph) && forall l: nat :: r.index.graph.Layer(l) == index.graph.Layer(l)
  {
    ghost var h;
    r, h := Reload(index, space, spaces);
    FilledIsCopy(index, r.index, h, space, spaces);
  }

  method Reload(index: Index, space: U32, spaces: Spaces) returns (r: Opened, ghost h: Header)
    requires index.Valid() && Storable(index)
    requires forall space: U32, v: Vector :: |spaces(space).prepare(v)| == |v|
    ensures r.Opened? && fresh(r.index) && IsHeader(h, index, space)
    ensures FilledFrom(r.index, h, BodyFor(index.nodes, index.graph), spaces)
  {
    var file;
    file, h := Save(index, space);
    r := Load(file, spaces);
  }

  lemma ReadsBack(h: Header, b: Body, file: seq<U8>)
    requires GoodParameters(h) && Fits(h, b) && file == Serialize(h, b)
    requires forall i :: 0 <= i < |b.upper| ==> |b.upper[i]| < TWO_32
    ensures Deserialize(file) == Loaded(h, b)
  {
    assert file + [] == file;
    RoundTripExact(h, b, []);
  }
}
