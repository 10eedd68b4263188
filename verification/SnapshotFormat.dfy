/** The snapshot file: magic number and version, fixed header, then the per-node arrays of
    the first `count` nodes one after the other. */
module SnapshotFormat {
  import opened Bytes
  import opened Options
  import opened KeyTable
  import opened LinkArena
  import opened SnapshotCodec
  import LayerSearch
  import HnswIndex

  const MAGIC: U32 := 0x484E5357
  const VERSION: U32 := 2

  datatype Header = Header(space: U32, dim: U64, maxElements: U64, m: U64, efConstruction: U64,
                           count: U64, numDeleted: U64, maxLevel: U32, entryPoint: U32)

  datatype Body = Body(data: seq<Vector>, levels: seq<U32>, labels: seq<Key>, deleted: seq<bool>,
                       l0: seq<U32>, upper: seq<seq<U32>>)

  /** The header as it lies in the file: the space, six 64-bit fields, two 32-bit fields. */
  type HeaderFields = ((seq<U32>, seq<U64>), seq<U32>)

  type NodeFields = ((seq<Vector>, seq<U32>), (seq<Key>, seq<bool>))
  type LinkFields = (seq<U32>, seq<seq<U32>>)
  type BodyFields = (NodeFields, LinkFields)

  function HeaderCodec(): Codec<HeaderFields> {
    Pair(Pair(List(Word(), 1), List(Long(), 6)), List(Word(), 2))
  }

  function FieldsOf(h: Header): HeaderFields {
    (([h.space], [h.dim, h.maxElements, h.m, h.efConstruction, h.count, h.numDeleted]), [h.maxLevel, h.entryPoint])
  }

  function HeaderOf(f: HeaderFields): Option<Header> {
    var ((a, b), c) := f;
    if |a| != 1 || |b| != 6 || |c| != 2 then None
    else Some(Header(a[0], b[0], b[1], b[2], b[3], b[4], b[5], c[0], c[1]))
  }

  /** The array lengths follow from the header. */
  function NodeCodec(dim: nat, n: nat): Codec<NodeFields> {
    Pair(Pair(List(List(Word(), dim), n), List(Word(), n)), Pair(List(Label(), n), List(Flag(), n)))
  }

  function LinkCodec(words: nat, n: nat): Codec<LinkFields> {
    Pair(List(Word(), words), List(Row(), n))
  }

  function BodyCodec(h: Header): Codec<BodyFields> {
    Pair(NodeCodec(h.dim, h.count), LinkCodec(BlockWords(h.count, 2 * h.m + 1), h.count))
  }

  function PartsOf(b: Body): BodyFields {
    (((b.data, b.levels), (b.labels, b.deleted)), (b.l0, b.upper))
  }

  function BodyOf(f: BodyFields): Body {
    Body(f.0.0.0, f.0.0.1, f.0.1.0, f.0.1.1, f.1.0, f.1.1)
  }

  /** What the constructor accepts, with no more nodes than slots. */
  predicate GoodParameters(h: Header) {
    && 0 < h.dim && 0 < h.maxElements <= HnswIndex.NONE && 1 <= h.m && 2 * h.m <= LayerSearch.MAX_DEGREE
    && h.count <= h.maxElements
  }

  datatype LoadError = NotAnIndex | WrongVersion | BadParameters | Truncated
  datatype Result = Loaded(header: Header, body: Body) | Failed(error: LoadError)

  function Preamble(): seq<U32> {
    [MAGIC, VERSION]
  }

  function Serialize(h: Header, b: Body): seq<U8> {
    List(Word(), 2).write(Preamble()) + (HeaderCodec().write(FieldsOf(h)) + BodyCodec(h).write(PartsOf(b)))
  }

  function LoadWith(c: Codec<BodyFields>, h: Header, s: seq<U8>): Result {
    match c.read(s)
    case None => Failed(Truncated)
    case Some((f, _)) => Loaded(h, BodyOf(f))
  }

  function LoadBody(h: Header, s: seq<U8>): Result {
    LoadWith(BodyCodec(h), h, s)
  }

  function LoadHeader(s: seq<U8>): Result {
    match HeaderCodec().read(s)
    case None => Failed(Truncated)
    case Some((f, rest)) =>
      match HeaderOf(f)
      case None => Failed(Truncated)
      case Some(h) => if GoodParameters(h) then LoadBody(h, rest) else Failed(BadParameters)
  }

  function Deserialize(s: seq<U8>): Result {
    match List(Word(), 2).read(s)
    case None => Failed(Truncated)
    case Some((p, rest)) =>
      if p[0] != MAGIC then Failed(NotAnIndex)
      else if p[1] != VERSION then Failed(WrongVersion)
      else LoadHeader(rest)
  }

  /** Array lengths as the header announces them. */
  ghost predicate Fits(h: Header, b: Body) {
    && |b.data| == |b.levels| == |b.labels| == |b.deleted| == |b.upper| == h.count
    && (forall i :: 0 <= i < |b.data| ==> |b.data[i]| == h.dim)
    && |b.l0| == BlockWords(h.count, 2 * h.m + 1)
  }

  ghost function CutRows(b: Body): (c: Body)
    ensures |c.upper| == |b.upper| && forall i :: 0 <= i < |b.upper| ==> c.upper[i] == Cut(b.upper[i])
  {
    b.(upper := seq(|b.upper|, i requires 0 <= i < |b.upper| => Cut(b.upper[i])))
  }

  lemma HeaderGives(h: Header)
    ensures Gives(HeaderCodec(), FieldsOf(h), FieldsOf(h))
  {
    var ((a, b), c) := FieldsOf(h);
    WordsGive(a);
    forall i | 0 <= i < |b| ensures Gives(Long(), b[i], b[i]) {
      LongGives(b[i]);
    }
    ListCodecGives(Long(), b, b);
    WordsGive(c);
    PairGives(List(Word(), 1), List(Long(), 6), a, a, b, b);
    PairGives(Pair(List(Word(), 1), List(Long(), 6)), List(Word(), 2), (a, b), (a, b), c, c);
  }

  lemma VectorsGive(data: seq<Vector>, dim: nat)
    requires forall i :: 0 <= i < |data| ==> |data[i]| == dim
    ensures Gives(List(List(Word(), dim), |data|), data, data)
  {
    forall i | 0 <= i < |data| ensures Gives(List(Word(), dim), data[i], data[i]) {
      WordsGive(data[i]);
    }
    ListCodecGives(List(Word(), dim), data, data);
  }

  lemma LabelsGive(labels: seq<Key>)
    ensures Gives(List(Label(), |labels|), labels, labels)
  {
    forall i | 0 <= i < |labels| ensures Gives(Label(), labels[i], labels[i]) {
      LabelGives(labels[i]);
    }
    ListCodecGives(Label(), labels, labels);
  }

  lemma FlagsGive(flags: seq<bool>)
    ensures Gives(List(Flag(), |flags|), flags, flags)
  {
    forall i | 0 <= i < |flags| ensures Gives(Flag(), flags[i], flags[i]) {
      FlagGives(flags[i]);
    }
    ListCodecGives(Flag(), flags, flags);
  }

  lemma RowsGive(rows: seq<seq<U32>>, cut: seq<seq<U32>>)
    requires |rows| == |cut| && forall i :: 0 <= i < |rows| ==> cut[i] == Cut(rows[i])
    ensures Gives(List(Row(), |rows|), rows, cut)
  {
    forall i | 0 <= i < |rows| ensures Gives(Row(), rows[i], cut[i]) {
      RowGives(rows[i]);
    }
    ListCodecGives(Row(), rows, cut);
  }

  lemma PartsGive(c: Codec<NodeFields>, d: Codec<LinkFields>, nodes: NodeFields, links: LinkFields, links': LinkFields)
    requires Gives(c, nodes, nodes) && Gives(d, links, links')
    ensures Gives(Pair(c, d), (nodes, links), (nodes, links'))
  {
    PairGives(c, d, nodes, nodes, links, links');
  }

  lemma BodyGives(h: Header, b: Body)
    requires Fits(h, b)
    ensures Gives(BodyCodec(h), PartsOf(b), PartsOf(CutRows(b)))
  {
    var c, d := NodeCodec(h.dim, h.count), LinkCodec(BlockWords(h.count, 2 * h.m + 1), h.count);
    var parts, parts' := PartsOf(b), PartsOf(CutRows(b));
    NodesGive(h, b);
    LinksGive(b.l0, b.upper, CutRows(b).upper);
    PartsGive(c, d, parts.0, parts.1, parts'.1);
    assert BodyCodec(h) == Pair(c, d) && parts == (parts.0, parts.1) && parts' == (parts.0, parts'.1);
  }

  lemma NodesGive(h: Header, b: Body)
    requires Fits(h, b)
    ensures Gives(NodeCodec(h.dim, h.count), PartsOf(b).0, PartsOf(b).0)
  {
    var n := h.count;
    VectorsGive(b.data, h.dim);
    WordsGive(b.levels);
    LabelsGive(b.labels);
    FlagsGive(b.deleted);
    var c, d := Pair(List(List(Word(), h.dim), n), List(Word(), n)), Pair(List(Label(), n), List(Flag(), n));
    PairGives(List(List(Word(), h.dim), n), List(Word(), n), b.data, b.data, b.levels, b.levels);
    PairGives(List(Label(), n), List(Flag(), n), b.labels, b.labels, b.deleted, b.deleted);
    PairGives(c, d, (b.data, b.levels), (b.data, b.levels), (b.labels, b.deleted), (b.labels, b.deleted));
  }

  lemma LinksGive(l0: seq<U32>, upper: seq<seq<U32>>, cut: seq<seq<U32>>)
    requires |upper| == |cut| && forall i :: 0 <= i < |upper| ==> cut[i] == Cut(upper[i])
    ensures Gives(LinkCodec(|l0|, |upper|), (l0, upper), (l0, cut))
  {
    WordsGive(l0);
    RowsGive(upper, cut);
    PairGives(List(Word(), |l0|), List(Row(), |upper|), l0, l0, upper, cut);
  }

  lemma HeaderLocal()
    ensures Local(HeaderCodec())
  {
    WordLocal();
    LongLocal();
    ListCodecLocal(Word(), 1);
    ListCodecLocal(Long(), 6);
    ListCodecLocal(Word(), 2);
    PairLocal(List(Word(), 1), List(Long(), 6));
    PairLocal(Pair(List(Word(), 1), List(Long(), 6)), List(Word(), 2));
  }

  lemma NodesLocal(dim: nat, n: nat)
    ensures Local(NodeCodec(dim, n))
  {
    WordLocal();
    LabelLocal();
    FlagLocal();
    ListCodecLocal(Word(), dim);
    ListCodecLocal(List(Word(), dim), n);
    ListCodecLocal(Word(), n);
    ListCodecLocal(Label(), n);
    ListCodecLocal(Flag(), n);
    PairLocal(List(List(Word(), dim), n), List(Word(), n));
    PairLocal(List(Label(), n), List(Flag(), n));
    PairLocal(Pair(List(List(Word(), dim), n), List(Word(), n)), Pair(List(Label(), n), List(Flag(), n)));
  }

  lemma LinksLocal(words: nat, n: nat)
    ensures Local(LinkCodec(words, n))
  {
    WordLocal();
    RowLocal();
    ListCodecLocal(Word(), words);
    ListCodecLocal(Row(), n);
    PairLocal(List(Word(), words), List(Row(), n));
  }

  lemma BodyLocal(dim: nat, words: nat, n: nat)
    ensures Local(Pair(NodeCodec(dim, n), LinkCodec(words, n)))
  {
    NodesLocal(dim, n);
    LinksLocal(words, n);
    var c, d := NodeCodec(dim, n), LinkCodec(words, n);
    PairLocal(c, d);
  }

  lemma LoadBodyGives(h: Header, b: Body, tail: seq<U8>)
    requires Fits(h, b)
    ensures LoadBody(h, BodyCodec(h).write(PartsOf(b)) + tail) == Loaded(h, CutRows(b))
  {
    BodyGives(h, b);
    var c := BodyCodec(h);
    assert c.read(c.write(PartsOf(b)) + tail) == Some((PartsOf(CutRows(b)), tail));
  }

  lemma LoadHeaderGives(h: Header, rest: seq<U8>)
    ensures LoadHeader(HeaderCodec().write(FieldsOf(h)) + rest)
         == if GoodParameters(h) then LoadBody(h, rest) else Failed(BadParameters)
  {
    HeaderGives(h);
    var c := HeaderCodec();
    assert c.read(c.write(FieldsOf(h)) + rest) == Some((FieldsOf(h), rest));
  }

  lemma PreambleGives(rest: seq<U8>)
    ensures Deserialize(List(Word(), 2).write(Preamble()) + rest) == LoadHeader(rest)
  {
    WordsGive(Preamble());
    var c := List(Word(), 2);
    assert c.read(c.write(Preamble()) + rest) == Some((Preamble(), rest));
  }

  /** load of save, whatever follows in the file: everything comes back, except that a node's
      upper blocks are cut if they are too long for the 32-bit count. */
  lemma LoadOfSave(h: Header, b: Body, tail: seq<U8>)
    requires GoodParameters(h) && Fits(h, b)
    ensures Deserialize(Serialize(h, b) + tail) == Loaded(h, CutRows(b))
  {
    var p, f, d := List(Word(), 2).write(Preamble()), HeaderCodec().write(FieldsOf(h)), BodyCodec(h).write(PartsOf(b));
    Regroup(p, f + d, tail);
    Regroup(f, d, tail);
    PreambleGives(f + (d + tail));
    LoadHeaderGives(h, d + tail);
    LoadBodyGives(h, b, tail);
  }

  lemma UncutRows(b: Body)
    ensures CutRows(b) == b <==> forall i :: 0 <= i < |b.upper| ==> |b.upper[i]| < TWO_32
  {
    if forall i :: 0 <= i < |b.upper| ==> |b.upper[i]| < TWO_32 {
      assert forall i :: 0 <= i < |b.upper| ==> Cut(b.upper[i]) == b.upper[i];
      assert CutRows(b).upper == b.upper;
    } else {
      var i :| 0 <= i < |b.upper| && |b.upper[i]| >= TWO_32;
      assert |CutRows(b).upper[i]| < TWO_32;
    }
  }

  /** The round trip is exact if and only if every row's length fits in 32 bits. */
  lemma RoundTripExact(h: Header, b: Body, tail: seq<U8>)
    requires GoodParameters(h) && Fits(h, b)
    ensures Deserialize(Serialize(h, b) + tail) == Loaded(h, b)
       <==> forall i :: 0 <= i < |b.upper| ==> |b.upper[i]| < TWO_32
  {
    LoadOfSave(h, b, tail);
    UncutRows(b);
  }

  /** A file that ends early is never taken for a snapshot. */
  lemma TruncatedIsRefused(h: Header, b: Body, s: seq<U8>, more: seq<U8>)
    requires GoodParameters(h) && Fits(h, b) && Serialize(h, b) == s + more && more != []
    ensures Deserialize(s) == Failed(Truncated)
  {
    var c := List(Word(), 2);
    var rest := HeaderCodec().write(FieldsOf(h)) + BodyCodec(h).write(PartsOf(b));
    if c.read(s).Some? {
      WordLocal();
      ListCodecLocal(Word(), 2);
      WordsGive(Preamble());
      ReadFromCut(c, Preamble(), Preamble(), s, more, rest);
      ShortHeader(h, b, c.read(s).value.1, more);
    }
  }

  lemma ShortHeader(h: Header, b: Body, s: seq<U8>, more: seq<U8>)
    requires GoodParameters(h) && Fits(h, b) && more != []
    requires s + more == HeaderCodec().write(FieldsOf(h)) + BodyCodec(h).write(PartsOf(b))
    ensures LoadHeader(s) == Failed(Truncated)
  {
    var c := HeaderCodec();
    if c.read(s).Some? {
      HeaderLocal();
      HeaderGives(h);
      ReadFromCut(c, FieldsOf(h), FieldsOf(h), s, more, BodyCodec(h).write(PartsOf(b)));
      ShortBody(h, b, c.read(s).value.1, more);
    }
  }

  lemma ShortBody(h: Header, b: Body, s: seq<U8>, more: seq<U8>)
    requires Fits(h, b) && more != [] && s + more == BodyCodec(h).write(PartsOf(b))
    ensures LoadBody(h, s) == Failed(Truncated)
  {
    BodyLocal(h.dim, BlockWords(h.count, 2 * h.m + 1), h.count);
    BodyGives(h, b);
    CutIsNotRead(BodyCodec(h), PartsOf(b), PartsOf(CutRows(b)), s, more);
  }
}
