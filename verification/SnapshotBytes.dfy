/** The snapshot file byte by byte: which byte holds what, for every file that save writes and
    every file that load accepts as one. */
module SnapshotBytes {
  import opened Bytes
  import opened KeyTable
  import opened LinkArena
  import opened SnapshotCodec
  import opened SnapshotFormat

  /** The four, or eight, bytes from `at` on read as x. */
  ghost predicate Word32(file: seq<U8>, at: nat, x: int) {
    at + 4 <= |file| && ReadU32(file[at..at + 4]) == x
  }

  ghost predicate Word64(file: seq<U8>, at: nat, x: int) {
    at + 8 <= |file| && ReadU64(file[at..at + 8]) == x
  }

  /** The byte is 1 for a set flag and 0 for a clear one. */
  ghost predicate FlagByte(file: seq<U8>, at: nat, flag: bool) {
    at < |file| && file[at] == if flag then 1 else 0
  }

  /** Magic number, version and the nine fields. */
  ghost predicate HeaderAt(file: seq<U8>, h: Header) {
    && Word32(file, 0, 0x484E5357) && Word32(file, 4, 2) && Word32(file, 8, h.space)
    && Word64(file, 12, h.dim) && Word64(file, 20, h.maxElements) && Word64(file, 28, h.m)
    && Word64(file, 36, h.efConstruction) && Word64(file, 44, h.count) && Word64(file, 52, h.numDeleted)
    && Word32(file, 60, h.maxLevel) && Word32(file, 64, h.entryPoint)
  }

  /** Where each array starts: right after the one before it. */
  ghost function LevelsStart(dim: nat, n: nat): nat {
    68 + n * (dim * 4)
  }

  ghost function LabelsStart(dim: nat, n: nat): nat {
    LevelsStart(dim, n) + n * 4
  }

  ghost function FlagsStart(dim: nat, n: nat): nat {
    LabelsStart(dim, n) + n * 16
  }

  ghost function LinksStart(dim: nat, n: nat): nat {
    FlagsStart(dim, n) + n
  }

  /** The layer 0 words of n nodes: a count and room for 2m links each. */
  ghost function HeldWords(m: nat, n: nat): nat {
    n * (2 * m + 1)
  }

  ghost function RowsStart(dim: nat, m: nat, n: nat): nat {
    LinksStart(dim, n) + HeldWords(m, n) * 4
  }

  /** The bytes of the first i rows: a length and the words for each. */
  ghost function RowBytes(upper: seq<seq<U32>>, i: nat): nat {
    if i == 0 || i > |upper| then 0 else RowBytes(upper, i - 1) + 4 + |upper[i - 1]| * 4
  }

  /** n words, four bytes each, one after the other. */
  ghost predicate WordsAt(file: seq<U8>, start: nat, n: nat, words: seq<U32>) {
    n <= |words| && forall w :: 0 <= w < n ==> Word32(file, start + w * 4, words[w])
  }

  ghost predicate VectorsAt(file: seq<U8>, dim: nat, n: nat, data: seq<Vector>) {
    n <= |data| && forall i :: 0 <= i < n ==> WordsAt(file, 68 + i * (dim * 4), dim, data[i])
  }

  ghost predicate LevelsAt(file: seq<U8>, start: nat, n: nat, levels: seq<nat>) {
    n <= |levels| && forall i :: 0 <= i < n ==> Word32(file, start + i * 4, levels[i])
  }

  ghost predicate LabelsAt(file: seq<U8>, start: nat, n: nat, labels: seq<Key>) {
    && n <= |labels|
    && forall i :: 0 <= i < n ==>
         Word64(file, start + i * 16, labels[i].clientId) && Word64(file, start + i * 16 + 8, labels[i].labelId)
  }

  ghost predicate FlagsAt(file: seq<U8>, start: nat, n: nat, deleted: seq<bool>) {
    n <= |deleted| && forall i :: 0 <= i < n ==> FlagByte(file, start + i, deleted[i])
  }

  /** Row i, after the rows before it: its length, then its words. */
  ghost predicate RowAt(file: seq<U8>, start: nat, upper: seq<seq<U32>>, i: nat)
    requires i < |upper|
  {
    && Word32(file, start + RowBytes(upper, i), |upper[i]|)
    && WordsAt(file, start + RowBytes(upper, i) + 4, |upper[i]|, upper[i])
  }

  ghost predicate RowsAt(file: seq<U8>, start: nat, n: nat, upper: seq<seq<U32>>) {
    n <= |upper| && forall i: nat :: i < n ==> RowAt(file, start, upper, i)
  }

  /** No row is too long for its length field. */
  ghost predicate ShortRows(upper: seq<seq<U32>>) {
    forall i :: 0 <= i < |upper| ==> |upper[i]| < TWO_32
  }

  /** Vectors, levels, labels and flags, one array after the other. */
  ghost predicate NodesAt(file: seq<U8>, dim: nat, n: nat, data: seq<Vector>, levels: seq<nat>, labels: seq<Key>,
                          deleted: seq<bool>) {
    && VectorsAt(file, dim, n, data)
    && LevelsAt(file, LevelsStart(dim, n), n, levels)
    && LabelsAt(file, LabelsStart(dim, n), n, labels)
    && FlagsAt(file, FlagsStart(dim, n), n, deleted)
  }

  /** All arrays: after them the layer 0 words and the rows, and the file reaches to their end. */
  ghost predicate ArraysAt(file: seq<U8>, dim: nat, m: nat, n: nat, data: seq<Vector>, levels: seq<nat>,
                           labels: seq<Key>, deleted: seq<bool>, l0: seq<U32>, upper: seq<seq<U32>>) {
    && NodesAt(file, dim, n, data, levels, labels, deleted)
    && WordsAt(file, LinksStart(dim, n), HeldWords(m, n), l0)
    && RowsAt(file, RowsStart(dim, m, n), n, upper)
    && RowsStart(dim, m, n) + RowBytes(upper, n) <= |file|
  }

  // --- pieces of a file, abstractly

  /** Whether a piece stands at a place. */
  type Here = (nat, seq<U8>) -> bool

  /** What it means for an item to stand at a place. */
  type Means<!T> = (nat, T) -> bool

  /** Two pieces stand at a place together if they stand there one after the other. */
  ghost predicate Splits(here: Here) {
    forall at: nat, a: seq<U8>, b: seq<U8> :: here(at, a + b) <==> here(at, a) && here(at + |a|, b)
  }

  /** Nothing stands anywhere in the file. */
  ghost predicate Ends(here: Here, size: nat) {
    forall at: nat :: here(at, []) <==> at <= size
  }

  lemma SplitHere(here: Here, at: nat, a: seq<U8>, b: seq<U8>)
    requires Splits(here)
    ensures here(at, a + b) <==> here(at, a) && here(at + |a|, b)
  {
  }

  /** Item i stands after those before it. */
  ghost predicate ItemHere<T>(here: Here, c: Codec<T>, xs: seq<T>, i: nat, at: nat)
    requires i < |xs|
  {
    here(at + |WriteList(c, xs[..i])|, c.write(xs[i]))
  }

  ghost predicate EachHere<T>(here: Here, c: Codec<T>, xs: seq<T>, n: nat, at: nat)
    requires n <= |xs|
  {
    forall i: nat :: i < n ==> ItemHere(here, c, xs, i, at)
  }

  /** The first n items of a list stand one after the other. */
  lemma {:induction false} ItemsHere<T>(here: Here, size: nat, c: Codec<T>, xs: seq<T>, n: nat, at: nat)
    requires Splits(here) && Ends(here, size) && n <= |xs|
    ensures here(at, WriteList(c, xs[..n])) <==> at + |WriteList(c, xs[..n])| <= size && EachHere(here, c, xs, n, at)
  {
    if n > 0 {
      ItemsHere(here, size, c, xs, n - 1, at);
      OneMore(here, size, c, xs, n, at);
    }
  }

  lemma OneMore<T>(here: Here, size: nat, c: Codec<T>, xs: seq<T>, n: nat, at: nat)
    requires Splits(here) && Ends(here, size) && 0 < n <= |xs|
    ensures WriteList(c, xs[..n]) == WriteList(c, xs[..n - 1]) + c.write(xs[n - 1])
    ensures here(at, WriteList(c, xs[..n]))
       <==> here(at, WriteList(c, xs[..n - 1])) && ItemHere(here, c, xs, n - 1, at)
    ensures here(at, WriteList(c, xs[..n])) ==> at + |WriteList(c, xs[..n])| <= size
  {
    var before, last := WriteList(c, xs[..n - 1]), c.write(xs[n - 1]);
    assert xs[..n] == xs[..n - 1] + [xs[n - 1]];
    WriteListSnoc(c, xs[..n - 1], xs[n - 1]);
    SplitHere(here, at, before, last);
    SplitHere(here, at, before + last, []);
    assert (before + last) + [] == before + last;
  }

  /** c writes x with this many bytes, and this is what it means for them to stand at a place. */
  ghost predicate Stands<T>(here: Here, c: Codec<T>, width: nat, means: Means<T>, x: T) {
    |c.write(x)| == width && forall at: nat :: here(at, c.write(x)) <==> means(at, x)
  }

  lemma {:induction false} ListWidth<T>(c: Codec<T>, width: nat, xs: seq<T>, n: nat)
    requires n <= |xs| && forall i :: 0 <= i < n ==> |c.write(xs[i])| == width
    ensures |WriteList(c, xs[..n])| == n * width
  {
    if n > 0 {
      ListWidth(c, width, xs, n - 1);
      assert xs[..n] == xs[..n - 1] + [xs[n - 1]];
      WriteListSnoc(c, xs[..n - 1], xs[n - 1]);
      assert n * width == (n - 1) * width + width;
    }
  }

  /** Items of one width: item i stands i widths further on. */
  ghost predicate InSteps<T>(means: Means<T>, xs: seq<T>, width: nat, at: nat) {
    forall i: nat :: i < |xs| ==> Step(means, xs, width, at, i)
  }

  ghost predicate Step<T>(means: Means<T>, xs: seq<T>, width: nat, at: nat, i: nat)
    requires i < |xs|
  {
    means(at + i * width, xs[i])
  }

  lemma ItemMeans<T>(here: Here, c: Codec<T>, width: nat, means: Means<T>, xs: seq<T>, i: nat, at: nat, before: nat)
    requires i < |xs| && Stands(here, c, width, means, xs[i]) && |WriteList(c, xs[..i])| == before
    ensures ItemHere(here, c, xs, i, at) <==> means(at + before, xs[i])
  {
  }

  lemma StepsHere<T>(here: Here, c: Codec<T>, width: nat, means: Means<T>, xs: seq<T>, at: nat)
    requires forall i :: 0 <= i < |xs| ==> Stands(here, c, width, means, xs[i])
    ensures |WriteList(c, xs)| == |xs| * width
    ensures EachHere(here, c, xs, |xs|, at) <==> InSteps(means, xs, width, at)
  {
    ListWidth(c, width, xs, |xs|);
    assert xs[..|xs|] == xs;
    forall i: nat | i < |xs| ensures ItemHere(here, c, xs, i, at) <==> Step(means, xs, width, at, i) {
      ListWidth(c, width, xs, i);
      ItemMeans(here, c, width, means, xs, i, at, i * width);
    }
  }

  lemma ListHere<T>(here: Here, size: nat, c: Codec<T>, width: nat, means: Means<T>, xs: seq<T>, at: nat)
    requires Splits(here) && Ends(here, size) && forall i :: 0 <= i < |xs| ==> Stands(here, c, width, means, xs[i])
    ensures |WriteList(c, xs)| == |xs| * width
    ensures here(at, WriteList(c, xs)) <==> at + |xs| * width <= size && InSteps(means, xs, width, at)
  {
    StepsHere(here, c, width, means, xs, at);
    ItemsHere(here, size, c, xs, |xs|, at);
    assert xs[..|xs|] == xs;
  }

  /** How a file reads: which pieces, numbers and flags stand where. */
  datatype View = View(here: Here, size: nat, words: Means<U32>, longs: Means<U64>, flags: Means<bool>)

  /** The view fits the codecs of numbers and flags. */
  ghost predicate Reads(v: View) {
    && Splits(v.here) && Ends(v.here, v.size)
    && (forall x: U32 :: Stands(v.here, Word(), 4, v.words, x))
    && (forall x: U64 :: Stands(v.here, Long(), 8, v.longs, x))
    && (forall b: bool :: Stands(v.here, Flag(), 1, v.flags, b))
  }

  lemma WordsHere(v: View, xs: seq<U32>, at: nat)
    requires Reads(v)
    ensures |WriteList(Word(), xs)| == |xs| * 4
    ensures v.here(at, WriteList(Word(), xs)) <==> at + |xs| * 4 <= v.size && InSteps(v.words, xs, 4, at)
  {
    ListHere(v.here, v.size, Word(), 4, v.words, xs, at);
  }

  lemma LongsHere(v: View, xs: seq<U64>, at: nat)
    requires Reads(v)
    ensures |WriteList(Long(), xs)| == |xs| * 8
    ensures v.here(at, WriteList(Long(), xs)) <==> at + |xs| * 8 <= v.size && InSteps(v.longs, xs, 8, at)
  {
    ListHere(v.here, v.size, Long(), 8, v.longs, xs, at);
  }

  lemma FlagsHere(v: View, xs: seq<bool>, at: nat)
    requires Reads(v)
    ensures |WriteList(Flag(), xs)| == |xs|
    ensures v.here(at, WriteList(Flag(), xs)) <==> at + |xs| <= v.size && InSteps(v.flags, xs, 1, at)
  {
    ListHere(v.here, v.size, Flag(), 1, v.flags, xs, at);
  }

  ghost function LabelMeans(v: View): Means<Key> {
    (at: nat, k: Key) => v.longs(at, k.clientId) && v.longs(at + 8, k.labelId)
  }

  lemma LabelStands(v: View, k: Key)
    requires Reads(v)
    ensures Stands(v.here, Label(), 16, LabelMeans(v), k)
  {
    var a, b := Long().write(k.clientId), Long().write(k.labelId);
    assert Stands(v.here, Long(), 8, v.longs, k.clientId) && Stands(v.here, Long(), 8, v.longs, k.labelId);
    forall at: nat ensures v.here(at, a + b) <==> v.longs(at, k.clientId) && v.longs(at + 8, k.labelId) {
      SplitHere(v.here, at, a, b);
    }
  }

  lemma LabelsHere(v: View, xs: seq<Key>, at: nat)
    requires Reads(v)
    ensures |WriteList(Label(), xs)| == |xs| * 16
    ensures v.here(at, WriteList(Label(), xs)) <==> at + |xs| * 16 <= v.size && InSteps(LabelMeans(v), xs, 16, at)
  {
    forall i | 0 <= i < |xs| ensures Stands(v.here, Label(), 16, LabelMeans(v), xs[i]) {
      LabelStands(v, xs[i]);
    }
    ListHere(v.here, v.size, Label(), 16, LabelMeans(v), xs, at);
  }

  ghost function VectorMeans(v: View): Means<Vector> {
    (at: nat, x: Vector) => at + |x| * 4 <= v.size && InSteps(v.words, x, 4, at)
  }

  lemma VectorStands(v: View, dim: nat, x: Vector)
    requires Reads(v) && |x| == dim
    ensures Stands(v.here, List(Word(), dim), dim * 4, VectorMeans(v), x)
  {
    WordsHere(v, x, 0);
    forall at: nat ensures v.here(at, WriteList(Word(), x)) <==> at + |x| * 4 <= v.size && InSteps(v.words, x, 4, at) {
      WordsHere(v, x, at);
    }
  }

  lemma VectorsHere(v: View, dim: nat, xs: seq<Vector>, at: nat)
    requires Reads(v) && forall i :: 0 <= i < |xs| ==> |xs[i]| == dim
    ensures |WriteList(List(Word(), dim), xs)| == |xs| * (dim * 4)
    ensures v.here(at, WriteList(List(Word(), dim), xs))
       <==> at + |xs| * (dim * 4) <= v.size && InSteps(VectorMeans(v), xs, dim * 4, at)
  {
    forall i | 0 <= i < |xs| ensures Stands(v.here, List(Word(), dim), dim * 4, VectorMeans(v), xs[i]) {
      VectorStands(v, dim, xs[i]);
    }
    ListHere(v.here, v.size, List(Word(), dim), dim * 4, VectorMeans(v), xs, at);
  }

  ghost function RowMeans(v: View): Means<seq<U32>> {
    (at: nat, row: seq<U32>) =>
      at + 4 + |row| * 4 <= v.size && |row| < TWO_32 && v.words(at, |row|) && InSteps(v.words, row, 4, at + 4)
  }

  lemma RowStands(v: View, row: seq<U32>)
    requires Reads(v) && |row| < TWO_32
    ensures Stands(v.here, Row(), 4 + |row| * 4, RowMeans(v), row)
  {
    var c, means := Row(), RowMeans(v);
    RowWidth(row);
    forall at: nat ensures v.here(at, c.write(row)) <==> means(at, row) {
      RowMeansAt(v, row, at);
    }
  }

  lemma RowWidth(row: seq<U32>)
    requires |row| < TWO_32
    ensures |Row().write(row)| == 4 + |row| * 4
  {
    assert Cut(row) == row && row[..|row|] == row;
    ListWidth(Word(), 4, row, |row|);
  }

  lemma RowMeansAt(v: View, row: seq<U32>, at: nat)
    requires Reads(v) && |row| < TWO_32
    ensures v.here(at, Row().write(row)) <==> RowMeans(v)(at, row)
  {
    var n: U32 := |row|;
    var a, b := Word().write(n), WriteList(Word(), row);
    assert Cut(row) == row && Stands(v.here, Word(), 4, v.words, n);
    SplitHere(v.here, at, a, b);
    WordsHere(v, row, at + 4);
  }

  lemma {:induction false} RowsWidth(c: Codec<seq<U32>>, upper: seq<seq<U32>>, n: nat)
    requires n <= |upper| && forall i :: 0 <= i < n ==> |c.write(upper[i])| == 4 + |upper[i]| * 4
    ensures |WriteList(c, upper[..n])| == RowBytes(upper, n)
  {
    if n > 0 {
      RowsWidth(c, upper, n - 1);
      assert upper[..n] == upper[..n - 1] + [upper[n - 1]];
      WriteListSnoc(c, upper[..n - 1], upper[n - 1]);
    }
  }

  ghost predicate InRows(means: Means<seq<U32>>, upper: seq<seq<U32>>, at: nat) {
    forall i: nat :: i < |upper| ==> RowStep(means, upper, at, i)
  }

  ghost predicate RowStep(means: Means<seq<U32>>, upper: seq<seq<U32>>, at: nat, i: nat)
    requires i < |upper|
  {
    means(at + RowBytes(upper, i), upper[i])
  }

  ghost predicate RowsStand(here: Here, c: Codec<seq<U32>>, means: Means<seq<U32>>, upper: seq<seq<U32>>) {
    forall i: nat :: i < |upper| ==> Stands(here, c, 4 + |upper[i]| * 4, means, upper[i])
  }

  lemma RowItem(here: Here, c: Codec<seq<U32>>, means: Means<seq<U32>>, upper: seq<seq<U32>>, at: nat, i: nat)
    requires RowsStand(here, c, means, upper) && i < |upper|
    ensures ItemHere(here, c, upper, i, at) <==> RowStep(means, upper, at, i)
  {
    RowsWidth(c, upper, i);
    ItemMeans(here, c, 4 + |upper[i]| * 4, means, upper, i, at, RowBytes(upper, i));
  }

  lemma ListOfRows(here: Here, size: nat, c: Codec<seq<U32>>, means: Means<seq<U32>>, upper: seq<seq<U32>>, at: nat)
    requires Splits(here) && Ends(here, size) && RowsStand(here, c, means, upper)
    ensures |WriteList(c, upper)| == RowBytes(upper, |upper|)
    ensures here(at, WriteList(c, upper)) <==> at + RowBytes(upper, |upper|) <= size && InRows(means, upper, at)
  {
    forall i: nat | i < |upper| ensures ItemHere(here, c, upper, i, at) <==> RowStep(means, upper, at, i) {
      RowItem(here, c, means, upper, at, i);
    }
    RowsWidth(c, upper, |upper|);
    ItemsHere(here, size, c, upper, |upper|, at);
    assert upper[..|upper|] == upper;
  }

  lemma RowsHere(v: View, upper: seq<seq<U32>>, at: nat)
    requires Reads(v) && ShortRows(upper)
    ensures |WriteList(Row(), upper)| == RowBytes(upper, |upper|)
    ensures v.here(at, WriteList(Row(), upper)) <==> at + RowBytes(upper, |upper|) <= v.size && InRows(RowMeans(v), upper, at)
  {
    forall i: nat | i < |upper| ensures Stands(v.here, Row(), 4 + |upper[i]| * 4, RowMeans(v), upper[i]) {
      RowStands(v, upper[i]);
    }
    ListOfRows(v.here, v.size, Row(), RowMeans(v), upper, at);
  }

  // --- the view of an actual file

  /** From byte `at` on the file holds this piece. */
  ghost predicate At(file: seq<U8>, at: nat, piece: seq<U8>) {
    at + |piece| <= |file| && file[at..at + |piece|] == piece
  }

  ghost function ViewOf(file: seq<U8>): View {
    View((at: nat, piece: seq<U8>) => At(file, at, piece), |file|,
         (at: nat, x: U32) => Word32(file, at, x), (at: nat, x: U64) => Word64(file, at, x),
         (at: nat, b: bool) => FlagByte(file, at, b))
  }

  lemma AtSplit(file: seq<U8>, at: nat, a: seq<U8>, b: seq<U8>)
    ensures At(file, at, a + b) <==> At(file, at, a) && At(file, at + |a|, b)
  {
    if At(file, at, a + b) {
      var s := file[at..at + |a + b|];
      assert file[at..at + |a|] == s[..|a|] == a && file[at + |a|..at + |a| + |b|] == s[|a|..] == b;
    }
    if At(file, at, a) && At(file, at + |a|, b) {
      assert file[at..at + |a + b|] == file[at..at + |a|] + file[at + |a|..at + |a| + |b|];
    }
  }

  lemma FileSplits(file: seq<U8>)
    ensures Splits(ViewOf(file).here) && Ends(ViewOf(file).here, |file|)
  {
    forall at: nat, a: seq<U8>, b: seq<U8> ensures At(file, at, a + b) <==> At(file, at, a) && At(file, at + |a|, b) {
      AtSplit(file, at, a, b);
    }
  }

  lemma WordStands(file: seq<U8>, x: U32)
    ensures Stands(ViewOf(file).here, Word(), 4, ViewOf(file).words, x)
  {
    U32RoundTrip(x);
    forall at: nat ensures At(file, at, LittleEndian(x, 4)) <==> Word32(file, at, x) {
      if at + 4 <= |file| {
        BytesOfRead(file[at..at + 4]);
      }
    }
  }

  lemma LongStands(file: seq<U8>, x: U64)
    ensures Stands(ViewOf(file).here, Long(), 8, ViewOf(file).longs, x)
  {
    U64RoundTrip(x);
    forall at: nat ensures At(file, at, LittleEndian(x, 8)) <==> Word64(file, at, x) {
      if at + 8 <= |file| {
        BytesOfRead(file[at..at + 8]);
      }
    }
  }

  lemma FlagStands(file: seq<U8>, b: bool)
    ensures Stands(ViewOf(file).here, Flag(), 1, ViewOf(file).flags, b)
  {
    forall at: nat ensures At(file, at, Flag().write(b)) <==> FlagByte(file, at, b) {
      assert at < |file| ==> file[at..at + 1] == [file[at]];
    }
  }

  lemma FileReads(file: seq<U8>)
    ensures Reads(ViewOf(file))
  {
    FileSplits(file);
    forall x: U32 ensures Stands(ViewOf(file).here, Word(), 4, ViewOf(file).words, x) {
      WordStands(file, x);
    }
    forall x: U64 ensures Stands(ViewOf(file).here, Long(), 8, ViewOf(file).longs, x) {
      LongStands(file, x);
    }
    forall b: bool ensures Stands(ViewOf(file).here, Flag(), 1, ViewOf(file).flags, b) {
      FlagStands(file, b);
    }
  }

  // --- the arrays of a body, in a view

  ghost predicate InNodes(v: View, dim: nat, n: nat, b: Body) {
    && InSteps(VectorMeans(v), b.data, dim * 4, 68)
    && InSteps(v.words, b.levels, 4, LevelsStart(dim, n))
    && InSteps(LabelMeans(v), b.labels, 16, LabelsStart(dim, n))
    && InSteps(v.flags, b.deleted, 1, FlagsStart(dim, n))
  }

  ghost predicate InLinks(v: View, start: nat, words: nat, b: Body) {
    InSteps(v.words, b.l0, 4, start) && InRows(RowMeans(v), b.upper, start + words * 4)
  }

  /** Array lengths for n nodes, and no row too long for its length field. */
  ghost predicate Sized(dim: nat, words: nat, n: nat, b: Body) {
    && |b.data| == |b.levels| == |b.labels| == |b.deleted| == |b.upper| == n
    && (forall i :: 0 <= i < |b.data| ==> |b.data[i]| == dim)
    && |b.l0| == words
    && ShortRows(b.upper)
  }

  /** Two pieces in a row, each with what it means for it to stand there. */
  lemma Joined(here: Here, size: nat, at: nat, mid: nat, end: nat, p: seq<U8>, q: seq<U8>, a: bool, b: bool)
    requires Splits(here) && mid == at + |p| && end == mid + |q|
    requires here(at, p) <==> mid <= size && a
    requires here(mid, q) <==> end <= size && b
    ensures here(at, p + q) <==> end <= size && a && b
  {
    SplitHere(here, at, p, q);
  }

  lemma NodesHere(v: View, dim: nat, words: nat, n: nat, b: Body)
    requires Reads(v) && Sized(dim, words, n, b)
    ensures 68 + |NodeCodec(dim, n).write(PartsOf(b).0)| == LinksStart(dim, n)
    ensures v.here(68, NodeCodec(dim, n).write(PartsOf(b).0)) <==> LinksStart(dim, n) <= v.size && InNodes(v, dim, n, b)
  {
    VectorsAndLevels(v, dim, words, n, b);
    LabelsAndFlags(v, dim, words, n, b);
    var p, q := WriteList(List(Word(), dim), b.data) + WriteList(Word(), b.levels), WriteList(Label(), b.labels) + WriteList(Flag(), b.deleted);
    Joined(v.here, v.size, 68, LabelsStart(dim, n), LinksStart(dim, n), p, q,
           InSteps(VectorMeans(v), b.data, dim * 4, 68) && InSteps(v.words, b.levels, 4, LevelsStart(dim, n)),
           InSteps(LabelMeans(v), b.labels, 16, LabelsStart(dim, n)) && InSteps(v.flags, b.deleted, 1, FlagsStart(dim, n)));
  }

  lemma VectorsAndLevels(v: View, dim: nat, words: nat, n: nat, b: Body)
    requires Reads(v) && Sized(dim, words, n, b)
    ensures var s := WriteList(List(Word(), dim), b.data) + WriteList(Word(), b.levels);
      && 68 + |s| == LabelsStart(dim, n)
      && (v.here(68, s) <==> LabelsStart(dim, n) <= v.size
                             && InSteps(VectorMeans(v), b.data, dim * 4, 68)
                             && InSteps(v.words, b.levels, 4, LevelsStart(dim, n)))
  {
    VectorsHere(v, dim, b.data, 68);
    WordsHere(v, b.levels, LevelsStart(dim, n));
    Joined(v.here, v.size, 68, LevelsStart(dim, n), LabelsStart(dim, n), WriteList(List(Word(), dim), b.data), WriteList(Word(), b.levels),
           InSteps(VectorMeans(v), b.data, dim * 4, 68), InSteps(v.words, b.levels, 4, LevelsStart(dim, n)));
  }

  lemma LabelsAndFlags(v: View, dim: nat, words: nat, n: nat, b: Body)
    requires Reads(v) && Sized(dim, words, n, b)
    ensures var s := WriteList(Label(), b.labels) + WriteList(Flag(), b.deleted);
      && LabelsStart(dim, n) + |s| == LinksStart(dim, n)
      && (v.here(LabelsStart(dim, n), s) <==> LinksStart(dim, n) <= v.size
                                              && InSteps(LabelMeans(v), b.labels, 16, LabelsStart(dim, n))
                                              && InSteps(v.flags, b.deleted, 1, FlagsStart(dim, n)))
  {
    LabelsHere(v, b.labels, LabelsStart(dim, n));
    FlagsHere(v, b.deleted, FlagsStart(dim, n));
    Joined(v.here, v.size, LabelsStart(dim, n), FlagsStart(dim, n), LinksStart(dim, n), WriteList(Label(), b.labels), WriteList(Flag(), b.deleted),
           InSteps(LabelMeans(v), b.labels, 16, LabelsStart(dim, n)), InSteps(v.flags, b.deleted, 1, FlagsStart(dim, n)));
  }

  lemma WordsThenRows(v: View, start: nat, mid: nat, end: nat, l0: seq<U32>, upper: seq<seq<U32>>)
    requires Reads(v) && ShortRows(upper)
    requires mid == start + |l0| * 4 && end == mid + RowBytes(upper, |upper|)
    ensures start + |WriteList(Word(), l0) + WriteList(Row(), upper)| == end
    ensures v.here(start, WriteList(Word(), l0) + WriteList(Row(), upper))
       <==> end <= v.size && InSteps(v.words, l0, 4, start) && InRows(RowMeans(v), upper, mid)
  {
    WordsHere(v, l0, start);
    RowsHere(v, upper, mid);
    Joined(v.here, v.size, start, mid, end, WriteList(Word(), l0), WriteList(Row(), upper),
           InSteps(v.words, l0, 4, start), InRows(RowMeans(v), upper, mid));
  }

  lemma LinksHere(v: View, start: nat, words: nat, n: nat, b: Body)
    requires Reads(v) && |b.l0| == words && |b.upper| == n && ShortRows(b.upper)
    ensures |LinkCodec(words, n).write(PartsOf(b).1)| == words * 4 + RowBytes(b.upper, n)
    ensures v.here(start, LinkCodec(words, n).write(PartsOf(b).1))
       <==> start + words * 4 + RowBytes(b.upper, n) <= v.size && InLinks(v, start, words, b)
  {
    WordsThenRows(v, start, start + words * 4, start + words * 4 + RowBytes(b.upper, n), b.l0, b.upper);
  }

  lemma PartsHere(v: View, dim: nat, words: nat, n: nat, b: Body)
    requires Reads(v) && Sized(dim, words, n, b)
    ensures var s := Pair(NodeCodec(dim, n), LinkCodec(words, n)).write(PartsOf(b));
      68 + |s| == LinksStart(dim, n) + words * 4 + RowBytes(b.upper, n)
    ensures v.here(68, Pair(NodeCodec(dim, n), LinkCodec(words, n)).write(PartsOf(b))) <==>
      && LinksStart(dim, n) + words * 4 + RowBytes(b.upper, n) <= v.size
      && InNodes(v, dim, n, b) && InLinks(v, LinksStart(dim, n), words, b)
  {
    NodesHere(v, dim, words, n, b);
    LinksHere(v, LinksStart(dim, n), words, n, b);
    Joined(v.here, v.size, 68, LinksStart(dim, n), LinksStart(dim, n) + words * 4 + RowBytes(b.upper, n), NodeCodec(dim, n).write(PartsOf(b).0), LinkCodec(words, n).write(PartsOf(b).1),
           InNodes(v, dim, n, b), InLinks(v, LinksStart(dim, n), words, b));
  }

  // --- from the view to the bytes

  lemma EndsBefore(i: nat, n: nat, width: nat)
    requires i < n
    ensures i * width + width <= n * width
  {
    var rest := n - i - 1;
    assert n * width == (i + 1) * width + rest * width;
  }

  lemma VectorsMean(file: seq<U8>, dim: nat, data: seq<Vector>)
    requires LevelsStart(dim, |data|) <= |file| && forall i :: 0 <= i < |data| ==> |data[i]| == dim
    ensures InSteps(VectorMeans(ViewOf(file)), data, dim * 4, 68) <==> VectorsAt(file, dim, |data|, data)
  {
    var v := ViewOf(file);
    forall i: nat | i < |data|
      ensures Step(VectorMeans(v), data, dim * 4, 68, i) <==> WordsAt(file, 68 + i * (dim * 4), dim, data[i])
    {
      EndsBefore(i, |data|, dim * 4);
      WordsMean(file, 68 + i * (dim * 4), data[i]);
    }
  }

  lemma WordsMean(file: seq<U8>, at: nat, xs: seq<U32>)
    ensures InSteps(ViewOf(file).words, xs, 4, at) <==> WordsAt(file, at, |xs|, xs)
  {
    var v := ViewOf(file);
    forall j: nat | j < |xs| ensures Step(v.words, xs, 4, at, j) <==> Word32(file, at + j * 4, xs[j]) {
    }
  }

  lemma LabelsMean(file: seq<U8>, at: nat, labels: seq<Key>)
    ensures InSteps(LabelMeans(ViewOf(file)), labels, 16, at) <==> LabelsAt(file, at, |labels|, labels)
  {
    var v := ViewOf(file);
    forall i: nat | i < |labels|
      ensures Step(LabelMeans(v), labels, 16, at, i)
         <==> Word64(file, at + i * 16, labels[i].clientId) && Word64(file, at + i * 16 + 8, labels[i].labelId)
    {
    }
  }

  lemma FlagsMean(file: seq<U8>, at: nat, flags: seq<bool>)
    ensures InSteps(ViewOf(file).flags, flags, 1, at) <==> FlagsAt(file, at, |flags|, flags)
  {
    var v := ViewOf(file);
    forall i: nat | i < |flags| ensures Step(v.flags, flags, 1, at, i) <==> FlagByte(file, at + i, flags[i]) {
    }
  }

  lemma RowMeansBytes(file: seq<U8>, at: nat, row: seq<U32>)
    requires at + 4 + |row| * 4 <= |file| && |row| < TWO_32
    ensures RowMeans(ViewOf(file))(at, row) <==> Word32(file, at, |row|) && WordsAt(file, at + 4, |row|, row)
  {
    WordsMean(file, at + 4, row);
  }

  lemma {:induction false} RowBytesGrow(upper: seq<seq<U32>>, i: nat, n: nat)
    requires i <= n <= |upper|
    ensures RowBytes(upper, i) <= RowBytes(upper, n)
  {
    if i < n {
      RowBytesGrow(upper, i, n - 1);
    }
  }

  lemma RowMeansRow(file: seq<U8>, at: nat, upper: seq<seq<U32>>, i: nat)
    requires at + RowBytes(upper, |upper|) <= |file| && i < |upper| && |upper[i]| < TWO_32
    ensures RowStep(RowMeans(ViewOf(file)), upper, at, i) <==> RowAt(file, at, upper, i)
  {
    RowBytesGrow(upper, i + 1, |upper|);
    RowMeansBytes(file, at + RowBytes(upper, i), upper[i]);
  }

  lemma RowsMean(file: seq<U8>, at: nat, upper: seq<seq<U32>>)
    requires at + RowBytes(upper, |upper|) <= |file| && ShortRows(upper)
    ensures InRows(RowMeans(ViewOf(file)), upper, at) <==> RowsAt(file, at, |upper|, upper)
  {
    var means := RowMeans(ViewOf(file));
    forall i: nat | i < |upper| ensures RowStep(means, upper, at, i) <==> RowAt(file, at, upper, i) {
      RowMeansRow(file, at, upper, i);
    }
  }

  lemma NodesMean(file: seq<U8>, dim: nat, n: nat, b: Body)
    requires |b.data| == |b.levels| == |b.labels| == |b.deleted| == n && LevelsStart(dim, n) <= |file|
    requires forall i :: 0 <= i < |b.data| ==> |b.data[i]| == dim
    ensures InNodes(ViewOf(file), dim, n, b) <==> NodesAt(file, dim, n, b.data, b.levels, b.labels, b.deleted)
  {
    VectorsMean(file, dim, b.data);
    LevelsMean(file, LevelsStart(dim, n), b.levels);
    LabelsMean(file, LabelsStart(dim, n), b.labels);
    FlagsMean(file, FlagsStart(dim, n), b.deleted);
  }

  lemma LevelsMean(file: seq<U8>, at: nat, levels: seq<U32>)
    ensures InSteps(ViewOf(file).words, levels, 4, at) <==> LevelsAt(file, at, |levels|, levels)
  {
    WordsMean(file, at, levels);
  }

  lemma LinksMean(file: seq<U8>, start: nat, words: nat, n: nat, b: Body)
    requires |b.l0| == words && |b.upper| == n && start + words * 4 + RowBytes(b.upper, n) <= |file|
    requires ShortRows(b.upper)
    ensures InLinks(ViewOf(file), start, words, b)
       <==> WordsAt(file, start, words, b.l0) && RowsAt(file, start + words * 4, n, b.upper)
  {
    WordsMean(file, start, b.l0);
    RowsMean(file, start + words * 4, b.upper);
  }

  lemma BodyMeans(file: seq<U8>, dim: nat, m: nat, n: nat, b: Body)
    requires Sized(dim, HeldWords(m, n), n, b) && RowsStart(dim, m, n) + RowBytes(b.upper, n) <= |file|
    ensures InNodes(ViewOf(file), dim, n, b) && InLinks(ViewOf(file), LinksStart(dim, n), HeldWords(m, n), b)
       <==> ArraysAt(file, dim, m, n, b.data, b.levels, b.labels, b.deleted, b.l0, b.upper)
  {
    NodesMean(file, dim, n, b);
    LinksMean(file, LinksStart(dim, n), HeldWords(m, n), n, b);
  }

  // --- the header, and the whole file

  lemma OneHere(v: View, at: nat, a: U32)
    requires Reads(v)
    ensures |List(Word(), 1).write([a])| == 4 && (v.here(at, List(Word(), 1).write([a])) <==> at + 4 <= v.size && v.words(at, a))
  {
    WordsHere(v, [a], at);
    assert InSteps(v.words, [a], 4, at) <==> Step(v.words, [a], 4, at, 0);
  }

  lemma TwoHere(v: View, at: nat, a: U32, b: U32)
    requires Reads(v)
    ensures |List(Word(), 2).write([a, b])| == 8
    ensures v.here(at, List(Word(), 2).write([a, b])) <==> at + 8 <= v.size && v.words(at, a) && v.words(at + 4, b)
  {
    WordsHere(v, [a, b], at);
    assert InSteps(v.words, [a, b], 4, at) <==> Step(v.words, [a, b], 4, at, 0) && Step(v.words, [a, b], 4, at, 1);
  }

  ghost predicate SixLongs(v: View, at: nat, xs: seq<U64>)
    requires |xs| == 6
  {
    && v.longs(at, xs[0]) && v.longs(at + 8, xs[1]) && v.longs(at + 16, xs[2])
    && v.longs(at + 24, xs[3]) && v.longs(at + 32, xs[4]) && v.longs(at + 40, xs[5])
  }

  lemma SixHere(v: View, at: nat, xs: seq<U64>)
    requires Reads(v) && |xs| == 6
    ensures |List(Long(), 6).write(xs)| == 48
    ensures v.here(at, List(Long(), 6).write(xs)) <==> at + 48 <= v.size && SixLongs(v, at, xs)
  {
    LongsHere(v, xs, at);
    SixSteps(v.longs, at, xs);
  }

  lemma SixSteps(longs: Means<U64>, at: nat, xs: seq<U64>)
    requires |xs| == 6
    ensures InSteps(longs, xs, 8, at) <==>
      && longs(at, xs[0]) && longs(at + 8, xs[1]) && longs(at + 16, xs[2])
      && longs(at + 24, xs[3]) && longs(at + 32, xs[4]) && longs(at + 40, xs[5])
  {
    assert InSteps(longs, xs, 8, at) <==>
      && Step(longs, xs, 8, at, 0) && Step(longs, xs, 8, at, 1) && Step(longs, xs, 8, at, 2)
      && Step(longs, xs, 8, at, 3) && Step(longs, xs, 8, at, 4) && Step(longs, xs, 8, at, 5);
  }

  lemma FieldsHere(v: View, h: Header)
    requires Reads(v)
    ensures |HeaderCodec().write(FieldsOf(h))| == 60
    ensures v.here(8, HeaderCodec().write(FieldsOf(h))) <==> 68 <= v.size && FieldsIn(v, h)
  {
    var a, b, c := [h.space], [h.dim, h.maxElements, h.m, h.efConstruction, h.count, h.numDeleted], [h.maxLevel, h.entryPoint];
    var p, q, r := List(Word(), 1).write(a), List(Long(), 6).write(b), List(Word(), 2).write(c);
    OneHere(v, 8, h.space);
    SixHere(v, 12, b);
    TwoHere(v, 60, h.maxLevel, h.entryPoint);
    Joined(v.here, v.size, 8, 12, 60, p, q, v.words(8, h.space), SixLongs(v, 12, b));
    Joined(v.here, v.size, 8, 60, 68, p + q, r, v.words(8, h.space) && SixLongs(v, 12, b),
           v.words(60, h.maxLevel) && v.words(64, h.entryPoint));
  }

  ghost predicate FieldsIn(v: View, h: Header) {
    && v.words(8, h.space)
    && v.longs(12, h.dim) && v.longs(20, h.maxElements) && v.longs(28, h.m)
    && v.longs(36, h.efConstruction) && v.longs(44, h.count) && v.longs(52, h.numDeleted)
    && v.words(60, h.maxLevel) && v.words(64, h.entryPoint)
  }

  ghost predicate HeaderIn(v: View, h: Header) {
    v.words(0, MAGIC) && v.words(4, VERSION) && FieldsIn(v, h)
  }

  ghost predicate ArraysIn(v: View, h: Header, b: Body) {
    InNodes(v, h.dim, h.count, b) && InLinks(v, LinksStart(h.dim, h.count), HeldWords(h.m, h.count), b)
  }

  lemma HeaderMeans(file: seq<U8>, h: Header)
    ensures HeaderIn(ViewOf(file), h) <==> HeaderAt(file, h)
  {
  }

  lemma StartHere(v: View, h: Header)
    requires Reads(v)
    ensures var s := List(Word(), 2).write(Preamble()) + HeaderCodec().write(FieldsOf(h));
      |s| == 68 && (v.here(0, s) <==> 68 <= v.size && HeaderIn(v, h))
  {
    TwoHere(v, 0, MAGIC, VERSION);
    FieldsHere(v, h);
    Joined(v.here, v.size, 0, 8, 68, List(Word(), 2).write(Preamble()), HeaderCodec().write(FieldsOf(h)),
           v.words(0, MAGIC) && v.words(4, VERSION), FieldsIn(v, h));
  }

  /** Where the arrays end. */
  ghost function FileEnd(h: Header, upper: seq<seq<U32>>): nat {
    RowsStart(h.dim, h.m, h.count) + RowBytes(upper, h.count)
  }

  lemma SizedByHeader(h: Header, b: Body)
    requires Fits(h, b) && ShortRows(b.upper)
    ensures BlockWords(h.count, 2 * h.m + 1) == HeldWords(h.m, h.count) && Sized(h.dim, HeldWords(h.m, h.count), h.count, b)
  {
    BlockWordsIsProduct(h.count, 2 * h.m + 1);
  }

  lemma BodyHere(v: View, h: Header, b: Body)
    requires Reads(v) && Fits(h, b) && ShortRows(b.upper)
    ensures 68 + |BodyCodec(h).write(PartsOf(b))| == FileEnd(h, b.upper)
    ensures v.here(68, BodyCodec(h).write(PartsOf(b))) <==> FileEnd(h, b.upper) <= v.size && ArraysIn(v, h, b)
  {
    SizedByHeader(h, b);
    PartsHere(v, h.dim, HeldWords(h.m, h.count), h.count, b);
  }

  lemma WholeFile(v: View, h: Header, b: Body)
    requires Reads(v) && Fits(h, b) && ShortRows(b.upper)
    ensures |Serialize(h, b)| == FileEnd(h, b.upper)
    ensures v.here(0, Serialize(h, b)) <==> FileEnd(h, b.upper) <= v.size && HeaderIn(v, h) && ArraysIn(v, h, b)
  {
    StartHere(v, h);
    BodyHere(v, h, b);
    StartThenBody(v, List(Word(), 2).write(Preamble()), HeaderCodec().write(FieldsOf(h)), BodyCodec(h).write(PartsOf(b)),
                  FileEnd(h, b.upper), HeaderIn(v, h), ArraysIn(v, h, b));
  }

  lemma StartThenBody(v: View, p: seq<U8>, q: seq<U8>, r: seq<U8>, end: nat, header: bool, arrays: bool)
    requires Splits(v.here) && |p + q| == 68 && 68 + |r| == end
    requires v.here(0, p + q) <==> 68 <= v.size && header
    requires v.here(68, r) <==> end <= v.size && arrays
    ensures |p + (q + r)| == end && (v.here(0, p + (q + r)) <==> end <= v.size && header && arrays)
  {
    Joined(v.here, v.size, 0, 68, end, p + q, r, header, arrays);
    Regroup(p, q, r);
  }

  lemma ArraysMean(file: seq<U8>, h: Header, b: Body)
    requires Fits(h, b) && ShortRows(b.upper) && FileEnd(h, b.upper) <= |file|
    ensures ArraysIn(ViewOf(file), h, b)
       <==> ArraysAt(file, h.dim, h.m, h.count, b.data, b.levels, b.labels, b.deleted, b.l0, b.upper)
  {
    SizedByHeader(h, b);
    BodyMeans(file, h.dim, h.m, h.count, b);
  }

  /** Header and arrays of a body in a file. */
  ghost predicate LaidOut(file: seq<U8>, h: Header, b: Body) {
    HeaderAt(file, h) && ArraysAt(file, h.dim, h.m, h.count, b.data, b.levels, b.labels, b.deleted, b.l0, b.upper)
  }

  /** A file starts with what save writes for header and arrays if and only if every byte stands where
      it should. */
  lemma LayoutIff(file: seq<U8>, h: Header, b: Body)
    requires Fits(h, b) && ShortRows(b.upper)
    ensures Serialize(h, b) <= file <==> LaidOut(file, h, b)
    ensures |Serialize(h, b)| == FileEnd(h, b.upper)
  {
    FileReads(file);
    WholeFile(ViewOf(file), h, b);
    HeaderMeans(file, h);
    StartsWith(file, Serialize(h, b));
    if FileEnd(h, b.upper) <= |file| {
      ArraysMean(file, h, b);
    }
  }

  lemma StartsWith(file: seq<U8>, s: seq<U8>)
    ensures ViewOf(file).here(0, s) <==> s <= file
  {
    assert |s| <= |file| ==> file[0..|s|] == file[..|s|];
  }

  // --- arrays that go on beyond the nodes in the file

  lemma {:induction false} RowBytesPrefix(a: seq<seq<U32>>, b: seq<seq<U32>>, n: nat)
    requires n <= |a| && n <= |b| && a[..n] == b[..n]
    ensures RowBytes(a, n) == RowBytes(b, n)
  {
    if n > 0 {
      assert a[n - 1] == a[..n][n - 1] == b[n - 1];
      assert a[..n - 1] == a[..n][..n - 1] == b[..n - 1];
      RowBytesPrefix(a, b, n - 1);
    }
  }

  lemma SameRowsAt(file: seq<U8>, start: nat, n: nat, a: seq<seq<U32>>, b: seq<seq<U32>>)
    requires n <= |a| && n <= |b| && a[..n] == b[..n] && RowsAt(file, start, n, a)
    ensures RowsAt(file, start, n, b)
  {
    forall i: nat | i < n ensures RowAt(file, start, b, i) {
      assert RowAt(file, start, a, i);
      assert a[i] == a[..n][i] == b[i] && a[..i] == a[..n][..i] == b[..i];
      RowBytesPrefix(a, b, i);
    }
  }

  lemma SameNodesAt(file: seq<U8>, dim: nat, n: nat, b: Body, data: seq<Vector>, levels: seq<nat>, labels: seq<Key>, deleted: seq<bool>)
    requires n <= |data| && n <= |levels| && n <= |labels| && n <= |deleted|
    requires b.data == data[..n] && b.levels == levels[..n] && b.labels == labels[..n] && b.deleted == deleted[..n]
    requires NodesAt(file, dim, n, b.data, b.levels, b.labels, b.deleted)
    ensures NodesAt(file, dim, n, data, levels, labels, deleted)
  {
    forall i | 0 <= i < n ensures data[i] == b.data[i] && levels[i] == b.levels[i] && labels[i] == b.labels[i] && deleted[i] == b.deleted[i] {
    }
  }

  lemma SameLinksAt(file: seq<U8>, start: nat, words: nat, n: nat, b: Body, l0: seq<U32>, upper: seq<seq<U32>>)
    requires words <= |l0| && n <= |upper| && b.l0 == l0[..words] && b.upper == upper[..n]
    requires WordsAt(file, start, words, b.l0) && RowsAt(file, start + words * 4, n, b.upper)
    ensures WordsAt(file, start, words, l0) && RowsAt(file, start + words * 4, n, upper)
    ensures RowBytes(b.upper, n) == RowBytes(upper, n)
  {
    assert b.upper[..n] == b.upper;
    SameRowsAt(file, start + words * 4, n, b.upper, upper);
    RowBytesPrefix(b.upper, upper, n);
  }

  /** The body holds the first n nodes' share of these arrays. */
  ghost predicate IsPrefix(b: Body, n: nat, words: nat, data: seq<Vector>, levels: seq<nat>, labels: seq<Key>,
                           deleted: seq<bool>, l0: seq<U32>, upper: seq<seq<U32>>) {
    && n <= |data| && n <= |levels| && n <= |labels| && n <= |deleted| && words <= |l0| && n <= |upper|
    && b.data == data[..n] && b.levels == levels[..n] && b.labels == labels[..n] && b.deleted == deleted[..n]
    && b.l0 == l0[..words] && b.upper == upper[..n]
  }

  lemma LongerArrays(file: seq<U8>, dim: nat, m: nat, n: nat, words: nat, b: Body, data: seq<Vector>, levels: seq<nat>,
                     labels: seq<Key>, deleted: seq<bool>, l0: seq<U32>, upper: seq<seq<U32>>)
    requires words == HeldWords(m, n) && IsPrefix(b, n, words, data, levels, labels, deleted, l0, upper)
    requires ArraysAt(file, dim, m, n, b.data, b.levels, b.labels, b.deleted, b.l0, b.upper)
    ensures ArraysAt(file, dim, m, n, data, levels, labels, deleted, l0, upper)
    ensures RowBytes(upper, n) == RowBytes(b.upper, n)
  {
    SameNodesAt(file, dim, n, b, data, levels, labels, deleted);
    SameLinksAt(file, LinksStart(dim, n), words, n, b, l0, upper);
  }

  lemma LongerLaidOut(file: seq<U8>, h: Header, words: nat, b: Body, data: seq<Vector>, levels: seq<nat>, labels: seq<Key>,
                      deleted: seq<bool>, l0: seq<U32>, upper: seq<seq<U32>>)
    requires LaidOut(file, h, b)
    requires words == HeldWords(h.m, h.count) && IsPrefix(b, h.count, words, data, levels, labels, deleted, l0, upper)
    ensures HeaderAt(file, h) && ArraysAt(file, h.dim, h.m, h.count, data, levels, labels, deleted, l0, upper)
    ensures FileEnd(h, upper) == FileEnd(h, b.upper)
  {
    LongerArrays(file, h.dim, h.m, h.count, words, b, data, levels, labels, deleted, l0, upper);
  }
}
