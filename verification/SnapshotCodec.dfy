/** Readers and writers of the values a snapshot file is made of, and how they combine. */
module SnapshotCodec {
  import opened Bytes
  import opened Options
  import opened KeyTable

  /** How one kind of value is written, and read from the front of the remaining bytes. */
  datatype Codec<!T> = Codec(write: T -> seq<U8>, read: seq<U8> -> Option<(T, seq<U8>)>)

  /** What was written for x is read back as y, whatever follows. */
  ghost predicate Gives<T>(c: Codec<T>, x: T, y: T) {
    forall rest: seq<U8> :: c.read(c.write(x) + rest) == Some((y, rest))
  }

  /** Reading looks no further than what it takes. */
  ghost predicate Local<T>(c: Codec<T>) {
    forall s: seq<U8>, more: seq<U8> :: c.read(s).Some? ==>
      c.read(s + more) == Some((c.read(s).value.0, c.read(s).value.1 + more))
  }

  function WriteList<T>(c: Codec<T>, xs: seq<T>): seq<U8> {
    if xs == [] then [] else c.write(xs[0]) + WriteList(c, xs[1..])
  }

  function ReadList<T>(c: Codec<T>, n: nat, s: seq<U8>): (r: Option<(seq<T>, seq<U8>)>)
    ensures r.Some? ==> |r.value.0| == n
  {
    if n == 0 then Some(([], s))
    else match c.read(s)
      case None => None
      case Some((x, rest)) =>
        match ReadList(c, n - 1, rest)
        case None => None
        case Some((xs, end)) => Some(([x] + xs, end))
  }

  lemma {:induction false} WriteListSnoc<T>(c: Codec<T>, xs: seq<T>, x: T)
    ensures WriteList(c, xs + [x]) == WriteList(c, xs) + c.write(x)
  {
    if xs == [] {
      assert xs + [x] == [x];
    } else {
      assert (xs + [x])[1..] == xs[1..] + [x];
      WriteListSnoc(c, xs[1..], x);
    }
  }

  lemma {:induction false} ListGives<T>(c: Codec<T>, xs: seq<T>, ys: seq<T>, rest: seq<U8>)
    requires |xs| == |ys| && forall i :: 0 <= i < |xs| ==> Gives(c, xs[i], ys[i])
    ensures ReadList(c, |xs|, WriteList(c, xs) + rest) == Some((ys, rest))
  {
    if xs != [] {
      var tail := WriteList(c, xs[1..]);
      assert c.write(xs[0]) + tail + rest == c.write(xs[0]) + (tail + rest);
      assert Gives(c, xs[0], ys[0]);
      ListGives(c, xs[1..], ys[1..], rest);
      assert ys == [ys[0]] + ys[1..];
    } else {
      assert [] + rest == rest && ys == [];
    }
  }

  lemma {:induction false} ListLocal<T>(c: Codec<T>, n: nat, s: seq<U8>, more: seq<U8>)
    requires Local(c) && ReadList(c, n, s).Some?
    ensures ReadList(c, n, s + more) == Some((ReadList(c, n, s).value.0, ReadList(c, n, s).value.1 + more))
  {
    if n > 0 {
      ListLocal(c, n - 1, c.read(s).value.1, more);
    }
  }

  function Word(): Codec<U32> {
    Codec((x: U32) => LittleEndian(x, 4),
          (s: seq<U8>) => if |s| < 4 then None else Some((ReadU32(s[..4]), s[4..])))
  }

  function Long(): Codec<U64> {
    Codec((x: U64) => LittleEndian(x, 8),
          (s: seq<U8>) => if |s| < 8 then None else Some((ReadU64(s[..8]), s[8..])))
  }

  function Label(): Codec<Key> {
    Codec((k: Key) => LittleEndian(k.clientId, 8) + LittleEndian(k.labelId, 8),
          (s: seq<U8>) => if |s| < 16 then None else Some((Key(ReadU64(s[..8]), ReadU64(s[8..16])), s[16..])))
  }

  function Flag(): Codec<bool> {
    Codec((b: bool) => if b then [1] else [0],
          (s: seq<U8>) => if |s| < 1 then None else Some((s[0] != 0, s[1..])))
  }

  /** What remains of a row whose length went through a 32-bit count. */
  function Cut(row: seq<U32>): seq<U32> {
    row[..|row| % TWO_32]
  }

  function ReadCounted(c: Codec<U32>, s: seq<U8>): Option<(seq<U32>, seq<U8>)> {
    match c.read(s)
    case None => None
    case Some((n, rest)) => ReadList(c, n, rest)
  }

  function WriteCounted(c: Codec<U32>, row: seq<U32>): seq<U8> {
    c.write(|row| % TWO_32) + WriteList(c, Cut(row))
  }

  /** A node's upper blocks: the number of words as 32 bits, then that many words. */
  function Row(): Codec<seq<U32>> {
    Codec((row: seq<U32>) => WriteCounted(Word(), row), (s: seq<U8>) => ReadCounted(Word(), s))
  }

  lemma WordGives(x: U32)
    ensures Gives(Word(), x, x)
  {
    U32RoundTrip(x);
    forall rest: seq<U8> ensures Word().read(Word().write(x) + rest) == Some((x, rest)) {
      assert (LittleEndian(x, 4) + rest)[..4] == LittleEndian(x, 4);
    }
  }

  lemma LongGives(x: U64)
    ensures Gives(Long(), x, x)
  {
    U64RoundTrip(x);
    forall rest: seq<U8> ensures Long().read(Long().write(x) + rest) == Some((x, rest)) {
      assert (LittleEndian(x, 8) + rest)[..8] == LittleEndian(x, 8);
    }
  }

  lemma LabelGives(k: Key)
    ensures Gives(Label(), k, k)
  {
    U64RoundTrip(k.clientId);
    U64RoundTrip(k.labelId);
    forall rest: seq<U8> ensures Label().read(Label().write(k) + rest) == Some((k, rest)) {
      var s := LittleEndian(k.clientId, 8) + LittleEndian(k.labelId, 8) + rest;
      assert s[..8] == LittleEndian(k.clientId, 8) && s[8..16] == LittleEndian(k.labelId, 8);
    }
  }

  lemma FlagGives(b: bool)
    ensures Gives(Flag(), b, b)
  {
  }

  lemma WordsGive(ws: seq<U32>)
    ensures Gives(List(Word(), |ws|), ws, ws)
  {
    forall i | 0 <= i < |ws| ensures Gives(Word(), ws[i], ws[i]) {
      WordGives(ws[i]);
    }
    ListCodecGives(Word(), ws, ws);
  }

  /** A row of 2^32 words or more comes back cut. */
  lemma RowGives(row: seq<U32>)
    ensures Gives(Row(), row, Cut(row))
  {
    forall rest: seq<U8> ensures Row().read(Row().write(row) + rest) == Some((Cut(row), rest)) {
      CountedGives(Word(), row, rest) by {
        forall x: U32 ensures Gives(Word(), x, x) {
          WordGives(x);
        }
      }
    }
  }

  lemma CountedGives(c: Codec<U32>, row: seq<U32>, rest: seq<U8>)
    requires forall x: U32 :: Gives(c, x, x)
    ensures ReadCounted(c, WriteCounted(c, row) + rest) == Some((Cut(row), rest))
  {
    var n: U32, ws := |row| % TWO_32, WriteList(c, Cut(row));
    assert Gives(c, n, n);
    assert c.write(n) + ws + rest == c.write(n) + (ws + rest);
    ListGives(c, Cut(row), Cut(row), rest);
  }

  lemma PrefixStays(s: seq<U8>, more: seq<U8>, n: nat)
    requires n <= |s|
    ensures (s + more)[..n] == s[..n] && (s + more)[n..] == s[n..] + more
  {
  }

  lemma WordLocal()
    ensures Local(Word())
  {
    forall s: seq<U8>, more: seq<U8> | |s| >= 4
      ensures Word().read(s + more) == Some((Word().read(s).value.0, Word().read(s).value.1 + more))
    {
      PrefixStays(s, more, 4);
    }
  }

  lemma LongLocal()
    ensures Local(Long())
  {
    forall s: seq<U8>, more: seq<U8> | |s| >= 8
      ensures Long().read(s + more) == Some((Long().read(s).value.0, Long().read(s).value.1 + more))
    {
      PrefixStays(s, more, 8);
    }
  }

  lemma LabelLocal()
    ensures Local(Label())
  {
    forall s: seq<U8>, more: seq<U8> | |s| >= 16
      ensures Label().read(s + more) == Some((Label().read(s).value.0, Label().read(s).value.1 + more))
    {
      PrefixStays(s, more, 16);
      PrefixStays(s, more, 8);
      assert (s + more)[8..16] == s[8..16];
    }
  }

  lemma FlagLocal()
    ensures Local(Flag())
  {
    forall s: seq<U8>, more: seq<U8> | |s| >= 1
      ensures Flag().read(s + more) == Some((Flag().read(s).value.0, Flag().read(s).value.1 + more))
    {
      PrefixStays(s, more, 1);
    }
  }

  lemma RowLocal()
    ensures Local(Row())
  {
    WordLocal();
    forall s: seq<U8>, more: seq<U8> | ReadCounted(Word(), s).Some?
      ensures Row().read(s + more) == Some((Row().read(s).value.0, Row().read(s).value.1 + more))
    {
      var (n, rest) := Word().read(s).value;
      ListLocal(Word(), n, rest, more);
    }
  }

  /** n values of one kind. */
  function List<T>(c: Codec<T>, n: nat): Codec<seq<T>> {
    Codec((xs: seq<T>) => WriteList(c, xs), (s: seq<U8>) => ReadList(c, n, s))
  }

  function ReadPair<A, B>(a: Codec<A>, b: Codec<B>, s: seq<U8>): Option<((A, B), seq<U8>)> {
    match a.read(s)
    case None => None
    case Some((x, rest)) =>
      match b.read(rest)
      case None => None
      case Some((y, end)) => Some(((x, y), end))
  }

  /** One value after the other. */
  function Pair<A, B>(a: Codec<A>, b: Codec<B>): Codec<(A, B)> {
    Codec((p: (A, B)) => a.write(p.0) + b.write(p.1), (s: seq<U8>) => ReadPair(a, b, s))
  }

  lemma PairGives<A, B>(a: Codec<A>, b: Codec<B>, x: A, x': A, y: B, y': B)
    requires Gives(a, x, x') && Gives(b, y, y')
    ensures Gives(Pair(a, b), (x, y), (x', y'))
  {
    forall rest: seq<U8> ensures ReadPair(a, b, a.write(x) + b.write(y) + rest) == Some(((x', y'), rest)) {
      assert a.write(x) + b.write(y) + rest == a.write(x) + (b.write(y) + rest);
    }
  }

  lemma PairLocal<A, B>(a: Codec<A>, b: Codec<B>)
    requires Local(a) && Local(b)
    ensures Local(Pair(a, b))
  {
    forall s: seq<U8>, more: seq<U8> | ReadPair(a, b, s).Some?
      ensures ReadPair(a, b, s + more) == Some((ReadPair(a, b, s).value.0, ReadPair(a, b, s).value.1 + more))
    {
      var (x, rest) := a.read(s).value;
      assert a.read(s + more) == Some((x, rest + more));
    }
  }

  lemma ListCodecGives<T>(c: Codec<T>, xs: seq<T>, ys: seq<T>)
    requires |xs| == |ys| && forall i :: 0 <= i < |xs| ==> Gives(c, xs[i], ys[i])
    ensures Gives(List(c, |xs|), xs, ys)
  {
    forall rest: seq<U8> ensures List(c, |xs|).read(List(c, |xs|).write(xs) + rest) == Some((ys, rest)) {
      ListGives(c, xs, ys, rest);
    }
  }

  lemma ListCodecLocal<T>(c: Codec<T>, n: nat)
    requires Local(c)
    ensures Local(List(c, n))
  {
    forall s: seq<U8>, more: seq<U8> | ReadList(c, n, s).Some?
      ensures ReadList(c, n, s + more) == Some((ReadList(c, n, s).value.0, ReadList(c, n, s).value.1 + more))
    {
      ListLocal(c, n, s, more);
    }
  }

  /** Reading from a cut-off file what was written in full. */
  lemma ReadFromCut<T>(c: Codec<T>, x: T, y: T, s: seq<U8>, more: seq<U8>, rest: seq<U8>)
    requires Local(c) && Gives(c, x, y) && s + more == c.write(x) + rest && c.read(s).Some?
    ensures c.read(s).value.0 == y && c.read(s).value.1 + more == rest
  {
    assert c.read(s + more) == Some((y, rest));
  }

  lemma CutIsNotRead<T>(c: Codec<T>, x: T, y: T, s: seq<U8>, more: seq<U8>)
    requires Local(c) && Gives(c, x, y) && s + more == c.write(x) && more != []
    ensures c.read(s).None?
  {
    if c.read(s).Some? {
      assert c.write(x) + [] == c.write(x);
      ReadFromCut(c, x, y, s, more, []);
    }
  }
}
