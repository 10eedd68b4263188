/** Hash routing: FNV-1a 64 (section 2 of draft-eastlake-fnv) over the key's 16 bytes. */
module Router {
  import opened Bytes
  import opened KeyTable

  const OFFSET_BASIS: U64 := 14695981039346656037
  const PRIME: nat := 1099511628211

  function Pow2(n: nat): (p: nat)
    ensures p >= 1
  {
    if n == 0 then 1 else 2 * Pow2(n - 1)
  }

  /** Exclusive or of the low n bits. */
  function Xor(a: nat, b: nat, n: nat): (r: nat)
    ensures r < Pow2(n)
  {
    if n == 0 then 0 else (a % 2 + b % 2) % 2 + 2 * Xor(a / 2, b / 2, n - 1)
  }

  lemma ByteRange()
    ensures Pow2(8) == 256
  {
    assert Pow2(4) == 16 && Pow2(6) == 64;
  }

  /** Exclusive or with a byte, which touches the low eight bits only. */
  function XorLow(h: U64, b: U8): (r: U64)
    ensures r / 256 == h / 256 && r % 256 == Xor(h % 256, b, 8)
  {
    ByteRange();
    h - h % 256 + Xor(h % 256, b, 8)
  }

  function Mix(h: U64, b: U8): U64 {
    (XorLow(h, b) * PRIME) % TWO_64
  }

  function FnvFrom(h: U64, s: seq<U8>): U64
    decreases |s|
  {
    if s == [] then h else FnvFrom(Mix(h, s[0]), s[1..])
  }

  function KeyBytes(k: Key): (s: seq<U8>)
    ensures |s| == 16
  {
    LittleEndian(k.clientId, 8) + LittleEndian(k.labelId, 8)
  }

  function HashOf(k: Key): U64 {
    FnvFrom(OFFSET_BASIS, KeyBytes(k))
  }

  /** Owner of a key among n shards. */
  function ShardFor(k: Key, n: nat): (i: nat)
    requires n > 0
    ensures i < n
  {
    HashOf(k) % n
  }

  /** fnv1a64: the hash loop. */
  method Fnv1a64(data: seq<U8>) returns (h: U64)
    ensures h == FnvFrom(OFFSET_BASIS, data)
  {
    h := OFFSET_BASIS;
    for i := 0 to |data|
      invariant FnvFrom(h, data[i..]) == FnvFrom(OFFSET_BASIS, data)
    {
      assert data[i..][1..] == data[i + 1..];
      h := Mix(h, data[i]);
    }
    assert data[|data|..] == [];
  }

  /** x shifted right by i bytes. */
  function ShiftedRight(x: nat, i: nat): nat {
    if i == 0 then x else ShiftedRight(x, i - 1) / 256
  }

  lemma {:induction false} ShiftOneMore(x: nat, i: nat)
    ensures ShiftedRight(x / 256, i) == ShiftedRight(x, i + 1)
  {
    if i > 0 {
      ShiftOneMore(x, i - 1);
    }
  }

  lemma {:induction false} ByteAt(x: nat, n: nat, i: nat)
    requires i < n
    ensures LittleEndian(x, n)[i] == ShiftedRight(x, i) % 256
  {
    if i > 0 {
      ByteAt(x / 256, n - 1, i - 1);
      ShiftOneMore(x, i - 1);
    }
  }

  /** hashKey of the simulation: the buffer filled byte by byte with shifts, then hashed. */
  method HashKeyByShifts(clientId: U64, labelId: U64) returns (h: U64)
    ensures h == HashOf(Key(clientId, labelId))
  {
    var buf := new U8[16](_ => 0);
    for i := 0 to 8
      invariant forall j :: 0 <= j < i ==> buf[j] == LittleEndian(clientId, 8)[j]
    {
      ByteAt(clientId, 8, i);
      buf[i] := ShiftedRight(clientId, i) % 256;
    }
    for i := 0 to 8
      invariant forall j :: 0 <= j < 8 ==> buf[j] == LittleEndian(clientId, 8)[j]
      invariant forall j :: 0 <= j < i ==> buf[8 + j] == LittleEndian(labelId, 8)[j]
    {
      ByteAt(labelId, 8, i);
      buf[8 + i] := ShiftedRight(labelId, i) % 256;
    }
    assert buf[..] == KeyBytes(Key(clientId, labelId)) by {
      assert buf[..8] == LittleEndian(clientId, 8) && buf[8..] == LittleEndian(labelId, 8);
    }
    h := Fnv1a64(buf[..]);
  }

  /** HashKey of the router: the same 16 bytes, written as two little-endian words. It agrees
      with the simulation on every key. */
  method HashKey(k: Key) returns (h: U64)
    ensures h == HashOf(k)
  {
    h := Fnv1a64(LittleEndian(k.clientId, 8) + LittleEndian(k.labelId, 8));
  }

  /** ShardFor of the router: the hash of the key modulo the number of shards. */
  method OwnerOf(k: Key, n: nat) returns (i: nat)
    requires n > 0
    ensures i == ShardFor(k, n)
  {
    var h := HashKey(k);
    i := h % n;
  }

  /** Whichever of the two hashing methods is asked, the owner is its hash modulo the number of
      shards. */
  method OwnerAgrees(k: Key, n: nat) returns (h: U64, h': U64)
    requires n > 0
    ensures h == h' && ShardFor(k, n) == h % n
  {
    h := HashKey(k);
    h' := HashKeyByShifts(k.clientId, k.labelId);
  }

  lemma XorStep(a: nat, b: nat, n: nat, rest: nat)
    requires n > 0 && Xor(a / 2, b / 2, n - 1) == rest
    ensures Xor(a, b, n) == (a % 2 + b % 2) % 2 + 2 * rest
  {
  }

  lemma MixedTo(h: U64, b: U8, low: nat, after: U64)
    requires Xor(h % 256, b, 8) == low && ((h - h % 256 + low) * PRIME) % TWO_64 == after
    ensures Mix(h, b) == after
  {
  }

  /** The exclusive or of 0x25, the lowest byte of the offset basis, and 0x61. */
  lemma FirstXor(low: nat, a: nat)
    requires low == 0x25 && a == 0x61
    ensures Xor(low, a, 8) == 0x44
  {
    XorStep(0, 0, 1, 0);
    XorStep(0, 1, 2, 0);
    XorStep(1, 3, 3, 1);
    XorStep(2, 6, 4, 2);
    XorStep(4, 12, 5, 4);
    XorStep(9, 24, 6, 8);
    XorStep(18, 48, 7, 17);
    XorStep(37, 97, 8, 34);
  }

  /** Two published values of the hash, of the empty text and of "a" (test vectors of
      draft-eastlake-fnv). */
  lemma KnownAnswers(basis: U64, a: U8)
    requires basis == OFFSET_BASIS && a == 0x61
    ensures FnvFrom(basis, []) == 0xcbf29ce484222325
    ensures FnvFrom(basis, [a]) == 0xaf63dc4c8601ec8c
  {
    BasisXor(basis, a);
    EmptyAnswer(basis);
    BasisMixed(basis, a, 0x44);
  }

  lemma BasisXor(basis: U64, a: U8)
    requires basis == OFFSET_BASIS && a == 0x61
    ensures Xor(basis % 256, a, 8) == 0x44
  {
    FirstXor(basis % 256, a);
  }

  lemma EmptyAnswer(basis: U64)
    requires basis == OFFSET_BASIS
    ensures FnvFrom(basis, []) == 0xcbf29ce484222325
  {
  }

  lemma BasisMixed(basis: U64, a: U8, low: nat)
    requires basis == OFFSET_BASIS && low == 0x44 && Xor(basis % 256, a, 8) == low
    ensures FnvFrom(basis, [a]) == 0xaf63dc4c8601ec8c
  {
    BasisTimesPrime(basis, low);
    HashOfOne(basis, a, low, 0xaf63dc4c8601ec8c);
  }

  lemma BasisTimesPrime(basis: U64, low: nat)
    requires basis == OFFSET_BASIS && low == 0x44
    ensures ((basis - basis % 256 + low) * PRIME) % TWO_64 == 0xaf63dc4c8601ec8c
  {
  }

  lemma HashOfOne(h: U64, b: U8, low: nat, after: U64)
    requires Xor(h % 256, b, 8) == low && ((h - h % 256 + low) * PRIME) % TWO_64 == after
    ensures FnvFrom(h, [b]) == after
  {
    MixedTo(h, b, low, after);
    OneByte(h, b);
  }

  lemma OneByte(h: U64, b: U8)
    ensures FnvFrom(h, [b]) == Mix(h, b)
  {
    assert [b][1..] == [];
  }

  /** The number of bytes whose lowest bit is set. */
  function OddBytes(s: seq<U8>): nat {
    if s == [] then 0 else s[0] % 2 + OddBytes(s[1..])
  }

  lemma SameParity(x: nat, half: nat, y: nat)
    requires x == 2 * half + y
    ensures x % 2 == y % 2
  {
  }

  lemma AddParity(x: nat, y: nat, z: nat)
    requires x % 2 == y % 2
    ensures (x + z) % 2 == (y + z) % 2
  {
  }

  lemma BitParity(a: nat, b: nat, rest: nat, x: nat)
    requires x == (a % 2 + b % 2) % 2 + 2 * rest
    ensures x % 2 == (a + b) % 2
  {
  }

  lemma ByteParity(a: nat, b: nat, n: nat)
    requires n > 0
    ensures Xor(a, b, n) % 2 == (a + b) % 2
  {
    var rest := Xor(a / 2, b / 2, n - 1);
    XorStep(a, b, n, rest);
    BitParity(a, b, rest, Xor(a, b, n));
  }

  lemma LowParity(h: nat, b: nat, low: nat, x: nat)
    requires x / 256 == h / 256 && x % 256 == low && low % 2 == (h % 256 + b) % 2
    ensures x % 2 == (h + b) % 2
  {
    SameParity(x, 128 * (h / 256), low);
    SameParity(h + b, 128 * (h / 256), h % 256 + b);
  }

  lemma XorParity(h: U64, b: U8)
    ensures XorLow(h, b) % 2 == (h + b) % 2
  {
    ByteParity(h % 256, b, 8);
    LowParity(h, b, Xor(h % 256, b, 8), XorLow(h, b));
  }

  /** Modulus and prime: one is even, the other odd. */
  lemma ProductParity(x: nat)
    ensures ((x * PRIME) % TWO_64) % 2 == x % 2
  {
    var y := x * PRIME;
    SameParity(y, 0x8000_0000_0000_0000 * (y / TWO_64), y % TWO_64);
    SameParity(y, 549755814105 * x, x);
  }

  lemma MixParity(h: U64, b: U8)
    ensures Mix(h, b) % 2 == (h + b) % 2
  {
    XorParity(h, b);
    ProductParity(XorLow(h, b));
  }

  /** The lowest bit of a hash is the parity of the state's and of all the bytes' lowest bits. */
  lemma {:induction false} HashParity(h: U64, s: seq<U8>)
    ensures FnvFrom(h, s) % 2 == (h + OddBytes(s)) % 2
    decreases |s|
  {
    if s != [] {
      MixParity(h, s[0]);
      HashParity(Mix(h, s[0]), s[1..]);
      ParityMoves(Mix(h, s[0]), h, s[0], OddBytes(s[1..]));
    }
  }

  lemma ParityMoves(after: nat, h: nat, b: nat, rest: nat)
    requires after % 2 == (h + b) % 2
    ensures (after + rest) % 2 == (h + (b % 2 + rest)) % 2
  {
    AddParity(after, h + b, rest);
    AddParity(b, b % 2, h + rest);
  }

  /** The key's 16 bytes: the client id's eight, then the label's eight, least significant first. */
  ghost predicate BytesOf(k: Key, s: seq<U8>) {
    |s| == 16 && ReadU64(s[..8]) == k.clientId && ReadU64(s[8..]) == k.labelId
  }

  lemma BytesAreKeyBytes(k: Key, s: seq<U8>)
    requires BytesOf(k, s)
    ensures s == KeyBytes(k)
  {
    BytesOfRead(s[..8]);
    BytesOfRead(s[8..]);
    assert s == s[..8] + s[8..];
  }

  /** With two shards the second one owns exactly the keys with an even number of odd bytes: the
      offset basis is odd. */
  lemma OwnerOfTwo(k: Key, s: seq<U8>)
    requires BytesOf(k, s)
    ensures ShardFor(k, 2) == 1 <==> OddBytes(s) % 2 == 0
  {
    BytesAreKeyBytes(k, s);
    HashParity(OFFSET_BASIS, s);
    HashedParity(HashOf(k), OddBytes(s));
  }

  lemma HashedParity(h: U64, n: nat)
    requires h % 2 == (OFFSET_BASIS + n) % 2
    ensures h % 2 == 1 <==> n % 2 == 0
  {
    SameParity(OFFSET_BASIS + n, 7347990519673328018, 1 + n);
  }

  lemma {:induction false} OddBytesAfter(s: seq<U8>, i: nat, b: U8)
    requires i < |s|
    ensures OddBytes(s[i := b]) == OddBytes(s) - s[i] % 2 + b % 2
  {
    if i > 0 {
      assert s[i := b][1..] == s[1..][i - 1 := b];
      OddBytesAfter(s[1..], i - 1, b);
    } else {
      assert s[i := b][1..] == s[1..];
    }
  }

  /** Changing the lowest bit of any one byte of a key moves it to the other of two shards. */
  lemma LowBitMovesKey(k: Key, k': Key, s: seq<U8>, i: nat, b: U8)
    requires BytesOf(k, s) && i < 16 && s[i] % 2 != b % 2 && BytesOf(k', s[i := b])
    ensures ShardFor(k', 2) == 1 - ShardFor(k, 2)
  {
    var owner, owner', odd, odd' := ShardFor(k, 2), ShardFor(k', 2), OddBytes(s), OddBytes(s[i := b]);
    OwnerOfTwo(k, s);
    OwnerOfTwo(k', s[i := b]);
    OddBytesAfter(s, i, b);
    OneFlips(owner, owner', odd, odd', s[i] % 2);
  }

  lemma OneFlips(owner: nat, owner': nat, odd: nat, odd': nat, bit: nat)
    requires owner < 2 && owner' < 2 && bit < 2 && odd' == odd - bit + (1 - bit)
    requires (owner == 1 <==> odd % 2 == 0) && (owner' == 1 <==> odd' % 2 == 0)
    ensures owner' == 1 - owner
  {
  }

  /** The multiplicative inverse of the prime modulo 2^64. */
  const INVERSE: nat := 14886173955864302971

  /** Multiplication by the prime loses nothing. */
  lemma PrimeIsInvertible(x: U64, y: U64)
    requires (x * PRIME) % TWO_64 == (y * PRIME) % TWO_64
    ensures x == y
  {
    var p, q := (x * PRIME) / TWO_64, (y * PRIME) / TWO_64;
    assert (x - y) * PRIME == (p - q) * TWO_64;
    assert PRIME * INVERSE == 1 + 887285111055 * TWO_64;
    var z := (p - q) * INVERSE - 887285111055 * (x - y);
    assert x - y == z * TWO_64;
  }

  /** Equal exclusive ors have equal lowest bits and equal rests. */
  lemma XorSplits(a: nat, a': nat, b: nat, b': nat, n: nat)
    requires n > 0 && Xor(a, b, n) == Xor(a', b', n)
    ensures (a % 2 + b % 2) % 2 == (a' % 2 + b' % 2) % 2
    ensures Xor(a / 2, b / 2, n - 1) == Xor(a' / 2, b' / 2, n - 1)
  {
  }

  lemma BitCancels(a: nat, a': nat, b: nat)
    requires (a % 2 + b % 2) % 2 == (a' % 2 + b % 2) % 2
    ensures a % 2 == a' % 2
  {
  }

  lemma {:induction false} XorCancels(a: nat, a': nat, b: nat, n: nat)
    requires a < Pow2(n) && a' < Pow2(n)
    requires Xor(a, b, n) == Xor(a', b, n)
    ensures a == a'
  {
    if n > 0 {
      XorSplits(a, a', b, b, n);
      BitCancels(a, a', b);
      XorCancels(a / 2, a' / 2, b / 2, n - 1);
    }
  }

  lemma {:induction false} XorCommutes(a: nat, b: nat, n: nat)
    ensures Xor(a, b, n) == Xor(b, a, n)
  {
    if n > 0 {
      XorCommutes(a / 2, b / 2, n - 1);
    }
  }

  lemma XorLowCancels(h: U64, h': U64, b: U8)
    requires XorLow(h, b) == XorLow(h', b)
    ensures h == h'
  {
    ByteRange();
    XorCancels(h % 256, h' % 256, b, 8);
  }

  lemma XorLowApart(h: U64, b: U8, b': U8)
    requires XorLow(h, b) == XorLow(h, b')
    ensures b == b'
  {
    ByteRange();
    XorCommutes(h % 256, b, 8);
    XorCommutes(h % 256, b', 8);
    XorCancels(b, b', h % 256, 8);
  }

  lemma {:induction false} TailsKeepApart(h: U64, h': U64, s: seq<U8>)
    requires h != h'
    ensures FnvFrom(h, s) != FnvFrom(h', s)
    decreases |s|
  {
    if s != [] {
      if Mix(h, s[0]) == Mix(h', s[0]) {
        PrimeIsInvertible(XorLow(h, s[0]), XorLow(h', s[0]));
        XorLowCancels(h, h', s[0]);
      }
      TailsKeepApart(Mix(h, s[0]), Mix(h', s[0]), s[1..]);
    }
  }

  /** Keys whose bytes differ in exactly one place never collide. */
  lemma {:induction false} OneByteApart(h: U64, s: seq<U8>, i: nat, b: U8)
    requires i < |s| && s[i] != b
    ensures FnvFrom(h, s[i := b]) != FnvFrom(h, s)
    decreases |s|
  {
    var t := s[i := b];
    if i == 0 {
      assert t[1..] == s[1..];
      if Mix(h, b) == Mix(h, s[0]) {
        PrimeIsInvertible(XorLow(h, b), XorLow(h, s[0]));
        XorLowApart(h, b, s[0]);
      }
      TailsKeepApart(Mix(h, b), Mix(h, s[0]), s[1..]);
    } else {
      assert t[1..] == s[1..][i - 1 := b];
      OneByteApart(Mix(h, s[0]), s[1..], i - 1, b);
    }
  }
}
