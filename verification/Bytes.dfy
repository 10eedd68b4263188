/** Fixed-width machine integers and the little-endian byte layout shared by the
    log, the snapshot file and the key hash. */
module Bytes {

  const TWO_16 := 0x1_0000
  const TWO_32 := 0x1_0000_0000
  const TWO_64 := 0x1_0000_0000_0000_0000

  type U8 = x: int | 0 <= x < 256
  type U16 = x: int | 0 <= x < TWO_16
  type U32 = x: int | 0 <= x < TWO_32
  type U64 = x: int | 0 <= x < TWO_64

  /** The n low-order bytes of x, least significant first. */
  function LittleEndian(x: nat, n: nat): (s: seq<U8>)
    ensures |s| == n
  {
    if n == 0 then [] else [x % 256] + LittleEndian(x / 256, n - 1)
  }

  function FromLittleEndian(s: seq<U8>): nat {
    if s == [] then 0 else s[0] + 256 * FromLittleEndian(s[1..])
  }

  function Pow256(n: nat): (p: nat)
    ensures p >= 1
  {
    if n == 0 then 1 else 256 * Pow256(n - 1)
  }

  lemma PowerValues()
    ensures Pow256(2) == TWO_16 && Pow256(4) == TWO_32 && Pow256(8) == TWO_64
  {
    assert Pow256(4) == 256 * (256 * Pow256(2));
    assert Pow256(6) == 256 * (256 * Pow256(4));
    assert Pow256(8) == 256 * (256 * Pow256(6));
  }

  /** Reading n bytes back recovers every value that fits in n bytes. */
  lemma {:induction false} LittleEndianRoundTrip(x: nat, n: nat)
    requires x < Pow256(n)
    ensures FromLittleEndian(LittleEndian(x, n)) == x
  {
    if n > 0 {
      LittleEndianRoundTrip(x / 256, n - 1);
      assert LittleEndian(x, n)[1..] == LittleEndian(x / 256, n - 1);
    }
  }

  lemma {:induction false} FromLittleEndianBound(s: seq<U8>)
    ensures FromLittleEndian(s) < Pow256(|s|)
  {
    if s != [] {
      FromLittleEndianBound(s[1..]);
    }
  }

  /** The other direction: bytes are those of the number they read as. */
  lemma {:induction false} BytesOfRead(s: seq<U8>)
    ensures LittleEndian(FromLittleEndian(s), |s|) == s
  {
    if s != [] {
      BytesOfRead(s[1..]);
      assert s == [s[0]] + s[1..];
    }
  }

  lemma Regroup(a: seq<U8>, b: seq<U8>, c: seq<U8>)
    ensures (a + b) + c == a + (b + c)
  {
  }

  function ReadU32(s: seq<U8>): (x: U32)
    requires |s| == 4
  {
    FromLittleEndianBound(s);
    PowerValues();
    FromLittleEndian(s)
  }

  function ReadU64(s: seq<U8>): (x: U64)
    requires |s| == 8
  {
    FromLittleEndianBound(s);
    PowerValues();
    FromLittleEndian(s)
  }

  lemma U32RoundTrip(x: U32)
    ensures ReadU32(LittleEndian(x, 4)) == x
  {
    PowerValues();
    LittleEndianRoundTrip(x, 4);
  }

  lemma U64RoundTrip(x: U64)
    ensures ReadU64(LittleEndian(x, 8)) == x
  {
    PowerValues();
    LittleEndianRoundTrip(x, 8);
  }
}
