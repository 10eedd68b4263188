/** Flat link storage: every node owns one block per layer, a count word followed by
    room for the neighbours. Layer 0 blocks lie in one array with stride 2M+1; a node's
    upper blocks lie in its own array with stride M+1. */
module LinkArena {
  import opened Bytes

  /** Words taken by n blocks of one stride. Defined by repetition, so that reasoning about
      blocks stays linear; it is the product (BlockWordsIsProduct). */
  function BlockWords(n: nat, stride: nat): nat {
    if n == 0 then 0 else BlockWords(n - 1, stride) + stride
  }

  lemma {:induction false} BlockWordsIsProduct(n: nat, stride: nat)
    ensures BlockWords(n, stride) == n * stride
  {
    if n > 0 {
      BlockWordsIsProduct(n - 1, stride);
      assert n * stride == (n - 1) * stride + stride;
    }
  }

  datatype Arena = Arena(m: nat, l0: seq<U32>, upper: seq<seq<U32>>)
  {
    function Capacity(level: nat): nat {
      if level == 0 then 2 * m else m
    }

    /** There is an l0 block for every node, and node id has upper blocks for the layers
        1..levels[id]. */
    ghost predicate Shape(levels: seq<nat>)
    {
      && |l0| == BlockWords(|levels|, 2 * m + 1)
      && |upper| == |levels|
      && forall id :: 0 <= id < |levels| ==> |upper[id]| == BlockWords(levels[id], m + 1)
    }

    /** Start of the block and the array it lies in. */
    function BlockStart(id: nat, level: nat): nat {
      if level == 0 then BlockWords(id, 2 * m + 1) else BlockWords(level - 1, m + 1)
    }

    predicate InBounds(id: nat, level: nat, i: nat)
    {
      if level == 0 then BlockStart(id, 0) + i < |l0|
      else id < |upper| && BlockStart(id, level) + i < |upper[id]|
    }

    function Word(id: nat, level: nat, i: nat): U32
      requires InBounds(id, level, i)
    {
      if level == 0 then l0[BlockStart(id, 0) + i] else upper[id][BlockStart(id, level) + i]
    }

    function WithWord(id: nat, level: nat, i: nat, w: U32): (a: Arena)
      requires InBounds(id, level, i)
    {
      if level == 0 then this.(l0 := l0[BlockStart(id, 0) + i := w])
      else
        var row: seq<U32> := upper[id][BlockStart(id, level) + i := w];
        this.(upper := upper[id := row])
    }

    /** The block (id, level) is stored and its count word is within capacity. */
    predicate HasBlock(id: nat, level: nat)
    {
      && InBounds(id, level, Capacity(level))
      && Word(id, level, 0) <= Capacity(level)
    }

    /** The neighbour list a block represents. */
    function Links(id: nat, level: nat): (s: seq<nat>)
      requires HasBlock(id, level)
    {
      seq(Word(id, level, 0), i requires 0 <= i < Word(id, level, 0) => Word(id, level, i + 1))
    }
  }

  /** Where a list lies in memory. On layer 0 node id has 2m + 1 words of the one array, from word
      id * (2m + 1) on; on layer l it has m + 1 words of its own array, from (l - 1) * (m + 1) on. The
      first of them is the number of links, the next ones are the links in order, and there is room
      for 2m of them on layer 0 and for m above. */
  lemma BlockLayout(a: Arena, levels: seq<nat>, id: nat, level: nat, row: seq<U32>, at: nat)
    requires a.Shape(levels) && id < |levels| && level <= levels[id] && a.HasBlock(id, level)
    requires row == if level == 0 then a.l0 else a.upper[id]
    requires at == if level == 0 then id * (2 * a.m + 1) else (level - 1) * (a.m + 1)
    ensures |row| == if level == 0 then |levels| * (2 * a.m + 1) else levels[id] * (a.m + 1)
    ensures |a.Links(id, level)| <= (if level == 0 then 2 * a.m else a.m) && at + |a.Links(id, level)| < |row|
    ensures row[at] == |a.Links(id, level)|
    ensures forall i :: 0 <= i < |a.Links(id, level)| ==> row[at + 1 + i] == a.Links(id, level)[i]
  {
    if level == 0 {
      BlockWordsIsProduct(|levels|, 2 * a.m + 1);
      BlockWordsIsProduct(id, 2 * a.m + 1);
    } else {
      BlockWordsIsProduct(levels[id], a.m + 1);
      BlockWordsIsProduct(level - 1, a.m + 1);
    }
  }

  lemma {:induction false} BlocksApart(a: nat, b: nat, stride: nat)
    requires a < b
    ensures BlockWords(a, stride) + stride <= BlockWords(b, stride)
  {
    if a + 1 < b {
      BlocksApart(a, b - 1, stride);
    }
  }

  /** Every word of every block of every node lies inside its array. */
  lemma BlocksInBounds(a: Arena, levels: seq<nat>, id: nat, level: nat)
    requires a.Shape(levels) && id < |levels| && level <= levels[id]
    ensures a.InBounds(id, level, a.Capacity(level))
  {
    if level == 0 {
      BlocksApart(id, |levels|, 2 * a.m + 1);
    } else {
      BlocksApart(level - 1, levels[id], a.m + 1);
    }
  }

  /** Blocks do not overlap: writing one word of a block leaves every word of every other
      block, and every other word of that block, as it was. */
  lemma WriteFrame(a: Arena, id: nat, level: nat, i: nat, w: U32, id': nat, level': nat, i': nat)
    requires a.InBounds(id, level, i) && i <= a.Capacity(level)
    requires a.InBounds(id', level', i') && i' <= a.Capacity(level')
    ensures a.WithWord(id, level, i, w).InBounds(id', level', i')
    ensures a.WithWord(id, level, i, w).Word(id', level', i')
         == if (id, level, i) == (id', level', i') then w else a.Word(id', level', i')
  {
    if level == 0 && level' == 0 {
      if id < id' {
        BlocksApart(id, id', 2 * a.m + 1);
      } else if id' < id {
        BlocksApart(id', id, 2 * a.m + 1);
      }
    } else if level > 0 && level' > 0 && id == id' {
      if level < level' {
        BlocksApart(level - 1, level' - 1, a.m + 1);
      } else if level' < level {
        BlocksApart(level' - 1, level - 1, a.m + 1);
      }
    }
  }

  ghost predicate SameSizes(a: Arena, b: Arena) {
    && a.m == b.m && |a.l0| == |b.l0| && |a.upper| == |b.upper|
    && forall i :: 0 <= i < |a.upper| ==> |a.upper[i]| == |b.upper[i]|
  }

  /** b differs from a at most inside the block (id, level). */
  ghost predicate OnlyBlock(a: Arena, b: Arena, id: nat, level: nat) {
    && SameSizes(a, b)
    && forall id': nat, level': nat, i: nat {:trigger b.Word(id', level', i)} ::
         (id', level') != (id, level) && i <= a.Capacity(level') && a.InBounds(id', level', i)
         ==> b.Word(id', level', i) == a.Word(id', level', i)
  }

  lemma SameSizesInBounds(a: Arena, b: Arena, id: nat, level: nat, i: nat)
    requires SameSizes(a, b)
    ensures a.InBounds(id, level, i) <==> b.InBounds(id, level, i)
  {
  }

  /** One more word of a block written. */
  lemma WriteInsideBlock(a: Arena, b: Arena, id: nat, level: nat, i: nat, w: U32)
    requires OnlyBlock(a, b, id, level) && b.InBounds(id, level, i) && i <= b.Capacity(level)
    ensures OnlyBlock(a, b.WithWord(id, level, i, w), id, level)
    ensures forall j: nat {:trigger b.WithWord(id, level, i, w).Word(id, level, j)} ::
              j <= b.Capacity(level) && b.InBounds(id, level, j)
              ==> b.WithWord(id, level, i, w).InBounds(id, level, j)
                  && b.WithWord(id, level, i, w).Word(id, level, j) == if i == j then w else b.Word(id, level, j)
  {
    var c := b.WithWord(id, level, i, w);
    forall id': nat, level': nat, j: nat
      | (id', level') != (id, level) && j <= a.Capacity(level') && a.InBounds(id', level', j)
      ensures c.InBounds(id', level', j) && c.Word(id', level', j) == a.Word(id', level', j)
    {
      WriteFrame(b, id, level, i, w, id', level', j);
    }
    forall j: nat | j <= b.Capacity(level) && b.InBounds(id, level, j)
      ensures c.InBounds(id, level, j) && c.Word(id, level, j) == if i == j then w else b.Word(id, level, j)
    {
      WriteFrame(b, id, level, i, w, id, level, j);
    }
  }

  /** Outside the one block that changed, every neighbour list is the same. */
  lemma OtherLinksSame(a: Arena, b: Arena, id: nat, level: nat, id': nat, level': nat)
    requires OnlyBlock(a, b, id, level) && (id', level') != (id, level)
    requires a.HasBlock(id', level')
    ensures b.HasBlock(id', level') && b.Links(id', level') == a.Links(id', level')
  {
    SameSizesInBounds(a, b, id', level', a.Capacity(level'));
    assert forall i: nat :: i <= a.Capacity(level') ==> a.InBounds(id', level', i);
  }

  /** setLinks: the list, cut to the block's capacity, replaces the block's contents. */
  method SetLinks(a: Arena, id: nat, level: nat, ns: seq<nat>) returns (b: Arena)
    requires a.InBounds(id, level, a.Capacity(level)) && a.Capacity(level) < TWO_32
    requires forall i :: 0 <= i < |ns| ==> ns[i] < TWO_32
    ensures OnlyBlock(a, b, id, level) && b.HasBlock(id, level)
    ensures b.Links(id, level) == if |ns| <= a.Capacity(level) then ns else ns[..a.Capacity(level)]
  {
    var cap := a.Capacity(level);
    var n := if |ns| < cap then |ns| else cap;
    WriteInsideBlock(a, a, id, level, 0, n);
    b := a.WithWord(id, level, 0, n);
    for i := 0 to n
      invariant Filled(a, b, id, level, ns[..n], i)
    {
      FillStep(a, b, id, level, ns[..n], i);
      b := b.WithWord(id, level, i + 1, ns[i]);
    }
    ListStored(b, id, level, ns[..n]);
  }

  /** The count word and the first i entries of the list are in place. */
  ghost predicate Filled(a: Arena, b: Arena, id: nat, level: nat, ns: seq<nat>, i: nat) {
    && OnlyBlock(a, b, id, level) && b.InBounds(id, level, b.Capacity(level))
    && i <= |ns| <= b.Capacity(level) && b.Word(id, level, 0) == |ns|
    && forall j: nat :: j < i ==> b.Word(id, level, j + 1) == ns[j]
  }

  lemma FillStep(a: Arena, b: Arena, id: nat, level: nat, ns: seq<nat>, i: nat)
    requires Filled(a, b, id, level, ns, i) && i < |ns| && ns[i] < TWO_32
    ensures Filled(a, b.WithWord(id, level, i + 1, ns[i]), id, level, ns, i + 1)
  {
    WriteInsideBlock(a, b, id, level, i + 1, ns[i]);
  }

  lemma ListStored(b: Arena, id: nat, level: nat, ns: seq<nat>)
    requires b.HasBlock(id, level) && b.Word(id, level, 0) == |ns|
    requires forall j: nat :: j < |ns| ==> b.Word(id, level, j + 1) == ns[j]
    ensures b.Links(id, level) == ns
  {
  }

  /** The in-place append to a block that still has room. */
  method AppendLink(a: Arena, id: nat, level: nat, x: U32) returns (b: Arena)
    requires a.HasBlock(id, level) && |a.Links(id, level)| < a.Capacity(level) < TWO_32
    ensures OnlyBlock(a, b, id, level) && b.HasBlock(id, level)
    ensures b.Links(id, level) == a.Links(id, level) + [x]
  {
    var deg := a.Word(id, level, 0);
    assert a.InBounds(id, level, deg + 1);
    WriteInsideBlock(a, a, id, level, deg + 1, x);
    var c := a.WithWord(id, level, deg + 1, x);
    WriteInsideBlock(a, c, id, level, 0, deg + 1);
    b := c.WithWord(id, level, 0, deg + 1);
    AppendedList(a, b, id, level, x);
  }

  lemma AppendedList(a: Arena, b: Arena, id: nat, level: nat, x: U32)
    requires a.HasBlock(id, level) && |a.Links(id, level)| < a.Capacity(level)
    requires b.HasBlock(id, level) && b.Word(id, level, 0) == a.Word(id, level, 0) + 1
    requires forall j: nat :: 1 <= j <= b.Word(id, level, 0) ==>
               b.Word(id, level, j) == if j <= a.Word(id, level, 0) then a.Word(id, level, j) else x
    ensures b.Links(id, level) == a.Links(id, level) + [x]
  {
  }
}
