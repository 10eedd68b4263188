/** The byte format of the write-ahead log. The checksum is any function of the payload. */
module WalFormat {
  import opened Bytes
  import opened KeyTable
  import opened Options

  const MAGIC: U32 := 0x57414C31
  const VERSION: U32 := 2
  const MAX_PAYLOAD: nat := 0x100_0000

  const OP_ADD: U8 := 1
  const OP_MARK_DELETED: U8 := 2
  const OP_UNMARK_DELETED: U8 := 3

  /** The longest vector whose payload the reader still accepts. */
  const MAX_DIM: nat := 4194298

  type Crc = seq<U8> -> U32

  datatype Record = Record(op: U8, key: Key, vector: Vector)

  predicate KnownOp(op: U8) {
    op == OP_ADD || op == OP_MARK_DELETED || op == OP_UNMARK_DELETED
  }

  /** What the encoder accepts: an Add has a vector, nothing else does. */
  predicate Encodable(r: Record) {
    (r.op == OP_ADD) == (r.vector != [])
  }

  function VectorBytes(v: Vector): (s: seq<U8>)
    ensures |s| == 4 * |v|
  {
    if v == [] then [] else LittleEndian(v[0], 4) + VectorBytes(v[1..])
  }

  /** op, client id, label, dimension (cut to 32 bits), vector. */
  function Payload(r: Record): (p: seq<U8>)
    ensures |p| == 21 + 4 * |r.vector|
  {
    [r.op] + LittleEndian(r.key.clientId, 8) + LittleEndian(r.key.labelId, 8)
    + LittleEndian(|r.vector| % TWO_32, 4) + VectorBytes(r.vector)
  }

  /** Length prefix (cut to 32 bits), payload, checksum. */
  function Frame(crc: Crc, p: seq<U8>): (s: seq<U8>)
    ensures |s| == 8 + |p|
  {
    LittleEndian(|p| % TWO_32, 4) + p + LittleEndian(crc(p), 4)
  }

  function Encode(crc: Crc, r: Record): (s: seq<U8>)
    ensures |s| == 29 + 4 * |r.vector|
  {
    Frame(crc, Payload(r))
  }

  type Writer = Record -> seq<U8>

  /** The record writer of a log with the given checksum. */
  function LogWriter(crc: Crc): Writer {
    r => Encode(crc, r)
  }

  function WriteAll(write: Writer, rs: seq<Record>): seq<U8> {
    if rs == [] then [] else write(rs[0]) + WriteAll(write, rs[1..])
  }

  function EncodeAll(crc: Crc, rs: seq<Record>): seq<U8> {
    WriteAll(LogWriter(crc), rs)
  }

  function ReadVector(s: seq<U8>): Vector {
    if |s| < 4 then [] else [ReadU32(s[..4])] + ReadVector(s[4..])
  }

  function Decode(p: seq<U8>): Option<Record> {
    if |p| < 21 then None
    else
      var dim := ReadU32(p[17..21]);
      if |p| != 21 + dim * 4 || !KnownOp(p[0]) then None
      else Some(Record(p[0], Key(ReadU64(p[1..9]), ReadU64(p[9..17])), ReadVector(p[21..])))
  }

  /** Reading one record at the front of s: the record and the bytes it took. */
  function ReadRecord(crc: Crc, s: seq<U8>): (r: Option<(Record, nat)>)
    ensures r.Some? ==> 29 <= r.value.1 <= |s| && r.value.1 <= MAX_PAYLOAD + 8
  {
    if |s| < 4 then None
    else
      var n := ReadU32(s[..4]);
      if n == 0 || n > MAX_PAYLOAD || |s| < 8 + n then None
      else
        var payload := s[4..4 + n];
        if crc(payload) != ReadU32(s[4 + n..8 + n]) then None
        else match Decode(payload)
          case None => None
          case Some(r) => Some((r, 8 + n))
  }

  /** Takes one record from the front of a byte string, with the number of bytes it took. */
  type Reader = seq<U8> -> Option<(Record, nat)>

  /** The record reader of a log with the given checksum. */
  function LogReader(crc: Crc): Reader {
    s => ReadRecord(crc, s)
  }

  /** Every record a reader gets from the front of s, and where the last one ends. */
  function ReadAll(read: Reader, s: seq<U8>): (r: (seq<Record>, nat))
    ensures r.1 <= |s|
    decreases |s|
  {
    match read(s)
    case None => ([], 0)
    case Some((r, n)) =>
      if 0 < n <= |s| then
        var rest := ReadAll(read, s[n..]);
        ([r] + rest.0, n + rest.1)
      else ([], 0)
  }

  /** A record the reader gives back as it was written. */
  predicate Fits(r: Record) {
    KnownOp(r.op) && |r.vector| <= MAX_DIM
  }

  lemma {:induction false} VectorRoundTrip(v: Vector)
    ensures ReadVector(VectorBytes(v)) == v
  {
    if v != [] {
      var s := VectorBytes(v);
      assert s[..4] == LittleEndian(v[0], 4) && s[4..] == VectorBytes(v[1..]);
      U32RoundTrip(v[0]);
      VectorRoundTrip(v[1..]);
      assert v == [v[0]] + v[1..];
    } else {
      assert VectorBytes(v) == [];
    }
  }

  lemma PayloadSlices(op: seq<U8>, client: seq<U8>, tag: seq<U8>, dim: seq<U8>, vector: seq<U8>)
    requires |op| == 1 && |client| == 8 && |tag| == 8 && |dim| == 4
    ensures var p := op + client + tag + dim + vector;
      p[0] == op[0] && p[1..9] == client && p[9..17] == tag && p[17..21] == dim && p[21..] == vector
  {
  }

  lemma PayloadRoundTrip(r: Record)
    requires KnownOp(r.op) && |r.vector| < TWO_32
    ensures Decode(Payload(r)) == Some(r)
  {
    PayloadSlices([r.op], LittleEndian(r.key.clientId, 8), LittleEndian(r.key.labelId, 8),
                  LittleEndian(|r.vector| % TWO_32, 4), VectorBytes(r.vector));
    U64RoundTrip(r.key.clientId);
    U64RoundTrip(r.key.labelId);
    U32RoundTrip(|r.vector| % TWO_32);
    VectorRoundTrip(r.vector);
    var p := Payload(r);
    assert ReadU32(p[17..21]) == |r.vector|;
    assert ReadU64(p[1..9]) == r.key.clientId && ReadU64(p[9..17]) == r.key.labelId;
  }

  /** The length prefix of a frame, wherever it stands and even if the rest is cut off. */
  lemma FrameLength(crc: Crc, p: seq<U8>, s: seq<U8>)
    requires |p| < TWO_32 && |s| >= 4 && s[..4] == Frame(crc, p)[..4]
    ensures ReadU32(s[..4]) == |p|
  {
    assert Frame(crc, p)[..4] == LittleEndian(|p|, 4);
    U32RoundTrip(|p|);
  }

  lemma FrameParts(crc: Crc, p: seq<U8>, rest: seq<U8>)
    ensures var s := Frame(crc, p) + rest;
      && s[..4] == Frame(crc, p)[..4]
      && s[4..4 + |p|] == p && ReadU32(s[4 + |p|..8 + |p|]) == crc(p)
  {
    var s := Frame(crc, p) + rest;
    assert s[4 + |p|..8 + |p|] == LittleEndian(crc(p), 4);
    U32RoundTrip(crc(p));
  }

  /** Reading a frame whose length the reader accepts is decoding its payload. */
  lemma FrameRead(crc: Crc, p: seq<U8>, rest: seq<U8>)
    requires 0 < |p| <= MAX_PAYLOAD
    ensures ReadRecord(crc, Frame(crc, p) + rest)
         == match Decode(p) { case None => None case Some(r) => Some((r, 8 + |p|)) }
  {
    FrameParts(crc, p, rest);
    FrameLength(crc, p, Frame(crc, p) + rest);
  }

  /** A frame that is too long, or cut short anywhere, is not read. */
  lemma FrameUnread(crc: Crc, p: seq<U8>, s: seq<U8>)
    requires |p| < TWO_32
    requires |s| >= 4 ==> s[..4] == Frame(crc, p)[..4]
    requires |p| > MAX_PAYLOAD || |s| < 8 + |p|
    ensures ReadRecord(crc, s) == None
  {
    if |s| >= 4 {
      FrameLength(crc, p, s);
    }
  }

  lemma ReadBack(crc: Crc, r: Record, rest: seq<U8>)
    requires Fits(r)
    ensures ReadRecord(crc, Encode(crc, r) + rest) == Some((r, |Encode(crc, r)|))
  {
    FrameRead(crc, Payload(r), rest);
    PayloadRoundTrip(r);
  }

  /** The codec's real bound: what was written is read back, with exactly its own bytes
      consumed, precisely when the op is known and the vector has at most 4194298 entries.
      The encoder enforces neither. */
  lemma CodecBound(crc: Crc, r: Record, rest: seq<U8>)
    ensures ReadRecord(crc, Encode(crc, r) + rest) == Some((r, |Encode(crc, r)|)) <==> Fits(r)
  {
    if Fits(r) {
      ReadBack(crc, r, rest);
    } else if KnownOp(r.op) {
      assert |Encode(crc, r)| > MAX_PAYLOAD + 8;
    } else {
      ReadOpsAreKnown(crc, Encode(crc, r) + rest);
    }
  }

  lemma ReadOpsAreKnown(crc: Crc, s: seq<U8>)
    ensures ReadRecord(crc, s).Some? ==> KnownOp(ReadRecord(crc, s).value.0.op)
  {
  }

  /** An over-long record is not read at all, whatever follows it. */
  lemma OversizeUnread(crc: Crc, r: Record, rest: seq<U8>)
    requires |r.vector| > MAX_DIM && |Payload(r)| < TWO_32
    ensures ReadRecord(crc, Encode(crc, r) + rest) == None
  {
    FrameParts(crc, Payload(r), rest);
    FrameUnread(crc, Payload(r), Encode(crc, r) + rest);
  }

  /** A record cut short anywhere is not read, for any checksum function: the length prefix
      alone gives it away. */
  lemma TornUnread(crc: Crc, r: Record, k: nat)
    requires k < |Encode(crc, r)| && |Payload(r)| < TWO_32
    ensures ReadRecord(crc, Encode(crc, r)[..k]) == None
  {
    var s := Encode(crc, r)[..k];
    assert k >= 4 ==> s[..4] == Encode(crc, r)[..4];
    FrameUnread(crc, Payload(r), s);
  }

  /** What the reader takes, byte by byte: a record and n bytes come back if and only if the first
      four bytes announce a payload of n - 8 bytes, neither empty nor longer than 2^24, all n bytes
      are there, the last four of them are the payload's checksum, and the payload decodes. */
  lemma ReadExactlyIf(crc: Crc, s: seq<U8>, r: Record, n: nat)
    ensures ReadRecord(crc, s) == Some((r, n))
       <==> 8 < n <= |s| && n - 8 <= 0x100_0000 && ReadU32(s[..4]) == n - 8
            && ReadU32(s[n - 4..n]) == crc(s[4..n - 4]) && Decode(s[4..n - 4]) == Some(r)
  {
  }

  /** A frame as it may be found in a file: a length, that many bytes, four bytes for the checksum. */
  function Found(p: seq<U8>, sum: U32): (s: seq<U8>)
    ensures |s| == 8 + |p|
  {
    LittleEndian(|p| % TWO_32, 4) + p + LittleEndian(sum, 4)
  }

  /** A frame of acceptable length is skipped over if and only if the stored checksum is that of its
      payload and the payload decodes; otherwise nothing is read, whatever follows. */
  lemma FoundUnreadIff(crc: Crc, p: seq<U8>, sum: U32, more: seq<U8>)
    requires 0 < |p| <= MAX_PAYLOAD
    ensures ReadRecord(crc, Found(p, sum) + more) == None <==> sum != crc(p) || Decode(p) == None
  {
    var s := Found(p, sum) + more;
    assert s[..4] == LittleEndian(|p|, 4) && s[4..4 + |p|] == p && s[4 + |p|..8 + |p|] == LittleEndian(sum, 4);
    U32RoundTrip(|p|);
    U32RoundTrip(sum);
  }

  /** Where every part of a written record stands. */
  lemma RecordLayout(crc: Crc, r: Record)
    ensures var s := Encode(crc, r);
      && ReadU32(s[..4]) == (21 + 4 * |r.vector|) % TWO_32 && s[4] == r.op
      && ReadU64(s[5..13]) == r.key.clientId && ReadU64(s[13..21]) == r.key.labelId
      && ReadU32(s[21..25]) == |r.vector| % TWO_32
      && (forall i :: 0 <= i < |r.vector| ==> ReadU32(s[25 + 4 * i..29 + 4 * i]) == r.vector[i])
      && ReadU32(s[|s| - 4..]) == crc(s[4..|s| - 4])
  {
    var s, p := Encode(crc, r), Payload(r);
    PayloadSlices([r.op], LittleEndian(r.key.clientId, 8), LittleEndian(r.key.labelId, 8),
                  LittleEndian(|r.vector| % TWO_32, 4), VectorBytes(r.vector));
    FrameSlices(s, LittleEndian(|p| % TWO_32, 4), p, LittleEndian(crc(p), 4));
    U32RoundTrip(|p| % TWO_32);
    U64RoundTrip(r.key.clientId);
    U64RoundTrip(r.key.labelId);
    U32RoundTrip(|r.vector| % TWO_32);
    U32RoundTrip(crc(p));
    forall i | 0 <= i < |r.vector| ensures ReadU32(s[25 + 4 * i..29 + 4 * i]) == r.vector[i] {
      ComponentAt(r.vector, i);
      PayloadWord(s, p, VectorBytes(r.vector), 4 * i);
    }
  }

  lemma PayloadWord(s: seq<U8>, p: seq<U8>, vector: seq<U8>, k: nat)
    requires |s| == |p| + 8 && s[4..|s| - 4] == p && |p| >= 21 && p[21..] == vector && k + 4 <= |vector|
    ensures s[25 + k..29 + k] == vector[k..k + 4]
  {
    var t, u := s[25 + k..29 + k], vector[k..k + 4];
    forall i | 0 <= i < 4 ensures t[i] == u[i] {
      assert t[i] == s[4..|s| - 4][21 + k + i] && u[i] == p[21..][k + i];
    }
  }

  lemma FrameSlices(s: seq<U8>, size: seq<U8>, p: seq<U8>, sum: seq<U8>)
    requires s == size + p + sum && |size| == |sum| == 4 && |p| >= 21
    ensures s[..4] == size && s[4..|s| - 4] == p && s[|s| - 4..] == sum
    ensures s[4] == p[0] && s[5..13] == p[1..9] && s[13..21] == p[9..17] && s[21..25] == p[17..21]
  {
  }

  lemma {:induction false} ComponentAt(v: Vector, i: nat)
    requires i < |v|
    ensures ReadU32(VectorBytes(v)[4 * i..4 * i + 4]) == v[i]
  {
    var s, first := VectorBytes(v), LittleEndian(v[0], 4);
    assert s == first + VectorBytes(v[1..]);
    if i == 0 {
      assert s[0..4] == first;
      U32RoundTrip(v[0]);
    } else {
      ComponentAt(v[1..], i - 1);
      assert s[4 * i..4 * i + 4] == VectorBytes(v[1..])[4 * (i - 1)..4 * (i - 1) + 4];
    }
  }

  /** The reader undoes the writer on r, whatever follows. */
  ghost predicate Undoes(read: Reader, write: Writer, r: Record) {
    write(r) != [] && forall rest :: read(write(r) + rest) == Some((r, |write(r)|))
  }

  lemma LogReaderUndoes(crc: Crc, r: Record)
    requires Fits(r)
    ensures Undoes(LogReader(crc), LogWriter(crc), r)
  {
    forall rest ensures ReadRecord(crc, Encode(crc, r) + rest) == Some((r, |Encode(crc, r)|)) {
      ReadBack(crc, r, rest);
    }
  }

  /** Complete records followed by something unreadable: exactly the records come back, and
      the offset where they end. */
  lemma {:induction false} ReadAllWritten(read: Reader, write: Writer, rs: seq<Record>, tail: seq<U8>)
    requires forall r :: r in rs ==> Undoes(read, write, r)
    requires read(tail) == None
    ensures ReadAll(read, WriteAll(write, rs) + tail) == (rs, |WriteAll(write, rs)|)
    decreases |rs|
  {
    if rs == [] {
      assert WriteAll(write, rs) + tail == tail;
    } else {
      var others := WriteAll(write, rs[1..]) + tail;
      assert Undoes(read, write, rs[0]);
      ReadAllWritten(read, write, rs[1..], tail);
      ReadAllCons(read, write(rs[0]), rs[0], others);
      Regroup(write(rs[0]), WriteAll(write, rs[1..]), tail);
      assert rs == [rs[0]] + rs[1..];
    }
  }

  lemma ReadAllComplete(crc: Crc, rs: seq<Record>, tail: seq<U8>)
    requires forall r :: r in rs ==> Fits(r)
    requires ReadRecord(crc, tail) == None
    ensures ReadAll(LogReader(crc), EncodeAll(crc, rs) + tail) == (rs, |EncodeAll(crc, rs)|)
  {
    forall r | r in rs ensures Undoes(LogReader(crc), LogWriter(crc), r) {
      LogReaderUndoes(crc, r);
    }
    ReadAllWritten(LogReader(crc), LogWriter(crc), rs, tail);
  }

  lemma ReadAllCons(read: Reader, first: seq<U8>, r: Record, others: seq<U8>)
    requires read(first + others) == Some((r, |first|)) && first != []
    ensures ReadAll(read, first + others) == ([r] + ReadAll(read, others).0, |first| + ReadAll(read, others).1)
  {
    assert (first + others)[|first|..] == others;
  }

  lemma {:induction false} WriteAllConcat(write: Writer, a: seq<Record>, b: seq<Record>)
    ensures WriteAll(write, a + b) == WriteAll(write, a) + WriteAll(write, b)
    decreases |a|
  {
    if a == [] {
      assert a + b == b;
    } else {
      assert (a + b)[1..] == a[1..] + b;
      WriteAllConcat(write, a[1..], b);
    }
  }

  /** File header. */
  function Header(): (h: seq<U8>)
    ensures |h| == 8
  {
    LittleEndian(MAGIC, 4) + LittleEndian(VERSION, 4)
  }

  /** Replay, without the callback: a missing or foreign header is an error; otherwise the
      readable records and the offset to truncate to. */
  datatype Scan = BadHeader | Scanned(records: seq<Record>, offset: nat)

  function ScanFile(crc: Crc, file: seq<U8>): Scan {
    if |file| < 8 || ReadU32(file[..4]) != MAGIC || ReadU32(file[4..8]) != VERSION then BadHeader
    else
      var (rs, n) := ReadAll(LogReader(crc), file[8..]);
      Scanned(rs, 8 + n)
  }

  /** A log file holding exactly these records. */
  function LogFile(crc: Crc, rs: seq<Record>): seq<U8> {
    Header() + EncodeAll(crc, rs)
  }

  lemma HeaderRead()
    ensures ReadU32(Header()[..4]) == MAGIC && ReadU32(Header()[4..8]) == VERSION
  {
    assert Header()[..4] == LittleEndian(MAGIC, 4) && Header()[4..8] == LittleEndian(VERSION, 4);
    U32RoundTrip(MAGIC);
    U32RoundTrip(VERSION);
  }

  /** Torn-tail recovery: complete records and a torn one, or nothing, after them. */
  lemma ScanTorn(crc: Crc, rs: seq<Record>, tail: seq<U8>)
    requires forall r :: r in rs ==> Fits(r)
    requires ReadRecord(crc, tail) == None
    ensures ScanFile(crc, LogFile(crc, rs) + tail) == Scanned(rs, |LogFile(crc, rs)|)
    ensures (LogFile(crc, rs) + tail)[..|LogFile(crc, rs)|] == LogFile(crc, rs)
  {
    Regroup(Header(), EncodeAll(crc, rs), tail);
    ScanBody(crc, EncodeAll(crc, rs) + tail);
    ReadAllComplete(crc, rs, tail);
  }

  lemma ScanBody(crc: Crc, body: seq<U8>)
    ensures ScanFile(crc, Header() + body)
         == Scanned(ReadAll(LogReader(crc), body).0, 8 + ReadAll(LogReader(crc), body).1)
  {
    var file := Header() + body;
    HeaderRead();
    assert file[..4] == Header()[..4] && file[4..8] == Header()[4..8];
    assert file[8..] == body;
  }

  /** The eight bytes every log starts with. */
  lemma HeaderBytes()
    ensures Header() == [0x31, 0x4C, 0x41, 0x57, 2, 0, 0, 0]
  {
    FourBytes(MAGIC, 0x31, 0x4C, 0x41, 0x57);
    FourBytes(VERSION, 2, 0, 0, 0);
  }

  lemma FourBytes(x: nat, a: U8, b: U8, c: U8, d: U8)
    requires x == a + 256 * (b + 256 * (c + 256 * d))
    ensures LittleEndian(x, 4) == [a, b, c, d]
  {
    LastByte(d);
    assert LittleEndian(c + 256 * d, 2) == [c, d];
    assert LittleEndian(b + 256 * (c + 256 * d), 3) == [b, c, d];
  }

  lemma LastByte(d: U8)
    ensures LittleEndian(d, 1) == [d]
  {
    assert LittleEndian(d / 256, 0) == [];
  }

  /** Damage in the middle of a log: complete records, a frame of acceptable length, then anything.
      The scan ends where the complete records end if and only if the stored checksum is not that
      of the frame's payload, or the payload does not decode. */
  lemma DamageStopsScan(crc: Crc, rs: seq<Record>, p: seq<U8>, sum: U32, more: seq<U8>)
    requires (forall r :: r in rs ==> Fits(r)) && 0 < |p| <= MAX_PAYLOAD
    ensures ScanFile(crc, LogFile(crc, rs) + (Found(p, sum) + more)) == Scanned(rs, |LogFile(crc, rs)|)
       <==> sum != crc(p) || Decode(p) == None
  {
    var tail := Found(p, sum) + more;
    FoundUnreadIff(crc, p, sum, more);
    if ReadRecord(crc, tail) == None {
      ScanTorn(crc, rs, tail);
    } else {
      var read, write := LogReader(crc), LogWriter(crc);
      Regroup(Header(), EncodeAll(crc, rs), tail);
      ScanBody(crc, EncodeAll(crc, rs) + tail);
      forall r | r in rs ensures Undoes(read, write, r) {
        LogReaderUndoes(crc, r);
      }
      ReadsOn(read, write, rs, tail);
    }
  }

  /** If more can be read after the written records, the scan goes on. */
  lemma {:induction false} ReadsOn(read: Reader, write: Writer, rs: seq<Record>, tail: seq<U8>)
    requires forall r :: r in rs ==> Undoes(read, write, r)
    requires read(tail).Some? && 0 < read(tail).value.1 <= |tail|
    ensures ReadAll(read, WriteAll(write, rs) + tail).1 > |WriteAll(write, rs)|
    decreases |rs|
  {
    if rs == [] {
      assert WriteAll(write, rs) + tail == tail;
    } else {
      assert Undoes(read, write, rs[0]);
      ReadsOn(read, write, rs[1..], tail);
      ReadAllCons(read, write(rs[0]), rs[0], WriteAll(write, rs[1..]) + tail);
      Regroup(write(rs[0]), WriteAll(write, rs[1..]), tail);
    }
  }

  /** One life of the log: records appended in full, then a record torn after `cut` bytes. */
  datatype Life = Life(appended: seq<Record>, torn: Record, cut: nat)

  predicate LifeOk(l: Life) {
    && (forall r :: r in l.appended ==> Fits(r))
    && |Payload(l.torn)| < TWO_32 && l.cut < 8 + |Payload(l.torn)|
  }

  /** What a crash in the middle of an append leaves in the file. */
  function Torn(crc: Crc, l: Life): (left: seq<U8>)
    ensures left <= Encode(crc, l.torn) && (l.cut <= 29 + 4 * |l.torn.vector| ==> |left| == l.cut)
  {
    if l.cut < |Encode(crc, l.torn)| then Encode(crc, l.torn)[..l.cut] else Encode(crc, l.torn)
  }

  /** Reopening: scan and truncate to where the last readable record ends. */
  function Reopened(crc: Crc, file: seq<U8>): seq<U8> {
    match ScanFile(crc, file)
    case BadHeader => file
    case Scanned(_, offset) => if offset <= |file| then file[..offset] else file
  }

  /** The file after any number of lives, each followed by a reopening. */
  function AfterLives(crc: Crc, file: seq<U8>, lives: seq<Life>): seq<U8>
    decreases |lives|
  {
    if lives == [] then file
    else
      var left := file + EncodeAll(crc, lives[0].appended) + Torn(crc, lives[0]);
      AfterLives(crc, Reopened(crc, left), lives[1..])
  }

  function AllAppended(lives: seq<Life>): seq<Record> {
    if lives == [] then [] else lives[0].appended + AllAppended(lives[1..])
  }

  lemma OneLife(crc: Crc, rs: seq<Record>, l: Life)
    requires (forall r :: r in rs ==> Fits(r)) && LifeOk(l)
    ensures Reopened(crc, LogFile(crc, rs) + EncodeAll(crc, l.appended) + Torn(crc, l)) == LogFile(crc, rs + l.appended)
  {
    WriteAllConcat(LogWriter(crc), rs, l.appended);
    Regroup(Header(), EncodeAll(crc, rs), EncodeAll(crc, l.appended));
    TornUnread(crc, l.torn, l.cut);
    ScanTorn(crc, rs + l.appended, Torn(crc, l));
  }

  /** Over any number of crashes, each in the middle of an append, the file holds exactly the
      records that were appended in full. */
  lemma {:induction false} CrashCycles(crc: Crc, rs: seq<Record>, lives: seq<Life>)
    requires forall r :: r in rs ==> Fits(r)
    requires forall l :: l in lives ==> LifeOk(l)
    ensures AfterLives(crc, LogFile(crc, rs), lives) == LogFile(crc, rs + AllAppended(lives))
    decreases |lives|
  {
    if lives == [] {
      assert rs + AllAppended(lives) == rs;
    } else {
      var rs' := rs + lives[0].appended;
      AppendedRegroup(rs, lives);
      OneLife(crc, rs, lives[0]);
      CrashCycles(crc, rs', lives[1..]);
    }
  }

  lemma AppendedRegroup(rs: seq<Record>, lives: seq<Life>)
    requires lives != [] && (forall r :: r in rs ==> Fits(r)) && forall l :: l in lives ==> LifeOk(l)
    ensures rs + AllAppended(lives) == (rs + lives[0].appended) + AllAppended(lives[1..])
    ensures LifeOk(lives[0]) && forall r :: r in rs + lives[0].appended ==> Fits(r)
    ensures forall l :: l in lives[1..] ==> LifeOk(l)
  {
    assert LifeOk(lives[0]);
  }
}
