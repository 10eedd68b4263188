/** The log's code: filling and reading buffers, appending, scanning, reopening. */
module WalFile {
  import opened Bytes
  import opened KeyTable
  import opened Options
  import opened WalFormat

  /** PutUint32, PutUint64 and copy: bytes written into a buffer at an offset. */
  method Put(buf: array<U8>, off: nat, bytes: seq<U8>)
    requires off + |bytes| <= buf.Length
    modifies buf
    ensures buf[..] == old(buf[..off]) + bytes + old(buf[off + |bytes|..])
  {
    for i := 0 to |bytes|
      invariant buf[..] == old(buf[..off]) + bytes[..i] + old(buf[off + i..])
    {
      buf[off + i] := bytes[i];
    }
    assert bytes[..|bytes|] == bytes;
  }

  lemma {:induction false} VectorBytesConcat(v: Vector, w: Vector)
    ensures VectorBytes(v + w) == VectorBytes(v) + VectorBytes(w)
    decreases |v|
  {
    if v == [] {
      assert v + w == w;
    } else {
      assert (v + w)[1..] == v[1..] + w;
      VectorBytesConcat(v[1..], w);
    }
  }

  /** The encoder's loop over the vector: component i goes to offset 4 * i. */
  method FillVector(v: Vector) returns (out: seq<U8>)
    ensures out == VectorBytes(v)
  {
    var buf := new U8[4 * |v|];
    for i := 0 to |v|
      invariant buf[..4 * i] == VectorBytes(v[..i])
    {
      Put(buf, 4 * i, LittleEndian(v[i], 4));
      VectorBytesConcat(v[..i], [v[i]]);
      assert v[..i + 1] == v[..i] + [v[i]];
      assert VectorBytes([v[i]]) == LittleEndian(v[i], 4);
      assert buf[..4 * (i + 1)] == buf[..][..4 * (i + 1)];
    }
    out := buf[..];
    assert v[..|v|] == v;
  }

  /** encode: refuses an Add without a vector and anything else with one. */
  method EncodeRecord(crc: Crc, r: Record) returns (out: Option<seq<U8>>)
    ensures out == if Encodable(r) then Some(Encode(crc, r)) else None
  {
    if r.op == OP_ADD && |r.vector| == 0 {
      return None;
    }
    if r.op != OP_ADD && |r.vector| != 0 {
      return None;
    }
    var dim := |r.vector|;
    var n := 1 + 8 + 8 + 4 + dim * 4;
    var vec := FillVector(r.vector);
    var p := [r.op] + LittleEndian(r.key.clientId, 8) + LittleEndian(r.key.labelId, 8)
             + LittleEndian(dim % TWO_32, 4) + vec;
    return Some(LittleEndian(n % TWO_32, 4) + p + LittleEndian(crc(p), 4));
  }

  /** decode, with its loop over the vector. */
  method DecodePayload(p: seq<U8>) returns (r: Option<Record>)
    ensures r == Decode(p)
  {
    if |p| < 21 {
      return None;
    }
    var dim: nat := ReadU32(p[17..21]);
    if |p| != 21 + dim * 4 || !KnownOp(p[0]) {
      return None;
    }
    var vec: Vector := [];
    for i := 0 to dim
      invariant vec + ReadVector(p[21 + 4 * i..]) == ReadVector(p[21..])
    {
      var rest := p[21 + 4 * i..];
      assert rest[4..] == p[21 + 4 * (i + 1)..];
      vec := vec + [ReadU32(rest[..4])];
    }
    assert p[21 + 4 * dim..] == [] && vec + [] == vec;
    return Some(Record(p[0], Key(ReadU64(p[1..9]), ReadU64(p[9..17])), vec));
  }

  /** Replay's reading loop: records until one cannot be read. */
  method ScanLog(crc: Crc, file: seq<U8>) returns (s: Scan)
    ensures s == ScanFile(crc, file)
  {
    if |file| < 8 || ReadU32(file[..4]) != MAGIC || ReadU32(file[4..8]) != VERSION {
      return BadHeader;
    }
    var records, offset := ReadRecords(LogReader(crc), file[8..]);
    return Scanned(records, 8 + offset);
  }

  method ReadRecords(read: Reader, s: seq<U8>) returns (records: seq<Record>, offset: nat)
    ensures (records, offset) == ReadAll(read, s)
  {
    records, offset := [], 0;
    assert s[0..] == s;
    while true
      invariant offset <= |s|
      invariant records + ReadAll(read, s[offset..]).0 == ReadAll(read, s).0
      invariant offset + ReadAll(read, s[offset..]).1 == ReadAll(read, s).1
      decreases |s| - offset
    {
      var next := read(s[offset..]);
      if next.None? || next.value.1 == 0 || offset + next.value.1 > |s| {
        assert ReadAll(read, s[offset..]) == ([], 0) && records + [] == records;
        break;
      }
      assert s[offset..][next.value.1..] == s[offset + next.value.1..];
      records := records + [next.value.0];
      offset := offset + next.value.1;
    }
  }

  /** A file set to n bytes: cut, or extended with zeros. */
  function Truncated(file: seq<U8>, n: nat): (r: seq<U8>)
    ensures |r| == n
    ensures forall i :: 0 <= i < n ==> r[i] == if i < |file| then file[i] else 0
  {
    if n <= |file| then file[..n] else file + seq(n - |file|, _ => 0)
  }

  /** An open log file. */
  class Wal {
    const crc: Crc
    var file: seq<U8>

    /** Create: a new file with a header. */
    constructor Create(crc: Crc)
      ensures this.crc == crc && file == LogFile(crc, [])
    {
      this.crc := crc;
      file := LittleEndian(MAGIC, 4) + LittleEndian(VERSION, 4);
    }

    /** OpenForAppend: an existing file, cut or padded with zeros to truncateTo bytes unless that is
        negative. */
    constructor OpenForAppend(crc: Crc, existing: seq<U8>, truncateTo: int)
      ensures this.crc == crc && file == if truncateTo >= 0 then Truncated(existing, truncateTo) else existing
    {
      this.crc := crc;
      file := if truncateTo >= 0 then Truncated(existing, truncateTo) else existing;
    }

    /** Append: all bytes of the record, or nothing if the record is refused. */
    method Append(r: Record) returns (ok: bool)
      modifies this
      ensures ok == Encodable(r)
      ensures file == if ok then old(file) + Encode(crc, r) else old(file)
      ensures forall rs :: old(file) == LogFile(crc, rs) && ok ==> file == LogFile(crc, rs + [r])
    {
      var buf := EncodeRecord(crc, r);
      if buf.None? {
        return false;
      }
      file := file + buf.value;
      forall rs | old(file) == LogFile(crc, rs) ensures file == LogFile(crc, rs + [r]) {
        LogGrows(crc, rs, r);
      }
      return true;
    }
  }

  lemma LogGrows(crc: Crc, rs: seq<Record>, r: Record)
    ensures LogFile(crc, rs + [r]) == LogFile(crc, rs) + Encode(crc, r)
  {
    WriteAllConcat(LogWriter(crc), rs, [r]);
    assert WriteAll(LogWriter(crc), [r]) == Encode(crc, r) + [];
    Regroup(Header(), EncodeAll(crc, rs), Encode(crc, r));
  }

  /** Recovery of a log after a crash in the middle of an append: scan, cut the torn tail,
      and go on appending. */
  method Recover(crc: Crc, file: seq<U8>, ghost rs: seq<Record>, ghost tail: seq<U8>) returns (w: Wal, records: seq<Record>)
    requires file == LogFile(crc, rs) + tail && ReadRecord(crc, tail) == None
    requires forall r :: r in rs ==> Fits(r)
    ensures fresh(w) && w.crc == crc && w.file == LogFile(crc, rs) && records == rs
  {
    var s := ScanLog(crc, file);
    ScanTorn(crc, rs, tail);
    w := new Wal.OpenForAppend(crc, file, s.offset);
    records := s.records;
  }
}
