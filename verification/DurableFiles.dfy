/** Open over the actual files: the snapshot's bytes are loaded into a real index and the log's bytes
    replayed into it. */
module DurableFiles {
  import opened Bytes
  import opened KeyTable
  import opened Options
  import opened WalFormat
  import opened WalFile
  import opened Replay
  import opened VisitedLists
  import opened HnswIndex
  import opened SnapshotFormat
  import opened IndexSnapshot

  /** A record as the index stores it. */
  function Prepared(metric: Metric, r: Record): Record {
    r.(vector := metric.prepare(r.vector))
  }

  function PreparedAll(metric: Metric, rs: seq<Record>): seq<Record> {
    seq(|rs|, i requires 0 <= i < |rs| => Prepared(metric, rs[i]))
  }

  /** An Add, with a duplicate tolerated. */
  method AddTo(index: Index, visited: VisitedList, k: Key, v: Vector, level: nat) returns (ok: bool)
    requires index.Valid() && |v| == index.dim
    requires visited.Valid() && visited.marks.Length == index.maxElements
    modifies index, visited, visited.marks
    ensures index.Valid() && visited.Valid()
    ensures index.Contents() == Add(old(index.Contents()), k, index.metric.prepare(v)).table
    ensures ok <==> Add(old(index.Contents()), k, index.metric.prepare(v)).outcome != Full
  {
    var added := index.AddPoint(visited, v, k, level);
    ok := !added.IndexFull?;
  }

  /** apply on the real index; the random level is an argument. */
  method ApplyTo(index: Index, visited: VisitedList, r: Record, level: nat) returns (ok: bool)
    requires index.Valid() && KnownOp(r.op)
    requires visited.Valid() && visited.marks.Length == index.maxElements
    modifies index, visited, visited.marks
    ensures index.Valid() && visited.Valid()
    ensures ok <==> ApplyRecord(old(index.Contents()), Prepared(index.metric, r)).Some?
    ensures ok ==> Some(index.Contents()) == ApplyRecord(old(index.Contents()), Prepared(index.metric, r))
  {
    if r.op == OP_ADD {
      if |r.vector| != index.dim {
        return false;
      }
      ok := AddTo(index, visited, r.key, r.vector, level);
    } else if r.op == OP_MARK_DELETED {
      var marked := index.MarkDeleted(r.key);
      ok := true;
    } else {
      var unmarked := index.UnmarkDeleted(r.key);
      ok := true;
    }
  }

  /** Replay into the real index, stopping at the first record it refuses. */
  method ReplayTo(index: Index, visited: VisitedList, rs: seq<Record>, levels: nat -> nat) returns (ok: bool)
    requires index.Valid() && OpsKnown(rs)
    requires visited.Valid() && visited.marks.Length == index.maxElements
    modifies index, visited, visited.marks
    ensures index.Valid() && visited.Valid()
    ensures ok <==> ApplyAll(old(index.Contents()), PreparedAll(index.metric, rs)).Some?
    ensures ok ==> Some(index.Contents()) == ApplyAll(old(index.Contents()), PreparedAll(index.metric, rs))
  {
    ghost var start, all := index.Contents(), PreparedAll(index.metric, rs);
    assert all[0..] == all;
    for i := 0 to |rs|
      invariant index.Valid() && visited.Valid()
      invariant ApplyAll(start, all) == ApplyAll(index.Contents(), all[i..])
    {
      assert rs[i] in rs && all[i..][0] == Prepared(index.metric, rs[i]) && all[i..][1..] == all[i + 1..];
      var done := ApplyTo(index, visited, rs[i], levels(i));
      if !done {
        return false;
      }
    }
    assert all[|rs|..] == [];
    return true;
  }

  /** What the files hold, as a table: the saved contents with the log replayed over them. */
  ghost function OpenContents(crc: Crc, metric: Metric, base: Table, wal: Option<seq<U8>>): Option<Table> {
    match wal
    case None => Some(base)
    case Some(file) =>
      match ScanFile(crc, file)
      case BadHeader => None
      case Scanned(rs, _) => ApplyAll(base, PreparedAll(metric, rs))
  }

  /** loadOrCreateIndex from a file that save wrote, or without a file. `saved` is the index that was
      saved. */
  method LoadSaved(file: seq<U8>, spaces: Spaces, ghost saved: Index, ghost h: Header, ghost space: U32) returns (index: Index)
    requires saved.Valid() && Storable(saved) && IsHeader(h, saved, space) && spaces(space) == saved.metric
    requires Deserialize(file) == Loaded(h, BodyFor(saved.nodes, saved.graph))
    requires forall space: U32, v: Vector :: |spaces(space).prepare(v)| == |v|
    ensures fresh(index) && index.Valid() && index.Contents() == saved.Contents() && index.metric == saved.metric
  {
    var r := Load(file, spaces);
    index := r.index;
    FilledIsCopy(saved, index, h, space, spaces);
  }

  /** The log replayed into the index that was loaded or created. */
  method ReplayFile(index: Index, crc: Crc, wal: Option<seq<U8>>, levels: nat -> nat) returns (ok: bool)
    requires index.Valid()
    modifies index
    ensures index.Valid()
    ensures ok <==> OpenContents(crc, index.metric, old(index.Contents()), wal).Some?
    ensures ok ==> Some(index.Contents()) == OpenContents(crc, index.metric, old(index.Contents()), wal)
  {
    if wal.None? {
      return true;
    }
    var scan := ScanLog(crc, wal.value);
    if scan.BadHeader? {
      return false;
    }
    ReadOpsKnown(crc, wal.value[8..]);
    var visited := new VisitedList(index.maxElements);
    ok := ReplayTo(index, visited, scan.records, levels);
  }

  /** Open from a snapshot file and a log file: a valid index whose contents are the saved ones with
      the log replayed over them, or nothing if the replay fails. */
  method OpenFiles(file: seq<U8>, wal: Option<seq<U8>>, crc: Crc, spaces: Spaces, levels: nat -> nat,
                   ghost saved: Index, ghost h: Header, ghost space: U32) returns (r: Option<Index>)
    requires saved.Valid() && Storable(saved) && IsHeader(h, saved, space) && spaces(space) == saved.metric
    requires Deserialize(file) == Loaded(h, BodyFor(saved.nodes, saved.graph))
    requires forall space: U32, v: Vector :: |spaces(space).prepare(v)| == |v|
    ensures r.Some? <==> OpenContents(crc, saved.metric, saved.Contents(), wal).Some?
    ensures r.Some? ==> fresh(r.value) && r.value.Valid()
                        && Some(r.value.Contents()) == OpenContents(crc, saved.metric, saved.Contents(), wal)
  {
    ghost var base := saved.Contents();
    var index := LoadSaved(file, spaces, saved, h, space);
    var ok := ReplayOnto(index, crc, wal, levels, base, saved.metric);
    r := if ok then Some(index) else None;
    assert saved.Contents() == base;
  }

  method ReplayOnto(index: Index, crc: Crc, wal: Option<seq<U8>>, levels: nat -> nat, ghost base: Table, ghost metric: Metric)
    returns (ok: bool)
    requires index.Valid() && index.Contents() == base && index.metric == metric
    modifies index
    ensures index.Valid() && (ok <==> OpenContents(crc, metric, base, wal).Some?)
    ensures ok ==> Some(index.Contents()) == OpenContents(crc, metric, base, wal)
  {
    ok := ReplayFile(index, crc, wal, levels);
  }

  method SavedFile(saved: Index, space: U32) returns (file: seq<U8>, ghost h: Header)
    requires saved.Valid() && Storable(saved)
    ensures IsHeader(h, saved, space) && Deserialize(file) == Loaded(h, BodyFor(saved.nodes, saved.graph))
  {
    file, h := Save(saved, space);
  }

  /** Save, then log and die, then Open: from the bytes the code writes to the index it comes back with. */
  method SaveThenOpen(saved: Index, space: U32, spaces: Spaces, crc: Crc, rs: seq<Record>, tail: seq<U8>, levels: nat -> nat)
    returns (r: Option<Index>)
    requires saved.Valid() && Storable(saved) && spaces(space) == saved.metric
    requires forall space: U32, v: Vector :: |spaces(space).prepare(v)| == |v|
    requires (forall r :: r in rs ==> WalFormat.Fits(r)) && ReadRecord(crc, tail) == None
    ensures r.Some? <==> ApplyAll(saved.Contents(), PreparedAll(saved.metric, rs)).Some?
    ensures r.Some? ==> fresh(r.value) && r.value.Valid()
                        && Some(r.value.Contents()) == ApplyAll(saved.Contents(), PreparedAll(saved.metric, rs))
  {
    var file, h := SavedFile(saved, space);
    ScanTorn(crc, rs, tail);
    r := OpenFiles(file, Some(LogFile(crc, rs) + tail), crc, spaces, levels, saved, h, space);
  }
}
