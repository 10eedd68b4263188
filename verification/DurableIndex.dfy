/** The durable index's methods, as sequential code over the index and its files. Each call
    is a run of the step system, so the recovery theorems speak about it. */
module DurableIndex {
  import opened KeyTable
  import opened Options
  import opened WalFormat
  import opened WalFile
  import opened Replay
  import opened Durable

  /** Replay with apply as its callback: stops at the first record the index refuses. */
  method ReplayInto(t: Table, rs: seq<Record>) returns (r: Option<Table>)
    ensures r == ApplyAll(t, rs)
  {
    var cur := t;
    for i := 0 to |rs|
      invariant ApplyAll(t, rs) == ApplyAll(cur, rs[i..])
    {
      assert rs[i..][1..] == rs[i + 1..];
      var next := ApplyRecord(cur, rs[i]);
      if next.None? {
        return None;
      }
      cur := next.value;
    }
    assert rs[|rs|..] == [];
    return Some(cur);
  }

  class Index {
    const cfg: Config
    var disk: Disk
    var table: Table
    ghost var acked: set<(Key, Vector)>
    ghost var hist: seq<Record>
    ghost var logStart: nat
    ghost var snapAt: nat

    ghost predicate Valid()
      reads this
    {
      disk.wal.Some?
    }

    /** The step system's state between two calls. */
    ghost function View(): State
      reads this
    {
      State(disk, Some(Process(table, map[], Idle)), acked, hist, logStart, snapAt)
    }

    constructor (cfg: Config, start: State)
      requires start.mem.Some? && start.mem.value.inFlight == map[] && start.mem.value.phase == Idle
      requires start.disk.wal.Some?
      ensures Valid() && this.cfg == cfg && View() == start
    {
      this.cfg := cfg;
      disk, table := start.disk, start.mem.value.table;
      acked, hist, logStart, snapAt := start.acked, start.hist, start.logStart, start.snapAt;
    }

    /** Logs the record, then applies it; a record the encoder refuses is not written. */
    method Submit(r: Record) returns (o: Option<Outcome>)
      requires Valid()
      modifies this
      ensures Valid()
      ensures View() == Exec(cfg, old(View()), [Append(0, r), Apply(0)])
      ensures o == if Encodable(r) then Some(Effect(old(table), r).outcome) else None
    {
      var buf := EncodeRecord(cfg.crc, r);
      TwoSteps(cfg, View(), Append(0, r), Apply(0));
      if buf.None? {
        return None;
      }
      disk := disk.(wal := Some(disk.wal.value + buf.value));
      hist := hist + [r];
      var reply := Effect(table, r);
      table := reply.table;
      if r.op == OP_ADD && reply.outcome == Ok {
        acked := acked + {(r.key, r.vector)};
      }
      assert map[0 := r] - {0} == map[];
      return Some(reply.outcome);
    }

    method Add(k: Key, v: Vector) returns (o: Option<Outcome>)
      requires Valid()
      modifies this
      ensures Valid()
      ensures View() == Exec(cfg, old(View()), [Append(0, Record(OP_ADD, k, v)), Apply(0)])
      ensures o == if v == [] then None else Some(KeyTable.Add(old(table), k, v).outcome)
    {
      o := Submit(Record(OP_ADD, k, v));
    }

    method MarkDeleted(k: Key) returns (o: Outcome)
      requires Valid()
      modifies this
      ensures Valid()
      ensures View() == Exec(cfg, old(View()), [Append(0, Record(OP_MARK_DELETED, k, [])), Apply(0)])
      ensures o == SetDeleted(old(table), k, true).outcome
    {
      var r := Submit(Record(OP_MARK_DELETED, k, []));
      o := r.value;
    }

    method UnmarkDeleted(k: Key) returns (o: Outcome)
      requires Valid()
      modifies this
      ensures Valid()
      ensures View() == Exec(cfg, old(View()), [Append(0, Record(OP_UNMARK_DELETED, k, [])), Apply(0)])
      ensures o == SetDeleted(old(table), k, false).outcome
    {
      var r := Submit(Record(OP_UNMARK_DELETED, k, []));
      o := r.value;
    }

    /** Save to the temporary file, rename it into place, create a new log and rename it into
        place. Creating the log fails if a crashed snapshot left its file behind; the new
        snapshot is in place then, and the old log stays. */
    method Snapshot() returns (ok: bool)
      requires Valid()
      modifies this
      ensures Valid() && table == old(table)
      ensures ok == old(disk.walNew).None?
      ensures View() == Exec(cfg, old(View()), SnapshotCall())
      ensures disk.snapshot == Some(table) && disk.wal == if ok then Some(LogFile(cfg.crc, [])) else old(disk.wal)
    {
      SnapshotRun(cfg, View(), table);
      disk := disk.(tmp := Part);
      disk := disk.(tmp := Whole(table));
      disk := disk.(snapshot := Some(disk.tmp.table), tmp := NoTmp);
      snapAt := |hist|;
      if disk.walNew.Some? {
        return false;
      }
      disk := disk.(walNew := Some(LogFile(cfg.crc, [])));
      disk := disk.(wal := disk.walNew, walNew := None);
      logStart := |hist|;
      return true;
    }
  }

  function SnapshotCall(): seq<Event> {
    [LockForSnapshot, BeginSave, EndSave, RenameSnapshot, CreateLog, RotateLog, EndSnapshot]
  }

  lemma TwoSteps(cfg: Config, s: State, a: Event, b: Event)
    ensures Exec(cfg, s, [a, b]) == Next(cfg, Next(cfg, s, a), b)
  {
    assert [a, b][1..] == [b] && [b][1..] == [];
    assert Exec(cfg, Next(cfg, s, a), [b]) == Exec(cfg, Next(cfg, Next(cfg, s, a), b), []);
  }

  lemma ExecConcat(cfg: Config, s: State, a: seq<Event>, b: seq<Event>)
    ensures Exec(cfg, s, a + b) == Exec(cfg, Exec(cfg, s, a), b)
    decreases |a|
  {
    if a == [] {
      assert a + b == b;
    } else {
      assert (a + b)[1..] == a[1..] + b;
      ExecConcat(cfg, Next(cfg, s, a[0]), a[1..], b);
    }
  }

  function SaveSteps(): seq<Event> {
    [LockForSnapshot, BeginSave] + [EndSave, RenameSnapshot]
  }

  function RotateSteps(): seq<Event> {
    [CreateLog, RotateLog] + [EndSnapshot]
  }

  /** The new snapshot put in place. */
  function Snapshotted(s: State, t: Table): State {
    s.(disk := s.disk.(snapshot := Some(t), tmp := NoTmp), snapAt := |s.hist|)
  }

  lemma SaveRun(cfg: Config, s: State, p: Process)
    requires s.mem == Some(p) && p.inFlight == map[] && p.phase == Idle
    ensures Exec(cfg, s, SaveSteps()) == InPhase(Snapshotted(s, p.table), p, Renamed)
  {
    ExecConcat(cfg, s, [LockForSnapshot, BeginSave], [EndSave, RenameSnapshot]);
    TwoSteps(cfg, s, LockForSnapshot, BeginSave);
    var s2 := InPhase(s.(disk := s.disk.(tmp := Part)), p, Saving);
    assert Exec(cfg, s, [LockForSnapshot, BeginSave]) == s2;
    TwoSteps(cfg, s2, EndSave, RenameSnapshot);
  }

  lemma RotateRun(cfg: Config, s: State, p: Process)
    requires s.mem == Some(p) && p.phase == Renamed
    ensures Exec(cfg, s, RotateSteps())
         == if s.disk.walNew.Some? then InPhase(s, p, Idle)
            else InPhase(s.(disk := s.disk.(wal := Some(LogFile(cfg.crc, []))), logStart := |s.hist|), p, Idle)
  {
    ExecConcat(cfg, s, [CreateLog, RotateLog], [EndSnapshot]);
    TwoSteps(cfg, s, CreateLog, RotateLog);
    var s2 := Exec(cfg, s, [CreateLog, RotateLog]);
    assert Exec(cfg, s2, [EndSnapshot]) == Exec(cfg, Next(cfg, s2, EndSnapshot), []);
  }

  /** What a whole snapshot call does to the files. */
  lemma SnapshotRun(cfg: Config, s: State, t: Table)
    requires s.mem == Some(Process(t, map[], Idle))
    ensures Exec(cfg, s, SnapshotCall())
         == if s.disk.walNew.Some? then Snapshotted(s, t)
            else
              var s1 := Snapshotted(s, t);
              s1.(disk := s1.disk.(wal := Some(LogFile(cfg.crc, []))), logStart := |s.hist|)
  {
    var p := s.mem.value;
    assert SnapshotCall() == SaveSteps() + RotateSteps();
    ExecConcat(cfg, s, SaveSteps(), RotateSteps());
    SaveRun(cfg, s, p);
    RotateRun(cfg, InPhase(Snapshotted(s, t), p, Renamed), p.(phase := Renamed));
  }

  /** Open: load or create the index, replay the log into it, cut the log's torn tail. */
  method OpenIndex(cfg: Config, s: State) returns (r: Option<Index>)
    requires s.mem.None?
    ensures r.Some? <==> OpenTable(cfg, s.disk).Some?
    ensures r.Some? ==> fresh(r.value) && r.value.Valid() && r.value.cfg == cfg && r.value.View() == Next(cfg, s, Open)
  {
    var t := if s.disk.snapshot.Some? then s.disk.snapshot.value else Empty(cfg.dim, cfg.capacity);
    var log := LogFile(cfg.crc, []);
    if s.disk.wal.Some? {
      var file := s.disk.wal.value;
      var scan := ScanLog(cfg.crc, file);
      if scan.BadHeader? {
        return None;
      }
      var done := ReplayInto(t, scan.records);
      if done.None? {
        return None;
      }
      t := done.value;
      log := if scan.offset <= |file| then file[..scan.offset] else file;
    }
    var index := new Index(cfg, s.(disk := s.disk.(wal := Some(log)), mem := Some(Process(t, map[], Idle))));
    return Some(index);
  }
}
