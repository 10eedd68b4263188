/** Where the recovery promise ends: for each condition of the recovery theorems, runs of the
    step system that break the promise when the condition is dropped. */
module DurableLimits {
  import opened Bytes
  import opened KeyTable
  import opened Options
  import opened WalFormat
  import opened WalFile
  import opened Replay
  import opened Durable
  import opened DurableProof

  lemma ExecCons(cfg: Config, s: State, e: Event, rest: seq<Event>)
    ensures Exec(cfg, s, [e] + rest) == Exec(cfg, Next(cfg, s, e), rest)
  {
    assert ([e] + rest)[1..] == rest;
  }

  /** A freshly opened index. */
  function Fresh(cfg: Config): State {
    State(Disk(None, NoTmp, Some(LogFile(cfg.crc, [])), None), Some(Process(Empty(cfg.dim, cfg.capacity), map[], Idle)),
          {}, [], 0, 0)
  }

  lemma OpenIsFresh(cfg: Config)
    ensures Next(cfg, Init(), Open) == Fresh(cfg)
  {
  }

  lemma ApplyTwo(t: Table, a: Record, b: Record)
    requires ApplyRecord(t, a).Some?
    ensures ApplyAll(t, [a, b]) == ApplyRecord(ApplyRecord(t, a).value, b)
  {
    var t1 := ApplyRecord(t, a).value;
    assert [a, b][1..] == [b] && [b][1..] == [];
    assert ApplyAll(t, [a, b]) == ApplyAll(t1, [b]);
    if ApplyRecord(t1, b).Some? {
      assert ApplyAll(t1, [b]) == ApplyAll(ApplyRecord(t1, b).value, []);
    }
  }

  function AddOf(k: Key, v: Vector): Record {
    Record(OP_ADD, k, v)
  }

  function DeleteOf(k: Key): Record {
    Record(OP_MARK_DELETED, k, [])
  }

  /** An idle process whose log file holds exactly rs. */
  ghost predicate Quiet(cfg: Config, s: State, t: Table, rs: seq<Record>) {
    && s.mem == Some(Process(t, map[], Idle)) && s.disk.wal == Some(LogFile(cfg.crc, rs))
    && s.disk.snapshot.None? && s.disk.walNew.None?
  }

  /** One writer logs and applies, undisturbed. */
  function Write(cfg: Config, s: State, r: Record): State {
    Next(cfg, Next(cfg, s, Append(0, r)), Apply(0))
  }

  lemma WriteAlone(cfg: Config, s: State, t: Table, rs: seq<Record>, r: Record)
    requires Quiet(cfg, s, t, rs) && Encodable(r)
    ensures Quiet(cfg, Write(cfg, s, r), Effect(t, r).table, rs + [r])
    ensures Write(cfg, s, r).acked
         == if r.op == OP_ADD && Effect(t, r).outcome == Ok then s.acked + {(r.key, r.vector)} else s.acked
  {
    LogGrows(cfg.crc, rs, r);
    var s1 := Next(cfg, s, Append(0, r));
    assert s1.mem == Some(Process(t, map[0 := r], Idle));
    assert map[0 := r] - {0} == map[];
  }

  /** Two writers in flight at once; the second to log is the first to apply. */
  lemma RacingWriters(cfg: Config, r: Record, r': Record)
    requires Encodable(r) && Encodable(r') && r'.op == OP_ADD
    requires Effect(Empty(cfg.dim, cfg.capacity), r').outcome == Ok
    ensures var s := Next(cfg, Next(cfg, Next(cfg, Next(cfg, Fresh(cfg), Append(0, r)), Append(1, r')), Apply(1)), Apply(0));
      && (r'.key, r'.vector) in s.acked && s.disk.snapshot.None?
      && s.disk.wal == Some(LogFile(cfg.crc, [r, r']))
  {
    var s1 := Next(cfg, Fresh(cfg), Append(0, r));
    var s2 := Next(cfg, s1, Append(1, r'));
    BothLogged(cfg, r, r');
    assert s2.mem.value.inFlight == map[0 := r, 1 := r'];
    BothApply(cfg, s2, s2.mem.value, r');
  }

  lemma BothLogged(cfg: Config, r: Record, r': Record)
    requires Encodable(r) && Encodable(r')
    ensures var s2 := Next(cfg, Next(cfg, Fresh(cfg), Append(0, r)), Append(1, r'));
      && s2.disk.wal == Some(LogFile(cfg.crc, [r, r'])) && s2.disk.snapshot.None?
      && s2.mem == Some(Process(Empty(cfg.dim, cfg.capacity), map[0 := r, 1 := r'], Idle))
  {
    assert [] + [r] == [r] && [r] + [r'] == [r, r'];
    LogOne(cfg, Fresh(cfg), Fresh(cfg).mem.value, [], 0, r);
    var s1 := Next(cfg, Fresh(cfg), Append(0, r));
    LogOne(cfg, s1, s1.mem.value, [r], 1, r');
  }

  lemma LogOne(cfg: Config, s: State, p: Process, rs: seq<Record>, w: nat, r: Record)
    requires s.mem == Some(p) && p.phase == Idle && w !in p.inFlight && Encodable(r)
    requires s.disk.wal == Some(LogFile(cfg.crc, rs))
    ensures var s' := Next(cfg, s, Append(w, r));
      && s'.disk == s.disk.(wal := Some(LogFile(cfg.crc, rs + [r])))
      && s'.mem == Some(p.(inFlight := p.inFlight[w := r]))
  {
    LogGrows(cfg.crc, rs, r);
  }

  lemma BothApply(cfg: Config, s: State, p: Process, r': Record)
    requires s.mem == Some(p) && 0 in p.inFlight && 1 in p.inFlight && p.inFlight[1] == r'
    requires r'.op == OP_ADD && Effect(p.table, r').outcome == Ok
    ensures var s' := Next(cfg, Next(cfg, s, Apply(1)), Apply(0));
      (r'.key, r'.vector) in s'.acked && s'.disk == s.disk
  {
    assert Next(cfg, s, Apply(1)) == Applied(s, p, 1);
  }

  /** The first of two Adds of a key wins the replay. */
  lemma FirstAddWins(t: Table, k: Key, v: Vector, v': Vector)
    requires |t.entries| < t.capacity && |v| == |v'| == t.dim && k !in t.entries
    ensures ApplyAll(t, [AddOf(k, v), AddOf(k, v')]) == Some(t.(entries := t.entries[k := Entry(v, false)]))
  {
    var r, r' := AddOf(k, v), AddOf(k, v');
    var one := t.(entries := t.entries[k := Entry(v, false)]);
    assert ApplyRecord(t, r) == Some(one) && ApplyRecord(one, r') == Some(one);
    ApplyTwo(t, r, r');
  }

  /** Two Adds of one key in flight, logged in one order and applied in the other: the
      acknowledged vector is replaced by the one that was refused. */
  lemma SameKeyInFlightLosesAdd(cfg: Config, k: Key, v: Vector, v': Vector)
    requires cfg.capacity >= 1 && 1 <= |v| == |v'| == cfg.dim <= MAX_DIM && v != v'
    ensures var s := Exec(cfg, Init(), [Open, Append(0, AddOf(k, v)), Append(1, AddOf(k, v')), Apply(1), Apply(0)]);
      && (k, v') in s.acked
      && OpenTable(cfg, s.disk).Some?
      && Lookup(OpenTable(cfg, s.disk).value.entries, k) == Some(Entry(v, false))
  {
    var r, r' := AddOf(k, v), AddOf(k, v');
    RunFive(cfg, Open, Append(0, r), Append(1, r'), Apply(1), Apply(0));
    OpenIsFresh(cfg);
    RacingWriters(cfg, r, r');
    var s := Next(cfg, Next(cfg, Next(cfg, Next(cfg, Fresh(cfg), Append(0, r)), Append(1, r')), Apply(1)), Apply(0));
    OpenOf(cfg, s.disk, [r, r']);
    FirstAddWins(Empty(cfg.dim, cfg.capacity), k, v, v');
  }

  lemma RunFive(cfg: Config, a: Event, b: Event, c: Event, d: Event, e: Event)
    ensures Exec(cfg, Init(), [a, b, c, d, e])
         == Next(cfg, Next(cfg, Next(cfg, Next(cfg, Next(cfg, Init(), a), b), c), d), e)
  {
    var s := Init();
    assert [a, b, c, d, e] == [a] + [b, c, d, e] && [b, c, d, e] == [b] + [c, d, e] && [c, d, e] == [c] + [d, e];
    assert [d, e] == [d] + [e] && [e] == [e] + [];
    ExecCons(cfg, s, a, [b, c, d, e]);
    s := Next(cfg, s, a);
    ExecCons(cfg, s, b, [c, d, e]);
    s := Next(cfg, s, b);
    ExecCons(cfg, s, c, [d, e]);
    s := Next(cfg, s, c);
    ExecCons(cfg, s, d, [e]);
    s := Next(cfg, s, d);
    ExecCons(cfg, s, e, []);
  }

  lemma SecondAddDoesNotFit(t: Table, k: Key, k': Key, v: Vector)
    requires t.capacity == 1 && t.entries == map[] && |v| == t.dim && k != k'
    ensures Effect(t, AddOf(k, v)).outcome == Ok
    ensures ApplyAll(t, [AddOf(k, v), AddOf(k', v)]) == None
  {
    var r, r' := AddOf(k, v), AddOf(k', v);
    var one := t.(entries := map[k := Entry(v, false)]);
    assert ApplyRecord(t, r) == Some(one) && ApplyRecord(one, r') == None;
    ApplyTwo(t, r, r');
  }

  /** An Add the full index refuses is in the log all the same, and keeps the index from being
      reopened. */
  lemma RefusedAddBlocksOpen(cfg: Config, k: Key, k': Key, v: Vector)
    requires cfg.capacity == 1 && 1 <= |v| == cfg.dim <= MAX_DIM && k != k'
    ensures var s := Write(cfg, Write(cfg, Next(cfg, Init(), Open), AddOf(k, v)), AddOf(k', v));
      (k, v) in s.acked && OpenTable(cfg, s.disk) == None
  {
    var r, empty := AddOf(k, v), Empty(cfg.dim, cfg.capacity);
    OpenIsFresh(cfg);
    SecondAddDoesNotFit(empty, k, k', v);
    assert [] + [r] == [r];
    WriteAlone(cfg, Fresh(cfg), empty, [], r);
    AddToFull(cfg, Write(cfg, Fresh(cfg), r), empty, k, k', v);
  }

  lemma AddToFull(cfg: Config, s: State, t: Table, k: Key, k': Key, v: Vector)
    requires Quiet(cfg, s, Effect(t, AddOf(k, v)).table, [AddOf(k, v)]) && t == Empty(cfg.dim, cfg.capacity)
    requires t.capacity == 1 && 1 <= |v| == t.dim <= MAX_DIM && k != k'
    ensures var s' := Write(cfg, s, AddOf(k', v)); s.acked <= s'.acked && OpenTable(cfg, s'.disk) == None
  {
    var r, r' := AddOf(k, v), AddOf(k', v);
    SecondAddDoesNotFit(t, k, k', v);
    assert [r] + [r'] == [r, r'];
    WriteAlone(cfg, s, Effect(t, r).table, [r], r');
    OpenOf(cfg, Write(cfg, s, r').disk, [r, r']);
  }

  /** The leftover of a crash while the new log was being created stays in the way: from then on
      no snapshot ever rotates the log again, whatever happens. */
  ghost predicate Blocked(s: State) {
    s.disk.walNew.Some? && (s.mem.Some? ==> s.mem.value.phase != NewLog)
  }

  lemma {:induction false} LeftoverBlocksRotation(cfg: Config, s: State, events: seq<Event>)
    requires Blocked(s)
    ensures Blocked(Exec(cfg, s, events)) && Exec(cfg, s, events).logStart == s.logStart
    decreases |events|
  {
    if events != [] {
      LeftoverBlocksRotation(cfg, Next(cfg, s, events[0]), events[1..]);
    }
  }

  lemma CrashBeforeRotationIsForever(cfg: Config, s: State, events: seq<Event>)
    requires s.mem.Some? && s.mem.value.phase == NewLog && s.disk.walNew.Some?
    ensures Exec(cfg, Next(cfg, s, Crash), events).logStart == s.logStart
  {
    LeftoverBlocksRotation(cfg, Next(cfg, s, Crash), events);
  }

  /** A record beyond the reader's limit, logged in any reachable state, is not there for Open,
      and neither is anything logged after it. */
  lemma OversizeHidesTheRest(cfg: Config, events: seq<Event>, r: Record, rest: seq<U8>)
    requires DisciplinedRun(cfg, Init(), events, false) && Exec(cfg, Init(), events).mem.Some?
    requires |r.vector| > MAX_DIM && |Payload(r)| < TWO_32
    ensures var disk := Exec(cfg, Init(), events).disk;
      && disk.wal.Some?
      && OpenTable(cfg, disk.(wal := Some(disk.wal.value + (Encode(cfg.crc, r) + rest)))) == OpenTable(cfg, disk)
  {
    var s := Exec(cfg, Init(), events);
    InitOk(cfg, false);
    RunsKeepInv(cfg, Init(), events, false);
    UnreadTail(cfg, s.disk, LogOf(s), Encode(cfg.crc, r) + rest) by {
      OversizeUnread(cfg.crc, r, rest);
    }
  }

  lemma UnreadTail(cfg: Config, disk: Disk, log: seq<Record>, tail: seq<U8>)
    requires disk.wal == Some(LogFile(cfg.crc, log)) && AllFit(log) && ReadRecord(cfg.crc, tail) == None
    ensures OpenTable(cfg, disk.(wal := Some(disk.wal.value + tail))) == OpenTable(cfg, disk)
  {
    OpenOf(cfg, disk, log);
    ScanTorn(cfg.crc, log, tail);
  }

  /** So an acknowledged Add of such a vector is gone after the next Open. */
  lemma OversizeAddIsLost(cfg: Config, k: Key, v: Vector)
    requires cfg.capacity >= 1 && MAX_DIM < |v| == cfg.dim && 21 + 4 * |v| < TWO_32
    ensures var s := Write(cfg, Next(cfg, Init(), Open), AddOf(k, v));
      && (k, v) in s.acked && OpenTable(cfg, s.disk) == Some(Empty(cfg.dim, cfg.capacity))
  {
    var r, empty := AddOf(k, v), Empty(cfg.dim, cfg.capacity);
    OpenIsFresh(cfg);
    WriteAlone(cfg, Fresh(cfg), empty, [], r);
    assert Effect(empty, r).outcome == Ok;
    LogGrows(cfg.crc, [], r);
    assert [] + [r] == [r];
    OversizeUnread(cfg.crc, r, []);
    assert Encode(cfg.crc, r) + [] == Encode(cfg.crc, r);
    ScanTorn(cfg.crc, [], Encode(cfg.crc, r));
  }

  /** A snapshot up to and including the first rename. */
  function SnapshotRenamed(cfg: Config, s: State): State {
    Next(cfg, Next(cfg, Next(cfg, Next(cfg, s, LockForSnapshot), BeginSave), EndSave), RenameSnapshot)
  }

  lemma SnapshotUpToRename(cfg: Config, s: State, t: Table, rs: seq<Record>)
    requires Quiet(cfg, s, t, rs)
    ensures var s' := SnapshotRenamed(cfg, s);
      s'.mem == Some(Process(t, map[], Renamed)) && s'.disk.snapshot == Some(t) && s'.disk.wal == s.disk.wal
  {
  }

  lemma DeleteThenAdd(t: Table, k: Key, v: Vector)
    requires t.entries == map[] && t.capacity >= 1 && |v| == t.dim
    ensures Effect(t, DeleteOf(k)) == Reply(t, NotFound)
    ensures var live := t.(entries := map[k := Entry(v, false)]);
      && Effect(t, AddOf(k, v)) == Reply(live, Ok)
      && ApplyAll(live, [DeleteOf(k), AddOf(k, v)]) == Some(t.(entries := map[k := Entry(v, true)]))
  {
    var d, a := DeleteOf(k), AddOf(k, v);
    var live, dead := t.(entries := map[k := Entry(v, false)]), t.(entries := map[k := Entry(v, true)]);
    assert live.entries[k := Entry(v, true)] == dead.entries;
    assert ApplyRecord(live, d) == Some(dead) && ApplyRecord(dead, a) == Some(dead);
    ApplyTwo(live, d, a);
  }

  /** Deleting a key before it is ever added is answered "not found" and logged; dying right
      after the snapshot rename then turns the key, added later and live, into a deleted one. */
  lemma EarlyDeleteReturns(cfg: Config, k: Key, v: Vector)
    requires cfg.capacity >= 1 && 1 <= |v| == cfg.dim <= MAX_DIM
    ensures
      var s := SnapshotRenamed(cfg, Write(cfg, Write(cfg, Next(cfg, Init(), Open), DeleteOf(k)), AddOf(k, v)));
      && s.mem.Some? && Lookup(s.mem.value.table.entries, k) == Some(Entry(v, false))
      && OpenTable(cfg, s.disk).Some?
      && Lookup(OpenTable(cfg, s.disk).value.entries, k) == Some(Entry(v, true))
  {
    var d, a, empty := DeleteOf(k), AddOf(k, v), Empty(cfg.dim, cfg.capacity);
    OpenIsFresh(cfg);
    DeleteThenAdd(empty, k, v);
    assert [] + [d] == [d] && [d] + [a] == [d, a];
    WriteAlone(cfg, Fresh(cfg), empty, [], d);
    AddThenSnapshot(cfg, Write(cfg, Fresh(cfg), d), empty, k, v);
  }

  lemma AddThenSnapshot(cfg: Config, s: State, t: Table, k: Key, v: Vector)
    requires Quiet(cfg, s, t, [DeleteOf(k)]) && t.entries == map[] && t.capacity >= 1 && |v| == t.dim && 1 <= |v| <= MAX_DIM
    ensures var s' := SnapshotRenamed(cfg, Write(cfg, s, AddOf(k, v)));
      && s'.mem.Some? && s'.mem.value.table == t.(entries := map[k := Entry(v, false)])
      && OpenTable(cfg, s'.disk) == Some(t.(entries := map[k := Entry(v, true)]))
  {
    var d, a := DeleteOf(k), AddOf(k, v);
    DeleteThenAdd(t, k, v);
    assert [d] + [a] == [d, a];
    WriteAlone(cfg, s, t, [d], a);
    SnapshotUpToRename(cfg, Write(cfg, s, a), Effect(t, a).table, [d, a]);
    OpenOf(cfg, SnapshotRenamed(cfg, Write(cfg, s, a)).disk, [d, a]);
  }

  /** A snapshot of the fresh index that dies before its last rename is such a crash: the log is
      never rotated again. */
  lemma AbandonedSnapshot(cfg: Config, events: seq<Event>)
    ensures var s := Next(cfg, Next(cfg, SnapshotRenamed(cfg, Next(cfg, Init(), Open)), CreateLog), Crash);
      Blocked(s) && s.logStart == 0 && Exec(cfg, s, events).logStart == 0
  {
    OpenIsFresh(cfg);
    SnapshotUpToRename(cfg, Fresh(cfg), Empty(cfg.dim, cfg.capacity), []);
    var s1 := SnapshotRenamed(cfg, Fresh(cfg));
    assert s1.logStart == 0 && s1.disk.walNew.None?;
    LeftoverBlocksRotation(cfg, Next(cfg, Next(cfg, s1, CreateLog), Crash), events);
  }

  /** A log file without a complete header and nobody running. */
  ghost predicate Stuck(s: State) {
    s.mem.None? && ShortLog(s.disk)
  }

  lemma {:induction false} StuckForever(cfg: Config, s: State, events: seq<Event>)
    requires Stuck(s)
    ensures Exec(cfg, s, events) == s && OpenTable(cfg, s.disk) == None
    decreases |events|
  {
    if events != [] {
      StuckForever(cfg, s, events[1..]);
    }
  }

  /** A crash while the first Open creates the log leaves a file that no Open ever accepts, though
      nothing was written yet. */
  lemma TornOpenIsForever(cfg: Config, n: nat, events: seq<Event>)
    requires n < 8
    ensures var s := Next(cfg, Init(), TornOpen(n)); Exec(cfg, s, events) == s && OpenTable(cfg, s.disk) == None
    ensures DisciplinedRun(cfg, Init(), [TornOpen(n)], true)
  {
    StuckForever(cfg, Next(cfg, Init(), TornOpen(n)), events);
    assert [TornOpen(n)][1..] == [];
  }
}
