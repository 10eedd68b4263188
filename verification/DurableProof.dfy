/** What every run of the durable index keeps, and the recovery theorems that follow. */
module DurableProof {
  import opened Bytes
  import opened KeyTable
  import opened Options
  import opened WalFormat
  import opened WalFile
  import opened Replay
  import opened Durable
  import opened DurableKeys

  /** The records in the log file: the history from logStart on. */
  function LogOf(s: State): seq<Record> {
    if s.logStart <= |s.hist| then s.hist[s.logStart..] else []
  }

  ghost predicate TableOk(cfg: Config, t: Table) {
    t.dim == cfg.dim && t.capacity == cfg.capacity && |t.entries| <= t.capacity
  }

  /** Records and then something unreadable: nothing, or a torn record. */
  ghost predicate TornFile(cfg: Config, file: seq<U8>, rs: seq<Record>) {
    exists tail :: file == LogFile(cfg.crc, rs) + tail && ReadRecord(cfg.crc, tail) == None
  }

  ghost predicate FileOk(cfg: Config, s: State) {
    if s.mem.Some? then s.disk.wal == Some(LogFile(cfg.crc, LogOf(s)))
    else match s.disk.wal
      case None => s.hist == [] && s.disk.snapshot.None?
      case Some(file) => TornFile(cfg, file, LogOf(s)) || (|file| < 8 && s.hist == [] && s.disk.snapshot.None?)
  }

  ghost predicate AckRecovered(base: Entries, log: seq<Record>, k: Key, v: Vector) {
    VectorOf(EntryFold(Lookup(base, k), log, k)) == Some(v)
  }

  ghost predicate AckHeld(table: Entries, k: Key, v: Vector) {
    VectorOf(Lookup(table, k)) == Some(v)
  }

  ghost predicate AcksRecovered(acked: set<(Key, Vector)>, base: Entries, log: seq<Record>) {
    forall k, v :: (k, v) in acked ==> AckRecovered(base, log, k, v)
  }

  ghost predicate AcksHeld(acked: set<(Key, Vector)>, table: Entries) {
    forall k, v :: (k, v) in acked ==> AckHeld(table, k, v)
  }

  ghost predicate AllMatch(exact: bool, base: Entries, log: seq<Record>, table: Entries, inFlight: InFlight) {
    forall k :: KeyMatch(exact, base, log, table, inFlight, k)
  }

  ghost predicate AllLogged(inFlight: InFlight, log: seq<Record>) {
    forall w :: w in inFlight ==> inFlight[w] in log
  }

  ghost predicate AllFit(rs: seq<Record>) {
    forall r :: r in rs ==> Fits(r)
  }

  /** What holds of the files whether or not a process is running. */
  ghost predicate DiskOk(cfg: Config, s: State) {
    var base, log := Base(cfg, s.disk), LogOf(s);
    && s.logStart <= s.snapAt <= |s.hist|
    && AllFit(s.hist) && TableOk(cfg, base) && FileOk(cfg, s)
    && (Replayable(base, log) ==> AcksRecovered(s.acked, base.entries, log))
  }

  ghost predicate PhaseOk(cfg: Config, s: State, p: Process) {
    && (p.phase != Idle ==> p.inFlight == map[])
    && (p.phase == Saved ==> s.disk.tmp == Whole(p.table))
    && (p.phase == Renamed || p.phase == NewLog || p.phase == Rotated ==>
          s.disk.snapshot == Some(p.table) && s.snapAt == |s.hist|)
    && (p.phase == NewLog ==> s.disk.walNew == Some(LogFile(cfg.crc, [])))
    && (p.phase == Rotated ==> s.logStart == |s.hist|)
  }

  ghost predicate ProcOk(cfg: Config, s: State, p: Process, exact: bool) {
    var base, log := Base(cfg, s.disk), LogOf(s);
    && TableOk(cfg, p.table) && base.entries.Keys <= p.table.entries.Keys
    && Harmonious(exact, p.table.entries, p.inFlight) && AllLogged(p.inFlight, log)
    && PhaseOk(cfg, s, p) && AcksHeld(s.acked, p.table.entries)
    && (Replayable(base, log) ==> AllMatch(exact, base.entries, log, p.table.entries, p.inFlight))
  }

  ghost predicate Inv(cfg: Config, s: State, exact: bool) {
    DiskOk(cfg, s) && (s.mem.Some? ==> ProcOk(cfg, s, s.mem.value, exact))
  }

  /** No key has a late tombstone in the current log: absent from the snapshot, its last delete
      or undelete record a delete that comes before its first Add. */
  ghost predicate NoLateTombstone(cfg: Config, s: State) {
    forall k :: !LateTombstone(Lookup(Base(cfg, s.disk).entries, k), LogOf(s), k)
  }

  /** What is asked of the callers: no write that clashes with one in flight, and vectors within
      the reader's limit. For exact tombstones also that no key has a late tombstone when a
      snapshot takes effect, unless the log could not be replayed over it anyway. */
  ghost predicate Disciplined(cfg: Config, s: State, e: Event, exact: bool) {
    && (e.Append? && s.mem.Some? ==> Fits(e.r) && Fitting(exact, s.mem.value.table.entries, s.mem.value.inFlight, e.r))
    && (e.TornAppend? ==> |Payload(e.r)| < TWO_32)
    && (exact && e.RenameSnapshot? && s.mem.Some? && s.mem.value.phase == Saved ==>
          (Replayable(s.mem.value.table, LogOf(s)) ==> NoLateTombstone(cfg, s)))
  }

  lemma InitOk(cfg: Config, exact: bool)
    ensures Inv(cfg, Init(), exact)
  {
    assert AddKeys([]) == {} && Empty(cfg.dim, cfg.capacity).entries.Keys == {};
  }

  /** A log file whose header was never completed. */
  predicate ShortLog(disk: Disk) {
    disk.wal.Some? && |disk.wal.value| < 8
  }

  /** Open succeeds if and only if the log file has its header and the logged records can be
      replayed over the snapshot; and then it replays exactly those. */
  lemma OpenMeaning(cfg: Config, s: State)
    requires DiskOk(cfg, s)
    ensures OpenTable(cfg, s.disk).Some? <==> Replayable(Base(cfg, s.disk), LogOf(s)) && !ShortLog(s.disk)
    ensures OpenTable(cfg, s.disk).Some? ==>
      && OpenTable(cfg, s.disk) == ApplyAll(Base(cfg, s.disk), LogOf(s))
      && OpenedLog(cfg, s.disk) == LogFile(cfg.crc, LogOf(s))
      && Replayed(Base(cfg, s.disk), LogOf(s), OpenTable(cfg, s.disk).value)
  {
    var base, log := Base(cfg, s.disk), LogOf(s);
    assert forall r :: r in log ==> Fits(r);
    ReplayMeaning(base, log);
    if s.disk.wal.Some? && !ShortLog(s.disk) {
      OpenTornLog(cfg, s, s.disk.wal.value);
    }
  }

  lemma OpenTornLog(cfg: Config, s: State, file: seq<U8>)
    requires DiskOk(cfg, s) && s.disk.wal == Some(file) && |file| >= 8
    ensures OpenTable(cfg, s.disk) == ApplyAll(Base(cfg, s.disk), LogOf(s))
    ensures OpenedLog(cfg, s.disk) == LogFile(cfg.crc, LogOf(s))
  {
    var log := LogOf(s);
    assert forall r :: r in log ==> Fits(r);
    if s.mem.Some? {
      assert file == file + [];
      ScanTorn(cfg.crc, log, []);
    } else {
      var tail :| file == LogFile(cfg.crc, log) + tail && ReadRecord(cfg.crc, tail) == None;
      ScanTorn(cfg.crc, log, tail);
    }
  }

  /** Dying leaves the files, and with them what Open recovers, as they are. */
  lemma CrashKeepsInv(cfg: Config, s: State, exact: bool)
    requires Inv(cfg, s, exact) && s.mem.Some?
    ensures Inv(cfg, Died(s), exact)
  {
    assert s.disk.wal.value == LogFile(cfg.crc, LogOf(s)) + [];
    assert ReadRecord(cfg.crc, []) == None;
  }

  lemma TornAppendKeepsInv(cfg: Config, s: State, r: Record, n: nat, exact: bool)
    requires Inv(cfg, s, exact) && s.mem.Some? && |Payload(r)| < TWO_32 && n < |Encode(cfg.crc, r)|
    ensures Inv(cfg, Died(s.(disk := s.disk.(wal := Some(s.disk.wal.value + Encode(cfg.crc, r)[..n])))), exact)
  {
    TornUnread(cfg.crc, r, n);
  }

  lemma GrowLog(s: State, s': State, r: Record)
    requires s.logStart <= |s.hist| && s'.hist == s.hist + [r] && s'.logStart == s.logStart
    ensures LogOf(s') == LogOf(s) + [r]
  {
  }

  /** Logging a record: the file grows by its bytes, the log by the record. */
  lemma AppendKeepsDisk(cfg: Config, s: State, p: Process, w: nat, r: Record, exact: bool)
    requires Inv(cfg, s, exact) && s.mem == Some(p) && Disciplined(cfg, s, Append(w, r), exact) && w !in p.inFlight
    ensures DiskOk(cfg, Logged(cfg, s, p, w, r))
  {
    var s' := Logged(cfg, s, p, w, r);
    GrowLog(s, s', r);
    LogGrows(cfg.crc, LogOf(s), r);
    AppendRecovers(cfg, s, p, w, r, exact, LogOf(s'), p.inFlight[w := r]);
    assert FileOk(cfg, s');
  }

  lemma AppendKeepsProc(cfg: Config, s: State, p: Process, w: nat, r: Record, exact: bool)
    requires Inv(cfg, s, exact) && s.mem == Some(p) && Disciplined(cfg, s, Append(w, r), exact)
    requires p.phase == Idle && w !in p.inFlight
    ensures ProcOk(cfg, Logged(cfg, s, p, w, r), Logged(cfg, s, p, w, r).mem.value, exact)
  {
    var s', inFlight' := Logged(cfg, s, p, w, r), p.inFlight[w := r];
    GrowLog(s, s', r);
    AppendRecovers(cfg, s, p, w, r, exact, LogOf(s'), inFlight');
    HarmonyGrows(exact, p.table.entries, p.inFlight, w, r);
    forall v | v in inFlight' ensures inFlight'[v] in LogOf(s') {
      assert v != w ==> p.inFlight[v] in LogOf(s);
    }
  }

  lemma AppendRecovers(cfg: Config, s: State, p: Process, w: nat, r: Record, exact: bool,
                       log': seq<Record>, inFlight': InFlight)
    requires Inv(cfg, s, exact) && s.mem == Some(p) && Disciplined(cfg, s, Append(w, r), exact)
    requires w !in p.inFlight && log' == LogOf(s) + [r] && inFlight' == p.inFlight[w := r]
    ensures var base := Base(cfg, s.disk);
      Replayable(base, log') ==>
      && AcksRecovered(s.acked, base.entries, log')
      && AllMatch(exact, base.entries, log', p.table.entries, inFlight')
  {
    var base, log := Base(cfg, s.disk), LogOf(s);
    if Replayable(base, log') {
      ReplayablePrefix(base, log, [r]);
      forall k ensures KeyMatch(exact, base.entries, log', p.table.entries, inFlight', k) {
        AppendKeepsMatch(exact, base.entries, log, p.table.entries, p.inFlight, w, r, k);
      }
      forall k, v | (k, v) in s.acked ensures AckRecovered(base.entries, log', k, v) {
        assert AckRecovered(base.entries, log, k, v);
        FoldOne(Lookup(base.entries, k), log, r, k);
      }
    }
  }

  lemma HarmonyGrows(exact: bool, table: Entries, inFlight: InFlight, w: nat, r: Record)
    requires Harmonious(exact, table, inFlight) && Fitting(exact, table, inFlight, r) && w !in inFlight
    ensures Harmonious(exact, table, inFlight[w := r])
  {
    var inFlight' := inFlight[w := r];
    forall u, v | u in inFlight' && v in inFlight' && u != v && inFlight'[u].key == inFlight'[v].key
      ensures !Clash(exact, Lookup(table, inFlight'[u].key), inFlight'[u], inFlight'[v])
    {
      if u == w {
        assert Pending(inFlight, v, r.key);
      } else if v == w {
        assert Pending(inFlight, u, r.key);
      }
    }
  }

  /** What applying a record does to memory, outcome by outcome. */
  lemma EffectByOutcome(t: Table, r: Record)
    requires KnownOp(r.op) && |t.entries| <= t.capacity
    ensures var reply := Effect(t, r);
      && reply.table.dim == t.dim && reply.table.capacity == t.capacity && |reply.table.entries| <= t.capacity
      && t.entries.Keys <= reply.table.entries.Keys <= t.entries.Keys + {r.key}
      && (r.key !in t.entries && r.key in reply.table.entries ==> r.op == OP_ADD)
      && (reply.outcome == Full || reply.outcome == WrongDimension ==> r.op == OP_ADD && reply.table == t)
      && (reply.outcome == Full ==> r.key !in t.entries && |t.entries| == t.capacity)
      && (reply.outcome == WrongDimension ==> |r.vector| != t.dim)
      && (reply.outcome == Ok && r.op == OP_ADD ==> r.key !in t.entries)
      && (reply.outcome != Full && reply.outcome != WrongDimension ==> Replayed(t, [r], reply.table))
  {
    if Effect(t, r).outcome != Full && Effect(t, r).outcome != WrongDimension {
      ApplyRecordEffect(t, r);
    }
  }

  lemma OneFolded(t: Table, r: Record, t': Table, k: Key)
    requires Replayed(t, [r], t')
    ensures Lookup(t'.entries, k) == if k == r.key then EntryStep(Lookup(t.entries, k), r) else Lookup(t.entries, k)
  {
    assert Folded(t, [r], t', k);
    assert EntryFold(Lookup(t.entries, k), [r], k)
        == if k == r.key then EntryStep(Lookup(t.entries, k), r) else Lookup(t.entries, k);
  }

  /** An Add that the index refuses makes the log unreplayable until it is rotated away. */
  lemma RefusedAddBlocksReplay(cfg: Config, s: State, p: Process, w: nat, exact: bool)
    requires Inv(cfg, s, exact) && s.mem == Some(p) && w in p.inFlight && KnownOp(p.inFlight[w].op)
    requires var o := Effect(p.table, p.inFlight[w]).outcome; o == Full || o == WrongDimension
    ensures !Replayable(Base(cfg, s.disk), LogOf(s))
  {
    var base, log, r := Base(cfg, s.disk), LogOf(s), p.inFlight[w];
    EffectByOutcome(p.table, r);
    if Effect(p.table, r).outcome == Full && Replayable(base, log) {
      var known := base.entries.Keys + AddKeys(log);
      forall k | k in p.table.entries.Keys + {r.key} ensures k in known {
        assert KeyMatch(exact, base.entries, log, p.table.entries, p.inFlight, k);
        if k == r.key {
          assert Pending(p.inFlight, w, k);
        }
        MatchedKeyIsLogged(exact, base.entries, log, p.table.entries, p.inFlight, k);
      }
      assert |p.table.entries.Keys + {r.key}| == |p.table.entries| + 1;
      SubsetSize(p.table.entries.Keys + {r.key}, known);
    } else {
      assert r in log;
    }
  }

  /** An accepted record: memory moves to where recovery already was. */
  lemma AppliedMatches(cfg: Config, s: State, p: Process, w: nat, exact: bool, inFlight': InFlight)
    requires Inv(cfg, s, exact) && s.mem == Some(p) && w in p.inFlight && KnownOp(p.inFlight[w].op)
    requires Replayable(Base(cfg, s.disk), LogOf(s)) && inFlight' == p.inFlight - {w}
    ensures var base, log, t' := Base(cfg, s.disk), LogOf(s), Effect(p.table, p.inFlight[w]).table;
      AllMatch(exact, base.entries, log, t'.entries, inFlight')
  {
    var base, log, r := Base(cfg, s.disk), LogOf(s), p.inFlight[w];
    var reply := Effect(p.table, r);
    EffectByOutcome(p.table, r);
    if reply.outcome == Full || reply.outcome == WrongDimension {
      RefusedAddBlocksReplay(cfg, s, p, w, exact);
    } else {
      forall k ensures KeyMatch(exact, base.entries, log, reply.table.entries, inFlight', k) {
        OneFolded(p.table, r, reply.table, k);
        ApplyKeepsMatch(exact, base.entries, log, p.table.entries, p.inFlight, w, reply.table.entries, k);
      }
    }
  }

  lemma VectorsKept(t: Table, r: Record, k: Key, v: Vector)
    requires KnownOp(r.op) && |t.entries| <= t.capacity && AckHeld(t.entries, k, v)
    ensures AckHeld(Effect(t, r).table.entries, k, v)
  {
  }

  /** The Add being answered is the one recovery produces. */
  lemma AnsweredAddRecovers(cfg: Config, s: State, p: Process, w: nat, exact: bool)
    requires Inv(cfg, s, exact) && s.mem == Some(p) && w in p.inFlight
    requires p.inFlight[w].op == OP_ADD && Effect(p.table, p.inFlight[w]).outcome == Ok
    requires Replayable(Base(cfg, s.disk), LogOf(s))
    ensures AckRecovered(Base(cfg, s.disk).entries, LogOf(s), p.inFlight[w].key, p.inFlight[w].vector)
  {
    var r := p.inFlight[w];
    assert KeyMatch(exact, Base(cfg, s.disk).entries, LogOf(s), p.table.entries, p.inFlight, r.key);
    assert Pending(p.inFlight, w, r.key);
  }

  lemma ApplyKeepsDisk(cfg: Config, s: State, p: Process, w: nat, exact: bool)
    requires Inv(cfg, s, exact) && s.mem == Some(p) && w in p.inFlight
    ensures DiskOk(cfg, Applied(s, p, w))
  {
    var r, s' := p.inFlight[w], Applied(s, p, w);
    var base, log := Base(cfg, s.disk), LogOf(s);
    assert s'.disk == s.disk && LogOf(s') == log;
    if Replayable(base, log) {
      if r.op == OP_ADD && Effect(p.table, r).outcome == Ok {
        AnsweredAddRecovers(cfg, s, p, w, exact);
      }
      forall k, v | (k, v) in s'.acked ensures AckRecovered(base.entries, log, k, v) {}
    }
  }

  lemma ApplyKeepsProc(cfg: Config, s: State, p: Process, w: nat, exact: bool)
    requires Inv(cfg, s, exact) && s.mem == Some(p) && w in p.inFlight
    ensures ProcOk(cfg, Applied(s, p, w), Applied(s, p, w).mem.value, exact)
  {
    var r, s' := p.inFlight[w], Applied(s, p, w);
    var reply := Effect(p.table, r);
    assert LogOf(s') == LogOf(s) && r in LogOf(s) && Fits(r);
    EffectByOutcome(p.table, r);
    ApplyKeepsHarmony(exact, p.table.entries, p.inFlight, w, reply.table.entries);
    if Replayable(Base(cfg, s.disk), LogOf(s)) {
      AppliedMatches(cfg, s, p, w, exact, p.inFlight - {w});
    }
    forall k, v | (k, v) in s'.acked ensures AckHeld(reply.table.entries, k, v) {
      if (k, v) in s.acked {
        VectorsKept(p.table, r, k, v);
      }
    }
  }

  /** From s to s' only the phase, the ".tmp" file and the new log's file change. */
  ghost predicate QuietChange(cfg: Config, s: State, p: Process, s': State) {
    && s'.mem.Some? && s'.mem.value == p.(phase := s'.mem.value.phase) && PhaseOk(cfg, s', s'.mem.value)
    && s' == s.(mem := s'.mem, disk := s'.disk)
    && s'.disk == s.disk.(tmp := s'.disk.tmp, walNew := s'.disk.walNew)
  }

  lemma QuietChangeKeepsInv(cfg: Config, s: State, p: Process, s': State, exact: bool)
    requires Inv(cfg, s, exact) && s.mem == Some(p) && QuietChange(cfg, s, p, s')
    ensures Inv(cfg, s', exact)
  {
    assert LogOf(s') == LogOf(s) && Base(cfg, s'.disk) == Base(cfg, s.disk);
  }

  predicate IsQuiet(e: Event) {
    e.LockForSnapshot? || e.BeginSave? || e.EndSave? || e.CreateLog? || e.EndSnapshot? || e.Open? || e.TornOpen?
  }

  /** Saving, and putting the new log file in place: neither snapshot nor log changes. */
  lemma QuietStep(cfg: Config, s: State, p: Process, e: Event)
    requires s.mem == Some(p) && PhaseOk(cfg, s, p) && IsQuiet(e)
    ensures QuietChange(cfg, s, p, RunningNext(cfg, s, p, e))
  {
  }

  /** Replaying over memory can only succeed if replaying over the old base did. */
  lemma RebaseNeedsMore(base: Table, table: Table, log: seq<Record>)
    requires base.dim == table.dim && base.capacity == table.capacity && base.entries.Keys <= table.entries.Keys
    requires Replayable(table, log)
    ensures Replayable(base, log)
  {
    SubsetSize(base.entries.Keys + AddKeys(log), table.entries.Keys + AddKeys(log));
  }

  /** The new snapshot takes effect while the old log is still in place. */
  lemma RenameRecovers(cfg: Config, s: State, p: Process, exact: bool)
    requires Inv(cfg, s, exact) && s.mem == Some(p) && p.phase == Saved && Disciplined(cfg, s, RenameSnapshot, exact)
    requires Replayable(p.table, LogOf(s))
    ensures AllMatch(exact, p.table.entries, LogOf(s), p.table.entries, map[])
    ensures AcksRecovered(s.acked, p.table.entries, LogOf(s))
  {
    var base, log := Base(cfg, s.disk), LogOf(s);
    RebaseNeedsMore(base, p.table, log);
    forall k ensures KeyMatch(exact, p.table.entries, log, p.table.entries, map[], k) {
      assert KeyMatch(exact, base.entries, log, p.table.entries, map[], k);
      RebaseKeepsMatch(exact, base.entries, log, p.table.entries, k);
    }
    forall k, v | (k, v) in s.acked ensures AckRecovered(p.table.entries, log, k, v) {
      assert AckHeld(p.table.entries, k, v);
      FoldPresent(p.table.entries[k], log, k);
    }
  }

  lemma RenameKeepsInv(cfg: Config, s: State, p: Process, exact: bool)
    requires Inv(cfg, s, exact) && s.mem == Some(p) && p.phase == Saved && Disciplined(cfg, s, RenameSnapshot, exact)
    ensures Inv(cfg, RunningNext(cfg, s, p, RenameSnapshot), exact)
  {
    var s' := RunningNext(cfg, s, p, RenameSnapshot);
    assert Base(cfg, s'.disk) == p.table && LogOf(s') == LogOf(s);
    if Replayable(p.table, LogOf(s)) {
      RenameRecovers(cfg, s, p, exact);
    }
  }

  /** With an empty log, recovery is the snapshot itself. */
  lemma EmptyLogMatches(exact: bool, table: Entries, acked: set<(Key, Vector)>)
    requires AcksHeld(acked, table)
    ensures AllMatch(exact, table, [], table, map[]) && AcksRecovered(acked, table, [])
  {
    forall k ensures KeyMatch(exact, table, [], table, map[], k) {
      assert forall w :: !Pending(map[], w, k);
    }
    forall k, v | (k, v) in acked ensures AckRecovered(table, [], k, v) {
      assert AckHeld(table, k, v);
    }
  }

  /** The empty log takes the old one's place. */
  lemma RotateKeepsInv(cfg: Config, s: State, p: Process, exact: bool)
    requires Inv(cfg, s, exact) && s.mem == Some(p) && p.phase == NewLog
    ensures Inv(cfg, RunningNext(cfg, s, p, RotateLog), exact)
  {
    var s' := RunningNext(cfg, s, p, RotateLog);
    assert s' == s.(disk := s.disk.(wal := Some(LogFile(cfg.crc, [])), walNew := None), logStart := |s.hist|,
                    mem := Some(p.(phase := Rotated)));
    RotatedKeepsInv(cfg, s, p, s', exact);
  }

  lemma RotatedKeepsInv(cfg: Config, s: State, p: Process, s': State, exact: bool)
    requires Inv(cfg, s, exact) && s.mem == Some(p) && p.inFlight == map[]
    requires s.disk.snapshot == Some(p.table) && s.snapAt == |s.hist|
    requires s' == s.(disk := s.disk.(wal := Some(LogFile(cfg.crc, [])), walNew := None), logStart := |s.hist|,
                      mem := Some(p.(phase := Rotated)))
    ensures Inv(cfg, s', exact)
  {
    assert LogOf(s') == [] && Base(cfg, s'.disk) == p.table;
    EmptyLogMatches(exact, p.table.entries, s.acked);
  }

  /** Open starts a process on what it recovered. */
  lemma OpenedMatches(cfg: Config, s: State, t: Table, exact: bool)
    requires DiskOk(cfg, s) && Replayable(Base(cfg, s.disk), LogOf(s)) && Replayed(Base(cfg, s.disk), LogOf(s), t)
    ensures AllMatch(exact, Base(cfg, s.disk).entries, LogOf(s), t.entries, map[]) && AcksHeld(s.acked, t.entries)
  {
    var base, log := Base(cfg, s.disk), LogOf(s);
    forall k ensures KeyMatch(exact, base.entries, log, t.entries, map[], k) {
      assert Folded(base, log, t, k);
      QuietMatch(exact, base.entries, log, t.entries, map[], k);
    }
    forall k, v | (k, v) in s.acked ensures AckHeld(t.entries, k, v) {
      assert AckRecovered(base.entries, log, k, v) && Folded(base, log, t, k);
    }
  }

  lemma OpenKeepsInv(cfg: Config, s: State, exact: bool)
    requires Inv(cfg, s, exact) && s.mem.None?
    ensures Inv(cfg, Next(cfg, s, Open), exact)
  {
    OpenMeaning(cfg, s);
    if OpenTable(cfg, s.disk).Some? {
      var s', t := Next(cfg, s, Open), OpenTable(cfg, s.disk).value;
      assert s' == s.(disk := s.disk.(wal := Some(OpenedLog(cfg, s.disk))), mem := Some(Process(t, map[], Idle)));
      OpenedKeepsInv(cfg, s, s', t, exact);
    }
  }

  lemma OpenedKeepsInv(cfg: Config, s: State, s': State, t: Table, exact: bool)
    requires DiskOk(cfg, s) && Replayable(Base(cfg, s.disk), LogOf(s)) && Replayed(Base(cfg, s.disk), LogOf(s), t)
    requires s' == s.(disk := s.disk.(wal := Some(LogFile(cfg.crc, LogOf(s)))), mem := Some(Process(t, map[], Idle)))
    ensures Inv(cfg, s', exact)
  {
    assert Base(cfg, s'.disk) == Base(cfg, s.disk) && LogOf(s') == LogOf(s);
    OpenedMatches(cfg, s, t, exact);
  }

  lemma StepKeepsInv(cfg: Config, s: State, e: Event, exact: bool)
    requires Inv(cfg, s, exact) && Disciplined(cfg, s, e, exact)
    ensures Inv(cfg, Next(cfg, s, e), exact)
  {
    match s.mem {
      case None =>
        if e.Open? {
          OpenKeepsInv(cfg, s, exact);
        } else {
          StoppedStep(cfg, s, e);
          StoppedKeepsInv(cfg, s, Next(cfg, s, e), exact);
        }
      case Some(p) =>
        RunningKeepsInv(cfg, s, p, e, exact);
    }
  }

  /** Without a process, only a torn Open changes anything: it leaves a log without header. */
  lemma StoppedStep(cfg: Config, s: State, e: Event)
    requires s.mem.None? && !e.Open?
    ensures var s' := Next(cfg, s, e);
      s' == s || (s.disk.wal.None? && ShortLog(s'.disk) && s' == s.(disk := s.disk.(wal := s'.disk.wal)))
  {
  }

  lemma StoppedKeepsInv(cfg: Config, s: State, s': State, exact: bool)
    requires Inv(cfg, s, exact) && s.mem.None?
    requires s' == s || (s.disk.wal.None? && ShortLog(s'.disk) && s' == s.(disk := s.disk.(wal := s'.disk.wal)))
    ensures Inv(cfg, s', exact)
  {
    assert LogOf(s') == LogOf(s) && Base(cfg, s'.disk) == Base(cfg, s.disk);
  }

  lemma RunningKeepsInv(cfg: Config, s: State, p: Process, e: Event, exact: bool)
    requires Inv(cfg, s, exact) && s.mem == Some(p) && Disciplined(cfg, s, e, exact)
    ensures Inv(cfg, RunningNext(cfg, s, p, e), exact)
  {
    match e {
      case Append(w, r) =>
        if p.phase == Idle && w !in p.inFlight {
          AppendKeepsDisk(cfg, s, p, w, r, exact);
          AppendKeepsProc(cfg, s, p, w, r, exact);
        }
      case TornAppend(r, n) =>
        if p.phase == Idle && Encodable(r) && n < |Encode(cfg.crc, r)| {
          TornAppendKeepsInv(cfg, s, r, n, exact);
        }
      case Apply(w) =>
        if w in p.inFlight {
          ApplyKeepsDisk(cfg, s, p, w, exact);
          ApplyKeepsProc(cfg, s, p, w, exact);
        }
      case Crash => CrashKeepsInv(cfg, s, exact);
      case RenameSnapshot =>
        if p.phase == Saved {
          RenameKeepsInv(cfg, s, p, exact);
        }
      case RotateLog =>
        if p.phase == NewLog {
          RotateKeepsInv(cfg, s, p, exact);
        }
      case TornCreateLog(n) =>
        if p.phase == Renamed && s.disk.walNew.None? && n < 8 {
          var s1 := s.(disk := s.disk.(walNew := Some(Header()[..n])));
          CrashKeepsInv(cfg, s, exact);
          assert LogOf(s1) == LogOf(s) && Base(cfg, s1.disk) == Base(cfg, s.disk);
        }
      case _ =>
        QuietStep(cfg, s, p, e);
        QuietChangeKeepsInv(cfg, s, p, RunningNext(cfg, s, p, e), exact);
    }
  }

  /** Logging and applying, if they are enabled. */
  lemma WriterSteps(cfg: Config, s: State, p: Process, e: Event)
    requires s.mem == Some(p) && (e.Append? || e.Apply?)
    ensures var s' := RunningNext(cfg, s, p, e);
      && (e.Append? && s' != s ==> s.disk.wal.Some? && s' == Logged(cfg, s, p, e.w, e.r))
      && (e.Apply? && s' != s ==> e.w in p.inFlight && s' == Applied(s, p, e.w))
  {
  }

  /** The two renames, if they are enabled: nothing in flight, memory and history stay, memory is the
      snapshot; the first leaves the log as it is, the second leaves it empty. */
  lemma RenamingSteps(cfg: Config, s: State, p: Process, e: Event)
    requires s.mem == Some(p) && PhaseOk(cfg, s, p) && (e.RenameSnapshot? || e.RotateLog?)
    ensures var s' := RunningNext(cfg, s, p, e);
      s' != s ==>
        && p.inFlight == map[] && s'.hist == s.hist && s'.disk.snapshot == Some(p.table)
        && s'.mem.Some? && s'.mem.value.inFlight == map[] && s'.mem.value.table == p.table
        && s'.logStart == if e.RenameSnapshot? then s.logStart else |s.hist|
  {
  }

  /** No other step touches snapshot or log records, and only an application touches memory. */
  lemma OtherSteps(cfg: Config, s: State, e: Event)
    requires !(s.mem.Some? && (e.Append? || e.RenameSnapshot? || e.RotateLog?))
    ensures var s' := Next(cfg, s, e);
      && s'.hist == s.hist && s'.logStart == s.logStart && s'.disk.snapshot == s.disk.snapshot
      && (s.mem.Some? && s'.mem.Some? && !e.Apply? ==> s'.mem.value.table == s.mem.value.table)
  {
  }

  /** Every event of the run is disciplined where it happens. */
  ghost predicate DisciplinedRun(cfg: Config, s: State, events: seq<Event>, exact: bool)
    decreases |events|
  {
    events == [] || (Disciplined(cfg, s, events[0], exact) && DisciplinedRun(cfg, Next(cfg, s, events[0]), events[1..], exact))
  }

  lemma {:induction false} RunsKeepInv(cfg: Config, s: State, events: seq<Event>, exact: bool)
    requires Inv(cfg, s, exact) && DisciplinedRun(cfg, s, events, exact)
    ensures Inv(cfg, Exec(cfg, s, events), exact)
    decreases |events|
  {
    if events != [] {
      StepKeepsInv(cfg, s, events[0], exact);
      RunsKeepInv(cfg, Next(cfg, s, events[0]), events[1..], exact);
    }
  }

  /** Durability over whole runs: any interleaving of writers, snapshot steps, torn writes,
      crashes and reopenings. Whenever Open succeeds, every acknowledged Add is there with its
      vector; the log file is a suffix of the history that begins no later than the snapshot. */
  lemma Durability(cfg: Config, events: seq<Event>)
    requires DisciplinedRun(cfg, Init(), events, false)
    ensures var s := Exec(cfg, Init(), events);
      && s.logStart <= s.snapAt <= |s.hist|
      && (s.mem.Some? ==> s.disk.wal == Some(LogFile(cfg.crc, s.hist[s.logStart..])))
      && (forall k, v :: (k, v) in s.acked && s.mem.Some? ==> AckHeld(s.mem.value.table.entries, k, v))
      && (forall k, v :: (k, v) in s.acked && OpenTable(cfg, s.disk).Some?
            ==> AckHeld(OpenTable(cfg, s.disk).value.entries, k, v))
  {
    InitOk(cfg, false);
    RunsKeepInv(cfg, Init(), events, false);
    var s := Exec(cfg, Init(), events);
    OpenMeaning(cfg, s);
    forall k, v | (k, v) in s.acked && OpenTable(cfg, s.disk).Some?
      ensures AckHeld(OpenTable(cfg, s.disk).value.entries, k, v)
    {
      assert AckRecovered(Base(cfg, s.disk).entries, LogOf(s), k, v);
      assert Folded(Base(cfg, s.disk), LogOf(s), OpenTable(cfg, s.disk).value, k);
    }
  }

  /** In every reachable state Open succeeds exactly if the log file has its header and the log
      fits the index over the snapshot. */
  lemma OpensExactlyIf(cfg: Config, events: seq<Event>)
    requires DisciplinedRun(cfg, Init(), events, false)
    ensures var s := Exec(cfg, Init(), events);
      OpenTable(cfg, s.disk).Some? <==> Replayable(Base(cfg, s.disk), LogOf(s)) && !ShortLog(s.disk)
  {
    InitOk(cfg, false);
    RunsKeepInv(cfg, Init(), events, false);
    OpenMeaning(cfg, Exec(cfg, Init(), events));
  }

  lemma DyingFrame(cfg: Config, s: State, p: Process, e: Event)
    requires s.mem == Some(p) && Next(cfg, s, e).mem.None?
    ensures var s' := Next(cfg, s, e);
      && s'.hist == s.hist && s'.logStart == s.logStart && s'.disk.snapshot == s.disk.snapshot
      && (ShortLog(s'.disk) ==> ShortLog(s.disk)) && (s.disk.wal.Some? <==> s'.disk.wal.Some?)
  {
  }

  /** However a process dies, in the middle of an append or of creating a log included, Open
      makes of the files what it would have made of them just before. */
  lemma DyingChangesNothing(cfg: Config, s: State, e: Event, exact: bool)
    requires Inv(cfg, s, exact) && Disciplined(cfg, s, e, exact) && s.mem.Some? && Next(cfg, s, e).mem.None?
    ensures OpenTable(cfg, Next(cfg, s, e).disk) == OpenTable(cfg, s.disk)
  {
    DyingFrame(cfg, s, s.mem.value, e);
    StepKeepsInv(cfg, s, e, exact);
    SameLogOpensSame(cfg, s, Next(cfg, s, e));
  }

  lemma SameLogOpensSame(cfg: Config, s: State, s': State)
    requires DiskOk(cfg, s) && DiskOk(cfg, s') && s.mem.Some?
    requires s'.hist == s.hist && s'.logStart == s.logStart && s'.disk.snapshot == s.disk.snapshot
    requires ShortLog(s'.disk) ==> ShortLog(s.disk)
    ensures OpenTable(cfg, s'.disk) == OpenTable(cfg, s.disk)
  {
    OpenMeaning(cfg, s);
    OpenMeaning(cfg, s');
    assert LogOf(s') == LogOf(s) && Base(cfg, s'.disk) == Base(cfg, s.disk) && !ShortLog(s.disk);
  }

  /** The writers finish in this order. */
  function Applies(order: seq<nat>): seq<Event> {
    seq(|order|, i requires 0 <= i < |order| => Apply(order[i]))
  }

  lemma ApplyFrame(cfg: Config, s: State, w: nat)
    requires s.mem.Some?
    ensures var s' := Next(cfg, s, Apply(w));
      && s'.mem.Some? && s'.mem.value.phase == s.mem.value.phase && s'.disk == s.disk
      && s'.mem.value.inFlight == s.mem.value.inFlight - {w}
  {
    if w !in s.mem.value.inFlight {
      assert s.mem.value.inFlight - {w} == s.mem.value.inFlight;
    }
  }

  lemma {:induction false} WritersFinish(cfg: Config, s: State, order: seq<nat>, exact: bool)
    requires s.mem.Some?
    ensures DisciplinedRun(cfg, s, Applies(order), exact)
    ensures var s' := Exec(cfg, s, Applies(order));
      && s'.mem.Some? && s'.mem.value.phase == s.mem.value.phase && s'.disk == s.disk
      && (forall w :: w in s'.mem.value.inFlight <==> w in s.mem.value.inFlight && w !in order)
    decreases |order|
  {
    if order == [] {
      assert Applies(order) == [];
    } else {
      assert Applies(order)[0] == Apply(order[0]) && Applies(order)[1..] == Applies(order[1..]);
      ApplyFrame(cfg, s, order[0]);
      WritersFinish(cfg, Next(cfg, s, Apply(order[0])), order[1..], exact);
      assert forall w :: w in order <==> w == order[0] || w in order[1..];
    }
  }

  /** With no writer in flight, recovery is memory, tombstones included. */
  lemma QuietRecovery(cfg: Config, s: State, p: Process)
    requires Inv(cfg, s, true) && s.mem == Some(p) && p.inFlight == map[] && OpenTable(cfg, s.disk).Some?
    ensures OpenTable(cfg, s.disk) == Some(p.table)
  {
    OpenMeaning(cfg, s);
    var base, log, t := Base(cfg, s.disk), LogOf(s), OpenTable(cfg, s.disk).value;
    forall k ensures Lookup(t.entries, k) == Lookup(p.table.entries, k) {
      assert KeyMatch(true, base.entries, log, p.table.entries, p.inFlight, k) && Folded(base, log, t, k);
      QuietMatch(true, base.entries, log, p.table.entries, p.inFlight, k);
    }
    SameLookups(t.entries, p.table.entries);
  }

  /** Exact recovery: however the process dies, what Open recovers is memory entry by entry,
      tombstones included, as it would be once the writers in flight have finished, in whatever
      order they do. */
  lemma ExactRecovery(cfg: Config, events: seq<Event>, order: seq<nat>, e: Event)
    requires DisciplinedRun(cfg, Init(), events + [e], true)
    requires var s := Exec(cfg, Init(), events);
      && s.mem.Some? && Next(cfg, s, e).mem.None?
      && forall w :: w in s.mem.value.inFlight ==> w in order
    ensures var s := Exec(cfg, Init(), events);
      var t := OpenTable(cfg, Next(cfg, s, e).disk);
      t.Some? ==> Exec(cfg, s, Applies(order)).mem == Some(Process(t.value, map[], s.mem.value.phase))
  {
    var s := Exec(cfg, Init(), events);
    InitOk(cfg, true);
    RunSplits(cfg, Init(), events, e, true);
    RunsKeepInv(cfg, Init(), events, true);
    DyingChangesNothing(cfg, s, e, true);
    if OpenTable(cfg, s.disk).Some? {
      WritersFinish(cfg, s, order, true);
      var s' := Exec(cfg, s, Applies(order));
      RunsKeepInv(cfg, s, Applies(order), true);
      assert s'.mem.value.inFlight == map[];
      QuietRecovery(cfg, s', s'.mem.value);
    }
  }

  lemma {:induction false} RunSplits(cfg: Config, s: State, events: seq<Event>, e: Event, exact: bool)
    requires DisciplinedRun(cfg, s, events + [e], exact)
    ensures DisciplinedRun(cfg, s, events, exact) && Disciplined(cfg, Exec(cfg, s, events), e, exact)
    decreases |events|
  {
    if events != [] {
      assert (events + [e])[1..] == events[1..] + [e];
      RunSplits(cfg, Next(cfg, s, events[0]), events[1..], e, exact);
    }
  }

  /** The condition on late tombstones is exact: at the moment the new snapshot takes effect with
      the old log still in place, Open recovers memory if and only if no key has one. */
  lemma RenameIsExact(cfg: Config, events: seq<Event>)
    requires DisciplinedRun(cfg, Init(), events, true)
    requires var s := Exec(cfg, Init(), events);
      && s.mem.Some? && s.mem.value.phase == Saved && Replayable(s.mem.value.table, LogOf(s))
    ensures var s := Exec(cfg, Init(), events);
      OpenTable(cfg, Next(cfg, s, RenameSnapshot).disk) == Some(s.mem.value.table) <==> NoLateTombstone(cfg, s)
  {
    var s := Exec(cfg, Init(), events);
    InitOk(cfg, true);
    RunsKeepInv(cfg, Init(), events, true);
    RenameOutcome(cfg, s, s.mem.value);
  }

  /** What Open makes of a log that holds exactly rs. */
  lemma OpenOf(cfg: Config, disk: Disk, rs: seq<Record>)
    requires disk.wal == Some(LogFile(cfg.crc, rs)) && AllFit(rs)
    ensures OpenTable(cfg, disk) == ApplyAll(Base(cfg, disk), rs)
  {
    assert LogFile(cfg.crc, rs) == LogFile(cfg.crc, rs) + [];
    ScanTorn(cfg.crc, rs, []);
  }

  /** Before the rename, memory is the old snapshot with the log replayed over it. */
  lemma SavedIsReplayed(cfg: Config, s: State, p: Process)
    requires Inv(cfg, s, true) && s.mem == Some(p) && p.phase == Saved && Replayable(p.table, LogOf(s))
    ensures ApplyAll(Base(cfg, s.disk), LogOf(s)) == Some(p.table) && s.disk.wal == Some(LogFile(cfg.crc, LogOf(s)))
    ensures AllFit(LogOf(s)) && s.disk.tmp == Whole(p.table) && TableOk(cfg, Base(cfg, s.disk))
  {
    RebaseNeedsMore(Base(cfg, s.disk), p.table, LogOf(s));
    OpenMeaning(cfg, s);
    QuietRecovery(cfg, s, p);
  }

  lemma RenameOutcome(cfg: Config, s: State, p: Process)
    requires Inv(cfg, s, true) && s.mem == Some(p) && p.phase == Saved && Replayable(p.table, LogOf(s))
    ensures OpenTable(cfg, Next(cfg, s, RenameSnapshot).disk) == Some(p.table) <==> NoLateTombstone(cfg, s)
  {
    SavedIsReplayed(cfg, s, p);
    RenamedOpens(cfg, s, p, Base(cfg, s.disk), LogOf(s));
  }

  lemma RenamedOpens(cfg: Config, s: State, p: Process, base: Table, log: seq<Record>)
    requires s.mem == Some(p) && p.phase == Saved && s.disk.tmp == Whole(p.table)
    requires s.disk.wal == Some(LogFile(cfg.crc, log)) && AllFit(log) && |base.entries| <= base.capacity
    requires ApplyAll(base, log) == Some(p.table)
    ensures OpenTable(cfg, Next(cfg, s, RenameSnapshot).disk) == Some(p.table)
       <==> forall k :: !LateTombstone(Lookup(base.entries, k), log, k)
  {
    var disk' := Next(cfg, s, RenameSnapshot).disk;
    assert disk'.wal == s.disk.wal && Base(cfg, disk') == p.table;
    ReopenOverlap(cfg, disk', base, log, p.table);
  }

  lemma ReopenOverlap(cfg: Config, disk: Disk, base: Table, log: seq<Record>, t: Table)
    requires disk.wal == Some(LogFile(cfg.crc, log)) && Base(cfg, disk) == t && AllFit(log)
    requires |base.entries| <= base.capacity && ApplyAll(base, log) == Some(t)
    ensures OpenTable(cfg, disk) == Some(t) <==> forall k :: !LateTombstone(Lookup(base.entries, k), log, k)
  {
    OpenOf(cfg, disk, log);
    assert OpsKnown(log);
    ReplayOverlap(base, log);
  }
}
