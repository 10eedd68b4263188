/** Durability with the real steps of addPoint: what every run of DurableSlots keeps, under the guard
    on vectors alone. Two racing Adds of one key and one vector may both succeed and take two slots;
    acknowledged vectors survive even so. */
module DurableSlotsProof {
  import opened Bytes
  import opened KeyTable
  import opened Options
  import opened WalFormat
  import opened WalFile
  import opened Replay
  import opened SlotStore
  import opened DurableSlots
  import opened SlotReplay
  import opened SlotMemory
  import D = Durable
  import L = LabelRace
  import P = DurableProof

  ghost predicate TornFile(cfg: Setup, file: seq<U8>, rs: seq<Record>) {
    exists tail :: file == LogFile(cfg.crc, rs) + tail && ReadRecord(cfg.crc, tail) == None
  }

  ghost predicate FileOk(cfg: Setup, s: State) {
    if s.mem.Some? then s.disk.wal == Some(LogFile(cfg.crc, LogOf(s)))
    else match s.disk.wal
      case None => s.hist == [] && s.disk.snapshot.None?
      case Some(file) => TornFile(cfg, file, LogOf(s)) || (|file| < 8 && s.hist == [] && s.disk.snapshot.None?)
  }

  ghost predicate AcksRecovered(cfg: Setup, acked: set<(Key, Vector)>, base: seq<Slot>, log: seq<Record>) {
    forall k, v :: (k, v) in acked ==> Recovers(cfg, base, log, k, v)
  }

  ghost predicate AcksHeld(acked: set<(Key, Vector)>, s: Store) {
    forall k, v :: (k, v) in acked ==> AckHeld(s, k, v)
  }

  ghost predicate DiskOk(cfg: Setup, s: State) {
    var base, log := SavedSlots(s.disk), LogOf(s);
    && s.logStart <= s.snapAt <= |s.hist| && P.AllFit(s.hist)
    && |base| <= cfg.capacity && Uniform(base) && FileOk(cfg, s)
    && (Replays(cfg, base, log) ==> AcksRecovered(cfg, s.acked, base, log))
  }

  ghost predicate PhaseOk(cfg: Setup, s: State, p: Process) {
    && (p.phase != D.Idle ==> p.memory.flights == map[])
    && (p.phase == D.Saved ==> s.disk.tmp == Whole(p.memory.store.slots))
    && (p.phase == D.Renamed || p.phase == D.NewLog || p.phase == D.Rotated ==>
          s.disk.snapshot == Some(p.memory.store.slots) && s.snapAt == |s.hist|)
    && (p.phase == D.NewLog ==> s.disk.walNew == Some(LogFile(cfg.crc, [])))
  }

  ghost predicate ProcOk(cfg: Setup, s: State, p: Process) {
    var base, log := SavedSlots(s.disk), LogOf(s);
    && MemOk(cfg, base, p.memory) && PhaseOk(cfg, s, p) && AcksHeld(s.acked, p.memory.store)
    && (Replays(cfg, base, log) ==> VecOk(cfg, base, log, p.memory))
  }

  ghost predicate Inv(cfg: Setup, s: State) {
    DiskOk(cfg, s) && (s.mem.Some? ==> ProcOk(cfg, s, s.mem.value))
  }

  /** What is asked of the callers: no Add of an absent key while one of another vector is in flight,
      and vectors within the reader's limit. */
  ghost predicate Disciplined(cfg: Setup, s: State, e: D.Event) {
    && (e.Append? && s.mem.Some? ==> Fits(e.r) && SameVector(s.mem.value.memory, WriteOf(cfg, e.r)))
    && (e.TornAppend? ==> |Payload(e.r)| < TWO_32)
  }

  ghost predicate DisciplinedRun(cfg: Setup, s: State, events: seq<D.Event>)
    decreases |events|
  {
    events == [] || (Disciplined(cfg, s, events[0]) && DisciplinedRun(cfg, Next(cfg, s, events[0]), events[1..]))
  }

  lemma InitOk(cfg: Setup)
    ensures Inv(cfg, Init())
  {
  }

  /** While a process runs, held is recovered. */
  lemma HeldIsRecovered(cfg: Setup, acked: set<(Key, Vector)>, base: seq<Slot>, log: seq<Record>, m: L.Memory)
    requires AcksHeld(acked, m.store) && MemOk(cfg, base, m) && VecOk(cfg, base, log, m)
    ensures AcksRecovered(cfg, acked, base, log)
  {
    forall k, v | (k, v) in acked ensures Recovers(cfg, base, log, k, v) {
      assert AckHeld(m.store, k, v) && Leads(m.store, k);
    }
  }

  // --- opening

  lemma OpenTornLog(cfg: Setup, s: State, file: seq<U8>)
    requires DiskOk(cfg, s) && s.disk.wal == Some(file) && |file| >= 8
    ensures OpenStore(cfg, s.disk) == ReplayAll(cfg, Base(cfg, s.disk), LogOf(s))
    ensures OpenedLog(cfg, s.disk) == LogFile(cfg.crc, LogOf(s))
  {
    var log := LogOf(s);
    assert forall r :: r in log ==> Fits(r);
    if s.mem.Some? {
      assert file == file + [];
      ScanTorn(cfg.crc, log, []);
    } else {
      var tail :| file == LogFile(cfg.crc, log) + tail && ReadRecord(cfg.crc, tail) == None;
      ScanTorn(cfg.crc, log, tail);
    }
  }

  /** Open succeeds if and only if the log file has its header, its Adds have the right dimension, and
      there is a slot for every logged key that has none in the snapshot. */
  lemma OpenMeaning(cfg: Setup, s: State)
    requires KeepsLength(cfg) && DiskOk(cfg, s)
    ensures OpenStore(cfg, s.disk).Some? <==> Replays(cfg, SavedSlots(s.disk), LogOf(s)) && !ShortLog(s.disk)
    ensures OpenStore(cfg, s.disk).Some? ==>
      && OpenedLog(cfg, s.disk) == LogFile(cfg.crc, LogOf(s))
      && Rebuild(cfg, Base(cfg, s.disk), LogOf(s), OpenStore(cfg, s.disk).value)
  {
    var log := LogOf(s);
    LoadedOk(cfg, SavedSlots(s.disk));
    assert OpsKnown(log) by {
      assert forall r :: r in log ==> Fits(r);
    }
    ReplayAllMeaning(cfg, Base(cfg, s.disk), log);
    if s.disk.wal.Some? && !ShortLog(s.disk) {
      OpenTornLog(cfg, s, s.disk.wal.value);
    }
  }

  lemma KeyOfBase(cfg: Setup, base: seq<Slot>, store: Store, k: Key)
    requires StoreOk(cfg, store) && Extends(base, store.slots) && HasKey(base, k)
    ensures k in store.ids
  {
    var i :| 0 <= i < |base| && base[i].key == k;
    assert store.slots[i].key == k;
  }

  /** A fresh process on what was replayed. */
  lemma OpenedOk(cfg: Setup, base: seq<Slot>, log: seq<Record>, store: Store)
    requires Rebuild(cfg, Loaded(cfg.dim, cfg.capacity, base), log, store)
    ensures MemOk(cfg, base, L.Memory(store, map[])) && VecOk(cfg, base, log, L.Memory(store, map[]))
  {
    var m := L.Memory(store, map[]);
    forall i: nat | i < |store.slots| ensures L.SlotCovered(m, i) {
      assert store.slots[i].key in KeysOf(store.slots);
    }
    forall k | HasKey(base, k) ensures k in store.ids {
      KeyOfBase(cfg, base, store, k);
    }
    forall k | k in AddKeys(log) ensures KeyKept(m, k) {
      assert k in KeysOf(store.slots);
    }
  }

  lemma OpenedHoldsOne(cfg: Setup, base: seq<Slot>, log: seq<Record>, store: Store, k: Key, v: Vector)
    requires Recovers(cfg, base, log, k, v) && Rebuild(cfg, Loaded(cfg.dim, cfg.capacity, base), log, store)
    ensures AckHeld(store, k, v)
  {
    KeysOfHas(base, k);
    assert k in KeysOf(store.slots) && Leads(store, k);
    var i := store.ids[k];
    assert Recovers(cfg, base, log, store.slots[i].key, store.slots[i].vector);
    RecoversOnce(cfg, base, log, k, v, store.slots[i].vector);
  }

  lemma OpenedHolds(cfg: Setup, acked: set<(Key, Vector)>, base: seq<Slot>, log: seq<Record>, store: Store)
    requires AcksRecovered(cfg, acked, base, log) && Rebuild(cfg, Loaded(cfg.dim, cfg.capacity, base), log, store)
    ensures AcksHeld(acked, store)
  {
    forall k, v | (k, v) in acked ensures AckHeld(store, k, v) {
      OpenedHoldsOne(cfg, base, log, store, k, v);
    }
  }

  lemma RecoversOnce(cfg: Setup, base: seq<Slot>, log: seq<Record>, k: Key, v: Vector, v': Vector)
    requires Recovers(cfg, base, log, k, v) && Recovers(cfg, base, log, k, v')
    ensures v == v'
  {
  }

  lemma OpenKeepsInv(cfg: Setup, s: State)
    requires KeepsLength(cfg) && Inv(cfg, s) && s.mem.None?
    ensures Inv(cfg, Next(cfg, s, D.Open))
  {
    OpenMeaning(cfg, s);
    if OpenStore(cfg, s.disk).Some? {
      var store, s' := OpenStore(cfg, s.disk).value, Next(cfg, s, D.Open);
      OpenedOk(cfg, SavedSlots(s.disk), LogOf(s), store);
      OpenedHolds(cfg, s.acked, SavedSlots(s.disk), LogOf(s), store);
      StartKeepsInv(cfg, s, s', Process(L.Memory(store, map[]), D.Idle));
    }
  }

  lemma StartKeepsInv(cfg: Setup, s: State, s': State, p: Process)
    requires DiskOk(cfg, s) && s' == s.(mem := Some(p), disk := s.disk.(wal := Some(LogFile(cfg.crc, LogOf(s)))))
    requires MemOk(cfg, SavedSlots(s.disk), p.memory) && VecOk(cfg, SavedSlots(s.disk), LogOf(s), p.memory)
    requires p.phase == D.Idle && AcksHeld(s.acked, p.memory.store)
    ensures Inv(cfg, s')
  {
    assert LogOf(s') == LogOf(s) && SavedSlots(s'.disk) == SavedSlots(s.disk);
  }

  // --- writers

  lemma AppendKeepsInv(cfg: Setup, s: State, p: Process, w: nat, r: Record)
    requires KeepsLength(cfg) && Inv(cfg, s) && s.mem == Some(p) && p.phase == D.Idle && w !in p.memory.flights
    requires Disciplined(cfg, s, D.Append(w, r))
    ensures Inv(cfg, Logged(cfg, s, p, w, r))
  {
    var s', base, log := Logged(cfg, s, p, w, r), SavedSlots(s.disk), LogOf(s);
    var m' := L.Next(p.memory, L.Enter(w, WriteOf(cfg, r)));
    assert LogOf(s') == log + [r];
    LogGrows(cfg.crc, log, r);
    EnterKeepsMemOk(cfg, base, p.memory, w, WriteOf(cfg, r));
    if Replays(cfg, base, log + [r]) {
      ReplaysPrefix(cfg, base, log, r);
      EnterKeepsVecOk(cfg, base, log, p.memory, w, r);
      HeldIsRecovered(cfg, s.acked, base, log + [r], m');
    }
    LoggedOk(cfg, s, p, w, r, s');
  }

  lemma LoggedOk(cfg: Setup, s: State, p: Process, w: nat, r: Record, s': State)
    requires Inv(cfg, s) && s.mem == Some(p) && p.phase == D.Idle && Fits(r) && w !in p.memory.flights
    requires s' == Logged(cfg, s, p, w, r) && LogOf(s') == LogOf(s) + [r]
    requires s'.disk.wal == Some(LogFile(cfg.crc, LogOf(s')))
    requires MemOk(cfg, SavedSlots(s.disk), s'.mem.value.memory)
    requires Replays(cfg, SavedSlots(s.disk), LogOf(s')) ==>
      VecOk(cfg, SavedSlots(s.disk), LogOf(s'), s'.mem.value.memory)
      && AcksRecovered(cfg, s.acked, SavedSlots(s.disk), LogOf(s'))
    ensures Inv(cfg, s')
  {
    assert SavedSlots(s'.disk) == SavedSlots(s.disk) && s'.mem.value.memory.store == p.memory.store;
    assert P.AllFit(s'.hist);
  }

  lemma AdvanceKeepsAcks(cfg: Setup, s: State, p: Process, w: nat)
    requires Inv(cfg, s) && s.mem == Some(p) && w in p.memory.flights
    ensures AcksHeld(Advanced(s, p, w).acked, L.Advance(p.memory, w).0.store)
  {
    var s', base := Advanced(s, p, w), SavedSlots(s.disk);
    forall k, v | (k, v) in s'.acked ensures AckHeld(L.Advance(p.memory, w).0.store, k, v) {
      if (k, v) in s.acked {
        AdvanceKeepsAck(cfg, base, p.memory, w, k, v);
      } else {
        AnsweredIsHeld(cfg, base, p.memory, w);
      }
    }
  }

  lemma ApplyKeepsInv(cfg: Setup, s: State, p: Process, w: nat)
    requires Inv(cfg, s) && s.mem == Some(p) && w in p.memory.flights
    ensures Inv(cfg, Advanced(s, p, w))
  {
    var s', base, log := Advanced(s, p, w), SavedSlots(s.disk), LogOf(s);
    var m' := L.Advance(p.memory, w).0;
    AdvanceKeepsAcks(cfg, s, p, w);
    AdvanceKeepsMemOk(cfg, base, p.memory, w);
    if Replays(cfg, base, log) {
      AdvanceKeepsVecOk(cfg, base, log, p.memory, w);
      HeldIsRecovered(cfg, s'.acked, base, log, m');
    }
    assert LogOf(s') == log && s'.disk == s.disk && p.phase == D.Idle;
  }

  // --- snapshot

  lemma {:induction false} KeysGrow(base: seq<Slot>, slots: seq<Slot>)
    requires Extends(base, slots)
    ensures |KeysOf(slots) - KeysOf(base)| <= |slots| - |base|
    decreases |slots|
  {
    if |slots| == |base| {
      SameKeys(base, slots);
      assert KeysOf(slots) - KeysOf(base) == {};
    } else {
      var before, last := slots[..|slots| - 1], slots[|slots| - 1];
      assert slots == before + [last];
      KeysOfMore(before, last);
      KeysGrow(base, before);
      SubsetSize(KeysOf(slots) - KeysOf(base), (KeysOf(before) - KeysOf(base)) + {last.key});
    }
  }

  /** Replaying over memory can only succeed if replaying over the old snapshot did. */
  lemma RebaseNeedsMore(cfg: Setup, base: seq<Slot>, slots: seq<Slot>, log: seq<Record>)
    requires Extends(base, slots) && Replays(cfg, slots, log)
    ensures Replays(cfg, base, log)
  {
    KeysGrow(base, slots);
    var a, b, c := AddKeys(log) - KeysOf(base), AddKeys(log) - KeysOf(slots), KeysOf(slots) - KeysOf(base);
    SubsetSize(a, b + c);
    assert |b + c| <= |b| + |c|;
  }

  /** Memory as the new base, with nobody in flight. */
  lemma RebasedOk(cfg: Setup, base: seq<Slot>, m: L.Memory)
    requires MemOk(cfg, base, m) && m.flights == map[]
    ensures MemOk(cfg, m.store.slots, m)
  {
    forall k | HasKey(m.store.slots, k) ensures k in m.store.ids {
      var i :| 0 <= i < |m.store.slots| && m.store.slots[i].key == k;
      assert L.SlotCovered(m, i);
    }
  }

  lemma RebasedVecOk(cfg: Setup, m: L.Memory, log: seq<Record>)
    requires MemOk(cfg, m.store.slots, m) && m.flights == map[]
    requires forall k :: k in AddKeys(log) ==> KeyKept(m, k)
    ensures VecOk(cfg, m.store.slots, log, m)
  {
    forall i | 0 <= i < |m.store.slots|
      ensures Recovers(cfg, m.store.slots, log, m.store.slots[i].key, m.store.slots[i].vector)
    {
      assert HasKey(m.store.slots, m.store.slots[i].key);
    }
  }

  /** The snapshot takes effect, with the old log or an empty one. */
  lemma RebaseKeepsInv(cfg: Setup, s: State, p: Process, s': State, p': Process)
    requires Inv(cfg, s) && s.mem == Some(p) && p.memory.flights == map[] && p' == p.(phase := p'.phase)
    requires s' == s.(mem := Some(p'), disk := s'.disk, logStart := s'.logStart, snapAt := s'.snapAt)
    requires s'.disk.snapshot == Some(p.memory.store.slots) && s'.disk.wal == Some(LogFile(cfg.crc, LogOf(s')))
    requires PhaseOk(cfg, s', p') && s'.logStart <= s'.snapAt <= |s.hist|
    requires LogOf(s') == [] || LogOf(s') == LogOf(s)
    ensures Inv(cfg, s')
  {
    var slots, log', m := p.memory.store.slots, LogOf(s'), p.memory;
    assert SavedSlots(s'.disk) == slots;
    RebasedOk(cfg, SavedSlots(s.disk), m);
    if Replays(cfg, slots, log') {
      if log' == LogOf(s) {
        RebaseNeedsMore(cfg, SavedSlots(s.disk), slots, log');
      }
      RebasedVecOk(cfg, m, log');
      HeldIsRecovered(cfg, s.acked, slots, log', m);
    }
  }

  /** From s to s' only the phase, the ".tmp" file and the new log's file change. */
  ghost predicate QuietChange(cfg: Setup, s: State, p: Process, s': State) {
    && s'.mem.Some? && s'.mem.value == p.(phase := s'.mem.value.phase) && PhaseOk(cfg, s', s'.mem.value)
    && s' == s.(mem := s'.mem, disk := s'.disk)
    && s'.disk == s.disk.(tmp := s'.disk.tmp, walNew := s'.disk.walNew)
  }

  lemma QuietChangeKeepsInv(cfg: Setup, s: State, p: Process, s': State)
    requires Inv(cfg, s) && s.mem == Some(p) && QuietChange(cfg, s, p, s')
    ensures Inv(cfg, s')
  {
    assert LogOf(s') == LogOf(s) && SavedSlots(s'.disk) == SavedSlots(s.disk);
  }

  lemma QuietStep(cfg: Setup, s: State, p: Process, e: D.Event)
    requires s.mem == Some(p) && PhaseOk(cfg, s, p) && P.IsQuiet(e)
    ensures QuietChange(cfg, s, p, RunningNext(cfg, s, p, e))
  {
  }

  /** What the two renames do, if they are enabled. */
  lemma RenameSteps(cfg: Setup, s: State, p: Process, e: D.Event)
    requires s.mem == Some(p) && PhaseOk(cfg, s, p) && FileOk(cfg, s) && s.logStart <= s.snapAt <= |s.hist|
    requires e.RenameSnapshot? || e.RotateLog?
    ensures var s' := RunningNext(cfg, s, p, e);
      s' != s ==>
        && p.memory.flights == map[] && s'.mem.Some? && s'.mem.value == p.(phase := s'.mem.value.phase)
        && s' == s.(mem := s'.mem, disk := s'.disk, logStart := s'.logStart, snapAt := s'.snapAt)
        && s'.disk.snapshot == Some(p.memory.store.slots) && s'.disk.wal == Some(LogFile(cfg.crc, LogOf(s')))
        && PhaseOk(cfg, s', s'.mem.value) && s'.logStart <= s'.snapAt <= |s.hist|
        && (LogOf(s') == [] || LogOf(s') == LogOf(s))
  {
  }

  // --- death

  /** The process is gone; the log file is as it was, or has a torn record at its end. */
  ghost predicate DeathChange(cfg: Setup, s: State, s': State) {
    && s'.mem.None? && s' == s.(mem := None, disk := s'.disk) && s'.disk.snapshot == s.disk.snapshot
    && s.disk.wal.Some? && s'.disk.wal.Some?
    && exists tail :: s'.disk.wal.value == s.disk.wal.value + tail && ReadRecord(cfg.crc, tail) == None
  }

  lemma DeathKeepsInv(cfg: Setup, s: State, s': State)
    requires Inv(cfg, s) && s.mem.Some? && DeathChange(cfg, s, s')
    ensures Inv(cfg, s')
  {
    assert LogOf(s') == LogOf(s) && SavedSlots(s'.disk) == SavedSlots(s.disk);
  }

  lemma DeathStep(cfg: Setup, s: State, p: Process, e: D.Event)
    requires s.mem == Some(p) && s.disk.wal.Some? && Disciplined(cfg, s, e)
    requires e.Crash? || e.TornAppend? || e.TornCreateLog?
    ensures RunningNext(cfg, s, p, e) == s || DeathChange(cfg, s, RunningNext(cfg, s, p, e))
  {
    var s' := RunningNext(cfg, s, p, e);
    if s' != s {
      if e.TornAppend? {
        TornUnread(cfg.crc, e.r, e.n);
        assert s'.disk.wal.value == s.disk.wal.value + Encode(cfg.crc, e.r)[..e.n];
      } else {
        assert ReadRecord(cfg.crc, []) == None;
        assert s'.disk.wal.value == s.disk.wal.value + [];
      }
    }
  }

  lemma StoppedStep(cfg: Setup, s: State, e: D.Event)
    requires s.mem.None? && !e.Open?
    ensures var s' := Next(cfg, s, e);
      s' == s || (s.disk.wal.None? && ShortLog(s'.disk) && s' == s.(disk := s.disk.(wal := s'.disk.wal)))
  {
  }

  lemma StoppedKeepsInv(cfg: Setup, s: State, s': State)
    requires Inv(cfg, s) && s.mem.None?
    requires s' == s || (s.disk.wal.None? && ShortLog(s'.disk) && s' == s.(disk := s.disk.(wal := s'.disk.wal)))
    ensures Inv(cfg, s')
  {
    assert LogOf(s') == LogOf(s) && SavedSlots(s'.disk) == SavedSlots(s.disk);
  }

  // --- runs

  lemma WriterSteps(cfg: Setup, s: State, p: Process, e: D.Event)
    requires s.mem == Some(p) && (e.Append? || e.Apply?)
    ensures var s' := RunningNext(cfg, s, p, e);
      && (e.Append? && s' != s ==> p.phase == D.Idle && e.w !in p.memory.flights && s.disk.wal.Some?
                                   && s' == Logged(cfg, s, p, e.w, e.r))
      && (e.Apply? && s' != s ==> e.w in p.memory.flights && s' == Advanced(s, p, e.w))
  {
  }

  lemma RunningKeepsInv(cfg: Setup, s: State, p: Process, e: D.Event)
    requires KeepsLength(cfg) && Inv(cfg, s) && s.mem == Some(p) && Disciplined(cfg, s, e)
    ensures Inv(cfg, RunningNext(cfg, s, p, e))
  {
    var s' := RunningNext(cfg, s, p, e);
    if s' != s {
      if e.Append? || e.Apply? {
        WriterSteps(cfg, s, p, e);
        if e.Append? {
          AppendKeepsInv(cfg, s, p, e.w, e.r);
        } else {
          ApplyKeepsInv(cfg, s, p, e.w);
        }
      } else if e.RenameSnapshot? || e.RotateLog? {
        RenameSteps(cfg, s, p, e);
        RebaseKeepsInv(cfg, s, p, s', s'.mem.value);
      } else if e.Crash? || e.TornAppend? || e.TornCreateLog? {
        DeathStep(cfg, s, p, e);
        DeathKeepsInv(cfg, s, s');
      } else {
        QuietStep(cfg, s, p, e);
        QuietChangeKeepsInv(cfg, s, p, s');
      }
    }
  }

  lemma StepKeepsInv(cfg: Setup, s: State, e: D.Event)
    requires KeepsLength(cfg) && Inv(cfg, s) && Disciplined(cfg, s, e)
    ensures Inv(cfg, Next(cfg, s, e))
  {
    match s.mem {
      case Some(p) => RunningKeepsInv(cfg, s, p, e);
      case None =>
        if e.Open? {
          OpenKeepsInv(cfg, s);
        } else {
          StoppedStep(cfg, s, e);
          StoppedKeepsInv(cfg, s, Next(cfg, s, e));
        }
    }
  }

  lemma {:induction false} RunsKeepInv(cfg: Setup, s: State, events: seq<D.Event>)
    requires KeepsLength(cfg) && Inv(cfg, s) && DisciplinedRun(cfg, s, events)
    ensures Inv(cfg, Exec(cfg, s, events))
    decreases |events|
  {
    if events != [] {
      StepKeepsInv(cfg, s, events[0]);
      RunsKeepInv(cfg, Next(cfg, s, events[0]), events[1..]);
    }
  }

  /** Durability with the real steps: whenever Open succeeds, every acknowledged Add is there with its
      vector, over every interleaving of check, claim and label steps, snapshot steps, torn writes,
      crashes and reopenings. */
  lemma Durability(cfg: Setup, events: seq<D.Event>)
    requires KeepsLength(cfg) && DisciplinedRun(cfg, Init(), events)
    ensures var s := Exec(cfg, Init(), events);
      && s.logStart <= s.snapAt <= |s.hist|
      && (s.mem.Some? ==> s.disk.wal == Some(LogFile(cfg.crc, LogOf(s))) && AcksHeld(s.acked, s.mem.value.memory.store))
      && (OpenStore(cfg, s.disk).Some? ==> AcksHeld(s.acked, OpenStore(cfg, s.disk).value))
  {
    InitOk(cfg);
    RunsKeepInv(cfg, Init(), events);
    RecoversAcks(cfg, Exec(cfg, Init(), events));
  }

  lemma RecoversAcks(cfg: Setup, s: State)
    requires KeepsLength(cfg) && Inv(cfg, s)
    ensures OpenStore(cfg, s.disk).Some? ==> AcksHeld(s.acked, OpenStore(cfg, s.disk).value)
  {
    OpenMeaning(cfg, s);
    if OpenStore(cfg, s.disk).Some? {
      OpenedHolds(cfg, s.acked, SavedSlots(s.disk), LogOf(s), OpenStore(cfg, s.disk).value);
    }
  }

  /** In every reachable state, races or not, Open succeeds if and only if the log file has its header,
      its Adds have the right dimension, and the snapshot's slots leave one for every logged key
      that has none. */
  lemma OpensExactlyIf(cfg: Setup, events: seq<D.Event>)
    requires KeepsLength(cfg) && DisciplinedRun(cfg, Init(), events)
    ensures var s := Exec(cfg, Init(), events);
      OpenStore(cfg, s.disk).Some? <==> Replays(cfg, SavedSlots(s.disk), LogOf(s)) && !ShortLog(s.disk)
  {
    InitOk(cfg);
    RunsKeepInv(cfg, Init(), events);
    OpenMeaning(cfg, Exec(cfg, Init(), events));
  }
}
