/** With the real steps of addPoint, and no two writes in flight that clash, the durable index behaves
    as the system with atomic applications; so exact recovery holds of it. */
module DurableRefine {
  import opened Bytes
  import opened KeyTable
  import opened Options
  import opened WalFormat
  import opened Replay
  import opened SlotStore
  import opened DurableSlots
  import opened SlotReplay
  import opened SlotShown
  import D = Durable
  import K = DurableKeys
  import L = LabelRace
  import P = DurableProof

  function Coarse(cfg: Setup): D.Config {
    D.Config(cfg.dim, cfg.capacity, cfg.crc)
  }

  ghost predicate TmpShown(cfg: Setup, f: Tmp, c: D.Tmp) {
    match f
    case NoTmp => c == D.NoTmp
    case Part => c == D.Part
    case Whole(slots) => c.Whole? && Shown(cfg, slots, c.table)
  }

  ghost predicate DiskShown(cfg: Setup, f: Disk, c: D.Disk) {
    && c.wal == f.wal && c.walNew == f.walNew && TmpShown(cfg, f.tmp, c.tmp)
    && (c.snapshot.Some? <==> f.snapshot.Some?)
    && (f.snapshot.Some? ==> Shown(cfg, f.snapshot.value, c.snapshot.value))
  }

  ghost predicate ProcShown(cfg: Setup, f: Process, c: D.Process) {
    c.phase == f.phase && MemShown(cfg, f.memory, c.table, c.inFlight)
  }

  /** The atomic system's state c shows the state f. */
  ghost predicate Rel(cfg: Setup, f: State, c: D.State) {
    && c.hist == f.hist && c.logStart == f.logStart && c.snapAt == f.snapAt && DiskShown(cfg, f.disk, c.disk)
    && (c.mem.Some? <==> f.mem.Some?) && (f.mem.Some? ==> ProcShown(cfg, f.mem.value, c.mem.value))
  }

  /** No key without a slot in the snapshot has a late tombstone in the log. */
  ghost predicate NoLateTombstone(s: State) {
    forall k :: !HasKey(SavedSlots(s.disk), k) ==> !LateTombstone(None, LogOf(s), k)
  }

  /** What is asked of the callers: no write that clashes with one in flight, vectors within the
      reader's limit, and no late tombstone when a snapshot takes effect, unless the log could not be
      replayed over it anyway. */
  ghost predicate Disciplined(cfg: Setup, s: State, e: D.Event) {
    && (e.Append? && s.mem.Some? ==> Fits(e.r) && Fitting(s.mem.value.memory, WriteOf(cfg, e.r)))
    && (e.TornAppend? ==> |Payload(e.r)| < TWO_32)
    && (e.RenameSnapshot? && s.mem.Some? && s.mem.value.phase == D.Saved ==>
          (Replays(cfg, s.mem.value.memory.store.slots, LogOf(s)) ==> NoLateTombstone(s)))
  }

  ghost predicate DisciplinedRun(cfg: Setup, s: State, events: seq<D.Event>)
    decreases |events|
  {
    events == [] || (Disciplined(cfg, s, events[0]) && DisciplinedRun(cfg, Next(cfg, s, events[0]), events[1..]))
  }

  /** The atomic system does nothing in this step. */
  ghost predicate Silent(cfg: Setup, s: State, e: D.Event) {
    Next(cfg, s, e) == s || (e.Apply? && s.mem.Some? && Stutters(s.mem.value.memory, e.w))
  }

  // --- the guard

  lemma FittingShown(cfg: Setup, m: L.Memory, t: Table, inFlight: map<nat, Record>, r: Record)
    requires MemShown(cfg, m, t, inFlight) && Fitting(m, WriteOf(cfg, r)) && KnownOp(r.op)
    ensures K.Fitting(true, t.entries, inFlight, r)
  {
    ShownKey(cfg, m.store.slots, t, r.key);
    forall v | K.Pending(inFlight, v, r.key) ensures !K.Clash(true, Lookup(t.entries, r.key), inFlight[v], r) {
      assert m.flights[v].write == WriteOf(cfg, inFlight[v]);
      assert !RealClash(r.key in m.store.ids, m.flights[v].write, WriteOf(cfg, r));
      if r.key in m.store.ids {
        assert Leads(m.store, r.key);
      } else if HasKey(m.store.slots, r.key) {
        var u := AbsentOnSlot(m, r.key);
        assert !RealClash(false, m.flights[u].write, WriteOf(cfg, r));
      }
    }
  }

  lemma {:induction false} KeysOfDistinct(slots: seq<Slot>)
    requires DistinctLabels(slots)
    ensures |KeysOf(slots)| == |slots|
  {
    if slots != [] {
      var before, last := slots[..|slots| - 1], slots[|slots| - 1];
      assert slots == before + [last];
      L.ClaimDistinct(before, last);
      KeysOfMore(before, last);
      KeysOfHas(before, last.key);
      KeysOfDistinct(before);
    }
  }

  lemma ShownKeys(cfg: Setup, slots: seq<Slot>, t: Table)
    requires Shown(cfg, slots, t)
    ensures KeysOf(slots) == t.entries.Keys
  {
    forall k ensures k in KeysOf(slots) <==> k in t.entries {
      ShownKey(cfg, slots, t, k);
      KeysOfHas(slots, k);
    }
  }

  /** Room for the log, counted in slots or in keys. */
  lemma ReplaysShown(cfg: Setup, slots: seq<Slot>, t: Table, log: seq<Record>)
    requires Shown(cfg, slots, t)
    ensures Replays(cfg, slots, log) <==> Replayable(t, log)
  {
    ShownKeys(cfg, slots, t);
    KeysOfDistinct(slots);
    UnionSize(KeysOf(slots), AddKeys(log));
  }

  lemma UnionSize(a: set<Key>, b: set<Key>)
    ensures |a + b| == |a| + |b - a|
  {
    assert a + b == a + (b - a);
  }

  lemma DisciplineShown(cfg: Setup, f: State, c: D.State, e: D.Event)
    requires Rel(cfg, f, c) && Disciplined(cfg, f, e)
    ensures P.Disciplined(Coarse(cfg), c, e, true)
  {
    if e.Append? && c.mem.Some? {
      FittingShown(cfg, f.mem.value.memory, c.mem.value.table, c.mem.value.inFlight, e.r);
    }
    if e.RenameSnapshot? && c.mem.Some? && c.mem.value.phase == D.Saved && Replayable(c.mem.value.table, P.LogOf(c)) {
      ReplaysShown(cfg, f.mem.value.memory.store.slots, c.mem.value.table, LogOf(f));
      LateShown(cfg, f, c);
    }
  }

  lemma BaseShown(cfg: Setup, f: Disk, c: D.Disk)
    requires DiskShown(cfg, f, c)
    ensures Shown(cfg, SavedSlots(f), D.Base(Coarse(cfg), c))
  {
    if f.snapshot.None? {
      EmptyShown(cfg);
    }
  }

  lemma LateShown(cfg: Setup, f: State, c: D.State)
    requires Rel(cfg, f, c) && NoLateTombstone(f)
    ensures P.NoLateTombstone(Coarse(cfg), c)
  {
    BaseShown(cfg, f.disk, c.disk);
    forall k ensures !LateTombstone(Lookup(D.Base(Coarse(cfg), c.disk).entries, k), P.LogOf(c), k) {
      ShownKey(cfg, SavedSlots(f.disk), D.Base(Coarse(cfg), c.disk), k);
    }
  }

  // --- opening

  lemma OpenShown(cfg: Setup, f: Disk, c: D.Disk)
    requires KeepsLength(cfg) && DiskShown(cfg, f, c)
    ensures OpenStore(cfg, f).Some? <==> D.OpenTable(Coarse(cfg), c).Some?
    ensures OpenStore(cfg, f).Some? ==> StoreShown(cfg, OpenStore(cfg, f).value, D.OpenTable(Coarse(cfg), c).value)
    ensures OpenedLog(cfg, f) == D.OpenedLog(Coarse(cfg), c)
  {
    BaseShown(cfg, f, c);
    LoadedInverse(cfg.dim, cfg.capacity, SavedSlots(f));
    if f.wal.Some? && ScanFile(cfg.crc, f.wal.value).Scanned? {
      var file := f.wal.value;
      ReadOpsKnown(cfg.crc, file[8..]);
      ReplayShown(cfg, Base(cfg, f), D.Base(Coarse(cfg), c), ScanFile(cfg.crc, file).records);
    }
  }

  lemma QuietMemShown(cfg: Setup, s: Store, t: Table)
    requires StoreShown(cfg, s, t)
    ensures MemShown(cfg, L.Memory(s, map[]), t, map[])
  {
    var m := L.Memory(s, map[]);
    forall i: nat | i < |s.slots| ensures L.SlotCovered(m, i) {
    }
  }

  lemma OpenRefines(cfg: Setup, f: State, c: D.State)
    requires KeepsLength(cfg) && Rel(cfg, f, c) && f.mem.None?
    ensures Rel(cfg, Next(cfg, f, D.Open), D.Next(Coarse(cfg), c, D.Open))
  {
    OpenShown(cfg, f.disk, c.disk);
    if OpenStore(cfg, f.disk).Some? {
      QuietMemShown(cfg, OpenStore(cfg, f.disk).value, D.OpenTable(Coarse(cfg), c.disk).value);
    }
  }

  // --- writers

  lemma AppendRefines(cfg: Setup, f: State, c: D.State, e: D.Event)
    requires Rel(cfg, f, c) && Disciplined(cfg, f, e) && f.mem.Some? && e.Append? && Next(cfg, f, e) != f
    ensures Rel(cfg, Next(cfg, f, e), D.Next(Coarse(cfg), c, e))
  {
    var m, p := f.mem.value.memory, c.mem.value;
    EnterShown(cfg, m, p.table, p.inFlight, e.w, e.r);
  }

  lemma ApplyRefines(cfg: Setup, f: State, c: D.State, w: nat)
    requires KeepsLength(cfg) && Rel(cfg, f, c) && f.mem.Some? && w in f.mem.value.memory.flights
    ensures Stutters(f.mem.value.memory, w) ==> Rel(cfg, Next(cfg, f, D.Apply(w)), c)
    ensures !Stutters(f.mem.value.memory, w) ==> Rel(cfg, Next(cfg, f, D.Apply(w)), D.Next(Coarse(cfg), c, D.Apply(w)))
  {
    var m, p := f.mem.value.memory, c.mem.value;
    if Stutters(m, w) {
      StutterShown(cfg, m, p.table, p.inFlight, w);
    } else {
      AdvanceShown(cfg, m, p.table, p.inFlight, w);
    }
  }

  /** With nobody under way here, nobody is in flight there. */
  lemma NobodyShown(cfg: Setup, f: Process, c: D.Process)
    requires ProcShown(cfg, f, c) && f.memory.flights == map[]
    ensures c.inFlight == map[]
  {
    assert forall w :: w !in c.inFlight;
  }

  lemma LockRefines(cfg: Setup, f: State, c: D.State)
    requires Rel(cfg, f, c) && f.mem.Some? && Next(cfg, f, D.LockForSnapshot) != f
    ensures Rel(cfg, Next(cfg, f, D.LockForSnapshot), D.Next(Coarse(cfg), c, D.LockForSnapshot))
  {
    NobodyShown(cfg, f.mem.value, c.mem.value);
  }

  lemma SaveRefines(cfg: Setup, f: State, c: D.State, e: D.Event)
    requires Rel(cfg, f, c) && f.mem.Some? && (e.BeginSave? || e.EndSave?) && Next(cfg, f, e) != f
    ensures Rel(cfg, Next(cfg, f, e), D.Next(Coarse(cfg), c, e))
  {
  }

  lemma RotationRefines(cfg: Setup, f: State, c: D.State, e: D.Event)
    requires Rel(cfg, f, c) && f.mem.Some? && Next(cfg, f, e) != f
    requires e.RenameSnapshot? || e.CreateLog? || e.RotateLog? || e.EndSnapshot?
    ensures Rel(cfg, Next(cfg, f, e), D.Next(Coarse(cfg), c, e))
  {
  }

  lemma DeathRefines(cfg: Setup, f: State, c: D.State, e: D.Event)
    requires Rel(cfg, f, c) && f.mem.Some? && Next(cfg, f, e) != f
    requires e.Crash? || e.TornAppend? || e.TornCreateLog?
    ensures Rel(cfg, Next(cfg, f, e), D.Next(Coarse(cfg), c, e))
  {
  }

  /** Steps of the snapshot, and death. */
  lemma OtherRefines(cfg: Setup, f: State, c: D.State, e: D.Event)
    requires Rel(cfg, f, c) && f.mem.Some? && !e.Append? && !e.Apply? && Next(cfg, f, e) != f
    ensures Rel(cfg, Next(cfg, f, e), D.Next(Coarse(cfg), c, e))
  {
    if e.LockForSnapshot? {
      LockRefines(cfg, f, c);
    } else if e.BeginSave? || e.EndSave? {
      SaveRefines(cfg, f, c, e);
    } else if e.Crash? || e.TornAppend? || e.TornCreateLog? {
      DeathRefines(cfg, f, c, e);
    } else {
      RotationRefines(cfg, f, c, e);
    }
  }

  /** One step: the atomic system takes the same step, or none. */
  lemma StepRefines(cfg: Setup, f: State, c: D.State, e: D.Event)
    requires KeepsLength(cfg) && Rel(cfg, f, c) && Disciplined(cfg, f, e)
    ensures Silent(cfg, f, e) ==> Rel(cfg, Next(cfg, f, e), c)
    ensures !Silent(cfg, f, e) ==> Rel(cfg, Next(cfg, f, e), D.Next(Coarse(cfg), c, e))
  {
    if Next(cfg, f, e) != f {
      if f.mem.None? {
        if e.Open? {
          OpenRefines(cfg, f, c);
        }
      } else if e.Append? {
        AppendRefines(cfg, f, c, e);
      } else if e.Apply? {
        ApplyRefines(cfg, f, c, e.w);
      } else {
        OtherRefines(cfg, f, c, e);
      }
    }
  }

  /** The run of the atomic system that goes with a run. */
  ghost function Shadow(cfg: Setup, s: State, events: seq<D.Event>): seq<D.Event>
    decreases |events|
  {
    if events == [] then []
    else
      var rest := Shadow(cfg, Next(cfg, s, events[0]), events[1..]);
      if Silent(cfg, s, events[0]) then rest else [events[0]] + rest
  }

  lemma {:induction false} RunsRefine(cfg: Setup, f: State, c: D.State, events: seq<D.Event>)
    requires KeepsLength(cfg) && Rel(cfg, f, c) && DisciplinedRun(cfg, f, events)
    ensures P.DisciplinedRun(Coarse(cfg), c, Shadow(cfg, f, events), true)
    ensures Rel(cfg, Exec(cfg, f, events), D.Exec(Coarse(cfg), c, Shadow(cfg, f, events)))
    decreases |events|
  {
    if events != [] {
      var e := events[0];
      StepRefines(cfg, f, c, e);
      if Silent(cfg, f, e) {
        RunsRefine(cfg, Next(cfg, f, e), c, events[1..]);
      } else {
        DisciplineShown(cfg, f, c, e);
        RunsRefine(cfg, Next(cfg, f, e), D.Next(Coarse(cfg), c, e), events[1..]);
        var rest := Shadow(cfg, Next(cfg, f, e), events[1..]);
        assert Shadow(cfg, f, events) == [e] + rest && ([e] + rest)[1..] == rest;
      }
    }
  }

  lemma InitShown(cfg: Setup)
    ensures Rel(cfg, Init(), D.Init())
  {
  }

  /** Every disciplined run with the real steps is matched by a disciplined run of the atomic system:
      the same log, the same snapshot and memory as its tables show them. */
  lemma RefinesAtomic(cfg: Setup, events: seq<D.Event>)
    requires KeepsLength(cfg) && DisciplinedRun(cfg, Init(), events)
    ensures var shadow := Shadow(cfg, Init(), events);
      && P.DisciplinedRun(Coarse(cfg), D.Init(), shadow, true)
      && Rel(cfg, Exec(cfg, Init(), events), D.Exec(Coarse(cfg), D.Init(), shadow))
  {
    InitShown(cfg);
    RunsRefine(cfg, Init(), D.Init(), events);
  }
}
