/** Exact recovery of the durable index with the real steps of addPoint. */
module DurableExact {
  import opened KeyTable
  import opened Options
  import opened WalFormat
  import opened Replay
  import opened SlotStore
  import opened DurableSlots
  import opened SlotReplay
  import opened SlotShown
  import opened DurableRefine
  import D = Durable
  import L = LabelRace
  import P = DurableProof
  import H = DurableHistory

  /** The stores answer alike for every key. */
  ghost predicate SameAnswers(a: Store, b: Store) {
    forall k :: EntryOf(a, k) == EntryOf(b, k)
  }

  ghost predicate AppliesOnly(events: seq<D.Event>) {
    forall e :: e in events ==> e.Apply?
  }

  lemma {:induction false} AppliesAreDisciplined(cfg: Setup, s: State, events: seq<D.Event>)
    requires AppliesOnly(events)
    ensures DisciplinedRun(cfg, s, events) && AppliesOnly(Shadow(cfg, s, events))
    decreases |events|
  {
    if events != [] {
      assert events[0] in events;
      AppliesAreDisciplined(cfg, Next(cfg, s, events[0]), events[1..]);
    }
  }

  lemma {:induction false} AppliesKeepFiles(cfg: D.Config, c: D.State, events: seq<D.Event>)
    requires AppliesOnly(events) && c.mem.Some?
    ensures D.Exec(cfg, c, events).disk == c.disk && D.Exec(cfg, c, events).mem.Some?
    decreases |events|
  {
    if events != [] {
      assert events[0] in events;
      AppliesKeepFiles(cfg, D.Next(cfg, c, events[0]), events[1..]);
    }
  }

  lemma {:induction false} RunSplits(cfg: Setup, s: State, events: seq<D.Event>, e: D.Event)
    requires DisciplinedRun(cfg, s, events + [e])
    ensures DisciplinedRun(cfg, s, events) && Disciplined(cfg, Exec(cfg, s, events), e)
    decreases |events|
  {
    if events != [] {
      assert (events + [e])[1..] == events[1..] + [e];
      RunSplits(cfg, Next(cfg, s, events[0]), events[1..], e);
    }
  }

  /** The atomic system's counterpart of a reachable state, with its invariant. */
  lemma Counterpart(cfg: Setup, events: seq<D.Event>) returns (c: D.State)
    requires KeepsLength(cfg) && DisciplinedRun(cfg, Init(), events)
    ensures Rel(cfg, Exec(cfg, Init(), events), c) && P.Inv(Coarse(cfg), c, true)
  {
    RefinesAtomic(cfg, events);
    c := D.Exec(Coarse(cfg), D.Init(), Shadow(cfg, Init(), events));
    P.InitOk(Coarse(cfg), true);
    P.RunsKeepInv(Coarse(cfg), D.Init(), Shadow(cfg, Init(), events), true);
  }

  /** A quiet memory and the table that shows it. */
  lemma QuietShown(cfg: Setup, m: L.Memory, t: Table, inFlight: map<nat, Record>)
    requires MemShown(cfg, m, t, inFlight) && m.flights == map[]
    ensures StoreShown(cfg, m.store, t)
  {
    L.QuietInverse(m);
  }

  /** The writers in flight finish; the atomic counterpart is then what recovery gives. */
  lemma FinishedIsRecovered(cfg: Setup, s: State, c: D.State, finish: seq<D.Event>)
    requires KeepsLength(cfg) && Rel(cfg, s, c) && P.Inv(Coarse(cfg), c, true) && s.mem.Some? && AppliesOnly(finish)
    requires var s' := Exec(cfg, s, finish); s'.mem.Some? && s'.mem.value.memory.flights == map[]
    requires D.OpenTable(Coarse(cfg), c.disk).Some?
    ensures StoreShown(cfg, Exec(cfg, s, finish).mem.value.memory.store, D.OpenTable(Coarse(cfg), c.disk).value)
  {
    var s', shadow := Exec(cfg, s, finish), Shadow(cfg, s, finish);
    AppliesAreDisciplined(cfg, s, finish);
    RunsRefine(cfg, s, c, finish);
    var c' := D.Exec(Coarse(cfg), c, shadow);
    AppliesKeepFiles(Coarse(cfg), c, shadow);
    P.RunsKeepInv(Coarse(cfg), c, shadow, true);
    NobodyShown(cfg, s'.mem.value, c'.mem.value);
    P.QuietRecovery(Coarse(cfg), c', c'.mem.value);
    QuietShown(cfg, s'.mem.value.memory, c'.mem.value.table, c'.mem.value.inFlight);
  }

  lemma DeathShown(cfg: Setup, s: State, c: D.State, e: D.Event)
    requires KeepsLength(cfg) && Rel(cfg, s, c) && P.Inv(Coarse(cfg), c, true) && Disciplined(cfg, s, e)
    requires s.mem.Some? && Next(cfg, s, e).mem.None?
    ensures OpenStore(cfg, Next(cfg, s, e).disk).Some? <==> D.OpenTable(Coarse(cfg), c.disk).Some?
    ensures OpenStore(cfg, Next(cfg, s, e).disk).Some? ==>
      StoreShown(cfg, OpenStore(cfg, Next(cfg, s, e).disk).value, D.OpenTable(Coarse(cfg), c.disk).value)
  {
    StepRefines(cfg, s, c, e);
    DisciplineShown(cfg, s, c, e);
    P.DyingChangesNothing(Coarse(cfg), c, e, true);
    OpenShown(cfg, Next(cfg, s, e).disk, D.Next(Coarse(cfg), c, e).disk);
  }

  /** Exact recovery with the real steps: however the process dies, what Open recovers answers every
      key, tombstones included, as memory would once the writers in flight have taken their remaining
      steps, in whatever order; and the label maps of both are the inverse of their labels. */
  lemma ExactRecovery(cfg: Setup, events: seq<D.Event>, finish: seq<D.Event>, e: D.Event)
    requires KeepsLength(cfg) && DisciplinedRun(cfg, Init(), events + [e]) && AppliesOnly(finish)
    requires var s := Exec(cfg, Init(), events);
      && s.mem.Some? && Next(cfg, s, e).mem.None?
      && Exec(cfg, s, finish).mem.Some? && Exec(cfg, s, finish).mem.value.memory.flights == map[]
    ensures var s := Exec(cfg, Init(), events);
      var store, reopened := Exec(cfg, s, finish).mem.value.memory.store, OpenStore(cfg, Next(cfg, s, e).disk);
      reopened.Some? ==> SameAnswers(reopened.value, store) && Inverse(reopened.value) && Inverse(store)
  {
    var s := Exec(cfg, Init(), events);
    RunSplits(cfg, Init(), events, e);
    var c := Counterpart(cfg, events);
    DeathShown(cfg, s, c, e);
    var reopened := OpenStore(cfg, Next(cfg, s, e).disk);
    if reopened.Some? {
      FinishedIsRecovered(cfg, s, c, finish);
      var store, t := Exec(cfg, s, finish).mem.value.memory.store, D.OpenTable(Coarse(cfg), c.disk).value;
      forall k ensures EntryOf(reopened.value, k) == EntryOf(store, k) {
        SameTableSameAnswers(cfg, reopened.value, store, t, k);
      }
    }
  }

  /** What the table says of a key, as the index stores it. */
  function Prepared(cfg: Setup, e: Option<Entry>): Option<Entry> {
    match e
    case None => None
    case Some(entry) => Some(Entry(cfg.prepare(entry.vector), entry.deleted))
  }

  /** As long as all keys ever logged fit, Open succeeds if and only if the log file has its header, and
      then answers every key as the whole logged history replayed from the empty index. */
  lemma RecoversWholeHistory(cfg: Setup, events: seq<D.Event>)
    requires KeepsLength(cfg) && DisciplinedRun(cfg, Init(), events)
    requires H.Feasible(Coarse(cfg), Exec(cfg, Init(), events).hist)
    ensures var s := Exec(cfg, Init(), events);
      var whole := ApplyAll(Empty(cfg.dim, cfg.capacity), s.hist);
      && (OpenStore(cfg, s.disk).Some? <==> !ShortLog(s.disk))
      && (OpenStore(cfg, s.disk).Some? ==>
            whole.Some? && forall k :: EntryOf(OpenStore(cfg, s.disk).value, k) == Prepared(cfg, Lookup(whole.value.entries, k)))
  {
    var s, shadow := Exec(cfg, Init(), events), Shadow(cfg, Init(), events);
    RefinesAtomic(cfg, events);
    var c := D.Exec(Coarse(cfg), D.Init(), shadow);
    H.RecoversWholeHistory(Coarse(cfg), shadow);
    OpenShown(cfg, s.disk, c.disk);
    if OpenStore(cfg, s.disk).Some? {
      forall k ensures EntryOf(OpenStore(cfg, s.disk).value, k)
                    == Prepared(cfg, Lookup(D.OpenTable(Coarse(cfg), c.disk).value.entries, k)) {
        AnswerShown(cfg, OpenStore(cfg, s.disk).value, D.OpenTable(Coarse(cfg), c.disk).value, k);
      }
    }
  }

  /** No snapshot has two slots of a label, so the room Open needs can be counted in keys. */
  lemma OpensExactlyIf(cfg: Setup, events: seq<D.Event>)
    requires KeepsLength(cfg) && DisciplinedRun(cfg, Init(), events)
    ensures var s := Exec(cfg, Init(), events);
      && DistinctLabels(SavedSlots(s.disk))
      && (OpenStore(cfg, s.disk).Some? <==>
            && !ShortLog(s.disk) && AddsHaveDim(LogOf(s), cfg.dim)
            && |KeysOf(SavedSlots(s.disk)) + AddKeys(LogOf(s))| <= cfg.capacity)
  {
    var c := Counterpart(cfg, events);
    OpensFrom(cfg, Exec(cfg, Init(), events), c);
  }

  lemma OpensFrom(cfg: Setup, s: State, c: D.State)
    requires KeepsLength(cfg) && Rel(cfg, s, c) && P.DiskOk(Coarse(cfg), c)
    ensures DistinctLabels(SavedSlots(s.disk))
    ensures OpenStore(cfg, s.disk).Some? <==>
      && !ShortLog(s.disk) && AddsHaveDim(LogOf(s), cfg.dim)
      && |KeysOf(SavedSlots(s.disk)) + AddKeys(LogOf(s))| <= cfg.capacity
  {
    BaseShown(cfg, s.disk, c.disk);
    ShownKeys(cfg, SavedSlots(s.disk), D.Base(Coarse(cfg), c.disk));
    OpenShown(cfg, s.disk, c.disk);
    P.OpenMeaning(Coarse(cfg), c);
  }
}
