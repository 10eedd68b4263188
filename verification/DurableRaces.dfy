/** What two racing Adds of one absent key do, though both have the same vector: runs with the real
    steps of addPoint on which a delete is undone and on which the index cannot be opened again. */
module DurableRaces {
  import opened KeyTable
  import opened Options
  import opened WalFormat
  import opened WalFile
  import opened Replay
  import opened SlotStore
  import opened LabelRace
  import opened DurableSlots
  import opened SlotReplay
  import opened SlotMemory
  import D = Durable
  import P = DurableProof
  import V = DurableSlotsProof

  function AddOf(k: Key, v: Vector): Record {
    Record(OP_ADD, k, v)
  }

  function DeleteOf(k: Key): Record {
    Record(OP_MARK_DELETED, k, [])
  }

  /** A process at rest: slots, map and log. */
  ghost predicate AtRest(cfg: Setup, s: State, store: Store, rs: seq<Record>) {
    && s.mem == Some(Process(Memory(store, map[]), D.Idle)) && s.disk.wal == Some(LogFile(cfg.crc, rs))
    && s.disk.walNew.None?
  }

  /** One more writer with its record in the log. */
  lemma LogOne(cfg: Setup, s: State, p: Process, rs: seq<Record>, w: nat, r: Record)
    requires s.mem == Some(p) && p.phase == D.Idle && w !in p.memory.flights && Encodable(r)
    requires s.disk.wal == Some(LogFile(cfg.crc, rs))
    ensures var s' := DurableSlots.Next(cfg, s, D.Append(w, r));
      && s' == s.(disk := s.disk.(wal := Some(LogFile(cfg.crc, rs + [r]))), mem := s'.mem, hist := s.hist + [r])
      && s'.mem == Some(p.(memory := p.memory.(flights := p.memory.flights[w := Flight(WriteOf(cfg, r), Entered)])))
  {
    LogGrows(cfg.crc, rs, r);
  }

  /** Two Adds of an absent key: both check, both claim, the second labels first. */
  function RaceSteps(): seq<nat> {
    [0, 1, 0, 1, 1, 0]
  }

  function Applied(cfg: Setup, s: State, steps: seq<nat>): State
    decreases |steps|
  {
    if steps == [] then s else Applied(cfg, DurableSlots.Next(cfg, s, D.Apply(steps[0])), steps[1..])
  }

  /** Both Adds logged. */
  function BothLogged(cfg: Setup, s: State, k: Key, v: Vector): State {
    DurableSlots.Next(cfg, DurableSlots.Next(cfg, s, D.Append(0, AddOf(k, v))), D.Append(1, AddOf(k, v)))
  }

  lemma RacingMemory(store: Store, k: Key, v: Vector)
    requires k !in store.ids && |v| == store.dim && |store.slots| + 2 <= store.capacity
    ensures var f := Flight(Insert(k, v), Entered);
      var m := Memory(store, map[0 := f, 1 := f]);
      var m1 := Advance(m, 0); var m2 := Advance(m1.0, 1); var m3 := Advance(m2.0, 0);
      var m4 := Advance(m3.0, 1); var m5 := Advance(m4.0, 1); var m6 := Advance(m5.0, 0);
      && m1.1 == None && m2.1 == None && m3.1 == None && m4.1 == None && m5.1 == Some(Ok) && m6.1 == Some(Ok)
      && 0 in m1.0.flights && 1 in m1.0.flights && 0 in m2.0.flights && 1 in m2.0.flights
      && 0 in m3.0.flights && 1 in m3.0.flights && 0 in m4.0.flights && 1 in m4.0.flights && 0 in m5.0.flights
      && m1.0.flights[1].write == Insert(k, v) && m2.0.flights[0].write == Insert(k, v) && m3.0.flights[1].write == Insert(k, v)
      && m4.0.flights[1].write == Insert(k, v) && m5.0.flights[0].write == Insert(k, v)
      && m6.0 == Memory(store.(slots := store.slots + [Slot(k, v, false), Slot(k, v, false)],
                               ids := store.ids[k := |store.slots|]), map[])
  {
    var n, w := |store.slots|, Insert(k, v);
    var m := Memory(store, map[0 := Flight(w, Entered), 1 := Flight(w, Entered)]);
    var m1 := Advance(m, 0).0;
    assert m1 == Memory(store, map[0 := Flight(w, Checked), 1 := Flight(w, Entered)]);
    var m2 := Advance(m1, 1).0;
    assert m2 == Memory(store, map[0 := Flight(w, Checked), 1 := Flight(w, Checked)]);
    var m3 := Advance(m2, 0).0;
    var s3 := store.(slots := store.slots + [Slot(k, v, false)]);
    assert m3 == Memory(s3, map[0 := Flight(w, HasSlot(n)), 1 := Flight(w, Checked)]);
    var m4 := Advance(m3, 1).0;
    var s4 := store.(slots := store.slots + [Slot(k, v, false), Slot(k, v, false)]);
    assert s3.slots + [Slot(k, v, false)] == s4.slots;
    assert m4 == Memory(s4, map[0 := Flight(w, HasSlot(n)), 1 := Flight(w, HasSlot(n + 1))]);
    var m5 := Advance(m4, 1).0;
    assert m5 == Memory(s4.(ids := store.ids[k := n + 1]), map[0 := Flight(w, HasSlot(n))]);
    var m6 := Advance(m5, 0).0;
    assert store.ids[k := n + 1][k := n] == store.ids[k := n];
    assert m6 == Memory(s4.(ids := store.ids[k := n]), map[]);
  }

  /** The state both Adds leave behind: two slots of the key, the map at the first of them, and both
      writers answered with success. */
  lemma RaceRun(cfg: Setup, s: State, store: Store, rs: seq<Record>, k: Key, v: Vector)
    requires AtRest(cfg, s, store, rs) && KeepsLength(cfg) && v != [] && |v| == store.dim
    requires k !in store.ids && |store.slots| + 2 <= store.capacity
    ensures var s' := Applied(cfg, BothLogged(cfg, s, k, v), RaceSteps());
      var v' := cfg.prepare(v);
      && AtRest(cfg, s', store.(slots := store.slots + [Slot(k, v', false), Slot(k, v', false)],
                               ids := store.ids[k := |store.slots|]), rs + [AddOf(k, v), AddOf(k, v)])
      && s'.hist == s.hist + [AddOf(k, v), AddOf(k, v)] && s'.disk.snapshot == s.disk.snapshot && (k, v') in s'.acked
  {
    var r, f := AddOf(k, v), Flight(Insert(k, cfg.prepare(v)), Entered);
    LogOne(cfg, s, s.mem.value, rs, 0, r);
    var s1 := DurableSlots.Next(cfg, s, D.Append(0, r));
    LogOne(cfg, s1, s1.mem.value, rs + [r], 1, r);
    var s2 := BothLogged(cfg, s, k, v);
    assert rs + [r] + [r] == rs + [r, r] && s.hist + [r] + [r] == s.hist + [r, r];
    assert s2.mem == Some(Process(Memory(store, map[0 := f, 1 := f]), D.Idle));
    RacingMemory(store, k, cfg.prepare(v));
    SixSteps(cfg, s2, 0, 1, 0, 1, 1, 0);
    Follow(cfg, s2, s2.mem.value.memory, k, cfg.prepare(v));
  }

  /** The six steps at the level of the system. */
  lemma Follow(cfg: Setup, s: State, m: Memory, k: Key, v: Vector)
    requires s.mem == Some(Process(m, D.Idle))
    requires 0 in m.flights && 1 in m.flights && m.flights[0].write == Insert(k, v)
    requires var m1 := Advance(m, 0).0; var m2 := Advance(m1, 1).0; var m3 := Advance(m2, 0).0;
      var m4 := Advance(m3, 1).0; var m5 := Advance(m4, 1).0; var m6 := Advance(m5, 0);
      && 1 in m1.flights && 0 in m2.flights && 1 in m3.flights && 1 in m4.flights && 0 in m5.flights
      && m5.flights[0].write == Insert(k, v) && m6.1 == Some(Ok)
    ensures var s' := Step(cfg, Step(cfg, Step(cfg, Step(cfg, Step(cfg, Step(cfg, s, 0), 1), 0), 1), 1), 0);
      && s'.mem == Some(Process(Advance(Advance(Advance(Advance(Advance(Advance(m, 0).0, 1).0, 0).0, 1).0, 1).0, 0).0, D.Idle))
      && s'.disk == s.disk && s'.hist == s.hist && (k, v) in s'.acked
  {
    var m1 := Advance(m, 0).0;
    StepIs(cfg, s, m, 0);
    var s1 := Step(cfg, s, 0);
    StepIs(cfg, s1, m1, 1);
    var s2, m2 := Step(cfg, s1, 1), Advance(m1, 1).0;
    StepIs(cfg, s2, m2, 0);
    var s3, m3 := Step(cfg, s2, 0), Advance(m2, 0).0;
    StepIs(cfg, s3, m3, 1);
    var s4, m4 := Step(cfg, s3, 1), Advance(m3, 1).0;
    StepIs(cfg, s4, m4, 1);
    StepIs(cfg, Step(cfg, s4, 1), Advance(m4, 1).0, 0);
  }

  function Step(cfg: Setup, s: State, w: nat): State {
    DurableSlots.Next(cfg, s, D.Apply(w))
  }

  lemma StepIs(cfg: Setup, s: State, m: Memory, w: nat)
    requires s.mem == Some(Process(m, D.Idle)) && w in m.flights
    ensures var s' := Step(cfg, s, w);
      && s'.mem == Some(Process(Advance(m, w).0, D.Idle)) && s'.disk == s.disk && s'.hist == s.hist
      && (m.flights[w].write.Insert? && Advance(m, w).1 == Some(Ok) ==>
            (m.flights[w].write.key, m.flights[w].write.vector) in s'.acked)
  {
  }

  lemma SixSteps(cfg: Setup, s: State, a: nat, b: nat, c: nat, d: nat, e: nat, f: nat)
    ensures Applied(cfg, s, [a, b, c, d, e, f])
         == Step(cfg, Step(cfg, Step(cfg, Step(cfg, Step(cfg, Step(cfg, s, a), b), c), d), e), f)
  {
    OneStep(cfg, s, a, [b, c, d, e, f]);
    var s1 := Step(cfg, s, a);
    OneStep(cfg, s1, b, [c, d, e, f]);
    var s2 := Step(cfg, s1, b);
    OneStep(cfg, s2, c, [d, e, f]);
    var s3 := Step(cfg, s2, c);
    OneStep(cfg, s3, d, [e, f]);
    var s4 := Step(cfg, s3, d);
    OneStep(cfg, s4, e, [f]);
    OneStep(cfg, Step(cfg, s4, e), f, []);
  }

  lemma OneStep(cfg: Setup, s: State, w: nat, rest: seq<nat>)
    ensures Applied(cfg, s, [w] + rest) == Applied(cfg, Step(cfg, s, w), rest)
  {
    assert ([w] + rest)[1..] == rest;
  }

  /** A whole snapshot: saved, put in place, log rotated. */
  function Snapshotted(cfg: Setup, s: State): State {
    Rotated(cfg, InPlace(cfg, s))
  }

  function InPlace(cfg: Setup, s: State): State {
    var s1 := DurableSlots.Next(cfg, DurableSlots.Next(cfg, s, D.LockForSnapshot), D.BeginSave);
    DurableSlots.Next(cfg, DurableSlots.Next(cfg, s1, D.EndSave), D.RenameSnapshot)
  }

  function Rotated(cfg: Setup, s: State): State {
    DurableSlots.Next(cfg, DurableSlots.Next(cfg, DurableSlots.Next(cfg, s, D.CreateLog), D.RotateLog), D.EndSnapshot)
  }

  lemma InPlaceRun(cfg: Setup, s: State, store: Store, rs: seq<Record>)
    requires AtRest(cfg, s, store, rs)
    ensures var s' := InPlace(cfg, s);
      && s'.mem == Some(Process(Memory(store, map[]), D.Renamed)) && s'.disk.snapshot == Some(store.slots)
      && s'.disk.walNew.None? && s'.hist == s.hist && s'.acked == s.acked
  {
    var s1 := DurableSlots.Next(cfg, s, D.LockForSnapshot);
    assert s1 == InPhase(s, s.mem.value, D.Locked);
    var s2 := DurableSlots.Next(cfg, s1, D.BeginSave);
    assert s2 == InPhase(s.(disk := s.disk.(tmp := Part)), s.mem.value, D.Saving);
    var s3 := DurableSlots.Next(cfg, s2, D.EndSave);
    assert s3 == InPhase(s.(disk := s.disk.(tmp := Whole(store.slots))), s.mem.value, D.Saved);
  }

  lemma RotatedRun(cfg: Setup, s: State, store: Store)
    requires s.mem == Some(Process(Memory(store, map[]), D.Renamed)) && s.disk.walNew.None?
    ensures var s' := Rotated(cfg, s);
      AtRest(cfg, s', store, []) && s'.disk.snapshot == s.disk.snapshot && s'.hist == s.hist && s'.acked == s.acked
  {
    var s1 := DurableSlots.Next(cfg, s, D.CreateLog);
    assert s1 == InPhase(s.(disk := s.disk.(walNew := Some(LogFile(cfg.crc, [])))), s.mem.value, D.NewLog);
    var s2 := DurableSlots.Next(cfg, s1, D.RotateLog);
    assert s2.mem == Some(Process(Memory(store, map[]), D.Rotated));
  }

  lemma SnapshotRun(cfg: Setup, s: State, store: Store, rs: seq<Record>)
    requires AtRest(cfg, s, store, rs)
    ensures AtRest(cfg, Snapshotted(cfg, s), store, []) && Snapshotted(cfg, s).disk.snapshot == Some(store.slots)
    ensures Snapshotted(cfg, s).hist == s.hist && Snapshotted(cfg, s).acked == s.acked
  {
    InPlaceRun(cfg, s, store, rs);
    RotatedRun(cfg, InPlace(cfg, s), store);
  }

  lemma FreshRun(cfg: Setup)
    ensures AtRest(cfg, DurableSlots.Next(cfg, Init(), D.Open), Store(cfg.dim, cfg.capacity, [], map[]), [])
    ensures DurableSlots.Next(cfg, Init(), D.Open).disk.snapshot.None? && DurableSlots.Next(cfg, Init(), D.Open).hist == []
  {
  }

  /** The store both racing Adds leave in a fresh index. */
  function Raced(cfg: Setup, k: Key, v: Vector): Store {
    Store(cfg.dim, cfg.capacity, [Slot(k, cfg.prepare(v), false), Slot(k, cfg.prepare(v), false)], map[k := 0])
  }

  /** The run up to there. */
  function RacedState(cfg: Setup, k: Key, v: Vector): State {
    Applied(cfg, BothLogged(cfg, DurableSlots.Next(cfg, Init(), D.Open), k, v), RaceSteps())
  }

  lemma RacedRun(cfg: Setup, k: Key, v: Vector)
    requires KeepsLength(cfg) && v != [] && |v| == cfg.dim && cfg.capacity >= 2
    ensures AtRest(cfg, RacedState(cfg, k, v), Raced(cfg, k, v), [AddOf(k, v), AddOf(k, v)])
    ensures RacedState(cfg, k, v).hist == [AddOf(k, v), AddOf(k, v)] && (k, cfg.prepare(v)) in RacedState(cfg, k, v).acked
    ensures RacedState(cfg, k, v).disk.snapshot.None?
  {
    FreshRun(cfg);
    var s, store := DurableSlots.Next(cfg, Init(), D.Open), Store(cfg.dim, cfg.capacity, [], map[]);
    var r := AddOf(k, v);
    RaceRun(cfg, s, store, [], k, v);
    assert [] + [r, r] == [r, r];
    assert map[][k := 0] == map[k := 0];
    assert store.slots + [Slot(k, cfg.prepare(v), false), Slot(k, cfg.prepare(v), false)] == Raced(cfg, k, v).slots;
  }

  /** Two racing Adds of one absent key and one vector are both acknowledged and leave two slots; the
      label map is not the inverse of the labels. */
  lemma BothAddsSucceed(cfg: Setup, k: Key, v: Vector)
    requires KeepsLength(cfg) && v != [] && |v| == cfg.dim && cfg.capacity >= 2
    ensures var s := RacedState(cfg, k, v);
      && s.mem.Some? && s.mem.value.memory == Memory(Raced(cfg, k, v), map[]) && (k, cfg.prepare(v)) in s.acked
      && !Inverse(s.mem.value.memory.store)
  {
    RacedRun(cfg, k, v);
    var store := Raced(cfg, k, v);
    assert store.slots[1].key == k && store.ids[k] == 0;
  }

  /** One mark, logged and applied. */
  function MarkedState(cfg: Setup, s: State, k: Key): State {
    Step(cfg, DurableSlots.Next(cfg, s, D.Append(2, DeleteOf(k))), 2)
  }

  lemma MarkRun(cfg: Setup, s: State, store: Store, rs: seq<Record>, k: Key)
    requires AtRest(cfg, s, store, rs)
    ensures AtRest(cfg, MarkedState(cfg, s, k), Marked(store, k, true).0, rs + [DeleteOf(k)])
    ensures MarkedState(cfg, s, k).disk.snapshot == s.disk.snapshot
  {
    LogOne(cfg, s, s.mem.value, rs, 2, DeleteOf(k));
    var s1 := DurableSlots.Next(cfg, s, D.Append(2, DeleteOf(k)));
    assert s1.mem.value.memory.flights == map[2 := Flight(Mark(k, true), Entered)];
    assert s1.mem.value.memory.flights - {2} == map[];
  }

  lemma EmptyLogOpens(cfg: Setup, disk: Disk)
    requires disk.wal == Some(LogFile(cfg.crc, []))
    ensures OpenStore(cfg, disk) == Some(Base(cfg, disk))
  {
    assert LogFile(cfg.crc, []) == LogFile(cfg.crc, []) + [];
    ScanTorn(cfg.crc, [], []);
  }

  lemma RebuiltTwo(a: Slot, b: Slot)
    requires a.key == b.key
    ensures Rebuilt([a, b]) == map[b.key := 1]
  {
    assert [a, b][..1] == [a] && [a][..0] == [];
    assert Rebuilt([a]) == map[a.key := 0];
  }

  /** A store with two slots of the key, the deleted one in the map, and what load makes of it. */
  lemma ReloadedIsLive(cfg: Setup, disk: Disk, k: Key, v: Vector)
    requires disk.wal == Some(LogFile(cfg.crc, [])) && disk.snapshot == Some([Slot(k, v, true), Slot(k, v, false)])
    ensures OpenStore(cfg, disk).Some? && EntryOf(OpenStore(cfg, disk).value, k) == Some(Entry(v, false))
  {
    EmptyLogOpens(cfg, disk);
    RebuiltTwo(Slot(k, v, true), Slot(k, v, false));
  }

  lemma DeleteUndoneFrom(cfg: Setup, s: State, k: Key, v: Vector, rs: seq<Record>)
    requires AtRest(cfg, s, Raced(cfg, k, v), rs)
    ensures var s1 := MarkedState(cfg, s, k);
      && s1.mem.Some? && EntryOf(s1.mem.value.memory.store, k) == Some(Entry(cfg.prepare(v), true))
      && OpenStore(cfg, Snapshotted(cfg, s1).disk).Some?
      && EntryOf(OpenStore(cfg, Snapshotted(cfg, s1).disk).value, k) == Some(Entry(cfg.prepare(v), false))
  {
    var store := Raced(cfg, k, v);
    var store' := Marked(store, k, true).0;
    assert store'.slots == [Slot(k, cfg.prepare(v), true), Slot(k, cfg.prepare(v), false)] && store'.ids == map[k := 0];
    MarkRun(cfg, s, store, rs, k);
    SnapshotRun(cfg, MarkedState(cfg, s, k), store', rs + [DeleteOf(k)]);
    ReloadedIsLive(cfg, Snapshotted(cfg, MarkedState(cfg, s, k)).disk, k, cfg.prepare(v));
  }

  /** After such a race an acknowledged delete is undone by snapshot and reopening: the flag is on the
      slot the map leads to, and load rebuilds the map with the other one. */
  lemma RacedDeleteIsUndone(cfg: Setup, k: Key, v: Vector)
    requires KeepsLength(cfg) && v != [] && |v| == cfg.dim && cfg.capacity >= 2
    ensures var s1 := MarkedState(cfg, RacedState(cfg, k, v), k);
      && s1.mem.Some? && EntryOf(s1.mem.value.memory.store, k) == Some(Entry(cfg.prepare(v), true))
      && OpenStore(cfg, Snapshotted(cfg, s1).disk).Some?
      && EntryOf(OpenStore(cfg, Snapshotted(cfg, s1).disk).value, k) == Some(Entry(cfg.prepare(v), false))
  {
    RacedRun(cfg, k, v);
    DeleteUndoneFrom(cfg, RacedState(cfg, k, v), k, v, [AddOf(k, v), AddOf(k, v)]);
  }

  /** The Add of a key that has no slot left. */
  function RefusedState(cfg: Setup, s: State, k: Key, v: Vector): State {
    Step(cfg, Step(cfg, DurableSlots.Next(cfg, s, D.Append(3, AddOf(k, v))), 3), 3)
  }

  lemma RefusedRun(cfg: Setup, s: State, store: Store, rs: seq<Record>, k: Key, v: Vector)
    requires AtRest(cfg, s, store, rs) && KeepsLength(cfg) && v != [] && |v| == store.dim
    requires k !in store.ids && |store.slots| >= store.capacity
    ensures AtRest(cfg, RefusedState(cfg, s, k, v), store, rs + [AddOf(k, v)])
    ensures RefusedState(cfg, s, k, v).disk.snapshot == s.disk.snapshot
    ensures RefusedState(cfg, s, k, v).hist == s.hist + [AddOf(k, v)]
  {
    LogOne(cfg, s, s.mem.value, rs, 3, AddOf(k, v));
    var s1 := DurableSlots.Next(cfg, s, D.Append(3, AddOf(k, v)));
    var w := Insert(k, cfg.prepare(v));
    assert s1.mem.value.memory == Memory(store, map[3 := Flight(w, Entered)]);
    var s2 := Step(cfg, s1, 3);
    assert s2.mem.value.memory == Memory(store, map[3 := Flight(w, Checked)]);
    assert map[3 := Flight(w, Checked)] - {3} == map[];
  }

  lemma BlockedFrom(cfg: Setup, s: State, k: Key, k': Key, v: Vector, rs: seq<Record>)
    requires AtRest(cfg, s, Raced(cfg, k, v), rs) && (k, cfg.prepare(v)) in s.acked && s.hist == [AddOf(k, v), AddOf(k, v)]
    requires KeepsLength(cfg) && v != [] && |v| == cfg.dim <= MAX_DIM && cfg.capacity == 2 && k != k'
    ensures var s' := RefusedState(cfg, Snapshotted(cfg, s), k', v);
      && OpenStore(cfg, s'.disk) == None && (k, cfg.prepare(v)) in s'.acked
      && Replayable(Empty(cfg.dim, cfg.capacity), s'.hist)
  {
    var store, s1 := Raced(cfg, k, v), Snapshotted(cfg, s);
    SnapshotRun(cfg, s, store, rs);
    RefusedRun(cfg, s1, store, [], k', v);
    RefusedAcks(cfg, s1, k', v);
    assert [] + [AddOf(k', v)] == [AddOf(k', v)];
    OneAddDoesNotFit(cfg, RefusedState(cfg, s1, k', v).disk, store.slots, k, k', v);
    assert [AddOf(k, v), AddOf(k, v)] + [AddOf(k', v)] == [AddOf(k, v), AddOf(k, v), AddOf(k', v)];
    ThreeAddsFit(cfg, k, k', v);
  }

  /** After such a race the index cannot be opened again, though the keys ever logged fit: the second
      slot of the one key is what the other key lacks. */
  lemma RacedSlotBlocksOpen(cfg: Setup, k: Key, k': Key, v: Vector)
    requires KeepsLength(cfg) && v != [] && |v| == cfg.dim <= MAX_DIM && cfg.capacity == 2 && k != k'
    ensures var s := RefusedState(cfg, Snapshotted(cfg, RacedState(cfg, k, v)), k', v);
      && OpenStore(cfg, s.disk) == None && (k, cfg.prepare(v)) in s.acked
      && Replayable(Empty(cfg.dim, cfg.capacity), s.hist)
  {
    RacedRun(cfg, k, v);
    BlockedFrom(cfg, RacedState(cfg, k, v), k, k', v, [AddOf(k, v), AddOf(k, v)]);
  }

  lemma RefusedAcks(cfg: Setup, s: State, k: Key, v: Vector)
    requires s.mem.Some?
    ensures s.acked <= RefusedState(cfg, s, k, v).acked
  {
  }

  lemma OneAddDoesNotFit(cfg: Setup, disk: Disk, slots: seq<Slot>, k: Key, k': Key, v: Vector)
    requires KeepsLength(cfg) && |v| == cfg.dim <= MAX_DIM && cfg.capacity == 2 == |slots| && k != k' && v != []
    requires slots[0].key == k && slots[1].key == k && disk.snapshot == Some(slots)
    requires disk.wal == Some(LogFile(cfg.crc, [AddOf(k', v)]))
    ensures OpenStore(cfg, disk) == None
  {
    var r := AddOf(k', v);
    assert LogFile(cfg.crc, [r]) == LogFile(cfg.crc, [r]) + [];
    ScanTorn(cfg.crc, [r], []);
    RebuiltTwo(slots[0], slots[1]);
    assert slots == [slots[0], slots[1]];
    assert Redone(Base(cfg, disk), WriteOf(cfg, r)) == None;
  }

  lemma ThreeAddsFit(cfg: Setup, k: Key, k': Key, v: Vector)
    requires |v| == cfg.dim && cfg.capacity == 2
    ensures Replayable(Empty(cfg.dim, cfg.capacity), [AddOf(k, v), AddOf(k, v), AddOf(k', v)])
  {
    var r, r' := AddOf(k, v), AddOf(k', v);
    AddKeysAppend([r, r], r');
    AddKeysAppend([r], r);
    AddKeysAppend([], r);
    assert [] + [r] == [r] && [r] + [r] == [r, r] && [r, r] + [r'] == [r, r, r'];
    assert AddKeys([r, r, r']) == {k, k'};
    assert Empty(cfg.dim, cfg.capacity).entries.Keys + {k, k'} == {k, k'};
    assert |{k, k'}| <= 2;
  }

  // --- different vectors

  /** One insert of an absent label takes its three steps undisturbed. */
  lemma SoloMemory(m: Memory, w: nat, k: Key, v: Vector)
    requires w in m.flights && m.flights[w] == Flight(Insert(k, v), Entered)
    requires k !in m.store.ids && |v| == m.store.dim && !IsFull(m)
    ensures var m1 := Advance(m, w).0; var m2 := Advance(m1, w).0;
      w in m1.flights && w in m2.flights && m2.flights[w].write == Insert(k, v) && Advance(m2, w).1 == Some(Ok)
  {
  }

  lemma SoloRun(cfg: Setup, s: State, p: Process, log: seq<Record>, w: nat, r: Record)
    requires s.mem == Some(p) && p.phase == D.Idle && w !in p.memory.flights && KeepsLength(cfg)
    requires s.disk.wal == Some(LogFile(cfg.crc, log)) && r.op == OP_ADD && Encodable(r)
    requires r.key !in p.memory.store.ids && |r.vector| == p.memory.store.dim && !IsFull(p.memory)
    ensures var s' := Step(cfg, Step(cfg, Step(cfg, DurableSlots.Next(cfg, s, D.Append(w, r)), w), w), w);
      && (r.key, cfg.prepare(r.vector)) in s'.acked
      && s'.disk == s.disk.(wal := Some(LogFile(cfg.crc, log + [r])))
  {
    LogOne(cfg, s, p, log, w, r);
    var s1 := DurableSlots.Next(cfg, s, D.Append(w, r));
    var m1 := s1.mem.value.memory;
    assert m1.flights[w] == Flight(Insert(r.key, cfg.prepare(r.vector)), Entered) && m1.store == p.memory.store;
    SoloMemory(m1, w, r.key, cfg.prepare(r.vector));
    StepIs(cfg, s1, m1, w);
    StepIs(cfg, Step(cfg, s1, w), Advance(m1, w).0, w);
    StepIs(cfg, Step(cfg, Step(cfg, s1, w), w), Advance(Advance(m1, w).0, w).0, w);
  }

  /** What Open makes of a log that holds exactly rs. */
  lemma OpenOf(cfg: Setup, disk: Disk, rs: seq<Record>)
    requires disk.wal == Some(LogFile(cfg.crc, rs)) && P.AllFit(rs)
    ensures OpenStore(cfg, disk) == ReplayAll(cfg, Base(cfg, disk), rs)
  {
    assert LogFile(cfg.crc, rs) == LogFile(cfg.crc, rs) + [];
    ScanTorn(cfg.crc, rs, []);
  }

  /** An Add of a key that recovery knows needs no further slot. */
  lemma KnownAddReplays(cfg: Setup, base: seq<Slot>, log: seq<Record>, r: Record, v: Vector)
    requires Replays(cfg, base, log) && Recovers(cfg, base, log, r.key, v) && r.op == OP_ADD && |r.vector| == cfg.dim
    ensures Replays(cfg, base, log + [r])
  {
    AddKeysAppend(log, r);
    KeysOfHas(base, r.key);
    assert AddKeys(log + [r]) - KeysOf(base) == AddKeys(log) - KeysOf(base);
    assert forall x :: x in log + [r] ==> x in log || x == r;
  }

  /** Replay gives a key its recovered vector. */
  lemma ReplayHolds(cfg: Setup, base: seq<Slot>, log: seq<Record>, k: Key, v: Vector)
    requires KeepsLength(cfg) && |base| <= cfg.capacity && Uniform(base) && OpsKnown(log)
    requires Replays(cfg, base, log) && Recovers(cfg, base, log, k, v)
    ensures var r := ReplayAll(cfg, Loaded(cfg.dim, cfg.capacity, base), log); r.Some? && AckHeld(r.value, k, v)
  {
    LoadedOk(cfg, base);
    ReplayAllMeaning(cfg, Loaded(cfg.dim, cfg.capacity, base), log);
    V.OpenedHoldsOne(cfg, base, log, ReplayAll(cfg, Loaded(cfg.dim, cfg.capacity, base), log).value, k, v);
  }

  lemma FirstVectorStays(cfg: Setup, disk: Disk, log: seq<Record>, r: Record, v: Vector)
    requires KeepsLength(cfg) && disk.wal == Some(LogFile(cfg.crc, log + [r])) && P.AllFit(log + [r])
    requires |SavedSlots(disk)| <= cfg.capacity && Uniform(SavedSlots(disk)) && Replays(cfg, SavedSlots(disk), log)
    requires Recovers(cfg, SavedSlots(disk), log, r.key, v) && r.op == OP_ADD && |r.vector| == cfg.dim
    ensures OpenStore(cfg, disk).Some? && AckHeld(OpenStore(cfg, disk).value, r.key, v)
  {
    var base, log' := SavedSlots(disk), log + [r];
    OpenOf(cfg, disk, log');
    KnownAddReplays(cfg, base, log, r, v);
    RecoversAppend(cfg, base, log, r, r.key, v);
    ReplayHolds(cfg, base, log', r.key, v);
  }

  /** What the invariant says of a running process with an active insert. */
  lemma RunningFacts(cfg: Setup, s: State, p: Process, w: nat, k: Key, u: Vector)
    requires V.Inv(cfg, s) && s.mem == Some(p) && Replays(cfg, SavedSlots(s.disk), LogOf(s))
    requires Active(p.memory, w, k, u) && !IsFull(p.memory)
    ensures s.disk.wal == Some(LogFile(cfg.crc, LogOf(s))) && P.AllFit(LogOf(s)) && p.memory.store.dim == cfg.dim
    ensures |SavedSlots(s.disk)| <= cfg.capacity && Uniform(SavedSlots(s.disk))
    ensures Recovers(cfg, SavedSlots(s.disk), LogOf(s), k, u)
  {
    assert FlightRecovered(cfg, SavedSlots(s.disk), LogOf(s), p.memory, k, u);
  }

  /** The guard of durability is exact with the real steps too. In every reachable state with a slot
      left, an Add of an absent key whose stored vector differs from one in flight can be
      acknowledged at once, and Open then recovers the other vector. */
  lemma ClashingAddIsLost(cfg: Setup, events: seq<D.Event>, w: nat, w': nat, r: Record, u: Vector)
    requires KeepsLength(cfg) && V.DisciplinedRun(cfg, Init(), events)
    requires var s := DurableSlots.Exec(cfg, Init(), events);
      && s.mem.Some? && s.mem.value.phase == D.Idle && OpenStore(cfg, s.disk).Some? && !IsFull(s.mem.value.memory)
      && Active(s.mem.value.memory, w, r.key, u) && r.key !in s.mem.value.memory.store.ids && w' !in s.mem.value.memory.flights
    requires Fits(r) && Encodable(r) && r.op == OP_ADD && |r.vector| == cfg.dim && cfg.prepare(r.vector) != u
    ensures var s := DurableSlots.Next(cfg, DurableSlots.Exec(cfg, Init(), events), D.Append(w', r));
      var s' := Step(cfg, Step(cfg, Step(cfg, s, w'), w'), w');
      && (r.key, cfg.prepare(r.vector)) in s'.acked
      && OpenStore(cfg, s'.disk).Some? && !AckHeld(OpenStore(cfg, s'.disk).value, r.key, cfg.prepare(r.vector))
  {
    var s := DurableSlots.Exec(cfg, Init(), events);
    V.InitOk(cfg);
    V.RunsKeepInv(cfg, Init(), events);
    V.OpenMeaning(cfg, s);
    ClashingAddFrom(cfg, s, s.mem.value, w, w', r, u);
  }

  lemma ClashingAddFrom(cfg: Setup, s: State, p: Process, w: nat, w': nat, r: Record, u: Vector)
    requires KeepsLength(cfg) && V.Inv(cfg, s) && s.mem == Some(p) && p.phase == D.Idle && !IsFull(p.memory)
    requires Replays(cfg, SavedSlots(s.disk), LogOf(s)) && w' !in p.memory.flights
    requires Active(p.memory, w, r.key, u) && r.key !in p.memory.store.ids
    requires Fits(r) && Encodable(r) && r.op == OP_ADD && |r.vector| == cfg.dim && cfg.prepare(r.vector) != u
    ensures var s' := Step(cfg, Step(cfg, Step(cfg, DurableSlots.Next(cfg, s, D.Append(w', r)), w'), w'), w');
      && (r.key, cfg.prepare(r.vector)) in s'.acked
      && OpenStore(cfg, s'.disk).Some? && !AckHeld(OpenStore(cfg, s'.disk).value, r.key, cfg.prepare(r.vector))
  {
    var base, log := SavedSlots(s.disk), LogOf(s);
    RunningFacts(cfg, s, p, w, r.key, u);
    SoloRun(cfg, s, p, log, w', r);
    assert P.AllFit(log + [r]);
    var disk' := s.disk.(wal := Some(LogFile(cfg.crc, log + [r])));
    FirstVectorStays(cfg, disk', log, r, u);
  }
}
