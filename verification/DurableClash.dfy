/** With applications in one step, the guard on writers in flight is exact: a write that it forbids
    can be answered, and recovery then disagrees with what was answered. */
module DurableClash {
  import opened KeyTable
  import opened Options
  import opened WalFormat
  import opened WalFile
  import opened Replay
  import opened Durable
  import opened DurableKeys
  import opened DurableProof

  /** Snapshot, log and memory of a running process whose log can be replayed. */
  ghost predicate Recoverable(exact: bool, base: Table, log: seq<Record>, table: Table, inFlight: InFlight) {
    && Replayable(base, log) && AllFit(log) && |base.entries| <= base.capacity
    && table.dim == base.dim && table.capacity == base.capacity && |table.entries| <= table.capacity
    && AllLogged(inFlight, log) && AllMatch(exact, base.entries, log, table.entries, inFlight)
  }

  lemma RunningIsRecoverable(cfg: Config, s: State, p: Process, exact: bool)
    requires Inv(cfg, s, exact) && s.mem == Some(p) && Replayable(Base(cfg, s.disk), LogOf(s))
    ensures Recoverable(exact, Base(cfg, s.disk), LogOf(s), p.table, p.inFlight)
    ensures s.disk.wal == Some(LogFile(cfg.crc, LogOf(s)))
  {
  }

  /** The entry of a key after one more record of it was logged. */
  lemma OneMoreRecord(base: Table, log: seq<Record>, r: Record, t: Table)
    requires AllFit(log) && Fits(r) && |base.entries| <= base.capacity && ApplyAll(base, log + [r]) == Some(t)
    ensures Replayable(base, log) && Replayable(base, log + [r])
    ensures Lookup(t.entries, r.key) == EntryStep(EntryFold(Lookup(base.entries, r.key), log, r.key), r)
  {
    var log' := log + [r];
    assert OpsKnown(log');
    ReplayMeaning(base, log');
    ReplayablePrefix(base, log, [r]);
    assert Folded(base, log', t, r.key);
    FoldOne(Lookup(base.entries, r.key), log, r, r.key);
  }

  /** A key that comes in has room in memory if the log it is in can be replayed. */
  lemma RoomForLogged(exact: bool, base: Table, log: seq<Record>, table: Table, inFlight: InFlight, known: set<Key>, k: Key)
    requires Recoverable(exact, base, log, table, inFlight)
    requires base.entries.Keys + AddKeys(log) <= known && |known| <= base.capacity && k in known && k !in table.entries
    ensures |table.entries| < table.capacity
  {
    forall x | x in table.entries ensures x in known {
      assert KeyMatch(exact, base.entries, log, table.entries, inFlight, x);
      MatchedKeyIsLogged(exact, base.entries, log, table.entries, inFlight, x);
    }
    assert |table.entries.Keys + {k}| == |table.entries| + 1;
    SubsetSize(table.entries.Keys + {k}, known);
  }

  /** What memory makes of a record it accepts. */
  lemma AcceptedEffect(t: Table, r: Record)
    requires KnownOp(r.op) && |t.entries| <= t.capacity
    requires IsAdd(r) ==> |r.vector| == t.dim && (r.key !in t.entries ==> |t.entries| < t.capacity)
    ensures var t' := Effect(t, r).table;
      && Lookup(t'.entries, r.key) == EntryStep(Lookup(t.entries, r.key), r)
      && t'.dim == t.dim && t'.capacity == t.capacity && |t'.entries| <= t.capacity
      && (r.key !in t'.entries ==> t' == t)
  {
    EffectByOutcome(t, r);
    OneFolded(t, r, Effect(t, r).table, r.key);
  }

  lemma DimsKept(log: seq<Record>, r: Record, dim: nat)
    requires AddsHaveDim(log, dim) && |r.vector| == dim
    ensures AddsHaveDim(log + [r], dim)
  {
  }

  lemma SecondAddReplays(base: Table, log: seq<Record>, r: Record)
    requires Replayable(base, log) && IsAdd(r) && |r.vector| == base.dim && r.key in base.entries.Keys + AddKeys(log)
    ensures Replayable(base, log + [r])
  {
    DimsKept(log, r, base.dim);
    AddKeysAppend(log, r);
    NothingNew(base.entries.Keys, AddKeys(log), r.key);
  }

  lemma NothingNew(a: set<Key>, b: set<Key>, k: Key)
    requires k in a + b
    ensures a + (b + {k}) == a + b
  {
  }

  /** An Add of an absent key while another vector is in flight for it: memory takes it, recovery
      has the other vector. */
  lemma AddIsLost(base: Table, log: seq<Record>, table: Table, inFlight: InFlight, w: nat, r': Record)
    requires Recoverable(false, base, log, table, inFlight) && Pending(inFlight, w, r'.key)
    requires Clash(false, Lookup(table.entries, r'.key), inFlight[w], r') && Fits(r') && |r'.vector| == base.dim
    ensures Effect(table, r').outcome == Ok && ApplyAll(base, log + [r']).Some?
    ensures !AckHeld(ApplyAll(base, log + [r']).value.entries, r'.key, r'.vector)
  {
    var log', k := log + [r'], r'.key;
    assert KeyMatch(false, base.entries, log, table.entries, inFlight, k);
    MatchedKeyIsLogged(false, base.entries, log, table.entries, inFlight, k);
    RoomForLogged(false, base, log, table, inFlight, base.entries.Keys + AddKeys(log), k);
    SecondAddReplays(base, log, r');
    assert OpsKnown(log');
    ReplayMeaning(base, log');
    OneMoreRecord(base, log, r', ApplyAll(base, log').value);
  }

  /** What writers of one key, one after the other, make of its entry. */
  function StepAll(e: Option<Entry>, inFlight: InFlight, order: seq<nat>): Option<Entry>
    requires forall v :: v in order ==> v in inFlight
    decreases |order|
  {
    if order == [] then e
    else
      assert order[0] in order;
      StepAll(EntryStep(e, inFlight[order[0]]), inFlight, order[1..])
  }

  lemma {:induction false} StepAllVector(e: Option<Entry>, inFlight: InFlight, order: seq<nat>)
    requires forall v :: v in order ==> v in inFlight
    ensures e.Some? ==> VectorOf(StepAll(e, inFlight, order)) == VectorOf(e)
    decreases |order|
  {
    if order != [] {
      assert order[0] in order;
      StepAllVector(EntryStep(e, inFlight[order[0]]), inFlight, order[1..]);
    }
  }

  /** Without a delete among them, a live or absent entry stays live or absent. */
  lemma {:induction false} StepAllLive(e: Option<Entry>, inFlight: InFlight, order: seq<nat>)
    requires forall v :: v in order ==> v in inFlight && inFlight[v].op != OP_MARK_DELETED
    requires e.Some? ==> !e.value.deleted
    ensures var x := StepAll(e, inFlight, order); x.Some? ==> !x.value.deleted
    decreases |order|
  {
    if order != [] {
      assert order[0] in order;
      StepAllLive(EntryStep(e, inFlight[order[0]]), inFlight, order[1..]);
    }
  }

  /** The clashing record first, then others of the key in any order, then the one it clashes with. */
  function Overtaken(m: Option<Entry>, inFlight: InFlight, order: seq<nat>, w: nat, r': Record): Option<Entry>
    requires w in inFlight && forall v :: v in order ==> v in inFlight
  {
    EntryStep(StepAll(EntryStep(m, r'), inFlight, order), inFlight[w])
  }

  ghost predicate Others(inFlight: InFlight, order: seq<nat>, w: nat, k: Key) {
    forall v :: v in order ==> Pending(inFlight, v, k) && v != w
  }

  /** The entry that results is not the recovered one. */
  lemma EntryDiverges(exact: bool, e: Option<Entry>, table: Entries, inFlight: InFlight, order: seq<nat>, w: nat, r': Record)
    requires var m := Lookup(table, r'.key); VectorMatch(e, m, inFlight, r'.key) && (exact ==> FlagMatch(e, m, inFlight, r'.key))
    requires Harmonious(exact, table, inFlight) && Pending(inFlight, w, r'.key) && Others(inFlight, order, w, r'.key)
    requires KnownOp(r'.op) && KnownOp(inFlight[w].op) && Clash(exact, Lookup(table, r'.key), inFlight[w], r')
    ensures !Same(exact, EntryStep(e, r'), Overtaken(Lookup(table, r'.key), inFlight, order, w, r'))
  {
    var m, r := Lookup(table, r'.key), inFlight[w];
    var m1 := EntryStep(m, r');
    StepAllVector(m1, inFlight, order);
    if exact && m.None? && IsAdd(r) && r'.op == OP_MARK_DELETED {
      forall v | v in order ensures inFlight[v].op != OP_MARK_DELETED {
        assert !Clash(exact, m, inFlight[v], r);
      }
      StepAllLive(m1, inFlight, order);
    } else if exact && m.None? && r.op == OP_MARK_DELETED && IsAdd(r') {
      forall v | Pending(inFlight, v, r'.key) ensures !IsAdd(inFlight[v]) {
        assert v != w ==> !Clash(exact, m, inFlight[v], r);
      }
    }
  }

  /** Memory takes every record of the key: right dimension, and room if the key is absent. */
  ghost predicate Accepts(t: Table, k: Key) {
    |t.entries| <= t.capacity && (k !in t.entries ==> |t.entries| < t.capacity)
  }

  ghost predicate Takes(t: Table, r: Record) {
    KnownOp(r.op) && (IsAdd(r) ==> |r.vector| == t.dim)
  }

  lemma AcceptedStep(t: Table, r: Record)
    requires Accepts(t, r.key) && Takes(t, r)
    ensures var t' := Effect(t, r).table;
      && Lookup(t'.entries, r.key) == EntryStep(Lookup(t.entries, r.key), r)
      && t'.dim == t.dim && t'.capacity == t.capacity && Accepts(t', r.key)
  {
    AcceptedEffect(t, r);
  }

  /** The writers of `order`, all of key k, finish one after the other. */
  lemma {:induction false} OrderRun(cfg: Config, s: State, p: Process, order: seq<nat>, k: Key)
    requires s.mem == Some(p) && Distinct(order) && Accepts(p.table, k)
    requires forall v :: v in order ==> v in p.inFlight && Pending(p.inFlight, v, k) && Takes(p.table, p.inFlight[v])
    ensures var s' := Exec(cfg, s, Applies(order));
      && s'.mem.Some? && s'.disk == s.disk && Accepts(s'.mem.value.table, k)
      && s'.mem.value.table.dim == p.table.dim
      && Lookup(s'.mem.value.table.entries, k) == StepAll(Lookup(p.table.entries, k), p.inFlight, order)
      && (forall v :: v in s'.mem.value.inFlight <==> v in p.inFlight && v !in order)
      && (forall v :: v in s'.mem.value.inFlight ==> s'.mem.value.inFlight[v] == p.inFlight[v])
    decreases |order|
  {
    if order == [] {
      assert Applies(order) == [];
    } else {
      var v := order[0];
      assert v in order && Pending(p.inFlight, v, k);
      assert Applies(order)[0] == Apply(v) && Applies(order)[1..] == Applies(order[1..]);
      AcceptedStep(p.table, p.inFlight[v]);
      var s1 := Next(cfg, s, Apply(v));
      assert s1 == Applied(s, p, v);
      var p1 := s1.mem.value;
      assert forall u :: u in order[1..] ==> u in order && u != v;
      OrderRun(cfg, s1, p1, order[1..], k);
      SameSteps(EntryStep(Lookup(p.table.entries, k), p.inFlight[v]), p.inFlight, p1.inFlight, order[1..]);
      assert forall u :: u in order <==> u == v || u in order[1..];
    }
  }

  ghost predicate Distinct(order: seq<nat>) {
    forall i, j :: 0 <= i < j < |order| ==> order[i] != order[j]
  }

  lemma {:induction false} SameSteps(e: Option<Entry>, a: InFlight, b: InFlight, order: seq<nat>)
    requires forall v :: v in order ==> v in a && v in b && a[v] == b[v]
    ensures StepAll(e, a, order) == StepAll(e, b, order)
    decreases |order|
  {
    if order != [] {
      assert order[0] in order;
      SameSteps(EntryStep(e, a[order[0]]), a, b, order[1..]);
    }
  }

  /** The forbidden write is logged and answered before those in flight. */
  lemma OvertakingRun(cfg: Config, s: State, p: Process, log: seq<Record>, w': nat, r': Record)
    requires s.mem == Some(p) && p.phase == Idle && w' !in p.inFlight && Encodable(r')
    requires s.disk.wal == Some(LogFile(cfg.crc, log)) && AllFit(log) && Fits(r')
    ensures var s1 := Next(cfg, s, Append(w', r'));
      var s2 := Next(cfg, s1, Apply(w'));
      && OpenTable(cfg, s1.disk) == ApplyAll(Base(cfg, s.disk), log + [r']) && s2.disk == s1.disk
      && (IsAdd(r') && Effect(p.table, r').outcome == Ok ==> (r'.key, r'.vector) in s2.acked)
      && s2.mem.Some? && s2.mem.value.table == Effect(p.table, r').table && s2.mem.value.inFlight == p.inFlight
  {
    var s1 := Logged(cfg, s, p, w', r');
    LogGrows(cfg.crc, log, r');
    assert AllFit(log + [r']);
    assert Next(cfg, s, Append(w', r')) == s1;
    OpenOf(cfg, s1.disk, log + [r']);
    assert Next(cfg, s1, Apply(w')) == Applied(s1, s1.mem.value, w');
    assert p.inFlight[w' := r'] - {w'} == p.inFlight;
  }

  /** The guard on Adds in flight is exact. In every reachable state, an Add that the guard
      forbids, because the key is absent and another vector is in flight for it, can be
      acknowledged at once, and Open then recovers the other vector. */
  lemma ClashingAddIsLost(cfg: Config, events: seq<Event>, w: nat, w': nat, r': Record)
    requires DisciplinedRun(cfg, Init(), events, false)
    requires var s := Exec(cfg, Init(), events);
      && s.mem.Some? && s.mem.value.phase == Idle && OpenTable(cfg, s.disk).Some?
      && Pending(s.mem.value.inFlight, w, r'.key) && w' !in s.mem.value.inFlight
      && Clash(false, Lookup(s.mem.value.table.entries, r'.key), s.mem.value.inFlight[w], r')
    requires Fits(r') && Encodable(r') && |r'.vector| == cfg.dim
    ensures var s' := Next(cfg, Next(cfg, Exec(cfg, Init(), events), Append(w', r')), Apply(w'));
      && (r'.key, r'.vector) in s'.acked
      && OpenTable(cfg, s'.disk).Some?
      && !AckHeld(OpenTable(cfg, s'.disk).value.entries, r'.key, r'.vector)
  {
    var s := Exec(cfg, Init(), events);
    var p := s.mem.value;
    InitOk(cfg, false);
    RunsKeepInv(cfg, Init(), events, false);
    OpenMeaning(cfg, s);
    RunningIsRecoverable(cfg, s, p, false);
    OvertakingRun(cfg, s, p, LogOf(s), w', r');
    AddIsLost(Base(cfg, s.disk), LogOf(s), p.table, p.inFlight, w, r');
  }

  /** Memory takes all records of a key that is, or comes to be, in a log that can be replayed. */
  lemma MemoryAccepts(exact: bool, base: Table, log: seq<Record>, table: Table, inFlight: InFlight, w: nat, r': Record)
    requires Recoverable(exact, base, log, table, inFlight) && Replayable(base, log + [r']) && Fits(r')
    requires Pending(inFlight, w, r'.key) && (IsAdd(inFlight[w]) || IsAdd(r') || r'.key in table.entries)
    ensures Accepts(table, r'.key) && Takes(table, r') && forall v :: v in inFlight ==> Takes(table, inFlight[v])
  {
    var log', r := log + [r'], inFlight[w];
    assert r in log && r in log' && r' in log';
    forall v | v in inFlight ensures Takes(table, inFlight[v]) {
      assert inFlight[v] in log && inFlight[v] in log' && Fits(inFlight[v]);
    }
    if r'.key !in table.entries {
      AddKeysConcat(log, [r']);
      if IsAdd(r) {
        AddedKeyIsThere(log', r);
      } else {
        AddedKeyIsThere(log', r');
      }
      RoomForLogged(exact, base, log, table, inFlight, base.entries.Keys + AddKeys(log'), r'.key);
    }
  }

  lemma ClashNeedsEntry(exact: bool, e: Option<Entry>, r: Record, r': Record)
    requires Clash(exact, e, r, r')
    ensures IsAdd(r) || IsAdd(r') || e.Some?
  {
  }

  /** Exact for every clash, whoever else is in flight for the key: if the clashing write finishes
      first, then others in any order, and the one it clashes with last, memory and recovery
      disagree about the key. */
  lemma ClashDiverges(cfg: Config, events: seq<Event>, w: nat, w': nat, r': Record, order: seq<nat>, exact: bool)
    requires DisciplinedRun(cfg, Init(), events, exact)
    requires var s := Exec(cfg, Init(), events);
      && s.mem.Some? && s.mem.value.phase == Idle
      && Pending(s.mem.value.inFlight, w, r'.key) && w' !in s.mem.value.inFlight
      && Others(s.mem.value.inFlight, order, w, r'.key) && Distinct(order)
      && Clash(exact, Lookup(s.mem.value.table.entries, r'.key), s.mem.value.inFlight[w], r')
    requires Fits(r') && Encodable(r')
    requires OpenTable(cfg, Next(cfg, Exec(cfg, Init(), events), Append(w', r')).disk).Some?
    ensures var s1 := Next(cfg, Exec(cfg, Init(), events), Append(w', r'));
      var s' := Next(cfg, Exec(cfg, Next(cfg, s1, Apply(w')), Applies(order)), Apply(w));
      && s'.mem.Some? && s'.disk == s1.disk
      && !Same(exact, Lookup(OpenTable(cfg, s'.disk).value.entries, r'.key), Lookup(s'.mem.value.table.entries, r'.key))
  {
    var s := Exec(cfg, Init(), events);
    InitOk(cfg, exact);
    RunsKeepInv(cfg, Init(), events, exact);
    ClashDivergesFrom(cfg, s, s.mem.value, w, w', r', order, exact);
  }

  lemma ClashDivergesFrom(cfg: Config, s: State, p: Process, w: nat, w': nat, r': Record, order: seq<nat>, exact: bool)
    requires Inv(cfg, s, exact) && s.mem == Some(p) && p.phase == Idle
    requires Pending(p.inFlight, w, r'.key) && w' !in p.inFlight && Others(p.inFlight, order, w, r'.key) && Distinct(order)
    requires Clash(exact, Lookup(p.table.entries, r'.key), p.inFlight[w], r') && Fits(r') && Encodable(r')
    requires OpenTable(cfg, Next(cfg, s, Append(w', r')).disk).Some?
    ensures var s1 := Next(cfg, s, Append(w', r'));
      var s' := Next(cfg, Exec(cfg, Next(cfg, s1, Apply(w')), Applies(order)), Apply(w));
      && s'.mem.Some? && s'.disk == s1.disk
      && !Same(exact, Lookup(OpenTable(cfg, s'.disk).value.entries, r'.key), Lookup(s'.mem.value.table.entries, r'.key))
  {
    var base, log, t := Base(cfg, s.disk), LogOf(s), OpenTable(cfg, Next(cfg, s, Append(w', r')).disk).value;
    FileWhileRunning(cfg, s, p, exact);
    OvertakingRun(cfg, s, p, log, w', r');
    OneMoreRecord(base, log, r', t);
    RunningIsRecoverable(cfg, s, p, exact);
    ClashNeedsEntry(exact, Lookup(p.table.entries, r'.key), p.inFlight[w], r');
    MemoryAccepts(exact, base, log, p.table, p.inFlight, w, r');
    var s2 := Next(cfg, Next(cfg, s, Append(w', r')), Apply(w'));
    FinishRun(cfg, s2, s2.mem.value, p, order, w, r');
    RecoveryDiverges(exact, base, log, p.table, p.inFlight, order, w, r');
  }

  /** The overtaken writers finish, w last. */
  lemma FinishRun(cfg: Config, s: State, q: Process, p: Process, order: seq<nat>, w: nat, r': Record)
    requires s.mem == Some(q) && q.table == Effect(p.table, r').table && q.inFlight == p.inFlight
    requires Accepts(p.table, r'.key) && Takes(p.table, r') && (forall v :: v in p.inFlight ==> Takes(p.table, p.inFlight[v]))
    requires Pending(p.inFlight, w, r'.key) && Others(p.inFlight, order, w, r'.key) && Distinct(order)
    ensures var s' := Next(cfg, Exec(cfg, s, Applies(order)), Apply(w));
      && s'.mem.Some? && s'.disk == s.disk
      && Lookup(s'.mem.value.table.entries, r'.key) == Overtaken(Lookup(p.table.entries, r'.key), p.inFlight, order, w, r')
  {
    AcceptedStep(p.table, r');
    OrderRun(cfg, s, q, order, r'.key);
    var s1 := Exec(cfg, s, Applies(order));
    var p1 := s1.mem.value;
    assert w in p1.inFlight && p1.inFlight[w] == p.inFlight[w];
    AcceptedStep(p1.table, p.inFlight[w]);
    assert Next(cfg, s1, Apply(w)) == Applied(s1, p1, w);
  }

  lemma RecoveryDiverges(exact: bool, base: Table, log: seq<Record>, table: Table, inFlight: InFlight, order: seq<nat>, w: nat, r': Record)
    requires AllMatch(exact, base.entries, log, table.entries, inFlight) && Harmonious(exact, table.entries, inFlight)
    requires AllLogged(inFlight, log) && AllFit(log) && Fits(r')
    requires Pending(inFlight, w, r'.key) && Others(inFlight, order, w, r'.key)
    requires Clash(exact, Lookup(table.entries, r'.key), inFlight[w], r')
    ensures !Same(exact, EntryStep(EntryFold(Lookup(base.entries, r'.key), log, r'.key), r'),
                  Overtaken(Lookup(table.entries, r'.key), inFlight, order, w, r'))
  {
    assert inFlight[w] in log && Fits(inFlight[w]);
    assert KeyMatch(exact, base.entries, log, table.entries, inFlight, r'.key);
    EntryDiverges(exact, EntryFold(Lookup(base.entries, r'.key), log, r'.key), table.entries, inFlight, order, w, r');
  }

  lemma FileWhileRunning(cfg: Config, s: State, p: Process, exact: bool)
    requires Inv(cfg, s, exact) && s.mem == Some(p)
    ensures s.disk.wal == Some(LogFile(cfg.crc, LogOf(s))) && AllFit(LogOf(s))
    ensures |Base(cfg, s.disk).entries| <= Base(cfg, s.disk).capacity
  {
  }
}
