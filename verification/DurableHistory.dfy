/** The strongest form of recovery: as long as everything ever logged would fit into one
    index, what Open recovers is that whole history replayed from the empty index, however
    many snapshots, rotations and crashes lie in between. */
module DurableHistory {
  import opened KeyTable
  import opened Options
  import opened WalFormat
  import opened Replay
  import opened Durable
  import opened DurableKeys
  import opened DurableProof

  /** Every Add has the index's dimension and all keys together fit. */
  ghost predicate Feasible(cfg: Config, hist: seq<Record>) {
    Replayable(Empty(cfg.dim, cfg.capacity), hist)
  }

  ghost predicate KeyFromHistory(base: Entries, log: seq<Record>, hist: seq<Record>, k: Key) {
    EntryFold(Lookup(base, k), log, k) == EntryFold(None, hist, k)
  }

  ghost predicate HistoryOk(cfg: Config, s: State) {
    Feasible(cfg, s.hist) ==>
      && Base(cfg, s.disk).entries.Keys <= AddKeys(s.hist)
      && (s.mem.Some? ==> s.mem.value.table.entries.Keys <= AddKeys(s.hist))
      && (forall k :: KeyFromHistory(Base(cfg, s.disk).entries, LogOf(s), s.hist, k))
  }

  lemma SuffixAddKeys(rs: seq<Record>, i: nat)
    requires i <= |rs|
    ensures AddKeys(rs[i..]) <= AddKeys(rs)
  {
    assert rs == rs[..i] + rs[i..];
    AddKeysConcat(rs[..i], rs[i..]);
  }

  /** A feasible history makes the log replayable over any table with keys from it. */
  lemma FeasibleIsReplayable(cfg: Config, s: State, t: Table)
    requires Feasible(cfg, s.hist) && s.logStart <= |s.hist|
    requires t.dim == cfg.dim && t.capacity == cfg.capacity && t.entries.Keys <= AddKeys(s.hist)
    ensures Replayable(t, LogOf(s))
  {
    SuffixAddKeys(s.hist, s.logStart);
    SubsetSize(t.entries.Keys + AddKeys(LogOf(s)), Empty(cfg.dim, cfg.capacity).entries.Keys + AddKeys(s.hist));
    assert forall r :: r in LogOf(s) ==> r in s.hist;
  }

  lemma AppendKeepsHistory(cfg: Config, s: State, p: Process, w: nat, r: Record)
    requires Inv(cfg, s, true) && s.mem == Some(p) && HistoryOk(cfg, s)
    ensures HistoryOk(cfg, Logged(cfg, s, p, w, r))
  {
    var s' := Logged(cfg, s, p, w, r);
    if Feasible(cfg, s'.hist) {
      ReplayablePrefix(Empty(cfg.dim, cfg.capacity), s.hist, [r]);
      AddKeysConcat(s.hist, [r]);
      GrowLog(s, s', r);
      forall k ensures KeyFromHistory(Base(cfg, s'.disk).entries, LogOf(s'), s'.hist, k) {
        assert KeyFromHistory(Base(cfg, s.disk).entries, LogOf(s), s.hist, k);
        FoldOne(Lookup(Base(cfg, s.disk).entries, k), LogOf(s), r, k);
        FoldOne(None, s.hist, r, k);
      }
    }
  }

  lemma EffectKeys(t: Table, r: Record, keys: set<Key>)
    requires t.entries.Keys <= keys && (r.op == OP_ADD ==> r.key in keys)
    ensures Effect(t, r).table.entries.Keys <= keys
  {
  }

  lemma ApplyKeepsHistory(cfg: Config, s: State, p: Process, w: nat)
    requires Inv(cfg, s, true) && s.mem == Some(p) && w in p.inFlight && HistoryOk(cfg, s)
    ensures HistoryOk(cfg, Applied(s, p, w))
  {
    var r, s' := p.inFlight[w], Applied(s, p, w);
    assert r in LogOf(s) && r in s.hist;
    if r.op == OP_ADD {
      AddedKeyIsThere(s.hist, r);
    }
    if Feasible(cfg, s.hist) {
      EffectKeys(p.table, r, AddKeys(s.hist));
    }
    NothingNewKeepsHistory(cfg, s, s');
  }

  /** Recovery of a key is memory's entry whenever nothing is in flight. */
  lemma QuiescentMatch(cfg: Config, s: State, p: Process, k: Key)
    requires Inv(cfg, s, true) && s.mem == Some(p) && p.inFlight == map[]
    requires Replayable(Base(cfg, s.disk), LogOf(s))
    ensures EntryFold(Lookup(Base(cfg, s.disk).entries, k), LogOf(s), k) == Lookup(p.table.entries, k)
  {
    assert KeyMatch(true, Base(cfg, s.disk).entries, LogOf(s), p.table.entries, p.inFlight, k);
    QuietMatch(true, Base(cfg, s.disk).entries, LogOf(s), p.table.entries, p.inFlight, k);
  }

  /** A step that changes snapshot or log while nothing is in flight and memory stays. */
  lemma RebaseKeepsHistory(cfg: Config, s: State, p: Process, s': State, p': Process)
    requires Inv(cfg, s, true) && s.mem == Some(p) && p.inFlight == map[] && HistoryOk(cfg, s)
    requires Inv(cfg, s', true) && s'.mem == Some(p') && p'.inFlight == map[] && p'.table == p.table
    requires s'.hist == s.hist && Base(cfg, s'.disk) == p.table
    ensures HistoryOk(cfg, s')
  {
    if Feasible(cfg, s.hist) {
      FeasibleIsReplayable(cfg, s, Base(cfg, s.disk));
      FeasibleIsReplayable(cfg, s', p.table);
      forall k ensures KeyFromHistory(p.table.entries, LogOf(s'), s'.hist, k) {
        assert KeyFromHistory(Base(cfg, s.disk).entries, LogOf(s), s.hist, k);
        QuiescentMatch(cfg, s, p, k);
        QuiescentMatch(cfg, s', p', k);
      }
    }
  }

  lemma OpenKeepsHistory(cfg: Config, s: State)
    requires Inv(cfg, s, true) && s.mem.None? && HistoryOk(cfg, s)
    ensures HistoryOk(cfg, Next(cfg, s, Open))
  {
    OpenMeaning(cfg, s);
    SuffixAddKeys(s.hist, s.logStart);
    assert LogOf(Next(cfg, s, Open)) == LogOf(s);
  }

  lemma StepKeepsHistory(cfg: Config, s: State, e: Event)
    requires Inv(cfg, s, true) && Disciplined(cfg, s, e, true) && HistoryOk(cfg, s)
    ensures HistoryOk(cfg, Next(cfg, s, e))
  {
    StepKeepsInv(cfg, s, e, true);
    if s.mem.None? {
      if e.Open? {
        OpenKeepsHistory(cfg, s);
      } else {
        assert LogOf(Next(cfg, s, e)) == LogOf(s);
      }
    } else {
      RunningKeepsHistory(cfg, s, s.mem.value, e, Next(cfg, s, e));
    }
  }

  lemma NothingNewKeepsHistory(cfg: Config, s: State, s': State)
    requires s'.hist == s.hist && s'.logStart == s.logStart && s'.disk.snapshot == s.disk.snapshot && s.mem.Some?
    requires s'.mem.Some? && Feasible(cfg, s.hist) && HistoryOk(cfg, s) ==>
               s'.mem.value.table.entries.Keys <= AddKeys(s.hist)
    ensures HistoryOk(cfg, s) ==> HistoryOk(cfg, s')
  {
    assert LogOf(s') == LogOf(s) && Base(cfg, s'.disk) == Base(cfg, s.disk);
  }

  lemma SnapshotStepKeepsHistory(cfg: Config, s: State, p: Process, e: Event, s': State)
    requires Inv(cfg, s, true) && s.mem == Some(p) && HistoryOk(cfg, s) && (e.RenameSnapshot? || e.RotateLog?)
    requires s' == RunningNext(cfg, s, p, e) && Inv(cfg, s', true)
    ensures HistoryOk(cfg, s')
  {
    RenamingSteps(cfg, s, p, e);
    if s' != s {
      RebaseKeepsHistory(cfg, s, p, s', s'.mem.value);
    }
  }

  lemma WriterStepKeepsHistory(cfg: Config, s: State, p: Process, e: Event, s': State)
    requires Inv(cfg, s, true) && s.mem == Some(p) && HistoryOk(cfg, s) && (e.Append? || e.Apply?)
    requires s' == RunningNext(cfg, s, p, e)
    ensures HistoryOk(cfg, s')
  {
    WriterSteps(cfg, s, p, e);
    if s' != s {
      match e {
        case Append(w, r) => AppendKeepsHistory(cfg, s, p, w, r);
        case Apply(w) => ApplyKeepsHistory(cfg, s, p, w);
      }
    }
  }

  lemma RunningKeepsHistory(cfg: Config, s: State, p: Process, e: Event, s': State)
    requires Inv(cfg, s, true) && s.mem == Some(p) && HistoryOk(cfg, s)
    requires s' == RunningNext(cfg, s, p, e) && Inv(cfg, s', true)
    ensures HistoryOk(cfg, s')
  {
    if e.Append? || e.Apply? {
      WriterStepKeepsHistory(cfg, s, p, e, s');
    } else if e.RenameSnapshot? || e.RotateLog? {
      SnapshotStepKeepsHistory(cfg, s, p, e, s');
    } else {
      OtherSteps(cfg, s, e);
      NothingNewKeepsHistory(cfg, s, s');
    }
  }

  lemma {:induction false} RunsKeepHistory(cfg: Config, s: State, events: seq<Event>)
    requires Inv(cfg, s, true) && HistoryOk(cfg, s) && DisciplinedRun(cfg, s, events, true)
    ensures Inv(cfg, Exec(cfg, s, events), true) && HistoryOk(cfg, Exec(cfg, s, events))
    decreases |events|
  {
    if events != [] {
      StepKeepsInv(cfg, s, events[0], true);
      StepKeepsHistory(cfg, s, events[0]);
      RunsKeepHistory(cfg, Next(cfg, s, events[0]), events[1..]);
    }
  }

  /** Whatever happened in between, running or stopped: Open succeeds if and only if the log file
      has its header, and then recovers the whole logged history replayed from the empty index. */
  lemma RecoversWholeHistory(cfg: Config, events: seq<Event>)
    requires DisciplinedRun(cfg, Init(), events, true)
    requires Feasible(cfg, Exec(cfg, Init(), events).hist)
    ensures var s := Exec(cfg, Init(), events);
      && (OpenTable(cfg, s.disk).Some? <==> !ShortLog(s.disk))
      && (OpenTable(cfg, s.disk).Some? ==>
            OpenTable(cfg, s.disk) == ApplyAll(Empty(cfg.dim, cfg.capacity), s.hist))
  {
    var s := Exec(cfg, Init(), events);
    InitOk(cfg, true);
    RunsKeepHistory(cfg, Init(), events);
    HistoryRecovered(cfg, s);
  }

  lemma HistoryRecovered(cfg: Config, s: State)
    requires Inv(cfg, s, true) && HistoryOk(cfg, s) && Feasible(cfg, s.hist)
    ensures OpenTable(cfg, s.disk).Some? <==> !ShortLog(s.disk)
    ensures OpenTable(cfg, s.disk).Some? ==> OpenTable(cfg, s.disk) == ApplyAll(Empty(cfg.dim, cfg.capacity), s.hist)
  {
    var none := Empty(cfg.dim, cfg.capacity);
    FeasibleIsReplayable(cfg, s, Base(cfg, s.disk));
    OpenMeaning(cfg, s);
    ReplayMeaning(none, s.hist);
    if OpenTable(cfg, s.disk).Some? {
      var t, h := OpenTable(cfg, s.disk).value, ApplyAll(none, s.hist).value;
      forall k ensures Lookup(h.entries, k) == Lookup(t.entries, k) {
        assert KeyFromHistory(Base(cfg, s.disk).entries, LogOf(s), s.hist, k);
        assert Folded(Base(cfg, s.disk), LogOf(s), t, k) && Folded(none, s.hist, h, k);
      }
      SameLookups(t.entries, h.entries);
    }
  }
}
