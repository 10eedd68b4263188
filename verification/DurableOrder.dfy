/** A condition on the writes alone under which tombstones are recovered exactly: no delete is
    logged before its key's first Add. */
module DurableOrder {
  import opened Bytes
  import opened KeyTable
  import opened Options
  import opened WalFormat
  import opened Replay
  import opened Durable
  import opened DurableKeys
  import opened DurableProof

  predicate IsDelete(r: Record, k: Key) {
    r.op == OP_MARK_DELETED && r.key == k
  }

  ghost predicate NoDelete(log: seq<Record>, k: Key) {
    forall q :: 0 <= q < |log| ==> !IsDelete(log[q], k)
  }

  /** What is asked of the writers: no write that clashes with one in flight, vectors within the
      reader's limit, and no Add of a key the index does not hold while the log has a delete of it. */
  ghost predicate Orderly(s: State, e: Event) {
    && (e.Append? && s.mem.Some? ==>
          && Fits(e.r) && Fitting(true, s.mem.value.table.entries, s.mem.value.inFlight, e.r)
          && (IsAdd(e.r) && e.r.key !in s.mem.value.table.entries ==> NoDelete(LogOf(s), e.r.key)))
    && (e.TornAppend? ==> |Payload(e.r)| < TWO_32)
  }

  ghost predicate OrderlyRun(cfg: Config, s: State, events: seq<Event>)
    decreases |events|
  {
    events == [] || (Orderly(s, events[0]) && OrderlyRun(cfg, Next(cfg, s, events[0]), events[1..]))
  }

  /** The first Add of a key the base does not hold has no delete of the key before it. */
  ghost predicate TidyKey(present: set<Key>, log: seq<Record>, k: Key) {
    k !in present && FirstAdd(log, k).Some? ==> NoDelete(log[..FirstAdd(log, k).value], k)
  }

  ghost predicate Tidy(present: set<Key>, log: seq<Record>) {
    forall k :: TidyKey(present, log, k)
  }

  ghost predicate TidyOk(cfg: Config, s: State) {
    Replayable(Base(cfg, s.disk), LogOf(s)) ==> Tidy(Base(cfg, s.disk).entries.Keys, LogOf(s))
  }

  lemma {:induction false} FlagHasRecord(log: seq<Record>, k: Key)
    requires LastFlag(log, k) == Some(true)
    ensures !NoDelete(log, k)
    decreases |log|
  {
    if LastFlag(log[1..], k).Some? {
      FlagHasRecord(log[1..], k);
      var q :| 0 <= q < |log[1..]| && IsDelete(log[1..][q], k);
      assert IsDelete(log[q + 1], k);
    } else {
      assert IsDelete(log[0], k);
    }
  }

  lemma TidyHasNoLateTombstone(base: Entries, log: seq<Record>, k: Key)
    requires Tidy(base.Keys, log)
    ensures !LateTombstone(Lookup(base, k), log, k)
  {
    if LateTombstone(Lookup(base, k), log, k) {
      assert TidyKey(base.Keys, log, k);
      FlagHasRecord(log[..FirstAdd(log, k).value], k);
    }
  }

  lemma TidyAppend(present: set<Key>, log: seq<Record>, r: Record)
    requires Tidy(present, log)
    requires IsAdd(r) && r.key !in present + AddKeys(log) ==> NoDelete(log, r.key)
    ensures Tidy(present, log + [r])
  {
    var log' := log + [r];
    forall k ensures TidyKey(present, log', k) {
      FirstAddAppend(log, r, k);
      assert TidyKey(present, log, k);
      if FirstAdd(log, k).Some? {
        assert log'[..FirstAdd(log, k).value] == log[..FirstAdd(log, k).value];
      } else {
        assert log'[..|log|] == log;
      }
    }
  }

  lemma AppendKeepsTidy(cfg: Config, s: State, p: Process, w: nat, r: Record)
    requires Inv(cfg, s, true) && s.mem == Some(p) && TidyOk(cfg, s) && s.disk.wal.Some?
    requires IsAdd(r) && r.key !in p.table.entries ==> NoDelete(LogOf(s), r.key)
    ensures TidyOk(cfg, Logged(cfg, s, p, w, r))
  {
    var s', base, log := Logged(cfg, s, p, w, r), Base(cfg, s.disk), LogOf(s);
    GrowLog(s, s', r);
    if Replayable(base, LogOf(s')) {
      ReplayablePrefix(base, log, [r]);
      if r.key in p.table.entries {
        assert KeyMatch(true, base.entries, log, p.table.entries, p.inFlight, r.key);
        MatchedKeyIsLogged(true, base.entries, log, p.table.entries, p.inFlight, r.key);
      }
      TidyAppend(base.entries.Keys, log, r);
    }
  }

  lemma RebaseKeepsTidy(base: Table, table: Table, log: seq<Record>)
    requires Replayable(base, log) ==> Tidy(base.entries.Keys, log)
    requires base.dim == table.dim && base.capacity == table.capacity && base.entries.Keys <= table.entries.Keys
    ensures Replayable(table, log) ==> Tidy(table.entries.Keys, log)
  {
    if Replayable(table, log) {
      RebaseNeedsMore(base, table, log);
      forall k ensures TidyKey(table.entries.Keys, log, k) {
        assert TidyKey(base.entries.Keys, log, k);
      }
    }
  }

  lemma SameLogKeepsTidy(cfg: Config, s: State, s': State)
    requires TidyOk(cfg, s)
    requires s'.hist == s.hist && s'.logStart == s.logStart && s'.disk.snapshot == s.disk.snapshot
    ensures TidyOk(cfg, s')
  {
    assert LogOf(s') == LogOf(s) && Base(cfg, s'.disk) == Base(cfg, s.disk);
  }

  lemma StepKeepsTidy(cfg: Config, s: State, e: Event)
    requires Inv(cfg, s, true) && TidyOk(cfg, s) && Orderly(s, e)
    ensures TidyOk(cfg, Next(cfg, s, e))
  {
    if s.mem.Some? && (e.Append? || e.RenameSnapshot? || e.RotateLog?) {
      RunningKeepsTidy(cfg, s, s.mem.value, e);
    } else {
      OtherSteps(cfg, s, e);
      SameLogKeepsTidy(cfg, s, Next(cfg, s, e));
    }
  }

  lemma RenameKeepsTidy(cfg: Config, s: State, p: Process, s': State)
    requires Inv(cfg, s, true) && TidyOk(cfg, s) && s.mem == Some(p)
    requires s'.hist == s.hist && s'.logStart == s.logStart && s'.disk.snapshot == Some(p.table)
    ensures TidyOk(cfg, s')
  {
    assert Base(cfg, s'.disk) == p.table && LogOf(s') == LogOf(s);
    RebaseKeepsTidy(Base(cfg, s.disk), p.table, LogOf(s));
  }

  lemma EmptyLogIsTidy(cfg: Config, s: State)
    requires s.logStart == |s.hist|
    ensures TidyOk(cfg, s)
  {
    assert LogOf(s) == [];
  }

  lemma RunningKeepsTidy(cfg: Config, s: State, p: Process, e: Event)
    requires Inv(cfg, s, true) && TidyOk(cfg, s) && Orderly(s, e) && s.mem == Some(p)
    requires e.Append? || e.RenameSnapshot? || e.RotateLog?
    ensures TidyOk(cfg, RunningNext(cfg, s, p, e))
  {
    var s' := RunningNext(cfg, s, p, e);
    if s' != s {
      if e.Append? {
        WriterSteps(cfg, s, p, e);
      } else {
        RenamingSteps(cfg, s, p, e);
      }
      match e {
        case Append(w, r) => AppendKeepsTidy(cfg, s, p, w, r);
        case RenameSnapshot => RenameKeepsTidy(cfg, s, p, s');
        case RotateLog => EmptyLogIsTidy(cfg, s');
      }
    }
  }

  lemma OrderlyIsDisciplined(cfg: Config, s: State, e: Event)
    requires Inv(cfg, s, true) && TidyOk(cfg, s) && Orderly(s, e)
    ensures Disciplined(cfg, s, e, true)
  {
    if e.RenameSnapshot? && s.mem.Some? && Replayable(s.mem.value.table, LogOf(s)) {
      RebaseNeedsMore(Base(cfg, s.disk), s.mem.value.table, LogOf(s));
      forall k ensures !LateTombstone(Lookup(Base(cfg, s.disk).entries, k), LogOf(s), k) {
        TidyHasNoLateTombstone(Base(cfg, s.disk).entries, LogOf(s), k);
      }
    }
  }

  lemma {:induction false} OrderlyRunsAreDisciplinedFrom(cfg: Config, s: State, events: seq<Event>)
    requires Inv(cfg, s, true) && TidyOk(cfg, s) && OrderlyRun(cfg, s, events)
    ensures DisciplinedRun(cfg, s, events, true)
    decreases |events|
  {
    if events != [] {
      OrderlyIsDisciplined(cfg, s, events[0]);
      StepKeepsInv(cfg, s, events[0], true);
      StepKeepsTidy(cfg, s, events[0]);
      OrderlyRunsAreDisciplinedFrom(cfg, Next(cfg, s, events[0]), events[1..]);
    }
  }

  /** If no delete is logged before its key's first Add, all that exact recovery asks for is
      given, at every snapshot of every run. */
  lemma OrderlyRunsAreDisciplined(cfg: Config, events: seq<Event>)
    requires OrderlyRun(cfg, Init(), events)
    ensures DisciplinedRun(cfg, Init(), events, true)
  {
    InitOk(cfg, true);
    OrderlyRunsAreDisciplinedFrom(cfg, Init(), events);
  }
}
