/** The entry-point protocol of concurrent insertions: a probe under the shared lock decides
    which lock to take, the values are read again under that lock, and only then does the
    insertion link and perhaps promote. Any number of threads, any interleaving. */
module EntryPoint {
  import opened Options

  /** Where an inserting thread is. `exclusive` is what its probe decided; curMax and curEntry
      are the values it read again under its lock. */
  datatype Phase =
    | Arrived
    | Probed(exclusive: bool)
    | Locked(exclusive: bool)
    | Working(exclusive: bool, curMax: nat, curEntry: Option<nat>)
    | Linked(exclusive: bool, curMax: nat)
    | Finished

  datatype Thread = Thread(level: nat, phase: Phase)

  /** A thread's number also names the node it inserts. */
  datatype State = State(entry: Option<nat>, maxLevel: nat, readers: set<nat>, writer: Option<nat>,
                         threads: map<nat, Thread>)

  datatype Event = Arrive(t: nat, level: nat) | Run(t: nat)

  function Init(): State {
    State(None, 0, {}, None, map[])
  }

  function Moved(s: State, t: nat, p: Phase): State
    requires t in s.threads
  {
    s.(threads := s.threads[t := s.threads[t].(phase := p)])
  }

  /** Unlocking whichever lock the thread holds, at the end of its insertion. */
  function Released(s: State, t: nat, exclusive: bool): State
    requires t in s.threads
  {
    var s' := if exclusive then s.(writer := None) else s.(readers := s.readers - {t});
    Moved(s', t, Finished)
  }

  /** One step of thread t; a thread whose lock is not available stays where it is. The two
      assignments to entry and maxLevel are written as the code has them, without asking
      which lock is held. */
  function RunThread(s: State, t: nat): State
    requires t in s.threads
  {
    var level := s.threads[t].level;
    match s.threads[t].phase
    case Arrived =>
      if s.writer.Some? then s
      else Moved(s, t, Probed(s.entry.None? || level > s.maxLevel))
    case Probed(exclusive) =>
      if s.writer.Some? || (exclusive && s.readers != {}) then s
      else
        var s' := if exclusive then s.(writer := Some(t)) else s.(readers := s.readers + {t});
        Moved(s', t, Locked(exclusive))
    case Locked(exclusive) =>
      Moved(s, t, Working(exclusive, s.maxLevel, s.entry))
    case Working(exclusive, curMax, curEntry) =>
      if curEntry.None? then Released(s.(entry := Some(t), maxLevel := level), t, exclusive)
      else Moved(s, t, Linked(exclusive, curMax))
    case Linked(exclusive, curMax) =>
      Released(if level > curMax then s.(entry := Some(t), maxLevel := level) else s, t, exclusive)
    case Finished => s
  }

  function Next(s: State, e: Event): State {
    match e
    case Arrive(t, level) =>
      if t in s.threads then s else s.(threads := s.threads[t := Thread(level, Arrived)])
    case Run(t) =>
      if t in s.threads then RunThread(s, t) else s
  }

  function Exec(s: State, events: seq<Event>): State
    decreases |events|
  {
    if events == [] then s else Exec(Next(s, events[0]), events[1..])
  }

  ghost predicate HoldsShared(p: Phase) {
    (p.Locked? || p.Working? || p.Linked?) && !p.exclusive
  }

  ghost predicate HoldsExclusive(p: Phase) {
    (p.Locked? || p.Working? || p.Linked?) && p.exclusive
  }

  /** What a thread may rely on in each phase. */
  ghost predicate ThreadOk(s: State, t: nat)
    requires t in s.threads
  {
    var level, p := s.threads[t].level, s.threads[t].phase;
    && (t in s.readers <==> HoldsShared(p))
    && (s.writer == Some(t) <==> HoldsExclusive(p))
    && ((p.Probed? || p.Locked? || p.Working? || p.Linked?) && !p.exclusive ==> s.entry.Some? && level <= s.maxLevel)
    && (p.Working? && !p.exclusive ==> p.curEntry.Some? && level <= p.curMax <= s.maxLevel)
    && (p.Linked? && !p.exclusive ==> level <= p.curMax <= s.maxLevel)
    && (p.Working? && p.exclusive ==> p.curEntry == s.entry && p.curMax == s.maxLevel)
    && (p.Linked? && p.exclusive ==> s.entry.Some? && p.curMax == s.maxLevel)
    && (p.Finished? ==> s.entry.Some? && level <= s.maxLevel)
  }

  ghost predicate Inv(s: State) {
    && (s.writer.Some? ==> s.readers == {} && s.writer.value in s.threads)
    && s.readers <= s.threads.Keys
    && (if s.entry.None? then s.maxLevel == 0
        else s.entry.value in s.threads && s.threads[s.entry.value].level == s.maxLevel
             && s.threads[s.entry.value].phase.Finished?)
    && forall t :: t in s.threads ==> ThreadOk(s, t)
  }

  /** A change made by thread t that leaves thread u as it was. */
  lemma OtherThreadOk(s: State, s': State, t: nat, u: nat)
    requires u in s.threads && u in s'.threads && u != t && s'.threads[u] == s.threads[u] && ThreadOk(s, u)
    requires u in s'.readers <==> u in s.readers
    requires s'.writer == Some(u) <==> s.writer == Some(u)
    requires s'.maxLevel >= s.maxLevel && (s.entry.Some? ==> s'.entry.Some?)
    requires (s'.entry, s'.maxLevel) == (s.entry, s.maxLevel) || s.writer == Some(t)
    ensures ThreadOk(s', u)
  {
  }

  /** The thread that moves. */
  lemma MovingThreadOk(s: State, t: nat)
    requires Inv(s) && t in s.threads
    ensures var s' := RunThread(s, t);
      && ThreadOk(s', t) && s'.threads.Keys == s.threads.Keys
      && s'.maxLevel >= s.maxLevel && (s.entry.Some? ==> s'.entry.Some?)
      && ((s'.entry, s'.maxLevel) != (s.entry, s.maxLevel) ==> s.writer == Some(t))
  {
    assert ThreadOk(s, t);
  }

  lemma LocksKept(s: State, t: nat)
    requires Inv(s) && t in s.threads
    ensures var s' := RunThread(s, t);
      && (s'.writer.Some? ==> s'.readers == {} && s'.writer.value in s'.threads)
      && s'.readers <= s'.threads.Keys
      && (forall u :: u != t && u in s.threads ==>
            && s'.threads[u] == s.threads[u] && (u in s'.readers <==> u in s.readers)
            && (s'.writer == Some(u) <==> s.writer == Some(u)))
  {
    assert ThreadOk(s, t);
    if s.threads[t].phase.Probed? {
      forall u | u != t && u in s.threads ensures ThreadOk(s, u) {}
    }
  }

  lemma EntryKept(s: State, t: nat)
    requires Inv(s) && t in s.threads
    ensures var s' := RunThread(s, t);
      if s'.entry.None? then s'.maxLevel == 0
      else s'.entry.value in s'.threads && s'.threads[s'.entry.value].level == s'.maxLevel
           && s'.threads[s'.entry.value].phase.Finished?
  {
    assert ThreadOk(s, t);
  }

  /** One step keeps the invariant, and the shared pair (entry, maxLevel) changes only by the
      thread that holds the exclusive lock while nobody holds the shared one; maxLevel never falls. */
  lemma StepKeepsInv(s: State, e: Event)
    requires Inv(s)
    ensures Inv(Next(s, e)) && Next(s, e).maxLevel >= s.maxLevel
    ensures s.entry.Some? ==> Next(s, e).entry.Some?
    ensures (Next(s, e).entry, Next(s, e).maxLevel) != (s.entry, s.maxLevel)
            ==> e.Run? && s.writer == Some(e.t) && s.readers == {}
  {
    var s' := Next(s, e);
    if e.Run? && e.t in s.threads {
      MovingThreadOk(s, e.t);
      LocksKept(s, e.t);
      EntryKept(s, e.t);
      forall u | u in s'.threads && u != e.t ensures ThreadOk(s', u) {
        assert ThreadOk(s, u);
        OtherThreadOk(s, s', e.t, u);
      }
    } else {
      forall u | u in s'.threads ensures ThreadOk(s', u) {
        assert u in s.threads ==> ThreadOk(s, u);
      }
    }
  }

  /** Safety over every interleaving. */
  lemma {:induction false} RunsKeepInv(s: State, events: seq<Event>)
    requires Inv(s)
    ensures Inv(Exec(s, events)) && Exec(s, events).maxLevel >= s.maxLevel
    decreases |events|
  {
    if events != [] {
      StepKeepsInv(s, events[0]);
      RunsKeepInv(Next(s, events[0]), events[1..]);
    }
  }

  /** In every state any run from the empty index can reach: the entry point is a finished
      node whose level is maxLevel, and no finished node is above it; a thread on the shared
      path has a node to start from and no promotion to make. */
  lemma EntryPointSafety(events: seq<Event>)
    ensures var s := Exec(Init(), events);
      && (s.entry.Some? ==> s.entry.value in s.threads && s.threads[s.entry.value].level == s.maxLevel)
      && (forall t :: t in s.threads && s.threads[t].phase.Finished? ==> s.entry.Some? && s.threads[t].level <= s.maxLevel)
      && (forall t :: t in s.threads && s.threads[t].phase.Working? && !s.threads[t].phase.exclusive
            ==> s.threads[t].phase.curEntry.Some? && s.threads[t].level <= s.threads[t].phase.curMax)
      && (forall t :: t in s.threads && s.threads[t].phase.Linked? && !s.threads[t].phase.exclusive
            ==> s.threads[t].level <= s.threads[t].phase.curMax)
      && (forall t, u :: (t in s.threads && u in s.threads && HoldsExclusive(s.threads[t].phase)
                          && (HoldsShared(s.threads[u].phase) || HoldsExclusive(s.threads[u].phase))) ==> t == u)
  {
    RunsKeepInv(Init(), events);
    var s := Exec(Init(), events);
    assert forall t :: t in s.threads ==> ThreadOk(s, t);
  }

  /** In every reachable state, a step that changes entry or maxLevel is taken by the holder of
      the exclusive lock, alone; a searcher that reads both under the shared lock therefore
      reads a matching pair. */
  lemma WritesAreExclusive(events: seq<Event>, e: Event)
    ensures var s := Exec(Init(), events);
      (Next(s, e).entry, Next(s, e).maxLevel) != (s.entry, s.maxLevel)
      ==> e.Run? && s.writer == Some(e.t) && s.readers == {} && Next(s, e).maxLevel >= s.maxLevel
  {
    RunsKeepInv(Init(), events);
    StepKeepsInv(Exec(Init(), events), e);
  }

  /** While a thread holds the exclusive lock, no other thread takes a step. */
  lemma ExclusiveIsAlone(events: seq<Event>, w: nat, t: nat)
    requires Exec(Init(), events).writer == Some(w) && t != w
    ensures Next(Exec(Init(), events), Run(t)) == Exec(Init(), events)
  {
    var s := Exec(Init(), events);
    RunsKeepInv(Init(), events);
    assert t in s.threads ==> ThreadOk(s, t);
  }

  /** The thread has arrived and is no higher than the entry point. */
  ghost predicate LowArrival(s: State, t: nat) {
    t in s.threads && s.threads[t].phase == Arrived && s.threads[t].level <= s.maxLevel
  }

  /** Two steps of each thread, one thread after the other. */
  function TwoStepsEach(ts: seq<nat>): seq<Event> {
    if ts == [] then [] else [Run(ts[0]), Run(ts[0])] + TwoStepsEach(ts[1..])
  }

  /** Insertions that do not raise the top level do not wait for each other: any number of such
      threads can hold the shared lock together. */
  lemma {:induction false} SharedTogether(s: State, ts: seq<nat>)
    requires s.writer == None && s.entry.Some?
    requires forall i :: 0 <= i < |ts| ==> LowArrival(s, ts[i])
    requires forall i, j :: 0 <= i < j < |ts| ==> ts[i] != ts[j]
    ensures var s' := Exec(s, TwoStepsEach(ts));
      && s'.threads.Keys == s.threads.Keys
      && (forall t :: t in s.threads && t !in ts ==> s'.threads[t] == s.threads[t])
      && (forall t :: t in ts ==> t in s'.threads && HoldsShared(s'.threads[t].phase) && t in s'.readers)
      && s.readers <= s'.readers
    decreases |ts|
  {
    if ts != [] {
      var t, rest := ts[0], ts[1..];
      var probed := Next(s, Run(t));
      assert LowArrival(s, t);
      var locked := Next(probed, Run(t));
      assert forall i :: 0 <= i < |rest| ==> rest[i] == ts[i + 1];
      assert forall i :: 0 <= i < |rest| ==> LowArrival(s, rest[i]);
      SharedTogether(locked, rest);
      assert TwoStepsEach(ts)[1..][1..] == TwoStepsEach(rest);
      assert Exec(s, TwoStepsEach(ts)) == Exec(locked, TwoStepsEach(rest));
    }
  }

  /** While an insertion is unfinished, some thread can take a step. */
  lemma NoDeadlock(events: seq<Event>, t: nat)
    requires var s := Exec(Init(), events); t in s.threads && !s.threads[t].phase.Finished?
    ensures var s := Exec(Init(), events); exists u :: u in s.threads && RunThread(s, u) != s
  {
    var s := Exec(Init(), events);
    RunsKeepInv(Init(), events);
    var u := t;
    if s.writer.Some? {
      u := s.writer.value;
    } else if s.readers != {} {
      u :| u in s.readers;
    }
    assert ThreadOk(s, u);
    assert RunThread(s, u).threads[u] != s.threads[u];
  }
}
