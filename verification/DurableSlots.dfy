/** The durable index with its real steps: as the system of module Durable, but a writer's insert
    takes the three steps of addPoint, memory is slots and a label map, and a snapshot file is the
    slots, from which load rebuilds the map. */
module DurableSlots {
  import opened Bytes
  import opened KeyTable
  import opened Options
  import opened WalFormat
  import opened SlotStore
  import D = Durable
  import L = LabelRace

  /** What is stored for an inserted vector is prepare of it: its normalisation for cosine, itself
      for L2. */
  datatype Setup = Setup(dim: nat, capacity: nat, crc: Crc, prepare: Vector -> Vector)

  ghost predicate KeepsLength(cfg: Setup) {
    forall v: Vector :: |cfg.prepare(v)| == |v|
  }

  datatype Tmp = NoTmp | Part | Whole(slots: seq<Slot>)

  datatype Disk = Disk(snapshot: Option<seq<Slot>>, tmp: Tmp, wal: Option<seq<U8>>, walNew: Option<seq<U8>>)

  datatype Process = Process(memory: L.Memory, phase: D.Phase)

  datatype State = State(disk: Disk, mem: Option<Process>,
                         acked: set<(Key, Vector)>, hist: seq<Record>, logStart: nat, snapAt: nat)

  function Init(): State {
    State(Disk(None, NoTmp, None, None), None, {}, [], 0, 0)
  }

  function WriteOf(cfg: Setup, r: Record): Write {
    if r.op == OP_ADD then Insert(r.key, cfg.prepare(r.vector)) else Mark(r.key, r.op == OP_MARK_DELETED)
  }

  /** apply, with nobody else about: the three steps of addPoint in one. */
  function Redone(s: Store, w: Write): Option<Store> {
    match w
    case Mark(k, flag) => Some(Marked(s, k, flag).0)
    case Insert(k, v) =>
      if |v| != s.dim then None
      else if k in s.ids then Some(s)
      else if |s.slots| >= s.capacity then None
      else Some(Labelled(Claimed(s, k, v), k, |s.slots|))
  }

  function ReplayAll(cfg: Setup, s: Store, rs: seq<Record>): Option<Store>
    decreases |rs|
  {
    if rs == [] then Some(s)
    else match Redone(s, WriteOf(cfg, rs[0]))
      case None => None
      case Some(s') => ReplayAll(cfg, s', rs[1..])
  }

  function SavedSlots(disk: Disk): seq<Slot> {
    if disk.snapshot.Some? then disk.snapshot.value else []
  }

  /** loadOrCreateIndex. */
  function Base(cfg: Setup, disk: Disk): Store {
    Loaded(cfg.dim, cfg.capacity, SavedSlots(disk))
  }

  /** The index Open ends up with, if it succeeds: load, then replay. */
  function OpenStore(cfg: Setup, disk: Disk): Option<Store> {
    match disk.wal
    case None => Some(Base(cfg, disk))
    case Some(file) =>
      match ScanFile(cfg.crc, file)
      case BadHeader => None
      case Scanned(rs, _) => ReplayAll(cfg, Base(cfg, disk), rs)
  }

  function OpenedLog(cfg: Setup, disk: Disk): seq<U8> {
    match disk.wal
    case None => LogFile(cfg.crc, [])
    case Some(file) => Reopened(cfg.crc, file)
  }

  function Died(s: State): State {
    s.(mem := None)
  }

  function InPhase(s: State, p: Process, phase: D.Phase): State {
    s.(mem := Some(p.(phase := phase)))
  }

  /** Writer w's record r is in the log and the writer about to enter the index. */
  function Logged(cfg: Setup, s: State, p: Process, w: nat, r: Record): State
    requires s.disk.wal.Some?
  {
    s.(disk := s.disk.(wal := Some(s.disk.wal.value + Encode(cfg.crc, r))),
       mem := Some(p.(memory := L.Next(p.memory, L.Enter(w, WriteOf(cfg, r))))), hist := s.hist + [r])
  }

  /** Writer w takes its next step in the index and is answered if that was the last one. */
  function Advanced(s: State, p: Process, w: nat): State
    requires w in p.memory.flights
  {
    var write := p.memory.flights[w].write;
    var (memory, answer) := L.Advance(p.memory, w);
    s.(mem := Some(p.(memory := memory)),
       acked := if write.Insert? && answer == Some(Ok) then s.acked + {(write.key, write.vector)} else s.acked)
  }

  /** Steps of a running process; an event that is not enabled changes nothing. */
  function RunningNext(cfg: Setup, s: State, p: Process, e: D.Event): State
    requires s.mem == Some(p)
  {
    var d := s.disk;
    match e
    case Append(w, r) =>
      if p.phase == D.Idle && w !in p.memory.flights && Encodable(r) && d.wal.Some? then Logged(cfg, s, p, w, r) else s
    case TornAppend(r, n) =>
      if p.phase == D.Idle && Encodable(r) && n < |Encode(cfg.crc, r)| && d.wal.Some? then
        Died(s.(disk := d.(wal := Some(d.wal.value + Encode(cfg.crc, r)[..n]))))
      else s
    case Apply(w) =>
      if w in p.memory.flights then Advanced(s, p, w) else s
    case Crash => Died(s)
    case LockForSnapshot =>
      if p.phase == D.Idle && p.memory.flights == map[] then InPhase(s, p, D.Locked) else s
    case BeginSave =>
      if p.phase == D.Locked then InPhase(s.(disk := d.(tmp := Part)), p, D.Saving) else s
    case EndSave =>
      if p.phase == D.Saving then InPhase(s.(disk := d.(tmp := Whole(p.memory.store.slots))), p, D.Saved) else s
    case RenameSnapshot =>
      if p.phase == D.Saved && d.tmp.Whole? then
        InPhase(s.(disk := d.(snapshot := Some(d.tmp.slots), tmp := NoTmp), snapAt := |s.hist|), p, D.Renamed)
      else s
    case CreateLog =>
      if p.phase != D.Renamed then s
      else if d.walNew.Some? then InPhase(s, p, D.Idle)
      else InPhase(s.(disk := d.(walNew := Some(LogFile(cfg.crc, [])))), p, D.NewLog)
    case TornCreateLog(n) =>
      if p.phase == D.Renamed && d.walNew.None? && n < 8 then Died(s.(disk := d.(walNew := Some(Header()[..n])))) else s
    case RotateLog =>
      if p.phase == D.NewLog && d.walNew.Some? then
        InPhase(s.(disk := d.(wal := d.walNew, walNew := None), logStart := |s.hist|), p, D.Rotated)
      else s
    case EndSnapshot =>
      if p.phase == D.Rotated then InPhase(s, p, D.Idle) else s
    case Open => s
    case TornOpen(_) => s
  }

  function Next(cfg: Setup, s: State, e: D.Event): State {
    match s.mem
    case Some(p) => RunningNext(cfg, s, p, e)
    case None =>
      match e
      case Open =>
        (match OpenStore(cfg, s.disk)
         case None => s
         case Some(store) =>
           s.(disk := s.disk.(wal := Some(OpenedLog(cfg, s.disk))),
              mem := Some(Process(L.Memory(store, map[]), D.Idle))))
      case TornOpen(n) =>
        if s.disk.wal.None? && n < 8 then s.(disk := s.disk.(wal := Some(Header()[..n]))) else s
      case _ => s
  }

  function Exec(cfg: Setup, s: State, events: seq<D.Event>): State
    decreases |events|
  {
    if events == [] then s else Exec(cfg, Next(cfg, s, events[0]), events[1..])
  }

  /** The process can die between any two steps, which leaves the files alone. */
  lemma DiesBetweenSteps(cfg: Setup, s: State)
    ensures exists e: D.Event :: Next(cfg, s, e) == s.(mem := None)
  {
    assert s.mem.Some? ==> Next(cfg, s, D.Crash) == s.(mem := None);
    assert s.mem.None? ==> Next(cfg, s, D.Crash) == s;
  }

  /** And in the middle of any write to a log: on disk is then any proper prefix of what the whole
      write would have left, of a record appended, of a new log created, of the first log. */
  lemma DiesInsideAppend(cfg: Setup, s: State, w: nat, r: Record, n: nat)
    requires s.mem.Some? && s.disk.wal.Some? && Next(cfg, s, D.Append(w, r)).disk.wal.Some?
    requires |s.disk.wal.value| <= n < |Next(cfg, s, D.Append(w, r)).disk.wal.value|
    ensures var whole := Next(cfg, s, D.Append(w, r)).disk.wal.value;
      exists e: D.Event :: Next(cfg, s, e) == s.(mem := None, disk := s.disk.(wal := Some(whole[..n])))
  {
    var before, whole := s.disk.wal.value, Next(cfg, s, D.Append(w, r)).disk.wal.value;
    var k := n - |before|;
    assert whole[..n] == before + Encode(cfg.crc, r)[..k];
    assert Next(cfg, s, D.TornAppend(r, k)) == s.(mem := None, disk := s.disk.(wal := Some(whole[..n])));
  }

  lemma DiesInsideCreateLog(cfg: Setup, s: State, n: nat)
    requires s.mem.Some? && s.disk.walNew.None? && Next(cfg, s, D.CreateLog).disk.walNew.Some?
    requires n < |Next(cfg, s, D.CreateLog).disk.walNew.value|
    ensures var whole := Next(cfg, s, D.CreateLog).disk.walNew.value;
      exists e: D.Event :: Next(cfg, s, e) == s.(mem := None, disk := s.disk.(walNew := Some(whole[..n])))
  {
    var whole := Next(cfg, s, D.CreateLog).disk.walNew.value;
    assert whole == Header();
    assert Next(cfg, s, D.TornCreateLog(n)) == s.(mem := None, disk := s.disk.(walNew := Some(whole[..n])));
  }

  lemma DiesInsideOpen(cfg: Setup, s: State, n: nat)
    requires s.mem.None? && s.disk.wal.None? && Next(cfg, s, D.Open).disk.wal.Some?
    requires n < |Next(cfg, s, D.Open).disk.wal.value|
    ensures var whole := Next(cfg, s, D.Open).disk.wal.value;
      exists e: D.Event :: Next(cfg, s, e) == s.(disk := s.disk.(wal := Some(whole[..n])))
  {
    var whole := Next(cfg, s, D.Open).disk.wal.value;
    assert whole == Header();
    assert Next(cfg, s, D.TornOpen(n)) == s.(disk := s.disk.(wal := Some(whole[..n])));
  }

  /** The records in the log file: the history from logStart on. */
  function LogOf(s: State): seq<Record> {
    if s.logStart <= |s.hist| then s.hist[s.logStart..] else []
  }

  /** A log file whose header was never completed. */
  predicate ShortLog(disk: Disk) {
    disk.wal.Some? && |disk.wal.value| < 8
  }
}
