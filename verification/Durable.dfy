/** The durable index as a step system: writers that log and then apply in one step, the snapshot
    rotation file operation by file operation, and a crash possible between any two steps
    and in the middle of a write to the log. The log on disk is its actual bytes. */
module Durable {
  import opened Bytes
  import opened KeyTable
  import opened Options
  import opened WalFormat
  import opened Replay

  datatype Config = Config(dim: nat, capacity: nat, crc: Crc)

  /** The ".tmp" file a snapshot is saved to before it is renamed into place. */
  datatype Tmp = NoTmp | Part | Whole(table: Table)

  /** The four files. A snapshot file is the table it restores. */
  datatype Disk = Disk(snapshot: Option<Table>, tmp: Tmp, wal: Option<seq<U8>>, walNew: Option<seq<U8>>)

  /** How far the running snapshot call is. Every phase but Idle holds the exclusive lock. */
  datatype Phase = Idle | Locked | Saving | Saved | Renamed | NewLog | Rotated

  /** A running process: the index, the records of writers between log and index, the
      snapshot call. */
  datatype Process = Process(table: Table, inFlight: map<nat, Record>, phase: Phase)

  /** acked, hist, logStart and snapAt are bookkeeping: the acknowledged Adds, every record ever
      logged in full, where in that history the current log file begins, and how much of it
      the snapshot file reflects. */
  datatype State = State(disk: Disk, mem: Option<Process>,
                         acked: set<(Key, Vector)>, hist: seq<Record>, logStart: nat, snapAt: nat)

  datatype Event =
    | Append(w: nat, r: Record)       // writer w's record is written and synced
    | TornAppend(r: Record, n: nat)   // the process dies after n bytes of a record
    | Apply(w: nat)                   // writer w applies its record and is answered
    | Crash
    | LockForSnapshot | BeginSave | EndSave | RenameSnapshot
    | CreateLog | TornCreateLog(n: nat) | RotateLog | EndSnapshot
    | Open
    | TornOpen(n: nat)                // the process dies while Open creates the first log

  function Init(): State {
    State(Disk(None, NoTmp, None, None), None, {}, [], 0, 0)
  }

  function WriteOf(r: Record): Write {
    if r.op == OP_ADD then Insert(r.key, r.vector) else Mark(r.key, r.op == OP_MARK_DELETED)
  }

  /** What the index does with a record and whether the writer is answered with success. */
  function Effect(t: Table, r: Record): Reply {
    Perform(t, WriteOf(r))
  }

  /** loadOrCreateIndex. */
  function Base(cfg: Config, disk: Disk): Table {
    if disk.snapshot.Some? then disk.snapshot.value else Empty(cfg.dim, cfg.capacity)
  }

  /** The table Open ends up with, if it succeeds: load, then replay. */
  function OpenTable(cfg: Config, disk: Disk): Option<Table> {
    match disk.wal
    case None => Some(Base(cfg, disk))
    case Some(file) =>
      match ScanFile(cfg.crc, file)
      case BadHeader => None
      case Scanned(rs, _) => ApplyAll(Base(cfg, disk), rs)
  }

  /** The log file after a successful Open: created, or cut to its readable part. */
  function OpenedLog(cfg: Config, disk: Disk): seq<U8> {
    match disk.wal
    case None => LogFile(cfg.crc, [])
    case Some(file) => Reopened(cfg.crc, file)
  }

  function Died(s: State): State {
    s.(mem := None)
  }

  function InPhase(s: State, p: Process, phase: Phase): State {
    s.(mem := Some(p.(phase := phase)))
  }

  /** Writer w's record r is in the log. */
  function Logged(cfg: Config, s: State, p: Process, w: nat, r: Record): State
    requires s.disk.wal.Some?
  {
    s.(disk := s.disk.(wal := Some(s.disk.wal.value + Encode(cfg.crc, r))),
       mem := Some(p.(inFlight := p.inFlight[w := r])), hist := s.hist + [r])
  }

  /** Writer w's record is applied and the writer answered. */
  function Applied(s: State, p: Process, w: nat): State
    requires w in p.inFlight
  {
    var r := p.inFlight[w];
    var reply := Effect(p.table, r);
    s.(mem := Some(p.(table := reply.table, inFlight := p.inFlight - {w})),
       acked := if r.op == OP_ADD && reply.outcome == Ok then s.acked + {(r.key, r.vector)} else s.acked)
  }

  /** Steps of a running process; an event that is not enabled changes nothing. */
  function RunningNext(cfg: Config, s: State, p: Process, e: Event): State
    requires s.mem == Some(p)
  {
    var d := s.disk;
    match e
    case Append(w, r) =>
      if p.phase == Idle && w !in p.inFlight && Encodable(r) && d.wal.Some? then
        Logged(cfg, s, p, w, r)
      else s
    case TornAppend(r, n) =>
      if p.phase == Idle && Encodable(r) && n < |Encode(cfg.crc, r)| && d.wal.Some? then
        Died(s.(disk := d.(wal := Some(d.wal.value + Encode(cfg.crc, r)[..n]))))
      else s
    case Apply(w) =>
      if w in p.inFlight then Applied(s, p, w) else s
    case Crash => Died(s)
    case LockForSnapshot =>
      if p.phase == Idle && p.inFlight == map[] then InPhase(s, p, Locked) else s
    case BeginSave =>
      if p.phase == Locked then InPhase(s.(disk := d.(tmp := Part)), p, Saving) else s
    case EndSave =>
      if p.phase == Saving then InPhase(s.(disk := d.(tmp := Whole(p.table))), p, Saved) else s
    case RenameSnapshot =>
      if p.phase == Saved && d.tmp.Whole? then
        InPhase(s.(disk := d.(snapshot := Some(d.tmp.table), tmp := NoTmp), snapAt := |s.hist|), p, Renamed)
      else s
    case CreateLog =>
      if p.phase != Renamed then s
      else if d.walNew.Some? then InPhase(s, p, Idle)   // the file is in the way: Snapshot returns an error
      else InPhase(s.(disk := d.(walNew := Some(LogFile(cfg.crc, [])))), p, NewLog)
    case TornCreateLog(n) =>
      if p.phase == Renamed && d.walNew.None? && n < 8 then Died(s.(disk := d.(walNew := Some(Header()[..n])))) else s
    case RotateLog =>
      if p.phase == NewLog && d.walNew.Some? then
        InPhase(s.(disk := d.(wal := d.walNew, walNew := None), logStart := |s.hist|), p, Rotated)
      else s
    case EndSnapshot =>
      if p.phase == Rotated then InPhase(s, p, Idle) else s
    case Open => s
    case TornOpen(_) => s
  }

  function Next(cfg: Config, s: State, e: Event): State {
    match s.mem
    case Some(p) => RunningNext(cfg, s, p, e)
    case None =>
      match e
      case Open =>
        (match OpenTable(cfg, s.disk)
         case None => s
         case Some(t) =>
           s.(disk := s.disk.(wal := Some(OpenedLog(cfg, s.disk))), mem := Some(Process(t, map[], Idle))))
      case TornOpen(n) =>
        if s.disk.wal.None? && n < 8 then s.(disk := s.disk.(wal := Some(Header()[..n]))) else s
      case _ => s
  }

  function Exec(cfg: Config, s: State, events: seq<Event>): State
    decreases |events|
  {
    if events == [] then s else Exec(cfg, Next(cfg, s, events[0]), events[1..])
  }

  /** The process can die between any two steps, which leaves the files alone. */
  lemma DiesBetweenSteps(cfg: Config, s: State)
    ensures exists e: Event :: Next(cfg, s, e) == s.(mem := None)
  {
    assert s.mem.Some? ==> Next(cfg, s, Crash) == s.(mem := None);
    assert s.mem.None? ==> Next(cfg, s, Crash) == s;
  }

  /** And in the middle of any write to a log: on disk is then any proper prefix of what the whole
      write would have left, of a record appended, of a new log created, of the first log. */
  lemma DiesInsideAppend(cfg: Config, s: State, w: nat, r: Record, n: nat)
    requires s.mem.Some? && s.disk.wal.Some? && Next(cfg, s, Append(w, r)).disk.wal.Some?
    requires |s.disk.wal.value| <= n < |Next(cfg, s, Append(w, r)).disk.wal.value|
    ensures var whole := Next(cfg, s, Append(w, r)).disk.wal.value;
      exists e: Event :: Next(cfg, s, e) == s.(mem := None, disk := s.disk.(wal := Some(whole[..n])))
  {
    var before, whole := s.disk.wal.value, Next(cfg, s, Append(w, r)).disk.wal.value;
    var k := n - |before|;
    assert whole[..n] == before + Encode(cfg.crc, r)[..k];
    assert Next(cfg, s, TornAppend(r, k)) == s.(mem := None, disk := s.disk.(wal := Some(whole[..n])));
  }

  lemma DiesInsideCreateLog(cfg: Config, s: State, n: nat)
    requires s.mem.Some? && s.disk.walNew.None? && Next(cfg, s, CreateLog).disk.walNew.Some?
    requires n < |Next(cfg, s, CreateLog).disk.walNew.value|
    ensures var whole := Next(cfg, s, CreateLog).disk.walNew.value;
      exists e: Event :: Next(cfg, s, e) == s.(mem := None, disk := s.disk.(walNew := Some(whole[..n])))
  {
    var whole := Next(cfg, s, CreateLog).disk.walNew.value;
    assert whole == Header();
    assert Next(cfg, s, TornCreateLog(n)) == s.(mem := None, disk := s.disk.(walNew := Some(whole[..n])));
  }

  lemma DiesInsideOpen(cfg: Config, s: State, n: nat)
    requires s.mem.None? && s.disk.wal.None? && Next(cfg, s, Open).disk.wal.Some?
    requires n < |Next(cfg, s, Open).disk.wal.value|
    ensures var whole := Next(cfg, s, Open).disk.wal.value;
      exists e: Event :: Next(cfg, s, e) == s.(disk := s.disk.(wal := Some(whole[..n])))
  {
    var whole := Next(cfg, s, Open).disk.wal.value;
    assert whole == Header();
    assert Next(cfg, s, TornOpen(n)) == s.(disk := s.disk.(wal := Some(whole[..n])));
  }
}
