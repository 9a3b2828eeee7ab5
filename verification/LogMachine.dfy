/** Log, buffer cache and disk as one transition system. Each step is a critical section of
    kernel/bio.c or kernel/log.c, or one disk transfer; threads interleave at every step and the power
    may fail between any two. */
module LogMachine {
  import opened Options
  import opened Params
  import opened LogFormat

  type Tid = nat   // index of a thread in State.ops

  const NOBLOCK := -1   // a buffer binit left on device 0

  /** `dirty` marks data changed since the last log_write; `leaving` holds the threads that have
      released the sleep lock in brelse and have not yet dropped their reference. */
  datatype Buf = Buf(blockno: int, valid: bool, data: Block, refcnt: int, lock: Option<Tid>,
                     waiters: set<Tid>, leaving: set<Tid>, dirty: bool)

  /** A thread between begin_op and end_op: log entries it added, blocks it passed to log_write. */
  datatype Op = NoOp | Op(added: nat, wrote: set<nat>)

  /** Where the thread inside commit() or recover_from_log() is. */
  datatype Phase =
    | Running
    | WriteLog(t: Tid, i: nat)     // write_log, i blocks copied to the log
    | Installing(t: Tid, i: nat)   // install_trans(0), i blocks copied home
    | Clearing(t: Tid)             // log.lh.n is 0, second write_head still to come
    | Finishing(t: Tid)            // commit() has returned to end_op
    | Booting(t: Tid)              // before read_head
    | Recovering(t: Tid, i: nat)   // install_trans(1)
    | BootClearing(t: Tid)

  datatype Sync = Sync(target: nat, must: nat)

  datatype State = State(
    disk: Disk, bufs: seq<Buf>,
    lh: seq<nat>, outstanding: int, committing: bool, ncommit: nat,
    phase: Phase, ops: seq<Op>, asleep: set<Tid>, syncs: map<Tid, Sync>, panicked: bool,
    // specification only: last value written to each block, contents a crash would recover,
    // operations ended so far, operations known to be recoverable
    last: Disk, committed: Disk, ended: nat, durable: nat)

  /** `opMax` bounds the distinct blocks one operation passes to log_write. */
  datatype Config = Config(layout: Layout, opMax: nat)

  datatype Step =
    | BgetHit(t: Tid, b: nat)
    | BgetRecycle(t: Tid, b: nat, k: nat)
    | AcquireSleep(t: Tid, b: nat)
    | ReadDisk(t: Tid, b: nat)
    | Modify(t: Tid, b: nat, v: Block)
    | LogWrite(t: Tid, b: nat)
    | ReleaseSleep(t: Tid, b: nat)
    | DropRef(t: Tid, b: nat)
    | BeginOp(t: Tid)
    | EndOp(t: Tid)
    | CopyToLog(to: nat, from: nat)
    | WriteHead(b: nat)
    | InstallOne(lb: nat, db: nat)
    | RecoverOne(lb: nat, db: nat)
    | ForgetLog
    | ClearHead(b: nat)
    | FinishCommit
    | ReadHead(b: nat)
    | SyncCall(t: Tid)
    | SyncReturn(t: Tid)
    | Crash(boot: Tid)

  function SetBuf(s: State, b: nat, buf: Buf): State
    requires b < |s.bufs|
  {
    s.(bufs := s.bufs[b := buf])
  }

  function FreshBuf(): Buf {
    Buf(NOBLOCK, false, seq(WORDS, i => 0), 0, None, {}, {}, false)
  }

  /** bwrite: the buffer's contents, here set to v first, go to the disk. */
  function BWrite(s: State, b: nat, v: Block): State
    requires b < |s.bufs| && 0 <= s.bufs[b].blockno < |s.disk|
  {
    SetBuf(s, b, s.bufs[b].(data := v)).(disk := s.disk[s.bufs[b].blockno := v])
  }

  /** Thread t holds buffer b locked, with the contents of block k in it: what bread returns. */
  predicate Has(s: State, t: Tid, b: nat, k: int) {
    b < |s.bufs| && s.bufs[b].lock == Some(t) && s.bufs[b].valid && s.bufs[b].blockno == k
  }

  predicate InOp(s: State, t: Tid) {
    t < |s.ops| && s.ops[t].Op?
  }

  predicate Boot?(p: Phase) { p.Booting? || p.Recovering? || p.BootClearing? }

  predicate Commit?(p: Phase) { p.WriteLog? || p.Installing? || p.Clearing? || p.Finishing? }

  // ---- kernel/bio.c

  predicate CanBgetHit(s: State, t: Tid, b: nat) {
    b < |s.bufs| && s.bufs[b].blockno != NOBLOCK && t !in s.bufs[b].waiters
  }

  function DoBgetHit(s: State, t: Tid, b: nat): State
    requires CanBgetHit(s, t, b)
  {
    SetBuf(s, b, s.bufs[b].(refcnt := s.bufs[b].refcnt + 1, waiters := s.bufs[b].waiters + {t}))
  }

  predicate CanBgetRecycle(c: Config, s: State, t: Tid, b: nat, k: nat) {
    b < |s.bufs| && s.bufs[b].refcnt == 0 && k < c.layout.size && t !in s.bufs[b].waiters
    && forall i :: 0 <= i < |s.bufs| ==> s.bufs[i].blockno != k
  }

  function DoBgetRecycle(s: State, t: Tid, b: nat, k: nat): State
    requires b < |s.bufs|
  {
    SetBuf(s, b, s.bufs[b].(blockno := k, valid := false, refcnt := 1, waiters := s.bufs[b].waiters + {t}))
  }

  predicate CanAcquireSleep(s: State, t: Tid, b: nat) {
    b < |s.bufs| && t in s.bufs[b].waiters && s.bufs[b].lock == None
  }

  function DoAcquireSleep(s: State, t: Tid, b: nat): State
    requires CanAcquireSleep(s, t, b)
  {
    SetBuf(s, b, s.bufs[b].(lock := Some(t), waiters := s.bufs[b].waiters - {t}))
  }

  predicate CanReadDisk(s: State, t: Tid, b: nat) {
    b < |s.bufs| && s.bufs[b].lock == Some(t) && !s.bufs[b].valid && 0 <= s.bufs[b].blockno < |s.disk|
  }

  function DoReadDisk(s: State, t: Tid, b: nat): State
    requires CanReadDisk(s, t, b)
  {
    SetBuf(s, b, s.bufs[b].(data := s.disk[s.bufs[b].blockno], valid := true))
  }

  /** Data changes only under the buffer's lock, inside an operation, and never in the log area. */
  predicate CanModify(c: Config, s: State, t: Tid, b: nat) {
    b < |s.bufs| && Has(s, t, b, s.bufs[b].blockno) && InOp(s, t) && Home(c.layout, s.bufs[b].blockno)
  }

  function DoModify(s: State, b: nat, v: Block): State
    requires b < |s.bufs| && 0 <= s.bufs[b].blockno < |s.last|
  {
    SetBuf(s, b, s.bufs[b].(data := v, dirty := true)).(last := s.last[s.bufs[b].blockno := v])
  }

  /** Changed data is passed to log_write before the buffer is released. */
  predicate CanReleaseSleep(s: State, t: Tid, b: nat) {
    b < |s.bufs| && s.bufs[b].lock == Some(t) && !s.bufs[b].dirty && t !in s.bufs[b].leaving
  }

  function DoReleaseSleep(s: State, t: Tid, b: nat): State
    requires CanReleaseSleep(s, t, b)
  {
    SetBuf(s, b, s.bufs[b].(lock := None, leaving := s.bufs[b].leaving + {t}))
  }

  predicate CanDropRef(s: State, t: Tid, b: nat) {
    b < |s.bufs| && t in s.bufs[b].leaving
  }

  function DoDropRef(s: State, t: Tid, b: nat): State
    requires CanDropRef(s, t, b)
  {
    SetBuf(s, b, s.bufs[b].(refcnt := s.bufs[b].refcnt - 1, leaving := s.bufs[b].leaving - {t}))
  }

  // ---- kernel/log.c

  /** The caller logs a home block inside an operation and stays within the operation's bound. */
  predicate CanLogWrite(c: Config, s: State, t: Tid, b: nat) {
    b < |s.bufs| && Has(s, t, b, s.bufs[b].blockno) && InOp(s, t) && Home(c.layout, s.bufs[b].blockno)
    && |s.ops[t].wrote + {s.bufs[b].blockno}| <= c.opMax
  }

  function DoLogWrite(s: State, t: Tid, b: nat): State
    requires b < |s.bufs| && InOp(s, t) && s.bufs[b].blockno >= 0
  {
    if |s.lh| >= LOGBLOCKS || s.outstanding < 1 then s.(panicked := true)
    else
      var buf := s.bufs[b];
      var op := s.ops[t].(wrote := s.ops[t].wrote + {buf.blockno});
      if buf.blockno in s.lh then
        SetBuf(s, b, buf.(dirty := false)).(ops := s.ops[t := op])
      else
        SetBuf(s, b, buf.(dirty := false, refcnt := buf.refcnt + 1))
        .(lh := s.lh + [buf.blockno], ops := s.ops[t := op.(added := op.added + 1)])
  }

  predicate CanBeginOp(s: State, t: Tid) {
    t < |s.ops| && s.ops[t].NoOp? && t !in s.asleep && !Boot?(s.phase)
  }

  predicate MustWait(s: State) {
    s.committing || |s.lh| + (s.outstanding + 1) * MAXOPBLOCKS > LOGBLOCKS
  }

  function DoBeginOp(s: State, t: Tid): State
    requires t < |s.ops|
  {
    if MustWait(s) then s.(asleep := s.asleep + {t})
    else s.(outstanding := s.outstanding + 1, ops := s.ops[t := Op(0, {})])
  }

  predicate CanEndOp(s: State, t: Tid) {
    InOp(s, t) && forall b :: 0 <= b < |s.bufs| && s.bufs[b].dirty ==> s.bufs[b].lock != Some(t)
  }

  function DoEndOp(s: State, t: Tid): State
    requires t < |s.ops|
  {
    var s1 := s.(outstanding := s.outstanding - 1, ops := s.ops[t := NoOp], ended := s.ended + 1);
    if s.committing then s1.(panicked := true)
    else if s1.outstanding == 0 then
      s1.(committing := true, phase := if |s.lh| > 0 then WriteLog(t, 0) else Finishing(t))
    else s1.(asleep := {})
  }

  predicate CanCopyToLog(c: Config, s: State, to: nat, from: nat) {
    && s.phase.WriteLog? && s.phase.i < |s.lh| && c.layout.start + s.phase.i + 1 < |s.disk|
    && Has(s, s.phase.t, to, c.layout.start + s.phase.i + 1)
    && Has(s, s.phase.t, from, s.lh[s.phase.i])
  }

  function DoCopyToLog(c: Config, s: State, to: nat, from: nat): State
    requires CanCopyToLog(c, s, to, from)
  {
    BWrite(s, to, s.bufs[from].data).(phase := WriteLog(s.phase.t, s.phase.i + 1))
  }

  predicate CanWriteHead(c: Config, s: State, b: nat) {
    && s.phase.WriteLog? && s.phase.i == |s.lh| < WORDS && c.layout.start < |s.disk|
    && Has(s, s.phase.t, b, c.layout.start)
  }

  /** The commit point: from here on a crash recovers to `last`. */
  function DoWriteHead(c: Config, s: State, b: nat): State
    requires CanWriteHead(c, s, b)
  {
    BWrite(s, b, WriteHeader(s.bufs[b].data, s.lh))
    .(phase := Installing(s.phase.t, 0), committed := s.last, durable := s.ended)
  }

  /** One turn of install_trans: the log's copy goes home. */
  predicate CanInstallOne(c: Config, s: State, t: Tid, i: nat, lb: nat, db: nat) {
    && i < |s.lh| && s.lh[i] < |s.disk|
    && Has(s, t, lb, c.layout.start + i + 1)
    && Has(s, t, db, s.lh[i])
  }

  function DoInstallOne(c: Config, s: State, t: Tid, i: nat, lb: nat, db: nat): State
    requires CanInstallOne(c, s, t, i, lb, db)
  {
    var s1 := BWrite(s, db, s.bufs[lb].data);
    SetBuf(s1, db, s1.bufs[db].(refcnt := s1.bufs[db].refcnt - 1)).(phase := Installing(t, i + 1))
  }

  /** The same during recovery, where nothing was pinned. */
  function DoRecoverOne(c: Config, s: State, t: Tid, i: nat, lb: nat, db: nat): State
    requires CanInstallOne(c, s, t, i, lb, db)
  {
    BWrite(s, db, s.bufs[lb].data).(phase := Recovering(t, i + 1))
  }

  predicate CanForgetLog(s: State) {
    (s.phase.Installing? || s.phase.Recovering?) && s.phase.i == |s.lh|
  }

  function DoForgetLog(s: State): State
    requires CanForgetLog(s)
  {
    s.(lh := [], phase := if s.phase.Installing? then Clearing(s.phase.t) else BootClearing(s.phase.t))
  }

  predicate CanClearHead(c: Config, s: State, b: nat) {
    && (s.phase.Clearing? || s.phase.BootClearing?) && c.layout.start < |s.disk|
    && Has(s, s.phase.t, b, c.layout.start)
  }

  function DoClearHead(c: Config, s: State, b: nat): State
    requires CanClearHead(c, s, b)
  {
    BWrite(s, b, WriteHeader(s.bufs[b].data, []))
    .(phase := if s.phase.Clearing? then Finishing(s.phase.t) else Running)
  }

  function DoFinishCommit(s: State): State {
    s.(committing := false, ncommit := s.ncommit + 1, phase := Running, asleep := {}, durable := s.ended)
  }

  predicate CanReadHead(c: Config, s: State, b: nat) {
    s.phase.Booting? && Has(s, s.phase.t, b, c.layout.start) && s.bufs[b].data[0] < WORDS
  }

  function DoReadHead(c: Config, s: State, b: nat): State
    requires CanReadHead(c, s, b)
  {
    s.(lh := ReadHeader(s.bufs[b].data), phase := Recovering(s.phase.t, 0))
  }

  function DoSyncCall(s: State, t: Tid): State {
    var busy := s.committing || s.outstanding > 0;
    s.(syncs := s.syncs[t := Sync(if busy then s.ncommit + 1 else s.ncommit, s.ended)])
  }

  /** All of memory is lost; `boot` is the thread that will run recovery. */
  function DoCrash(s: State, boot: Tid): State {
    s.(bufs := seq(|s.bufs|, i => FreshBuf()), lh := [], outstanding := 0, committing := false,
       ncommit := 0, phase := Booting(boot), ops := seq(|s.ops|, i => NoOp), asleep := {}, syncs := map[],
       last := s.committed, ended := 0, durable := 0)
  }

  // ---- one step of the whole system

  predicate Enabled(c: Config, s: State, step: Step) {
    && !s.panicked
    && match step
       case BgetHit(t, b) => CanBgetHit(s, t, b)
       case BgetRecycle(t, b, k) => CanBgetRecycle(c, s, t, b, k)
       case AcquireSleep(t, b) => CanAcquireSleep(s, t, b)
       case ReadDisk(t, b) => CanReadDisk(s, t, b)
       case Modify(t, b, _) => CanModify(c, s, t, b) && c.layout.size == |s.last|
       case LogWrite(t, b) => CanLogWrite(c, s, t, b)
       case ReleaseSleep(t, b) => CanReleaseSleep(s, t, b)
       case DropRef(t, b) => CanDropRef(s, t, b)
       case BeginOp(t) => CanBeginOp(s, t)
       case EndOp(t) => CanEndOp(s, t)
       case CopyToLog(to, from) => CanCopyToLog(c, s, to, from)
       case WriteHead(b) => CanWriteHead(c, s, b)
       case InstallOne(lb, db) => s.phase.Installing? && CanInstallOne(c, s, s.phase.t, s.phase.i, lb, db)
       case RecoverOne(lb, db) => s.phase.Recovering? && CanInstallOne(c, s, s.phase.t, s.phase.i, lb, db)
       case ForgetLog => CanForgetLog(s)
       case ClearHead(b) => CanClearHead(c, s, b)
       case FinishCommit => s.phase.Finishing?
       case ReadHead(b) => CanReadHead(c, s, b)
       case SyncCall(t) => t !in s.syncs && !Boot?(s.phase)
       case SyncReturn(t) => t in s.syncs && s.ncommit >= s.syncs[t].target
       case Crash(_) => true
  }

  function Apply(c: Config, s: State, step: Step): State
    requires Enabled(c, s, step)
  {
    match step
    case BgetHit(t, b) => DoBgetHit(s, t, b)
    case BgetRecycle(t, b, k) => DoBgetRecycle(s, t, b, k)
    case AcquireSleep(t, b) => DoAcquireSleep(s, t, b)
    case ReadDisk(t, b) => DoReadDisk(s, t, b)
    case Modify(_, b, v) => DoModify(s, b, v)
    case LogWrite(t, b) => DoLogWrite(s, t, b)
    case ReleaseSleep(t, b) => DoReleaseSleep(s, t, b)
    case DropRef(t, b) => DoDropRef(s, t, b)
    case BeginOp(t) => DoBeginOp(s, t)
    case EndOp(t) => DoEndOp(s, t)
    case CopyToLog(to, from) => DoCopyToLog(c, s, to, from)
    case WriteHead(b) => DoWriteHead(c, s, b)
    case InstallOne(lb, db) => DoInstallOne(c, s, s.phase.t, s.phase.i, lb, db)
    case RecoverOne(lb, db) => DoRecoverOne(c, s, s.phase.t, s.phase.i, lb, db)
    case ForgetLog => DoForgetLog(s)
    case ClearHead(b) => DoClearHead(c, s, b)
    case FinishCommit => DoFinishCommit(s)
    case ReadHead(b) => DoReadHead(c, s, b)
    case SyncCall(t) => DoSyncCall(s, t)
    case SyncReturn(t) => s.(syncs := s.syncs - {t})
    case Crash(boot) => DoCrash(s, boot)
  }
}
