/** What every step of the log, cache and disk keeps. */
module LogInvariant {
  import opened Params
  import opened LogFormat
  import opened LogMachine

  /** The image has room for a full header's data blocks, and operations stay strictly below the
      reservation begin_op makes for them. */
  ghost predicate ValidConfig(c: Config) {
    ValidLayout(c.layout) && c.layout.nlog >= LOGBLOCKS && c.opMax < MAXOPBLOCKS
  }

  // ---- sums over the threads' operations

  function Sum(ops: seq<Op>, f: Op -> nat): nat {
    if ops == [] then 0 else Sum(ops[..|ops| - 1], f) + f(ops[|ops| - 1])
  }

  function Active(op: Op): nat { if op.Op? then 1 else 0 }

  /** Log entries begin_op reserved for this operation that it has not used. */
  function Reserve(op: Op): nat {
    if op.Op? && op.added <= MAXOPBLOCKS then MAXOPBLOCKS - op.added else 0
  }

  lemma {:induction false} SumUpdate(ops: seq<Op>, f: Op -> nat, t: nat, op: Op)
    requires t < |ops|
    ensures Sum(ops[t := op], f) == Sum(ops, f) - f(ops[t]) + f(op)
    ensures Sum(ops, f) >= f(ops[t])
  {
    var n := |ops| - 1;
    if t == n {
      assert ops[t := op][..n] == ops[..n];
    } else {
      assert ops[t := op][..n] == ops[..n][t := op];
      SumUpdate(ops[..n], f, t, op);
    }
  }

  lemma {:induction false} SumZero(n: nat, f: Op -> nat)
    requires f(NoOp) == 0
    ensures Sum(seq(n, i => NoOp), f) == 0
  {
    if n > 0 {
      var s := seq(n, i => NoOp);
      assert s[..n - 1] == seq(n - 1, i => NoOp);
      SumZero(n - 1, f);
    }
  }

  // ---- the invariant

  /** Blocks whose buffers hold an extra reference from log_write. */
  function Pinned(s: State): seq<nat> {
    if s.phase.Installing? && s.phase.i <= |s.lh| then s.lh[s.phase.i..]
    else if Boot?(s.phase) then []
    else s.lh
  }

  predicate BufInv(c: Config, s: State, b: Buf)
    requires |s.disk| == |s.last| == c.layout.size
  {
    && (b.blockno == NOBLOCK || 0 <= b.blockno < c.layout.size)
    && b.refcnt == |b.waiters| + |b.leaving| + (if b.lock.Some? then 1 else 0)
                   + (if b.blockno in Pinned(s) then 1 else 0)
    && (b.blockno == NOBLOCK ==> b.refcnt == 0 && !b.valid)
    && (b.dirty ==> b.valid && b.lock.Some? && InOp(s, b.lock.value) && Home(c.layout, b.blockno))
    && (b.valid && !b.dirty && b.blockno !in Pinned(s) ==> b.data == s.disk[b.blockno])
    && (b.valid && Home(c.layout, b.blockno) && !Boot?(s.phase) ==> b.data == s.last[b.blockno])
  }

  ghost predicate CacheInv(c: Config, s: State)
    requires |s.disk| == |s.last| == c.layout.size
  {
    && (forall i :: 0 <= i < |s.bufs| ==> BufInv(c, s, s.bufs[i]))
    && (forall i, j :: 0 <= i < j < |s.bufs| && s.bufs[i].blockno != NOBLOCK ==>
          s.bufs[i].blockno != s.bufs[j].blockno)
  }

  predicate Cached(s: State, k: int) {
    exists i :: 0 <= i < |s.bufs| && s.bufs[i].blockno == k && s.bufs[i].valid
  }

  predicate DirtyCached(s: State, k: int) {
    exists i :: 0 <= i < |s.bufs| && s.bufs[i].blockno == k && s.bufs[i].dirty
  }

  /** An update not yet home is in a pinned buffer or in a locked one about to be logged. */
  ghost predicate ViewInv(c: Config, s: State)
    requires |s.disk| == |s.last| == c.layout.size
  {
    && (forall k :: k in Pinned(s) ==> Cached(s, k))
    && (!Boot?(s.phase) ==> forall k :: Home(c.layout, k) && s.disk[k] != s.last[k] ==>
          k in Pinned(s) || DirtyCached(s, k))
  }

  ghost predicate LogInv(c: Config, s: State) {
    && ValidEntries(c.layout, s.lh)
    && (!Boot?(s.phase) ==> |s.lh| < LOGBLOCKS)
    && s.outstanding == Sum(s.ops, Active)
    && (!Boot?(s.phase) ==> |s.lh| + Sum(s.ops, Reserve) <= LOGBLOCKS)
    && (forall t :: 0 <= t < |s.ops| && s.ops[t].Op? ==>
          s.ops[t].added <= |s.ops[t].wrote| <= c.opMax && forall k :: k in s.ops[t].wrote ==> k in s.lh)
    && (s.committing <==> Commit?(s.phase))
    && (s.phase.Running? || s.outstanding == 0)
    && (s.phase.Running? && s.outstanding == 0 ==> s.lh == [])
    && (s.asleep != {} ==> s.committing || s.outstanding > 0)
    && !s.panicked
  }

  ghost predicate PhaseInv(c: Config, s: State)
    requires |s.disk| == |s.last| == c.layout.size && ValidLayout(c.layout) && s.disk[c.layout.start][0] < WORDS
    requires ValidEntries(c.layout, s.lh)
  {
    var header := s.disk[c.layout.start];
    match s.phase
    case Running => header[0] == 0
    case WriteLog(_, i) =>
      i <= |s.lh| && header[0] == 0
      && forall j :: 0 <= j < i ==> s.disk[c.layout.start + 1 + j] == s.last[s.lh[j]]
    case Installing(_, i) =>
      i <= |s.lh| && ReadHeader(header) == s.lh && s.committed == s.last
      && forall j :: 0 <= j < i ==> s.disk[s.lh[j]] == s.last[s.lh[j]]
    case Clearing(_) => s.lh == [] && s.committed == s.last && SameHome(c.layout, s.disk, s.last)
    case Finishing(_) => s.lh == [] && header[0] == 0 && SameHome(c.layout, s.disk, s.last)
    case Booting(_) => s.lh == [] && s.committed == s.last
    case Recovering(_, i) =>
      i <= |s.lh| && ReadHeader(header) == s.lh && s.committed == s.last
      && forall j :: 0 <= j < i ==> s.disk[s.lh[j]] == s.last[s.lh[j]]
    case BootClearing(_) => s.lh == [] && s.committed == s.last && SameHome(c.layout, s.disk, s.last)
  }

  ghost predicate SyncInv(s: State) {
    && s.durable <= s.ended
    && (s.phase.Running? && s.outstanding == 0 ==> s.durable == s.ended)
    && (Boot?(s.phase) ==> s.durable == s.ended)
    && forall t :: t in s.syncs ==>
         && s.syncs[t].must <= s.ended
         && s.syncs[t].target <= s.ncommit + 1
         && (s.syncs[t].target <= s.ncommit ==> s.syncs[t].must <= s.durable)
  }

  ghost predicate Inv(c: Config, s: State) {
    && ValidConfig(c)
    && |s.last| == c.layout.size
    && RecoverableTo(c.layout, s.disk, s.committed)
    && LogInv(c, s)
    && CacheInv(c, s)
    && ViewInv(c, s)
    && PhaseInv(c, s)
    && SyncInv(s)
  }

  // ---- cache steps

  ghost predicate OthersSame(s: State, s': State, b: nat) {
    && b < |s.bufs| == |s'.bufs|
    && forall i :: 0 <= i < |s.bufs| && i != b ==> s'.bufs[i] == s.bufs[i]
  }

  lemma OthersCached(s: State, s': State, b: nat)
    requires OthersSame(s, s', b)
    ensures forall k :: k != s.bufs[b].blockno && Cached(s, k) ==> Cached(s', k)
    ensures forall k :: k != s.bufs[b].blockno && DirtyCached(s, k) ==> DirtyCached(s', k)
    ensures s'.bufs[b].valid ==> Cached(s', s'.bufs[b].blockno)
    ensures s'.bufs[b].dirty ==> DirtyCached(s', s'.bufs[b].blockno)
  {
    forall k | k != s.bufs[b].blockno && Cached(s, k) ensures Cached(s', k) {
      var i :| 0 <= i < |s.bufs| && s.bufs[i].blockno == k && s.bufs[i].valid;
      assert s'.bufs[i].blockno == k;
    }
    forall k | k != s.bufs[b].blockno && DirtyCached(s, k) ensures DirtyCached(s', k) {
      var i :| 0 <= i < |s.bufs| && s.bufs[i].blockno == k && s.bufs[i].dirty;
      assert s'.bufs[i].blockno == k;
    }
  }

  /** The one buffer of a block answers for it. */
  lemma OnlyBuf(c: Config, s: State, b: nat)
    requires |s.disk| == |s.last| == c.layout.size && CacheInv(c, s)
    requires b < |s.bufs| && s.bufs[b].blockno != NOBLOCK
    ensures Cached(s, s.bufs[b].blockno) ==> s.bufs[b].valid
    ensures DirtyCached(s, s.bufs[b].blockno) ==> s.bufs[b].dirty
  {
  }

  lemma ReplaceCache(c: Config, s: State, b: nat, buf: Buf)
    requires |s.disk| == |s.last| == c.layout.size && CacheInv(c, s) && b < |s.bufs| && BufInv(c, s, buf)
    requires buf.blockno == s.bufs[b].blockno
    ensures CacheInv(c, SetBuf(s, b, buf))
  {
    var s' := SetBuf(s, b, buf);
    assert Pinned(s') == Pinned(s);
    forall i | 0 <= i < |s'.bufs| ensures BufInv(c, s', s'.bufs[i]) {
      assert BufInv(c, s, s.bufs[i]);
    }
  }

  lemma ReplaceView(c: Config, s: State, b: nat, buf: Buf)
    requires |s.disk| == |s.last| == c.layout.size && CacheInv(c, s) && ViewInv(c, s) && b < |s.bufs|
    requires buf.blockno == s.bufs[b].blockno && (s.bufs[b].valid ==> buf.valid) && buf.dirty == s.bufs[b].dirty
    requires buf.blockno >= NOBLOCK
    ensures ViewInv(c, SetBuf(s, b, buf))
  {
    var s' := SetBuf(s, b, buf);
    assert Pinned(s') == Pinned(s);
    OthersCached(s, s', b);
    if buf.blockno != NOBLOCK { OnlyBuf(c, s, b); }
  }

  /** Replacing one buffer by another of the same block that is at least as valid and equally dirty. */
  lemma ReplaceBuf(c: Config, s: State, b: nat, buf: Buf)
    requires Inv(c, s) && b < |s.bufs| && BufInv(c, s, buf)
    requires buf.blockno == s.bufs[b].blockno && (s.bufs[b].valid ==> buf.valid) && buf.dirty == s.bufs[b].dirty
    ensures Inv(c, SetBuf(s, b, buf))
  {
    ReplaceCache(c, s, b, buf);
    ReplaceView(c, s, b, buf);
  }

  lemma BgetHitInv(c: Config, s: State, t: Tid, b: nat)
    requires Inv(c, s) && CanBgetHit(s, t, b)
    ensures Inv(c, DoBgetHit(s, t, b))
  {
    assert BufInv(c, s, s.bufs[b]);
    ReplaceBuf(c, s, b, DoBgetHit(s, t, b).bufs[b]);
  }

  lemma AcquireSleepInv(c: Config, s: State, t: Tid, b: nat)
    requires Inv(c, s) && CanAcquireSleep(s, t, b)
    ensures Inv(c, DoAcquireSleep(s, t, b))
  {
    assert BufInv(c, s, s.bufs[b]);
    ReplaceBuf(c, s, b, DoAcquireSleep(s, t, b).bufs[b]);
  }

  /** A block read from disk is the last value written: were it not, it would be cached already. */
  lemma ReadDiskInv(c: Config, s: State, t: Tid, b: nat)
    requires Inv(c, s) && CanReadDisk(s, t, b)
    ensures Inv(c, DoReadDisk(s, t, b))
  {
    assert BufInv(c, s, s.bufs[b]);
    OnlyBuf(c, s, b);
    ReplaceBuf(c, s, b, DoReadDisk(s, t, b).bufs[b]);
  }

  lemma ReleaseSleepInv(c: Config, s: State, t: Tid, b: nat)
    requires Inv(c, s) && CanReleaseSleep(s, t, b)
    ensures Inv(c, DoReleaseSleep(s, t, b))
  {
    assert BufInv(c, s, s.bufs[b]);
    ReplaceBuf(c, s, b, DoReleaseSleep(s, t, b).bufs[b]);
  }

  lemma DropRefInv(c: Config, s: State, t: Tid, b: nat)
    requires Inv(c, s) && CanDropRef(s, t, b)
    ensures Inv(c, DoDropRef(s, t, b))
  {
    assert BufInv(c, s, s.bufs[b]);
    ReplaceBuf(c, s, b, DoDropRef(s, t, b).bufs[b]);
  }

  /** Recycling never loses an update: an unreferenced buffer is neither pinned nor dirty. */
  lemma BgetRecycleInv(c: Config, s: State, t: Tid, b: nat, k: nat)
    requires Inv(c, s) && CanBgetRecycle(c, s, t, b, k)
    ensures Inv(c, DoBgetRecycle(s, t, b, k))
  {
    var s' := DoBgetRecycle(s, t, b, k);
    assert BufInv(c, s, s.bufs[b]);
    assert Pinned(s') == Pinned(s);
    assert !Cached(s, k);
    OthersCached(s, s', b);
    if s.bufs[b].blockno != NOBLOCK { OnlyBuf(c, s, b); }
    forall i | 0 <= i < |s'.bufs| ensures BufInv(c, s', s'.bufs[i]) {
      assert BufInv(c, s, s.bufs[i]);
    }
  }

  lemma InOpRunning(c: Config, s: State, t: Tid)
    requires LogInv(c, s) && InOp(s, t)
    ensures s.phase.Running? && s.outstanding >= 1 && Sum(s.ops, Reserve) >= Reserve(s.ops[t])
  {
    SumUpdate(s.ops, Active, t, NoOp);
    SumUpdate(s.ops, Reserve, t, NoOp);
  }

  lemma ModifyInv(c: Config, s: State, t: Tid, b: nat, v: Block)
    requires Inv(c, s) && CanModify(c, s, t, b)
    ensures Inv(c, DoModify(s, b, v))
  {
    var s' := DoModify(s, b, v);
    InOpRunning(c, s, t);
    assert Pinned(s') == Pinned(s);
    OthersCached(s, s', b);
    ModifyCache(c, s, t, b, v);
  }

  lemma ModifyCache(c: Config, s: State, t: Tid, b: nat, v: Block)
    requires |s.disk| == |s.last| == c.layout.size && CacheInv(c, s) && CanModify(c, s, t, b)
    requires s.phase.Running?
    ensures CacheInv(c, DoModify(s, b, v))
  {
    var s' := DoModify(s, b, v);
    assert Pinned(s') == Pinned(s);
    forall i | 0 <= i < |s'.bufs| ensures BufInv(c, s', s'.bufs[i]) {
      assert BufInv(c, s, s.bufs[i]);
    }
  }

  // ---- operations

  lemma LogWriteLog(c: Config, s: State, t: Tid, b: nat)
    requires ValidConfig(c) && LogInv(c, s) && CanLogWrite(c, s, t, b)
    ensures LogInv(c, DoLogWrite(s, t, b))
  {
    var s' := DoLogWrite(s, t, b);
    InOpRunning(c, s, t);
    SumUpdate(s.ops, Active, t, s'.ops[t]);
    SumUpdate(s.ops, Reserve, t, s'.ops[t]);
    SumUpdate(s'.ops, Reserve, t, NoOp);
  }

  lemma LogWriteCache(c: Config, s: State, t: Tid, b: nat)
    requires |s.disk| == |s.last| == c.layout.size && CacheInv(c, s) && CanLogWrite(c, s, t, b)
    requires s.phase.Running? && |s.lh| < LOGBLOCKS && s.outstanding >= 1
    ensures CacheInv(c, DoLogWrite(s, t, b))
  {
    var s' := DoLogWrite(s, t, b);
    forall i | 0 <= i < |s'.bufs| ensures BufInv(c, s', s'.bufs[i]) {
      assert BufInv(c, s, s.bufs[i]);
      LogWriteBuf(c, s, t, b, i);
    }
  }

  lemma LogWriteBuf(c: Config, s: State, t: Tid, b: nat, i: nat)
    requires |s.disk| == |s.last| == c.layout.size && CanLogWrite(c, s, t, b)
    requires s.phase.Running? && |s.lh| < LOGBLOCKS && s.outstanding >= 1
    requires i < |s.bufs| && BufInv(c, s, s.bufs[i]) && (i != b ==> s.bufs[i].blockno != s.bufs[b].blockno)
    ensures BufInv(c, DoLogWrite(s, t, b), DoLogWrite(s, t, b).bufs[i])
  {
    var s' := DoLogWrite(s, t, b);
    assert Pinned(s) == s.lh && Pinned(s') == s'.lh;
  }

  lemma LogWriteView(c: Config, s: State, t: Tid, b: nat)
    requires |s.disk| == |s.last| == c.layout.size && ViewInv(c, s) && CanLogWrite(c, s, t, b)
    requires s.phase.Running? && |s.lh| < LOGBLOCKS && s.outstanding >= 1
    ensures ViewInv(c, DoLogWrite(s, t, b))
  {
    var s' := DoLogWrite(s, t, b);
    assert Pinned(s) == s.lh && Pinned(s') == s'.lh;
    assert s.bufs[b].blockno in s'.lh;
    OthersCached(s, s', b);
  }

  /** log_write never panics, and afterwards the changed block is pinned. */
  lemma LogWriteInv(c: Config, s: State, t: Tid, b: nat)
    requires Inv(c, s) && CanLogWrite(c, s, t, b)
    ensures Inv(c, DoLogWrite(s, t, b)) && s.bufs[b].blockno in DoLogWrite(s, t, b).lh
  {
    InOpRunning(c, s, t);
    LogWriteLog(c, s, t, b);
    LogWriteCache(c, s, t, b);
    LogWriteView(c, s, t, b);
  }

  lemma {:induction false} ReserveBound(ops: seq<Op>)
    ensures Sum(ops, Reserve) <= MAXOPBLOCKS * Sum(ops, Active)
  {
    if ops != [] { ReserveBound(ops[..|ops| - 1]); }
  }

  /** A step that leaves disk and buffers alone keeps what is said about them. */
  lemma SameBuffers(c: Config, s: State, s': State)
    requires |s.disk| == |s.last| == c.layout.size && CacheInv(c, s) && ViewInv(c, s)
    requires s'.bufs == s.bufs && s'.disk == s.disk && s'.last == s.last
    requires Pinned(s') == Pinned(s) && Boot?(s'.phase) == Boot?(s.phase)
    requires forall b :: 0 <= b < |s.bufs| && s.bufs[b].dirty ==> InOp(s', s.bufs[b].lock.value)
    ensures CacheInv(c, s') && ViewInv(c, s')
  {
    forall i | 0 <= i < |s'.bufs| ensures BufInv(c, s', s'.bufs[i]) {
      assert BufInv(c, s, s.bufs[i]);
    }
    forall k | Cached(s, k) ensures Cached(s', k) {}
    forall k | DirtyCached(s, k) ensures DirtyCached(s', k) {}
  }

  lemma BeginOpInv(c: Config, s: State, t: Tid)
    requires Inv(c, s) && CanBeginOp(s, t)
    ensures Inv(c, DoBeginOp(s, t))
  {
    var s' := DoBeginOp(s, t);
    SumUpdate(s.ops, Active, t, s'.ops[t]);
    SumUpdate(s.ops, Reserve, t, s'.ops[t]);
    SameBuffers(c, s, s');
    ReserveBound(s.ops);
  }

  lemma NoDirtyOutside(c: Config, s: State)
    requires |s.disk| == |s.last| == c.layout.size && CacheInv(c, s) && LogInv(c, s)
    requires !s.phase.Running? || s.outstanding == 0
    ensures forall b :: 0 <= b < |s.bufs| ==> !s.bufs[b].dirty
    ensures forall k :: !DirtyCached(s, k)
    ensures forall t :: 0 <= t < |s.ops| ==> s.ops[t] == NoOp
  {
    forall t | 0 <= t < |s.ops| ensures s.ops[t] == NoOp {
      SumUpdate(s.ops, Active, t, NoOp);
    }
    forall b | 0 <= b < |s.bufs| ensures !s.bufs[b].dirty {
      assert BufInv(c, s, s.bufs[b]);
    }
  }

  lemma EndOpLog(c: Config, s: State, t: Tid)
    requires LogInv(c, s) && CanEndOp(s, t)
    ensures s.phase.Running? && LogInv(c, DoEndOp(s, t))
  {
    InOpRunning(c, s, t);
    SumUpdate(s.ops, Active, t, NoOp);
    SumUpdate(s.ops, Reserve, t, NoOp);
  }

  lemma EndOpCache(c: Config, s: State, t: Tid)
    requires |s.disk| == |s.last| == c.layout.size && CacheInv(c, s) && ViewInv(c, s) && s.phase.Running?
    requires CanEndOp(s, t)
    ensures CacheInv(c, DoEndOp(s, t)) && ViewInv(c, DoEndOp(s, t))
  {
    var s' := DoEndOp(s, t);
    forall b | 0 <= b < |s.bufs| && s.bufs[b].dirty ensures InOp(s', s.bufs[b].lock.value) {
      assert BufInv(c, s, s.bufs[b]);
    }
    SameBuffers(c, s, s');
  }

  lemma EndOpInv(c: Config, s: State, t: Tid)
    requires Inv(c, s) && CanEndOp(s, t)
    ensures Inv(c, DoEndOp(s, t))
  {
    var s' := DoEndOp(s, t);
    EndOpLog(c, s, t);
    EndOpCache(c, s, t);
    if s'.phase.Finishing? { NoDirtyOutside(c, s'); }
  }

  // ---- commit and recovery

  /** Writing to a log-area block keeps every statement about buffers. */
  lemma WriteLogArea(c: Config, s: State, b: nat, v: Block, s': State)
    requires ValidLayout(c.layout) && |s.disk| == |s.last| == c.layout.size
    requires CacheInv(c, s) && ViewInv(c, s)
    requires b < |s.bufs| && s.bufs[b].valid && c.layout.start <= s.bufs[b].blockno < c.layout.start + c.layout.nlog
    requires s'.bufs == BWrite(s, b, v).bufs && s'.disk == BWrite(s, b, v).disk
    requires s'.last == s.last && s'.ops == s.ops
    requires Pinned(s') == Pinned(s) && (Boot?(s'.phase) ==> Boot?(s.phase))
    requires !Boot?(s'.phase) && Boot?(s.phase) ==>
               SameHome(c.layout, s.disk, s.last) && forall i :: 0 <= i < |s.bufs| ==> !s.bufs[i].dirty
    requires forall k :: k in Pinned(s) ==> Home(c.layout, k)
    ensures CacheInv(c, s') && ViewInv(c, s')
  {
    forall i | 0 <= i < |s'.bufs| ensures BufInv(c, s', s'.bufs[i]) {
      assert BufInv(c, s, s.bufs[i]);
    }
    OthersCached(s, s', b);
  }

  lemma CopyToLogInv(c: Config, s: State, to: nat, from: nat)
    requires Inv(c, s) && CanCopyToLog(c, s, to, from)
    ensures Inv(c, DoCopyToLog(c, s, to, from))
  {
    var s' := DoCopyToLog(c, s, to, from);
    assert BufInv(c, s, s.bufs[from]);
    WriteLogArea(c, s, to, s.bufs[from].data, s');
    LogAreaRecoverable(c.layout, s.disk, s.committed, c.layout.start + s.phase.i + 1, s.bufs[from].data);
    CopyPhase(c, s, to, from);
    SameLog(c, s, s');
  }

  lemma CopyPhase(c: Config, s: State, to: nat, from: nat)
    requires |s.disk| == |s.last| == c.layout.size && ValidLayout(c.layout) && s.disk[c.layout.start][0] < WORDS
    requires ValidEntries(c.layout, s.lh) && PhaseInv(c, s) && CanCopyToLog(c, s, to, from)
    requires s.bufs[from].data == s.last[s.lh[s.phase.i]]
    ensures var s' := DoCopyToLog(c, s, to, from);
            s'.disk[c.layout.start][0] < WORDS && PhaseInv(c, s')
  {
    var s', i := DoCopyToLog(c, s, to, from), s.phase.i;
    assert s'.disk == s.disk[c.layout.start + i + 1 := s.bufs[from].data];
    assert s'.disk[c.layout.start] == s.disk[c.layout.start];
  }

  lemma LogAreaRecoverable(c: Layout, disk: Disk, goal: Disk, k: nat, v: Block)
    requires RecoverableTo(c, disk, goal) && disk[c.start][0] == 0 && c.start < k < c.start + c.nlog
    ensures RecoverableTo(c, disk[k := v], goal)
  {
    assert disk[k := v][c.start] == disk[c.start];
  }

  /** The commit point. */
  lemma WriteHeadInv(c: Config, s: State, b: nat)
    requires Inv(c, s) && CanWriteHead(c, s, b)
    ensures Inv(c, DoWriteHead(c, s, b))
    ensures s.outstanding == 0 && DoWriteHead(c, s, b).committed == s.last
  {
    var s' := DoWriteHead(c, s, b);
    assert Pinned(s') == Pinned(s);
    WriteLogArea(c, s, b, WriteHeader(s.bufs[b].data, s.lh), s');
    NoDirtyOutside(c, s);
    assert RecoverableTo(c.layout, s'.disk, s'.committed);
  }

  lemma SameLog(c: Config, s: State, s': State)
    requires LogInv(c, s)
    requires s'.lh == s.lh && s'.outstanding == s.outstanding && s'.ops == s.ops && s'.asleep == s.asleep
    requires s'.committing == s.committing && s'.panicked == s.panicked
    requires Commit?(s'.phase) == Commit?(s.phase) && Boot?(s'.phase) == Boot?(s.phase)
    requires s'.phase.Running? == s.phase.Running?
    ensures LogInv(c, s')
  {
  }

  /** What is copied home is the last value written. */
  lemma InstallValue(c: Config, s: State, i: nat, lb: nat, db: nat)
    requires Inv(c, s) && (s.phase.Installing? || s.phase.Recovering?) && i == s.phase.i
    requires CanInstallOne(c, s, s.phase.t, i, lb, db)
    ensures s.bufs[lb].data == s.last[s.lh[i]]
    ensures RecoverableTo(c.layout, s.disk[s.lh[i] := s.last[s.lh[i]]], s.committed)
  {
    assert BufInv(c, s, s.bufs[lb]);
    assert !Home(c.layout, s.bufs[lb].blockno);
    assert s.bufs[lb].blockno !in Pinned(s);
    NoDirtyOutside(c, s);
    InstallKeepsRecoverable(c.layout, s.disk, s.committed, i);
    var k := c.layout.start + 1 + i;
    assert s.bufs[lb].blockno == k && s.bufs[lb].data == s.disk[k];
  }

  lemma InstallCache(c: Config, s: State, t: Tid, i: nat, lb: nat, db: nat)
    requires |s.disk| == |s.last| == c.layout.size && CacheInv(c, s) && ValidEntries(c.layout, s.lh)
    requires s.phase == Installing(t, i)
    requires CanInstallOne(c, s, t, i, lb, db) && s.bufs[lb].data == s.last[s.lh[i]]
    ensures CacheInv(c, DoInstallOne(c, s, t, i, lb, db))
  {
    var s' := DoInstallOne(c, s, t, i, lb, db);
    assert Pinned(s) == [s.lh[i]] + Pinned(s');
    forall b | 0 <= b < |s'.bufs| ensures BufInv(c, s', s'.bufs[b]) {
      assert BufInv(c, s, s.bufs[b]);
    }
  }

  lemma InstallView(c: Config, s: State, t: Tid, i: nat, lb: nat, db: nat)
    requires |s.disk| == |s.last| == c.layout.size && ViewInv(c, s) && ValidEntries(c.layout, s.lh)
    requires s.phase == Installing(t, i)
    requires CanInstallOne(c, s, t, i, lb, db) && s.bufs[lb].data == s.last[s.lh[i]]
    ensures ViewInv(c, DoInstallOne(c, s, t, i, lb, db))
  {
    var s' := DoInstallOne(c, s, t, i, lb, db);
    OthersCached(s, s', db);
    assert Pinned(s) == [s.lh[i]] + Pinned(s');
  }

  lemma InstallOneInv(c: Config, s: State, lb: nat, db: nat)
    requires Inv(c, s) && s.phase.Installing? && CanInstallOne(c, s, s.phase.t, s.phase.i, lb, db)
    ensures Inv(c, DoInstallOne(c, s, s.phase.t, s.phase.i, lb, db))
  {
    var i := s.phase.i;
    InstallValue(c, s, i, lb, db);
    InstallCache(c, s, s.phase.t, i, lb, db);
    InstallView(c, s, s.phase.t, i, lb, db);
    var s' := DoInstallOne(c, s, s.phase.t, i, lb, db);
    InstallPhase(c, s, i, s');
    SameLog(c, s, s');
  }

  lemma InstallPhase(c: Config, s: State, i: nat, s': State)
    requires |s.disk| == |s.last| == c.layout.size && ValidLayout(c.layout) && s.disk[c.layout.start][0] < WORDS
    requires ValidEntries(c.layout, s.lh) && PhaseInv(c, s) && i < |s.lh|
    requires (s.phase.Installing? && s'.phase.Installing?) || (s.phase.Recovering? && s'.phase.Recovering?)
    requires s.phase.i == i && s'.phase.i == i + 1
    requires s'.lh == s.lh && s'.committed == s.committed && s'.last == s.last
    requires s'.disk == s.disk[s.lh[i] := s.last[s.lh[i]]]
    ensures s'.disk[c.layout.start][0] < WORDS && PhaseInv(c, s')
  {
    assert s'.disk[c.layout.start] == s.disk[c.layout.start];
    forall j | 0 <= j < i + 1 ensures s'.disk[s.lh[j]] == s.last[s.lh[j]] {
      if j < i { assert s.disk[s.lh[j]] == s.last[s.lh[j]]; }
    }
  }

  lemma RecoverCache(c: Config, s: State, t: Tid, i: nat, lb: nat, db: nat)
    requires |s.disk| == |s.last| == c.layout.size && CacheInv(c, s) && s.phase == Recovering(t, i)
    requires CanInstallOne(c, s, t, i, lb, db)
    ensures CacheInv(c, DoRecoverOne(c, s, t, i, lb, db))
  {
    var s' := DoRecoverOne(c, s, t, i, lb, db);
    assert Pinned(s) == [] == Pinned(s');
    forall b | 0 <= b < |s'.bufs| ensures BufInv(c, s', s'.bufs[b]) {
      assert BufInv(c, s, s.bufs[b]);
    }
  }

  lemma RecoverOneInv(c: Config, s: State, lb: nat, db: nat)
    requires Inv(c, s) && s.phase.Recovering? && CanInstallOne(c, s, s.phase.t, s.phase.i, lb, db)
    ensures Inv(c, DoRecoverOne(c, s, s.phase.t, s.phase.i, lb, db))
  {
    var i := s.phase.i;
    InstallValue(c, s, i, lb, db);
    RecoverCache(c, s, s.phase.t, i, lb, db);
    var s' := DoRecoverOne(c, s, s.phase.t, i, lb, db);
    InstallPhase(c, s, i, s');
    SameLog(c, s, s');
  }

  lemma ForgetLogInv(c: Config, s: State)
    requires Inv(c, s) && CanForgetLog(s)
    ensures Inv(c, DoForgetLog(s))
  {
    var s' := DoForgetLog(s);
    assert Pinned(s) == [] == Pinned(s');
    NoDirtyOutside(c, s);
    forall k | Home(c.layout, k) ensures s.disk[k] == s.last[k] {
      if k in s.lh { var j :| 0 <= j < |s.lh| && s.lh[j] == k; }
    }
    SameBuffers(c, s, s');
  }

  lemma ClearHeadInv(c: Config, s: State, b: nat)
    requires Inv(c, s) && CanClearHead(c, s, b)
    ensures Inv(c, DoClearHead(c, s, b))
  {
    var s' := DoClearHead(c, s, b);
    NoDirtyOutside(c, s);
    assert Pinned(s') == Pinned(s) == [];
    WriteLogArea(c, s, b, WriteHeader(s.bufs[b].data, []), s');
    assert ReadHeader(s'.disk[c.layout.start]) == [];
    ReserveBound(s.ops);
  }

  lemma FinishCommitInv(c: Config, s: State)
    requires Inv(c, s) && s.phase.Finishing?
    ensures Inv(c, DoFinishCommit(s))
  {
    var s' := DoFinishCommit(s);
    NoDirtyOutside(c, s);
    SameBuffers(c, s, s');
  }

  lemma ReadHeadInv(c: Config, s: State, b: nat)
    requires Inv(c, s) && CanReadHead(c, s, b)
    ensures Inv(c, DoReadHead(c, s, b))
  {
    var s' := DoReadHead(c, s, b);
    assert BufInv(c, s, s.bufs[b]);
    NoDirtyOutside(c, s);
    SameBuffers(c, s, s');
  }

  lemma SyncInvs(c: Config, s: State, t: Tid)
    requires Inv(c, s)
    ensures t !in s.syncs && !Boot?(s.phase) ==> Inv(c, DoSyncCall(s, t))
    ensures Inv(c, s.(syncs := s.syncs - {t}))
  {
    forall b | 0 <= b < |s.bufs| && s.bufs[b].dirty ensures InOp(s, s.bufs[b].lock.value) {
      assert BufInv(c, s, s.bufs[b]);
    }
    SameBuffers(c, s, DoSyncCall(s, t));
    SameBuffers(c, s, s.(syncs := s.syncs - {t}));
  }

  lemma CrashInv(c: Config, s: State, boot: Tid)
    requires Inv(c, s)
    ensures Inv(c, DoCrash(s, boot))
  {
    SumZero(|s.ops|, Active);
    SumZero(|s.ops|, Reserve);
  }

  /** A step of the cache. */
  predicate CacheStep(step: Step) {
    step.BgetHit? || step.BgetRecycle? || step.AcquireSleep? || step.ReadDisk? || step.Modify? || step.LogWrite?
    || step.ReleaseSleep? || step.DropRef?
  }

  /** A step of a commit. */
  predicate CommitStep(step: Step) {
    step.CopyToLog? || step.WriteHead? || step.InstallOne? || step.ForgetLog? || step.ClearHead? || step.FinishCommit?
  }

  lemma CacheStepInv(c: Config, s: State, step: Step)
    requires Inv(c, s) && Enabled(c, s, step) && CacheStep(step)
    ensures Inv(c, Apply(c, s, step))
  {
    match step
    case BgetHit(t, b) => BgetHitInv(c, s, t, b);
    case BgetRecycle(t, b, k) => BgetRecycleInv(c, s, t, b, k);
    case AcquireSleep(t, b) => AcquireSleepInv(c, s, t, b);
    case ReadDisk(t, b) => ReadDiskInv(c, s, t, b);
    case Modify(t, b, v) => ModifyInv(c, s, t, b, v);
    case LogWrite(t, b) => LogWriteInv(c, s, t, b);
    case ReleaseSleep(t, b) => ReleaseSleepInv(c, s, t, b);
    case DropRef(t, b) => DropRefInv(c, s, t, b);
  }

  lemma CommitStepInv(c: Config, s: State, step: Step)
    requires Inv(c, s) && Enabled(c, s, step) && CommitStep(step)
    ensures Inv(c, Apply(c, s, step))
  {
    match step
    case CopyToLog(to, from) => CopyToLogInv(c, s, to, from);
    case WriteHead(b) => WriteHeadInv(c, s, b);
    case InstallOne(lb, db) => InstallOneInv(c, s, lb, db);
    case ForgetLog => ForgetLogInv(c, s);
    case ClearHead(b) => ClearHeadInv(c, s, b);
    case FinishCommit => FinishCommitInv(c, s);
  }

  lemma OtherStepInv(c: Config, s: State, step: Step)
    requires Inv(c, s) && Enabled(c, s, step) && !CacheStep(step) && !CommitStep(step)
    ensures Inv(c, Apply(c, s, step))
  {
    match step
    case BeginOp(t) => BeginOpInv(c, s, t);
    case EndOp(t) => EndOpInv(c, s, t);
    case RecoverOne(lb, db) => RecoverOneInv(c, s, lb, db);
    case ReadHead(b) => ReadHeadInv(c, s, b);
    case SyncCall(t) => SyncInvs(c, s, t);
    case SyncReturn(t) => SyncInvs(c, s, t);
    case Crash(boot) => CrashInv(c, s, boot);
  }

  lemma StepInv(c: Config, s: State, step: Step)
    requires Inv(c, s) && Enabled(c, s, step)
    ensures Inv(c, Apply(c, s, step))
  {
    if CacheStep(step) {
      CacheStepInv(c, s, step);
    } else if CommitStep(step) {
      CommitStepInv(c, s, step);
    } else {
      OtherStepInv(c, s, step);
    }
  }
}
