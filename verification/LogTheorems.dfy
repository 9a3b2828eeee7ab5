/** What holds in every run of the log, cache and disk, from any boot on. */
module LogTheorems {
  import opened Options
  import opened Params
  import opened LogFormat
  import opened LogMachine
  import opened LogInvariant

  /** Power-on: memory is fresh, and the disk is one that recovery turns into `committed`. A disk
      written by mkfs, whose header is zero, recovers to itself. */
  ghost predicate PowerOn(c: Config, s: State) {
    && RecoverableTo(c.layout, s.disk, s.committed)
    && !s.panicked && exists t :: s == DoCrash(s, t)
  }

  ghost predicate Init(c: Config, s: State) {
    ValidConfig(c) && PowerOn(c, s)
  }

  ghost predicate Next(c: Config, s: State, s': State) {
    exists step :: Enabled(c, s, step) && s' == Apply(c, s, step)
  }

  ghost predicate Run(c: Config, run: seq<State>) {
    && |run| > 0 && Init(c, run[0])
    && forall i {:trigger NextAt(c, run, i)} :: NextAt(c, run, i)
  }

  ghost predicate NextAt(c: Config, run: seq<State>, i: int) { 0 < i < |run| ==> Next(c, run[i - 1], run[i]) }

  lemma InitInv(c: Config, s: State)
    requires Init(c, s)
    ensures Inv(c, s)
  {
    SumZero(|s.ops|, Active);
    SumZero(|s.ops|, Reserve);
  }

  lemma NextInv(c: Config, s: State, s': State)
    requires Inv(c, s) && Next(c, s, s')
    ensures Inv(c, s')
  {
    var step :| Enabled(c, s, step) && s' == Apply(c, s, step);
    StepInv(c, s, step);
  }

  lemma {:induction false} RunInv(c: Config, run: seq<State>, i: nat)
    requires Run(c, run) && i < |run|
    ensures Inv(c, run[i])
  {
    if i == 0 {
      InitInv(c, run[0]);
    } else {
      RunInv(c, run, i - 1);
      NextAtInv(c, run, i);
    }
  }

  lemma NextAtInv(c: Config, run: seq<State>, i: nat)
    requires 0 < i < |run| && Inv(c, run[i - 1]) && NextAt(c, run, i)
    ensures Inv(c, run[i])
  {
    NextInv(c, run[i - 1], run[i]);
  }

  // ---- crash atomicity

  /** Whenever the power fails, and however often it fails again during recovery, the recovery that
      completes leaves exactly the committed contents at home and an empty header. */
  lemma CrashRecovery(c: Config, run: seq<State>, i: nat, cuts: seq<nat>)
    requires Run(c, run) && i < |run|
    ensures RecoverableTo(c.layout, run[i].disk, run[i].committed)
    ensures var d := Boot(c.layout, Boots(c.layout, run[i].disk, run[i].committed, cuts), WORDS);
            SameHome(c.layout, d, run[i].committed) && d[c.layout.start][0] == 0
  {
    RunInv(c, run, i);
    RepeatedCrashes(c.layout, run[i].disk, run[i].committed, cuts);
  }

  /** The committed contents change in one step only, when no operation is in progress, and then to
      all that was written. */
  lemma CommitIsAtomic(c: Config, s: State, step: Step)
    requires Inv(c, s) && Enabled(c, s, step)
    ensures var s' := Apply(c, s, step);
            if step.WriteHead? then s.outstanding == 0 && s.committing && s'.committed == s.last == s'.last
            else s'.committed == s.committed
  {
  }

  /** While a group is being committed nothing is written by anyone else. */
  lemma LastFrozen(c: Config, s: State, step: Step)
    requires Inv(c, s) && Enabled(c, s, step) && s.committing && !step.Crash?
    ensures Apply(c, s, step).last == s.last
  {
    if step.Modify? { InOpRunning(c, s, step.t); }
  }

  ghost predicate Idle(s: State) { s.phase.Running? && s.outstanding == 0 }

  ghost predicate CrashFree(c: Config, s: State, s': State) {
    exists step :: Enabled(c, s, step) && !step.Crash? && s' == Apply(c, s, step)
  }

  ghost predicate CrashFreeAt(c: Config, run: seq<State>, i: int) {
    0 < i < |run| ==> CrashFree(c, run[i - 1], run[i])
  }

  lemma CrashFreeInv(c: Config, s: State, s': State)
    requires Inv(c, s) && CrashFree(c, s, s')
    ensures Inv(c, s')
  {
    assert Next(c, s, s');
    NextInv(c, s, s');
  }

  /** A crash-free stretch in which no commit is completed. */
  ghost predicate OneGroup(c: Config, group: seq<State>) {
    && |group| > 0 && Inv(c, group[0]) && Idle(group[0])
    && (forall i {:trigger CrashFreeAt(c, group, i)} :: CrashFreeAt(c, group, i))
    && forall i :: 0 <= i < |group| ==> group[i].ncommit == group[0].ncommit
  }

  /** What a crash gives at the end of the stretch: all that the group wrote, or nothing of it. */
  ghost predicate Whole(s: State, before: Disk) {
    s.committed == before || (s.committing && !s.phase.WriteLog? && s.committed == s.last)
  }

  /** A commit goes on until FinishCommit, and is past the copying from the header write on. */
  lemma CommittingStays(c: Config, s: State, step: Step)
    requires LogInv(c, s) && Enabled(c, s, step) && s.committing && !step.Crash? && !step.FinishCommit?
    ensures var s' := Apply(c, s, step);
            s'.committing && (step.WriteHead? || !s.phase.WriteLog? ==> !s'.phase.WriteLog?)
  {
    if step.EndOp? { InOpRunning(c, s, step.t); }
  }

  lemma FinishCounts(c: Config, s: State)
    requires Enabled(c, s, FinishCommit)
    ensures Apply(c, s, FinishCommit).ncommit == s.ncommit + 1
  {
  }

  lemma WholeStep(c: Config, s: State, s': State, before: Disk)
    requires Inv(c, s) && CrashFree(c, s, s') && s'.ncommit == s.ncommit && Whole(s, before)
    ensures Whole(s', before)
  {
    var step :| Enabled(c, s, step) && !step.Crash? && s' == Apply(c, s, step);
    CommitIsAtomic(c, s, step);
    if step.FinishCommit? { FinishCounts(c, s); }
    if s.committing {
      LastFrozen(c, s, step);
      CommittingStays(c, s, step);
    }
  }

  lemma GroupStep(c: Config, group: seq<State>, n: nat)
    requires OneGroup(c, group) && 0 < n < |group|
    requires Inv(c, group[n - 1]) && Whole(group[n - 1], group[0].committed)
    ensures Inv(c, group[n]) && Whole(group[n], group[0].committed)
  {
    var s, s' := group[n - 1], group[n];
    assert CrashFreeAt(c, group, n);
    CrashFreeInv(c, s, s');
    WholeStep(c, s, s', group[0].committed);
  }

  lemma {:induction false} GroupInv(c: Config, group: seq<State>, n: nat)
    requires OneGroup(c, group) && n < |group|
    ensures Inv(c, group[n]) && Whole(group[n], group[0].committed)
  {
    if n > 0 {
      GroupInv(c, group, n - 1);
      GroupStep(c, group, n);
    }
  }

  lemma WholeRecovers(c: Config, s: State, before: Disk)
    requires Inv(c, s) && Whole(s, before)
    ensures RecoverableTo(c.layout, s.disk, before) || (s.committing && RecoverableTo(c.layout, s.disk, s.last))
  {
  }

  lemma IdleHome(c: Config, s: State)
    requires Inv(c, s) && Idle(s)
    ensures SameHome(c.layout, s.committed, s.last)
  {
    NoDirtyOutside(c, s);
    assert ReadHeader(s.disk[c.layout.start]) == [];
  }

  /** All or nothing: from a moment with no operation in progress until the commit that ends the group
      is complete, a crash recovers either to what was on disk then or to everything written since. */
  lemma AllOrNothing(c: Config, group: seq<State>)
    requires OneGroup(c, group)
    ensures var s := group[|group| - 1];
            RecoverableTo(c.layout, s.disk, group[0].committed)
            || (s.committing && RecoverableTo(c.layout, s.disk, s.last))
    ensures SameHome(c.layout, group[0].committed, group[0].last)
  {
    GroupInv(c, group, |group| - 1);
    WholeRecovers(c, group[|group| - 1], group[0].committed);
    IdleHome(c, group[0]);
  }

  // ---- cache coherence

  /** A block has one buffer at most; references are counted exactly; bread returns the last value
      written; and a buffer about to be recycled holds nothing that is not on disk. */
  lemma Coherence(c: Config, run: seq<State>, n: nat, b: nat)
    requires Run(c, run) && n < |run| && b < |run[n].bufs|
    ensures var s := run[n]; var buf := s.bufs[b];
            && (forall i :: 0 <= i < |s.bufs| && i != b && buf.blockno != NOBLOCK ==>
                  s.bufs[i].blockno != buf.blockno)
            && buf.refcnt == |buf.waiters| + |buf.leaving| + (if buf.lock.Some? then 1 else 0)
                             + (if buf.blockno in Pinned(s) then 1 else 0)
            && (buf.valid ==> 0 <= buf.blockno < |s.disk| == |s.last|)
            && (buf.valid && Home(c.layout, buf.blockno) && !Boot?(s.phase) ==> buf.data == s.last[buf.blockno])
            && (buf.valid && buf.lock == None && buf.data != s.disk[buf.blockno] ==>
                  buf.blockno in s.lh && buf.refcnt > 0)
            && (buf.refcnt == 0 && buf.valid ==> buf.data == s.disk[buf.blockno])
  {
    RunInv(c, run, n);
    assert BufInv(c, run[n], run[n].bufs[b]);
  }

  // ---- space reservation and the commit protocol

  /** The log never overflows, in memory or on disk, and log_write never panics. */
  lemma Reservation(c: Config, run: seq<State>, n: nat)
    requires Run(c, run) && n < |run|
    ensures var s := run[n];
            && !s.panicked
            && (!Boot?(s.phase) ==> |s.lh| + Sum(s.ops, Reserve) <= LOGBLOCKS && |s.lh| <= LOGBLOCKS - 1)
            && |s.lh| < c.layout.nlog && Distinct(s.lh)
  {
    RunInv(c, run, n);
    ReserveBound(run[n].ops);
  }

  /** A commit runs with no operation in progress; with neither, the log is empty; and a thread asleep
      in begin_op has an operation or a commit to wake it. */
  lemma CommitProtocol(c: Config, run: seq<State>, n: nat)
    requires Run(c, run) && n < |run|
    ensures var s := run[n];
            && (s.committing ==> s.outstanding == 0)
            && (Idle(s) ==> s.lh == [] && SameHome(c.layout, s.disk, s.last))
            && (s.asleep != {} ==> s.committing || s.outstanding > 0)
            && (Idle(s) ==> !MustWait(s))
  {
    RunInv(c, run, n);
    if Idle(run[n]) { NoDirtyOutside(c, run[n]); }
  }

  /** sys_sync's bookkeeping: `durable` moves only to states in which everything written is committed. */
  lemma DurableStep(c: Config, s: State, s': State)
    requires Inv(c, s) && CrashFree(c, s, s')
    ensures s'.durable == s.durable || (s'.durable == s'.ended && SameHome(c.layout, s'.committed, s'.last))
  {
    var step :| Enabled(c, s, step) && !step.Crash? && s' == Apply(c, s, step);
    if step.FinishCommit? {
      assert ReadHeader(s.disk[c.layout.start]) == [];
    } else if !step.WriteHead? {
      DurableElse(c, s, step);
    }
  }

  lemma DurableElse(c: Config, s: State, step: Step)
    requires Enabled(c, s, step) && !step.Crash? && !step.FinishCommit? && !step.WriteHead?
    ensures Apply(c, s, step).durable == s.durable
  {
  }

  ghost predicate Stretch(c: Config, run: seq<State>) {
    && |run| > 0 && Init(c, run[0])
    && forall i {:trigger CrashFreeAt(c, run, i)} :: CrashFreeAt(c, run, i)
  }

  ghost predicate Includes(c: Config, s: State, ended: nat) {
    s.ended >= ended && SameHome(c.layout, s.committed, s.last)
  }

  lemma DurableNext(c: Config, run: seq<State>, n: nat)
    requires Stretch(c, run) && 0 < n < |run| && Inv(c, run[n - 1])
    ensures Inv(c, run[n])
    ensures run[n].durable == run[n - 1].durable || Includes(c, run[n], run[n].durable)
  {
    assert CrashFreeAt(c, run, n);
    CrashFreeInv(c, run[n - 1], run[n]);
    DurableStep(c, run[n - 1], run[n]);
  }

  lemma {:induction false} DurableWitness(c: Config, run: seq<State>, n: nat) returns (k: nat)
    requires Stretch(c, run) && n < |run|
    ensures Inv(c, run[n]) && k <= n && Includes(c, run[k], run[n].durable)
  {
    if n == 0 {
      InitInv(c, run[0]);
      k := 0;
    } else {
      k := DurableWitness(c, run, n - 1);
      DurableNext(c, run, n);
      if run[n].durable != run[n - 1].durable { k := n; }
    }
  }

  ghost predicate Waiting(run: seq<State>, i: nat, j: nat, t: Tid) {
    i <= j < |run| && forall k :: i <= k <= j ==> t in run[k].syncs
  }

  lemma {:induction false} SyncKept(c: Config, run: seq<State>, i: nat, j: nat, t: Tid)
    requires Stretch(c, run) && Waiting(run, i, j, t)
    ensures run[j].syncs[t] == run[i].syncs[t]
    decreases j
  {
    if i < j {
      SyncKept(c, run, i, j - 1, t);
      assert CrashFreeAt(c, run, j);
      SyncStep(c, run[j - 1], run[j], t);
    }
  }

  lemma SyncStep(c: Config, s: State, s': State, t: Tid)
    requires CrashFree(c, s, s') && t in s.syncs && t in s'.syncs
    ensures s'.syncs[t] == s.syncs[t]
  {
  }

  /** sys_sync: a call made in state i, returning from state j, returns only after some state in which
      all operations that had ended before the call were committed. */
  lemma SyncIsDurable(c: Config, run: seq<State>, i: nat, j: nat, t: Tid) returns (k: nat)
    requires Stretch(c, run) && 0 < i && Waiting(run, i, j, t)
    requires Enabled(c, run[i - 1], SyncCall(t)) && run[i] == Apply(c, run[i - 1], SyncCall(t))
    requires Enabled(c, run[j], SyncReturn(t))
    ensures k <= j && Includes(c, run[k], run[i - 1].ended)
  {
    k := DurableWitness(c, run, j);
    SyncKept(c, run, i, j, t);
  }
}
