/** What every step of the scheduler machine keeps. */
module SchedInvariant {
  import opened SchedMachine

  // ---- the invariant

  ghost predicate Wf(s: State) {
    && |s.cpu| > 0 && |s.pstate| > 0 && |s.chan| == |s.pstate|
    && (forall t :: t in s.th <==> IsThread(s, t))
  }

  /** Active threads are what their CPUs run; a thread holds its locks by its CPU's name; the others hold none. */
  ghost predicate Placed(s: State, t: Thread)
    requires t in s.th
  {
    var th := s.th[t];
    && (t.S? ==> th.on == t.c)
    && (Active(th) ==> On(s, t))
    && (!Active(th) ==> Depth0(th))
    && (forall lk :: lk in th.held ==> lk in s.locked && lk in s.owner && s.owner[lk] == t && s.locked[lk] == th.on)
  }

  /** noff counts the outstanding push_offs of the running thread, and interrupts are off while there are any. */
  ghost predicate Counted(s: State, t: Thread)
    requires t in s.th
  {
    var th := s.th[t];
    On(s, t) ==> var c := s.cpu[th.on];
                 c.noff == |th.held| + th.extra && (c.sie ==> c.noff == 0)
  }

  predicate AllOther(held: set<Lock>) { forall lk :: lk in held ==> lk.Other? }

  /** What a thread at acquire for k holds besides the lock it is after. */
  predicate KontOk(n: nat, t: Thread, lk: Lock, k: Kont, held: set<Lock>) {
    match k
    case KRun => lk.PL? ==> lk.p < n
    case KYield => t.P? && lk == PL(t.p) && held == {}
    case KSleep(_, l) => t.P? && lk == PL(t.p) && held == {l} && l.Other?
    case KExit(l) => t.P? && lk == PL(t.p) && held == {l} && l.Other?
    case KWake(_, i) => i < n && lk == PL(i) && t != P(i) && AllOther(held)
    case KSched(i) => i < n && lk == PL(i) && t.S? && held == {}
  }

  /** The lock acquire for k is after. */
  function Target(t: Thread, k: Kont): Lock {
    match k
    case KWake(_, i) => PL(i)
    case KSched(i) => PL(i)
    case _ => if t.P? then PL(t.p) else PL(0)
  }

  /** The state of a process about to switch, or switched out. */
  predicate GoneAs(k: Kont, st: ProcState) {
    match k
    case KYield => st == RUNNABLE
    case KSleep(_, _) => st == SLEEPING
    case KExit(_) => st == ZOMBIE
    case _ => false
  }

  predicate OnlyOwn(t: Thread, th: Th) { t.P? && th.held == {PL(t.p)} && th.extra == 0 }

  /** Where each thread's code is and what it holds there. */
  predicate PcOk(n: nat, t: Thread, th: Th) {
    match th.pc
    case Run => true
    case Spin(lk, k) =>
      && th.extra >= 1 && lk !in th.held && KontOk(n, t, lk, k, th.held)
      && (k.KRun? || k.KWake? || th.extra == 1) && (k.KSched? ==> th.back.Run?)
    case Have(k) =>
      && !k.KRun? && Target(t, k) in th.held && KontOk(n, t, Target(t, k), k, th.held - {Target(t, k)})
      && (k.KWake? || th.extra == 0) && (k.KSched? ==> th.back.Run?)
    case SleepRel(_, l) => OnlyOwn(t, th) && l.Other?
    case ExitRel(l) => t.P? && l.Other? && th.held == {PL(t.p), l} && th.extra == 0
    case SchedCall(k) => OnlyOwn(t, th) && (k.KYield? || k.KSleep? || k.KExit?) && (k.KSleep? ==> k.lk.Other?)
    case Away(k, _) => t.P? && (k.KYield? || k.KSleep? || k.KExit?) && (k.KSleep? ==> k.lk.Other?)
    case Resumed(k, _) => OnlyOwn(t, th) && (k.KYield? || k.KSleep?) && (k.KSleep? ==> k.lk.Other?)
    case AfterSched(k) => OnlyOwn(t, th) && (k.KYield? || k.KSleep?) && (k.KSleep? ==> k.lk.Other?)
    case SleepWake(l) => t.P? && Depth0(th) && l.Other?
    case Dead => t.P?
    case NewAway => t.P?
    case Fresh => OnlyOwn(t, th)
    case Wake(_, i) => i <= n && AllOther(th.held)
    case WakeRel(_, i) => i < n && PL(i) in th.held && AllOther(th.held - {PL(i)}) && t != P(i)
    case Idle(i) => t.S? && i < n && Depth0(th) && th.back.Run?
    case SAway(i) => t.S? && i < n && th.back.Run?
    case SBack(i) => t.S? && i < n && th.held == {PL(i)} && th.extra == 0 && th.back.Run?
    case SRel(i) => t.S? && i < n && th.held == {PL(i)} && th.extra == 0 && th.back.Run?
  }

  predicate BackOk(n: nat, t: Thread, th: Th) {
    match th.back
    case Run => true
    case Idle(i) => t.S? && i < n
    case SleepWake(l) => t.P? && l.Other?
    case _ => false
  }

  /** The state of process p agrees with where its thread is. */
  predicate StateOk(pc: Pc, st: ProcState, chan: nat) {
    match pc
    case SchedCall(k) => GoneAs(k, st) && (k.KSleep? ==> chan == k.chan)
    case Away(k, _) => (GoneAs(k, st) && (k.KSleep? ==> chan == k.chan)) || (k.KSleep? && st == RUNNABLE)
    case ExitRel(_) => st == ZOMBIE
    case Dead => st == UNUSED || st == USED
    case NewAway => st == RUNNABLE
    case _ => st == RUNNING
  }

  ghost predicate ProcOk(s: State, t: Thread)
    requires t in s.th
  {
    t.P? ==> t.p < |s.pstate| && t.p < |s.chan| && StateOk(s.th[t].pc, s.pstate[t.p], s.chan[t.p])
  }

  /** wakeup runs with interrupts off, also between the locks it takes. */
  predicate Quiet(pc: Pc, c: Cpu) {
    match pc
    case Wake(_, _) => !c.sie
    case Spin(_, k) => k.KWake? ==> c.noff >= 2 || !c.intena
    case Have(k) => k.KWake? ==> c.noff >= 2 || !c.intena
    case WakeRel(_, _) => c.noff >= 2 || !c.intena
    case _ => true
  }

  /** A process thread has its own interrupt bit in its CPU, or is about to put it there. */
  predicate Own(t: Thread, th: Th, c: Cpu) {
    match th.pc
    case Resumed(_, saved) => saved == th.base
    case Fresh => true
    case _ => t.P? && c.noff > 0 ==> c.intena == th.base
  }

  ghost predicate Intr(s: State, t: Thread)
    requires t in s.th
  {
    var th := s.th[t];
    && (On(s, t) ==> Quiet(th.pc, s.cpu[th.on]) && Own(t, th, s.cpu[th.on]))
    && (th.pc.Away? ==> th.pc.saved == th.base)
  }

  ghost predicate ThreadOk(s: State, t: Thread) {
    t in s.th ==>
      && Placed(s, t) && Counted(s, t) && PcOk(|s.pstate|, t, s.th[t]) && BackOk(|s.pstate|, t, s.th[t])
      && ProcOk(s, t) && Intr(s, t)
  }

  /** A lock that is taken is held by its owner. */
  ghost predicate LockOk(s: State, lk: Lock) {
    && (lk in s.locked <==> lk in s.owner)
    && (lk in s.owner ==> s.owner[lk] in s.th && lk in s.th[s.owner[lk]].held)
  }

  /** A CPU runs its scheduler, or the process its scheduler switched to. */
  ghost predicate CpuOk(s: State, c: nat) {
    c < |s.cpu| && S(c) in s.th ==>
      var sc := s.th[S(c)];
      && s.cpu[c].cur in s.th && On(s, s.cpu[c].cur) && s.th[s.cpu[c].cur].on == c
      && (sc.pc.SAway? ==> s.cpu[c].cur == P(sc.pc.i))
      && (!sc.pc.SAway? ==> s.cpu[c].cur == S(c))
      && s.cpu[c].proc == (if sc.pc.SAway? || sc.pc.SBack? then Proc(sc.pc.i) else Nobody)
  }

  ghost predicate Inv(s: State) {
    && Wf(s)
    && (forall t {:trigger ThreadOk(s, t)} :: ThreadOk(s, t))
    && (forall lk {:trigger LockOk(s, lk)} :: LockOk(s, lk))
    && (forall c {:trigger CpuOk(s, c)} :: CpuOk(s, c))
  }

  // ---- what a step of one thread leaves alone

  lemma OtherThread(s: State, s': State, u: Thread)
    requires ThreadOk(s, u) && u in s.th && u in s'.th && s'.th[u] == s.th[u]
    requires |s'.cpu| == |s.cpu| && |s'.pstate| == |s.pstate| && |s'.chan| == |s.chan|
    requires On(s, u) ==> s'.cpu[s.th[u].on] == s.cpu[s.th[u].on]
    requires forall lk :: lk in s.th[u].held ==>
               lk in s'.locked && lk in s'.owner && s'.owner[lk] == u && s'.locked[lk] == s.locked[lk]
    requires u.P? && u.p < |s.pstate| && u.p < |s.chan| ==>
               s'.pstate[u.p] == s.pstate[u.p] && s'.chan[u.p] == s.chan[u.p]
    ensures ThreadOk(s', u)
  {
  }

  /** s' differs from s only in thread t, its CPU, its locks, and the state of its process. */
  ghost predicate Local(s: State, s': State, t: Thread) {
    && On(s, t) && t in s'.th && s'.th == s.th[t := s'.th[t]] && s'.th[t].on == s.th[t].on
    && |s'.cpu| == |s.cpu| && s'.cpu == s.cpu[s.th[t].on := s'.cpu[s.th[t].on]] && s'.cpu[s.th[t].on].cur == t
    && |s'.pstate| == |s.pstate| && |s'.chan| == |s.chan|
    && (forall q :: 0 <= q < |s.pstate| && P(q) != t ==> s'.pstate[q] == s.pstate[q])
    && (forall q :: 0 <= q < |s.chan| && P(q) != t ==> s'.chan[q] == s.chan[q])
  }

  /** Locks of other threads are as before; t's are what it holds. */
  ghost predicate LocalLocks(s: State, s': State, t: Thread)
    requires t in s'.th
  {
    && s'.locked.Keys == s'.owner.Keys
    && (forall lk :: lk in s'.owner && s'.owner[lk] == t ==> lk in s'.th[t].held)
    && (forall lk :: lk in s'.owner && s'.owner[lk] != t ==> lk in s.owner && s.owner[lk] == s'.owner[lk])
    && (forall lk :: lk in s.owner && s.owner[lk] != t ==>
          lk in s'.owner && s'.owner[lk] == s.owner[lk] && lk in s.locked && s'.locked[lk] == s.locked[lk])
  }

  lemma LocalOthers(s: State, s': State, t: Thread, u: Thread)
    requires Inv(s) && Local(s, s', t) && LocalLocks(s, s', t) && u != t && u in s.th
    ensures ThreadOk(s', u)
  {
    assert ThreadOk(s, u);
    forall lk | lk in s.th[u].held
      ensures lk in s'.locked && lk in s'.owner && s'.owner[lk] == u && s'.locked[lk] == s.locked[lk]
    {
      assert lk in s'.locked.Keys <==> lk in s'.owner.Keys;
    }
    OtherThread(s, s', u);
  }

  lemma LocalLockOk(s: State, s': State, t: Thread, lk: Lock)
    requires Inv(s) && Local(s, s', t) && LocalLocks(s, s', t)
    ensures LockOk(s', lk)
  {
    assert LockOk(s, lk);
    assert lk in s'.locked.Keys <==> lk in s'.owner.Keys;
  }

  lemma LocalCpu(s: State, s': State, t: Thread, c: nat)
    requires Inv(s) && Local(s, s', t) && Active(s'.th[t]) && (c == s.th[t].on ==> CpuOk(s', c))
    ensures CpuOk(s', c)
  {
    if c < |s.cpu| && c != s.th[t].on {
      assert CpuOk(s, c);
      assert S(c) in s.th;
      assert ThreadOk(s, S(c)) && ThreadOk(s, t);
    }
  }

  /** A local step keeps the invariant if it keeps it for the thread that takes it and for its CPU. */
  lemma LocalInv(s: State, s': State, t: Thread)
    requires Inv(s) && Local(s, s', t) && LocalLocks(s, s', t) && Active(s'.th[t])
    requires ThreadOk(s', t) && CpuOk(s', s.th[t].on)
    ensures Inv(s')
  {
    forall u ensures ThreadOk(s', u) {
      if u != t && u in s'.th { LocalOthers(s, s', t, u); }
    }
    forall lk ensures LockOk(s', lk) { LocalLockOk(s, s', t, lk); }
    forall c ensures CpuOk(s', c) { LocalCpu(s, s', t, c); }
  }

  lemma OwnCpu(s: State, s': State, t: Thread)
    requires Inv(s) && Local(s, s', t) && Active(s'.th[t])
    requires t.P? ==> s'.cpu[s.th[t].on].proc == s.cpu[s.th[t].on].proc
    requires t.S? ==> s'.cpu[s.th[t].on].proc == if s'.th[t].pc.SBack? then Proc(s'.th[t].pc.i) else Nobody
    ensures CpuOk(s', s.th[t].on)
  {
    var c := s.th[t].on;
    assert CpuOk(s, c) && ThreadOk(s, t) && S(c) in s.th;
  }

  lemma LocksSame(s: State, s': State, t: Thread)
    requires Inv(s) && t in s.th && t in s'.th && s'.th[t].held == s.th[t].held
    requires s'.locked == s.locked && s'.owner == s.owner
    ensures LocalLocks(s, s', t)
  {
    forall lk ensures lk in s.locked <==> lk in s.owner { assert LockOk(s, lk); }
    forall lk | lk in s.owner && s.owner[lk] == t ensures lk in s.th[t].held { assert LockOk(s, lk); }
  }

  lemma LocksTaken(s: State, s': State, t: Thread, lk: Lock)
    requires Inv(s) && t in s.th && t in s'.th && s'.th[t].held == s.th[t].held + {lk} && lk !in s.locked
    requires s'.locked == s.locked[lk := s.th[t].on] && s'.owner == s.owner[lk := t]
    ensures LocalLocks(s, s', t)
  {
    forall l ensures l in s.locked <==> l in s.owner { assert LockOk(s, l); }
    forall l | l in s.owner && s.owner[l] == t ensures l in s.th[t].held { assert LockOk(s, l); }
  }

  lemma LocksDropped(s: State, s': State, t: Thread, lk: Lock)
    requires Inv(s) && t in s.th && t in s'.th && s'.th[t].held == s.th[t].held - {lk} && lk in s.owner
    requires s.owner[lk] == t
    requires s'.locked == s.locked - {lk} && s'.owner == s.owner - {lk}
    ensures LocalLocks(s, s', t)
  {
    forall l ensures l in s.locked <==> l in s.owner { assert LockOk(s, l); }
    forall l | l in s.owner && s.owner[l] == t ensures l in s.th[t].held { assert LockOk(s, l); }
  }

  // ---- the operations of spinlock.c

  /** Code of a RUNNING process, or of a scheduler that has no process. */
  predicate Plain(pc: Pc) {
    !pc.SchedCall? && !pc.Away? && !pc.ExitRel? && !pc.Dead? && !pc.NewAway? && !pc.SAway? && !pc.SBack?
  }

  lemma NoProc(s: State, t: Thread)
    requires Inv(s) && On(s, t) && Plain(s.th[t].pc)
    ensures t.S? ==> s.th[t].on == t.c && s.cpu[t.c].proc == Nobody
  {
    assert ThreadOk(s, t);
    if t.S? { assert CpuOk(s, t.c); }
  }

  lemma PushInv(s: State, t: Thread, pc: Pc)
    requires Inv(s) && On(s, t) && Plain(s.th[t].pc) && Plain(pc)
    requires !s.th[t].pc.Resumed? && !s.th[t].pc.Fresh? && !pc.Resumed? && !pc.Fresh?
    requires PcOk(|s.pstate|, t, s.th[t].(pc := pc, extra := s.th[t].extra + 1))
    requires Quiet(pc, PushCpu(s.cpu[s.th[t].on]))
    ensures Inv(DoPush(s, t, pc))
  {
    var s' := DoPush(s, t, pc);
    assert ThreadOk(s, t);
    NoProc(s, t);
    PcOkBase(|s.pstate|, t, s.th[t].(pc := pc, extra := s.th[t].extra + 1), s'.th[t]);
    assert ThreadOk(s', t);
    LocksSame(s, s', t);
    OwnCpu(s, s', t);
    LocalInv(s, s', t);
  }

  /** Where the code is does not depend on the interrupt bit or on past sleeps. */
  lemma PcOkBase(n: nat, t: Thread, a: Th, b: Th)
    requires PcOk(n, t, a) && a.pc == b.pc && a.held == b.held && a.extra == b.extra && a.back == b.back
    ensures PcOk(n, t, b)
  {
  }

  lemma PopInv(s: State, t: Thread)
    requires Inv(s) && On(s, t) && s.th[t].pc.Run? && s.th[t].extra > 0
    ensures s.cpu[s.th[t].on].noff > 0 && !s.cpu[s.th[t].on].sie && Inv(DoPop(s, t))
  {
    assert ThreadOk(s, t);
    var s' := DoPop(s, t);
    NoProc(s, t);
    assert ThreadOk(s', t);
    LocksSame(s, s', t);
    OwnCpu(s, s', t);
    LocalInv(s, s', t);
  }

  lemma TakeInv(s: State, t: Thread, pc: Pc)
    requires Inv(s) && On(s, t) && s.th[t].pc.Spin? && s.th[t].pc.lk !in s.locked && Plain(pc) && !pc.Fresh?
    requires !pc.Resumed?
    requires s.th[t].extra > 0
    requires PcOk(|s.pstate|, t, s.th[t].(pc := pc, held := s.th[t].held + {s.th[t].pc.lk}, extra := s.th[t].extra - 1))
    requires Quiet(pc, s.cpu[s.th[t].on])
    ensures Inv(DoTake(s, t, s.th[t].pc.lk, pc))
  {
    var lk := s.th[t].pc.lk;
    var s' := DoTake(s, t, lk, pc);
    assert ThreadOk(s, t) && LockOk(s, lk);
    NoProc(s, t);
    assert ThreadOk(s', t);
    LocksTaken(s, s', t, lk);
    OwnCpu(s, s', t);
    LocalInv(s, s', t);
  }

  /** A thread that holds a lock passes holding(), and may pop_off. */
  lemma HoldsIt(s: State, t: Thread, lk: Lock)
    requires Inv(s) && On(s, t) && lk in s.th[t].held
    ensures Holding(s, s.th[t].on, lk) && s.cpu[s.th[t].on].noff > 0 && !s.cpu[s.th[t].on].sie
  {
    assert ThreadOk(s, t);
    assert |s.th[t].held - {lk}| == |s.th[t].held| - 1;
  }

  /** holding() tells a thread what it holds. */
  lemma HoldingIsHeld(s: State, t: Thread, lk: Lock)
    requires Inv(s) && On(s, t)
    ensures Holding(s, s.th[t].on, lk) <==> lk in s.th[t].held
  {
    assert ThreadOk(s, t);
    if lk in s.locked {
      assert LockOk(s, lk);
      assert ThreadOk(s, s.owner[lk]);
    }
  }

  lemma ReleaseInv(s: State, t: Thread, lk: Lock, pc: Pc)
    requires Inv(s) && On(s, t) && lk in s.th[t].held && (t.P? ==> StateOk(pc, s.pstate[t.p], s.chan[t.p]))
    requires Active(s.th[t].(pc := pc)) && !pc.Fresh? && !pc.Resumed? && !pc.SBack? && !s.th[t].pc.SBack?
    requires !s.th[t].pc.Resumed? && (s.th[t].pc.Fresh? ==> s.th[t].held == {lk} && s.th[t].extra == 0)
    requires PcOk(|s.pstate|, t, s.th[t].(pc := pc, held := s.th[t].held - {lk}))
    requires pc.Wake? ==> s.th[t].pc.WakeRel?
    requires !pc.WakeRel? && !(pc.Spin? && pc.k.KWake?) && !(pc.Have? && pc.k.KWake?)
    ensures s.cpu[s.th[t].on].noff > 0 && Inv(DoRelease(s, t, lk, pc))
  {
    HoldsIt(s, t, lk);
    assert ThreadOk(s, t) && LockOk(s, lk);
    var s' := DoRelease(s, t, lk, pc);
    assert |s.th[t].held - {lk}| == |s.th[t].held| - 1;
    if t.S? { assert CpuOk(s, t.c); }
    assert ThreadOk(s', t);
    LocksDropped(s, s', t, lk);
    OwnCpu(s, s', t);
    LocalInv(s, s', t);
  }

  // ---- steps that leave locks and push_offs alone

  lemma MoveInv(s: State, s': State, t: Thread)
    requires Inv(s) && Local(s, s', t) && s'.locked == s.locked && s'.owner == s.owner
    requires s'.th[t].held == s.th[t].held && Active(s'.th[t]) && ThreadOk(s', t)
    requires t.P? ==> s'.cpu[s.th[t].on].proc == s.cpu[s.th[t].on].proc
    requires t.S? ==> s'.cpu[s.th[t].on].proc == if s'.th[t].pc.SBack? then Proc(s'.th[t].pc.i) else Nobody
    ensures Inv(s')
  {
    LocksSame(s, s', t);
    OwnCpu(s, s', t);
    LocalInv(s, s', t);
  }

  lemma SetIntrInv(s: State, t: Thread, on: bool)
    requires Inv(s) && Enabled(s, SetIntr(t, on))
    ensures Inv(Apply(s, SetIntr(t, on)))
  {
    var s' := Apply(s, SetIntr(t, on));
    assert ThreadOk(s, t);
    NoProc(s, t);
    assert ThreadOk(s', t);
    MoveInv(s, s', t);
  }

  lemma HandlerInInv(s: State, t: Thread)
    requires Inv(s) && Enabled(s, HandlerIn(t))
    ensures Inv(Apply(s, HandlerIn(t)))
  {
    var s' := Apply(s, HandlerIn(t));
    assert ThreadOk(s, t);
    NoProc(s, t);
    assert ThreadOk(s', t);
    MoveInv(s, s', t);
  }

  lemma HandlerOutInv(s: State, t: Thread)
    requires Inv(s) && Enabled(s, HandlerOut(t))
    ensures Inv(Apply(s, HandlerOut(t)))
  {
    var s' := Apply(s, HandlerOut(t));
    assert ThreadOk(s, t);
    NoProc(s, t);
    assert ThreadOk(s', t);
    MoveInv(s, s', t);
  }

  lemma BeginWakeupInv(s: State, t: Thread, chan: nat)
    requires Inv(s) && Enabled(s, BeginWakeup(t, chan))
    ensures Inv(Apply(s, BeginWakeup(t, chan)))
  {
    var s' := Apply(s, BeginWakeup(t, chan));
    assert ThreadOk(s, t);
    NoProc(s, t);
    assert ThreadOk(s', t);
    MoveInv(s, s', t);
  }

  lemma YieldStateInv(s: State, p: nat)
    requires Inv(s) && CanAct(s, P(p)) && s.th[P(p)].pc == Have(KYield)
    ensures Inv(DoAct(s, P(p)))
  {
    var t := P(p);
    var s' := DoAct(s, t);
    assert ThreadOk(s, t);
    assert s.th[t].held == s.th[t].held - {PL(p)} + {PL(p)};
    assert ThreadOk(s', t);
    MoveInv(s, s', t);
  }

  lemma SleepStateInv(s: State, p: nat)
    requires Inv(s) && CanAct(s, P(p)) && s.th[P(p)].pc.SleepRel?
    ensures Inv(DoAct(s, P(p)))
  {
    var t := P(p);
    var s' := DoAct(s, t);
    assert ThreadOk(s, t);
    assert ThreadOk(s', t);
    MoveInv(s, s', t);
  }

  lemma ExitStateInv(s: State, p: nat)
    requires Inv(s) && CanAct(s, P(p)) && s.th[P(p)].pc.Have? && s.th[P(p)].pc.k.KExit?
    ensures Inv(DoAct(s, P(p)))
  {
    var t := P(p);
    var s' := DoAct(s, t);
    assert ThreadOk(s, t);
    assert s.th[t].held == s.th[t].held - {PL(p)} + {PL(p)};
    assert ThreadOk(s', t);
    MoveInv(s, s', t);
  }

  lemma ResumedInv(s: State, p: nat)
    requires Inv(s) && CanAct(s, P(p)) && s.th[P(p)].pc.Resumed?
    ensures Inv(DoAct(s, P(p)))
  {
    var t := P(p);
    var s' := DoAct(s, t);
    assert ThreadOk(s, t);
    assert ThreadOk(s', t);
    MoveInv(s, s', t);
  }

  lemma WakeSkipInv(s: State, t: Thread)
    requires Inv(s) && CanAct(s, t) && s.th[t].pc.Wake? && (s.th[t].pc.i == |s.pstate| || t == P(s.th[t].pc.i))
    ensures Checks(s, t) && Inv(DoAct(s, t))
  {
    var s' := DoAct(s, t);
    assert ThreadOk(s, t);
    NoProc(s, t);
    assert ThreadOk(s', t);
    MoveInv(s, s', t);
  }

  lemma SchedSkipInv(s: State, c: nat)
    requires Inv(s) && CanAct(s, S(c)) && s.th[S(c)].pc.Have? && s.th[S(c)].pc.k.KSched?
    requires s.pstate[s.th[S(c)].pc.k.i] != RUNNABLE
    ensures Inv(DoAct(s, S(c)))
  {
    var t := S(c);
    var s' := DoAct(s, t);
    assert ThreadOk(s, t);
    NoProc(s, t);
    assert s.th[t].held == s.th[t].held - {PL(s.th[t].pc.k.i)} + {PL(s.th[t].pc.k.i)};
    assert ThreadOk(s', t);
    MoveInv(s, s', t);
  }

  lemma BackInv(s: State, c: nat)
    requires Inv(s) && CanAct(s, S(c)) && s.th[S(c)].pc.SBack?
    ensures Inv(DoAct(s, S(c)))
  {
    var t := S(c);
    var s' := DoAct(s, t);
    assert ThreadOk(s, t);
    assert ThreadOk(s', t);
    MoveInv(s, s', t);
  }

  // ---- changing another process's state under its lock

  /** A process whose lock another thread holds is not on a CPU in code that has its own lock. */
  lemma NotBusy(s: State, t: Thread, q: nat)
    requires Inv(s) && On(s, t) && PL(q) in s.th[t].held && t != P(q) && P(q) in s.th
    ensures PL(q) !in s.th[P(q)].held
  {
    assert ThreadOk(s, t) && ThreadOk(s, P(q));
  }

  lemma TouchInv(s: State, q: nat, st: ProcState, pc: Pc)
    requires Inv(s) && P(q) in s.th && q < |s.pstate| && !Active(s.th[P(q)]) && !Active(s.th[P(q)].(pc := pc))
    requires PcOk(|s.pstate|, P(q), s.th[P(q)].(pc := pc)) && StateOk(pc, st, s.chan[q])
    requires pc.Away? ==> pc == s.th[P(q)].pc
    ensures Inv(Goto(SetPstate(s, q, st), P(q), pc))
  {
    var s' := Goto(SetPstate(s, q, st), P(q), pc);
    forall u ensures ThreadOk(s', u) {
      assert ThreadOk(s, u);
      if u in s'.th && u != P(q) { OtherThread(s, s', u); }
    }
    forall lk ensures LockOk(s', lk) { assert LockOk(s, lk); }
    forall c ensures CpuOk(s', c) { assert CpuOk(s, c); }
  }

  lemma SetStateInv(s: State, t: Thread, q: nat, st: ProcState)
    requires Inv(s) && Enabled(s, SetState(t, q, st))
    ensures Inv(Apply(s, SetState(t, q, st)))
  {
    NotBusy(s, t, q);
    assert ThreadOk(s, P(q));
    TouchInv(s, q, st, ThreadAfter(s.th[P(q)].pc, s.pstate[q], st));
  }

  /** wakeup finds a sleeper switched out, and makes it RUNNABLE. */
  lemma WakeOneInv(s: State, t: Thread, i: nat)
    requires Inv(s) && On(s, t) && PL(i) in s.th[t].held && t != P(i) && i < |s.pstate| && s.pstate[i] == SLEEPING
    ensures Inv(SetPstate(s, i, RUNNABLE))
  {
    assert P(i) in s.th;
    NotBusy(s, t, i);
    assert ThreadOk(s, P(i));
    TouchInv(s, i, RUNNABLE, s.th[P(i)].pc);
    assert Goto(SetPstate(s, i, RUNNABLE), P(i), s.th[P(i)].pc) == SetPstate(s, i, RUNNABLE);
  }

  lemma ToWakeRelInv(s: State, t: Thread, chan: nat, i: nat)
    requires Inv(s) && On(s, t) && s.th[t].pc == Have(KWake(chan, i))
    ensures Inv(Goto(s, t, WakeRel(chan, i)))
  {
    var s' := Goto(s, t, WakeRel(chan, i));
    assert ThreadOk(s, t);
    NoProc(s, t);
    assert ThreadOk(s', t);
    MoveInv(s, s', t);
  }

  lemma WakeHaveInv(s: State, t: Thread)
    requires Inv(s) && CanAct(s, t) && s.th[t].pc.Have? && s.th[t].pc.k.KWake?
    ensures Inv(DoAct(s, t))
  {
    var chan, i := s.th[t].pc.k.chan, s.th[t].pc.k.i;
    assert ThreadOk(s, t);
    if s.pstate[i] == SLEEPING && s.chan[i] == chan {
      WakeOneInv(s, t, i);
      ToWakeRelInv(SetPstate(s, i, RUNNABLE), t, chan, i);
    } else {
      ToWakeRelInv(s, t, chan, i);
    }
  }

  // ---- swtch

  /** Everything sched checks before it switches holds. */
  lemma SchedChecks(s: State, p: nat)
    requires Inv(s) && CanAct(s, P(p)) && s.th[P(p)].pc.SchedCall?
    ensures Checks(s, P(p)) && s.th[S(s.th[P(p)].on)].pc == SAway(p)
  {
    assert ThreadOk(s, P(p)) && CpuOk(s, s.th[P(p)].on);
    HoldsIt(s, P(p), PL(p));
  }

  lemma SwitchOutThreads(s: State, p: nat, u: Thread)
    requires Inv(s) && CanAct(s, P(p)) && s.th[P(p)].pc.SchedCall?
    ensures ThreadOk(DoSwitchOut(s, p), u)
  {
    SchedChecks(s, p);
    var c, s' := s.th[P(p)].on, DoSwitchOut(s, p);
    assert ThreadOk(s, u) && ThreadOk(s, P(p)) && ThreadOk(s, S(c));
    if u in s'.th && u != P(p) && u != S(c) { OtherThread(s, s', u); }
  }

  lemma SwitchOutInv(s: State, p: nat)
    requires Inv(s) && CanAct(s, P(p)) && s.th[P(p)].pc.SchedCall?
    ensures Inv(DoSwitchOut(s, p))
  {
    SchedChecks(s, p);
    var c, s' := s.th[P(p)].on, DoSwitchOut(s, p);
    forall u ensures ThreadOk(s', u) { SwitchOutThreads(s, p, u); }
    assert ThreadOk(s, P(p)) && ThreadOk(s, S(c)) && CpuOk(s, c);
    forall lk ensures LockOk(s', lk) { assert LockOk(s, lk); }
    forall d: nat ensures CpuOk(s', d) {
      assert CpuOk(s, d) && ThreadOk(s, S(d));
    }
  }

  /** A RUNNABLE process whose lock the scheduler holds has been switched out. */
  lemma ReadyToRun(s: State, c: nat, p: nat)
    requires Inv(s) && On(s, S(c)) && PL(p) in s.th[S(c)].held && p < |s.pstate| && s.pstate[p] == RUNNABLE
    ensures P(p) in s.th && (s.th[P(p)].pc.Away? || s.th[P(p)].pc.NewAway?)
    ensures s.th[P(p)].pc.Away? ==> !s.th[P(p)].pc.k.KExit?
  {
    assert P(p) in s.th;
    NotBusy(s, S(c), p);
    assert ThreadOk(s, P(p));
  }

  predicate CanSwitchIn(s: State, c: nat, p: nat) {
    && On(s, S(c)) && c < |s.cpu| && s.th[S(c)].pc == Have(KSched(p)) && p < |s.pstate| && s.pstate[p] == RUNNABLE
    && P(p) in s.th && (s.th[P(p)].pc.Away? || s.th[P(p)].pc.NewAway?)
  }

  lemma SwitchInProc(s: State, c: nat, p: nat)
    requires Inv(s) && CanSwitchIn(s, c, p)
    ensures ThreadOk(DoSwitchIn(s, c, p), P(p))
  {
    assert ThreadOk(s, P(p)) && ThreadOk(s, S(c));
    assert s.th[S(c)].held == s.th[S(c)].held - {PL(p)} + {PL(p)};
    ReadyToRun(s, c, p);
  }

  lemma SwitchInOthers(s: State, c: nat, p: nat, u: Thread)
    requires Inv(s) && CanSwitchIn(s, c, p) && u != P(p)
    ensures ThreadOk(DoSwitchIn(s, c, p), u)
  {
    var s' := DoSwitchIn(s, c, p);
    assert ThreadOk(s, u) && ThreadOk(s, S(c));
    assert s.th[S(c)].held == s.th[S(c)].held - {PL(p)} + {PL(p)};
    if u in s'.th && u != S(c) { OtherThread(s, s', u); }
  }

  lemma SwitchInCpu(s: State, c: nat, p: nat)
    requires Inv(s) && CanSwitchIn(s, c, p)
    ensures CpuOk(DoSwitchIn(s, c, p), c)
  {
    assert CpuOk(s, c) && ThreadOk(s, S(c)) && ThreadOk(s, P(p));
  }

  lemma SwitchInOtherCpu(s: State, c: nat, p: nat, d: nat)
    requires Inv(s) && CanSwitchIn(s, c, p) && d != c
    ensures CpuOk(DoSwitchIn(s, c, p), d)
  {
    assert CpuOk(s, d) && ThreadOk(s, S(d)) && ThreadOk(s, P(p));
  }

  lemma SwitchInInv(s: State, c: nat, p: nat)
    requires Inv(s) && CanSwitchIn(s, c, p)
    ensures Inv(DoSwitchIn(s, c, p))
  {
    var s' := DoSwitchIn(s, c, p);
    forall u ensures ThreadOk(s', u) {
      if u == P(p) { SwitchInProc(s, c, p); } else { SwitchInOthers(s, c, p, u); }
    }
    assert ThreadOk(s, S(c));
    forall lk ensures LockOk(s', lk) { assert LockOk(s, lk); }
    forall d: nat ensures CpuOk(s', d) {
      if d == c { SwitchInCpu(s, c, p); } else { SwitchInOtherCpu(s, c, p, d); }
    }
  }

  // ---- every step

  /** Code of a process on its way to sched. */
  lemma ActDown(s: State, p: nat)
    requires Inv(s) && CanAct(s, P(p)) && !s.th[P(p)].pc.Wake? && !s.th[P(p)].pc.WakeRel?
    requires s.th[P(p)].pc.Have? ==> !s.th[P(p)].pc.k.KWake?
    requires s.th[P(p)].pc.Have? || s.th[P(p)].pc.ExitRel?
    ensures Checks(s, P(p)) && Inv(DoAct(s, P(p)))
  {
    var t := P(p);
    assert ThreadOk(s, t);
    match s.th[t].pc {
      case Have(KYield) => YieldStateInv(s, p);
      case Have(KSleep(chan, lk)) =>
        assert s.th[t].held == s.th[t].held - {PL(p)} + {PL(p)};
        HoldsIt(s, t, lk);
        ReleaseInv(s, t, lk, SleepRel(chan, lk));
      case Have(KExit(_)) => ExitStateInv(s, p);
      case ExitRel(lk) =>
        HoldsIt(s, t, lk);
        ReleaseInv(s, t, lk, SchedCall(KExit(lk)));
    }
  }

  lemma ActProc(s: State, p: nat)
    requires Inv(s) && CanAct(s, P(p)) && !s.th[P(p)].pc.Wake? && !s.th[P(p)].pc.WakeRel?
    requires s.th[P(p)].pc.Have? ==> !s.th[P(p)].pc.k.KWake?
    ensures Checks(s, P(p)) && Inv(DoAct(s, P(p)))
  {
    var t := P(p);
    assert ThreadOk(s, t);
    match s.th[t].pc {
      case SleepRel(_, _) => SleepStateInv(s, p);
      case SchedCall(_) =>
        SchedChecks(s, p);
        SwitchOutInv(s, p);
      case Resumed(_, _) => ResumedInv(s, p);
      case AfterSched(k) => AfterSchedInv(s, p);
      case SleepWake(lk) =>
        HoldingIsHeld(s, t, lk);
        PushInv(s, t, Spin(lk, KRun));
      case Fresh =>
        HoldsIt(s, t, PL(p));
        ReleaseInv(s, t, PL(p), Run);
      case _ => ActDown(s, p);
    }
  }

  lemma AfterSchedInv(s: State, p: nat)
    requires Inv(s) && CanAct(s, P(p)) && s.th[P(p)].pc.AfterSched?
    ensures Checks(s, P(p)) && Inv(DoAct(s, P(p)))
  {
    var t, k := P(p), s.th[P(p)].pc.k;
    assert ThreadOk(s, t);
    HoldsIt(s, t, PL(p));
    if k.KSleep? {
      var s1 := s.(chan := s.chan[p := 0]);
      assert ThreadOk(s1, t);
      MoveInv(s, s1, t);
      ReleaseInv(s1, t, PL(p), SleepWake(k.lk));
    } else {
      ReleaseInv(s, t, PL(p), Run);
    }
  }

  lemma ActWake(s: State, t: Thread)
    requires Inv(s) && CanAct(s, t)
    requires s.th[t].pc.Wake? || s.th[t].pc.WakeRel? || (s.th[t].pc.Have? && s.th[t].pc.k.KWake?)
    ensures Checks(s, t) && Inv(DoAct(s, t))
  {
    assert ThreadOk(s, t);
    match s.th[t].pc {
      case Wake(chan, i) =>
        if i == |s.pstate| || t == P(i) {
          WakeSkipInv(s, t);
        } else {
          HoldingIsHeld(s, t, PL(i));
          PushInv(s, t, Spin(PL(i), KWake(chan, i)));
        }
      case Have(_) => WakeHaveInv(s, t);
      case WakeRel(chan, i) =>
        HoldsIt(s, t, PL(i));
        ReleaseInv(s, t, PL(i), Wake(chan, i + 1));
    }
  }

  lemma SchedRelInv(s: State, c: nat)
    requires Inv(s) && CanAct(s, S(c)) && s.th[S(c)].pc.SRel?
    ensures Checks(s, S(c)) && Inv(DoAct(s, S(c)))
  {
    var t, i := S(c), s.th[S(c)].pc.i;
    assert ThreadOk(s, t);
    HoldsIt(s, t, PL(i));
    var next := Idle(if i + 1 < |s.pstate| then i + 1 else 0);
    ReleaseInv(s, t, PL(i), next);
    var s1 := DoRelease(s, t, PL(i), next);
    if i + 1 >= |s.pstate| {
      var s2 := SchedNext(s1, t, true);
      assert ThreadOk(s1, t);
      NoProc(s1, t);
      assert ThreadOk(s2, t);
      MoveInv(s1, s2, t);
    }
  }

  lemma ActSched(s: State, c: nat)
    requires Inv(s) && CanAct(s, S(c)) && !s.th[S(c)].pc.Wake? && !s.th[S(c)].pc.WakeRel?
    requires s.th[S(c)].pc.Have? ==> !s.th[S(c)].pc.k.KWake?
    ensures Checks(s, S(c)) && Inv(DoAct(s, S(c)))
  {
    var t := S(c);
    assert ThreadOk(s, t);
    match s.th[t].pc {
      case Idle(i) =>
        HoldingIsHeld(s, t, PL(i));
        PushInv(s, t, Spin(PL(i), KSched(i)));
      case Have(KSched(i)) =>
        if s.pstate[i] == RUNNABLE {
          ReadyToRun(s, c, i);
          SwitchInInv(s, c, i);
        } else {
          SchedSkipInv(s, c);
        }
      case SBack(_) => BackInv(s, c);
      case SRel(_) => SchedRelInv(s, c);
      case _ => assert false;
    }
  }

  lemma TakeStep(s: State, t: Thread)
    requires Inv(s) && Enabled(s, Take(t))
    ensures Inv(Apply(s, Take(t)))
  {
    assert ThreadOk(s, t);
    var lk, k := s.th[t].pc.lk, s.th[t].pc.k;
    assert Target(t, k) == lk || k.KRun?;
    assert s.th[t].held + {lk} - {lk} == s.th[t].held;
    TakeInv(s, t, AfterTake(k));
  }

  lemma EpisodeInv(s: State, t: Thread, n: nat)
    requires Inv(s) && On(s, t) && s.th[t].pc.Spin?
    ensures Inv(WithTh(s, t, s.th[t].(episode := n)))
  {
    var s' := WithTh(s, t, s.th[t].(episode := n));
    assert ThreadOk(s, t);
    assert ThreadOk(s', t);
    NoProc(s, t);
    MoveInv(s, s', t);
  }

  lemma BeginSleepInv(s: State, p: nat, chan: nat, lk: Lock)
    requires Inv(s) && Enabled(s, BeginSleep(p, chan, lk))
    ensures StepChecks(s, BeginSleep(p, chan, lk)) && Inv(Apply(s, BeginSleep(p, chan, lk)))
  {
    var t := P(p);
    HoldingIsHeld(s, t, PL(p));
    assert ThreadOk(s, t);
    PushInv(s, t, Spin(PL(p), KSleep(chan, lk)));
    EpisodeInv(DoPush(s, t, Spin(PL(p), KSleep(chan, lk))), t, s.th[t].episode + 1);
  }

  lemma ActInv(s: State, t: Thread)
    requires Inv(s) && CanAct(s, t)
    ensures Checks(s, t) && Inv(DoAct(s, t))
  {
    var pc := s.th[t].pc;
    if pc.Wake? || pc.WakeRel? || (pc.Have? && pc.k.KWake?) {
      ActWake(s, t);
    } else if t.P? {
      ActProc(s, t.p);
    } else {
      ActSched(s, t.c);
    }
  }

  /** The steps of ordinary code: locks and push_off. */
  lemma ClientInv(s: State, step: Step)
    requires Inv(s) && Enabled(s, step)
    requires step.PushOff? || step.PopOff? || step.BeginAcquire? || step.Take? || step.Release?
    ensures StepChecks(s, step) && Inv(Apply(s, step))
  {
    assert ThreadOk(s, step.t);
    match step {
      case PushOff(t) => PushInv(s, t, Run);
      case PopOff(t) => PopInv(s, t);
      case BeginAcquire(t, lk) =>
        HoldingIsHeld(s, t, lk);
        PushInv(s, t, Spin(lk, KRun));
      case Take(t) => TakeStep(s, t);
      case Release(t, lk) =>
        HoldsIt(s, t, lk);
        ReleaseInv(s, t, lk, Run);
    }
  }

  /** The calls a process makes to give up the CPU. */
  lemma CallInv(s: State, step: Step)
    requires Inv(s) && Enabled(s, step) && (step.BeginYield? || step.BeginSleep? || step.BeginExit?)
    ensures StepChecks(s, step) && Inv(Apply(s, step))
  {
    var p := step.p;
    assert ThreadOk(s, P(p));
    HoldingIsHeld(s, P(p), PL(p));
    match step {
      case BeginYield(_) => PushInv(s, P(p), Spin(PL(p), KYield));
      case BeginSleep(_, chan, lk) => BeginSleepInv(s, p, chan, lk);
      case BeginExit(_, lk) => PushInv(s, P(p), Spin(PL(p), KExit(lk)));
    }
  }

  /** Every step keeps the invariant, and passes every check the code makes: no panic is reached. */
  lemma StepInv(s: State, step: Step)
    requires Inv(s) && Enabled(s, step)
    ensures StepChecks(s, step) && Inv(Apply(s, step))
  {
    match step {
      case SetIntr(t, on) => SetIntrInv(s, t, on);
      case BeginWakeup(t, chan) => BeginWakeupInv(s, t, chan);
      case SetState(t, q, st) => SetStateInv(s, t, q, st);
      case Act(t) => ActInv(s, t);
      case HandlerIn(t) => HandlerInInv(s, t);
      case HandlerOut(t) => HandlerOutInv(s, t);
      case BeginYield(_) => CallInv(s, step);
      case BeginSleep(_, _, _) => CallInv(s, step);
      case BeginExit(_, _) => CallInv(s, step);
      case _ => ClientInv(s, step);
    }
  }
}
