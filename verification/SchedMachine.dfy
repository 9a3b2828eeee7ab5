/** kernel/proc.c (scheduler, sched, yield, sleep, wakeup) and kernel/spinlock.c as an interleaved machine.
    A thread is a process's kernel thread or a CPU's scheduler; one step is one access to shared state under a
    lock, or one lock operation. `held`, `extra`, `on`, `base`, `episode`, `targets` and `owner` only record
    what has happened; no step consults them except where the caller's duty is meant. */
module SchedMachine {
  datatype Thread = P(p: nat) | S(c: nat)

  /** p->lock, or any other spin lock. */
  datatype Lock = PL(p: nat) | Other(n: nat)

  datatype ProcState = UNUSED | USED | SLEEPING | RUNNABLE | RUNNING | ZOMBIE

  datatype Who = Nobody | Proc(p: nat)

  /** struct cpu, with the interrupt-enable bit and whose code it is running. */
  datatype Cpu = Cpu(proc: Who, noff: nat, intena: bool, sie: bool, cur: Thread)

  /** What an acquire is for. */
  datatype Kont =
    | KRun                                // acquire in ordinary code
    | KYield                              // yield: p->lock
    | KSleep(chan: nat, lk: Lock)         // sleep: p->lock, with lk held
    | KExit(lk: Lock)                     // kexit: p->lock, with wait_lock held
    | KWake(chan: nat, i: nat)            // wakeup: lock of process i
    | KSched(i: nat)                      // scheduler: lock of process i

  datatype Pc =
    | Run                                 // ordinary code, or an interrupt handler
    | Spin(lk: Lock, k: Kont)             // acquire, after push_off
    | Have(k: Kont)                       // the lock is taken
    | SleepRel(chan: nat, lk: Lock)       // sleep, after release(lk)
    | ExitRel(lk: Lock)                   // kexit, after state = ZOMBIE
    | SchedCall(k: Kont)                  // in sched, before swtch
    | Away(k: Kont, saved: bool)          // switched out by sched
    | Resumed(k: Kont, saved: bool)       // in sched, after swtch
    | AfterSched(k: Kont)                 // sched has returned
    | SleepWake(lk: Lock)                 // sleep, before acquire(lk)
    | Dead | NewAway | Fresh              // no thread yet; never run yet; in forkret
    | Wake(chan: nat, i: nat)             // wakeup, at process i
    | WakeRel(chan: nat, i: nat)          // wakeup, before release
    | Idle(i: nat)                        // scheduler, at process i
    | SAway(i: nat)                       // scheduler, process i is running
    | SBack(i: nat)                       // scheduler, after swtch
    | SRel(i: nat)                        // scheduler, before release

  /** A thread: `held` are the locks it has acquired and not released or handed over, `extra` its further
      push_offs, `on` its CPU, `base` the interrupt bit at its outermost push_off, `back` the place
      an interrupt handler returns to (Run if there is none), `episode` the number of its sleep calls, `targets` the
      sleepers its wakeup found. */
  datatype Th = Th(pc: Pc, held: set<Lock>, extra: nat, on: nat, base: bool, back: Pc, episode: nat,
                   targets: map<nat, nat>)

  datatype State = State(cpu: seq<Cpu>, pstate: seq<ProcState>, chan: seq<nat>, locked: map<Lock, nat>,
                         owner: map<Lock, Thread>, th: map<Thread, Th>)

  predicate IsThread(s: State, t: Thread) { if t.P? then t.p < |s.pstate| else t.c < |s.cpu| }

  /** Threads that are on some CPU. */
  predicate Active(th: Th) { !th.pc.Away? && !th.pc.Dead? && !th.pc.NewAway? && !th.pc.SAway? }

  /** t is a thread and its CPU exists: what every step needs to be defined. */
  predicate On(s: State, t: Thread) {
    t in s.th && IsThread(s, t) && Active(s.th[t]) && s.th[t].on < |s.cpu| && s.cpu[s.th[t].on].cur == t
  }

  predicate Depth0(th: Th) { th.held == {} && th.extra == 0 }

  // ---- kernel/spinlock.c

  /** holding(lk), on CPU c. */
  predicate Holding(s: State, c: nat, lk: Lock) { lk in s.locked && s.locked[lk] == c }

  function PushCpu(c: Cpu): Cpu {
    c.(sie := false, intena := if c.noff == 0 then c.sie else c.intena, noff := c.noff + 1)
  }

  function PopCpu(c: Cpu): Cpu
    requires c.noff > 0
  {
    c.(noff := c.noff - 1, sie := c.sie || (c.noff == 1 && c.intena))
  }

  predicate SameSizes(s: State, s': State) {
    |s'.pstate| == |s.pstate| && |s'.chan| == |s.chan| && |s'.cpu| == |s.cpu|
  }

  function WithTh(s: State, t: Thread, th: Th): State { s.(th := s.th[t := th]) }

  function WithCpu(s: State, c: nat, cpu: Cpu): (s': State)
    requires c < |s.cpu|
    ensures SameSizes(s, s')
  {
    s.(cpu := s.cpu[c := cpu])
  }

  /** push_off by t, which goes on at pc. */
  function DoPush(s: State, t: Thread, pc: Pc): (s': State)
    requires On(s, t)
    ensures SameSizes(s, s') && t in s'.th && s'.th == s.th[t := s'.th[t]]
  {
    var th := s.th[t];
    var c := s.cpu[th.on];
    WithTh(WithCpu(s, th.on, PushCpu(c)), t,
           th.(pc := pc, extra := th.extra + 1, base := if c.noff == 0 then c.sie else th.base))
  }

  /** pop_off by t. */
  function DoPop(s: State, t: Thread): (s': State)
    requires On(s, t) && s.th[t].extra > 0 && s.cpu[s.th[t].on].noff > 0
    ensures SameSizes(s, s') && t in s'.th && s'.th == s.th[t := s'.th[t]]
  {
    var th := s.th[t];
    WithTh(WithCpu(s, th.on, PopCpu(s.cpu[th.on])), t, th.(extra := th.extra - 1))
  }

  /** The exchange in acquire succeeds. */
  function DoTake(s: State, t: Thread, lk: Lock, pc: Pc): (s': State)
    requires On(s, t) && s.th[t].extra > 0
    ensures SameSizes(s, s') && t in s'.th && s'.th == s.th[t := s'.th[t]]
  {
    var th := s.th[t];
    WithTh(s, t, th.(pc := pc, held := th.held + {lk}, extra := th.extra - 1))
      .(locked := s.locked[lk := th.on], owner := s.owner[lk := t])
  }

  /** release(lk) by t, which goes on at pc. */
  function DoRelease(s: State, t: Thread, lk: Lock, pc: Pc): (s': State)
    requires On(s, t) && s.cpu[s.th[t].on].noff > 0
    ensures SameSizes(s, s') && t in s'.th && s'.th == s.th[t := s'.th[t]]
  {
    var th := s.th[t];
    WithTh(WithCpu(s, th.on, PopCpu(s.cpu[th.on])), t, th.(pc := pc, held := th.held - {lk}))
      .(locked := s.locked - {lk}, owner := s.owner - {lk})
  }

  function Goto(s: State, t: Thread, pc: Pc): (s': State)
    requires t in s.th
    ensures SameSizes(s, s') && t in s'.th && s'.th == s.th[t := s'.th[t]]
  {
    WithTh(s, t, s.th[t].(pc := pc))
  }

  function SetPstate(s: State, p: nat, st: ProcState): (s': State)
    requires p < |s.pstate|
    ensures SameSizes(s, s')
  {
    s.(pstate := s.pstate[p := st])
  }

  // ---- swtch

  /** sched by P(p) on CPU c: the scheduler of c goes on, and has p->lock now. */
  function DoSwitchOut(s: State, p: nat): (s': State)
    requires On(s, P(p)) && S(s.th[P(p)].on) in s.th && s.th[P(p)].pc.SchedCall?
    ensures SameSizes(s, s')
  {
    var th := s.th[P(p)];
    var c := th.on;
    var sc := s.th[S(c)];
    var s1 := WithTh(s, P(p), th.(pc := Away(th.pc.k, s.cpu[c].intena), held := th.held - {PL(p)}));
    WithCpu(WithTh(s1, S(c), sc.(pc := SBack(p), held := sc.held + {PL(p)})), c, s.cpu[c].(cur := S(c)))
      .(owner := s.owner[PL(p) := S(c)])
  }

  /** The scheduler of CPU c runs process p. */
  function DoSwitchIn(s: State, c: nat, p: nat): (s': State)
    requires On(s, S(c)) && P(p) in s.th && p < |s.pstate| && c < |s.cpu|
    requires s.th[P(p)].pc.Away? || s.th[P(p)].pc.NewAway?
    ensures SameSizes(s, s')
  {
    var sc, th := s.th[S(c)], s.th[P(p)];
    var pc := if th.pc.Away? then Resumed(th.pc.k, th.pc.saved) else Fresh;
    var s1 := WithTh(SetPstate(s, p, RUNNING), S(c), sc.(pc := SAway(p), held := sc.held - {PL(p)}));
    WithCpu(WithTh(s1, P(p), th.(pc := pc, held := th.held + {PL(p)}, on := c)), c,
            s.cpu[c].(cur := P(p), proc := Proc(p)))
      .(owner := s.owner[PL(p) := P(p)])
  }

  // ---- steps

  datatype Step =
    | SetIntr(t: Thread, on: bool)            // trap entry and return, intr_on, intr_off
    | PushOff(t: Thread) | PopOff(t: Thread)
    | BeginAcquire(t: Thread, lk: Lock)
    | Take(t: Thread)
    | Release(t: Thread, lk: Lock)
    | BeginYield(p: nat)
    | BeginSleep(p: nat, chan: nat, lk: Lock)
    | BeginExit(p: nat, lk: Lock)
    | BeginWakeup(t: Thread, chan: nat)
    | SetState(t: Thread, q: nat, st: ProcState)   // allocproc, kfork, freeproc, kkill, under q->lock
    | Act(t: Thread)                               // the one next step of sleep, yield, kexit, wakeup, scheduler
    | HandlerIn(t: Thread) | HandlerOut(t: Thread) // an interrupt outside ordinary code

  /** Who sleeps on chan, past the release of the caller's lock and not woken yet. */
  predicate Asleep(s: State, q: nat, chan: nat) {
    && P(q) in s.th && q < |s.pstate|
    && match s.th[P(q)].pc
       case SleepRel(c, _) => c == chan
       case SchedCall(KSleep(c, _)) => c == chan
       case Away(KSleep(c, _), _) => c == chan && s.pstate[q] == SLEEPING
       case _ => false
  }

  ghost function Snapshot(s: State, chan: nat): map<nat, nat> {
    map q | 0 <= q < |s.pstate| && Asleep(s, q, chan) :: s.th[P(q)].episode
  }

  /** State changes of another process made under its lock: allocproc, failure and kfork, kwait, kkill. */
  predicate MaySet(from: ProcState, to: ProcState) {
    || (from == UNUSED && to == USED) || (from == USED && (to == UNUSED || to == RUNNABLE))
    || (from == ZOMBIE && to == UNUSED) || (from == SLEEPING && to == RUNNABLE)
  }

  /** The thread of q after such a change. */
  function ThreadAfter(pc: Pc, from: ProcState, to: ProcState): Pc {
    if from == USED && to == RUNNABLE then NewAway else if from == ZOMBIE then Dead else pc
  }

  /** Where the code goes on when the lock is taken. */
  function AfterTake(k: Kont): Pc { if k.KRun? then Run else Have(k) }

  predicate CanAct(s: State, t: Thread) {
    On(s, t) && var th := s.th[t];
    match th.pc
    case Have(KYield) => t.P?
    case Have(KSleep(_, _)) => t.P?
    case SleepRel(_, _) => t.P? && t.p < |s.chan|
    case Have(KExit(_)) => t.P?
    case ExitRel(_) => t.P?
    case SchedCall(_) => t.P? && S(th.on) in s.th
    case Resumed(_, _) => true
    case AfterSched(_) => t.P? && t.p < |s.chan|
    case SleepWake(_) => true
    case Fresh => t.P?
    case Wake(_, i) => i <= |s.pstate|
    case Have(KWake(_, i)) => i < |s.pstate| && i < |s.chan|
    case WakeRel(_, _) => true
    case Idle(i) => t.S?
    case Have(KSched(i)) => t.S? && i < |s.pstate| && P(i) in s.th
    case SBack(_) => t.S?
    case SRel(_) => t.S?
    case _ => false
  }

  /** The checks the code makes at this point: a false one is a panic. */
  predicate Checks(s: State, t: Thread)
    requires CanAct(s, t)
  {
    var th := s.th[t];
    var c := s.cpu[th.on];
    var rel := (lk: Lock) => Holding(s, th.on, lk) && c.noff > 0 && !c.sie;
    match th.pc
    case Have(KSleep(_, lk)) => rel(lk)
    case ExitRel(lk) => rel(lk)
    case SchedCall(_) => Holding(s, th.on, PL(t.p)) && c.noff == 1 && s.pstate[t.p] != RUNNING && !c.sie
    case AfterSched(k) => !k.KExit? && rel(PL(t.p))
    case SleepWake(lk) => !Holding(s, th.on, lk)
    case Fresh => rel(PL(t.p))
    case Wake(_, i) => i < |s.pstate| && t != P(i) ==> !Holding(s, th.on, PL(i))
    case WakeRel(_, i) => rel(PL(i))
    case Idle(i) => !Holding(s, th.on, PL(i))
    case Have(KSched(i)) => s.pstate[i] == RUNNABLE ==> s.th[P(i)].pc.Away? || s.th[P(i)].pc.NewAway?
    case SRel(i) => rel(PL(i))
    case _ => true
  }

  function DoAct(s: State, t: Thread): (s': State)
    requires CanAct(s, t) && Checks(s, t)
    ensures SameSizes(s, s')
    ensures !s.th[t].pc.SchedCall? && !(s.th[t].pc.Have? && s.th[t].pc.k.KSched?) ==>
              t in s'.th && s'.th == s.th[t := s'.th[t]]
  {
    var th := s.th[t];
    match th.pc
    case Have(KYield) => Goto(SetPstate(s, t.p, RUNNABLE), t, SchedCall(KYield))
    case Have(KSleep(chan, lk)) => DoRelease(s, t, lk, SleepRel(chan, lk))
    case SleepRel(chan, lk) =>
      Goto(SetPstate(s, t.p, SLEEPING), t, SchedCall(KSleep(chan, lk))).(chan := s.chan[t.p := chan])
    case Have(KExit(lk)) => Goto(SetPstate(s, t.p, ZOMBIE), t, ExitRel(lk))
    case ExitRel(lk) => DoRelease(s, t, lk, SchedCall(KExit(lk)))
    case SchedCall(_) => DoSwitchOut(s, t.p)
    case Resumed(k, saved) => Goto(WithCpu(s, th.on, s.cpu[th.on].(intena := saved)), t, AfterSched(k))
    case AfterSched(k) =>
      if k.KSleep? then DoRelease(s.(chan := s.chan[t.p := 0]), t, PL(t.p), SleepWake(k.lk))
      else DoRelease(s, t, PL(t.p), Run)
    case SleepWake(lk) => DoPush(s, t, Spin(lk, KRun))
    case Fresh => DoRelease(s, t, PL(t.p), Run)
    case Wake(chan, i) =>
      if i == |s.pstate| then Goto(s, t, Run)
      else if t == P(i) then Goto(s, t, Wake(chan, i + 1))
      else DoPush(s, t, Spin(PL(i), KWake(chan, i)))
    case Have(KWake(chan, i)) =>
      var s1 := if s.pstate[i] == SLEEPING && s.chan[i] == chan then SetPstate(s, i, RUNNABLE) else s;
      Goto(s1, t, WakeRel(chan, i))
    case WakeRel(chan, i) => DoRelease(s, t, PL(i), Wake(chan, i + 1))
    case Idle(i) => DoPush(s, t, Spin(PL(i), KSched(i)))
    case Have(KSched(i)) =>
      if s.pstate[i] == RUNNABLE then DoSwitchIn(s, t.c, i) else Goto(s, t, SRel(i))
    case SBack(i) => Goto(WithCpu(s, th.on, s.cpu[th.on].(proc := Nobody)), t, SRel(i))
    case SRel(i) =>
      SchedNext(DoRelease(s, t, PL(i), Idle(if i + 1 < |s.pstate| then i + 1 else 0)), t, i + 1 >= |s.pstate|)
    case _ => s
  }

  /** intr_on at the start of each round. */
  function SchedNext(s: State, t: Thread, round: bool): (s': State)
    requires t in s.th && s.th[t].on < |s.cpu|
    ensures SameSizes(s, s') && s'.th == s.th
  {
    if round then WithCpu(s, s.th[t].on, s.cpu[s.th[t].on].(sie := true)) else s
  }

  predicate Enabled(s: State, step: Step) {
    match step
    case SetIntr(t, _) => On(s, t) && s.th[t].pc.Run? && Depth0(s.th[t])
    case PushOff(t) => On(s, t) && s.th[t].pc.Run?
    case PopOff(t) => On(s, t) && s.th[t].pc.Run? && s.th[t].extra > 0
    case BeginAcquire(t, lk) => On(s, t) && s.th[t].pc.Run? && lk !in s.th[t].held && (lk.PL? ==> lk.p < |s.pstate|)
    case Take(t) => On(s, t) && s.th[t].pc.Spin? && s.th[t].pc.lk !in s.locked && s.th[t].extra > 0
    case Release(t, lk) => On(s, t) && s.th[t].pc.Run? && lk in s.th[t].held
    case BeginYield(p) => On(s, P(p)) && s.th[P(p)].pc.Run? && Depth0(s.th[P(p)])
    case BeginSleep(p, _, lk) =>
      On(s, P(p)) && s.th[P(p)].pc.Run? && lk.Other? && s.th[P(p)].held == {lk} && s.th[P(p)].extra == 0
    case BeginExit(p, lk) =>
      On(s, P(p)) && s.th[P(p)].pc.Run? && lk.Other? && s.th[P(p)].held == {lk} && s.th[P(p)].extra == 0
    case BeginWakeup(t, _) =>
      On(s, t) && s.th[t].pc.Run? && !s.cpu[s.th[t].on].sie && forall lk :: lk in s.th[t].held ==> lk.Other?
    case SetState(t, q, st) =>
      && On(s, t) && s.th[t].pc.Run? && PL(q) in s.th[t].held && q < |s.pstate| && t != P(q) && P(q) in s.th
      && MaySet(s.pstate[q], st)
    case Act(t) => CanAct(s, t)
    case HandlerIn(t) =>
      On(s, t) && (s.th[t].pc.Idle? || s.th[t].pc.SleepWake?) && s.th[t].back.Run? && s.cpu[s.th[t].on].sie
    case HandlerOut(t) => On(s, t) && s.th[t].pc.Run? && Depth0(s.th[t]) && !s.th[t].back.Run?
  }

  /** The checks of spinlock.c in ordinary code that keeps to the discipline of Enabled. */
  predicate StepChecks(s: State, step: Step)
    requires Enabled(s, step)
  {
    match step
    case PopOff(t) => s.cpu[s.th[t].on].noff > 0 && !s.cpu[s.th[t].on].sie
    case BeginAcquire(t, lk) => !Holding(s, s.th[t].on, lk)
    case Release(t, lk) => Holding(s, s.th[t].on, lk) && s.cpu[s.th[t].on].noff > 0 && !s.cpu[s.th[t].on].sie
    case BeginYield(p) => !Holding(s, s.th[P(p)].on, PL(p))
    case BeginSleep(p, _, _) => !Holding(s, s.th[P(p)].on, PL(p))
    case BeginExit(p, _) => !Holding(s, s.th[P(p)].on, PL(p))
    case Act(t) => Checks(s, t)
    case _ => true
  }

  ghost function Apply(s: State, step: Step): (s': State)
    requires Enabled(s, step) && StepChecks(s, step)
    ensures SameSizes(s, s')
  {
    match step
    case SetIntr(t, on) => WithCpu(s, s.th[t].on, s.cpu[s.th[t].on].(sie := on))
    case PushOff(t) => DoPush(s, t, Run)
    case PopOff(t) => DoPop(s, t)
    case BeginAcquire(t, lk) => DoPush(s, t, Spin(lk, KRun))
    case Take(t) => DoTake(s, t, s.th[t].pc.lk, AfterTake(s.th[t].pc.k))
    case Release(t, lk) => DoRelease(s, t, lk, Run)
    case BeginYield(p) => DoPush(s, P(p), Spin(PL(p), KYield))
    case BeginSleep(p, chan, lk) =>
      var s1 := DoPush(s, P(p), Spin(PL(p), KSleep(chan, lk)));
      WithTh(s1, P(p), s1.th[P(p)].(episode := s.th[P(p)].episode + 1))
    case BeginExit(p, lk) => DoPush(s, P(p), Spin(PL(p), KExit(lk)))
    case BeginWakeup(t, chan) => WithTh(s, t, s.th[t].(pc := Wake(chan, 0), targets := Snapshot(s, chan)))
    case SetState(t, q, st) => Goto(SetPstate(s, q, st), P(q), ThreadAfter(s.th[P(q)].pc, s.pstate[q], st))
    case Act(t) => DoAct(s, t)
    case HandlerIn(t) =>
      WithTh(WithCpu(s, s.th[t].on, s.cpu[s.th[t].on].(sie := false)), t, s.th[t].(pc := Run, back := s.th[t].pc))
    case HandlerOut(t) =>
      WithTh(WithCpu(s, s.th[t].on, s.cpu[s.th[t].on].(sie := true)), t, s.th[t].(pc := s.th[t].back, back := Run))
  }
}
