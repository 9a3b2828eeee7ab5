/** The exit and wait protocol of kernel/proc.c (kfork, reparent, kexit, kwait) as an interleaved machine. Going
    to sleep with wait_lock and being woken are single steps, which is what SchedTheorems.WakesAll justifies. */
module WaitMachine {
  import opened Options

  /** Life of a process table entry. Waiting: asleep in kwait. */
  datatype Life = Unused | Used | Alive | Waiting | Zombie

  /** Where a process's code is. */
  datatype Pc =
    | Run
    | Fork1(np: nat)              // kfork: np allocated, its lock released
    | Fork2(np: nat)              // wait_lock held
    | Fork3(np: nat)              // parent set, wait_lock released
    | Exit1                       // kexit: before acquire(&wait_lock)
    | Exit2(i: nat)               // reparent, at entry i
    | Exit3(i: nat)               // reparent: entry i handed over, before wakeup(initproc)
    | Exit4                       // before wakeup(p->parent)
    | Exit5                       // before state = ZOMBIE
    | Exit6                       // before release(&wait_lock)
    | Gone                        // in sched, not coming back
    | Wait1                       // kwait: before acquire(&wait_lock)
    | Wait2(i: nat, kids: bool)   // scanning, at entry i
    | Wait3                       // asleep, or woken and not yet at acquire
    | Wait4                       // before a release(&wait_lock) that ends kwait

  /** Process 0 is initproc. `born` numbers processes in the order they were forked; `exits` and `reaps` count, for
      each entry, how often a process in it has exited and been reaped. */
  datatype State = State(life: seq<Life>, parent: seq<Option<nat>>, pc: seq<Pc>, lock: Option<nat>,
                         born: seq<nat>, clock: nat,
                         exits: seq<nat>, reaps: seq<nat>)

  const INIT: nat := 0

  datatype Step =
    | ForkAlloc(p: nat, np: nat)      // allocproc
    | ForkFail(p: nat)                // uvmcopy failed: freeproc
    | ForkLock(p: nat) | ForkParent(p: nat) | ForkRun(p: nat)
    | ExitBegin(p: nat) | ExitLock(p: nat) | ExitScan(p: nat) | ExitWakeInit(p: nat) | ExitWakeParent(p: nat)
    | ExitZombie(p: nat) | ExitUnlock(p: nat)
    | WaitBegin(p: nat) | WaitLock(p: nat) | WaitScan(p: nat) | WaitReap(p: nat) | WaitFail(p: nat)
    | WaitEnd(p: nat, killed: bool) | WaitReturn(p: nat)
    | Wake(q: nat)                    // kkill

  predicate Sized(s: State) {
    && |s.life| > 0 && |s.parent| == |s.life| && |s.pc| == |s.life| && |s.born| == |s.life|
    && |s.exits| == |s.life| && |s.reaps| == |s.life|
  }

  predicate At(s: State, p: nat) { Sized(s) && p < |s.life| && s.life[p] == Alive }

  predicate Locked(s: State, p: nat) { s.lock == Some(p) }

  predicate Enabled(s: State, step: Step) {
    match step
    case ForkAlloc(p, np) => At(s, p) && s.pc[p].Run? && np < |s.life| && s.life[np] == Unused
    case ForkFail(p) => At(s, p) && s.pc[p].Fork1? && s.pc[p].np < |s.life|
    case ForkLock(p) => At(s, p) && s.pc[p].Fork1? && s.lock == None
    case ForkParent(p) => At(s, p) && s.pc[p].Fork2? && s.pc[p].np < |s.life|
    case ForkRun(p) => At(s, p) && s.pc[p].Fork3? && s.pc[p].np < |s.life|
    case ExitBegin(p) => At(s, p) && s.pc[p].Run? && p != INIT          // "init exiting"
    case ExitLock(p) => At(s, p) && s.pc[p].Exit1? && s.lock == None
    case ExitScan(p) => At(s, p) && s.pc[p].Exit2?
    case ExitWakeInit(p) => At(s, p) && s.pc[p].Exit3?
    case ExitWakeParent(p) => At(s, p) && s.pc[p].Exit4?
    case ExitZombie(p) => At(s, p) && s.pc[p].Exit5?
    case ExitUnlock(p) => Sized(s) && p < |s.life| && s.pc[p].Exit6?
    case WaitBegin(p) => At(s, p) && s.pc[p].Run?
    case WaitLock(p) => At(s, p) && (s.pc[p].Wait1? || s.pc[p].Wait3?) && s.lock == None
    case WaitScan(p) =>
      && At(s, p) && s.pc[p].Wait2? && s.pc[p].i < |s.life|
      && !(s.parent[s.pc[p].i] == Some(p) && s.life[s.pc[p].i] == Zombie)
    case WaitReap(p) =>
      && At(s, p) && s.pc[p].Wait2? && s.pc[p].i < |s.life|
      && s.parent[s.pc[p].i] == Some(p) && s.life[s.pc[p].i] == Zombie && s.pc[s.pc[p].i].Gone?
    case WaitFail(p) =>                                                  // copyout failed
      && At(s, p) && s.pc[p].Wait2? && s.pc[p].i < |s.life|
      && s.parent[s.pc[p].i] == Some(p) && s.life[s.pc[p].i] == Zombie
    case WaitEnd(p, _) => At(s, p) && s.pc[p].Wait2? && s.pc[p].i == |s.life|
    case WaitReturn(p) => At(s, p) && s.pc[p].Wait4?
    case Wake(q) => Sized(s) && q < |s.life| && s.life[q] == Waiting
  }

  function Goto(s: State, p: nat, pc: Pc): State
    requires p < |s.pc|
  {
    s.(pc := s.pc[p := pc])
  }

  function SetLife(s: State, p: nat, l: Life): State
    requires p < |s.life|
  {
    s.(life := s.life[p := l])
  }

  /** wakeup(p): p's own address is the channel only p sleeps on, in kwait. */
  function Wakeup(s: State, p: nat): State
    requires p < |s.life|
  {
    if s.life[p] == Waiting then SetLife(s, p, Alive) else s
  }

  function Apply(s: State, step: Step): State
    requires Enabled(s, step)
  {
    match step
    case ForkAlloc(p, np) => Goto(SetLife(s, np, Used), p, Fork1(np))
    case ForkFail(p) => Goto(SetLife(s, s.pc[p].np, Unused), p, Run)
    case ForkLock(p) => Goto(s, p, Fork2(s.pc[p].np)).(lock := Some(p))
    case ForkParent(p) =>
      Goto(s, p, Fork3(s.pc[p].np))
        .(lock := None, parent := s.parent[s.pc[p].np := Some(p)], born := s.born[s.pc[p].np := s.clock],
          clock := s.clock + 1)
    case ForkRun(p) => Goto(Goto(SetLife(s, s.pc[p].np, Alive), s.pc[p].np, Run), p, Run)
    case ExitBegin(p) => Goto(s, p, Exit1)
    case ExitLock(p) => Goto(s, p, Exit2(0)).(lock := Some(p))
    case ExitScan(p) =>
      var i := s.pc[p].i;
      if i >= |s.life| then Goto(s, p, Exit4)
      else if s.parent[i] == Some(p) then Goto(s, p, Exit3(i)).(parent := s.parent[i := Some(INIT)])
      else Goto(s, p, Exit2(i + 1))
    case ExitWakeInit(p) => Goto(Wakeup(s, INIT), p, Exit2(s.pc[p].i + 1))
    case ExitWakeParent(p) =>
      var s1 := if s.parent[p].Some? && s.parent[p].value < |s.life| then Wakeup(s, s.parent[p].value) else s;
      Goto(s1, p, Exit5)
    case ExitZombie(p) => Goto(SetLife(s, p, Zombie), p, Exit6).(exits := s.exits[p := s.exits[p] + 1])
    case ExitUnlock(p) => Goto(s, p, Gone).(lock := None)
    case WaitBegin(p) => Goto(s, p, Wait1)
    case WaitLock(p) => Goto(s, p, Wait2(0, false)).(lock := Some(p))
    case WaitScan(p) => Goto(s, p, Wait2(s.pc[p].i + 1, s.pc[p].kids || s.parent[s.pc[p].i] == Some(p)))
    case WaitReap(p) =>
      var i := s.pc[p].i;
      Goto(SetLife(s, i, Unused), p, Wait4).(parent := s.parent[i := None], reaps := s.reaps[i := s.reaps[i] + 1])
    case WaitFail(p) => Goto(s, p, Wait4)
    case WaitEnd(p, killed) =>
      if !s.pc[p].kids || killed then Goto(s, p, Wait4)
      else Goto(SetLife(s, p, Waiting), p, Wait3).(lock := None)
    case WaitReturn(p) => Goto(s, p, Run).(lock := None)
    case Wake(q) => SetLife(s, q, Alive)
  }
}
