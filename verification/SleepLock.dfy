/** kernel/sleeplock.c as an interleaved machine: any number of processes call acquiresleep, releasesleep and
    holdingsleep on one lock, whose fields are guarded by the spin lock inside it. Going to sleep with that lock and
    being woken are single steps, which is what SchedTheorems.WakesAll justifies. */
module SleepLock {
  import opened Options

  /** Where a process is. `mine` says whether it had the sleep lock when it called holdingsleep. */
  datatype Pc =
    | Out | In                         // outside any call, without and with the sleep lock
    | Enter | Test | Asleep | Got      // acquiresleep: waiting for the spin lock, at the while, asleep, lock taken
    | Leave | Clear | Wake | Done      // releasesleep: waiting, about to clear, about to call wakeup, after it
    | Ask(mine: bool) | Read(mine: bool)   // holdingsleep: waiting, about to read

  /** The spin lock's holder, the two fields, and the processes by their pids. */
  datatype State = State(spin: Option<nat>, locked: bool, pid: nat, pc: map<nat, Pc>)

  /** A call made by p, the spin lock acquired by p, or the next statement of p under it. */
  datatype Step = Call(p: nat, pc: Pc) | Take(p: nat) | Act(p: nat)

  predicate HasSpin(pc: Pc) { pc.Test? || pc.Got? || pc.Clear? || pc.Wake? || pc.Done? || pc.Read? }

  /** In possession of the sleep lock: releasesleep is for its holder only. */
  predicate Owns(pc: Pc) {
    pc.Got? || pc.In? || pc.Leave? || pc.Clear? || (pc.Ask? && pc.mine) || (pc.Read? && pc.mine)
  }

  predicate Enabled(s: State, step: Step) {
    && step.p in s.pc
    && match step
       case Call(p, pc) =>
         if s.pc[p].Out? then pc.Enter? || pc == Ask(false) else s.pc[p].In? && (pc.Leave? || pc == Ask(true))
       case Take(p) => s.spin == None && (s.pc[p].Enter? || s.pc[p].Leave? || s.pc[p].Ask?)
       case Act(p) => HasSpin(s.pc[p])
  }

  function Goto(s: State, p: nat, pc: Pc): State { s.(pc := s.pc[p := pc]) }

  /** wakeup(lk): every sleeper goes back to acquire the spin lock. */
  function WakeAll(pcs: map<nat, Pc>): map<nat, Pc> { map p | p in pcs :: if pcs[p].Asleep? then Enter else pcs[p] }

  function Apply(s: State, step: Step): State
    requires Enabled(s, step)
  {
    var p := step.p;
    match step
    case Call(_, pc) => Goto(s, p, pc)
    case Take(_) =>
      var pc := if s.pc[p].Enter? then Test else if s.pc[p].Leave? then Clear else Read(s.pc[p].mine);
      Goto(s, p, pc).(spin := Some(p))
    case Act(_) =>
      match s.pc[p]
      case Test => if s.locked then Goto(s, p, Asleep).(spin := None) else Goto(s, p, Got).(locked := true, pid := p)
      case Got => Goto(s, p, In).(spin := None)
      case Clear => Goto(s, p, Wake).(locked := false, pid := 0)
      case Wake => Goto(s.(pc := WakeAll(s.pc)), p, Done)
      case Done => Goto(s, p, Out).(spin := None)
      case _ => Goto(s, p, if s.pc[p].mine then In else Out).(spin := None)
  }

  // ---- the invariant

  /** The spin lock's holder is where it is held; the fields name the one owner; a sleeper waits for a lock that is
      taken, or is about to be woken. */
  ghost predicate ProcOk(s: State, p: nat) {
    p in s.pc ==>
      && (HasSpin(s.pc[p]) <==> s.spin == Some(p))
      && (Owns(s.pc[p]) <==> s.locked && s.pid == p)
      && (s.pc[p].Asleep? ==> s.locked || (s.spin.Some? && s.spin.value in s.pc && s.pc[s.spin.value].Wake?))
  }

  ghost predicate Inv(s: State) {
    && (forall p {:trigger ProcOk(s, p)} :: ProcOk(s, p))
    && (s.locked ==> s.pid in s.pc) && (s.spin.Some? ==> s.spin.value in s.pc)
  }

  lemma StepProc(s: State, step: Step, p: nat)
    requires Inv(s) && Enabled(s, step)
    ensures ProcOk(Apply(s, step), p)
  {
    assert ProcOk(s, p) && ProcOk(s, step.p);
    if s.locked { assert ProcOk(s, s.pid); }
    if s.spin.Some? { assert ProcOk(s, s.spin.value); }
  }

  /** Every step keeps the invariant. */
  lemma StepInv(s: State, step: Step)
    requires Inv(s) && Enabled(s, step)
    ensures Inv(Apply(s, step))
  {
    var s' := Apply(s, step);
    forall p: nat ensures ProcOk(s', p) { StepProc(s, step, p); }
  }

  // ---- runs

  ghost predicate Init(s: State) { s.spin == None && !s.locked && forall p :: p in s.pc ==> s.pc[p].Out? }

  ghost predicate Next(s: State, step: Step, s': State) { Enabled(s, step) && s' == Apply(s, step) }

  ghost predicate IsRun(ss: seq<State>, st: seq<Step>) {
    |ss| == |st| + 1 && Init(ss[0]) && forall i :: 0 <= i < |st| ==> Next(ss[i], st[i], ss[i + 1])
  }

  lemma {:induction false} RunInv(ss: seq<State>, st: seq<Step>, i: nat)
    requires IsRun(ss, st) && i < |ss|
    ensures Inv(ss[i])
  {
    if i > 0 {
      RunInv(ss, st, i - 1);
      assert Next(ss[i - 1], st[i - 1], ss[i]);
      StepInv(ss[i - 1], st[i - 1]);
    }
  }

  /** In every run: no two processes have the lock; what holdingsleep returns is whether the caller has it; and
      nobody sleeps on a lock that is free. */
  lemma MutualExclusion(ss: seq<State>, st: seq<Step>, i: nat, p: nat, q: nat)
    requires IsRun(ss, st) && i < |ss| && p in ss[i].pc && q in ss[i].pc
    ensures Owns(ss[i].pc[p]) && Owns(ss[i].pc[q]) ==> p == q
    ensures ss[i].pc[p].Read? ==> (ss[i].locked && ss[i].pid == p <==> ss[i].pc[p].mine)
    ensures ss[i].spin == None && !ss[i].locked ==> !ss[i].pc[p].Asleep?
  {
    RunInv(ss, st, i);
    assert ProcOk(ss[i], p) && ProcOk(ss[i], q);
  }
}
