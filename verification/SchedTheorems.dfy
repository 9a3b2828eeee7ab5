/** What holds in every run of the scheduler machine. */
module SchedTheorems {
  import opened SchedMachine
  import opened SchedInvariant

  // ---- sleepers found by a wakeup

  predicate Waking(pc: Pc) {
    match pc
    case Wake(_, _) => true
    case WakeRel(_, _) => true
    case Spin(_, k) => k.KWake?
    case Have(k) => k.KWake?
    case _ => false
  }

  function WakeChan(pc: Pc): nat
    requires Waking(pc)
  {
    match pc case Wake(c, _) => c case WakeRel(c, _) => c case Spin(_, k) => k.chan case Have(k) => k.chan
  }

  /** The processes before this one have been seen to. */
  function WakeNext(pc: Pc): nat
    requires Waking(pc)
  {
    match pc case Wake(_, i) => i case WakeRel(_, i) => i + 1 case Spin(_, k) => k.i case Have(k) => k.i
  }

  /** Not in the part of sleep before the release of the caller's lock. */
  predicate Past(pc: Pc) {
    match pc
    case Spin(_, k) => !k.KSleep?
    case Have(k) => !k.KSleep?
    case _ => true
  }

  /** What is known of a sleeper q found at the start of t's wakeup. */
  ghost predicate TargetOk(s: State, t: Thread, q: nat) {
    t in s.th && Waking(s.th[t].pc) && q in s.th[t].targets ==>
      && q < |s.pstate| && P(q) in s.th && P(q) != t && s.th[P(q)].episode >= s.th[t].targets[q]
      && (s.th[P(q)].episode == s.th[t].targets[q] ==>
            && Past(s.th[P(q)].pc)
            && (q < WakeNext(s.th[t].pc) ==> !Asleep(s, q, WakeChan(s.th[t].pc))))
  }

  ghost predicate Targets(s: State) {
    forall t, q {:trigger TargetOk(s, t, q)} :: TargetOk(s, t, q)
  }

  /** Past the release, a process stays past it, and once woken stays awake, until it calls sleep again. */
  ghost predicate SleepMono(s: State, s': State, q: nat, chan: nat)
    requires P(q) in s.th && P(q) in s'.th
  {
    && s'.th[P(q)].episode >= s.th[P(q)].episode
    && (s'.th[P(q)].episode == s.th[P(q)].episode && Past(s.th[P(q)].pc) ==>
          Past(s'.th[P(q)].pc) && (Asleep(s', q, chan) ==> Asleep(s, q, chan)))
  }

  /** A step of another thread does not put q to sleep. */
  lemma OthersMono(s: State, t: Thread, q: nat, chan: nat)
    requires CanAct(s, t) && Checks(s, t) && P(q) in s.th && t != P(q) && q < |s.pstate|
    ensures P(q) in DoAct(s, t).th && SleepMono(s, DoAct(s, t), q, chan)
  {
    var s' := DoAct(s, t);
    if s.th[t].pc.SchedCall? { assert t.P?; }
  }

  /** Code of a process that sets its own state. */
  predicate SetsState(pc: Pc) { pc.SleepRel? || pc.SchedCall? || pc.AfterSched? || pc.Have? }

  lemma SelfSets(s: State, q: nat, chan: nat)
    requires CanAct(s, P(q)) && Checks(s, P(q)) && SetsState(s.th[P(q)].pc)
    ensures P(q) in DoAct(s, P(q)).th && SleepMono(s, DoAct(s, P(q)), q, chan)
  {
  }

  lemma SelfElse(s: State, q: nat, chan: nat)
    requires CanAct(s, P(q)) && Checks(s, P(q)) && !SetsState(s.th[P(q)].pc)
    ensures P(q) in DoAct(s, P(q)).th && SleepMono(s, DoAct(s, P(q)), q, chan)
  {
  }

  lemma SelfMono(s: State, q: nat, chan: nat)
    requires CanAct(s, P(q)) && Checks(s, P(q))
    ensures P(q) in DoAct(s, P(q)).th && SleepMono(s, DoAct(s, P(q)), q, chan)
  {
    if SetsState(s.th[P(q)].pc) { SelfSets(s, q, chan); } else { SelfElse(s, q, chan); }
  }

  lemma StepMono(s: State, step: Step, q: nat, chan: nat)
    requires Enabled(s, step) && StepChecks(s, step) && P(q) in s.th && q < |s.pstate|
    requires step.HandlerOut? ==> s.th[step.t].back.Idle? || s.th[step.t].back.SleepWake?
    ensures P(q) in Apply(s, step).th && SleepMono(s, Apply(s, step), q, chan)
  {
    if step.Act? {
      if step.t == P(q) { SelfMono(s, q, chan); } else { OthersMono(s, step.t, q, chan); }
    }
  }

  /** A wakeup in progress goes on looking for the same sleepers. */
  ghost predicate WakeKept(s: State, s': State, t: Thread)
    requires t in s.th && t in s'.th
  {
    Waking(s'.th[t].pc) ==>
      && Waking(s.th[t].pc) && s'.th[t].targets == s.th[t].targets
      && WakeChan(s'.th[t].pc) == WakeChan(s.th[t].pc)
      && (|| WakeNext(s'.th[t].pc) == WakeNext(s.th[t].pc)
          || (WakeNext(s'.th[t].pc) == WakeNext(s.th[t].pc) + 1 && t == P(WakeNext(s.th[t].pc)))
          || (WakeNext(s'.th[t].pc) == WakeNext(s.th[t].pc) + 1 && s.th[t].pc.Have?))
  }

  /** What a step does to other threads: at most a switch. */
  lemma ActElse(s: State, u: Thread, t: Thread)
    requires CanAct(s, u) && Checks(s, u) && t in s.th && u != t
    ensures t in DoAct(s, u).th
    ensures var th := DoAct(s, u).th[t];
            th == s.th[t] || (!Waking(th.pc) && (th.pc.SBack? || s.th[t].pc.Away? || s.th[t].pc.NewAway?))
  {
  }

  lemma WakeActKept(s: State, t: Thread)
    requires CanAct(s, t) && Checks(s, t) && Waking(s.th[t].pc)
    ensures t in DoAct(s, t).th && WakeKept(s, DoAct(s, t), t)
  {
  }

  lemma NoWakeSched(s: State, t: Thread)
    requires CanAct(s, t) && Checks(s, t) && t.S? && !Waking(s.th[t].pc)
    ensures t in DoAct(s, t).th && !Waking(DoAct(s, t).th[t].pc)
  {
  }

  lemma NoWakeHave(s: State, t: Thread)
    requires CanAct(s, t) && Checks(s, t) && t.P? && s.th[t].pc.Have? && !Waking(s.th[t].pc)
    ensures t in DoAct(s, t).th && !Waking(DoAct(s, t).th[t].pc)
  {
  }

  lemma NoWakeOther(s: State, t: Thread)
    requires CanAct(s, t) && Checks(s, t) && t.P? && !s.th[t].pc.Have? && !Waking(s.th[t].pc)
    ensures t in DoAct(s, t).th && !Waking(DoAct(s, t).th[t].pc)
  {
  }

  lemma NoWakeAct(s: State, t: Thread)
    requires CanAct(s, t) && Checks(s, t) && !Waking(s.th[t].pc)
    ensures t in DoAct(s, t).th && !Waking(DoAct(s, t).th[t].pc)
  {
    if t.S? { NoWakeSched(s, t); } else if s.th[t].pc.Have? { NoWakeHave(s, t); } else { NoWakeOther(s, t); }
  }

  lemma ActWakeKept(s: State, t: Thread)
    requires CanAct(s, t) && Checks(s, t)
    ensures t in DoAct(s, t).th && WakeKept(s, DoAct(s, t), t)
  {
    if Waking(s.th[t].pc) { WakeActKept(s, t); } else { NoWakeAct(s, t); }
  }

  lemma StepWakeKept(s: State, step: Step, t: Thread)
    requires Enabled(s, step) && StepChecks(s, step) && t in s.th && !(step.BeginWakeup? && step.t == t)
    requires step.HandlerOut? ==> !Waking(s.th[step.t].back)
    requires step.SetState? ==> !Waking(s.th[P(step.q)].pc)
    ensures t in Apply(s, step).th && WakeKept(s, Apply(s, step), t)
  {
    if step.Act? {
      if step.t == t { ActWakeKept(s, t); } else { ActElse(s, step.t, t); }
    }
  }

  /** When wakeup has the sleeper's lock, the sleeper is switched out, and is woken. */
  lemma WokenNow(s: State, t: Thread)
    requires Inv(s) && CanAct(s, t) && Checks(s, t) && s.th[t].pc.Have? && s.th[t].pc.k.KWake?
    ensures !Asleep(DoAct(s, t), s.th[t].pc.k.i, s.th[t].pc.k.chan)
  {
    var i := s.th[t].pc.k.i;
    assert ThreadOk(s, t) && P(i) in s.th;
    NotBusy(s, t, i);
    assert ThreadOk(s, P(i));
  }

  lemma FirstTargets(s: State, t: Thread, chan: nat, q: nat)
    requires Inv(s) && Enabled(s, BeginWakeup(t, chan))
    ensures TargetOk(Apply(s, BeginWakeup(t, chan)), t, q)
  {
  }

  lemma InvWakeKept(s: State, step: Step, t: Thread)
    requires Inv(s) && Enabled(s, step) && StepChecks(s, step) && t in s.th && !(step.BeginWakeup? && step.t == t)
    ensures t in Apply(s, step).th && WakeKept(s, Apply(s, step), t)
  {
    if step.HandlerOut? { assert ThreadOk(s, step.t); }
    if step.SetState? { assert ThreadOk(s, P(step.q)); }
    StepWakeKept(s, step, t);
  }

  lemma InvMono(s: State, step: Step, q: nat, chan: nat)
    requires Inv(s) && Enabled(s, step) && StepChecks(s, step) && P(q) in s.th
    ensures P(q) in Apply(s, step).th && SleepMono(s, Apply(s, step), q, chan)
  {
    if step.HandlerOut? { assert ThreadOk(s, step.t); }
    StepMono(s, step, q, chan);
  }

  lemma TargetStep(s: State, step: Step, t: Thread, q: nat)
    requires Inv(s) && Targets(s) && Enabled(s, step) && StepChecks(s, step)
    ensures TargetOk(Apply(s, step), t, q)
  {
    var s' := Apply(s, step);
    if step.BeginWakeup? && step.t == t {
      FirstTargets(s, t, step.chan, q);
    } else if t in s.th && t in s'.th {
      InvWakeKept(s, step, t);
      assert TargetOk(s, t, q);
      if Waking(s'.th[t].pc) && q in s'.th[t].targets { TargetOn(s, step, t, q); }
    }
  }

  lemma TargetOn(s: State, step: Step, t: Thread, q: nat)
    requires Inv(s) && Enabled(s, step) && StepChecks(s, step) && t in s.th && t in Apply(s, step).th
    requires WakeKept(s, Apply(s, step), t) && Waking(Apply(s, step).th[t].pc) && q in Apply(s, step).th[t].targets
    requires TargetOk(s, t, q)
    ensures TargetOk(Apply(s, step), t, q)
  {
    InvMono(s, step, q, WakeChan(s.th[t].pc));
    PastNext(s, step, t);
    TargetKept(s, Apply(s, step), t, q);
  }

  lemma TargetKept(s: State, s': State, t: Thread, q: nat)
    requires TargetOk(s, t, q) && t in s.th && t in s'.th && WakeKept(s, s', t) && Waking(s'.th[t].pc)
    requires q in s.th[t].targets && |s'.pstate| == |s.pstate| && P(q) in s'.th
    requires SleepMono(s, s', q, WakeChan(s.th[t].pc))
    requires s.th[t].pc.Have? && WakeNext(s'.th[t].pc) > WakeNext(s.th[t].pc) ==>
               !Asleep(s', WakeNext(s.th[t].pc), WakeChan(s.th[t].pc))
    ensures TargetOk(s', t, q)
  {
  }

  lemma PastNext(s: State, step: Step, t: Thread)
    requires Inv(s) && Enabled(s, step) && StepChecks(s, step) && t in s.th && Waking(s.th[t].pc)
    requires t in Apply(s, step).th && Waking(Apply(s, step).th[t].pc)
    ensures s.th[t].pc.Have? && WakeNext(Apply(s, step).th[t].pc) > WakeNext(s.th[t].pc) ==>
              !Asleep(Apply(s, step), WakeNext(s.th[t].pc), WakeChan(s.th[t].pc))
  {
    if s.th[t].pc.Have? && WakeNext(Apply(s, step).th[t].pc) > WakeNext(s.th[t].pc) {
      WakeStepIs(s, step, t);
      WokenNow(s, t);
    }
  }

  /** Only wakeup's own step moves it past a process. */
  lemma WakeStepIs(s: State, step: Step, t: Thread)
    requires Inv(s) && Enabled(s, step) && StepChecks(s, step) && t in s.th && s.th[t].pc.Have? && s.th[t].pc.k.KWake?
    requires t in Apply(s, step).th && Waking(Apply(s, step).th[t].pc)
    requires WakeNext(Apply(s, step).th[t].pc) > WakeNext(s.th[t].pc)
    ensures step == Act(t)
  {
    if step.Act? && step.t != t { ActElse(s, step.t, t); }
  }

  // ---- runs

  /** After boot: every scheduler is about to start its first round, and no process has run. */
  ghost predicate Init(s: State) {
    && Wf(s) && s.locked == map[] && s.owner == map[]
    && (forall c :: 0 <= c < |s.cpu| ==> s.cpu[c] == Cpu(Nobody, 0, false, true, S(c)))
    && (forall t :: t in s.th ==> s.th[t].held == {} && s.th[t].extra == 0 && s.th[t].back.Run? && !Waking(s.th[t].pc))
    && (forall c: nat :: c < |s.cpu| ==> s.th[S(c)].pc == Idle(0) && s.th[S(c)].on == c)
    && (forall p: nat :: p < |s.pstate| ==>
          (s.pstate[p] == UNUSED && s.th[P(p)].pc.Dead?) || (s.pstate[p] == RUNNABLE && s.th[P(p)].pc.NewAway?))
  }

  /** A run; a step whose checks fail is a panic, and ends it. */
  ghost predicate IsRun(ss: seq<State>, st: seq<Step>) {
    && |ss| == |st| + 1 && Init(ss[0])
    && forall i :: 0 <= i < |st| ==> Next(ss[i], st[i], ss[i + 1])
  }

  ghost predicate Next(s: State, step: Step, s': State) {
    Enabled(s, step) && StepChecks(s, step) && s' == Apply(s, step)
  }

  lemma InitInv(s: State)
    requires Init(s)
    ensures Inv(s) && Targets(s)
  {
    forall t ensures ThreadOk(s, t) {
      if t in s.th { assert IsThread(s, t); }
    }
    forall c: nat ensures CpuOk(s, c) { }
  }

  lemma {:induction false} RunInv(ss: seq<State>, st: seq<Step>, i: nat)
    requires IsRun(ss, st) && i < |ss|
    ensures Inv(ss[i]) && Targets(ss[i])
  {
    if i == 0 {
      InitInv(ss[0]);
    } else {
      RunInv(ss, st, i - 1);
      var s, step := ss[i - 1], st[i - 1];
      assert Next(s, step, ss[i]);
      StepInv(s, step);
      forall t, q ensures TargetOk(ss[i], t, q) { TargetStep(s, step, t, q); }
    }
  }

  /** No check in spinlock.c or sched fails in any run, whatever step comes next. */
  lemma NoPanic(ss: seq<State>, st: seq<Step>, step: Step)
    requires IsRun(ss, st) && Enabled(ss[|st|], step)
    ensures StepChecks(ss[|st|], step)
  {
    RunInv(ss, st, |st|);
    StepInv(ss[|st|], step);
  }

  // ---- the scheduler's hand-off

  ghost predicate RunsOn(s: State, c: nat, p: nat) { c < |s.cpu| && s.cpu[c].proc == Proc(p) }

  /** When p->lock is free, p is RUNNING if and only if some CPU has it as its process; and no two CPUs do. */
  lemma HandOff(s: State, p: nat)
    requires Inv(s) && p < |s.pstate| && PL(p) !in s.locked
    ensures s.pstate[p] == RUNNING <==> exists c :: RunsOn(s, c, p)
    ensures forall c, d :: RunsOn(s, c, p) && RunsOn(s, d, p) ==> c == d
  {
    assert P(p) in s.th && ThreadOk(s, P(p)) && LockOk(s, PL(p));
    forall c | RunsOn(s, c, p) ensures s.pstate[p] == RUNNING && s.th[P(p)].on == c {
      assert S(c) in s.th && CpuOk(s, c) && ThreadOk(s, S(c));
    }
    if s.pstate[p] == RUNNING {
      var c := s.th[P(p)].on;
      assert S(c) in s.th && CpuOk(s, c);
      assert RunsOn(s, c, p);
    }
  }

  /** A process with push_offs outstanding has on its CPU the interrupt bit it found at its outermost push_off,
      wherever it runs now. */
  lemma OwnBit(s: State, p: nat)
    requires Inv(s) && On(s, P(p)) && !s.th[P(p)].pc.Resumed? && !s.th[P(p)].pc.Fresh?
    ensures var c := s.cpu[s.th[P(p)].on];
            c.noff == |s.th[P(p)].held| + s.th[P(p)].extra && (c.noff > 0 ==> c.intena == s.th[P(p)].base && !c.sie)
  {
    assert ThreadOk(s, P(p));
  }

  ghost predicate BaseOk(s: State, s': State, p: nat)
    requires P(p) in s.th && P(p) in s'.th
  {
    || s'.th[P(p)].base == s.th[P(p)].base
    || (On(s, P(p)) && s.cpu[s.th[P(p)].on].noff == 0 && s'.th[P(p)].base == s.cpu[s.th[P(p)].on].sie)
  }

  lemma ActBase(s: State, t: Thread, p: nat)
    requires CanAct(s, t) && Checks(s, t) && P(p) in s.th
    ensures P(p) in DoAct(s, t).th && BaseOk(s, DoAct(s, t), p)
  {
  }

  /** That bit is set only there: by the thread's own push_off with none outstanding, to the bit it finds. */
  lemma BaseKept(s: State, step: Step, p: nat)
    requires Enabled(s, step) && StepChecks(s, step) && P(p) in s.th
    ensures P(p) in Apply(s, step).th && BaseOk(s, Apply(s, step), p)
  {
    if step.Act? { ActBase(s, step.t, p); }
  }

  // ---- no lost wakeup

  ghost predicate KontKept(s: State, s': State, q: nat)
    requires P(q) in s.th && P(q) in s'.th
  {
    s'.th[P(q)].episode == s.th[P(q)].episode && !Past(s'.th[P(q)].pc) ==>
      !Past(s.th[P(q)].pc) && s'.th[P(q)].pc.k == s.th[P(q)].pc.k
  }

  lemma ActKont(s: State, t: Thread, q: nat)
    requires CanAct(s, t) && Checks(s, t) && P(q) in s.th
    ensures P(q) in DoAct(s, t).th && KontKept(s, DoAct(s, t), q)
  {
    if t != P(q) { ActElse(s, t, P(q)); }
  }

  lemma StepKont(s: State, step: Step, q: nat)
    requires Inv(s) && Enabled(s, step) && StepChecks(s, step) && P(q) in s.th
    ensures P(q) in Apply(s, step).th && KontKept(s, Apply(s, step), q)
  {
    if step.Act? { ActKont(s, step.t, q); }
    else if step.HandlerOut? { assert ThreadOk(s, step.t); }
  }

  /** From s to s', while q makes no new sleep call: once past the release it stays past it, and awake once woken;
      before it, it stays in the same call. */
  ghost predicate Later(s: State, s': State, q: nat, chan: nat) {
    && P(q) in s.th && P(q) in s'.th
    && var th, th' := s.th[P(q)], s'.th[P(q)];
    && th'.episode >= th.episode
    && (th'.episode == th.episode ==>
          && (Past(th.pc) ==> Past(th'.pc) && (Asleep(s', q, chan) ==> Asleep(s, q, chan)))
          && (!Past(th'.pc) ==> !Past(th.pc) && th'.pc.k == th.pc.k))
  }

  lemma LaterStep(s: State, step: Step, q: nat, chan: nat)
    requires Inv(s) && Enabled(s, step) && StepChecks(s, step) && P(q) in s.th
    ensures Later(s, Apply(s, step), q, chan)
  {
    InvMono(s, step, q, chan);
    StepKont(s, step, q);
  }

  lemma LaterNext(ss: seq<State>, st: seq<Step>, i: nat, q: nat, chan: nat)
    requires IsRun(ss, st) && i < |st| && P(q) in ss[i].th
    ensures Later(ss[i], ss[i + 1], q, chan)
  {
    RunInv(ss, st, i);
    assert Next(ss[i], st[i], ss[i + 1]);
    LaterStep(ss[i], st[i], q, chan);
  }

  lemma LaterTrans(s: State, s1: State, s2: State, q: nat, chan: nat)
    requires Later(s, s1, q, chan) && Later(s1, s2, q, chan)
    ensures Later(s, s2, q, chan)
  {
  }

  lemma {:induction false} Between(ss: seq<State>, st: seq<Step>, a: nat, b: nat, q: nat, chan: nat)
    requires IsRun(ss, st) && a <= b < |ss| && P(q) in ss[a].th
    ensures Later(ss[a], ss[b], q, chan)
    decreases b - a
  {
    if a < b {
      Between(ss, st, a, b - 1, q, chan);
      LaterNext(ss, st, b - 1, q, chan);
      LaterTrans(ss[a], ss[b - 1], ss[b], q, chan);
    }
  }

  /** t stays in one call of wakeup. */
  ghost predicate InWakeup(ss: seq<State>, a: nat, b: nat, t: Thread) {
    b < |ss| && forall x :: a <= x <= b ==> t in ss[x].th && Waking(ss[x].th[t].pc)
  }

  lemma {:induction false} SameTargets(ss: seq<State>, st: seq<Step>, a: nat, b: nat, t: Thread)
    requires IsRun(ss, st) && a <= b && InWakeup(ss, a, b, t)
    ensures ss[b].th[t].targets == ss[a].th[t].targets && WakeChan(ss[b].th[t].pc) == WakeChan(ss[a].th[t].pc)
    decreases b - a
  {
    if a < b {
      SameTargets(ss, st, a, b - 1, t);
      RunInv(ss, st, b - 1);
      assert Next(ss[b - 1], st[b - 1], ss[b]);
      InvWakeKept(ss[b - 1], st[b - 1], t);
    }
  }

  /** A thread that gets lk after p called sleep(chan, lk) finds p past its release of lk. */
  lemma PastRelease(ss: seq<State>, st: seq<Step>, i: nat, j: nat, p: nat, chan: nat, lk: Lock)
    requires IsRun(ss, st) && i < j < |ss| && st[i] == BeginSleep(p, chan, lk) && lk !in ss[j].locked
    ensures P(p) in ss[i + 1].th && P(p) in ss[j].th
    ensures ss[j].th[P(p)].episode == ss[i + 1].th[P(p)].episode ==> Past(ss[j].th[P(p)].pc)
  {
    assert Next(ss[i], st[i], ss[i + 1]);
    Between(ss, st, i + 1, j, p, chan);
    RunInv(ss, st, j);
    assert ThreadOk(ss[j], P(p));
  }

  /** No lost wakeup: p calls sleep(chan, lk); some thread acquires lk after that, and then calls wakeup(chan).
      When that wakeup returns, the sleep is no longer asleep. */
  lemma NoLostWakeup(ss: seq<State>, st: seq<Step>, i: nat, j: nat, k: nat, m: nat,
                     p: nat, t: Thread, chan: nat, lk: Lock)
    requires IsRun(ss, st) && i < j < k < m < |st|
    requires st[i] == BeginSleep(p, chan, lk)
    requires st[j] == Take(t) && t in ss[j].th && ss[j].th[t].pc.Spin? && ss[j].th[t].pc.lk == lk
    requires st[k] == BeginWakeup(t, chan) && InWakeup(ss, k + 1, m, t)
    requires ss[m].th[t].pc == Wake(chan, |ss[m].pstate|)
    ensures P(p) in ss[i + 1].th && P(p) in ss[m + 1].th
    ensures ss[m + 1].th[P(p)].episode == ss[i + 1].th[P(p)].episode ==> !Asleep(ss[m + 1], p, chan)
  {
    assert Next(ss[i], st[i], ss[i + 1]) && Next(ss[j], st[j], ss[j + 1]);
    PastRelease(ss, st, i, j, p, chan, lk);
    Between(ss, st, i + 1, j, p, chan);
    Between(ss, st, j, k, p, chan);
    Between(ss, st, k, m, p, chan);
    Between(ss, st, m, m + 1, p, chan);
    if ss[m + 1].th[P(p)].episode == ss[i + 1].th[P(p)].episode {
      FoundAndWoken(ss, st, k, m, p, t, chan);
    }
  }

  /** The sleep of p that began at step i is still the one p is in at the state. */
  ghost predicate SameSleep(ss: seq<State>, i: nat, n: nat, p: nat) {
    && i + 1 < |ss| && n < |ss| && P(p) in ss[i + 1].th && P(p) in ss[n].th
    && ss[n].th[P(p)].episode == ss[i + 1].th[P(p)].episode
  }

  /** Sleeping and waking as single steps: whenever lk is free, every process in a sleep(chan, lk) is past its release
      of lk; and when a wakeup(chan) by a thread that has acquired lk returns, none of the sleeps begun before is asleep
      any more. */
  lemma WakesAll(ss: seq<State>, st: seq<Step>, j: nat, k: nat, m: nat, t: Thread, chan: nat, lk: Lock)
    requires IsRun(ss, st) && j < k < m < |st|
    requires st[j] == Take(t) && t in ss[j].th && ss[j].th[t].pc.Spin? && ss[j].th[t].pc.lk == lk
    requires st[k] == BeginWakeup(t, chan) && InWakeup(ss, k + 1, m, t)
    requires ss[m].th[t].pc == Wake(chan, |ss[m].pstate|)
    ensures forall i: nat, p: nat :: i < j && st[i] == BeginSleep(p, chan, lk) && SameSleep(ss, i, j, p) ==>
              Past(ss[j].th[P(p)].pc)
    ensures forall i: nat, p: nat :: i < j && st[i] == BeginSleep(p, chan, lk) && SameSleep(ss, i, m + 1, p) ==>
              !Asleep(ss[m + 1], p, chan)
  {
    assert Next(ss[j], st[j], ss[j + 1]);
    forall i: nat, p: nat | i < j && st[i] == BeginSleep(p, chan, lk) && SameSleep(ss, i, j, p)
      ensures Past(ss[j].th[P(p)].pc)
    {
      PastRelease(ss, st, i, j, p, chan, lk);
    }
    forall i: nat, p: nat | i < j && st[i] == BeginSleep(p, chan, lk) && SameSleep(ss, i, m + 1, p)
      ensures !Asleep(ss[m + 1], p, chan)
    {
      NoLostWakeup(ss, st, i, j, k, m, p, t, chan, lk);
    }
  }

  lemma FoundAndWoken(ss: seq<State>, st: seq<Step>, k: nat, m: nat, p: nat, t: Thread, chan: nat)
    requires IsRun(ss, st) && k < m < |st| && P(p) in ss[k].th && P(p) in ss[m].th
    requires st[k] == BeginWakeup(t, chan) && InWakeup(ss, k + 1, m, t)
    requires ss[m].th[t].pc == Wake(chan, |ss[m].pstate|)
    requires ss[m].th[P(p)].episode == ss[k].th[P(p)].episode && Past(ss[k].th[P(p)].pc)
    ensures !Asleep(ss[m], p, chan)
  {
    assert Next(ss[k], st[k], ss[k + 1]);
    RunInv(ss, st, k);
    RunInv(ss, st, m);
    Between(ss, st, k, m, p, chan);
    SameTargets(ss, st, k + 1, m, t);
    assert TargetOk(ss[m], t, p);
  }
}
