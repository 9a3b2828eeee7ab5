/** What every step of the exit and wait protocol keeps, and what follows for every run. */
module WaitProtocol {
  import opened Options
  import opened WaitMachine

  predicate HasLock(pc: Pc) {
    pc.Fork2? || pc.Exit2? || pc.Exit3? || pc.Exit4? || pc.Exit5? || pc.Exit6? || pc.Wait2? || pc.Wait4?
  }

  predicate Forking(pc: Pc) { pc.Fork1? || pc.Fork2? || pc.Fork3? }

  /** Where a process is agrees with its life and with wait_lock. */
  predicate PcOk(s: State, p: nat)
    requires Sized(s)
  {
    p < |s.life| ==>
      && (s.lock == Some(p) <==> HasLock(s.pc[p]))
      && match s.life[p]
         case Unused => s.pc[p].Run? || s.pc[p].Gone?
         case Used => s.pc[p].Run? || s.pc[p].Gone?
         case Alive => !s.pc[p].Exit6? && !s.pc[p].Gone?
         case Waiting => s.pc[p].Wait3?
         case Zombie => s.pc[p].Exit6? || s.pc[p].Gone?
  }

  /** The entry being forked into is this process's alone, and has no parent until kfork sets it. */
  predicate ForkOk(s: State, p: nat)
    requires Sized(s)
  {
    p < |s.life| && s.life[p] == Alive && Forking(s.pc[p]) ==>
      var np := s.pc[p].np;
      && np < |s.life| && s.life[np] == Used && np != INIT
      && s.parent[np] == (if s.pc[p].Fork3? then Some(p) else None)
  }

  predicate ForksApart(s: State, p: nat, q: nat)
    requires Sized(s)
  {
    p < |s.life| && q < |s.life| && p != q && s.life[p] == Alive && s.life[q] == Alive ==>
      (Forking(s.pc[p]) && Forking(s.pc[q]) ==> s.pc[p].np != s.pc[q].np)
  }

  predicate Exiting(pc: Pc) { pc.Exit1? || pc.Exit2? || pc.Exit3? || pc.Exit4? || pc.Exit5? || pc.Exit6? || pc.Gone? }

  predicate Live(l: Life) { l == Alive || l == Waiting }

  /** A parent is alive and older; a process that has started has a parent, unless it is initproc. */
  predicate ParentOk(s: State, q: nat)
    requires Sized(s)
  {
    q < |s.life| ==>
      && (s.parent[q].Some? ==>
            var p := s.parent[q].value;
            p < |s.life| && Live(s.life[p]) && s.born[p] < s.born[q] && s.life[q] != Unused && q != INIT)
      && (s.parent[q].None? && q != INIT ==> s.life[q] == Unused || s.life[q] == Used)
      && (q == INIT ==> Live(s.life[q]) && !Exiting(s.pc[q]) && s.born[q] == 0)
      && s.born[q] < s.clock
  }

  /** The exiting process has handed over the children before entry i. */
  predicate ScanOk(s: State, p: nat, q: nat)
    requires Sized(s)
  {
    p < |s.life| && q < |s.life| && s.parent[q] == Some(p) ==>
      match s.pc[p]
      case Exit2(i) => q >= i
      case Exit3(i) => q > i
      case Exit4 => false
      case Exit5 => false
      case _ => true
  }

  /** A wait in progress has passed no zombie child; a wait asleep has none, but for one just given to initproc. */
  predicate WaitOk(s: State, p: nat, q: nat)
    requires Sized(s)
  {
    p < |s.life| && q < |s.life| && s.parent[q] == Some(p) && s.life[q] == Zombie ==>
      && (s.pc[p].Wait2? && s.life[p] == Alive ==> q >= s.pc[p].i)
      && (s.life[p] == Waiting ==> p == INIT && s.lock.Some? && s.lock.value < |s.life| && s.pc[s.lock.value].Exit3?)
  }

  /** Having woken its parent, an exiting process finds it awake until the lock is released. */
  predicate AwakeOk(s: State, p: nat)
    requires Sized(s)
  {
    p < |s.life| && s.pc[p].Exit5? && s.parent[p].Some? && s.parent[p].value < |s.life| ==>
      s.life[s.parent[p].value] != Waiting
  }

  predicate CountOk(s: State, q: nat)
    requires Sized(s)
  {
    q < |s.life| ==> s.exits[q] == s.reaps[q] + if s.life[q] == Zombie then 1 else 0
  }

  ghost predicate Inv(s: State) {
    && Sized(s)
    && (forall p {:trigger PcOk(s, p)} :: PcOk(s, p))
    && (forall p {:trigger ForkOk(s, p)} :: ForkOk(s, p))
    && (forall p, q {:trigger ForksApart(s, p, q)} :: ForksApart(s, p, q))
    && (forall q {:trigger ParentOk(s, q)} :: ParentOk(s, q))
    && (forall p, q {:trigger ScanOk(s, p, q)} :: ScanOk(s, p, q))
    && (forall p, q {:trigger WaitOk(s, p, q)} :: WaitOk(s, p, q))
    && (forall p {:trigger AwakeOk(s, p)} :: AwakeOk(s, p))
    && (forall q {:trigger CountOk(s, q)} :: CountOk(s, q))
  }

  /** The process a step is taken by. */
  function Actor(step: Step): nat {
    match step
    case Wake(q) => q
    case ForkAlloc(p, _) => p
    case WaitEnd(p, _) => p
    case _ => step.p
  }

  lemma StepSized(s: State, step: Step)
    requires Enabled(s, step)
    ensures Sized(Apply(s, step)) && |Apply(s, step).life| == |s.life|
  {
  }

  predicate ForkStep(step: Step) {
    step.ForkAlloc? || step.ForkFail? || step.ForkLock? || step.ForkParent? || step.ForkRun?
  }

  predicate ExitStep(step: Step) {
    || step.ExitBegin? || step.ExitLock? || step.ExitScan? || step.ExitWakeInit? || step.ExitWakeParent?
    || step.ExitZombie? || step.ExitUnlock?
  }

  lemma ForkPc(s: State, step: Step, p: nat)
    requires Inv(s) && Enabled(s, step) && ForkStep(step) && Sized(Apply(s, step))
    ensures PcOk(Apply(s, step), p)
  {
    assert PcOk(s, p) && PcOk(s, Actor(step)) && ForkOk(s, Actor(step));
    if s.lock.Some? { assert PcOk(s, s.lock.value); }
  }

  lemma ExitPc(s: State, step: Step, p: nat)
    requires Inv(s) && Enabled(s, step) && ExitStep(step) && Sized(Apply(s, step))
    ensures PcOk(Apply(s, step), p)
  {
    assert PcOk(s, p) && PcOk(s, Actor(step)) && PcOk(s, INIT);
    if s.lock.Some? { assert PcOk(s, s.lock.value); }
  }

  lemma WaitPc(s: State, step: Step, p: nat)
    requires Inv(s) && Enabled(s, step) && !ForkStep(step) && !ExitStep(step) && Sized(Apply(s, step))
    ensures PcOk(Apply(s, step), p)
  {
    assert PcOk(s, p) && PcOk(s, Actor(step));
    if s.lock.Some? { assert PcOk(s, s.lock.value); }
  }

  lemma ForkForkOk(s: State, step: Step, p: nat)
    requires Inv(s) && Enabled(s, step) && ForkStep(step) && Sized(Apply(s, step))
    ensures ForkOk(Apply(s, step), p)
  {
    assert ForkOk(s, p) && PcOk(s, p) && PcOk(s, step.p) && ForkOk(s, step.p) && ForksApart(s, p, step.p);
    if step.ForkAlloc? { assert ParentOk(s, step.np) && ParentOk(s, INIT); }
  }

  lemma ExitForkOk(s: State, step: Step, p: nat)
    requires Inv(s) && Enabled(s, step) && ExitStep(step) && Sized(Apply(s, step))
    ensures ForkOk(Apply(s, step), p)
  {
    assert ForkOk(s, p) && PcOk(s, p) && PcOk(s, Actor(step));
  }

  lemma WaitForkOk(s: State, step: Step, p: nat)
    requires Inv(s) && Enabled(s, step) && !ForkStep(step) && !ExitStep(step) && Sized(Apply(s, step))
    ensures ForkOk(Apply(s, step), p)
  {
    assert ForkOk(s, p) && PcOk(s, p) && PcOk(s, Actor(step));
  }

  lemma ForkApart(s: State, step: Step, p: nat, q: nat)
    requires Inv(s) && Enabled(s, step) && ForkStep(step) && Sized(Apply(s, step))
    ensures ForksApart(Apply(s, step), p, q)
  {
    assert ForksApart(s, p, q) && ForkOk(s, p) && ForkOk(s, q) && PcOk(s, p) && PcOk(s, q) && ForkOk(s, step.p);
  }

  lemma ExitApart(s: State, step: Step, p: nat, q: nat)
    requires Inv(s) && Enabled(s, step) && ExitStep(step) && Sized(Apply(s, step))
    ensures ForksApart(Apply(s, step), p, q)
  {
    assert ForksApart(s, p, q) && PcOk(s, p) && PcOk(s, q);
  }

  lemma WaitApart(s: State, step: Step, p: nat, q: nat)
    requires Inv(s) && Enabled(s, step) && !ForkStep(step) && !ExitStep(step) && Sized(Apply(s, step))
    ensures ForksApart(Apply(s, step), p, q)
  {
    assert ForksApart(s, p, q) && PcOk(s, p) && PcOk(s, q);
  }

  lemma ForkParentOk(s: State, step: Step, q: nat)
    requires Inv(s) && Enabled(s, step) && ForkStep(step) && Sized(Apply(s, step))
    ensures ParentOk(Apply(s, step), q)
  {
    assert ParentOk(s, q) && ForkOk(s, step.p) && PcOk(s, step.p) && ParentOk(s, step.p);
  }

  lemma ExitParentOk(s: State, step: Step, q: nat)
    requires Inv(s) && Enabled(s, step) && ExitStep(step) && Sized(Apply(s, step))
    ensures ParentOk(Apply(s, step), q)
  {
    assert ParentOk(s, q) && ParentOk(s, INIT) && PcOk(s, step.p) && ParentOk(s, step.p) && ScanOk(s, step.p, q);
  }

  lemma WaitParentOk(s: State, step: Step, q: nat)
    requires Inv(s) && Enabled(s, step) && !ForkStep(step) && !ExitStep(step) && Sized(Apply(s, step))
    ensures ParentOk(Apply(s, step), q)
  {
    assert ParentOk(s, q) && PcOk(s, Actor(step)) && PcOk(s, q);
  }

  lemma ForkScan(s: State, step: Step, p: nat, q: nat)
    requires Inv(s) && Enabled(s, step) && ForkStep(step) && Sized(Apply(s, step))
    ensures ScanOk(Apply(s, step), p, q)
  {
    assert ScanOk(s, p, q) && PcOk(s, p) && ForkOk(s, step.p);
  }

  lemma ExitScanOk(s: State, step: Step, p: nat, q: nat)
    requires Inv(s) && Enabled(s, step) && ExitStep(step) && Sized(Apply(s, step))
    ensures ScanOk(Apply(s, step), p, q)
  {
    assert ScanOk(s, p, q) && PcOk(s, p) && PcOk(s, step.p) && ParentOk(s, INIT);
  }

  lemma WaitScanOk(s: State, step: Step, p: nat, q: nat)
    requires Inv(s) && Enabled(s, step) && !ForkStep(step) && !ExitStep(step) && Sized(Apply(s, step))
    ensures ScanOk(Apply(s, step), p, q)
  {
    assert ScanOk(s, p, q);
  }

  lemma ForkWaitOk(s: State, step: Step, p: nat, q: nat)
    requires Inv(s) && Enabled(s, step) && ForkStep(step) && Sized(Apply(s, step))
    ensures WaitOk(Apply(s, step), p, q)
  {
    assert WaitOk(s, p, q) && PcOk(s, p) && PcOk(s, step.p) && ForkOk(s, step.p);
    if s.lock.Some? { assert PcOk(s, s.lock.value); }
  }

  lemma ExitWaitOk(s: State, step: Step, p: nat, q: nat)
    requires Inv(s) && Enabled(s, step) && ExitStep(step) && Sized(Apply(s, step))
    ensures WaitOk(Apply(s, step), p, q)
  {
    assert WaitOk(s, p, q) && PcOk(s, p) && PcOk(s, step.p) && AwakeOk(s, step.p);
    if s.lock.Some? { assert PcOk(s, s.lock.value); }
  }

  lemma WaitWaitOk(s: State, step: Step, p: nat, q: nat)
    requires Inv(s) && Enabled(s, step) && !ForkStep(step) && !ExitStep(step) && Sized(Apply(s, step))
    ensures WaitOk(Apply(s, step), p, q)
  {
    assert WaitOk(s, p, q) && PcOk(s, p) && PcOk(s, Actor(step));
    if s.lock.Some? { assert PcOk(s, s.lock.value); }
  }

  lemma StepAwake(s: State, step: Step, p: nat)
    requires Inv(s) && Enabled(s, step) && Sized(Apply(s, step))
    ensures AwakeOk(Apply(s, step), p)
  {
    assert AwakeOk(s, p) && PcOk(s, p) && PcOk(s, Actor(step)) && ParentOk(s, p);
  }

  lemma StepCount(s: State, step: Step, q: nat)
    requires Inv(s) && Enabled(s, step) && Sized(Apply(s, step))
    ensures CountOk(Apply(s, step), q)
  {
    assert CountOk(s, q) && ForkOk(s, Actor(step));
  }

  lemma ForkInv(s: State, step: Step)
    requires Inv(s) && Enabled(s, step) && ForkStep(step)
    ensures Inv(Apply(s, step))
  {
    var s' := Apply(s, step);
    StepSized(s, step);
    forall p: nat ensures PcOk(s', p) && ForkOk(s', p) { ForkPc(s, step, p); ForkForkOk(s, step, p); }
    forall q: nat ensures ParentOk(s', q) { ForkParentOk(s, step, q); }
    forall p: nat, q: nat ensures ScanOk(s', p, q) { ForkScan(s, step, p, q); }
    forall p: nat, q: nat ensures WaitOk(s', p, q) && ForksApart(s', p, q) {
      ForkWaitOk(s, step, p, q);
      ForkApart(s, step, p, q);
    }
    forall p: nat ensures AwakeOk(s', p) { StepAwake(s, step, p); }
    forall q: nat ensures CountOk(s', q) { StepCount(s, step, q); }
  }

  lemma ExitInv(s: State, step: Step)
    requires Inv(s) && Enabled(s, step) && ExitStep(step)
    ensures Inv(Apply(s, step))
  {
    var s' := Apply(s, step);
    StepSized(s, step);
    forall p: nat ensures PcOk(s', p) && ForkOk(s', p) { ExitPc(s, step, p); ExitForkOk(s, step, p); }
    forall q: nat ensures ParentOk(s', q) { ExitParentOk(s, step, q); }
    forall p: nat, q: nat ensures ScanOk(s', p, q) { ExitScanOk(s, step, p, q); }
    forall p: nat, q: nat ensures WaitOk(s', p, q) && ForksApart(s', p, q) {
      ExitWaitOk(s, step, p, q);
      ExitApart(s, step, p, q);
    }
    forall p: nat ensures AwakeOk(s', p) { StepAwake(s, step, p); }
    forall q: nat ensures CountOk(s', q) { StepCount(s, step, q); }
  }

  lemma WaitInv(s: State, step: Step)
    requires Inv(s) && Enabled(s, step) && !ForkStep(step) && !ExitStep(step)
    ensures Inv(Apply(s, step))
  {
    var s' := Apply(s, step);
    StepSized(s, step);
    forall p: nat ensures PcOk(s', p) && ForkOk(s', p) { WaitPc(s, step, p); WaitForkOk(s, step, p); }
    forall q: nat ensures ParentOk(s', q) { WaitParentOk(s, step, q); }
    forall p: nat, q: nat ensures ScanOk(s', p, q) { WaitScanOk(s, step, p, q); }
    forall p: nat, q: nat ensures WaitOk(s', p, q) && ForksApart(s', p, q) {
      WaitWaitOk(s, step, p, q);
      WaitApart(s, step, p, q);
    }
    forall p: nat ensures AwakeOk(s', p) { StepAwake(s, step, p); }
    forall q: nat ensures CountOk(s', q) { StepCount(s, step, q); }
  }

  /** Every step keeps the invariant. */
  lemma StepInv(s: State, step: Step)
    requires Inv(s) && Enabled(s, step)
    ensures Inv(Apply(s, step))
  {
    if ForkStep(step) { ForkInv(s, step); } else if ExitStep(step) { ExitInv(s, step); } else { WaitInv(s, step); }
  }

  // ---- runs

  /** After userinit: initproc alone. */
  ghost predicate Init(s: State) {
    && Sized(s) && s.lock == None && s.clock > 0
    && s.life[INIT] == Alive && s.pc[INIT] == Run && s.born[INIT] == 0
    && (forall p :: 0 <= p < |s.life| ==>
          (p != INIT ==> s.life[p] == Unused && s.pc[p] == Run) && s.parent[p] == None && s.born[p] == 0
          && s.exits[p] == 0 && s.reaps[p] == 0)
  }

  ghost predicate IsRun(ss: seq<State>, st: seq<Step>) {
    && |ss| == |st| + 1 && Init(ss[0])
    && forall i :: 0 <= i < |st| ==> Next(ss[i], st[i], ss[i + 1])
  }

  ghost predicate Next(s: State, step: Step, s': State) { Enabled(s, step) && s' == Apply(s, step) }

  lemma {:induction false} RunInv(ss: seq<State>, st: seq<Step>, i: nat)
    requires IsRun(ss, st) && i < |ss|
    ensures Inv(ss[i])
  {
    if i > 0 {
      RunInv(ss, st, i - 1);
      assert Next(ss[i - 1], st[i - 1], ss[i]);
      StepInv(ss[i - 1], st[i - 1]);
    }
  }

  /** p is an ancestor of q, or q itself. */
  ghost predicate Descends(s: State, q: nat, p: nat, n: nat)
    decreases n
  {
    Sized(s) && q < |s.life| &&
    if n == 0 then q == p else s.parent[q].Some? && Descends(s, s.parent[q].value, p, n - 1)
  }

  /** Parent links from every process that has a parent, or runs, lead to initproc. */
  lemma {:induction false} LeadsToInit(s: State, q: nat) returns (n: nat)
    requires Inv(s) && q < |s.life| && (q == INIT || s.parent[q].Some?)
    ensures Descends(s, q, INIT, n)
    decreases s.born[q]
  {
    assert ParentOk(s, q);
    if q == INIT {
      n := 0;
    } else {
      var p := s.parent[q].value;
      assert ParentOk(s, p);
      var m := LeadsToInit(s, p);
      n := m + 1;
    }
  }

  /** The parent of q is neither UNUSED nor a ZOMBIE, parent links lead to initproc, and if q is a ZOMBIE its
      parent is not asleep in kwait. */
  ghost predicate Settled(s: State, q: nat) {
    Sized(s) && q < |s.life| &&
    if s.parent[q].None? then
      q == INIT || s.life[q] == Unused || s.life[q] == Used
    else
      && s.parent[q].value < |s.life| && Live(s.life[s.parent[q].value])
      && (exists n: nat :: Descends(s, q, INIT, n))
      && (s.life[q] == Zombie ==> s.life[s.parent[q].value] != Waiting)
  }

  /** Whenever wait_lock is free, every process is settled. */
  lemma AtRest(ss: seq<State>, st: seq<Step>, i: nat, q: nat)
    requires IsRun(ss, st) && i < |ss| && ss[i].lock == None && q < |ss[i].life|
    ensures Settled(ss[i], q)
  {
    RunInv(ss, st, i);
    assert ParentOk(ss[i], q);
    if ss[i].parent[q].Some? {
      var n := LeadsToInit(ss[i], q);
      assert WaitOk(ss[i], ss[i].parent[q].value, q);
    }
  }

  /** An exited child is reaped at most once, and by its parent at that time. */
  lemma ReapedOnce(ss: seq<State>, st: seq<Step>, i: nat, q: nat)
    requires IsRun(ss, st) && i < |st| && q < |ss[i].life|
    ensures Sized(ss[i]) && Sized(ss[i + 1]) && |ss[i + 1].life| == |ss[i].life|
    ensures ss[i].reaps[q] <= ss[i].exits[q] <= ss[i].reaps[q] + 1
    ensures ss[i + 1].reaps[q] != ss[i].reaps[q] ==>
              && ss[i + 1].reaps[q] == ss[i].reaps[q] + 1 && ss[i].life[q] == Zombie
              && st[i].WaitReap? && ss[i].parent[q] == Some(st[i].p)
  {
    RunInv(ss, st, i);
    RunInv(ss, st, i + 1);
    assert CountOk(ss[i], q);
    assert Next(ss[i], st[i], ss[i + 1]);
    StepSized(ss[i], st[i]);
  }
}
