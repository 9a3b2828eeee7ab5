/** What the log does for the file system: a property of the disk that every group of operations keeps survives any
    crash. */
module LogImage {
  import opened LogFormat
  import opened LogMachine
  import opened LogInvariant
  import opened LogTheorems

  ghost predicate CalmAt(c: Config, run: seq<State>, i: nat) { 0 < i < |run| ==> CrashFree(c, run[i - 1], run[i]) }

  /** From state j to state k, both with no operation in progress, the power does not fail. */
  ghost predicate Group(c: Config, run: seq<State>, j: nat, k: nat) {
    && j <= k < |run| && run[j].outstanding == 0 && run[k].outstanding == 0
    && forall i {:trigger CalmAt(c, run, i)} :: j < i <= k ==> CalmAt(c, run, i)
  }

  /** The operations between two states with none in progress, however they interleave, keep `ok` of what is written. */
  ghost predicate GroupsKeep(c: Config, run: seq<State>, ok: Disk -> bool) {
    forall j: nat, k: nat {:trigger Group(c, run, j, k)} :: Group(c, run, j, k) && ok(run[j].last) ==> ok(run[k].last)
  }

  /** `ok` looks at home blocks only. */
  ghost predicate OfHome(c: Config, ok: Disk -> bool) {
    forall a: Disk, b: Disk {:trigger SameHome(c.layout, a, b)} :: SameHome(c.layout, a, b) && ok(b) ==> ok(a)
  }

  lemma CommitStep(c: Config, s: State, step: Step)
    requires Inv(c, s) && Enabled(c, s, step)
    ensures var s' := Apply(c, s, step);
            if step.Crash? then s'.outstanding == 0 && s'.last == s'.committed == s.committed
            else s'.committed == s.committed || (s.outstanding == 0 && s'.committed == s.last)
  {
    CommitIsAtomic(c, s, step);
  }

  lemma InitStep(c: Config, run: seq<State>)
    requires Run(c, run)
    ensures run[0].outstanding == 0 && run[0].last == run[0].committed
  {
  }

  /** In every run the committed contents have the property; j is the last state with no operation in progress that
      starts a group up to here. */
  lemma {:induction false} CommittedOk(c: Config, run: seq<State>, ok: Disk -> bool, i: nat) returns (j: nat)
    requires Run(c, run) && i < |run| && ok(run[0].committed) && GroupsKeep(c, run, ok)
    ensures ok(run[i].committed) && j <= i && run[j].outstanding == 0 && ok(run[j].last)
    ensures forall n {:trigger CalmAt(c, run, n)} :: j < n <= i ==> CalmAt(c, run, n)
  {
    if i == 0 {
      j := 0;
      InitStep(c, run);
    } else {
      j := CommittedOk(c, run, ok, i - 1);
      j := CommittedNext(c, run, ok, i, j);
    }
  }

  lemma CommittedNext(c: Config, run: seq<State>, ok: Disk -> bool, i: nat, j: nat) returns (j': nat)
    requires Run(c, run) && 0 < i < |run| && GroupsKeep(c, run, ok)
    requires ok(run[i - 1].committed) && j < i && run[j].outstanding == 0 && ok(run[j].last)
    requires forall n {:trigger CalmAt(c, run, n)} :: j < n < i ==> CalmAt(c, run, n)
    ensures ok(run[i].committed) && j' <= i && run[j'].outstanding == 0 && ok(run[j'].last)
    ensures forall n {:trigger CalmAt(c, run, n)} :: j' < n <= i ==> CalmAt(c, run, n)
  {
    var step := StepTaken(c, run, i);
    j' := if step.Crash? then i else j;
    if run[i - 1].outstanding == 0 { assert Group(c, run, j, i - 1); }
  }

  lemma StepTaken(c: Config, run: seq<State>, i: nat) returns (step: Step)
    requires Run(c, run) && 0 < i < |run|
    ensures if step.Crash? then run[i].outstanding == 0 && run[i].last == run[i].committed == run[i - 1].committed
            else CalmAt(c, run, i) && (run[i].committed == run[i - 1].committed
                                       || (run[i - 1].outstanding == 0 && run[i].committed == run[i - 1].last))
  {
    RunInv(c, run, i - 1);
    assert NextAt(c, run, i);
    step :| Enabled(c, run[i - 1], step) && run[i] == Apply(c, run[i - 1], step);
    CommitStep(c, run[i - 1], step);
    if !step.Crash? { assert CrashFree(c, run[i - 1], run[i]); }
  }

  /** In every run: whenever the power fails, and however often it fails again, what recovery leaves on the disk has the
      property. */
  lemma Survives(c: Config, run: seq<State>, ok: Disk -> bool, i: nat, cuts: seq<nat>)
    requires Run(c, run) && i < |run| && ok(run[0].committed) && GroupsKeep(c, run, ok) && OfHome(c, ok)
    ensures RecoverableTo(c.layout, run[i].disk, run[i].committed)
    ensures ok(Boot(c.layout, Boots(c.layout, run[i].disk, run[i].committed, cuts), WORDS))
  {
    var _ := CommittedOk(c, run, ok, i);
    CrashRecovery(c, run, i, cuts);
  }
}
