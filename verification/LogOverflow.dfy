/** The reservation of kernel/log.c is exact: operations that log as many blocks as param.h allows
    fill the in-memory header, and the next log_write panics even if its block is already logged. */
module LogOverflow {
  import opened Options
  import opened Params
  import opened LogFormat
  import opened LogMachine
  import opened LogInvariant
  import opened LogTheorems

  ghost predicate Path(c: Config, s: State, steps: seq<Step>, s': State)
    decreases |steps|
  {
    if steps == [] then s == s'
    else Enabled(c, s, steps[0]) && Path(c, Apply(c, s, steps[0]), steps[1..], s')
  }

  ghost predicate Reaches(c: Config, s: State, s': State) {
    exists steps :: Path(c, s, steps, s')
  }

  lemma {:induction false} PathStep(c: Config, s0: State, steps: seq<Step>, s: State, step: Step)
    requires Path(c, s0, steps, s) && Enabled(c, s, step)
    ensures Path(c, s0, steps + [step], Apply(c, s, step))
    decreases |steps|
  {
    var all := steps + [step];
    if steps == [] {
      assert all == [step] && all[1..] == [];
      assert Path(c, Apply(c, s, step), all[1..], Apply(c, s, step));
    } else {
      PathStep(c, Apply(c, s0, steps[0]), steps[1..], s, step);
      assert all[1..] == steps[1..] + [step];
    }
  }

  lemma Extend(c: Config, s0: State, s: State, step: Step)
    requires Reaches(c, s0, s) && Enabled(c, s, step)
    ensures Reaches(c, s0, Apply(c, s, step))
  {
    var steps :| Path(c, s0, steps, s);
    PathStep(c, s0, steps, s, step);
  }

  predicate Unused(b: Buf) {
    b.refcnt == 0 && b.lock == None && b.waiters == {} && b.leaving == {} && !b.dirty
  }

  /** Buffers n.. are unused and hold none of the blocks ks[n..]. */
  ghost predicate Unread(s: State, ks: seq<nat>, n: nat) {
    && n <= |s.bufs|
    && (forall b :: n <= b < |s.bufs| ==> Unused(s.bufs[b]))
    && forall b, j :: 0 <= b < |s.bufs| && n <= j < |ks| ==> s.bufs[b].blockno != ks[j]
  }

  /** After bread of a block that was not cached. */
  function Fetched(s: State, t: Tid, b: nat, k: nat): State
    requires b < |s.bufs| && k < |s.disk|
  {
    SetBuf(s, b, Buf(k, true, s.disk[k], 1, Some(t), {}, {}, false))
  }

  lemma Fetch(c: Config, s0: State, s: State, t: Tid, b: nat, k: nat)
    requires Reaches(c, s0, s) && !s.panicked && c.layout.size == |s.disk| && k < c.layout.size
    requires b < |s.bufs| && Unused(s.bufs[b])
    requires forall i :: 0 <= i < |s.bufs| ==> s.bufs[i].blockno != k
    ensures Reaches(c, s0, Fetched(s, t, b, k))
  {
    var s1 := DoBgetRecycle(s, t, b, k);
    var s2 := DoAcquireSleep(s1, t, b);
    var s3 := DoReadDisk(s2, t, b);
    assert Reaches(c, s0, s1) by { Extend(c, s0, s, BgetRecycle(t, b, k)); }
    assert Reaches(c, s0, s2) by { Extend(c, s0, s1, AcquireSleep(t, b)); }
    assert Reaches(c, s0, s3) by { Extend(c, s0, s2, ReadDisk(t, b)); }
    assert s3 == Fetched(s, t, b, k);
  }

  /** After bread, log_write and brelse of such a block. */
  function Logged(s: State, t: Tid, b: nat, k: nat): State
    requires b < |s.bufs| && InOp(s, t) && k < |s.disk|
  {
    s.(bufs := s.bufs[b := Buf(k, true, s.disk[k], 1, None, {}, {}, false)],
       lh := s.lh + [k],
       ops := s.ops[t := Op(s.ops[t].added + 1, s.ops[t].wrote + {k})])
  }

  lemma LogOne(c: Config, s0: State, s: State, t: Tid, b: nat, k: nat)
    requires Reaches(c, s0, s) && !s.panicked && c.layout.size == |s.disk|
    requires b < |s.bufs| && Unused(s.bufs[b]) && Home(c.layout, k)
    requires forall i :: 0 <= i < |s.bufs| ==> s.bufs[i].blockno != k
    requires InOp(s, t) && |s.ops[t].wrote| < c.opMax && s.outstanding >= 1
    requires |s.lh| < LOGBLOCKS && k !in s.lh
    ensures Reaches(c, s0, Logged(s, t, b, k))
  {
    Fetch(c, s0, s, t, b, k);
    var s3 := Fetched(s, t, b, k);
    var s4 := DoLogWrite(s3, t, b);
    assert Reaches(c, s0, s4) by { Extend(c, s0, s3, LogWrite(t, b)); }
    Release(c, s0, s4, t, b);
    assert DoDropRef(DoReleaseSleep(s4, t, b), t, b) == Logged(s, t, b, k);
  }

  lemma Release(c: Config, s0: State, s: State, t: Tid, b: nat)
    requires Reaches(c, s0, s) && !s.panicked && CanReleaseSleep(s, t, b)
    ensures Reaches(c, s0, DoDropRef(DoReleaseSleep(s, t, b), t, b))
  {
    Extend(c, s0, s, ReleaseSleep(t, b));
    Extend(c, s0, DoReleaseSleep(s, t, b), DropRef(t, b));
  }

  /** No operation in progress; buffers unused; `ks` names as many uncached home blocks as there are
      log entries. */
  ghost predicate Quiet(c: Config, s: State, ks: seq<nat>) {
    && !s.panicked && s.phase.Running? && !s.committing && s.outstanding == 0 && s.lh == []
    && c.layout.size == |s.disk|
    && |s.ops| >= 3 && (forall t :: 0 <= t < 3 ==> s.ops[t] == NoOp && t !in s.asleep)
    && |s.bufs| == NBUF && |ks| == LOGBLOCKS && Distinct(ks)
    && (forall j :: 0 <= j < |ks| ==> Home(c.layout, ks[j]))
    && Unread(s, ks, 0)
  }

  /** Three operations have begun and have logged ks[..n] between them, ten blocks each. */
  ghost predicate Filling(c: Config, s: State, ks: seq<nat>, n: nat) {
    && n <= LOGBLOCKS == |ks| == |s.bufs| && Distinct(ks)
    && !s.panicked && s.outstanding == 3 && s.phase.Running? && c.layout.size == |s.disk|
    && s.lh == ks[..n] && Unread(s, ks, n)
    && (forall j :: 0 <= j < |ks| ==> Home(c.layout, ks[j]))
    && |s.ops| >= 3 && WroteOk(s, 0, n) && WroteOk(s, 1, n) && WroteOk(s, 2, n)
    && (0 < n ==> ks[n - 1] in s.ops[(n - 1) / 10].wrote && Idle(s.bufs[n - 1], ks[n - 1]))
  }

  ghost predicate WroteOk(s: State, t: nat, n: nat)
    requires t < |s.ops|
  {
    && s.ops[t].Op? && (forall k :: k in s.ops[t].wrote ==> k in s.lh)
    && (n <= 10 * t + 10 ==> |s.ops[t].wrote| == if n < 10 * t then 0 else n - 10 * t)
  }

  predicate Idle(b: Buf, k: nat) { b.blockno == k && b.valid && b.lock == None && b.waiters == {} }

  lemma Start(c: Config, s0: State, s: State, ks: seq<nat>) returns (s': State)
    requires Reaches(c, s0, s) && Quiet(c, s, ks)
    ensures Reaches(c, s0, s') && Filling(c, s', ks, 0)
  {
    var s1 := DoBeginOp(s, 0);
    assert Reaches(c, s0, s1) by { Extend(c, s0, s, BeginOp(0)); }
    var s2 := DoBeginOp(s1, 1);
    assert Reaches(c, s0, s2) by { Extend(c, s0, s1, BeginOp(1)); }
    s' := DoBeginOp(s2, 2);
    assert Reaches(c, s0, s') by { Extend(c, s0, s2, BeginOp(2)); }
  }

  lemma WroteStep(s: State, t: nat, u: nat, n: nat, k: nat)
    requires t < 3 <= |s.ops| && u < 3 && u == n / 10 && n < |s.bufs| && k < |s.disk| && k !in s.lh
    requires s.ops[u].Op? && WroteOk(s, t, n)
    ensures WroteOk(Logged(s, u, n, k), t, n + 1)
  {
    if t == u { assert k !in s.ops[t].wrote; }
  }

  lemma NextNew(ks: seq<nat>, n: nat)
    requires Distinct(ks) && n < |ks|
    ensures ks[n] !in ks[..n] && ks[..n + 1] == ks[..n] + [ks[n]]
  {
  }

  lemma FillState(c: Config, s: State, ks: seq<nat>, n: nat)
    requires Filling(c, s, ks, n) && n < LOGBLOCKS
    ensures Filling(c, Logged(s, n / 10, n, ks[n]), ks, n + 1)
  {
    NextNew(ks, n);
    var u := n / 10;
    assert u == 0 || u == 1 || u == 2;
    WroteStep(s, 0, u, n, ks[n]);
    WroteStep(s, 1, u, n, ks[n]);
    WroteStep(s, 2, u, n, ks[n]);
    UnreadStep(s, ks, n, u);
  }

  lemma UnreadStep(s: State, ks: seq<nat>, n: nat, u: nat)
    requires Unread(s, ks, n) && n < |ks| == |s.bufs| && Distinct(ks) && InOp(s, u) && ks[n] < |s.disk|
    ensures Unread(Logged(s, u, n, ks[n]), ks, n + 1)
  {
  }

  lemma Fill(c: Config, s0: State, s: State, ks: seq<nat>, n: nat) returns (s': State)
    requires c.opMax >= MAXOPBLOCKS && Reaches(c, s0, s) && Filling(c, s, ks, n) && n < LOGBLOCKS
    ensures Reaches(c, s0, s') && Filling(c, s', ks, n + 1)
  {
    LogOne(c, s0, s, n / 10, n, ks[n]);
    s' := Logged(s, n / 10, n, ks[n]);
    FillState(c, s, ks, n);
  }

  lemma {:induction false} FillUp(c: Config, s0: State, s: State, ks: seq<nat>, n: nat) returns (s': State)
    requires c.opMax >= MAXOPBLOCKS && Reaches(c, s0, s) && Quiet(c, s, ks) && n <= LOGBLOCKS
    ensures Reaches(c, s0, s') && Filling(c, s', ks, n)
  {
    if n == 0 {
      s' := Start(c, s0, s, ks);
    } else {
      s' := FillUp(c, s0, s, ks, n - 1);
      s' := Fill(c, s0, s', ks, n - 1);
    }
  }

  /** The last block logged is logged again. */
  lemma Relog(c: Config, s0: State, s: State, ks: seq<nat>) returns (s': State)
    requires c.opMax >= MAXOPBLOCKS && Reaches(c, s0, s) && Filling(c, s, ks, LOGBLOCKS)
    ensures Reaches(c, s0, s') && s'.panicked
  {
    var b := LOGBLOCKS - 1;
    var s1 := DoBgetHit(s, 2, b);
    assert Reaches(c, s0, s1) by { Extend(c, s0, s, BgetHit(2, b)); }
    var s2 := DoAcquireSleep(s1, 2, b);
    assert Reaches(c, s0, s2) by { Extend(c, s0, s1, AcquireSleep(2, b)); }
    s' := DoLogWrite(s2, 2, b);
    assert s2.ops[2].wrote + {ks[b]} == s2.ops[2].wrote;
    assert Reaches(c, s0, s') by { Extend(c, s0, s2, LogWrite(2, b)); }
  }

  // ---- from power-on

  function Zero(): Block { seq(WORDS, i => 0) }

  /** A zeroed disk, as mkfs starts from, and three threads. */
  function Blank(c: Config): State {
    var d := seq(c.layout.size, i => Zero());
    State(d, seq(NBUF, i => FreshBuf()), [], 0, false, 0, Booting(0), seq(3, i => NoOp), {}, map[], false,
          d, d, 0, 0)
  }

  ghost predicate Roomy(c: Config) {
    && ValidLayout(c.layout) && c.layout.nlog >= LOGBLOCKS
    && c.layout.start + c.layout.nlog + LOGBLOCKS <= c.layout.size
  }

  function Targets(c: Config): seq<nat> {
    seq(LOGBLOCKS, j => c.layout.start + c.layout.nlog + j)
  }

  lemma BlankPowerOn(c: Config)
    requires Roomy(c)
    ensures PowerOn(c, Blank(c))
  {
    var s := Blank(c);
    assert ReadHeader(s.disk[c.layout.start]) == [];
    var s' := DoCrash(s, 0);
    assert s'.bufs == s.bufs && s'.ops == s.ops;
    assert s == s';
  }

  /** Recovery with an empty log, up to the last step of its writing of the header. */
  lemma BootClear(c: Config) returns (s': State)
    requires Roomy(c)
    ensures Reaches(c, Blank(c), s') && Cleared(c, s')
  {
    var s0 := Blank(c);
    assert Path(c, s0, [], s0);
    Fetch(c, s0, s0, 0, 0, c.layout.start);
    var s1 := Fetched(s0, 0, 0, c.layout.start);
    var s2 := DoReadHead(c, s1, 0);
    assert Reaches(c, s0, s2) by { Extend(c, s0, s1, ReadHead(0)); }
    var s3 := DoForgetLog(s2);
    assert Reaches(c, s0, s3) by { Extend(c, s0, s2, ForgetLog); }
    s' := DoClearHead(c, s3, 0);
    assert Reaches(c, s0, s') by { Extend(c, s0, s3, ClearHead(0)); }
  }

  /** The log is empty, and the boot thread still has the header's buffer. */
  ghost predicate Cleared(c: Config, s: State) {
    && !s.panicked && s.phase.Running? && !s.committing && s.outstanding == 0 && s.lh == [] && s.asleep == {}
    && c.layout.size == |s.disk| && s.ops == [NoOp, NoOp, NoOp] && |s.bufs| == NBUF
    && CanReleaseSleep(s, 0, 0) && s.bufs[0].refcnt == 1 && s.bufs[0].blockno == c.layout.start
    && s.bufs[0].waiters == {} == s.bufs[0].leaving
    && forall i :: 1 <= i < NBUF ==> s.bufs[i] == FreshBuf()
  }

  lemma BootUp(c: Config) returns (s': State)
    requires Roomy(c)
    ensures Reaches(c, Blank(c), s') && Quiet(c, s', Targets(c))
  {
    var s := BootClear(c);
    Release(c, Blank(c), s, 0, 0);
    s' := DoDropRef(DoReleaseSleep(s, 0, 0), 0, 0);
  }

  lemma {:induction false} PathInv(c: Config, s: State, steps: seq<Step>, s': State)
    requires Inv(c, s) && Path(c, s, steps, s')
    ensures Inv(c, s')
    decreases |steps|
  {
    if steps != [] {
      StepInv(c, s, steps[0]);
      PathInv(c, Apply(c, s, steps[0]), steps[1..], s');
    }
  }

  lemma Overflow(c: Config) returns (s': State)
    requires Roomy(c) && c.opMax >= MAXOPBLOCKS
    ensures Reaches(c, Blank(c), s') && s'.panicked
  {
    s' := BootUp(c);
    s' := FillUp(c, Blank(c), s', Targets(c), LOGBLOCKS);
    s' := Relog(c, Blank(c), s', Targets(c));
  }

  /** The kernel never panics in log_write, from any power-on, if and only if every operation logs fewer
      than MAXOPBLOCKS distinct blocks. With exactly MAXOPBLOCKS, which param.h permits, it can. */
  lemma ReservationExact(c: Config)
    requires Roomy(c)
    ensures c.opMax < MAXOPBLOCKS <==> forall s, s' :: PowerOn(c, s) && Reaches(c, s, s') ==> !s'.panicked
  {
    if c.opMax < MAXOPBLOCKS {
      forall s, s' | PowerOn(c, s) && Reaches(c, s, s') ensures !s'.panicked {
        InitInv(c, s);
        var p :| Path(c, s, p, s');
        PathInv(c, s, p, s');
      }
    } else {
      var s' := Overflow(c);
      BlankPowerOn(c);
    }
  }
}
