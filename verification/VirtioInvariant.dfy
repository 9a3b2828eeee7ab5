/** What every step of driver and device keeps, and what follows for every run. */
module VirtioInvariant {
  import opened Options
  import opened VirtioMachine

  function Triple(h: nat, l: Live): set<nat> { {h, l.d1, l.d2} }

  predicate Finished(p: Phase) { p == Done || p == Returned || p == Seen }

  /** The three descriptors as virtio_disk_rw formats them. */
  predicate Formatted(s: State, h: nat, l: Live)
    requires Sized(s)
  {
    && h < NUM && l.d1 < NUM && l.d2 < NUM && h != l.d1 && h != l.d2 && l.d1 != l.d2
    && s.desc[h].addr == Op(h) && s.desc[h].flags == F_NEXT && s.desc[h].next == l.d1
    && s.desc[l.d1].addr == Data(l.b) && s.desc[l.d1].flags == (if l.write then F_NEXT else F_WRITE + F_NEXT)
    && s.desc[l.d1].next == l.d2
    && s.desc[l.d2].addr == Status(h) && s.desc[l.d2].flags == F_WRITE
  }

  /** A request owns its descriptors and its buffer, and when the device is done with it the block on disk and the
      buffer agree. */
  predicate ReqOk(s: State, h: nat)
    requires Sized(s)
  {
    h in s.live ==>
      var l := s.live[h];
      && Formatted(s, h, l) && !s.free[h] && !s.free[l.d1] && !s.free[l.d2]
      && l.b < |s.bufs| && s.bufs[l.b].busy == (l.phase != Seen) && s.info[h].b == Some(l.b)
      && s.ops[h] == Req(l.write, s.bufs[l.b].blockno) && s.bufs[l.b].blockno in s.disk
      && (l.write || Finished(l.phase) ==> s.bufs[l.b].data == l.sent)
      && (!l.write || Finished(l.phase) ==> s.disk[s.bufs[l.b].blockno] == l.sent)
      && (Finished(l.phase) ==> s.info[h].status == 0)
      && (l.phase == Prepared ==> s.drv == Publishing(h))
  }

  /** Requests in flight share no descriptor, buffer or block. */
  predicate Apart(s: State, h: nat, k: nat)
    requires Sized(s)
  {
    h in s.live && k in s.live && h != k ==>
      && Triple(h, s.live[h]) !! Triple(k, s.live[k]) && s.live[h].b != s.live[k].b
      && s.live[h].b < |s.bufs| && s.live[k].b < |s.bufs|
      && s.bufs[s.live[h].b].blockno != s.bufs[s.live[k].b].blockno
  }

  /** A ring holds q in the slots from number `tail` on. */
  ghost predicate Holds(ring: seq<nat>, q: seq<nat>, tail: nat)
    requires |ring| == NUM
  {
    && |q| <= NUM
    && (forall i :: 0 <= i < |q| ==> ring[Slot(tail, i)] == q[i])
    && (forall i, j :: 0 <= i < j < |q| ==> q[i] != q[j])
  }

  function Slot(tail: nat, i: nat): nat { (tail + i) % NUM }

  ghost predicate InPhase(s: State, q: seq<nat>, p: Phase) {
    forall i :: 0 <= i < |q| ==> q[i] in s.live && s.live[q[i]].phase == p
  }

  /** The rings hold the requests offered and not taken, and those returned and not seen; the 16-bit indices are
      the true counts, wrapped. */
  ghost predicate Rings(s: State)
    requires Sized(s)
  {
    && s.offered == s.taken + |s.availQ| && s.returned == s.seen + |s.usedQ|
    && s.availIdx == s.offered % WRAP && s.devIdx == s.taken % WRAP
    && s.usedIdx == s.returned % WRAP && s.drvIdx == s.seen % WRAP
    && Holds(s.avail, s.availQ, s.taken) && InPhase(s, s.availQ, Offered)
    && Holds(s.used, s.usedQ, s.seen) && InPhase(s, s.usedQ, Returned)
    && (s.drv.Publishing? ==>
          s.drv.h in s.live && s.live[s.drv.h].phase == Prepared && s.avail[s.offered % NUM] == s.drv.h
          && |s.availQ| < NUM)
  }

  ghost predicate Inv(s: State) {
    && Sized(s) && Rings(s)
    && (forall h {:trigger ReqOk(s, h)} :: ReqOk(s, h))
    && (forall h, k {:trigger Apart(s, h, k)} :: Apart(s, h, k))
  }

  // ---- arithmetic of the indices

  lemma WrapSlot(n: nat)
    ensures n % WRAP % NUM == n % NUM
  {
    EightsGone(8192 * (n / WRAP), n % WRAP);
  }

  lemma EightsGone(k: nat, x: nat)
    ensures (NUM * k + x) % NUM == x % NUM
  {
  }

  lemma WrapEqual(a: nat, n: nat)
    requires n <= NUM
    ensures (a + n) % WRAP == a % WRAP <==> n == 0
    ensures ((a % WRAP) + 1) % WRAP == (a + 1) % WRAP
  {
  }

  lemma SlotApart(tail: nat, i: nat, j: nat)
    requires i < j < NUM
    ensures Slot(tail, i) != Slot(tail, j)
  {
    assert (tail + j) - (tail + i) == j - i;
  }

  // ---- fewer heads than slots

  function Elems(q: seq<nat>): set<nat> { set x | x in q }

  /** Distinct heads, none of them h: fewer than NUM. */
  lemma Pigeons(q: seq<nat>, h: nat)
    requires (forall i :: 0 <= i < |q| ==> q[i] < NUM && q[i] != h) && h < NUM
    requires forall i, j :: 0 <= i < j < |q| ==> q[i] != q[j]
    ensures |q| < NUM
  {
    var all: set<nat> := {0, 1, 2, 3, 4, 5, 6, 7};
    var s := Elems(q);
    Distinct(q);
    assert h !in s && s + {h} <= all;
    assert |s + {h}| == |s| + 1 && |all| == NUM;
    Subset(s + {h}, all);
  }

  lemma {:induction false} Distinct(q: seq<nat>)
    requires forall i, j :: 0 <= i < j < |q| ==> q[i] != q[j]
    ensures |Elems(q)| == |q|
  {
    if q == [] {
      assert Elems(q) == {};
    } else {
      var r, y := q[..|q| - 1], q[|q| - 1];
      Distinct(r);
      assert q == r + [y];
      assert Elems(q) == Elems(r) + {y};
      assert y !in Elems(r);
    }
  }

  lemma {:induction false} Subset(a: set<nat>, b: set<nat>)
    requires a <= b
    ensures |a| <= |b|
    decreases a
  {
    if a != {} {
      var x :| x in a;
      Subset(a - {x}, b - {x});
      assert |a - {x}| == |a| - 1 && |b - {x}| == |b| - 1;
    }
  }

  // ---- the driver's steps

  lemma Alloc3(free: seq<bool>)
    requires CanAlloc3(free)
    ensures var i0, i1, i2 := FirstFree(free, 0), FirstFree(Without(free), 0), FirstFree(Without(Without(free)), 0);
            && i0 < NUM && i1 < NUM && i2 < NUM && i0 != i1 && i0 != i2 && i1 != i2 && free[i0] && free[i1] && free[i2]
            && Without(Without(Without(free))) == free[i0 := false][i1 := false][i2 := false]
  {
  }

  lemma PrepareNew(s: State, b: nat, write: bool)
    requires CanPrepare(s, b)
    ensures Sized(DoPrepare(s, b, write)) && ReqOk(DoPrepare(s, b, write), FirstFree(s.free, 0))
  {
    Alloc3(s.free);
  }

  lemma PrepareOld(s: State, b: nat, write: bool, h: nat)
    requires CanPrepare(s, b) && h in s.live && ReqOk(s, h)
    ensures Sized(DoPrepare(s, b, write)) && ReqOk(DoPrepare(s, b, write), h)
  {
    Alloc3(s.free);
    var l, s' := s.live[h], DoPrepare(s, b, write);
    assert s'.live[h] == l && s'.bufs[l.b] == s.bufs[l.b];
    assert s'.desc[h] == s.desc[h] && s'.desc[l.d1] == s.desc[l.d1] && s'.desc[l.d2] == s.desc[l.d2];
    assert s'.info[h] == s.info[h] && s'.ops[h] == s.ops[h] && !s'.free[h] && !s'.free[l.d1] && !s'.free[l.d2];
  }

  lemma PrepareApart(s: State, b: nat, write: bool, h: nat, k: nat)
    requires CanPrepare(s, b) && ReqOk(s, h) && ReqOk(s, k) && Apart(s, h, k)
    ensures Sized(DoPrepare(s, b, write)) && Apart(DoPrepare(s, b, write), h, k)
  {
    Alloc3(s.free);
  }

  /** A slot past the end of the queue is written. */
  lemma HoldsMore(ring: seq<nat>, q: seq<nat>, tail: nat, h: nat)
    requires |ring| == NUM && Holds(ring, q, tail) && |q| < NUM
    ensures Holds(ring[Slot(tail, |q|) := h], q, tail)
    ensures (forall i :: 0 <= i < |q| ==> q[i] != h) ==> Holds(ring[Slot(tail, |q|) := h], q + [h], tail)
  {
    var r := ring[Slot(tail, |q|) := h];
    forall i | 0 <= i < |q| ensures r[Slot(tail, i)] == q[i] { SlotApart(tail, i, |q|); }
  }

  lemma HoldsRest(ring: seq<nat>, q: seq<nat>, tail: nat)
    requires |ring| == NUM && Holds(ring, q, tail) && q != []
    ensures Holds(ring, q[1..], tail + 1) && ring[tail % NUM] == q[0]
  {
    var r := q[1..];
    assert Slot(tail, 0) == tail % NUM;
    forall i | 0 <= i < |r| ensures ring[Slot(tail + 1, i)] == r[i] { assert Slot(tail + 1, i) == Slot(tail, i + 1); }
  }

  lemma Fewer(s: State, q: seq<nat>, p: Phase, h: nat)
    requires Inv(s) && InPhase(s, q, p) && (forall i, j :: 0 <= i < j < |q| ==> q[i] != q[j])
    requires h < NUM && (h in s.live ==> s.live[h].phase != p)
    ensures |q| < NUM && forall i :: 0 <= i < |q| ==> q[i] != h
  {
    forall i | 0 <= i < |q| ensures q[i] < NUM && q[i] != h { assert ReqOk(s, q[i]); }
    Pigeons(q, h);
  }

  lemma PrepareRings(s: State, b: nat, write: bool)
    requires Inv(s) && CanPrepare(s, b)
    ensures Sized(DoPrepare(s, b, write)) && Rings(DoPrepare(s, b, write))
  {
    var s' := DoPrepare(s, b, write);
    Alloc3(s.free);
    var h := FirstFree(s.free, 0);
    assert ReqOk(s, h);
    assert h !in s.live;
    Fewer(s, s.availQ, Offered, h);
    Fewer(s, s.usedQ, Returned, h);
    WrapSlot(s.offered);
    assert Slot(s.taken, |s.availQ|) == s.offered % NUM;
    HoldsMore(s.avail, s.availQ, s.taken, h);
  }

  lemma PublishInv(s: State)
    requires Inv(s) && CanPublish(s)
    ensures Inv(DoPublish(s))
  {
    var s', h := DoPublish(s), s.drv.h;
    assert ReqOk(s, h);
    Fewer(s, s.availQ, Offered, h);
    HoldsMore(s.avail, s.availQ, s.taken, h);
    assert Slot(s.taken, |s.availQ|) == s.offered % NUM;
    assert s.avail[Slot(s.taken, |s.availQ|) := h] == s.avail;
    WrapEqual(s.offered, 1);
    forall k ensures ReqOk(s', k) { assert ReqOk(s, k); }
    forall j, k ensures Apart(s', j, k) { assert Apart(s, j, k); }
  }

  lemma PrepareInv(s: State, b: nat, write: bool)
    requires Inv(s) && CanPrepare(s, b)
    ensures Inv(DoPrepare(s, b, write))
  {
    var s' := DoPrepare(s, b, write);
    PrepareRings(s, b, write);
    forall h ensures ReqOk(s', h) {
      assert ReqOk(s, h);
      if h == FirstFree(s.free, 0) { PrepareNew(s, b, write); } else if h in s.live { PrepareOld(s, b, write, h); }
    }
    forall h, k ensures Apart(s', h, k) {
      assert ReqOk(s, h) && ReqOk(s, k) && Apart(s, h, k);
      PrepareApart(s, b, write, h, k);
    }
  }

  /** virtio_disk_intr finds the oldest request returned, with status 0. */
  lemma IntrSound(s: State)
    requires Inv(s) && s.drv == Intr && s.drvIdx != s.usedIdx
    ensures s.usedQ != [] && CanIntr(s) && IntrChecks(s) && s.used[s.drvIdx % NUM] == s.usedQ[0]
    ensures s.info[s.usedQ[0]].b == Some(s.live[s.usedQ[0]].b)
  {
    WrapEqual(s.seen, |s.usedQ|);
    WrapSlot(s.seen);
    HoldsRest(s.used, s.usedQ, s.seen);
    assert ReqOk(s, s.usedQ[0]);
  }

  lemma IntrInv(s: State)
    requires Inv(s) && CanIntr(s) && IntrChecks(s)
    ensures Inv(DoIntr(s))
  {
    IntrSound(s);
    var s', h := DoIntr(s), s.usedQ[0];
    HoldsRest(s.used, s.usedQ, s.seen);
    WrapEqual(s.seen, 1);
    assert ReqOk(s, h);
    forall i | 0 <= i < |s.availQ| ensures s.availQ[i] != h { }
    forall k ensures ReqOk(s', k) { assert ReqOk(s, k) && Apart(s, h, k); }
    forall j, k ensures Apart(s', j, k) { assert Apart(s, j, k); }
  }

  // ---- the end of a request

  /** The chain of a request is its three descriptors. */
  lemma ChainIs(s: State, h: nat)
    requires Inv(s) && h in s.live
    ensures h < NUM && Chain(s.desc, h, NUM) == [h, s.live[h].d1, s.live[h].d2]
  {
    assert ReqOk(s, h);
    var l := s.live[h];
    assert Chain(s.desc, l.d2, NUM - 2) == [l.d2];
    assert Chain(s.desc, l.d1, NUM - 1) == [l.d1] + Chain(s.desc, l.d2, NUM - 2);
  }

  lemma Peel(x: nat, r: seq<nat>)
    ensures ([x] + r)[0] == x && ([x] + r)[1..] == r
  {
  }

  lemma FreeThree(free: seq<bool>, a: nat, b: nat, c: nat)
    requires |free| == NUM && a < NUM && b < NUM && c < NUM
    ensures FreeAll(free, [a, b, c]) == free[a := true][b := true][c := true]
  {
    var f1 := free[a := true];
    var f2 := f1[b := true];
    Peel(a, [b, c]);
    Peel(b, [c]);
    Peel(c, []);
    assert [a] + [b, c] == [a, b, c] && [b] + [c] == [b, c] && [c] + [] == [c];
    assert FreeAll(f2, [c]) == f2[c := true];
    assert FreeAll(f1, [b, c]) == FreeAll(f2, [c]);
  }

  lemma FreeableThree(free: seq<bool>, a: nat, b: nat, c: nat)
    requires |free| == NUM && a < NUM && b < NUM && c < NUM && a != b && a != c && b != c
    requires !free[a] && !free[b] && !free[c]
    ensures ChainFreeable(free, [a, b, c])
  {
    var f1 := free[a := true];
    var f2 := f1[b := true];
    Peel(a, [b, c]);
    Peel(b, [c]);
    Peel(c, []);
    assert [a] + [b, c] == [a, b, c] && [b] + [c] == [b, c] && [c] + [] == [c];
    assert ChainFreeable(f2, [c]);
    assert ChainFreeable(f1, [b, c]);
  }

  lemma ClearThree(desc: seq<Desc>, a: nat, b: nat, c: nat)
    requires |desc| == NUM && a < NUM && b < NUM && c < NUM
    ensures ClearAll(desc, [a, b, c]) == desc[a := CLEAR][b := CLEAR][c := CLEAR]
  {
    var d1 := desc[a := CLEAR];
    var d2 := d1[b := CLEAR];
    Peel(a, [b, c]);
    Peel(b, [c]);
    Peel(c, []);
    assert [a] + [b, c] == [a, b, c] && [b] + [c] == [b, c] && [c] + [] == [c];
    assert ClearAll(d2, [c]) == d2[c := CLEAR];
    assert ClearAll(d1, [b, c]) == ClearAll(d2, [c]);
  }

  lemma FinishSound(s: State, h: nat)
    requires Inv(s) && CanFinish(s, h)
    ensures h < NUM && ChainFreeable(s.free, Chain(s.desc, h, NUM)) && s.live[h].phase == Seen
  {
    assert ReqOk(s, h);
    ChainIs(s, h);
    FreeableThree(s.free, h, s.live[h].d1, s.live[h].d2);
  }

  lemma FinishInv(s: State, h: nat)
    requires Inv(s) && CanFinish(s, h) && h < NUM
    ensures Inv(DoFinish(s, h))
  {
    var s', l := DoFinish(s, h), s.live[h];
    assert ReqOk(s, h);
    ChainIs(s, h);
    FreeThree(s.free, h, l.d1, l.d2);
    ClearThree(s.desc, h, l.d1, l.d2);
    forall k ensures ReqOk(s', k) { assert ReqOk(s, k) && Apart(s, h, k); }
    forall j, k ensures Apart(s', j, k) { assert Apart(s, j, k); }
  }

  // ---- the device's steps

  lemma TakeInv(s: State)
    requires Inv(s) && CanTake(s)
    ensures s.availQ != [] && s.avail[s.devIdx % NUM] == s.availQ[0] && Inv(DoTake(s))
  {
    WrapEqual(s.taken, |s.availQ|);
    WrapSlot(s.taken);
    HoldsRest(s.avail, s.availQ, s.taken);
    WrapEqual(s.taken, 1);
    var s', h := DoTake(s), s.availQ[0];
    forall i | 0 <= i < |s.usedQ| ensures s.usedQ[i] != h { }
    forall k ensures ReqOk(s', k) { assert ReqOk(s, k); }
    forall j, k ensures Apart(s', j, k) { assert Apart(s, j, k); }
  }

  lemma WorkSound(s: State, h: nat)
    requires Inv(s) && h in s.live && s.live[h].phase == Taken
    ensures CanDo(s, h)
  {
    assert ReqOk(s, h);
  }

  lemma WorkInv(s: State, h: nat)
    requires Inv(s) && CanDo(s, h)
    ensures Inv(DoWork(s, h))
  {
    var s' := DoWork(s, h);
    assert ReqOk(s, h);
    forall k ensures ReqOk(s', k) { assert ReqOk(s, k) && Apart(s, h, k); }
    forall j, k ensures Apart(s', j, k) { assert Apart(s, j, k); }
  }

  lemma ReturnInv(s: State, h: nat)
    requires Inv(s) && CanReturn(s, h)
    ensures Inv(DoReturn(s, h))
  {
    var s' := DoReturn(s, h);
    assert ReqOk(s, h);
    Fewer(s, s.usedQ, Returned, h);
    WrapSlot(s.returned);
    assert Slot(s.seen, |s.usedQ|) == s.returned % NUM;
    HoldsMore(s.used, s.usedQ, s.seen, h);
    WrapEqual(s.returned, 1);
    forall k ensures ReqOk(s', k) { assert ReqOk(s, k); }
    forall j, k ensures Apart(s', j, k) { assert Apart(s, j, k); }
  }

  lemma WriteInv(s: State, b: nat, data: nat)
    requires Inv(s) && Enabled(s, Write(b, data))
    ensures Inv(Apply(s, Write(b, data)))
  {
    var s' := Apply(s, Write(b, data));
    forall k ensures ReqOk(s', k) { assert ReqOk(s, k); }
    forall j, k ensures Apart(s', j, k) { assert Apart(s, j, k); }
  }

  lemma DrvInv(s: State, drv: Drv)
    requires Inv(s) && !s.drv.Publishing? && !drv.Publishing?
    ensures Inv(s.(drv := drv))
  {
    var s' := s.(drv := drv);
    forall k ensures ReqOk(s', k) { assert ReqOk(s, k); }
    forall j, k ensures Apart(s', j, k) { assert Apart(s, j, k); }
  }

  /** Every step finds what it needs, so that no panic is reached and the device sees only well-formed requests,
      and keeps the invariant. */
  lemma StepInv(s: State, step: Step)
    requires Inv(s) && Enabled(s, step)
    ensures Sound(s, step) && Inv(Apply(s, step))
  {
    match step {
      case Prepare(b, write) => PrepareInv(s, b, write);
      case Publish => PublishInv(s);
      case IntrBegin => DrvInv(s, Intr);
      case IntrTurn =>
        IntrSound(s);
        IntrInv(s);
      case IntrEnd => DrvInv(s, Idle);
      case Finish(h) =>
        FinishSound(s, h);
        FinishInv(s, h);
      case DevTake => TakeInv(s);
      case DevWork(h) =>
        WorkSound(s, h);
        WorkInv(s, h);
      case DevReturn(h) => ReturnInv(s, h);
      case Write(b, data) => WriteInv(s, b, data);
    }
  }

  // ---- runs

  /** After virtio_disk_init: all descriptors free, rings empty. */
  ghost predicate Init(s: State) {
    && Sized(s) && s.drv == Idle && s.live == map[] && s.availQ == [] && s.usedQ == []
    && s.offered == 0 && s.taken == 0 && s.returned == 0 && s.seen == 0
    && s.availIdx == 0 && s.devIdx == 0 && s.usedIdx == 0 && s.drvIdx == 0
    && (forall i :: 0 <= i < NUM ==> s.free[i])
  }

  ghost predicate IsRun(ss: seq<State>, st: seq<Step>) {
    && |ss| == |st| + 1 && Init(ss[0])
    && forall i :: 0 <= i < |st| ==> Next(ss[i], st[i], ss[i + 1])
  }

  ghost predicate Next(s: State, step: Step, s': State) { Enabled(s, step) && Sound(s, step) && s' == Apply(s, step) }

  lemma {:induction false} RunInv(ss: seq<State>, st: seq<Step>, i: nat)
    requires IsRun(ss, st) && i < |ss|
    ensures Inv(ss[i])
  {
    if i > 0 {
      RunInv(ss, st, i - 1);
      assert Next(ss[i - 1], st[i - 1], ss[i]);
      StepInv(ss[i - 1], st[i - 1]);
    }
  }

  /** Ring safety over every run: what the device takes and what virtio_disk_intr sees are, in order, exactly what
      was offered and returned; neither ring ever holds more than it has room for, whatever the indices have
      wrapped to; and requests in flight own disjoint descriptors that are not free. */
  lemma RingSafety(ss: seq<State>, st: seq<Step>, i: nat)
    requires IsRun(ss, st) && i < |ss|
    ensures Sized(ss[i]) && Rings(ss[i])
    ensures ss[i].seen <= ss[i].returned <= ss[i].seen + NUM && ss[i].taken <= ss[i].offered <= ss[i].taken + NUM
    ensures ss[i].devIdx == ss[i].availIdx <==> ss[i].availQ == []
    ensures ss[i].drvIdx == ss[i].usedIdx <==> ss[i].usedQ == []
    ensures forall h, k :: h in ss[i].live && k in ss[i].live && h != k ==>
              Triple(h, ss[i].live[h]) !! Triple(k, ss[i].live[k])
  {
    RunInv(ss, st, i);
    WrapEqual(ss[i].taken, |ss[i].availQ|);
    WrapEqual(ss[i].seen, |ss[i].usedQ|);
    forall h, k | h in ss[i].live && k in ss[i].live && h != k
      ensures Triple(h, ss[i].live[h]) !! Triple(k, ss[i].live[k])
    {
      assert Apart(ss[i], h, k);
    }
  }

  /** A completion clears the flag of exactly the buffer whose request was returned first. */
  lemma CompletionClears(ss: seq<State>, st: seq<Step>, i: nat)
    requires IsRun(ss, st) && i < |st| && st[i] == IntrTurn
    ensures ss[i].usedQ != [] && ss[i].usedQ[0] in ss[i].live && ss[i].live[ss[i].usedQ[0]].phase == Returned
    ensures var b := ss[i].live[ss[i].usedQ[0]].b;
            b < |ss[i].bufs| && ss[i].bufs[b].busy && ss[i + 1].bufs == ss[i].bufs[b := ss[i].bufs[b].(busy := false)]
  {
    assert Next(ss[i], st[i], ss[i + 1]);
    RunInv(ss, st, i);
    IntrSound(ss[i]);
    assert ReqOk(ss[i], ss[i].usedQ[0]);
  }

  /** free_chain frees exactly the request's three descriptors, each in use until then; and by then the block on
      disk and the buffer both hold what was to be transferred. */
  lemma FinishFreesThree(ss: seq<State>, st: seq<Step>, i: nat, h: nat)
    requires IsRun(ss, st) && i < |st| && st[i] == Finish(h)
    ensures Sized(ss[i]) && Sized(ss[i + 1]) && h in ss[i].live
    ensures var l := ss[i].live[h];
            && h < NUM && l.d1 < NUM && l.d2 < NUM && |Triple(h, l)| == 3
            && !ss[i].free[h] && !ss[i].free[l.d1] && !ss[i].free[l.d2]
            && ss[i + 1].free == ss[i].free[h := true][l.d1 := true][l.d2 := true]
            && l.b < |ss[i].bufs| && ss[i].bufs[l.b].blockno in ss[i].disk
            && ss[i].disk[ss[i].bufs[l.b].blockno] == l.sent && ss[i].bufs[l.b].data == l.sent
  {
    assert Next(ss[i], st[i], ss[i + 1]);
    RunInv(ss, st, i);
    RunInv(ss, st, i + 1);
    FinishSound(ss[i], h);
    assert ReqOk(ss[i], h);
    ChainIs(ss[i], h);
    FreeThree(ss[i].free, h, ss[i].live[h].d1, ss[i].live[h].d2);
  }
}
