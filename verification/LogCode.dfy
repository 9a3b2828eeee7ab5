/** kernel/log.c as it is written: loops that copy blocks in order, on top of a cache that always
    returns the last value written (LogTheorems.Coherence). `trace` records the disk after each bwrite;
    a crash leaves one of its elements. */
module LogCode {
  import opened Params
  import opened LogFormat

  /** Every disk in t[lo..hi) recovers to `goal`. */
  ghost predicate Recovers(c: Layout, t: seq<Disk>, lo: nat, hi: nat, goal: Disk) {
    lo <= hi <= |t| && forall i :: lo <= i < hi ==> RecoverableTo(c, t[i], goal)
  }

  lemma RecoversMore(c: Layout, t: seq<Disk>, t': seq<Disk>, lo: nat, mid: nat, hi: nat, goal: Disk)
    requires t <= t' && Recovers(c, t, lo, mid, goal) && Recovers(c, t', mid, hi, goal)
    ensures Recovers(c, t', lo, hi, goal)
  {
    forall i | lo <= i < hi ensures RecoverableTo(c, t'[i], goal) {
      if i < mid { assert t'[i] == t[i]; }
    }
  }

  lemma RecoversNext(c: Layout, p: seq<Disk>, t: seq<Disk>, disk: Disk, goal: Disk)
    requires p <= t && Recovers(c, t, |p|, |t|, goal) && RecoverableTo(c, disk, goal)
    ensures p <= t + [disk] && Recovers(c, t + [disk], |p|, |t| + 1, goal)
  {
  }

  lemma NextInstall(c: Layout, from: Disk, disk: Disk, goal: Disk, h: seq<nat>, i: nat)
    requires RecoverableTo(c, disk, goal) && h == ReadHeader(disk[c.start]) && i < |h|
    requires |from| == c.size && disk == Install(c, from, h, i)
    ensures disk[c.start + 1 + i] == goal[h[i]]
    ensures Install(c, from, h, i + 1) == disk[h[i] := goal[h[i]]]
    ensures RecoverableTo(c, disk[h[i] := goal[h[i]]], goal)
  {
    InstallKeepsRecoverable(c, disk, goal, i);
    var k := c.start + (i + 1);
    assert disk[k] == goal[h[i]];
  }

  /** A block with the given header, whose other words are those of b. */
  lemma HeaderIs(b: Block, h: seq<nat>, r: Block)
    requires |h| < WORDS && r[0] == |h| && ReadHeader(r) == h && forall w :: |h| < w < WORDS ==> r[w] == b[w]
    ensures r == WriteHeader(b, h)
  {
    forall w | 0 <= w < WORDS ensures r[w] == WriteHeader(b, h)[w] {
      if 1 <= w <= |h| { assert r[w] == ReadHeader(r)[w - 1] && WriteHeader(b, h)[w] == h[w - 1]; }
    }
  }

  /** What the operations in progress may still add to the log. */
  function Total(left: seq<nat>): nat { if left == [] then 0 else Total(left[..|left| - 1]) + left[|left| - 1] }

  lemma {:induction false} TotalBound(left: seq<nat>)
    requires forall j :: 0 <= j < |left| ==> left[j] <= MAXOPBLOCKS
    ensures Total(left) <= |left| * MAXOPBLOCKS
  {
    if left != [] { TotalBound(left[..|left| - 1]); }
  }

  lemma {:induction false} TotalUpdate(left: seq<nat>, op: nat, n: nat)
    requires op < |left|
    ensures Total(left[op := n]) + left[op] == Total(left) + n
  {
    var m := |left| - 1;
    if op == m {
      assert left[op := n][..m] == left[..m];
    } else {
      assert left[op := n][..m] == left[..m][op := n];
      TotalUpdate(left[..m], op, n);
    }
  }

  lemma {:induction false} TotalWithout(left: seq<nat>, op: nat)
    requires op < |left|
    ensures Total(left[..op] + left[op + 1..]) + left[op] == Total(left)
  {
    var m := |left| - 1;
    var rest := left[..op] + left[op + 1..];
    if op == m {
      assert rest == left[..m];
    } else {
      assert rest[..m - 1] == left[..m][..op] + left[..m][op + 1..] && rest[m - 1] == left[m];
      TotalWithout(left[..m], op);
    }
  }

  class Log {
    const c: Layout
    var disk: Disk
    var view: Disk        // what bread returns
    var lh: seq<nat>      // log.lh.block[..log.lh.n]
    var outstanding: int
    var committing: bool
    var ncommit: nat
    ghost var trace: seq<Disk>
    ghost var left: seq<nat>   // for each operation in progress, the entries it may still add

    ghost predicate Valid()
      reads this
    {
      && ValidLayout(c) && |disk| == |view| == c.size
      && (forall k :: 0 <= k < c.size && !Home(c, k) ==> view[k] == disk[k])
    }

    /** Every update not yet at home is logged, and nothing is committed that is not at home. */
    ghost predicate Pending()
      reads this
    {
      && Valid() && ValidEntries(c, lh) && disk[c.start][0] == 0
      && forall k :: Home(c, k) && k !in lh ==> view[k] == disk[k]
    }

    /** The log has room for all that the operations in progress may still add. */
    ghost predicate Reserved()
      reads this`lh, this`outstanding, this`left
    {
      && outstanding == |left| && |lh| + Total(left) <= LOGBLOCKS
      && forall j :: 0 <= j < |left| ==> left[j] <= MAXOPBLOCKS
    }

    constructor (c: Layout, image: Disk)
      requires ValidLayout(c) && |image| == c.size
      ensures this.c == c && Valid() && disk == view == image && lh == [] && trace == []
      ensures outstanding == 0 && !committing && ncommit == 0 && Reserved()
    {
      this.c := c;
      disk, view, lh, trace, left := image, image, [], [], [];
      outstanding, committing, ncommit := 0, false, 0;
    }

    method Bwrite(k: nat, v: Block)
      requires Valid() && k < c.size
      modifies this`disk, this`view, this`trace
      ensures Valid() && disk == old(disk)[k := v] && view == old(view)[k := v]
      ensures trace == old(trace) + [disk]
    {
      view := view[k := v];
      disk := disk[k := v];
      trace := trace + [disk];
    }

    /** log_write by operation `op`: appends the block number unless it is logged already; false is a panic. Within
        its reservation an operation never panics, and leaves the others theirs. */
    method LogWrite(k: nat, ghost op: nat) returns (ok: bool)
      requires Reserved() && Distinct(lh)
      modifies this`lh, this`left
      ensures ok == (|old(lh)| < LOGBLOCKS && outstanding >= 1)
      ensures lh == if ok && k !in old(lh) then old(lh) + [k] else old(lh)
      ensures |lh| <= LOGBLOCKS && Distinct(lh) && (ok ==> k in lh)
      ensures op < |old(left)| && old(left)[op] > 0 ==>
                ok && Reserved() && left == if k in old(lh) then old(left) else old(left)[op := old(left)[op] - 1]
    {
      if op < |left| && left[op] > 0 { TotalUpdate(left, op, left[op] - 1); }
      if |lh| >= LOGBLOCKS || outstanding < 1 { return false; }
      var i := 0;
      while i < |lh|
        invariant 0 <= i <= |lh| && k !in lh[..i]
      {
        if lh[i] == k { break; }
        i := i + 1;
      }
      if i == |lh| {
        lh := lh + [k];
        if op < |left| && left[op] > 0 { left := left[op := left[op] - 1]; }
      } else {
        lh := lh[i := k];
      }
      return true;
    }

    /** write_log: the cached blocks go to the log area, in header order. */
    method WriteLog()
      requires Pending()
      modifies this`disk, this`view, this`trace
      ensures Pending()
      ensures forall j :: 0 <= j < |lh| ==> disk[c.start + 1 + j] == old(view)[lh[j]]
      ensures SameHome(c, disk, old(disk)) && SameHome(c, view, old(view))
      ensures |trace| == |old(trace)| + |lh| && old(trace) <= trace
      ensures forall i :: |old(trace)| <= i < |trace| ==> SameHome(c, trace[i], old(disk)) && trace[i][c.start][0] == 0
    {
      var tail := 0;
      while tail < |lh|
        invariant 0 <= tail <= |lh| && Pending()
        invariant forall j :: 0 <= j < tail ==> disk[c.start + 1 + j] == old(view)[lh[j]]
        invariant SameHome(c, disk, old(disk)) && SameHome(c, view, old(view))
        invariant |trace| == |old(trace)| + tail && old(trace) <= trace
        invariant forall i :: |old(trace)| <= i < |trace| ==>
                    SameHome(c, trace[i], old(disk)) && trace[i][c.start][0] == 0
      {
        Bwrite(c.start + tail + 1, view[lh[tail]]);
        tail := tail + 1;
      }
    }

    /** write_head: after one block write the header on disk reads back as the one in memory; its other words, and
        every other block, are as before. */
    method WriteHead()
      requires Valid() && |lh| < WORDS
      modifies this`disk, this`view, this`trace
      ensures Valid() && trace == old(trace) + [disk]
      ensures disk[c.start][0] == |lh| && ReadHeader(disk[c.start]) == lh
      ensures forall w :: |lh| < w < WORDS ==> disk[c.start][w] == old(view)[c.start][w]
      ensures forall k :: 0 <= k < c.size && k != c.start ==> disk[k] == old(disk)[k] && view[k] == old(view)[k]
    {
      var hb: seq<nat> := view[c.start];
      hb := hb[0 := |lh|];
      var i := 0;
      while i < |lh|
        invariant 0 <= i <= |lh| && |hb| == WORDS && hb[0] == |lh|
        invariant forall j :: 0 <= j < i ==> hb[1 + j] == lh[j]
        invariant forall w :: i < w < WORDS ==> hb[w] == view[c.start][w]
      {
        hb := hb[1 + i := lh[i]];
        i := i + 1;
      }
      assert hb[1..1 + |lh|] == lh;
      Bwrite(c.start, hb);
    }

    /** Part way through install_trans, with `tail` of the blocks at home. */
    ghost predicate Installing(from: Disk, goal: Disk, tail: nat)
      reads this
    {
      && Valid() && RecoverableTo(c, disk, goal) && lh == ReadHeader(disk[c.start])
      && tail <= |lh| && |from| == c.size && disk == Install(c, from, lh, tail)
      && forall k :: Home(c, k) ==> view[k] == disk[k] || view[k] == goal[k]
    }

    method InstallOne(tail: nat, ghost from: Disk, ghost goal: Disk)
      requires Installing(from, goal, tail) && tail < |lh|
      modifies this`disk, this`view, this`trace
      ensures Installing(from, goal, tail + 1) && trace == old(trace) + [disk]
    {
      NextInstall(c, from, disk, goal, lh, tail);
      Bwrite(lh[tail], view[c.start + 1 + tail]);
    }

    /** install_trans: each committed block goes home; the disk recovers to `goal` throughout. */
    method InstallTrans(ghost goal: Disk)
      requires Installing(disk, goal, 0)
      modifies this`disk, this`view, this`trace
      ensures Valid() && SameHome(c, disk, goal) && SameHome(c, view, goal)
      ensures disk == Install(c, old(disk), lh, |lh|)
      ensures old(trace) <= trace && |trace| == |old(trace)| + |lh|
      ensures Recovers(c, trace, |old(trace)|, |trace|, goal)
    {
      var tail := 0;
      while tail < |lh|
        invariant Installing(old(disk), goal, tail)
        invariant old(trace) <= trace && |trace| == |old(trace)| + tail
        invariant Recovers(c, trace, |old(trace)|, |trace|, goal)
      {
        ghost var before := trace;
        InstallOne(tail, old(disk), goal);
        RecoversNext(c, old(trace), before, disk, goal);
        tail := tail + 1;
      }
      AllInstalled(old(disk), goal);
    }

    lemma AllInstalled(from: Disk, goal: Disk)
      requires Installing(from, goal, |lh|) && RecoverableTo(c, from, goal) && lh == ReadHeader(from[c.start])
      ensures SameHome(c, disk, goal) && SameHome(c, view, goal)
    {
      InstallEffect(c, from, lh, |lh|);
      assert lh[..|lh|] == lh;
    }

    /** The end of commit and of recovery: the emptied header is written. */
    method Erase(ghost goal: Disk)
      requires Valid() && SameHome(c, disk, goal)
      requires SameHome(c, view, goal)
      modifies this`disk, this`view, this`lh, this`trace
      ensures Pending() && lh == [] && SameHome(c, disk, goal) && SameHome(c, view, goal)
      ensures disk == old(disk)[c.start := WriteHeader(old(view)[c.start], [])] && disk[c.start] == view[c.start]
      ensures trace == old(trace) + [disk] && RecoverableTo(c, disk, goal)
    {
      lh := [];
      WriteHead();
      HeaderIs(old(view)[c.start], [], disk[c.start]);
      assert disk == old(disk)[c.start := disk[c.start]];
    }

    method ReadHead()
      requires Valid() && view[c.start][0] < WORDS
      modifies this`lh
      ensures lh == ReadHeader(view[c.start])
    {
      var h := view[c.start];
      var n := h[0];
      lh := [];
      var i := 0;
      while i < n
        invariant 0 <= i <= n && lh == h[1..1 + i]
      {
        lh := lh + [h[1 + i]];
        i := i + 1;
      }
    }

    /** recover_from_log computes Boot, and may be cut off after any of its writes. */
    method RecoverFromLog(ghost goal: Disk)
      requires Valid() && view == disk && RecoverableTo(c, disk, goal)
      modifies this`disk, this`view, this`lh, this`trace
      ensures Pending() && lh == [] && view == disk
      ensures disk == Boot(c, old(disk), WORDS) && SameHome(c, disk, goal)
      ensures old(trace) <= trace
      ensures Recovers(c, trace, |old(trace)|, |trace|, goal)
    {
      ReadHead();
      InstallTrans(goal);
      assert view == disk;
      BootRecovers(c, old(disk), goal, WORDS);
      Erase(goal);
      assert disk == Boot(c, old(disk), WORDS);
    }

    /** The first half of commit, up to and including the header write. */
    method WriteLogAndHead() returns (ghost point: nat)
      requires Pending()
      modifies this`disk, this`view, this`trace
      ensures Valid() && SameHome(c, view, old(view)) && RecoverableTo(c, disk, old(view))
      ensures lh == ReadHeader(disk[c.start])
      ensures old(trace) <= trace && |trace| == point + 1 && trace[point] == disk
      ensures Recovers(c, trace, |old(trace)|, point, old(disk))
    {
      WriteLog();
      point := |trace|;
      forall i | |old(trace)| <= i < point ensures RecoverableTo(c, trace[i], old(disk)) {
        assert ReadHeader(trace[i][c.start]) == [];
      }
      WriteHead();
      assert RecoverableTo(c, disk, old(view));
    }

    /** commit: until the header is written a crash gives the old home contents, from then on all that
        was written; `point` is the write that commits. */
    method Commit() returns (ghost point: nat)
      requires Pending()
      modifies this`disk, this`view, this`lh, this`trace
      ensures Pending() && lh == [] && SameHome(c, disk, old(view)) && SameHome(c, view, old(view))
      ensures old(trace) <= trace
      ensures Recovers(c, trace, |old(trace)|, point, old(disk))
      ensures Recovers(c, trace, point, |trace|, old(view))
      ensures old(lh) != [] ==> point < |trace|
    {
      point := |trace|;
      if |lh| > 0 {
        point := WriteLogAndHead();
        ghost var t1 := trace;
        InstallTrans(old(view));
        ghost var t2 := trace;
        Erase(old(view));
        RecoversMore(c, t1, trace, |old(trace)|, point, point, old(disk));
        RecoversMore(c, t1, t2, point, |t1|, |t2|, old(view));
        RecoversMore(c, t2, trace, point, |t2|, |trace|, old(view));
      }
    }

    /** begin_op: true when the operation may start, false when the caller must sleep and try again. An operation that
        starts finds the log with room for MAXOPBLOCKS entries of its own beside all that the others may still add; one
        that has to wait has a commit or an operation to wait for. */
    method BeginOp() returns (started: bool)
      requires Reserved() && (outstanding == 0 && !committing ==> lh == [])
      modifies this`outstanding, this`left
      ensures Reserved() && left == if started then old(left) + [MAXOPBLOCKS] else old(left)
      ensures started ==> !committing
      ensures !started ==> committing || (outstanding > 0 && |lh| + (outstanding + 1) * MAXOPBLOCKS > LOGBLOCKS)
    {
      if committing {
        started := false;
      } else if |lh| + (outstanding + 1) * MAXOPBLOCKS > LOGBLOCKS {
        started := false;
      } else {
        TotalBound(left);
        outstanding := outstanding + 1;
        started := true;
        assert (left + [MAXOPBLOCKS])[..|left|] == left;
        left := left + [MAXOPBLOCKS];
      }
    }

    /** end_op by operation `op`: what it has not used is free for others; the last operation to end commits the whole
        group. */
    method EndOp(ghost op: nat) returns (ghost point: nat)
      requires Pending() && Reserved() && !committing && op < |left|
      modifies this`disk, this`view, this`lh, this`trace, this`outstanding, this`committing, this`ncommit, this`left
      ensures Pending() && Reserved() && !committing && left == old(left)[..op] + old(left)[op + 1..]
      ensures outstanding > 0 ==> lh == old(lh) && disk == old(disk) && view == old(view) && trace == old(trace)
                                  && ncommit == old(ncommit)
      ensures outstanding == 0 ==>
                && lh == [] && SameHome(c, disk, old(view)) && ncommit == old(ncommit) + 1
                && old(trace) <= trace && Recovers(c, trace, |old(trace)|, point, old(disk))
                && Recovers(c, trace, point, |trace|, old(view))
    {
      point := 0;
      TotalWithout(left, op);
      left := left[..op] + left[op + 1..];
      var doCommit := false;
      outstanding := outstanding - 1;
      if outstanding == 0 {
        doCommit := true;
        committing := true;
      }
      if doCommit {
        point := Commit();
        committing := false;
        ncommit := ncommit + 1;
      }
    }
  }
}
