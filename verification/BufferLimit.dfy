/** When bget finds no buffer ("bget: no buffers"). */
module BufferLimit {
  import opened Params
  import opened LogFormat
  import opened LogMachine
  import opened LogInvariant
  import opened LogTheorems
  import opened LogOverflow

  /** Some thread holds the buffer, waits for it, or has released it and still counts. */
  predicate Referred(b: Buf) { b.lock.Some? || b.waiters != {} || b.leaving != {} }

  /** bget of a block that is not cached fails. */
  ghost predicate NoBuffers(s: State) { forall b :: 0 <= b < |s.bufs| ==> s.bufs[b].refcnt != 0 }

  lemma RefcntZero(c: Config, run: seq<State>, n: nat, b: nat)
    requires Run(c, run) && n < |run| && b < |run[n].bufs|
    ensures run[n].bufs[b].refcnt == 0 <==> !Referred(run[n].bufs[b]) && run[n].bufs[b].blockno !in Pinned(run[n])
  {
    Coherence(c, run, n, b);
    var buf := run[n].bufs[b];
    if buf.waiters != {} { var t :| t in buf.waiters; assert |buf.waiters - {t}| == |buf.waiters| - 1; }
    if buf.leaving != {} { var t :| t in buf.leaving; assert |buf.leaving - {t}| == |buf.leaving| - 1; }
  }

  function Elems(s: seq<nat>): set<int> { if s == [] then {} else Elems(s[..|s| - 1]) + {s[|s| - 1]} }

  lemma {:induction false} ElemsIff(s: seq<nat>, k: int)
    ensures k in Elems(s) <==> k in s
  {
    if s != [] {
      ElemsIff(s[..|s| - 1], k);
      assert s == s[..|s| - 1] + [s[|s| - 1]];
    }
  }

  lemma {:induction false} DistinctCount(s: seq<nat>)
    requires Distinct(s)
    ensures |Elems(s)| == |s|
  {
    if s != [] {
      var n := |s| - 1;
      DistinctCount(s[..n]);
      ElemsIff(s[..n], s[n]);
    }
  }

  /** The blocks in use: those the log has pinned and those a thread refers to. */
  ghost function Taken(s: State): set<int> {
    Elems(Pinned(s)) + (set b | 0 <= b < |s.bufs| && Referred(s.bufs[b]) :: s.bufs[b].blockno)
  }

  /** How many buffers bget can recycle. */
  function Unused(bufs: seq<Buf>): nat {
    if bufs == [] then 0
    else Unused(bufs[..|bufs| - 1]) + if bufs[|bufs| - 1].refcnt == 0 then 1 else 0
  }

  /** The blocks in the other buffers. */
  function UsedBlocks(bufs: seq<Buf>): set<int> {
    if bufs == [] then {}
    else UsedBlocks(bufs[..|bufs| - 1]) + if bufs[|bufs| - 1].refcnt == 0 then {} else {bufs[|bufs| - 1].blockno}
  }

  lemma {:induction false} UsedIff(bufs: seq<Buf>, k: int)
    ensures k in UsedBlocks(bufs) <==> exists b :: 0 <= b < |bufs| && bufs[b].refcnt != 0 && bufs[b].blockno == k
  {
    if bufs != [] {
      var n := |bufs| - 1;
      UsedIff(bufs[..n], k);
      if b :| 0 <= b < n && bufs[..n][b].refcnt != 0 && bufs[..n][b].blockno == k { assert bufs[b].blockno == k; }
      if b :| 0 <= b < n && bufs[b].refcnt != 0 && bufs[b].blockno == k { assert bufs[..n][b].blockno == k; }
    }
  }

  lemma {:induction false} CountBufs(bufs: seq<Buf>)
    requires forall i, j :: 0 <= i < j < |bufs| && bufs[i].refcnt != 0 && bufs[j].refcnt != 0 ==>
               bufs[i].blockno != bufs[j].blockno
    ensures Unused(bufs) + |UsedBlocks(bufs)| == |bufs|
    ensures Unused(bufs) == 0 <==> forall b :: 0 <= b < |bufs| ==> bufs[b].refcnt != 0
  {
    if bufs != [] {
      var n := |bufs| - 1;
      CountBufs(bufs[..n]);
      UsedIff(bufs[..n], bufs[n].blockno);
      assert forall b :: 0 <= b < n ==> bufs[..n][b] == bufs[b];
    }
  }

  /** In every run the buffers in use are one for each block the log has pinned or a thread refers to. */
  lemma TakenUsed(c: Config, run: seq<State>, n: nat)
    requires Run(c, run) && n < |run|
    ensures UsedBlocks(run[n].bufs) == Taken(run[n])
  {
    var s := run[n];
    RunInv(c, run, n);
    forall b | 0 <= b < |s.bufs|
      ensures s.bufs[b].refcnt == 0 <==> !Referred(s.bufs[b]) && s.bufs[b].blockno !in Pinned(s)
    {
      RefcntZero(c, run, n, b);
    }
    forall k ensures k in UsedBlocks(s.bufs) <==> k in Taken(s) {
      UsedIff(s.bufs, k);
      ElemsIff(Pinned(s), k);
      if k in Pinned(s) {
        assert Cached(s, k);
        var b :| 0 <= b < |s.bufs| && s.bufs[b].blockno == k && s.bufs[b].valid;
        assert s.bufs[b].refcnt != 0;
      }
    }
  }

  /** In every run: the buffers bget can recycle are as many as there are, less one for each distinct block that is
      logged or referred to. It finds none if and only if those blocks are as many as the buffers. */
  lemma NoBuffersIff(c: Config, run: seq<State>, n: nat)
    requires Run(c, run) && n < |run|
    ensures Unused(run[n].bufs) == |run[n].bufs| - |Taken(run[n])|
    ensures NoBuffers(run[n]) <==> |Taken(run[n])| == |run[n].bufs|
  {
    var s := run[n];
    RunInv(c, run, n);
    TakenUsed(c, run, n);
    forall i, j | 0 <= i < j < |s.bufs| && s.bufs[i].refcnt != 0 && s.bufs[j].refcnt != 0
      ensures s.bufs[i].blockno != s.bufs[j].blockno
    {
      assert BufInv(c, s, s.bufs[i]);
    }
    CountBufs(s.bufs);
  }

  lemma PinnedDistinct(c: Config, run: seq<State>, n: nat)
    requires Run(c, run) && n < |run|
    ensures Distinct(Pinned(run[n])) && |Pinned(run[n])| < LOGBLOCKS
  {
    RunInv(c, run, n);
    Reservation(c, run, n);
  }

  /** While no thread has a buffer, the log leaves one at least, and exactly one if it has pinned 29 blocks, the most it
      can. So write_log finds a buffer for a block of the log. */
  lemma CommitFits(c: Config, run: seq<State>, n: nat)
    requires Run(c, run) && n < |run| && |run[n].bufs| == NBUF
    requires forall b :: 0 <= b < NBUF ==> !Referred(run[n].bufs[b])
    ensures Unused(run[n].bufs) == NBUF - |Pinned(run[n])| >= 1
  {
    var s := run[n];
    NoBuffersIff(c, run, n);
    PinnedDistinct(c, run, n);
    DistinctCount(Pinned(s));
    assert Taken(s) == Elems(Pinned(s));
  }

  // ---- a run that gets there

  /** Thread 0 has read the blocks ks[..n] and holds them all. */
  ghost predicate Hoarding(c: Config, s: State, ks: seq<nat>, n: nat) {
    && |s.bufs| == NBUF == |ks| && n <= NBUF && Distinct(ks) && !s.panicked && c.layout.size == |s.disk|
    && (forall j :: 0 <= j < |ks| ==> ks[j] < c.layout.size) && Unread(s, ks, n)
    && forall b :: 0 <= b < n ==> s.bufs[b].refcnt == 1
  }

  lemma Hoard(c: Config, s0: State, s: State, ks: seq<nat>, n: nat)
    requires Reaches(c, s0, s) && Hoarding(c, s, ks, n) && n < NBUF
    ensures Reaches(c, s0, Fetched(s, 0, n, ks[n])) && Hoarding(c, Fetched(s, 0, n, ks[n]), ks, n + 1)
  {
    Fetch(c, s0, s, 0, n, ks[n]);
  }

  lemma {:induction false} HoardAll(c: Config, s0: State, s: State, ks: seq<nat>, n: nat) returns (s': State)
    requires Reaches(c, s0, s) && Hoarding(c, s, ks, 0) && n <= NBUF
    ensures Reaches(c, s0, s') && Hoarding(c, s', ks, n)
  {
    s' := s;
    if n > 0 {
      s' := HoardAll(c, s0, s, ks, n - 1);
      Hoard(c, s0, s', ks, n - 1);
      s' := Fetched(s', 0, n - 1, ks[n - 1]);
    }
  }

  /** A thread that reads as many blocks as there are buffers, without giving one back, leaves none for the next: the
      cache relies on its clients to hold few at a time. */
  lemma Exhausted(c: Config) returns (s: State)
    requires Roomy(c)
    ensures Reaches(c, Blank(c), s) && NoBuffers(s) && !s.panicked
    ensures forall t: Tid, b: nat, k: nat :: !CanBgetRecycle(c, s, t, b, k)
  {
    s := BootUp(c);
    s := HoardAll(c, Blank(c), s, Targets(c), NBUF);
  }
}
