/** kernel/bio.c: the buffer array and the doubly linked list that keeps it in order of use. Buffers are
    their indices and HEAD is the list head. */
module Bio {
  import opened Options
  import opened Params
  import opened LogFormat
  import opened LogMachine

  const HEAD: nat := NBUF

  /** The node at position i of the ring head, order[0], ..., order[last], head. */
  function At(order: seq<nat>, i: int): nat {
    if 1 <= i <= |order| then order[i - 1] else HEAD
  }

  /** next and prev link exactly the buffers of `order`, most recently used first. */
  ghost predicate Linked(order: seq<nat>, next: seq<nat>, prev: seq<nat>) {
    && |next| == |prev| == NBUF + 1
    && Distinct(order)
    && (forall i :: 0 <= i < |order| ==> order[i] < NBUF)
    && (forall i :: 0 <= i <= |order| ==> next[At(order, i)] == At(order, i + 1))
    && (forall i :: 1 <= i <= |order| + 1 ==> prev[At(order, i)] == At(order, i - 1))
  }

  function Without(order: seq<nat>, b: nat): (r: seq<nat>)
    ensures forall x :: x in r <==> x in order && x != b
    ensures |r| <= |order|
  {
    if order == [] then []
    else if order[0] == b then Without(order[1..], b)
    else [order[0]] + Without(order[1..], b)
  }

  lemma {:induction false} WithoutAt(order: seq<nat>, p: nat)
    requires Distinct(order) && p < |order|
    ensures Without(order, order[p]) == order[..p] + order[p + 1..]
  {
    if p == 0 {
      WithoutAbsent(order[1..], order[0]);
    } else {
      assert order[p] == order[1..][p - 1];
      WithoutAt(order[1..], p - 1);
      assert order[..p] + order[p + 1..] == [order[0]] + (order[1..][..p - 1] + order[1..][p..]);
    }
  }

  lemma {:induction false} WithoutAbsent(order: seq<nat>, b: nat)
    requires b !in order
    ensures Without(order, b) == order
  {
    if order != [] { WithoutAbsent(order[1..], b); }
  }

  /** The two stores that unlink a node. */
  lemma Unlink(order: seq<nat>, next: seq<nat>, prev: seq<nat>, p: nat)
    requires Linked(order, next, prev) && p < |order|
    ensures var b := order[p];
            next[b] <= NBUF && prev[b] <= NBUF
            && Linked(order[..p] + order[p + 1..], next[prev[b] := next[b]], prev[next[b] := prev[b]])
  {
    var b := order[p];
    assert At(order, p + 1) == b;
    assert prev[b] == At(order, p) && next[b] == At(order, p + 2);
    var o := order[..p] + order[p + 1..];
    forall i | 0 <= i <= |o| + 1 ensures At(o, i) == At(order, if i <= p then i else i + 1) {}
  }

  /** The four stores that put a node at the front. */
  lemma Front(order: seq<nat>, next: seq<nat>, prev: seq<nat>, b: nat)
    requires Linked(order, next, prev) && b < NBUF && b !in order
    ensures next[HEAD] <= NBUF
            && Linked([b] + order, next[b := next[HEAD]][HEAD := b], prev[b := HEAD][next[HEAD] := b])
  {
    assert At(order, 0) == HEAD;
    var o := [b] + order;
    assert next[HEAD] == At(order, 1) == At(o, 2);
    forall i | 2 <= i <= |o| + 1 ensures At(o, i) == At(order, i - 1) {}
    var n, q := next[b := next[HEAD]][HEAD := b], prev[b := HEAD][next[HEAD] := b];
    forall i | 0 <= i <= |o| ensures n[At(o, i)] == At(o, i + 1) {
      if i >= 2 { assert next[At(order, i - 1)] == At(order, i); }
    }
    forall i | 1 <= i <= |o| + 1 ensures q[At(o, i)] == At(o, i - 1) {
      if i >= 3 { assert prev[At(order, i - 1)] == At(order, i - 2); }
    }
  }

  class Bcache {
    var bufs: seq<Buf>
    var next: seq<nat>
    var prev: seq<nat>
    ghost var order: seq<nat>   // most recently used first

    ghost predicate Valid()
      reads this
    {
      |bufs| == NBUF && |order| == NBUF && Linked(order, next, prev)
      && forall b :: 0 <= b < NBUF ==> b in order
    }

    /** binit */
    constructor ()
      ensures Valid() && bufs == seq(NBUF, i => FreshBuf())
      ensures order == seq(NBUF, i => NBUF - 1 - i)
    {
      bufs := seq(NBUF, i => FreshBuf());
      next := seq(NBUF + 1, i => HEAD);
      prev := seq(NBUF + 1, i => HEAD);
      order := [];
      new;
      var b := 0;
      while b < NBUF
        invariant 0 <= b <= NBUF && bufs == seq(NBUF, i => FreshBuf())
        invariant Linked(order, next, prev) && order == seq(b, i => b - 1 - i)
      {
        Front(order, next, prev, b);
        next := next[b := next[HEAD]];
        prev := prev[b := HEAD];
        prev := prev[next[HEAD] := b];
        next := next[HEAD := b];
        order := [b] + order;
        b := b + 1;
      }
      forall b | 0 <= b < NBUF ensures b in order { assert order[NBUF - 1 - b] == b; }
    }

    /** bget: the block's buffer, or the least recently used unreferenced one. None is the panic. In both
        cases the new state is the one the transition system gives. */
    method Bget(t: Tid, k: nat) returns (r: Option<nat>)
      requires Valid() && forall i :: 0 <= i < NBUF ==> t !in bufs[i].waiters
      modifies this`bufs
      ensures Valid()
      ensures (exists i :: 0 <= i < NBUF && old(bufs)[i].blockno == k) ==> r.Some?
      ensures r.None? ==> bufs == old(bufs) && forall i :: 0 <= i < NBUF ==> old(bufs)[i].refcnt != 0
      ensures r.Some? ==> r.value < NBUF
      ensures r.Some? && old(bufs)[r.value].blockno == k ==>
                forall s: State :: s.bufs == old(bufs) ==>
                  CanBgetHit(s, t, r.value) && DoBgetHit(s, t, r.value).bufs == bufs
      ensures r.Some? && old(bufs)[r.value].blockno != k ==>
                && (forall s: State, c: Config :: s.bufs == old(bufs) && k < c.layout.size ==>
                      CanBgetRecycle(c, s, t, r.value, k) && DoBgetRecycle(s, t, r.value, k).bufs == bufs)
                && exists p :: 0 <= p < NBUF && order[p] == r.value
                               && forall q :: p < q < NBUF ==> old(bufs)[order[q]].refcnt != 0
    {
      var b := next[HEAD];
      assert At(order, 0) == HEAD;
      ghost var p := 1;
      while b != HEAD
        invariant 1 <= p <= NBUF + 1 && b == At(order, p)
        invariant forall q :: 0 <= q < p - 1 ==> bufs[order[q]].blockno != k
        decreases NBUF + 1 - p
      {
        if bufs[b].blockno == k {
          bufs := bufs[b := bufs[b].(refcnt := bufs[b].refcnt + 1, waiters := bufs[b].waiters + {t})];
          return Some(b);
        }
        assert next[At(order, p)] == At(order, p + 1);
        b := next[b];
        p := p + 1;
      }
      forall i | 0 <= i < NBUF ensures bufs[i].blockno != k {
        assert i in order;
        var q :| 0 <= q < NBUF && order[q] == i;
      }
      b := prev[HEAD];
      assert At(order, NBUF + 1) == HEAD;
      p := NBUF;
      while b != HEAD
        invariant 0 <= p <= NBUF && b == At(order, p) && bufs == old(bufs)
        invariant forall q :: p <= q < NBUF ==> bufs[order[q]].refcnt != 0
        decreases p
      {
        if bufs[b].refcnt == 0 {
          bufs := bufs[b := bufs[b].(blockno := k, valid := false, refcnt := 1, waiters := bufs[b].waiters + {t})];
          assert order[p - 1] == b;
          return Some(b);
        }
        assert prev[At(order, p)] == At(order, p - 1);
        b := prev[b];
        p := p - 1;
      }
      forall i | 0 <= i < NBUF ensures bufs[i].refcnt != 0 {
        assert i in order;
        var q :| 0 <= q < NBUF && order[q] == i;
      }
      r := None;
    }

    /** brelse, the list: the buffer becomes the most recently used. */
    method ToFront(b: nat)
      requires Valid() && b < NBUF
      modifies this`next, this`prev, this`order
      ensures Valid() && order == [b] + Without(old(order), b)
    {
      assert b in order;
      ghost var p :| 0 <= p < NBUF && order[p] == b;
      Unlink(order, next, prev, p);
      WithoutAt(order, p);
      prev := prev[next[b] := prev[b]];
      next := next[prev[b] := next[b]];
      order := Without(order, b);
      Front(order, next, prev, b);
      next := next[b := next[HEAD]];
      prev := prev[b := HEAD];
      prev := prev[next[HEAD] := b];
      next := next[HEAD := b];
      order := [b] + order;
    }

    /** brelse: false is the panic of a caller that does not hold the lock. A buffer nobody refers to any
        more becomes the most recently used. */
    method Brelse(t: Tid, b: nat) returns (ok: bool)
      requires Valid() && b < NBUF && t !in bufs[b].leaving
      modifies this
      ensures Valid() && ok == (old(bufs)[b].lock == Some(t))
      ensures !ok ==> bufs == old(bufs) && order == old(order)
      ensures ok ==> bufs == old(bufs)[b := old(bufs)[b].(lock := None, refcnt := old(bufs)[b].refcnt - 1)]
      ensures ok && !old(bufs)[b].dirty ==>
                forall s: State :: s.bufs == old(bufs) ==>
                  CanReleaseSleep(s, t, b) && DoDropRef(DoReleaseSleep(s, t, b), t, b).bufs == bufs
      ensures ok && old(bufs)[b].refcnt != 1 ==> order == old(order)
      ensures ok && old(bufs)[b].refcnt == 1 ==> order == [b] + Without(old(order), b)
    {
      if bufs[b].lock != Some(t) { return false; }
      bufs := bufs[b := bufs[b].(lock := None)];
      bufs := bufs[b := bufs[b].(refcnt := bufs[b].refcnt - 1)];
      if bufs[b].refcnt == 0 {
        ToFront(b);
      }
      return true;
    }

    /** bpin: what log_write does to the cache when it adds the block to the log. */
    method Bpin(b: nat)
      requires Valid() && b < NBUF
      modifies this`bufs
      ensures Valid() && bufs == old(bufs)[b := old(bufs)[b].(refcnt := old(bufs)[b].refcnt + 1)]
      ensures forall s: State, t: Tid ::
                s.bufs == old(bufs) && InOp(s, t) && 0 <= bufs[b].blockno && bufs[b].blockno !in s.lh
                && |s.lh| < LOGBLOCKS && s.outstanding >= 1 ==>
                  DoLogWrite(s, t, b).bufs == bufs[b := bufs[b].(dirty := false)]
    {
      bufs := bufs[b := bufs[b].(refcnt := bufs[b].refcnt + 1)];
    }

    /** bunpin: what install_trans does to the cache when it has written the block home. */
    method Bunpin(b: nat)
      requires Valid() && b < NBUF
      modifies this`bufs
      ensures Valid() && bufs == old(bufs)[b := old(bufs)[b].(refcnt := old(bufs)[b].refcnt - 1)]
      ensures forall c: Config, s: State, t: Tid, i: nat, lb: nat ::
                s.bufs == old(bufs) && CanInstallOne(c, s, t, i, lb, b) ==>
                  DoInstallOne(c, s, t, i, lb, b).bufs == bufs[b := bufs[b].(data := s.bufs[lb].data)]
    {
      bufs := bufs[b := bufs[b].(refcnt := bufs[b].refcnt - 1)];
    }
  }
}
