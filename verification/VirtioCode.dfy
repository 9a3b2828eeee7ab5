/** The descriptor bookkeeping of kernel/virtio_disk.c in its own form: flags and descriptors updated in place. */
module VirtioCode {
  import opened VirtioMachine

  class Disk {
    const free: array<bool>
    const desc: array<Desc>

    ghost predicate Valid()
      reads this
    {
      free.Length == NUM && desc.Length == NUM
    }

    /** virtio_disk_init: all NUM descriptors start out unused. */
    constructor ()
      ensures Valid() && fresh(free) && fresh(desc)
      ensures free[..] == seq(NUM, i => true) && desc[..] == seq(NUM, i => CLEAR)
    {
      free := new bool[NUM](i => true);
      desc := new Desc[NUM](i => CLEAR);
    }

    /** alloc_desc: the first free descriptor, no longer free; or -1. */
    method AllocDesc() returns (i: int)
      requires Valid()
      modifies free
      ensures i < 0 ==> FirstFree(old(free[..]), 0) == NUM && free[..] == old(free[..])
      ensures i >= 0 ==> i == FirstFree(old(free[..]), 0) && i < NUM && free[..] == Without(old(free[..]))
    {
      ghost var f := free[..];
      i := 0;
      while i < NUM
        invariant 0 <= i <= NUM && free[..] == f && FirstFree(f, 0) == FirstFree(f, i)
      {
        if free[i] {
          free[i] := false;
          return;
        }
        i := i + 1;
      }
      return -1;
    }

    /** free_desc: false is one of its panics. */
    method FreeDesc(i: nat) returns (ok: bool)
      requires Valid()
      modifies free, desc
      ensures ok <==> i < NUM && !old(free[..])[i]
      ensures ok ==> free[..] == old(free[..])[i := true] && desc[..] == old(desc[..])[i := CLEAR]
      ensures !ok ==> free[..] == old(free[..]) && desc[..] == old(desc[..])
    {
      if i >= NUM || free[i] { return false; }
      desc[i] := CLEAR;
      free[i] := true;
      return true;
    }

    /** Three descriptors in use, chained by their NEXT flags as virtio_disk_rw leaves them. */
    ghost predicate Chained(a: nat, b: nat, c: nat)
      requires Valid()
      reads this, free, desc
    {
      && a < NUM && b < NUM && c < NUM && a != b && a != c && b != c && !free[a] && !free[b] && !free[c]
      && desc[a].flags % 2 == 1 && desc[a].next == b && desc[b].flags % 2 == 1 && desc[b].next == c
      && desc[c].flags % 2 == 0
    }

    /** free_chain: exactly the three descriptors of the chain are freed. */
    method FreeChain(a: nat, ghost b: nat, ghost c: nat) returns (ok: bool)
      requires Valid() && Chained(a, b, c)
      modifies free, desc
      ensures ok && free[..] == old(free[..])[a := true][b := true][c := true]
      ensures desc[..] == old(desc[..])[a := CLEAR][b := CLEAR][c := CLEAR]
    {
      var i := a;
      ghost var k, f, d := 0, free[..], desc[..];
      while true
        invariant 0 <= k < 3 && i == [a, b, c][k]
        invariant free[..] == (if k == 0 then f else if k == 1 then f[a := true] else f[a := true][b := true])
        invariant desc[..] == (if k == 0 then d else if k == 1 then d[a := CLEAR] else d[a := CLEAR][b := CLEAR])
        decreases 3 - k
      {
        assert free[i] == free[..][i] && desc[i] == desc[..][i] && desc[..][i] == d[i];
        var flag, nxt := desc[i].flags, desc[i].next;
        ok := FreeDesc(i);
        if flag % 2 == 1 {
          i := nxt;
          k := k + 1;
        } else {
          break;
        }
      }
    }

    /** alloc3_desc, when there are too few: those taken are freed again. */
    method GiveBack(idx: seq<int>, ghost f: seq<bool>)
      requires Valid() && |f| == NUM && |idx| <= 2
      requires |idx| >= 1 ==> FirstFree(f, 0) < NUM && idx[0] == FirstFree(f, 0)
      requires |idx| >= 2 ==> FirstFree(Without(f), 0) < NUM && idx[1] == FirstFree(Without(f), 0)
      requires free[..] == GivenBack(f, |idx|, 0)
      modifies free, desc
      ensures free[..] == f && forall x :: 0 <= x < NUM && !f[x] ==> desc[x] == old(desc[x])
    {
      var j := 0;
      while j < |idx|
        invariant 0 <= j <= |idx| && free[..] == GivenBack(f, |idx|, j)
        invariant forall x :: 0 <= x < NUM && !f[x] ==> desc[x] == old(desc[x])
      {
        var _ := FreeDesc(idx[j]);
        j := j + 1;
      }
    }

    /** alloc3_desc: three descriptors, or none. */
    method Alloc3Desc() returns (ok: bool, idx: seq<int>)
      requires Valid()
      modifies free, desc
      ensures ok <==> CanAlloc3(old(free[..]))
      ensures ok ==> var f := old(free[..]);
                     && free[..] == Without(Without(Without(f))) && desc[..] == old(desc[..])
                     && idx == [FirstFree(f, 0), FirstFree(Without(f), 0), FirstFree(Without(Without(f)), 0)]
      ensures !ok ==> free[..] == old(free[..])
      ensures !ok ==> forall i :: 0 <= i < NUM && !old(free[..])[i] ==> desc[i] == old(desc[i])
    {
      ghost var f, d := free[..], desc[..];
      idx := [];
      var i := 0;
      while i < 3
        invariant 0 <= i <= 3 && |idx| == i && desc[..] == d
        invariant i >= 1 ==> FirstFree(f, 0) < NUM && idx[0] == FirstFree(f, 0)
        invariant i >= 2 ==> FirstFree(Without(f), 0) < NUM && idx[1] == FirstFree(Without(f), 0)
        invariant i >= 3 ==> FirstFree(Without(Without(f)), 0) < NUM && idx[2] == FirstFree(Without(Without(f)), 0)
        invariant free[..] == (if i == 0 then f else if i == 1 then Without(f) else if i == 2 then Without(Without(f))
                               else Without(Without(Without(f))))
      {
        var r := AllocDesc();
        if r < 0 {
          GiveBack(idx, f);
          return false, idx;
        }
        idx := idx + [r];
        i := i + 1;
      }
      return true, idx;
    }
  }

  /** The free flags when i descriptors have been taken and the first j of them given back. */
  ghost function GivenBack(f: seq<bool>, i: nat, j: nat): seq<bool>
    requires |f| == NUM && j <= i <= 2
    requires i >= 1 ==> FirstFree(f, 0) < NUM
    requires i >= 2 ==> FirstFree(Without(f), 0) < NUM
  {
    if i == j then f
    else if i == 1 then Without(f)
    else if j == 0 then Without(Without(f))
    else Without(Without(f))[FirstFree(f, 0) := true]
  }
}
