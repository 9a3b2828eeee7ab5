/** User memory byte by byte, as copyout, copyin and copyinstr see it. */
module VmUser {
  import opened Bytes
  import opened Sv39
  import opened VmState

  function SlotAt(root: nat, va: nat): Slot { Slot(root, va / PGSIZE) }

  /** What user code may touch lies below the trapframe: the pages mapped above it are not for the user. */
  ghost predicate UserSpace(s: View, root: nat) {
    root in s.users && forall k :: k in s.maps && k.root == root && User(s.maps[k].flags) ==> k.page < TRAPFRAME
  }

  predicate Readable(s: View, root: nat, va: nat) {
    SlotAt(root, va) in s.maps && User(s.maps[SlotAt(root, va)].flags)
  }

  predicate CanWrite(s: View, root: nat, va: nat) {
    Readable(s, root, va) && Writable(s.maps[SlotAt(root, va)].flags)
  }

  /** The user byte at va. */
  ghost function Byte(s: Mem, root: nat, va: nat): nat
    requires UserSpace(s, root) && Readable(s, root, va)
  {
    InUse(s, root, va);
    s.data[s.maps[SlotAt(root, va)].frame][va % PGSIZE]
  }

  lemma InUse(s: Mem, root: nat, va: nat)
    requires UserSpace(s, root) && Readable(s, root, va)
    ensures var f := s.maps[SlotAt(root, va)].frame;
            f > 0 && f in s.owner && s.owner[f] == SlotAt(root, va) && WholeIn(s, f)
  {
    assert Tracked(s, SlotAt(root, va));
  }

  /** Bytes [a, a + n) of a page are as wide as one slot. */
  lemma SamePage(root: nat, va: nat, i: nat)
    requires va % PGSIZE + i < PGSIZE
    ensures SlotAt(root, va + i) == SlotAt(root, va) && (va + i) % PGSIZE == va % PGSIZE + i
  {
    var p, o := va / PGSIZE, va % PGSIZE;
    assert va + i == p * PGSIZE + (o + i);
  }

  ghost predicate ByteIs(s: Mem, root: nat, va: nat, b: nat)
    requires UserSpace(s, root)
  {
    Readable(s, root, va) && Byte(s, root, va) == b
  }

  /** The bytes from va on can be read, and are `bytes`. */
  ghost predicate Reads(s: Mem, root: nat, va: nat, bytes: seq<nat>)
    requires UserSpace(s, root)
  {
    forall i :: 0 <= i < |bytes| ==> ByteIs(s, root, va + i, bytes[i])
  }

  lemma ReadsJoin(s: Mem, root: nat, va: nat, a: seq<nat>, b: seq<nat>)
    requires UserSpace(s, root) && Reads(s, root, va, a) && Reads(s, root, va + |a|, b)
    ensures Reads(s, root, va, a + b)
  {
    forall i | 0 <= i < |a + b| ensures ByteIs(s, root, va + i, (a + b)[i]) {
      if i >= |a| {
        assert ByteIs(s, root, va + |a| + (i - |a|), b[i - |a|]);
      } else {
        assert ByteIs(s, root, va + i, a[i]);
      }
    }
  }

  /** Part of one page read at once. */
  lemma ReadsPage(s: Mem, root: nat, va: nat, n: nat)
    requires UserSpace(s, root) && Readable(s, root, va) && va % PGSIZE + n <= PGSIZE
    ensures var f := s.maps[SlotAt(root, va)].frame;
            WholeIn(s, f) && Reads(s, root, va, s.data[f][va % PGSIZE..va % PGSIZE + n])
  {
    InUse(s, root, va);
    var f := s.maps[SlotAt(root, va)].frame;
    var bytes := s.data[f][va % PGSIZE..va % PGSIZE + n];
    forall i | 0 <= i < n ensures ByteIs(s, root, va + i, bytes[i]) {
      SamePage(root, va, i);
    }
  }

  // ---- writing

  /** s' is s but for the bytes of user memory. */
  ghost predicate OnlyBytes(s: View, s': View) {
    s' == s.(data := s'.data) && forall p :: p in s.data && |s.data[p]| == 4096 ==> p in s'.data && |s'.data[p]| == 4096
  }

  ghost predicate WroteAt(s: Mem, s': Mem, root: nat, va: nat, bytes: seq<nat>, r: nat, a: nat)
    requires OnlyBytes(s, s')
  {
    UserSpace(s, r) && Readable(s, r, a) ==>
      Byte(s', r, a) == if r == root && va <= a < va + |bytes| then bytes[a - va] else Byte(s, r, a)
  }

  /** The bytes from va on have become `bytes`; every other byte in every address space is as before. */
  ghost predicate Wrote(s: Mem, s': Mem, root: nat, va: nat, bytes: seq<nat>) {
    && OnlyBytes(s, s')
    && (forall r: nat, a: nat {:trigger WroteAt(s, s', root, va, bytes, r, a)} :: WroteAt(s, s', root, va, bytes, r, a))
    && (forall p :: p in s.data && p !in s.owner ==> p in s'.data && s'.data[p] == s.data[p])
  }

  lemma WroteNone(s: Mem, root: nat, va: nat)
    ensures Wrote(s, s, root, va, [])
  {
  }

  lemma SpaceSame(s: View, s': View, root: nat, a: nat)
    requires OnlyBytes(s, s')
    ensures UserSpace(s', root) <==> UserSpace(s, root)
    ensures CanWrite(s', root, a) <==> CanWrite(s, root, a)
  {
  }

  lemma WroteJoin(s: Mem, s1: Mem, s2: Mem, root: nat, va: nat, a: seq<nat>, b: seq<nat>)
    requires Wrote(s, s1, root, va, a) && Wrote(s1, s2, root, va + |a|, b)
    ensures Wrote(s, s2, root, va, a + b)
  {
    forall r: nat, x: nat ensures WroteAt(s, s2, root, va, a + b, r, x) {
      assert WroteAt(s, s1, root, va, a, r, x) && WroteAt(s1, s2, root, va + |a|, b, r, x);
    }
  }

  /** Frame f, mapped at va's page, patched. Frames are distinct, so no other page changes. */
  lemma WrotePage(s: Mem, root: nat, va: nat, bytes: seq<nat>)
    requires UserSpace(s, root) && Readable(s, root, va) && va % PGSIZE + |bytes| <= PGSIZE
    ensures var f := s.maps[SlotAt(root, va)].frame;
            && WholeIn(s, f)
            && var s' := s.(data := s.data[f := Patched(s.data[f], va % PGSIZE, bytes)]);
               ViewOk(s') && Wrote(s, s', root, va, bytes)
  {
    InUse(s, root, va);
    var f := s.maps[SlotAt(root, va)].frame;
    var s' := s.(data := s.data[f := Patched(s.data[f], va % PGSIZE, bytes)]);
    RootedGrows(s, s');
    forall r: nat, a: nat ensures WroteAt(s, s', root, va, bytes, r, a) {
      if UserSpace(s, r) && Readable(s, r, a) {
        InUse(s, r, a);
        if r == root && va <= a < va + |bytes| {
          SamePage(root, va, a - va);
        } else if s.maps[SlotAt(r, a)].frame == f {
          assert SlotAt(r, a) == SlotAt(root, va);
          SameSlot(va, a);
        }
      }
    }
  }

  lemma SameSlot(va: nat, a: nat)
    requires va / PGSIZE == a / PGSIZE
    ensures a % PGSIZE - va % PGSIZE == a - va
  {
  }

  /** copyout then copyin gives back the bytes. */
  lemma RoundTrip(s: Mem, s': Mem, root: nat, va: nat, src: seq<nat>, dst: seq<nat>)
    requires UserSpace(s, root) && Wrote(s, s', root, va, src) && UserSpace(s', root)
    requires |dst| == |src| && Reads(s', root, va, dst)
    ensures dst == src
  {
    forall i | 0 <= i < |src| ensures dst[i] == src[i] {
      assert ByteIs(s', root, va + i, dst[i]) && WroteAt(s, s', root, va, src, root, va + i);
    }
  }

  /** Every byte of [va, va + n) can be written. */
  ghost predicate CanWriteAll(s: View, root: nat, va: nat, n: nat) {
    forall a: nat :: va <= a < va + n ==> CanWrite(s, root, a)
  }

  lemma CanWritePage(s: View, root: nat, va: nat, n: nat, m: nat)
    requires CanWriteAll(s, root, va, n) && CanWrite(s, root, va + n) && (va + n) % PGSIZE + m <= PGSIZE
    ensures CanWriteAll(s, root, va, n + m)
  {
    forall a: nat | va <= a < va + n + m ensures CanWrite(s, root, a) {
      if a >= va + n { SamePage(root, va + n, a - va - n); }
    }
  }

  /** The first n bytes of src have been written from va on, all where that is allowed, and no other byte has
      changed. */
  ghost predicate Sent(s: Mem, s': Mem, root: nat, va: nat, src: seq<nat>, n: nat) {
    n <= |src| && Wrote(s, s', root, va, src[..n]) && CanWriteAll(s, root, va, n)
  }

  /** copyout, one page further. */
  lemma OutJoin(s: Mem, s1: Mem, s2: Mem, root: nat, va: nat, src: seq<nat>, from: nat, n: nat)
    requires from + n <= |src| && Sent(s, s1, root, va, src, from)
    requires CanWrite(s1, root, va + from) && (va + from) % PGSIZE + n <= PGSIZE
    requires Wrote(s1, s2, root, va + from, src[from..from + n])
    ensures Sent(s, s2, root, va, src, from + n)
  {
    WroteJoin(s, s1, s2, root, va, src[..from], src[from..from + n]);
    assert src[..from] + src[from..from + n] == src[..from + n];
    CanWritePage(s, root, va, from, n);
  }

  // ---- strings

  /** A string of fewer than max bytes, with its NUL, can be read at va. */
  ghost predicate HasString(s: Mem, root: nat, va: nat, max: nat)
    requires UserSpace(s, root)
  {
    exists bytes: seq<nat> :: |bytes| <= max && IsString(bytes) && Reads(s, root, va, bytes)
  }

  /** Bytes that end in the first NUL. */
  predicate IsString(bytes: seq<nat>) {
    |bytes| > 0 && bytes[|bytes| - 1] == 0 && NoNul(bytes[..|bytes| - 1])
  }

  predicate NoNul(bytes: seq<nat>) { forall i :: 0 <= i < |bytes| ==> bytes[i] != 0 }

  lemma StringJoin(a: seq<nat>, b: seq<nat>)
    requires NoNul(a)
    ensures (NoNul(b) ==> NoNul(a + b)) && (IsString(b) ==> IsString(a + b))
  {
    if IsString(b) { assert (a + b)[..|a + b| - 1] == a + b[..|b| - 1]; }
  }

  /** When the bytes read so far have no NUL and no more can be read, there is no string. */
  lemma NoString(s: Mem, root: nat, va: nat, max: nat, got: seq<nat>)
    requires UserSpace(s, root) && Reads(s, root, va, got) && NoNul(got) && |got| <= max
    requires |got| == max || !Readable(s, root, va + |got|)
    ensures !HasString(s, root, va, max)
  {
    forall bytes: seq<nat> | |bytes| <= max && IsString(bytes) ensures !Reads(s, root, va, bytes) {
      var last := |bytes| - 1;
      if last < |got| {
        assert ByteIs(s, root, va + last, got[last]) && got[last] != 0;
        assert !ByteIs(s, root, va + last, bytes[last]);
      } else {
        assert !ByteIs(s, root, va + |got|, bytes[|got|]);
      }
    }
  }
}
