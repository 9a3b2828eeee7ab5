/** New pages for an address space: what uvmalloc and uvmcopy do, and that a failure undoes it. */
module VmFill {
  import opened Sv39
  import opened VmState
  import opened VmRanges

  /** What a new page is to be. */
  datatype PageSpec = PageSpec(flags: nat, bytes: seq<nat>)

  /** Slot k is mapped to a frame that was free in s, with the flags and bytes wanted. */
  ghost predicate PageIs(s: View, s': View, k: Slot, spec: PageSpec) {
    && k in s'.maps && s'.maps[k].flags == spec.flags && s'.maps[k].frame in s.free
    && s'.maps[k].frame in s'.data && s'.data[s'.maps[k].frame] == spec.bytes
  }

  /** Page p is free, a table or a user frame. */
  ghost predicate Counted(s: View, p: nat) { IsPage(s, p) || p in s.owner }

  ghost predicate Conserved(s: View, s': View) {
    forall p: nat {:trigger Counted(s', p)} {:trigger Counted(s, p)} :: Counted(s', p) <==> Counted(s, p)
  }

  /** The pages of `want` have been added to the address space of root, each with a frame of its own taken from
      the free list; every other mapping and every byte in use is as before, and no page is lost. */
  ghost predicate Populated(s: View, s': View, root: nat, want: map<nat, PageSpec>) {
    && s'.end == s.end && s'.users == s.users
    && (forall k :: k in s'.maps <==> k in s.maps || (k.root == root && k.page in want))
    && (forall k :: k in s.maps ==> s'.maps[k] == s.maps[k])
    && (forall w :: w in want ==> PageIs(s, s', Slot(root, w), want[w]))
    && Grows(s.t.at, s'.t.at) && Conserved(s, s') && SameBytes(s, s')
  }

  lemma PopulateNone(s: View, root: nat)
    ensures Populated(s, s, root, map[])
  {
  }

  lemma PopulatedRoots(s: View, s': View, root: nat, want: map<nat, PageSpec>, r: nat)
    requires Populated(s, s', root, want) && RootIn(s, r)
    ensures RootIn(s', r)
  {
  }

  /** Frame f taken from the free list and filled. */
  function Take(s: View, f: nat, bytes: seq<nat>): View {
    s.(free := s.free - {f}, data := s.data[f := bytes])
  }

  lemma ConservedKept(s: View, s': View)
    requires Kept(s, s')
    ensures Conserved(s, s')
  {
    forall p: nat ensures Counted(s', p) <==> Counted(s, p) { assert IsPage(s', p) <==> IsPage(s, p); }
  }

  /** A step that keeps everything. */
  lemma PopulatedThenKept(s: View, s1: Mem, s2: View, root: nat, want: map<nat, PageSpec>)
    requires Populated(s, s1, root, want) && Kept(s1, s2)
    requires forall w :: w in want ==> Tracked(s, Slot(root, w))
    ensures Populated(s, s2, root, want)
  {
    ConservedKept(s1, s2);
    forall p: nat ensures Counted(s2, p) <==> Counted(s, p) { assert Counted(s1, p) <==> Counted(s, p); }
    forall w | w in want ensures PageIs(s, s2, Slot(root, w), want[w]) {
      assert PageIs(s, s1, Slot(root, w), want[w]);
    }
  }

  /** Taking a page and giving it back. */
  lemma TakePush(s: Mem, f: nat, bytes: seq<nat>, s2: View)
    requires f in s.free && Kept(Take(s, f, bytes), s2)
    ensures Kept(s, Push(s2, f))
  {
    var s1, s3 := Take(s, f, bytes), Push(s2, f);
    forall p: nat ensures IsPage(s3, p) <==> IsPage(s, p) {
      assert IsPage(s2, p) <==> IsPage(s1, p);
      assert IsPage(s3, p) <==> p == f || IsPage(s2, p);
      assert IsPage(s, p) <==> p == f || IsPage(s1, p);
    }
  }

  lemma AddedConserves(s: Mem, f: nat, bytes: seq<nat>, s2: Mem, k: Slot, flags: nat)
    requires f in s.free && Tracked(s, k) && k !in s.maps && Added(Take(s, f, bytes), s2, map[k := Leaf(f, flags)])
    ensures Conserved(s, s2) && f in s2.owner
  {
    var s1 := Take(s, f, bytes);
    assert k in s2.maps && s2.maps[k].frame == f;
    forall p: nat ensures Counted(s2, p) <==> Counted(s, p) {
      assert IsPage(s2, p) <==> IsPage(s1, p);
      assert IsPage(s, p) <==> p == f || IsPage(s1, p);
      assert p in s2.owner <==> p == f || p in s.owner by { OwnersAdded(s, s2, k, f, flags, p); }
    }
  }

  lemma OwnersAdded(s: Mem, s2: Mem, k: Slot, f: nat, flags: nat, p: nat)
    requires s2.users == s.users && s2.maps == s.maps + map[k := Leaf(f, flags)] && Tracked(s, k) && k !in s.maps
    ensures p in s2.owner <==> p == f || p in s.owner
  {
    assert k in s2.maps && s2.maps[k].frame == f;
    if p in s.owner {
      assert s.owner[p] in s2.maps && s2.maps[s.owner[p]].frame == p;
    }
  }

  lemma PageStays(s: View, s1: Mem, s2: View, f: nat, bytes: seq<nat>, k': Slot, l: Leaf, k: Slot, spec: PageSpec)
    requires PageIs(s, s1, k, spec) && Tracked(s1, k) && k != k' && f in s1.free
    requires Added(Take(s1, f, bytes), s2, map[k' := l])
    ensures PageIs(s, s2, k, spec)
  {
    assert s1.maps[k].frame in s1.owner;
  }

  lemma BytesThrough(s: View, s1: View, f: nat, bytes: seq<nat>, s2: View)
    requires SameBytes(s, s1) && f in s1.free && SameBytes(Take(s1, f, bytes), s2)
    ensures SameBytes(s, s2)
  {
    forall p | p in s.data && p !in s.free ensures p in s2.data && s2.data[p] == s.data[p] {
      assert p in s1.data && p !in s1.free && p != f;
    }
  }

  lemma PopulateMaps(s: View, s1: View, s2: View, root: nat, want: map<nat, PageSpec>, w: nat, l: Leaf, spec: PageSpec)
    requires w !in want && Slot(root, w) !in s.maps && s2.maps == s1.maps + map[Slot(root, w) := l]
    requires forall k :: k in s1.maps <==> k in s.maps || (k.root == root && k.page in want)
    requires forall k :: k in s.maps ==> s1.maps[k] == s.maps[k]
    ensures forall k :: k in s2.maps <==> k in s.maps || (k.root == root && k.page in want[w := spec])
    ensures forall k :: k in s.maps ==> s2.maps[k] == s.maps[k]
  {
    var k := Slot(root, w);
    forall j ensures j in s2.maps <==> j in s.maps || (j.root == root && j.page in want[w := spec]) {
      assert j in s2.maps <==> j in s1.maps || j == k;
      assert j == k <==> j.root == root && j.page == w;
    }
  }

  /** One more page: frame f, taken and filled, has been mapped at page w. */
  lemma PopulateOne(s: View, s1: Mem, s2: Mem, root: nat, want: map<nat, PageSpec>, w: nat, f: nat, spec: PageSpec)
    requires Populated(s, s1, root, want) && f in s1.free && w !in want && Slot(root, w) !in s.maps
    requires Added(Take(s1, f, spec.bytes), s2, map[Slot(root, w) := Leaf(f, spec.flags)])
    requires Tracked(s, Slot(root, w)) && forall x :: x in want ==> Tracked(s, Slot(root, x))
    ensures Populated(s, s2, root, want[w := spec])
  {
    var k := Slot(root, w);
    assert Conserved(s, s2) by {
      AddedConserves(s1, f, spec.bytes, s2, k, spec.flags);
      forall p: nat ensures Counted(s2, p) <==> Counted(s, p) { assert Counted(s1, p) <==> Counted(s, p); }
    }
    BytesThrough(s, s1, f, spec.bytes, s2);
    PopulateMaps(s, s1, s2, root, want, w, Leaf(f, spec.flags), spec);
    forall x | x in want[w := spec] ensures PageIs(s, s2, Slot(root, x), want[w := spec][x]) {
      if x != w {
        PageStays(s, s1, s2, f, spec.bytes, k, Leaf(f, spec.flags), Slot(root, x), want[x]);
      } else {
        NewPage(s, s1, s2, f, spec, k);
      }
    }
  }

  lemma NewPage(s: View, s1: Mem, s2: Mem, f: nat, spec: PageSpec, k: Slot)
    requires f in s1.free && s1.free <= s.free && Added(Take(s1, f, spec.bytes), s2, map[k := Leaf(f, spec.flags)])
    ensures PageIs(s, s2, k, spec)
  {
  }

  lemma PagesRestored(s: Mem, s1: Mem, s2: Mem, p: nat)
    requires Conserved(s, s1) && s2.t.at == s1.t.at && s2.owner == s.owner
    requires p in s2.free <==> p in s1.free || (p in s1.owner && p !in s2.owner)
    requires p in s.owner ==> p in s1.owner
    ensures IsPage(s2, p) <==> IsPage(s, p)
  {
    assert Counted(s1, p) <==> Counted(s, p);
    assert IsTable(s1, p) <==> IsTable(s2, p);
  }

  /** Unmapping the pages added takes everything back. */
  lemma PopulateUndone(s: Mem, s1: Mem, s2: Mem, root: nat, want: map<nat, PageSpec>, v: nat, n: nat)
    requires Populated(s, s1, root, want) && Cleared(s1, s2, root, v, n) && root in s.users && v + n <= TRAPFRAME
    requires forall w :: w in want ==> v <= w < v + n
    requires forall k :: k in s.maps ==> !InRange(k, root, v, n)
    ensures Kept(s, s2)
  {
    assert s2.maps == s.maps;
    OwnersSame(s, s2);
    forall f | f in s1.owner && f !in s.owner ensures f in s.free {
      var k := s1.owner[f];
      assert k !in s.maps;
      assert PageIs(s, s1, k, want[k.page]);
    }
    forall p: nat ensures IsPage(s2, p) <==> IsPage(s, p) {
      if p in s.owner { assert s1.maps[s.owner[p]].frame == p; }
      PagesRestored(s, s1, s2, p);
    }
  }

  // ---- the two uses

  /** `want` is n zeroed pages from v on. */
  ghost predicate IsZero(v: nat, n: nat, flags: nat, want: map<nat, PageSpec>) {
    && (forall w: nat :: w in want <==> v <= w < v + n)
    && (forall w: nat :: w in want ==> want[w] == PageSpec(flags, Filled(0)))
  }

  lemma IsZeroStep(v: nat, n: nat, flags: nat, want: map<nat, PageSpec>)
    requires IsZero(v, n, flags, want)
    ensures IsZero(v, n + 1, flags, want[v + n := PageSpec(flags, Filled(0))])
  {
  }

  /** `want` is a copy of the first n pages mapped at root: flags and bytes. */
  ghost predicate IsCopy(s: Mem, root: nat, n: nat, want: map<nat, PageSpec>)
    requires root in s.users && n <= TRAPFRAME
  {
    && (forall w: nat :: w in want <==> w < n && Slot(root, w) in s.maps)
    && (forall w: nat :: w in want ==> want[w] == CopyOf(s, root, w))
  }

  ghost function CopyOf(s: Mem, root: nat, w: nat): PageSpec
    requires root in s.users && w < TRAPFRAME && Slot(root, w) in s.maps
  {
    PageSpec(s.maps[Slot(root, w)].flags, s.data[FrameOf(s, root, w)])
  }

  /** The frame of a mapped user page. */
  ghost function FrameOf(s: Mem, root: nat, w: nat): (f: nat)
    requires root in s.users && w < TRAPFRAME && Slot(root, w) in s.maps
    ensures f in s.owner && WholeIn(s, f)
  {
    s.maps[Slot(root, w)].frame
  }

  /** A mapped page of the address space being copied still has the bytes it had at the start. */
  lemma CopySource(s: Mem, s': Mem, from: nat, i: nat, to: nat, want: map<nat, PageSpec>)
    requires from in s.users && i < TRAPFRAME && Slot(from, i) in s.maps && Populated(s, s', to, want)
    ensures Slot(from, i) in s'.maps
    ensures var l := s'.maps[Slot(from, i)];
            WholeIn(s', l.frame) && l.flags < 1024
            && PageSpec(WithValid(l.flags), s'.data[l.frame]) == CopyOf(s, from, i)
  {
    assert SlotOk(s.t, s.maps, Slot(from, i));
    assert FrameOf(s, from, i) !in s.free;
  }

  lemma IsCopyStep(s: Mem, root: nat, n: nat, want: map<nat, PageSpec>)
    requires root in s.users && n < TRAPFRAME && IsCopy(s, root, n, want)
    ensures IsCopy(s, root, n + 1, if Slot(root, n) in s.maps then want[n := CopyOf(s, root, n)] else want)
  {
  }
}
