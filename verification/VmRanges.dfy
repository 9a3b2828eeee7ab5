/** Changes to a range of pages: what mappages, uvmunmap, uvmalloc and uvmcopy do to memory as a whole. */
module VmRanges {
  import opened VmState

  predicate InRange(k: Slot, root: nat, v: nat, n: nat) { k.root == root && v <= k.page < v + n }

  lemma RangeMono(root: nat, v: nat, n: nat, m: nat)
    requires n <= m
    ensures forall k :: InRange(k, root, v, n) ==> InRange(k, root, v, m)
  {
  }

  // ---- mappages

  /** n pages from v on at root, mapped to consecutive frames from f on. */
  function RangeMap(root: nat, v: nat, f: nat, flags: nat, n: nat): map<Slot, Leaf> {
    if n == 0 then map[] else RangeMap(root, v, f, flags, n - 1) + map[Slot(root, v + n - 1) := Leaf(f + n - 1, flags)]
  }

  lemma {:induction false} RangeMapAt(root: nat, v: nat, f: nat, flags: nat, n: nat)
    ensures var m := RangeMap(root, v, f, flags, n);
            && (forall k :: k in m <==> InRange(k, root, v, n))
            && (forall k :: k in m ==> m[k] == Leaf(f + k.page - v, flags))
  {
    if n > 0 { RangeMapAt(root, v, f, flags, n - 1); }
  }

  lemma RangeStep(root: nat, v: nat, f: nat, flags: nat, n: nat)
    ensures RangeMap(root, v, f, flags, n + 1)
            == RangeMap(root, v, f, flags, n) + map[Slot(root, v + n) := Leaf(f + n, flags)]
    ensures Slot(root, v + n) !in RangeMap(root, v, f, flags, n)
  {
    RangeMapAt(root, v, f, flags, n);
  }

  lemma RangeMapOne(root: nat, v: nat, f: nat, flags: nat)
    ensures RangeMap(root, v, f, flags, 1) == map[Slot(root, v) := Leaf(f, flags)]
  {
    assert RangeMap(root, v, f, flags, 0) == map[];
  }

  /** Mappings `add` have been made; otherwise only free pages became tables. Which frames are now in use
      follows from the mappings, by OwnerFollows. */
  ghost predicate Added(s: View, s': View, add: map<Slot, Leaf>) {
    && s'.end == s.end && s'.users == s.users && s'.maps == s.maps + add
    && Grows(s.t.at, s'.t.at) && SamePages(s, s') && SameBytes(s, s')
  }

  lemma AddedNone(s: View)
    ensures Added(s, s, map[])
  {
  }

  lemma AddedNothing(s: Mem, s': Mem)
    requires Added(s, s', map[])
    ensures Kept(s, s')
  {
    assert s'.maps == s.maps;
    OwnersSame(s, s');
  }

  lemma OwnersSame(s: Mem, s': Mem)
    requires s'.users == s.users && s'.maps == s.maps
    ensures s'.owner == s.owner
  {
    forall f ensures f in s.owner <==> f in s'.owner { }
  }

  lemma AddedTrans(a: View, b: View, c: View, add: map<Slot, Leaf>, add': map<Slot, Leaf>)
    requires Added(a, b, add) && Added(b, c, add')
    ensures Added(a, c, add + add')
  {
    assert a.maps + add + add' == a.maps + (add + add');
  }

  lemma KeptThenAdded(a: View, b: View, c: View, add: map<Slot, Leaf>)
    requires Kept(a, b) && Added(b, c, add)
    ensures Added(a, c, add)
  {
  }

  lemma AddedThenKept(a: View, b: View, c: View, add: map<Slot, Leaf>)
    requires Added(a, b, add) && Kept(b, c)
    ensures Added(a, c, add)
  {
  }

  /** The user frames are those of the tracked mappings. */
  lemma OwnerFollows(s: Mem, f: nat)
    ensures f in s.owner <==> exists k :: k in s.maps && Tracked(s, k) && s.maps[k].frame == f
  {
  }

  /** A page held stays held while other pages are put to use. */
  lemma HeldAdded(s: Mem, s': Mem, add: map<Slot, Leaf>, p: nat)
    requires Added(s, s', add) && Held(s, p) && forall k :: k in add ==> add[k].frame != p
    ensures Held(s', p)
  {
    assert !IsPage(s, p);
    assert !IsPage(s', p);
  }

  lemma MapPageAdds(s: Mem, k: Slot, l: Leaf)
    requires HasLeaf(s, k) && k !in s.maps && LeafOk(l) && (Tracked(s, k) ==> Held(s, l.frame))
    ensures Added(s, MapPage(s, k, l), map[k := l])
  {
    MapPageOk(s, k, l);
    assert s.maps[k := l] == s.maps + map[k := l];
  }

  // ---- uvmunmap

  ghost function DropSlots(maps: map<Slot, Leaf>, root: nat, v: nat, n: nat): map<Slot, Leaf> {
    map k | k in maps && !InRange(k, root, v, n) :: maps[k]
  }

  /** The frames still owned when pages [v, v + n) of root are given up. */
  ghost function Disown(owner: map<nat, Slot>, root: nat, v: nat, n: nat): map<nat, Slot> {
    map f | f in owner && !InRange(owner[f], root, v, n) :: owner[f]
  }

  /** Pages [v, v + n) of root are unmapped, and the frames they owned are free. */
  ghost predicate Cleared(s: View, s': View, root: nat, v: nat, n: nat) {
    && s'.end == s.end && s'.users == s.users && s'.t.at == s.t.at
    && s'.maps == DropSlots(s.maps, root, v, n) && s'.owner == Disown(s.owner, root, v, n)
    && (forall p :: p in s'.free <==> p in s.free || (p in s.owner && p !in s'.owner))
    && (forall p :: p in s.data && p !in s'.free ==> p in s'.data && s'.data[p] == s.data[p])
  }

  lemma ClearNone(s: View, root: nat, v: nat)
    ensures Cleared(s, s, root, v, 0)
  {
    assert Disown(s.owner, root, v, 0) == s.owner && DropSlots(s.maps, root, v, 0) == s.maps;
  }

  /** Giving up one more page. */
  lemma DropStep(s: View, root: nat, v: nat, n: nat)
    requires Frames(s)
    ensures var k := Slot(root, v + n);
            && DropSlots(s.maps, root, v, n + 1) == DropSlots(s.maps, root, v, n) - {k}
            && (Disown(s.owner, root, v, n + 1) ==
                if k in s.maps && Tracked(s, k) then Disown(s.owner, root, v, n) - {s.maps[k].frame}
                else Disown(s.owner, root, v, n))
  {
    var k := Slot(root, v + n);
    forall j ensures InRange(j, root, v, n + 1) <==> InRange(j, root, v, n) || j == k { }
    assert DropSlots(s.maps, root, v, n + 1) == DropSlots(s.maps, root, v, n) - {k};
  }

  lemma ClearSkip(s: View, s1: View, root: nat, v: nat, n: nat)
    requires Frames(s) && Cleared(s, s1, root, v, n) && Slot(root, v + n) !in s1.maps
    ensures Cleared(s, s1, root, v, n + 1)
  {
    DropStep(s, root, v, n);
  }

  lemma ClearUntracked(s: View, s1: Mem, root: nat, v: nat, n: nat)
    requires Frames(s) && Cleared(s, s1, root, v, n) && HasLeaf(s1, Slot(root, v + n)) && Slot(root, v + n) in s1.maps
    requires !Tracked(s, Slot(root, v + n))
    ensures Cleared(s, UnmapPage(s1, Slot(root, v + n)), root, v, n + 1)
  {
    UnmapPageOk(s1, Slot(root, v + n));
    DropStep(s, root, v, n);
  }

  lemma ClearTracked(s: View, s1: Mem, root: nat, v: nat, n: nat)
    requires Frames(s) && Cleared(s, s1, root, v, n) && HasLeaf(s1, Slot(root, v + n)) && Slot(root, v + n) in s1.maps
    requires Tracked(s, Slot(root, v + n))
    ensures Cleared(s, Push(UnmapPage(s1, Slot(root, v + n)), s1.maps[Slot(root, v + n)].frame), root, v, n + 1)
  {
    UnmapPageOk(s1, Slot(root, v + n));
    DropStep(s, root, v, n);
  }
}
