/** What physical memory holds: free pages, page tables and the mappings they make, user frames; and the
    elementary changes to it. */
module VmState {
  import opened Sv39
  import opened PageTable

  const PHYSTOP: nat := 0x8800_0000   // KERNBASE + 128 MB

  /** Physical page p lies after the kernel and below PHYSTOP. */
  predicate InRam(end: nat, p: nat) { end <= p * PGSIZE < PHYSTOP }

  /** A page of the address space with the given root page table. */
  datatype Slot = Slot(root: nat, page: nat)

  datatype Leaf = Leaf(frame: nat, flags: nat)

  predicate LeafOk(l: Leaf) { l.flags < 1024 && l.flags % 2 == 1 }

  /** Physical memory. `end` is the first address after the kernel, `free` the pages on the free list, `data` the
      bytes of pages, `maps` the abstract mappings, `users` the roots of user page tables, and `owner` the user
      frames with the one place each is mapped at. */
  datatype View = View(end: nat, free: set<nat>, data: map<nat, seq<nat>>, t: Tables, maps: map<Slot, Leaf>,
                       users: set<nat>, owner: map<nat, Slot>)

  /** The page tables map slot k as `maps` says. */
  ghost predicate SlotOk(t: Tables, maps: map<Slot, Leaf>, k: Slot) {
    if k in maps then LeafOk(maps[k]) && Pte(t, k.root, k.page) == PteOf(maps[k].frame, maps[k].flags)
    else Pte(t, k.root, k.page) == 0
  }

  /** The page tables refine the abstract map. */
  ghost predicate Refines(t: Tables, maps: map<Slot, Leaf>) {
    forall k {:trigger SlotOk(t, maps, k)} :: SlotOk(t, maps, k)
  }

  /** Free pages, tables and user frames are pages of memory, and no page is two of these. That there are no others but
      those handed out is VmAccount.NoPageLost. */
  ghost predicate Apart(s: View) {
    && s.end > 0
    && (forall p :: p in s.free ==> InRam(s.end, p) && p !in s.owner)
    && (forall q :: q in s.t.at ==> InRam(s.end, s.t.at[q]) && s.t.at[q] !in s.owner && s.t.at[q] !in s.free)
    && (forall f :: f in s.owner ==> InRam(s.end, f) && WholeIn(s, f))
  }

  predicate WholeIn(s: View, p: nat) { p in s.data && |s.data[p]| == 4096 }

  /** The mappings that own their frame. */
  predicate Tracked(s: View, k: Slot) { k.root in s.users && k.page < TRAPFRAME }

  /** `owner` is the inverse of the user mappings below the trapframe: a user frame is mapped at one place,
      and every such mapping is of a user frame. */
  ghost predicate Frames(s: View) {
    && (forall f :: f in s.owner ==> Tracked(s, s.owner[f]) && s.owner[f] in s.maps && s.maps[s.owner[f]].frame == f)
    && (forall k :: k in s.maps && Tracked(s, k) ==> s.maps[k].frame in s.owner && s.owner[s.maps[k].frame] == k)
  }

  predicate UserOk(s: View, r: nat) { r in s.users ==> RootIn(s, r) }

  /** The user page tables are there. */
  ghost predicate Rooted(s: View) { forall r {:trigger UserOk(s, r)} :: UserOk(s, r) }

  ghost predicate ViewOk(s: View) { TreeInv(s.t) && Refines(s.t, s.maps) && Apart(s) && Frames(s) && Rooted(s) }

  type Mem = s: View | ViewOk(s) ghost witness Empty(1)

  function Empty(end: nat): View { View(end, {}, map[], Tables(map[], map[]), map[], {}, map[]) }

  /** A page of memory that is in no use the allocator or the page tables know of. */
  ghost predicate Loose(s: View, p: nat) { InRam(s.end, p) && p !in s.free && p !in s.owner && !IsTable(s, p) }

  /** A page handed out by kalloc and not yet put to use. */
  ghost predicate Held(s: View, p: nat) { Loose(s, p) && WholeIn(s, p) }

  predicate RootIn(s: View, root: nat) { Pos(root, 2, 0) in s.t.at }

  ghost predicate IsTable(s: View, p: nat) { exists q :: q in s.t.at && s.t.at[q] == p }

  /** Page p is free or in use as a table. */
  ghost predicate IsPage(s: View, p: nat) { p in s.free || IsTable(s, p) }

  ghost predicate SamePages(s: View, s': View) {
    forall p: nat {:trigger IsPage(s', p)} {:trigger IsPage(s, p)} :: IsPage(s', p) <==> IsPage(s, p)
  }

  ghost predicate Grows(at: map<Pos, nat>, at': map<Pos, nat>) {
    forall q :: q in at ==> q in at' && at'[q] == at[q]
  }

  /** Pages that were not free keep their bytes. */
  ghost predicate SameBytes(s: View, s': View) {
    && s'.free <= s.free
    && (forall p :: p in s.data && p !in s.free ==> p in s'.data && s'.data[p] == s.data[p])
  }

  /** From s to s', free pages may have become tables; no mapping, frame or byte in use has changed. */
  ghost predicate Kept(s: View, s': View) {
    && s'.end == s.end && s'.users == s.users && s'.owner == s.owner && s'.maps == s.maps
    && Grows(s.t.at, s'.t.at) && SamePages(s, s') && SameBytes(s, s')
  }

  lemma RootedGrows(s: View, s': View)
    requires Rooted(s) && s'.users == s.users && Grows(s.t.at, s'.t.at)
    ensures Rooted(s')
  {
    forall r ensures UserOk(s', r) { assert UserOk(s, r); }
  }

  lemma KeptTrans(a: View, b: View, c: View)
    requires Kept(a, b) && Kept(b, c)
    ensures Kept(a, c)
  {
  }

  lemma HeldKept(s: View, s': View, pa: nat)
    requires Held(s, pa) && Kept(s, s')
    ensures Held(s', pa)
  {
    assert !IsPage(s, pa);
    assert !IsPage(s', pa);
  }

  /** Reading an entry is reading the abstract map. */
  lemma ReadPte(s: Mem, k: Slot)
    ensures Present(Pte(s.t, k.root, k.page)) <==> k in s.maps
    ensures k in s.maps ==> var e := Pte(s.t, k.root, k.page);
                            PageOf(e) == s.maps[k].frame && Flags(e) == s.maps[k].flags
                            && (Writable(e) <==> Writable(s.maps[k].flags)) && (User(e) <==> User(s.maps[k].flags))
  {
    assert SlotOk(s.t, s.maps, k);
    if k in s.maps {
      var n, w := s.maps[k].frame, s.maps[k].flags;
      FramePart(n, w);
      WriteBit(n, w);
      UserBit(n, w);
    }
  }

  // ---- the free list

  function Filled(b: nat): (s: seq<nat>)
    ensures |s| == 4096
  {
    seq(4096, i => b)
  }

  function Pop(s: View, pa: nat): View {
    s.(free := s.free - {pa}, data := s.data[pa := Filled(5)])
  }

  function Push(s: View, pa: nat): View {
    s.(free := s.free + {pa}, data := s.data[pa := Filled(1)])
  }

  lemma PopOk(s: Mem, pa: nat)
    requires pa in s.free
    ensures ViewOk(Pop(s, pa)) && Held(Pop(s, pa), pa) && pa > 0
  {
    RootedGrows(s, Pop(s, pa));
  }

  lemma PushOk(s: Mem, pa: nat)
    requires Loose(s, pa)
    ensures ViewOk(Push(s, pa))
  {
    RootedGrows(s, Push(s, pa));
  }

  // ---- a new table

  function WithTable(s: View, q: Pos, i: nat, c: nat): View
    requires q in s.t.at && NodeOk(s.t, q) && q.level >= 1 && i < 512
  {
    Pop(s, c).(t := AddTable(s.t, q, i, c))
  }

  lemma PagesTake(s: View, s': View, n: Pos, c: nat)
    requires c in s.free && s'.free == s.free - {c} && n !in s.t.at && s'.t.at == s.t.at[n := c]
    ensures SamePages(s, s')
  {
    forall p: nat ensures IsPage(s', p) <==> IsPage(s, p) {
      if p == c {
        assert n in s'.t.at;
      } else {
        assert forall q :: q in s.t.at ==> q in s'.t.at && s'.t.at[q] == s.t.at[q];
      }
    }
  }

  lemma RefinesSame(t: Tables, t': Tables, maps: map<Slot, Leaf>)
    requires Refines(t, maps) && SamePtes(t, t')
    ensures Refines(t', maps)
  {
    forall k ensures SlotOk(t', maps, k) { assert SlotOk(t, maps, k); }
  }

  /** walk: a free page made a table changes nothing else. */
  lemma WithTableOk(s: Mem, q: Pos, i: nat, c: nat)
    requires c in s.free && q in s.t.at && q.level >= 1 && i < 512 && !Present(Entry(s.t, q, i))
    ensures ViewOk(WithTable(s, q, i, c)) && Kept(s, WithTable(s, q, i, c))
    ensures WithTable(s, q, i, c).t.at == s.t.at[Child(q, i) := c]
  {
    var s' := WithTable(s, q, i, c);
    PopOk(s, c);
    assert TreeInv(s'.t) && Child(q, i) !in s.t.at && Refines(s'.t, s.maps) by {
      AddTableOk(s.t, q, i, c);
      RefinesSame(s.t, s'.t, s.maps);
    }
    RootedGrows(s, s');
    assert SamePages(s, s') by { PagesTake(s, s', Child(q, i), c); }
  }

  // ---- mapping and unmapping one page

  ghost predicate HasLeaf(s: View, k: Slot) { Pos(k.root, 0, k.page / 512) in s.t.at }

  /** Entry e stored for slot k. */
  ghost function WithPte(t: Tables, k: Slot, e: nat): Tables
    requires TreeInv(t) && Pos(k.root, 0, k.page / 512) in t.at
  {
    SetLeaf(t, Pos(k.root, 0, k.page / 512), k.page % 512, e)
  }

  lemma WithPteOk(t: Tables, maps: map<Slot, Leaf>, maps': map<Slot, Leaf>, k: Slot, e: nat)
    requires TreeInv(t) && Refines(t, maps) && Pos(k.root, 0, k.page / 512) in t.at && maps' - {k} == maps - {k}
    requires if k in maps' then LeafOk(maps'[k]) && e == PteOf(maps'[k].frame, maps'[k].flags) else e == 0
    ensures TreeInv(WithPte(t, k, e)) && Refines(WithPte(t, k, e), maps')
  {
    var t' := WithPte(t, k, e);
    SetLeafEffect(t, k.root, k.page, e);
    forall j ensures SlotOk(t', maps', j) {
      if j != k {
        assert SlotOk(t, maps, j) && (j in maps - {k} <==> j in maps) && (j in maps' - {k} <==> j in maps');
        assert j in maps ==> (maps - {k})[j] == maps[j] && (maps' - {k})[j] == maps'[j];
        assert (j.root, j.page) != (k.root, k.page);
      }
    }
  }

  ghost function MapPage(s: View, k: Slot, l: Leaf): View
    requires TreeInv(s.t) && HasLeaf(s, k)
  {
    s.(t := WithPte(s.t, k, PteOf(l.frame, l.flags)), maps := s.maps[k := l],
       owner := if Tracked(s, k) then s.owner[l.frame := k] else s.owner)
  }

  lemma MapPageOk(s: Mem, k: Slot, l: Leaf)
    requires HasLeaf(s, k) && k !in s.maps && LeafOk(l) && (Tracked(s, k) ==> Held(s, l.frame))
    ensures ViewOk(MapPage(s, k, l)) && MapPage(s, k, l).t.at == s.t.at
  {
    WithPteOk(s.t, s.maps, s.maps[k := l], k, PteOf(l.frame, l.flags));
    RootedGrows(s, MapPage(s, k, l));
  }

  ghost function UnmapPage(s: View, k: Slot): View
    requires TreeInv(s.t) && HasLeaf(s, k) && k in s.maps
  {
    s.(t := WithPte(s.t, k, 0), maps := s.maps - {k},
       owner := if Tracked(s, k) then s.owner - {s.maps[k].frame} else s.owner)
  }

  lemma UnmapPageOk(s: Mem, k: Slot)
    requires HasLeaf(s, k) && k in s.maps
    ensures ViewOk(UnmapPage(s, k)) && UnmapPage(s, k).t.at == s.t.at
    ensures Tracked(s, k) ==> Held(UnmapPage(s, k), s.maps[k].frame)
  {
    WithPteOk(s.t, s.maps, s.maps - {k}, k, 0);
    RootedGrows(s, UnmapPage(s, k));
  }

  /** uvmclear: slot k loses its user bit, if it is mapped. */
  ghost function NoUser(s: View, k: Slot): View
    requires TreeInv(s.t) && HasLeaf(s, k)
  {
    s.(t := WithPte(s.t, k, ClearUser(Pte(s.t, k.root, k.page))),
       maps := if k in s.maps then s.maps[k := s.maps[k].(flags := ClearUser(s.maps[k].flags))] else s.maps)
  }

  lemma ClearUserOf(n: nat, w: nat)
    requires w < 1024 && w % 2 == 1
    ensures ClearUser(PteOf(n, w)) == PteOf(n, ClearUser(w)) && ClearUser(w) < 1024 && ClearUser(w) % 2 == 1
  {
    UserBit(n, w);
    if User(w) { LowClear(w); }
  }

  lemma NoUserOk(s: Mem, k: Slot)
    requires HasLeaf(s, k)
    ensures ViewOk(NoUser(s, k)) && (k in s.maps ==> !User(NoUser(s, k).maps[k].flags))
  {
    var s' := NoUser(s, k);
    assert SlotOk(s.t, s.maps, k);
    if k in s.maps {
      ClearUserOf(s.maps[k].frame, s.maps[k].flags);
      ClearUserBit(s.maps[k].flags);
    }
    WithPteOk(s.t, s.maps, s'.maps, k, ClearUser(Pte(s.t, k.root, k.page)));
    RootedGrows(s, s');
  }

  // ---- a new tree

  /** uvmcreate: free page c becomes an empty user page table. */
  function WithRoot(s: View, c: nat): View {
    Pop(s, c).(t := Tables(s.t.table[c := Zeros()], s.t.at[Pos(c, 2, 0) := c]), users := s.users + {c})
  }

  /** A table belongs to a tree whose root page is a table. */
  lemma {:induction false} HasTop(t: Trees, q: Pos)
    requires q in t.at
    ensures q.level <= 2 && Pos(q.root, 2, 0) in t.at && t.at[Pos(q.root, 2, 0)] == q.root
    decreases 2 - q.level
  {
    assert NodeOk(t, q) && UpOk(t, q);
    if q.level < 2 { HasTop(t, Parent(q)); }
  }

  lemma NewTree(t: Trees, c: nat)
    requires c > 0 && forall q :: q in t.at ==> t.at[q] != c
    ensures var t' := Tables(t.table[c := Zeros()], t.at[Pos(c, 2, 0) := c]);
            TreeInv(t') && SamePtes(t, t') && Pos(c, 2, 0) !in t.at
  {
    var t', n := Tables(t.table[c := Zeros()], t.at[Pos(c, 2, 0) := c]), Pos(c, 2, 0);
    forall q | q in t.at ensures q.root != c { HasTop(t, q); }
    forall q | q in t'.at ensures NodeOk(t', q) && UpOk(t', q) {
      if q != n { assert NodeOk(t, q) && UpOk(t, q); }
    }
    forall q, i | q in t'.at && q.level >= 1 && 0 <= i < 512 ensures EdgeOk(t', q, i) {
      if q != n { assert EdgeOk(t, q, i); } else { assert Entry(t', q, i) == 0; }
    }
    forall r: nat, v: nat ensures Pte(t', r, v) == Pte(t, r, v) {
      var p := Pos(r, 0, v / 512);
      if p in t.at { assert NodeOk(t, p) && NodeOk(t', p); }
    }
  }

  /** Nothing is mapped in a tree that is not there. */
  lemma MapsHaveRoots(s: Mem, k: Slot)
    requires k in s.maps
    ensures HasLeaf(s, k) && RootIn(s, k.root) && s.t.at[Pos(k.root, 2, 0)] == k.root
  {
    ReadPte(s, k);
    HasTop(s.t, Pos(k.root, 0, k.page / 512));
  }

  lemma WithRootOk(s: Mem, c: nat)
    requires c in s.free
    ensures ViewOk(WithRoot(s, c)) && RootIn(WithRoot(s, c), c) && c !in s.users
    ensures forall k :: k in s.maps ==> k.root != c
    ensures Grows(s.t.at, WithRoot(s, c).t.at) && SamePages(s, WithRoot(s, c)) && SameBytes(s, WithRoot(s, c))
  {
    var s' := WithRoot(s, c);
    PopOk(s, c);
    forall k | k in s.maps ensures k.root != c { MapsHaveRoots(s, k); }
    assert TreeInv(s'.t) && Pos(c, 2, 0) !in s.t.at && Refines(s'.t, s.maps) by {
      NewTree(s.t, c);
      RefinesSame(s.t, s'.t, s.maps);
    }
    PagesTake(s, s', Pos(c, 2, 0), c);
    assert UserOk(s, c);
    forall r ensures UserOk(s', r) { assert UserOk(s, r); }
  }
}
