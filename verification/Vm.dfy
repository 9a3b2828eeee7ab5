/** kernel/kalloc.c and kernel/vm.c: physical pages on a free list, page-table pages written in place, and
    the contents of mapped frames. */
module Vm {
  import opened Bytes
  import opened Sv39
  import opened PageTable
  import opened VmState
  import opened VmRanges
  import opened VmFill
  import opened VmFree
  import opened VmUser
  import opened VmAccount

  datatype WalkResult = Found(page: nat, idx: nat) | NoEntry | WalkPanic
  datatype MapResult = Mapped | NoMemory | MapPanic

  /** kmem: the first free page, the links stored in the free pages, and the order they give. */
  datatype Kmem = Kmem(head: nat, next: map<nat, nat>, ghost order: seq<nat>)

  ghost predicate LinkOk(k: Kmem, i: nat) {
    && i < |k.order| && k.order[i] > 0 && k.order[i] in k.next
    && k.next[k.order[i]] == if i + 1 < |k.order| then k.order[i + 1] else 0
  }

  /** `order` is the run of free pages starting at `head`, each once. */
  ghost predicate Chained(k: Kmem) {
    && (k.head == if k.order == [] then 0 else k.order[0])
    && (forall i {:trigger LinkOk(k, i)} :: 0 <= i < |k.order| ==> LinkOk(k, i))
    && (forall i, j :: 0 <= i < j < |k.order| ==> k.order[i] != k.order[j])
  }

  type FreeList = k: Kmem | Chained(k) ghost witness Kmem(0, map[], [])

  ghost function Listed(k: Kmem): set<nat> { set p | p in k.order }

  lemma ChainTail(k: FreeList)
    ensures Listed(k) == {} <==> k.head == 0
    ensures k.head != 0 ==>
              && k.order != [] && k.head in Listed(k) && k.head in k.next
              && var k' := Kmem(k.next[k.head], k.next, k.order[1..]);
                 Chained(k') && Listed(k') == Listed(k) - {k.head}
  {
    if k.order == [] { return; }
    assert k.order[0] in Listed(k) && LinkOk(k, 0);
    var k' := Kmem(k.next[k.head], k.next, k.order[1..]);
    forall i | 0 <= i < |k'.order| ensures LinkOk(k', i) { assert LinkOk(k, i + 1); }
    assert k.order == [k.head] + k'.order;
  }

  lemma ChainPush(k: FreeList, p: nat)
    requires p > 0 && p !in Listed(k)
    ensures var k' := Kmem(p, k.next[p := k.head], [p] + k.order);
            Chained(k') && Listed(k') == Listed(k) + {p}
  {
    var k' := Kmem(p, k.next[p := k.head], [p] + k.order);
    forall i | 0 <= i < |k'.order| ensures LinkOk(k', i) {
      if i > 0 { assert LinkOk(k, i - 1) && k'.order[i] == k.order[i - 1] && k.order[i - 1] in Listed(k); }
    }
    forall i, j | 0 <= i < j < |k'.order| ensures k'.order[i] != k'.order[j] {
      assert k'.order[j] == k.order[j - 1] && k.order[j - 1] in Listed(k);
    }
  }

  /** Page p lies within [start, stop). */
  predicate WholePage(p: nat, start: nat, stop: nat) { start <= p * PGSIZE && (p + 1) * PGSIZE <= stop }

  /** The mappings of a new address space: the trampoline, not for user code, and the trapframe below it. */
  function HighPages(root: nat, trampoline: nat, trapframe: nat): map<Slot, Leaf> {
    map[Slot(root, TRAMPOLINE) := Leaf(trampoline, WithValid(PTE_R + PTE_X))]
    + map[Slot(root, TRAPFRAME) := Leaf(trapframe, WithValid(PTE_R + PTE_W))]
  }

  /** The number of pages uvmalloc adds. */
  function Pages(oldsz: nat, newsz: nat): nat {
    if PageRoundUp(newsz) > PageRoundUp(oldsz) then PageRoundUp(newsz) - PageRoundUp(oldsz) else 0
  }

  /** The inner loop of copyinstr: up to n bytes from offset o of a page, through the first NUL. */
  method CopyToNul(page: seq<nat>, o: nat, n: nat) returns (bytes: seq<nat>, nul: bool)
    requires o + n <= |page|
    ensures |bytes| <= n && bytes == page[o..o + |bytes|]
    ensures if nul then IsString(bytes) else NoNul(bytes) && |bytes| == n
  {
    var p, left := o, n;
    bytes, nul := [], false;
    while left > 0 && !nul
      invariant 0 <= left <= n && |bytes| == n - left && p == o + |bytes| && bytes == page[o..p]
      invariant if nul then IsString(bytes) else NoNul(bytes)
    {
      left := left - 1;
      ghost var before := bytes;
      bytes := bytes + [page[p]];
      assert bytes[..|bytes| - 1] == before;
      nul := page[p] == 0;
      p := p + 1;
    }
  }

  class Memory {
    const end: nat
    var kmem: FreeList
    var table: map<nat, seq<nat>>     // contents of the pages in use as page tables
    var data: map<nat, seq<nat>>      // contents of pages as bytes
    ghost var g: Mem

    ghost predicate Lists()
      reads this
    {
      Listed(kmem) == g.free && data == g.data && end == g.end
    }

    ghost predicate Valid()
      reads this
    {
      Lists() && table == g.t.table
    }

    constructor (end: nat)
      requires end > 0
      ensures Valid() && g == Empty(end)
    {
      this.end := end;
      kmem, table, data := Kmem(0, map[], []), map[], map[];
      g := Empty(end);
    }

    /** kfree of the page at address pa: false is the panic. The caller gives up a page it holds. */
    method Kfree(pa: nat) returns (ok: bool)
      requires Lists() && (pa % PGSIZE == 0 && InRam(end, pa / PGSIZE) ==> Loose(g, pa / PGSIZE))
      modifies this`kmem, this`data, this`g
      ensures Lists() && ok == (pa % PGSIZE == 0 && InRam(end, pa / PGSIZE))
      ensures g == if ok then Push(old(g), pa / PGSIZE) else old(g)
      ensures kmem.order == if ok then [pa / PGSIZE] + old(kmem).order else old(kmem).order
    {
      if pa % PGSIZE != 0 || pa < end || pa >= PHYSTOP { return false; }
      var p := pa / PGSIZE;
      data := data[p := Filled(1)];
      ChainPush(kmem, p);
      PushOk(g, p);
      kmem := Kmem(p, kmem.next[p := kmem.head], [p] + kmem.order);
      g := Push(g, p);
      return true;
    }

    /** kfree of the page with the given number, which is in no use. */
    method KfreePage(page: nat) returns (ok: bool)
      requires Lists() && Loose(g, page)
      modifies this`kmem, this`data, this`g
      ensures Lists() && ok && g == Push(old(g), page)
    {
      PageAddress(page);
      ok := Kfree(page * PGSIZE);
    }

    /** kalloc: the page freed last, or 0. */
    method Kalloc() returns (pa: nat)
      requires Lists()
      modifies this`kmem, this`data, this`g
      ensures Lists() && (pa == 0 <==> old(g).free == {})
      ensures pa == 0 ==> g == old(g) && kmem == old(kmem)
      ensures pa > 0 ==> pa in old(g).free && g == Pop(old(g), pa) && Held(g, pa)
                         && old(kmem).order == [pa] + kmem.order
    {
      pa := kmem.head;
      ChainTail(kmem);
      if pa != 0 {
        PopOk(g, pa);
        kmem := Kmem(kmem.next[pa], kmem.next, kmem.order[1..]);
        g := Pop(g, pa);
        data := data[pa := Filled(5)];
      }
    }

    /** freerange: every whole page of [start, stop) goes on the list. */
    method Freerange(start: nat, stop: nat)
      requires Lists() && g.t.at == map[] && g.owner == map[] && end <= start && stop <= PHYSTOP
      requires forall p :: p in g.free ==> !WholePage(p, start, stop)
      modifies this`kmem, this`data, this`g
      ensures Lists() && g == old(g).(free := g.free, data := g.data)
      ensures forall x: nat :: x in g.free <==> x in old(g).free || WholePage(x, start, stop)
    {
      var a := PageRoundUp(start) * PGSIZE;
      ghost var p := PageRoundUp(start);
      while a + PGSIZE <= stop
        invariant a == p * PGSIZE && PageRoundUp(start) <= p && Lists() && g == old(g).(free := g.free, data := g.data)
        invariant forall x: nat :: x in g.free <==> x in old(g).free || (x < p && WholePage(x, start, stop))
        decreases stop - a
      {
        assert a / PGSIZE == p && a % PGSIZE == 0;
        var _ := Kfree(a);
        a := a + PGSIZE;
        p := p + 1;
      }
    }

    /** kinit: every page after the kernel and below PHYSTOP is free. */
    method Kinit()
      requires Lists() && g == Empty(end)
      modifies this`kmem, this`data, this`g
      ensures Lists() && g.t.at == map[] && Accounted(g, {})
    {
      Freerange(end, PHYSTOP);
      forall p: nat ensures p in g.free <==> InRam(end, p) { assert p in g.free <==> WholePage(p, end, PHYSTOP); }
      AllFree(g);
    }

    ghost predicate HasRoot(root: nat)
      reads this
    {
      RootIn(g, root)
    }

    /** walk, one missing level: a zeroed page becomes the table below entry i of q. */
    method NewTable(ghost q: Pos, page: nat, i: nat) returns (c: nat)
      requires Valid() && q in g.t.at && page == g.t.at[q] && q.level >= 1 && i < 512
      requires NodeOk(g.t, q) && !Present(table[page][i])
      modifies this
      ensures Valid() && (c == 0 ==> g == old(g) && g.free == {})
      ensures c > 0 ==> c in old(g).free && g == WithTable(old(g), q, i, c)
    {
      ghost var s := g;
      c := Kalloc();
      if c == 0 { return; }
      table := table[c := Zeros()];
      table := table[page := Row(table[page], i, PteOf(c, 1))];
      ghost var w := WithTable(s, q, i, c);
      assert ViewOk(w) by { WithTableOk(s, q, i, c); }
      assert w.free == g.free && w.data == g.data && w.end == g.end && w.t.table == table;
      g := w;
    }

    /** walk, one level: the table below entry i of q, made if there is none and alloc is set; 0 if still none. */
    method Descend(ghost q: Pos, page: nat, i: nat, alloc: bool) returns (c: nat)
      requires Valid() && q in g.t.at && page == g.t.at[q] && q.level >= 1 && i < 512
      modifies this
      ensures Valid() && Kept(old(g), g) && (!alloc ==> g == old(g))
      ensures c > 0 ==> Child(q, i) in g.t.at && c == g.t.at[Child(q, i)]
      ensures c == 0 ==> Child(q, i) !in g.t.at && (alloc ==> g.free == {})
    {
      FollowEntry(g.t, q, i);
      if Present(table[page][i]) {
        return PageOf(table[page][i]);
      } else {
        if !alloc { return 0; }
        ghost var s := g;
        c := NewTable(q, page, i);
        if c > 0 { WithTableOk(s, q, i, c); }
      }
    }

    /** walk: the place of the leaf entry for va. */
    method Walk(root: nat, va: nat, alloc: bool) returns (r: WalkResult)
      requires Valid() && HasRoot(root)
      modifies this
      ensures Valid() && Kept(old(g), g)
      ensures r.WalkPanic? <==> va >= MAXVA
      ensures r.WalkPanic? || !alloc ==> g == old(g)
      ensures r.Found? ==> var q := Pos(root, 0, va / PGSIZE / 512);
                           q in g.t.at && r.page == g.t.at[q] && r.idx == va / PGSIZE % 512
      ensures r.NoEntry? ==> Pos(root, 0, va / PGSIZE / 512) !in g.t.at && (alloc ==> g.free == {})
    {
      if va >= MAXVA { return WalkPanic; }
      ghost var v := va / PGSIZE;
      PxDetermines(v);
      var page, level := root, 2;
      ghost var q := OnPath(root, v, 2);
      assert UpOk(g.t, q);
      while level > 0
        invariant 0 <= level <= 2 && Valid() && Kept(old(g), g) && (!alloc ==> g == old(g))
        invariant q == OnPath(root, v, level) && q in g.t.at && page == g.t.at[q]
      {
        var i := Px(va / PGSIZE, level);
        ghost var below, s := OnPath(root, v, level - 1), g;
        assert Child(q, i) == below by { PathStep(root, v, level); }
        page := Descend(q, page, i, alloc);
        KeptTrans(old(g), s, g);
        level := level - 1;
        q := below;
        if page == 0 {
          PathBroken(g.t, root, v, level);
          return NoEntry;
        }
      }
      return Found(page, Px(va / PGSIZE, 0));
    }

    /** *pte = e, for an entry Walk found; `next` is memory with that entry changed. */
    method Store(page: nat, idx: nat, e: nat, ghost next: Mem)
      requires Lists() && page in table && idx < |table[page]|
      requires next.free == g.free && next.data == g.data && next.end == g.end
      requires next.t.table == table[page := Row(table[page], idx, e)]
      modifies this`table, this`g
      ensures Valid() && g == next
    {
      table := table[page := Row(table[page], idx, e)];
      g := next;
    }

    /** mappages, one page: the one at address a. */
    method MapOne(root: nat, a: nat, ghost k: Slot, pa: nat, perm: nat, ghost l: Leaf) returns (r: MapResult)
      requires Valid() && HasRoot(root) && root == k.root && perm < 1024 && a == k.page * PGSIZE
      requires l == Leaf(pa / PGSIZE, WithValid(perm)) && (Tracked(g, k) ==> Held(g, l.frame))
      modifies this
      ensures Valid()
      ensures r.MapPanic? <==> k.page >= MAXVPN || k in old(g).maps
      ensures r.Mapped? ==> Added(old(g), g, map[k := l])
      ensures !r.Mapped? ==> Kept(old(g), g)
      ensures r.NoMemory? ==> g.free == {}
    {
      assert a / PGSIZE == k.page;
      var e := MakePte(pa, perm);
      assert LeafOk(l) && e == PteOf(l.frame, l.flags);
      var w := Walk(root, a, true);
      ReadPte(g, k);
      match w {
        case WalkPanic => return MapPanic;
        case NoEntry => return NoMemory;
        case Found(page, idx) =>
          assert HasLeaf(g, k) && NodeOk(g.t, Pos(root, 0, k.page / 512)) && table[page][idx] == Pte(g.t, root, k.page);
          if Present(table[page][idx]) { return MapPanic; }
          if Tracked(g, k) { HeldKept(old(g), g, l.frame); }
          ghost var next := MapPage(g, k, l);
          assert ViewOk(next) by { MapPageOk(g, k, l); }
          assert Added(old(g), next, map[k := l]) by {
            MapPageAdds(g, k, l);
            KeptThenAdded(old(g), g, next, map[k := l]);
          }
          Store(page, idx, e, next);
          return Mapped;
      }
    }

    /** The pages among n from v on that own their frames get frames that are held. */
    ghost predicate CanMap(root: nat, v: nat, f: nat, n: nat)
      reads this
    {
      forall x: nat :: f <= x < f + n && Tracked(g, Slot(root, v + x - f)) ==> Held(g, x)
    }

    /** mappages, one page after the mappings `add` since s0. */
    method MapNext(root: nat, a: nat, ghost k: Slot, pa: nat, perm: nat, ghost l: Leaf,
                   ghost s0: View, ghost add: map<Slot, Leaf>) returns (r: MapResult)
      requires Valid() && HasRoot(root) && root == k.root && perm < 1024 && a == k.page * PGSIZE
      requires l == Leaf(pa / PGSIZE, WithValid(perm)) && (Tracked(g, k) ==> Held(g, l.frame))
      requires Added(s0, g, add) && k !in add
      modifies this
      ensures Valid() && HasRoot(root)
      ensures r.MapPanic? <==> k.page >= MAXVPN || k in s0.maps
      ensures Added(s0, g, if r.Mapped? then add + map[k := l] else add)
      ensures r.Mapped? ==> forall x :: Held(old(g), x) && x != l.frame ==> Held(g, x)
      ensures r.NoMemory? ==> g.free == {}
    {
      ghost var s := g;
      r := MapOne(root, a, k, pa, perm, l);
      if r.Mapped? {
        AddedTrans(s0, s, g, add, map[k := l]);
        forall x | Held(s, x) && x != l.frame ensures Held(g, x) { HeldAdded(s, g, map[k := l], x); }
      } else {
        AddedThenKept(s0, s, g, add);
      }
    }

    /** mappages, one turn of the loop: page v + done of n. */
    method MapTurn(root: nat, a: nat, pa: nat, perm: nat, ghost s0: Mem, ghost v: nat, ghost n: nat, ghost f: nat,
                   ghost done: nat)
      returns (r: MapResult)
      requires Valid() && HasRoot(root) && perm < 1024 && a == (v + done) * PGSIZE && pa / PGSIZE == f + done
      requires done < n
      requires Added(s0, g, RangeMap(root, v, f, WithValid(perm), done)) && CanMap(root, v + done, f + done, n - done)
      modifies this
      ensures Valid() && HasRoot(root)
      ensures Added(s0, g, RangeMap(root, v, f, WithValid(perm), if r.Mapped? then done + 1 else done))
      ensures r.Mapped? ==> CanMap(root, v + done + 1, f + done + 1, n - done - 1)
      ensures r.MapPanic? <==> v + done >= MAXVPN || Slot(root, v + done) in s0.maps
      ensures r.NoMemory? ==> g.free == {}
    {
      ghost var k, l := Slot(root, v + done), Leaf(f + done, WithValid(perm));
      RangeStep(root, v, f, WithValid(perm), done);
      r := MapNext(root, a, k, pa, perm, l, s0, RangeMap(root, v, f, WithValid(perm), done));
    }

    /** mappages, the loop: n pages from address va on, the last one at `last`. */
    method MapLoop(va: nat, last: nat, pa: nat, perm: nat, root: nat, ghost v: nat, ghost n: nat, ghost f: nat)
      returns (r: MapResult, ghost done: nat)
      requires Valid() && HasRoot(root) && perm < 1024 && f == pa / PGSIZE
      requires va == v * PGSIZE && n > 0 && last == (v + n - 1) * PGSIZE && CanMap(root, v, f, n)
      modifies this
      ensures Valid() && done <= n && (r.Mapped? <==> done == n)
      ensures Added(old(g), g, RangeMap(root, v, f, WithValid(perm), done))
      ensures r.MapPanic? <==> done < n && (v + done >= MAXVPN || Slot(root, v + done) in old(g).maps)
      ensures r.NoMemory? ==> g.free == {}
    {
      var a, pa' := va, pa;
      done := 0;
      AddedNone(g);
      while true
        invariant Valid() && HasRoot(root) && done < n
        invariant Added(old(g), g, RangeMap(root, v, f, WithValid(perm), done))
        invariant a == (v + done) * PGSIZE && pa' / PGSIZE == f + done
        invariant CanMap(root, v + done, f + done, n - done)
        decreases n - done
      {
        NextPage(pa');
        r := MapTurn(root, a, pa', perm, old(g), v, n, f, done);
        if !r.Mapped? { return; }
        done := done + 1;
        if a == last { return; }
        a := a + PGSIZE;
        pa' := pa' + PGSIZE;
      }
    }

    /** mappages. A failure leaves the pages done so far mapped. */
    method MapPages(root: nat, va: nat, size: nat, pa: nat, perm: nat) returns (r: MapResult, ghost done: nat)
      requires Valid() && HasRoot(root) && perm < 1024
      requires CanMap(root, va / PGSIZE, pa / PGSIZE, size / PGSIZE)
      modifies this
      ensures Valid()
      ensures var v, f := va / PGSIZE, pa / PGSIZE;
              Added(old(g), g, RangeMap(root, v, f, WithValid(perm), done))
      ensures va % PGSIZE != 0 || size % PGSIZE != 0 || size == 0 ==> r.MapPanic? && done == 0 && g == old(g)
      ensures va % PGSIZE == 0 && size % PGSIZE == 0 && size > 0 ==>
                var v, n := va / PGSIZE, size / PGSIZE;
                && done <= n && (r.Mapped? <==> done == n)
                && (r.MapPanic? <==> done < n && (v + done >= MAXVPN || Slot(root, v + done) in old(g).maps))
                && (r.NoMemory? ==> g.free == {})
    {
      if va % PGSIZE != 0 || size % PGSIZE != 0 || size == 0 {
        AddedNone(g);
        return MapPanic, 0;
      }
      r, done := MapLoop(va, va + size - PGSIZE, pa, perm, root, va / PGSIZE, size / PGSIZE, pa / PGSIZE);
    }

    /** uvmunmap, one page: the one at address a. */
    method UnmapOne(root: nat, a: nat, ghost v: nat, doFree: bool) returns (ghost cleared: bool)
      requires Valid() && HasRoot(root) && a == v * PGSIZE && v < MAXVPN && doFree == Tracked(g, Slot(root, v))
      modifies this
      ensures Valid() && cleared == (Slot(root, v) in old(g).maps) && (cleared ==> HasLeaf(old(g), Slot(root, v)))
      ensures g == if !cleared then old(g)
                   else if doFree then Push(UnmapPage(old(g), Slot(root, v)), old(g).maps[Slot(root, v)].frame)
                   else UnmapPage(old(g), Slot(root, v))
    {
      assert a / PGSIZE == v;
      var w := Walk(root, a, false);
      ghost var k := Slot(root, v);
      ReadPte(g, k);
      cleared := k in g.maps;
      if w.Found? {
        assert HasLeaf(g, k) && NodeOk(g.t, Pos(root, 0, v / 512)) && table[w.page][w.idx] == Pte(g.t, root, v);
        if Present(table[w.page][w.idx]) {
          UnmapPageOk(g, k);
          g := UnmapPage(g, k);
          if doFree {
            var _ := KfreePage(PageOf(table[w.page][w.idx]));
          }
          Store(w.page, w.idx, 0, g);
        }
      }
    }

    ghost predicate CanUnmap(root: nat, v: nat, n: nat, doFree: bool)
      reads this
    {
      if doFree then root in g.users && v + n <= TRAPFRAME else root !in g.users || v >= TRAPFRAME
    }

    /** uvmunmap, one page after others. */
    method UnmapNext(root: nat, a: nat, doFree: bool, ghost s0: Mem, ghost v: nat, ghost n: nat)
      requires Valid() && HasRoot(root) && a == (v + n) * PGSIZE && v + n < MAXVPN
      requires Cleared(s0, g, root, v, n) && CanUnmap(root, v, n + 1, doFree)
      modifies this
      ensures Valid() && HasRoot(root) && g.users == old(g).users && Cleared(s0, g, root, v, n + 1)
    {
      ghost var s := g;
      ghost var cleared := UnmapOne(root, a, v + n, doFree);
      if !cleared {
        ClearSkip(s0, s, root, v, n);
      } else if doFree {
        ClearTracked(s0, s, root, v, n);
        UnmapPageOk(s, Slot(root, v + n));
      } else {
        ClearUntracked(s0, s, root, v, n);
      }
    }

    /** uvmunmap, the loop; walk panics on reaching MAXVA. */
    method UnmapLoop(root: nat, va: nat, npages: nat, doFree: bool, ghost v: nat) returns (ok: bool, ghost done: nat)
      requires Valid() && HasRoot(root) && va == v * PGSIZE && CanUnmap(root, v, npages, doFree)
      modifies this
      ensures Valid() && Cleared(old(g), g, root, v, done)
      ensures ok <==> npages == 0 || v + npages <= MAXVPN
      ensures ok ==> done == npages
    {
      ClearNone(g, root, v);
      var a := va;
      done := 0;
      while a < va + npages * PGSIZE
        invariant a == (v + done) * PGSIZE && done <= npages && (done > 0 ==> v + done <= MAXVPN)
        invariant Valid() && HasRoot(root) && g.users == old(g).users && Cleared(old(g), g, root, v, done)
        decreases va + npages * PGSIZE - a
      {
        if a >= MAXVA { return false, done; }
        UnmapNext(root, a, doFree, old(g), v, done);
        done := done + 1;
        a := a + PGSIZE;
      }
      return true, done;
    }

    /** uvmunmap: false is a panic, after `done` pages. */
    method UvmUnmap(root: nat, va: nat, npages: nat, doFree: bool) returns (ok: bool, ghost done: nat)
      requires Valid() && HasRoot(root) && CanUnmap(root, va / PGSIZE, npages, doFree)
      modifies this
      ensures Valid() && Cleared(old(g), g, root, va / PGSIZE, done)
      ensures ok <==> va % PGSIZE == 0 && (npages == 0 || va / PGSIZE + npages <= MAXVPN)
      ensures ok ==> done == npages
    {
      if va % PGSIZE != 0 {
        ClearNone(g, root, va / PGSIZE);
        return false, 0;
      }
      ok, done := UnmapLoop(root, va, npages, doFree, va / PGSIZE);
    }

    /** kalloc, then memset or memmove. */
    method Grab(bytes: seq<nat>) returns (mem: nat)
      requires Valid() && |bytes| == 4096
      modifies this
      ensures Valid() && (mem == 0 <==> old(g).free == {}) && (mem == 0 ==> g == old(g))
      ensures mem > 0 ==> mem in old(g).free && g == Take(old(g), mem, bytes) && Held(g, mem)
    {
      mem := Kalloc();
      if mem != 0 {
        data := data[mem := bytes];
        RootedGrows(g, g.(data := data));
        g := g.(data := data);
      }
    }

    /** mappages of one frame held, which is freed if that fails. */
    method MapOrFree(root: nat, a: nat, mem: nat, perm: nat, ghost k: Slot) returns (ok: bool, ghost before: Mem)
      requires Valid() && HasRoot(root) && a == k.page * PGSIZE && perm < 1024 && root == k.root
      requires k !in g.maps && k.page < MAXVPN && Held(g, mem)
      modifies this
      ensures Valid()
      ensures ok ==> Added(old(g), g, map[k := Leaf(mem, WithValid(perm))])
      ensures !ok ==> Kept(old(g), before) && g == Push(before, mem)
    {
      ghost var s, done := g, 0;
      assert a / PGSIZE == k.page && mem * PGSIZE / PGSIZE == mem && a % PGSIZE == 0;
      var r;
      r, done := MapPages(root, a, PGSIZE, mem * PGSIZE, perm);
      RangeMapOne(root, k.page, mem, WithValid(perm));
      ok, before := r.Mapped?, g;
      if !ok {
        AddedNothing(s, g);
        HeldKept(s, g, mem);
        ok := KfreePage(mem);
        ok := false;
      }
    }

    /** The body of the loops of uvmalloc and uvmcopy: a new frame with the given bytes mapped at address a, or
        nothing. Since s0, the pages of `want` have been added. */
    method NewPage(root: nat, a: nat, bytes: seq<nat>, perm: nat, ghost s0: Mem, ghost want: map<nat, PageSpec>,
                   ghost w: nat, ghost want': map<nat, PageSpec>) returns (ok: bool)
      requires Valid() && HasRoot(root) && a == w * PGSIZE && perm < 1024 && |bytes| == 4096
      requires Populated(s0, g, root, want) && w !in want && Slot(root, w) !in s0.maps && Tracked(s0, Slot(root, w))
      requires forall x :: x in want ==> Tracked(s0, Slot(root, x))
      requires want' == want[w := PageSpec(WithValid(perm), bytes)]
      modifies this
      ensures Valid() && HasRoot(root)
      ensures (ok ==> Populated(s0, g, root, want')) && (!ok ==> Populated(s0, g, root, want))
    {
      ghost var s := g;
      var mem := Grab(bytes);
      if mem == 0 { return false; }
      ghost var s1, before := g, g;
      ok, before := MapOrFree(root, a, mem, perm, Slot(root, w));
      if ok {
        PopulateOne(s0, s, g, root, want, w, mem, PageSpec(WithValid(perm), bytes));
      } else {
        TakePush(s, mem, bytes, before);
        PopulatedThenKept(s0, s, g, root, want);
      }
    }

    ghost predicate Unmapped(root: nat, v: nat, n: nat)
      reads this
    {
      forall k :: k in g.maps ==> !InRange(k, root, v, n)
    }

    /** err: of uvmalloc and uvmcopy: the pages added since s0, from address start up to a, are unmapped. */
    method Undo(root: nat, start: nat, a: nat, ghost s0: Mem, ghost want: map<nat, PageSpec>, ghost v: nat,
                ghost i: nat)
      requires Valid() && HasRoot(root) && start == v * PGSIZE && a == (v + i) * PGSIZE
      requires Populated(s0, g, root, want) && root in s0.users && v + i <= TRAPFRAME
      requires forall w :: w in want ==> v <= w < v + i
      requires forall k :: k in s0.maps ==> !InRange(k, root, v, i)
      modifies this
      ensures Valid() && Kept(s0, g)
    {
      ghost var s := g;
      assert start / PGSIZE == v && start % PGSIZE == 0 && (a - start) / PGSIZE == i;
      var fine, _ := UvmUnmap(root, start, (a - start) / PGSIZE, true);
      assert fine;
      PopulateUndone(s0, s, g, root, want, v, i);
    }

    /** The loop bodies of uvmalloc and uvmcopy: page v + i, after i pages, is added or all are taken back. */
    method AddOrUndo(root: nat, start: nat, a: nat, bytes: seq<nat>, perm: nat, ghost s0: Mem,
                     ghost want: map<nat, PageSpec>, ghost v: nat, ghost i: nat, ghost want': map<nat, PageSpec>)
      returns (ok: bool)
      requires Valid() && HasRoot(root) && start == v * PGSIZE && a == (v + i) * PGSIZE && perm < 1024
      requires |bytes| == 4096
      requires Populated(s0, g, root, want) && root in s0.users && v + i < TRAPFRAME
      requires forall w :: w in want ==> v <= w < v + i
      requires want' == want[v + i := PageSpec(WithValid(perm), bytes)]
      requires forall k :: k in s0.maps ==> !InRange(k, root, v, i + 1)
      modifies this
      ensures Valid() && (ok ==> HasRoot(root) && Populated(s0, g, root, want')) && (!ok ==> Kept(s0, g))
    {
      assert InRange(Slot(root, v + i), root, v, i + 1);
      ok := NewPage(root, a, bytes, perm, s0, want, v + i, want');
      if !ok {
        RangeMono(root, v, i, i + 1);
        Undo(root, start, a, s0, want, v, i);
      }
    }

    /** uvmalloc, the loop: n pages from address start on, up to newsz. */
    method GrowLoop(root: nat, start: nat, newsz: nat, perm: nat, ghost v: nat, ghost n: nat, ghost flags: nat)
      returns (ok: bool, ghost want: map<nat, PageSpec>)
      requires Valid() && HasRoot(root) && root in g.users && perm < 1024 && start == v * PGSIZE
      requires flags == WithValid(perm)
      requires if n == 0 then newsz <= start else (v + n - 1) * PGSIZE < newsz <= (v + n) * PGSIZE && v + n <= TRAPFRAME
      requires Unmapped(root, v, n)
      modifies this
      ensures Valid() && (ok ==> IsZero(v, n, flags, want) && Populated(old(g), g, root, want))
      ensures !ok ==> n > 0 && Kept(old(g), g)
    {
      var a := start;
      ghost var s0, i := g, 0;
      want := map[];
      PopulateNone(g, root);
      while a < newsz
        invariant a == (v + i) * PGSIZE && i <= n
        invariant Valid() && HasRoot(root) && IsZero(v, i, flags, want) && Populated(s0, g, root, want)
        decreases n - i
      {
        RangeMono(root, v, i + 1, n);
        IsZeroStep(v, i, flags, want);
        ghost var want' := want[v + i := PageSpec(flags, Filled(0))];
        ok := AddOrUndo(root, start, a, Filled(0), perm, s0, want, v, i, want');
        if !ok { return; }
        a, i, want := a + PGSIZE, i + 1, want';
      }
      return true, want;
    }

    /** uvmalloc: grow from oldsz to newsz bytes with zeroed pages, or change nothing. */
    method UvmAlloc(root: nat, oldsz: nat, newsz: nat, xperm: nat)
      returns (r: nat, ghost ok: bool, ghost want: map<nat, PageSpec>)
      requires Valid() && HasRoot(root) && root in g.users && newsz <= TRAPFRAME * PGSIZE
      requires xperm in {0, PTE_W, PTE_X, PTE_W + PTE_X}
      requires Unmapped(root, PageRoundUp(oldsz), Pages(oldsz, newsz))
      modifies this
      ensures Valid() && (newsz < oldsz ==> ok && r == oldsz && g == old(g))
      ensures newsz >= oldsz && ok ==>
                && r == newsz && Populated(old(g), g, root, want)
                && IsZero(PageRoundUp(oldsz), Pages(oldsz, newsz), WithValid(PTE_R + PTE_U + xperm), want)
      ensures !ok ==> r == 0 && newsz > 0 && Kept(old(g), g)
    {
      want := map[];
      if newsz < oldsz { return oldsz, true, want; }
      var done;
      done, want := GrowLoop(root, PageRoundUp(oldsz) * PGSIZE, newsz, PTE_R + PTE_U + xperm,
                             PageRoundUp(oldsz), Pages(oldsz, newsz), WithValid(PTE_R + PTE_U + xperm));
      if !done { return 0, false, want; }
      return newsz, true, want;
    }

    /** uvmdealloc: shrink from oldsz to newsz bytes. */
    method UvmDealloc(root: nat, oldsz: nat, newsz: nat) returns (r: nat)
      requires Valid() && HasRoot(root) && root in g.users && oldsz <= TRAPFRAME * PGSIZE
      modifies this
      ensures Valid() && HasRoot(root)
      ensures newsz >= oldsz ==> r == oldsz && g == old(g)
      ensures newsz < oldsz ==>
                r == newsz && Cleared(old(g), g, root, PageRoundUp(newsz), PageRoundUp(oldsz) - PageRoundUp(newsz))
    {
      if newsz >= oldsz { return oldsz; }
      if PageRoundUp(newsz) < PageRoundUp(oldsz) {
        assert PageRoundUp(newsz) * PGSIZE / PGSIZE == PageRoundUp(newsz);
        var _, _ := UvmUnmap(root, PageRoundUp(newsz) * PGSIZE, PageRoundUp(oldsz) - PageRoundUp(newsz), true);
      } else {
        ClearNone(g, root, PageRoundUp(newsz));
      }
      return newsz;
    }

    /** walk without alloc, then *pte: 0 where there is no entry. */
    method Lookup(root: nat, a: nat, ghost k: Slot) returns (e: nat)
      requires Valid() && HasRoot(root) && a / PGSIZE == k.page && root == k.root && a < MAXVA
      modifies this
      ensures Valid() && g == old(g) && data == old(data)
      ensures Present(e) <==> k in g.maps
      ensures k in g.maps ==> PageOf(e) == g.maps[k].frame && Flags(e) == g.maps[k].flags
      ensures k in g.maps ==> (Writable(e) <==> Writable(g.maps[k].flags)) && (User(e) <==> User(g.maps[k].flags))
    {
      var w := Walk(root, a, false);
      ReadPte(g, k);
      e := 0;
      if w.Found? {
        assert HasLeaf(g, k) && NodeOk(g.t, Pos(root, 0, k.page / 512));
        assert table[w.page][w.idx] == Pte(g.t, root, k.page);
        e := table[w.page][w.idx];
      }
    }

    /** uvmcopy, one page that is mapped. */
    method CopyPage(to: nat, a: nat, bytes: seq<nat>, perm: nat, ghost s0: Mem, ghost i: nat, ghost want: map<nat,
                    PageSpec>,
                    ghost want': map<nat, PageSpec>) returns (ok: bool)
      requires Valid() && HasRoot(to) && a == i * PGSIZE && i < TRAPFRAME && perm < 1024 && |bytes| == 4096
      requires to in s0.users && Populated(s0, g, to, want) && forall w :: w in want ==> w < i
      requires want' == want[i := PageSpec(WithValid(perm), bytes)]
      requires forall k :: k in s0.maps ==> !InRange(k, to, 0, i + 1)
      modifies this
      ensures Valid() && (!ok ==> Kept(s0, g)) && (ok ==> Populated(s0, g, to, want'))
    {
      ok := AddOrUndo(to, 0, a, bytes, perm, s0, want, 0, i, want');
    }

    /** uvmcopy, one page: page i of the address space from is copied if it is mapped. */
    method CopyStep(from: nat, to: nat, a: nat, ghost s0: Mem, ghost i: nat, ghost want: map<nat, PageSpec>,
                    ghost want': map<nat, PageSpec>) returns (ok: bool)
      requires Valid() && RootIn(s0, from) && RootIn(s0, to) && a == i * PGSIZE && i < TRAPFRAME
      requires from in s0.users && to in s0.users && Populated(s0, g, to, want)
      requires forall w :: w in want ==> w < i
      requires want' == if Slot(from, i) in s0.maps then want[i := CopyOf(s0, from, i)] else want
      requires from != to && forall k :: k in s0.maps ==> !InRange(k, to, 0, i + 1)
      modifies this
      ensures Valid() && (!ok ==> Kept(s0, g)) && (ok ==> Populated(s0, g, to, want'))
    {
      ghost var k := Slot(from, i);
      PopulatedRoots(s0, g, to, want, from);
      PopulatedRoots(s0, g, to, want, to);
      var e := Lookup(from, a, k);
      assert k in g.maps <==> k in s0.maps;
      ok := true;
      if Present(e) {
        CopySource(s0, g, from, i, to, want);
        ok := CopyPage(to, a, data[PageOf(e)], Flags(e), s0, i, want, want');
      }
    }

    /** uvmcopy, the loop: n pages, the last of which holds byte sz - 1. */
    method CopyLoop(from: nat, to: nat, sz: nat, ghost n: nat) returns (r: int, ghost want: map<nat, PageSpec>)
      requires Valid() && HasRoot(from) && HasRoot(to) && from != to && from in g.users && to in g.users
      requires n <= TRAPFRAME && Unmapped(to, 0, n) && if n == 0 then sz == 0 else (n - 1) * PGSIZE < sz <= n * PGSIZE
      modifies this
      ensures Valid() && (r == 0 || r == -1) && (r == -1 ==> Kept(old(g), g))
      ensures r == 0 ==> IsCopy(old(g), from, n, want) && Populated(old(g), g, to, want)
    {
      var a := 0;
      ghost var s0, i := g, 0;
      want := map[];
      PopulateNone(g, to);
      while a < sz
        invariant a == i * PGSIZE && i <= n
        invariant Valid() && IsCopy(s0, from, i, want) && Populated(s0, g, to, want)
        decreases n - i
      {
        RangeMono(to, 0, i + 1, n);
        IsCopyStep(s0, from, i, want);
        ghost var want' := if Slot(from, i) in s0.maps then want[i := CopyOf(s0, from, i)] else want;
        var ok := CopyStep(from, to, a, s0, i, want, want');
        if !ok { return -1, want; }
        a, i, want := a + PGSIZE, i + 1, want';
      }
      return 0, want;
    }

    /** uvmcopy: the first sz bytes of an address space copied into another that has nothing there, or nothing
        done. */
    method UvmCopy(from: nat, to: nat, sz: nat) returns (r: int, ghost want: map<nat, PageSpec>)
      requires Valid() && HasRoot(from) && HasRoot(to) && from != to && from in g.users && to in g.users
      requires sz <= TRAPFRAME * PGSIZE && Unmapped(to, 0, PageRoundUp(sz))
      modifies this
      ensures Valid() && (r == 0 || r == -1)
      ensures r == 0 ==> IsCopy(old(g), from, PageRoundUp(sz), want) && Populated(old(g), g, to, want)
      ensures r == -1 ==> Kept(old(g), g)
    {
      r, want := CopyLoop(from, to, sz, PageRoundUp(sz));
    }

    /** freewalk of entry i of table q: the tables below it, if any, are freed. */
    method FreeEntry(page: nat, i: nat, ghost q: Pos) returns (ok: bool)
      requires Valid() && q in g.t.at && page == g.t.at[q] && i < 512 && Bare(g, q)
      modifies this
      ensures Valid() && ok && PartFreed(old(g), g, q, i, i + 1)
      decreases q.level, 0
    {
      assert NodeOk(g.t, q);
      NoLeaf(g, q, i);
      if q.level >= 1 { FollowEntry(g.t, q, i); }
      var pte := table[page][i];
      if Present(pte) && !IsLeaf(pte) {
        ghost var c := Child(q, i);
        BareChild(g, q, i);
        ParentOfChild(q, i);
        ok := FreeWalk(PageOf(pte), c);
        ChildFreed(old(g), g, q, i);
        FixStale(table, g.t, q, i, PteOf(PageOf(pte), 1));
        table := table[page := Row(table[page], i, 0)];
      } else {
        ok := !Present(pte);
        NothingBelow(g, q, i);
      }
    }

    /** freewalk, the loop. */
    method FreeEntries(page: nat, ghost q: Pos) returns (ok: bool)
      requires Valid() && q in g.t.at && page == g.t.at[q] && Bare(g, q)
      modifies this
      ensures Valid() && ok && PartFreed(old(g), g, q, 0, 512)
      decreases q.level, 1
    {
      var i := 0;
      ok := true;
      PartNone(g, q);
      while i < 512
        invariant 0 <= i <= 512 && Valid() && PartFreed(old(g), g, q, 0, i) && ok
      {
        ghost var s := g;
        assert !Via(q, 0, i, q);
        ok := FreeEntry(page, i, q);
        PartJoin(old(g), s, g, q, i);
        i := i + 1;
      }
    }

    /** freewalk, the kfree at the end. */
    method FreeTable(page: nat, ghost q: Pos) returns (ok: bool)
      requires Lists() && q in g.t.at && page == g.t.at[q] && ViewOk(WithoutTable(g, q))
      requires Loose(WithoutTable(g, q), page)
      modifies this`kmem, this`data, this`g
      ensures ok && Lists() && g == Push(WithoutTable(old(g), q), page)
    {
      g := WithoutTable(g, q);
      ok := KfreePage(page);
    }

    /** freewalk: table q and all below it go on the free list; false is the panic "freewalk: leaf". The entry
        that leads to q still points to it. */
    method FreeWalk(page: nat, ghost q: Pos) returns (ok: bool)
      requires Valid() && q in g.t.at && page == g.t.at[q] && Bare(g, q) && (q.level == 2 ==> q.root !in g.users)
      modifies this
      ensures ok && Lists() && TreeFreed(old(g), g, q) && Lags(table, g.t, q, page)
      decreases q.level, 2
    {
      ok := FreeEntries(page, q);
      if ok {
        AllFreed(old(g), g, q);
        LeavesStale(g.t, q);
        ok := FreeTable(page, q);
      }
    }

    /** uvmcreate: an empty user page table, or 0. */
    method UvmCreate() returns (root: nat)
      requires Valid()
      modifies this
      ensures Valid() && (root == 0 <==> old(g).free == {}) && (root == 0 ==> g == old(g))
      ensures root > 0 ==> root in old(g).free && g == WithRoot(old(g), root)
    {
      ghost var s := g;
      root := Kalloc();
      if root == 0 { return; }
      table := table[root := Zeros()];
      assert ViewOk(WithRoot(s, root)) by { WithRootOk(s, root); }
      g := WithRoot(s, root);
    }

    /** uvmfree: false is a panic. Pages mapped at or above sz would reach "freewalk: leaf". */
    method UvmFree(root: nat, sz: nat) returns (ok: bool)
      requires Valid() && HasRoot(root) && root in g.users && PageRoundUp(sz) <= TRAPFRAME
      requires forall k :: k in g.maps && k.root == root ==> k.page < PageRoundUp(sz)
      modifies this
      ensures Valid() && ok && Released(old(g), g, root)
    {
      ClearNone(g, root, 0);
      if sz > 0 {
        ghost var done := 0;
        ok, done := UvmUnmap(root, 0, PageRoundUp(sz), true);
        assert ok;
      }
      ok := FreeTree(root, old(g), PageRoundUp(sz));
    }

    /** uvmfree, the freewalk, after the pages below n have been unmapped. */
    method FreeTree(root: nat, ghost s0: Mem, ghost n: nat) returns (ok: bool)
      requires Valid() && HasRoot(root) && Cleared(s0, g, root, 0, n)
      requires forall k :: k in s0.maps && k.root == root ==> k.page < n
      modifies this
      ensures Valid() && ok && Released(s0, g, root)
    {
      ghost var s1 := g;
      DropUserOk(g, root);
      ghost var s2 := g.(users := g.users - {root});
      g := s2;
      NoneBelow(g, root);
      assert UpOk(g.t, Pos(root, 2, 0));
      ok := FreeWalk(root, Pos(root, 2, 0));
      TreeReleased(s2, g, root);
      ClearThenRelease(s0, s1, g, root, 0, n);
    }

    /** mappages of one page. */
    method MapSingle(root: nat, v: nat, pa: nat, perm: nat, ghost l: Leaf) returns (ok: bool)
      requires Valid() && HasRoot(root) && v < MAXVPN && perm < 1024 && Slot(root, v) !in g.maps
      requires l == Leaf(pa / PGSIZE, WithValid(perm)) && !Tracked(g, Slot(root, v))
      modifies this
      ensures Valid() && (ok ==> Added(old(g), g, map[Slot(root, v) := l])) && (!ok ==> Kept(old(g), g))
    {
      PageAddress(v);
      var r, _ := MapPages(root, v * PGSIZE, PGSIZE, pa, perm);
      RangeMapOne(root, v, pa / PGSIZE, WithValid(perm));
      ok := r.Mapped?;
      if !ok { AddedNothing(old(g), g); }
    }

    /** mappages of one page at or above the trapframe, in a new page table. */
    method MapHigh(root: nat, v: nat, pa: nat, perm: nat, ghost s0: Mem, ghost add: map<Slot, Leaf>,
                   ghost all: map<Slot, Leaf>)
      returns (ok: bool)
      requires Valid() && Created(s0, g, root, add) && TRAPFRAME <= v < MAXVPN && perm < 1024 && Slot(root, v) !in add
      requires all == add + map[Slot(root, v) := Leaf(pa / PGSIZE, WithValid(perm))]
      modifies this
      ensures Valid() && Created(s0, g, root, if ok then all else add)
    {
      ghost var s, l := g, Leaf(pa / PGSIZE, WithValid(perm));
      CreatedClear(s0, s, root, add, v);
      ok := MapSingle(root, v, pa, perm, l);
      if ok { CreatedOne(s0, s, g, root, add, v, l, all); } else { CreatedKept(s0, s, g, root, add); }
    }

    /** proc_freepagetable: every table and frame of the address space goes on the free list, once. */
    method ProcFreePagetable(root: nat, sz: nat) returns (ok: bool)
      requires Valid() && HasRoot(root) && root in g.users && PageRoundUp(sz) <= TRAPFRAME
      requires forall k :: k in g.maps && k.root == root ==>
                 k.page < PageRoundUp(sz) || k.page == TRAMPOLINE || k.page == TRAPFRAME
      modifies this
      ensures Valid() && ok && Released(old(g), g, root)
    {
      ghost var s0, done := g, 0;
      ok, done := UvmUnmap(root, TRAMPOLINE * PGSIZE, 1, false);
      ghost var s1 := g;
      assert ok && Cleared(s0, s1, root, TRAMPOLINE, 1);
      ok, done := UvmUnmap(root, TRAPFRAME * PGSIZE, 1, false);
      ghost var s2 := g;
      assert ok && Cleared(s1, s2, root, TRAPFRAME, 1);
      assert forall k :: k in s2.maps ==>
               k in s1.maps && k in s0.maps && !InRange(k, root, TRAMPOLINE, 1) && !InRange(k, root, TRAPFRAME, 1);
      ok := UvmFree(root, sz);
      ReleaseMore(s1, s2, g, root, TRAPFRAME, 1);
      ReleaseMore(s0, s1, g, root, TRAMPOLINE, 1);
    }

    /** proc_pagetable, when the trapframe cannot be mapped. */
    method Unwind(root: nat, ghost s0: Mem, ghost add: map<Slot, Leaf>)
      requires Valid() && Created(s0, g, root, add) && (forall k :: k in add ==> k == Slot(root, TRAMPOLINE))
      modifies this
      ensures Valid() && Kept(s0, g)
    {
      ghost var s := g;
      var ok, _ := UvmUnmap(root, TRAMPOLINE * PGSIZE, 1, false);
      ghost var s1 := g;
      assert Cleared(s, s1, root, TRAMPOLINE, 1);
      assert forall k :: k in s1.maps ==> k in s.maps && !InRange(k, root, TRAMPOLINE, 1);
      ok := UvmFree(root, 0);
      ReleaseMore(s, s1, g, root, TRAMPOLINE, 1);
      CreateUndone(s0, s, g, root, add);
    }

    /** proc_pagetable: a page table that maps the trampoline and the trapframe and nothing else; or 0, with
        every page that was taken given back. */
    method ProcPagetable(trampoline: nat, trapframe: nat) returns (root: nat)
      requires Valid()
      modifies this
      ensures Valid() && (root == 0 ==> Kept(old(g), g))
      ensures root > 0 ==> Created(old(g), g, root, HighPages(root, trampoline / PGSIZE, trapframe / PGSIZE))
    {
      root := UvmCreate();
      if root == 0 { return; }
      ghost var s0 := old(g);
      RootCreated(s0, root);
      ghost var one := map[Slot(root, TRAMPOLINE) := Leaf(trampoline / PGSIZE, WithValid(PTE_R + PTE_X))];
      assert map[] + one == one;
      var ok := MapHigh(root, TRAMPOLINE, trampoline, PTE_R + PTE_X, s0, map[], one);
      if !ok {
        ghost var s := g;
        ok := UvmFree(root, 0);
        CreateUndone(s0, s, g, root, map[]);
        return 0;
      }
      ok := MapHigh(root, TRAPFRAME, trapframe, PTE_R + PTE_W, s0, one,
                    HighPages(root, trampoline / PGSIZE, trapframe / PGSIZE));
      if !ok {
        Unwind(root, s0, one);
        return 0;
      }
    }

    /** uvmclear: false is the panic of walk, or of uvmclear itself. */
    method UvmClear(root: nat, va: nat) returns (ok: bool)
      requires Valid() && HasRoot(root)
      modifies this
      ensures Valid() && (ok <==> va < MAXVA && HasLeaf(old(g), SlotAt(root, va)))
      ensures g == if ok then NoUser(old(g), SlotAt(root, va)) else old(g)
    {
      var w := Walk(root, va, false);
      if !w.Found? { return false; }
      ghost var k := SlotAt(root, va);
      assert HasLeaf(g, k) && NodeOk(g.t, Pos(root, 0, k.page / 512)) && table[w.page][w.idx] == Pte(g.t, root, k.page);
      assert ViewOk(NoUser(g, k)) by { NoUserOk(g, k); }
      Store(w.page, w.idx, ClearUser(table[w.page][w.idx]), NoUser(g, k));
      return true;
    }

    /** walkaddr: the address of the frame of a user page, or 0. */
    method WalkAddr(root: nat, va: nat) returns (pa: nat)
      requires Valid() && HasRoot(root) && UserSpace(g, root)
      modifies this
      ensures Valid() && g == old(g) && data == old(data)
      ensures pa > 0 <==> Readable(g, root, va)
      ensures pa > 0 ==> pa == g.maps[SlotAt(root, va)].frame * PGSIZE
    {
      if va >= MAXVA { return 0; }
      var e := Lookup(root, va, SlotAt(root, va));
      if !Present(e) || !User(e) { return 0; }
      InUse(g, root, va);
      return PTE2PA(e);
    }

    /** copyin: dst receives the bytes up to the first one that cannot be read. */
    method CopyIn(root: nat, srcva: nat, len: nat) returns (ok: bool, dst: seq<nat>)
      requires Valid() && HasRoot(root) && UserSpace(g, root)
      modifies this
      ensures Valid() && g == old(g) && Reads(g, root, srcva, dst)
      ensures ok ==> |dst| == len
      ensures !ok ==> |dst| < len && !Readable(g, root, srcva + |dst|)
    {
      var va: nat, left: nat := srcva, len;
      dst := [];
      while left > 0
        invariant Valid() && g == old(g) && Reads(g, root, srcva, dst)
        invariant |dst| + left == len && (left > 0 ==> va == srcva + |dst|)
      {
        var va0 := va / PGSIZE * PGSIZE;
        assert va0 / PGSIZE == va / PGSIZE && va - va0 == va % PGSIZE;
        var pa0 := WalkAddr(root, va0);
        if pa0 == 0 { return false, dst; }
        var n := PGSIZE - (va - va0);
        if n > left { n := left; }
        ReadsPage(g, root, va, n);
        var bytes := data[pa0 / PGSIZE][va - va0..va - va0 + n];
        ReadsJoin(g, root, srcva, dst, bytes);
        dst := dst + bytes;
        left := left - n;
        va := va0 + PGSIZE;
      }
      return true, dst;
    }

    /** copyout, the part on one page: n bytes at va, whose frame is at pa0. */
    method WritePart(root: nat, va: nat, pa0: nat, bytes: seq<nat>)
      requires Valid() && HasRoot(root) && UserSpace(g, root) && CanWrite(g, root, va)
      requires va % PGSIZE + |bytes| <= PGSIZE && pa0 == g.maps[SlotAt(root, va)].frame * PGSIZE
      modifies this`data, this`g
      ensures Valid() && HasRoot(root) && Wrote(old(g), g, root, va, bytes)
    {
      WrotePage(g, root, va, bytes);
      var f := pa0 / PGSIZE;
      data := data[f := Patched(data[f], va % PGSIZE, bytes)];
      g := g.(data := data);
    }

    /** copyout, one page: n bytes of src from index `from` on go to va, as many as the page takes. */
    method OutStep(root: nat, va: nat, src: seq<nat>, from: nat) returns (ok: bool, n: nat, next: nat)
      requires Valid() && HasRoot(root) && UserSpace(g, root) && from < |src|
      modifies this
      ensures Valid() && HasRoot(root) && n <= |src| - from && (ok <==> CanWrite(old(g), root, va))
      ensures ok ==> 0 < n && va % PGSIZE + n <= PGSIZE && (from + n < |src| ==> next == va + n)
      ensures ok ==> Wrote(old(g), g, root, va, src[from..from + n])
      ensures !ok ==> n == 0 && g == old(g)
    {
      n, next := 0, va;
      var va0 := va / PGSIZE * PGSIZE;
      assert va0 / PGSIZE == va / PGSIZE && va - va0 == va % PGSIZE;
      var pa0 := WalkAddr(root, va0);
      if pa0 == 0 { return false, 0, va; }
      assert va0 < MAXVA by { InUse(g, root, va0); }
      var e := Lookup(root, va0, SlotAt(root, va));
      if !Writable(e) { return false, 0, va; }
      n := PGSIZE - (va - va0);
      if n > |src| - from { n := |src| - from; }
      WritePart(root, va, pa0, src[from..from + n]);
      return true, n, va0 + PGSIZE;
    }

    /** copyout, one page after `from` bytes have been written. */
    method OutNext(root: nat, dstva: nat, src: seq<nat>, from: nat, va: nat, ghost s0: Mem)
      returns (ok: bool, n: nat, next: nat)
      requires Valid() && HasRoot(root) && UserSpace(s0, root) && from < |src| && va == dstva + from
      requires Sent(s0, g, root, dstva, src, from)
      modifies this
      ensures Valid() && HasRoot(root) && from + n <= |src| && Sent(s0, g, root, dstva, src, from + n)
      ensures (!ok ==> n == 0 && !CanWrite(s0, root, va)) && (ok ==> n > 0)
      ensures ok && from + n < |src| ==> next == va + n
    {
      SpaceSame(s0, g, root, va);
      ghost var s := g;
      ok, n, next := OutStep(root, va, src, from);
      if ok { OutJoin(s0, s, g, root, dstva, src, from, n); }
    }

    /** copyout: the bytes of src go to user memory up to the first page that cannot be written. */
    method CopyOut(root: nat, dstva: nat, src: seq<nat>) returns (ok: bool, ghost done: nat)
      requires Valid() && HasRoot(root) && UserSpace(g, root)
      modifies this
      ensures Valid() && Sent(old(g), g, root, dstva, src, done)
      ensures ok ==> done == |src|
      ensures !ok ==> done < |src| && !CanWrite(old(g), root, dstva + done)
    {
      var va: nat, from: nat := dstva, 0;
      WroteNone(g, root, dstva);
      while from < |src|
        invariant Valid() && HasRoot(root) && from <= |src| && (from < |src| ==> va == dstva + from)
        invariant Sent(old(g), g, root, dstva, src, from)
      {
        assert va == dstva + from;
        var n, next;
        ok, n, next := OutNext(root, dstva, src, from, va, old(g));
        if !ok { return false, from; }
        from, va := from + n, next;
      }
      return true, from;
    }

    /** copyinstr: succeeds exactly when a string with its NUL can be read within max bytes; dst receives the
        bytes up to and including the NUL, or those that could be read, never more than max. */
    method CopyInStr(root: nat, srcva: nat, max: nat) returns (ok: bool, dst: seq<nat>)
      requires Valid() && HasRoot(root) && UserSpace(g, root)
      modifies this
      ensures Valid() && g == old(g) && Reads(g, root, srcva, dst) && |dst| <= max
      ensures ok <==> HasString(g, root, srcva, max)
      ensures if ok then IsString(dst) else NoNul(dst)
    {
      var va: nat, left: nat := srcva, max;
      dst := [];
      var gotNul := false;
      while !gotNul && left > 0
        invariant Valid() && g == old(g) && Reads(g, root, srcva, dst)
        invariant if gotNul then IsString(dst) && |dst| + left == max + 1 && left > 0
                  else NoNul(dst) && |dst| + left == max
        invariant !gotNul && left > 0 ==> va == srcva + |dst|
        decreases !gotNul, left
      {
        var va0 := va / PGSIZE * PGSIZE;
        assert va0 / PGSIZE == va / PGSIZE && va - va0 == va % PGSIZE;
        var pa0 := WalkAddr(root, va0);
        if pa0 == 0 {
          NoString(g, root, srcva, max, dst);
          return false, dst;
        }
        var n := PGSIZE - (va - va0);
        if n > left { n := left; }
        ReadsPage(g, root, va, n);
        var bytes;
        bytes, gotNul := CopyToNul(data[pa0 / PGSIZE], va - va0, n);
        ReadsPage(g, root, va, |bytes|);
        ReadsJoin(g, root, srcva, dst, bytes);
        StringJoin(dst, bytes);
        dst := dst + bytes;
        left := if gotNul then left - (|bytes| - 1) else left - |bytes|;
        if !gotNul { va := va0 + PGSIZE; }
      }
      if !gotNul { NoString(g, root, srcva, max, dst); }
      return gotNul, dst;
    }
  }
}
