/** Taking page tables apart: what freewalk does to the tree. */
module VmFree {
  import opened Sv39
  import opened PageTable
  import opened VmState
  import opened VmRanges

  /** p is q or lies below it in the tree. */
  predicate Below(q: Pos, p: Pos)
    decreases q.level - p.level
  {
    p == q || (p.level < q.level && Below(q, Parent(p)))
  }

  /** The entry of q that the way down to p starts at. */
  function Branch(q: Pos, p: Pos): nat
    requires Below(q, p) && p != q
    decreases q.level - p.level
  {
    if Parent(p) == q then p.idx % 512 else Branch(q, Parent(p))
  }

  /** What lies below child i of q is what lies below q by way of entry i. */
  lemma {:induction false} BranchIs(q: Pos, i: nat, p: Pos)
    requires q.level >= 1 && i < 512
    ensures Below(Child(q, i), p) <==> Below(q, p) && p != q && Branch(q, p) == i
    decreases q.level - p.level
  {
    ParentOfChild(q, i);
    if p.level < q.level {
      if Parent(p) == q {
        assert p == Child(q, p.idx % 512);
      } else {
        BranchIs(q, i, Parent(p));
      }
    }
  }

  lemma {:induction false} BranchBound(q: Pos, p: Pos)
    requires Below(q, p) && p != q
    ensures Branch(q, p) < 512 && q.level >= 1
    decreases q.level - p.level
  {
    if Parent(p) != q { BranchBound(q, Parent(p)); }
  }

  /** A table below q, other than q, is below a child of q that has a table. */
  lemma {:induction false} ChildOnWay(t: Trees, q: Pos, p: Pos)
    requires Below(q, p) && p != q && p in t.at && q.level <= 2
    ensures q.level >= 1 && Branch(q, p) < 512 && Child(q, Branch(q, p)) in t.at
    decreases q.level - p.level
  {
    BranchBound(q, p);
    assert UpOk(t, p) && NodeOk(t, p);
    if Parent(p) == q {
      assert p == Child(q, p.idx % 512);
    } else {
      ChildOnWay(t, q, Parent(p));
    }
  }

  /** Table q taken out of its tree. */
  function RemoveTable(t: Tables, q: Pos): Tables
    requires q in t.at && NodeOk(t, q)
    requires Parent(q) in t.at ==> NodeOk(t, Parent(q))
  {
    var up := Parent(q);
    var tb := if up in t.at then t.table[t.at[up] := Row(t.table[t.at[up]], q.idx % 512, 0)] else t.table;
    Tables(tb, t.at - {q})
  }

  ghost predicate Childless(t: Tables, q: Pos) {
    q.level >= 1 ==> forall i: nat :: i < 512 ==> Child(q, i) !in t.at
  }

  lemma ChildOfParent(p: Pos)
    ensures Child(Parent(p), p.idx % 512) == p
  {
  }

  lemma NoParent(t: Trees, q: Pos, p: Pos)
    requires q in t.at && Childless(t, q) && p in t.at
    ensures Parent(p) == q ==> p.level == 2
  {
    ChildOfParent(p);
  }

  lemma RemoveNodes(t: Trees, q: Pos)
    requires q in t.at && Childless(t, q)
    ensures Nodes(RemoveTable(t, q))
  {
    var t' := RemoveTable(t, q);
    forall p | p in t'.at ensures NodeOk(t', p) { assert NodeOk(t, p); }
    forall p | p in t'.at ensures UpOk(t', p) {
      assert UpOk(t, p);
      NoParent(t, q, p);
    }
  }

  lemma RemoveEntry(t: Trees, q: Pos, p: Pos, j: nat)
    requires q in t.at && p in t.at && p != q && j < 512 && NodeOk(RemoveTable(t, q), p)
    ensures Entry(RemoveTable(t, q), p, j) == if p == Parent(q) && j == q.idx % 512 then 0 else Entry(t, p, j)
  {
    if Parent(q) in t.at && p != Parent(q) { assert t.at[p] != t.at[Parent(q)]; }
  }

  lemma RemoveEdges(t: Trees, q: Pos)
    requires q in t.at && Nodes(RemoveTable(t, q))
    ensures Edges(RemoveTable(t, q))
  {
    var t' := RemoveTable(t, q);
    forall p, j | p in t'.at && p.level >= 1 && 0 <= j < 512 ensures EdgeOk(t', p, j) {
      assert EdgeOk(t, p, j);
      RemoveEntry(t, q, p, j);
      ParentOfChild(p, j);
      ChildOfParent(q);
    }
  }

  /** Only the entries in table q are gone. */
  lemma RemovePtes(t: Trees, q: Pos)
    requires q in t.at && Nodes(RemoveTable(t, q))
    ensures forall r: nat, v: nat ::
              Pte(RemoveTable(t, q), r, v) == if Pos(r, 0, v / 512) == q then 0 else Pte(t, r, v)
  {
    var t' := RemoveTable(t, q);
    forall r: nat, v: nat ensures Pte(t', r, v) == if Pos(r, 0, v / 512) == q then 0 else Pte(t, r, v) {
      var p := Pos(r, 0, v / 512);
      if p in t'.at { RemoveEntry(t, q, p, v % 512); }
    }
  }

  // ---- in memory

  /** No page is mapped by way of table q. */
  ghost predicate Bare(s: View, q: Pos) {
    forall k :: k in s.maps ==> !Below(q, Pos(k.root, 0, k.page / 512))
  }

  ghost function WithoutTable(s: Mem, q: Pos): View
    requires q in s.t.at
  {
    s.(t := RemoveTable(s.t, q))
  }

  lemma WithoutTableOk(s: Mem, q: Pos)
    requires q in s.t.at && Childless(s.t, q) && Bare(s, q) && (q.level == 2 ==> q.root !in s.users)
    ensures ViewOk(WithoutTable(s, q)) && Loose(WithoutTable(s, q), s.t.at[q])
  {
    var s' := WithoutTable(s, q);
    RemoveNodes(s.t, q);
    RemoveEdges(s.t, q);
    RemovePtes(s.t, q);
    forall k ensures SlotOk(s'.t, s'.maps, k) {
      assert SlotOk(s.t, s.maps, k);
      assert Pos(k.root, 0, k.page / 512) == q ==> Below(q, Pos(k.root, 0, k.page / 512));
    }
    forall r ensures UserOk(s', r) {
      assert UserOk(s, r);
      assert q.level == 2 ==> NodeOk(s.t, q) && UpOk(s.t, q);
    }
  }

  /** Tables have gone to the free list; no mapping, frame or byte in use has changed. */
  ghost predicate OnlyTables(s: View, s': View) {
    && s'.end == s.end && s'.users == s.users && s'.maps == s.maps && s'.owner == s.owner && s.free <= s'.free
    && Grows(s'.t.at, s.t.at) && SamePages(s, s')
    && (forall p :: p in s.data && p !in s'.free ==> p in s'.data && s'.data[p] == s.data[p])
  }

  /** p lies below q by way of an entry in [lo, hi). */
  predicate Via(q: Pos, lo: nat, hi: nat, p: Pos) { Below(q, p) && p != q && lo <= Branch(q, p) < hi }

  /** The tables below entries [lo, hi) of q are free. */
  ghost predicate PartFreed(s: View, s': View, q: Pos, lo: nat, hi: nat) {
    OnlyTables(s, s') && forall p :: p in s'.t.at <==> p in s.t.at && !Via(q, lo, hi, p)
  }

  /** Table q and those below it are free. */
  ghost predicate TreeFreed(s: View, s': View, q: Pos) {
    OnlyTables(s, s') && forall p :: p in s'.t.at <==> p in s.t.at && !Below(q, p)
  }

  lemma PartNone(s: View, q: Pos)
    ensures PartFreed(s, s, q, 0, 0)
  {
  }

  lemma PartJoin(s: View, s1: View, s2: View, q: Pos, i: nat)
    requires PartFreed(s, s1, q, 0, i) && PartFreed(s1, s2, q, i, i + 1)
    ensures PartFreed(s, s2, q, 0, i + 1)
  {
    forall p ensures Via(q, 0, i + 1, p) <==> Via(q, 0, i, p) || Via(q, i, i + 1, p) { }
  }

  lemma ChildFreed(s: View, s': View, q: Pos, i: nat)
    requires q.level >= 1 && i < 512 && TreeFreed(s, s', Child(q, i))
    ensures PartFreed(s, s', q, i, i + 1)
  {
    forall p ensures Below(Child(q, i), p) <==> Via(q, i, i + 1, p) { BranchIs(q, i, p); }
  }

  lemma NothingBelow(s: Mem, q: Pos, i: nat)
    requires q in s.t.at && i < 512 && (q.level == 0 || Child(q, i) !in s.t.at)
    ensures PartFreed(s, s, q, i, i + 1)
  {
    forall p | p in s.t.at ensures !Via(q, i, i + 1, p) {
      if Below(q, p) && p != q { ChildOnWay(s.t, q, p); }
    }
  }

  lemma BareChild(s: View, q: Pos, i: nat)
    requires Bare(s, q) && q.level >= 1 && i < 512
    ensures Bare(s, Child(q, i))
  {
    forall k | k in s.maps ensures !Below(Child(q, i), Pos(k.root, 0, k.page / 512)) {
      BranchIs(q, i, Pos(k.root, 0, k.page / 512));
    }
  }

  lemma TablePte(n: nat)
    ensures !IsLeaf(PteOf(n, 1))
  {
    LeafBits(n, 1);
  }

  lemma BottomEntry(s: Mem, q: Pos, i: nat)
    requires q in s.t.at && q.level == 0 && Bare(s, q) && i < 512 && NodeOk(s.t, q)
    ensures Entry(s.t, q, i) == 0
  {
    var k := Slot(q.root, q.idx * 512 + i);
    TableSplit(q.idx, i);
    assert Pos(k.root, 0, k.page / 512) == q && Below(q, q);
    assert k !in s.maps;
    assert SlotOk(s.t, s.maps, k);
  }

  /** With nothing mapped below q, no entry of q is a leaf. */
  lemma NoLeaf(s: Mem, q: Pos, i: nat)
    requires q in s.t.at && Bare(s, q) && i < 512
    ensures NodeOk(s.t, q) && (Present(Entry(s.t, q, i)) ==> q.level >= 1 && !IsLeaf(Entry(s.t, q, i)))
  {
    assert NodeOk(s.t, q);
    if q.level == 0 {
      BottomEntry(s, q, i);
    } else {
      assert EdgeOk(s.t, q, i);
      if Child(q, i) in s.t.at { TablePte(s.t.at[Child(q, i)]); }
    }
  }

  /** When the entries are done, the table itself goes. */
  lemma AllFreed(s: Mem, s1: Mem, q: Pos)
    requires q in s.t.at && PartFreed(s, s1, q, 0, 512) && Bare(s1, q) && (q.level == 2 ==> q.root !in s.users)
    ensures q in s1.t.at && s1.t.at[q] == s.t.at[q] && Childless(s1.t, q)
    ensures ViewOk(WithoutTable(s1, q)) && Loose(WithoutTable(s1, q), s.t.at[q])
    ensures TreeFreed(s, Push(WithoutTable(s1, q), s.t.at[q]), q)
  {
    assert !Via(q, 0, 512, q);
    if q.level >= 1 {
      forall i: nat | i < 512 ensures Child(q, i) !in s1.t.at {
        BranchIs(q, i, Child(q, i));
      }
    }
    WithoutTableOk(s1, q);
    var s2 := Push(WithoutTable(s1, q), s.t.at[q]);
    assert OnlyTables(s1, s2) by { TableToFree(s1, s2, q); }
    forall p | p in s.t.at && Below(q, p) && p != q ensures Via(q, 0, 512, p) { BranchBound(q, p); }
  }

  lemma TableToFree(s: Mem, s': View, q: Pos)
    requires q in s.t.at && s' == Push(s, s.t.at[q]).(t := s'.t) && s'.t.at == s.t.at - {q}
    ensures OnlyTables(s, s')
  {
    var c := s.t.at[q];
    forall p: nat ensures IsPage(s', p) <==> IsPage(s, p) {
      if p != c {
        assert forall r :: r in s.t.at && s.t.at[r] == p ==> r != q;
        assert forall r :: r in s.t.at && r != q ==> r in s'.t.at && s'.t.at[r] == s.t.at[r];
      }
    }
  }

  /** The concrete tables are those of t, but for entry i of p: it is e where t has 0. */
  ghost predicate StaleAt(table: map<nat, seq<nat>>, t: Tables, p: Pos, i: nat, e: nat) {
    && p in t.at && NodeOk(t, p) && i < 512 && Entry(t, p, i) == 0
    && table == t.table[t.at[p] := Row(t.table[t.at[p]], i, e)]
  }

  /** The tables when q has been freed and the entry leading to it has not been cleared. */
  ghost predicate Lags(table: map<nat, seq<nat>>, t: Tables, q: Pos, page: nat) {
    if q.level == 2 then table == t.table else StaleAt(table, t, Parent(q), q.idx % 512, PteOf(page, 1))
  }

  lemma FixStale(table: map<nat, seq<nat>>, t: Tables, p: Pos, i: nat, e: nat)
    requires StaleAt(table, t, p, i, e)
    ensures t.at[p] in table && |table[t.at[p]]| == 512
    ensures table[t.at[p] := Row(table[t.at[p]], i, 0)] == t.table
  {
    assert Row(Row(t.table[t.at[p]], i, e), i, 0) == t.table[t.at[p]];
  }

  /** Taking q out of the tree in principle leaves the entry that leads to it behind in fact. */
  lemma LeavesStale(t: Trees, q: Pos)
    requires q in t.at && Childless(t, q)
    ensures Lags(t.table, RemoveTable(t, q), q, t.at[q])
  {
    assert UpOk(t, q) && NodeOk(t, q);
    if q.level < 2 {
      var up, i := Parent(q), q.idx % 512;
      ChildOfParent(q);
      assert EdgeOk(t, up, i);
      RemoveNodes(t, q);
      var row := t.table[t.at[up]];
      assert Row(Row(row, i, 0), i, row[i]) == row;
    } else {
      assert forall p :: p in t.at ==> NodeOk(t, p);
    }
  }

  // ---- a whole address space

  lemma {:induction false} BelowRoot(q: Pos, p: Pos)
    requires Below(q, p)
    ensures p.root == q.root
    decreases q.level - p.level
  {
    if p != q { BelowRoot(q, Parent(p)); }
  }

  lemma {:induction false} RootAbove(t: Trees, p: Pos)
    requires p in t.at
    ensures Below(Pos(p.root, 2, 0), p)
    decreases 2 - p.level
  {
    assert NodeOk(t, p) && UpOk(t, p);
    if p.level < 2 { RootAbove(t, Parent(p)); }
  }

  /** The address space of root is gone: its tables and its frames are on the free list, and all else is as
      before. */
  ghost predicate Released(s: View, s': View, root: nat) {
    && s'.end == s.end && s'.users == s.users - {root} && Grows(s'.t.at, s.t.at)
    && (forall q :: q in s'.t.at <==> q in s.t.at && q.root != root)
    && (forall k :: k in s'.maps <==> k in s.maps && k.root != root)
    && (forall k :: k in s'.maps ==> s'.maps[k] == s.maps[k])
    && (forall f :: f in s'.owner <==> f in s.owner && s.owner[f].root != root)
    && (forall f :: f in s'.owner ==> s'.owner[f] == s.owner[f])
    && (forall p: nat :: p in s'.free <==>
          p in s.free || (p in s.owner && s.owner[p].root == root) || TableOf(s, root, p))
    && (forall p :: p in s.data && p !in s'.free ==> p in s'.data && s'.data[p] == s.data[p])
  }

  /** Page p holds a table of the tree with the given root. */
  ghost predicate TableOf(s: View, root: nat, p: nat) { exists q :: q in s.t.at && q.root == root && s.t.at[q] == p }

  lemma DropUserOk(s: Mem, root: nat)
    requires forall k :: k in s.maps ==> k.root != root
    ensures ViewOk(s.(users := s.users - {root}))
  {
    var s' := s.(users := s.users - {root});
    forall r ensures UserOk(s', r) { assert UserOk(s, r); }
    forall f | f in s.owner ensures s.owner[f].root != root { }
  }

  lemma NoneBelow(s: View, root: nat)
    requires forall k :: k in s.maps ==> k.root != root
    ensures Bare(s, Pos(root, 2, 0))
  {
    forall k | k in s.maps ensures !Below(Pos(root, 2, 0), Pos(k.root, 0, k.page / 512)) {
      var p := Pos(k.root, 0, k.page / 512);
      if Below(Pos(root, 2, 0), p) { BelowRoot(Pos(root, 2, 0), p); }
    }
  }

  /** With nothing mapped in it, the tree of root is all there is to release. */
  lemma TreeReleased(s: Mem, s': Mem, root: nat)
    requires (forall k :: k in s.maps ==> k.root != root) && root !in s.users && TreeFreed(s, s', Pos(root, 2, 0))
    ensures Released(s, s', root)
  {
    forall q | q in s.t.at ensures Below(Pos(root, 2, 0), q) <==> q.root == root {
      RootAbove(s.t, q);
      if Below(Pos(root, 2, 0), q) { BelowRoot(Pos(root, 2, 0), q); }
    }
    forall p: nat ensures p in s'.free <==> p in s.free || TableOf(s, root, p) {
      FreedPage(s, s', root, p);
    }
    forall f | f in s.owner ensures s.owner[f].root != root { }
  }

  lemma FreedPage(s: Mem, s': Mem, root: nat, p: nat)
    requires OnlyTables(s, s') && forall q :: q in s'.t.at <==> q in s.t.at && q.root != root
    ensures p in s'.free <==> p in s.free || TableOf(s, root, p)
  {
    assert IsPage(s', p) <==> IsPage(s, p);
    if TableOf(s, root, p) {
      var q :| q in s.t.at && q.root == root && s.t.at[q] == p;
      assert !IsTable(s', p);
    }
  }

  /** Pages unmapped first and the rest released afterwards is all released. */
  lemma ClearThenRelease(s: View, s1: View, s2: View, root: nat, v: nat, n: nat)
    requires Cleared(s, s1, root, v, n) && Released(s1.(users := s2.users), s2, root) && s2.users == s.users - {root}
    ensures Released(s, s2, root)
  {
    forall p: nat ensures TableOf(s1, root, p) <==> TableOf(s, root, p) { }
    forall p: nat ensures TableOf(s1.(users := s2.users), root, p) <==> TableOf(s1, root, p) { }
  }

  lemma ReleaseMore(s: View, s1: View, s2: View, root: nat, v: nat, n: nat)
    requires Cleared(s, s1, root, v, n) && Released(s1, s2, root)
    ensures Released(s, s2, root)
  {
    forall p: nat ensures TableOf(s1, root, p) <==> TableOf(s, root, p) { }
  }

  // ---- a new address space

  /** A new user page table has mappings `add`, above every user page; otherwise only free pages became tables. */
  ghost predicate Created(s: View, s': View, root: nat, add: map<Slot, Leaf>) {
    && s'.end == s.end && s'.users == s.users + {root} && root !in s.users && RootIn(s', root)
    && s'.maps == s.maps + add && (forall k :: k in add ==> k.root == root && k.page >= TRAPFRAME)
    && (forall k :: k in s.maps ==> k.root != root) && (forall q :: q in s.t.at ==> q.root != root)
    && Grows(s.t.at, s'.t.at) && SamePages(s, s') && SameBytes(s, s')
  }

  lemma RootCreated(s: Mem, root: nat)
    requires root in s.free
    ensures ViewOk(WithRoot(s, root)) && Created(s, WithRoot(s, root), root, map[])
  {
    WithRootOk(s, root);
    forall q | q in s.t.at ensures q.root != root { HasTop(s.t, q); }
    assert s.maps + map[] == s.maps;
  }

  lemma CreatedOne(s: View, s1: View, s2: View, root: nat, add: map<Slot, Leaf>, v: nat, l: Leaf, all: map<Slot, Leaf>)
    requires Created(s, s1, root, add) && Added(s1, s2, map[Slot(root, v) := l]) && v >= TRAPFRAME
    requires all == add + map[Slot(root, v) := l]
    ensures Created(s, s2, root, all)
  {
    assert s.maps + add + map[Slot(root, v) := l] == s.maps + all;
  }

  lemma CreatedClear(s: View, s1: View, root: nat, add: map<Slot, Leaf>, v: nat)
    requires Created(s, s1, root, add) && Slot(root, v) !in add && v >= TRAPFRAME
    ensures Slot(root, v) !in s1.maps && !Tracked(s1, Slot(root, v))
  {
  }

  lemma CreatedKept(s: View, s1: View, s2: View, root: nat, add: map<Slot, Leaf>)
    requires Created(s, s1, root, add) && Kept(s1, s2)
    ensures Created(s, s2, root, add)
  {
  }

  lemma CreatedOwners(s: Mem, s': Mem, root: nat, add: map<Slot, Leaf>)
    requires Created(s, s', root, add)
    ensures s'.owner == s.owner
  {
    forall f ensures f in s.owner <==> f in s'.owner {
      if f in s.owner { assert s.owner[f] in s'.maps && Tracked(s', s.owner[f]); }
    }
  }

  lemma CreateUndone(s: Mem, s1: Mem, s2: Mem, root: nat, add: map<Slot, Leaf>)
    requires Created(s, s1, root, add) && Released(s1, s2, root)
    ensures Kept(s, s2)
  {
    UndoneMaps(s, s1, s2, root, add);
    OwnersSame(s, s2);
    CreatedOwners(s, s1, root, add);
    forall q | q in s.t.at ensures q in s2.t.at && s2.t.at[q] == s.t.at[q] { }
    forall p: nat ensures IsPage(s2, p) <==> IsPage(s, p) { UndonePage(s, s1, s2, root, add, p); }
    forall p | p in s2.free ensures p in s.free { UndonePage(s, s1, s2, root, add, p); }
  }

  lemma UndoneMaps(s: View, s1: View, s2: View, root: nat, add: map<Slot, Leaf>)
    requires Created(s, s1, root, add) && Released(s1, s2, root)
    ensures s2.maps == s.maps && s2.users == s.users
  {
    forall k ensures k in s2.maps <==> k in s.maps { assert k in s1.maps <==> k in s.maps || k in add; }
    forall k | k in s2.maps ensures s2.maps[k] == s.maps[k] { assert k !in add; }
  }

  lemma UndonePage(s: Mem, s1: Mem, s2: Mem, root: nat, add: map<Slot, Leaf>, p: nat)
    requires Created(s, s1, root, add) && Released(s1, s2, root) && s1.owner == s.owner
    ensures IsPage(s2, p) <==> IsPage(s, p)
    ensures p in s2.free ==> p in s.free
  {
    assert IsPage(s1, p) <==> IsPage(s, p);
    forall f | f in s1.owner ensures s1.owner[f].root != root { assert s1.owner[f] in s1.maps; }
    if IsTable(s1, p) {
      var q :| q in s1.t.at && s1.t.at[q] == p;
      if q.root == root {
        assert TableOf(s1, root, p);
        assert !IsTable(s, p);
      } else {
        assert q in s2.t.at && s2.t.at[q] == p;
      }
    }
  }
}
