/** Three-level page tables in physical memory. `at` says which page holds the table at each position of
    each tree; everything else is in the tables themselves. */
module PageTable {
  import opened Sv39

  /** Table number `idx` of its level in the tree with the given root page; level 2 is the root. */
  datatype Pos = Pos(root: nat, level: nat, idx: nat)

  function Parent(q: Pos): Pos { Pos(q.root, q.level + 1, q.idx / 512) }

  function Child(q: Pos, i: nat): Pos
    requires q.level >= 1
  {
    Pos(q.root, q.level - 1, q.idx * 512 + i)
  }

  datatype Tables = Tables(table: map<nat, seq<nat>>, at: map<Pos, nat>)

  predicate NodeOk(t: Tables, q: Pos)
    requires q in t.at
  {
    && q.level <= 2 && t.at[q] > 0
    && t.at[q] in t.table && |t.table[t.at[q]]| == 512
  }

  /** A table is the root of its tree or has a table above it. */
  predicate UpOk(t: Tables, q: Pos)
    requires q in t.at
  {
    if q.level == 2 then q.idx == 0 && t.at[q] == q.root else Parent(q) in t.at
  }

  function Entry(t: Tables, q: Pos, i: nat): nat
    requires q in t.at && NodeOk(t, q) && i < 512
  {
    t.table[t.at[q]][i]
  }

  /** Entry i of an interior table is present exactly when there is a table below it, and points to it. */
  predicate EdgeOk(t: Tables, q: Pos, i: nat)
    requires q in t.at && NodeOk(t, q) && q.level >= 1 && i < 512
  {
    var c := Child(q, i);
    (Present(Entry(t, q, i)) <==> c in t.at)
    && (c in t.at ==> Entry(t, q, i) == PteOf(t.at[c], 1))
  }

  ghost predicate Nodes(t: Tables) {
    && (forall q :: q in t.at ==> NodeOk(t, q))
    && (forall q {:trigger UpOk(t, q)} :: q in t.at ==> UpOk(t, q))
    && (forall q, p :: q in t.at && p in t.at && q != p ==> t.at[q] != t.at[p])
  }

  ghost predicate Edges(t: Tables)
    requires Nodes(t)
  {
    forall q, i {:trigger EdgeOk(t, q, i)} :: q in t.at && q.level >= 1 && 0 <= i < 512 ==> EdgeOk(t, q, i)
  }

  /** The tables form trees: every table below a root has one parent entry, and no page is two tables. */
  ghost predicate TreeInv(t: Tables) { Nodes(t) && Edges(t) }

  type Trees = t: Tables | TreeInv(t) ghost witness Tables(map[], map[])

  /** The abstract map: the leaf entry for page v, 0 if there is no table for it. */
  function Pte(t: Tables, root: nat, v: nat): nat {
    var q := Pos(root, 0, v / 512);
    if q in t.at && NodeOk(t, q) then Entry(t, q, v % 512) else 0
  }

  ghost predicate SamePtes(t: Tables, t': Tables) {
    forall r: nat, v: nat :: Pte(t', r, v) == Pte(t, r, v)
  }

  // ---- adding a table

  function Zeros(): seq<nat> { seq(512, i => 0) }

  /** walk with alloc: zeroed page c becomes the table below entry i of q. */
  function AddTable(t: Tables, q: Pos, i: nat, c: nat): Tables
    requires q in t.at && NodeOk(t, q) && q.level >= 1 && i < 512
  {
    Tables(t.table[c := Zeros()][t.at[q] := Row(t.table[t.at[q]], i, PteOf(c, 1))], t.at[Child(q, i) := c])
  }

  ghost predicate CanAdd(t: Tables, q: Pos, i: nat, c: nat) {
    && TreeInv(t) && q in t.at && q.level >= 1 && i < 512 && !Present(Entry(t, q, i))
    && c > 0 && forall p :: p in t.at ==> t.at[p] != c
  }

  lemma AddNodes(t: Tables, q: Pos, i: nat, c: nat)
    requires CanAdd(t, q, i, c)
    ensures Nodes(AddTable(t, q, i, c)) && Child(q, i) !in t.at
  {
    assert EdgeOk(t, q, i);
    var t' := AddTable(t, q, i, c);
    forall p | p in t'.at ensures NodeOk(t', p) {
      if p != Child(q, i) { assert NodeOk(t, p); }
    }
    forall p | p in t'.at ensures UpOk(t', p) {
      if p != Child(q, i) { assert UpOk(t, p); } else { ParentOfChild(q, i); }
    }
  }

  lemma ParentOfChild(q: Pos, i: nat)
    requires q.level >= 1 && i < 512
    ensures Parent(Child(q, i)) == q && Child(q, i).idx % 512 == i
  {
    TableSplit(q.idx, i);
  }

  lemma AddEntry(t: Tables, q: Pos, i: nat, c: nat, p: Pos, j: nat)
    requires CanAdd(t, q, i, c) && p in t.at && j < 512 && NodeOk(t, p)
    requires Child(q, i) !in t.at && NodeOk(AddTable(t, q, i, c), p)
    ensures Entry(AddTable(t, q, i, c), p, j) == if p == q && j == i then PteOf(c, 1) else Entry(t, p, j)
  {
    assert p != q ==> t.at[p] != t.at[q];
  }

  lemma AddEdge(t: Tables, q: Pos, i: nat, c: nat, p: Pos, j: nat)
    requires CanAdd(t, q, i, c) && Child(q, i) !in t.at
    requires p in t.at && p.level >= 1 && j < 512 && NodeOk(t, p) && NodeOk(AddTable(t, q, i, c), p)
    requires EdgeOk(t, p, j)
    ensures EdgeOk(AddTable(t, q, i, c), p, j)
  {
    AddEntry(t, q, i, c, p, j);
    ParentOfChild(p, j);
    ParentOfChild(q, i);
    var t' := AddTable(t, q, i, c);
    if p == q && j == i {
      FramePart(c, 1);
      assert t'.at[Child(p, j)] == c;
    } else {
      assert Child(p, j) != Child(q, i);
    }
  }

  lemma AddEdges(t: Tables, q: Pos, i: nat, c: nat)
    requires CanAdd(t, q, i, c) && Nodes(AddTable(t, q, i, c)) && Child(q, i) !in t.at
    ensures Edges(AddTable(t, q, i, c))
  {
    var t' := AddTable(t, q, i, c);
    var n := Child(q, i);
    forall p, j | p in t'.at && p.level >= 1 && 0 <= j < 512 ensures EdgeOk(t', p, j) {
      if p == n {
        ParentOfChild(n, j);
        assert Child(n, j) in t.at ==> UpOk(t, Child(n, j));
        assert Entry(t', p, j) == 0;
      } else {
        assert EdgeOk(t, p, j);
        AddEdge(t, q, i, c, p, j);
      }
    }
  }

  /** A new table changes no mapping: where there was no table there is now an empty one. */
  lemma AddPtes(t: Tables, q: Pos, i: nat, c: nat)
    requires CanAdd(t, q, i, c) && Nodes(AddTable(t, q, i, c)) && Child(q, i) !in t.at
    ensures SamePtes(t, AddTable(t, q, i, c))
  {
    var t' := AddTable(t, q, i, c);
    forall r: nat, v: nat ensures Pte(t', r, v) == Pte(t, r, v) {
      var p := Pos(r, 0, v / 512);
      if p in t.at { assert NodeOk(t, p) && NodeOk(t', p) && t.at[p] != t.at[q]; }
    }
  }

  lemma AddTableOk(t: Tables, q: Pos, i: nat, c: nat)
    requires CanAdd(t, q, i, c)
    ensures Child(q, i) !in t.at && TreeInv(AddTable(t, q, i, c)) && SamePtes(t, AddTable(t, q, i, c))
  {
    AddNodes(t, q, i, c);
    AddEdges(t, q, i, c);
    AddPtes(t, q, i, c);
  }

  // ---- changing a leaf entry

  function Row(row: seq<nat>, i: nat, e: nat): seq<nat>
    requires i < |row|
  {
    row[i := e]
  }

  function SetLeaf(t: Tables, q: Pos, i: nat, e: nat): Tables
    requires q in t.at && NodeOk(t, q) && i < 512
  {
    t.(table := t.table[t.at[q] := Row(t.table[t.at[q]], i, e)])
  }

  /** Storing e in the entry for page v changes the mapping of v in that tree to e, and nothing else. */
  lemma SetLeafEffect(t: Tables, root: nat, v: nat, e: nat)
    requires TreeInv(t) && Pos(root, 0, v / 512) in t.at
    ensures var t' := SetLeaf(t, Pos(root, 0, v / 512), v % 512, e);
            && TreeInv(t') && Pte(t', root, v) == e
            && forall r: nat, w: nat :: (r, w) != (root, v) ==> Pte(t', r, w) == Pte(t, r, w)
  {
    var q := Pos(root, 0, v / 512);
    var t' := SetLeaf(t, q, v % 512, e);
    forall p | p in t'.at ensures NodeOk(t', p) { assert NodeOk(t, p); }
    forall p | p in t'.at ensures UpOk(t', p) { assert UpOk(t, p); }
    forall p, j | p in t'.at && p.level >= 1 && 0 <= j < 512 ensures EdgeOk(t', p, j) {
      assert EdgeOk(t, p, j);
    }
    forall r: nat, w: nat | (r, w) != (root, v) ensures Pte(t', r, w) == Pte(t, r, w) {
      if r == root && w / 512 == v / 512 { assert w % 512 != v % 512; }
    }
  }

  // ---- walking

  /** The position walk is at when it looks for page v's table at the given level. */
  function OnPath(root: nat, v: nat, level: nat): Pos { Pos(root, level, Above(v, level)) }

  lemma PathStep(root: nat, v: nat, level: nat)
    requires 1 <= level <= 2
    ensures Child(OnPath(root, v, level), Px(v, level)) == OnPath(root, v, level - 1)
    ensures Parent(OnPath(root, v, level - 1)) == OnPath(root, v, level)
  {
  }

  /** Without a table on the way there is none at the bottom. */
  lemma PathBroken(t: Trees, root: nat, v: nat, level: nat)
    requires level <= 1 && OnPath(root, v, level) !in t.at
    ensures Pos(root, 0, v / 512) !in t.at
  {
    PathStep(root, v, 1);
    assert OnPath(root, v, 0) in t.at ==> UpOk(t, OnPath(root, v, 0));
  }

  /** A present interior entry leads to the next table. */
  lemma FollowEntry(t: Trees, q: Pos, i: nat)
    requires q in t.at && q.level >= 1 && i < 512
    ensures NodeOk(t, q)
    ensures Present(Entry(t, q, i)) ==> Child(q, i) in t.at && PageOf(Entry(t, q, i)) == t.at[Child(q, i)]
    ensures !Present(Entry(t, q, i)) ==> Child(q, i) !in t.at
  {
    assert NodeOk(t, q) && EdgeOk(t, q, i);
    if Child(q, i) in t.at {
      assert NodeOk(t, Child(q, i));
      FramePart(t.at[Child(q, i)], 1);
    }
  }
}
