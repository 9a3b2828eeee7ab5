/** The heap of user/umalloc.c as a value: blocks tiling [lo, top), each free or live, the free ones on
    a ring ordered by address. Addresses and sizes are in units of one header (16 bytes). */
module Heap {
  /** `ring` is the free list from `base` on, `free` the blocks on it; `size` gives the size in each
      block's header. */
  datatype Heap = Heap(base: nat, lo: nat, top: nat, ring: seq<nat>, free: set<nat>, live: set<nat>,
                       size: map<nat, nat>)

  predicate Free(h: Heap, a: int) { a in h.free }

  predicate Block(h: Heap, a: int) { a in h.live || Free(h, a) }

  ghost predicate Ordered(ring: seq<nat>) {
    forall i, j :: 0 <= i < j < |ring| ==> ring[i] < ring[j]
  }

  predicate OnRing(h: Heap, a: int) { a in h.ring && a != h.base }

  ghost predicate RingInv(h: Heap) {
    && 0 < h.base < h.lo <= h.top
    && |h.ring| >= 1 && h.ring[0] == h.base && Ordered(h.ring)
    && h.base in h.size && h.size[h.base] == 0
    && (forall i :: 1 <= i < |h.ring| ==> h.ring[i] in h.free)
    && (forall a {:trigger OnRing(h, a)} :: a in h.free ==> OnRing(h, a))
  }

  /** Block a is followed at once by another, or by the top. */
  predicate Abuts(h: Heap, a: int)
    requires a in h.size
  {
    a + h.size[a] == h.top || Block(h, a + h.size[a])
  }

  /** Blocks lie in [lo, top), do not overlap, and leave no gap. */
  ghost predicate Tiles(h: Heap) {
    && (forall a :: Block(h, a) ==> a in h.size && h.lo <= a && h.size[a] > 0 && a + h.size[a] <= h.top)
    && (forall a {:trigger Abuts(h, a)} :: Block(h, a) ==> Abuts(h, a))
    && (forall a, b :: Block(h, a) && Block(h, b) && a < b ==> a + h.size[a] <= b)
    && (h.lo < h.top ==> Block(h, h.lo))
  }

  predicate Apart(h: Heap, a: int)
    requires a in h.size
  {
    !Free(h, a + h.size[a])
  }

  /** No free block is live, and no two free blocks touch. */
  ghost predicate Coalesced(h: Heap) {
    && (forall a :: Free(h, a) ==> a !in h.live)
    && (forall a {:trigger Apart(h, a)} :: Free(h, a) && a in h.size ==> Apart(h, a))
  }

  ghost predicate Inv(h: Heap) { RingInv(h) && Tiles(h) && Coalesced(h) }

  type GoodHeap = h: Heap | Inv(h) ghost witness Heap(1, 2, 2, [1], {}, {}, map[1 := 0])

  /** Position of the last ring element below bp. */
  function Locate(ring: seq<nat>, bp: nat): (t: nat)
    requires |ring| >= 1 && ring[0] < bp
    ensures t < |ring| && ring[t] < bp && (t + 1 < |ring| ==> ring[t + 1] >= bp)
  {
    var n := |ring| - 1;
    if ring[n] < bp then n else Locate(ring[..n], bp)
  }

  predicate JoinsNext(h: Heap, bp: nat, t: nat)
    requires t < |h.ring| && bp in h.size
  {
    t + 1 < |h.ring| && bp + h.size[bp] == h.ring[t + 1]
  }

  predicate JoinsPrev(h: Heap, bp: nat, t: nat)
    requires t < |h.ring| && h.ring[t] in h.size
  {
    h.ring[t] + h.size[h.ring[t]] == bp
  }

  /** Put live block bp on the ring, merged with the free blocks it touches; t is its place. */
  function Insert(h: Heap, bp: nat, t: nat): Heap
    requires t < |h.ring| && bp in h.size && h.ring[t] in h.size
    requires JoinsNext(h, bp, t) ==> h.ring[t + 1] in h.size
  {
    var p := h.ring[t];
    var s := h.size[bp] + (if JoinsNext(h, bp, t) then h.size[h.ring[t + 1]] else 0);
    var rest := if JoinsNext(h, bp, t) then h.ring[t + 2..] else h.ring[t + 1..];
    var gone := if JoinsNext(h, bp, t) then {h.ring[t + 1]} else {};
    if JoinsPrev(h, bp, t) then
      h.(ring := h.ring[..t + 1] + rest, free := h.free - gone, live := h.live - {bp},
         size := h.size[bp := s][p := h.size[p] + s])
    else
      h.(ring := h.ring[..t + 1] + [bp] + rest, free := h.free - gone + {bp}, live := h.live - {bp},
         size := h.size[bp := s])
  }

  /** The block bp ends up in. */
  function Home(h: Heap, bp: nat, t: nat): nat
    requires t < |h.ring| && h.ring[t] in h.size
  {
    if JoinsPrev(h, bp, t) then h.ring[t] else bp
  }

  ghost predicate CanFree(h: Heap, bp: nat, t: nat) {
    && Inv(h) && bp in h.live
    && t < |h.ring| && h.ring[t] < bp && (t + 1 < |h.ring| ==> bp < h.ring[t + 1])
  }

  /** Where the free neighbours of bp are. */
  lemma Neighbours(h: Heap, bp: nat, t: nat)
    requires CanFree(h, bp, t)
    ensures bp in h.size && h.ring[t] in h.size
    ensures t + 1 < |h.ring| ==> Free(h, h.ring[t + 1]) && h.ring[t + 1] in h.size && h.ring[t + 1] >= bp + h.size[bp]
    ensures Free(h, bp + h.size[bp]) <==> JoinsNext(h, bp, t)
    ensures t > 0 ==> Free(h, h.ring[t]) && h.ring[t] + h.size[h.ring[t]] <= bp
    ensures JoinsPrev(h, bp, t) ==> t > 0
    ensures forall a :: Free(h, a) && a + h.size[a] == bp ==> JoinsPrev(h, bp, t) && a == h.ring[t]
  {
    assert Block(h, bp);
    if t > 0 { assert Free(h, h.ring[t]) && Block(h, h.ring[t]); }
    if t + 1 < |h.ring| { assert Free(h, h.ring[t + 1]) && Block(h, h.ring[t + 1]); }
    if Free(h, bp + h.size[bp]) { assert OnRing(h, bp + h.size[bp]); }
    forall a | Free(h, a) && a + h.size[a] == bp ensures a == h.ring[t] {
      assert OnRing(h, a);
      var i :| 0 <= i < |h.ring| && h.ring[i] == a;
      assert Block(h, a) && i <= t;
    }
  }

  /** Dropping e elements after position t of a ring, and putting mid there. */
  function Splice(ring: seq<nat>, t: nat, mid: seq<nat>, e: nat): seq<nat>
    requires t + 1 + e <= |ring|
  {
    ring[..t + 1] + mid + ring[t + 1 + e..]
  }

  lemma SpliceOrdered(ring: seq<nat>, t: nat, mid: seq<nat>, e: nat)
    requires Ordered(ring) && t + 1 + e <= |ring| && |mid| <= 1
    requires mid != [] ==> ring[t] < mid[0] && (t + 1 + e < |ring| ==> mid[0] < ring[t + 1 + e])
    ensures Ordered(Splice(ring, t, mid, e))
  {
  }

  lemma SpliceMembers(ring: seq<nat>, t: nat, mid: seq<nat>, e: nat)
    requires Ordered(ring) && t + 1 + e <= |ring| && e <= 1
    ensures forall a :: a in Splice(ring, t, mid, e) <==>
              a in mid || (a in ring && !(e == 1 && a == ring[t + 1]))
  {
    assert ring == ring[..t + 1] + ring[t + 1..t + 1 + e] + ring[t + 1 + e..];
    if e == 1 { assert ring[t + 1..t + 1 + e] == [ring[t + 1]]; }
  }

  lemma InsertIsSplice(h: Heap, bp: nat, t: nat) returns (mid: seq<nat>, e: nat)
    requires t < |h.ring| && bp in h.size && h.ring[t] in h.size
    requires JoinsNext(h, bp, t) ==> h.ring[t + 1] in h.size
    ensures mid == (if JoinsPrev(h, bp, t) then [] else [bp]) && e == if JoinsNext(h, bp, t) then 1 else 0
    ensures Insert(h, bp, t).ring == Splice(h.ring, t, mid, e)
    ensures Insert(h, bp, t).free == h.free - (if e == 1 then {h.ring[t + 1]} else {}) + set a | a in mid
  {
    mid := if JoinsPrev(h, bp, t) then [] else [bp];
    e := if JoinsNext(h, bp, t) then 1 else 0;
    assert (set a | a in mid) == if JoinsPrev(h, bp, t) then {} else {bp};
  }

  lemma InsertRing(h: Heap, bp: nat, t: nat)
    requires CanFree(h, bp, t)
    ensures bp in h.size && h.ring[t] in h.size && (JoinsNext(h, bp, t) ==> h.ring[t + 1] in h.size)
    ensures RingInv(Insert(h, bp, t))
  {
    Neighbours(h, bp, t);
    var mid, e := InsertIsSplice(h, bp, t);
    SpliceRing(h, Insert(h, bp, t), t, mid, e);
  }

  lemma SpliceRing(h: Heap, h': Heap, t: nat, mid: seq<nat>, e: nat)
    requires RingInv(h) && t + 1 + e <= |h.ring| && e <= 1 && |mid| <= 1
    requires h'.base == h.base && h'.lo == h.lo && h'.top == h.top && h.base in h'.size && h'.size[h.base] == 0
    requires h'.ring == Splice(h.ring, t, mid, e)
    requires h'.free == h.free - (if e == 1 then {h.ring[t + 1]} else {}) + set a | a in mid
    requires mid != [] ==> h.ring[t] < mid[0] && (t + 1 + e < |h.ring| ==> mid[0] < h.ring[t + 1 + e])
    ensures RingInv(h')
  {
    SpliceOrdered(h.ring, t, mid, e);
    SpliceMembers(h.ring, t, mid, e);
    InsertOnRing(h, h', t, mid, e);
  }

  lemma InsertOnRing(h: Heap, h': Heap, t: nat, mid: seq<nat>, e: nat)
    requires RingInv(h) && t + 1 + e <= |h.ring| && e <= 1 && |mid| <= 1 && h'.base == h.base
    requires h'.ring == Splice(h.ring, t, mid, e) && h.base !in mid && Ordered(h'.ring)
    requires forall a :: a in h'.ring <==> a in mid || (a in h.ring && !(e == 1 && a == h.ring[t + 1]))
    requires h'.free == h.free - (if e == 1 then {h.ring[t + 1]} else {}) + set a | a in mid
    ensures forall i :: 1 <= i < |h'.ring| ==> h'.ring[i] in h'.free
    ensures forall a :: a in h'.free ==> OnRing(h', a)
  {
    forall i | 1 <= i < |h'.ring| ensures h'.ring[i] in h'.free {
      assert h'.ring[i] in h'.ring && h'.ring[i] > h'.ring[0] == h.base;
      if h'.ring[i] !in mid { var j :| 0 <= j < |h.ring| && h.ring[j] == h'.ring[i]; }
    }
    forall a | a in h'.free ensures OnRing(h', a) {
      if a in h.free { assert OnRing(h, a); }
    }
  }

  /** h' is h with everything between block boundaries x and y made one free block. */
  ghost predicate Fused(h: Heap, h': Heap, x: nat, y: nat) {
    && h'.lo == h.lo && h'.top == h.top
    && Block(h, x) && x < y <= h.top && (y == h.top || Block(h, y))
    && (forall a :: Block(h', a) <==> Block(h, a) && !(x < a < y))
    && (forall a :: Free(h', a) <==> a == x || (Free(h, a) && !(x < a < y)))
    && x in h'.size && h'.size[x] == y - x
    && (forall a :: Block(h', a) && a != x ==> a in h.size && a in h'.size && h'.size[a] == h.size[a])
    && x !in h'.live && h'.live <= h.live
  }

  lemma FuseTiles(h: Heap, h': Heap, x: nat, y: nat)
    requires Tiles(h) && Fused(h, h', x, y)
    ensures Tiles(h')
  {
    forall a | Block(h', a) ensures Abuts(h', a) {
      assert Block(h, a) && Abuts(h, a);
    }
  }

  lemma FuseCoalesced(h: Heap, h': Heap, x: nat, y: nat)
    requires Tiles(h) && Coalesced(h) && Fused(h, h', x, y)
    requires !Free(h, y) && forall a :: Free(h, a) && a in h.size ==> a + h.size[a] != x
    ensures Coalesced(h')
  {
    forall a | Free(h', a) && a in h'.size ensures Apart(h', a) {
      if a != x { assert Block(h', a) && Apart(h, a); }
    }
  }

  lemma InsertFuses(h: Heap, bp: nat, t: nat)
    requires CanFree(h, bp, t)
    ensures bp in h.size && h.ring[t] in h.size && (JoinsNext(h, bp, t) ==> h.ring[t + 1] in h.size)
    ensures var h', x := Insert(h, bp, t), Home(h, bp, t);
            && x in h'.size && Fused(h, h', x, x + h'.size[x])
            && !Free(h, x + h'.size[x]) && forall a :: Free(h, a) && a in h.size ==> a + h.size[a] != x
  {
    Neighbours(h, bp, t);
    var h', x := Insert(h, bp, t), Home(h, bp, t);
    assert Block(h, bp) && Block(h, x);
    assert Abuts(h, bp);
    if JoinsNext(h, bp, t) { assert Block(h, h.ring[t + 1]) && Abuts(h, h.ring[t + 1]) && Apart(h, h.ring[t + 1]); }
    InsertBlocks(h, bp, t);
    forall a | Free(h, a) && a in h.size ensures a + h.size[a] != x { assert Apart(h, a); }
  }

  lemma InsertBlocks(h: Heap, bp: nat, t: nat)
    requires CanFree(h, bp, t)
    ensures bp in h.size && h.ring[t] in h.size && (JoinsNext(h, bp, t) ==> h.ring[t + 1] in h.size)
    ensures var h', x := Insert(h, bp, t), Home(h, bp, t);
            && x in h'.size
            && (forall a :: Free(h', a) <==> a == x || (Free(h, a) && !(x < a < x + h'.size[x])))
            && (forall a :: Block(h', a) <==> Block(h, a) && !(x < a < x + h'.size[x]))
  {
    Neighbours(h, bp, t);
    var h', x := Insert(h, bp, t), Home(h, bp, t);
    var y := x + h'.size[x];
    Inside(h, bp, t, y);
    assert Block(h, x);
    forall a ensures Free(h', a) <==> a == x || (Free(h, a) && !(x < a < y)) {
      if Free(h, a) { assert Block(h, a) && a !in h.live; }
    }
    forall a ensures Block(h', a) <==> Block(h, a) && !(x < a < y) {
      assert a in h'.live <==> a in h.live && a != bp;
      assert JoinsPrev(h, bp, t) ==> x < bp < y;
      if a in h.live { assert Block(h, a) && !Free(h, a); }
    }
  }

  /** The blocks bp is merged with are the ones inside the new block. */
  lemma Inside(h: Heap, bp: nat, t: nat, y: nat)
    requires CanFree(h, bp, t)
    requires bp in h.size && h.ring[t] in h.size && (JoinsNext(h, bp, t) ==> h.ring[t + 1] in h.size)
    requires y == bp + h.size[bp] + if JoinsNext(h, bp, t) then h.size[h.ring[t + 1]] else 0
    ensures forall a :: Block(h, a) && Home(h, bp, t) < a < y <==>
              (a == bp && JoinsPrev(h, bp, t)) || (JoinsNext(h, bp, t) && a == h.ring[t + 1])
  {
    Neighbours(h, bp, t);
    assert Block(h, bp) && Block(h, Home(h, bp, t));
    if JoinsNext(h, bp, t) { assert Block(h, h.ring[t + 1]); }
  }

  lemma InsertInv(h: Heap, bp: nat, t: nat)
    requires CanFree(h, bp, t)
    ensures bp in h.size && h.ring[t] in h.size && (JoinsNext(h, bp, t) ==> h.ring[t + 1] in h.size)
    ensures Inv(Insert(h, bp, t))
  {
    InsertRing(h, bp, t);
    InsertFuses(h, bp, t);
    var h', x := Insert(h, bp, t), Home(h, bp, t);
    FuseTiles(h, h', x, x + h'.size[x]);
    FuseCoalesced(h, h', x, x + h'.size[x]);
  }

  // ---- free

  const TRIM: nat := 1024   // a top block this large is given back to the kernel
  const KEEP: nat := 256    // down to this size

  function Trim(h: Heap, x: nat): Heap
    requires x in h.size
  {
    if x + h.size[x] >= h.top && h.size[x] >= TRIM then h.(size := h.size[x := KEEP], top := x + KEEP) else h
  }

  lemma TrimTiles(h: Heap, h': Heap, x: nat)
    requires Tiles(h) && Block(h, x) && x + h.size[x] >= h.top && h.size[x] > KEEP
    requires h'.lo == h.lo && h'.top == x + KEEP && h'.size == h.size[x := KEEP]
    requires forall a :: Block(h', a) <==> Block(h, a)
    ensures Tiles(h') && !Block(h, x + KEEP)
  {
    assert forall a :: Block(h, a) && a != x ==> a < x;
    forall a | Block(h', a) ensures Abuts(h', a) { assert Abuts(h, a); }
  }

  lemma TrimCoalesced(h: Heap, h': Heap, x: nat)
    requires Coalesced(h) && x in h.size && !Free(h, x + KEEP)
    requires h'.free == h.free && h'.live == h.live && h'.size == h.size[x := KEEP]
    ensures Coalesced(h')
  {
    forall a | Free(h', a) && a in h'.size ensures Apart(h', a) { assert Apart(h, a); }
  }

  /** Giving back the end of the top block touches no live block. */
  lemma TrimInv(h: Heap, x: nat)
    requires Inv(h) && Free(h, x)
    ensures x in h.size && Inv(Trim(h, x))
    ensures forall a :: a in h.live ==> a in h.size && a + h.size[a] <= Trim(h, x).top
  {
    assert Block(h, x);
    var h' := Trim(h, x);
    if h' != h {
      TrimTiles(h, h', x);
      TrimCoalesced(h, h', x);
      forall a | a in h'.free ensures OnRing(h', a) { assert OnRing(h, a); }
    }
    forall a | a in h.live ensures a in h.size && a + h.size[a] <= h'.top {
      assert Block(h, a) && a != x;
    }
  }

  lemma ReleaseInv(h: Heap, bp: nat, t: nat)
    requires CanFree(h, bp, t)
    ensures bp in h.size && h.ring[t] in h.size && (JoinsNext(h, bp, t) ==> h.ring[t + 1] in h.size)
    ensures var h1, x := Insert(h, bp, t), Home(h, bp, t);
            && x in h1.size && Inv(Trim(h1, x))
            && forall a :: a in h.live && a != bp ==>
                 a in h.size && a in Trim(h1, x).size && Trim(h1, x).size[a] == h.size[a]
  {
    Neighbours(h, bp, t);
    InsertInv(h, bp, t);
    var h1, x := Insert(h, bp, t), Home(h, bp, t);
    TrimInv(h1, x);
    forall a | a in h.live && a != bp ensures a in h.size && a != x { assert Block(h, a) && !Free(h, a); }
  }

  /** free: put the block back, then trim the block it ended up in. */
  ghost function Released(h: Heap, bp: nat): (r: Heap)
    requires Inv(h) && bp in h.live
    ensures Inv(r) && r.live == h.live - {bp} && r.base == h.base && r.lo == h.lo
    ensures forall a :: a in r.live ==> a in h.size && a in r.size && r.size[a] == h.size[a]
  {
    LocateFree(h, bp);
    var t := Locate(h.ring, bp);
    ReleaseInv(h, bp, t);
    Trim(Insert(h, bp, t), Home(h, bp, t))
  }

  lemma LocateFree(h: Heap, bp: nat)
    requires Inv(h) && bp in h.live
    ensures h.ring[0] < bp && CanFree(h, bp, Locate(h.ring, bp))
  {
    assert Block(h, bp);
    var t := Locate(h.ring, bp);
    if t + 1 < |h.ring| { assert Free(h, h.ring[t + 1]); }
  }

  /** Released, with the place the search finds. */
  lemma ReleasedAt(h: Heap, bp: nat, t: nat)
    requires CanFree(h, bp, t)
    ensures bp in h.size && h.ring[t] in h.size && (JoinsNext(h, bp, t) ==> h.ring[t + 1] in h.size)
    ensures Home(h, bp, t) in Insert(h, bp, t).size
    ensures Released(h, bp) == Trim(Insert(h, bp, t), Home(h, bp, t))
  {
    Neighbours(h, bp, t);
    assert t == Locate(h.ring, bp);
  }

  // ---- malloc

  ghost predicate Fits(h: Heap, n: nat) {
    exists i :: 0 <= i < |h.ring| && h.ring[i] in h.size && h.size[h.ring[i]] >= n
  }

  predicate CanTake(h: Heap, i: nat, n: nat) {
    i < |h.ring| && h.ring[i] in h.size && h.size[h.ring[i]] >= n >= 1
  }

  /** The tail end of free block ring[i]. */
  function Taken(h: Heap, i: nat, n: nat): nat
    requires CanTake(h, i, n)
  {
    h.ring[i] + h.size[h.ring[i]] - n
  }

  function Take(h: Heap, i: nat, n: nat): Heap
    requires CanTake(h, i, n)
  {
    var p := h.ring[i];
    if h.size[p] == n then
      h.(ring := h.ring[..i] + h.ring[i + 1..], free := h.free - {p}, live := h.live + {p})
    else h.(live := h.live + {Taken(h, i, n)}, size := h.size[p := h.size[p] - n][Taken(h, i, n) := n])
  }

  ghost predicate TakenFrom(h: Heap, h': Heap, r: nat, n: nat) {
    && Inv(h') && r !in h.live && h'.live == h.live + {r} && r in h'.size && h'.size[r] == n
    && (forall a :: a in h.live ==> a in h.size && a in h'.size && h'.size[a] == h.size[a])
    && (forall a :: a in h.live ==> a + h.size[a] <= r || r + n <= a)
  }

  /** malloc's block is new, of the size asked for, and overlaps no live block. */
  lemma TakeInv(h: Heap, i: nat, n: nat)
    requires Inv(h) && CanTake(h, i, n)
    ensures TakenFrom(h, Take(h, i, n), Taken(h, i, n), n)
  {
    if h.size[h.ring[i]] == n { TakeWhole(h, i, n); } else { TakePart(h, i, n); }
  }

  lemma SameTiles(h: Heap, h': Heap)
    requires Tiles(h) && h'.lo == h.lo && h'.top == h.top && h'.size == h.size
    requires forall a :: Block(h', a) <==> Block(h, a)
    ensures Tiles(h')
  {
    forall a | Block(h', a) ensures Abuts(h', a) { assert Abuts(h, a); }
  }

  lemma TakeRing(h: Heap, h': Heap, i: nat)
    requires RingInv(h) && 0 < i < |h.ring|
    requires h'.ring == h.ring[..i] + h.ring[i + 1..] && h'.free == h.free - {h.ring[i]}
    requires h'.base == h.base && h'.lo == h.lo && h'.top == h.top && h'.size == h.size
    ensures RingInv(h')
  {
    SpliceRing(h, h', i - 1, [], 1);
  }

  lemma TakeWhole(h: Heap, i: nat, n: nat)
    requires Inv(h) && CanTake(h, i, n) && h.size[h.ring[i]] == n
    ensures TakenFrom(h, Take(h, i, n), Taken(h, i, n), n)
  {
    var p := h.ring[i];
    var h' := Take(h, i, n);
    assert Free(h, p) && Block(h, p) && p !in h.live;
    TakeRing(h, h', i);
    forall a ensures Block(h', a) <==> Block(h, a) {}
    SameTiles(h, h');
    forall a | Free(h', a) && a in h'.size ensures Apart(h', a) && a !in h'.live { assert Apart(h, a); }
    forall a | a in h.live ensures a in h.size && (a + h.size[a] <= p || p + n <= a) {
      assert Block(h, a) && a != p;
    }
  }

  /** Block p of the old heap is p and r of the new one. */
  ghost predicate Split(h: Heap, h': Heap, p: nat, r: nat, n: nat) {
    && Block(h, p) && p in h.size && h.size[p] > n > 0 && r == p + h.size[p] - n
    && h'.lo == h.lo && h'.top == h.top && h'.size == h.size[p := h.size[p] - n][r := n]
    && (forall a :: Block(h', a) <==> Block(h, a) || a == r)
  }

  lemma SplitOthers(h: Heap, h': Heap, p: nat, r: nat, n: nat)
    requires Tiles(h) && Split(h, h', p, r, n)
    ensures !Block(h, r)
    ensures forall a :: Block(h, a) && a != p ==>
              a in h'.size && h'.size[a] == h.size[a] && (a + h.size[a] <= p || a >= r + n)
  {
  }

  lemma SplitAbuts(h: Heap, h': Heap, p: nat, r: nat, n: nat)
    requires Tiles(h) && Split(h, h', p, r, n)
    ensures forall a :: Block(h', a) ==> a in h'.size && Abuts(h', a)
  {
    SplitOthers(h, h', p, r, n);
    assert Abuts(h, p);
    forall a | Block(h', a) ensures a in h'.size && Abuts(h', a) {
      if Block(h, a) { assert Abuts(h, a); }
    }
  }

  lemma SplitTiles(h: Heap, h': Heap, p: nat, r: nat, n: nat)
    requires Tiles(h) && Split(h, h', p, r, n)
    ensures Tiles(h') && !Block(h, r)
  {
    SplitOthers(h, h', p, r, n);
    SplitAbuts(h, h', p, r, n);
    forall a, b | Block(h', a) && Block(h', b) && a < b ensures a + h'.size[a] <= b {
      if a != p && a != r && b != p && b != r { assert Block(h, a) && Block(h, b); }
    }
  }

  lemma SplitCoalesced(h: Heap, h': Heap, p: nat, r: nat, n: nat)
    requires Tiles(h) && Coalesced(h) && Split(h, h', p, r, n) && !Block(h, r)
    requires h'.free == h.free && h'.live == h.live + {r}
    ensures Coalesced(h')
  {
    forall a | Free(h', a) && a in h'.size ensures Apart(h', a) && a !in h'.live {
      assert Block(h, a) && Apart(h, a);
    }
  }

  lemma TakePart(h: Heap, i: nat, n: nat)
    requires Inv(h) && CanTake(h, i, n) && h.size[h.ring[i]] > n
    ensures TakenFrom(h, Take(h, i, n), Taken(h, i, n), n)
  {
    var p := h.ring[i];
    var h', r := Take(h, i, n), Taken(h, i, n);
    assert Free(h, p) && Block(h, p) && p !in h.live;
    SplitTiles(h, h', p, r, n);
    SplitCoalesced(h, h', p, r, n);
    forall a | a in h'.free ensures OnRing(h', a) { assert OnRing(h, a); }
    forall a | a in h.live ensures a in h.size && h'.size[a] == h.size[a] && (a + h.size[a] <= r || r + n <= a) {
      assert Block(h, a) && a != p && a != r;
    }
  }
}
