/** Growing the heap of user/umalloc.c, and exactly when malloc's search ends. */
module HeapGrowth {
  import opened Heap

  const BIG: nat := 768   // TRIM - KEEP

  /** sbrk: m units appear at the top, as one block that is about to be freed. */
  function Extend(h: Heap, m: nat): Heap {
    h.(live := h.live + {h.top}, size := h.size[h.top := m], top := h.top + m)
  }

  lemma ExtendTiles(h: Heap, m: nat)
    requires Tiles(h) && h.lo <= h.top && m > 0
    ensures Tiles(Extend(h, m)) && !Block(h, h.top)
  {
    var h' := Extend(h, m);
    assert !Block(h, h.top);
    forall a ensures Block(h', a) <==> Block(h, a) || a == h.top {}
    forall a | Block(h', a) ensures Abuts(h', a) {
      if a != h.top { assert Block(h, a) && Abuts(h, a); }
    }
  }

  lemma ExtendCoalesced(h: Heap, m: nat)
    requires Coalesced(h) && !Block(h, h.top) && forall a :: Free(h, a) ==> a in h.size
    ensures Coalesced(Extend(h, m))
  {
    var h' := Extend(h, m);
    forall a | Free(h', a) && a in h'.size ensures Apart(h', a) {
      assert Free(h, a) && Apart(h, a);
    }
  }

  lemma ExtendInv(h: Heap, m: nat)
    requires Inv(h) && m > 0
    ensures Inv(Extend(h, m)) && !Block(h, h.top)
  {
    ExtendTiles(h, m);
    ExtendCoalesced(h, m);
    forall a | a in h.free ensures OnRing(Extend(h, m), a) { assert OnRing(h, a); }
  }

  /** Size of the free block that ends at the top, or 0. */
  function TopFree(h: Heap): nat
    requires |h.ring| > 0 && h.ring[|h.ring| - 1] in h.size
  {
    var last := h.ring[|h.ring| - 1];
    if last + h.size[last] == h.top then h.size[last] else 0
  }

  lemma LastSized(h: Heap)
    requires Inv(h)
    ensures h.ring[|h.ring| - 1] in h.size && h.ring[|h.ring| - 1] < h.top
    ensures forall i :: 0 <= i < |h.ring| ==> h.ring[i] in h.size
  {
    forall i | 0 <= i < |h.ring| ensures h.ring[i] in h.size && (i > 0 ==> h.ring[i] < h.top) {
      if i > 0 { assert Free(h, h.ring[i]) && Block(h, h.ring[i]); }
    }
  }

  function Trimmed(s: nat): nat { if s >= TRIM then KEEP else s }

  /** The last block on the ring after growth by m. */
  function GrownRing(h: Heap): seq<nat>
    requires |h.ring| > 0 && h.ring[|h.ring| - 1] in h.size
  {
    if TopFree(h) > 0 then h.ring else h.ring + [h.top]
  }

  /** Merging the new top block, before it is trimmed. */
  lemma TopInsert(h: Heap, m: nat)
    requires |h.ring| > 0 && h.ring[|h.ring| - 1] in h.size && h.ring[|h.ring| - 1] < h.top
    ensures var h1, n := Extend(h, m), |h.ring| - 1;
            && !JoinsNext(h1, h.top, n)
            && Insert(h1, h.top, n).ring == GrownRing(h)
            && Home(h1, h.top, n) == GrownRing(h)[|GrownRing(h)| - 1]
            && Insert(h1, h.top, n).size ==
               h1.size[Home(h1, h.top, n) := TopFree(h) + m]
            && Insert(h1, h.top, n).top == Home(h1, h.top, n) + TopFree(h) + m
  {
    var n := |h.ring| - 1;
    assert h.ring[..n + 1] + [] == h.ring;
    assert h.ring[..n + 1] + [h.top] + [] == h.ring + [h.top];
  }

  /** add_heaptop with a positive argument: the top free block is longer by m, or trimmed. */
  function Grow(h: Heap, m: nat): Heap
    requires |h.ring| > 0 && h.ring[|h.ring| - 1] in h.size
  {
    var x := GrownRing(h)[|GrownRing(h)| - 1];
    h.(ring := GrownRing(h), free := h.free + {x},
       size := h.size[h.top := m][x := Trimmed(TopFree(h) + m)],
       top := x + Trimmed(TopFree(h) + m))
  }

  lemma TrimTop(h: Heap, m: nat)
    requires |h.ring| > 0 && h.ring[|h.ring| - 1] in h.size && h.ring[|h.ring| - 1] < h.top && h.top !in h.live
    requires TopFree(h) > 0 ==> h.ring[|h.ring| - 1] in h.free
    ensures var h1, n := Extend(h, m), |h.ring| - 1;
            !JoinsNext(h1, h.top, n) && Home(h1, h.top, n) in Insert(h1, h.top, n).size
            && Trim(Insert(h1, h.top, n), Home(h1, h.top, n)) == Grow(h, m)
  {
    TopInsert(h, m);
  }

  /** Growth is what freeing the new block does, and keeps the heap's invariant and its live blocks. */
  lemma GrowIsFree(h: Heap, m: nat)
    requires Inv(h) && m > 0
    ensures h.ring[|h.ring| - 1] in h.size && Inv(Extend(h, m)) && Inv(Grow(h, m))
    ensures Grow(h, m) == Released(Extend(h, m), h.top)
    ensures forall a :: a in h.live ==> a in h.size && a in Grow(h, m).size && Grow(h, m).size[a] == h.size[a]
  {
    LastSized(h);
    ExtendInv(h, m);
    var h1, n := Extend(h, m), |h.ring| - 1;
    ReleasedAt(h1, h.top, n);
    TrimTop(h, m);
    forall a | a in h.live ensures a in h.size { assert Block(h, a); }
  }

  /** Growth changes the top free block only: its size is what it was plus m, trimmed. */
  lemma GrowSizes(h: Heap, m: nat)
    requires Inv(h) && m > 0 && h.ring[|h.ring| - 1] in h.size
    ensures var h' := Grow(h, m);
            h'.ring[|h'.ring| - 1] in h'.size && TopFree(h') == Trimmed(TopFree(h) + m)
            && h'.size[h'.ring[|h'.ring| - 1]] == Trimmed(TopFree(h) + m)
            && forall i :: 0 <= i < |h'.ring| - 1 ==>
              i < |h.ring| && h'.ring[i] == h.ring[i] && h.ring[i] in h.size && h.ring[i] in h'.size
              && h'.size[h.ring[i]] == h.size[h.ring[i]]
  {
    LastSized(h);
    var h' := Grow(h, m);
    forall i | 0 <= i < |h'.ring| - 1
      ensures i < |h.ring| && h'.ring[i] == h.ring[i] && h.ring[i] in h.size && h.ring[i] in h'.size
              && h'.size[h.ring[i]] == h.size[h.ring[i]]
    {
      assert h.ring[i] <= h.ring[|h.ring| - 1] < h.top;
      assert TopFree(h) > 0 ==> i < |h.ring| - 1 && h.ring[i] < h.ring[|h.ring| - 1];
    }
  }

  /** If nothing fits before growing, only the top block can fit afterwards. */
  lemma FitsAfterGrow(h: Heap, m: nat, n: nat)
    requires Inv(h) && m > 0 && n > 0 && !Fits(h, n) && h.ring[|h.ring| - 1] in h.size
    ensures Fits(Grow(h, m), n) <==> Trimmed(TopFree(h) + m) >= n
  {
    GrowSizes(h, m);
  }

  // ---- when the search ends

  function Request(n: nat): nat { if n < KEEP then KEEP else n }

  /** The heap after k growths for a request of n units. */
  ghost function GrowN(h: GoodHeap, n: nat, k: nat): GoodHeap
    requires n > 0
  {
    if k == 0 then h
    else
      GrowIsFree(GrowN(h, n, k - 1), Request(n));
      Grow(GrowN(h, n, k - 1), Request(n))
  }

  /** Live blocks are the same, with the same sizes. */
  ghost predicate Keeps(h: Heap, h': Heap) {
    h'.live == h.live && forall a :: a in h.live ==> a in h.size && a in h'.size && h'.size[a] == h.size[a]
  }

  lemma GrowKeeps(h: GoodHeap, n: nat)
    requires n > 0
    ensures h.ring[|h.ring| - 1] in h.size && Keeps(h, Grow(h, n))
  {
    GrowIsFree(h, n);
  }

  lemma {:induction false} GrowNKeeps(h: GoodHeap, n: nat, k: nat)
    requires n > 0
    ensures Keeps(h, GrowN(h, n, k))
  {
    if k == 0 {
      forall a | a in h.live ensures a in h.size { assert Block(h, a); }
    } else {
      var g := GrowN(h, n, k - 1);
      assert Keeps(h, g) by { GrowNKeeps(h, n, k - 1); }
      GrowKeeps(g, Request(n));
    }
  }

  ghost predicate Ends(h: GoodHeap, n: nat)
    requires n > 0
  {
    exists k :: Fits(GrowN(h, n, k), n)
  }

  /** A request that fits nowhere, and whose growth is trimmed away again each time. */
  ghost predicate Stuck(h: Heap, n: nat) {
    n >= BIG && !Fits(h, n) && |h.ring| > 0 && h.ring[|h.ring| - 1] in h.size && TopFree(h) + n >= TRIM
  }

  lemma StuckStep(h: GoodHeap, n: nat)
    requires Stuck(h, n)
    ensures Stuck(Grow(h, Request(n)), n)
  {
    FitsAfterGrow(h, n, n);
    GrowSizes(h, n);
  }

  lemma {:induction false} StuckForever(h: GoodHeap, n: nat, k: nat)
    requires Stuck(h, n)
    ensures Stuck(GrowN(h, n, k), n)
  {
    if k > 0 {
      StuckForever(h, n, k - 1);
      StuckStep(GrowN(h, n, k - 1), n);
    }
  }

  /** Below 768 units two growths are always enough. */
  lemma TwoGrowths(h: GoodHeap, n: nat)
    requires 0 < n < BIG
    ensures Fits(h, n) || Fits(GrowN(h, n, 1), n) || Fits(GrowN(h, n, 2), n)
  {
    if !Fits(h, n) {
      LastSized(h);
      var m := Request(n);
      var h1 := Grow(h, m);
      FitsAfterGrow(h, m, n);
      GrowSizes(h, m);
      assert h == GrowN(h, n, 0) && h1 == GrowN(h, n, 1);
      if !Fits(h1, n) {
        FitsAfterGrow(h1, m, n);
        assert Grow(h1, m) == GrowN(h, n, 2);
      }
    }
  }

  /** malloc's search ends if and only if a free block fits already, or the request is below 768 units, or
      it is below 1024 and the top free block does not push the growth over the trimming threshold. */
  lemma SearchEnds(h: GoodHeap, n: nat)
    requires n > 0
    ensures h.ring[|h.ring| - 1] in h.size
    ensures Ends(h, n) <==> Fits(h, n) || n < BIG || TopFree(h) + n < TRIM
  {
    LastSized(h);
    if Fits(h, n) {
      assert Fits(GrowN(h, n, 0), n);
    } else if n < BIG {
      TwoGrowths(h, n);
    } else if TopFree(h) + n < TRIM {
      FitsAfterGrow(h, n, n);
      assert h == GrowN(h, n, 0) && Grow(h, n) == GrowN(h, n, 1);
    } else {
      forall k ensures !Fits(GrowN(h, n, k), n) { StuckForever(h, n, k); }
    }
  }

  // ---- requests that are never met

  /** The heap before the first malloc. */
  function First(base: nat, brk: nat): Heap { Heap(base, brk, brk, [base], {}, {}, map[base := 0]) }

  /** A program whose first request is for 1024 units or more loops for ever. */
  lemma FirstTooLarge(base: nat, brk: nat, n: nat)
    requires 0 < base < brk && n >= TRIM
    ensures Inv(First(base, brk)) && !Ends(First(base, brk), n)
  {
    var h := First(base, brk);
    assert h.ring[0] == base;
    SearchEnds(h, n);
  }

  /** The heap after a first malloc of two units: a growth of 256, of which the last two are taken. */
  function AfterFirst(base: nat, brk: nat): Heap {
    Heap(base, brk, brk + 256, [base, brk], {brk}, {brk + 254}, map[base := 0, brk := 254, brk + 254 := 2])
  }

  lemma FirstTaken(base: nat, brk: nat, h: GoodHeap, n: nat, k: nat, i: nat)
    requires 0 < base < brk && h == First(base, brk) && n == 2 && k <= 1 && CanTake(GrowN(h, n, k), i, n)
    ensures k == 1 && Taken(GrowN(h, n, k), i, n) == brk + 254 && Take(GrowN(h, n, k), i, n) == AfterFirst(base, brk)
  {
    assert GrowN(h, n, 0) == h;
    assert h.ring[0] == base;
    FirstGrown(base, brk, h);
    TakeTwo(base, brk, GrowN(h, n, 1), i);
  }

  lemma FirstGrown(base: nat, brk: nat, h: GoodHeap)
    requires 0 < base < brk && h == First(base, brk)
    ensures GrowN(h, 2, 1) == Heap(base, brk, brk + 256, [base, brk], {brk}, {}, map[base := 0, brk := 256])
  {
    assert GrowN(h, 2, 0) == h;
    assert GrownRing(h) == [base, brk];
  }

  lemma TakeTwo(base: nat, brk: nat, h: Heap, i: nat)
    requires 0 < base < brk && h == Heap(base, brk, brk + 256, [base, brk], {brk}, {}, map[base := 0, brk := 256])
    requires CanTake(h, i, 2)
    ensures Taken(h, i, 2) == brk + 254 && Take(h, i, 2) == AfterFirst(base, brk)
  {
  }

  /** That block given back is merged with the rest: 256 units at the top, and a request for 768 is never met. One for
      767 would be, as by SearchEnds every smaller one is. */
  lemma FirstGivenBack(base: nat, brk: nat, h: GoodHeap)
    requires 0 < base < brk
    requires h == AfterFirst(base, brk)
    ensures TopSize(Released(h, brk + 254)) == 256
    ensures !Ends(Released(h, brk + 254), BIG) && Ends(Released(h, brk + 254), BIG - 1)
  {
    var bp := brk + 254;
    ReleasedAt(h, bp, 1);
    var h' := Released(h, bp);
    assert h'.ring == [base, brk] && h'.size == map[base := 0, brk := 256, bp := 2] && h'.top == brk + 256;
    SearchEnds(h', BIG);
    SearchEnds(h', BIG - 1);
  }

  ghost function TopSize(h: GoodHeap): nat {
    LastSized(h);
    TopFree(h)
  }
}
