/** user/umalloc.c as it is written: headers in memory, a circular list through them, and a search that
    starts where the last one stopped. The kernel's answers to sbrk are a parameter. */
module Umalloc {
  import opened Options
  import opened Heap
  import opened HeapGrowth

  function After(ring: seq<nat>, i: nat): nat
    requires i < |ring|
  {
    if i + 1 < |ring| then ring[i + 1] else ring[0]
  }

  /** The headers' pointers run round the ring. */
  ghost predicate Chain(ring: seq<nat>, ptr: map<nat, nat>) {
    forall i: nat {:trigger LinkAt(ring, ptr, i)} :: LinkAt(ring, ptr, i)
  }

  predicate LinkAt(ring: seq<nat>, ptr: map<nat, nat>, i: nat) {
    i < |ring| ==> ring[i] in ptr && ptr[ring[i]] == After(ring, i)
  }

  /** r is ring with the e elements after position t replaced by mid. */
  ghost predicate Spliced(r: seq<nat>, ring: seq<nat>, t: nat, mid: seq<nat>, e: nat) {
    && t + 1 + e <= |ring| && |r| == |ring| + |mid| - e
    && (forall i :: 0 <= i <= t ==> r[i] == ring[i])
    && (forall i :: t < i <= t + |mid| ==> r[i] == mid[i - t - 1])
    && (forall i :: t + |mid| < i < |r| ==> r[i] == ring[i - |mid| + e])
  }

  lemma SplicedSplice(ring: seq<nat>, t: nat, mid: seq<nat>, e: nat)
    requires t + 1 + e <= |ring| && |mid| <= 1
    ensures var r := Splice(ring, t, mid, e);
            && Spliced(r, ring, t, mid, e)
            && var next := if t + 1 + e < |ring| then ring[t + 1 + e] else ring[0];
            if mid == [] then After(r, t) == next else After(r, t) == mid[0] && After(r, t + 1) == next
  {
  }

  /** The ring is still a chain if the pointers of r[t] and of what was put after it are right. */
  lemma ChainSplice(r: seq<nat>, ring: seq<nat>, ptr: map<nat, nat>, t: nat, mid: seq<nat>, e: nat, ptr': map<nat, nat>)
    requires Spliced(r, ring, t, mid, e) && |mid| <= 1 && Chain(ring, ptr)
    requires forall i :: 0 <= i < |ring| && i != t ==>
               ring[i] in ptr && ring[i] in ptr' && ptr'[ring[i]] == ptr[ring[i]]
    requires ring[t] in ptr' && ptr'[ring[t]] == After(r, t)
    requires mid != [] ==> mid[0] in ptr' && ptr'[mid[0]] == After(r, t + 1)
    ensures Chain(r, ptr')
  {
    forall i: nat ensures LinkAt(r, ptr', i) {
      if i < |r| && i != t && !(mid != [] && i == t + 1) {
        var j := if i < t then i else i - |mid| + e;
        assert LinkAt(ring, ptr, j) && r[i] == ring[j] && After(r, i) == After(ring, j);
      }
    }
  }

  /** The pointers after bp is linked in at position t. */
  function LinkedPtr(h: Heap, ptr: map<nat, nat>, bp: nat, t: nat): map<nat, nat>
    requires t < |h.ring| && bp in h.size && h.ring[t] in h.size
  {
    var next := if JoinsNext(h, bp, t) then After(h.ring, t + 1) else After(h.ring, t);
    ptr[bp := next][h.ring[t] := if JoinsPrev(h, bp, t) then next else bp]
  }

  lemma OnChain(ring: seq<nat>, ptr: map<nat, nat>)
    requires Chain(ring, ptr)
    ensures forall i :: 0 <= i < |ring| ==> ring[i] in ptr
  {
    forall i | 0 <= i < |ring| ensures ring[i] in ptr { assert LinkAt(ring, ptr, i); }
  }

  lemma LinkChain(h: Heap, ptr: map<nat, nat>, bp: nat, t: nat)
    requires Ordered(h.ring) && Chain(h.ring, ptr) && bp !in h.ring
    requires t < |h.ring| && bp in h.size && h.ring[t] in h.size
    requires JoinsNext(h, bp, t) ==> h.ring[t + 1] in h.size
    ensures Chain(Insert(h, bp, t).ring, LinkedPtr(h, ptr, bp, t))
  {
    var mid, e := InsertIsSplice(h, bp, t);
    SplicedSplice(h.ring, t, mid, e);
    OnChain(h.ring, ptr);
    assert LinkAt(h.ring, ptr, t) && LinkAt(h.ring, ptr, t + 1);
    ChainSplice(Insert(h, bp, t).ring, h.ring, ptr, t, mid, e, LinkedPtr(h, ptr, bp, t));
  }

  /** What the headers around bp's place say. */
  lemma PlaceFacts(h: Heap, ptr: map<nat, nat>, bp: nat, t: nat)
    requires CanFree(h, bp, t) && Chain(h.ring, ptr)
    ensures bp in h.size && h.ring[t] in h.size && h.ring[t] in ptr && bp !in h.ring
    ensures bp + h.size[bp] == ptr[h.ring[t]] <==> JoinsNext(h, bp, t)
    ensures JoinsNext(h, bp, t) ==>
              ptr[h.ring[t]] == h.ring[t + 1] && h.ring[t + 1] in h.size && h.ring[t + 1] in ptr
              && ptr[h.ring[t + 1]] == After(h.ring, t + 1)
    ensures ptr[h.ring[t]] == After(h.ring, t)
  {
    Neighbours(h, bp, t);
    assert LinkAt(h.ring, ptr, t) && LinkAt(h.ring, ptr, t + 1);
    forall i | 0 <= i < |h.ring| ensures h.ring[i] != bp {
      assert i <= t || h.ring[i] >= h.ring[t + 1];
    }
  }

  /** What free's stores make of the headers: bp linked in after p, b the block it ends up in. */
  predicate Stored(ptr: map<nat, nat>, size: map<nat, nat>, bp: nat, p: nat,
                   ptr': map<nat, nat>, size': map<nat, nat>, b: nat)
    requires bp in size && p in ptr && p in size
  {
    var joins := bp + size[bp] == ptr[p];
    (joins ==> ptr[p] in size && ptr[p] in ptr)
    && var s := if joins then size[bp] + size[ptr[p]] else size[bp];
    var next := if joins then ptr[ptr[p]] else ptr[p];
    if p + size[p] == bp
    then b == p && size' == size[bp := s][p := size[p] + s] && ptr' == ptr[bp := next][p := next]
    else b == bp && size' == size[bp := s] && ptr' == ptr[bp := next][p := bp]
  }

  lemma StoredIsInsert(h: Heap, ptr: map<nat, nat>, bp: nat, t: nat, ptr': map<nat, nat>, size': map<nat, nat>, b: nat)
    requires CanFree(h, bp, t) && Chain(h.ring, ptr)
    requires bp in h.size && h.ring[t] in h.size && h.ring[t] in ptr
    requires Stored(ptr, h.size, bp, h.ring[t], ptr', size', b)
    ensures JoinsNext(h, bp, t) ==> h.ring[t + 1] in h.size
    ensures size' == Insert(h, bp, t).size && b == Home(h, bp, t)
    ensures Chain(Insert(h, bp, t).ring, ptr') && h.ring[t] in Insert(h, bp, t).ring
  {
    PlaceFacts(h, ptr, bp, t);
    LinkChain(h, ptr, bp, t);
    assert ptr' == LinkedPtr(h, ptr, bp, t);
    assert Insert(h, bp, t).ring[t] == h.ring[t];
  }

  lemma LandsFree(h: Heap, bp: nat, t: nat)
    requires CanFree(h, bp, t)
    ensures bp in h.size && h.ring[t] in h.size && (JoinsNext(h, bp, t) ==> h.ring[t + 1] in h.size)
    ensures Home(h, bp, t) in Insert(h, bp, t).free
  {
    InsertBlocks(h, bp, t);
    assert Free(Insert(h, bp, t), Home(h, bp, t));
  }

  ghost predicate Linkable(h: Heap, bp: nat) {
    && Inv(h) && bp in h.live && h.ring[0] < bp && bp in h.size
    && var t := Locate(h.ring, bp);
    h.ring[t] in h.size && (JoinsNext(h, bp, t) ==> h.ring[t + 1] in h.size)
  }

  ghost function LinkedIn(h: Heap, bp: nat): Heap
    requires Linkable(h, bp)
  {
    Insert(h, bp, Locate(h.ring, bp))
  }

  ghost function Landed(h: Heap, bp: nat): nat
    requires Linkable(h, bp)
  {
    Home(h, bp, Locate(h.ring, bp))
  }

  /** d steps round the ring from position f. */
  function Idx(f: nat, d: nat, n: nat): nat
    requires f < n && d <= n
    ensures Idx(f, d, n) < n
  {
    if f + d < n then f + d else f + d - n
  }

  predicate Small(size: map<nat, nat>, a: nat, n: nat) { a in size && size[a] < n }

  lemma NextIdx(ring: seq<nat>, f: nat, d: nat)
    requires f < |ring| && d < |ring|
    ensures After(ring, Idx(f, d, |ring|)) == ring[Idx(f, d + 1, |ring|)]
  {
  }

  predicate SmallAt(ring: seq<nat>, size: map<nat, nat>, f: nat, e: nat, n: nat) {
    f < |ring| && e <= |ring| && Small(size, ring[Idx(f, e, |ring|)], n)
  }

  /** The blocks 1 to d - 1 steps on from position f are too small. */
  ghost predicate Passed(ring: seq<nat>, size: map<nat, nat>, f: nat, d: nat, n: nat) {
    forall e {:trigger SmallAt(ring, size, f, e, n)} :: 1 <= e < d ==> SmallAt(ring, size, f, e, n)
  }

  /** Position i of the ring is the first, from the one after freep's on, whose block has n units. */
  ghost predicate FirstFit(h: Heap, freep: nat, n: nat, i: nat) {
    exists f: nat, d: nat {:trigger Passed(h.ring, h.size, f, d, n)} ::
      && f < |h.ring| && h.ring[f] == freep && 1 <= d <= |h.ring| && i == Idx(f, d, |h.ring|)
      && Passed(h.ring, h.size, f, d, n)
  }

  lemma PassedStep(ring: seq<nat>, size: map<nat, nat>, f: nat, d: nat, n: nat)
    requires Passed(ring, size, f, d, n) && SmallAt(ring, size, f, d, n)
    ensures Passed(ring, size, f, d + 1, n)
  {
  }

  lemma BackAtStart(ring: seq<nat>, f: nat, d: nat)
    requires Ordered(ring) && f < |ring| && 1 <= d <= |ring|
    ensures ring[Idx(f, d, |ring|)] == ring[f] <==> d == |ring|
  {
    var i := Idx(f, d, |ring|);
    assert i != f ==> ring[i] < ring[f] || ring[f] < ring[i];
  }

  /** A whole turn round the ring passes every block. */
  lemma AllSmall(ring: seq<nat>, size: map<nat, nat>, f: nat, n: nat)
    requires f < |ring| && Passed(ring, size, f, |ring| + 1, n)
    ensures forall i :: 0 <= i < |ring| ==> Small(size, ring[i], n)
  {
    forall i | 0 <= i < |ring| ensures Small(size, ring[i], n) {
      var e := if i > f then i - f else i + |ring| - f;
      assert SmallAt(ring, size, f, e, n) && i == Idx(f, e, |ring|);
    }
  }

  /** One turn of malloc's search, from the block after freep to freep itself: the first block large
      enough, d steps on from freep's position f. */
  method Scan(ptr: map<nat, nat>, size: map<nat, nat>, freep: nat, n: nat, ghost ring: seq<nat>)
    returns (fit: bool, prevp: nat, p: nat, ghost f: nat, ghost d: nat)
    requires Chain(ring, ptr) && freep in ring && Ordered(ring)
    requires forall i :: 0 <= i < |ring| ==> ring[i] in size
    ensures f < |ring| && ring[f] == freep && 1 <= d <= |ring|
    ensures fit ==> p == ring[Idx(f, d, |ring|)] && prevp == ring[Idx(f, d - 1, |ring|)] && size[p] >= n
    ensures fit ==> Passed(ring, size, f, d, n)
    ensures !fit ==> forall i :: 0 <= i < |ring| ==> Small(size, ring[i], n)
  {
    f :| 0 <= f < |ring| && ring[f] == freep;
    assert LinkAt(ring, ptr, f);
    NextIdx(ring, f, 0);
    prevp := freep;
    p := ptr[prevp];
    d := 1;
    while true
      invariant 1 <= d <= |ring|
      invariant p == ring[Idx(f, d, |ring|)] && prevp == ring[Idx(f, d - 1, |ring|)]
      invariant Passed(ring, size, f, d, n)
      decreases |ring| - d
    {
      if size[p] >= n {
        return true, prevp, p, f, d;
      }
      PassedStep(ring, size, f, d, n);
      BackAtStart(ring, f, d);
      if p == freep {
        AllSmall(ring, size, f, n);
        return false, prevp, p, f, d;
      }
      NextIdx(ring, f, d);
      assert LinkAt(ring, ptr, Idx(f, d, |ring|));
      prevp := p;
      p := ptr[p];
      d := d + 1;
    }
  }

  lemma DropChain(ring: seq<nat>, ptr: map<nat, nat>, i: nat)
    requires 1 <= i < |ring| && Ordered(ring) && Chain(ring, ptr)
    ensures ring[i] in ptr && Chain(ring[..i] + ring[i + 1..], ptr[ring[i - 1] := ptr[ring[i]]])
    ensures ring[i - 1] in ring[..i] + ring[i + 1..]
  {
    var r := ring[..i] + ring[i + 1..];
    assert r == Splice(ring, i - 1, [], 1);
    SplicedSplice(ring, i - 1, [], 1);
    OnChain(ring, ptr);
    assert LinkAt(ring, ptr, i) && LinkAt(ring, ptr, i - 1);
    ChainSplice(r, ring, ptr, i - 1, [], 1, ptr[ring[i - 1] := ptr[ring[i]]]);
    assert r[i - 1] == ring[i - 1];
  }

  function Units(nbytes: nat): nat { (nbytes + 15) / 16 + 1 }

  /** Whether the kernel grants the k-th growth. */
  predicate Granted(avail: seq<bool>, k: nat) { k < |avail| && avail[k] }

  /** The search for n units failed in the heap and in each of its first k growths. */
  ghost predicate Tried(h: GoodHeap, n: nat, k: nat)
    requires n > 0
  {
    forall j: nat {:trigger FailedAt(h, n, j)} :: j < k ==> FailedAt(h, n, j)
  }

  ghost predicate FailedAt(h: GoodHeap, n: nat, j: nat)
    requires n > 0
  {
    !Fits(GrowN(h, n, j), n)
  }

  lemma TriedStep(h: GoodHeap, n: nat, k: nat)
    requires n > 0 && Tried(h, n, k) && !Fits(GrowN(h, n, k), n)
    ensures Tried(h, n, k + 1)
  {
    assert FailedAt(h, n, k);
  }

  ghost predicate AllGranted(avail: seq<bool>, k: nat) {
    k <= |avail| && forall j :: 0 <= j < k ==> avail[j]
  }

  lemma GrantedStep(avail: seq<bool>, k: nat)
    requires AllGranted(avail, k) && Granted(avail, k)
    ensures AllGranted(avail, k + 1)
  {
  }

  lemma TriedBound(h: GoodHeap, n: nat, k: nat)
    requires n > 0 && Tried(h, n, k)
    ensures n < BIG ==> k <= 2
  {
    if n < BIG {
      TwoGrowths(h, n);
      assert h == GrowN(h, n, 0);
      assert !FailedAt(h, n, 0) || !FailedAt(h, n, 1) || !FailedAt(h, n, 2);
    }
  }

  ghost predicate Given(h: GoodHeap, h': GoodHeap, r: nat, n: nat) {
    && r !in h.live && h'.live == h.live + {r} && r in h'.size && h'.size[r] == n
    && forall a :: a in h.live ==> a in h.size && a in h'.size && h'.size[a] == h.size[a]
  }

  lemma TakeGiven(h: GoodHeap, n: nat, k: nat, i: nat)
    requires n > 0 && CanTake(GrowN(h, n, k), i, n)
    ensures Inv(Take(GrowN(h, n, k), i, n))
    ensures Given(h, Take(GrowN(h, n, k), i, n), Taken(GrowN(h, n, k), i, n), n)
  {
    GrowNKeeps(h, n, k);
    TakeInv(GrowN(h, n, k), i, n);
  }

  class Allocator {
    const base: nat
    var ptr: map<nat, nat>
    var size: map<nat, nat>
    var freep: nat     // 0 is the null pointer
    var heaptop: nat
    var brk: nat       // the kernel's break; only this allocator moves it
    ghost var h: GoodHeap

    ghost predicate Valid()
      reads this
    {
      && h.base == base && h.top == brk && h.size == size
      && (heaptop == brk || (heaptop == 0 && h.live == {} && h.free == {}))
      && if freep == 0 then h.ring == [base] && h.live == {}
         else freep in h.ring && Chain(h.ring, ptr)
    }

    constructor (base: nat, brk: nat)
      requires 0 < base < brk
      ensures Valid() && h == First(base, brk) && this.base == base
    {
      this.base := base;
      ptr, size, freep, heaptop := map[], map[base := 0], 0, 0;
      this.brk := brk;
      h := Heap(base, brk, brk, [base], {}, {}, map[base := 0]);
    }

    /** The search loop of free: from anywhere on the ring to the block's place. */
    method Place(bp: nat) returns (p: nat)
      requires Valid() && freep != 0 && bp in h.live
      ensures h.ring[0] < bp && p == h.ring[Locate(h.ring, bp)]
    {
      LocateFree(h, bp);
      ghost var t := Locate(h.ring, bp);
      ghost var n := |h.ring|;
      p := freep;
      ghost var k :| 0 <= k < n && h.ring[k] == p;
      assert LinkAt(h.ring, ptr, k);
      while !(bp > p && bp < ptr[p])
        invariant 0 <= k < n && h.ring[k] == p && LinkAt(h.ring, ptr, k)
        decreases if k <= t then t - k else t - k + n
      {
        if p >= ptr[p] && (bp > p || bp < ptr[p]) { break; }
        p := ptr[p];
        k := if k + 1 < n then k + 1 else 0;
        assert LinkAt(h.ring, ptr, k);
      }
    }

    /** The stores of free that link bp in after p. */
    method Stores(bp: nat, p: nat) returns (b: nat)
      requires bp in size && p in ptr && p in size && p != bp
      requires bp + size[bp] == ptr[p] ==> ptr[p] in size && ptr[p] in ptr
      modifies this`ptr, this`size, this`freep
      ensures freep == p && Stored(old(ptr), old(size), bp, p, ptr, size, b)
    {
      b := bp;
      if bp + size[bp] == ptr[p] {
        size := size[bp := size[bp] + size[ptr[p]]];
        ptr := ptr[bp := ptr[ptr[p]]];
      } else {
        ptr := ptr[bp := ptr[p]];
      }
      if p + size[p] == bp {
        size := size[p := size[p] + size[bp]];
        ptr := ptr[p := ptr[bp]];
        b := p;
      } else {
        ptr := ptr[p := bp];
      }
      freep := p;
    }

    /** free up to the trimming: the block goes on the list, merged with the free blocks it touches. */
    method Link(bp: nat) returns (b: nat)
      requires Valid() && freep != 0 && bp in h.live
      modifies this`ptr, this`size, this`freep, this`h
      ensures Valid() && freep != 0
      ensures Linkable(old(h), bp) && h == LinkedIn(old(h), bp) && b == Landed(old(h), bp)
    {
      var p := Place(bp);
      LocateFree(h, bp);
      ghost var t := Locate(h.ring, bp);
      PlaceFacts(h, ptr, bp, t);
      ghost var ptr0 := ptr;
      b := Stores(bp, p);
      StoredIsInsert(h, ptr0, bp, t, ptr, size, b);
      InsertInv(h, bp, t);
      h := Insert(h, bp, t);
    }

    /** free, the trimming: a block at the top that has grown to TRIM units gives back all but KEEP. */
    method GiveBack(b: nat)
      requires Valid() && freep != 0 && b in h.free
      modifies this
      ensures Valid() && freep == old(freep) && b in old(h).size && h == Trim(old(h), b)
      decreases 1
    {
      TrimInv(h, b);
      ghost var h' := Trim(h, b);
      if b + size[b] >= heaptop && size[b] >= TRIM {
        var _ := AddHeaptop(KEEP - size[b], true);
        size := size[b := KEEP];
        h := h';
      }
    }

    /** free */
    method Free(bp: nat)
      requires Valid() && freep != 0 && bp in h.live
      modifies this
      ensures Valid() && freep != 0 && h == Released(old(h), bp)
      decreases 2
    {
      LocateFree(h, bp);
      ReleasedAt(h, bp, Locate(h.ring, bp));
      ghost var at := Home(h, bp, Locate(h.ring, bp));
      assert at in Insert(h, bp, Locate(h.ring, bp)).free by { LandsFree(h, bp, Locate(h.ring, bp)); }
      var b: nat := Link(bp);
      GiveBack(b);
    }

    /** add_heaptop up to its call of free: the new memory is one block, about to be freed. */
    method NewTop(nu: nat) returns (hp: nat)
      requires Valid() && freep != 0 && nu > 0
      modifies this`brk, this`size, this`heaptop, this`h
      ensures Valid() && hp == old(h).top && h == Extend(old(h), nu)
    {
      hp := brk;
      brk := brk + nu;
      size := size[hp := nu];
      heaptop := hp + nu;
      ExtendInv(h, nu);
      h := Extend(h, nu);
    }

    /** add_heaptop: `ok` is the kernel's answer to sbrk. Giving memory back never fails. */
    method AddHeaptop(nu: int, ok: bool) returns (r: nat)
      requires nu > 0 ==> Valid() && freep != 0
      requires nu <= 0 ==> ok && 0 <= heaptop + nu && 0 <= brk + nu
      modifies this
      ensures nu > 0 && ok ==> Valid() && r == freep != 0
                               && |old(h).ring| > 0 && old(h).ring[|old(h).ring| - 1] in old(h).size
                               && h == Grow(old(h), nu)
      ensures nu <= 0 || !ok ==> r == 0 && ptr == old(ptr) && size == old(size) && freep == old(freep) && h == old(h)
      ensures nu <= 0 ==> brk == old(brk) + nu && heaptop == old(heaptop) + nu
      ensures !ok ==> brk == old(brk) && heaptop == old(heaptop)
      decreases if nu > 0 then 3 else 0
    {
      if !ok { return 0; }
      if nu > 0 {
        var hp := NewTop(nu);
        Free(hp);
        GrowIsFree(old(h), nu);
        return freep;
      } else {
        brk := brk + nu;
        heaptop := heaptop + nu;
        return 0;
      }
    }

    /** malloc when the block it found is exactly large enough. */
    method TakeAll(prevp: nat, p: nat, n: nat, ghost i: nat)
      requires Valid() && freep != 0 && CanTake(h, i, n) && 1 <= i && size[h.ring[i]] == n
      requires p == h.ring[i] && prevp == h.ring[i - 1]
      modifies this`ptr, this`freep, this`h
      ensures Valid() && freep == prevp != 0 && h == Take(old(h), i, n)
    {
      ghost var h' := Take(h, i, n);
      assert Inv(h') by { TakeInv(h, i, n); }
      assert LinkAt(h.ring, ptr, i) && LinkAt(h.ring, ptr, i - 1);
      assert Chain(h'.ring, ptr[prevp := ptr[p]]) && prevp in h'.ring by { DropChain(h.ring, ptr, i); }
      ptr := ptr[prevp := ptr[p]];
      freep := prevp;
      h := h';
    }

    /** malloc when the block it found is larger: its tail end is cut off. */
    method TakeTail(prevp: nat, p: nat, n: nat, ghost i: nat) returns (r: nat)
      requires Valid() && freep != 0 && CanTake(h, i, n) && 1 <= i && size[h.ring[i]] > n
      requires p == h.ring[i] && prevp == h.ring[i - 1]
      modifies this`size, this`freep, this`h
      ensures Valid() && freep == prevp != 0 && h == Take(old(h), i, n) && r == Taken(old(h), i, n)
    {
      ghost var h' := Take(h, i, n);
      assert Inv(h') by { TakeInv(h, i, n); }
      size := size[p := size[p] - n];
      r := p + size[p];
      size := size[r := n];
      freep := prevp;
      h := h';
    }

    /** One pass of malloc: take the first block that fits, going round the ring from the block after freep. */
    method TakeFirst(n: nat) returns (r: Option<nat>, ghost i: nat)
      requires Valid() && freep != 0 && n >= 1
      modifies this`ptr, this`size, this`freep, this`h
      ensures Valid() && freep != 0
      ensures r.Some? ==> CanTake(old(h), i, n) && h == Take(old(h), i, n) && r.value == Taken(old(h), i, n)
      ensures r.Some? ==> FirstFit(old(h), old(freep), n, i)
      ensures r.None? ==> h == old(h) && !Fits(h, n)
    {
      LastSized(h);
      var fit, prevp, p; ghost var f, d;
      fit, prevp, p, f, d := Scan(ptr, size, freep, n, h.ring);
      if !fit {
        assert forall i :: 0 <= i < |h.ring| ==> Small(size, h.ring[i], n);
        return None, 0;
      }
      i := Idx(f, d, |h.ring|);
      assert i > 0 && Idx(f, d - 1, |h.ring|) == i - 1;
      if size[p] == n {
        TakeAll(prevp, p, n, i);
        r := Some(p);
      } else {
        var q := TakeTail(prevp, p, n, i);
        r := Some(q);
      }
    }

    /** One pass of malloc, and the growth that follows if nothing fits; `ok` is the kernel's answer. */
    method TryOnce(n: nat, ok: bool) returns (r: Option<nat>, grew: bool, ghost i: nat)
      requires Valid() && freep != 0 && n >= 1
      modifies this
      ensures Valid() && freep != 0
      ensures r.Some? ==> CanTake(old(h), i, n) && h == Take(old(h), i, n) && r.value == Taken(old(h), i, n)
      ensures r.None? ==> grew == ok && !Fits(old(h), n)
      ensures r.None? && grew ==> |old(h).ring| > 0 && old(h).ring[|old(h).ring| - 1] in old(h).size
                                  && h == Grow(old(h), Request(n))
      ensures r.None? && !grew ==> h == old(h)
    {
      grew := false;
      r, i := TakeFirst(n);
      if r.None? {
        var p := AddHeaptop(if n < KEEP then KEEP else n, ok);
        grew := p != 0;
      }
    }

    /** malloc's loop. `avail` holds the kernel's answers to the growths asked for; past its end it
        refuses. */
    method SearchAndGrow(n: nat, avail: seq<bool>) returns (r: Option<nat>, grows: nat, ghost i: nat)
      requires Valid() && freep != 0 && n >= 1
      modifies this
      ensures Valid() && freep != 0 && AllGranted(avail, grows)
      ensures r.Some? ==> Tried(old(h), n, grows) && CanTake(GrowN(old(h), n, grows), i, n)
                          && h == Take(GrowN(old(h), n, grows), i, n) && r.value == Taken(GrowN(old(h), n, grows), i, n)
      ensures r.None? ==> Tried(old(h), n, grows + 1) && !Granted(avail, grows) && h == GrowN(old(h), n, grows)
    {
      grows := 0;
      while true
        invariant Valid() && freep != 0 && h == GrowN(old(h), n, grows)
        invariant Tried(old(h), n, grows) && AllGranted(avail, grows)
        decreases |avail| - grows
      {
        var grew: bool;
        r, grew, i := TryOnce(n, grows < |avail| && avail[grows]);
        if r.Some? { return; }
        TriedStep(old(h), n, grows);
        if !grew { return; }
        GrantedStep(avail, grows);
        grows := grows + 1;
      }
    }

    /** malloc: live blocks keep their place and size; the block returned is a new one; a request below
        768 units needs at most two growths. */
    method Malloc(nbytes: nat, avail: seq<bool>) returns (r: Option<nat>, grows: nat, ghost i: nat)
      requires Valid()
      modifies this
      ensures Valid() && AllGranted(avail, grows)
      ensures r.Some? ==> Given(old(h), h, r.value, Units(nbytes)) && freep != 0
      ensures r.Some? ==> var h1 := GrowN(old(h), Units(nbytes), grows);
                          CanTake(h1, i, Units(nbytes)) && h == Take(h1, i, Units(nbytes))
                          && r.value == Taken(h1, i, Units(nbytes))
      ensures r.None? ==> !Granted(avail, grows) && h == GrowN(old(h), Units(nbytes), grows)
      ensures Tried(old(h), Units(nbytes), if r.Some? then grows else grows + 1)
      ensures Units(nbytes) < BIG ==> grows <= 2 && (Granted(avail, 0) && Granted(avail, 1) ==> r.Some?)
    {
      if freep == 0 {
        ptr := ptr[base := base];
        freep := base;
      }
      r, grows, i := SearchAndGrow(Units(nbytes), avail);
      TriedBound(old(h), Units(nbytes), if r.Some? then grows else grows + 1);
      if r.Some? { TakeGiven(old(h), Units(nbytes), grows, i); }
    }
  }

  /** The smallest request that is not always met: after one malloc and one free, 768 units are searched for without
      end. */
  method NeverMet(base: nat, brk: nat) returns (a: Allocator)
    requires 0 < base < brk
    ensures a.Valid() && !Ends(a.h, BIG) && Ends(a.h, BIG - 1)
  {
    var p: nat;
    a, p := FirstMalloc(base, brk);
    FirstGivenBack(base, brk, a.h);
    a.Free(p);
  }

  method FirstMalloc(base: nat, brk: nat) returns (a: Allocator, p: nat)
    requires 0 < base < brk
    ensures fresh(a) && a.Valid() && a.freep != 0 && p == brk + 254 && a.h == AfterFirst(base, brk)
  {
    a := new Allocator(base, brk);
    ghost var h0, n := a.h, Units(1);
    assert n == 2;
    var r, grows, i := a.Malloc(1, [true]);
    FirstAnswer(base, brk, h0, n, r.None?, grows);
    p := r.value;
    FirstTaken(base, brk, h0, n, grows, i);
  }

  lemma FirstAnswer(base: nat, brk: nat, h: GoodHeap, n: nat, none: bool, grows: nat)
    requires 0 < base < brk && h == First(base, brk) && n == 2 && AllGranted([true], grows)
    requires none ==> !Granted([true], grows)
    requires Tried(h, n, if none then grows + 1 else grows)
    ensures !none && grows <= 1
  {
    if none {
      assert FailedAt(h, n, 1);
      FirstFits(base, brk);
    }
  }

  lemma FirstFits(base: nat, brk: nat)
    requires 0 < base < brk && Inv(First(base, brk))
    ensures Fits(GrowN(First(base, brk), 2, 1), 2)
  {
    assert GrowN(First(base, brk), 2, 0) == First(base, brk);
    var h1 := GrowN(First(base, brk), 2, 1);
    assert h1.ring[1] == brk && h1.size[brk] == 256;
  }
}
