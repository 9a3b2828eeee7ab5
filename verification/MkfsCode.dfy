/** mkfs/mkfs.c: the image is built with blocks taken in order, and ends up with the ownership and contents the
    kernel expects. */
module MkfsCode {
  import opened Bytes
  import opened FsDisk
  import opened FsState
  import opened FsBitmap
  import opened FsContents
  import FsCode

  function UpTo(n: nat): (r: set<nat>)
    ensures forall b: nat :: b in r <==> b < n
  {
    if n == 0 then {} else UpTo(n - 1) + {n - 1}
  }

  function ZeroBlocks(lo: nat, n: nat): (m: map<nat, seq<nat>>)
    ensures forall b: nat :: b in m <==> lo <= b < lo + n
    ensures forall b: nat :: b in m ==> m[b] == Zeros()
  {
    if n == 0 then map[] else ZeroBlocks(lo, n - 1)[lo + n - 1 := Zeros()]
  }

  const EMPTY: Inode := Inode(0, 0, 0, NOADDRS)

  function NoInodes(n: nat): (r: seq<Inode>)
    ensures |r| == n && forall i :: 0 <= i < n ==> r[i] == EMPTY
  {
    seq(n, i => EMPTY)
  }

  /** The image before anything is in it: every block zero. */
  function Blank(size: nat, nmeta: nat, ninodes: nat): View
    requires nmeta <= size
  {
    View(size, nmeta, UpTo(nmeta), ZeroBlocks(nmeta, size - nmeta), NoInodes(ninodes), map[], {})
  }

  lemma BlankOk(size: nat, nmeta: nat, ninodes: nat)
    requires 0 < nmeta <= size < 0x1_0000_0000
    ensures FsOk(Blank(size, nmeta, ninodes))
  {
    var s := Blank(size, nmeta, ninodes);
    forall i ensures InodeOk(s, i) { }
    forall b ensures BlockOk(s, b) { }
    forall r ensures RefOk(s, r) { assert HasInode(s, r.i) ==> s.inodes[r.i] == EMPTY; }
    forall b ensures BitOk(s, b) { }
  }

  /** The number of blocks of a file, with its indirect block. */
  function BlocksFor(size: nat): nat { (size + BSIZE - 1) / BSIZE + if size > NDIRECT * BSIZE then 1 else 0 }

  predicate BlockIn(s: View, i: nat, end: nat, bn: nat) {
    bn < MAXFILE ==> (At(s, Place(i, bn)) != 0 <==> bn * BSIZE < end)
  }

  /** Inode i has exactly the blocks of a file of `end` bytes. */
  ghost predicate Extent(s: View, i: nat, end: nat) {
    && i < |s.inodes| && end <= MAXFILE * BSIZE && (At(s, Ind(i)) != 0 <==> end > NDIRECT * BSIZE)
    && forall bn {:trigger BlockIn(s, i, end, bn)} :: BlockIn(s, i, end, bn)
  }

  class Image {
    const size: nat                    // FSSIZE
    const nmeta: nat
    var freeblock: nat
    var freeinode: nat
    var blocks: map<nat, seq<nat>>
    var inodes: seq<Inode>
    ghost var g: Fs

    /** Exactly the blocks below freeblock are in use; those above are still zero. */
    ghost predicate TakenOk(b: nat)
      reads this`freeblock, this`g
    {
      && (b in g.used <==> b < freeblock)
      && (freeblock <= b < g.size ==> b in g.blocks && g.blocks[b] == Zeros())
    }

    ghost predicate Consistent()
      reads this
    {
      && g.size == size && g.nmeta == nmeta && nmeta <= freeblock <= size && blocks == g.blocks && inodes == g.inodes
      && forall b {:trigger TakenOk(b)} :: TakenOk(b)
    }

    /** The inodes below freeinode, but for number 0, are allocated. */
    ghost predicate KindOk(i: nat)
      reads this`inodes, this`freeinode
    {
      i < |inodes| ==> if 1 <= i < freeinode then inodes[i].kind != 0 else inodes[i].kind == 0 && inodes[i].size == 0
    }

    ghost predicate Inodes()
      reads this
    {
      1 <= freeinode <= |inodes| && g.held == {} && forall i {:trigger KindOk(i)} :: KindOk(i)
    }

    /** Inode i has exactly the blocks its size calls for. */
    ghost predicate Exact(i: nat)
      reads this`g
    {
      i < |g.inodes| ==> Extent(g, i, g.inodes[i].size)
    }

    ghost predicate Valid()
      reads this
    {
      Consistent() && Inodes() && forall i {:trigger Exact(i)} :: Exact(i)
    }

    constructor (size: nat, nmeta: nat, ninodes: nat)
      requires 0 < nmeta <= size < 0x1_0000_0000 && ninodes > 0
      ensures Valid() && freeblock == nmeta && freeinode == 1 && |inodes| == ninodes && this.size == size
      ensures this.nmeta == nmeta
    {
      BlankOk(size, nmeta, ninodes);
      this.size, this.nmeta, freeblock, freeinode := size, nmeta, nmeta, 1;
      blocks, inodes := ZeroBlocks(nmeta, size - nmeta), NoInodes(ninodes);
      g := Blank(size, nmeta, ninodes);
      new;
      forall i: nat ensures Exact(i) && KindOk(i) {
        if i < |inodes| {
          forall bn: nat ensures BlockIn(g, i, 0, bn) { assert g.inodes[i] == EMPTY; }
        }
      }
    }

    /** ialloc: the next inode, of the given type and with one link. */
    method Ialloc(kind: nat) returns (i: nat)
      requires Valid() && kind != 0 && freeinode < |inodes|
      modifies this`freeinode, this`inodes, this`g
      ensures Valid() && i == old(freeinode) && freeinode == i + 1 && freeblock == old(freeblock)
      ensures inodes == old(inodes)[i := Inode(kind, 1, 0, NOADDRS)]
    {
      i := freeinode;
      assert KindOk(i) && Exact(i);
      ghost var s := g;
      ExtentNone(g, i);
      NoAddrs(g, i);
      var n := Inode(kind, 1, 0, NOADDRS);
      WithInodeOk(g, i, n);
      freeinode := freeinode + 1;
      inodes := inodes[i := n];
      Settle(WithInode(g, i, n));
      forall j: nat ensures KindOk(j) { assert old(KindOk(j)); }
      forall j: nat ensures Exact(j) {
        assert old(Exact(j));
        if j < |g.inodes| { ExtentSame(s, g, j, g.inodes[j].size); }
      }
    }

    /** freeblock++ */
    method NextBlock() returns (b: nat)
      requires Consistent() && freeblock < size
      modifies this`freeblock, this`g
      ensures Consistent() && freeblock == old(freeblock) + 1 && b == old(freeblock)
      ensures InData(old(g), b) && b !in old(g).used && g == Alloc(old(g), b)
    {
      b := freeblock;
      assert TakenOk(b);
      AllocOk(g, b);
      freeblock := freeblock + 1;
      g := Alloc(g, b);
      assert g.blocks == old(g.blocks);
      forall c: nat ensures TakenOk(c) { assert old(TakenOk(c)); }
    }

    ghost method Settle(next: Fs)
      requires g.size == next.size && g.nmeta == next.nmeta && next.used == g.used
      requires forall b {:trigger TakenOk(b)} :: TakenOk(b)
      requires forall b :: b in g.blocks && b !in g.used ==> b in next.blocks && next.blocks[b] == g.blocks[b]
      modifies this`g
      ensures g == next && forall b {:trigger TakenOk(b)} :: TakenOk(b)
    {
      g := next;
      forall c: nat ensures TakenOk(c) { assert old(TakenOk(c)); }
    }

    /** iappend: block fbn of inode i, taken if there is none. */
    method MapBlock(i: nat, fbn: nat) returns (x: nat)
      requires Consistent() && HasInode(g, i) && fbn < MAXFILE && freeblock + Missing(g, i, fbn) <= size
      modifies this`freeblock, this`blocks, this`inodes, this`g
      ensures Consistent() && freeblock == old(freeblock) + Missing(old(g), i, fbn)
      ensures Grown(old(g), g, {Ind(i), Place(i, fbn)}) && x == At(g, Place(i, fbn)) && x != 0
      ensures At(old(g), Place(i, fbn)) == 0 ==> x in g.blocks && g.blocks[x] == Zeros()
      ensures At(g, Ind(i)) != 0 <==> At(old(g), Ind(i)) != 0 || fbn >= NDIRECT
    {
      if fbn < NDIRECT {
        x := MapDirect(i, fbn);
        assert At(g, Ind(i)) == At(old(g), Ind(i));
      } else {
        ghost var s := g;
        var ind := MapInd(i);
        ghost var s1 := g;
        assert At(s1, Entry(i, fbn - NDIRECT)) == At(s, Entry(i, fbn - NDIRECT));
        x := MapEntry(i, fbn - NDIRECT, ind);
        assert At(g, Ind(i)) == At(s1, Ind(i));
        GrownTrans(s, s1, g, {Ind(i)}, {Entry(i, fbn - NDIRECT)});
      }
    }

    method MapDirect(i: nat, k: nat) returns (x: nat)
      requires Consistent() && HasInode(g, i) && k < NDIRECT && (At(g, Direct(i, k)) == 0 ==> freeblock < size)
      modifies this`freeblock, this`blocks, this`inodes, this`g
      ensures Consistent() && freeblock == old(freeblock) + if At(old(g), Direct(i, k)) == 0 then 1 else 0
      ensures Grown(old(g), g, {Direct(i, k)}) && x == At(g, Direct(i, k)) && x != 0
      ensures At(old(g), Direct(i, k)) == 0 ==> x in g.blocks && g.blocks[x] == Zeros()
    {
      GrownNone(g);
      if inodes[i].addrs[k] == 0 {
        ghost var s := g;
        var b := NextBlock();
        AllocAt(s, b, Direct(i, k));
        PutDirectOk(g, i, k, b);
        GrownPut(s, b, g, PutDirect(g, i, k, b), Direct(i, k));
        inodes := inodes[i := WithAddr(inodes[i], k, b)];
        Settle(PutDirect(g, i, k, b));
      }
      x := inodes[i].addrs[k];
    }

    method MapInd(i: nat) returns (x: nat)
      requires Consistent() && HasInode(g, i) && (At(g, Ind(i)) == 0 ==> freeblock < size)
      modifies this`freeblock, this`blocks, this`inodes, this`g
      ensures Consistent() && freeblock == old(freeblock) + if At(old(g), Ind(i)) == 0 then 1 else 0
      ensures Grown(old(g), g, {Ind(i)}) && HasInode(g, i) && x == At(g, Ind(i)) && x != 0
    {
      GrownNone(g);
      if inodes[i].addrs[NDIRECT] == 0 {
        ghost var s := g;
        var b := NextBlock();
        AllocAt(s, b, Ind(i));
        PutIndOk(g, i, b);
        GrownPut(s, b, g, PutInd(g, i, b), Ind(i));
        inodes := inodes[i := WithAddr(inodes[i], NDIRECT, b)];
        Settle(PutInd(g, i, b));
      }
      x := inodes[i].addrs[NDIRECT];
    }

    method MapEntry(i: nat, j: nat, ind: nat) returns (x: nat)
      requires Consistent() && HasInode(g, i) && j < NINDIRECT && ind == At(g, Ind(i)) && ind != 0
      requires At(g, Entry(i, j)) == 0 ==> freeblock < size
      modifies this`freeblock, this`blocks, this`inodes, this`g
      ensures Consistent() && freeblock == old(freeblock) + if At(old(g), Entry(i, j)) == 0 then 1 else 0
      ensures Grown(old(g), g, {Entry(i, j)}) && x == At(g, Entry(i, j)) && x != 0
      ensures At(old(g), Entry(i, j)) == 0 ==> x in g.blocks && g.blocks[x] == Zeros()
    {
      IndBlock(g, i);
      GrownNone(g);
      if Word(blocks[ind], j) == 0 {
        ghost var s := g;
        var b := NextBlock();
        AllocAt(s, b, Entry(i, j));
        AllocAt(s, b, Ind(i));
        PutEntryOk(g, i, j, b);
        assert BitOk(s, ind) && BitOk(g, ind);
        GrownPut(s, b, g, PutEntry(g, i, j, b), Entry(i, j));
        blocks := blocks[ind := PutWord(blocks[ind], j, b)];
        Settle(PutEntry(g, i, j, b));
      }
      IndBlock(g, i);
      x := Word(blocks[ind], j);
    }

    /** iappend, one block: as many bytes of p as the block of off takes. */
    method AppendPart(i: nat, off: nat, p: seq<nat>) returns (m: nat)
      requires Consistent() && Extent(g, i, off) && off / BSIZE < MAXFILE && p != []
      requires freeblock + BlocksFor(off + PartLen(off, |p|)) - BlocksFor(off) <= size
      modifies this`freeblock, this`blocks, this`inodes, this`g
      ensures Consistent() && m == PartLen(off, |p|) && Wrote(old(g), g, i, off, p[..m]) && Elsewhere(old(g), g, i)
      ensures Extent(g, i, off + m) && freeblock == old(freeblock) + BlocksFor(off + m) - BlocksFor(off)
    {
      ghost var s := g;
      m := if |p| < BSIZE - off % BSIZE then |p| else BSIZE - off % BSIZE;
      assert InodeOk(g, i);
      MissingBlocks(g, i, off, m);
      var x := MapBlock(i, off / BSIZE);
      Appended(s, g, i, off, p[..m]);
      assert BitOk(g, x);
      blocks := blocks[x := Patched(blocks[x], off % BSIZE, p[..m])];
      Settle(Patch(g, x, off % BSIZE, p[..m]));
    }

    /** iappend, one turn of the loop after `done` bytes. */
    method AppendNext(i: nat, start: nat, p: seq<nat>, done: nat, ghost s0: Fs) returns (m: nat)
      requires Consistent() && Extent(g, i, start + done) && done < |p| && start + |p| <= MAXFILE * BSIZE
      requires Wrote(s0, g, i, start, p[..done]) && Elsewhere(s0, g, i)
      requires freeblock + BlocksFor(start + |p|) - BlocksFor(start + done) <= size
      modifies this`freeblock, this`blocks, this`inodes, this`g
      ensures Consistent() && 0 < m && done + m <= |p| && Wrote(s0, g, i, start, p[..done + m]) && Elsewhere(s0, g, i)
      ensures Extent(g, i, start + done + m)
      ensures freeblock == old(freeblock) + BlocksFor(start + done + m) - BlocksFor(start + done)
    {
      ghost var s := g;
      BlocksMono(start + done + PartLen(start + done, |p| - done), start + |p|);
      m := AppendPart(i, start + done, p[done..]);
      Slices(p, done, m);
      WroteJoin(s0, s, g, i, start, p[..done], p[done..][..m]);
    }

    /** iappend, the loop: p goes into the blocks from off on. */
    method AppendLoop(i: nat, start: nat, p: seq<nat>)
      requires Consistent() && Extent(g, i, start) && start + |p| <= MAXFILE * BSIZE
      requires freeblock + BlocksFor(start + |p|) - BlocksFor(start) <= size
      modifies this`freeblock, this`blocks, this`inodes, this`g
      ensures Consistent() && Wrote(old(g), g, i, start, p) && Extent(g, i, start + |p|) && Elsewhere(old(g), g, i)
      ensures freeblock == old(freeblock) + BlocksFor(start + |p|) - BlocksFor(start)
    {
      var done: nat := 0;
      ghost var s0 := g;
      WroteNone(g, i, start);
      while done < |p|
        invariant done <= |p| && Consistent() && Wrote(s0, g, i, start, p[..done]) && Extent(g, i, start + done)
        invariant freeblock == old(freeblock) + BlocksFor(start + done) - BlocksFor(start) && Elsewhere(s0, g, i)
        decreases |p| - done
      {
        var m := AppendNext(i, start, p, done, s0);
        done := done + m;
      }
      assert p[..done] == p;
    }

    /** iappend: p goes at the end of the file. The blocks taken are exactly those the new size calls for; mkfs does not
        check that the image has them. */
    method Iappend(i: nat, p: seq<nat>)
      requires Valid() && 1 <= i < freeinode && inodes[i].size + |p| <= MAXFILE * BSIZE
      requires freeblock + BlocksFor(inodes[i].size + |p|) - BlocksFor(inodes[i].size) <= size
      modifies this`freeblock, this`blocks, this`inodes, this`g
      ensures Valid() && Spliced(old(g), g, i, old(g).inodes[i].size, p)
      ensures freeblock == old(freeblock) + BlocksFor(g.inodes[i].size) - BlocksFor(old(g).inodes[i].size)
    {
      var start := inodes[i].size;
      ghost var s0 := g;
      assert Exact(i);
      AppendLoop(i, start, p);
      SplicedOk(s0, g, i, start, p, start + |p|);
      ghost var s1 := g;
      WithSizeOk(g, i, start + |p|);
      inodes := inodes[i := inodes[i].(size := start + |p|)];
      Settle(WithSize(g, i, start + |p|));
      forall j: nat ensures KindOk(j) { assert old(KindOk(j)); }
      forall j: nat ensures Exact(j) {
        assert old(Exact(j));
        if j == i { ExtentSame(s1, g, i, start + |p|); }
        else if j < |g.inodes| { ExtentSame(s0, g, j, g.inodes[j].size); }
      }
    }

    /** The end of mkfs: the root directory's size is rounded up to a multiple of BSIZE, a whole block more if it is one
        already. Then, and only then, the directory has a hole. */
    method FixRoot(i: nat)
      requires Valid() && 1 <= i < freeinode && inodes[i].size < MAXFILE * BSIZE
      modifies this`inodes, this`g
      ensures Consistent() && Inodes() && AtRest(g) && freeblock == old(freeblock)
      ensures g == WithSize(old(g), i, (old(inodes)[i].size / BSIZE + 1) * BSIZE)
      ensures NoHoles(g, i) <==> old(inodes)[i].size % BSIZE != 0
      ensures forall j: nat :: j < |inodes| && j != i ==> NoHoles(g, j)
    {
      ghost var s := g;
      var off := (inodes[i].size / BSIZE + 1) * BSIZE;
      assert Exact(i);
      WithSizeOk(g, i, off);
      RootRounding(g, i);
      forall j: nat | j < |inodes| && j != i ensures NoHoles(WithSize(s, i, off), j) {
        assert Exact(j);
        ExtentSame(s, WithSize(s, i, off), j, s.inodes[j].size);
        ExtentWhole(WithSize(s, i, off), j);
      }
      Resting();
      FsCode.RestSize(g, i, off);
      inodes := inodes[i := inodes[i].(size := off)];
      Settle(WithSize(g, i, off));
      forall j: nat ensures KindOk(j) { assert old(KindOk(j)); }
    }

    /** What the kernel expects between calls holds of the image. */
    lemma Resting()
      requires Valid()
      ensures AtRest(g)
    {
      forall j: nat ensures SizeOk(g, j) { assert Exact(j); }
      forall r ensures EmptyOk(g, r) {
        assert KindOk(r.i) && Exact(r.i);
        if r.i < |inodes| && inodes[r.i].kind == 0 { ExtentNone(g, r.i); }
      }
    }

    /** balloc: the bitmap block, with the bits of the blocks taken set. */
    method Balloc() returns (bitmap: seq<seq<bv8>>)
      requires Consistent() && freeblock < BPB
      ensures |bitmap| == 1 && |bitmap[0]| == 1024
      ensures forall b: nat :: b < BPB ==> Covers(bitmap, b) && (Bit(bitmap, b) <==> b in g.used)
    {
      bitmap := [seq(1024, k => 0)];
      forall b: nat | b < BPB ensures Covers(bitmap, b) && !Bit(bitmap, b) { ZeroTest(b % BPB % 8); }
      var i := 0;
      while i < freeblock
        invariant 0 <= i <= freeblock && |bitmap| == 1 && |bitmap[0]| == 1024
        invariant forall b: nat :: b < BPB ==> Covers(bitmap, b) && (Bit(bitmap, b) <==> b < i)
      {
        ghost var before := bitmap;
        bitmap := Updated(bitmap, i, true);
        forall b: nat | b < BPB ensures Covers(bitmap, b) && (Bit(bitmap, b) <==> b < i + 1) {
          BitUpdate(before, i, b, true);
        }
        i := i + 1;
      }
      forall b: nat | b < BPB ensures Bit(bitmap, b) <==> b in g.used { assert TakenOk(b); }
    }
  }

  /** The end of mkfs, and the file system the kernel then finds. The kernel's invariant holds of it, and on the disk a
      bit is set if and only if the block is metadata or in some place. No file has a hole, but for the root directory
      if its size was a multiple of BSIZE. */
  method Mount(img: Image, root: nat) returns (fs: FsCode.FileSystem)
    requires img.Valid() && img.freeblock < BPB && img.size <= BPB
    requires 1 <= root < img.freeinode && img.inodes[root].size < MAXFILE * BSIZE
    modifies img
    ensures fresh(fs) && fs.Valid() && fs.DiskOwned() && fs.size == img.size
    ensures fs.g == WithSize(old(img.g), root, (old(img.inodes)[root].size / BSIZE + 1) * BSIZE)
    ensures forall j: nat :: j < |fs.inodes| ==>
              (NoHoles(fs.g, j) <==> j != root || old(img.inodes)[root].size % BSIZE != 0)
  {
    img.FixRoot(root);
    var bitmap := img.Balloc();
    fs := new FsCode.FileSystem(bitmap, img.blocks, img.inodes, img.size, img.g);
  }

  /** A root directory of 64 entries is exactly one block long, and mkfs leaves a hole in it. */
  method HoleInRoot(entries: seq<seq<nat>>) returns (fs: FsCode.FileSystem)
    requires |entries| == 64 && forall k :: 0 <= k < 64 ==> |entries[k]| == 16
    ensures fresh(fs) && fs.Valid() && fs.DiskOwned() && fs.Typed(1) && fs.inodes[1].size == 2 * BSIZE
    ensures !NoHoles(fs.g, 1) && At(fs.g, Direct(1, 1)) == 0 && !fs.Full()
  {
    var img := new Image(2000, 46, 200);
    var root := img.Ialloc(1);
    var k := 0;
    while k < 64
      invariant 0 <= k <= 64 && img.Valid() && img.freeinode == 2 && |img.inodes| == 200 && img.size == 2000
      invariant img.inodes[1].size == 16 * k && img.freeblock == 46 + BlocksFor(16 * k)
    {
      img.Iappend(root, entries[k]);
      k := k + 1;
    }
    assert img.KindOk(1) && img.TakenOk(1999) && img.Exact(1) && BlockIn(img.g, 1, 1024, 1);
    WithSizeOk(img.g, 1, 2 * BSIZE);
    fs := Mount(img, root);
  }

  /** Reading in that hole breaks the disk's bitmap: readi puts a block in the slot, in memory only. When the inode has
      left memory and is read again, the block is in use and in no place. */
  method ReadInRoot(entries: seq<seq<nat>>) returns (fs: FsCode.FileSystem)
    requires |entries| == 64 && forall k :: 0 <= k < 64 ==> |entries[k]| == 16
    ensures fs.Valid() && !fs.DiskOwned() && fs.dinodes == fs.inodes
    ensures exists b: nat :: InData(fs.g, b) && Covers(fs.bitmap, b) && Bit(fs.bitmap, b) && !Named(fs.OnDisk(), b)
  {
    fs := HoleInRoot(entries);
    fs.DiskOwnedIff();
    ghost var was := fs.inodes;
    assert !SlotThere(fs.g, 1, 1024);
    var dst := fs.Readi(1, 1024, 16);
    assert !fs.DiskOwned();
    fs.DiskOwnedIff();
    fs.Reload(1);
    ghost var b :| b in fs.g.held;
    assert BitOk(fs.g, b);
    fs.Ownership(b);
    assert b in fs.g.held ==> !Named(fs.OnDisk(), b);
  }

  lemma ZeroTest(k: nat)
    requires k < 8
    ensures !Test(0, k)
  {
  }

  lemma Slices(p: seq<nat>, done: nat, m: nat)
    requires done + m <= |p|
    ensures p[..done] + p[done..][..m] == p[..done + m]
  {
  }

  // ---- extents

  /** The places of other inodes hold what they held. */
  ghost predicate Elsewhere(s: View, s': View, i: nat) { forall r: Ref :: r.i != i ==> At(s', r) == At(s, r) }

  /** As many of n bytes as the block of off takes. */
  function PartLen(off: nat, n: nat): nat { if n < BSIZE - off % BSIZE then n else BSIZE - off % BSIZE }

  /** The blocks iappend takes to have block fbn of inode i. */
  function Missing(s: View, i: nat, fbn: nat): nat {
    (if At(s, Place(i, fbn)) == 0 then 1 else 0) + if fbn >= NDIRECT && At(s, Ind(i)) == 0 then 1 else 0
  }

  lemma ExtentSame(s: View, s': View, i: nat, end: nat)
    requires Extent(s, i, end) && |s'.inodes| == |s.inodes| && forall r: Ref :: r.i == i ==> At(s', r) == At(s, r)
    ensures Extent(s', i, end)
  {
    forall bn: nat ensures BlockIn(s', i, end, bn) { assert BlockIn(s, i, end, bn); }
  }

  lemma ExtentNone(s: View, i: nat)
    requires Extent(s, i, 0)
    ensures forall r: Ref :: r.i == i ==> At(s, r) == 0
  {
    forall r: Ref | r.i == i ensures At(s, r) == 0 {
      if r.Direct? && r.k < NDIRECT { assert BlockIn(s, i, 0, r.k); }
    }
  }

  /** A file with exactly its blocks has no holes. */
  lemma ExtentWhole(s: Fs, i: nat)
    requires i < |s.inodes| && Extent(s, i, s.inodes[i].size)
    ensures NoHoles(s, i)
  {
    assert InodeOk(s, i);
    forall p: nat | p < s.inodes[i].size ensures Mapped(s, i, p) { assert BlockIn(s, i, s.inodes[i].size, p / BSIZE); }
  }

  /** The block of off and m more bytes in it: what is missing is the difference in size. */
  lemma MissingBlocks(s: View, i: nat, off: nat, m: nat)
    requires Extent(s, i, off) && off / BSIZE < MAXFILE && 0 < m && off % BSIZE + m <= BSIZE
    ensures BlocksFor(off + m) == BlocksFor(off) + Missing(s, i, off / BSIZE)
  {
    assert BlockIn(s, i, off, off / BSIZE);
    Ceiling(off, m);
  }

  lemma Ceiling(off: nat, m: nat)
    requires 0 < m && off % BSIZE + m <= BSIZE
    ensures (off + m + BSIZE - 1) / BSIZE == off / BSIZE + 1
    ensures (off + BSIZE - 1) / BSIZE == off / BSIZE + if off % BSIZE == 0 then 0 else 1
  {
    var q, o := off / BSIZE, off % BSIZE;
    assert off == q * BSIZE + o;
    Quotient(off + m + BSIZE - 1, q + 1, o + m - 1);
    if o == 0 { Quotient(off + BSIZE - 1, q, BSIZE - 1); } else { Quotient(off + BSIZE - 1, q + 1, o - 1); }
  }

  lemma Quotient(x: nat, q: nat, r: nat)
    requires x == q * BSIZE + r && r < BSIZE
    ensures x / BSIZE == q && x % BSIZE == r
  {
  }

  lemma BlocksMono(a: nat, b: nat)
    requires a <= b
    ensures BlocksFor(a) <= BlocksFor(b)
  {
  }

  lemma ExtentGrown(s: View, s': View, i: nat, off: nat, m: nat)
    requires Extent(s, i, off) && off / BSIZE < MAXFILE && 0 < m && off % BSIZE + m <= BSIZE
    requires Grown(s, s', {Ind(i), Place(i, off / BSIZE)}) && At(s', Place(i, off / BSIZE)) != 0
    requires At(s', Ind(i)) != 0 <==> At(s, Ind(i)) != 0 || off / BSIZE >= NDIRECT
    ensures Extent(s', i, off + m)
  {
    var q := off / BSIZE;
    assert off == q * BSIZE + off % BSIZE;
    var end := off + m;
    forall bn: nat ensures BlockIn(s', i, end, bn) {
      assert BlockIn(s, i, off, bn);
      assert At(s', Place(i, bn)) == At(s, Place(i, bn)) || bn == q;
      assert bn != q ==> (bn * BSIZE < end <==> bn * BSIZE < off);
    }
  }

  lemma PatchExtent(s: Fs, b: nat, o: nat, bytes: seq<nat>, i: nat, end: nat)
    requires b in s.owner && !s.owner[b].Ind? && b in s.blocks && o + |bytes| <= |s.blocks[b]| && Extent(s, i, end)
    ensures Extent(Patch(s, b, o, bytes), i, end) && forall r :: At(Patch(s, b, o, bytes), r) == At(s, r)
  {
    var s' := Patch(s, b, o, bytes);
    forall r ensures At(s', r) == At(s, r) { PatchAt(s, b, o, bytes, r); }
    ExtentSame(s, s', i, end);
  }

  /** iappend, one block: the block is there in s1, and then holds the bytes. */
  lemma Appended(s: Fs, s1: Fs, i: nat, off: nat, bytes: seq<nat>)
    requires Extent(s, i, off) && off / BSIZE < MAXFILE && bytes != [] && off % BSIZE + |bytes| <= BSIZE
    requires Grown(s, s1, {Ind(i), Place(i, off / BSIZE)}) && At(s1, Place(i, off / BSIZE)) != 0
    requires At(s1, Ind(i)) != 0 <==> At(s, Ind(i)) != 0 || off / BSIZE >= NDIRECT
    requires var b := At(s1, Place(i, off / BSIZE));
             At(s, Place(i, off / BSIZE)) == 0 ==> b in s1.blocks && s1.blocks[b] == Zeros()
    ensures var b := At(s1, Place(i, off / BSIZE));
            && b in s1.owner && b in s1.blocks && |s1.blocks[b]| == BSIZE
            && var s2 := Patch(s1, b, off % BSIZE, bytes);
            FsOk(s2) && Wrote(s, s2, i, off, bytes) && Extent(s2, i, off + |bytes|) && Elsewhere(s, s2, i)
  {
    assert InodeOk(s1, i);
    var b := At(s1, Place(i, off / BSIZE));
    GrownFills(s, s1, i, off / BSIZE);
    WroteBlock(s, s1, i, off, bytes);
    ExtentGrown(s, s1, i, off, |bytes|);
    PatchExtent(s1, b, off % BSIZE, bytes, i, off + |bytes|);
    var s2 := Patch(s1, b, off % BSIZE, bytes);
    forall r: Ref | r.i != i ensures At(s2, r) == At(s, r) { assert At(s2, r) == At(s1, r); }
  }

  /** The root directory's size is rounded up to a multiple of BSIZE, a whole block more if it is one already: that
      leaves a hole if and only if it was one. */
  lemma RootRounding(s: Fs, i: nat)
    requires i < |s.inodes| && s.inodes[i].size < MAXFILE * BSIZE && Extent(s, i, s.inodes[i].size)
    ensures NoHoles(WithSize(s, i, (s.inodes[i].size / BSIZE + 1) * BSIZE), i) <==> s.inodes[i].size % BSIZE != 0
  {
    var size := s.inodes[i].size;
    var q := size / BSIZE;
    var s' := WithSize(s, i, (q + 1) * BSIZE);
    WithSizeOk(s, i, (q + 1) * BSIZE);
    assert InodeOk(s, i) && size == q * BSIZE + size % BSIZE;
    if size % BSIZE == 0 {
      assert BlockIn(s, i, size, q);
      assert !Mapped(s', i, size);
    } else {
      forall p: nat | p < (q + 1) * BSIZE ensures Mapped(s', i, p) { assert BlockIn(s, i, size, p / BSIZE); }
    }
  }
}
