/** kernel/fs.c: blocks and inode contents, in place. A transaction's view of the disk: what bread returns. */
module FsCode {
  import opened Bytes
  import opened FsState
  import opened FsBitmap
  import opened FsContents
  import opened FsDisk
  import opened FsTrunc

  class FileSystem {
    const size: nat                      // sb.size
    var bitmap: seq<seq<bv8>>            // the bitmap blocks
    var blocks: map<nat, seq<nat>>       // data blocks, as bytes
    var inodes: seq<Inode>               // the inodes as the kernel holds them
    var dinodes: seq<Inode>              // the inodes on disk
    ghost var g: Fs

    ghost predicate BitIs(b: nat)
      reads this`bitmap, this`g
    {
      b < size ==> Covers(bitmap, b) && (Bit(bitmap, b) <==> b in g.used)
    }

    ghost predicate Bits()
      reads this`bitmap, this`g
    {
      size == g.size && forall b {:trigger BitIs(b)} :: BitIs(b)
    }

    /** Inside a call: every bit agrees with who owns the block. */
    ghost predicate Consistent()
      reads this
    {
      Bits() && blocks == g.blocks && inodes == g.inodes
    }

    /** Within writei: free inodes are empty, and the disk has the inodes but for slots filled in memory only. */
    ghost predicate Sound()
      reads this
    {
      Consistent() && AtRest(g) && Behind(inodes, dinodes)
    }

    /** Between calls: besides, what the disk lacks is zeroes. */
    ghost predicate Valid()
      reads this
    {
      Sound() && LagZero(g, dinodes)
    }

    /** What is on the disk. */
    ghost function OnDisk(): View
      reads this
    {
      View(size, g.nmeta, {}, blocks, dinodes, map[], {})
    }

    ghost predicate DiskBit(b: nat)
      reads this
    {
      b < size ==> Covers(bitmap, b) && (Bit(bitmap, b) <==> b < g.nmeta || exists r :: At(OnDisk(), r) == b)
    }

    /** On the disk, a bit is set if and only if the block is metadata or in some place. */
    ghost predicate DiskOwned()
      reads this
    {
      forall b {:trigger DiskBit(b)} :: DiskBit(b)
    }

    /** When the disk's bitmap and its contents agree: no block is lost, and no slot is filled in memory only. */
    lemma DiskOwnedIff()
      requires Sound()
      ensures DiskOwned() <==> g.held == {} && dinodes == inodes
    {
      OwnedIff(g, OnDisk());
      forall b: nat | b < size ensures DiskBit(b) <==> (b in g.used <==> b < g.nmeta || Named(OnDisk(), b)) {
        assert BitIs(b);
      }
      if Owned(g, OnDisk()) {
        forall b: nat ensures DiskBit(b) { assert b < size ==> (Named(OnDisk(), b) || !Named(OnDisk(), b)); }
      }
      if DiskOwned() {
        forall b: nat | b < size ensures b in g.used <==> b < g.nmeta || Named(OnDisk(), b) { assert DiskBit(b); }
      }
    }

    /** In memory, a bit is set if and only if the block is metadata, in some place, or lost. In memory and on disk a
        block is in one place only, which is the same one. */
    lemma Ownership(b: nat)
      requires Sound() && b < size
      ensures Covers(bitmap, b)
      ensures Bit(bitmap, b) <==> b < g.nmeta || b in g.held || exists r :: At(g, r) == b
      ensures forall r, q :: At(g, r) == b && At(g, q) == b && b != 0 ==> r == q && b >= g.nmeta && b !in g.held
      ensures forall r :: At(OnDisk(), r) == b && b != 0 ==> At(g, r) == b
    {
      assert BitIs(b);
      PlacesOf(g, b);
      forall r ensures At(OnDisk(), r) == b && b != 0 ==> At(g, r) == b { DiskAt(g, OnDisk(), r); }
    }

    /** A disk whose bitmap agrees with its contents. */
    constructor (bitmap: seq<seq<bv8>>, blocks: map<nat, seq<nat>>, inodes: seq<Inode>, size: nat, ghost g: Fs)
      requires size == g.size && blocks == g.blocks && inodes == g.inodes && AtRest(g)
      requires forall b: nat :: b < size ==> Covers(bitmap, b) && (Bit(bitmap, b) <==> b in g.used)
      ensures Valid() && this.g == g && dinodes == this.inodes && (g.held == {} ==> DiskOwned())
    {
      this.size, this.bitmap, this.blocks, this.inodes, this.g := size, bitmap, blocks, inodes, g;
      dinodes := inodes;
      new;
      forall b: nat ensures BitIs(b) { }
      forall i: nat ensures LagsAt(inodes, dinodes, i) { }
      forall n: nat, p: nat ensures LagAt(g, dinodes, n, p) { assert g.(inodes := dinodes) == g; }
      DiskOwnedIff();
    }

    /** The inner loop of balloc: the first clear bit of the bitmap block for b, or BPB. */
    method ScanBlock(b: nat) returns (bi: nat)
      requires Bits() && b % BPB == 0 && b < size
      ensures bi <= BPB && (b + bi < size && bi < BPB ==> b + bi !in g.used)
      ensures forall c :: b <= c < b + bi && c < size ==> c in g.used
      ensures bi == BPB || b + bi < size || b + bi == size
    {
      bi := 0;
      while bi < BPB && b + bi < size
        invariant bi <= BPB && b + bi <= size && forall c :: b <= c < b + bi ==> c in g.used
      {
        assert BitIs(b + bi);
        BlockBit(b, bi);
        if !Test(bitmap[b / BPB][bi / 8], bi % 8) { return; }
        bi := bi + 1;
      }
    }

    /** balloc: the first free block, zeroed; 0 if there is none. */
    method Balloc() returns (r: nat)
      requires Consistent()
      modifies this`bitmap, this`blocks, this`g
      ensures Consistent()
      ensures r == 0 ==> g == old(g) && Full()
      ensures r > 0 ==> InData(old(g), r) && r !in old(g).used && g == Alloc(old(g), r)
                        && forall c :: 0 <= c < r ==> c in old(g).used
    {
      var b := 0;
      while b < size
        invariant b % BPB == 0 && Consistent() && g == old(g) && forall c :: 0 <= c < b && c < size ==> c in g.used
        decreases size - b
      {
        var bi := ScanBlock(b);
        if bi < BPB && b + bi < size {
          r := b + bi;
          assert BitOk(g, r);
          TakeBlock(r);
          return;
        }
        b := b + BPB;
      }
      return 0;
    }

    /** balloc, when it has found block r: mark it in use and zero it. */
    method TakeBlock(r: nat)
      requires Consistent() && InData(g, r) && r !in g.used
      modifies this`bitmap, this`blocks, this`g
      ensures Consistent() && g == Alloc(old(g), r)
    {
      assert BitIs(r);
      ghost var before := bitmap;
      bitmap := Updated(bitmap, r, true);
      blocks := blocks[r := Zeros()];
      AllocOk(g, r);
      ghost var s := g;
      g := Alloc(g, r);
      forall c: nat ensures BitIs(c) {
        assert old(BitIs(c));
        if c < size { BitUpdate(before, r, c, true); }
      }
    }

    /** bfree: the bit of b is cleared; false is the panic "freeing free block". */
    method Bfree(b: nat) returns (ok: bool)
      requires Covers(bitmap, b)
      modifies this`bitmap
      ensures ok <==> Bit(old(bitmap), b)
      ensures forall c: nat :: Covers(old(bitmap), c) ==>
                Covers(bitmap, c) && (Bit(bitmap, c) <==> Bit(old(bitmap), c) && c != b)
    {
      if !Test(bitmap[b / BPB][b % BPB / 8], b % BPB % 8) { return false; }
      ghost var before := bitmap;
      bitmap := Updated(bitmap, b, false);
      forall c: nat | Covers(before, c) ensures Covers(bitmap, c) && (Bit(bitmap, c) <==> Bit(before, c) && c != b) {
        BitUpdate(before, b, c, false);
      }
      return true;
    }

    /** bfree of a block that has been taken out of its place: the panic is not reached. */
    method Release(b: nat)
      requires Bits() && b in g.held
      modifies this`bitmap, this`g
      ensures Bits() && g == Free(old(g), b)
    {
      assert BitOk(g, b) && BitIs(b);
      FreeOk(g, b);
      var ok := Bfree(b);
      assert ok;
      g := Free(g, b);
      forall c: nat ensures BitIs(c) { assert old(BitIs(c)); }
    }

    /** The ghost state moves on; the bitmap is not concerned. */
    ghost method Settle(next: Fs)
      requires Bits() && next.size == g.size && next.used == g.used
      modifies this`g
      ensures Bits() && g == next
    {
      g := next;
      forall c: nat ensures BitIs(c) { assert old(BitIs(c)); }
    }

    /** bmap, a direct block. */
    method BmapDirect(i: nat, bn: nat) returns (addr: nat)
      requires Consistent() && HasInode(g, i) && bn < NDIRECT
      modifies this`bitmap, this`blocks, this`inodes, this`g
      ensures Consistent() && Grown(old(g), g, {Direct(i, bn)}) && addr == At(g, Direct(i, bn))
      ensures At(old(g), Direct(i, bn)) != 0 ==> g == old(g)
      ensures At(old(g), Direct(i, bn)) == 0 && addr != 0 ==> addr in g.blocks && g.blocks[addr] == Zeros()
      ensures addr == 0 ==> g == old(g) && Full()
      ensures Only(old(inodes), inodes, i)
      ensures At(old(g), Direct(i, bn)) == 0 && addr != 0 ==> exists c :: 0 <= c < size && c !in old(g).used
    {
      addr := inodes[i].addrs[bn];
      GrownNone(g);
      if addr == 0 {
        ghost var s := g;
        addr := Balloc();
        if addr == 0 { return; }
        AllocAt(s, addr, Direct(i, bn));
        PutDirectOk(g, i, bn, addr);
        GrownPut(s, addr, g, PutDirect(g, i, bn, addr), Direct(i, bn));
        inodes := inodes[i := WithAddr(inodes[i], bn, addr)];
        Settle(PutDirect(g, i, bn, addr));
      }
    }

    /** Every block is in use: what balloc's failure means. */
    ghost predicate Full()
      reads this
    {
      FullView(g)
    }

    /** bmap, the indirect block. */
    method BmapInd(i: nat) returns (addr: nat)
      requires Consistent() && HasInode(g, i)
      modifies this`bitmap, this`blocks, this`inodes, this`g
      ensures Consistent() && Grown(old(g), g, {Ind(i)}) && addr == At(g, Ind(i)) && HasInode(g, i)
      ensures At(old(g), Ind(i)) != 0 ==> g == old(g)
      ensures addr == 0 ==> g == old(g) && Full()
      ensures Only(old(inodes), inodes, i)
      ensures At(old(g), Ind(i)) == 0 && addr != 0 ==> exists c :: 0 <= c < size && c !in old(g).used
    {
      addr := inodes[i].addrs[NDIRECT];
      GrownNone(g);
      if addr == 0 {
        ghost var s := g;
        addr := Balloc();
        if addr == 0 { return; }
        AllocAt(s, addr, Ind(i));
        PutIndOk(g, i, addr);
        GrownPut(s, addr, g, PutInd(g, i, addr), Ind(i));
        inodes := inodes[i := WithAddr(inodes[i], NDIRECT, addr)];
        Settle(PutInd(g, i, addr));
      }
    }

    /** bmap, an entry of the indirect block ind. */
    method BmapEntry(i: nat, j: nat, ind: nat) returns (addr: nat)
      requires Consistent() && HasInode(g, i) && j < NINDIRECT && ind == At(g, Ind(i)) && ind != 0
      modifies this`bitmap, this`blocks, this`g
      ensures Consistent() && Grown(old(g), g, {Entry(i, j)}) && addr == At(g, Entry(i, j))
      ensures At(old(g), Entry(i, j)) != 0 ==> g == old(g)
      ensures At(old(g), Entry(i, j)) == 0 && addr != 0 ==> addr in g.blocks && g.blocks[addr] == Zeros()
      ensures addr == 0 ==> Full()
    {
      IndBlock(g, i);
      addr := Word(blocks[ind], j);
      GrownNone(g);
      if addr == 0 {
        ghost var s := g;
        addr := Balloc();
        if addr == 0 { return; }
        AllocAt(s, addr, Entry(i, j));
        AllocAt(s, addr, Ind(i));
        PutEntryOk(g, i, j, addr);
        NotInd(s, ind, i);
        assert BitOk(s, ind) && ind != addr;
        GrownPut(s, addr, g, PutEntry(g, i, j, addr), Entry(i, j));
        blocks := blocks[ind := PutWord(blocks[ind], j, addr)];
        Settle(PutEntry(g, i, j, addr));
      }
    }

    /** An inode in use: one that ilock has found a type in. */
    predicate Typed(i: nat)
      reads this
    {
      i < |inodes| && inodes[i].kind != 0
    }

    /** bmap: the number of block bn of inode i, allocated if there is none; 0 if the disk is full. false is the
        panic "bmap: out of range". */
    method Bmap(i: nat, bn: nat) returns (ok: bool, addr: nat)
      requires Sound() && Typed(i)
      modifies this`bitmap, this`blocks, this`inodes, this`g
      ensures Sound() && (old(Valid()) ==> Valid())
      ensures Typed(i) && (ok <==> bn < MAXFILE) && (!ok ==> g == old(g))
      ensures ok ==> Grown(old(g), g, {Ind(i), Place(i, bn)}) && addr == At(g, Place(i, bn))
      ensures ok && At(old(g), Place(i, bn)) != 0 ==> g == old(g)
      ensures ok && At(old(g), Place(i, bn)) == 0 && addr != 0 ==> addr in g.blocks && g.blocks[addr] == Zeros()
      ensures ok && addr == 0 ==> Full()
      ensures Only(old(inodes), inodes, i) && (ok ==> SlotStep(old(g), g, i, bn))
    {
      if bn >= MAXFILE { return false, 0; }
      ghost var s := g;
      assert InodeOk(g, i);
      addr := BmapPlace(i, bn);
      RestGrown(s, g, i, bn);
      GrownBehind(s, g, {Ind(i), Place(i, bn)}, i, dinodes);
      GrownFills(s, g, i, bn);
      if LagZero(s, dinodes) { LagFilled(s, g, dinodes); }
      return true, addr;
    }

    method BmapPlace(i: nat, bn: nat) returns (addr: nat)
      requires Consistent() && HasInode(g, i) && bn < MAXFILE
      modifies this`bitmap, this`blocks, this`inodes, this`g
      ensures Consistent() && Grown(old(g), g, {Ind(i), Place(i, bn)}) && addr == At(g, Place(i, bn))
      ensures At(old(g), Place(i, bn)) != 0 ==> g == old(g)
      ensures At(old(g), Place(i, bn)) == 0 && addr != 0 ==> addr in g.blocks && g.blocks[addr] == Zeros()
      ensures addr == 0 ==> Full()
      ensures Only(old(inodes), inodes, i) && SlotStep(old(g), g, i, bn)
    {
      ghost var s := g;
      if bn < NDIRECT {
        addr := BmapDirect(i, bn);
        GrownLags(s, g, {Direct(i, bn)}, i);
        return;
      }
      var ind := BmapInd(i);
      GrownLags(s, g, {Ind(i)}, i);
      ghost var s1 := g;
      if ind == 0 { return 0; }
      addr := BmapEntry(i, bn - NDIRECT, ind);
      GrownTrans(s, s1, g, {Ind(i)}, {Entry(i, bn - NDIRECT)});
    }

    /** readi, one block: up to n bytes at off. None if there is no block and the disk is full. */
    method ReadPart(i: nat, off: nat, n: nat) returns (bytes: seq<nat>)
      requires Valid() && Typed(i) && off / BSIZE < MAXFILE && n > 0
      modifies this`bitmap, this`blocks, this`inodes, this`g
      ensures Valid() && Typed(i) && HolesFilled(old(g), g) && |bytes| <= n && Reads(g, i, off, bytes)
      ensures bytes == [] ==> Full()
      ensures Only(old(inodes), inodes, i) && SlotPassed(old(g), g, i, off, |bytes|)
      ensures Mapped(old(g), i, off) ==> g == old(g) && bytes != []
    {
      ghost var s := g;
      var _, addr := Bmap(i, off / BSIZE);
      GrownFills(s, g, i, off / BSIZE);
      if addr == 0 { return []; }
      assert InodeOk(g, i);
      var m := if n < BSIZE - off % BSIZE then n else BSIZE - off % BSIZE;
      ReadsBlock(g, i, off, m);
      bytes := blocks[addr][off % BSIZE..off % BSIZE + m];
    }

    /** readi: the bytes from off on, clipped to the file. In a file without holes nothing is allocated; a hole reads as
        zeroes, and gets a block. */
    method Readi(i: nat, off: nat, n: nat) returns (dst: seq<nat>)
      requires Valid() && Typed(i) && off < UINT && n < UINT
      modifies this`bitmap, this`blocks, this`inodes, this`g
      ensures Valid() && HolesFilled(old(g), g) && Reads(g, i, off, dst)
      ensures |dst| <= Clip(off, n, old(g).inodes[i].size) && (|dst| < Clip(off, n, old(g).inodes[i].size) ==> Full())
      ensures NoHoles(old(g), i) ==> g == old(g) && |dst| == Clip(off, n, g.inodes[i].size)
      ensures Only(old(inodes), inodes, i)
      ensures var slots := SlotsThere(old(g), i, off, Clip(off, n, old(g).inodes[i].size));
              && (inodes == old(inodes) <==> old(Full()) || slots)
              && (old(DiskOwned()) ==> (DiskOwned() <==> old(Full()) || slots))
    {
      ghost var s0 := g;
      HolesNone(g);
      DiskOwnedIff();
      if off > inodes[i].size || (off + n) % UINT < off { return []; }
      var want := if off + n > inodes[i].size then inodes[i].size - off else n;
      assert SizeOk(g, i);
      dst := [];
      while |dst| < want
        invariant Valid() && Typed(i) && HolesFilled(s0, g) && |dst| <= want && Reads(g, i, off, dst)
        invariant (NoHoles(s0, i) ==> g == s0) && Only(s0.inodes, inodes, i) && SlotsRead(s0, g, i, off, |dst|)
        decreases want - |dst|
      {
        var bytes := ReadMore(i, off, dst, want, s0);
        assert bytes == [] ==> dst + bytes == dst;
        if bytes == [] {
          DiskOwnedIff();
          return;
        }
        dst := dst + bytes;
      }
      DiskOwnedIff();
    }

    /** readi, one more block after dst. */
    method ReadMore(i: nat, off: nat, dst: seq<nat>, want: nat, ghost s0: Fs) returns (bytes: seq<nat>)
      requires Valid() && Typed(i) && HolesFilled(s0, g) && |dst| < want && Reads(g, i, off, dst)
      requires off + want <= MAXFILE * BSIZE && off + want <= s0.inodes[i].size && (NoHoles(s0, i) ==> g == s0)
      requires Only(s0.inodes, inodes, i) && SlotsRead(s0, g, i, off, |dst|)
      modifies this`bitmap, this`blocks, this`inodes, this`g
      ensures Valid() && Typed(i) && HolesFilled(s0, g) && |dst + bytes| <= want && Reads(g, i, off, dst + bytes)
      ensures bytes == [] ==> Full() && !NoHoles(s0, i)
      ensures (NoHoles(s0, i) ==> g == s0) && Only(s0.inodes, inodes, i)
      ensures SlotsNow(s0, g, i, off, |dst|, |bytes|, want)
    {
      ghost var s := g;
      if NoHoles(s0, i) { assert Mapped(s0, i, off + |dst|); }
      bytes := ReadPart(i, off + |dst|, want - |dst|);
      ReadsMore(s0, s, g, i, off, dst, bytes);
      SlotsNext(s0, s, g, i, off, |dst|, |bytes|, want);
    }

    /** iupdate: inode i is written to disk. */
    method Iupdate(i: nat, ghost was: seq<Inode>)
      requires Behind(was, dinodes) && Only(was, inodes, i)
      modifies this`dinodes
      ensures Behind(inodes, dinodes) && dinodes == old(dinodes)[i := inodes[i]]
      ensures old(dinodes) == was ==> dinodes == inodes
    {
      BehindSync(was, inodes, dinodes, i);
      dinodes := dinodes[i := inodes[i]];
    }

    /** ilock, when the inode is not in memory: it is read from disk. A block that only the copy in memory had is lost:
        in use and in no place. */
    method Reload(i: nat)
      requires Valid() && i < |inodes|
      modifies this`inodes, this`g
      ensures Valid() && inodes == old(inodes)[i := dinodes[i]]
      ensures InodeOk(old(g), i) && |dinodes[i].addrs| == NDIRECT + 1 && g == Reloaded(old(g), i, dinodes[i])
      ensures SameFiles(old(g), g) && (g == old(g) || g.held > old(g).held)
      ensures g == old(g) <==> old(inodes)[i] == dinodes[i]
      ensures DiskOwned() <==> old(DiskOwned())
    {
      assert InodeOk(g, i) && LagsAt(inodes, dinodes, i);
      ghost var was, d := g, dinodes[i];
      ReloadedOk(g, i, d);
      LostIff(g, i, d);
      RestReloaded(g, i, d);
      ReloadedFiles(g, i, dinodes);
      inodes := inodes[i := dinodes[i]];
      Settle(Reloaded(g, i, d));
      forall j: nat ensures LagsAt(inodes, dinodes, j) { assert LagsAt(was.inodes, dinodes, j); }
      assert OnDisk() == old(OnDisk());
      forall b: nat ensures DiskBit(b) <==> old(DiskBit(b)) { }
    }

    /** A reboot: no inode is in memory. */
    method Restart()
      requires Valid()
      modifies this`inodes, this`g
      ensures Valid() && inodes == dinodes && g.held >= old(g).held && (old(inodes) == dinodes ==> g == old(g))
      ensures SameFiles(old(g), g) && (DiskOwned() <==> old(DiskOwned()))
    {
      var i := 0;
      while i < |inodes|
        invariant 0 <= i <= |inodes| && Valid() && inodes[..i] == dinodes[..i] && inodes[i..] == old(inodes)[i..]
        invariant g.held >= old(g).held && (old(inodes) == dinodes ==> g == old(g))
        invariant SameFiles(old(g), g) && (DiskOwned() <==> old(DiskOwned()))
        decreases |dinodes| - i
      {
        ghost var s := g;
        Reload(i);
        SameFilesTrans(old(g), s, g);
        i := i + 1;
      }
    }

    /** writei, one block: up to n bytes of src at off. None are written if the disk is full. */
    method WritePart(i: nat, off: nat, src: seq<nat>) returns (m: nat)
      requires Sound() && Typed(i) && off / BSIZE < MAXFILE && src != []
      modifies this`bitmap, this`blocks, this`inodes, this`g
      ensures Sound() && Typed(i) && m <= |src| && off % BSIZE + m <= BSIZE && Wrote(old(g), g, i, off, src[..m])
      ensures (m == 0 ==> Full()) && Only(old(inodes), inodes, i)
      ensures m > 0 ==> m == |src| || (off + m) % BSIZE == 0
    {
      ghost var s := g;
      var _, addr := Bmap(i, off / BSIZE);
      GrownFills(s, g, i, off / BSIZE);
      assert InodeOk(g, i);
      if addr == 0 {
        FilledWrote(s, g, i, off);
        return 0;
      }
      m := if |src| < BSIZE - off % BSIZE then |src| else BSIZE - off % BSIZE;
      WroteBlock(s, g, i, off, src[..m]);
      RestPatch(g, addr, off % BSIZE, src[..m]);
      blocks := blocks[addr := Patched(blocks[addr], off % BSIZE, src[..m])];
      Settle(Patch(g, addr, off % BSIZE, src[..m]));
      BlockEnd(off, m);
    }

    /** writei, the loop: as many bytes of src as there is room for. */
    method WriteLoop(i: nat, off: nat, src: seq<nat>) returns (tot: nat)
      requires Sound() && Typed(i) && off + |src| <= MAXFILE * BSIZE
      modifies this`bitmap, this`blocks, this`inodes, this`g
      ensures Sound() && Typed(i) && tot <= |src| && Wrote(old(g), g, i, off, src[..tot]) && (tot < |src| ==> Full())
      ensures Only(old(inodes), inodes, i) && (0 < tot < |src| ==> (off + tot) % BSIZE == 0)
    {
      tot := 0;
      ghost var s0 := g;
      WroteNone(g, i, off);
      while tot < |src|
        invariant Sound() && Typed(i) && tot <= |src| && Wrote(s0, g, i, off, src[..tot])
        invariant Only(s0.inodes, inodes, i) && (0 < tot < |src| ==> (off + tot) % BSIZE == 0)
        decreases |src| - tot
      {
        ghost var s := g;
        var m := WritePart(i, off + tot, src[tot..]);
        assert src[tot..][..m] == src[tot..tot + m] && src[..tot] + src[tot..tot + m] == src[..tot + m];
        WroteJoin(s0, s, g, i, off, src[..tot], src[tot..tot + m]);
        if m == 0 { return; }
        tot := tot + m;
      }
    }

    /** writei: the number of bytes written, from the start of src, or -1. */
    method Writei(i: nat, off: nat, src: seq<nat>) returns (r: int)
      requires Valid() && Typed(i) && off < UINT && |src| < UINT
      modifies this
      ensures Valid() && -1 <= r <= |src|
      ensures r == -1 <==> off > old(g).inodes[i].size || off + |src| > MAXFILE * BSIZE
      ensures r == -1 ==> g == old(g) && dinodes == old(dinodes)
      ensures Only(old(inodes), inodes, i) && (r >= 0 ==> dinodes == old(dinodes)[i := inodes[i]])
      ensures old(DiskOwned()) ==> DiskOwned()
      ensures r >= 0 ==> Spliced(old(g), g, i, off, src[..r])
      ensures 0 <= r < |src| ==> Full() && (r > 0 ==> (off + r) % BSIZE == 0)
    {
      assert SizeOk(g, i);
      DiskOwnedIff();
      if off > inodes[i].size || (off + |src|) % UINT < off { return -1; }
      if off + |src| > MAXFILE * BSIZE { return -1; }
      ghost var s := g;
      var tot := WriteLoop(i, off, src);
      var size := if off + tot > inodes[i].size then off + tot else inodes[i].size;
      SplicedOk(s, g, i, off, src[..tot], size);
      RestSize(g, i, size);
      inodes := inodes[i := inodes[i].(size := size)];
      Settle(WithSize(g, i, size));
      Iupdate(i, s.inodes);
      SplicedOthers(s, g, i, off, src[..tot]);
      LagSync(s, g, old(dinodes), dinodes, i);
      DiskOwnedIff();
      return tot;
    }

    /** itrunc, a direct slot. */
    method TruncDirect(i: nat, k: nat)
      requires Consistent() && HasInode(g, i) && k < NDIRECT
      modifies this`bitmap, this`blocks, this`inodes, this`g
      ensures Consistent() && Only(old(inodes), inodes, i) && HasInode(g, i)
      ensures var b := At(old(g), Direct(i, k));
              if b == 0 then g == old(g) else Dropped(old(g), g, i, {b})
    {
      var b := inodes[i].addrs[k];
      if b != 0 {
        ghost var s := g;
        DropDirectOk(g, i, k);
        OwnedNotHeld(g, {b});
        DroppedOk(g, DropDirect(g, i, k), i, {b});
        Settle(DropDirect(g, i, k));
        Release(b);
        assert g == FreeSet(DropDirect(s, i, k), {b});
        inodes := inodes[i := WithAddr(inodes[i], k, 0)];
      }
    }

    /** itrunc, the direct blocks. */
    method TruncDirects(i: nat)
      requires Consistent() && HasInode(g, i)
      modifies this`bitmap, this`blocks, this`inodes, this`g
      ensures Consistent() && Only(old(inodes), inodes, i) && HasInode(g, i)
      ensures Dropped(old(g), g, i, Directs(old(g).owner, i, NDIRECT))
    {
      var k := 0;
      ghost var s0 := g;
      NoBlockZero(g);
      assert Directs(g.owner, i, 0) == {};
      while k < NDIRECT
        invariant 0 <= k <= NDIRECT && Consistent() && HasInode(g, i) && Dropped(s0, g, i, Directs(s0.owner, i, k))
        invariant Only(s0.inodes, inodes, i)
      {
        DirectsStep(s0, i, k);
        ghost var s := g;
        assert At(s, Direct(i, k)) == At(s0, Direct(i, k));
        TruncDirect(i, k);
        if At(s, Direct(i, k)) != 0 {
          DroppedTrans(s0, s, g, i, Directs(s0.owner, i, k), {At(s, Direct(i, k))});
        }
        k := k + 1;
      }
    }

    /** itrunc, the blocks named in the indirect block: s0 is before any of it, s1 with all of it in hand. */
    method TruncEntries(i: nat, ind: nat, ghost s0: Fs, ghost s1: Fs)
      requires Bits() && blocks == g.blocks && HasInode(s0, i) && ind == At(s0, Ind(i)) && ind != 0
      requires s1 == DropInd(s0, i) && g == s1
      modifies this`bitmap, this`g
      ensures Bits() && g == FreeSet(s1, Under(s0.owner, i, 0) - {ind})
    {
      IndBlock(s0, i);
      var a := blocks[ind];
      var j := 0;
      ghost var u := Under(s0.owner, i, 0);
      assert FreeSet(s1, u - Under(s0.owner, i, 0)) == s1;
      while j < NINDIRECT
        invariant 0 <= j <= NINDIRECT && Bits() && g == FreeSet(s1, u - Under(s0.owner, i, j))
      {
        UnderStep(s0, i, j);
        var b := Word(a, j);
        if b != 0 {
          assert b in Under(s0.owner, i, j) && b in g.held;
          Release(b);
          assert g == FreeSet(s1, u - Under(s0.owner, i, j + 1));
        }
        j := j + 1;
      }
      UnderEnd(s0, i);
    }

    /** itrunc, the indirect block and what it names. */
    method TruncIndirect(i: nat)
      requires Consistent() && HasInode(g, i)
      modifies this`bitmap, this`blocks, this`inodes, this`g
      ensures Consistent() && Only(old(inodes), inodes, i) && HasInode(g, i)
      ensures Dropped(old(g), g, i, Under(old(g).owner, i, 0))
    {
      var ind := inodes[i].addrs[NDIRECT];
      ghost var s0, u := g, Under(g.owner, i, 0);
      AllBlocks(g, i);
      if ind != 0 {
        DropIndOk(g, i);
        OwnedNotHeld(g, u);
        ghost var s1 := DropInd(g, i);
        DroppedOk(g, s1, i, u);
        UnderEnd(g, i);
        assert RefOk(g, Ind(i)) && OwnOk(g, ind);
        Settle(s1);
        TruncEntries(i, ind, s0, s1);
        Release(ind);
        assert g == FreeSet(s1, u);
        inodes := inodes[i := WithAddr(inodes[i], NDIRECT, 0)];
      }
    }

    /** itrunc: the inode gives up all its blocks; "freeing free block" is not reached. */
    method Itrunc(i: nat)
      requires Valid() && i < |inodes|
      modifies this
      ensures Valid() && Truncated(old(g), g, i)
      ensures Only(old(inodes), inodes, i) && dinodes == old(dinodes)[i := inodes[i]]
      ensures old(DiskOwned()) ==> DiskOwned()
    {
      ghost var s0 := g;
      DiskOwnedIff();
      assert InodeOk(g, i);
      NoBlockZero(g);
      AllBlocks(g, i);
      TruncDirects(i);
      ghost var s1 := g;
      UnderSame(s0, s1, i);
      TruncIndirect(i);
      DroppedTrans(s0, s1, g, i, Directs(s0.owner, i, NDIRECT), Under(s0.owner, i, 0));
      TruncatedOk(s0, g, WithSize(g, i, 0), i);
      WithSizeOk(g, i, 0);
      inodes := inodes[i := inodes[i].(size := 0)];
      Settle(WithSize(g, i, 0));
      RestEmptied(s0, g, i, s0.inodes[i].kind);
      Iupdate(i, s0.inodes);
      EmptiedOthers(s0, g, i, s0.inodes[i].kind);
      LagSync(s0, g, old(dinodes), dinodes, i);
      DiskOwnedIff();
    }

    /** ifree, of an inode that itrunc has emptied: it becomes allocatable. */
    method Ifree(i: nat, ghost s0: Fs)
      requires Valid() && i < |inodes| && Truncated(s0, g, i)
      modifies this
      ensures Valid() && Emptied(s0, g, i, 0) && Only(old(inodes), inodes, i) && dinodes == old(dinodes)[i := inodes[i]]
      ensures old(DiskOwned()) ==> DiskOwned()
    {
      DiskOwnedIff();
      ghost var n := inodes[i].(kind := 0);
      WithInodeOk(g, i, n);
      ghost var s' := WithInode(g, i, n);
      RestFreed(g, s', i);
      inodes := inodes[i := inodes[i].(kind := 0)];
      Settle(s');
      Iupdate(i, old(inodes));
      SameOthers(old(g), g);
      LagSync(old(g), g, old(dinodes), dinodes, i);
      DiskOwnedIff();
    }

    /** ialloc, when it has found inode i free: all of it is wiped, and it gets the type. Its block numbers are not
        lost, because a free inode has none. */
    method Wipe(i: nat, kind: nat)
      requires Valid() && i < |inodes| && inodes[i].kind == 0 && kind != 0
      modifies this
      ensures Valid() && Typed(i) && g == WithInode(old(g), i, Inode(kind, 0, 0, NOADDRS))
      ensures forall r :: At(g, r) == At(old(g), r)
      ensures Only(old(inodes), inodes, i) && dinodes == old(dinodes)[i := inodes[i]]
      ensures old(DiskOwned()) ==> DiskOwned()
    {
      DiskOwnedIff();
      forall r: Ref | r.i == i ensures At(g, r) == 0 { assert EmptyOk(g, r); }
      NoAddrs(g, i);
      ghost var s := g;
      var n := Inode(kind, 0, 0, NOADDRS);
      WithInodeOk(g, i, n);
      RestSizes(g, WithInode(g, i, n));
      RestKept(g, WithInode(g, i, n));
      inodes := inodes[i := n];
      Settle(WithInode(g, i, n));
      Iupdate(i, s.inodes);
      SameOthers(s, g);
      LagSync(s, g, old(dinodes), dinodes, i);
      DiskOwnedIff();
    }
  }

  lemma UnderSame(s: Fs, s1: Fs, i: nat)
    requires Dropped(s, s1, i, Directs(s.owner, i, NDIRECT))
    ensures Under(s1.owner, i, 0) == Under(s.owner, i, 0)
  {
  }

  lemma RestSizes(s: View, s': View)
    requires AtRest(s) && |s'.inodes| == |s.inodes|
    requires forall i :: 0 <= i < |s.inodes| ==> s'.inodes[i].size <= s.inodes[i].size
    ensures forall i :: 0 <= i < |s.inodes| ==> s'.inodes[i].size <= MAXFILE * BSIZE
  {
    forall i | 0 <= i < |s.inodes| ensures s'.inodes[i].size <= MAXFILE * BSIZE { assert SizeOk(s, i); }
  }

  lemma RestGrown(s: View, s': View, i: nat, bn: nat)
    requires AtRest(s) && i < |s.inodes| && s.inodes[i].kind != 0 && Grown(s, s', {Ind(i), Place(i, bn)})
    ensures AtRest(s')
  {
    RestSizes(s, s');
    RestKept(s, s');
  }

  lemma RestPatch(s: Fs, b: nat, o: nat, bytes: seq<nat>)
    requires AtRest(s) && b in s.owner && !s.owner[b].Ind? && b in s.blocks && o + |bytes| <= |s.blocks[b]|
    ensures AtRest(Patch(s, b, o, bytes))
  {
    var s' := Patch(s, b, o, bytes);
    forall r ensures At(s', r) == At(s, r) { PatchAt(s, b, o, bytes, r); }
    RestSizes(s, s');
    RestKept(s, s');
  }

  lemma RestSize(s: Fs, i: nat, size: nat)
    requires AtRest(s) && i < |s.inodes| && size <= MAXFILE * BSIZE
    ensures AtRest(WithSize(s, i, size))
  {
    WithSizeOk(s, i, size);
    RestSizes(s, s);
    RestKept(s, WithSize(s, i, size));
  }

  lemma RestEmptied(s: View, s': View, i: nat, kind: nat)
    requires AtRest(s) && Emptied(s, s', i, kind)
    ensures AtRest(s')
  {
    RestSizes(s, s');
    forall r ensures EmptyOk(s', r) { assert EmptyOk(s, r); }
  }

  lemma RestFreed(s: View, s': View, i: nat)
    requires AtRest(s) && i < |s.inodes| && s' == WithInode(s, i, s.inodes[i].(kind := 0))
    requires forall r :: At(s', r) == if r.i == i then 0 else At(s, r)
    ensures AtRest(s')
  {
    RestSizes(s, s');
    forall r ensures EmptyOk(s', r) { assert EmptyOk(s, r); }
  }

  lemma RestReloaded(s: Fs, i: nat, d: Inode)
    requires AtRest(s) && HasInode(s, i) && |d.addrs| == NDIRECT + 1 && Lags(s.inodes[i], d)
    ensures AtRest(Reloaded(s, i, d))
  {
    var s' := Reloaded(s, i, d);
    ReloadedOk(s, i, d);
    RestSizes(s, s');
    RestKept(s, s');
  }

  lemma SplicedOthers(s: Fs, s': Fs, i: nat, off: nat, bytes: seq<nat>)
    requires Spliced(s, s', i, off, bytes)
    ensures forall n: nat, p: nat {:trigger FilledAt(s, s', n, p)} :: n != i ==> FilledAt(s, s', n, p)
  {
    forall n: nat, p: nat | n != i ensures FilledAt(s, s', n, p) { assert WroteAt(s, s', i, off, bytes, n, p); }
  }

  lemma EmptiedOthers(s: Fs, s': Fs, i: nat, kind: nat)
    requires Emptied(s, s', i, kind)
    ensures forall n: nat, p: nat {:trigger FilledAt(s, s', n, p)} :: n != i ==> FilledAt(s, s', n, p)
  {
    forall n: nat, p: nat | n != i ensures FilledAt(s, s', n, p) { FilledSame(s, s', n, p); }
  }

  lemma SameOthers(s: Fs, s': Fs)
    requires s'.blocks == s.blocks && |s'.inodes| == |s.inodes| && forall r :: At(s', r) == At(s, r)
    ensures forall n: nat, p: nat {:trigger FilledAt(s, s', n, p)} :: FilledAt(s, s', n, p)
  {
    forall n: nat, p: nat ensures FilledAt(s, s', n, p) { FilledSame(s, s', n, p); }
  }

  lemma SameFilesTrans(a: Fs, b: Fs, c: Fs)
    requires SameFiles(a, b) && SameFiles(b, c)
    ensures SameFiles(a, c)
  {
  }

  lemma HolesNone(s: Fs)
    ensures HolesFilled(s, s)
  {
  }

  lemma ReadsMore(s0: Fs, s: Fs, s': Fs, i: nat, off: nat, dst: seq<nat>, bytes: seq<nat>)
    requires HolesFilled(s0, s) && HolesFilled(s, s') && Reads(s, i, off, dst) && Reads(s', i, off + |dst|, bytes)
    ensures HolesFilled(s0, s') && Reads(s', i, off, dst + bytes)
  {
    HolesTrans(s0, s, s');
    ReadsFilled(s, s', i, off, dst);
    ReadsJoin(s', i, off, dst, bytes);
  }

  const UINT: nat := 0x1_0000_0000

  /** How much of [off, off + n) a file of the given size has; nothing if off + n wraps. */
  function Clip(off: nat, n: nat, size: nat): nat {
    if off > size || off + n >= UINT then 0 else if off + n > size then size - off else n
  }

  lemma BlockEnd(off: nat, m: nat)
    requires off % BSIZE + m <= BSIZE
    ensures off % BSIZE + m == BSIZE ==> (off + m) % BSIZE == 0
  {
    assert off == BSIZE * (off / BSIZE) + off % BSIZE;
  }

  lemma NotInd(s: Fs, ind: nat, i: nat)
    requires HasInode(s, i) && ind == At(s, Ind(i)) && ind != 0
    ensures ind in s.owner && s.owner[ind].Ind?
  {
    IndBlock(s, i);
  }

  lemma BlockBit(b: nat, bi: nat)
    requires b % BPB == 0 && bi < BPB
    ensures (b + bi) / BPB == b / BPB && (b + bi) % BPB == bi
  {
    assert b == BPB * (b / BPB);
  }
}
