/** Files as sequences of bytes: what readi and writei do to them. */
module FsContents {
  import opened Bytes
  import opened FsState

  /** Byte p of inode i lies in a block. */
  predicate Mapped(s: View, i: nat, p: nat) { HasInode(s, i) && p / BSIZE < MAXFILE && At(s, Place(i, p / BSIZE)) != 0 }

  lemma MappedBlock(s: Fs, i: nat, p: nat)
    requires Mapped(s, i, p)
    ensures var b := At(s, Place(i, p / BSIZE));
            b in s.owner && s.owner[b] == Place(i, p / BSIZE) && b in s.blocks && |s.blocks[b]| == BSIZE
  {
    var b := At(s, Place(i, p / BSIZE));
    assert RefOk(s, Place(i, p / BSIZE)) && OwnOk(s, b) && BlockOk(s, b);
  }

  ghost function Byte(s: Fs, i: nat, p: nat): nat
    requires Mapped(s, i, p)
  {
    MappedBlock(s, i, p);
    s.blocks[At(s, Place(i, p / BSIZE))][p % BSIZE]
  }

  ghost predicate ByteIs(s: Fs, i: nat, p: nat, x: nat) { Mapped(s, i, p) && Byte(s, i, p) == x }

  /** Every byte below size lies in a block. */
  ghost predicate NoHoles(s: View, i: nat) {
    HasInode(s, i) && s.inodes[i].size <= MAXFILE * BSIZE
    && forall p: nat {:trigger Mapped(s, i, p)} :: p < s.inodes[i].size ==> Mapped(s, i, p)
  }

  /** Bytes from off on are `bytes`. */
  ghost predicate Reads(s: Fs, i: nat, off: nat, bytes: seq<nat>) {
    forall k :: 0 <= k < |bytes| ==> ByteIs(s, i, off + k, bytes[k])
  }

  lemma ReadsJoin(s: Fs, i: nat, off: nat, a: seq<nat>, b: seq<nat>)
    requires Reads(s, i, off, a) && Reads(s, i, off + |a|, b)
    ensures Reads(s, i, off, a + b)
  {
    forall k | 0 <= k < |a + b| ensures ByteIs(s, i, off + k, (a + b)[k]) {
      if k >= |a| {
        assert ByteIs(s, i, off + |a| + (k - |a|), b[k - |a|]);
      } else {
        assert ByteIs(s, i, off + k, a[k]);
      }
    }
  }

  /** Positions within one block. */
  lemma SameBlock(p: nat, k: nat)
    requires p % BSIZE + k < BSIZE
    ensures (p + k) / BSIZE == p / BSIZE && (p + k) % BSIZE == p % BSIZE + k
  {
    assert p == BSIZE * (p / BSIZE) + p % BSIZE;
  }

  lemma ReadsBlock(s: Fs, i: nat, off: nat, m: nat)
    requires Mapped(s, i, off) && off % BSIZE + m <= BSIZE
    ensures var b := At(s, Place(i, off / BSIZE));
            b in s.blocks && |s.blocks[b]| == BSIZE && Reads(s, i, off, s.blocks[b][off % BSIZE..off % BSIZE + m])
  {
    MappedBlock(s, i, off);
    var bytes := s.blocks[At(s, Place(i, off / BSIZE))][off % BSIZE..off % BSIZE + m];
    forall k | 0 <= k < m ensures ByteIs(s, i, off + k, bytes[k]) { SameBlock(off, k); }
  }

  // ---- holes

  /** The inodes but for what bmap adds to their addresses. */
  ghost predicate SameInodes(s: View, s': View) {
    |s'.inodes| == |s.inodes| && forall n :: 0 <= n < |s.inodes| ==> SameMeta(s.inodes[n], s'.inodes[n])
  }

  /** Byte p of inode n; a hole reads as zeroes. */
  ghost function Content(s: Fs, n: nat, p: nat): nat { if Mapped(s, n, p) then Byte(s, n, p) else 0 }

  ghost predicate FilledAt(s: Fs, s': Fs, n: nat, p: nat) {
    (Mapped(s, n, p) ==> Mapped(s', n, p)) && Content(s', n, p) == Content(s, n, p)
  }

  /** What readi does: no byte of any file changes, and where there was no block there may be a zeroed one. */
  ghost predicate HolesFilled(s: Fs, s': Fs) {
    && s'.held == s.held && SameInodes(s, s')
    && forall n: nat, p: nat {:trigger FilledAt(s, s', n, p)} :: FilledAt(s, s', n, p)
  }

  lemma HolesTrans(a: Fs, b: Fs, c: Fs)
    requires HolesFilled(a, b) && HolesFilled(b, c)
    ensures HolesFilled(a, c)
  {
    forall n: nat, p: nat ensures FilledAt(a, c, n, p) { assert FilledAt(a, b, n, p) && FilledAt(b, c, n, p); }
  }

  lemma ReadsFilled(s: Fs, s': Fs, i: nat, off: nat, bytes: seq<nat>)
    requires HolesFilled(s, s') && Reads(s, i, off, bytes)
    ensures Reads(s', i, off, bytes)
  {
    forall k | 0 <= k < |bytes| ensures ByteIs(s', i, off + k, bytes[k]) {
      assert ByteIs(s, i, off + k, bytes[k]) && FilledAt(s, s', i, off + k);
    }
  }

  /** bmap changes no byte of any file. */
  lemma GrownByte(s: Fs, s': Fs, may: set<Ref>, n: nat, p: nat)
    requires Grown(s, s', may) && Mapped(s, n, p)
    ensures ByteIs(s', n, p, Byte(s, n, p))
  {
    MappedBlock(s, n, p);
    assert At(s', Place(n, p / BSIZE)) == At(s, Place(n, p / BSIZE));
    assert InodeOk(s', n);
  }

  /** bmap of block bn fills at most one hole, with zeroes. */
  lemma GrownFills(s: Fs, s': Fs, i: nat, bn: nat)
    requires Grown(s, s', {Ind(i), Place(i, bn)}) && bn < MAXFILE
    requires var b := At(s', Place(i, bn));
             At(s, Place(i, bn)) == 0 && b != 0 ==> b in s'.blocks && s'.blocks[b] == Zeros()
    ensures HolesFilled(s, s')
  {
    forall n: nat, p: nat ensures FilledAt(s, s', n, p) {
      if Mapped(s, n, p) {
        GrownByte(s, s', {Ind(i), Place(i, bn)}, n, p);
      } else if Mapped(s', n, p) {
        var r := Place(n, p / BSIZE);
        assert InodeOk(s, n);
        assert At(s', r) == At(s, r) || (At(s, r) == 0 && r in {Ind(i), Place(i, bn)});
        assert n == i && p / BSIZE == bn;
      }
    }
  }

  // ---- writing

  /** The block in place r, not an indirect block, patched. */
  function Patch(s: View, b: nat, o: nat, bytes: seq<nat>): View
    requires b in s.blocks && o + |bytes| <= |s.blocks[b]|
  {
    s.(blocks := s.blocks[b := Patched(s.blocks[b], o, bytes)])
  }

  lemma PatchAt(s: Fs, b: nat, o: nat, bytes: seq<nat>, r: Ref)
    requires b in s.owner && !s.owner[b].Ind? && b in s.blocks && o + |bytes| <= |s.blocks[b]|
    ensures At(Patch(s, b, o, bytes), r) == At(s, r)
  {
    if HasInode(s, r.i) && At(s, Ind(r.i)) != 0 { IndBlock(s, r.i); }
  }

  lemma PatchOk(s: Fs, b: nat, o: nat, bytes: seq<nat>)
    requires b in s.owner && !s.owner[b].Ind? && b in s.blocks && o + |bytes| <= |s.blocks[b]|
    ensures FsOk(Patch(s, b, o, bytes))
  {
    var s' := Patch(s, b, o, bytes);
    forall n ensures InodeOk(s', n) { assert InodeOk(s, n); }
    forall c ensures BlockOk(s', c) { assert BlockOk(s, c); }
    forall c ensures BitOk(s', c) { assert BitOk(s, c); }
    forall r ensures RefOk(s', r) { assert RefOk(s, r); PatchAt(s, b, o, bytes, r); }
    forall c ensures OwnOk(s', c) {
      assert OwnOk(s, c);
      if c in s.owner { PatchAt(s, b, o, bytes, s.owner[c]); }
    }
  }

  /** What a write of `bytes` at off of inode i leaves of byte p of inode n. */
  ghost predicate WroteAt(s: Fs, s': Fs, i: nat, off: nat, bytes: seq<nat>, n: nat, p: nat) {
    if n == i && off <= p < off + |bytes| then ByteIs(s', n, p, bytes[p - off])
    else FilledAt(s, s', n, p)
  }

  /** The bytes from off on of inode i are `bytes`; every other byte of every file is as before. */
  ghost predicate Wrote(s: Fs, s': Fs, i: nat, off: nat, bytes: seq<nat>) {
    && s'.held == s.held && SameInodes(s, s')
    && forall n: nat, p: nat {:trigger WroteAt(s, s', i, off, bytes, n, p)} :: WroteAt(s, s', i, off, bytes, n, p)
  }

  lemma WroteNone(s: Fs, i: nat, off: nat)
    ensures Wrote(s, s, i, off, [])
  {
  }

  lemma WroteJoin(s: Fs, s1: Fs, s2: Fs, i: nat, off: nat, a: seq<nat>, b: seq<nat>)
    requires Wrote(s, s1, i, off, a) && Wrote(s1, s2, i, off + |a|, b)
    ensures Wrote(s, s2, i, off, a + b)
  {
    forall n: nat, p: nat ensures WroteAt(s, s2, i, off, a + b, n, p) {
      assert WroteAt(s, s1, i, off, a, n, p) && WroteAt(s1, s2, i, off + |a|, b, n, p);
    }
  }

  lemma FilledWrote(s: Fs, s': Fs, i: nat, off: nat)
    requires HolesFilled(s, s')
    ensures Wrote(s, s', i, off, [])
  {
    forall n: nat, p: nat ensures WroteAt(s, s', i, off, [], n, p) { assert FilledAt(s, s', n, p); }
  }

  /** writei, one block: bmap, then the copy. Blocks are distinct, so no other byte changes. */
  lemma WroteBlock(s: Fs, s1: Fs, i: nat, off: nat, bytes: seq<nat>)
    requires HolesFilled(s, s1) && Mapped(s1, i, off) && off % BSIZE + |bytes| <= BSIZE
    ensures var b := At(s1, Place(i, off / BSIZE));
            && b in s1.owner && !s1.owner[b].Ind? && b in s1.blocks && |s1.blocks[b]| == BSIZE
            && FsOk(Patch(s1, b, off % BSIZE, bytes)) && Wrote(s, Patch(s1, b, off % BSIZE, bytes), i, off, bytes)
  {
    MappedBlock(s1, i, off);
    var b := At(s1, Place(i, off / BSIZE));
    PatchOk(s1, b, off % BSIZE, bytes);
    var s2 := Patch(s1, b, off % BSIZE, bytes);
    forall n: nat, p: nat ensures WroteAt(s, s2, i, off, bytes, n, p) {
      assert FilledAt(s, s1, n, p);
      PatchByte(s1, i, off, bytes, n, p);
    }
  }

  lemma PatchByte(s: Fs, i: nat, off: nat, bytes: seq<nat>, n: nat, p: nat)
    requires Mapped(s, i, off) && off % BSIZE + |bytes| <= BSIZE
    requires var b := At(s, Place(i, off / BSIZE));
             b in s.owner && !s.owner[b].Ind? && b in s.blocks && |s.blocks[b]| == BSIZE
             && FsOk(Patch(s, b, off % BSIZE, bytes))
    ensures var s' := Patch(s, At(s, Place(i, off / BSIZE)), off % BSIZE, bytes);
            if n == i && off <= p < off + |bytes| then ByteIs(s', n, p, bytes[p - off])
            else (Mapped(s', n, p) <==> Mapped(s, n, p)) && Content(s', n, p) == Content(s, n, p)
  {
    var b := At(s, Place(i, off / BSIZE));
    PatchAt(s, b, off % BSIZE, bytes, Place(n, p / BSIZE));
    if n == i && off <= p < off + |bytes| {
      SameBlock(off, p - off);
    } else if Mapped(s, n, p) {
      MappedBlock(s, i, off);
      MappedBlock(s, n, p);
      if n == i { OtherByte(off, |bytes|, p); }
    }
  }

  lemma OtherByte(off: nat, m: nat, p: nat)
    requires off % BSIZE + m <= BSIZE && !(off <= p < off + m)
    ensures p / BSIZE == off / BSIZE ==> p % BSIZE < off % BSIZE || p % BSIZE >= off % BSIZE + m
  {
    assert p == BSIZE * (p / BSIZE) + p % BSIZE && off == BSIZE * (off / BSIZE) + off % BSIZE;
  }

  // ---- the new size

  function WithSize(s: View, i: nat, size: nat): View
    requires i < |s.inodes|
  {
    WithInode(s, i, s.inodes[i].(size := size))
  }

  lemma WithSizeOk(s: Fs, i: nat, size: nat)
    requires i < |s.inodes|
    ensures FsOk(WithSize(s, i, size)) && forall r :: At(WithSize(s, i, size), r) == At(s, r)
  {
    WithInodeOk(s, i, s.inodes[i].(size := size));
  }

  /** The file system after writei has written `bytes` at off: the file is what it was with the bytes spliced in,
      longer if they reach past its end; every other file is as it was. */
  ghost predicate Spliced(s: Fs, s': Fs, i: nat, off: nat, bytes: seq<nat>) {
    && s'.held == s.held && |s'.inodes| == |s.inodes| && i < |s.inodes| && (NoHoles(s, i) ==> NoHoles(s', i))
    && s'.inodes[i].size == (if off + |bytes| > s.inodes[i].size then off + |bytes| else s.inodes[i].size)
    && s'.inodes[i].kind == s.inodes[i].kind && s'.inodes[i].nlink == s.inodes[i].nlink
    && (forall n :: 0 <= n < |s.inodes| && n != i ==> SameMeta(s.inodes[n], s'.inodes[n]))
    && (forall n: nat, p: nat {:trigger WroteAt(s, s', i, off, bytes, n, p)} :: WroteAt(s, s', i, off, bytes, n, p))
  }

  lemma SplicedOk(s: Fs, s1: Fs, i: nat, off: nat, bytes: seq<nat>, size: nat)
    requires Wrote(s, s1, i, off, bytes) && i < |s.inodes| && off <= s.inodes[i].size <= MAXFILE * BSIZE
    requires off + |bytes| <= MAXFILE * BSIZE
    requires size == if off + |bytes| > s.inodes[i].size then off + |bytes| else s.inodes[i].size
    ensures FsOk(WithSize(s1, i, size)) && Spliced(s, WithSize(s1, i, size), i, off, bytes)
  {
    WithSizeOk(s1, i, size);
    assert InodeOk(s1, i);
    var s2 := WithSize(s1, i, size);
    forall n: nat, p: nat ensures WroteAt(s, s2, i, off, bytes, n, p) {
      assert WroteAt(s, s1, i, off, bytes, n, p);
      assert At(s2, Place(n, p / BSIZE)) == At(s1, Place(n, p / BSIZE));
    }
    if NoHoles(s, i) {
      forall p: nat | p < size ensures Mapped(s2, i, p) {
        assert WroteAt(s, s2, i, off, bytes, i, p);
        assert p < s.inodes[i].size ==> Mapped(s, i, p);
      }
    }
  }

  /** A file as a sequence of bytes. */
  ghost predicate IsFile(s: Fs, i: nat, bytes: seq<nat>) {
    i < |s.inodes| && |bytes| == s.inodes[i].size && forall p :: 0 <= p < |bytes| ==> Content(s, i, p) == bytes[p]
  }

  /** In terms of whole files: bytes [off, off + n) replaced, the rest kept, of this file and of no other. */
  lemma SplicedFile(s: Fs, s': Fs, i: nat, off: nat, bytes: seq<nat>, was: seq<nat>)
    requires Spliced(s, s', i, off, bytes) && IsFile(s, i, was) && off <= |was|
    ensures IsFile(s', i, was[..off] + bytes + if off + |bytes| < |was| then was[off + |bytes|..] else [])
  {
    var now := was[..off] + bytes + if off + |bytes| < |was| then was[off + |bytes|..] else [];
    forall p | 0 <= p < |now| ensures Content(s', i, p) == now[p] {
      assert WroteAt(s, s', i, off, bytes, i, p);
      if p < |was| { assert Content(s, i, p) == was[p]; }
    }
  }

  lemma OtherFile(s: Fs, s': Fs, i: nat, off: nat, bytes: seq<nat>, n: nat, was: seq<nat>)
    requires Spliced(s, s', i, off, bytes) && n != i && IsFile(s, n, was)
    ensures IsFile(s', n, was)
  {
    forall p | 0 <= p < |was| ensures Content(s', n, p) == was[p] {
      assert WroteAt(s, s', i, off, bytes, n, p) && Content(s, n, p) == was[p];
    }
  }
}
