/** kernel/fs.c keeps copies of inodes in memory, and iupdate writes them to disk. What the disk lacks in between. */
module FsDisk {
  import opened FsContents
  import opened FsState
  import opened FsTrunc

  /** d is inode m as it was before some of its slots were filled. */
  predicate Lags(m: Inode, d: Inode) {
    && SameMeta(m, d) && |d.addrs| == |m.addrs|
    && forall k :: 0 <= k < |m.addrs| ==> d.addrs[k] == m.addrs[k] || d.addrs[k] == 0
  }

  predicate LagsAt(m: seq<Inode>, d: seq<Inode>, i: nat) { i < |m| ==> i < |d| && Lags(m[i], d[i]) }

  /** The inodes on disk are those in memory, but for slots that have been filled in memory only. */
  ghost predicate Behind(m: seq<Inode>, d: seq<Inode>) {
    |d| == |m| && forall i {:trigger LagsAt(m, d, i)} :: LagsAt(m, d, i)
  }

  /** No inode but i has changed. */
  predicate Only(m: seq<Inode>, m': seq<Inode>, i: nat) { i < |m| == |m'| && m' == m[i := m'[i]] }

  lemma GrownLags(s: Fs, s': Fs, may: set<Ref>, i: nat)
    requires Grown(s, s', may) && i < |s.inodes|
    ensures Lags(s'.inodes[i], s.inodes[i])
  {
    assert InodeOk(s, i) && InodeOk(s', i);
    forall k | 0 <= k <= NDIRECT ensures s.inodes[i].addrs[k] == s'.inodes[i].addrs[k] || s.inodes[i].addrs[k] == 0 {
      var r := if k < NDIRECT then Direct(i, k) else Ind(i);
      assert At(s', r) == At(s, r) || At(s, r) == 0;
    }
  }

  /** What bmap adds keeps the disk behind. */
  lemma GrownBehind(s: Fs, s': Fs, may: set<Ref>, i: nat, d: seq<Inode>)
    requires Grown(s, s', may) && Only(s.inodes, s'.inodes, i) && Behind(s.inodes, d)
    ensures Behind(s'.inodes, d)
  {
    GrownLags(s, s', may, i);
    forall j ensures LagsAt(s'.inodes, d, j) { assert LagsAt(s.inodes, d, j); }
  }

  /** Writing inode i to disk. */
  lemma BehindSync(m: seq<Inode>, m': seq<Inode>, d: seq<Inode>, i: nat)
    requires Behind(m, d) && Only(m, m', i)
    ensures i < |d| && Behind(m', d[i := m'[i]]) && (d == m ==> d[i := m'[i]] == m')
  {
    var d' := d[i := m'[i]];
    forall j ensures LagsAt(m', d', j) { assert LagsAt(m, d, j); }
  }

  /** A place on disk holds what it holds in memory, or nothing. */
  lemma DiskAt(s: Fs, v: View, r: Ref)
    requires Behind(s.inodes, v.inodes) && v.blocks == s.blocks
    ensures At(v, r) == At(s, r) || At(v, r) == 0
    ensures v.inodes == s.inodes ==> At(v, r) == At(s, r)
  {
    assert InodeOk(s, r.i) && LagsAt(s.inodes, v.inodes, r.i);
  }

  lemma PlaceOwned(s: Fs, r: Ref)
    ensures RefOk(s, r)
  {
    assert RefOk(s, r);
  }

  ghost predicate Named(v: View, b: nat) { exists r :: At(v, r) == b }

  /** The bitmap says what the disk v has. */
  ghost predicate Owned(s: View, v: View) {
    forall b: nat {:trigger Named(v, b)} :: b < s.size ==> (b in s.used <==> b < s.nmeta || Named(v, b))
  }

  /** The disk accounts for every block in use exactly if none is in hand and no slot is filled in memory only. */
  lemma OwnedIff(s: Fs, v: View)
    requires Behind(s.inodes, v.inodes) && v.blocks == s.blocks
    ensures Owned(s, v) <==> s.held == {} && v.inodes == s.inodes
  {
    if s.held == {} && v.inodes == s.inodes {
      forall b: nat | b < s.size ensures b in s.used <==> b < s.nmeta || Named(v, b) {
        PlacesOf(s, b);
        forall r ensures At(v, r) == At(s, r) { DiskAt(s, v, r); }
        if exists r :: At(s, r) == b { assert Named(v, b); }
      }
    }
    if Owned(s, v) {
      forall b | b in s.held ensures false { OwnedHeld(s, v, b); }
      forall i | 0 <= i < |s.inodes| ensures v.inodes[i] == s.inodes[i] { OwnedSame(s, v, i); }
    }
  }

  lemma OwnedHeld(s: Fs, v: View, b: nat)
    requires Behind(s.inodes, v.inodes) && v.blocks == s.blocks && Owned(s, v)
    ensures b !in s.held
  {
    assert BitOk(s, b);
    if b in s.held {
      assert Named(v, b);
      var r :| At(v, r) == b;
      DiskAt(s, v, r);
      PlaceOwned(s, r);
    }
  }

  lemma OwnedSame(s: Fs, v: View, i: nat)
    requires Behind(s.inodes, v.inodes) && v.blocks == s.blocks && Owned(s, v) && i < |s.inodes|
    ensures v.inodes[i] == s.inodes[i]
  {
    var m, d := s.inodes[i], v.inodes[i];
    assert LagsAt(s.inodes, v.inodes, i) && InodeOk(s, i);
    forall k | 0 <= k <= NDIRECT ensures d.addrs[k] == m.addrs[k] {
      var r := if k < NDIRECT then Direct(i, k) else Ind(i);
      var b := m.addrs[k];
      assert RefOk(s, r) && OwnOk(s, b) && BitOk(s, b);
      if d.addrs[k] != b {
        assert Named(v, b);
        var q :| At(v, q) == b;
        DiskAt(s, v, q);
        PlaceOwned(s, q);
      }
    }
  }

  // ---- an inode read again from disk

  /** A place that inode i, as it is on disk, does not have. */
  predicate LostPlace(r: Ref, i: nat, d: Inode)
    requires |d.addrs| == NDIRECT + 1
  {
    r.i == i && if r.Direct? then r.k < NDIRECT && d.addrs[r.k] == 0 else d.addrs[NDIRECT] == 0
  }

  ghost function Lost(owner: map<nat, Ref>, i: nat, d: Inode): set<nat>
    requires |d.addrs| == NDIRECT + 1
  {
    set b | b in owner && LostPlace(owner[b], i, d)
  }

  /** Inode i is what the disk has; the blocks it had besides are in use and in no place. */
  ghost function Reloaded(s: View, i: nat, d: Inode): View
    requires i < |s.inodes| && |d.addrs| == NDIRECT + 1
  {
    var u := Lost(s.owner, i, d);
    s.(inodes := s.inodes[i := d], owner := s.owner - u, held := s.held + u)
  }

  lemma ReloadedOk(s: Fs, i: nat, d: Inode)
    requires i < |s.inodes| && Lags(s.inodes[i], d) && |d.addrs| == NDIRECT + 1
    ensures FsOk(Reloaded(s, i, d)) && TakenOut(s, Reloaded(s, i, d), Lost(s.owner, i, d))
  {
    var u, s' := Lost(s.owner, i, d), Reloaded(s, i, d);
    assert InodeOk(s, i);
    forall r ensures At(s', r) == if At(s, r) in u then 0 else At(s, r) {
      assert RefOk(s, r) && RefOk(s, Ind(i)) && OwnOk(s, 0);
    }
    forall n ensures InodeOk(s', n) { assert InodeOk(s, n); }
    TakenOutOk(s, s', u);
  }

  lemma LostSlot(s: Fs, i: nat, d: Inode, k: nat)
    requires i < |s.inodes| && Lags(s.inodes[i], d) && |d.addrs| == NDIRECT + 1 && k <= NDIRECT
    ensures d.addrs[k] != s.inodes[i].addrs[k] ==> s.inodes[i].addrs[k] in Lost(s.owner, i, d)
  {
    var r := if k < NDIRECT then Direct(i, k) else Ind(i);
    assert RefOk(s, r) && At(s, r) == s.inodes[i].addrs[k];
  }

  lemma LostNone(s: Fs, i: nat, b: nat)
    requires HasInode(s, i)
    ensures b !in Lost(s.owner, i, s.inodes[i])
  {
    assert OwnOk(s, b);
  }

  /** Reading the inode again loses a block exactly if the copy in memory had one the disk does not name. */
  lemma LostIff(s: Fs, i: nat, d: Inode)
    requires i < |s.inodes| && Lags(s.inodes[i], d) && |d.addrs| == NDIRECT + 1
    ensures Lost(s.owner, i, d) !! s.held
    ensures Lost(s.owner, i, d) == {} <==> d == s.inodes[i]
  {
    var u, m := Lost(s.owner, i, d), s.inodes[i];
    OwnedNotHeld(s, u);
    if u == {} {
      forall k: nat | k <= NDIRECT ensures d.addrs[k] == m.addrs[k] { LostSlot(s, i, d, k); }
    }
    forall b: nat ensures d == m ==> b !in u { LostNone(s, i, b); }
  }

  // ---- no byte is lost

  /** A byte the disk has no block for reads as zero in memory. */
  ghost predicate LagAt(s: Fs, d: seq<Inode>, n: nat, p: nat) {
    !Mapped(s.(inodes := d), n, p) ==> Content(s, n, p) == 0
  }

  /** What the disk lacks is zeroes: every file reads the same from the disk as from memory. */
  ghost predicate LagZero(s: Fs, d: seq<Inode>) {
    forall n: nat, p: nat {:trigger LagAt(s, d, n, p)} :: LagAt(s, d, n, p)
  }

  /** The bytes of all files are the same. */
  ghost predicate SameFiles(s: Fs, s': Fs) {
    SameInodes(s, s') && forall n: nat, p: nat {:trigger Content(s', n, p)} :: Content(s', n, p) == Content(s, n, p)
  }

  lemma LagSame(s: Fs, n: nat, d: seq<Inode>, p: nat)
    requires n < |s.inodes| == |d| && d[n] == s.inodes[n]
    ensures LagAt(s, d, n, p)
  {
    var v := s.(inodes := d);
    assert At(v, Place(n, p / BSIZE)) == At(s, Place(n, p / BSIZE));
  }

  lemma LagKept(s: Fs, s': Fs, d: seq<Inode>, d': seq<Inode>, n: nat, p: nat)
    requires Behind(s.inodes, d) && Behind(s'.inodes, d') && LagAt(s, d, n, p) && FilledAt(s, s', n, p)
    requires |d'| == |d| && (n < |d| ==> d'[n] == d[n])
    ensures LagAt(s', d', n, p)
  {
    var v, v' := s.(inodes := d), s'.(inodes := d');
    if Mapped(v, n, p) {
      assert InodeOk(s, n) && InodeOk(s', n) && LagsAt(s.inodes, d, n) && LagsAt(s'.inodes, d', n);
      DiskAt(s, v, Place(n, p / BSIZE));
      assert At(s', Place(n, p / BSIZE)) != 0;
    }
  }

  lemma LagFilled(s: Fs, s': Fs, d: seq<Inode>)
    requires Behind(s.inodes, d) && Behind(s'.inodes, d) && LagZero(s, d) && HolesFilled(s, s')
    ensures LagZero(s', d)
  {
    forall n: nat, p: nat ensures LagAt(s', d, n, p) {
      assert LagAt(s, d, n, p) && FilledAt(s, s', n, p);
      LagKept(s, s', d, d, n, p);
    }
  }

  /** Writing inode i to disk, when the other files are as they were. */
  lemma LagSync(s: Fs, s': Fs, d: seq<Inode>, d': seq<Inode>, i: nat)
    requires Behind(s.inodes, d) && Behind(s'.inodes, d') && LagZero(s, d)
    requires i < |s'.inodes| == |d| && d' == d[i := s'.inodes[i]]
    requires forall n: nat, p: nat {:trigger FilledAt(s, s', n, p)} :: n != i ==> FilledAt(s, s', n, p)
    ensures LagZero(s', d')
  {
    forall n: nat, p: nat ensures LagAt(s', d', n, p) {
      if n == i {
        LagSame(s', i, d', p);
      } else {
        assert LagAt(s, d, n, p) && FilledAt(s, s', n, p);
        LagKept(s, s', d, d', n, p);
      }
    }
  }

  /** A file whose places and blocks are the same reads the same. */
  lemma FilledSame(s: Fs, s': Fs, n: nat, p: nat)
    requires s'.blocks == s.blocks && (n < |s'.inodes| <==> n < |s.inodes|)
    requires At(s', Place(n, p / BSIZE)) == At(s, Place(n, p / BSIZE))
    ensures FilledAt(s, s', n, p)
  {
    assert InodeOk(s, n) && InodeOk(s', n);
  }

  /** Reading an inode again from disk loses no byte of any file. */
  lemma ReloadedFiles(s: Fs, i: nat, d: seq<Inode>)
    requires Behind(s.inodes, d) && LagZero(s, d) && i < |s.inodes| && |d[i].addrs| == NDIRECT + 1
    requires FsOk(Reloaded(s, i, d[i]))
    ensures SameFiles(s, Reloaded(s, i, d[i])) && LagZero(Reloaded(s, i, d[i]), d)
  {
    var s' := Reloaded(s, i, d[i]);
    assert LagsAt(s.inodes, d, i);
    forall n: nat, p: nat ensures Content(s', n, p) == Content(s, n, p) && LagAt(s', d, n, p) {
      assert LagAt(s, d, n, p);
      if n == i { ReloadedByte(s, i, d, p); LagSame(s', i, d, p); } else { ReloadedOther(s, i, d, n, p); }
    }
  }

  lemma ReloadedByte(s: Fs, i: nat, d: seq<Inode>, p: nat)
    requires Behind(s.inodes, d) && LagAt(s, d, i, p) && i < |s.inodes| && |d[i].addrs| == NDIRECT + 1
    requires FsOk(Reloaded(s, i, d[i]))
    ensures Content(Reloaded(s, i, d[i]), i, p) == Content(s, i, p)
  {
    var s', v := Reloaded(s, i, d[i]), s.(inodes := d);
    assert InodeOk(s, i);
    assert At(s', Place(i, p / BSIZE)) == At(v, Place(i, p / BSIZE));
    DiskAt(s, v, Place(i, p / BSIZE));
  }

  lemma ReloadedOther(s: Fs, i: nat, d: seq<Inode>, n: nat, p: nat)
    requires Behind(s.inodes, d) && LagAt(s, d, n, p) && i < |s.inodes| && n != i && |d[i].addrs| == NDIRECT + 1
    requires FsOk(Reloaded(s, i, d[i]))
    ensures Content(Reloaded(s, i, d[i]), n, p) == Content(s, n, p) && LagAt(Reloaded(s, i, d[i]), d, n, p)
  {
    var s', v, v' := Reloaded(s, i, d[i]), s.(inodes := d), Reloaded(s, i, d[i]).(inodes := d);
    assert At(s', Place(n, p / BSIZE)) == At(s, Place(n, p / BSIZE));
    assert At(v', Place(n, p / BSIZE)) == At(v, Place(n, p / BSIZE));
    FilledSame(s, s', n, p);
  }

  // ---- the slots a read fills

  /** The slot in the inode that the number of block bn hangs on. */
  function SlotOf(i: nat, bn: nat): Ref { if bn < NDIRECT then Direct(i, bn) else Ind(i) }

  /** No block is free. */
  ghost predicate FullView(s: View) { forall c: nat :: c < s.size ==> c in s.used }

  predicate SlotThere(s: View, i: nat, p: nat) { At(s, SlotOf(i, p / BSIZE)) != 0 }

  /** Every slot of the inode that the bytes [off, off + n) hang on is filled. */
  ghost predicate SlotsThere(s: View, i: nat, off: nat, n: nat) {
    forall p: nat {:trigger SlotThere(s, i, p)} :: off <= p < off + n ==> SlotThere(s, i, p)
  }

  /** bmap, and the inode: a missing slot is filled unless the disk is full, and no other slot is. */
  predicate SlotStep(s: View, s': View, i: nat, bn: nat)
    requires i < |s.inodes| && i < |s'.inodes|
  {
    && Lags(s'.inodes[i], s.inodes[i])
    && if At(s, SlotOf(i, bn)) != 0 then s'.inodes[i] == s.inodes[i] && (bn < NDIRECT ==> s' == s)
       else s' == s || (At(s', SlotOf(i, bn)) != 0 && exists c :: 0 <= c < s.size && c !in s.used)
  }

  /** readi, n bytes on: the inode is as it was exactly if no slot on the way was missing. */
  ghost predicate SlotsRead(s: View, s': View, i: nat, off: nat, n: nat) {
    && i < |s.inodes| && i < |s'.inodes| && Lags(s'.inodes[i], s.inodes[i])
    && if SlotsThere(s, i, off, n)
       then s'.inodes[i] == s.inodes[i] && (s' == s || (At(s, Ind(i)) != 0 && off + n > NDIRECT * BSIZE))
       else s'.inodes[i] != s.inodes[i] && !FullView(s)
  }

  lemma SlotsMore(s0: Fs, s: Fs, s': Fs, i: nat, off: nat, n: nat, k: nat)
    requires SlotsRead(s0, s, i, off, n) && i < |s'.inodes| && SlotStep(s, s', i, (off + n) / BSIZE)
    requires 0 < k && (off + n) % BSIZE + k <= BSIZE && SlotThere(s', i, off + n)
    ensures SlotsRead(s0, s', i, off, n + k)
  {
    assert InodeOk(s0, i) && InodeOk(s, i) && InodeOk(s', i);
    assert SlotThere(s0, i, off + n) || !SlotThere(s0, i, off + n);
    forall p: nat | off + n <= p < off + n + k ensures SlotThere(s0, i, p) <==> SlotThere(s0, i, off + n) {
      SameBlock(off + n, p - off - n);
    }
  }

  /** readi, k bytes of the block of byte p: none, if there is no block for it. */
  ghost predicate SlotPassed(s: View, s': View, i: nat, p: nat, k: nat) {
    && i < |s.inodes| && i < |s'.inodes| && SlotStep(s, s', i, p / BSIZE) && p % BSIZE + k <= BSIZE
    && if k == 0 then At(s', Place(i, p / BSIZE)) == 0 && FullView(s') else SlotThere(s', i, p)
  }

  /** After k more bytes of `want`: the read goes on, or it ends, and then the inode is as it was exactly if the disk
      was full or no slot was missing. */
  ghost predicate SlotsNow(s: View, s': View, i: nat, off: nat, n: nat, k: nat, want: nat) {
    && i < |s.inodes| && i < |s'.inodes|
    && if k == 0 then s'.inodes[i] == s.inodes[i] <==> FullView(s) || SlotsThere(s, i, off, want)
       else SlotsRead(s, s', i, off, n + k)
  }

  lemma SlotsNext(s0: Fs, s: Fs, s': Fs, i: nat, off: nat, n: nat, k: nat, want: nat)
    requires SlotsRead(s0, s, i, off, n) && SlotPassed(s, s', i, off + n, k) && n < want
    ensures SlotsNow(s0, s', i, off, n, k, want)
  {
    if k > 0 {
      SlotsMore(s0, s, s', i, off, n, k);
    } else {
      assert InodeOk(s0, i) && InodeOk(s, i) && InodeOk(s', i);
      assert SlotThere(s0, i, off + n) || !SlotThere(s0, i, off + n);
    }
  }
}
