/** Directories of kernel/fs.c: files of entries of an inode number and a name field. */
module DirCode {
  import opened Options
  import opened DirNames
  import opened FsCode
  import opened FsContents
  import opened FsDisk
  import opened FsState

  const T_DIR: nat := 1
  const DIRENT: nat := 16    // sizeof(struct dirent)

  /** The entry at off of directory i, as bytes. */
  ghost function Dirent(s: Fs, i: nat, off: nat): (e: seq<nat>)
    ensures |e| == DIRENT && forall k :: 0 <= k < DIRENT ==> e[k] == Content(s, i, off + k)
  {
    seq<nat>(DIRENT, k requires 0 <= k => Content(s, i, off + k))
  }

  function Inum(e: seq<nat>): nat
    requires |e| == DIRENT
  {
    e[0] + 0x100 * e[1]
  }

  /** The entry is in use and for that name. */
  predicate Matches(e: seq<nat>, name: seq<nat>)
    requires |e| == DIRENT
  {
    Inum(e) != 0 && Canon(e[2..]) == name
  }

  /** Entry k of directory i. */
  ghost function EntryAt(s: Fs, i: nat, k: nat): (e: seq<nat>)
    ensures |e| == DIRENT
  {
    Dirent(s, i, DIRENT * k)
  }

  /** What directory i has for a name: the first entry that matches, from number k on. */
  ghost function LookupFrom(s: Fs, i: nat, name: seq<nat>, k: nat): Option<nat>
    requires i < |s.inodes|
    decreases s.inodes[i].size - DIRENT * k
  {
    if DIRENT * k >= s.inodes[i].size then None
    else if Matches(EntryAt(s, i, k), name) then Some(Inum(EntryAt(s, i, k)))
    else LookupFrom(s, i, name, k + 1)
  }

  ghost function Lookup(s: Fs, i: nat, name: seq<nat>): Option<nat>
    requires i < |s.inodes|
  {
    LookupFrom(s, i, name, 0)
  }

  lemma DirentSame(s: Fs, s': Fs, i: nat, off: nat)
    requires SameFiles(s, s')
    ensures Dirent(s', i, off) == Dirent(s, i, off)
  {
    forall k | 0 <= k < DIRENT ensures Dirent(s', i, off)[k] == Dirent(s, i, off)[k] {
      assert Content(s', i, off + k) == Content(s, i, off + k);
    }
  }

  /** Directories that read the same say the same. */
  lemma {:induction false} LookupSame(s: Fs, s': Fs, i: nat, name: seq<nat>, k: nat)
    requires SameFiles(s, s') && i < |s.inodes|
    ensures LookupFrom(s', i, name, k) == LookupFrom(s, i, name, k)
    decreases s.inodes[i].size - DIRENT * k
  {
    if DIRENT * k < s.inodes[i].size {
      DirentSame(s, s', i, DIRENT * k);
      LookupSame(s, s', i, name, k + 1);
    }
  }

  lemma FilledFiles(s: Fs, s': Fs)
    requires HolesFilled(s, s')
    ensures SameFiles(s, s')
  {
    forall n: nat, p: nat ensures Content(s', n, p) == Content(s, n, p) { assert FilledAt(s, s', n, p); }
  }

  /** What reading the directory does: holes are filled, and the slots of the inode only if one was missing. */
  ghost predicate Looked(s: Fs, s': Fs, i: nat) {
    && HolesFilled(s, s') && Only(s.inodes, s'.inodes, i)
    && (NoHoles(s, i) ==> s' == s)
    && (SlotsThere(s, i, 0, s.inodes[i].size) ==> s'.inodes == s.inodes)
  }

  lemma LookedTrans(a: Fs, b: Fs, c: Fs, i: nat)
    requires Looked(a, b, i) && Looked(b, c, i)
    ensures Looked(a, c, i)
  {
    HolesTrans(a, b, c);
    if SlotsThere(a, i, 0, a.inodes[i].size) { SlotsSame(a, b, i, 0, a.inodes[i].size); }
  }

  lemma SlotsSame(s: Fs, s': Fs, i: nat, off: nat, n: nat)
    requires s'.inodes == s.inodes && SlotsThere(s, i, off, n)
    ensures SlotsThere(s', i, off, n)
  {
    forall p: nat | off <= p < off + n ensures SlotThere(s', i, p) { assert SlotThere(s, i, p); }
  }

  /** One entry, read by dirlookup or dirlink; false is their panic: the size is not a multiple of 16, or there is no
      block to read it into. */
  method ReadEntry(fs: FileSystem, i: nat, off: nat) returns (ok: bool, de: seq<nat>)
    requires fs.Valid() && fs.Typed(i) && off < fs.inodes[i].size
    modifies fs`bitmap, fs`blocks, fs`inodes, fs`g
    ensures fs.Valid() && fs.Typed(i) && Looked(old(fs.g), fs.g, i)
    ensures ok ==> de == Dirent(old(fs.g), i, off) && off + DIRENT <= old(fs.inodes)[i].size
    ensures !ok ==> off + DIRENT > old(fs.inodes)[i].size || (fs.Full() && !NoHoles(old(fs.g), i))
  {
    ghost var s := fs.g;
    assert SizeOk(s, i);
    if SlotsThere(s, i, 0, s.inodes[i].size) { SlotsPart(s, i, off, DIRENT); }
    de := fs.Readi(i, off, DIRENT);
    ok := |de| == DIRENT;
    if ok { ReadsDirent(s, fs.g, i, off, de); }
  }

  lemma ReadsDirent(s: Fs, s': Fs, i: nat, off: nat, de: seq<nat>)
    requires HolesFilled(s, s') && Reads(s', i, off, de) && |de| == DIRENT
    ensures de == Dirent(s, i, off)
  {
    FilledFiles(s, s');
    DirentSame(s, s', i, off);
    forall k | 0 <= k < DIRENT ensures de[k] == Dirent(s', i, off)[k] { assert ByteIs(s', i, off + k, de[k]); }
  }

  lemma SlotsPart(s: Fs, i: nat, off: nat, n: nat)
    requires i < |s.inodes| && SlotsThere(s, i, 0, s.inodes[i].size)
    ensures SlotsThere(s, i, off, Clip(off, n, s.inodes[i].size))
  {
    forall p: nat | off <= p < off + Clip(off, n, s.inodes[i].size) ensures SlotThere(s, i, p) { }
  }

  /** dirlookup, but for the iget: the inode number for the name, 0 if there is none. */
  method Dirlookup(fs: FileSystem, i: nat, name: seq<nat>) returns (ok: bool, inum: nat)
    requires fs.Valid() && fs.Typed(i) && |name| == DIRSIZ
    modifies fs`bitmap, fs`blocks, fs`inodes, fs`g
    ensures fs.Valid() && fs.Typed(i) && Looked(old(fs.g), fs.g, i)
    ensures ok ==> Lookup(old(fs.g), i, Canon(name)) == if inum == 0 then None else Some(inum)
    ensures !ok ==> old(fs.inodes)[i].kind != T_DIR || old(fs.inodes)[i].size % DIRENT != 0
                    || (fs.Full() && !NoHoles(old(fs.g), i))
  {
    ghost var s0 := fs.g;
    HolesNone(s0);
    if fs.inodes[i].kind != T_DIR { return false, 0; }
    var k := 0;
    while DIRENT * k < fs.inodes[i].size
      invariant 0 <= k && fs.Valid() && fs.Typed(i) && Looked(s0, fs.g, i)
      invariant Lookup(s0, i, Canon(name)) == LookupFrom(s0, i, Canon(name), k)
      decreases s0.inodes[i].size - DIRENT * k
    {
      var de;
      ok, de := NextEntry(fs, i, k, s0);
      if !ok { return false, 0; }
      var hit := IsEntry(de, name);
      if hit { return true, Inum(de); }
      LookupStep(s0, i, Canon(name), k);
      k := k + 1;
    }
    return true, 0;
  }

  lemma LookupStep(s: Fs, i: nat, name: seq<nat>, k: nat)
    requires i < |s.inodes| && DIRENT * k < s.inodes[i].size && !Matches(EntryAt(s, i, k), name)
    ensures LookupFrom(s, i, name, k) == LookupFrom(s, i, name, k + 1)
  {
  }

  method IsEntry(de: seq<nat>, name: seq<nat>) returns (hit: bool)
    requires |de| == DIRENT && |name| == DIRSIZ
    ensures hit <==> Matches(de, Canon(name))
  {
    if Inum(de) == 0 { return false; }
    hit := NameCmp(name, de[2..]);
  }

  /** Entry k of a directory that was s0 before any was read. */
  method NextEntry(fs: FileSystem, i: nat, k: nat, ghost s0: Fs) returns (ok: bool, de: seq<nat>)
    requires fs.Valid() && fs.Typed(i) && Looked(s0, fs.g, i) && DIRENT * k < s0.inodes[i].size
    modifies fs`bitmap, fs`blocks, fs`inodes, fs`g
    ensures fs.Valid() && fs.Typed(i) && Looked(s0, fs.g, i)
    ensures ok ==> de == EntryAt(s0, i, k) && DIRENT * (k + 1) <= s0.inodes[i].size
    ensures !ok ==> s0.inodes[i].size % DIRENT != 0 || (fs.Full() && !NoHoles(s0, i))
  {
    ghost var s := fs.g;
    ok, de := ReadEntry(fs, i, DIRENT * k);
    LookedTrans(s0, s, fs.g, i);
    FilledFiles(s0, s);
    DirentSame(s0, s, i, DIRENT * k);
    if DIRENT * (k + 1) > s0.inodes[i].size { NotWhole(s0.inodes[i].size, k); }
  }

  // ---- dirlink

  predicate EntryIs(was: seq<nat>, now: seq<nat>, k: nat, de: seq<nat>, e: nat) { now == if e == k then de else was }

  /** Entry k of directory i is de now, where there was a free one or the end; the others are as they were. */
  ghost predicate Entered(s: Fs, s': Fs, i: nat, k: nat, de: seq<nat>) {
    && i < |s.inodes| && i < |s'.inodes| && |de| == DIRENT && DIRENT * k <= s.inodes[i].size
    && (DIRENT * k < s.inodes[i].size ==> Inum(EntryAt(s, i, k)) == 0)
    && s'.inodes[i].size == (if DIRENT * (k + 1) > s.inodes[i].size then DIRENT * (k + 1) else s.inodes[i].size)
    && forall e: nat {:trigger EntryAt(s', i, e)} ::
         EntryIs(EntryAt(s, i, e), EntryAt(s', i, e), k, de, e)
  }

  lemma SplicedEnters(s: Fs, s': Fs, i: nat, k: nat, de: seq<nat>)
    requires Spliced(s, s', i, DIRENT * k, de) && |de| == DIRENT && DIRENT * k <= s.inodes[i].size
    requires DIRENT * k < s.inodes[i].size ==> Inum(EntryAt(s, i, k)) == 0
    ensures Entered(s, s', i, k, de)
  {
    forall e: nat ensures EntryIs(EntryAt(s, i, e), EntryAt(s', i, e), k, de, e) {
      var was, now := EntryAt(s, i, e), EntryAt(s', i, e);
      forall j | 0 <= j < DIRENT ensures now[j] == (if e == k then de else was)[j] {
        assert WroteAt(s, s', i, DIRENT * k, de, i, DIRENT * e + j);
      }
    }
  }

  /** Another name is looked up as before. */
  lemma {:induction false} OtherName(s: Fs, s': Fs, i: nat, k: nat, de: seq<nat>, m: seq<nat>, e: nat)
    requires Entered(s, s', i, k, de) && !Matches(de, m)
    ensures LookupFrom(s', i, m, e) == LookupFrom(s, i, m, e)
    decreases s'.inodes[i].size - DIRENT * e
  {
    if DIRENT * e < s'.inodes[i].size {
      assert EntryIs(EntryAt(s, i, e), EntryAt(s', i, e), k, de, e);
      OtherName(s, s', i, k, de, m, e + 1);
    }
  }

  /** The new name is found. */
  lemma {:induction false} NewName(s: Fs, s': Fs, i: nat, k: nat, de: seq<nat>, m: seq<nat>, e: nat)
    requires Entered(s, s', i, k, de) && e <= k && Matches(de, m) && LookupFrom(s, i, m, e) == None
    ensures LookupFrom(s', i, m, e) == Some(Inum(de))
    decreases k - e
  {
    assert EntryIs(EntryAt(s, i, e), EntryAt(s', i, e), k, de, e);
    if e < k { NewName(s, s', i, k, de, m, e + 1); }
  }

  /** Directory i now has inode number inum for the name, and for every other name what it had. */
  ghost predicate Linked(s: Fs, s': Fs, i: nat, name: seq<nat>, inum: nat) {
    && i < |s.inodes| && i < |s'.inodes|
    && Lookup(s, i, name) == None && Lookup(s', i, name) == (if inum == 0 then None else Some(inum))
    && forall m :: m != name ==> Lookup(s', i, m) == Lookup(s, i, m)
  }

  lemma EnteredLinks(s: Fs, s': Fs, i: nat, k: nat, de: seq<nat>, name: seq<nat>)
    requires Entered(s, s', i, k, de) && Canon(de[2..]) == name && Lookup(s, i, name) == None
    ensures Linked(s, s', i, name, Inum(de))
  {
    forall m ensures m != name || Inum(de) == 0 ==> Lookup(s', i, m) == Lookup(s, i, m) {
      if m != name || Inum(de) == 0 { OtherName(s, s', i, k, de, m, 0); }
    }
    if Inum(de) != 0 { NewName(s, s', i, k, de, name, 0); }
  }

  /** The name as strncpy writes it. */
  function NameBuf(name: seq<nat>): (b: seq<nat>)
    ensures |b| == DIRSIZ
  {
    if |name| >= DIRSIZ then name[..DIRSIZ] else name + seq(DIRSIZ - |name|, k => 0)
  }

  /** A size that ends within entry k. */
  lemma NotWhole(size: nat, k: nat)
    requires DIRENT * k < size < DIRENT * (k + 1)
    ensures size % DIRENT != 0
  {
  }

  /** The place for a new entry: the first free one, or the end. */
  method FreeEntry(fs: FileSystem, i: nat, ghost s0: Fs) returns (ok: bool, k: nat)
    requires fs.Valid() && fs.Typed(i) && Looked(s0, fs.g, i)
    modifies fs`bitmap, fs`blocks, fs`inodes, fs`g
    ensures fs.Valid() && fs.Typed(i) && Looked(s0, fs.g, i)
    ensures ok ==> DIRENT * k <= s0.inodes[i].size
                   && (DIRENT * k < s0.inodes[i].size ==> Inum(EntryAt(s0, i, k)) == 0)
    ensures !ok ==> s0.inodes[i].size % DIRENT != 0 || (fs.Full() && !NoHoles(s0, i))
  {
    k := 0;
    while DIRENT * k < fs.inodes[i].size
      invariant fs.Valid() && fs.Typed(i) && Looked(s0, fs.g, i) && DIRENT * k <= s0.inodes[i].size
      decreases s0.inodes[i].size - DIRENT * k
    {
      var de;
      ok, de := NextEntry(fs, i, k, s0);
      if !ok { return; }
      if Inum(de) == 0 { return; }
      k := k + 1;
    }
    return true, k;
  }

  lemma EnteredAfter(s0: Fs, s: Fs, s': Fs, i: nat, k: nat, de: seq<nat>, name: seq<nat>)
    requires Looked(s0, s, i) && Spliced(s, s', i, DIRENT * k, de) && |de| == DIRENT
    requires DIRENT * k <= s0.inodes[i].size
    requires DIRENT * k < s0.inodes[i].size ==> Inum(EntryAt(s0, i, k)) == 0
    requires Canon(de[2..]) == name && Lookup(s0, i, name) == None
    ensures Linked(s0, s', i, name, Inum(de))
    ensures forall n: nat, p: nat :: n != i ==> Content(s', n, p) == Content(s0, n, p)
  {
    FilledFiles(s0, s);
    DirentSame(s0, s, i, DIRENT * k);
    SplicedEnters(s, s', i, k, de);
    forall m ensures Lookup(s, i, m) == Lookup(s0, i, m) { LookupSame(s0, s, i, m, 0); }
    EnteredLinks(s, s', i, k, de, name);
    forall n: nat, p: nat | n != i ensures Content(s', n, p) == Content(s0, n, p) {
      assert WroteAt(s, s', i, DIRENT * k, de, n, p) && Content(s, n, p) == Content(s0, n, p);
    }
  }

  lemma NothingWritten(s0: Fs, s: Fs, s': Fs, i: nat, off: nat)
    requires Looked(s0, s, i) && Spliced(s, s', i, off, []) && off <= s0.inodes[i].size
    ensures SameFiles(s0, s')
  {
    FilledFiles(s0, s);
    forall n: nat, p: nat ensures Content(s', n, p) == Content(s0, n, p) {
      assert WroteAt(s, s', i, off, [], n, p) && Content(s, n, p) == Content(s0, n, p);
    }
  }

  lemma WholeEntry(k: nat, w: nat)
    requires w < DIRENT && (w > 0 ==> (DIRENT * k + w) % BSIZE == 0)
    ensures w == 0
  {
  }

  lemma TwoBytes(x: nat)
    ensures x % 0x100 + 0x100 * (x / 0x100 % 0x100) == x % 0x1_0000
  {
    var q := x / 0x100;
    assert x == 0x100 * q + x % 0x100 && q == 0x100 * (q / 0x100) + q % 0x100;
    assert x == 0x1_0000 * (q / 0x100) + (0x100 * (q % 0x100) + x % 0x100);
  }

  function MakeDirent(inum: nat, name: seq<nat>): (de: seq<nat>)
    requires |name| == DIRSIZ
    ensures |de| == DIRENT && Inum(de) == inum % 0x1_0000 && de[2..] == name
  {
    TwoBytes(inum);
    [inum % 0x100, inum / 0x100 % 0x100] + name
  }

  /** dirlink, the write: the entry de goes to place k of a directory that was s0 before it was read. */
  method WriteEntry(fs: FileSystem, i: nat, k: nat, de: seq<nat>, ghost name: seq<nat>, ghost s0: Fs)
    returns (done: bool)
    requires fs.Valid() && fs.Typed(i) && Looked(s0, fs.g, i) && |de| == DIRENT && Canon(de[2..]) == name
    requires DIRENT * k <= s0.inodes[i].size && Lookup(s0, i, name) == None
    requires DIRENT * k < s0.inodes[i].size ==> Inum(EntryAt(s0, i, k)) == 0
    modifies fs
    ensures fs.Valid() && |fs.inodes| == |s0.inodes|
    ensures done ==> Linked(s0, fs.g, i, name, Inum(de))
                     && forall n: nat, p: nat :: n != i ==> Content(fs.g, n, p) == Content(s0, n, p)
    ensures !done ==> SameFiles(s0, fs.g) && (fs.Full() || s0.inodes[i].size + DIRENT > MAXFILE * BSIZE)
    ensures done ==> fs.g.held == s0.held && Only(s0.inodes, fs.inodes, i)
                     && fs.dinodes == old(fs.dinodes)[i := fs.inodes[i]]
  {
    ghost var s := fs.g;
    FilledFiles(s0, s);
    assert SizeOk(s, i);
    var w := fs.Writei(i, DIRENT * k, de);
    done := w == DIRENT;
    if done {
      assert de[..w] == de;
      EnteredAfter(s0, s, fs.g, i, k, de, name);
    } else if w >= 0 {
      WholeEntry(k, w);
      NothingWritten(s0, s, fs.g, i, DIRENT * k);
    }
  }

  /** dirlink: a new entry, in the first free place or at the end. -1: the name is there already, or there is no room,
      and then no file has changed. false is the panic of a read. */
  method Dirlink(fs: FileSystem, i: nat, name: seq<nat>, inum: nat) returns (ok: bool, r: int)
    requires fs.Valid() && fs.Typed(i) && IsString(name)
    modifies fs
    ensures fs.Valid() && (ok ==> r == 0 || r == -1)
    ensures ok && r == 0 ==> Linked(old(fs.g), fs.g, i, Short(name), inum % 0x1_0000)
                             && forall n: nat, p: nat :: n != i ==> Content(fs.g, n, p) == Content(old(fs.g), n, p)
    ensures ok && r == -1 ==>
              SameFiles(old(fs.g), fs.g)
              && (Lookup(old(fs.g), i, Short(name)) != None || fs.Full()
                  || old(fs.inodes)[i].size + DIRENT > MAXFILE * BSIZE)
    ensures !ok ==> old(fs.inodes)[i].kind != T_DIR || old(fs.inodes)[i].size % DIRENT != 0
                    || (fs.Full() && !NoHoles(old(fs.g), i))
    ensures ok && r == 0 && old(fs.DiskOwned()) ==> fs.DiskOwned()
  {
    ghost var s0 := fs.g;
    fs.DiskOwnedIff();
    var buf := NameBuf(name);
    NameField(name, buf);
    var found;
    ok, found := Dirlookup(fs, i, buf);
    FilledFiles(s0, fs.g);
    if !ok || found != 0 { return ok, -1; }
    var k;
    ok, k := FreeEntry(fs, i, s0);
    if !ok { return false, -1; }
    var done := WriteEntry(fs, i, k, MakeDirent(inum, buf), Short(name), s0);
    fs.DiskOwnedIff();
    return true, if done then 0 else -1;
  }
}
