/** Blocks, inodes and the free bitmap of kernel/fs.c: which block belongs to what, and the elementary changes. */
module FsState {
  const BSIZE: nat := 1024
  const NDIRECT: nat := 12
  const NINDIRECT: nat := 256      // BSIZE / sizeof(uint)
  const MAXFILE: nat := 268        // NDIRECT + NINDIRECT

  datatype Inode = Inode(kind: nat, nlink: nat, size: nat, addrs: seq<nat>)

  /** A place that can hold a block number: a direct slot, the indirect slot, an entry of the indirect block. */
  datatype Ref = Direct(i: nat, k: nat) | Ind(i: nat) | Entry(i: nat, j: nat)

  /** The file system. Blocks below `nmeta` are metadata; `used` is the bitmap; `owner` says which place holds each
      data block in use, and `held` are blocks in use that are in no place: in hand, or lost. */
  datatype View = View(size: nat, nmeta: nat, used: set<nat>, blocks: map<nat, seq<nat>>, inodes: seq<Inode>,
                       owner: map<nat, Ref>, held: set<nat>)

  // ---- words in a block

  /** Entry j of an indirect block: four bytes, least significant first. */
  function Word(b: seq<nat>, j: nat): nat
    requires |b| == BSIZE && j < NINDIRECT
  {
    b[4 * j] + 0x100 * b[4 * j + 1] + 0x1_0000 * b[4 * j + 2] + 0x100_0000 * b[4 * j + 3]
  }

  function PutWord(b: seq<nat>, j: nat, x: nat): (r: seq<nat>)
    requires |b| == BSIZE && j < NINDIRECT
    ensures |r| == BSIZE
  {
    b[4 * j := x % 0x100][4 * j + 1 := x / 0x100 % 0x100][4 * j + 2 := x / 0x1_0000 % 0x100]
     [4 * j + 3 := x / 0x100_0000 % 0x100]
  }

  lemma WordBytes(x: nat)
    requires x < 0x1_0000_0000
    ensures x == x % 0x100 + 0x100 * (x / 0x100 % 0x100) + 0x1_0000 * (x / 0x1_0000 % 0x100)
                 + 0x100_0000 * (x / 0x100_0000 % 0x100)
  {
    var a := x / 0x100;
    var b := a / 0x100;
    assert b == x / 0x1_0000 && b / 0x100 == x / 0x100_0000;
  }

  lemma WordPut(b: seq<nat>, j: nat, x: nat)
    requires |b| == BSIZE && j < NINDIRECT && x < 0x1_0000_0000
    ensures Word(PutWord(b, j, x), j) == x
    ensures forall k: nat :: k < NINDIRECT && k != j ==> Word(PutWord(b, j, x), k) == Word(b, k)
  {
    WordBytes(x);
  }

  function Zeros(): (b: seq<nat>)
    ensures |b| == BSIZE
    ensures forall j: nat :: j < NINDIRECT ==> Word(b, j) == 0
  {
    seq(BSIZE, i => 0)
  }

  // ---- who owns what

  predicate HasInode(s: View, i: nat) { i < |s.inodes| && |s.inodes[i].addrs| == NDIRECT + 1 }

  /** The block number in place r, 0 if none. */
  function At(s: View, r: Ref): nat {
    if !HasInode(s, r.i) then 0
    else match r
      case Direct(i, k) => if k < NDIRECT then s.inodes[i].addrs[k] else 0
      case Ind(i) => s.inodes[i].addrs[NDIRECT]
      case Entry(i, j) =>
        var b := s.inodes[i].addrs[NDIRECT];
        if b == 0 || j >= NINDIRECT || b !in s.blocks || |s.blocks[b]| != BSIZE then 0 else Word(s.blocks[b], j)
  }

  predicate InData(s: View, b: nat) { s.nmeta <= b < s.size }

  /** A data block in use is where its owner says. */
  predicate OwnOk(s: View, b: nat) { b in s.owner ==> InData(s, b) && At(s, s.owner[b]) == b }

  /** What a place holds is a block that belongs to it. */
  predicate RefOk(s: View, r: Ref) { At(s, r) != 0 ==> At(s, r) in s.owner && s.owner[At(s, r)] == r }

  /** A bit is set if and only if the block is metadata, or owned, or in hand; never two of these. */
  predicate BitOk(s: View, b: nat) {
    && (b in s.used <==> b < s.nmeta || b in s.owner || b in s.held)
    && (b in s.held ==> InData(s, b) && b !in s.owner)
  }

  predicate BlockOk(s: View, b: nat) { InData(s, b) ==> b in s.blocks && |s.blocks[b]| == BSIZE }

  predicate InodeOk(s: View, i: nat) { i < |s.inodes| ==> |s.inodes[i].addrs| == NDIRECT + 1 }

  ghost predicate FsOk(s: View) {
    && 0 < s.nmeta <= s.size < 0x1_0000_0000
    && (forall i {:trigger InodeOk(s, i)} :: InodeOk(s, i))
    && (forall b {:trigger BlockOk(s, b)} :: BlockOk(s, b))
    && (forall b {:trigger OwnOk(s, b)} :: OwnOk(s, b))
    && (forall r {:trigger RefOk(s, r)} :: RefOk(s, r))
    && (forall b {:trigger BitOk(s, b)} :: BitOk(s, b))
  }

  type Fs = s: View | FsOk(s) ghost witness View(1, 1, {0}, map[], [], map[], {})

  /** A bit is set if and only if the block is metadata, in some place, or in hand; never two of these, and never in
      two places. */
  lemma PlacesOf(s: Fs, b: nat)
    requires b < s.size
    ensures b in s.used <==> b < s.nmeta || b in s.held || exists r :: At(s, r) == b
    ensures forall r, q :: At(s, r) == b && At(s, q) == b && b != 0 ==> r == q && b >= s.nmeta && b !in s.held
  {
    assert BitOk(s, b) && OwnOk(s, b);
    forall r, q | At(s, r) == b && At(s, q) == b && b != 0 ensures r == q && b >= s.nmeta && b !in s.held {
      assert RefOk(s, r) && RefOk(s, q);
    }
    if b >= s.nmeta {
      forall r | At(s, r) == b ensures b in s.owner { assert RefOk(s, r); }
    }
  }

  // ---- between calls

  /** A free inode holds no block. */
  predicate EmptyOk(s: View, r: Ref) { r.i < |s.inodes| && s.inodes[r.i].kind == 0 ==> At(s, r) == 0 }

  predicate SizeOk(s: View, i: nat) { i < |s.inodes| ==> s.inodes[i].size <= MAXFILE * BSIZE }

  /** Free inodes are empty, and sizes are within what an inode can map. */
  ghost predicate AtRest(s: View) {
    && (forall r {:trigger EmptyOk(s, r)} :: EmptyOk(s, r))
    && (forall i {:trigger SizeOk(s, i)} :: SizeOk(s, i))
  }

  /** Only inodes that are allocated have gained blocks, and no inode has been freed. */
  lemma RestKept(s: View, s': View)
    requires AtRest(s) && |s'.inodes| == |s.inodes|
    requires forall i :: 0 <= i < |s.inodes| ==>
               (s'.inodes[i].kind == 0 ==> s.inodes[i].kind == 0) && s'.inodes[i].size <= MAXFILE * BSIZE
    requires forall r {:trigger At(s', r)} ::
               At(s', r) == At(s, r) || At(s', r) == 0 || (r.i < |s'.inodes| && s'.inodes[r.i].kind != 0)
    ensures AtRest(s')
  {
    forall r ensures EmptyOk(s', r) { assert EmptyOk(s, r); }
  }

  function WithInode(s: View, i: nat, n: Inode): View
    requires i < |s.inodes|
  {
    s.(inodes := s.inodes[i := n])
  }

  /** Changing an inode but for its addresses moves no block. */
  lemma WithInodeOk(s: Fs, i: nat, n: Inode)
    requires i < |s.inodes| && n.addrs == s.inodes[i].addrs
    ensures FsOk(WithInode(s, i, n)) && forall r :: At(WithInode(s, i, n), r) == At(s, r)
  {
    var s' := WithInode(s, i, n);
    forall r ensures At(s', r) == At(s, r) { }
    forall m ensures InodeOk(s', m) { assert InodeOk(s, m); }
    forall c ensures BlockOk(s', c) { assert BlockOk(s, c); }
    forall c ensures BitOk(s', c) { assert BitOk(s, c); }
    forall r ensures RefOk(s', r) { assert RefOk(s, r); }
    forall c ensures OwnOk(s', c) { assert OwnOk(s, c); }
  }

  const NOADDRS: seq<nat> := [0, 0, 0, 0, 0, 0, 0, 0, 0, 0, 0, 0, 0]

  /** An inode that holds no block has no address in it. */
  lemma NoAddrs(s: Fs, i: nat)
    requires i < |s.inodes| && forall r: Ref :: r.i == i ==> At(s, r) == 0
    ensures s.inodes[i].addrs == NOADDRS
  {
    assert InodeOk(s, i);
    assert At(s, Ind(i)) == 0;
    forall k: nat | k < NDIRECT ensures s.inodes[i].addrs[k] == 0 { assert At(s, Direct(i, k)) == 0; }
  }

  // ---- balloc and bfree

  function Alloc(s: View, b: nat): View {
    s.(used := s.used + {b}, blocks := s.blocks[b := Zeros()], held := s.held + {b})
  }

  function Free(s: View, b: nat): View { s.(used := s.used - {b}, held := s.held - {b}) }

  lemma AtOther(s: View, s': View, r: Ref)
    requires s'.inodes == s.inodes
    requires forall b :: b in s.blocks && (b in s.owner || b in s.held) ==>
               b in s'.blocks && s'.blocks[b] == s.blocks[b]
    requires FsOk(s)
    ensures At(s', r) == At(s, r)
  {
    assert RefOk(s, Ind(r.i));
    if HasInode(s, r.i) && s.inodes[r.i].addrs[NDIRECT] != 0 {
      var b := s.inodes[r.i].addrs[NDIRECT];
      assert OwnOk(s, b) && BlockOk(s, b);
    }
  }

  lemma AllocOk(s: Fs, b: nat)
    requires InData(s, b) && b !in s.used
    ensures FsOk(Alloc(s, b))
  {
    var s' := Alloc(s, b);
    assert BitOk(s, b);
    forall i ensures InodeOk(s', i) { assert InodeOk(s, i); }
    forall c ensures BlockOk(s', c) { assert BlockOk(s, c); }
    forall c ensures BitOk(s', c) { assert BitOk(s, c); }
    forall r ensures RefOk(s', r) { assert RefOk(s, r); AtOther(s, s', r); }
    forall c ensures OwnOk(s', c) {
      assert OwnOk(s, c);
      if c in s.owner { AtOther(s, s', s.owner[c]); }
    }
  }

  lemma AllocAt(s: Fs, b: nat, r: Ref)
    requires InData(s, b) && b !in s.used
    ensures FsOk(Alloc(s, b)) && At(Alloc(s, b), r) == At(s, r)
  {
    AllocOk(s, b);
    assert BitOk(s, b);
    AtOther(s, Alloc(s, b), r);
  }

  lemma FreeOk(s: Fs, b: nat)
    requires b in s.held
    ensures b in s.used && FsOk(Free(s, b))
  {
    var s' := Free(s, b);
    assert BitOk(s, b);
    forall i ensures InodeOk(s', i) { assert InodeOk(s, i); }
    forall c ensures BlockOk(s', c) { assert BlockOk(s, c); }
    forall c ensures BitOk(s', c) { assert BitOk(s, c); }
    forall r ensures RefOk(s', r) { assert RefOk(s, r); AtOther(s, s', r); }
    forall c ensures OwnOk(s', c) {
      assert OwnOk(s, c);
      if c in s.owner { AtOther(s, s', s.owner[c]); }
    }
  }

  // ---- putting a block in place

  function WithAddr(n: Inode, k: nat, b: nat): Inode
    requires k < |n.addrs|
  {
    n.(addrs := n.addrs[k := b])
  }

  function PutDirect(s: View, i: nat, k: nat, b: nat): View
    requires HasInode(s, i) && k < NDIRECT
  {
    s.(inodes := s.inodes[i := WithAddr(s.inodes[i], k, b)], owner := s.owner[b := Direct(i, k)], held := s.held - {b})
  }

  function PutInd(s: View, i: nat, b: nat): View
    requires HasInode(s, i)
  {
    s.(inodes := s.inodes[i := WithAddr(s.inodes[i], NDIRECT, b)], owner := s.owner[b := Ind(i)], held := s.held - {b})
  }

  function PutEntry(s: View, i: nat, j: nat, b: nat): View
    requires HasInode(s, i) && j < NINDIRECT && s.inodes[i].addrs[NDIRECT] in s.blocks
    requires |s.blocks[s.inodes[i].addrs[NDIRECT]]| == BSIZE
  {
    var ind := s.inodes[i].addrs[NDIRECT];
    s.(blocks := s.blocks[ind := PutWord(s.blocks[ind], j, b)], owner := s.owner[b := Entry(i, j)],
       held := s.held - {b})
  }

  /** Place r, empty before, holds b; every other place is as it was. */
  ghost predicate PutAt(s: View, s': View, r: Ref, b: nat) {
    && s'.size == s.size && s'.nmeta == s.nmeta && s'.used == s.used
    && s'.owner == s.owner[b := r] && s'.held == s.held - {b} && |s'.inodes| == |s.inodes|
    && (forall q {:trigger At(s', q)} :: At(s', q) == if q == r then b else At(s, q))
  }

  lemma PutAtOk(s: Fs, s': View, r: Ref, b: nat)
    requires PutAt(s, s', r, b) && b in s.held && At(s, r) == 0
    requires (forall i :: InodeOk(s', i)) && (forall c :: BlockOk(s', c))
    ensures FsOk(s')
  {
    assert BitOk(s, b);
    forall q ensures RefOk(s', q) {
      assert RefOk(s, q);
      if q != r && At(s, q) != 0 { assert OwnOk(s, At(s, q)); }
    }
    forall c ensures OwnOk(s', c) { assert OwnOk(s, c); }
    forall c ensures BitOk(s', c) { assert BitOk(s, c); }
  }

  lemma PutDirectOk(s: Fs, i: nat, k: nat, b: nat)
    requires HasInode(s, i) && k < NDIRECT && At(s, Direct(i, k)) == 0 && b in s.held
    ensures FsOk(PutDirect(s, i, k, b)) && PutAt(s, PutDirect(s, i, k, b), Direct(i, k), b)
  {
    var s' := PutDirect(s, i, k, b);
    forall q ensures At(s', q) == if q == Direct(i, k) then b else At(s, q) { }
    forall n ensures InodeOk(s', n) { assert InodeOk(s, n); }
    forall c ensures BlockOk(s', c) { assert BlockOk(s, c); }
    PutAtOk(s, s', Direct(i, k), b);
  }

  lemma PutIndOk(s: Fs, i: nat, b: nat)
    requires HasInode(s, i) && At(s, Ind(i)) == 0 && b in s.held && b in s.blocks && s.blocks[b] == Zeros()
    ensures FsOk(PutInd(s, i, b)) && PutAt(s, PutInd(s, i, b), Ind(i), b)
  {
    var s' := PutInd(s, i, b);
    forall q ensures At(s', q) == if q == Ind(i) then b else At(s, q) { }
    forall n ensures InodeOk(s', n) { assert InodeOk(s, n); }
    forall c ensures BlockOk(s', c) { assert BlockOk(s, c); }
    PutAtOk(s, s', Ind(i), b);
  }

  /** The indirect block of an inode is its own and a whole block. */
  lemma IndBlock(s: Fs, i: nat)
    requires HasInode(s, i) && At(s, Ind(i)) != 0
    ensures var b := At(s, Ind(i)); b in s.owner && s.owner[b] == Ind(i) && b in s.blocks && |s.blocks[b]| == BSIZE
    ensures forall n: nat :: HasInode(s, n) && n != i ==> At(s, Ind(n)) != At(s, Ind(i))
  {
    var b := At(s, Ind(i));
    assert RefOk(s, Ind(i)) && OwnOk(s, b) && BlockOk(s, b);
    forall n: nat | HasInode(s, n) && n != i ensures At(s, Ind(n)) != b { assert RefOk(s, Ind(n)); }
  }

  lemma PutEntryOk(s: Fs, i: nat, j: nat, b: nat)
    requires HasInode(s, i) && j < NINDIRECT && At(s, Ind(i)) != 0 && At(s, Entry(i, j)) == 0 && b in s.held
    ensures At(s, Ind(i)) in s.blocks && |s.blocks[At(s, Ind(i))]| == BSIZE
    ensures FsOk(PutEntry(s, i, j, b)) && PutAt(s, PutEntry(s, i, j, b), Entry(i, j), b)
  {
    IndBlock(s, i);
    var ind := At(s, Ind(i));
    var s' := PutEntry(s, i, j, b);
    assert BitOk(s, b);
    WordPut(s.blocks[ind], j, b);
    forall q ensures At(s', q) == if q == Entry(i, j) then b else At(s, q) {
      assert q.Entry? && HasInode(s, q.i) && q.i != i ==> At(s, Ind(q.i)) != ind;
    }
    forall n ensures InodeOk(s', n) { assert InodeOk(s, n); }
    forall c ensures BlockOk(s', c) { assert BlockOk(s, c); }
    PutAtOk(s, s', Entry(i, j), b);
  }

  // ---- bmap

  /** The place that holds the number of block bn of inode i. */
  function Place(i: nat, bn: nat): Ref { if bn < NDIRECT then Direct(i, bn) else Entry(i, bn - NDIRECT) }

  predicate SameMeta(n: Inode, n': Inode) { n'.kind == n.kind && n'.nlink == n.nlink && n'.size == n.size }

  /** Data blocks keep their place and their bytes; only places of `may` have been filled. */
  ghost predicate Grown(s: View, s': View, may: set<Ref>) {
    && s'.size == s.size && s'.nmeta == s.nmeta && s'.held == s.held && |s'.inodes| == |s.inodes| && s.used <= s'.used
    && (forall i :: 0 <= i < |s.inodes| ==> SameMeta(s.inodes[i], s'.inodes[i]))
    && (forall r {:trigger At(s', r)} :: At(s', r) == At(s, r) || (At(s, r) == 0 && r in may))
    && (forall b :: b in s.owner && !s.owner[b].Ind? ==> b in s.blocks && b in s'.blocks && s'.blocks[b] == s.blocks[b])
  }

  lemma GrownNone(s: Fs)
    ensures Grown(s, s, {})
  {
    forall b | b in s.owner ensures b in s.blocks { assert OwnOk(s, b) && BlockOk(s, b); }
  }

  lemma GrownTrans(a: Fs, b: Fs, c: View, may: set<Ref>, may': set<Ref>)
    requires Grown(a, b, may) && Grown(b, c, may')
    ensures Grown(a, c, may + may')
  {
    forall x | x in a.owner && !a.owner[x].Ind? ensures x in b.owner && b.owner[x] == a.owner[x] {
      assert OwnOk(a, x) && RefOk(b, a.owner[x]);
    }
    forall r ensures At(c, r) == At(a, r) || (At(a, r) == 0 && r in may + may') {
      assert At(b, r) == At(a, r) || (At(a, r) == 0 && r in may);
    }
  }

  /** A block allocated and put in place r. */
  lemma GrownPut(s: Fs, b: nat, s1: View, s2: View, r: Ref)
    requires InData(s, b) && b !in s.used && s1 == Alloc(s, b) && PutAt(s1, s2, r, b) && At(s, r) == 0
    requires forall i :: 0 <= i < |s.inodes| ==> SameMeta(s.inodes[i], s2.inodes[i])
    requires forall c :: c in s1.blocks && c in s.owner && !s.owner[c].Ind? ==>
               c in s2.blocks && s2.blocks[c] == s1.blocks[c]
    ensures Grown(s, s2, {r})
  {
    assert BitOk(s, b);
    forall c | c in s.owner ensures c in s.blocks && c != b { assert OwnOk(s, c) && BlockOk(s, c); }
    forall q ensures At(s2, q) == At(s, q) || (At(s, q) == 0 && q in {r}) {
      AtOther(s, s1, q);
      assert At(s2, q) == if q == r then b else At(s1, q);
    }
  }
}
