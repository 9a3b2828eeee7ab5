/** iget, idup, ialloc, iput, namex and ireclaim of kernel/fs.c, as one process runs them on top of the file system:
    what they do to the reference counts, to the inodes on disk and to their blocks. */
module InodeCode {
  import opened Options
  import opened DirCode
  import opened DirNames
  import opened FsState
  import opened FsDisk
  import opened FsTrunc
  import opened FsCode

  const ROOTINO: nat := 1

  datatype Slot = Slot(inum: nat, ref: nat, valid: bool)

  /** The references to inode inum, over the whole table. */
  function Count(ent: seq<Slot>, inum: nat): nat {
    if ent == [] then 0 else (if ent[0].inum == inum then ent[0].ref else 0) + Count(ent[1..], inum)
  }

  function Share(x: Slot, inum: nat): nat { if x.inum == inum then x.ref else 0 }

  lemma {:induction false} CountUpdate(ent: seq<Slot>, e: nat, x: Slot, inum: nat)
    requires e < |ent|
    ensures Count(ent[e := x], inum) + Share(ent[e], inum) == Count(ent, inum) + Share(x, inum)
  {
    var upd := ent[e := x];
    if e == 0 {
      assert upd[1..] == ent[1..];
    } else {
      assert upd[1..] == ent[1..][e - 1 := x];
      CountUpdate(ent[1..], e - 1, x, inum);
    }
  }

  lemma {:induction false} CountNone(ent: seq<Slot>, inum: nat)
    requires forall e :: 0 <= e < |ent| ==> ent[e].ref == 0 || ent[e].inum != inum
    ensures Count(ent, inum) == 0
  {
    if ent != [] { CountNone(ent[1..], inum); }
  }

  /** What a path names, seen from inode `from`: its elements are looked up one after the other, each in a directory
      that still has links; with `parent` the last is not looked up. */
  ghost function Resolve(s: Fs, from: nat, path: seq<seq<nat>>, parent: bool): Option<nat>
    decreases |path|
  {
    if path == [] then (if parent then None else Some(from))
    else if from >= |s.inodes| || s.inodes[from].kind != T_DIR || s.inodes[from].nlink == 0 then None
    else if parent && |path| == 1 then Some(from)
    else if Lookup(s, from, path[0]) == None then None
    else Resolve(s, Lookup(s, from, path[0]).value, path[1..], parent)
  }

  /** A path of one element and then others. */
  lemma ResolveStep(s: Fs, from: nat, name: seq<nat>, rest: seq<seq<nat>>, parent: bool)
    ensures Resolve(s, from, [name] + rest, parent) ==
            if !LinkedDir(s, from) then None else if parent && rest == [] then Some(from)
            else if Lookup(s, from, name) == None then None
            else Resolve(s, Lookup(s, from, name).value, rest, parent)
  {
    assert ([name] + rest)[1..] == rest;
  }

  predicate SameLast(a: seq<seq<nat>>, b: seq<seq<nat>>) { b != [] ==> a != [] && a[|a| - 1] == b[|b| - 1] }

  lemma LastStep(a: seq<seq<nat>>, name: seq<nat>, rest: seq<seq<nat>>)
    requires SameLast(a, [name] + rest)
    ensures SameLast(a, if rest == [] then [name] else rest)
  {
  }

  lemma {:induction false} ResolveSame(s: Fs, s': Fs, from: nat, path: seq<seq<nat>>, parent: bool)
    requires SameFiles(s, s')
    ensures Resolve(s', from, path, parent) == Resolve(s, from, path, parent)
    decreases |path|
  {
    if path != [] && from < |s.inodes| {
      LookupSame(s, s', from, path[0], 0);
      if Lookup(s, from, path[0]).Some? {
        ResolveSame(s, s', Lookup(s, from, path[0]).value, path[1..], parent);
      }
    }
  }

  predicate LinkedDir(s: View, i: nat) { i < |s.inodes| && s.inodes[i].kind == T_DIR && s.inodes[i].nlink > 0 }

  ghost predicate NamesLinked(s: Fs, i: nat, name: seq<nat>) {
    LinkedDir(s, i) && Lookup(s, i, name).Some? ==>
      var j := Lookup(s, i, name).value;
      j < |s.inodes| && s.inodes[j].kind != 0 && s.inodes[j].nlink > 0
  }

  /** What a directory that has links names is allocated and linked. */
  ghost predicate DirsOk(s: Fs) { forall i, name {:trigger NamesLinked(s, i, name)} :: NamesLinked(s, i, name) }

  lemma DirsSame(s: Fs, s': Fs)
    requires SameFiles(s, s') && DirsOk(s)
    ensures DirsOk(s')
  {
    forall i: nat, name ensures NamesLinked(s', i, name) {
      assert NamesLinked(s, i, name);
      if i < |s.inodes| { LookupSame(s, s', i, name, 0); }
    }
  }

  predicate SizeWhole(s: View, i: nat) {
    i < |s.inodes| && s.inodes[i].kind == T_DIR ==> s.inodes[i].size % DIRENT == 0
  }

  ghost predicate SlotsWhole(s: View, i: nat) {
    i < |s.inodes| && s.inodes[i].kind == T_DIR ==> SlotsThere(s, i, 0, s.inodes[i].size)
  }

  /** No directory has a slot missing. */
  ghost predicate WholeDirs(s: View) { forall i {:trigger SlotsWhole(s, i)} :: SlotsWhole(s, i) }

  lemma WholeSame(s: Fs, s': Fs)
    requires s'.inodes == s.inodes && WholeDirs(s)
    ensures WholeDirs(s')
  {
    forall i: nat ensures SlotsWhole(s', i) {
      assert SlotsWhole(s, i);
      if i < |s.inodes| && s.inodes[i].kind == T_DIR { SlotsSame(s, s', i, 0, s.inodes[i].size); }
    }
  }

  /** An inode allocated and without links. */
  predicate Orphan(n: Inode) { n.kind != 0 && n.nlink == 0 }

  predicate Gone(s: View, i: nat, n: nat) { 1 <= i < n && i < |s.inodes| && Orphan(s.inodes[i]) }

  /** The orphans below n are free inodes now and their blocks are free blocks; nothing else has changed. */
  ghost predicate Reclaimed(s: View, s': View, n: nat) {
    && s'.size == s.size && s'.nmeta == s.nmeta && s'.blocks == s.blocks && s'.held == s.held
    && |s'.inodes| == |s.inodes|
    && (forall i: nat {:trigger Gone(s, i, n)} :: i < |s.inodes| ==>
          if Gone(s, i, n) then s'.inodes[i].kind == 0 && s'.inodes[i].size == 0 else s'.inodes[i] == s.inodes[i])
    && (forall r {:trigger At(s', r)} :: At(s', r) == if Gone(s, r.i, n) then 0 else At(s, r))
    && (forall b {:trigger b in s'.used} ::
          b in s'.used <==> b in s.used && !(b in s.owner && Gone(s, s.owner[b].i, n)))
    && (forall b {:trigger b in s'.owner} ::
          if b in s.owner && !Gone(s, s.owner[b].i, n) then b in s'.owner && s'.owner[b] == s.owner[b]
          else b !in s'.owner)
  }

  lemma ReclaimedNone(s: View)
    ensures Reclaimed(s, s, 1)
  {
  }

  lemma ReclaimedSkip(s: View, s': View, n: nat)
    requires Reclaimed(s, s', n) && n < |s.inodes| && !Orphan(s.inodes[n])
    ensures Reclaimed(s, s', n + 1)
  {
    forall i: nat ensures Gone(s, i, n + 1) <==> Gone(s, i, n) { }
    forall i: nat | i < |s.inodes|
      ensures if Gone(s, i, n + 1) then s'.inodes[i].kind == 0 && s'.inodes[i].size == 0
              else s'.inodes[i] == s.inodes[i]
    {
      assert Gone(s, i, n + 1) <==> Gone(s, i, n);
    }
    forall r ensures At(s', r) == if Gone(s, r.i, n + 1) then 0 else At(s, r) { assert At(s', r) == At(s', r); }
  }

  lemma ReclaimedOne(s: View, s1: View, s2: View, n: nat)
    requires Reclaimed(s, s1, n) && 1 <= n < |s.inodes| && Orphan(s.inodes[n]) && Emptied(s1, s2, n, 0)
    ensures Reclaimed(s, s2, n + 1)
  {
    forall i: nat ensures Gone(s, i, n + 1) <==> Gone(s, i, n) || i == n { }
    forall i: nat | i < |s.inodes|
      ensures if Gone(s, i, n + 1) then s2.inodes[i].kind == 0 && s2.inodes[i].size == 0
              else s2.inodes[i] == s.inodes[i]
    {
      assert Gone(s, i, n) || !Gone(s, i, n);
    }
    forall r ensures At(s2, r) == if Gone(s, r.i, n + 1) then 0 else At(s, r) { assert At(s1, r) == At(s1, r); }
    forall b: nat ensures b in BlocksOf(s1.owner, n) <==> b in s.owner && s.owner[b].i == n {
      assert b in s1.owner <==> b in s.owner && !Gone(s, s.owner[b].i, n);
    }
    forall b: nat ensures b in s2.used <==> b in s.used && !(b in s.owner && Gone(s, s.owner[b].i, n + 1)) {
      assert b in s1.used <==> b in s.used && !(b in s.owner && Gone(s, s.owner[b].i, n));
    }
    forall b: nat
      ensures if b in s.owner && !Gone(s, s.owner[b].i, n + 1) then b in s2.owner && s2.owner[b] == s.owner[b]
              else b !in s2.owner
    {
      assert b in s1.owner <==> b in s.owner && !Gone(s, s.owner[b].i, n);
    }
  }

  class Itable {
    var ent: seq<Slot>
    const fs: FileSystem

    /** Entries in use are for different inodes, and a valid one is for an allocated inode. */
    ghost predicate Valid()
      reads this, fs
    {
      && fs.Valid()
      && (forall e, f :: 0 <= e < f < |ent| && ent[e].ref > 0 && ent[f].ref > 0 ==> ent[e].inum != ent[f].inum)
      && (forall e :: 0 <= e < |ent| && ent[e].ref > 0 && ent[e].valid ==>
            ent[e].inum < |fs.inodes| && fs.inodes[ent[e].inum].kind != 0)
    }

    predicate InUse(e: int)
      reads this
    {
      0 <= e < |ent| && ent[e].ref > 0
    }

    /** iinit, at boot: no inode is in memory. */
    constructor (fs: FileSystem, n: nat)
      requires fs.Valid()
      modifies fs`inodes, fs`g
      ensures Valid() && this.fs == fs && |ent| == n && forall e :: 0 <= e < n ==> ent[e].ref == 0
      ensures fs.inodes == fs.dinodes && (fs.DiskOwned() <==> old(fs.DiskOwned()))
      ensures old(fs.inodes) == fs.dinodes ==> fs.g == old(fs.g)
    {
      this.fs, ent := fs, seq(n, i => Slot(0, 0, false));
      new;
      fs.Restart();
    }

    /** iget: the entry for inum, found or recycled; -1 is the panic "iget: no inodes". */
    method Iget(inum: nat) returns (e: int)
      requires Valid()
      modifies this`ent
      ensures Valid() && |ent| == |old(ent)|
      ensures e < 0 ==> ent == old(ent) && forall f :: 0 <= f < |ent| ==> ent[f].ref > 0
      ensures e >= 0 ==> InUse(e) && ent[e].inum == inum
      ensures e >= 0 ==> forall x: nat :: Count(ent, x) == Count(old(ent), x) + if x == inum then 1 else 0
      ensures e >= 0 ==> forall f :: 0 <= f < |ent| && f != e ==> ent[f] == old(ent)[f]
      ensures e >= 0 ==> ent[e].ref == Count(ent, inum) && (old(ent)[e].ref > 0 ==> old(ent)[e].inum == inum)
    {
      var empty := -1;
      e := 0;
      while e < |ent|
        invariant 0 <= e <= |ent| && -1 <= empty < e
        invariant forall f :: 0 <= f < e ==> !(ent[f].ref > 0 && ent[f].inum == inum)
        invariant empty < 0 ==> forall f :: 0 <= f < e ==> ent[f].ref > 0
        invariant empty >= 0 ==> ent[empty].ref == 0
      {
        if ent[e].ref > 0 && ent[e].inum == inum {
          Bump(e, ent[e].(ref := ent[e].ref + 1));
          return;
        }
        if empty < 0 && ent[e].ref == 0 { empty := e; }
        e := e + 1;
      }
      if empty < 0 { return -1; }
      e := empty;
      Bump(e, Slot(inum, 1, false));
    }

    /** Entry e gains a reference to the inode of x. */
    method Bump(e: nat, x: Slot)
      requires Valid() && e < |ent|
      requires if ent[e].ref == 0 then x.ref == 1 && !x.valid else x == ent[e].(ref := ent[e].ref + 1)
      requires forall f :: 0 <= f < |ent| && f != e && ent[f].ref > 0 ==> ent[f].inum != x.inum
      modifies this`ent
      ensures Valid() && ent == old(ent)[e := x] && ent[e].ref == Count(ent, x.inum)
      ensures forall y: nat :: Count(ent, y) == Count(old(ent), y) + if y == x.inum then 1 else 0
    {
      ghost var was := ent;
      forall y: nat ensures Count(was[e := x], y) == Count(was, y) + if y == x.inum then 1 else 0 {
        CountUpdate(was, e, x, y);
      }
      CountUpdate(was, e, Slot(x.inum, 0, false), x.inum);
      CountNone(was[e := Slot(x.inum, 0, false)], x.inum);
      ent := ent[e := x];
    }

    /** idup */
    method Idup(e: nat)
      requires Valid() && InUse(e)
      modifies this`ent
      ensures Valid() && |ent| == |old(ent)| && InUse(e) && ent[e].inum == old(ent)[e].inum
      ensures forall x: nat :: Count(ent, x) == Count(old(ent), x) + if x == ent[e].inum then 1 else 0
    {
      Bump(e, ent[e].(ref := ent[e].ref + 1));
    }

    /** ilock then iunlock leave the entry valid, and the inode read from disk if it was not; false is the panic
        "ilock: no type". No byte of any file changes. */
    method Ilock(e: nat) returns (ok: bool)
      requires Valid() && InUse(e) && ent[e].inum < |fs.inodes|
      modifies this`ent, fs`inodes, fs`g
      ensures Valid() && SameFiles(old(fs.g), fs.g) && (ok <==> fs.dinodes[old(ent)[e].inum].kind != 0)
      ensures ent == if ok then old(ent)[e := old(ent)[e].(valid := true)] else old(ent)
      ensures forall x: nat :: Count(ent, x) == Count(old(ent), x)
      ensures var i := old(ent)[e].inum;
              if old(ent)[e].valid then fs.g == old(fs.g)
              else fs.inodes == old(fs.inodes)[i := fs.dinodes[i]]
                   && (old(fs.inodes)[i] == fs.dinodes[i] ==> fs.g == old(fs.g))
      ensures fs.DiskOwned() <==> old(fs.DiskOwned())
    {
      assert LagsAt(fs.inodes, fs.dinodes, ent[e].inum);
      if !ent[e].valid {
        fs.Reload(ent[e].inum);
        if fs.inodes[ent[e].inum].kind == 0 { return false; }
        Validate(e);
      }
      return true;
    }

    method Validate(e: nat)
      requires Valid() && InUse(e) && ent[e].inum < |fs.inodes| && fs.inodes[ent[e].inum].kind != 0
      modifies this`ent
      ensures Valid() && ent == old(ent)[e := old(ent)[e].(valid := true)]
      ensures forall x: nat :: Count(ent, x) == Count(old(ent), x)
    {
      ghost var was := ent;
      forall x: nat ensures Count(was[e := was[e].(valid := true)], x) == Count(was, x) {
        CountUpdate(was, e, was[e].(valid := true), x);
      }
      ent := ent[e := ent[e].(valid := true)];
    }

    /** ialloc: a reference to the first free inode, wiped and of the given type; -1 if there is none. false is the
        panic of iget. No block of any file is lost by the wiping. */
    method Ialloc(kind: nat) returns (ok: bool, e: int)
      requires Valid() && kind != 0
      modifies this`ent, fs
      ensures Valid() && |ent| == |old(ent)|
      ensures !ok ==> forall f :: 0 <= f < |ent| ==> ent[f].ref > 0
      ensures ok && e < 0 ==> ent == old(ent) && fs.g == old(fs.g) && fs.dinodes == old(fs.dinodes)
                              && forall i :: 1 <= i < |fs.dinodes| ==> fs.dinodes[i].kind != 0
      ensures ok && e >= 0 ==>
                && InUse(e) && ent[e].inum < |old(fs.g).inodes| == |old(fs.dinodes)|
                && var i := ent[e].inum;
                && 1 <= i && old(fs.dinodes)[i].kind == 0 && (forall j :: 1 <= j < i ==> old(fs.dinodes)[j].kind != 0)
                && fs.g == WithInode(old(fs.g), i, Inode(kind, 0, 0, NOADDRS))
                && fs.dinodes == old(fs.dinodes)[i := Inode(kind, 0, 0, NOADDRS)]
                && (forall x: nat :: Count(ent, x) == Count(old(ent), x) + if x == i then 1 else 0)
      ensures old(fs.DiskOwned()) ==> fs.DiskOwned()
    {
      var inum := 1;
      while inum < |fs.dinodes|
        invariant 1 <= inum && unchanged(this) && unchanged(fs)
        invariant forall j :: 1 <= j < inum && j < |fs.dinodes| ==> fs.dinodes[j].kind != 0
      {
        if fs.dinodes[inum].kind == 0 {
          assert LagsAt(fs.inodes, fs.dinodes, inum);
          fs.Wipe(inum, kind);
          e := Iget(inum);
          return e >= 0, e;
        }
        inum := inum + 1;
      }
      return true, -1;
    }

    /** iput: one reference less; the last one of an unlinked inode frees its blocks and then the inode. */
    method Iput(e: nat)
      requires Valid() && InUse(e)
      modifies this`ent, fs
      ensures Valid() && |ent| == |old(ent)|
      ensures ent == old(ent)[e := ent[e]] && ent[e].inum == old(ent)[e].inum && ent[e].ref == old(ent)[e].ref - 1
      ensures forall x: nat :: Count(ent, x) == Count(old(ent), x) - if x == ent[e].inum then 1 else 0
      ensures var n := old(ent)[e];
              if n.ref == 1 && n.valid && old(fs.dinodes)[n.inum].nlink == 0
              then Emptied(old(fs.g), fs.g, n.inum, 0) && Only(old(fs.dinodes), fs.dinodes, n.inum)
                   && fs.dinodes[n.inum] == fs.inodes[n.inum]
              else unchanged(fs)
      ensures old(fs.DiskOwned()) ==> fs.DiskOwned()
    {
      ghost var was, s0 := ent, fs.g;
      var inum := ent[e].inum;
      assert LagsAt(fs.inodes, fs.dinodes, inum);
      var last := ent[e].ref == 1 && ent[e].valid && fs.inodes[inum].nlink == 0;
      if last {
        fs.Itrunc(inum);
        ent := ent[e := ent[e].(valid := false)];
      }
      ent := ent[e := ent[e].(ref := ent[e].ref - 1)];
      if last { fs.Ifree(inum, s0); }
      forall y: nat ensures Count(ent, y) == Count(was, y) - if y == inum then 1 else 0 {
        assert ent == was[e := ent[e]];
        CountUpdate(was, e, ent[e], y);
      }
    }

    /** The counts are those of `was`, with one more for inode inum. */
    ghost predicate OneMore(was: seq<Slot>, inum: nat)
      reads this`ent
    {
      forall x: nat :: Count(ent, x) == Count(was, x) + if x == inum then 1 else 0
    }

    ghost predicate SameCounts(was: seq<Slot>)
      reads this`ent
    {
      forall x: nat :: Count(ent, x) == Count(was, x)
    }

    /** A reference to an allocated inode: one that ilock finds a type in. */
    predicate Typed(e: int)
      reads this, fs
    {
      InUse(e) && ent[e].inum < |fs.inodes| && fs.inodes[ent[e].inum].kind != 0
    }

    /** Why namex panics: every entry is in use, a directory's size is not a multiple of 16, or there is no block to
        read a hole of one into. */
    ghost predicate Stuck()
      reads this, fs
    {
      (forall f :: 0 <= f < |ent| ==> ent[f].ref > 0) || (exists i :: !SizeWhole(fs.g, i)) || fs.Full()
    }

    /** No directory has a slot missing, and the disk accounts for every block. */
    ghost predicate Whole()
      reads fs
    {
      fs.DiskOwned() && WholeDirs(fs.g)
    }

    /** dirlookup: a reference to what the directory at ip has for the name; -1: there is none. */
    method Dirlookup(ip: nat, name: seq<nat>) returns (ok: bool, next: int)
      requires Valid() && Typed(ip) && fs.inodes[ent[ip].inum].kind == T_DIR && |name| == DIRSIZ
      modifies this`ent, fs`bitmap, fs`blocks, fs`inodes, fs`g
      ensures Valid() && SameFiles(old(fs.g), fs.g) && |ent| == |old(ent)| && (old(Whole()) ==> Whole())
      ensures ok ==> Lookup(old(fs.g), old(ent)[ip].inum, Canon(name)) ==
                     if next < 0 then None else Some(if InUse(next) then ent[next].inum else 0)
      ensures ok && next < 0 ==> ent == old(ent)
      ensures ok && next >= 0 ==> InUse(next) && ent[next].ref == Count(ent, ent[next].inum)
      ensures ok && next >= 0 ==> ent[ip].inum == old(ent)[ip].inum && OneMore(old(ent), ent[next].inum)
      ensures ok && next >= 0 ==> InUse(ip)
      ensures !ok ==> Stuck()
    {
      ghost var s := fs.g;
      fs.DiskOwnedIff();
      var inum;
      ok, inum := DirCode.Dirlookup(fs, ent[ip].inum, name);
      FilledFiles(s, fs.g);
      WholeLooked(s, ent[ip].inum);
      if !ok {
        assert SizeWhole(s, ent[ip].inum) == SizeWhole(fs.g, ent[ip].inum);
        return false, -1;
      }
      if inum == 0 { return true, -1; }
      next := Iget(inum);
      ok := next >= 0;
    }

    lemma WholeLooked(s: Fs, i: nat)
      requires fs.Sound() && Looked(s, fs.g, i)
      ensures s.held == {} && s.inodes == fs.dinodes && WholeDirs(s) && s.inodes[i].kind == T_DIR ==> Whole()
    {
      fs.DiskOwnedIff();
      assert WholeDirs(s) ==> SlotsWhole(s, i);
      if s.inodes == fs.inodes && WholeDirs(s) { WholeSame(s, fs.g); }
    }

    /** namex, one step down: from the directory at ip, which is given up, to what it names. -1: there is none. */
    method Descend(ip: nat, name: seq<nat>, ghost was: seq<Slot>) returns (ok: bool, next: int)
      requires Valid() && DirsOk(fs.g) && InUse(ip) && OneMore(was, ent[ip].inum) && LinkedDir(fs.g, ent[ip].inum)
      requires |name| == DIRSIZ
      modifies this`ent, fs
      ensures Valid() && SameFiles(old(fs.g), fs.g) && |ent| == |old(ent)| && (old(Whole()) ==> Whole())
      ensures ok && next >= 0 ==> Typed(next) && OneMore(was, ent[next].inum)
      ensures ok && next < 0 ==> SameCounts(was)
      ensures ok ==> Lookup(old(fs.g), old(ent)[ip].inum, Canon(name)) ==
                     if next < 0 then None else Some(if InUse(next) then ent[next].inum else 0)
      ensures !ok ==> Stuck()
    {
      ghost var inum, s := ent[ip].inum, fs.g;
      ok, next := Dirlookup(ip, name);
      if !ok { return false, -1; }
      assert NamesLinked(s, inum, Canon(name));
      if next >= 0 {
        assert next == ip ==> Count(ent, inum) == Count(was, inum) + 2 && ent[ip].ref >= 2;
      }
      assert LagsAt(fs.inodes, fs.dinodes, inum);
      Iput(ip);
    }

    /** namex, the tests on the inode at ip: whether it is a directory with links. */
    method IsDir(ip: nat) returns (dir: bool)
      requires Valid() && DirsOk(fs.g) && Typed(ip)
      modifies this`ent, fs`inodes, fs`g
      ensures Valid() && Typed(ip) && SameFiles(old(fs.g), fs.g) && DirsOk(fs.g) && (old(Whole()) ==> Whole())
      ensures dir <==> LinkedDir(old(fs.g), ent[ip].inum)
      ensures |ent| == |old(ent)| && ent[ip].inum == old(ent)[ip].inum && SameCounts(old(ent))
    {
      ghost var s := fs.g;
      var inum := ent[ip].inum;
      fs.DiskOwnedIff();
      assert LagsAt(fs.inodes, fs.dinodes, inum);
      var typed := Ilock(ip);
      assert typed;
      DirsSame(s, fs.g);
      dir := fs.inodes[inum].kind == T_DIR && fs.inodes[inum].nlink > 0;
    }

    /** namex, one turn of the loop: the element is in name, and rest is what follows it. If it is the last, r is the
        result; else the walk goes on from r. */
    method NamexStep(ip: nat, name: seq<nat>, rest: seq<nat>, parent: bool, ghost was: seq<Slot>)
      returns (ok: bool, last: bool, r: int)
      requires Valid() && DirsOk(fs.g) && Typed(ip) && OneMore(was, ent[ip].inum)
      requires |name| == DIRSIZ && (rest == [] <==> Elements(rest) == [])
      modifies this`ent, fs
      ensures Valid()
      ensures ok && !last ==> Typed(r) && OneMore(was, ent[r].inum) && SameFiles(old(fs.g), fs.g)
      ensures ok && last ==> if r >= 0 then InUse(r) && OneMore(was, ent[r].inum) else SameCounts(was)
      ensures ok ==> Resolve(old(fs.g), old(ent)[ip].inum, [Canon(name)] + Elements(rest), parent)
                     == if r < 0 then None
                        else if last then Some(ent[r].inum)
                        else Resolve(old(fs.g), ent[r].inum, Elements(rest), parent)
      ensures (ok && !last ==> r >= 0) && (ok && last && r >= 0 ==> parent && rest == [])
      ensures !ok ==> Stuck()
      ensures old(Whole()) ==> if ok && last then fs.DiskOwned() else Whole()
    {
      ghost var s, inum := fs.g, ent[ip].inum;
      ResolveStep(s, inum, Canon(name), Elements(rest), parent);
      var dir := IsDir(ip);
      if !dir {
        Iput(ip);
        return true, true, -1;
      }
      if parent && rest == [] { return true, true, ip; }
      ghost var s1 := fs.g;
      LookupSame(s, s1, inum, Canon(name), 0);
      ok, r := Descend(ip, name, was);
      SameFilesTrans(s, s1, fs.g);
      last := r < 0;
    }

    /** The same, for a walk that began in s0 and is to go on with the path left. */
    method NamexNext(ip: nat, name: seq<nat>, rest: seq<nat>, parent: bool, ghost was: seq<Slot>, ghost s0: Fs)
      returns (ok: bool, last: bool, r: int)
      requires Valid() && DirsOk(fs.g) && Typed(ip) && OneMore(was, ent[ip].inum) && SameFiles(s0, fs.g)
      requires |name| == DIRSIZ && (rest == [] <==> Elements(rest) == [])
      modifies this`ent, fs
      ensures Valid()
      ensures ok && !last ==> Typed(r) && OneMore(was, ent[r].inum) && SameFiles(s0, fs.g) && DirsOk(fs.g)
      ensures ok && last ==> if r >= 0 then InUse(r) && OneMore(was, ent[r].inum) else SameCounts(was)
      ensures ok ==> Resolve(s0, old(ent)[ip].inum, [Canon(name)] + Elements(rest), parent)
                     == if r < 0 then None
                        else if last then Some(ent[r].inum) else Resolve(s0, ent[r].inum, Elements(rest), parent)
      ensures (ok && !last ==> r >= 0) && (ok && last && r >= 0 ==> parent && rest == [])
      ensures !ok ==> Stuck()
      ensures old(Whole()) ==> if ok && last then fs.DiskOwned() else Whole()
    {
      ghost var s, inum := fs.g, ent[ip].inum;
      ok, last, r := NamexStep(ip, name, rest, parent, was);
      ResolveSame(s0, s, inum, [Canon(name)] + Elements(rest), parent);
      if ok && !last {
        DirsSame(s, fs.g);
        SameFilesTrans(s0, s, fs.g);
        ResolveSame(s0, s, ent[r].inum, Elements(rest), parent);
      }
    }

    /** The end of the path: with nameiparent there is nothing to return. */
    method Arrive(ip: nat, parent: bool, ghost was: seq<Slot>) returns (r: int)
      requires Valid() && InUse(ip) && OneMore(was, ent[ip].inum)
      modifies this`ent, fs
      ensures Valid() && (old(Whole()) ==> fs.DiskOwned())
      ensures if parent then r == -1 && SameCounts(was)
              else r == ip && InUse(r) && OneMore(was, ent[r].inum) && ent[r].inum == old(ent)[ip].inum
    {
      if parent {
        Iput(ip);
        return -1;
      }
      return ip;
    }

    /** namex from a reference to where the path starts. */
    method Walk(start: nat, path: seq<nat>, parent: bool, ghost was: seq<Slot>)
      returns (ok: bool, r: int, name: seq<nat>)
      requires Valid() && DirsOk(fs.g) && Typed(start) && OneMore(was, ent[start].inum) && IsString(path)
      modifies this`ent, fs
      ensures Valid()
      ensures ok ==> if r >= 0 then InUse(r) && OneMore(was, ent[r].inum) else SameCounts(was)
      ensures ok ==> Resolve(old(fs.g), old(ent)[start].inum, Elements(path), parent) ==
                     if r >= 0 then Some(ent[r].inum) else None
      ensures ok && parent && r >= 0 ==> SameLast(Elements(path), [Canon(name)])
      ensures !ok ==> Stuck()
      ensures old(Whole()) ==> fs.DiskOwned()
    {
      var ip, left := start, path;
      ghost var s0, from, all := fs.g, ent[start].inum, Elements(path);
      var more, rest, elem := SkipElem(left, seq(DIRSIZ, k => 0));
      while more
        invariant Valid() && DirsOk(fs.g) && SameFiles(s0, fs.g) && Typed(ip)
        invariant OneMore(was, ent[ip].inum) && (old(Whole()) ==> Whole())
        invariant Resolve(s0, from, all, parent) == Resolve(s0, ent[ip].inum, Elements(left), parent)
        invariant Skipped(left, more, rest, elem) && SameLast(all, Elements(left))
        decreases |left|
      {
        LastStep(all, Canon(elem), Elements(rest));
        var last;
        ok, last, r := NamexNext(ip, elem, rest, parent, was, s0);
        if !ok || last { return ok, r, elem; }
        ip, left := r, rest;
        more, rest, elem := SkipElem(left, elem);
      }
      name := elem;
      ok := true;
      r := Arrive(ip, parent, was);
    }

    /** namex: a reference to what the path names, one level early with nameiparent, and then its last element in name;
        -1 if there is none. false is a panic of iget or dirlookup; that of ilock is not reached. */
    method Namex(path: seq<nat>, cwd: nat, parent: bool) returns (ok: bool, r: int, name: seq<nat>)
      requires Valid() && DirsOk(fs.g) && IsString(path)
      requires if path != [] && path[0] == SLASH then ROOTINO < |fs.inodes| && fs.inodes[ROOTINO].kind != 0
               else Typed(cwd)
      modifies this`ent, fs
      ensures Valid()
      ensures ok ==> if r >= 0 then InUse(r) && OneMore(old(ent), ent[r].inum) else SameCounts(old(ent))
      ensures ok ==> var from := if path != [] && path[0] == SLASH then ROOTINO else old(ent)[cwd].inum;
                     Resolve(old(fs.g), from, Elements(path), parent) == if r >= 0 then Some(ent[r].inum) else None
      ensures ok && parent && r >= 0 ==> SameLast(Elements(path), [Canon(name)])
      ensures !ok ==> Stuck()
      ensures old(Whole()) ==> fs.DiskOwned()
    {
      var ip: int := cwd;
      if path != [] && path[0] == SLASH {
        ip := Iget(ROOTINO);
        if ip < 0 { return false, -1, []; }
      } else {
        Idup(cwd);
      }
      ok, r, name := Walk(ip, path, parent, old(ent));
    }

    /** ireclaim at boot, when nothing is referenced: no allocated inode is left without links, and the blocks of those
        that were are free. */
    method Ireclaim()
      requires Valid() && |ent| > 0 && fs.inodes == fs.dinodes && forall e :: 0 <= e < |ent| ==> ent[e].ref == 0
      modifies this`ent, fs
      ensures Valid() && fs.inodes == fs.dinodes && forall e :: 0 <= e < |ent| ==> ent[e].ref == 0
      ensures Reclaimed(old(fs.g), fs.g, |fs.inodes|) && forall i :: 1 <= i < |fs.dinodes| ==> !Orphan(fs.dinodes[i])
      ensures old(fs.DiskOwned()) ==> fs.DiskOwned()
    {
      var inum := 1;
      ghost var s0 := fs.g;
      ReclaimedNone(fs.g);
      while inum < |fs.dinodes|
        invariant 1 <= inum && |ent| > 0 && Valid() && forall e :: 0 <= e < |ent| ==> ent[e].ref == 0
        invariant fs.inodes == fs.dinodes && (old(fs.DiskOwned()) ==> fs.DiskOwned())
        invariant Reclaimed(s0, fs.g, inum) && (|s0.inodes| > 0 ==> inum <= |s0.inodes|)
        decreases |s0.inodes| - inum
      {
        assert !Gone(s0, inum, inum);
        ghost var s := fs.g;
        if fs.dinodes[inum].kind != 0 && fs.dinodes[inum].nlink == 0 {
          Reclaim(inum);
          ReclaimedOne(s0, s, fs.g, inum);
        } else {
          ReclaimedSkip(s0, s, inum);
        }
        inum := inum + 1;
      }
      forall i | 1 <= i < |fs.inodes| ensures !Orphan(fs.inodes[i]) { assert Gone(s0, i, inum) || !Gone(s0, i, inum); }
    }

    method Reclaim(inum: nat)
      requires Valid() && |ent| > 0 && forall e :: 0 <= e < |ent| ==> ent[e].ref == 0
      requires inum < |fs.inodes| && Orphan(fs.inodes[inum]) && fs.inodes == fs.dinodes
      modifies this`ent, fs
      ensures Valid() && |ent| == |old(ent)| && forall e :: 0 <= e < |ent| ==> ent[e].ref == 0
      ensures Emptied(old(fs.g), fs.g, inum, 0) && fs.inodes == fs.dinodes && (old(fs.DiskOwned()) ==> fs.DiskOwned())
    {
      CountNone(ent, inum);
      var ip := Iget(inum);
      var _ := Ilock(ip);
      Iput(ip);
    }
  }
}
