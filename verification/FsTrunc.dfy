/** Giving up blocks: what itrunc does to ownership. */
module FsTrunc {
  import opened FsState

  /** The blocks in the places `gone` are out of their places and in hand. */
  ghost predicate TakenOut(s: View, s': View, gone: set<nat>) {
    && s'.size == s.size && s'.nmeta == s.nmeta && s'.used == s.used && s'.blocks == s.blocks
    && |s'.inodes| == |s.inodes|
    && gone <= s.owner.Keys && s'.owner == s.owner - gone && s'.held == s.held + gone
    && (forall r {:trigger At(s', r)} :: At(s', r) == if At(s, r) in gone then 0 else At(s, r))
  }

  lemma TakenOutOk(s: Fs, s': View, gone: set<nat>)
    requires TakenOut(s, s', gone) && forall n :: InodeOk(s', n)
    ensures FsOk(s')
  {
    forall c ensures BlockOk(s', c) { assert BlockOk(s, c); }
    forall c ensures BitOk(s', c) { assert BitOk(s, c) && OwnOk(s, c); }
    forall r ensures RefOk(s', r) { assert RefOk(s, r); }
    forall c ensures OwnOk(s', c) { assert OwnOk(s, c); }
  }

  function DropDirect(s: View, i: nat, k: nat): View
    requires HasInode(s, i) && k < NDIRECT
  {
    var b := s.inodes[i].addrs[k];
    s.(inodes := s.inodes[i := WithAddr(s.inodes[i], k, 0)], owner := s.owner - {b}, held := s.held + {b})
  }

  lemma DropDirectOk(s: Fs, i: nat, k: nat)
    requires HasInode(s, i) && k < NDIRECT && At(s, Direct(i, k)) != 0
    ensures var b := At(s, Direct(i, k));
            b in s.owner && InData(s, b) && FsOk(DropDirect(s, i, k)) && TakenOut(s, DropDirect(s, i, k), {b})
  {
    var b, s' := At(s, Direct(i, k)), DropDirect(s, i, k);
    assert RefOk(s, Direct(i, k)) && OwnOk(s, b);
    forall r ensures At(s', r) == if At(s, r) in {b} then 0 else At(s, r) { assert RefOk(s, r); }
    forall n ensures InodeOk(s', n) { assert InodeOk(s, n); }
    TakenOutOk(s, s', {b});
  }

  /** The blocks of inode i from entry j of its indirect block on, and the indirect block. */
  ghost function Under(owner: map<nat, Ref>, i: nat, j: nat): set<nat> {
    set b | b in owner && (owner[b] == Ind(i) || (owner[b].Entry? && owner[b].i == i && owner[b].j >= j))
  }

  ghost function DropInd(s: View, i: nat): View
    requires HasInode(s, i)
  {
    var u := Under(s.owner, i, 0);
    s.(inodes := s.inodes[i := WithAddr(s.inodes[i], NDIRECT, 0)], owner := s.owner - u, held := s.held + u)
  }

  lemma DropIndOk(s: Fs, i: nat)
    requires HasInode(s, i) && At(s, Ind(i)) != 0
    ensures FsOk(DropInd(s, i)) && TakenOut(s, DropInd(s, i), Under(s.owner, i, 0))
  {
    var u, s' := Under(s.owner, i, 0), DropInd(s, i);
    forall r ensures At(s', r) == if At(s, r) in u then 0 else At(s, r) {
      assert RefOk(s, r) && RefOk(s, Ind(i));
    }
    forall n ensures InodeOk(s', n) { assert InodeOk(s, n); }
    TakenOutOk(s, s', u);
  }

  /** One more entry done: its block, if it has one, is the only one to go. */
  lemma UnderStep(s: Fs, i: nat, j: nat)
    requires HasInode(s, i) && At(s, Ind(i)) != 0 && j < NINDIRECT
    ensures var b := At(s, Entry(i, j));
            Under(s.owner, i, j + 1) == (if b != 0 then Under(s.owner, i, j) - {b} else Under(s.owner, i, j))
            && (b != 0 ==> b in Under(s.owner, i, j))
  {
    var b := At(s, Entry(i, j));
    assert RefOk(s, Entry(i, j));
    forall c | c in s.owner && s.owner[c] == Entry(i, j) ensures c == b && b != 0 { assert OwnOk(s, c); }
  }

  lemma UnderEnd(s: Fs, i: nat)
    requires HasInode(s, i) && At(s, Ind(i)) != 0
    ensures Under(s.owner, i, NINDIRECT) == {At(s, Ind(i))}
  {
    var b := At(s, Ind(i));
    assert RefOk(s, Ind(i));
    forall c | c in s.owner && s.owner[c] == Ind(i) ensures c == b { assert OwnOk(s, c); }
    forall c | c in s.owner && s.owner[c].Entry? && s.owner[c].i == i ensures s.owner[c].j < NINDIRECT {
      assert OwnOk(s, c);
    }
  }

  /** Blocks in hand are freed. */
  ghost function FreeSet(s: View, u: set<nat>): View { s.(used := s.used - u, held := s.held - u) }

  /** The blocks of inode i. */
  ghost function BlocksOf(owner: map<nat, Ref>, i: nat): set<nat> { set b | b in owner && owner[b].i == i }

  /** The inode is empty and of the given kind, its blocks are free, and no other place or block has changed. */
  ghost predicate Emptied(s: View, s': View, i: nat, kind: nat) {
    && s'.size == s.size && s'.nmeta == s.nmeta && s'.blocks == s.blocks && |s'.inodes| == |s.inodes| && i < |s.inodes|
    && s'.inodes[i].size == 0 && s'.inodes[i].kind == kind && s'.inodes[i].nlink == s.inodes[i].nlink
    && (forall n :: 0 <= n < |s.inodes| && n != i ==> s'.inodes[n] == s.inodes[n])
    && (forall r {:trigger At(s', r)} :: At(s', r) == if r.i == i then 0 else At(s, r))
    && s'.held == s.held && s'.used == s.used - BlocksOf(s.owner, i) && s'.owner == s.owner - BlocksOf(s.owner, i)
  }

  /** itrunc */
  ghost predicate Truncated(s: View, s': View, i: nat) { i < |s.inodes| && Emptied(s, s', i, s.inodes[i].kind) }

  /** The blocks `gone` of inode i are free and out of their places; otherwise all is as before. */
  ghost predicate Dropped(s: View, s': View, i: nat, gone: set<nat>) {
    && s'.size == s.size && s'.nmeta == s.nmeta && s'.blocks == s.blocks && |s'.inodes| == |s.inodes| && i < |s.inodes|
    && SameMeta(s.inodes[i], s'.inodes[i])
    && (forall n :: 0 <= n < |s.inodes| && n != i ==> s'.inodes[n] == s.inodes[n])
    && gone <= s.owner.Keys && s'.held == s.held && s'.used == s.used - gone && s'.owner == s.owner - gone
    && (forall r {:trigger At(s', r)} :: At(s', r) == if At(s, r) in gone then 0 else At(s, r))
  }

  lemma DroppedTrans(a: View, b: View, c: View, i: nat, x: set<nat>, y: set<nat>)
    requires Dropped(a, b, i, x) && Dropped(b, c, i, y) && 0 !in a.owner
    ensures Dropped(a, c, i, x + y)
  {
    forall r ensures At(c, r) == if At(a, r) in x + y then 0 else At(a, r) {
      assert At(b, r) == if At(a, r) in x then 0 else At(a, r);
    }
  }

  lemma NoBlockZero(s: Fs)
    ensures 0 !in s.owner
  {
    assert OwnOk(s, 0);
  }

  /** Taken out of their places and then freed, one by one. */
  lemma DroppedOk(s: Fs, s1: Fs, i: nat, gone: set<nat>)
    requires TakenOut(s, s1, gone) && gone !! s.held && i < |s.inodes|
    requires SameMeta(s.inodes[i], s1.inodes[i])
    requires forall n :: 0 <= n < |s.inodes| && n != i ==> s1.inodes[n] == s.inodes[n]
    ensures Dropped(s, FreeSet(s1, gone), i, gone)
  {
    assert s.held + gone - gone == s.held;
    forall r ensures At(FreeSet(s1, gone), r) == At(s1, r) { }
  }

  lemma OwnedNotHeld(s: Fs, u: set<nat>)
    requires u <= s.owner.Keys
    ensures u !! s.held
  {
    forall b | b in u ensures b !in s.held { assert BitOk(s, b); }
  }

  /** The direct blocks of inode i before slot k. */
  ghost function Directs(owner: map<nat, Ref>, i: nat, k: nat): set<nat> {
    set b | b in owner && owner[b].Direct? && owner[b].i == i && owner[b].k < k
  }

  lemma DirectsStep(s: Fs, i: nat, k: nat)
    requires HasInode(s, i) && k < NDIRECT
    ensures var b := At(s, Direct(i, k));
            Directs(s.owner, i, k + 1) == Directs(s.owner, i, k) + (if b != 0 then {b} else {})
            && b !in Directs(s.owner, i, k)
  {
    var b := At(s, Direct(i, k));
    assert RefOk(s, Direct(i, k)) && OwnOk(s, 0);
    forall c | c in s.owner && s.owner[c] == Direct(i, k) ensures c == b && b != 0 { assert OwnOk(s, c); }
  }

  lemma AllBlocks(s: Fs, i: nat)
    requires HasInode(s, i)
    ensures Directs(s.owner, i, NDIRECT) + Under(s.owner, i, 0) == BlocksOf(s.owner, i)
    ensures At(s, Ind(i)) == 0 ==> Under(s.owner, i, 0) == {}
  {
    forall c | c in s.owner && s.owner[c].Direct? ensures s.owner[c].k < NDIRECT { assert OwnOk(s, c) && OwnOk(s, 0); }
    forall c | c in s.owner && s.owner[c].i == i && !s.owner[c].Direct? ensures At(s, Ind(i)) != 0 {
      assert OwnOk(s, c) && OwnOk(s, 0);
    }
  }

  /** All the blocks of an inode dropped, and its size 0. */
  lemma TruncatedOk(s: Fs, s1: Fs, s2: View, i: nat)
    requires Dropped(s, s1, i, BlocksOf(s.owner, i)) && HasInode(s, i)
    requires s2 == s1.(inodes := s1.inodes[i := s1.inodes[i].(size := 0)])
    ensures Truncated(s, s2, i)
  {
    forall r ensures At(s2, r) == if r.i == i then 0 else At(s, r) {
      assert At(s2, r) == At(s1, r);
      assert RefOk(s, r) && OwnOk(s, At(s, r)) && OwnOk(s, 0);
    }
  }
}
