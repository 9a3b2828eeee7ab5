/** The inode table of kernel/fs.c (iget, idup, ilock, iunlock, iput) as an interleaved machine: each reference a
    process holds is an actor of its own. */
module InodeTable {
  import opened Options

  /** A table entry: ref, and which reference holds the sleep lock. nlink is the in-memory copy. */
  datatype Ent = Ent(inum: nat, ref: nat, valid: bool, nlink: nat, lock: Option<nat>)

  /** What a reference is doing: held, holding the lock, or in iput as the last one of an unlinked inode, with the
      lock (truncating) and then without it. */
  datatype Stage = Held | Locked | Truncating | Dropping

  datatype Ref = Ref(e: nat, stage: Stage)

  /** An on-disk inode: allocated, and its link count. */
  datatype Dinode = Dinode(used: bool, nlink: nat)

  /** `refs` are the references in existence, by name; `freeing` the inodes between the last iput and ifree, and
      `chosen` those between ialloc's choice and its iget. */
  datatype State = State(ent: seq<Ent>, disk: map<nat, Dinode>, refs: map<nat, Ref>, freeing: set<nat>,
                         chosen: set<nat>)

  datatype Step =
    | Get(inum: nat, e: nat, h: nat)       // iget, finding or recycling entry e, gives reference h
    | Dup(h: nat, h2: nat)
    | Lock(h: nat) | Unlock(h: nat)
    | Link(h: nat, n: nat)                 // nlink changed and written back, under the lock
    | Put(h: nat)                          // iput, not the last reference of an unlinked inode
    | PutLast(h: nat) | PutTrunc(h: nat) | PutDrop(h: nat)   // iput, the last reference
    | Ifree(inum: nat)
    | Ialloc(inum: nat)

  predicate Has(s: State, h: nat, st: Stage) {
    h in s.refs && s.refs[h].e < |s.ent| && s.refs[h].stage == st
  }

  predicate Present(s: State, inum: nat, e: nat) { e < |s.ent| && s.ent[e].ref > 0 && s.ent[e].inum == inum }

  /** iput's test. */
  predicate LastUnlinked(en: Ent) { en.ref == 1 && en.valid && en.nlink == 0 }

  /** An inode some process is giving up. */
  predicate Dying(s: State, inum: nat) {
    inum in s.freeing
    || exists h :: h in s.refs && s.refs[h].e < |s.ent|
                   && (s.refs[h].stage == Truncating || s.refs[h].stage == Dropping)
                   && s.ent[s.refs[h].e].inum == inum
  }

  /** iget is called for an inode a directory names, or by ialloc. */
  predicate MayGet(s: State, inum: nat) {
    inum in s.chosen || (inum in s.disk && s.disk[inum].used && s.disk[inum].nlink > 0)
  }

  predicate Enabled(s: State, step: Step) {
    match step
    case Get(inum, e, h) =>
      && h !in s.refs && e < |s.ent| && MayGet(s, inum)
      && (Present(s, inum, e) || (s.ent[e].ref == 0 && forall f :: 0 <= f < |s.ent| ==> !Present(s, inum, f)))
    case Dup(h, h2) => (Has(s, h, Held) || Has(s, h, Locked)) && h2 !in s.refs
    case Lock(h) => Has(s, h, Held) && s.ent[s.refs[h].e].lock == None && s.ent[s.refs[h].e].inum in s.disk
    case Unlock(h) => Has(s, h, Locked)
    case Link(h, _) => Has(s, h, Locked)
    case Put(h) => Has(s, h, Held) && s.ent[s.refs[h].e].ref > 0 && !LastUnlinked(s.ent[s.refs[h].e])
    case PutLast(h) => Has(s, h, Held) && LastUnlinked(s.ent[s.refs[h].e])
    case PutTrunc(h) => Has(s, h, Truncating)
    case PutDrop(h) => Has(s, h, Dropping) && s.ent[s.refs[h].e].ref > 0
    case Ifree(inum) => inum in s.freeing && inum in s.disk
    case Ialloc(inum) => inum in s.disk && !s.disk[inum].used
  }

  function WithEnt(s: State, e: nat, en: Ent): State
    requires e < |s.ent|
  {
    s.(ent := s.ent[e := en])
  }

  function Apply(s: State, step: Step): State
    requires Enabled(s, step)
  {
    match step
    case Get(inum, e, h) =>
      var en := if Present(s, inum, e) then s.ent[e].(ref := s.ent[e].ref + 1)
                else Ent(inum, 1, false, 0, s.ent[e].lock);
      WithEnt(s, e, en).(refs := s.refs[h := Ref(e, Held)], chosen := s.chosen - {inum})
    case Dup(h, h2) =>
      var e := s.refs[h].e;
      WithEnt(s, e, s.ent[e].(ref := s.ent[e].ref + 1)).(refs := s.refs[h2 := Ref(e, Held)])
    case Lock(h) =>
      var e := s.refs[h].e;
      var en := if s.ent[e].valid then s.ent[e] else s.ent[e].(valid := true, nlink := s.disk[s.ent[e].inum].nlink);
      WithEnt(s, e, en.(lock := Some(h))).(refs := s.refs[h := Ref(e, Locked)])
    case Unlock(h) =>
      var e := s.refs[h].e;
      WithEnt(s, e, s.ent[e].(lock := None)).(refs := s.refs[h := Ref(e, Held)])
    case Link(h, n) =>
      var e := s.refs[h].e;
      var inum := s.ent[e].inum;
      WithEnt(s, e, s.ent[e].(nlink := n))
        .(disk := if inum in s.disk then s.disk[inum := s.disk[inum].(nlink := n)] else s.disk)
    case Put(h) =>
      var e := s.refs[h].e;
      WithEnt(s, e, s.ent[e].(ref := s.ent[e].ref - 1)).(refs := s.refs - {h})
    case PutLast(h) =>
      var e := s.refs[h].e;
      WithEnt(s, e, s.ent[e].(lock := Some(h))).(refs := s.refs[h := Ref(e, Truncating)])
    case PutTrunc(h) =>
      var e := s.refs[h].e;
      WithEnt(s, e, s.ent[e].(valid := false, lock := None)).(refs := s.refs[h := Ref(e, Dropping)])
    case PutDrop(h) =>
      var e := s.refs[h].e;
      WithEnt(s, e, s.ent[e].(ref := s.ent[e].ref - 1)).(refs := s.refs - {h}, freeing := s.freeing + {s.ent[e].inum})
    case Ifree(inum) => s.(disk := s.disk[inum := s.disk[inum].(used := false)], freeing := s.freeing - {inum})
    case Ialloc(inum) => s.(disk := s.disk[inum := Dinode(true, 0)], chosen := s.chosen + {inum})
  }

  // ---- the invariant

  /** The references to entry e. */
  function Holders(refs: map<nat, Ref>, e: nat): set<nat> { set h | h in refs && refs[h].e == e }

  /** ref counts the references; the lock is held by one of them, and that one knows; what is being given up has
      just this one reference. */
  ghost predicate EntOk(s: State, e: nat) {
    e < |s.ent| ==>
      && s.ent[e].ref == |Holders(s.refs, e)|
      && (s.ent[e].lock.Some? ==>
            var h := s.ent[e].lock.value;
            h in s.refs && s.refs[h].e == e && (s.refs[h].stage == Locked || s.refs[h].stage == Truncating))
  }

  ghost predicate RefOk(s: State, h: nat) {
    h in s.refs ==>
      && s.refs[h].e < |s.ent|
      && (s.refs[h].stage == Locked || s.refs[h].stage == Truncating ==> s.ent[s.refs[h].e].lock == Some(h))
      && (s.refs[h].stage == Truncating || s.refs[h].stage == Dropping ==> Holders(s.refs, s.refs[h].e) == {h})
  }

  /** No inode is in two entries. */
  ghost predicate OneEntry(s: State, e: nat, f: nat) {
    e < |s.ent| && f < |s.ent| && e != f && s.ent[e].ref > 0 && s.ent[f].ref > 0 ==> s.ent[e].inum != s.ent[f].inum
  }

  /** An inode with references is allocated, and a valid copy agrees with the disk. */
  ghost predicate CopyOk(s: State, e: nat) {
    e < |s.ent| && s.ent[e].ref > 0 ==>
      && s.ent[e].inum in s.disk && s.disk[s.ent[e].inum].used
      && s.ent[e].inum !in s.chosen && s.ent[e].inum !in s.freeing
      && (s.ent[e].valid ==> s.disk[s.ent[e].inum].nlink == s.ent[e].nlink)
  }

  /** A reference being given up is to an unlinked inode; a locked one to a valid copy. */
  ghost predicate LastOk(s: State, h: nat) {
    h in s.refs && s.refs[h].e < |s.ent| ==>
      && var en := s.ent[s.refs[h].e];
      && (s.refs[h].stage == Truncating || s.refs[h].stage == Dropping ==>
            en.inum in s.disk && s.disk[en.inum].nlink == 0)
      && (s.refs[h].stage == Locked ==> en.valid)
  }

  /** An inode about to be freed is allocated and unlinked; one just allocated is not about to be freed. */
  ghost predicate SetsOk(s: State, inum: nat) {
    && (inum in s.freeing ==> inum in s.disk && s.disk[inum].used && s.disk[inum].nlink == 0 && inum !in s.chosen)
    && (inum in s.chosen ==> inum in s.disk && s.disk[inum].used)
  }

  ghost predicate Inv(s: State) {
    && (forall e {:trigger CopyOk(s, e)} :: CopyOk(s, e))
    && (forall h {:trigger LastOk(s, h)} :: LastOk(s, h))
    && (forall i {:trigger SetsOk(s, i)} :: SetsOk(s, i))
    && (forall e {:trigger EntOk(s, e)} :: EntOk(s, e))
    && (forall h {:trigger RefOk(s, h)} :: RefOk(s, h))
    && (forall e, f {:trigger OneEntry(s, e, f)} :: OneEntry(s, e, f))
  }

  lemma HoldersAdd(refs: map<nat, Ref>, h: nat, r: Ref, e: nat)
    requires h !in refs
    ensures Holders(refs[h := r], e) == if r.e == e then Holders(refs, e) + {h} else Holders(refs, e)
    ensures h !in Holders(refs, e)
  {
  }

  lemma HoldersDrop(refs: map<nat, Ref>, h: nat, e: nat)
    requires h in refs
    ensures Holders(refs - {h}, e) == Holders(refs, e) - {h}
    ensures h in Holders(refs, e) <==> refs[h].e == e
  {
  }

  lemma HoldersStage(refs: map<nat, Ref>, h: nat, st: Stage, e: nat)
    requires h in refs
    ensures Holders(refs[h := Ref(refs[h].e, st)], e) == Holders(refs, e)
  {
  }

  lemma {:induction false} OnlyOne(a: set<nat>, x: nat)
    requires x in a && |a| == 1
    ensures a == {x}
  {
    assert |a - {x}| == 0;
  }

  lemma LockHolder(s: State, e: nat)
    requires Inv(s) && e < |s.ent|
    ensures s.ent[e].lock.Some? ==>
              s.ent[e].lock.value in Holders(s.refs, e) && s.refs[s.ent[e].lock.value].stage != Held
  {
    assert EntOk(s, e);
  }

  /** iput finds the sleep lock of a last reference free: it does not block while holding itable.lock. */
  lemma LockIsFree(s: State, h: nat)
    requires Inv(s) && Enabled(s, PutLast(h))
    ensures s.ent[s.refs[h].e].lock == None && Holders(s.refs, s.refs[h].e) == {h}
  {
    var e := s.refs[h].e;
    assert EntOk(s, e) && RefOk(s, h);
    assert h in Holders(s.refs, e);
    OnlyOne(Holders(s.refs, e), h);
    LockHolder(s, e);
  }

  lemma InUse(s: State, h: nat)
    requires Inv(s) && h in s.refs
    ensures s.refs[h].e < |s.ent| && s.ent[s.refs[h].e].ref > 0
  {
    var e := s.refs[h].e;
    assert RefOk(s, h) && EntOk(s, e);
    assert h in Holders(s.refs, e);
  }

  /** An inode being given up is not looked up anew: no directory names it, and it is not free for ialloc. */
  lemma NotDying(s: State, inum: nat)
    requires Inv(s) && MayGet(s, inum)
    ensures !Dying(s, inum)
  {
    assert SetsOk(s, inum);
    forall h | h in s.refs && (s.refs[h].stage == Truncating || s.refs[h].stage == Dropping)
      ensures s.refs[h].e < |s.ent| && s.ent[s.refs[h].e].inum != inum
    {
      InUse(s, h);
      assert LastOk(s, h) && CopyOk(s, s.refs[h].e);
    }
  }

  /** The reference a step is about. */
  function About(step: Step): Option<nat> {
    match step
    case Get(_, _, h) => Some(h)
    case Dup(_, h2) => Some(h2)
    case Ifree(_) => None
    case Ialloc(_) => None
    case _ => Some(step.h)
  }

  lemma StepHolders(s: State, step: Step, e: nat)
    requires Enabled(s, step)
    ensures var s' := Apply(s, step);
            Holders(s'.refs, e) ==
            match step
            case Get(_, f, h) => if f == e then Holders(s.refs, e) + {h} else Holders(s.refs, e)
            case Dup(h, h2) => if s.refs[h].e == e then Holders(s.refs, e) + {h2} else Holders(s.refs, e)
            case Put(h) => Holders(s.refs, e) - {h}
            case PutDrop(h) => Holders(s.refs, e) - {h}
            case _ => Holders(s.refs, e)
  {
    match step {
      case Get(_, f, h) => HoldersAdd(s.refs, h, Ref(f, Held), e);
      case Dup(h, h2) => HoldersAdd(s.refs, h2, Ref(s.refs[h].e, Held), e);
      case Put(h) => HoldersDrop(s.refs, h, e);
      case PutDrop(h) => HoldersDrop(s.refs, h, e);
      case Lock(h) => HoldersStage(s.refs, h, Locked, e);
      case Unlock(h) => HoldersStage(s.refs, h, Held, e);
      case PutLast(h) => HoldersStage(s.refs, h, Truncating, e);
      case PutTrunc(h) => HoldersStage(s.refs, h, Dropping, e);
      case _ =>
    }
  }

  lemma EntMore(s: State, step: Step, e: nat)
    requires Inv(s) && Enabled(s, step) && (step.Get? || step.Dup?)
    ensures EntOk(Apply(s, step), e)
  {
    assert EntOk(s, e);
    StepHolders(s, step, e);
    match step {
      case Get(_, _, h) => HoldersAdd(s.refs, h, Ref(e, Held), e);
      case Dup(h, h2) =>
        assert RefOk(s, h);
        HoldersAdd(s.refs, h2, Ref(e, Held), e);
    }
  }

  lemma EntLess(s: State, step: Step, e: nat)
    requires Inv(s) && Enabled(s, step) && (step.Put? || step.PutDrop?)
    ensures EntOk(Apply(s, step), e)
  {
    assert EntOk(s, e) && RefOk(s, step.h);
    StepHolders(s, step, e);
    HoldersDrop(s.refs, step.h, e);
  }

  lemma EntSame(s: State, step: Step, e: nat)
    requires Inv(s) && Enabled(s, step) && !step.Get? && !step.Dup? && !step.Put? && !step.PutDrop?
    ensures EntOk(Apply(s, step), e)
  {
    assert EntOk(s, e);
    StepHolders(s, step, e);
    if About(step).Some? { assert RefOk(s, About(step).value); }
    if step.PutLast? { LockIsFree(s, step.h); }
  }

  lemma StepEnt(s: State, step: Step, e: nat)
    requires Inv(s) && Enabled(s, step)
    ensures EntOk(Apply(s, step), e)
  {
    if step.Get? || step.Dup? { EntMore(s, step, e); }
    else if step.Put? || step.PutDrop? { EntLess(s, step, e); }
    else { EntSame(s, step, e); }
  }

  /** A reference that is there already, seen by a step about another one. */
  lemma RefFacts(s: State, step: Step, h: nat)
    requires Inv(s) && Enabled(s, step) && h in s.refs
    ensures s.refs[h].e < |s.ent| && h in Holders(s.refs, s.refs[h].e)
    ensures s.ent[s.refs[h].e].ref == |Holders(s.refs, s.refs[h].e)|
  {
    assert RefOk(s, h) && EntOk(s, s.refs[h].e);
  }

  lemma MoreRef(s: State, step: Step, h: nat)
    requires Inv(s) && Enabled(s, step) && (step.Get? || step.Dup?)
    ensures RefOk(Apply(s, step), h)
  {
    assert RefOk(s, h);
    if step.Dup? { assert RefOk(s, step.h); }
    if h in s.refs {
      StepHolders(s, step, s.refs[h].e);
      RefFacts(s, step, h);
      if step.Dup? {
        assert step.h in Holders(s.refs, s.refs[h].e) <==> s.refs[step.h].e == s.refs[h].e;
      } else {
        NotDying(s, step.inum);
        assert s.refs[h].e == step.e ==> Holders(s.refs, step.e) != {};
      }
    }
  }

  lemma SameRef(s: State, step: Step, h: nat)
    requires Inv(s) && Enabled(s, step) && !step.Get? && !step.Dup?
    ensures RefOk(Apply(s, step), h)
  {
    assert RefOk(s, h);
    if About(step).Some? { assert RefOk(s, About(step).value); }
    if h in s.refs {
      StepHolders(s, step, s.refs[h].e);
      RefFacts(s, step, h);
    }
    match step {
      case PutLast(k) => LockIsFree(s, k);
      case Lock(k) => assert h in s.refs ==> (k in Holders(s.refs, s.refs[h].e) <==> s.refs[k].e == s.refs[h].e);
      case Put(k) => HoldersDrop(s.refs, k, s.refs[k].e);
      case _ =>
    }
  }

  lemma StepRef(s: State, step: Step, h: nat)
    requires Inv(s) && Enabled(s, step)
    ensures RefOk(Apply(s, step), h)
  {
    if step.Get? || step.Dup? { MoreRef(s, step, h); } else { SameRef(s, step, h); }
  }

  lemma StepOne(s: State, step: Step, e: nat, f: nat)
    requires Inv(s) && Enabled(s, step)
    ensures OneEntry(Apply(s, step), e, f)
  {
    assert OneEntry(s, e, f) && EntOk(s, e) && EntOk(s, f);
    if step.Get? && e < |s.ent| && f < |s.ent| && !Present(s, step.inum, step.e) {
      assert !Present(s, step.inum, e) && !Present(s, step.inum, f);
    }
    if step.Dup? {
      var d := s.refs[step.h].e;
      assert EntOk(s, d) && step.h in Holders(s.refs, d);
      assert |Holders(s.refs, d)| == |Holders(s.refs, d) - {step.h}| + 1;
    }
  }

  lemma StepCopy(s: State, step: Step, e: nat)
    requires Inv(s) && Enabled(s, step)
    ensures CopyOk(Apply(s, step), e)
  {
    assert CopyOk(s, e);
    match step {
      case Get(inum, _, _) => NotDying(s, inum); assert SetsOk(s, inum);
      case Ifree(inum) => assert SetsOk(s, inum);
      case Ialloc(inum) =>
      case PutDrop(h) => OnlyHolder(s, h); assert OneEntry(s, e, s.refs[h].e);
      case _ => SameEntry(s, step, e);
    }
  }

  lemma SameEntry(s: State, step: Step, e: nat)
    requires Inv(s) && Enabled(s, step) && !step.Get? && !step.Ifree? && !step.Ialloc? && !step.PutDrop?
    ensures CopyOk(Apply(s, step), e)
  {
    InUse(s, step.h);
    assert CopyOk(s, e) && OneEntry(s, e, s.refs[step.h].e) && CopyOk(s, s.refs[step.h].e);
  }

  /** The only reference to an entry. */
  lemma OnlyHolder(s: State, h: nat)
    requires Inv(s) && h in s.refs && (s.refs[h].stage == Truncating || s.refs[h].stage == Dropping)
    ensures s.refs[h].e < |s.ent| && s.ent[s.refs[h].e].ref == 1
    ensures forall k :: k in s.refs && s.refs[k].e == s.refs[h].e ==> k == h
  {
    var e := s.refs[h].e;
    assert RefOk(s, h) && EntOk(s, e);
    forall k | k in s.refs && s.refs[k].e == e ensures k == h { assert k in Holders(s.refs, e); }
  }

  lemma StepLast(s: State, step: Step, h: nat)
    requires Inv(s) && Enabled(s, step)
    ensures LastOk(Apply(s, step), h)
  {
    assert LastOk(s, h);
    if h in s.refs {
      InUse(s, h);
      assert CopyOk(s, s.refs[h].e);
      if s.refs[h].stage == Truncating || s.refs[h].stage == Dropping { OnlyHolder(s, h); }
    }
    match step {
      case Get(_, _, _) =>
      case Ifree(_) =>
      case Ialloc(_) =>
      case PutTrunc(k) => OnlyHolder(s, k); assert LastOk(s, k);
      case PutDrop(k) => OnlyHolder(s, k); assert LastOk(s, k);
      case Link(k, _) => LinkLast(s, step, h);
      case _ => InUse(s, step.h); assert CopyOk(s, s.refs[step.h].e);
    }
  }

  lemma LinkLast(s: State, step: Step, h: nat)
    requires Inv(s) && Enabled(s, step) && step.Link?
    ensures LastOk(Apply(s, step), h)
  {
    assert LastOk(s, h) && LastOk(s, step.h);
    InUse(s, step.h);
    if h in s.refs && (s.refs[h].stage == Truncating || s.refs[h].stage == Dropping) {
      OnlyHolder(s, h);
      assert OneEntry(s, s.refs[h].e, s.refs[step.h].e);
    }
  }

  lemma StepSets(s: State, step: Step, inum: nat)
    requires Inv(s) && Enabled(s, step)
    ensures SetsOk(Apply(s, step), inum)
  {
    assert SetsOk(s, inum);
    if !step.Get? && !step.Ifree? && !step.Ialloc? {
      InUse(s, step.h);
      assert CopyOk(s, s.refs[step.h].e) && LastOk(s, step.h);
    }
  }

  /** Over every run: an inode is in at most one entry in use, and ref is the number of references to it. */
  lemma StepInv(s: State, step: Step)
    requires Inv(s) && Enabled(s, step)
    ensures Inv(Apply(s, step))
  {
    var s' := Apply(s, step);
    forall e: nat ensures CopyOk(s', e) { StepCopy(s, step, e); }
    forall h: nat ensures LastOk(s', h) { StepLast(s, step, h); }
    forall i: nat ensures SetsOk(s', i) { StepSets(s, step, i); }
    forall e: nat ensures EntOk(s', e) { StepEnt(s, step, e); }
    forall h: nat ensures RefOk(s', h) { StepRef(s, step, h); }
    forall e: nat, f: nat ensures OneEntry(s', e, f) { StepOne(s, step, e, f); }
  }

  // ---- runs

  /** After boot: no references, every entry free. */
  ghost predicate Init(s: State) {
    && s.refs == map[] && s.freeing == {} && s.chosen == {}
    && forall e :: 0 <= e < |s.ent| ==> s.ent[e].ref == 0 && s.ent[e].lock == None
  }

  ghost predicate Next(s: State, step: Step, s': State) { Enabled(s, step) && s' == Apply(s, step) }

  ghost predicate IsRun(ss: seq<State>, st: seq<Step>) {
    |ss| == |st| + 1 && Init(ss[0]) && forall i :: 0 <= i < |st| ==> Next(ss[i], st[i], ss[i + 1])
  }

  lemma {:induction false} RunInv(ss: seq<State>, st: seq<Step>, i: nat)
    requires IsRun(ss, st) && i < |ss|
    ensures Inv(ss[i])
  {
    if i == 0 {
      forall e: nat ensures EntOk(ss[0], e) { assert Holders(ss[0].refs, e) == {}; }
    } else {
      RunInv(ss, st, i - 1);
      assert Next(ss[i - 1], st[i - 1], ss[i]);
      StepInv(ss[i - 1], st[i - 1]);
    }
  }

  /** In every run: each inode is in at most one entry in use, ref counts the references, and iput never waits for
      the sleep lock of the inode it gives up, which is not looked up again. */
  lemma TableSafety(ss: seq<State>, st: seq<Step>, i: nat, e: nat, f: nat)
    requires IsRun(ss, st) && i < |ss| && e < |ss[i].ent| && f < |ss[i].ent|
    ensures ss[i].ent[e].ref == |Holders(ss[i].refs, e)|
    ensures e != f && ss[i].ent[e].ref > 0 && ss[i].ent[f].ref > 0 ==> ss[i].ent[e].inum != ss[i].ent[f].inum
    ensures forall h :: Enabled(ss[i], PutLast(h)) ==> ss[i].ent[ss[i].refs[h].e].lock == None
    ensures forall inum :: MayGet(ss[i], inum) ==> !Dying(ss[i], inum)
  {
    RunInv(ss, st, i);
    assert EntOk(ss[i], e) && OneEntry(ss[i], e, f);
    forall h | Enabled(ss[i], PutLast(h)) ensures ss[i].ent[ss[i].refs[h].e].lock == None { LockIsFree(ss[i], h); }
    forall inum | MayGet(ss[i], inum) ensures !Dying(ss[i], inum) { NotDying(ss[i], inum); }
  }

  /** In every run an inode with references is allocated, so that ilock never finds one without a type; and ifree
      frees only an inode that has no links, that nobody refers to, and that iget is not being called for. */
  lemma FreedWhenGone(ss: seq<State>, st: seq<Step>, i: nat, h: nat)
    requires IsRun(ss, st) && i < |st|
    ensures h in ss[i].refs ==>
              var e := ss[i].refs[h].e;
              e < |ss[i].ent| && ss[i].ent[e].inum in ss[i].disk && ss[i].disk[ss[i].ent[e].inum].used
    ensures st[i].Ifree? ==>
              var inum := st[i].inum;
              && inum in ss[i].disk && ss[i].disk[inum].used && ss[i].disk[inum].nlink == 0 && !MayGet(ss[i], inum)
              && (h in ss[i].refs ==> ss[i].ent[ss[i].refs[h].e].inum != inum)
  {
    RunInv(ss, st, i);
    assert Next(ss[i], st[i], ss[i + 1]);
    if h in ss[i].refs {
      InUse(ss[i], h);
      assert CopyOk(ss[i], ss[i].refs[h].e);
    }
    if st[i].Ifree? { assert SetsOk(ss[i], st[i].inum); }
  }
}
