/** Every page of memory is accounted for: from kinit on it is free, a page table, a user frame, or handed out by kalloc
    and not yet given back. */
module VmAccount {
  import opened VmState
  import opened VmRanges
  import opened VmFill
  import opened VmFree
  import opened VmUser

  /** Page p of memory is counted once, or handed out; `out` are the pages handed out. */
  ghost predicate PageOk(s: View, out: set<nat>, p: nat) {
    && (InRam(s.end, p) <==> Counted(s, p) || p in out)
    && (p in out ==> !Counted(s, p))
  }

  ghost predicate Accounted(s: View, out: set<nat>) { forall p {:trigger PageOk(s, out, p)} :: PageOk(s, out, p) }

  /** The three kinds that are counted exclude each other. */
  lemma CountedOnce(s: Mem, p: nat)
    ensures !(p in s.free && IsTable(s, p)) && !(p in s.free && p in s.owner) && !(IsTable(s, p) && p in s.owner)
  {
  }

  /** kinit: all of memory is on the free list. */
  lemma AllFree(s: View)
    requires s.t.at == map[] && s.owner == map[] && forall p: nat :: p in s.free <==> InRam(s.end, p)
    ensures Accounted(s, {})
  {
    forall p: nat ensures PageOk(s, {}, p) { assert !IsTable(s, p); }
  }

  // ---- what the operations conserve

  /** uvmunmap, uvmdealloc */
  lemma ClearedConserves(s: Mem, s': Mem, root: nat, v: nat, n: nat)
    requires Cleared(s, s', root, v, n)
    ensures Conserved(s, s')
  {
    forall p: nat ensures Counted(s', p) <==> Counted(s, p) {
      assert IsTable(s', p) <==> IsTable(s, p);
      assert p in s'.owner ==> p in s.owner;
    }
  }

  /** uvmfree, proc_freepagetable */
  lemma ReleasedConserves(s: Mem, s': Mem, root: nat)
    requires Released(s, s', root)
    ensures Conserved(s, s')
  {
    forall p: nat ensures Counted(s', p) <==> Counted(s, p) {
      if IsTable(s, p) && !TableOf(s, root, p) {
        var q :| q in s.t.at && s.t.at[q] == p;
        assert q in s'.t.at && s'.t.at[q] == p;
      }
      if IsTable(s', p) {
        var q :| q in s'.t.at && s'.t.at[q] == p;
        assert q in s.t.at && s.t.at[q] == p;
      }
    }
  }

  /** uvmcreate, proc_pagetable */
  lemma CreatedConserves(s: Mem, s': Mem, root: nat, add: map<Slot, Leaf>)
    requires Created(s, s', root, add)
    ensures Conserved(s, s')
  {
    CreatedOwners(s, s', root, add);
    forall p: nat ensures Counted(s', p) <==> Counted(s, p) { assert IsPage(s', p) <==> IsPage(s, p); }
  }

  lemma ConservedOk(s: View, s': View, out: set<nat>)
    requires Accounted(s, out) && Conserved(s, s') && s'.end == s.end
    ensures Accounted(s', out)
  {
    forall p: nat ensures PageOk(s', out, p) { assert PageOk(s, out, p) && (Counted(s', p) <==> Counted(s, p)); }
  }

  lemma PopCounts(s: Mem, pa: nat, p: nat)
    requires pa in s.free
    ensures Counted(Pop(s, pa), p) <==> Counted(s, p) && p != pa
  {
    CountedOnce(s, pa);
    assert IsTable(Pop(s, pa), p) <==> IsTable(s, p);
  }

  lemma PushCounts(s: Mem, pa: nat, p: nat)
    ensures Counted(Push(s, pa), p) <==> Counted(s, p) || p == pa
  {
    assert IsTable(Push(s, pa), p) <==> IsTable(s, p);
  }

  // ---- runs

  /** The operations, by what Memory's methods ensure of them: walk, and every operation that fails; mappages; uvmalloc
      and uvmcopy; uvmunmap and uvmdealloc; uvmfree and proc_freepagetable; uvmcreate and proc_pagetable; uvmclear;
      copyout; kalloc and kfree by themselves. */
  datatype Op =
    | Walk
    | MapPages(add: map<Slot, Leaf>)
    | Fill(root: nat, want: map<nat, PageSpec>)
    | Unmap(root: nat, v: nat, n: nat)
    | FreeTable(root: nat)
    | NewTable(root: nat, add: map<Slot, Leaf>)
    | UvmClear(k: Slot)
    | CopyOut(root: nat, va: nat, bytes: seq<nat>)
    | Kalloc(pa: nat)
    | Kfree(pa: nat)

  /** The user frames of the mappings `add`. */
  ghost function FramesOf(s: View, add: map<Slot, Leaf>): set<nat> { set k | k in add && Tracked(s, k) :: add[k].frame }

  /** `out` are the pages handed out: by kalloc until kfree, or until they are mapped as user frames. */
  ghost predicate Does(op: Op, s: Mem, out: set<nat>, s': Mem, out': set<nat>) {
    match op
    case Walk => Kept(s, s') && out' == out
    case MapPages(add) => Added(s, s', add) && add.Keys !! s.maps.Keys && FramesOf(s, add) <= out
                          && out' == out - FramesOf(s, add)
    case Fill(root, want) => Populated(s, s', root, want) && out' == out
    case Unmap(root, v, n) => Cleared(s, s', root, v, n) && out' == out
    case FreeTable(root) => Released(s, s', root) && out' == out
    case NewTable(root, add) => Created(s, s', root, add) && out' == out
    case UvmClear(k) => HasLeaf(s, k) && s' == NoUser(s, k) && out' == out
    case CopyOut(root, va, bytes) => Wrote(s, s', root, va, bytes) && out' == out
    case Kalloc(pa) => pa in s.free && s' == Pop(s, pa) && out' == out + {pa}
    case Kfree(pa) => pa in out && s' == Push(s, pa) && out' == out - {pa}
  }

  /** mappages: what was handed out and is mapped as a user frame is counted. */
  lemma MappedCounts(s: Mem, s': Mem, add: map<Slot, Leaf>, p: nat)
    requires Added(s, s', add) && add.Keys !! s.maps.Keys
    ensures Counted(s', p) <==> Counted(s, p) || p in FramesOf(s, add)
  {
    assert IsPage(s', p) <==> IsPage(s, p);
    if p in s.owner { assert s.owner[p] in s'.maps && s'.maps[s.owner[p]].frame == p; }
    if p in FramesOf(s, add) {
      var k :| k in add && Tracked(s, k) && add[k].frame == p;
      assert k in s'.maps && s'.maps[k].frame == p;
    }
    if p in s'.owner && s'.owner[p] in add { assert add[s'.owner[p]].frame == p; }
  }

  /** What an operation that hands nothing out conserves. */
  lemma DoesConserve(op: Op, s: Mem, out: set<nat>, s': Mem, out': set<nat>)
    requires Does(op, s, out, s', out') && !op.MapPages? && !op.Kalloc? && !op.Kfree?
    ensures Conserved(s, s') && s'.end == s.end && out' == out
  {
    match op {
      case Walk => ConservedKept(s, s');
      case Fill(root, want) =>
      case Unmap(root, v, n) => ClearedConserves(s, s', root, v, n);
      case FreeTable(root) => ReleasedConserves(s, s', root);
      case NewTable(root, add) => CreatedConserves(s, s', root, add);
      case UvmClear(k) =>
        forall p: nat ensures Counted(s', p) <==> Counted(s, p) { assert IsTable(s', p) <==> IsTable(s, p); }
      case CopyOut(root, va, bytes) =>
    }
  }

  lemma DoesOk(op: Op, s: Mem, out: set<nat>, s': Mem, out': set<nat>)
    requires Accounted(s, out) && Does(op, s, out, s', out')
    ensures Accounted(s', out')
  {
    if op.MapPages? {
      forall p: nat ensures PageOk(s', out', p) {
        assert PageOk(s, out, p);
        MappedCounts(s, s', op.add, p);
      }
    } else if op.Kalloc? || op.Kfree? {
      forall p: nat ensures PageOk(s', out', p) {
        assert PageOk(s, out, p) && PageOk(s, out, op.pa);
        if op.Kalloc? { PopCounts(s, op.pa, p); } else { PushCounts(s, op.pa, p); }
      }
    } else {
      DoesConserve(op, s, out, s', out');
      ConservedOk(s, s', out);
    }
  }

  /** In every run from kinit on, every page of memory is free, a table, a user frame or handed out, and just one of
      these. */
  lemma {:induction false} NoPageLost(ss: seq<Mem>, outs: seq<set<nat>>, ops: seq<Op>, i: nat)
    requires |ss| == |outs| == |ops| + 1 && i < |ss| && Accounted(ss[0], outs[0])
    requires forall j :: 0 <= j < |ops| ==> Does(ops[j], ss[j], outs[j], ss[j + 1], outs[j + 1])
    ensures Accounted(ss[i], outs[i])
  {
    if i > 0 {
      NoPageLost(ss, outs, ops, i - 1);
      DoesOk(ops[i - 1], ss[i - 1], outs[i - 1], ss[i], outs[i]);
    }
  }
}
