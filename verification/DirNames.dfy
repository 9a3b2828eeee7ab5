/** Names of kernel/fs.c and kernel/string.c as bytes: the elements of a path, and the name field of a directory entry,
    which has no terminating zero if it is full. */
module DirNames {
  const DIRSIZ: nat := 14
  const SLASH: nat := 47

  predicate IsString(s: seq<nat>) { forall k :: 0 <= k < |s| ==> s[k] != 0 }

  /** A name field as a string: its bytes up to the first zero. */
  function Canon(b: seq<nat>): seq<nat> { if b == [] || b[0] == 0 then [] else [b[0]] + Canon(b[1..]) }

  /** The part of a name that counts. */
  function Short(n: seq<nat>): seq<nat> { if |n| <= DIRSIZ then n else n[..DIRSIZ] }

  lemma {:induction false} CanonPrefix(a: seq<nat>, b: seq<nat>)
    requires IsString(a) && (b == [] || b[0] == 0)
    ensures Canon(a + b) == a
  {
    if a != [] {
      assert (a + b)[1..] == a[1..] + b;
      CanonPrefix(a[1..], b);
    } else {
      assert a + b == b;
    }
  }

  /** strncmp(s, t, DIRSIZ) == 0 */
  method NameCmp(s: seq<nat>, t: seq<nat>) returns (same: bool)
    requires |s| == |t| == DIRSIZ
    ensures same <==> Canon(s) == Canon(t)
  {
    var k := 0;
    while k < DIRSIZ && s[k] != 0 && s[k] == t[k]
      invariant 0 <= k <= DIRSIZ && (Canon(s) == Canon(t) <==> Canon(s[k..]) == Canon(t[k..]))
    {
      assert s[k..][1..] == s[k + 1..] && t[k..][1..] == t[k + 1..];
      assert Canon(s[k..]) == [s[k]] + Canon(s[k + 1..]) && Canon(t[k..]) == [s[k]] + Canon(t[k + 1..]);
      Same(s[k], Canon(s[k + 1..]), Canon(t[k + 1..]));
      k := k + 1;
    }
    if k < DIRSIZ { FirstDiffers(s[k..], t[k..]); }
    return k == DIRSIZ || s[k] == t[k];
  }

  lemma Same(c: nat, a: seq<nat>, b: seq<nat>)
    ensures [c] + a == [c] + b <==> a == b
  {
    assert ([c] + a)[1..] == a && ([c] + b)[1..] == b;
  }

  lemma FirstDiffers(a: seq<nat>, b: seq<nat>)
    requires a != [] && b != [] && (a[0] == 0 || a[0] != b[0])
    ensures Canon(a) == Canon(b) <==> a[0] == b[0]
  {
    if a[0] != 0 && b[0] != 0 { assert Canon(a)[0] == a[0] && Canon(b)[0] == b[0]; }
  }

  // ---- paths

  /** A path cut at every slash. */
  function Split(p: seq<nat>): (r: seq<seq<nat>>)
    ensures |r| > 0
  {
    if p == [] then [[]]
    else
      var r := Split(p[1..]);
      if p[0] == SLASH then [[]] + r else [[p[0]] + r[0]] + r[1..]
  }

  /** The parts that are not empty, as far as they count. */
  function Names(parts: seq<seq<nat>>): seq<seq<nat>> {
    if parts == [] then [] else (if parts[0] == [] then [] else [Short(parts[0])]) + Names(parts[1..])
  }

  function Elements(p: seq<nat>): seq<seq<nat>> { Names(Split(p)) }

  lemma ElementsSlash(p: seq<nat>)
    requires p != [] && p[0] == SLASH
    ensures Elements(p) == Elements(p[1..])
  {
    assert Split(p)[1..] == Split(p[1..]);
  }

  lemma {:induction false} SplitAt(p: seq<nat>, k: nat)
    requires k <= |p| && (forall j :: 0 <= j < k ==> p[j] != SLASH) && (k == |p| || p[k] == SLASH)
    ensures Split(p) == [p[..k]] + if k == |p| then [] else Split(p[k + 1..])
  {
    if k > 0 {
      SplitAt(p[1..], k - 1);
      assert p[..k] == [p[0]] + p[1..][..k - 1];
      if k < |p| { assert p[1..][k..] == p[k + 1..]; }
    } else if p != [] {
      assert p[..0] == [];
    }
  }

  /** The first k bytes of p, up to a slash or the end, are its first element. */
  lemma ElementsAt(p: seq<nat>, k: nat)
    requires 0 < k <= |p| && (forall j :: 0 <= j < k ==> p[j] != SLASH) && (k == |p| || p[k] == SLASH)
    ensures Elements(p) == [Short(p[..k])] + Elements(p[k..])
  {
    SplitAt(p, k);
    assert Split(p)[1..] == if k == |p| then [] else Split(p[k + 1..]);
    if k < |p| {
      ElementsSlash(p[k..]);
      assert p[k..][1..] == p[k + 1..];
    }
  }

  /** Slashes at the start of path, from j on: none is left after the result. */
  method SkipSlashes(path: seq<nat>, j: nat) returns (k: nat)
    requires j <= |path|
    ensures j <= k <= |path| && (k == |path| || path[k] != SLASH) && Elements(path[k..]) == Elements(path[j..])
  {
    k := j;
    while k < |path| && path[k] == SLASH
      invariant j <= k <= |path| && Elements(path[k..]) == Elements(path[j..])
    {
      ElementsSlash(path[k..]);
      assert path[k..][1..] == path[k + 1..];
      k := k + 1;
    }
  }

  /** The end of the element that starts at s. */
  method ElemEnd(path: seq<nat>, s: nat) returns (e: nat)
    requires s < |path| && path[s] != SLASH
    ensures s < e <= |path| && Elements(path[s..]) == [Short(path[s..e])] + Elements(path[e..])
  {
    e := s;
    while e < |path| && path[e] != SLASH
      invariant s <= e <= |path| && forall j :: s <= j < e ==> path[j] != SLASH
    {
      e := e + 1;
    }
    ElementsAt(path[s..], e - s);
    assert path[s..][..e - s] == path[s..e] && path[s..][e - s..] == path[e..];
  }

  /** There is a first element of path, and it is in name; rest, empty exactly if there is no second one, follows. */
  predicate Skipped(path: seq<nat>, more: bool, rest: seq<nat>, name: seq<nat>) {
    && (more <==> Elements(path) != [])
    && (more ==> |name| == DIRSIZ && Elements(path) == [Canon(name)] + Elements(rest))
    && (more ==> IsString(rest) && |rest| < |path| && (rest == [] <==> Elements(rest) == []))
  }

  /** skipelem: the first element of path goes into name, a field that held buf; rest is what follows. more is false
      exactly if there is no element, and rest is empty exactly if it was the last. */
  method SkipElem(path: seq<nat>, buf: seq<nat>) returns (more: bool, rest: seq<nat>, name: seq<nat>)
    requires IsString(path) && |buf| == DIRSIZ
    ensures Skipped(path, more, rest, name)
  {
    var s := SkipSlashes(path, 0);
    assert path[0..] == path;
    if s == |path| { return false, [], buf; }
    var e := ElemEnd(path, s);
    name := PutName(path[s..e], buf);
    NameField(path[s..e], name);
    var k := SkipSlashes(path, e);
    rest := path[k..];
    if rest != [] { NotEmpty(rest); }
    return true, rest, name;
  }

  /** A name copied over the field buf. */
  function PutName(elem: seq<nat>, buf: seq<nat>): (name: seq<nat>)
    requires |buf| == DIRSIZ
    ensures |name| == DIRSIZ
    ensures if |elem| >= DIRSIZ then name == elem[..DIRSIZ] else name[..|elem|] == elem && name[|elem|] == 0
  {
    if |elem| >= DIRSIZ then elem[..DIRSIZ] else elem + [0] + buf[|elem| + 1..]
  }

  lemma NameField(elem: seq<nat>, name: seq<nat>)
    requires IsString(elem) && |name| == DIRSIZ
    requires if |elem| >= DIRSIZ then name == elem[..DIRSIZ] else name[..|elem|] == elem && name[|elem|] == 0
    ensures Canon(name) == Short(elem)
  {
    if |elem| >= DIRSIZ {
      CanonPrefix(name, []);
      assert name + [] == name;
    } else {
      CanonPrefix(elem, name[|elem|..]);
      assert elem + name[|elem|..] == name;
    }
  }

  lemma NotEmpty(p: seq<nat>)
    requires p != [] && p[0] != SLASH
    ensures Elements(p) != []
  {
  }
}
