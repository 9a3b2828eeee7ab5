/** The on-disk log: header block, data blocks, and what recovery makes of them.
    A block is its 256 words of 4 bytes; only the header block is interpreted. */
module LogFormat {
  const WORDS: nat := 256   // BSIZE / sizeof(int)

  type Block = b: seq<nat> | |b| == WORDS witness seq(WORDS, i => 0)
  type Disk = seq<Block>

  /** The part of the superblock the log uses: the log occupies blocks [start, start + nlog). */
  datatype Layout = Layout(size: nat, start: nat, nlog: nat)

  predicate ValidLayout(c: Layout) {
    c.start + c.nlog <= c.size && 1 <= c.nlog
  }

  predicate Home(c: Layout, k: int) {
    0 <= k < c.size && !(c.start <= k < c.start + c.nlog)
  }

  predicate Distinct(s: seq<nat>) {
    forall i, j :: 0 <= i < j < |s| ==> s[i] != s[j]
  }

  /** A header can be committed: its data blocks fit in the log and it names distinct home blocks. */
  predicate ValidEntries(c: Layout, h: seq<nat>) {
    && |h| < c.nlog
    && |h| < WORDS
    && Distinct(h)
    && forall i :: 0 <= i < |h| ==> Home(c, h[i])
  }

  function ReadHeader(b: Block): (h: seq<nat>)
    requires b[0] < WORDS
  {
    b[1..1 + b[0]]
  }

  /** write_head stores n and the first n entries; the rest of the block keeps its old words. */
  function WriteHeader(b: Block, h: seq<nat>): (r: Block)
    requires |h| < WORDS
    ensures r[0] == |h| && ReadHeader(r) == h
  {
    var r := [|h|] + h + b[1 + |h|..];
    assert r[1..1 + |h|] == h;
    r
  }

  /** Running recovery on this disk, uninterrupted or not, must give home contents `goal`. */
  ghost predicate RecoverableTo(c: Layout, disk: Disk, goal: Disk) {
    && ValidLayout(c) && |disk| == |goal| == c.size
    && disk[c.start][0] < WORDS
    && var h := ReadHeader(disk[c.start]);
    && ValidEntries(c, h)
    && (forall j :: 0 <= j < |h| ==> disk[c.start + 1 + j] == goal[h[j]])
    && (forall k :: Home(c, k) && k !in h ==> disk[k] == goal[k])
  }

  ghost predicate SameHome(c: Layout, a: Disk, b: Disk) {
    && |a| == |b| == c.size
    && forall k :: Home(c, k) ==> a[k] == b[k]
  }

  /** install_trans, cut off after its first n disk writes. */
  function Install(c: Layout, disk: Disk, h: seq<nat>, n: nat): (d: Disk)
    requires ValidLayout(c) && |disk| == c.size && ValidEntries(c, h) && n <= |h|
    ensures |d| == c.size
  {
    if n == 0 then disk else
      var d := Install(c, disk, h, n - 1);
      d[h[n - 1] := d[c.start + n]]
  }

  /** One boot: recovery runs until the power fails after `n` disk writes, or to the end. */
  function Boot(c: Layout, disk: Disk, n: nat): (d: Disk)
    requires ValidLayout(c) && |disk| == c.size
    requires disk[c.start][0] < WORDS && ValidEntries(c, ReadHeader(disk[c.start]))
    ensures |d| == c.size
  {
    var h := ReadHeader(disk[c.start]);
    if n <= |h| then Install(c, disk, h, n)
    else
      var d := Install(c, disk, h, |h|);
      d[c.start := WriteHeader(d[c.start], [])]
  }

  /** Copying one committed block home changes nothing about what recovery gives. */
  lemma InstallKeepsRecoverable(c: Layout, disk: Disk, goal: Disk, i: nat)
    requires RecoverableTo(c, disk, goal) && i < |ReadHeader(disk[c.start])|
    ensures var k := ReadHeader(disk[c.start])[i];
            disk[c.start + 1 + i] == goal[k] && RecoverableTo(c, disk[k := goal[k]], goal)
  {
    var k := ReadHeader(disk[c.start])[i];
    var d := disk[k := goal[k]];
    assert d[c.start] == disk[c.start];
  }

  lemma {:induction false} InstallEffect(c: Layout, disk: Disk, h: seq<nat>, n: nat)
    requires ValidLayout(c) && |disk| == c.size && ValidEntries(c, h) && n <= |h|
    ensures forall j :: 0 <= j < n ==> Install(c, disk, h, n)[h[j]] == disk[c.start + 1 + j]
    ensures forall k :: 0 <= k < c.size && k !in h[..n] ==> Install(c, disk, h, n)[k] == disk[k]
  {
    if n > 0 {
      InstallEffect(c, disk, h, n - 1);
      assert h[..n] == h[..n - 1] + [h[n - 1]];
    }
  }

  /** Recovery is idempotent under crashes: wherever a boot is cut off, the disk still recovers to the
      same contents, and a boot that is not cut off has them in place with an empty header. */
  lemma BootRecovers(c: Layout, disk: Disk, goal: Disk, n: nat)
    requires RecoverableTo(c, disk, goal)
    ensures RecoverableTo(c, Boot(c, disk, n), goal)
    ensures n > |ReadHeader(disk[c.start])| ==>
              SameHome(c, Boot(c, disk, n), goal) && Boot(c, disk, n)[c.start][0] == 0
  {
    var h := ReadHeader(disk[c.start]);
    var m := if n <= |h| then n else |h|;
    InstallEffect(c, disk, h, m);
    var d := Install(c, disk, h, m);
    assert d[c.start] == disk[c.start];
    forall j | 0 <= j < |h| ensures d[c.start + 1 + j] == goal[h[j]] {}
    assert RecoverableTo(c, d, goal);
    if n > |h| {
      assert h[..m] == h;
      forall k | Home(c, k) ensures d[k] == goal[k] {
        if k in h { var j :| 0 <= j < |h| && h[j] == k; }
      }
      assert ReadHeader(Boot(c, disk, n)[c.start]) == [];
    }
  }

  /** The disk after a series of boots, each cut off by a power failure after the given number of writes. */
  ghost function Boots(c: Layout, disk: Disk, goal: Disk, cuts: seq<nat>): (d: Disk)
    requires RecoverableTo(c, disk, goal)
    ensures RecoverableTo(c, d, goal)
    decreases |cuts|
  {
    if cuts == [] then disk
    else
      BootRecovers(c, disk, goal, cuts[0]);
      Boots(c, Boot(c, disk, cuts[0]), goal, cuts[1..])
  }

  /** Any number of crashes during recovery, then one recovery that completes. */
  lemma RepeatedCrashes(c: Layout, disk: Disk, goal: Disk, cuts: seq<nat>)
    requires RecoverableTo(c, disk, goal)
    ensures var d := Boot(c, Boots(c, disk, goal, cuts), WORDS);
            SameHome(c, d, goal) && d[c.start][0] == 0
  {
    BootRecovers(c, Boots(c, disk, goal, cuts), goal, WORDS);
  }
}
