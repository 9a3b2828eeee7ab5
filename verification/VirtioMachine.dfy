/** kernel/virtio_disk.c and the device it drives, as an interleaved machine over the shared memory of section 2.6
    of virtio v1.1: driver code runs under vdisk_lock, the device at any time. Indices are 16 bits wide and wrap. */
module VirtioMachine {
  import opened Options

  const NUM: nat := 8
  const F_NEXT: nat := 1
  const F_WRITE: nat := 2
  const WRAP: nat := 65536

  /** What a descriptor points to: a command header, a buffer's data, a status byte. */
  datatype Addr = NoAddr | Op(i: nat) | Data(b: nat) | Status(i: nat)

  datatype Desc = Desc(addr: Addr, len: nat, flags: nat, next: nat)

  const CLEAR: Desc := Desc(NoAddr, 0, 0, 0)

  /** virtio_blk_req: the sector stands for the block it is the first of. */
  datatype Req = Req(write: bool, blockno: nat)

  datatype Info = Info(b: Option<nat>, status: nat)

  /** struct buf; `busy` is b->disk. */
  datatype Buf = Buf(blockno: nat, data: nat, busy: bool)

  /** How far a request has come. */
  datatype Phase = Prepared | Offered | Taken | Done | Returned | Seen

  /** A request: its other two descriptors, its buffer and direction, and what is to be transferred: the buffer's
      contents at the call, or the block's. The head is its key. */
  datatype Live = Live(d1: nat, d2: nat, b: nat, write: bool, phase: Phase, sent: nat)

  /** What the driver is doing with vdisk_lock. */
  datatype Drv = Idle | Publishing(h: nat) | Intr

  datatype State = State(
    free: seq<bool>, desc: seq<Desc>, ops: seq<Req>, info: seq<Info>,
    avail: seq<nat>, availIdx: nat, used: seq<nat>, usedIdx: nat, drvIdx: nat, devIdx: nat,
    bufs: seq<Buf>, disk: map<nat, nat>, drv: Drv,
    // what has happened: all requests offered, taken, returned and seen so far, those in flight, and the contents
    // of the two rings in order
    offered: nat, taken: nat, returned: nat, seen: nat, live: map<nat, Live>, availQ: seq<nat>, usedQ: seq<nat>)

  // ---- alloc_desc, alloc3_desc, free_desc, free_chain

  /** The first free descriptor at or after i, NUM if there is none. */
  function FirstFree(free: seq<bool>, i: nat): (r: nat)
    requires |free| == NUM && i <= NUM
    ensures i <= r <= NUM && (r < NUM ==> free[r]) && forall j :: i <= j < r ==> !free[j]
    decreases NUM - i
  {
    if i == NUM || free[i] then i else FirstFree(free, i + 1)
  }

  /** The free flags after alloc_desc. */
  function Without(free: seq<bool>): seq<bool>
    requires |free| == NUM && FirstFree(free, 0) < NUM
  {
    free[FirstFree(free, 0) := false]
  }

  predicate CanAlloc3(free: seq<bool>) {
    && |free| == NUM && FirstFree(free, 0) < NUM
    && FirstFree(Without(free), 0) < NUM && FirstFree(Without(Without(free)), 0) < NUM
  }

  // ---- the driver

  /** virtio_disk_rw up to the write of the avail ring. The caller has b to itself, and no other buffer in flight
      is for the same block. */
  predicate CanPrepare(s: State, b: nat) {
    && Sized(s) && s.drv == Idle && b < |s.bufs| && CanAlloc3(s.free) && s.bufs[b].blockno in s.disk
    && forall h :: h in s.live ==> s.live[h].b != b && s.live[h].b < |s.bufs|
                                   && s.bufs[s.live[h].b].blockno != s.bufs[b].blockno
  }

  predicate Sized(s: State) {
    && |s.free| == NUM && |s.desc| == NUM && |s.ops| == NUM && |s.info| == NUM && |s.avail| == NUM && |s.used| == NUM
    && s.availIdx < WRAP && s.usedIdx < WRAP && s.drvIdx < WRAP && s.devIdx < WRAP
  }

  function DoPrepare(s: State, b: nat, write: bool): State
    requires CanPrepare(s, b)
  {
    var i0, i1, i2 := FirstFree(s.free, 0), FirstFree(Without(s.free), 0), FirstFree(Without(Without(s.free)), 0);
    s.(free := Without(Without(Without(s.free))),
       ops := s.ops[i0 := Req(write, s.bufs[b].blockno)],
       desc := s.desc[i0 := Desc(Op(i0), 16, F_NEXT, i1)]
               [i1 := Desc(Data(b), 1024, if write then F_NEXT else F_WRITE + F_NEXT, i2)]
               [i2 := Desc(Status(i0), 1, F_WRITE, 0)],
       info := s.info[i0 := Info(Some(b), 0xff)],
       bufs := s.bufs[b := s.bufs[b].(busy := true)],
       avail := s.avail[s.availIdx % NUM := i0],
       drv := Publishing(i0),
       live := s.live[i0 := Live(i1, i2, b, write, Prepared,
                                 if write then s.bufs[b].data else s.disk[s.bufs[b].blockno])])
  }

  /** avail->idx += 1, and the release of the lock in sleep. */
  predicate CanPublish(s: State) { Sized(s) && s.drv.Publishing? && s.drv.h in s.live }

  function DoPublish(s: State): State
    requires CanPublish(s)
  {
    var h := s.drv.h;
    s.(availIdx := (s.availIdx + 1) % WRAP, drv := Idle, offered := s.offered + 1,
       live := s.live[h := s.live[h].(phase := Offered)], availQ := s.availQ + [h])
  }

  /** virtio_disk_intr, one turn of its loop. */
  predicate CanIntr(s: State) {
    && Sized(s) && s.drv == Intr && s.drvIdx != s.usedIdx
    && s.used[s.drvIdx % NUM] < NUM
  }

  /** The checks of the turn: the status is 0 and there is a buffer to notify. */
  predicate IntrChecks(s: State)
    requires CanIntr(s)
  {
    var info := s.info[s.used[s.drvIdx % NUM]];
    info.status == 0 && info.b.Some? && info.b.value < |s.bufs|
  }

  function DoIntr(s: State): State
    requires CanIntr(s) && IntrChecks(s)
  {
    var id := s.used[s.drvIdx % NUM];
    var b := s.info[id].b.value;
    s.(bufs := s.bufs[b := s.bufs[b].(busy := false)], drvIdx := (s.drvIdx + 1) % WRAP, seen := s.seen + 1,
       live := if id in s.live then s.live[id := s.live[id].(phase := Seen)] else s.live,
       usedQ := if |s.usedQ| > 0 then s.usedQ[1..] else s.usedQ)
  }

  /** virtio_disk_rw after its wait: b->disk is 0, and the lock is held again. */
  predicate CanFinish(s: State, h: nat) {
    && Sized(s) && s.drv == Idle && h in s.live && s.live[h].b < |s.bufs| && !s.bufs[s.live[h].b].busy
  }

  /** free_chain frees what the descriptors say: the chain from h on. */
  function Chain(desc: seq<Desc>, h: nat, n: nat): seq<nat>
    requires |desc| == NUM && h < NUM
    decreases n
  {
    if n == 0 || desc[h].flags % 2 == 0 || desc[h].next >= NUM then [h] else [h] + Chain(desc, desc[h].next, n - 1)
  }

  function FreeAll(free: seq<bool>, c: seq<nat>): seq<bool>
    requires |free| == NUM
    ensures |FreeAll(free, c)| == NUM
    decreases |c|
  {
    if c == [] || c[0] >= NUM then free else FreeAll(free[c[0] := true], c[1..])
  }

  function ClearAll(desc: seq<Desc>, c: seq<nat>): seq<Desc>
    requires |desc| == NUM
    ensures |ClearAll(desc, c)| == NUM
    decreases |c|
  {
    if c == [] || c[0] >= NUM then desc else ClearAll(desc[c[0] := CLEAR], c[1..])
  }

  function DoFinish(s: State, h: nat): State
    requires CanFinish(s, h) && h < NUM
  {
    var c := Chain(s.desc, h, NUM);
    s.(info := s.info[h := s.info[h].(b := None)], free := FreeAll(s.free, c), desc := ClearAll(s.desc, c),
       live := s.live - {h})
  }

  // ---- the device

  /** It takes the next head from the avail ring. */
  predicate CanTake(s: State) { Sized(s) && s.devIdx != s.availIdx }

  function DoTake(s: State): State
    requires CanTake(s)
  {
    var h := s.avail[s.devIdx % NUM];
    s.(devIdx := (s.devIdx + 1) % WRAP, taken := s.taken + 1,
       live := if h in s.live then s.live[h := s.live[h].(phase := Taken)] else s.live,
       availQ := if |s.availQ| > 0 then s.availQ[1..] else s.availQ)
  }

  /** It does what the chain of a head it has taken says, and writes the status byte. */
  predicate CanDo(s: State, h: nat) {
    && Sized(s) && h in s.live && s.live[h].phase == Taken && h < NUM
    && s.desc[h].addr.Op? && s.desc[h].addr.i < NUM && s.desc[h].next < NUM
    && s.desc[s.desc[h].next].addr.Data? && s.desc[s.desc[h].next].addr.b < |s.bufs|
    && s.desc[s.desc[h].next].next < NUM && s.desc[s.desc[s.desc[h].next].next].addr.Status?
    && s.desc[s.desc[s.desc[h].next].next].addr.i < NUM && s.ops[s.desc[h].addr.i].blockno in s.disk
  }

  function DoWork(s: State, h: nat): State
    requires CanDo(s, h)
  {
    var op := s.ops[s.desc[h].addr.i];
    var d1 := s.desc[h].next;
    var b, st := s.desc[d1].addr.b, s.desc[s.desc[d1].next].addr.i;
    var s1 := if op.write then s.(disk := s.disk[op.blockno := s.bufs[b].data])
              else s.(bufs := s.bufs[b := s.bufs[b].(data := s.disk[op.blockno])]);
    s1.(info := s.info[st := s.info[st].(status := 0)], live := s.live[h := s.live[h].(phase := Done)])
  }

  /** It puts a finished head into the used ring and advances the index. */
  predicate CanReturn(s: State, h: nat) { Sized(s) && h in s.live && s.live[h].phase == Done }

  function DoReturn(s: State, h: nat): State
    requires CanReturn(s, h)
  {
    s.(used := s.used[s.usedIdx % NUM := h], usedIdx := (s.usedIdx + 1) % WRAP, returned := s.returned + 1,
       live := s.live[h := s.live[h].(phase := Returned)], usedQ := s.usedQ + [h])
  }

  // ---- steps

  datatype Step =
    | Prepare(b: nat, write: bool) | Publish | IntrBegin | IntrTurn | IntrEnd | Finish(h: nat)
    | DevTake | DevWork(h: nat) | DevReturn(h: nat)
    | Write(b: nat, data: nat)                 // the holder of an idle buffer changes its contents

  predicate Enabled(s: State, step: Step) {
    match step
    case Prepare(b, _) => CanPrepare(s, b)
    case Publish => CanPublish(s)
    case IntrBegin => Sized(s) && s.drv == Idle
    case IntrTurn => Sized(s) && s.drv == Intr && s.drvIdx != s.usedIdx
    case IntrEnd => Sized(s) && s.drv == Intr && s.drvIdx == s.usedIdx
    case Finish(h) => CanFinish(s, h)
    case DevTake => CanTake(s)
    case DevWork(h) => Sized(s) && h in s.live && s.live[h].phase == Taken
    case DevReturn(h) => CanReturn(s, h)
    case Write(b, _) => Sized(s) && b < |s.bufs| && forall h :: h in s.live ==> s.live[h].b != b
  }

  /** What must be true for the step to make sense: the driver's checks, and that the device finds a well-formed
      request. */
  predicate Sound(s: State, step: Step)
    requires Enabled(s, step)
  {
    match step
    case IntrTurn => CanIntr(s) && IntrChecks(s)
    case Finish(h) => h < NUM && ChainFreeable(s.free, Chain(s.desc, h, NUM))
    case DevWork(h) => CanDo(s, h)
    case _ => true
  }

  /** free_desc does not panic along the chain: each is in range and not free when its turn comes. */
  predicate ChainFreeable(free: seq<bool>, c: seq<nat>)
    requires |free| == NUM
    decreases |c|
  {
    c == [] || (c[0] < NUM && !free[c[0]] && ChainFreeable(free[c[0] := true], c[1..]))
  }

  function Apply(s: State, step: Step): State
    requires Enabled(s, step) && Sound(s, step)
  {
    match step
    case Prepare(b, write) => DoPrepare(s, b, write)
    case Publish => DoPublish(s)
    case IntrBegin => s.(drv := Intr)
    case IntrTurn => DoIntr(s)
    case IntrEnd => s.(drv := Idle)
    case Finish(h) => DoFinish(s, h)
    case DevTake => DoTake(s)
    case DevWork(h) => DoWork(s, h)
    case DevReturn(h) => DoReturn(s, h)
    case Write(b, data) => s.(bufs := s.bufs[b := s.bufs[b].(data := data)])
  }
}
