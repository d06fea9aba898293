/** The buffer cache: its buffers, their queues, the disk behind them and what a plain
    block array would hold. */
module BufferState {
  import opened DiskBlocks

  const NBUF: nat := 15
  const NSECTOR: nat := 20160
  const NODEV: int := -1
  const DEVS: int := 0x100         // one block device, any minor number

  datatype Key = Key(dev: int, blkno: nat)

  /** b_flags as booleans; B_WRITE and B_ERROR are not modelled. */
  datatype Buf = Buf(busy: bool, done: bool, delwri: bool, read: bool, async: bool, wanted: bool,
                     dev: int, blkno: nat, data: Block)
  {
    function Id(): Key {
      Key(dev, blkno)
    }
  }

  /** What was asked to be in a block. */
  datatype BlockWrite = BlockWrite(key: Key, data: Block)

  /** devq and nodevq are the b_forw queues, free the av_forw free list, act the request
      queue d_actf .. d_actl that reuses the av_forw links. log lists the writes so far; sending
      a delayed write to the disk repeats its bytes there. */
  datatype Cache = Cache(bufs: seq<Buf>, devq: seq<nat>, nodevq: seq<nat>, free: seq<nat>, freeWanted: bool,
                         act: seq<nat>, active: nat, bounce: Block, disk: map<Key, Block>,
                         logical: map<Key, Block>, log: seq<BlockWrite>, edited: set<nat>,
                         bufSleepers: map<nat, nat>, freeSleepers: set<nat>, ioSleepers: map<nat, nat>)

  predicate OnDisk(c: Cache, k: Key) {
    k in c.disk && k in c.logical
  }

  predicate Distinct(s: seq<nat>) {
    s == [] || (s[0] !in s[1..] && Distinct(s[1..]))
  }

  /** A buffer whose bytes the disk has yet to receive. */
  predicate Pending(c: Cache, i: nat, k: Key)
    requires i < |c.bufs|
  {
    c.bufs[i].dev >= 0 && c.bufs[i].Id() == k && (c.bufs[i].delwri || (i in c.act && !c.bufs[i].read))
  }

  predicate Held(c: Cache, i: nat)
    requires i < |c.bufs|
  {
    c.bufs[i].busy && i !in c.act
  }

  /** One device queue per buffer; free exactly when not busy; queued for I/O only when
      busy, and never on both av_forw lists. */
  ghost predicate PlaceOk(c: Cache, i: nat)
    requires i < |c.bufs|
  {
    var b := c.bufs[i];
    && (i in c.devq <==> b.dev >= 0) && (i in c.nodevq <==> b.dev < 0)
    && (i in c.free <==> !b.busy)
    && (!b.busy ==> !b.async && !b.wanted && i !in c.edited)
    && (i in c.act ==> b.busy && !b.done && !b.delwri && b.dev >= 0 && i !in c.edited)
    && (b.async ==> i in c.act)
    && (b.delwri ==> b.done && b.dev >= 0)
  }

  ghost predicate DataOk(c: Cache, i: nat)
    requires i < |c.bufs|
  {
    var b := c.bufs[i];
    b.dev >= 0 ==>
      && OnDisk(c, b.Id())
      && (i !in c.edited && (b.done || (i in c.act && !b.read)) ==> b.data == c.logical[b.Id()])
  }

  ghost predicate Unique(c: Cache, i: nat)
    requires i < |c.bufs|
  {
    forall j :: 0 <= j < |c.bufs| && c.bufs[i].dev >= 0 && c.bufs[j].dev >= 0 && c.bufs[j].Id() == c.bufs[i].Id() ==>
      j == i
  }

  /** The disk is behind only on blocks that a buffer still has to write. */
  ghost predicate DiskOk(c: Cache, k: Key)
    requires OnDisk(c, k)
  {
    c.disk[k] == c.logical[k] || exists i: nat :: i < |c.bufs| && Pending(c, i, k)
  }

  ghost predicate ListOk(s: seq<nat>) {
    Distinct(s) && forall i :: 0 <= i < |s| ==> s[i] < NBUF
  }

  ghost predicate Lists(c: Cache) {
    && |c.bufs| == NBUF && ListOk(c.devq) && ListOk(c.nodevq) && ListOk(c.free) && ListOk(c.act)
    && (c.freeWanted ==> c.free == [])
  }

  /** The controller works on the head of the request queue. */
  ghost predicate DeviceOk(c: Cache)
    requires Lists(c)
  {
    && c.active == (if c.act == [] then 0 else 1)
    && (c.act != [] && !c.bufs[c.act[0]].read ==> c.bounce == c.bufs[c.act[0]].data)
  }

  /** Nobody sleeps without a wake-up to come. */
  ghost predicate SleepersOk(c: Cache)
    requires |c.bufs| == NBUF
  {
    && (forall p :: p in c.bufSleepers ==>
          c.bufSleepers[p] < NBUF && c.bufs[c.bufSleepers[p]].busy && c.bufs[c.bufSleepers[p]].wanted)
    && (c.freeSleepers != {} ==> c.freeWanted)
    && (forall p :: p in c.ioSleepers ==>
      c.ioSleepers[p] < NBUF && c.ioSleepers[p] in c.act && !c.bufs[c.ioSleepers[p]].async)
  }

  ghost predicate BufOk(c: Cache, i: nat)
    requires i < |c.bufs|
  {
    PlaceOk(c, i) && DataOk(c, i) && Unique(c, i)
  }

  /** All but the controller, which is between two requests. */
  ghost predicate InvIdle(c: Cache) {
    && Lists(c) && SleepersOk(c)
    && (forall i: nat {:trigger BufOk(c, i)} :: i < NBUF ==> BufOk(c, i))
    && c.disk.Keys == c.logical.Keys
    && (forall d: int, n: nat {:trigger Key(d, n)} :: 0 <= d < DEVS && n < NSECTOR ==> Key(d, n) in c.disk)
    && (forall k :: k in c.disk ==> 0 <= k.dev < DEVS && k.blkno < NSECTOR)
    && (forall k {:trigger DiskOk(c, k)} :: k in c.disk ==> DiskOk(c, k))
  }

  ghost predicate Inv(c: Cache) {
    InvIdle(c) && DeviceOk(c)
  }

  // -------------------------------------------------------------- queues

  function Without(s: seq<nat>, x: nat): (r: seq<nat>)
    ensures forall y :: y in r <==> y in s && y != x
    ensures |r| <= |s| && (x in s ==> |r| < |s|)
  {
    if s == [] then []
    else if s[0] == x then Without(s[1..], x)
    else [s[0]] + Without(s[1..], x)
  }

  lemma {:induction false} WithoutDistinct(s: seq<nat>, x: nat)
    requires Distinct(s)
    ensures Distinct(Without(s, x))
  {
    if s != [] {
      WithoutDistinct(s[1..], x);
      if s[0] != x { assert ([s[0]] + Without(s[1..], x))[1..] == Without(s[1..], x); }
    }
  }

  lemma {:induction false} WithoutAbsent(s: seq<nat>, x: nat)
    requires x !in s
    ensures Without(s, x) == s
  {
    if s != [] { WithoutAbsent(s[1..], x); }
  }

  lemma WithoutHead(s: seq<nat>)
    requires s != [] && Distinct(s)
    ensures Without(s, s[0]) == s[1..]
  {
    WithoutAbsent(s[1..], s[0]);
  }

  lemma WithoutList(s: seq<nat>, x: nat)
    requires ListOk(s)
    ensures ListOk(Without(s, x))
  {
    WithoutDistinct(s, x);
    var r := Without(s, x);
    forall i | 0 <= i < |r| ensures r[i] < NBUF { assert r[i] in r; }
  }

  lemma {:induction false} AppendDistinct(s: seq<nat>, x: nat)
    requires Distinct(s) && x !in s
    ensures Distinct(s + [x])
  {
    if s != [] {
      AppendDistinct(s[1..], x);
      assert (s + [x])[1..] == s[1..] + [x];
    }
  }

  lemma AppendList(s: seq<nat>, x: nat)
    requires ListOk(s) && x !in s && x < NBUF
    ensures ListOk(s + [x])
  {
    AppendDistinct(s, x);
  }

  lemma PrependList(s: seq<nat>, x: nat)
    requires ListOk(s) && x !in s && x < NBUF
    ensures ListOk([x] + s)
  {
    assert ([x] + s)[1..] == s;
  }

  // ------------------------------------------------------- pieces of steps

  function SetBuf(c: Cache, i: nat, b: Buf): Cache
    requires i < |c.bufs|
  {
    c.(bufs := c.bufs[i := b])
  }

  /** NotAvail. */
  function Taken(c: Cache, i: nat): Cache
    requires i < |c.bufs|
  {
    SetBuf(c, i, c.bufs[i].(busy := true)).(free := Without(c.free, i))
  }

  /** WakeUpAll on a buffer wakes those that want it and those that wait for its I/O. */
  function WokenOn(sleepers: map<nat, nat>, i: nat): (r: map<nat, nat>)
    ensures forall p :: p in r <==> p in sleepers && sleepers[p] != i
    ensures forall p :: p in r ==> r[p] == sleepers[p]
  {
    map p | p in sleepers && sleepers[p] != i :: sleepers[p]
  }

  /** Brelse. */
  function Released(c: Cache, i: nat): Cache
    requires i < |c.bufs|
  {
    var b := c.bufs[i];
    c.(bufs := c.bufs[i := b.(wanted := false, busy := false, async := false)],
       free := c.free + [i], edited := c.edited - {i},
       freeWanted := false, freeSleepers := if c.freeWanted then {} else c.freeSleepers,
       bufSleepers := if b.wanted then WokenOn(c.bufSleepers, i) else c.bufSleepers,
       ioSleepers := if b.wanted then WokenOn(c.ioSleepers, i) else c.ioSleepers)
  }

  /** Start: a write hands its bytes to the controller now. */
  function Started(c: Cache): Cache
    requires c.act != [] ==> c.act[0] < |c.bufs|
  {
    c.(active := if c.act == [] then c.active else c.active + 1,
       bounce := if c.act == [] || c.bufs[c.act[0]].read then c.bounce else c.bufs[c.act[0]].data)
  }

  /** Strategy: last on the request queue, and started at once when the disk is idle. */
  function Queued(c: Cache, i: nat): Cache
    requires i < |c.bufs| && (c.act != [] ==> c.act[0] < |c.bufs|)
  {
    var q := c.act + [i];
    c.(act := q, active := if c.active == 0 then 1 else c.active,
       bounce := if c.active != 0 || c.bufs[q[0]].read then c.bounce else c.bufs[q[0]].data)
  }

  /** Bread's request for a buffer without B_DONE: Strategy on it, marked B_READ. */
  function ReadQueued(c: Cache, i: nat, async: bool): Cache
    requires i < |c.bufs| && (c.act != [] ==> c.act[0] < |c.bufs|)
  {
    var bufs, q := c.bufs[i := c.bufs[i].(read := true, async := async)], c.act + [i];
    c.(bufs := bufs, act := q, active := if c.active == 0 then 1 else c.active,
       bounce := if c.active != 0 || bufs[q[0]].read then c.bounce else bufs[q[0]].data)
  }

  /** Bwrite up to its wait: the buffer's bytes are what the block holds from now on. */
  function WriteQueued(c: Cache, i: nat, async: bool): Cache
    requires i < |c.bufs| && (c.act != [] ==> c.act[0] < |c.bufs|)
  {
    var b := c.bufs[i].(read := false, done := false, delwri := false, async := async);
    var bufs, q := c.bufs[i := b], c.act + [i];
    c.(bufs := bufs, act := q, active := if c.active == 0 then 1 else c.active,
       bounce := if c.active != 0 || bufs[q[0]].read then c.bounce else bufs[q[0]].data,
       logical := c.logical[b.Id() := b.data], log := c.log + [BlockWrite(b.Id(), b.data)], edited := c.edited - {i})
  }

  /** Bdwrite before its Brelse. */
  function Delayed(c: Cache, i: nat): Cache
    requires i < |c.bufs|
  {
    var b := c.bufs[i];
    SetBuf(c, i, b.(delwri := true, done := true)).(logical := c.logical[b.Id() := b.data],
      log := c.log + [BlockWrite(b.Id(), b.data)], edited := c.edited - {i})
  }

  /** GetBlk gives buffer i to another block: all flags but B_BUSY go, and it moves to
      the front of its new device queue. */
  function Retagged(c: Cache, i: nat, k: Key): Cache
    requires i < |c.bufs|
  {
    var b := Buf(true, false, false, false, false, false, k.dev, k.blkno, c.bufs[i].data);
    c.(bufs := c.bufs[i := b],
       devq := if k.dev >= 0 then [i] + Without(c.devq, i) else Without(c.devq, i),
       nodevq := if k.dev >= 0 then Without(c.nodevq, i) else [i] + Without(c.nodevq, i))
  }

  /** The holder changes the bytes. */
  function Edited(c: Cache, i: nat, d: Block): Cache
    requires i < |c.bufs|
  {
    SetBuf(c, i, c.bufs[i].(data := d)).(edited := c.edited + {i})
  }

  /** IODone: an asynchronous request ends in Brelse, any other in a wake-up. */
  function IODone(c: Cache, i: nat): Cache
    requires i < |c.bufs|
  {
    var b := c.bufs[i];
    c.(bufs := c.bufs[i := b.(done := true, wanted := false, busy := b.busy && !b.async, async := false)],
       free := if b.async then c.free + [i] else c.free,
       edited := if b.async then c.edited - {i} else c.edited,
       freeWanted := !b.async && c.freeWanted,
       freeSleepers := if b.async && c.freeWanted then {} else c.freeSleepers,
       bufSleepers := if b.async && !b.wanted then c.bufSleepers else WokenOn(c.bufSleepers, i),
       ioSleepers := if b.async && !b.wanted then c.ioSleepers else WokenOn(c.ioSleepers, i))
  }

  /** The transfer of the head request, up to IODone. */
  function Transferred(c: Cache): Cache
    requires c.act != [] && c.act[0] < |c.bufs|
    requires c.bufs[c.act[0]].read ==> c.bufs[c.act[0]].Id() in c.disk
  {
    var b := c.bufs[c.act[0]];
    c.(active := 0, act := c.act[1..],
       bufs := if b.read then c.bufs[c.act[0] := b.(data := c.disk[b.Id()])] else c.bufs,
       disk := if b.read then c.disk else c.disk[b.Id() := c.bounce])
  }

  // ------------------------------------------------------------- sleeping

  /** GetBlk sleeps on a busy buffer. */
  function SleptOnBuf(c: Cache, i: nat, pid: nat): Cache
    requires i < |c.bufs|
  {
    SetBuf(c, i, c.bufs[i].(wanted := true)).(bufSleepers := c.bufSleepers[pid := i])
  }

  /** GetBlk sleeps on the empty free list. */
  function SleptOnFree(c: Cache, pid: nat): Cache {
    c.(freeWanted := true, freeSleepers := c.freeSleepers + {pid})
  }

  /** IOWait sleeps on a buffer whose transfer is not finished. */
  function SleptForIO(c: Cache, i: nat, pid: nat): Cache {
    c.(ioSleepers := c.ioSleepers[pid := i])
  }
}
