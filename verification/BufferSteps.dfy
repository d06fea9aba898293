/** Every elementary step of the buffer cache keeps its invariant. */
module BufferSteps {
  import opened DiskBlocks
  import opened BufferState

  /** Buffer j and all that is said about it are the same in d. */
  ghost predicate SameFor(c: Cache, d: Cache, j: nat)
    requires j < |c.bufs| && j < |d.bufs|
  {
    && d.bufs[j] == c.bufs[j]
    && (j in d.devq <==> j in c.devq) && (j in d.nodevq <==> j in c.nodevq)
    && (j in d.free <==> j in c.free) && (j in d.act <==> j in c.act) && (j in d.edited <==> j in c.edited)
    && (c.bufs[j].dev >= 0 && OnDisk(c, c.bufs[j].Id()) ==>
          OnDisk(d, c.bufs[j].Id()) && d.logical[c.bufs[j].Id()] == c.logical[c.bufs[j].Id()])
  }

  /** Only buffer i changed, and it kept its block. */
  lemma OthersOk(c: Cache, d: Cache, i: nat)
    requires InvIdle(c) && |d.bufs| == NBUF && i < NBUF && d.bufs[i].Id() == c.bufs[i].Id()
    requires forall j: nat {:trigger SameFor(c, d, j)} :: j < NBUF && j != i ==> SameFor(c, d, j)
    requires PlaceOk(d, i) && DataOk(d, i)
    ensures forall j: nat {:trigger BufOk(d, j)} :: j < NBUF ==> BufOk(d, j)
  {
    forall j: nat | j < NBUF ensures d.bufs[j].Id() == c.bufs[j].Id() { if j != i { assert SameFor(c, d, j); } }
    forall j: nat | j < NBUF ensures BufOk(d, j) {
      assert BufOk(c, j);
      if j != i { assert SameFor(c, d, j); }
    }
  }

  /** A block the disk is behind on keeps its buffer. */
  lemma DisksOk(c: Cache, d: Cache)
    requires InvIdle(c) && |d.bufs| == NBUF && d.disk == c.disk && d.logical.Keys == c.logical.Keys
    requires forall k :: k in c.logical && d.logical[k] != c.logical[k] ==>
             exists j: nat :: j < NBUF && Pending(d, j, k)
    requires forall j: nat, k :: j < NBUF && Pending(c, j, k) ==> Pending(d, j, k)
    ensures forall k {:trigger DiskOk(d, k)} :: k in d.disk ==> DiskOk(d, k)
  {
    forall k | k in d.disk ensures DiskOk(d, k) { assert DiskOk(c, k); }
  }

  /** A change to buffer i, which no transfer is under way for, wakes and strands nobody. */
  lemma SleepersSame(c: Cache, d: Cache, i: nat)
    requires |c.bufs| == NBUF && |d.bufs| == NBUF && SleepersOk(c) && i < NBUF && i !in c.act
    requires d.bufSleepers == c.bufSleepers && d.freeSleepers == c.freeSleepers && d.ioSleepers == c.ioSleepers
    requires d.freeWanted == c.freeWanted && forall j: nat :: j in c.act ==> j in d.act
    requires forall j: nat :: j < NBUF && j != i ==> d.bufs[j] == c.bufs[j]
    requires d.bufs[i].wanted == c.bufs[i].wanted && d.bufs[i].busy == c.bufs[i].busy
    ensures SleepersOk(d)
  {
  }

  lemma ReleasedSleepers(c: Cache, i: nat)
    requires |c.bufs| == NBUF && SleepersOk(c) && i < NBUF && i !in c.act
    ensures SleepersOk(Released(c, i))
  {
  }

  // -------------------------------------------------- NotAvail and Brelse

  lemma TakenStep(c: Cache, i: nat)
    requires Inv(c) && i in c.free
    ensures i < NBUF && Inv(Taken(c, i)) && Held(Taken(c, i), i) && i !in c.edited && |Taken(c, i).free| < |c.free|
  {
    var d := Taken(c, i);
    WithoutList(c.free, i);
    assert BufOk(c, i);
    forall j: nat | j < NBUF && j != i ensures SameFor(c, d, j) {}
    OthersOk(c, d, i);
    DisksOk(c, d);
  }

  lemma ReleasedStep(c: Cache, i: nat)
    requires InvIdle(c) && i < NBUF && Held(c, i) && (i in c.edited ==> !c.bufs[i].done)
    ensures InvIdle(Released(c, i)) && (DeviceOk(c) ==> DeviceOk(Released(c, i)))
  {
    var d := Released(c, i);
    assert BufOk(c, i);
    AppendList(c.free, i);
    ReleasedSleepers(c, i);
    ReleasedRest(c, i);
  }

  lemma ReleasedRest(c: Cache, i: nat)
    requires InvIdle(c) && i < NBUF && Held(c, i) && (i in c.edited ==> !c.bufs[i].done)
    ensures var d := Released(c, i);
            && (forall j: nat {:trigger BufOk(d, j)} :: j < NBUF ==> BufOk(d, j))
            && (forall k {:trigger DiskOk(d, k)} :: k in d.disk ==> DiskOk(d, k))
  {
    var d := Released(c, i);
    assert BufOk(c, i);
    forall j: nat | j < NBUF && j != i ensures SameFor(c, d, j) {}
    OthersOk(c, d, i);
    DisksOk(c, d);
  }

  lemma EditedStep(c: Cache, i: nat, data: Block)
    requires Inv(c) && i < NBUF && Held(c, i)
    ensures Inv(Edited(c, i, data)) && Held(Edited(c, i, data), i)
  {
    var d := Edited(c, i, data);
    assert BufOk(c, i);
    forall j: nat | j < NBUF && j != i ensures SameFor(c, d, j) {}
    OthersOk(c, d, i);
    DisksOk(c, d);
  }

  lemma DelayedStep(c: Cache, i: nat)
    requires Inv(c) && i < NBUF && Held(c, i) && c.bufs[i].dev >= 0
    ensures Inv(Delayed(c, i)) && Held(Delayed(c, i), i)
  {
    var d := Delayed(c, i);
    assert BufOk(c, i);
    forall j: nat | j < NBUF && j != i ensures SameFor(c, d, j) { assert BufOk(c, j); }
    OthersOk(c, d, i);
    assert Pending(d, i, d.bufs[i].Id());
    DisksOk(c, d);
  }

  // ------------------------------------------------- Strategy and Start

  lemma StartedStep(c: Cache)
    requires InvIdle(c) && c.active == 0
    ensures Inv(Started(c)) && Started(c).logical == c.logical
  {
    var d := Started(c);
    forall j: nat | j < NBUF ensures BufOk(d, j) { assert BufOk(c, j); }
    DisksOk(c, d);
  }

  lemma ReadQueuedStep(c: Cache, i: nat, async: bool)
    requires Inv(c) && i < NBUF && Held(c, i) && !c.bufs[i].done && c.bufs[i].dev >= 0 && i !in c.edited
    ensures Inv(ReadQueued(c, i, async)) && ReadQueued(c, i, async).act == c.act + [i]
  {
    var d := ReadQueued(c, i, async);
    assert BufOk(c, i);
    QueuedDevice(c, d, i);
    QueuedRest(c, d, i);
  }

  lemma WriteQueuedStep(c: Cache, i: nat, async: bool)
    requires Inv(c) && i < NBUF && Held(c, i) && c.bufs[i].dev >= 0
    ensures Inv(WriteQueued(c, i, async)) && WriteQueued(c, i, async).act == c.act + [i]
  {
    var d := WriteQueued(c, i, async);
    assert BufOk(c, i);
    QueuedDevice(c, d, i);
    QueuedRest(c, d, i);
  }

  /** Appending a request leaves the controller with the one it works on. */
  lemma QueuedDevice(c: Cache, d: Cache, i: nat)
    requires Lists(c) && DeviceOk(c) && i < NBUF && i !in c.act && |d.bufs| == NBUF && d.bufs == c.bufs[i := d.bufs[i]]
    requires d.devq == c.devq && d.nodevq == c.nodevq && d.free == c.free && d.freeWanted == c.freeWanted
    requires d.act == c.act + [i] && d.active == if c.active == 0 then 1 else c.active
    requires d.bounce == if c.active != 0 || d.bufs[d.act[0]].read then c.bounce else d.bufs[d.act[0]].data
    ensures Lists(d) && DeviceOk(d)
  {
    AppendList(c.act, i);
  }

  /** Buffer i goes on the request queue, to be read into or with its bytes written. */
  ghost predicate Requested(c: Cache, d: Cache, i: nat)
    requires InvIdle(c) && i < NBUF
  {
    && |d.bufs| == NBUF && d.bufs == c.bufs[i := d.bufs[i]] && d.bufs[i].Id() == c.bufs[i].Id() && d.bufs[i].busy
    && d.bufs[i].wanted == c.bufs[i].wanted && !d.bufs[i].done && !d.bufs[i].delwri
    && d.devq == c.devq && d.nodevq == c.nodevq && d.free == c.free && d.act == c.act + [i]
    && d.edited == c.edited - {i}
    && d.freeWanted == c.freeWanted && d.disk == c.disk && d.logical.Keys == c.logical.Keys
    && d.bufSleepers == c.bufSleepers && d.freeSleepers == c.freeSleepers && d.ioSleepers == c.ioSleepers
    && c.bufs[i].Id() in c.logical
    && (forall k :: k in c.logical && k != c.bufs[i].Id() ==> d.logical[k] == c.logical[k])
    && if d.bufs[i].read then d.logical == c.logical && !c.bufs[i].delwri
       else d.bufs[i].data == d.logical[c.bufs[i].Id()]
  }

  lemma QueuedRest(c: Cache, d: Cache, i: nat)
    requires InvIdle(c) && i < NBUF && Held(c, i) && c.bufs[i].dev >= 0 && Requested(c, d, i)
    ensures SleepersOk(d)
    ensures forall j: nat {:trigger BufOk(d, j)} :: j < NBUF ==> BufOk(d, j)
    ensures forall k {:trigger DiskOk(d, k)} :: k in d.disk ==> DiskOk(d, k)
  {
    SleepersSame(c, d, i);
    assert BufOk(c, i);
    forall j: nat | j < NBUF && j != i ensures SameFor(c, d, j) { assert BufOk(c, j); }
    OthersOk(c, d, i);
    assert !d.bufs[i].read ==> Pending(d, i, d.bufs[i].Id());
    DisksOk(c, d);
  }

  // --------------------------------------------------------------- GetBlk

  ghost predicate Uncached(c: Cache, k: Key) {
    forall j :: 0 <= j < |c.bufs| ==> c.bufs[j].Id() != k
  }

  lemma RetaggedStep(c: Cache, i: nat, k: Key)
    requires Inv(c) && i < NBUF && Held(c, i) && !c.bufs[i].delwri && i !in c.edited && !c.bufs[i].wanted
    requires k.dev >= 0 ==> OnDisk(c, k) && Uncached(c, k)
    ensures Inv(Retagged(c, i, k)) && Held(Retagged(c, i, k), i)
  {
    var d := Retagged(c, i, k);
    assert BufOk(c, i);
    WithoutList(c.devq, i);
    WithoutList(c.nodevq, i);
    PrependList(Without(c.devq, i), i);
    PrependList(Without(c.nodevq, i), i);
    SleepersSame(c, d, i);
    RetaggedBufs(c, d, i, k);
    DisksOk(c, d);
  }

  lemma RetaggedBufs(c: Cache, d: Cache, i: nat, k: Key)
    requires Inv(c) && i < NBUF && Held(c, i) && !c.bufs[i].delwri && i !in c.edited
    requires k.dev >= 0 ==> OnDisk(c, k) && Uncached(c, k)
    requires d == Retagged(c, i, k)
    ensures |d.bufs| == NBUF && forall j: nat {:trigger BufOk(d, j)} :: j < NBUF ==> BufOk(d, j)
  {
    assert BufOk(c, i);
    forall j: nat | j < NBUF ensures BufOk(d, j) {
      assert BufOk(c, j);
      if j != i { assert SameFor(c, d, j); }
    }
  }

  // ----------------------------------------------------------- completion

  /** The completion interrupt, before the next request is started. */
  function Completed(c: Cache): Cache
    requires c.act != [] && c.act[0] < |c.bufs|
    requires c.bufs[c.act[0]].read ==> c.bufs[c.act[0]].Id() in c.disk
  {
    IODone(Transferred(c), c.act[0])
  }

  lemma HeadOk(c: Cache)
    requires Inv(c) && c.act != []
    ensures var h := c.act[0]; var k := c.bufs[h].Id();
            && h < NBUF && BufOk(c, h) && OnDisk(c, k) && h in c.act && h !in c.act[1..]
            && (if c.bufs[h].read then c.disk[k] == c.logical[k] else c.bounce == c.logical[k])
  {
    var h := c.act[0];
    assert h in c.act && BufOk(c, h);
    if c.bufs[h].read { assert DiskOk(c, c.bufs[h].Id()); }
  }

  lemma CompletedStep(c: Cache)
    requires Inv(c) && c.act != []
    ensures c.act[0] < NBUF && c.bufs[c.act[0]].Id() in c.disk
    ensures InvIdle(Completed(c)) && Completed(c).active == 0 && Completed(c).logical == c.logical
    ensures Completed(c).act == c.act[1..]
  {
    HeadOk(c);
    CompletedLists(c);
    CompletedBufs(c, Completed(c));
    CompletedDisk(c, Completed(c));
  }

  lemma CompletedLists(c: Cache)
    requires Inv(c) && c.act != []
    ensures c.act[0] < NBUF && c.bufs[c.act[0]].Id() in c.disk
    ensures Lists(Completed(c)) && SleepersOk(Completed(c)) && Completed(c).act == c.act[1..]
  {
    HeadOk(c);
    assert c.act[0] !in c.free;
    AppendList(c.free, c.act[0]);
    CompletedSleepers(c);
  }

  lemma CompletedSleepers(c: Cache)
    requires Lists(c) && SleepersOk(c) && c.act != [] && c.act[0] < NBUF
    requires c.bufs[c.act[0]].Id() in c.disk && c.act[0] !in c.act[1..]
    ensures SleepersOk(Completed(c))
  {
    var d := Completed(c);
    forall j | j in c.act && j != c.act[0] ensures j in c.act[1..] {}
    forall p | p in d.bufSleepers ensures p in c.bufSleepers && d.bufSleepers[p] == c.bufSleepers[p] != c.act[0] {}
  }

  lemma CompletedBufs(c: Cache, d: Cache)
    requires Inv(c) && c.act != []
    requires c.act[0] < NBUF && c.bufs[c.act[0]].Id() in c.disk && d == Completed(c)
    ensures forall j: nat {:trigger BufOk(d, j)} :: j < NBUF ==> BufOk(d, j)
  {
    CompletedHead(c, d);
    forall j: nat | j < NBUF && j != c.act[0] ensures SameFor(c, d, j) { CompletedOther(c, d, j); }
    OthersOk(c, d, c.act[0]);
  }

  lemma CompletedHead(c: Cache, d: Cache)
    requires Inv(c) && c.act != []
    requires c.act[0] < NBUF && c.bufs[c.act[0]].Id() in c.disk && d == Completed(c)
    ensures |d.bufs| == NBUF && d.bufs[c.act[0]].Id() == c.bufs[c.act[0]].Id()
    ensures PlaceOk(d, c.act[0]) && DataOk(d, c.act[0])
  {
    HeadOk(c);
  }

  lemma CompletedOther(c: Cache, d: Cache, j: nat)
    requires Lists(c) && c.act != [] && j < NBUF && j != c.act[0]
    requires c.act[0] < NBUF && c.bufs[c.act[0]].Id() in c.disk && d == Completed(c)
    ensures |d.bufs| == NBUF && SameFor(c, d, j)
  {
  }

  lemma CompletedDisk(c: Cache, d: Cache)
    requires Inv(c) && c.act != []
    requires c.act[0] < NBUF && c.bufs[c.act[0]].Id() in c.disk && d == Completed(c)
    ensures d.disk.Keys == c.disk.Keys && d.logical == c.logical
    ensures forall k {:trigger DiskOk(d, k)} :: k in d.disk ==> DiskOk(d, k)
  {
    HeadOk(c);
    forall k | k in d.disk ensures DiskOk(d, k) {
      assert DiskOk(c, k);
      if k != c.bufs[c.act[0]].Id() { StillPending(c, d, k); }
    }
  }

  lemma StillPending(c: Cache, d: Cache, k: Key)
    requires Lists(c) && c.act != [] && c.act[0] < NBUF && c.bufs[c.act[0]].Id() in c.disk && d == Completed(c)
    requires k != c.bufs[c.act[0]].Id() && OnDisk(c, k)
    ensures |d.bufs| == NBUF
    ensures forall j: nat :: j < NBUF && Pending(c, j, k) ==> Pending(d, j, k)
  {
  }

  // ------------------------------------------------------------- sleeping

  lemma SleptOnBufStep(c: Cache, i: nat, pid: nat)
    requires Inv(c) && i < NBUF && c.bufs[i].busy
    ensures Inv(SleptOnBuf(c, i, pid))
  {
    var d := SleptOnBuf(c, i, pid);
    assert BufOk(c, i);
    forall j: nat | j < NBUF && j != i ensures SameFor(c, d, j) {}
    OthersOk(c, d, i);
    DisksOk(c, d);
  }

  lemma SleptStep(c: Cache, d: Cache)
    requires Inv(c) && Lists(d) && SleepersOk(d)
    requires d == c.(freeWanted := d.freeWanted, freeSleepers := d.freeSleepers, ioSleepers := d.ioSleepers)
    ensures Inv(d)
  {
    forall j: nat | j < NBUF ensures BufOk(d, j) { assert BufOk(c, j); }
    DisksOk(c, d);
  }

  // --------------------------------------------- a delayed write is flushed

  /** GetBlk and Bflush write a delayed buffer out: the block keeps its contents. */
  function Flushed(c: Cache, i: nat): Cache
    requires i < |c.bufs| && (c.act != [] ==> c.act[0] < |c.bufs|)
  {
    WriteQueued(Taken(c, i), i, true)
  }

  lemma FlushedStep(c: Cache, i: nat)
    requires Inv(c) && i in c.free && c.bufs[i].delwri
    ensures i < NBUF && Inv(Flushed(c, i)) && Flushed(c, i).logical == c.logical && Flushed(c, i).edited == c.edited
    ensures |Flushed(c, i).free| < |c.free|
  {
    TakenStep(c, i);
    assert BufOk(c, i);
    WriteQueuedStep(Taken(c, i), i, true);
  }
}
