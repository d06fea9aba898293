/** BufferManager with the request queue of the ATA disk and its completion interrupt. Code
    between two sleeps is one step: a method that would sleep records the sleeper and
    returns, and the caller calls it again when woken. */
module BufferCache {
  import opened Common
  import opened DiskBlocks
  import opened BufferState
  import opened BufferSteps
  import opened BufferRuns

  datatype Outcome = Again | Asleep | Have(i: nat)

  /** A process holds the buffer or waits for its I/O. */
  predicate Mine(c: Cache, i: nat)
    requires i < |c.bufs|
  {
    c.bufs[i].busy && !c.bufs[i].async
  }

  /** What other processes and the interrupt leave alone: a process's buffer stays its
      own, with its block and, unless an I/O was under way, its bytes. */
  ghost predicate Kept(c: Cache, d: Cache, i: nat)
    requires i < |c.bufs| && i < |d.bufs|
  {
    Mine(c, i) ==>
      && Mine(d, i) && d.bufs[i].Id() == c.bufs[i].Id() && (i in d.edited <==> i in c.edited)
      && (i in d.act ==> i in c.act)
      && (i in c.act && i !in d.act ==> d.bufs[i].done)
      && ((i in c.act <==> i in d.act) ==> d.bufs[i].(wanted := false) == c.bufs[i].(wanted := false))
  }

  ghost predicate AllKept(c: Cache, d: Cache) {
    |c.bufs| == NBUF == |d.bufs| && forall i: nat {:trigger Kept(c, d, i)} :: i < NBUF ==> Kept(c, d, i)
  }

  ghost predicate OthersKept(c: Cache, d: Cache, i: nat) {
    |c.bufs| == NBUF == |d.bufs| && forall j: nat {:trigger Kept(c, d, j)} :: j < NBUF && j != i ==> Kept(c, d, j)
  }

  lemma AllKeptTrans(c: Cache, d: Cache, e: Cache)
    requires AllKept(c, d) && AllKept(d, e)
    ensures AllKept(c, e)
  {
    forall i: nat | i < NBUF ensures Kept(c, e, i) { assert Kept(c, d, i) && Kept(d, e, i); }
  }

  lemma OthersKeptTrans(c: Cache, d: Cache, e: Cache, i: nat)
    requires AllKept(c, d) && OthersKept(d, e, i) && i < NBUF && !Mine(c, i)
    ensures AllKept(c, e)
  {
    forall j: nat | j < NBUF ensures Kept(c, e, j) { assert Kept(c, d, j) && (j != i ==> Kept(d, e, j)); }
  }

  /** The buffer is the caller's, for block k, with the bytes as read or written. */
  ghost predicate Got(c: Cache, i: nat, k: Key) {
    |c.bufs| == NBUF && i < NBUF && Held(c, i) && Mine(c, i) && c.bufs[i].Id() == k && i !in c.edited
  }

  /** A read under way, or done: what Bread leaves for IOWait. */
  ghost predicate Coming(c: Cache, i: nat, k: Key) {
    && |c.bufs| == NBUF && i < NBUF && Mine(c, i) && c.bufs[i].Id() == k && i !in c.edited
    && (i in c.act || c.bufs[i].done)
  }

  /** Cache transparency: the bytes of a completed read are those last written. */
  lemma ReadIsLastWrite(c: Cache, i: nat, k: Key)
    requires Inv(c) && Got(c, i, k) && k.dev >= 0 && c.bufs[i].done
    ensures k in c.logical && c.bufs[i].data == c.logical[k]
  {
    assert BufOk(c, i);
  }

  function UpTo(n: nat): (s: seq<nat>)
    ensures |s| == n && forall x :: x in s ==> x < n
  {
    if n == 0 then [] else UpTo(n - 1) + [n - 1]
  }

  lemma {:induction false} UpToList(n: nat)
    requires n <= NBUF
    ensures ListOk(UpTo(n))
  {
    if n > 0 {
      UpToList(n - 1);
      AppendList(UpTo(n - 1), n - 1);
    }
  }

  lemma {:induction false} UpToHas(n: nat, i: nat)
    requires i < n
    ensures i in UpTo(n)
  {
    if i < n - 1 { UpToHas(n - 1, i); }
  }

  /** Where GetBlk sleeps: the block's buffer is in use, or no buffer is free. */
  ghost predicate Sleeps(c: Cache, pid: nat, k: Key)
    requires |c.bufs| == NBUF
  {
    || (pid in c.freeSleepers && c.free == [])
    || (pid in c.bufSleepers && c.bufSleepers[pid] < NBUF
        && c.bufs[c.bufSleepers[pid]].busy && c.bufs[c.bufSleepers[pid]].Id() == k)
  }

  /** Buffer j is the block's. */
  ghost predicate Cached(c: Cache, k: Key, j: nat) {
    j < |c.bufs| && k.dev >= 0 && c.bufs[j].Id() == k
  }

  /** GetBlk finds the block in buffer j. */
  ghost predicate Hit(c: Cache, d: Cache, j: nat, r: Outcome)
    requires j < |c.bufs|
  {
    if c.bufs[j].busy then r.Asleep?
    else r == Have(j) && d.bufs == c.bufs[j := c.bufs[j].(busy := true)] && d.act == c.act
  }

  /** The first buffer of the free list, which has a delayed write, goes to the disk. */
  ghost predicate OneDrained(c: Cache, d: Cache) {
    && c.free != [] && c.free[0] < |c.bufs| == |d.bufs| && c.bufs[c.free[0]].delwri
    && d.free == c.free[1..] && d.act == c.act + [c.free[0]]
    && forall j :: 0 <= j < |c.bufs| ==>
         d.bufs[j].Id() == c.bufs[j].Id() && (j != c.free[0] ==> d.bufs[j].delwri == c.bufs[j].delwri)
  }

  /** The first buffer of the free list is taken. */
  ghost predicate FirstTaken(c: Cache, d: Cache, i: nat) {
    && c.free != [] && i == c.free[0] && i < |c.bufs| && !c.bufs[i].delwri && d.free == c.free[1..] && d.act == c.act
    && i < |d.bufs| && !d.bufs[i].done
  }

  /** ... n of them. */
  ghost predicate Drained(c: Cache, d: Cache, n: nat) {
    && n <= |c.free| && d.free == c.free[n..] && d.act == c.act + c.free[..n] && |d.bufs| == |c.bufs|
    && (forall x :: 0 <= x < n ==> c.free[x] < |c.bufs| && c.bufs[c.free[x]].delwri)
    && (forall j :: 0 <= j < |c.bufs| ==>
          d.bufs[j].Id() == c.bufs[j].Id() && (j !in c.free[..n] ==> d.bufs[j].delwri == c.bufs[j].delwri))
  }

  lemma DrainedMore(c: Cache, d: Cache, e: Cache, n: nat)
    requires Distinct(c.free) && Drained(c, d, n) && OneDrained(d, e)
    ensures Drained(c, e, n + 1)
  {
    assert d.free[0] == c.free[n];
    assert c.free[..n + 1] == c.free[..n] + [c.free[n]];
    if c.free[n] in c.free[..n] {
      var x :| 0 <= x < n && c.free[x] == c.free[n];
      DistinctAt(c.free, x, n);
    }
  }

  /** The buffer given to a new block is the one that has been free for longest, but for
      those with delayed writes, which have gone to the disk. There is none only if there
      are no others. */
  ghost predicate Oldest(c: Cache, d: Cache, r: Option<nat>) {
    exists n: nat {:trigger c.free[..n]} ::
      && n <= |c.free| && (forall x :: 0 <= x < n ==> c.free[x] < |c.bufs| && c.bufs[c.free[x]].delwri)
      && d.act == c.act + c.free[..n]
      && if r.None? then n == |c.free| && d.free == []
         else
           && n < |c.free| && r == Some(c.free[n]) && r.value < |c.bufs| && !c.bufs[r.value].delwri
           && d.free == c.free[n + 1..] && r.value < |d.bufs| && !d.bufs[r.value].done
  }

  /** Buffer i is being read for the block, and nobody waits for it. */
  ghost predicate ReadsAhead(c: Cache, i: nat, k: Key) {
    i < |c.bufs| && c.bufs[i].Id() == k && c.bufs[i].read && c.bufs[i].async && i in c.act
  }

  /** The transfer of buffer h: its bytes come from the disk or are on it, and a buffer that
      nobody waits for is free again. */
  ghost predicate Finished(c: Cache, d: Cache, h: nat) {
    && h < |c.bufs| == |d.bufs| && c.bufs[h].Id() in c.disk
    && (if c.bufs[h].read then d.disk == c.disk && d.bufs[h].data == c.disk[c.bufs[h].Id()]
        else d.disk == c.disk[c.bufs[h].Id() := c.bufs[h].data] && d.bufs[h].data == c.bufs[h].data)
    && d.free == (if c.bufs[h].async then c.free + [h] else c.free)
    && d.bufs[h].busy == !c.bufs[h].async
  }

  /** What a pass of GetBlk comes to. */
  ghost predicate PassDone(c: Cache, d: Cache, k: Key, pid: nat, r: Outcome) {
    && d.logical == c.logical && d.edited == c.edited && AllKept(c, d)
    && (forall j: nat :: Cached(c, k, j) ==> Hit(c, d, j, r))
    && match r
       case Again => OneDrained(c, d) && (k.dev < 0 || Uncached(c, k))
       case Asleep => Sleeps(d, pid, k) && (k.dev < 0 || Uncached(c, k) ==> c.free == d.free == [] && d.act == c.act)
       case Have(i) => Got(d, i, k) && !Mine(c, i) && (k.dev < 0 || Uncached(c, k) ==> FirstTaken(c, d, i))
  }

  /** GetBlk, n passes on. */
  ghost predicate Searching(c: Cache, d: Cache, k: Key, n: nat) {
    && d.logical == c.logical && d.edited == c.edited && AllKept(c, d) && Reaches(c, d) && Drained(c, d, n)
    && (if n == 0 then d == c else k.dev < 0 || Uncached(c, k))
  }

  lemma SearchOn(c: Cache, d: Cache, e: Cache, k: Key, pid: nat, n: nat, r: Outcome)
    requires Inv(c) && Searching(c, d, k, n) && PassDone(d, e, k, pid, r) && Reaches(d, e)
    ensures e.logical == c.logical && e.edited == c.edited && AllKept(c, e) && Reaches(c, e)
    ensures r.Again? ==> Searching(c, e, k, n + 1) && |e.free| < |d.free|
    ensures r.Have? ==> r.i < |c.bufs| && !Mine(c, r.i)
    ensures forall j: nat :: Cached(c, k, j) && !r.Again? ==> Hit(c, e, j, r)
    ensures !r.Again? && (k.dev < 0 || Uncached(c, k)) ==> Oldest(c, e, if r.Have? then Some(r.i) else None)
  {
    AllKeptTrans(c, d, e);
    ReachTrans(c, d, e);
    assert k.dev < 0 || Uncached(c, k) ==> k.dev < 0 || Uncached(d, k);
    match r
    case Again => DrainedMore(c, d, e, n);
    case Asleep => if k.dev < 0 || Uncached(c, k) { OldestIs(c, d, e, n, None); }
    case Have(i) =>
      assert Kept(c, d, i);
      if k.dev < 0 || Uncached(c, k) { OldestIs(c, d, e, n, Some(i)); }
  }

  /** The pass that ends it. */
  lemma OldestIs(c: Cache, d: Cache, e: Cache, n: nat, r: Option<nat>)
    requires Distinct(c.free) && Drained(c, d, n)
    requires if r.None? then d.free == [] && e.free == [] && e.act == d.act else FirstTaken(d, e, r.value)
    ensures Oldest(c, e, r)
  {
    if r.Some? {
      assert r.value == c.free[n];
      if c.free[n] in c.free[..n] {
        var x :| 0 <= x < n && c.free[x] == c.free[n];
        DistinctAt(c.free, x, n);
      }
      assert e.act == c.act + c.free[..n];
    }
  }

  lemma {:induction false} DistinctAt(s: seq<nat>, i: nat, j: nat)
    requires Distinct(s) && i < j < |s|
    ensures s[i] != s[j]
  {
    if i == 0 { assert s[j] in s[1..]; } else { DistinctAt(s[1..], i - 1, j - 1); }
  }

  class BufferManager {
    var m_Buf: seq<Buf>
    var devq: seq<nat>                      // d_tab's b_forw queue
    var nodevq: seq<nat>                    // bFreeList's b_forw queue
    var freeList: seq<nat>                  // bFreeList's av_forw queue
    var freeWanted: bool
    var d_act: seq<nat>                     // d_actf .. d_actl
    var d_active: nat
    var bounce: Block
    var disk: map<Key, Block>
    ghost var logical: map<Key, Block>
    ghost var log: seq<BlockWrite>
    ghost var edited: set<nat>
    ghost var bufSleepers: map<nat, nat>
    ghost var freeSleepers: set<nat>
    ghost var ioSleepers: map<nat, nat>

    ghost function State(): Cache
      reads this
    {
      Cache(m_Buf, devq, nodevq, freeList, freeWanted, d_act, d_active, bounce, disk, logical, log, edited,
            bufSleepers, freeSleepers, ioSleepers)
    }

    /** Initialize: every buffer free and of no device. */
    constructor (disk: map<Key, Block>, zero: Block)
      requires forall k :: k in disk <==> 0 <= k.dev < DEVS && k.blkno < NSECTOR
      ensures Inv(State()) && logical == disk == this.disk && log == [] && d_act == [] && |freeList| == NBUF
    {
      m_Buf := seq(NBUF, _ => Buf(false, false, false, false, false, false, NODEV, 0, zero));
      devq, nodevq, freeList, freeWanted := [], UpTo(NBUF), UpTo(NBUF), false;
      d_act, d_active, bounce := [], 0, zero;
      this.disk, logical, log, edited := disk, disk, [], {};
      bufSleepers, freeSleepers, ioSleepers := map[], {}, map[];
      new;
      UpToList(NBUF);
      forall i: nat | i < NBUF ensures BufOk(State(), i) { UpToHas(NBUF, i); }
      forall k | k in disk ensures DiskOk(State(), k) {}
    }

    /** NotAvail. */
    method NotAvail(i: nat)
      requires i < |m_Buf|
      modifies this`m_Buf, this`freeList
      ensures State() == Taken(old(State()), i)
    {
      freeList := Without(freeList, i);
      m_Buf := m_Buf[i := m_Buf[i].(busy := true)];
    }

    method WakeUpAll(i: nat)
      modifies this`bufSleepers, this`ioSleepers
      ensures bufSleepers == WokenOn(old(bufSleepers), i) && ioSleepers == WokenOn(old(ioSleepers), i)
    {
      bufSleepers, ioSleepers := WokenOn(bufSleepers, i), WokenOn(ioSleepers, i);
    }

    /** The wake-ups of Brelse. */
    method WakeWaiters(i: nat)
      requires i < |m_Buf|
      modifies this`freeWanted, this`bufSleepers, this`freeSleepers, this`ioSleepers
      ensures !freeWanted && freeSleepers == if old(freeWanted) then {} else old(freeSleepers)
      ensures bufSleepers == if m_Buf[i].wanted then WokenOn(old(bufSleepers), i) else old(bufSleepers)
      ensures ioSleepers == if m_Buf[i].wanted then WokenOn(old(ioSleepers), i) else old(ioSleepers)
    {
      if m_Buf[i].wanted {
        WakeUpAll(i);
      }
      if freeWanted {
        freeWanted := false;
        freeSleepers := {};
      }
    }

    /** Brelse. */
    method Brelse(i: nat)
      requires i < |m_Buf|
      modifies this`m_Buf, this`freeList, this`freeWanted, this`edited, this`bufSleepers, this`freeSleepers,
               this`ioSleepers
      ensures State() == Released(old(State()), i)
    {
      WakeWaiters(i);
      m_Buf := m_Buf[i := m_Buf[i].(wanted := false, busy := false, async := false)];
      freeList := freeList + [i];
      edited := edited - {i};
    }

    method Start()
      requires d_act != [] ==> d_act[0] < |m_Buf|
      modifies this`d_active, this`bounce
      ensures State() == Started(old(State()))
    {
      if d_act == [] {
        return;
      }
      d_active := d_active + 1;
      if !m_Buf[d_act[0]].read {
        bounce := m_Buf[d_act[0]].data;
      }
    }

    method Strategy(i: nat)
      requires i < |m_Buf| && m_Buf[i].blkno < NSECTOR && (d_act != [] ==> d_act[0] < |m_Buf|)
      modifies this`d_act, this`d_active, this`bounce
      ensures State() == Queued(old(State()), i)
    {
      d_act := d_act + [i];
      if d_active == 0 {
        Start();
      }
    }

    method IODone(i: nat)
      requires i < |m_Buf|
      modifies this`m_Buf, this`freeList, this`freeWanted, this`edited, this`bufSleepers, this`freeSleepers,
               this`ioSleepers
      ensures State() == BufferState.IODone(old(State()), i)
    {
      m_Buf := m_Buf[i := m_Buf[i].(done := true)];
      if m_Buf[i].async {
        Brelse(i);
      } else {
        m_Buf := m_Buf[i := m_Buf[i].(wanted := false)];
        WakeUpAll(i);
      }
    }

    /** The first half of the completion interrupt: the data moves, the request leaves
        the queue. */
    method TakeResult() returns (h: nat)
      requires d_act != [] && d_act[0] < |m_Buf| && m_Buf[d_act[0]].Id() in disk
      modifies this`m_Buf, this`d_act, this`d_active, this`disk
      ensures h == old(d_act)[0] && State() == Transferred(old(State()))
    {
      h := d_act[0];
      d_active := 0;
      if m_Buf[h].read {
        m_Buf := m_Buf[h := m_Buf[h].(data := disk[m_Buf[h].Id()])];
      } else {
        disk := disk[m_Buf[h].Id() := bounce];
      }
      d_act := d_act[1..];
    }

    /** The completion interrupt ATAHandler: the head request is finished and the next
        one started. A stray interrupt changes nothing. */
    method ATAHandler()
      requires Inv(State())
      modifies this
      ensures Inv(State()) && logical == old(logical) && AllKept(old(State()), State())
      ensures d_act == if old(d_active) == 0 then old(d_act) else old(d_act)[1..]
      ensures old(d_active) == 0 ==> State() == old(State())
      ensures old(d_active) != 0 ==>
                && old(d_act) != [] && old(d_act)[0] < |old(m_Buf)| && old(d_act)[0] !in d_act
                && m_Buf[old(d_act)[0]].done && Finished(old(State()), State(), old(d_act)[0])
      ensures Reaches(old(State()), State())
    {
      if d_active == 0 {
        return;
      }
      ghost var c := State();
      CompletedStep(c);
      CompletedKept(c);
      OneStep(c, Step.Interrupt, Started(Completed(c)));
      var h := TakeResult();
      IODone(h);
      StartedStep(State());
      Start();
    }

    /** The part of GetBlk and InCore that searches the device queue. */
    method Search(k: Key) returns (r: Option<nat>)
      requires Inv(State()) && k.dev >= 0
      ensures r.Some? ==> r.value < NBUF && m_Buf[r.value].Id() == k
      ensures r.None? ==> Uncached(State(), k)
    {
      for n := 0 to |devq|
        invariant forall x :: 0 <= x < n ==> m_Buf[devq[x]].Id() != k
      {
        if m_Buf[devq[n]].Id() == k {
          return Some(devq[n]);
        }
      }
      r := None;
      forall j: nat | j < NBUF ensures m_Buf[j].Id() != k { assert BufOk(State(), j); }
    }

    // ---------------------------------------------------------------- GetBlk

    method Sleep(i: nat, ghost pid: nat)
      requires i < |m_Buf|
      modifies this`m_Buf, this`bufSleepers
      ensures State() == SleptOnBuf(old(State()), i, pid)
    {
      m_Buf := m_Buf[i := m_Buf[i].(wanted := true)];
      bufSleepers := bufSleepers[pid := i];
    }

    /** A free buffer changes its block and its device queue. */
    method Retag(i: nat, dev: int, blkno: nat)
      requires i < |m_Buf|
      modifies this`m_Buf, this`devq, this`nodevq
      ensures State() == Retagged(old(State()), i, Key(dev, blkno))
    {
      m_Buf := m_Buf[i := Buf(true, false, false, false, false, false, dev, blkno, m_Buf[i].data)];
      devq, nodevq := Without(devq, i), Without(nodevq, i);
      if dev >= 0 {
        devq := [i] + devq;
      } else {
        nodevq := [i] + nodevq;
      }
    }

    /** A free buffer with a delayed write goes to the disk; nobody waits for it. */
    method FlushFree(i: nat)
      requires Inv(State()) && i in freeList && i < NBUF && m_Buf[i].delwri
      modifies this
      ensures State() == Flushed(old(State()), i)
      ensures Inv(State()) && logical == old(logical) && edited == old(edited) && AllKept(old(State()), State())
      ensures |freeList| < |old(freeList)|
      ensures Reaches(old(State()), State())
    {
      ghost var c := State();
      assert BufOk(c, i);
      FlushedStep(c, i);
      FlushedKept(c, i);
      FlushedRun(c, i);
      NotAvail(i);
      WriteOutAsync(i);
    }

    /** A free buffer is taken as it is. */
    method TakeFree(i: nat)
      requires Inv(State()) && i in freeList && i < NBUF
      modifies this
      ensures State() == Taken(old(State()), i) && !Mine(old(State()), i)
      ensures Inv(State()) && AllKept(old(State()), State()) && Got(State(), i, old(m_Buf)[i].Id())
      ensures Reaches(old(State()), State())
    {
      TakenStep(State(), i);
      TakenKept(State(), i);
      OneStep(State(), Step.Take(i), Taken(State(), i));
      NotAvail(i);
    }

    /** A free buffer without a delayed write becomes the buffer of the block. */
    method Reuse(i: nat, dev: int, blkno: nat)
      requires Inv(State()) && i in freeList && i < NBUF && !m_Buf[i].delwri && dev < DEVS && blkno < NSECTOR
      requires dev >= 0 ==> Uncached(State(), Key(dev, blkno))
      modifies this
      ensures Inv(State()) && logical == old(logical) && edited == old(edited) && AllKept(old(State()), State())
      ensures Got(State(), i, Key(dev, blkno)) && !Mine(old(State()), i) && !m_Buf[i].done
      ensures freeList == Without(old(freeList), i) && d_act == old(d_act)
      ensures Reaches(old(State()), State())
    {
      ghost var c := State();
      assert BufOk(c, i);
      TakeFree(i);
      ghost var d := State();
      RetaggedStep(d, i, Key(dev, blkno));
      OneStep(d, Step.Reuse(i, Key(dev, blkno)), Retagged(d, i, Key(dev, blkno)));
      RetaggedKept(d, i, Key(dev, blkno));
      OthersKeptTrans(c, d, Retagged(d, i, Key(dev, blkno)), i);
      ReachTrans(c, d, Retagged(d, i, Key(dev, blkno)));
      Retag(i, dev, blkno);
    }

    method SleepForBuf(i: nat, ghost pid: nat)
      requires Inv(State()) && i < NBUF && m_Buf[i].busy
      modifies this
      ensures Inv(State()) && logical == old(logical) && edited == old(edited) && AllKept(old(State()), State())
      ensures Sleeps(State(), pid, old(m_Buf)[i].Id())
      ensures Reaches(old(State()), State())
    {
      SleptOnBufStep(State(), i, pid);
      SleptKept(State(), i, pid);
      OneStep(State(), Step.Sleep(i, pid), SleptOnBuf(State(), i, pid));
      Sleep(i, pid);
    }

    /** The block has a buffer: it is taken, or waited for when in use. */
    method Claim(i: nat, ghost pid: nat) returns (taken: bool)
      requires Inv(State()) && i < NBUF
      modifies this
      ensures Inv(State()) && logical == old(logical) && edited == old(edited) && AllKept(old(State()), State())
      ensures taken ==> Got(State(), i, old(m_Buf)[i].Id()) && !Mine(old(State()), i)
      ensures taken <==> !old(m_Buf)[i].busy
      ensures taken ==> State() == Taken(old(State()), i)
      ensures !taken ==> Sleeps(State(), pid, old(m_Buf)[i].Id())
      ensures Reaches(old(State()), State())
    {
      if m_Buf[i].busy {
        SleepForBuf(i, pid);
        return false;
      }
      assert BufOk(State(), i);
      TakeFree(i);
      return true;
    }

    method SleepForFree(ghost pid: nat)
      requires Inv(State()) && freeList == []
      modifies this
      ensures State() == SleptOnFree(old(State()), pid) && Inv(State()) && AllKept(old(State()), State())
      ensures Reaches(old(State()), State())
    {
      ghost var c := State();
      freeWanted := true;
      freeSleepers := freeSleepers + {pid};
      SleptStep(c, State());
      OneStep(c, Step.SleepFree(pid), State());
    }

    /** The first buffer of the free list, or a sleep; Again when it had to be flushed. */
    method TakeOldest(dev: int, blkno: nat, ghost pid: nat) returns (r: Outcome)
      requires Inv(State()) && dev < DEVS && blkno < NSECTOR
      requires dev >= 0 ==> Uncached(State(), Key(dev, blkno))
      modifies this
      ensures Inv(State()) && logical == old(logical) && edited == old(edited) && AllKept(old(State()), State())
      ensures match r
              case Again => OneDrained(old(State()), State())
              case Asleep =>
                Sleeps(State(), pid, Key(dev, blkno)) && old(freeList) == freeList == [] && d_act == old(d_act)
              case Have(i) =>
                Got(State(), i, Key(dev, blkno)) && !Mine(old(State()), i) && FirstTaken(old(State()), State(), i)
      ensures Reaches(old(State()), State())
    {
      if freeList == [] {
        SleepForFree(pid);
        return Asleep;
      }
      var i := freeList[0];
      WithoutHead(freeList);
      if m_Buf[i].delwri {
        FlushFree(i);
        return Again;
      }
      Reuse(i, dev, blkno);
      return Have(i);
    }

    /** One pass from GetBlk's label `loop`; Again is its goto. */
    method GetBlkPass(dev: int, blkno: nat, ghost pid: nat) returns (r: Outcome)
      requires Inv(State()) && dev < DEVS && blkno < NSECTOR
      modifies this
      ensures Inv(State()) && PassDone(old(State()), State(), Key(dev, blkno), pid, r)
      ensures Reaches(old(State()), State())
    {
      if dev >= 0 {
        var hit := Search(Key(dev, blkno));
        if hit.Some? {
          assert BufOk(State(), hit.value);
          var taken := Claim(hit.value, pid);
          return if taken then Have(hit.value) else Asleep;
        }
      }
      r := TakeOldest(dev, blkno, pid);
    }

    /** A buffer for a block, out of the cache or from the free list. None: asleep, on
        the busy buffer of that very block or on an empty free list. */
    method GetBlk(dev: int, blkno: nat, ghost pid: nat) returns (r: Option<nat>)
      requires Inv(State()) && dev < DEVS && blkno < NSECTOR
      modifies this
      ensures Inv(State()) && logical == old(logical) && edited == old(edited) && AllKept(old(State()), State())
      ensures r.None? ==> Sleeps(State(), pid, Key(dev, blkno))
      ensures r.Some? ==> Got(State(), r.value, Key(dev, blkno)) && !Mine(old(State()), r.value)
      ensures Reaches(old(State()), State())
      ensures forall j: nat :: Cached(old(State()), Key(dev, blkno), j) ==>
                Hit(old(State()), State(), j, if r.Some? then Have(r.value) else Asleep)
      ensures dev < 0 || old(Uncached(State(), Key(dev, blkno))) ==> Oldest(old(State()), State(), r)
    {
      ghost var c, n, k := State(), 0, Key(dev, blkno);
      assert c.free[..0] == [] && c.free[0..] == c.free;
      while true
        invariant Inv(State()) && Searching(c, State(), k, n)
        decreases |freeList|
      {
        ghost var d := State();
        var pass := GetBlkPass(dev, blkno, pid);
        SearchOn(c, d, State(), k, pid, n, pass);
        match pass
        case Again => n := n + 1;
        case Asleep => return None;
        case Have(i) => return Some(i);
      }
    }

    // ------------------------------------------------------- reads and writes

    /** Bwrite up to its wait. */
    method WriteOut(i: nat)
      requires i < |m_Buf| && m_Buf[i].blkno < NSECTOR && (d_act != [] ==> d_act[0] < |m_Buf|)
      modifies this`m_Buf, this`d_act, this`d_active, this`bounce, this`logical, this`log, this`edited
      ensures State() == WriteQueued(old(State()), i, old(m_Buf)[i].async)
    {
      m_Buf := m_Buf[i := m_Buf[i].(read := false, done := false, delwri := false)];
      logical := logical[m_Buf[i].Id() := m_Buf[i].data];
      log := log + [BlockWrite(m_Buf[i].Id(), m_Buf[i].data)];
      edited := edited - {i};
      Strategy(i);
    }

    /** The same for a buffer just marked B_ASYNC. */
    method WriteOutAsync(i: nat)
      requires i < |m_Buf| && m_Buf[i].blkno < NSECTOR && (d_act != [] ==> d_act[0] < |m_Buf|)
      modifies this`m_Buf, this`d_act, this`d_active, this`bounce, this`logical, this`log, this`edited
      ensures State() == WriteQueued(old(State()), i, true)
    {
      m_Buf := m_Buf[i := m_Buf[i].(async := true)];
      WriteOut(i);
    }

    method MarkDelayed(i: nat)
      requires i < |m_Buf|
      modifies this`m_Buf, this`logical, this`log, this`edited
      ensures State() == Delayed(old(State()), i)
    {
      m_Buf := m_Buf[i := m_Buf[i].(delwri := true, done := true)];
      logical := logical[m_Buf[i].Id() := m_Buf[i].data];
      log := log + [BlockWrite(m_Buf[i].Id(), m_Buf[i].data)];
      edited := edited - {i};
    }

    /** The request of a read. */
    method ReadIn(i: nat, async: bool)
      requires i < |m_Buf| && m_Buf[i].blkno < NSECTOR && (d_act != [] ==> d_act[0] < |m_Buf|)
      modifies this`m_Buf, this`d_act, this`d_active, this`bounce
      ensures State() == ReadQueued(old(State()), i, async)
    {
      m_Buf := m_Buf[i := m_Buf[i].(read := true, async := async)];
      Strategy(i);
    }

    method RequestRead(i: nat, async: bool, ghost k: Key)
      requires Inv(State()) && Got(State(), i, k) && !m_Buf[i].done && k.dev >= 0
      modifies this
      ensures Inv(State()) && logical == old(logical) && edited == old(edited) && OthersKept(old(State()), State(), i)
      ensures i in d_act && m_Buf[i].async == async && (!async ==> Coming(State(), i, k))
      ensures d_act == old(d_act) + [i] && m_Buf == old(m_Buf)[i := old(m_Buf)[i].(read := true, async := async)]
      ensures Reaches(old(State()), State())
    {
      assert BufOk(State(), i);
      ReadQueuedStep(State(), i, async);
      QueuedKept(State(), i, async);
      OneStep(State(), Step.Read(i, async), ReadQueued(State(), i, async));
      ReadIn(i, async);
    }

    /** Starts reading a block; the caller goes on to IOWait. None: asleep in GetBlk. */
    method Bread(dev: int, blkno: nat, ghost pid: nat) returns (r: Option<nat>)
      requires Inv(State()) && 0 <= dev < DEVS && blkno < NSECTOR
      modifies this
      ensures Inv(State()) && logical == old(logical) && edited == old(edited) && AllKept(old(State()), State())
      ensures r.None? ==> Sleeps(State(), pid, Key(dev, blkno))
      ensures r.Some? ==> Coming(State(), r.value, Key(dev, blkno)) && !Mine(old(State()), r.value)
      ensures Reaches(old(State()), State())
      ensures forall j: nat :: Cached(old(State()), Key(dev, blkno), j) ==>
                && (r == if old(m_Buf)[j].busy then None else Some(j))
                && (r.Some? && old(m_Buf)[j].done ==>
                      d_act == old(d_act) && m_Buf == old(m_Buf)[j := old(m_Buf)[j].(busy := true)])
      ensures r.Some? && old(Uncached(State(), Key(dev, blkno))) ==>
                d_act != [] && d_act[|d_act| - 1] == r.value && m_Buf[r.value].read
    {
      ghost var c := State();
      r := GetBlk(dev, blkno, pid);
      if r.Some? && !m_Buf[r.value].done {
        ghost var d := State();
        RequestRead(r.value, false, Key(dev, blkno));
        OthersKeptTrans(c, d, State(), r.value);
        ReachTrans(c, d, State());
      }
    }

    /** A process's wait for the I/O on its buffer. Once it is over, a buffer that was
        read holds what was last written to its block. */
    method IOWait(i: nat, ghost pid: nat) returns (done: bool)
      requires Inv(State()) && i < NBUF && Mine(State(), i) && (i in d_act || m_Buf[i].done)
      modifies this`ioSleepers
      ensures Inv(State()) && AllKept(old(State()), State())
      ensures done == m_Buf[i].done == (i !in d_act)
      ensures done && m_Buf[i].dev >= 0 && i !in edited ==>
                m_Buf[i].Id() in logical && m_Buf[i].data == logical[m_Buf[i].Id()]
      ensures !done ==> pid in ioSleepers && ioSleepers[pid] == i
      ensures Reaches(old(State()), State())
    {
      ghost var c := State();
      assert BufOk(c, i);
      done := m_Buf[i].done;
      if !done {
        ioSleepers := ioSleepers[pid := i];
        SleptStep(c, State());
        OneStep(c, Step.SleepIO(i, pid), State());
      }
    }

    /** Breada up to its read-ahead. InCore: the block is cached, and the caller turns to
        Bread. A process that slept in GetBlk comes back with resumed set. */
    method BreadaFirst(dev: int, blkno: nat, resumed: bool, ghost pid: nat) returns (inCore: bool, r: Option<nat>)
      requires Inv(State()) && 0 <= dev < DEVS && blkno < NSECTOR
      modifies this
      ensures Inv(State()) && logical == old(logical) && edited == old(edited) && AllKept(old(State()), State())
      ensures inCore ==> State() == old(State())
      ensures inCore <==> !resumed && !old(Uncached(State(), Key(dev, blkno)))
      ensures !inCore && r.None? ==> Sleeps(State(), pid, Key(dev, blkno))
      ensures !inCore && r.Some? ==> Coming(State(), r.value, Key(dev, blkno)) && !Mine(old(State()), r.value)
      ensures Reaches(old(State()), State())
    {
      inCore := false;
      if !resumed {
        var hit := Search(Key(dev, blkno));
        if hit.Some? {
          return true, None;
        }
      }
      r := Bread(dev, blkno, pid);
    }

    /** The read-ahead of Breada: an asynchronous read that no one waits for, or a cached
        block let go of again. Block 0 asks for none. */
    method BreadaAhead(dev: int, rablkno: nat, resumed: bool, ghost pid: nat) returns (slept: bool)
      requires Inv(State()) && 0 <= dev < DEVS && rablkno < NSECTOR
      modifies this
      ensures Inv(State()) && logical == old(logical) && edited == old(edited) && AllKept(old(State()), State())
      ensures slept ==> Sleeps(State(), pid, Key(dev, rablkno))
      ensures rablkno == 0 ==> !slept && State() == old(State())
      ensures rablkno != 0 && !slept ==> !Uncached(State(), Key(dev, rablkno))
      ensures rablkno != 0 && !slept && old(Uncached(State(), Key(dev, rablkno))) ==>
                d_act != [] && ReadsAhead(State(), d_act[|d_act| - 1], Key(dev, rablkno))
      ensures Reaches(old(State()), State())
    {
      if rablkno == 0 {
        return false;
      }
      if !resumed {
        var hit := Search(Key(dev, rablkno));
        if hit.Some? {
          return false;
        }
      }
      slept := FetchAhead(dev, rablkno, pid);
    }

    method FetchAhead(dev: int, rablkno: nat, ghost pid: nat) returns (slept: bool)
      requires Inv(State()) && 0 <= dev < DEVS && rablkno < NSECTOR
      modifies this
      ensures Inv(State()) && logical == old(logical) && edited == old(edited) && AllKept(old(State()), State())
      ensures if slept then Sleeps(State(), pid, Key(dev, rablkno)) else !Uncached(State(), Key(dev, rablkno))
      ensures !slept && old(Uncached(State(), Key(dev, rablkno))) ==>
                d_act != [] && ReadsAhead(State(), d_act[|d_act| - 1], Key(dev, rablkno))
      ensures Reaches(old(State()), State())
    {
      ghost var c := State();
      var got := GetBlk(dev, rablkno, pid);
      slept := got.None?;
      if got.Some? {
        ghost var d := State();
        SendAhead(got.value, Key(dev, rablkno));
        OthersKeptTrans(c, d, State(), got.value);
        ReachTrans(c, d, State());
      }
    }

    /** The buffer of a block to be read ahead: it is cached already, or its read is queued. */
    method SendAhead(i: nat, ghost k: Key)
      requires Inv(State()) && Got(State(), i, k) && k.dev >= 0
      modifies this
      ensures Inv(State()) && logical == old(logical) && edited == old(edited) && OthersKept(old(State()), State(), i)
      ensures |m_Buf| == NBUF && m_Buf[i].Id() == k
      ensures !old(m_Buf)[i].done ==> d_act != [] && d_act[|d_act| - 1] == i && ReadsAhead(State(), i, k)
      ensures Reaches(old(State()), State())
    {
      if m_Buf[i].done {
        GiveBack(i);
      } else {
        RequestRead(i, true, k);
      }
    }

    /** The holder copies bytes into its buffer. */
    method Fill(i: nat, data: Block)
      requires Inv(State()) && i < NBUF && Held(State(), i)
      modifies this`m_Buf, this`edited
      ensures State() == Edited(old(State()), i, data) && Inv(State())
      ensures m_Buf == old(m_Buf)[i := old(m_Buf)[i].(data := data)] && edited == old(edited) + {i}
      ensures Reaches(old(State()), State())
    {
      EditedStep(State(), i, data);
      OneStep(State(), Step.Edit(i, data), Edited(State(), i, data));
      m_Buf := m_Buf[i := m_Buf[i].(data := data)];
      edited := edited + {i};
    }

    /** Brelse as a process calls it: what it changed in the buffer it has written. */
    method GiveBack(i: nat)
      requires Inv(State()) && i < NBUF && Held(State(), i) && (i in edited ==> !m_Buf[i].done)
      modifies this
      ensures State() == Released(old(State()), i)
      ensures Inv(State()) && logical == old(logical)
      ensures OthersKept(old(State()), State(), i) && edited == old(edited) - {i}
      ensures freeList == old(freeList) + [i] && !m_Buf[i].busy
      ensures Reaches(old(State()), State())
    {
      ReleasedStep(State(), i);
      ReleasedKept(State(), Released(State(), i), i);
      OneStep(State(), Step.Release(i), Released(State(), i));
      Brelse(i);
    }

    /** Bwrite up to its wait, which only a synchronous write has: the block holds the
        buffer's bytes from here on, whenever they reach the disk. */
    method Bwrite(i: nat)
      requires Inv(State()) && i < NBUF && Held(State(), i) && m_Buf[i].dev >= 0
      modifies this
      ensures Inv(State()) && OthersKept(old(State()), State(), i) && edited == old(edited) - {i}
      ensures logical == old(logical)[old(m_Buf)[i].Id() := old(m_Buf)[i].data]
      ensures i in d_act && m_Buf[i].async == old(m_Buf)[i].async && m_Buf[i].Id() == old(m_Buf)[i].Id()
      ensures d_act == old(d_act) + [i] && !m_Buf[i].read && m_Buf[i].data == old(m_Buf)[i].data
      ensures Reaches(old(State()), State())
    {
      assert BufOk(State(), i);
      WriteQueuedStep(State(), i, m_Buf[i].async);
      QueuedKept(State(), i, m_Buf[i].async);
      OneStep(State(), Step.Write(i, m_Buf[i].async), WriteQueued(State(), i, m_Buf[i].async));
      WriteOut(i);
    }

    /** The rest of a synchronous Bwrite, repeated when its process is woken: once the
        transfer is over the disk has what the block holds, and the buffer is given back. */
    method BwriteRest(i: nat, ghost pid: nat) returns (slept: bool)
      requires Inv(State()) && i < NBUF && Mine(State(), i) && (i in d_act || m_Buf[i].done)
      requires m_Buf[i].dev >= 0 && !m_Buf[i].delwri && i !in edited
      modifies this
      ensures Inv(State()) && logical == old(logical) && OthersKept(old(State()), State(), i)
      ensures slept ==> pid in ioSleepers && ioSleepers[pid] == i && Mine(State(), i)
      ensures !slept ==> !m_Buf[i].busy && i in freeList
      ensures !slept ==> old(m_Buf)[i].Id() in disk && disk[old(m_Buf)[i].Id()] == logical[old(m_Buf)[i].Id()]
      ensures Reaches(old(State()), State())
    {
      ghost var c := State();
      var done := IOWait(i, pid);
      if done {
        WrittenThrough(State(), i);
        ghost var d := State();
        GiveBack(i);
        OthersKeptTwice(c, d, State(), i);
        ReachTrans(c, d, State());
      }
      slept := !done;
    }

    /** Bawrite: the interrupt releases the buffer. */
    method Bawrite(i: nat)
      requires Inv(State()) && i < NBUF && Held(State(), i) && m_Buf[i].dev >= 0
      modifies this
      ensures Inv(State()) && OthersKept(old(State()), State(), i) && edited == old(edited) - {i}
      ensures logical == old(logical)[old(m_Buf)[i].Id() := old(m_Buf)[i].data]
      ensures i in d_act && m_Buf[i].async && m_Buf[i].Id() == old(m_Buf)[i].Id()
      ensures d_act == old(d_act) + [i] && !m_Buf[i].read && m_Buf[i].data == old(m_Buf)[i].data
      ensures Reaches(old(State()), State())
    {
      ghost var c := State();
      assert BufOk(c, i);
      WriteQueuedStep(c, i, true);
      QueuedKept(c, i, true);
      OneStep(c, Step.Write(i, true), WriteQueued(c, i, true));
      WriteOutAsync(i);
    }

    /** Bdwrite: the bytes stay in the cache until the buffer is wanted for another block. */
    method Bdwrite(i: nat)
      requires Inv(State()) && i < NBUF && Held(State(), i) && m_Buf[i].dev >= 0
      modifies this
      ensures Inv(State()) && OthersKept(old(State()), State(), i) && edited == old(edited) - {i}
      ensures logical == old(logical)[old(m_Buf)[i].Id() := old(m_Buf)[i].data]
      ensures freeList == old(freeList) + [i] && m_Buf[i].delwri && disk == old(disk)
      ensures Reaches(old(State()), State())
    {
      ghost var c := State();
      DelayedStep(c, i);
      ReleasedKept(c, Delayed(c, i), i);
      OneStep(c, Step.Delay(i), Delayed(c, i));
      MarkDelayed(i);
      GiveBack(i);
      OthersKeptTwice(c, Delayed(c, i), State(), i);
      ReachTrans(c, Delayed(c, i), State());
    }

    /** The scan of Bflush. */
    method FindDelayed(dev: int) returns (r: Option<nat>)
      requires Inv(State())
      ensures r.Some? ==> r.value in freeList && r.value < NBUF && m_Buf[r.value].delwri
      ensures r.None? ==> forall i: nat :: i in freeList && i < NBUF && m_Buf[i].delwri ==>
              dev != NODEV && dev != m_Buf[i].dev
    {
      for n := 0 to |freeList|
        invariant forall x :: 0 <= x < n ==>
                  !(m_Buf[freeList[x]].delwri && (dev == NODEV || dev == m_Buf[freeList[x]].dev))
      {
        var i := freeList[n];
        if m_Buf[i].delwri && (dev == NODEV || dev == m_Buf[i].dev) {
          return Some(i);
        }
      }
      r := None;
    }

    /** Bflush sends every free delayed write of the device (of any, for NODEV) to the
        disk, starting over after each. */
    method Bflush(dev: int)
      requires Inv(State())
      modifies this
      ensures Inv(State()) && logical == old(logical) && edited == old(edited) && AllKept(old(State()), State())
      ensures forall i: nat :: i in freeList && i < NBUF && m_Buf[i].delwri ==> dev != NODEV && dev != m_Buf[i].dev
      ensures forall i: nat :: i in old(freeList) ==> i in freeList || i in d_act
      ensures Reaches(old(State()), State())
    {
      ghost var c := State();
      while true
        invariant Inv(State()) && logical == c.logical && edited == c.edited && AllKept(c, State())
        invariant Reaches(c, State()) && forall i: nat :: i in c.free ==> i in freeList || i in d_act
        decreases |freeList|
      {
        var next := FindDelayed(dev);
        if next.None? {
          return;
        }
        ghost var d := State();
        FlushFree(next.value);
        AllKeptTrans(c, d, State());
        ReachTrans(c, d, State());
      }
    }
  }

  /** Once every delayed write has been flushed and the request queue has run dry, the
      disk is the plain block array. */
  lemma SyncedDisk(c: Cache)
    requires Inv(c) && c.act == [] && forall i: nat :: i < NBUF ==> !c.bufs[i].delwri
    ensures c.disk == c.logical
  {
    forall k | k in c.disk ensures c.disk[k] == c.logical[k] { assert DiskOk(c, k); }
  }

  /** A block whose buffer has nothing left to write is on the disk. */
  lemma WrittenThrough(c: Cache, i: nat)
    requires Inv(c) && i < NBUF && c.bufs[i].dev >= 0 && !c.bufs[i].delwri && i !in c.act
    ensures c.bufs[i].Id() in c.disk && c.disk[c.bufs[i].Id()] == c.logical[c.bufs[i].Id()]
  {
    assert BufOk(c, i);
    assert DiskOk(c, c.bufs[i].Id());
  }

  lemma OthersKeptTwice(c: Cache, d: Cache, e: Cache, i: nat)
    requires OthersKept(c, d, i) && OthersKept(d, e, i)
    ensures OthersKept(c, e, i)
  {
    forall j: nat | j < NBUF && j != i ensures Kept(c, e, j) { assert Kept(c, d, j) && Kept(d, e, j); }
  }

  lemma CompletedKeptAt(c: Cache, i: nat)
    requires Inv(c) && c.act != [] && c.act[0] < NBUF && c.bufs[c.act[0]].Id() in c.disk && c.act[0] !in c.act[1..]
    requires i < NBUF
    ensures Kept(c, Completed(c), i)
  {
    assert BufOk(c, i) && (i in c.act <==> i == c.act[0] || i in c.act[1..]);
  }

  lemma CompletedKept(c: Cache)
    requires Inv(c) && c.act != []
    ensures c.act[0] < NBUF && c.bufs[c.act[0]].Id() in c.disk
    ensures AllKept(c, Completed(c)) && AllKept(c, Started(Completed(c)))
    ensures Completed(c).bufs[c.act[0]].done && c.act[0] !in c.act[1..]
    ensures Finished(c, Started(Completed(c)), c.act[0])
  {
    HeadOk(c);
    CompletedStep(c);
    assert BufOk(c, c.act[0]);
    forall i: nat | i < NBUF ensures Kept(c, Completed(c), i) && Kept(c, Started(Completed(c)), i) {
      CompletedKeptAt(c, i);
    }
  }

  lemma TakenKept(c: Cache, i: nat)
    requires Inv(c) && i in c.free
    ensures i < NBUF && AllKept(c, Taken(c, i)) && !Mine(c, i) && Got(Taken(c, i), i, c.bufs[i].Id())
  {
    TakenStep(c, i);
    assert BufOk(c, i);
  }

  lemma SleptKept(c: Cache, i: nat, pid: nat)
    requires Inv(c) && i < NBUF && c.bufs[i].busy
    ensures AllKept(c, SleptOnBuf(c, i, pid)) && Sleeps(SleptOnBuf(c, i, pid), pid, c.bufs[i].Id())
  {
  }

  lemma QueuedKept(c: Cache, i: nat, async: bool)
    requires Inv(c) && i < NBUF
    ensures OthersKept(c, ReadQueued(c, i, async), i) && OthersKept(c, WriteQueued(c, i, async), i)
  {
  }

  lemma ReleasedKept(c: Cache, d: Cache, i: nat)
    requires Inv(c) && i < NBUF && (d == Released(c, i) || d == Delayed(c, i))
    ensures OthersKept(c, d, i)
  {
  }

  lemma FlushedKept(c: Cache, i: nat)
    requires Inv(c) && i in c.free && c.bufs[i].delwri
    ensures i < NBUF && AllKept(c, Flushed(c, i))
  {
    TakenStep(c, i);
    assert BufOk(c, i);
  }

  lemma RetaggedKept(c: Cache, i: nat, k: Key)
    requires Inv(c) && i < NBUF
    ensures OthersKept(c, Retagged(c, i, k), i)
  {
  }
}
