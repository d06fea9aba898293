/** Runs of the buffer cache: elementary steps of any processes and the disk interrupt, in
    any order. */
module BufferRuns {
  import opened DiskBlocks
  import opened BufferState
  import opened BufferSteps

  datatype Step =
    | Take(i: nat)                          // NotAvail on a free buffer
    | Reuse(i: nat, k: Key)                 // GetBlk gives it to another block
    | Edit(i: nat, data: Block)             // its holder changes the bytes
    | Read(i: nat, async: bool)             // Bread, Breada
    | Write(i: nat, async: bool)            // Bwrite, Bawrite, and flushing a delayed write
    | Delay(i: nat)                         // Bdwrite
    | Release(i: nat)                       // Brelse
    | Interrupt                             // ATAHandler with a request under way
    | Sleep(i: nat, pid: nat)
    | SleepFree(pid: nat)
    | SleepIO(i: nat, pid: nat)

  ghost predicate Enabled(c: Cache, s: Step)
    requires Inv(c)
  {
    match s
    case Take(i) => i in c.free
    case Reuse(i, k) =>
      && i < NBUF && Held(c, i) && !c.bufs[i].delwri && i !in c.edited && !c.bufs[i].wanted
      && (k.dev >= 0 ==> OnDisk(c, k) && Uncached(c, k))
    case Edit(i, _) => i < NBUF && Held(c, i)
    case Read(i, _) => i < NBUF && Held(c, i) && !c.bufs[i].done && c.bufs[i].dev >= 0 && i !in c.edited
    case Write(i, _) => i < NBUF && Held(c, i) && c.bufs[i].dev >= 0
    case Delay(i) => i < NBUF && Held(c, i) && c.bufs[i].dev >= 0
    case Release(i) => i < NBUF && Held(c, i) && (i in c.edited ==> !c.bufs[i].done)
    case Interrupt => c.act != []
    case Sleep(i, _) => i < NBUF && c.bufs[i].busy
    case SleepFree(_) => c.free == []
    case SleepIO(i, _) => i < NBUF && i in c.act && !c.bufs[i].async
  }

  ghost function Next(c: Cache, s: Step): Cache
    requires Inv(c) && Enabled(c, s)
  {
    match s
    case Take(i) => TakenStep(c, i); Taken(c, i)
    case Reuse(i, k) => Retagged(c, i, k)
    case Edit(i, data) => Edited(c, i, data)
    case Read(i, async) => ReadQueued(c, i, async)
    case Write(i, async) => WriteQueued(c, i, async)
    case Delay(i) => Delayed(c, i)
    case Release(i) => Released(c, i)
    case Interrupt => CompletedStep(c); Started(Completed(c))
    case Sleep(i, pid) => SleptOnBuf(c, i, pid)
    case SleepFree(pid) => SleptOnFree(c, pid)
    case SleepIO(i, pid) => SleptForIO(c, i, pid)
  }

  lemma NextStep(c: Cache, s: Step)
    requires Inv(c) && Enabled(c, s)
    ensures Inv(Next(c, s))
  {
    match s
    case Take(i) => TakenStep(c, i);
    case Reuse(i, k) => RetaggedStep(c, i, k);
    case Edit(i, data) => EditedStep(c, i, data);
    case Read(i, async) => ReadQueuedStep(c, i, async);
    case Write(i, async) => WriteQueuedStep(c, i, async);
    case Delay(i) => DelayedStep(c, i);
    case Release(i) => ReleasedStep(c, i);
    case Interrupt =>
      CompletedStep(c);
      StartedStep(Completed(c));
    case Sleep(i, pid) => SleptOnBufStep(c, i, pid);
    case SleepFree(pid) => SleptStep(c, SleptOnFree(c, pid));
    case SleepIO(i, pid) => SleptStep(c, SleptForIO(c, i, pid));
  }

  // -------------------------------------------------------------------- runs

  /** A set of states that no step leaves. */
  ghost predicate Closure(states: iset<Cache>) {
    forall c, s {:trigger Enabled(c, s)} :: c in states && Inv(c) && Enabled(c, s) ==> Next(c, s) in states
  }

  /** State d comes after c in some run of steps. */
  ghost predicate Reaches(c: Cache, d: Cache) {
    forall states {:trigger Closure(states)} :: Closure(states) && c in states ==> d in states
  }

  lemma OneStep(c: Cache, s: Step, d: Cache)
    requires Inv(c) && Enabled(c, s) && d == Next(c, s)
    ensures Reaches(c, d)
  {
  }

  lemma ReachTrans(c: Cache, d: Cache, e: Cache)
    requires Reaches(c, d) && Reaches(d, e)
    ensures Reaches(c, e)
  {
  }

  /** A free buffer with a delayed write is taken and written out. */
  lemma FlushedRun(c: Cache, i: nat)
    requires Inv(c) && i in c.free && i < |c.bufs| && c.bufs[i].delwri
    ensures (c.act != [] ==> c.act[0] < |c.bufs|) && Reaches(c, Flushed(c, i))
  {
    TakenStep(c, i);
    assert BufOk(c, i);
    OneStep(c, Take(i), Taken(c, i));
    OneStep(Taken(c, i), Write(i, true), Flushed(c, i));
  }

  /** What a process has put into its buffer is what its write, delayed or not, logs for the
      block. */
  lemma EditIsLogged(c: Cache, i: nat, data: Block, async: bool)
    requires Inv(c) && Enabled(c, Edit(i, data)) && c.bufs[i].dev >= 0
    ensures var d := Next(c, Edit(i, data));
            && Inv(d) && Enabled(d, Write(i, async)) && Enabled(d, Delay(i))
            && Next(d, Write(i, async)).log == c.log + [BlockWrite(c.bufs[i].Id(), data)]
            && Next(d, Delay(i)).log == c.log + [BlockWrite(c.bufs[i].Id(), data)]
  {
    NextStep(c, Edit(i, data));
  }

  /** What a block array without any cache would hold for k: the bytes of the last write
      to k, or `first` if there was none. */
  function LastWritten(log: seq<BlockWrite>, k: Key, first: Block): Block {
    if log == [] then first
    else if log[|log| - 1].key == k then log[|log| - 1].data
    else LastWritten(log[..|log| - 1], k, first)
  }

  /** The logical contents are what the log says, from the disk the run started with. */
  ghost predicate LogOk(c: Cache, first: map<Key, Block>) {
    && Inv(c) && c.logical.Keys == first.Keys
    && forall k {:trigger c.logical[k]} :: k in c.logical ==> c.logical[k] == LastWritten(c.log, k, first[k])
  }

  lemma LoggedOk(c: Cache, d: Cache, k: Key, b: Block, first: map<Key, Block>)
    requires LogOk(c, first) && Inv(d) && k in c.logical
    requires d.logical == c.logical[k := b] && d.log == c.log + [BlockWrite(k, b)]
    ensures LogOk(d, first)
  {
    assert d.log[..|d.log| - 1] == c.log;
    assert d.logical.Keys == c.logical.Keys;
  }

  /** A step changes what the blocks hold only by a write, which it logs. */
  lemma OthersWriteNothing(c: Cache, s: Step)
    requires Inv(c) && Enabled(c, s) && !s.Write? && !s.Delay?
    ensures Next(c, s).logical == c.logical && Next(c, s).log == c.log
  {
    match s
    case Interrupt => CompletedStep(c);
    case Take(i) => TakenStep(c, i);
    case _ =>
  }

  lemma NextLogOk(c: Cache, s: Step, first: map<Key, Block>)
    requires LogOk(c, first) && Enabled(c, s)
    ensures LogOk(Next(c, s), first)
  {
    NextStep(c, s);
    match s
    case Write(i, async) => WrittenOk(c, WriteQueued(c, i, async), i, first);
    case Delay(i) => WrittenOk(c, Delayed(c, i), i, first);
    case _ => OthersWriteNothing(c, s);
  }

  lemma WrittenOk(c: Cache, d: Cache, i: nat, first: map<Key, Block>)
    requires LogOk(c, first) && i < NBUF && c.bufs[i].dev >= 0 && Inv(d)
    requires d.logical == c.logical[c.bufs[i].Id() := c.bufs[i].data]
    requires d.log == c.log + [BlockWrite(c.bufs[i].Id(), c.bufs[i].data)]
    ensures LogOk(d, first)
  {
    assert BufOk(c, i);
    LoggedOk(c, d, c.bufs[i].Id(), c.bufs[i].data, first);
  }

  lemma RunLogOk(c: Cache, d: Cache, first: map<Key, Block>)
    requires LogOk(c, first) && Reaches(c, d)
    ensures LogOk(d, first)
  {
    var good := iset x: Cache | LogOk(x, first);
    forall x, s | x in good && Inv(x) && Enabled(x, s) ensures Next(x, s) in good { NextLogOk(x, s, first); }
    assert Closure(good);
  }

  /** Cache transparency over any run, from a state where cache and disk agree: a buffer
      read for a block holds the bytes last written to that block, or those the disk
      started with. */
  lemma ReadsSeeLastWrite(c: Cache, d: Cache, i: nat)
    requires Inv(c) && c.disk == c.logical && c.log == [] && Reaches(c, d) && i < NBUF
    ensures Inv(d)
    ensures var b := d.bufs[i]; var k := b.Id();
            b.busy && b.done && b.dev >= 0 && i !in d.edited ==>
              k in c.disk && b.data == LastWritten(d.log, k, c.disk[k])
  {
    RunLogOk(c, d, c.disk);
    assert BufOk(d, i);
  }
}
