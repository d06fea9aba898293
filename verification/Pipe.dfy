/** A pipe under any number of readers and writers. Code between two sleeps is one step;
    ReadI and WriteI may sleep for the disk after each block, holding the pipe's lock. */
module Pipe {
  import opened Common
  import opened DiskBlocks

  const PIPSIZ: nat := 3072             // Inode::SMALL_FILE_BLOCK * Inode::BLOCK_SIZE

  /** Where a process is. The entry states are at the label `loop`, before Plock. */
  datatype Proc =
    | ReadEntry(count: nat)
    | Reading(count: nat, off: nat)                  // in ReadI, count bytes to go
    | WriteEntry(data: seq<byte>)
    | Writing(chunk: seq<byte>, data: seq<byte>)     // in WriteI, chunk to go; data comes after it
  {
    predicate InTransfer() {
      Reading? || Writing?
    }

    predicate OnReadEnd() {
      ReadEntry? || Reading?
    }
  }

  /** Sleep channels: the inode for its lock, pInode + 2 and pInode + 1. */
  datatype Chan = OnLock | OnRead | OnWrite

  /** UpdateInodeTable at this inode: it holds the lock while it writes the inode out, and its
      lock may have been taken from it in the meantime. */
  datatype Sync = NotHere | Holding | Stripped

  /** readers and writers are the processes that have each File of the pipe open, so their
      sizes are the f_counts; count is i_count. accepted is everything written so far, in
      lock order; delivered everything read. */
  datatype State = State(size: nat, offset: nat, count: nat, readers: set<nat>, writers: set<nat>,
                         buf: seq<byte>, iread: bool, iwrite: bool, lock: bool, want: bool, holder: nat,
                         sync: Sync, procs: map<nat, Proc>, asleep: map<nat, Chan>,
                         accepted: seq<byte>, delivered: seq<byte>)

  predicate Transfers(s: State, p: nat) {
    p in s.procs && s.procs[p].InTransfer()
  }

  predicate ReaderAtWork(s: State) {
    s.holder in s.procs && s.procs[s.holder].Reading?
  }

  predicate WriterAtWork(s: State) {
    s.holder in s.procs && s.procs[s.holder].Writing?
  }

  /** Process p may go on without the lock: the other end is closed, and on its own end
      nobody is left who could read as well, or could write without getting EPIPE. */
  predicate Alone(s: State, p: nat)
    requires p in s.procs
  {
    && s.count < 2
    && (s.procs[p].Writing? ==> s.readers == {})
    && (s.procs[p].Reading? ==> s.writers == {} && forall q :: q in s.readers ==> q == p)
  }

  ghost predicate Locking(s: State) {
    && (s.want ==> s.lock)
    && (s.lock ==> Transfers(s, s.holder) || s.sync.Holding?) && (s.sync.Holding? ==> s.lock)
    && (s.sync.Stripped? ==> s.count < 2 && (s.offset == s.size || OneReader(s)))
    && forall p :: Transfers(s, p) ==> p == s.holder && p !in s.asleep && (Guarded(s) || Alone(s, p))
  }

  /** Nobody but the process in the transfer will give the lock away. */
  predicate Guarded(s: State) {
    s.lock && s.sync.NotHere?
  }

  ghost predicate OneReader(s: State) {
    forall q, r :: q in s.readers && r in s.readers ==> q == r
  }

  /** What Prele does to an update of the inode that is under way. */
  function Preled(y: Sync): Sync {
    if y.Holding? then Stripped else y
  }

  /** How far the file is read. */
  function ReadPoint(s: State): nat {
    if ReaderAtWork(s) then s.procs[s.holder].off else s.offset
  }

  /** What was written is what was read and then what is in the file. */
  ghost predicate Stream(s: State) {
    && |s.buf| == PIPSIZ && s.offset <= ReadPoint(s) <= s.size <= PIPSIZ
    && s.accepted == s.delivered + s.buf[ReadPoint(s)..s.size]
    && (ReaderAtWork(s) ==> s.offset < s.size)
    && (WriterAtWork(s) ==> s.procs[s.holder].chunk != [] && s.size + |s.procs[s.holder].chunk| <= PIPSIZ)
  }

  /** i_count counts the open ends, and a process in a call has the end open. */
  ghost predicate Files(s: State) {
    && s.count == (if s.readers == {} then 0 else 1) + (if s.writers == {} then 0 else 1)
    && forall p :: p in s.procs ==> if s.procs[p].OnReadEnd() then p in s.readers else p in s.writers
  }

  ghost predicate SleeperOk(s: State, p: nat)
    requires p in s.asleep
  {
    && p in s.procs
    && match s.asleep[p]
       case OnLock => s.lock && s.want
       case OnRead =>
         && s.procs[p].ReadEntry? && s.iread && s.count >= 2 && s.offset == 0
         && (s.size == 0 || WriterAtWork(s))
       case OnWrite => s.procs[p].WriteEntry? && s.iwrite && s.count >= 2 && s.size == PIPSIZ
  }

  ghost predicate Inv(s: State) {
    && Locking(s) && Stream(s) && Files(s)
    && forall p {:trigger SleeperOk(s, p)} :: p in s.asleep ==> SleeperOk(s, p)
  }

  function Woken(asleep: map<nat, Chan>, c: Chan): (r: map<nat, Chan>)
    ensures forall p :: p in r <==> p in asleep && asleep[p] != c
    ensures forall p :: p in r ==> r[p] == asleep[p]
  {
    map p | p in asleep && asleep[p] != c :: asleep[p]
  }

  // ------------------------------------------------------------ transitions

  /** ReadP on an emptied file starts it over and wakes the writers that found it full. */
  function Restarted(s: State): State {
    s.(size := 0, offset := 0, iwrite := s.iwrite && s.offset == 0,
       asleep := if s.offset != 0 && s.iwrite then Woken(s.asleep, OnWrite) else s.asleep)
  }

  function Slept(s: State, pid: nat, chan: Chan): State {
    s.(iread := s.iread || chan == OnRead, iwrite := s.iwrite || chan == OnWrite, want := s.want || chan == OnLock,
       asleep := s.asleep[pid := chan])
  }

  function Left(s: State, pid: nat): State {
    s.(procs := s.procs - {pid}, asleep := s.asleep - {pid})
  }

  function Begun(s: State, pid: nat, p: Proc): State {
    s.(lock := true, holder := pid, procs := s.procs[pid := p])
  }

  /** n bytes at the read point are handed over. */
  function Handed(s: State, pid: nat, n: nat): State
    requires pid in s.procs && s.procs[pid].Reading? && n <= s.procs[pid].count && s.procs[pid].off + n <= |s.buf|
  {
    var p := s.procs[pid];
    s.(procs := s.procs[pid := Reading(p.count - n, p.off + n)], delivered := s.delivered + s.buf[p.off..p.off + n])
  }

  /** ReadI returned: f_offset moves up and the lock goes. */
  function ReadDone(s: State, pid: nat): State
    requires pid in s.procs && s.procs[pid].Reading?
  {
    s.(offset := s.procs[pid].off, procs := s.procs - {pid}, lock := false, want := false,
       sync := Preled(s.sync), asleep := if s.want then Woken(s.asleep, OnLock) else s.asleep)
  }

  /** n bytes of the chunk go to the end of the file, and more are to come. */
  function Stored(s: State, pid: nat, n: nat, p: Proc): State
    requires pid in s.procs && s.procs[pid].Writing? && n <= |s.procs[pid].chunk| && s.size + n <= |s.buf|
  {
    var d := s.procs[pid].chunk[..n];
    s.(buf := s.buf[..s.size] + d + s.buf[s.size + n..], size := s.size + n, accepted := s.accepted + d,
       procs := s.procs[pid := p])
  }

  /** WriteI returned: the lock goes and waiting readers are woken. */
  function WriteDone(s: State): State {
    s.(lock := false, want := false, iread := false, sync := Preled(s.sync),
       asleep := if s.want && s.iread then Woken(Woken(s.asleep, OnLock), OnRead)
                 else if s.want then Woken(s.asleep, OnLock)
                 else if s.iread then Woken(s.asleep, OnRead) else s.asleep)
  }

  function Openers(s: State, writeEnd: bool): set<nat> {
    if writeEnd then s.writers else s.readers
  }

  function Shared(s: State, to: nat, writeEnd: bool): State {
    s.(readers := if writeEnd then s.readers else s.readers + {to},
       writers := if writeEnd then s.writers + {to} else s.writers)
  }

  /** CloseF wakes everybody who waits for data or room. The last close of an end goes on
      to IPut, whose Prele unlocks the inode, whoever holds the lock. */
  function Closed(s: State, pid: nat, writeEnd: bool, last: bool): State {
    s.(iread := false, iwrite := false,
       readers := if writeEnd then s.readers else s.readers - {pid},
       writers := if writeEnd then s.writers - {pid} else s.writers,
       count := if last && s.count > 0 then s.count - 1 else s.count,
       lock := s.lock && !last, want := s.want && !last, sync := if last then Preled(s.sync) else s.sync,
       asleep := if last && s.want then Woken(Woken(Woken(s.asleep, OnWrite), OnRead), OnLock)
                 else Woken(Woken(s.asleep, OnWrite), OnRead))
  }

  /** UpdateInodeTable finds the inode unlocked, and in the end unlocks it. */
  function SyncBegun(s: State): State {
    s.(lock := true, sync := Holding)
  }

  function SyncEnded(s: State): State {
    s.(lock := false, want := false, sync := NotHere, asleep := if s.want then Woken(s.asleep, OnLock) else s.asleep)
  }

  // ------------------------------------------------------------------- steps

  datatype Step =
    | Enter(pid: nat, call: Proc)                      // the system call, up to the label
    | ReadLoop(pid: nat)                               // ReadP to its next sleep, transfer or return
    | ReadStep(pid: nat)                               // a block of ReadI, or the end of ReadP
    | WriteLoop(pid: nat)
    | WriteStep(pid: nat)
    | Interrupt(pid: nat)                              // a signal, in a sleep or on the way out of one
    | Share(from: nat, to: nat, writeEnd: bool)        // fork: the child has the end open as well
    | Close(pid: nat, writeEnd: bool)
    | SyncLock                                         // sync comes to the inode
    | SyncUnlock                                       // and has written it out

  ghost predicate Sane(s: State) {
    (s.want ==> s.lock) && (s.sync.Holding? ==> s.lock) && s.size <= |s.buf| == PIPSIZ
  }

  ghost predicate Enabled(s: State, step: Step) {
    && Sane(s)
    && match step
       case Enter(pid, call) =>
         pid !in s.procs && !call.InTransfer() && pid in Openers(s, call.WriteEntry?)
       case ReadLoop(pid) => pid in s.procs && s.procs[pid].ReadEntry? && pid !in s.asleep
       case ReadStep(pid) => pid in s.procs && s.procs[pid].Reading?
       case WriteLoop(pid) => pid in s.procs && s.procs[pid].WriteEntry? && pid !in s.asleep
       case WriteStep(pid) =>
         pid in s.procs && s.procs[pid].Writing? && s.procs[pid].chunk != [] && s.size + |s.procs[pid].chunk| <= PIPSIZ
       case Interrupt(pid) => pid in s.procs && !s.procs[pid].InTransfer()
       case Share(from, to, writeEnd) =>
         from in Openers(s, writeEnd) && from !in s.procs && to !in s.procs && to !in Openers(s, writeEnd)
       case Close(pid, writeEnd) => pid in Openers(s, writeEnd) && pid !in s.procs
       case SyncLock => !s.lock && s.sync.NotHere? && s.count > 0
       case SyncUnlock => !s.sync.NotHere?
  }

  /** The bytes one turn of ReadI's loop copies. */
  function Portion(s: State, count: nat, off: nat): (n: nat)
    ensures n <= count && (off < s.size ==> off + n <= s.size) && (off < s.size && count > 0 ==> n > 0)
  {
    if off < s.size then Min(Min(BLOCK_SIZE - off % BLOCK_SIZE, count), s.size - off) else 0
  }

  function ReadLooped(s: State, pid: nat): State
    requires pid in s.procs && s.procs[pid].ReadEntry?
  {
    if s.lock then Slept(s, pid, OnLock)
    else if s.offset != s.size then Begun(s, pid, Reading(s.procs[pid].count, s.offset))
    else if s.count < 2 then Left(Restarted(s), pid)
    else Slept(Restarted(s), pid, OnRead)
  }

  function ReadStepped(s: State, pid: nat): State
    requires pid in s.procs && s.procs[pid].Reading? && s.size <= |s.buf|
  {
    var p := s.procs[pid];
    if p.count == 0 || p.off >= s.size then ReadDone(s, pid) else Handed(s, pid, Portion(s, p.count, p.off))
  }

  function WriteLooped(s: State, pid: nat): State
    requires pid in s.procs && s.procs[pid].WriteEntry? && s.size <= PIPSIZ
  {
    var data := s.procs[pid].data;
    var n := Min(|data|, PIPSIZ - s.size);
    if s.lock then Slept(s, pid, OnLock)
    else if data == [] || s.count < 2 then Left(s, pid)
    else if s.size == PIPSIZ then Slept(s, pid, OnWrite)
    else Begun(s, pid, Writing(data[..n], data[n..]))
  }

  function WriteStepped(s: State, pid: nat): State
    requires pid in s.procs && s.procs[pid].Writing? && s.size + |s.procs[pid].chunk| <= |s.buf|
  {
    var p := s.procs[pid];
    var n := Min(BLOCK_SIZE - s.size % BLOCK_SIZE, |p.chunk|);
    if n < |p.chunk| then Stored(s, pid, n, Writing(p.chunk[n..], p.data))
    else WriteDone(Stored(s, pid, n, WriteEntry(p.data)))
  }

  ghost function Next(s: State, step: Step): State
    requires Enabled(s, step)
  {
    match step
    case Enter(pid, call) => s.(procs := s.procs[pid := call])
    case ReadLoop(pid) => ReadLooped(s, pid)
    case ReadStep(pid) => ReadStepped(s, pid)
    case WriteLoop(pid) => WriteLooped(s, pid)
    case WriteStep(pid) => WriteStepped(s, pid)
    case Interrupt(pid) => Left(s, pid)
    case Share(_, to, writeEnd) => Shared(s, to, writeEnd)
    case Close(pid, writeEnd) =>
      Closed(s, pid, writeEnd, |Openers(s, writeEnd)| <= 1)
    case SyncLock => SyncBegun(s)
    case SyncUnlock => SyncEnded(s)
  }

  /** The steps that endanger the stream: with something left to read, the last writer goes
      and takes the lock from a reader in ReadI or from sync, and two processes have the read
      end open; or the only reader forks while such a sync is still to unlock the inode. */
  ghost predicate Risky(s: State, step: Step) {
    && s.offset < s.size
    && match step
       case Close(_, writeEnd) => writeEnd && |s.writers| <= 1 && !OneReader(s) && (ReaderAtWork(s) || s.sync.Holding?)
       case Share(_, _, writeEnd) => !writeEnd && s.sync.Stripped?
       case _ => false
  }

  // -------------------------------------------------- each step keeps the invariant

  lemma RestartedOk(s: State)
    requires Inv(s) && !s.lock && s.offset == s.size
    ensures Inv(Restarted(s)) && s.accepted == s.delivered
    ensures forall p :: p in Restarted(s).asleep ==> Restarted(s).asleep[p] == OnRead
  {
    var t := Restarted(s);
    forall q | Transfers(t, q) ensures q == t.holder && q !in t.asleep && Alone(t, q) {
      assert Transfers(s, q) && Alone(s, q);
    }
    assert ReaderAtWork(s) ==> s.offset < s.size;
    forall p | p in t.asleep ensures SleeperOk(t, p) && t.asleep[p] == OnRead { assert SleeperOk(s, p); }
  }

  /** A reader may sleep on an empty file, a writer on a full one, anyone on the lock. */
  lemma SleptOk(s: State, pid: nat, chan: Chan)
    requires Inv(s) && pid in s.procs && pid !in s.asleep && !s.procs[pid].InTransfer()
    requires chan == OnLock ==> s.lock
    requires chan == OnRead ==> s.procs[pid].ReadEntry? && s.count >= 2 && s.offset == s.size == 0
    requires chan == OnWrite ==> s.procs[pid].WriteEntry? && s.count >= 2 && s.size == PIPSIZ
    ensures Inv(Slept(s, pid, chan))
  {
    var t := Slept(s, pid, chan);
    forall q | Transfers(t, q) ensures q == t.holder && q !in t.asleep && (Guarded(t) || Alone(t, q)) {
      assert Transfers(s, q);
    }
    forall p | p in t.asleep ensures SleeperOk(t, p) { if p != pid { assert SleeperOk(s, p); } }
  }

  lemma LeftOk(s: State, pid: nat)
    requires Inv(s) && pid in s.procs && !s.procs[pid].InTransfer()
    ensures Inv(Left(s, pid))
  {
    var t := Left(s, pid);
    forall q | Transfers(t, q) ensures q == t.holder && q !in t.asleep && (Guarded(t) || Alone(t, q)) {
      assert Transfers(s, q);
    }
    forall p | p in t.asleep ensures SleeperOk(t, p) { assert SleeperOk(s, p); }
  }

  lemma BegunOk(s: State, pid: nat, p: Proc)
    requires Inv(s) && !s.lock && pid in s.procs && pid !in s.asleep && p.InTransfer()
    requires p.OnReadEnd() == s.procs[pid].OnReadEnd() && !s.procs[pid].InTransfer()
    requires p.Reading? ==> p.off == s.offset < s.size
    requires p.Writing? ==> p.chunk != [] && s.size + |p.chunk| <= PIPSIZ && s.count >= 2
    ensures Inv(Begun(s, pid, p))
  {
    var t := Begun(s, pid, p);
    assert Transfers(s, s.holder) ==> Alone(s, s.holder);
    forall q | Transfers(t, q) ensures q == pid { assert q == pid || Transfers(s, q); }
    forall q | q in t.asleep ensures SleeperOk(t, q) { assert SleeperOk(s, q); }
  }

  lemma HandedOk(s: State, pid: nat, n: nat)
    requires Inv(s) && pid in s.procs && s.procs[pid].Reading?
    requires n <= s.procs[pid].count && s.procs[pid].off + n <= s.size
    ensures Inv(Handed(s, pid, n))
  {
    var t := Handed(s, pid, n);
    assert Transfers(s, pid);
    var off := s.procs[pid].off;
    assert s.buf[off..s.size] == s.buf[off..off + n] + s.buf[off + n..s.size];
    forall q | Transfers(t, q) ensures q == t.holder && q !in t.asleep && (Guarded(t) || Alone(t, q)) {
      assert Transfers(s, q);
    }
    forall q | q in t.asleep ensures SleeperOk(t, q) { assert SleeperOk(s, q); }
  }

  lemma ReadDoneOk(s: State, pid: nat)
    requires Inv(s) && pid in s.procs && s.procs[pid].Reading?
    ensures Inv(ReadDone(s, pid))
  {
    var t := ReadDone(s, pid);
    assert Transfers(s, pid);
    forall q | Transfers(t, q) ensures false { assert Transfers(s, q); }
    forall q | q in t.asleep ensures SleeperOk(t, q) { assert SleeperOk(s, q); }
  }

  lemma StoredOk(s: State, pid: nat, n: nat)
    requires Inv(s) && pid in s.procs && s.procs[pid].Writing? && 0 < n < |s.procs[pid].chunk|
    ensures s.size + n <= |s.buf|
    ensures Inv(Stored(s, pid, n, Writing(s.procs[pid].chunk[n..], s.procs[pid].data)))
  {
    var p := s.procs[pid];
    assert Transfers(s, pid);
    var t := Stored(s, pid, n, Writing(p.chunk[n..], p.data));
    assert Stream(t) by { StoredBytes(s.buf, s.offset, s.size, p.chunk[..n]); }
    forall q | Transfers(t, q) ensures q == t.holder && q !in t.asleep && (Guarded(t) || Alone(t, q)) {
      assert Transfers(s, q);
    }
    forall q | q in t.asleep ensures SleeperOk(t, q) { assert SleeperOk(s, q); }
  }

  /** Nobody can be asleep once a writer has finished its chunk and woken the others. */
  lemma StoredLastWakes(s: State, pid: nat)
    requires Inv(s) && pid in s.procs && s.procs[pid].Writing?
    ensures forall q :: q !in WriteDone(s).asleep
  {
    assert Transfers(s, pid);
    forall q | q in s.asleep ensures (s.asleep[q] == OnLock && s.want) || (s.asleep[q] == OnRead && s.iread) {
      assert SleeperOk(s, q);
    }
  }

  lemma StoredLast(s: State, pid: nat)
    requires Inv(s) && pid in s.procs && s.procs[pid].Writing?
    ensures s.size + |s.procs[pid].chunk| <= |s.buf|
    ensures var t := WriteDone(Stored(s, pid, |s.procs[pid].chunk|, WriteEntry(s.procs[pid].data)));
            Inv(t) && forall q :: q !in t.asleep
  {
    var p := s.procs[pid];
    assert Transfers(s, pid);
    var t := WriteDone(Stored(s, pid, |p.chunk|, WriteEntry(p.data)));
    StoredLastWakes(s, pid);
    assert t.asleep == WriteDone(s).asleep;
    assert Stream(t) by {
      StoredBytes(s.buf, s.offset, s.size, p.chunk);
      assert p.chunk[..|p.chunk|] == p.chunk;
    }
    forall q | Transfers(t, q) ensures false { assert Transfers(s, q); }
  }

  lemma StoredBytes(buf: seq<byte>, lo: nat, hi: nat, d: seq<byte>)
    requires lo <= hi && hi + |d| <= |buf|
    ensures (buf[..hi] + d + buf[hi + |d|..])[lo..hi + |d|] == buf[lo..hi] + d
  {
  }

  /** A close that is not the last of its end. */
  lemma ClosedOk(s: State, pid: nat, writeEnd: bool)
    requires Inv(s) && pid in Openers(s, writeEnd) && pid !in s.procs && |Openers(s, writeEnd)| > 1
    ensures Inv(Closed(s, pid, writeEnd, false))
    ensures forall p :: p in Closed(s, pid, writeEnd, false).asleep ==>
            Closed(s, pid, writeEnd, false).asleep[p] == OnLock
  {
    var t := Closed(s, pid, writeEnd, false);
    assert Openers(s, writeEnd) == Openers(t, writeEnd) + {pid};
    forall q | Transfers(t, q) ensures q == t.holder && q !in t.asleep && (Guarded(t) || Alone(t, q)) {
      assert Transfers(s, q);
    }
    forall q | q in t.asleep ensures SleeperOk(t, q) { assert SleeperOk(s, q); }
  }

  lemma OnlyOpener(m: set<nat>, pid: nat)
    requires pid in m && |m| <= 1
    ensures m == {pid}
  {
    assert m == (m - {pid}) + {pid};
  }

  /** The last close of an end keeps the invariant unless it is the risky one. */
  lemma LastClosedOk(s: State, pid: nat, writeEnd: bool)
    requires Inv(s) && pid in Openers(s, writeEnd) && pid !in s.procs && |Openers(s, writeEnd)| <= 1
    ensures var t := Closed(s, pid, writeEnd, true); t.asleep == map[] && (Inv(t) <==> !Risky(s, Close(pid, writeEnd)))
  {
    var t := Closed(s, pid, writeEnd, true);
    OnlyOpener(Openers(s, writeEnd), pid);
    assert Openers(t, writeEnd) == {};
    forall q ensures q !in t.asleep { if q in s.asleep { assert SleeperOk(s, q); } }
    if Risky(s, Close(pid, writeEnd)) {
      assert !OneReader(t);
      if ReaderAtWork(s) {
        assert Transfers(t, t.holder) && !Alone(t, t.holder);
      } else {
        assert t.sync.Stripped?;
      }
    } else {
      forall q | Transfers(t, q) ensures q == t.holder && Alone(t, q) {
        assert Transfers(s, q);
        assert s.procs[q].OnReadEnd() <==> writeEnd;
      }
    }
  }

  /** Every step keeps the invariant, but for the risky ones, which never do. */
  lemma NextKeepsInv(s: State, step: Step)
    requires Inv(s) && Enabled(s, step)
    ensures Inv(Next(s, step)) <==> !Risky(s, step)
  {
    match step
    case ReadLoop(pid) => ReadLoopOk(s, pid);
    case ReadStep(pid) => ReadStepOk(s, pid);
    case WriteLoop(pid) => WriteLoopOk(s, pid);
    case WriteStep(pid) => WriteStepOk(s, pid);
    case Interrupt(pid) => LeftOk(s, pid);
    case Enter(pid, call) => EnterOk(s, pid, call);
    case Share(from, to, writeEnd) => ShareOk(s, from, to, writeEnd);
    case SyncLock => SyncLockOk(s);
    case SyncUnlock => SyncUnlockOk(s);
    case Close(pid, writeEnd) =>
      if |Openers(s, writeEnd)| <= 1 { LastClosedOk(s, pid, writeEnd); } else { ClosedOk(s, pid, writeEnd); }
  }

  lemma EnterOk(s: State, pid: nat, call: Proc)
    requires Inv(s) && Enabled(s, Enter(pid, call))
    ensures Inv(Next(s, Enter(pid, call)))
  {
    var t := Next(s, Enter(pid, call));
    forall q | Transfers(t, q) ensures q == t.holder && q !in t.asleep && (Guarded(t) || Alone(t, q)) {
      assert Transfers(s, q);
    }
    forall q | q in t.asleep ensures SleeperOk(t, q) { assert SleeperOk(s, q); }
  }

  lemma SyncLockOk(s: State)
    requires Inv(s) && Enabled(s, SyncLock)
    ensures Inv(SyncBegun(s))
  {
    var t := SyncBegun(s);
    forall q | Transfers(t, q) ensures q == t.holder && q !in t.asleep && Alone(t, q) {
      assert Transfers(s, q) && Alone(s, q);
    }
    forall q | q in t.asleep ensures SleeperOk(t, q) { assert SleeperOk(s, q); }
  }

  lemma SyncUnlockOk(s: State)
    requires Inv(s) && Enabled(s, SyncUnlock)
    ensures Inv(SyncEnded(s))
  {
    var t := SyncEnded(s);
    forall q | Transfers(t, q) ensures q == t.holder && q !in t.asleep && Alone(t, q) {
      assert Transfers(s, q) && Alone(s, q);
    }
    forall q | q in t.asleep ensures SleeperOk(t, q) { assert SleeperOk(s, q); }
  }

  lemma ShareOk(s: State, from: nat, to: nat, writeEnd: bool)
    requires Inv(s) && Enabled(s, Share(from, to, writeEnd))
    ensures Inv(Next(s, Share(from, to, writeEnd))) <==> !Risky(s, Share(from, to, writeEnd))
  {
    var t := Next(s, Share(from, to, writeEnd));
    assert !writeEnd ==> from in t.readers && to in t.readers;
    forall q | Transfers(t, q) ensures q == t.holder && q !in t.asleep && (Guarded(t) || Alone(t, q)) {
      assert Transfers(s, q);
    }
    forall q | q in t.asleep ensures SleeperOk(t, q) { assert SleeperOk(s, q); }
  }

  lemma ReadLoopOk(s: State, pid: nat)
    requires Inv(s) && Enabled(s, ReadLoop(pid))
    ensures Inv(ReadLooped(s, pid))
  {
    if s.lock {
      SleptOk(s, pid, OnLock);
    } else if s.offset != s.size {
      BegunOk(s, pid, Reading(s.procs[pid].count, s.offset));
    } else {
      RestartedOk(s);
      if s.count < 2 { LeftOk(Restarted(s), pid); } else { SleptOk(Restarted(s), pid, OnRead); }
    }
  }

  lemma ReadStepOk(s: State, pid: nat)
    requires Inv(s) && Enabled(s, ReadStep(pid))
    ensures Inv(ReadStepped(s, pid))
  {
    var p := s.procs[pid];
    if p.count == 0 || p.off >= s.size { ReadDoneOk(s, pid); } else { HandedOk(s, pid, Portion(s, p.count, p.off)); }
  }

  lemma WriteLoopOk(s: State, pid: nat)
    requires Inv(s) && Enabled(s, WriteLoop(pid))
    ensures Inv(WriteLooped(s, pid))
  {
    var data := s.procs[pid].data;
    var n := Min(|data|, PIPSIZ - s.size);
    if s.lock {
      SleptOk(s, pid, OnLock);
    } else if data == [] || s.count < 2 {
      LeftOk(s, pid);
    } else if s.size == PIPSIZ {
      SleptOk(s, pid, OnWrite);
    } else {
      BegunOk(s, pid, Writing(data[..n], data[n..]));
    }
  }

  lemma WriteStepOk(s: State, pid: nat)
    requires Inv(s) && Enabled(s, WriteStep(pid))
    ensures Inv(WriteStepped(s, pid))
  {
    var p := s.procs[pid];
    var n := Min(BLOCK_SIZE - s.size % BLOCK_SIZE, |p.chunk|);
    if n < |p.chunk| { StoredOk(s, pid, n); } else { StoredLast(s, pid); }
  }

  /** A process in a call that is not asleep can always go on. */
  lemma AwakeCanStep(s: State, pid: nat)
    requires Inv(s) && pid in s.procs && pid !in s.asleep
    ensures Enabled(s, match s.procs[pid]
                       case ReadEntry(_) => ReadLoop(pid)
                       case Reading(_, _) => ReadStep(pid)
                       case WriteEntry(_) => WriteLoop(pid)
                       case Writing(_, _) => WriteStep(pid))
  {
    if s.procs[pid].Writing? { assert Transfers(s, pid); }
  }

  // -------------------------------------------------------------------- runs

  /** A set of states that no step leaves, or none but a risky one. */
  ghost predicate Closure(states: iset<State>, careful: bool) {
    forall s, step {:trigger Enabled(s, step)} ::
      s in states && Enabled(s, step) && !(careful && Risky(s, step)) ==> Next(s, step) in states
  }

  /** t comes after s in some run of steps, without a risky one if careful. */
  ghost predicate Reaches(s: State, t: State, careful: bool) {
    forall states {:trigger Closure(states, careful)} :: Closure(states, careful) && s in states ==> t in states
  }

  lemma OneStep(s: State, step: Step, t: State)
    requires Enabled(s, step) && t == Next(s, step)
    ensures Reaches(s, t, false)
  {
  }

  /** A new pipe: one process has both ends open; the blocks may hold anything. */
  function NewPipe(pid: nat, blocks: seq<byte>): State {
    State(0, 0, 2, {pid}, {pid}, blocks, false, false, false, false, 0, NotHere, map[], map[], [],
      [])
  }

  lemma RunKeepsInv(s: State, t: State)
    requires Inv(s) && Reaches(s, t, true)
    ensures Inv(t)
  {
    var good := iset x: State | Inv(x);
    forall x, step | x in good && Enabled(x, step) && !Risky(x, step) ensures Next(x, step) in good {
      NextKeepsInv(x, step);
    }
    assert Closure(good, true);
  }

  /** In any run of a pipe without a risky step, what has come out is a prefix of what
      went in, and the rest is in the file. */
  lemma StreamOverAnyRun(pid: nat, blocks: seq<byte>, t: State)
    requires |blocks| == PIPSIZ && Reaches(NewPipe(pid, blocks), t, true)
    ensures ReadPoint(t) <= t.size <= |t.buf| == PIPSIZ
    ensures t.accepted == t.delivered + t.buf[ReadPoint(t)..t.size]
  {
    assert Inv(NewPipe(pid, blocks));
    RunKeepsInv(NewPipe(pid, blocks), t);
  }

  /** What every step keeps, a risky one included: with both ends open the invariant, and
      with one end closed nobody sleeps but for the lock. */
  ghost predicate SleepersSafe(s: State) {
    Inv(s) || (s.count < 2 && (s.want ==> s.lock) && forall p :: p in s.asleep ==> s.asleep[p] == OnLock && s.want)
  }

  lemma NextSleepersSafe(s: State, step: Step)
    requires SleepersSafe(s) && Enabled(s, step)
    ensures SleepersSafe(Next(s, step))
  {
    if Inv(s) {
      NextKeepsInv(s, step);
      if Risky(s, step) {
        if step.Close? { LastClosedOk(s, step.pid, true); } else { ShareIsIdle(s, step.from, step.to); }
      }
    }
  }

  lemma RunSleepersSafe(s: State, t: State)
    requires Inv(s) && Reaches(s, t, false)
    ensures SleepersSafe(t)
  {
    var safe := iset x: State | SleepersSafe(x);
    forall x, step | x in safe && Enabled(x, step) ensures Next(x, step) in safe { NextSleepersSafe(x, step); }
    assert Closure(safe, false);
  }

  /** In no run whatever does a sleeper lack the bit that gets it woken, nor does a reader
      wait for data while a writer waits for room. */
  lemma NoLostSleeper(pid: nat, blocks: seq<byte>, t: State)
    requires |blocks| == PIPSIZ && Reaches(NewPipe(pid, blocks), t, false)
    ensures forall p :: p in t.asleep ==>
              match t.asleep[p] case OnLock => t.lock && t.want case OnRead => t.iread case OnWrite => t.iwrite
    ensures forall r, w :: r in t.asleep && w in t.asleep ==> !(t.asleep[r] == OnRead && t.asleep[w] == OnWrite)
  {
    assert Inv(NewPipe(pid, blocks));
    RunSleepersSafe(NewPipe(pid, blocks), t);
    if Inv(t) {
      forall p | p in t.asleep ensures SleeperOk(t, p) {}
    }
  }

  // ------------------------------------------------------------ what calls come to

  /** A call, by what it was given and what has gone into or come out of the pipe for it. */
  datatype Call = ReadCall(asked: nat, got: seq<byte>) | WriteCall(given: seq<byte>, taken: seq<byte>)

  /** A state, with the last call of each process. */
  datatype History = History(now: State, calls: map<nat, Call>)

  function Gained(before: seq<byte>, after: seq<byte>): seq<byte> {
    if |before| <= |after| then after[|before|..] else []
  }

  /** A call takes part in what its own steps add to accepted and delivered. */
  function Credited(call: Call, s: State, t: State): Call {
    match call
    case ReadCall(asked, got) => ReadCall(asked, got + Gained(s.delivered, t.delivered))
    case WriteCall(given, taken) => WriteCall(given, taken + Gained(s.accepted, t.accepted))
  }

  ghost function Recorded(h: History, step: Step): History
    requires Enabled(h.now, step)
  {
    var t := Next(h.now, step);
    History(t,
      match step
      case Enter(pid, call) =>
        h.calls[pid := if call.ReadEntry? then ReadCall(call.count, []) else WriteCall(call.data, [])]
      case ReadStep(pid) => if pid in h.calls then h.calls[pid := Credited(h.calls[pid], h.now, t)] else h.calls
      case WriteStep(pid) => if pid in h.calls then h.calls[pid := Credited(h.calls[pid], h.now, t)] else h.calls
      case _ => h.calls)
  }

  /** No byte of the call of process p is lost or made up on the way. */
  ghost predicate CallOk(h: History, p: nat)
    requires p in h.now.procs
  {
    && p in h.calls
    && match h.now.procs[p]
       case ReadEntry(count) => h.calls[p] == ReadCall(count, [])
       case Reading(count, _) => h.calls[p].ReadCall? && h.calls[p].asked == |h.calls[p].got| + count
       case WriteEntry(data) => h.calls[p].WriteCall? && h.calls[p].given == h.calls[p].taken + data
       case Writing(chunk, data) => h.calls[p].WriteCall? && h.calls[p].given == h.calls[p].taken + chunk + data
  }

  ghost predicate Accounted(h: History) {
    forall p :: p in h.now.procs ==> CallOk(h, p)
  }

  /** The process whose call a step is part of. */
  function Caller(step: Step): (p: Option<nat>) {
    match step
    case Enter(pid, _) => Some(pid)
    case ReadLoop(pid) => Some(pid)
    case ReadStep(pid) => Some(pid)
    case WriteLoop(pid) => Some(pid)
    case WriteStep(pid) => Some(pid)
    case Interrupt(pid) => Some(pid)
    case _ => None
  }

  /** Process q is where it was, unless it has been woken. */
  ghost predicate Stays(s: State, t: State, q: nat) {
    && (q in t.procs <==> q in s.procs) && (q in s.procs ==> t.procs[q] == s.procs[q])
    && (q in t.asleep ==> q in s.asleep && t.asleep[q] == s.asleep[q])
  }

  lemma OtherStays(s: State, step: Step, p: nat, q: nat)
    requires Enabled(s, step) && Caller(step) == Some(p) && p != q
    ensures Stays(s, Next(s, step), q)
  {
    match step
    case Enter(_, _) =>
    case ReadLoop(_) => assert Stays(s, Restarted(s), q);
    case ReadStep(_) => assert Stays(s, ReadStepped(s, p), q);
    case WriteLoop(_) => assert Stays(s, WriteLooped(s, p), q);
    case WriteStep(_) => assert Stays(s, WriteStepped(s, p), q);
    case Interrupt(_) =>
  }

  /** A process stays in its call, at the same place, through all the steps that are not its
      own; these can wake it but not put it to sleep. */
  lemma OthersStay(s: State, step: Step, q: nat)
    requires Enabled(s, step) && Caller(step) != Some(q)
    ensures Stays(s, Next(s, step), q)
  {
    match Caller(step)
    case Some(p) => OtherStays(s, step, p, q);
    case None => assert Stays(s, Next(s, step), q);
  }

  lemma RecordedOk(h: History, step: Step)
    requires Accounted(h) && Enabled(h.now, step)
    ensures Accounted(Recorded(h, step))
  {
    var i := Recorded(h, step);
    forall p | p in i.now.procs ensures CallOk(i, p) {
      if Caller(step) != Some(p) {
        OthersStay(h.now, step, p);
        assert CallOk(h, p);
      } else {
        OwnStepOk(h, step, p);
      }
    }
  }

  lemma OwnStepOk(h: History, step: Step, p: nat)
    requires Enabled(h.now, step) && Caller(step) == Some(p) && p in Recorded(h, step).now.procs
    requires p in h.now.procs ==> CallOk(h, p)
    ensures CallOk(Recorded(h, step), p)
  {
    match step
    case Enter(_, _) =>
    case ReadLoop(_) =>
    case ReadStep(_) => OwnReadStepOk(h, p);
    case WriteLoop(_) => WriteLoopKeeps(h.now, p);
    case WriteStep(_) => OwnWriteStepOk(h, p);
    case Interrupt(_) =>
  }

  lemma OwnReadStepOk(h: History, p: nat)
    requires Enabled(h.now, ReadStep(p)) && p in Recorded(h, ReadStep(p)).now.procs && CallOk(h, p)
    ensures CallOk(Recorded(h, ReadStep(p)), p)
  {
    ReadStepGains(h.now, p);
  }

  lemma OwnWriteStepOk(h: History, p: nat)
    requires Enabled(h.now, WriteStep(p)) && CallOk(h, p) && p in Recorded(h, WriteStep(p)).now.procs
    ensures CallOk(Recorded(h, WriteStep(p)), p)
  {
    WriteStepGains(h.now, p);
    var s, t, taken := h.now, Next(h.now, WriteStep(p)), h.calls[p].taken;
    var g, data := Gained(s.accepted, t.accepted), s.procs[p].data;
    match t.procs[p]
    case Writing(chunk, _) => Regroup(taken, g, chunk, data);
    case WriteEntry(_) => Regroup(taken, g, [], data);
  }

  lemma Regroup<T>(a: seq<T>, b: seq<T>, c: seq<T>, d: seq<T>)
    ensures a + (b + c) + d == a + b + c + d && b + [] == b && a + b + [] == a + b
  {
  }

  lemma GainedTail<T>(a: seq<T>, b: seq<T>)
    ensures (a + b)[|a|..] == b
  {
  }

  lemma ReadStepGains(s: State, p: nat)
    requires Enabled(s, ReadStep(p))
    ensures var t, r := Next(s, ReadStep(p)), s.procs[p];
            if r.count == 0 || r.off >= s.size then p !in t.procs && t.delivered == s.delivered
            else
              && p in t.procs && t.procs[p].Reading? && Gained(s.delivered, t.delivered) != []
              && t.procs[p].count + |Gained(s.delivered, t.delivered)| == r.count
  {
    var r := s.procs[p];
    if r.count != 0 && r.off < s.size {
      var n := Portion(s, r.count, r.off);
      GainedTail(s.delivered, s.buf[r.off..r.off + n]);
    }
  }

  lemma WriteStepGains(s: State, p: nat)
    requires Enabled(s, WriteStep(p))
    ensures var t, w := Next(s, WriteStep(p)), s.procs[p];
            && p in t.procs && Gained(s.accepted, t.accepted) != []
            && match t.procs[p]
               case Writing(chunk, data) => w.chunk == Gained(s.accepted, t.accepted) + chunk && data == w.data
               case WriteEntry(data) => w.chunk == Gained(s.accepted, t.accepted) && data == w.data
               case _ => false
  {
    var w, t := s.procs[p], Next(s, WriteStep(p));
    var n := Min(BLOCK_SIZE - s.size % BLOCK_SIZE, |w.chunk|);
    GainedTail(s.accepted, w.chunk[..n]);
    assert t.accepted == s.accepted + w.chunk[..n];
    if n < |w.chunk| {
      assert t.procs[p] == Writing(w.chunk[n..], w.data);
    } else {
      assert t.procs[p] == WriteEntry(w.data);
    }
  }

  lemma WriteLoopKeeps(s: State, p: nat)
    requires Enabled(s, WriteLoop(p)) && p in Next(s, WriteLoop(p)).procs
    ensures match Next(s, WriteLoop(p)).procs[p]
            case Writing(chunk, data) => chunk + data == s.procs[p].data
            case WriteEntry(data) => data == s.procs[p].data
            case _ => false
  {
  }

  // what its contract for a caller is

  /** A close takes the end away from its process and leaves nobody asleep but for the lock,
      and a fork gives it to one more; the other end and the calls under way are as before. */
  lemma EndsChangeHands(s: State, step: Step)
    requires Enabled(s, step) && (step.Close? || step.Share?)
    ensures var t, w := Next(s, step), step.writeEnd;
            && Openers(t, w) == (if step.Close? then Openers(s, w) - {step.pid} else Openers(s, w) + {step.to})
            && Openers(t, !w) == Openers(s, !w) && t.procs == s.procs
            && (step.Close? ==> forall p :: p in t.asleep ==> t.asleep[p] == OnLock)
            && (t.count != s.count ==> step.Close? && Openers(t, w) == {} && t.count == s.count - 1)
  {
    if step.Close? && |Openers(s, step.writeEnd)| <= 1 { OnlyOpener(Openers(s, step.writeEnd), step.pid); }
  }

  /** A set of histories that no step leaves. */
  ghost predicate HistoryClosure(all: iset<History>) {
    forall h, step {:trigger Recorded(h, step)} :: h in all && Enabled(h.now, step) ==> Recorded(h, step) in all
  }

  ghost predicate Follows(h: History, i: History) {
    forall all {:trigger HistoryClosure(all)} :: HistoryClosure(all) && h in all ==> i in all
  }

  lemma StaysSane(s: State, step: Step)
    requires Enabled(s, step)
    ensures Sane(Next(s, step))
  {
  }

  /** In any run at all, what a write call was given is what the pipe has accepted from it and
      then what it still has to write; what a read call has still to read is what it asked
      for without what it has been handed. */
  lemma CallsOverAnyRun(pid: nat, blocks: seq<byte>, h: History)
    requires |blocks| == PIPSIZ && Follows(History(NewPipe(pid, blocks), map[]), h)
    ensures Accounted(h) && Sane(h.now) && Reaches(NewPipe(pid, blocks), h.now, false)
  {
    var start := NewPipe(pid, blocks);
    var good := iset x: History | Accounted(x) && Sane(x.now) && Reaches(start, x.now, false);
    forall x, step | x in good && Enabled(x.now, step) ensures Recorded(x, step) in good {
      RecordedOk(x, step);
      StaysSane(x.now, step);
      OneStep(x.now, step, Next(x.now, step));
    }
    assert HistoryClosure(good);
  }

  /** A pass of WriteP ends the call exactly when the pipe has taken all of it or, with EPIPE,
      nobody is left to read it; it puts the caller to sleep exactly on a locked inode or a full
      pipe; otherwise as much as there is room for goes into the file. */
  lemma WriteEnds(h: History, pid: nat)
    requires Accounted(h) && Enabled(h.now, WriteLoop(pid))
    ensures pid in h.calls && h.calls[pid].WriteCall?
    ensures var s, t, call := h.now, Next(h.now, WriteLoop(pid)), h.calls[pid];
            && (pid !in t.procs <==> !s.lock && (call.taken == call.given || s.count < 2))
            && (pid in t.asleep <==> s.lock || (call.taken != call.given && s.count >= 2 && s.size == PIPSIZ))
            && (pid in t.procs && pid !in t.asleep ==>
                  && t.procs[pid].Writing? && t.lock && t.holder == pid
                  && |t.procs[pid].chunk| == Min(|call.given| - |call.taken|, PIPSIZ - s.size) > 0)
  {
    assert CallOk(h, pid);
    var call, data := h.calls[pid], h.now.procs[pid].data;
    assert call.given == call.taken + data;
    assert |call.given| == |call.taken| + |data|;
    if data == [] { assert call.given == call.taken; }
  }

  /** A pass of ReadP ends the call exactly on an empty pipe that nobody can write; it puts the
      caller to sleep exactly on a locked inode or on an empty pipe with a writer; otherwise
      ReadI starts at the read point. */
  lemma ReadWaits(h: History, pid: nat)
    requires Accounted(h) && Enabled(h.now, ReadLoop(pid))
    ensures pid in h.calls && h.calls[pid].ReadCall?
    ensures var s, t, call := h.now, Next(h.now, ReadLoop(pid)), h.calls[pid];
            && (pid !in t.procs <==> !s.lock && s.offset == s.size && s.count < 2)
            && (pid in t.asleep <==> s.lock || (s.offset == s.size && s.count >= 2))
            && (pid in t.procs && pid !in t.asleep ==>
                  t.procs[pid] == Reading(call.asked, s.offset) && t.lock && t.holder == pid)
  {
    assert CallOk(h, pid);
  }

  /** ReadI goes on, handing over bytes at each turn, until the call has what it asked for or
      the file has nothing left. */
  lemma ReadEndsFull(h: History, pid: nat)
    requires Accounted(h) && Enabled(h.now, ReadStep(pid))
    ensures pid in h.calls && h.calls[pid].ReadCall?
    ensures var s, i, call := h.now, Recorded(h, ReadStep(pid)), h.calls[pid];
            && (pid !in i.now.procs <==> |call.got| == call.asked || s.procs[pid].off >= s.size)
            && (if pid !in i.now.procs then i.calls[pid] == call else |i.calls[pid].got| > |call.got|)
  {
    assert CallOk(h, pid);
    ReadStepGains(h.now, pid);
  }

  // ------------------------------------------------- what a risky step leads to

  lemma OnePortion(s: State, q: nat)
    requires Sane(s) && q in s.procs && s.procs[q].Reading? && s.procs[q].off < s.size && s.procs[q].count > 0
    ensures var k := Portion(s, s.procs[q].count, s.procs[q].off); k > 0 && Reaches(s, Handed(s, q, k), false)
  {
    OneStep(s, ReadStep(q), Handed(s, q, Portion(s, s.procs[q].count, s.procs[q].off)));
  }

  lemma HandedTwice(s: State, q: nat, j: nat, k: nat)
    requires q in s.procs && s.procs[q].Reading? && j + k <= s.procs[q].count && s.procs[q].off + j + k <= |s.buf|
    ensures Handed(Handed(s, q, j), q, k) == Handed(s, q, j + k)
  {
    var off := s.procs[q].off;
    assert s.buf[off..off + (j + k)] == s.buf[off..off + j] + s.buf[off + j..off + (j + k)];
    assert Handed(Handed(s, q, j), q, k).procs == Handed(s, q, j + k).procs;
  }

  lemma HandedNothing(s: State, q: nat)
    requires q in s.procs && s.procs[q].Reading? && s.procs[q].off <= |s.buf|
    ensures Handed(s, q, 0) == s
  {
    assert Handed(s, q, 0).procs == s.procs;
    assert s.delivered + [] == s.delivered;
  }

  /** A reader in ReadI goes on to the end of its count or of the file. */
  lemma {:induction false} Drained(s: State, q: nat)
    requires Sane(s) && q in s.procs && s.procs[q].Reading? && s.procs[q].off <= s.size
    ensures var p := s.procs[q]; Reaches(s, Handed(s, q, Min(p.count, s.size - p.off)), false)
    decreases if q in s.procs && s.procs[q].Reading? then s.procs[q].count else 0
  {
    var p := s.procs[q];
    var n := Min(p.count, s.size - p.off);
    if n == 0 {
      HandedNothing(s, q);
    } else {
      OnePortion(s, q);
      var k := Portion(s, p.count, p.off);
      Drained(Handed(s, q, k), q);
      HandedTwice(s, q, k, n - k);
    }
  }

  /** Process q reads n bytes while nobody has the lock. */
  function ReadBy(s: State, q: nat, n: nat): State
    requires s.offset + n <= |s.buf|
  {
    s.(offset := s.offset + n, procs := s.procs - {q}, holder := q,
       delivered := s.delivered + s.buf[s.offset..s.offset + n])
  }

  lemma ReadEnds(s: State, a: State, q: nat, n: nat)
    requires Sane(s) && !s.lock && q in s.procs && s.procs[q].ReadEntry? && s.offset <= s.size
    requires a == Begun(s, q, Reading(s.procs[q].count, s.offset)) && n == Min(s.procs[q].count, s.size - s.offset)
    ensures Reaches(Handed(a, q, n), ReadBy(s, q, n), false)
  {
    var b := Handed(a, q, n);
    assert ReadDone(b, q).procs == s.procs - {q};
    OneStep(b, ReadStep(q), ReadBy(s, q, n));
  }

  lemma WholeRead(s: State, q: nat)
    requires Sane(s) && !s.lock && q in s.procs && s.procs[q].ReadEntry? && q !in s.asleep && s.offset < s.size
    ensures Reaches(s, ReadBy(s, q, Min(s.procs[q].count, s.size - s.offset)), false)
  {
    var n := Min(s.procs[q].count, s.size - s.offset);
    var a := Begun(s, q, Reading(s.procs[q].count, s.offset));
    OneStep(s, ReadLoop(q), a);
    Drained(a, q);
    ReadEnds(s, a, q, n);
  }

  /** A process that is in no call reads n bytes. */
  lemma CallAndRead(s: State, q: nat, n: nat)
    requires Sane(s) && !s.lock && q !in s.procs && q !in s.asleep && q in s.readers && s.offset + n <= s.size
    requires s.offset < s.size
    ensures Reaches(s, ReadBy(s, q, n), false)
  {
    var a := s.(procs := s.procs[q := ReadEntry(n)]);
    OneStep(s, Enter(q, ReadEntry(n)), a);
    WholeRead(a, q);
    assert a.procs - {q} == s.procs - {q};
  }

  /** Readers p and q are both at the pipe without its lock, p in the middle of ReadI. */
  ghost predicate Loose(s: State, p: nat, q: nat) {
    && Sane(s) && !s.lock && !s.sync.Holding? && s.asleep == map[] && p != q && p in s.readers && q in s.readers
    && p in s.procs && s.procs[p].Reading? && s.procs[p].off <= s.size && s.offset <= s.size
  }

  /** q, if it is in a call, finishes it. */
  lemma QLeaves(s: State, p: nat, q: nat) returns (t: State)
    requires Loose(s, p, q) && s.offset < s.size && (q in s.procs ==> s.procs[q].ReadEntry?)
    ensures Reaches(s, t, false) && Loose(t, p, q) && q !in t.procs && t.procs[p] == s.procs[p] && t.size == s.size
    ensures t.accepted == s.accepted && |t.delivered| - t.offset == |s.delivered| - s.offset && t.offset >= s.offset
  {
    if q in s.procs {
      WholeRead(s, q);
      t := ReadBy(s, q, Min(s.procs[q].count, s.size - s.offset));
    } else {
      t := s;
    }
  }

  /** q reads everything that f_offset, which p has not moved yet, says is unread. */
  lemma QReadsAll(s: State, p: nat, q: nat) returns (t: State)
    requires Loose(s, p, q) && q !in s.procs
    ensures Reaches(s, t, false) && Loose(t, p, q) && t.procs[p] == s.procs[p] && t.size == s.size == t.offset
    ensures t.accepted == s.accepted && |t.delivered| == |s.delivered| + s.size - s.offset
  {
    if s.offset < s.size {
      CallAndRead(s, q, s.size - s.offset);
      t := ReadBy(s, q, s.size - s.offset);
    } else {
      t := s;
    }
  }

  /** p, still at its old place, hands the same bytes out again. */
  lemma PReadsAgain(s: State, p: nat, q: nat) returns (t: State)
    requires Loose(s, p, q) && s.procs[p].off < s.size
    ensures Reaches(s, t, false) && t.accepted == s.accepted && |t.delivered| > |s.delivered|
  {
    if s.procs[p].count == 0 {
      var a := ReadDone(s, p);
      OneStep(s, ReadStep(p), a);
      CallAndRead(a, p, 1);
      t := ReadBy(a, p, 1);
    } else {
      OnePortion(s, p);
      t := Handed(s, p, Portion(s, s.procs[p].count, s.procs[p].off));
    }
  }

  /** p hands out what q has read as well. */
  lemma LooseDuplicates(s: State, p: nat, q: nat) returns (t: State)
    requires Loose(s, p, q) && (q in s.procs ==> s.procs[q].ReadEntry?) && s.offset < s.size
    requires s.offset <= s.procs[p].off && |s.accepted| == |s.delivered| + s.size - s.procs[p].off
    ensures Reaches(s, t, false) && |t.delivered| > |t.accepted|
  {
    var b := QLeaves(s, p, q);
    t := QReadsAll(b, p, q);
    if s.procs[p].off == s.offset { t := PReadsAgain(t, p, q); }
  }

  /** A sync that has lost the lock is still to unlock the inode, there is something to read
      and nobody is reading it. */
  ghost predicate Idle(s: State, p: nat, q: nat) {
    && Sane(s) && !s.lock && s.sync.Stripped? && s.asleep == map[] && p != q && p in s.readers && q in s.readers
    && (p in s.procs ==> s.procs[p].ReadEntry?) && (q in s.procs ==> s.procs[q].ReadEntry?)
    && s.offset < s.size && |s.accepted| == |s.delivered| + s.size - s.offset
  }

  /** p starts to read, and sync takes its lock away. */
  lemma StrippedDuplicates(s: State, p: nat, q: nat) returns (t: State)
    requires Idle(s, p, q)
    ensures Reaches(s, t, false) && |t.delivered| > |t.accepted|
  {
    var a := if p in s.procs then s else s.(procs := s.procs[p := ReadEntry(1)]);
    if p !in s.procs { OneStep(s, Enter(p, ReadEntry(1)), a); }
    var b := Begun(a, p, Reading(a.procs[p].count, a.offset));
    OneStep(a, ReadLoop(p), b);
    OneStep(b, SyncUnlock, SyncEnded(b));
    t := LooseDuplicates(SyncEnded(b), p, q);
  }

  /** What a risky close leaves behind, when it is a reader that loses the lock. */
  lemma RiskyIsLoose(s: State, pid: nat, q: nat)
    requires Inv(s) && Enabled(s, Close(pid, true)) && Risky(s, Close(pid, true)) && ReaderAtWork(s)
    requires q in s.readers && q != s.holder
    ensures var a := Closed(s, pid, true, true);
            && Reaches(s, a, false) && Loose(a, s.holder, q) && (q in a.procs ==> a.procs[q].ReadEntry?)
            && s.offset <= s.procs[s.holder].off <= s.size
            && |s.accepted| == |s.delivered| + s.size - s.procs[s.holder].off
  {
    LastClosedOk(s, pid, true);
    OnlyOpener(s.writers, pid);
    OneStep(s, Close(pid, true), Closed(s, pid, true, true));
    assert Transfers(s, s.holder) && (q in s.procs ==> !Transfers(s, q));
  }

  /** With two readers a transfer needs the lock. */
  lemma NobodyReads(s: State, p: nat, q: nat, r: nat)
    requires Inv(s) && p in s.readers && q in s.readers && p != q && !Guarded(s)
    ensures r in s.procs ==> !s.procs[r].Reading?
  {
    assert Transfers(s, r) ==> Guarded(s) || Alone(s, r);
    assert r in s.procs && s.procs[r].Reading? ==> Transfers(s, r);
  }

  /** ... when it is sync. */
  lemma RiskyIsIdle(s: State, pid: nat, p: nat, q: nat)
    requires Inv(s) && Enabled(s, Close(pid, true)) && Risky(s, Close(pid, true)) && s.sync.Holding?
    requires p in s.readers && q in s.readers && p != q
    ensures var a := Closed(s, pid, true, true); Reaches(s, a, false) && Idle(a, p, q)
  {
    LastClosedOk(s, pid, true);
    OneStep(s, Close(pid, true), Closed(s, pid, true, true));
    OnlyOpener(s.writers, pid);
    NobodyReads(s, p, q, p);
    NobodyReads(s, p, q, q);
    NobodyReads(s, p, q, s.holder);
  }

  lemma ShareIsIdle(s: State, from: nat, to: nat)
    requires Inv(s) && Enabled(s, Share(from, to, false)) && Risky(s, Share(from, to, false))
    ensures var a := Shared(s, to, false); Reaches(s, a, false) && Idle(a, from, to)
  {
    OneStep(s, Share(from, to, false), Shared(s, to, false));
    assert Transfers(s, s.holder) ==> s.holder in s.readers || s.holder in s.writers;
    assert forall r :: r in s.readers ==> r == from;
    assert forall q :: q in s.asleep ==> SleeperOk(s, q);
  }

  /** After a risky step the stream can break: a run follows in which more bytes come out of
      the pipe than ever went in. */
  lemma RiskyDuplicates(s: State, step: Step) returns (t: State)
    requires Inv(s) && Enabled(s, step) && Risky(s, step)
    ensures Reaches(s, t, false) && |t.delivered| > |t.accepted|
  {
    match step
    case Share(from, to, _) =>
      ShareIsIdle(s, from, to);
      t := StrippedDuplicates(Shared(s, to, false), from, to);
    case Close(pid, _) =>
      if ReaderAtWork(s) {
        assert Transfers(s, s.holder);
        var q :| q in s.readers && q != s.holder;
        RiskyIsLoose(s, pid, q);
        t := LooseDuplicates(Closed(s, pid, true, true), s.holder, q);
      } else {
        var p, q :| p in s.readers && q in s.readers && p != q;
        RiskyIsIdle(s, pid, p, q);
        t := StrippedDuplicates(Closed(s, pid, true, true), p, q);
      }
  }

  /** Process 1 has written a byte and let its child 2 start to read it. */
  function ByteBeingRead(blocks: seq<byte>, x: byte): State
    requires |blocks| == PIPSIZ
  {
    State(1, 0, 2, {1, 2}, {1}, [x] + blocks[1..], false, false, true, false, 2, NotHere,
      map[2 := Reading(1, 0)], map[], [x], [])
  }

  lemma ByteIsRead(blocks: seq<byte>, x: byte)
    requires |blocks| == PIPSIZ
    ensures Reaches(NewPipe(1, blocks), ByteBeingRead(blocks, x), false)
  {
    var s1 := NewPipe(1, blocks).(readers := {1, 2});
    OneStep(NewPipe(1, blocks), Share(1, 2, false), s1);
    ByteIsWritten(s1, x);
    var s2 := Accepting(s1, x);
    var s3 := s2.(procs := map[2 := ReadEntry(1)]);
    OneStep(s2, Enter(2, ReadEntry(1)), s3);
    OneStep(s3, ReadLoop(2), ByteBeingRead(blocks, x));
  }

  function Accepting(s: State, x: byte): State
    requires |s.buf| == PIPSIZ
  {
    s.(holder := 1, size := 1, buf := [x] + s.buf[1..], accepted := [x])
  }

  lemma ByteIsWritten(s: State, x: byte)
    requires Sane(s) && !s.lock && s.sync.NotHere? && s.size == 0 && s.count == 2
    requires s.procs == map[] && s.asleep == map[] && 1 in s.writers
    requires s.accepted == [] && !s.iread
    ensures Reaches(s, Accepting(s, x), false)
  {
    var s1 := s.(procs := map[1 := WriteEntry([x])]);
    OneStep(s, Enter(1, WriteEntry([x])), s1);
    var s2 := s.(procs := map[1 := Writing([x], [])], lock := true, holder := 1);
    assert [x][..1] == [x] && [x][1..] == [];
    assert WriteLooped(s1, 1) == s2;
    OneStep(s1, WriteLoop(1), s2);
    ByteIsStored(s, s2, x);
  }

  lemma ByteIsStored(s: State, s2: State, x: byte)
    requires Sane(s) && !s.lock && s.sync.NotHere? && s.size == 0 && s.count == 2
    requires s.procs == map[] && s.asleep == map[] && 1 in s.writers
    requires s.accepted == [] && !s.iread
    requires s2 == s.(procs := map[1 := Writing([x], [])], lock := true, holder := 1)
    ensures Reaches(s2, Accepting(s, x), false)
  {
    var s3 := Accepting(s, x).(procs := map[1 := WriteEntry([])]);
    assert [x][..1] == [x] && s.buf[..0] == [];
    assert WriteStepped(s2, 1) == s3;
    OneStep(s2, WriteStep(1), s3);
    assert Left(s3, 1) == Accepting(s, x);
    OneStep(s3, WriteLoop(1), Accepting(s, x));
  }

  /** Such a run starts from a new pipe: process 1 closes the write end while 2 is reading
      and 1 still has the read end open. */
  lemma StreamCanBreak(blocks: seq<byte>, x: byte) returns (t: State)
    requires |blocks| == PIPSIZ
    ensures Reaches(NewPipe(1, blocks), t, false) && |t.delivered| > |t.accepted|
  {
    var s := ByteBeingRead(blocks, x);
    ByteIsRead(blocks, x);
    assert Inv(s);
    assert 1 in s.readers;
    t := RiskyDuplicates(s, Close(1, true));
  }

  /** Another one: process 1 closes the write end while sync has the inode locked, before
      anybody reads the byte. */
  lemma SyncCanBreak(blocks: seq<byte>, x: byte) returns (t: State)
    requires |blocks| == PIPSIZ
    ensures Reaches(NewPipe(1, blocks), t, false) && |t.delivered| > |t.accepted|
  {
    var s1 := NewPipe(1, blocks).(readers := {1, 2});
    OneStep(NewPipe(1, blocks), Share(1, 2, false), s1);
    ByteIsWritten(s1, x);
    var s2 := Accepting(s1, x);
    var s3 := SyncBegun(s2);
    OneStep(s2, SyncLock, s3);
    assert Inv(s3);
    assert 1 in s3.readers && 2 in s3.readers && !OneReader(s3);
    t := RiskyDuplicates(s3, Close(1, true));
  }

  class PipeInode {
    var i_size: nat
    var f_offset: nat                     // of the read end's File
    var i_count: nat                      // open ends
    var readers: set<nat>               // the processes that have each File open
    var writers: set<nat>
    var buf: seq<byte>                    // the file's six blocks
    var iread: bool                       // i_mode & IREAD
    var iwrite: bool
    var ilock: bool                       // i_flag & ILOCK
    var iwant: bool
    var procs: map<nat, Proc>             // processes inside ReadP or WriteP
    var asleep: map<nat, Chan>
    ghost var holder: nat
    ghost var sync: Sync                  // where UpdateInodeTable is
    ghost var accepted: seq<byte>
    ghost var delivered: seq<byte>

    ghost function Now(): State
      reads this
    {
      State(i_size, f_offset, i_count, readers, writers, buf, iread, iwrite, ilock, iwant, holder, sync, procs,
            asleep, accepted, delivered)
    }

    constructor (pid: nat, blocks: seq<byte>)
      requires |blocks| == PIPSIZ
      ensures Now() == NewPipe(pid, blocks) && Inv(Now())
    {
      i_size, f_offset, i_count, buf := 0, 0, 2, blocks;
      readers, writers := {pid}, {pid};
      iread, iwrite, ilock, iwant := false, false, false, false;
      procs, asleep, holder, sync, accepted, delivered := map[], map[], 0, NotHere, [], [];
    }

    method WakeUpAll(chan: Chan)
      modifies this`asleep
      ensures asleep == Woken(old(asleep), chan)
    {
      asleep := Woken(asleep, chan);
    }

    method Prele()
      modifies this`ilock, this`iwant, this`sync, this`asleep
      ensures !ilock && !iwant && sync == Preled(old(sync))
      ensures asleep == if old(iwant) then Woken(old(asleep), OnLock) else old(asleep)
    {
      ilock := false;
      sync := Preled(sync);
      if iwant {
        iwant := false;
        WakeUpAll(OnLock);
      }
    }

    /** A process calls read or write on the pipe. */
    method Enter(pid: nat, call: Proc)
      requires pid !in procs && !call.InTransfer() && pid in if call.WriteEntry? then writers else readers
      modifies this`procs
      ensures Now() == old(Now()).(procs := old(procs)[pid := call])
    {
      procs := procs[pid := call];
    }

    /** A child inherits an end. */
    method Share(from: nat, to: nat, writeEnd: bool)
      requires from !in procs && to !in procs && from in (if writeEnd then writers else readers)
      requires to !in if writeEnd then writers else readers
      modifies this`readers, this`writers
      ensures Now() == Shared(old(Now()), to, writeEnd)
      ensures readers == (if writeEnd then old(readers) else old(readers) + {to})
      ensures writers == (if writeEnd then old(writers) + {to} else old(writers))
    {
      if writeEnd {
        writers := writers + {to};
      } else {
        readers := readers + {to};
      }
    }

    /** Plock: false when the caller went to sleep on a locked inode. */
    method Plock(pid: nat) returns (ok: bool)
      modifies this`ilock, this`iwant, this`asleep
      ensures ok <==> !old(ilock)
      ensures ok ==> Now() == old(Now()).(lock := true)
      ensures !ok ==> Now() == Slept(old(Now()), pid, OnLock)
    {
      if ilock {
        iwant := true;
        asleep := asleep[pid := OnLock];
        return false;
      }
      ilock := true;
      return true;
    }

    /** The part of ReadP that finds nothing left to read in the file. */
    method Restart()
      requires f_offset == i_size
      modifies this`f_offset, this`i_size, this`iwrite, this`asleep
      ensures Now() == Restarted(old(Now()))
    {
      if f_offset != 0 {
        f_offset, i_size := 0, 0;
        if iwrite {
          iwrite := false;
          WakeUpAll(OnWrite);
        }
      }
    }

    /** ReadP with the lock on an empty pipe: at its end when no writer has it open, else
        asleep until there is data. */
    method ReadNothing(pid: nat, ghost s: State)
      requires Sane(s) && !s.lock && !s.sync.Holding? && Now() == s.(lock := true)
      requires f_offset == i_size && pid !in asleep
      modifies this
      ensures Now() == if s.count < 2 then Left(Restarted(s), pid) else Slept(Restarted(s), pid, OnRead)
    {
      Restart();
      Prele();
      assert Now() == Restarted(s);
      if i_count < 2 {
        procs := procs - {pid};
        assert asleep == asleep - {pid};
      } else {
        iread := true;
        asleep := asleep[pid := OnRead];
      }
    }

    method Begin(pid: nat, p: Proc)
      requires ilock
      modifies this`procs, this`holder
      ensures Now() == Begun(old(Now()), pid, p)
    {
      holder := pid;
      procs := procs[pid := p];
    }

    /** ReadP from its label to the next sleep, to the start of a transfer, or to its
        return at the end of a pipe that no writer has open. */
    method ReadLoop(pid: nat)
      requires Enabled(Now(), Step.ReadLoop(pid))
      modifies this
      ensures Now() == Next(old(Now()), Step.ReadLoop(pid))
    {
      ghost var s := Now();
      var locked := Plock(pid);
      if locked {
        if f_offset == i_size {
          ReadNothing(pid, s);
        } else {
          Begin(pid, Reading(procs[pid].count, f_offset));
        }
      }
    }

    /** One turn of ReadI's loop: bytes are handed over in the order they were written. */
    method ReadSome(pid: nat) returns (bytes: seq<byte>)
      requires pid in procs && procs[pid].Reading? && procs[pid].count != 0 && procs[pid].off < i_size <= |buf|
      modifies this`procs, this`delivered
      ensures bytes != [] && delivered == old(delivered) + bytes
      ensures Now() == Handed(old(Now()), pid, Portion(old(Now()), old(procs)[pid].count, old(procs)[pid].off))
    {
      var off, count := procs[pid].off, procs[pid].count;
      var n := Min(Min(BLOCK_SIZE - off % BLOCK_SIZE, count), i_size - off);
      bytes := buf[off..off + n];
      procs := procs[pid := Reading(count - n, off + n)];
      delivered := delivered + bytes;
    }

    /** A step of a reader in ReadI; when the count or the data is used up, ReadP ends. */
    method ReadStep(pid: nat) returns (bytes: seq<byte>)
      requires Enabled(Now(), Step.ReadStep(pid))
      modifies this
      ensures Now() == Next(old(Now()), Step.ReadStep(pid)) && delivered == old(delivered) + bytes
    {
      bytes := [];
      if procs[pid].count == 0 || procs[pid].off >= i_size {
        f_offset := procs[pid].off;
        Prele();
        procs := procs - {pid};
      } else {
        bytes := ReadSome(pid);
      }
    }

    /** WriteP from its label to the next sleep, to the start of a transfer, or to its
        return: everything is written, or (EPIPE) no reader is left. */
    method WriteLoop(pid: nat) returns (epipe: bool)
      requires Enabled(Now(), Step.WriteLoop(pid))
      modifies this
      ensures Now() == Next(old(Now()), Step.WriteLoop(pid))
      ensures epipe <==> !old(ilock) && old(procs)[pid].data != [] && old(i_count) < 2
    {
      epipe := false;
      ghost var s := Now();
      var locked := Plock(pid);
      if locked {
        var data := procs[pid].data;
        if data == [] || i_count < 2 {
          epipe := data != [];
          WriteReturns(pid, s);
        } else if i_size == PIPSIZ {
          WriteSleeps(pid, s);
        } else {
          var n := Min(|data|, PIPSIZ - i_size);
          Begin(pid, Writing(data[..n], data[n..]));
        }
      }
    }

    /** WriteP unlocks and is done. */
    method WriteReturns(pid: nat, ghost s: State)
      requires Sane(s) && !s.lock && Now() == s.(lock := true) && pid !in asleep
      modifies this
      ensures Now() == Left(s, pid)
    {
      Prele();
      procs := procs - {pid};
      assert asleep == asleep - {pid};
    }

    /** WriteP unlocks and waits for room. */
    method WriteSleeps(pid: nat, ghost s: State)
      requires Sane(s) && !s.lock && Now() == s.(lock := true)
      modifies this
      ensures Now() == Slept(s, pid, OnWrite)
    {
      iwrite := true;
      Prele();
      asleep := asleep[pid := OnWrite];
    }

    /** The end of WriteP's pass: unlock, and wake readers that found nothing. */
    method FinishChunk()
      modifies this`ilock, this`iwant, this`sync, this`iread, this`asleep
      ensures Now() == WriteDone(old(Now()))
    {
      Prele();
      if iread {
        iread := false;
        WakeUpAll(OnRead);
      }
    }

    /** WriteI copies n bytes of the chunk to the end of the file. */
    method Store(pid: nat, n: nat, p: Proc)
      requires pid in procs && procs[pid].Writing? && n <= |procs[pid].chunk| && i_size + n <= |buf|
      modifies this`buf, this`i_size, this`accepted, this`procs
      ensures Now() == Stored(old(Now()), pid, n, p)
    {
      var chunk := procs[pid].chunk;
      buf := buf[..i_size] + chunk[..n] + buf[i_size + n..];
      i_size := i_size + n;
      accepted := accepted + chunk[..n];
      procs := procs[pid := p];
    }

    /** A step of a writer in WriteI, one block at most; with the last byte of the chunk
        it is back at WriteP's label, and everybody is awake. */
    method WriteStep(pid: nat)
      requires Enabled(Now(), Step.WriteStep(pid))
      modifies this
      ensures Now() == Next(old(Now()), Step.WriteStep(pid))
    {
      var p := procs[pid];
      var n := Min(BLOCK_SIZE - i_size % BLOCK_SIZE, |p.chunk|);
      if n < |p.chunk| {
        Store(pid, n, Writing(p.chunk[n..], p.data));
      } else {
        Store(pid, n, WriteEntry(p.data));
        FinishChunk();
      }
    }

    /** IPut on an inode that stays: the count goes down and the lock goes. */
    method IPut()
      modifies this`i_count, this`ilock, this`iwant, this`sync, this`asleep
      ensures i_count == (if old(i_count) > 0 then old(i_count) - 1 else 0) && !ilock && !iwant
      ensures sync == Preled(old(sync))
      ensures asleep == if old(iwant) then Woken(old(asleep), OnLock) else old(asleep)
    {
      i_count := if i_count > 0 then i_count - 1 else 0;
      Prele();
    }

    method WakeEnds()
      modifies this`iread, this`iwrite, this`asleep
      ensures !iread && !iwrite && asleep == Woken(Woken(old(asleep), OnWrite), OnRead)
    {
      iread, iwrite := false, false;
      WakeUpAll(OnWrite);
      WakeUpAll(OnRead);
    }

    method Remove(pid: nat, writeEnd: bool) returns (count: nat)
      modifies this`readers, this`writers
      ensures count == |old(Openers(Now(), writeEnd))|
      ensures readers == if writeEnd then old(readers) else old(readers) - {pid}
      ensures writers == if writeEnd then old(writers) - {pid} else old(writers)
    {
      if writeEnd {
        count := |writers|;
        writers := writers - {pid};
      } else {
        count := |readers|;
        readers := readers - {pid};
      }
    }

    /** CloseF on one end of the pipe; f_count is taken down last. */
    method CloseF(pid: nat, writeEnd: bool)
      requires pid !in procs && pid in if writeEnd then writers else readers
      modifies this
      ensures Now() == Closed(old(Now()), pid, writeEnd, |old(Openers(Now(), writeEnd))| <= 1)
    {
      WakeEnds();
      var count := Remove(pid, writeEnd);
      if count <= 1 {
        IPut();
      }
    }

    /** UpdateInodeTable, up to IUpdate: an inode that is locked is left alone. */
    method SyncBegin() returns (ok: bool)
      requires sync.NotHere?
      modifies this`ilock, this`sync
      ensures ok <==> !old(ilock) && i_count != 0
      ensures Now() == if ok then SyncBegun(old(Now())) else old(Now())
    {
      ok := !ilock && i_count != 0;
      if ok {
        ilock, sync := true, Holding;
      }
    }

    /** ... and from its return on. */
    method SyncEnd()
      modifies this`ilock, this`iwant, this`sync, this`asleep
      ensures Now() == SyncEnded(old(Now()))
    {
      Prele();
      sync := NotHere;
    }

    /** A signal ends a sleep (they are all at priority PPIPE) and with it the call, whether it
        comes before or after the wake-up. */
    method Signal(pid: nat)
      requires pid in procs && !procs[pid].InTransfer()
      modifies this`procs, this`asleep
      ensures Now() == Left(old(Now()), pid)
    {
      procs := procs - {pid};
      asleep := asleep - {pid};
    }
  }
}
