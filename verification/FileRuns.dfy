/** Several files on one volume: whatever is done to one of them, in whatever order, each
    behaves as a byte array of its own. */
module FileRuns {
  import opened Common
  import opened DiskBlocks
  import opened FreeChain
  import opened VolumeState
  import opened VolumeSteps
  import opened VolumeSpace
  import opened VolumeBytes
  import opened FileBlocks

  datatype FileOp =
    | Write(file: nat, off: nat, data: seq<byte>)
    | Read(file: nat, off: nat, count: nat)
    | Truncate(file: nat)

  /** What an operation that transfers got bytes makes of the file it names. */
  ghost function Apply(bytes: seq<byte>, op: FileOp, got: nat): seq<byte> {
    match op
    case Write(_, off, data) => if got <= |data| then Overlay(bytes, off, data[..got]) else bytes
    case Read(_, _, _) => bytes
    case Truncate(_) => []
  }

  /** What it returns. */
  ghost function Answer(bytes: seq<byte>, op: FileOp, got: nat): seq<byte> {
    if op.Read? then Part(bytes, op.off, got) else []
  }

  /** How many bytes it is to transfer, from or to a file of this size. */
  function Wanted(op: FileOp, size: nat): nat {
    match op
    case Write(_, _, data) => |data|
    case Read(_, off, count) => if off >= size then 0 else Min(count, size - off)
    case Truncate(_) => 0
  }

  function At(op: FileOp): nat {
    if op.Truncate? then 0 else op.off
  }

  /** How many of them it does transfer. */
  ghost function Got(v: Vol, n: nat, op: FileOp, size: nat): nat
    requires n in v.addrs && |v.addrs[n]| == NADDR
  {
    if op.Truncate? then 0 else Transferred(v, n, At(op), Wanted(op, size))
  }

  /** It does not enter Alloc again after Alloc has failed. */
  ghost predicate Possible(v: Vol, n: nat, op: FileOp, size: nat)
    requires n in v.addrs && |v.addrs[n]| == NADDR
  {
    op.Truncate? || Enterable(v, n, At(op) / BLOCK_SIZE, Blocks(At(op), Wanted(op, size)))
  }

  /** It leaves an index block unwritten. */
  ghost predicate Tears(v: Vol, n: nat, op: FileOp, size: nat)
    requires n in v.addrs && |v.addrs[n]| == NADDR
  {
    !op.Truncate? && Torn(v, n, At(op) / BLOCK_SIZE, Blocks(At(op), Wanted(op, size)))
  }

  /** In-core inodes of different files of the volume, between operations. */
  ghost predicate AllReady(fs: FileSystem, files: seq<Inode>)
    reads fs, files
  {
    && (forall i :: 0 <= i < |files| ==> files[i].fs == fs && files[i].Ready())
    && forall i, j :: 0 <= i < j < |files| ==> files[i].ino != files[j].ino
  }

  ghost predicate SpareFile(v: Vol, w: Vol, m: nat) {
    m in v.addrs && m in w.addrs && |v.addrs[m]| == NADDR && |w.addrs[m]| == NADDR && SameBytes(v, w, m)
  }

  ghost predicate OthersSame(v: Vol, w: Vol, n: nat) {
    forall m {:trigger SpareFile(v, w, m)} :: m in v.addrs && m != n ==> SpareFile(v, w, m)
  }

  lemma OverwriteSpares(v: Vol, w: Vol, n: nat, off: nat, d: seq<byte>)
    requires Overwrites(v, w, n, off, d)
    ensures OthersSame(v, w, n)
  {
    forall m | m in v.addrs && m != n ensures SpareFile(v, w, m) {
      forall o: nat ensures ByteAt(w, m, o) == ByteAt(v, m, o) {}
    }
  }

  lemma GrownSpares(v: Vol, w: Vol, n: nat)
    requires forall m :: m in v.addrs && m != n ==> GrownFor(v, w, m)
    ensures OthersSame(v, w, n)
  {
    forall m | m in v.addrs && m != n ensures SpareFile(v, w, m) { GrownForBytes(v, w, m); }
  }

  lemma EndedIs(v: Vol, w: Vol, n: nat, op: FileOp, size: nat, got: nat, torn: bool)
    requires !op.Truncate? && Ended(v, w, n, At(op), Wanted(op, size), got, torn)
    ensures n in v.addrs && |v.addrs[n]| == NADDR && got == Got(v, n, op, size) && (torn <==> Tears(v, n, op, size))
  {
    EndedMeans(v, w, n, At(op), Wanted(op, size), got, torn);
  }

  method WriteOn(f: Inode, op: FileOp) returns (got: nat, torn: bool)
    requires op.Write? && f.Ready() && Possible(f.fs.State(), f.ino, op, f.i_size)
    modifies f, f.fs
    ensures f.Ready() && f.fs.addrs == old(f.fs.addrs)[f.ino := f.i_addr]
    ensures f.Bytes() == Apply(old(f.Bytes()), op, got) && Answer(old(f.Bytes()), op, got) == []
    ensures got == old(Got(f.fs.State(), f.ino, op, f.i_size))
    ensures torn <==> old(Tears(f.fs.State(), f.ino, op, f.i_size))
    ensures OthersSame(old(f.fs.State()), f.fs.State(), f.ino)
  {
    ghost var v, size := f.fs.State(), f.i_size;
    got, torn := f.WriteI(op.off, op.data);
    EndedIs(v, f.fs.State(), f.ino, op, size, got, torn);
    OverwriteSpares(v, f.fs.State(), f.ino, op.off, op.data[..got]);
  }

  method ReadOn(f: Inode, op: FileOp) returns (data: seq<byte>, torn: bool)
    requires op.Read? && f.Ready() && Possible(f.fs.State(), f.ino, op, f.i_size)
    modifies f, f.fs
    ensures f.Ready() && f.fs.addrs == old(f.fs.addrs)[f.ino := f.i_addr]
    ensures f.Bytes() == old(f.Bytes()) && data == Answer(old(f.Bytes()), op, |data|)
    ensures |data| == old(Got(f.fs.State(), f.ino, op, f.i_size))
    ensures torn <==> old(Tears(f.fs.State(), f.ino, op, f.i_size))
    ensures OthersSame(old(f.fs.State()), f.fs.State(), f.ino)
  {
    ghost var v, size := f.fs.State(), f.i_size;
    data, torn := f.ReadI(op.off, op.count);
    EndedIs(v, f.fs.State(), f.ino, op, size, |data|, torn);
    GrownSpares(v, f.fs.State(), f.ino);
  }

  /** The operation on its own file. */
  method PerformOn(f: Inode, op: FileOp) returns (got: nat, data: seq<byte>, torn: bool)
    requires f.Ready() && Possible(f.fs.State(), f.ino, op, f.i_size)
    modifies f, f.fs
    ensures f.Ready() && f.fs.addrs == old(f.fs.addrs)[f.ino := f.i_addr]
    ensures f.Bytes() == Apply(old(f.Bytes()), op, got) && data == Answer(old(f.Bytes()), op, got)
    ensures got == old(Got(f.fs.State(), f.ino, op, f.i_size))
    ensures torn <==> old(Tears(f.fs.State(), f.ino, op, f.i_size))
    ensures OthersSame(old(f.fs.State()), f.fs.State(), f.ino)
  {
    match op {
      case Write(_, _, _) =>
        got, torn := WriteOn(f, op);
        data := [];
      case Read(_, _, _) =>
        data, torn := ReadOn(f, op);
        got := |data|;
      case Truncate(_) =>
        got, data, torn := 0, [], false;
        ghost var v := f.fs.State();
        f.ITrunc();
        GrownSpares(v, f.fs.State(), f.ino);
    }
  }

  // -------------------------------------------------------------- one volume

  /** The volume and what its files hold. */
  datatype Snap = Snap(vol: Vol, contents: seq<seq<byte>>)

  /** The files of the volume, by their inode numbers. */
  ghost predicate Names(s: Snap, inos: seq<nat>) {
    |s.contents| == |inos| && forall i :: 0 <= i < |inos| ==> inos[i] in s.vol.addrs && |s.vol.addrs[inos[i]]| == NADDR
  }

  /** One operation on one of the files: it does to that file what it would do to a byte
      array, as far as there are blocks for it; all the others keep their bytes, and every
      data block still has one owner. */
  ghost predicate Performed(s: Snap, t: Snap, inos: seq<nat>, op: FileOp, got: nat, answer: seq<byte>) {
    && Names(s, inos) && Names(t, inos) && op.file < |inos| && Settled(t.vol)
    && var bytes := s.contents[op.file];
       && Possible(s.vol, inos[op.file], op, |bytes|) && got == Got(s.vol, inos[op.file], op, |bytes|)
       && t.contents == s.contents[op.file := Apply(bytes, op, got)] && answer == Answer(bytes, op, got)
  }

  /** The files hold these bytes. */
  ghost predicate HoldBytes(fs: FileSystem, files: seq<Inode>, contents: seq<seq<byte>>)
    requires AllReady(fs, files)
    reads fs, files
  {
    |contents| == |files| && forall i :: 0 <= i < |files| ==> files[i].Bytes() == contents[i]
  }

  ghost function Numbers(files: seq<Inode>): (inos: seq<nat>)
    ensures |inos| == |files| && forall i :: 0 <= i < |files| ==> inos[i] == files[i].ino
  {
    seq(|files|, i requires 0 <= i < |files| => files[i].ino)
  }

  method Perform(fs: FileSystem, files: seq<Inode>, op: FileOp, ghost contents: seq<seq<byte>>)
    returns (got: nat, data: seq<byte>, torn: bool, ghost after: seq<seq<byte>>)
    requires AllReady(fs, files) && HoldBytes(fs, files, contents) && op.file < |files|
    requires Possible(fs.State(), files[op.file].ino, op, files[op.file].i_size)
    modifies fs, files
    ensures AllReady(fs, files) && HoldBytes(fs, files, after)
    ensures Performed(Snap(old(fs.State()), contents), Snap(fs.State(), after), Numbers(files), op, got, data)
    ensures torn <==> old(Tears(fs.State(), files[op.file].ino, op, files[op.file].i_size))
  {
    ghost var v := fs.State();
    got, data, torn := PerformOn(files[op.file], op);
    after := contents[op.file := files[op.file].Bytes()];
    forall i | 0 <= i < |files| && i != op.file
      ensures files[i].Ready() && files[i].Bytes() == old(files[i].Bytes())
    {
      assert SpareFile(v, fs.State(), files[i].ino);
      SameContents(v, fs.State(), files[i].ino, files[i].i_size);
    }
  }

  // -------------------------------------------------------------------- runs

  /** Byte arrays, one for each file, after operations that transferred so many bytes each. */
  ghost function ApplyAll(contents: seq<seq<byte>>, ops: seq<FileOp>, got: seq<nat>): (r: seq<seq<byte>>)
    requires |got| <= |ops| && forall op :: op in ops ==> op.file < |contents|
    ensures |r| == |contents|
  {
    if got == [] then contents
    else
      var k := |got| - 1;
      var before := ApplyAll(contents, ops, got[..k]);
      assert ops[k] in ops;
      before[ops[k].file := Apply(before[ops[k].file], ops[k], got[k])]
  }

  /** The states a run has gone through. */
  ghost predicate Traced(trace: seq<Snap>, inos: seq<nat>, ops: seq<FileOp>, got: seq<nat>, answers: seq<seq<byte>>) {
    && |got| == |answers| <= |ops| && |trace| == |got| + 1
    && forall i :: 0 <= i < |got| ==> Performed(trace[i], trace[i + 1], inos, ops[i], got[i], answers[i])
  }

  lemma TraceGoesOn(trace: seq<Snap>, inos: seq<nat>, ops: seq<FileOp>, got: seq<nat>, answers: seq<seq<byte>>,
      t: Snap, n: nat, answer: seq<byte>)
    requires Traced(trace, inos, ops, got, answers) && |got| < |ops|
    requires Performed(trace[|got|], t, inos, ops[|got|], n, answer)
    ensures Traced(trace + [t], inos, ops, got + [n], answers + [answer])
  {
  }

  lemma {:induction false} TraceIsApplied(trace: seq<Snap>, inos: seq<nat>, ops: seq<FileOp>, got: seq<nat>,
      answers: seq<seq<byte>>)
    requires Traced(trace, inos, ops, got, answers) && forall op :: op in ops ==> op.file < |trace[0].contents|
    ensures trace[|got|].contents == ApplyAll(trace[0].contents, ops, got)
  {
    if got != [] {
      var k := |got| - 1;
      assert Performed(trace[k], trace[k + 1], inos, ops[k], got[k], answers[k]) && ops[k] in ops;
      TraceIsApplied(trace[..k + 1], inos, ops, got[..k], answers[..k]);
    }
  }

  /** Every read returned what it would from the byte arrays. */
  lemma AnswersApplied(trace: seq<Snap>, inos: seq<nat>, ops: seq<FileOp>, got: seq<nat>, answers: seq<seq<byte>>,
      i: nat)
    requires Traced(trace, inos, ops, got, answers) && i < |got|
    requires forall op :: op in ops ==> op.file < |trace[0].contents|
    ensures ops[i].file < |trace[0].contents|
    ensures answers[i] == Answer(ApplyAll(trace[0].contents, ops, got[..i])[ops[i].file], ops[i], got[i])
  {
    assert ops[i] in ops && Performed(trace[i], trace[i + 1], inos, ops[i], got[i], answers[i]);
    TraceIsApplied(trace[..i + 1], inos, ops, got[..i], answers[..i]);
  }

  /** What a run breaks off at: an operation that would enter Alloc again after it failed,
      or one that has left an index block unwritten. */
  ghost predicate BreaksOff(trace: seq<Snap>, inos: seq<nat>, ops: seq<FileOp>, k: nat) {
    && k < |trace| && k < |ops| && Names(trace[k], inos) && ops[k].file < |inos|
    && var bytes := trace[k].contents[ops[k].file];
       !Possible(trace[k].vol, inos[ops[k].file], ops[k], |bytes|)
  }

  ghost predicate Tore(trace: seq<Snap>, inos: seq<nat>, ops: seq<FileOp>, k: nat) {
    && k < |trace| && k < |ops| && Names(trace[k], inos) && ops[k].file < |inos|
    && var bytes := trace[k].contents[ops[k].file];
       Tears(trace[k].vol, inos[ops[k].file], ops[k], |bytes|)
  }

  /** Any series of reads, writes and truncations of any of the files, with the disk filling
      up on the way or not: the files end up as so many byte arrays would, and every read
      returns what it would from them. got[i] is the number of bytes operation i transferred,
      which Performed gives exactly. The run breaks off only at an operation that would enter
      Alloc again after it failed, or after one that left an index block unwritten. */
  method Run(fs: FileSystem, files: seq<Inode>, ops: seq<FileOp>, ghost contents: seq<seq<byte>>)
    returns (got: seq<nat>, answers: seq<seq<byte>>, ghost trace: seq<Snap>)
    requires AllReady(fs, files) && HoldBytes(fs, files, contents)
    requires forall op :: op in ops ==> op.file < |files|
    modifies fs, files
    ensures Traced(trace, Numbers(files), ops, got, answers) && |contents| == |files|
    ensures AllReady(fs, files) && HoldBytes(fs, files, ApplyAll(contents, ops, got))
    ensures trace[0] == Snap(old(fs.State()), contents) && trace[|got|].vol == fs.State()
    ensures |got| < |ops| ==>
              BreaksOff(trace, Numbers(files), ops, |got|) || (got != [] && Tore(trace, Numbers(files), ops, |got| - 1))
  {
    got, answers, trace := [], [], [Snap(fs.State(), contents)];
    ghost var now := contents;
    while |got| < |ops|
      invariant Traced(trace, Numbers(files), ops, got, answers)
      invariant AllReady(fs, files) && HoldBytes(fs, files, now)
      invariant trace[0] == Snap(old(fs.State()), contents) && trace[|got|] == Snap(fs.State(), now)
    {
      var op := ops[|got|];
      var possible := IsPossible(files[op.file], op);
      if !possible {
        break;
      }
      var n, data, torn;
      n, data, torn, now := Perform(fs, files, op, now);
      TraceGoesOn(trace, Numbers(files), ops, got, answers, Snap(fs.State(), now), n, data);
      got, answers, trace := got + [n], answers + [data], trace + [Snap(fs.State(), now)];
      if torn {
        break;
      }
    }
    TraceIsApplied(trace, Numbers(files), ops, got, answers);
  }

  /** With a block in the table, or a block behind every byte the operation touches. */
  method IsPossible(f: Inode, op: FileOp) returns (ok: bool)
    requires f.Ready()
    ensures ok <==> Possible(f.fs.State(), f.ino, op, f.i_size)
  {
    if op.Truncate? || f.fs.s_nfree >= 1 {
      return true;
    }
    var lo, hi := At(op) / BLOCK_SIZE, Blocks(At(op), Wanted(op, f.i_size));
    AllMappedIsRoom(f.fs.State(), f.ino, lo, hi);
    ok := AllMapped(f.i_addr, f.fs.disk, lo, hi);
  }
}
