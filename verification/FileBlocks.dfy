/** FileSystem (Alloc, Free) and the block-mapping half of Inode (Bmap, ITrunc). The
    buffer cache is taken as transparent, so a buffer is the block it caches. */
module FileBlocks {
  import opened Common
  import opened DiskBlocks
  import opened FreeChain
  import opened VolumeState
  import opened VolumeSteps
  import opened VolumeBytes
  import opened VolumeSpace
  import opened VolumeTruncate

  class FileSystem {
    var s_nfree: nat
    var s_free: seq<nat>
    var disk: seq<Block>
    ghost var stack: seq<nat>                 // the free blocks, next to go last
    ghost var addrs: map<nat, seq<nat>>       // i_addr of every inode of the volume
    ghost var owner: map<nat, Owner>

    ghost function State(): Vol
      reads this
    {
      Vol(Super(s_nfree, s_free), disk, stack, addrs, owner)
    }

    /** The super-block half of Alloc: an exhausted table is refilled from the block taken. */
    method TakeFromTable() returns (r: Option<nat>)
      requires TableOk(Super(s_nfree, s_free)) && 1 <= s_nfree <= GROUP && |disk| == NSECTOR
      requires s_free[s_nfree - 1] < NSECTOR
      modifies this`s_nfree, this`s_free
      ensures (r, Super(s_nfree, s_free)) == Pop(old(Super(s_nfree, s_free)), Tables(disk))
    {
      s_nfree := s_nfree - 1;
      var blkno := s_free[s_nfree];
      if blkno == 0 {
        s_nfree := 0;
        return None;
      }
      if s_nfree <= 0 {
        s_nfree := GroupCount(disk[blkno]);
        s_free := GroupTable(disk[blkno]);
      }
      return Some(blkno);
    }

    /** Takes the next free block and clears it. On an empty chain it reports ENOSPC and
        leaves s_nfree at 0; it must not be entered in that state, where it would read
        s_free[-1]. */
    method Alloc() returns (r: Option<nat>)
      requires Owned(State()) && s_nfree >= 1
      modifies this`s_nfree, this`s_free, this`disk, this`stack, this`owner
      ensures Owned(State())
      ensures r.None? <==> old(stack) == []
      ensures r.None? ==> stack == [] && State() == old(State()).(super := old(State()).super.(nfree := 0))
      ensures r.Some? ==> State() == Take(old(State())) && r.value == old(stack)[|old(stack)| - 1]
      ensures r.Some? ==>
                && r.value < |old(disk)| && disk == old(disk)[r.value := ZeroBlock()]
                && stack == old(stack)[..|old(stack)| - 1] && addrs == old(addrs)
    {
      ghost var v := State();
      TopInRange(v);
      r := TakeFromTable();
      if r.None? {
        EmptyStep(v, State());
        return;
      }
      TakeStep(v);
      disk := disk[r.value := ZeroBlock()];
      stack := stack[..|stack| - 1];
      owner := owner[r.value := Held];
      assert State() == Take(v);
    }

    /** The super-block half of Free: a full table moves into the block being freed. */
    method PutInTable(blkno: nat)
      requires TableOk(Super(s_nfree, s_free)) && s_nfree <= GROUP && blkno < |disk|
      modifies this`s_nfree, this`s_free, this`disk
      ensures |disk| == |old(disk)| && disk == old(disk)[blkno := disk[blkno]]
      ensures Super(s_nfree, s_free) == Push(old(Super(s_nfree, s_free)), blkno).0
      ensures disk[blkno] == Pushed(old(Super(s_nfree, s_free)), blkno, old(disk)[blkno])
    {
      if s_nfree <= 0 {
        s_nfree := 1;
        s_free := s_free[0 := 0];
      }
      if s_nfree >= GROUP {
        disk := disk[blkno := WithGroup(disk[blkno], s_nfree, s_free)];
        s_nfree := 0;
      }
      s_free := s_free[s_nfree := blkno];
      s_nfree := s_nfree + 1;
    }

    /** Puts a block back on the chain. */
    method Free(blkno: nat)
      requires Owned(State()) && InZone(blkno) && blkno in owner && owner[blkno] == Held
      modifies this`s_nfree, this`s_free, this`disk, this`stack, this`owner
      ensures TableOk(old(State()).super) && old(State()).super.nfree <= GROUP && blkno < |old(disk)|
      ensures Owned(State()) && State() == Give(old(State()), blkno)
      ensures stack == old(stack) + [blkno] && addrs == old(addrs) && disk == old(disk)[blkno := disk[blkno]]
    {
      GiveStep(State(), blkno);
      PutInTable(blkno);
      stack := stack + [blkno];
      owner := owner[blkno := OnChain(|stack| - 1)];
    }
  }

  /** The entry Alloc takes is the end mark or a block of the disk. */
  lemma TopInRange(v: Vol)
    requires Owned(v) && v.super.nfree >= 1
    ensures TableOk(v.super) && v.super.nfree <= GROUP && v.super.free[v.super.nfree - 1] < NSECTOR
    ensures Pop(v.super, Tables(v.disk)).0.None? <==> v.stack == []
    ensures v.stack != [] ==> Pop(v.super, Tables(v.disk)).0 == Some(v.stack[|v.stack| - 1])
    ensures v.stack == [] ==> Pop(v.super, Tables(v.disk)).1 == v.super.(nfree := 0)
  {
    OwnedStack(v);
    ChainOf(v);
    PopTakesTop(v.super, Tables(v.disk), v.stack);
  }

  lemma EmptyStep(v: Vol, w: Vol)
    requires Owned(v) && v.stack == [] && w == v.(super := v.super.(nfree := 0))
    ensures Owned(w)
  {
    forall n, p | n in w.addrs && ValidPath(p) ensures SlotOwned(w, n, p) { assert SlotOwned(v, n, p); }
    forall b: nat | InZone(b) ensures OwnerTrue(w, b) { assert OwnerTrue(v, b); }
    ChainOf(v);
    ChainIs(w);
  }

  lemma TakeHolds(v: Vol)
    requires Owned(v) && v.stack != [] && v.super.nfree >= 1
    ensures var b := v.stack[|v.stack| - 1]; var w := Take(v);
            && InZone(b) && w.owner == v.owner[b := Held] && b in v.owner && v.owner[b] != Held
            && w.disk[b] == ZeroBlock() && w.addrs == v.addrs && w.stack == v.stack[..|v.stack| - 1]
  {
  }

  lemma AllocCombines(v: Vol, w: Vol, x: Vol, n: nat, p: Path, b: nat)
    requires GrownOnly(v, w) && GrownOnly(w, x) && w.addrs == v.addrs && OnlySlot(w, x, n, p)
    requires forall m :: m in v.addrs ==> |v.addrs[m]| == NADDR
    requires forall m, q :: m in v.addrs && ValidPath(q) ==>
             BlkAt(v.addrs[m], w.disk, q) == BlkAt(v.addrs[m], v.disk, q)
    requires w.owner == v.owner[b := Held] && b in v.owner
    requires v.owner[b] != Held && x.owner == w.owner[b := InFile(n, p)]
    ensures GrownOnly(v, x) && OnlySlot(v, x, n, p) && SameHeld(v, x)
  {
    GrownTrans(v, w, x);
    AllocLeavesRest(v, w, x, n, p);
  }

  lemma AllocLeavesRest(v: Vol, w: Vol, x: Vol, n: nat, p: Path)
    requires w.addrs == v.addrs && OnlySlot(w, x, n, p)
    requires forall m :: m in v.addrs ==> |v.addrs[m]| == NADDR
    requires forall m, q :: m in v.addrs && ValidPath(q) ==>
             BlkAt(v.addrs[m], w.disk, q) == BlkAt(v.addrs[m], v.disk, q)
    ensures OnlySlot(v, x, n, p)
  {
  }

  /** Alloc on an empty chain moves nothing. */
  lemma EmptyEnsured(v: Vol, w: Vol, n: nat, p: Path)
    requires Owned(v) && v.stack == [] && w == v.(super := v.super.(nfree := 0)) && n in v.addrs && ValidPath(p)
    requires BlkAt(v.addrs[n], v.disk, p) == 0
    ensures Owned(w) && Ensured(v, w, n, p, 0, false)
  {
    EmptyStep(v, w);
    forall m, q | m in v.addrs && ValidPath(q) ensures SlotGrown(v, w, m, q) {}
  }

  lemma StackNotZero(v: Vol)
    requires ChainOwned(v)
    ensures forall i :: 0 <= i < |v.stack| ==> v.stack[i] != 0
  {
  }

  /** What looking for the block of a logical block gives. */
  ghost predicate BlockGiven(v: Vol, w: Vol, n: nat, lbn: nat, hi: nat, bn: nat, torn: bool)
    requires n in v.addrs && |v.addrs[n]| == NADDR
  {
    && GrownOnly(v, w)
    && if lbn >= HUGE_FILE_BLOCK then bn == 0 && !torn && w == v
       else if Spare(v, n, lbn, lbn + 1) >= 0 then
         && Backed(w, n, lbn, bn) && !torn && Going(v, w, n, lbn, lbn + 1, hi)
         && (v.super.nfree >= 1 ==> w.super.nfree >= 1)
       else bn == 0 && w.stack == [] && (torn <==> v.stack != [])
  }

  lemma WalkedGives(v: Vol, w: Vol, n: nat, lbn: nat, hi: nat, bn: nat, torn: bool)
    requires lbn < HUGE_FILE_BLOCK && Walked(v, w, n, PathOf(lbn), bn, torn) && ChainOwned(v) && Owned(w) && lbn < hi
    ensures BlockGiven(v, w, n, lbn, hi, bn, torn)
  {
    var p := PathOf(lbn);
    StackNotZero(v);
    NoRoomFor(v, n, lbn);
    if Missing(v, n, p) <= |v.stack| {
      WalkedFills(v, w, n, p, bn, torn);
      assert SlotOwned(w, n, p);
      FilledGoes(v, w, n, lbn, hi);
    } else {
      NothingGiven(v, n, p);
    }
  }

  /** The chunk copied into the block it was given. */
  lemma ChunkLands(v: Vol, w: Vol, n: nat, off: nat, chunk: seq<byte>, k: nat, hi: nat, bn: nat, size: nat)
    requires Owned(v) && Owned(w) && n in v.addrs && Padded(v, n, size) && k < hi
    requires BlockGiven(v, w, n, k, hi, bn, false) && bn != 0 && Enterable(w, n, k + 1, hi)
    requires 0 < |chunk| && off % BLOCK_SIZE + |chunk| <= BLOCK_SIZE && k == off / BLOCK_SIZE
    ensures bn < |w.disk|
    ensures var x := Poke(w, bn, Patch(w.disk[bn], off % BLOCK_SIZE, chunk));
            && Owned(x) && ChunkDone(v, x, n, off, chunk, k, hi, true, false)
            && Padded(x, n, Max(size, off + |chunk|))
  {
    var x := Poke(w, bn, Patch(w.disk[bn], off % BLOCK_SIZE, chunk));
    PatchStep(v, w, n, off, chunk, bn);
    OverwriteContents(v, x, n, off, chunk, size);
    ChunkIsDone(v, w, x, n, off, chunk, k, hi);
  }

  lemma ChunkComes(v: Vol, w: Vol, n: nat, off: nat, nbytes: nat, k: nat, hi: nat, bn: nat)
    requires n in v.addrs && |v.addrs[n]| == NADDR && Owned(w) && k == off / BLOCK_SIZE < hi
    requires BlockGiven(v, w, n, k, hi, bn, false) && bn != 0 && Enterable(w, n, k + 1, hi)
    requires 0 < nbytes && off % BLOCK_SIZE + nbytes <= BLOCK_SIZE
    ensures bn < |w.disk|
    ensures ChunkRead(v, w, n, off, nbytes, w.disk[bn][off % BLOCK_SIZE..off % BLOCK_SIZE + nbytes], k, hi, false)
  {
    ChunkBytes(w, n, off, nbytes, bn);
    ChunkReadIs(v, w, n, off, nbytes, BytesFrom(w, n, off, nbytes), k, hi);
  }

  lemma ChunkIsDone(v: Vol, w: Vol, x: Vol, n: nat, off: nat, chunk: seq<byte>, k: nat, hi: nat)
    requires n in v.addrs && |v.addrs[n]| == NADDR && off < MAX_BYTES && Overwrites(v, x, n, off, chunk)
    requires SlotsSame(w, x, n) && x.super == w.super && Going(v, w, n, k, k + 1, hi) && Enterable(w, n, k + 1, hi)
    requires k == off / BLOCK_SIZE
    ensures ChunkDone(v, x, n, off, chunk, k, hi, true, false)
  {
    StillGoing(v, w, x, n, k, k + 1, hi);
    ChunkDoneIs(v, x, n, off, chunk, k, hi);
  }

  lemma ChunkLost(v: Vol, w: Vol, n: nat, off: nat, chunk: seq<byte>, k: nat, hi: nat, torn: bool)
    requires n in v.addrs && |v.addrs[n]| == NADDR && k == off / BLOCK_SIZE && BlockGiven(v, w, n, k, hi, 0, torn)
    ensures ChunkDone(v, w, n, off, chunk, k, hi, false, torn)
  {
  }

  /** The size of a file of `size` bytes once n bytes are written at off. */
  ghost predicate Grows(size: nat, off: nat, n: nat, z: nat) {
    z == if n == 0 then size else Max(size, off + n)
  }

  ghost predicate Relinked(v: Vol, n: nat, addr: seq<nat>, a: map<nat, seq<nat>>) {
    a == v.addrs[n := addr]
  }

  lemma EmptyReads(v: Vol, n: nat, o: nat)
    requires n in v.addrs && |v.addrs[n]| == NADDR && forall i :: 0 <= i < NADDR ==> v.addrs[n][i] == 0
    ensures ByteAt(v, n, o) == 0
  {
  }

  /** What Bmap answers is what is in place afterwards, and what was in place before. */
  lemma WalkedReads(v: Vol, w: Vol, n: nat, lbn: nat, b: nat, torn: bool)
    requires lbn < HUGE_FILE_BLOCK && Walked(v, w, n, PathOf(lbn), b, torn)
    ensures b == BlockOf(w.addrs[n], w.disk, lbn)
    ensures BlockOf(v.addrs[n], v.disk, lbn) != 0 ==> b == BlockOf(v.addrs[n], v.disk, lbn) && w.stack == v.stack
  {
    var p := PathOf(lbn);
    BlockOfIs(v.addrs[n], v.disk, lbn);
    BlockOfIs(w.addrs[n], w.disk, lbn);
    assert OnWay(p, p);
    assert SlotGrown(v, w, n, p);
    if BlkAt(v.addrs[n], v.disk, p) != 0 {
      GapBelow(v, n, p);
    }
  }

  class Inode {
    const fs: FileSystem
    const ino: nat
    var i_addr: seq<nat>
    var i_size: nat

    ghost predicate Mapped()
      reads this, fs
    {
      Owned(fs.State()) && ino in fs.addrs && fs.addrs[ino] == i_addr
    }

    /** No stale byte lies past the end of the file. */
    ghost predicate Sized()
      requires Mapped()
      reads this, fs
    {
      Padded(fs.State(), ino, i_size)
    }

    /** The state between two operations on the file. */
    ghost predicate Ready()
      reads this, fs
    {
      Mapped() && Settled(fs.State()) && Sized()
    }

    /** What the file holds. */
    ghost function Bytes(): seq<byte>
      requires Mapped()
      reads this, fs
    {
      Contents(fs.State(), ino, i_size)
    }

    /** A cleared inode (Inode.Clean) joins the volume. */
    constructor (fs: FileSystem, ino: nat)
      requires Owned(fs.State()) && ino !in fs.addrs
      modifies fs`addrs
      ensures Mapped() && Sized() && this.fs == fs && this.ino == ino && i_size == 0
      ensures fs.addrs == old(fs.addrs)[ino := i_addr] && forall i :: 0 <= i < NADDR ==> i_addr[i] == 0
    {
      this.fs := fs;
      this.ino := ino;
      i_addr := seq(NADDR, _ => 0);
      i_size := 0;
      new;
      ghost var v := fs.State();
      fs.addrs := fs.addrs[ino := i_addr];
      forall n, p | n in fs.addrs && ValidPath(p) ensures SlotOwned(fs.State(), n, p) {
        if n != ino { assert SlotOwned(v, n, p); }
      }
      forall b: nat | InZone(b) ensures OwnerTrue(fs.State(), b) { assert OwnerTrue(v, b); }
      forall o: nat ensures ByteAt(fs.State(), ino, o) == 0 { EmptyReads(fs.State(), ino, o); }
    }

    /** A fresh block for the empty slot p, 0 when there is none; the caller links it. */
    method AllocFor(ghost p: Path) returns (b: nat)
      requires Mapped() && ValidPath(p) && BlkAt(i_addr, fs.disk, p) == 0 && fs.s_nfree >= 1
      requires !p.Top? ==> BlkAt(i_addr, fs.disk, Parent(p)) != 0
      modifies fs`s_nfree, fs`s_free, fs`disk, fs`stack, fs`owner
      ensures Mapped() && (b == 0 <==> old(fs.stack) == [])
      ensures forall q :: ValidPath(q) ==> BlkAt(i_addr, fs.disk, q) == BlkAt(i_addr, old(fs.disk), q)
      ensures b == 0 ==> Ensured(old(fs.State()), fs.State(), ino, p, 0, false)
      ensures b != 0 ==> InZone(b) && b == old(fs.stack)[|old(fs.stack)| - 1]
      ensures b != 0 ==> Owned(Link(fs.State(), ino, p, b))
      ensures b != 0 ==> Ensured(old(fs.State()), Link(fs.State(), ino, p, b), ino, p, b, true)
    {
      ghost var v := fs.State();
      if fs.stack != [] {
        TakeStep(v);
        TakeHolds(v);
      }
      var r := fs.Alloc();
      ghost var w := fs.State();
      if r.None? {
        EmptyEnsured(v, w, ino, p);
        return 0;
      }
      b := r.value;
      if !p.Top? { assert ValidPath(Parent(p)) && BlkAt(w.addrs[ino], w.disk, Parent(p)) != 0; }
      LinkStep(w, ino, p, b);
      AllocCombines(v, w, Link(w, ino, p, b), ino, p, b);
    }

    /** Entry i of i_addr, allocated when it is empty. */
    method EnsureEntry(i: nat) returns (b: nat, took: bool)
      requires Mapped() && i < NADDR
      requires i_addr[i] == 0 ==> fs.s_nfree >= 1
      modifies this`i_addr, fs
      ensures Mapped() && fs.addrs == old(fs.addrs)[ino := i_addr]
      ensures Ensured(old(fs.State()), fs.State(), ino, Top(i), b, took)
    {
      GrownRefl(fs.State());
      b, took := i_addr[i], false;
      if b == 0 {
        b := AllocFor(Top(i));
        if b == 0 {
          return;
        }
        ghost var w := fs.State();
        took := true;
        i_addr := i_addr[i := b];
        fs.addrs := fs.addrs[ino := i_addr];
        fs.owner := fs.owner[b := InFile(ino, Top(i))];
        assert fs.State() == Link(w, ino, Top(i), b);
      }
    }

    /** Entry j of the index block t, which slot p names, allocated when it is empty. */
    method EnsureWord(t: nat, j: nat, ghost p: Path) returns (b: nat, took: bool)
      requires Mapped() && j < WORDS && ValidPath(p) && !p.Top?
      requires t == BlkAt(i_addr, fs.disk, Parent(p)) != 0 && j == (if p.Mid? then p.j else p.k)
      requires BlkAt(i_addr, fs.disk, p) == 0 ==> fs.s_nfree >= 1
      modifies fs
      ensures Mapped() && fs.addrs == old(fs.addrs)
      ensures Ensured(old(fs.State()), fs.State(), ino, p, b, took)
    {
      assert SlotOwned(fs.State(), ino, Parent(p));
      GrownRefl(fs.State());
      b, took := WordAt(fs.disk[t], j), false;
      if b == 0 {
        b := AllocFor(p);
        if b == 0 {
          return;
        }
        ghost var w := fs.State();
        took := true;
        fs.disk := fs.disk[t := WithWord(fs.disk[t], j, b)];
        fs.owner := fs.owner[b := InFile(ino, p)];
        assert fs.State() == Link(w, ino, p, b);
      }
    }

    /** A block of a large file: i_addr entry, then one word of the index block. */
    method MapSingle(i: nat, j: nat) returns (b: nat, took: bool, torn: bool)
      requires Mapped() && ValidPath(Mid(i, j)) && (fs.s_nfree >= 1 || Missing(fs.State(), ino, Mid(i, j)) == 0)
      modifies this`i_addr, fs
      ensures Mapped() && fs.addrs == old(fs.addrs)[ino := i_addr]
      ensures Walked(old(fs.State()), fs.State(), ino, Mid(i, j), b, torn)
      ensures b != 0 ==> (took <==> old(BlkAt(i_addr, fs.disk, Mid(i, j))) == 0)
    {
      ghost var v := fs.State();
      StackNotZero(v);
      var first, fresh1 := EnsureEntry(i);
      ghost var w := fs.State();
      WalkedTop(v, w, ino, i, first, fresh1);
      if first == 0 {
        WalkedStop(v, w, ino, Mid(i, j), false);
        return 0, false, false;
      }
      NextEnterable(v, w, ino, Mid(i, j), first, false);
      b, took := EnsureWord(first, j, Mid(i, j));
      torn := b == 0 && fresh1;
      WalkedDown(v, w, fs.State(), ino, Mid(i, j), first, false, b, took);
    }

    /** A block of a huge file: one more index block on the way. */
    method MapDouble(i: nat, j: nat, k: nat) returns (b: nat, torn: bool)
      requires Mapped() && ValidPath(Leaf(i, j, k)) && (fs.s_nfree >= 1 || Missing(fs.State(), ino, Leaf(i, j, k)) == 0)
      modifies this`i_addr, fs
      ensures Mapped() && fs.addrs == old(fs.addrs)[ino := i_addr]
      ensures Walked(old(fs.State()), fs.State(), ino, Leaf(i, j, k), b, torn)
    {
      ghost var v := fs.State();
      StackNotZero(v);
      var first, fresh2, stop := MapSingle(i, j);
      ghost var w := fs.State();
      if first == 0 {
        WalkedStop(v, w, ino, Leaf(i, j, k), stop);
        return 0, stop;
      }
      NextEnterable(v, w, ino, Leaf(i, j, k), first, stop);
      var took;
      b, took := EnsureWord(first, k, Leaf(i, j, k));
      torn := b == 0 && fresh2;
      WalkedDown(v, w, fs.State(), ino, Leaf(i, j, k), first, stop, b, took);
    }

    /** Maps a logical block to its physical block, allocating whatever is missing on the
        way as long as there are free blocks. Existing slots and bytes of every file stay as
        they are. torn: an index block was allocated, but no block for its first entry; it
        stays in the file and is released without being written. */
    method Bmap(lbn: nat) returns (b: nat, torn: bool)
      requires Mapped()
      requires lbn < HUGE_FILE_BLOCK ==> fs.s_nfree >= 1 || Missing(fs.State(), ino, PathOf(lbn)) == 0
      modifies this`i_addr, fs
      ensures Mapped() && fs.addrs == old(fs.addrs)[ino := i_addr]
      ensures lbn >= HUGE_FILE_BLOCK ==> b == 0 && !torn && fs.State() == old(fs.State()) && i_addr == old(i_addr)
      ensures lbn < HUGE_FILE_BLOCK ==> Walked(old(fs.State()), fs.State(), ino, PathOf(lbn), b, torn)
      ensures lbn < HUGE_FILE_BLOCK ==> b == BlockOf(i_addr, fs.disk, lbn)
      ensures lbn < HUGE_FILE_BLOCK && old(BlockOf(i_addr, fs.disk, lbn)) != 0 ==>
                b == old(BlockOf(i_addr, fs.disk, lbn)) && fs.stack == old(fs.stack)
    {
      if lbn >= HUGE_FILE_BLOCK {
        return 0, false;
      }
      ghost var v := fs.State();
      var took;
      if lbn < SMALL_FILE_BLOCK {
        b, took := EnsureEntry(lbn);
        torn := false;
        WalkedTop(v, fs.State(), ino, lbn, b, took);
      } else if lbn < LARGE_FILE_BLOCK {
        var index := (lbn - SMALL_FILE_BLOCK) / WORDS + 6;
        b, took, torn := MapSingle(index, (lbn - SMALL_FILE_BLOCK) % WORDS);
      } else {
        var index := (lbn - LARGE_FILE_BLOCK) / (WORDS * WORDS) + 8;
        b, torn := MapDouble(index, (lbn - LARGE_FILE_BLOCK) / WORDS % WORDS, (lbn - LARGE_FILE_BLOCK) % WORDS);
      }
      WalkedReads(v, fs.State(), ino, lbn, b, torn);
    }

    // --------------------------------------------------------- ReadI, WriteI

    /** The block of a logical block about to be transferred. */
    method BlockFor(lbn: nat, ghost hi: nat) returns (bn: nat, torn: bool)
      requires Mapped() && Settled(fs.State()) && lbn < hi && Enterable(fs.State(), ino, lbn, hi)
      modifies this`i_addr, fs
      ensures Mapped() && Settled(fs.State()) && fs.addrs == old(fs.addrs)[ino := i_addr]
      ensures BlockGiven(old(fs.State()), fs.State(), ino, lbn, hi, bn, torn)
      ensures bn != 0 ==> Enterable(fs.State(), ino, lbn + 1, hi)
    {
      ghost var v := fs.State();
      GrownRefl(v);
      if lbn < HUGE_FILE_BLOCK {
        NoRoomFor(v, ino, lbn);
        SpareShrinks(v, ino, lbn, lbn + 1, hi);
        if v.super.nfree == 0 { assert v.stack == []; }
      }
      bn, torn := Bmap(lbn);
      if lbn < HUGE_FILE_BLOCK {
        WalkedGives(v, fs.State(), ino, lbn, hi, bn, torn);
        if bn != 0 { assert Spare(fs.State(), ino, lbn + 1, hi) == Spare(v, ino, lbn, hi); }
      }
    }

    /** One turn of WriteI's loop: the bytes of one block, or nothing: EFBIG when the block
        number is out of range, ENOSPC when there is no block. A whole block needs no read
        before it is overwritten. */
    method WriteChunk(off: nat, chunk: seq<byte>, ghost lbn: nat, ghost hi: nat) returns (ok: bool, torn: bool)
      requires Ready()
      requires 0 < |chunk| && off % BLOCK_SIZE + |chunk| <= BLOCK_SIZE
      requires lbn == off / BLOCK_SIZE < hi && Enterable(fs.State(), ino, lbn, hi)
      modifies this`i_addr, this`i_size, fs
      ensures Ready() && fs.addrs == old(fs.addrs)[ino := i_addr]
      ensures ChunkDone(old(fs.State()), fs.State(), ino, off, chunk, lbn, hi, ok, torn) && (ok ==> !torn)
      ensures i_size == if ok then Max(old(i_size), off + |chunk|) else old(i_size)
    {
      ghost var v := fs.State();
      var bn;
      bn, torn := BlockFor(off / BLOCK_SIZE, hi);
      ghost var w := fs.State();
      if bn == 0 {
        GrownSame(v, w, ino, i_size);
        ChunkLost(v, w, ino, off, chunk, lbn, hi, torn);
        return false, torn;
      }
      ChunkLands(v, w, ino, off, chunk, lbn, hi, bn, i_size);
      var block := if |chunk| == BLOCK_SIZE then chunk else Patch(fs.disk[bn], off % BLOCK_SIZE, chunk);
      fs.disk := fs.disk[bn := block];
      if |chunk| == BLOCK_SIZE { WholePatch(w.disk[bn], off % BLOCK_SIZE, chunk); }
      assert fs.State() == Poke(w, bn, Patch(w.disk[bn], off % BLOCK_SIZE, chunk));
      if i_size < off + |chunk| {
        i_size := off + |chunk|;
      }
      return true, false;
    }

    /** The inode is that of a file of `size` bytes in which n bytes are in place at off. */
    ghost predicate Stored(v: Vol, off: nat, n: nat, size: nat)
      reads this, fs
    {
      forall z :: Grows(size, off, n, z) ==> Ready() && fs.addrs == v.addrs[ino := i_addr] && i_size == z
    }

    /** One turn of WriteI's loop, with what it does to the write as a whole. */
    method WriteSome(off: nat, data: seq<byte>, n: nat, ghost k: nat, nbytes: nat, ghost v: Vol, ghost size: nat)
      returns (ok: bool, torn: bool)
      requires Stored(v, off, n, size) && Writing(v, fs.State(), ino, off, data, n, k) && n < |data|
      requires nbytes == Min(BLOCK_SIZE - (off + n) % BLOCK_SIZE, |data| - n)
      modifies this`i_addr, this`i_size, fs
      ensures ok ==> n + nbytes <= |data| && Writing(v, fs.State(), ino, off, data, n + nbytes, k + 1)
      ensures ok ==> Stored(v, off, n + nbytes, size)
      ensures !ok ==> Wrote(v, fs.State(), ino, off, data, n, torn) && Stored(v, off, n, size)
    {
      ghost var w := fs.State();
      assert Grows(size, off, n, if n == 0 then size else Max(size, off + n));
      WriteComes(v, w, ino, off, data, n, k, nbytes);
      ok, torn := WriteChunk(off + n, data[n..n + nbytes], k, Blocks(off, |data|));
      WriteTurns(v, w, fs.State(), ino, off, data, n, k, nbytes, ok, torn);
      assert Ready() && fs.addrs == v.addrs[ino := i_addr];
    }

    /** WriteI's loop. */
    method WriteAll(off: nat, data: seq<byte>, ghost v: Vol, ghost size: nat) returns (n: nat, torn: bool)
      requires Stored(v, off, 0, size) && Writing(v, fs.State(), ino, off, data, 0, off / BLOCK_SIZE)
      modifies this`i_addr, this`i_size, fs
      ensures Stored(v, off, n, size) && Wrote(v, fs.State(), ino, off, data, n, torn)
    {
      n, torn := 0, false;
      ghost var k: nat := off / BLOCK_SIZE;
      var count: nat := |data|;
      while count != 0
        invariant n + count == |data|
        invariant Stored(v, off, n, size) && Writing(v, fs.State(), ino, off, data, n, k) && !torn
        decreases count
      {
        var nbytes := Min(BLOCK_SIZE - (off + n) % BLOCK_SIZE, count);
        var ok;
        ok, torn := WriteSome(off, data, n, k, nbytes, v, size);
        if !ok {
          return;
        }
        torn := false;
        n := n + nbytes;
        k := k + 1;
        count := count - nbytes;
      }
      WriteEnds(v, fs.State(), ino, off, data, k);
    }

    /** Writes data at offset off, growing the file as needed, until it is all written, the
        file has its largest size or the disk is full. The file then reads as its old bytes,
        zero-filled up to off and overlaid with what was written. */
    method WriteI(off: nat, data: seq<byte>) returns (n: nat, torn: bool)
      requires Ready() && Enterable(fs.State(), ino, off / BLOCK_SIZE, Blocks(off, |data|))
      modifies this`i_addr, this`i_size, fs
      ensures Ready() && fs.addrs == old(fs.addrs)[ino := i_addr]
      ensures Ended(old(fs.State()), fs.State(), ino, off, |data|, n, torn) && n <= |data|
      ensures Bytes() == Overlay(old(Bytes()), off, data[..n])
      ensures Overwrites(old(fs.State()), fs.State(), ino, off, data[..n])
      ensures Complete(old(fs.State()), ino, off, |data|, n, torn)
      ensures i_size == if n == 0 then old(i_size) else Max(old(i_size), off + n)
    {
      ghost var v, size := fs.State(), i_size;
      WriteStarts(v, ino, off, data);
      n, torn := WriteAll(off, data, v, size);
      assert Grows(size, off, n, if n == 0 then size else Max(size, off + n));
      WroteMeans(v, fs.State(), ino, off, data, n, torn);
      WrittenContents(v, fs.State(), ino, off, data[..n], size);
      EndedComplete(v, fs.State(), ino, off, |data|, n, torn);
    }

    /** One turn of ReadI's loop. Reading a hole gives it a block, and no byte changes. */
    method ReadChunk(off: nat, nbytes: nat, ghost lbn: nat, ghost hi: nat)
      returns (chunk: seq<byte>, torn: bool)
      requires Mapped() && Settled(fs.State())
      requires 0 < nbytes && off % BLOCK_SIZE + nbytes <= BLOCK_SIZE && off < MAX_BYTES
      requires lbn == off / BLOCK_SIZE < hi && Enterable(fs.State(), ino, lbn, hi)
      modifies this`i_addr, fs
      ensures Mapped() && Settled(fs.State()) && fs.addrs == old(fs.addrs)[ino := i_addr]
      ensures ChunkRead(old(fs.State()), fs.State(), ino, off, nbytes, chunk, lbn, hi, torn)
    {
      ghost var v := fs.State();
      var bn;
      bn, torn := BlockFor(off / BLOCK_SIZE, hi);
      if bn == 0 {
        NoChunkRead(v, fs.State(), ino, off, nbytes, lbn, hi, torn);
        return [], torn;
      }
      ChunkComes(v, fs.State(), ino, off, nbytes, lbn, hi, bn);
      chunk := fs.disk[bn][off % BLOCK_SIZE..off % BLOCK_SIZE + nbytes];
    }

    ghost predicate Fetching(v: Vol)
      reads this, fs
    {
      forall a :: Relinked(v, ino, i_addr, a) ==> Mapped() && Settled(fs.State()) && fs.addrs == a
    }

    method ReadSome(off: nat, ghost count: nat, data: seq<byte>, ghost k: nat, nbytes: nat, ghost v: Vol)
      returns (more: seq<byte>, torn: bool)
      requires Fetching(v) && Reading(v, fs.State(), ino, off, count, data, k)
      requires |data| < count && off + count <= MAX_BYTES
      requires nbytes == Min(BLOCK_SIZE - (off + |data|) % BLOCK_SIZE, count - |data|)
      modifies this`i_addr, fs
      ensures Fetching(v)
      ensures |more| > |data| ==> |more| == |data| + nbytes && Reading(v, fs.State(), ino, off, count, more, k + 1)
      ensures |more| <= |data| ==> more == data && DidRead(v, fs.State(), ino, off, count, data, torn)
    {
      ghost var w := fs.State();
      assert Relinked(v, ino, i_addr, v.addrs[ino := i_addr]);
      ReadComes(v, w, ino, off, count, data, k, nbytes);
      var chunk;
      chunk, torn := ReadChunk(off + |data|, nbytes, k, Blocks(off, count));
      if chunk == [] {
        ReadStops(v, w, fs.State(), ino, off, count, data, k, nbytes, torn);
        return data, torn;
      }
      ReadGoesOn(v, w, fs.State(), ino, off, count, data, chunk, k, nbytes);
      more := data + chunk;
    }

    /** How much of count bytes at offset off the file has. */
    function Available(off: nat, count: nat): nat
      reads this
    {
      if off >= i_size then 0 else Min(count, i_size - off)
    }

    /** Reads count bytes at offset off, or what the file has of them, until the disk is too
        full to give a hole on the way a block. */
    method ReadI(off: nat, count: nat) returns (data: seq<byte>, torn: bool)
      requires Ready() && Enterable(fs.State(), ino, off / BLOCK_SIZE, Blocks(off, Available(off, count)))
      modifies this`i_addr, fs
      ensures Ready() && fs.addrs == old(fs.addrs)[ino := i_addr]
      ensures Ended(old(fs.State()), fs.State(), ino, off, old(Available(off, count)), |data|, torn)
      ensures |data| <= Available(off, count)
      ensures data == Part(old(Bytes()), off, |data|)
      ensures Bytes() == old(Bytes()) && forall m :: m in fs.addrs ==> GrownFor(old(fs.State()), fs.State(), m)
      ensures off < i_size ==> Complete(old(fs.State()), ino, off, Min(count, i_size - off), |data|, torn)
    {
      ghost var v := fs.State();
      ghost var avail := Available(off, count);
      data, torn := ReadAll(off, count, v);
      assert Relinked(v, ino, i_addr, v.addrs[ino := i_addr]);
      DidReadMeans(v, fs.State(), ino, off, avail, data, torn);
      GrownSame(v, fs.State(), ino, i_size);
      BytesAreContents(v, ino, off, |data|, i_size);
      EndedComplete(v, fs.State(), ino, off, avail, |data|, torn);
    }

    /** ReadI's loop. */
    method ReadAll(off: nat, count: nat, ghost v: Vol) returns (data: seq<byte>, torn: bool)
      requires Ready() && v == fs.State()
      requires Enterable(fs.State(), ino, off / BLOCK_SIZE, Blocks(off, Available(off, count)))
      modifies this`i_addr, fs
      ensures Fetching(v) && DidRead(v, fs.State(), ino, off, Available(off, count), data, torn)
    {
      ghost var avail := Available(off, count);
      ghost var k: nat := off / BLOCK_SIZE;
      ReadStarts(v, ino, off, avail);
      data, torn := [], false;
      var left: nat := count;
      while left != 0
        invariant |data| + left == count && |data| <= avail && !torn
        invariant Fetching(v) && Reading(v, fs.State(), ino, off, avail, data, k)
        decreases left
      {
        if i_size <= off + |data| {
          break;
        }
        var nbytes := Min(Min(BLOCK_SIZE - (off + |data|) % BLOCK_SIZE, left), i_size - (off + |data|));
        var more;
        more, torn := ReadSome(off, avail, data, k, nbytes, v);
        if |more| == |data| {
          return;
        }
        torn := false;
        data := more;
        left := left - nbytes;
        k := k + 1;
      }
      ReadEnds(v, fs.State(), ino, off, avail, data, k);
    }

    // --------------------------------------------------------------- ITrunc

    /** One leaf of table (i, j). */
    method FreeLeaf(table: nat, i: nat, j: nat, k: nat, ghost v: Vol, ghost freed: seq<nat>)
      requires Settled(v) && Owned(fs.State()) && 8 <= i < NADDR && j < WORDS && k < WORDS
      requires Freeing(v, fs.State(), ino, i, Todo(j, true, k + 1), freed)
      requires table == At(v, ino, Mid(i, j)) != 0
      modifies fs
      ensures Owned(fs.State())
      ensures Freeing(v, fs.State(), ino, i, Todo(j, true, k), freed + One(At(v, ino, Leaf(i, j, k))))
    {
      WordReads(v, fs.State(), ino, i, Todo(j, true, k + 1), freed, Leaf(i, j, k));
      var b := WordAt(fs.disk[table], k);
      HandleLeaf(v, fs.State(), ino, i, j, k, freed);
      if b != 0 {
        fs.Free(b);
      }
    }

    /** The third-level loop: every leaf of table (i, j), last first. */
    method FreeLeaves(table: nat, i: nat, j: nat, ghost v: Vol, ghost freed: seq<nat>)
      requires Settled(v) && Owned(fs.State()) && 8 <= i < NADDR && j < WORDS
      requires Freeing(v, fs.State(), ino, i, Todo(j, true, WORDS), freed)
      requires table == At(v, ino, Mid(i, j)) != 0
      modifies fs
      ensures Owned(fs.State())
      ensures Freeing(v, fs.State(), ino, i, Todo(j, true, 0), freed + LeavesDown(v, ino, i, j, 0))
    {
      assert freed + LeavesDown(v, ino, i, j, WORDS) == freed;
      for k := WORDS downto 0
        invariant Owned(fs.State())
        invariant Freeing(v, fs.State(), ino, i, Todo(j, true, k), freed + LeavesDown(v, ino, i, j, k))
      {
        ghost var done := freed + LeavesDown(v, ino, i, j, k + 1);
        FreeLeaf(table, i, j, k, v, done);
        assert freed + LeavesDown(v, ino, i, j, k) == done + One(At(v, ino, Leaf(i, j, k)));
      }
    }

    /** One second-level slot, with its leaves when it is a table. */
    method FreeMid(b: nat, i: nat, j: nat, ghost v: Vol, ghost freed: seq<nat>)
      requires Settled(v) && Owned(fs.State()) && 6 <= i < NADDR && j < WORDS
      requires Freeing(v, fs.State(), ino, i, Todo(j + 1, false, 0), freed)
      requires b == At(v, ino, Mid(i, j)) && freed == MidsDown(v, ino, i, j + 1)
      modifies fs
      ensures Owned(fs.State()) && Freeing(v, fs.State(), ino, i, Todo(j, false, 0), MidsDown(v, ino, i, j))
    {
      MidsNext(v, ino, i, j);
      if b == 0 {
        FreeNone(v, fs.State(), ino, i, Todo(j + 1, false, 0), freed, Todo(j, false, 0));
        return;
      }
      ghost var done := freed;
      FreeNone(v, fs.State(), ino, i, Todo(j + 1, false, 0), freed, Todo(j, true, WORDS));
      if i >= 8 {
        FreeLeaves(b, i, j, v, freed);
        done := freed + LeavesDown(v, ino, i, j, 0);
      } else {
        FreeNone(v, fs.State(), ino, i, Todo(j, true, WORDS), freed, Todo(j, true, 0));
        assert done == freed + [];
      }
      FreeOne(v, fs.State(), ino, i, Todo(j, true, 0), done, Mid(i, j), Todo(j, false, 0));
      fs.Free(b);
    }

    /** One turn of the second-level loop. */
    method FreeSlot(table: nat, i: nat, j: nat, ghost v: Vol)
      requires Settled(v) && Owned(fs.State()) && j < WORDS && FreedFrom(v, fs.State(), ino, i, j + 1)
      requires table == At(v, ino, Top(i)) != 0
      modifies fs
      ensures Owned(fs.State()) && FreedFrom(v, fs.State(), ino, i, j)
    {
      FreedFromIs(v, fs.State(), ino, i, j + 1);
      ghost var freed := MidsDown(v, ino, i, j + 1);
      WordReads(v, fs.State(), ino, i, Todo(j + 1, false, 0), freed, Mid(i, j));
      var b := WordAt(fs.disk[table], j);
      FreeMid(b, i, j, v, freed);
      FreedFromIs(v, fs.State(), ino, i, j);
    }

    /** The second-level loop over the index block of entry i. */
    method FreeTable(table: nat, i: nat, ghost v: Vol)
      requires Settled(v) && Owned(fs.State()) && FreedFrom(v, fs.State(), ino, i, WORDS)
      requires table == At(v, ino, Top(i)) != 0
      modifies fs
      ensures Owned(fs.State()) && FreedFrom(v, fs.State(), ino, i, 0)
    {
      for j := WORDS downto 0
        invariant Owned(fs.State()) && FreedFrom(v, fs.State(), ino, i, j)
      {
        FreeSlot(table, i, j, v);
      }
    }

    /** One i_addr entry: the slots of its index block last first, then the entry's own
        block. Index blocks are read only while they are still held. */
    method FreeEntry(i: nat)
      requires Mapped() && Settled(fs.State()) && i < NADDR && i_addr[i] != 0
      modifies this`i_addr, fs
      ensures Mapped() && Settled(fs.State()) && i_addr == old(i_addr)[i := 0]
      ensures fs.addrs == old(fs.addrs)[ino := i_addr]
      ensures fs.stack == old(fs.stack) + old(EntryBlocks(fs.State(), ino, i))
      ensures EntryGone(old(fs.State()), fs.State(), ino, i)
    {
      ghost var v := fs.State();
      ghost var t := Todo(WORDS, false, 0);
      ghost var freed: seq<nat> := [];
      FreeingStarts(v, ino, i, t);
      fs.addrs, fs.owner := Cut(v, ino, i).addrs, Cut(v, ino, i).owner;
      if i >= 6 {
        FreedFromIs(v, fs.State(), ino, i, WORDS);
        FreeTable(i_addr[i], i, v);
        FreedFromIs(v, fs.State(), ino, i, 0);
        t, freed := Todo(0, false, 0), MidsDown(v, ino, i, 0);
      }
      LastSlot(v, fs.State(), ino, i, t, freed);
      fs.Free(i_addr[i]);
      i_addr := i_addr[i := 0];
    }

    /** ITrunc's loop over i_addr. */
    method FreeEntries()
      requires Mapped() && Settled(fs.State())
      modifies this`i_addr, fs
      ensures Mapped() && Settled(fs.State()) && fs.addrs == old(fs.addrs)[ino := i_addr]
      ensures Truncating(old(fs.State()), fs.State(), ino, 0)
    {
      ghost var v := fs.State();
      TruncatingStarts(v, ino);
      for i := NADDR downto 0
        invariant Mapped() && Settled(fs.State())
        invariant fs.addrs == v.addrs[ino := i_addr]
        invariant Truncating(v, fs.State(), ino, i)
      {
        ghost var w := fs.State();
        if i_addr[i] != 0 {
          FreeEntry(i);
          TruncatingFrees(v, w, fs.State(), ino, i);
        } else {
          TruncatingSkips(v, w, ino, i);
        }
      }
    }

    /** Gives back exactly the blocks of the file, data and index blocks alike, each
        once, last entry first; every other file keeps its bytes. */
    method ITrunc()
      requires Mapped() && Settled(fs.State())
      modifies this`i_addr, this`i_size, fs
      ensures Ready() && fs.addrs == old(fs.addrs)[ino := i_addr]
      ensures i_size == 0 && forall i :: 0 <= i < NADDR ==> i_addr[i] == 0
      ensures fs.stack == old(fs.stack) + old(BlocksDown(fs.State(), ino, 0))
      ensures forall m :: m in fs.addrs && m != ino ==> GrownFor(old(fs.State()), fs.State(), m)
    {
      FreeEntries();
      i_size := 0;
      forall o: nat ensures ByteAt(fs.State(), ino, o) == 0 { EmptyReads(fs.State(), ino, o); }
    }
  }
}
