/** File contents as a flat byte sequence, and what writing into a data block does to it. */
module VolumeBytes {
  import opened Common
  import opened DiskBlocks
  import opened FreeChain
  import opened VolumeSpace
  import opened VolumeState
  import opened VolumeSteps

  ghost function Contents(v: Vol, n: nat, size: nat): (c: seq<byte>)
    requires n in v.addrs && |v.addrs[n]| == NADDR
    ensures |c| == size
  {
    seq(size, o requires 0 <= o < size => ByteAt(v, n, o))
  }

  /** The len bytes at offset off of a byte array that has them. */
  function Part(bytes: seq<byte>, off: nat, len: nat): seq<byte> {
    if off + len <= |bytes| then bytes[off..off + len] else []
  }

  /** The len bytes at offset off, whatever the size of the file. */
  ghost function BytesFrom(v: Vol, n: nat, off: nat, len: nat): (c: seq<byte>)
    requires n in v.addrs && |v.addrs[n]| == NADDR
    ensures |c| == len
  {
    seq(len, i requires 0 <= i < len => ByteAt(v, n, off + i))
  }

  /** Writing d at offset off of a file with contents c: zeros up to off if c is shorter. */
  ghost function Overlay(c: seq<byte>, off: nat, d: seq<byte>): seq<byte> {
    if d == [] then c
    else seq(Max(|c|, off + |d|), o requires 0 <= o < Max(|c|, off + |d|) =>
               if off <= o < off + |d| then d[o - off] else if o < |c| then c[o] else 0)
  }

  /** Block b with d copied in at offset `at`. */
  function Patch(b: Block, at: nat, d: seq<byte>): (p: Block)
    requires at + |d| <= BLOCK_SIZE
    ensures forall i :: 0 <= i < BLOCK_SIZE ==> p[i] == if at <= i < at + |d| then d[i - at] else b[i]
  {
    b[..at] + d + b[at + |d|..]
  }

  function Poke(v: Vol, b: nat, block: Block): Vol
    requires b < |v.disk|
  {
    v.(disk := v.disk[b := block])
  }

  /** A data block is no index block and no link block, so rewriting it moves nothing. */
  lemma PokeStep(v: Vol, n: nat, p: Path, block: Block)
    requires Owned(v) && n in v.addrs && ValidPath(p) && IsData(p)
    requires BlkAt(v.addrs[n], v.disk, p) != 0
    ensures BlkAt(v.addrs[n], v.disk, p) < |v.disk|
    ensures var w := Poke(v, BlkAt(v.addrs[n], v.disk, p), block);
            && Owned(w)
            && (forall m, q :: m in v.addrs && ValidPath(q) ==>
              BlkAt(w.addrs[m], w.disk, q) == BlkAt(v.addrs[m], v.disk, q))
  {
    assert SlotOwned(v, n, p);
    var b := BlkAt(v.addrs[n], v.disk, p);
    var w := Poke(v, b, block);
    forall m, q | m in v.addrs && ValidPath(q)
      ensures BlkAt(w.addrs[m], w.disk, q) == BlkAt(v.addrs[m], v.disk, q) && SlotOwned(w, m, q)
    {
      assert SlotOwned(v, m, q) && SlotOwned(v, m, Top(q.i));
      if !q.Top? { assert SlotOwned(v, m, Mid(q.i, q.j)); }
    }
    forall c: nat | InZone(c) ensures OwnerTrue(w, c) {
      assert OwnerTrue(v, c);
      if v.owner[c].InFile? { assert SlotOwned(w, v.owner[c].ino, v.owner[c].path); }
    }
    PokeChain(v, b, block);
  }

  lemma PokeChain(v: Vol, b: nat, block: Block)
    requires ChainOwned(v) && InZone(b) && b in v.owner && v.owner[b].InFile? && |v.disk| == NSECTOR
    ensures ChainOwned(Poke(v, b, block))
  {
    ChainOf(v);
    TablesUpdate(v.disk, b, block);
    ChainFrame(v.super, Tables(v.disk), Tables(v.disk)[b := LoadSuper(block)], v.stack);
    ChainIs(Poke(v, b, block));
  }

  /** The bytes of lbn change, and no other byte of any file. */
  lemma PokeBytes(v: Vol, n: nat, lbn: nat, block: Block, m: nat, o: nat)
    requires Owned(v) && n in v.addrs && lbn < HUGE_FILE_BLOCK && m in v.addrs
    requires BlkAt(v.addrs[n], v.disk, PathOf(lbn)) != 0
    ensures BlkAt(v.addrs[n], v.disk, PathOf(lbn)) < |v.disk|
    ensures var w := Poke(v, BlkAt(v.addrs[n], v.disk, PathOf(lbn)), block);
            ByteAt(w, m, o) == if m == n && o / BLOCK_SIZE == lbn then block[o % BLOCK_SIZE] else ByteAt(v, m, o)
  {
    PokeStep(v, n, PathOf(lbn), block);
    assert SlotOwned(v, n, PathOf(lbn));
    if o < MAX_BYTES {
      var q := PathOf(o / BLOCK_SIZE);
      assert SlotOwned(v, m, q);
      if m == n && o / BLOCK_SIZE != lbn {
        PathOfLbn(lbn);
        PathOfLbn(o / BLOCK_SIZE);
      }
    }
  }

  /** A chunk that stays within one block, written at byte offset off. */
  lemma PatchBytes(v: Vol, n: nat, off: nat, d: seq<byte>, m: nat, o: nat)
    requires Owned(v) && n in v.addrs && off < MAX_BYTES && m in v.addrs
    requires off % BLOCK_SIZE + |d| <= BLOCK_SIZE
    requires BlkAt(v.addrs[n], v.disk, PathOf(off / BLOCK_SIZE)) != 0
    ensures BlkAt(v.addrs[n], v.disk, PathOf(off / BLOCK_SIZE)) < |v.disk|
    ensures var b := BlkAt(v.addrs[n], v.disk, PathOf(off / BLOCK_SIZE));
            var w := Poke(v, b, Patch(v.disk[b], off % BLOCK_SIZE, d));
            ByteAt(w, m, o) == if m == n && off <= o < off + |d| then d[o - off] else ByteAt(v, m, o)
  {
    assert SlotOwned(v, n, PathOf(off / BLOCK_SIZE));
    var b := BlkAt(v.addrs[n], v.disk, PathOf(off / BLOCK_SIZE));
    PokeBytes(v, n, off / BLOCK_SIZE, Patch(v.disk[b], off % BLOCK_SIZE, d), m, o);
  }

  /** d at offset off of file n, and nothing else, differs between v and w. */
  ghost predicate Overwrites(v: Vol, w: Vol, n: nat, off: nat, d: seq<byte>) {
    && w.addrs.Keys == v.addrs.Keys
    && (forall m :: m in v.addrs ==> |v.addrs[m]| == NADDR && |w.addrs[m]| == NADDR)
    && forall m, o: nat :: m in v.addrs ==>
         ByteAt(w, m, o) == if m == n && off <= o < off + |d| then d[o - off] else ByteAt(v, m, o)
  }

  lemma OverwritesAfterGrown(v: Vol, w: Vol, x: Vol, n: nat, off: nat, d: seq<byte>)
    requires Owned(v) && GrownOnly(v, w) && Overwrites(w, x, n, off, d)
    ensures Overwrites(v, x, n, off, d)
  {
    forall m | m in v.addrs ensures |w.addrs[m]| == NADDR && SameBytes(v, w, m) { GrownKeepsBytes(v, w, m); }
  }

  lemma OverwritesThenGrown(v: Vol, w: Vol, x: Vol, n: nat, off: nat, d: seq<byte>)
    requires GrownOnly(w, x) && Overwrites(v, w, n, off, d)
    ensures Overwrites(v, x, n, off, d)
  {
    forall m | m in w.addrs ensures |x.addrs[m]| == NADDR && SameBytes(w, x, m) { GrownKeepsBytes(w, x, m); }
  }

  lemma OverwritesThen(v: Vol, w: Vol, x: Vol, n: nat, off: nat, c: seq<byte>, d: seq<byte>)
    requires Overwrites(v, w, n, off, c) && Overwrites(w, x, n, off + |c|, d)
    ensures Overwrites(v, x, n, off, c + d)
  {
  }

  /** The first k bytes of data are written at off. */
  ghost predicate Written(v: Vol, w: Vol, n: nat, off: nat, data: seq<byte>, k: nat) {
    k <= |data| && Overwrites(v, w, n, off, data[..k])
  }

  lemma NothingWritten(v: Vol, n: nat, off: nat, data: seq<byte>)
    requires Owned(v)
    ensures Written(v, v, n, off, data, 0)
  {
  }

  lemma WrittenMore(v: Vol, w: Vol, x: Vol, n: nat, off: nat, data: seq<byte>, k: nat, l: nat)
    requires k + l <= |data| && Written(v, w, n, off, data, k) && Overwrites(w, x, n, off + k, data[k..k + l])
    ensures Written(v, x, n, off, data, k + l)
  {
    OverwritesThen(v, w, x, n, off, data[..k], data[k..k + l]);
    assert data[..k] + data[k..k + l] == data[..k + l];
  }

  /** No byte past the end of the file is set. */
  ghost predicate Padded(v: Vol, n: nat, size: nat)
    requires n in v.addrs && |v.addrs[n]| == NADDR
  {
    size <= MAX_BYTES && forall o: nat :: o >= size ==> ByteAt(v, n, o) == 0
  }

  /** Growing the size over a write turns the old contents into the overlaid ones. */
  lemma OverwriteContents(v: Vol, w: Vol, n: nat, off: nat, d: seq<byte>, size: nat)
    requires n in v.addrs && Overwrites(v, w, n, off, d) && d != [] && off + |d| <= MAX_BYTES && Padded(v, n, size)
    ensures Padded(w, n, Max(size, off + |d|))
    ensures Contents(w, n, Max(size, off + |d|)) == Overlay(Contents(v, n, size), off, d)
  {
    var full := Max(size, off + |d|);
    forall o: nat | o >= full ensures ByteAt(w, n, o) == 0 { assert ByteAt(v, n, o) == 0; }
    forall o: nat | o < full ensures ByteAt(w, n, o) == Overlay(Contents(v, n, size), off, d)[o] {
      OverlayByte(Contents(v, n, size), off, d, o);
      if o >= size { assert ByteAt(v, n, o) == 0; }
    }
    assert Contents(w, n, full) == Overlay(Contents(v, n, size), off, d);
  }

  /** What reads back after a write: the new byte, the old one, or zero in the gap. */
  lemma OverlayByte(c: seq<byte>, off: nat, d: seq<byte>, o: nat)
    requires d != [] && o < Max(|c|, off + |d|)
    ensures |Overlay(c, off, d)| == Max(|c|, off + |d|)
    ensures Overlay(c, off, d)[o] == if off <= o < off + |d| then d[o - off] else if o < |c| then c[o] else 0
  {
  }

  lemma OverlayLength(c: seq<byte>, off: nat, d: seq<byte>, e: seq<byte>)
    requires d != [] && e != []
    ensures |Overlay(c, off, d)| == Max(|c|, off + |d|)
    ensures |Overlay(Overlay(c, off, d), off + |d|, e)| == |Overlay(c, off, d + e)| == Max(|c|, off + |d| + |e|)
  {
    OverlayByte(c, off, d, off);
    OverlayByte(c, off, d + e, off);
    OverlayByte(Overlay(c, off, d), off + |d|, e, off);
  }

  lemma OverlayThenAt(c: seq<byte>, off: nat, d: seq<byte>, e: seq<byte>, o: nat)
    requires d != [] && e != [] && o < Max(|c|, off + |d| + |e|)
    ensures o < |Overlay(Overlay(c, off, d), off + |d|, e)| && o < |Overlay(c, off, d + e)|
    ensures Overlay(Overlay(c, off, d), off + |d|, e)[o] == Overlay(c, off, d + e)[o]
  {
    var half := Overlay(c, off, d);
    OverlayLength(c, off, d, e);
    OverlayByte(c, off, d + e, o);
    OverlayByte(half, off + |d|, e, o);
    if o < |half| { OverlayByte(c, off, d, o); }
  }

  lemma OverlayTwice(c: seq<byte>, off: nat, d: seq<byte>, e: seq<byte>)
    requires d != [] && e != []
    ensures Overlay(Overlay(c, off, d), off + |d|, e) == Overlay(c, off, d + e)
  {
    var x, y := Overlay(Overlay(c, off, d), off + |d|, e), Overlay(c, off, d + e);
    OverlayLength(c, off, d, e);
    forall o: nat | o < |y| ensures x[o] == y[o] { OverlayThenAt(c, off, d, e, o); }
  }

  /** Two writes in a row are one longer write. */
  lemma OverlayThen(c: seq<byte>, off: nat, d: seq<byte>, e: seq<byte>)
    ensures Overlay(Overlay(c, off, d), off + |d|, e) == if d == [] then Overlay(c, off, e) else Overlay(c, off, d + e)
  {
    if d == [] {
      assert Overlay(c, off, d) == c;
    } else if e == [] {
      assert d + e == d && Overlay(Overlay(c, off, d), off + |d|, e) == Overlay(c, off, d);
    } else {
      OverlayTwice(c, off, d, e);
    }
  }

  /** Logical block lbn of file n is block b. */
  ghost predicate Backed(v: Vol, n: nat, lbn: nat, b: nat) {
    && n in v.addrs && |v.addrs[n]| == NADDR && lbn < HUGE_FILE_BLOCK
    && b == BlkAt(v.addrs[n], v.disk, PathOf(lbn)) != 0 && b < |v.disk|
  }

  /** The bytes copied into the block of an offset land at that offset of the file. */
  lemma PatchStep(v: Vol, w: Vol, n: nat, off: nat, d: seq<byte>, b: nat)
    requires Owned(v) && GrownOnly(v, w) && Owned(w) && n in v.addrs
    requires off % BLOCK_SIZE + |d| <= BLOCK_SIZE && Backed(w, n, off / BLOCK_SIZE, b)
    ensures var x := Poke(w, b, Patch(w.disk[b], off % BLOCK_SIZE, d));
            Owned(x) && SlotsSame(w, x, n) && Overwrites(v, x, n, off, d)
  {
    var x := Poke(w, b, Patch(w.disk[b], off % BLOCK_SIZE, d));
    PokeStep(w, n, PathOf(off / BLOCK_SIZE), Patch(w.disk[b], off % BLOCK_SIZE, d));
    PatchOverwrites(w, x, n, off, d, b);
    OverwritesAfterGrown(v, w, x, n, off, d);
  }

  lemma PatchOverwrites(w: Vol, x: Vol, n: nat, off: nat, d: seq<byte>, b: nat)
    requires Owned(w) && off % BLOCK_SIZE + |d| <= BLOCK_SIZE && Backed(w, n, off / BLOCK_SIZE, b)
    requires x == Poke(w, b, Patch(w.disk[b], off % BLOCK_SIZE, d))
    ensures Overwrites(w, x, n, off, d)
  {
    forall m, o: nat | m in w.addrs
      ensures ByteAt(x, m, o) == if m == n && off <= o < off + |d| then d[o - off] else ByteAt(w, m, o)
    {
      PatchBytes(w, n, off, d, m, o);
    }
  }

  lemma WholePatch(b: Block, at: nat, d: seq<byte>)
    requires at + |d| <= BLOCK_SIZE == |d|
    ensures Patch(b, at, d) == d
  {
  }

  lemma ChunkBytes(v: Vol, n: nat, off: nat, nbytes: nat, b: nat)
    requires off % BLOCK_SIZE + nbytes <= BLOCK_SIZE && Backed(v, n, off / BLOCK_SIZE, b)
    ensures v.disk[b][off % BLOCK_SIZE..off % BLOCK_SIZE + nbytes] == BytesFrom(v, n, off, nbytes)
  {
    forall i | 0 <= i < nbytes ensures v.disk[b][off % BLOCK_SIZE + i] == BytesFrom(v, n, off, nbytes)[i] {
      SameBlock(off, i);
      assert ByteAt(v, n, off + i) == v.disk[b][(off + i) % BLOCK_SIZE];
    }
  }

  lemma SameBlock(off: nat, i: nat)
    requires off % BLOCK_SIZE + i < BLOCK_SIZE
    ensures (off + i) / BLOCK_SIZE == off / BLOCK_SIZE && (off + i) % BLOCK_SIZE == off % BLOCK_SIZE + i
  {
  }

  lemma BytesJoin(v: Vol, w: Vol, n: nat, off: nat, k: nat, l: nat)
    requires n in v.addrs && n in w.addrs && |v.addrs[n]| == NADDR && |w.addrs[n]| == NADDR && SameBytes(v, w, n)
    ensures BytesFrom(v, n, off, k) + BytesFrom(w, n, off + k, l) == BytesFrom(v, n, off, k + l)
  {
    var all := BytesFrom(v, n, off, k) + BytesFrom(w, n, off + k, l);
    forall i | 0 <= i < k + l ensures all[i] == BytesFrom(v, n, off, k + l)[i] {
      assert ByteAt(w, n, off + i) == ByteAt(v, n, off + i);
    }
  }

  lemma PartIs(c: seq<byte>, off: nat, d: seq<byte>)
    requires off + |d| <= |c| && forall i :: 0 <= i < |d| ==> d[i] == c[off + i]
    ensures d == Part(c, off, |d|)
  {
  }

  lemma BytesAreContents(v: Vol, n: nat, off: nat, len: nat, size: nat)
    requires n in v.addrs && |v.addrs[n]| == NADDR && (off + len <= size || len == 0)
    ensures BytesFrom(v, n, off, len) == Part(Contents(v, n, size), off, len)
  {
    var c, d := Contents(v, n, size), BytesFrom(v, n, off, len);
    if off + len <= size {
      forall i | 0 <= i < len ensures d[i] == c[off + i] {}
      PartIs(c, off, d);
    }
  }

  /** The same for what a whole call wrote, which may be nothing. */
  lemma WrittenContents(v: Vol, w: Vol, n: nat, off: nat, d: seq<byte>, size: nat)
    requires n in v.addrs && Overwrites(v, w, n, off, d) && Padded(v, n, size) && (d != [] ==> off + |d| <= MAX_BYTES)
    ensures var full := if d == [] then size else Max(size, off + |d|);
            Contents(w, n, full) == Overlay(Contents(v, n, size), off, d)
  {
    if d == [] {
      forall o: nat | o < size ensures Contents(w, n, size)[o] == Contents(v, n, size)[o] {
        assert ByteAt(w, n, o) == ByteAt(v, n, o);
      }
    } else {
      OverwriteContents(v, w, n, off, d, size);
    }
  }

  /** A file whose bytes did not change still has its contents, and nothing past its end. */
  lemma SameContents(v: Vol, w: Vol, n: nat, size: nat)
    requires n in v.addrs && n in w.addrs && |v.addrs[n]| == NADDR
    requires |w.addrs[n]| == NADDR && SameBytes(v, w, n) && Padded(v, n, size)
    ensures Contents(w, n, size) == Contents(v, n, size) && Padded(w, n, size)
  {
    forall o: nat | o < size ensures Contents(w, n, size)[o] == Contents(v, n, size)[o] {
      assert ByteAt(w, n, o) == ByteAt(v, n, o);
    }
    forall o: nat | o >= size ensures ByteAt(w, n, o) == 0 { assert ByteAt(v, n, o) == 0; }
  }

  lemma GrownSame(v: Vol, w: Vol, n: nat, size: nat)
    requires Owned(v) && GrownOnly(v, w) && n in v.addrs && Padded(v, n, size)
    ensures forall m :: m in v.addrs ==> GrownFor(v, w, m)
    ensures |w.addrs[n]| == NADDR && Contents(w, n, size) == Contents(v, n, size) && Padded(w, n, size)
  {
    forall m | m in v.addrs ensures GrownFor(v, w, m) { GrownKeepsBytes(v, w, m); }
    GrownKeepsBytes(v, w, n);
    SameContents(v, w, n, size);
  }

  // ------------------------------------------------- one turn of WriteI's loop

  ghost predicate InBlock(off: nat, k: nat) {
    k == off / BLOCK_SIZE
  }

  /** A chunk is in place at off, or nothing is: EFBIG, or no block. */
  ghost predicate ChunkDone(v: Vol, w: Vol, n: nat, off: nat, chunk: seq<byte>, k: nat, hi: nat, ok: bool, torn: bool)
    requires n in v.addrs && |v.addrs[n]| == NADDR
  {
    forall j: nat :: InBlock(off, j) ==>
      if ok then
        && off < MAX_BYTES && Overwrites(v, w, n, off, chunk) && n in w.addrs
        && Going(v, w, n, k, k + 1, hi) && Enterable(w, n, k + 1, hi)
      else
        && GrownOnly(v, w)
        && if off >= MAX_BYTES then !torn && w == v
           else Spare(v, n, k, k + 1) < 0 && w.stack == [] && (torn <==> v.stack != [])
  }

  lemma ChunkMeans(v: Vol, w: Vol, n: nat, off: nat, chunk: seq<byte>, k: nat, hi: nat, ok: bool, torn: bool)
    requires n in v.addrs && |v.addrs[n]| == NADDR && k == off / BLOCK_SIZE
    requires ChunkDone(v, w, n, off, chunk, k, hi, ok, torn)
    ensures ok ==> off < MAX_BYTES && Overwrites(v, w, n, off, chunk) && n in w.addrs && |w.addrs[n]| == NADDR
    ensures ok ==> Going(v, w, n, k, k + 1, hi) && Enterable(w, n, k + 1, hi)
    ensures !ok ==> GrownOnly(v, w)
    ensures !ok && off >= MAX_BYTES ==> !torn && w == v
    ensures !ok && off < MAX_BYTES ==> Spare(v, n, k, k + 1) < 0 && w.stack == [] && (torn <==> v.stack != [])
  {
    assert InBlock(off, off / BLOCK_SIZE);
  }

  lemma ChunkDoneIs(v: Vol, w: Vol, n: nat, off: nat, chunk: seq<byte>, k: nat, hi: nat)
    requires n in v.addrs && |v.addrs[n]| == NADDR && k == off / BLOCK_SIZE && off < MAX_BYTES
    requires Overwrites(v, w, n, off, chunk) && Going(v, w, n, k, k + 1, hi) && Enterable(w, n, k + 1, hi)
    ensures ChunkDone(v, w, n, off, chunk, k, hi, true, false)
  {
  }

  /** A write has got bytes in place and comes to block k. */
  ghost predicate Writing(v: Vol, w: Vol, n: nat, off: nat, data: seq<byte>, got: nat, k: nat) {
    && got <= |data| && n in w.addrs && |w.addrs[n]| == NADDR
    && forall lo, hi :: Touches(off, |data|, lo, hi) ==>
         Written(v, w, n, off, data, got) && Supplied(v, w, n, off, |data|, got, k)
  }

  /** It has ended. */
  ghost predicate Wrote(v: Vol, w: Vol, n: nat, off: nat, data: seq<byte>, got: nat, torn: bool) {
    && got <= |data|
    && forall lo, hi :: Touches(off, |data|, lo, hi) ==>
         && Written(v, w, n, off, data, got) && Ended(v, w, n, off, |data|, got, torn)
         && (got > 0 ==> off + got <= MAX_BYTES)
  }

  lemma WriteStarts(v: Vol, n: nat, off: nat, data: seq<byte>)
    requires Owned(v) && n in v.addrs && |v.addrs[n]| == NADDR
    requires Enterable(v, n, off / BLOCK_SIZE, Blocks(off, |data|))
    ensures Writing(v, v, n, off, data, 0, off / BLOCK_SIZE)
  {
    NothingWritten(v, n, off, data);
    SuppliedStarts(v, n, off, |data|);
  }

  lemma WritingIs(v: Vol, w: Vol, n: nat, off: nat, data: seq<byte>, got: nat, k: nat)
    ensures Writing(v, w, n, off, data, got, k) <==>
              && n in w.addrs && |w.addrs[n]| == NADDR
              && Written(v, w, n, off, data, got) && Supplied(v, w, n, off, |data|, got, k)
  {
    assert Touches(off, |data|, off / BLOCK_SIZE, Blocks(off, |data|));
  }

  lemma WriteComes(v: Vol, w: Vol, n: nat, off: nat, data: seq<byte>, got: nat, k: nat, nbytes: nat)
    requires Writing(v, w, n, off, data, got, k) && got < |data|
    requires nbytes == Min(BLOCK_SIZE - (off + got) % BLOCK_SIZE, |data| - got)
    ensures ChunkAt(off, |data|, got, k, nbytes) && Enterable(w, n, k, Blocks(off, |data|))
  {
    assert Touches(off, |data|, off / BLOCK_SIZE, Blocks(off, |data|));
    NextChunk(v, w, n, off, |data|, got, k, nbytes);
  }

  lemma WriteGoesOn(v: Vol, w: Vol, x: Vol, n: nat, off: nat, data: seq<byte>, got: nat, k: nat, nbytes: nat)
    requires Writing(v, w, n, off, data, got, k) && ChunkAt(off, |data|, got, k, nbytes)
    requires ChunkDone(w, x, n, off + got, data[got..got + nbytes], k, Blocks(off, |data|), true, false)
    ensures Writing(v, x, n, off, data, got + nbytes, k + 1)
  {
    WritingIs(v, w, n, off, data, got, k);
    ChunkMeans(w, x, n, off + got, data[got..got + nbytes], k, Blocks(off, |data|), true, false);
    WrittenMore(v, w, x, n, off, data, got, nbytes);
    SuppliedMore(v, w, x, n, off, |data|, got, k, nbytes);
    WritingIs(v, x, n, off, data, got + nbytes, k + 1);
  }

  lemma WriteStops(v: Vol, w: Vol, x: Vol, n: nat, off: nat, data: seq<byte>, got: nat, k: nat, nbytes: nat, torn: bool)
    requires Writing(v, w, n, off, data, got, k) && ChunkAt(off, |data|, got, k, nbytes)
    requires ChunkDone(w, x, n, off + got, data[got..got + nbytes], k, Blocks(off, |data|), false, torn)
    ensures Wrote(v, x, n, off, data, got, torn)
  {
    WritingIs(v, w, n, off, data, got, k);
    ChunkMeans(w, x, n, off + got, data[got..got + nbytes], k, Blocks(off, |data|), false, torn);
    OverwritesThenGrown(v, w, x, n, off, data[..got]);
    SuppliedEnds(v, w, x, n, off, |data|, got, k, torn);
    SuppliedFits(v, w, n, off, |data|, got, k);
  }

  lemma WriteTurns(v: Vol, w: Vol, x: Vol, n: nat, off: nat, data: seq<byte>, got: nat, k: nat, nbytes: nat, ok: bool,
      torn: bool)
    requires Writing(v, w, n, off, data, got, k) && ChunkAt(off, |data|, got, k, nbytes) && n in w.addrs
    requires |w.addrs[n]| == NADDR && (ok ==> !torn)
    requires ChunkDone(w, x, n, off + got, data[got..got + nbytes], k, Blocks(off, |data|), ok, torn)
    ensures ok ==> Writing(v, x, n, off, data, got + nbytes, k + 1)
    ensures !ok ==> Wrote(v, x, n, off, data, got, torn)
  {
    if ok {
      WriteGoesOn(v, w, x, n, off, data, got, k, nbytes);
    } else {
      WriteStops(v, w, x, n, off, data, got, k, nbytes, torn);
    }
  }

  lemma WriteEnds(v: Vol, w: Vol, n: nat, off: nat, data: seq<byte>, k: nat)
    requires Writing(v, w, n, off, data, |data|, k)
    ensures Wrote(v, w, n, off, data, |data|, false)
  {
    assert Touches(off, |data|, off / BLOCK_SIZE, Blocks(off, |data|));
    SuppliedWhole(v, w, n, off, |data|, k);
    SuppliedFits(v, w, n, off, |data|, |data|, k);
  }

  lemma WroteMeans(v: Vol, w: Vol, n: nat, off: nat, data: seq<byte>, got: nat, torn: bool)
    requires Wrote(v, w, n, off, data, got, torn)
    ensures Written(v, w, n, off, data, got) && Ended(v, w, n, off, |data|, got, torn)
    ensures got > 0 ==> off + got <= MAX_BYTES
  {
    assert Touches(off, |data|, off / BLOCK_SIZE, Blocks(off, |data|));
  }

  // -------------------------------------------------- one turn of ReadI's loop

  /** What ReadI found at off: nbytes bytes, in a block it may have had to allocate, or
      nothing when there was none. */
  ghost predicate ChunkRead(v: Vol, w: Vol, n: nat, off: nat, nbytes: nat, chunk: seq<byte>, k: nat, hi: nat,
      torn: bool)
    requires n in v.addrs && |v.addrs[n]| == NADDR
  {
    forall j: nat :: InBlock(off, j) ==>
      && GrownOnly(v, w) && n in w.addrs && |w.addrs[n]| == NADDR
      && if chunk != [] then
           && chunk == BytesFrom(w, n, off, nbytes) && !torn
           && Going(v, w, n, k, k + 1, hi) && Enterable(w, n, k + 1, hi)
         else Spare(v, n, k, k + 1) < 0 && w.stack == [] && (torn <==> v.stack != [])
  }

  lemma ReadMeans(v: Vol, w: Vol, n: nat, off: nat, nbytes: nat, chunk: seq<byte>, k: nat, hi: nat, torn: bool)
    requires n in v.addrs && |v.addrs[n]| == NADDR && k == off / BLOCK_SIZE
    requires ChunkRead(v, w, n, off, nbytes, chunk, k, hi, torn)
    ensures GrownOnly(v, w) && n in w.addrs && |w.addrs[n]| == NADDR
    ensures chunk != [] ==> chunk == BytesFrom(w, n, off, nbytes) && !torn
    ensures chunk != [] ==> Going(v, w, n, k, k + 1, hi) && Enterable(w, n, k + 1, hi)
    ensures chunk == [] ==> Spare(v, n, k, k + 1) < 0 && w.stack == [] && (torn <==> v.stack != [])
  {
    assert InBlock(off, off / BLOCK_SIZE);
  }

  lemma ChunkReadIs(v: Vol, w: Vol, n: nat, off: nat, nbytes: nat, chunk: seq<byte>, k: nat, hi: nat)
    requires n in v.addrs && |v.addrs[n]| == NADDR && k == off / BLOCK_SIZE && chunk != []
    requires GrownOnly(v, w) && n in w.addrs && |w.addrs[n]| == NADDR && chunk == BytesFrom(w, n, off, nbytes)
    requires Going(v, w, n, k, k + 1, hi) && Enterable(w, n, k + 1, hi)
    ensures ChunkRead(v, w, n, off, nbytes, chunk, k, hi, false)
  {
  }

  lemma NoChunkRead(v: Vol, w: Vol, n: nat, off: nat, nbytes: nat, k: nat, hi: nat, torn: bool)
    requires n in v.addrs && |v.addrs[n]| == NADDR && k == off / BLOCK_SIZE && GrownOnly(v, w)
    requires n in w.addrs && |w.addrs[n]| == NADDR
    requires Spare(v, n, k, k + 1) < 0 && w.stack == [] && (torn <==> v.stack != [])
    ensures ChunkRead(v, w, n, off, nbytes, [], k, hi, torn)
  {
  }

  /** A read has the bytes of the file at off, has filled only holes, and comes to block k. */
  ghost predicate Reading(v: Vol, w: Vol, n: nat, off: nat, count: nat, data: seq<byte>, k: nat) {
    && |data| <= count && n in w.addrs && |w.addrs[n]| == NADDR
    && forall lo, hi :: Touches(off, count, lo, hi) ==>
         && Owned(v) && GrownOnly(v, w) && n in v.addrs && |v.addrs[n]| == NADDR
         && data == BytesFrom(v, n, off, |data|) && Supplied(v, w, n, off, count, |data|, k)
  }

  /** It has ended. */
  ghost predicate DidRead(v: Vol, w: Vol, n: nat, off: nat, count: nat, data: seq<byte>, torn: bool) {
    && |data| <= count
    && forall lo, hi :: Touches(off, count, lo, hi) ==>
         && GrownOnly(v, w) && n in v.addrs && |v.addrs[n]| == NADDR
         && data == BytesFrom(v, n, off, |data|) && Ended(v, w, n, off, count, |data|, torn)
  }

  lemma ReadStarts(v: Vol, n: nat, off: nat, count: nat)
    requires Owned(v) && n in v.addrs && |v.addrs[n]| == NADDR
    requires Enterable(v, n, off / BLOCK_SIZE, Blocks(off, count))
    ensures Reading(v, v, n, off, count, [], off / BLOCK_SIZE)
  {
    GrownRefl(v);
    SuppliedStarts(v, n, off, count);
  }

  lemma ReadingIs(v: Vol, w: Vol, n: nat, off: nat, count: nat, data: seq<byte>, k: nat)
    ensures Reading(v, w, n, off, count, data, k) <==>
              && |data| <= count && n in w.addrs && |w.addrs[n]| == NADDR
              && Owned(v) && GrownOnly(v, w) && n in v.addrs && |v.addrs[n]| == NADDR
              && data == BytesFrom(v, n, off, |data|) && Supplied(v, w, n, off, count, |data|, k)
  {
    assert Touches(off, count, off / BLOCK_SIZE, Blocks(off, count));
  }

  lemma ReadComes(v: Vol, w: Vol, n: nat, off: nat, count: nat, data: seq<byte>, k: nat, nbytes: nat)
    requires Reading(v, w, n, off, count, data, k) && |data| < count
    requires nbytes == Min(BLOCK_SIZE - (off + |data|) % BLOCK_SIZE, count - |data|)
    ensures ChunkAt(off, count, |data|, k, nbytes) && Enterable(w, n, k, Blocks(off, count))
  {
    assert Touches(off, count, off / BLOCK_SIZE, Blocks(off, count));
    NextChunk(v, w, n, off, count, |data|, k, nbytes);
  }

  lemma ReadJoins(v: Vol, w: Vol, x: Vol, n: nat, off: nat, data: seq<byte>, chunk: seq<byte>, nbytes: nat)
    requires Owned(v) && n in v.addrs && |v.addrs[n]| == NADDR && n in x.addrs && |x.addrs[n]| == NADDR
    requires GrownOnly(v, w) && GrownOnly(w, x)
    requires data == BytesFrom(v, n, off, |data|) && chunk == BytesFrom(x, n, off + |data|, nbytes)
    ensures GrownOnly(v, x) && |chunk| == nbytes && data + chunk == BytesFrom(v, n, off, |data + chunk|)
  {
    GrownTrans(v, w, x);
    GrownKeepsBytes(v, x, n);
    BytesJoin(v, x, n, off, |data|, nbytes);
  }

  lemma ReadGoesOn(v: Vol, w: Vol, x: Vol, n: nat, off: nat, count: nat, data: seq<byte>, chunk: seq<byte>,
      k: nat, nbytes: nat)
    requires Reading(v, w, n, off, count, data, k)
    requires ChunkAt(off, count, |data|, k, nbytes) && off + |data| < MAX_BYTES
    requires ChunkRead(w, x, n, off + |data|, nbytes, chunk, k, Blocks(off, count), false) && chunk != []
    ensures |chunk| == nbytes && Reading(v, x, n, off, count, data + chunk, k + 1)
  {
    ReadingIs(v, w, n, off, count, data, k);
    ReadMeans(w, x, n, off + |data|, nbytes, chunk, k, Blocks(off, count), false);
    ReadJoins(v, w, x, n, off, data, chunk, nbytes);
    SuppliedMore(v, w, x, n, off, count, |data|, k, nbytes);
    ReadingIs(v, x, n, off, count, data + chunk, k + 1);
  }

  lemma ReadStops(v: Vol, w: Vol, x: Vol, n: nat, off: nat, count: nat, data: seq<byte>, k: nat, nbytes: nat,
      torn: bool)
    requires Reading(v, w, n, off, count, data, k) && |data| < count && off + |data| < MAX_BYTES
    requires ChunkAt(off, count, |data|, k, nbytes)
    requires ChunkRead(w, x, n, off + |data|, nbytes, [], k, Blocks(off, count), torn)
    ensures DidRead(v, x, n, off, count, data, torn)
  {
    ReadingIs(v, w, n, off, count, data, k);
    ReadMeans(w, x, n, off + |data|, nbytes, [], k, Blocks(off, count), torn);
    GrownTrans(v, w, x);
    SuppliedEnds(v, w, x, n, off, count, |data|, k, torn);
  }

  lemma ReadEnds(v: Vol, w: Vol, n: nat, off: nat, count: nat, data: seq<byte>, k: nat)
    requires Reading(v, w, n, off, count, data, k) && |data| == count
    ensures DidRead(v, w, n, off, count, data, false)
  {
    assert Touches(off, count, off / BLOCK_SIZE, Blocks(off, count));
    SuppliedWhole(v, w, n, off, count, k);
  }

  lemma DidReadMeans(v: Vol, w: Vol, n: nat, off: nat, count: nat, data: seq<byte>, torn: bool)
    requires DidRead(v, w, n, off, count, data, torn)
    ensures GrownOnly(v, w) && n in v.addrs && |v.addrs[n]| == NADDR
    ensures data == BytesFrom(v, n, off, |data|) && Ended(v, w, n, off, count, |data|, torn)
  {
    assert Touches(off, count, off / BLOCK_SIZE, Blocks(off, count));
  }
}
