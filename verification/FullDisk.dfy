/** What the kernel leaves when the chain runs out below an index block that Bmap has only
    just allocated: Alloc cleared it in its buffer, Bmap linked it into the file, and then
    releases the buffer without writing it. The block on the disk keeps the bytes it had. */
module FullDisk {
  import opened Common
  import opened DiskBlocks
  import opened FreeChain
  import opened VolumeState
  import opened VolumeSteps
  import opened VolumeSpace
  import opened VolumeBytes
  import opened FileBlocks

  /** Slot q has that index block: the last slot on the way to p that was given one. */
  ghost predicate Unwritten(v: Vol, n: nat, p: Path, q: Path)
    requires n in v.addrs && |v.addrs[n]| == NADDR
  {
    && ValidPath(p) && ValidPath(q) && OnWay(q, p) && q != p && !IsData(q)
    && 0 < |v.stack| == Missing(v, n, q) && BlkAt(v.addrs[n], v.disk, q) == 0 && Given(v, n, q) == v.stack[0]
  }

  /** Entry j of the index block at slot q. */
  function Child(q: Path, j: nat): (c: Path)
    requires ValidPath(q) && !IsData(q) && j < WORDS
    ensures ValidPath(c) && !c.Top? && Parent(c) == q
  {
    if q.Top? then Mid(q.i, j) else Leaf(q.i, q.j, j)
  }

  lemma {:induction false} UnwrittenSlot(v: Vol, n: nat, p: Path) returns (q: Path)
    requires n in v.addrs && |v.addrs[n]| == NADDR && ValidPath(p) && 0 < |v.stack| < Missing(v, n, p)
    ensures Unwritten(v, n, p, q)
    decreases Depth(p)
  {
    GapBelow(v, n, p);
    if Missing(v, n, Parent(p)) == |v.stack| {
      q := Parent(p);
      GapBelow(v, n, q);
    } else {
      q := UnwrittenSlot(v, n, Parent(p));
    }
  }

  /** Its entries are empty. */
  lemma EntriesEmpty(v: Vol, w: Vol, n: nat, p: Path, q: Path, j: nat)
    requires Walked(v, w, n, p, 0, true) && Unwritten(v, n, p, q) && j < WORDS
    ensures BlkAt(w.addrs[n], w.disk, Child(q, j)) == 0
  {
    var c := Child(q, j);
    assert Above(v, n, c) == |v.stack|;
    GapBelow(v, n, c);
  }

  lemma ZeroBytes(a: byte, b: byte, c: byte, d: byte)
    requires Word4(a, b, c, d) == 0
    ensures a == b == c == d == 0
  {
  }

  lemma ZeroWord(b: Block, j: nat, at: nat)
    requires j < WORDS && WordAt(b, j) == 0 && at == 4 * j
    ensures b[at] == 0 && b[at + 1] == 0 && b[at + 2] == 0 && b[at + 3] == 0
  {
    ZeroBytes(b[at], b[at + 1], b[at + 2], b[at + 3]);
  }

  lemma OneOfFour(b: Block, at: nat, i: nat)
    requires at + 4 <= BLOCK_SIZE && at <= i < at + 4
    requires b[at] == 0 && b[at + 1] == 0 && b[at + 2] == 0 && b[at + 3] == 0
    ensures b[i] == 0
  {
    if i == at {
    } else if i == at + 1 {
    } else if i == at + 2 {
    } else {
      assert i == at + 3;
    }
  }

  lemma WordOfByte(i: nat) returns (j: nat, at: nat)
    requires i < BLOCK_SIZE
    ensures j < WORDS && at == 4 * j && at <= i < at + 4
  {
    j, at := i / 4, i / 4 * 4;
  }

  lemma ZeroAt(b: Block, i: nat)
    requires i < BLOCK_SIZE && forall j: nat :: j < WORDS ==> WordAt(b, j) == 0
    ensures b[i] == 0
  {
    var j, at := WordOfByte(i);
    ZeroWord(b, j, at);
    OneOfFour(b, at, i);
  }

  lemma ZeroWords(b: Block)
    requires forall j: nat :: j < WORDS ==> WordAt(b, j) == 0
    ensures b == ZeroBlock()
  {
    forall i: nat | i < BLOCK_SIZE ensures b[i] == 0 { ZeroAt(b, i); }
  }

  /** The index block as Bmap leaves it in the buffer. */
  lemma ClearedInBuffer(v: Vol, w: Vol, n: nat, p: Path, q: Path)
    requires Walked(v, w, n, p, 0, true) && Unwritten(v, n, p, q) && Owned(w) && ChainOwned(v)
    ensures BlkAt(w.addrs[n], w.disk, q) == v.stack[0] && InZone(v.stack[0]) && |w.disk| == NSECTOR
    ensures w.disk[v.stack[0]] == ZeroBlock() && v.stack[0] in w.owner && w.owner[v.stack[0]] == InFile(n, q)
  {
    var b := v.stack[0];
    assert BlkAt(w.addrs[n], w.disk, q) == b;
    assert SlotOwned(w, n, q);
    forall j: nat | j < WORDS ensures WordAt(w.disk[b], j) == 0 {
      EntriesEmpty(v, w, n, p, q, j);
    }
    ZeroWords(w.disk[b]);
  }

  /** The volume once the released buffer is gone, as it is unless the block happened to be
      in the cache already when it was allocated: a later read finds the old bytes. */
  function Reread(v: Vol, w: Vol): Vol
    requires v.stack != [] && v.stack[0] < |w.disk| == |v.disk|
  {
    Poke(w, v.stack[0], v.disk[v.stack[0]])
  }

  /** The file's new entries are the words that the block had before. */
  lemma EntriesReread(v: Vol, w: Vol, n: nat, p: Path, q: Path, j: nat)
    requires Walked(v, w, n, p, 0, true) && Unwritten(v, n, p, q) && Owned(w) && ChainOwned(v) && |v.disk| == NSECTOR
    requires j < WORDS && v.stack[0] < |w.disk| == |v.disk|
    ensures BlkAt(w.addrs[n], Reread(v, w).disk, q) == v.stack[0]
    ensures BlkAt(w.addrs[n], Reread(v, w).disk, Child(q, j)) == WordAt(v.disk[v.stack[0]], j)
  {
    ClearedInBuffer(v, w, n, p, q);
    assert SlotOwned(w, n, Top(q.i));
    if q.Mid? { assert InFile(n, Top(q.i)) != InFile(n, q); }
  }

  /** Every block still has one owner exactly when the block that became the index block
      held nothing but zeros. */
  lemma TornIndexOwned(v: Vol, w: Vol, n: nat, p: Path)
    requires Walked(v, w, n, p, 0, true) && Owned(w) && ChainOwned(v) && |v.disk| == NSECTOR
    ensures v.stack != [] && v.stack[0] < |w.disk| == |v.disk|
    ensures Owned(Reread(v, w)) <==> v.disk[v.stack[0]] == ZeroBlock()
  {
    var q := UnwrittenSlot(v, n, p);
    ClearedInBuffer(v, w, n, p, q);
    var b, x := v.stack[0], Reread(v, w);
    if v.disk[b] == ZeroBlock() {
      assert x.disk == w.disk;
    } else if Owned(x) {
      forall j: nat | j < WORDS ensures WordAt(v.disk[b], j) == 0 {
        EntriesReread(v, w, n, p, q, j);
        EntriesEmpty(v, w, n, p, q, j);
        assert SlotOwned(x, n, Child(q, j));
        assert InZone(WordAt(v.disk[b], j)) ==> OwnerTrue(w, WordAt(v.disk[b], j));
      }
      ZeroWords(v.disk[b]);
    }
  }

  /** ... and a word that names another file's block makes that block part of this file. */
  lemma TornIndexReads(v: Vol, w: Vol, n: nat, p: Path, q: Path, j: nat, m: nat, l: nat)
    requires Walked(v, w, n, p, 0, true) && Unwritten(v, n, p, q) && Owned(w) && ChainOwned(v) && |v.disk| == NSECTOR
    requires j < WORDS && v.stack[0] < |w.disk| == |v.disk| && IsData(Child(q, j))
    requires Backed(w, m, l, WordAt(v.disk[v.stack[0]], j))
    ensures var x, y := Reread(v, w), WordAt(v.disk[v.stack[0]], j);
            Backed(x, n, LbnOf(Child(q, j)), y) && x.disk[y] == w.disk[y]
  {
    EntriesReread(v, w, n, p, q, j);
    ClearedInBuffer(v, w, n, p, q);
    LbnOfPath(Child(q, j));
    assert SlotOwned(w, m, PathOf(l));
  }

  /** It happens: the one free block still has what a file kept there, and its first word is
      the number of a block of file m. Bmap, called for block 6 of a file that has no index
      block yet, finds no room; and from then on block 6 of that file is block l of m. */
  method LeakOnFullDisk(f: Inode, m: nat, l: nat, ghost y: nat) returns (b: nat, torn: bool)
    requires f.Ready() && |f.fs.stack| == 1 && f.i_addr[6] == 0 && f.fs.stack[0] < |f.fs.disk|
    requires y == WordAt(f.fs.disk[f.fs.stack[0]], 0) && Backed(f.fs.State(), m, l, y)
    modifies f, f.fs
    ensures b == 0 && torn && Leaked(old(f.fs.State()), f.fs.State(), f.ino, m, l, y)
  {
    ghost var v := f.fs.State();
    b, torn := f.Bmap(6);
    LeaksAt6(v, f.fs.State(), f.ino, m, l, y, b, torn);
  }

  /** Once the index block is read back, block 6 of file n is what block l of file m is. */
  ghost predicate Leaked(v: Vol, w: Vol, n: nat, m: nat, l: nat, y: nat) {
    && v.stack != [] && v.stack[0] < |w.disk| == |v.disk| && !Owned(Reread(v, w))
    && Backed(v, m, l, y) && Backed(Reread(v, w), n, 6, y) && Reread(v, w).disk[y] == v.disk[y]
  }

  lemma LeaksAt6(v: Vol, w: Vol, n: nat, m: nat, l: nat, y: nat, b: nat, torn: bool)
    requires Owned(v) && Owned(w) && |v.stack| == 1 && n in v.addrs && v.addrs[n][6] == 0
    requires Walked(v, w, n, PathOf(6), b, torn) && v.stack[0] < |v.disk|
    requires y == WordAt(v.disk[v.stack[0]], 0) && Backed(v, m, l, y)
    ensures b == 0 && torn && Leaked(v, w, n, m, l, y)
  {
    var p, q := Mid(6, 0), Top(6);
    WayTo6(v, n);
    TornIndexOwned(v, w, n, p);
    assert SlotGrown(v, w, m, PathOf(l));
    TornIndexReads(v, w, n, p, q, 0, m, l);
    assert WordAt(ZeroBlock(), 0) == 0;
  }

  lemma WayTo6(v: Vol, n: nat)
    requires n in v.addrs && |v.addrs[n]| == NADDR && v.addrs[n][6] == 0 && |v.stack| == 1
    ensures PathOf(6) == Mid(6, 0) == Child(Top(6), 0) && LbnOf(Mid(6, 0)) == 6
    ensures Unwritten(v, n, Mid(6, 0), Top(6)) && Missing(v, n, Mid(6, 0)) == 2 && Given(v, n, Mid(6, 0)) == 0
  {
  }
}
