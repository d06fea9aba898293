/** Who owns each data block of a volume: the free chain, one data slot of one file or
    one index slot of one file. */
module VolumeState {
  import opened DiskBlocks
  import opened FreeChain

  const SMALL_FILE_BLOCK: nat := 6
  const LARGE_FILE_BLOCK: nat := 262        // 128 * 2 + 6
  const HUGE_FILE_BLOCK: nat := 33030       // 128 * 128 * 2 + 128 * 2 + 6
  const NADDR: nat := 10

  /** A slot of a file's block tree: an entry of i_addr, of a block it names, or of a
      block that one names. */
  datatype Path = Top(i: nat) | Mid(i: nat, j: nat) | Leaf(i: nat, j: nat, k: nat)

  predicate ValidPath(p: Path) {
    match p
    case Top(i) => i < NADDR
    case Mid(i, j) => 6 <= i < NADDR && j < WORDS
    case Leaf(i, j, k) => 8 <= i < NADDR && j < WORDS && k < WORDS
  }

  predicate IsData(p: Path) {
    match p
    case Top(i) => i < 6
    case Mid(i, _) => 6 <= i < 8
    case Leaf(_, _, _) => true
  }

  function Entry(disk: seq<Block>, b: nat, j: nat): nat
    requires j < WORDS
  {
    if b == 0 || b >= |disk| then 0 else WordAt(disk[b], j)
  }

  /** The block number stored at a slot, 0 when the slot or its table is missing. */
  function BlkAt(addr: seq<nat>, disk: seq<Block>, p: Path): nat
    requires |addr| == NADDR && ValidPath(p)
  {
    match p
    case Top(i) => addr[i]
    case Mid(i, j) => Entry(disk, addr[i], j)
    case Leaf(i, j, k) => Entry(disk, Entry(disk, addr[i], j), k)
  }

  /** Held blocks are in transit: taken from the chain and not linked yet, or cut off
      from a file and not yet freed. */
  datatype Owner = OnChain(at: nat) | InFile(ino: nat, path: Path) | Held

  datatype Vol = Vol(super: Super, disk: seq<Block>, stack: seq<nat>, addrs: map<nat, seq<nat>>, owner: map<nat, Owner>)

  ghost predicate Loads(disk: seq<Block>, tables: seq<Super>) {
    tables == Tables(disk)
  }

  /** The super block and the link blocks on disk list exactly v.stack. */
  ghost predicate Chained(v: Vol) {
    && TableOk(v.super) && v.super.nfree <= GROUP && (v.stack != [] ==> v.super.nfree >= 1)
    && forall t :: Loads(v.disk, t) ==> Chain(v.super, t, v.stack)
  }

  lemma ChainOf(v: Vol)
    requires Chained(v)
    ensures Chain(v.super, Tables(v.disk), v.stack)
  {
    assert Loads(v.disk, Tables(v.disk));
  }

  lemma ChainIs(v: Vol)
    requires Chain(v.super, Tables(v.disk), v.stack)
    ensures Chained(v)
  {
  }

  ghost predicate ChainOwned(v: Vol) {
    && Chained(v)
    && forall k: nat :: k < |v.stack| ==>
      InZone(v.stack[k]) && v.stack[k] in v.owner && v.owner[v.stack[k]] == OnChain(k)
  }

  ghost predicate SlotOwned(v: Vol, n: nat, p: Path)
    requires n in v.addrs && |v.addrs[n]| == NADDR && ValidPath(p)
  {
    var b := BlkAt(v.addrs[n], v.disk, p);
    b != 0 ==> InZone(b) && b in v.owner && v.owner[b] == InFile(n, p)
  }

  ghost predicate OwnerTrue(v: Vol, b: nat) {
    && b in v.owner
    && match v.owner[b]
       case OnChain(k) => k < |v.stack| && v.stack[k] == b
       case InFile(n, p) => n in v.addrs && |v.addrs[n]| == NADDR && ValidPath(p) && BlkAt(v.addrs[n], v.disk, p) == b
       case Held => true
  }

  /** Every data block has exactly one owner, and every owner's claim is real. */
  ghost predicate Sound(v: Vol) {
    && |v.disk| == NSECTOR
    && (forall n :: n in v.addrs ==> |v.addrs[n]| == NADDR)
    && (forall n, p {:trigger SlotOwned(v, n, p)} :: n in v.addrs && ValidPath(p) ==> SlotOwned(v, n, p))
    && (forall b: nat :: InZone(b) ==> b in v.owner)
    && (forall b: nat {:trigger OwnerTrue(v, b)} :: InZone(b) ==> OwnerTrue(v, b))
  }

  ghost predicate Owned(v: Vol) {
    Sound(v) && ChainOwned(v)
  }

  /** Nothing is in transit: the zone is partitioned. */
  ghost predicate Settled(v: Vol) {
    Owned(v) && forall b: nat :: InZone(b) ==> v.owner[b] != Held
  }

  lemma OwnedStack(v: Vol)
    requires ChainOwned(v)
    ensures StackOk(v.stack)
  {
    forall i, j | 0 <= i < j < |v.stack| ensures v.stack[i] != v.stack[j] {
      assert v.owner[v.stack[i]] == OnChain(i) && v.owner[v.stack[j]] == OnChain(j);
    }
  }

  // ------------------------------------------------- a slot pointing to b

  /** What BlkAt reads when slot p of file n is pointed at block b, through the
      i_addr entry or through the index block that holds the slot. */
  function Point(v: Vol, n: nat, p: Path, b: nat): Vol
    requires n in v.addrs && |v.addrs[n]| == NADDR && ValidPath(p) && b < WORD_LIMIT
  {
    match p
    case Top(i) =>
      var a: seq<nat> := v.addrs[n][i := b];
      v.(addrs := v.addrs[n := a])
    case Mid(i, j) =>
      var t := v.addrs[n][i];
      if t < |v.disk| then v.(disk := v.disk[t := WithWord(v.disk[t], j, b)]) else v
    case Leaf(i, j, k) =>
      var t := Entry(v.disk, v.addrs[n][i], j);
      if t < |v.disk| then v.(disk := v.disk[t := WithWord(v.disk[t], k, b)]) else v
  }

  function Parent(p: Path): Path
    requires !p.Top?
  {
    match p
    case Mid(i, _) => Top(i)
    case Leaf(i, j, _) => Mid(i, j)
  }

  /** Linking a cleared block into an empty slot changes that slot and nothing else. */
  lemma LinkReads(v: Vol, n: nat, p: Path, b: nat, m: nat, q: Path)
    requires Sound(v) && n in v.addrs && m in v.addrs && ValidPath(p) && ValidPath(q)
    requires InZone(b) && b in v.owner && v.owner[b] == Held && v.disk[b] == ZeroBlock()
    requires BlkAt(v.addrs[n], v.disk, p) == 0
    requires !p.Top? ==> BlkAt(v.addrs[n], v.disk, Parent(p)) != 0
    ensures var w := Point(v, n, p, b);
            BlkAt(w.addrs[m], w.disk, q) == if m == n && q == p then b else BlkAt(v.addrs[m], v.disk, q)
  {
    var w := Point(v, n, p, b);
    assert SlotOwned(v, m, Top(q.i));
    if !q.Top? { assert SlotOwned(v, m, Mid(q.i, q.j)); }
    match p {
      case Top(i) =>
      case Mid(i, j) =>
        assert SlotOwned(v, n, Top(i));
        var t := v.addrs[n][i];
        forall x: nat | x < WORDS ensures WordAt(w.disk[t], x) == if x == j then b else WordAt(v.disk[t], x) {
          WordOfWith(v.disk[t], j, b, x);
        }
      case Leaf(i, j, k) =>
        assert SlotOwned(v, n, Mid(i, j));
        var t := Entry(v.disk, v.addrs[n][i], j);
        forall x: nat | x < WORDS ensures WordAt(w.disk[t], x) == if x == k then b else WordAt(v.disk[t], x) {
          WordOfWith(v.disk[t], k, b, x);
        }
    }
  }
}
