/** Allocating, linking, cutting off and freeing blocks keep every block owned exactly
    once and every file's bytes in place. */
module VolumeSteps {
  import opened Common
  import opened DiskBlocks
  import opened FreeChain
  import opened VolumeState

  // ------------------------------------- logical block number <-> block slot

  function PathOf(lbn: nat): (p: Path)
    requires lbn < HUGE_FILE_BLOCK
    ensures ValidPath(p) && IsData(p)
  {
    if lbn < SMALL_FILE_BLOCK then Top(lbn)
    else if lbn < LARGE_FILE_BLOCK then Mid((lbn - SMALL_FILE_BLOCK) / WORDS + 6, (lbn - SMALL_FILE_BLOCK) % WORDS)
    else
      var x := lbn - LARGE_FILE_BLOCK;
      Leaf(x / (WORDS * WORDS) + 8, x / WORDS % WORDS, x % WORDS)
  }

  function LbnOf(p: Path): nat
    requires ValidPath(p) && IsData(p)
  {
    match p
    case Top(i) => i
    case Mid(i, j) => SMALL_FILE_BLOCK + (i - 6) * WORDS + j
    case Leaf(i, j, k) => LARGE_FILE_BLOCK + (i - 8) * WORDS * WORDS + j * WORDS + k
  }

  /** Logical block numbers below HUGE_FILE_BLOCK and data slots correspond one to one. */
  lemma PathOfLbn(lbn: nat)
    requires lbn < HUGE_FILE_BLOCK
    ensures LbnOf(PathOf(lbn)) == lbn
  {
  }

  lemma LbnOfPath(p: Path)
    requires ValidPath(p) && IsData(p)
    ensures LbnOf(p) < HUGE_FILE_BLOCK && PathOf(LbnOf(p)) == p
  {
    if p.Mid? { Digits(p.i - 6, p.j, 0); }
    if p.Leaf? { Digits(p.i - 8, p.j, p.k); }
  }

  /** Slot p comes before slot q in the file: its entry of i_addr, or its place in the index
      blocks below the same entry. */
  predicate Before(p: Path, q: Path) {
    || p.i < q.i
    || (p.i == q.i && !p.Top? && !q.Top? && p.j < q.j)
    || (p.i == q.i && p.Leaf? && q.Leaf? && p.j == q.j && p.k < q.k)
  }

  /** The blocks of a file are in the order of its slots, which leaves one correspondence. */
  lemma SlotsAscend(l: nat, m: nat)
    requires l < m < HUGE_FILE_BLOCK
    ensures Before(PathOf(l), PathOf(m))
  {
    if LARGE_FILE_BLOCK <= l {
      DigitsAscend(l - LARGE_FILE_BLOCK, m - LARGE_FILE_BLOCK);
    }
  }

  lemma DigitsAscend(x: nat, y: nat)
    requires x < y
    ensures x / WORDS < y / WORDS || (x / WORDS == y / WORDS && x % WORDS < y % WORDS)
    ensures x / (WORDS * WORDS) == x / WORDS / WORDS && y / (WORDS * WORDS) == y / WORDS / WORDS
    ensures x / WORDS < y / WORDS ==>
              || x / WORDS / WORDS < y / WORDS / WORDS
              || (x / WORDS / WORDS == y / WORDS / WORDS && x / WORDS % WORDS < y / WORDS % WORDS)
  {
  }

  /** The block that logical block lbn is in: the first 6 entries of i_addr, then the words of
      the two index blocks behind entries 6 and 7, then those of the 256 index blocks that the
      words of the blocks behind entries 8 and 9 name. */
  function BlockOf(addr: seq<nat>, disk: seq<Block>, lbn: nat): nat
    requires |addr| == NADDR && lbn < HUGE_FILE_BLOCK
  {
    if lbn < 6 then addr[lbn]
    else if lbn < 6 + 256 then Entry(disk, addr[6 + (lbn - 6) / 128], (lbn - 6) % 128)
    else Entry(disk, Entry(disk, addr[8 + (lbn - 262) / 16384], (lbn - 262) / 128 % 128), (lbn - 262) % 128)
  }

  lemma BlockOfIs(addr: seq<nat>, disk: seq<Block>, lbn: nat)
    requires |addr| == NADDR && lbn < HUGE_FILE_BLOCK
    ensures BlockOf(addr, disk, lbn) == BlkAt(addr, disk, PathOf(lbn))
  {
  }

  lemma Digits(a: nat, b: nat, c: nat)
    requires b < WORDS && c < WORDS
    ensures (a * WORDS + b) / WORDS == a && (a * WORDS + b) % WORDS == b
    ensures var x := a * WORDS * WORDS + b * WORDS + c;
            x / (WORDS * WORDS) == a && x / WORDS % WORDS == b && x % WORDS == c
  {
    assert (a * WORDS * WORDS + b * WORDS + c) / WORDS == a * WORDS + b;
  }

  // --------------------------------------------------------- file contents

  const MAX_BYTES: nat := HUGE_FILE_BLOCK * BLOCK_SIZE

  /** The byte at offset o: a hole reads as zero. */
  function ByteAt(v: Vol, n: nat, o: nat): byte
    requires n in v.addrs && |v.addrs[n]| == NADDR
  {
    if o >= MAX_BYTES then 0
    else
      var b := BlkAt(v.addrs[n], v.disk, PathOf(o / BLOCK_SIZE));
      if b == 0 || b >= |v.disk| then 0 else v.disk[b][o % BLOCK_SIZE]
  }

  ghost predicate SameBytes(v: Vol, w: Vol, n: nat)
    requires n in v.addrs && |v.addrs[n]| == NADDR && n in w.addrs && |w.addrs[n]| == NADDR
  {
    forall o: nat :: ByteAt(w, n, o) == ByteAt(v, n, o)
  }

  /** A slot keeps its block, and a data slot its bytes; an empty slot may have gained a
      cleared block. */
  ghost predicate SlotGrown(v: Vol, w: Vol, n: nat, p: Path)
    requires n in v.addrs && n in w.addrs && ValidPath(p)
  {
    && |v.addrs[n]| == NADDR && |w.addrs[n]| == NADDR
    && var b, c := BlkAt(v.addrs[n], v.disk, p), BlkAt(w.addrs[n], w.disk, p);
       if b != 0 then c == b && (IsData(p) && b < |v.disk| ==> b < |w.disk| && w.disk[b] == v.disk[b])
       else c != 0 && IsData(p) && c < |w.disk| ==> w.disk[c] == ZeroBlock()
  }

  ghost predicate GrownFor(v: Vol, w: Vol, n: nat) {
    && n in v.addrs && n in w.addrs && |v.addrs[n]| == NADDR && |w.addrs[n]| == NADDR && |w.disk| == |v.disk|
    && forall p {:trigger SlotGrown(v, w, n, p)} :: ValidPath(p) ==> SlotGrown(v, w, n, p)
  }

  ghost predicate GrownOnly(v: Vol, w: Vol) {
    && w.addrs.Keys == v.addrs.Keys && |w.disk| == |v.disk|
    && forall n, p {:trigger SlotGrown(v, w, n, p)} :: n in v.addrs && ValidPath(p) ==> SlotGrown(v, w, n, p)
  }

  lemma ByteGrown(v: Vol, w: Vol, n: nat, o: nat)
    requires n in v.addrs && n in w.addrs && |v.addrs[n]| == NADDR && |w.addrs[n]| == NADDR && |w.disk| == |v.disk|
    requires o < MAX_BYTES ==> SlotGrown(v, w, n, PathOf(o / BLOCK_SIZE))
    ensures ByteAt(w, n, o) == ByteAt(v, n, o)
  {
  }

  lemma GrownForBytes(v: Vol, w: Vol, n: nat)
    requires GrownFor(v, w, n)
    ensures SameBytes(v, w, n)
  {
    forall o: nat ensures ByteAt(w, n, o) == ByteAt(v, n, o) { ByteGrown(v, w, n, o); }
  }

  lemma GrownKeepsBytes(v: Vol, w: Vol, n: nat)
    requires GrownOnly(v, w) && n in v.addrs
    ensures GrownFor(v, w, n) && SameBytes(v, w, n)
  {
    assert SlotGrown(v, w, n, Top(0));
    GrownForBytes(v, w, n);
  }

  lemma GrownRefl(v: Vol)
    requires Owned(v)
    ensures GrownOnly(v, v)
  {
  }

  lemma GrownForRefl(v: Vol)
    requires Owned(v)
    ensures forall m :: m in v.addrs ==> GrownFor(v, v, m)
  {
  }

  lemma GrownForTrans(v: Vol, w: Vol, x: Vol, m: nat)
    requires GrownFor(v, w, m) && GrownFor(w, x, m)
    ensures GrownFor(v, x, m)
  {
    forall p | ValidPath(p) ensures SlotGrown(v, x, m, p) { assert SlotGrown(v, w, m, p) && SlotGrown(w, x, m, p); }
  }

  lemma GrownTrans(v: Vol, w: Vol, x: Vol)
    requires GrownOnly(v, w) && GrownOnly(w, x)
    ensures GrownOnly(v, x)
  {
    forall n, p | n in v.addrs && ValidPath(p) ensures SlotGrown(v, x, n, p) {
      assert SlotGrown(v, w, n, p) && SlotGrown(w, x, n, p);
    }
  }

  // ----------------------------------------------------------------- Alloc

  /** Alloc: the top of the chain, cleared, now held by the caller. */
  function Take(v: Vol): Vol
    requires v.stack != [] && TableOk(v.super) && 1 <= v.super.nfree <= GROUP
    requires v.stack[|v.stack| - 1] < |v.disk|
  {
    var top := |v.stack| - 1;
    var b := v.stack[top];
    v.(super := Pop(v.super, Tables(v.disk)).1, disk := v.disk[b := ZeroBlock()], stack := v.stack[..top],
       owner := v.owner[b := Held])
  }

  /** Rewriting a block no file owns changes no slot of any file. */
  lemma OffTreeWrite(v: Vol, b: nat, x: Block, n: nat, p: Path)
    requires Sound(v) && InZone(b) && b in v.owner && !v.owner[b].InFile?
    requires n in v.addrs && ValidPath(p)
    ensures BlkAt(v.addrs[n], v.disk[b := x], p) == BlkAt(v.addrs[n], v.disk, p) != b
  {
    assert SlotOwned(v, n, p) && SlotOwned(v, n, Top(p.i));
    if !p.Top? { assert SlotOwned(v, n, Mid(p.i, p.j)); }
  }

  lemma TakeChain(v: Vol)
    requires Chained(v) && StackOk(v.stack) && v.stack != [] && |v.disk| == NSECTOR
    ensures Pop(v.super, Tables(v.disk)).0 == Some(v.stack[|v.stack| - 1])
    ensures InZone(v.stack[|v.stack| - 1]) && Chained(Take(v)) && Take(v).super.nfree >= 1
  {
    TakeTop(v);
    TakeRest(v, Take(v), ZeroBlock());
  }

  lemma TakeTop(v: Vol)
    requires Chained(v) && StackOk(v.stack) && v.stack != [] && |v.disk| == NSECTOR
    ensures Pop(v.super, Tables(v.disk)).0 == Some(v.stack[|v.stack| - 1]) && InZone(v.stack[|v.stack| - 1])
    ensures Pop(v.super, Tables(v.disk)).1.nfree >= 1
  {
    ChainOf(v);
    PopTakesTop(v.super, Tables(v.disk), v.stack);
  }

  lemma TakeRest(v: Vol, w: Vol, x: Block)
    requires Chained(v) && StackOk(v.stack) && v.stack != [] && InZone(v.stack[|v.stack| - 1]) && |v.disk| == NSECTOR
    requires v.super.nfree >= 1 && Pop(v.super, Tables(v.disk)).1.nfree >= 1
    requires w.super == Pop(v.super, Tables(v.disk)).1 && w.stack == v.stack[..|v.stack| - 1]
    requires w.disk == v.disk[v.stack[|v.stack| - 1] := x]
    ensures Chained(w)
  {
    ChainOf(v);
    PopThenClear(v.super, Tables(v.disk), v.stack, LoadSuper(x));
    TablesUpdate(v.disk, v.stack[|v.stack| - 1], x);
    ChainedAs(w, w.super, Tables(v.disk)[v.stack[|v.stack| - 1] := LoadSuper(x)]);
  }

  lemma ChainedAs(v: Vol, s: Super, tables: seq<Super>)
    requires v.super == s && Tables(v.disk) == tables && Chain(s, tables, v.stack) && s.nfree >= 1
    ensures Chained(v)
  {
    ChainIs(v);
  }

  lemma PopThenClear(s: Super, tables: seq<Super>, stack: seq<nat>, x: Super)
    requires Chain(s, tables, stack) && StackOk(stack) && stack != [] && s.nfree >= 1 && stack[|stack| - 1] < |tables|
    ensures Chain(Pop(s, tables).1, tables[stack[|stack| - 1] := x], stack[..|stack| - 1])
  {
    PopTakesTop(s, tables, stack);
    ChainFrame(Pop(s, tables).1, tables, tables[stack[|stack| - 1] := x], stack[..|stack| - 1]);
  }

  lemma TakeOwners(v: Vol)
    requires ChainOwned(v) && v.stack != [] && |v.disk| == NSECTOR && Chained(Take(v))
    ensures ChainOwned(Take(v))
  {
    OwnedStack(v);
  }

  /** A step that rewrites only block b, which no file owns, and moves it between the
      chain and the held blocks. */
  lemma OffTreeStep(v: Vol, w: Vol, b: nat)
    requires Sound(v) && InZone(b) && b in v.owner && !v.owner[b].InFile?
    requires w.addrs == v.addrs && |w.disk| == |v.disk| && w.disk == v.disk[b := w.disk[b]]
    requires b in w.owner && !w.owner[b].InFile? && w.owner == v.owner[b := w.owner[b]]
    requires OwnerTrue(w, b)
    requires forall k: nat :: k < |v.stack| && v.stack[k] != b ==> k < |w.stack| && w.stack[k] == v.stack[k]
    ensures Sound(w)
    ensures forall n, p :: n in v.addrs && ValidPath(p) ==>
            BlkAt(w.addrs[n], w.disk, p) == BlkAt(v.addrs[n], v.disk, p) != b
  {
    forall n, p | n in v.addrs && ValidPath(p)
      ensures BlkAt(w.addrs[n], w.disk, p) == BlkAt(v.addrs[n], v.disk, p) != b && SlotOwned(w, n, p)
    {
      OffTreeWrite(v, b, w.disk[b], n, p);
      assert SlotOwned(v, n, p);
    }
    forall c: nat | InZone(c) ensures OwnerTrue(w, c) {
      assert OwnerTrue(v, c);
      if c != b && v.owner[c].InFile? { OffTreeWrite(v, b, w.disk[b], v.owner[c].ino, v.owner[c].path); }
    }
  }

  lemma OffTreeGrown(v: Vol, w: Vol, b: nat)
    requires Sound(v) && w.addrs == v.addrs && |w.disk| == |v.disk| && InZone(b) && w.disk == v.disk[b := w.disk[b]]
    requires forall n, p :: n in v.addrs && ValidPath(p) ==>
             BlkAt(w.addrs[n], w.disk, p) == BlkAt(v.addrs[n], v.disk, p) != b
    ensures GrownOnly(v, w)
  {
    forall n, p | n in v.addrs && ValidPath(p) ensures SlotGrown(v, w, n, p) {
      var c := BlkAt(v.addrs[n], v.disk, p);
      assert BlkAt(w.addrs[n], w.disk, p) == c != b;
    }
  }

  lemma TakeStep(v: Vol)
    requires Owned(v) && v.stack != []
    ensures Pop(v.super, Tables(v.disk)).0 == Some(v.stack[|v.stack| - 1])
    ensures Owned(Take(v)) && GrownOnly(v, Take(v)) && Take(v).super.nfree >= 1
    ensures forall n, p :: n in v.addrs && ValidPath(p) ==>
            BlkAt(v.addrs[n], Take(v).disk, p) == BlkAt(v.addrs[n], v.disk, p)
  {
    OwnedStack(v);
    TakeChain(v);
    TakeOwners(v);
    var b := v.stack[|v.stack| - 1];
    assert v.owner[b].OnChain?;
    OffTreeStep(v, Take(v), b);
    OffTreeGrown(v, Take(v), b);
  }

  // ------------------------------------------------------------------ link

  function Link(v: Vol, n: nat, p: Path, b: nat): Vol
    requires n in v.addrs && |v.addrs[n]| == NADDR && ValidPath(p) && b < WORD_LIMIT
  {
    Point(v, n, p, b).(owner := v.owner[b := InFile(n, p)])
  }

  /** Every slot but p of file n names the block it named. */
  ghost predicate OnlySlot(v: Vol, w: Vol, n: nat, p: Path) {
    && w.addrs.Keys == v.addrs.Keys
    && (forall m :: m in v.addrs ==> |v.addrs[m]| == NADDR && |w.addrs[m]| == NADDR)
    && forall m, q :: m in v.addrs && ValidPath(q) && !(m == n && q == p) ==>
         BlkAt(w.addrs[m], w.disk, q) == BlkAt(v.addrs[m], v.disk, q)
  }

  lemma LinkSound(v: Vol, n: nat, p: Path, b: nat)
    requires Sound(v) && n in v.addrs && ValidPath(p)
    requires InZone(b) && b in v.owner && v.owner[b] == Held && v.disk[b] == ZeroBlock()
    requires BlkAt(v.addrs[n], v.disk, p) == 0
    requires !p.Top? ==> BlkAt(v.addrs[n], v.disk, Parent(p)) != 0
    ensures var w := Link(v, n, p, b);
            && Sound(w) && GrownOnly(v, w) && OnlySlot(v, w, n, p) && BlkAt(w.addrs[n], w.disk, p) == b
  {
    var w := Link(v, n, p, b);
    forall m, q | m in v.addrs && ValidPath(q)
      ensures BlkAt(w.addrs[m], w.disk, q) == if m == n && q == p then b else BlkAt(v.addrs[m], v.disk, q)
      ensures |w.addrs[m]| == NADDR
    {
      LinkReads(v, n, p, b, m, q);
    }
    if !p.Top? { assert SlotOwned(v, n, Parent(p)); }
    LinkSlots(v, w, n, p, b);
    LinkOwners(v, w, n, p, b);
  }

  lemma LinkSlots(v: Vol, w: Vol, n: nat, p: Path, b: nat)
    requires Sound(v) && InZone(b) && b in v.owner && v.owner[b] == Held && v.disk[b] == ZeroBlock()
    requires n in v.addrs && ValidPath(p) && BlkAt(v.addrs[n], v.disk, p) == 0 && w == Link(v, n, p, b)
    requires !p.Top? ==> BlkAt(v.addrs[n], v.disk, Parent(p)) != 0
    requires OnlySlot(v, w, n, p) && BlkAt(w.addrs[n], w.disk, p) == b
    ensures forall m, q {:trigger SlotOwned(w, m, q)} :: m in w.addrs && ValidPath(q) ==> SlotOwned(w, m, q)
    ensures GrownOnly(v, w)
  {
    if !p.Top? { assert SlotOwned(v, n, Parent(p)); }
    forall m, q | m in v.addrs && ValidPath(q) ensures SlotOwned(w, m, q) && SlotGrown(v, w, m, q) {
      assert SlotOwned(v, m, q);
    }
  }

  lemma LinkOwners(v: Vol, w: Vol, n: nat, p: Path, b: nat)
    requires Sound(v) && InZone(b) && b in v.owner && v.owner[b] == Held && OnlySlot(v, w, n, p) && n in v.addrs
    requires ValidPath(p) && BlkAt(v.addrs[n], v.disk, p) == 0 && BlkAt(w.addrs[n], w.disk, p) == b
    requires w.stack == v.stack && w.owner == v.owner[b := InFile(n, p)]
    ensures forall c: nat {:trigger OwnerTrue(w, c)} :: InZone(c) ==> OwnerTrue(w, c)
  {
    forall c: nat | InZone(c) ensures OwnerTrue(w, c) { assert OwnerTrue(v, c); }
  }

  lemma LinkChain(v: Vol, n: nat, p: Path, b: nat)
    requires Owned(v) && n in v.addrs && ValidPath(p) && InZone(b) && b in v.owner && v.owner[b] == Held
    requires !p.Top? ==> BlkAt(v.addrs[n], v.disk, Parent(p)) != 0
    ensures ChainOwned(Link(v, n, p, b))
  {
    var w := Link(v, n, p, b);
    var t := if p.Top? then 0 else BlkAt(v.addrs[n], v.disk, Parent(p));
    if !p.Top? { assert SlotOwned(v, n, Parent(p)); }
    assert w.disk == v.disk || (t < |v.disk| && w.disk == v.disk[t := w.disk[t]]);
    if w.disk != v.disk { TablesUpdate(v.disk, t, w.disk[t]); }
    ChainOf(v);
    ChainFrame(v.super, Tables(v.disk), Tables(w.disk), v.stack);
    ChainIs(w);
  }

  lemma LinkStep(v: Vol, n: nat, p: Path, b: nat)
    requires Owned(v) && n in v.addrs && ValidPath(p)
    requires InZone(b) && b in v.owner && v.owner[b] == Held && v.disk[b] == ZeroBlock()
    requires BlkAt(v.addrs[n], v.disk, p) == 0
    requires !p.Top? ==> BlkAt(v.addrs[n], v.disk, Parent(p)) != 0
    ensures var w := Link(v, n, p, b);
            && Owned(w) && GrownOnly(v, w) && OnlySlot(v, w, n, p) && w.stack == v.stack && w.super == v.super
            && BlkAt(w.addrs[n], w.disk, p) == b
  {
    LinkSound(v, n, p, b);
    LinkChain(v, n, p, b);
  }

  // --------------------------------------------------------- cut and free

  /** Entry i of a file is given up: its whole subtree is held from here on. */
  ghost function Cut(v: Vol, n: nat, i: nat): Vol
    requires n in v.addrs && |v.addrs[n]| == NADDR && i < NADDR
  {
    Point(v, n, Top(i), 0).(owner := map b | b in v.owner ::
      if v.owner[b].InFile? && v.owner[b].ino == n && v.owner[b].path.i == i then Held else v.owner[b])
  }

  lemma CutStep(v: Vol, n: nat, i: nat)
    requires Settled(v) && n in v.addrs && i < NADDR
    ensures var w := Cut(v, n, i);
            && Owned(w) && w.stack == v.stack && w.disk == v.disk && w.super == v.super
            && (forall b: nat :: InZone(b) ==>
                  (w.owner[b] == Held <==> exists p :: ValidPath(p) && p.i == i && BlkAt(v.addrs[n], v.disk, p) == b))
  {
    var w := Cut(v, n, i);
    forall m, q | m in v.addrs && ValidPath(q) ensures SlotOwned(w, m, q) { assert SlotOwned(v, m, q); }
    forall b: nat | InZone(b) ensures OwnerTrue(w, b) { assert OwnerTrue(v, b); }
    forall b: nat | InZone(b)
      ensures w.owner[b] == Held <==> exists p :: ValidPath(p) && p.i == i && BlkAt(v.addrs[n], v.disk, p) == b
    {
      assert OwnerTrue(v, b);
      if p :| ValidPath(p) && p.i == i && BlkAt(v.addrs[n], v.disk, p) == b { assert SlotOwned(v, n, p); }
    }
  }

  /** Free: a held block goes on top of the chain. */
  function Give(v: Vol, b: nat): Vol
    requires TableOk(v.super) && v.super.nfree <= GROUP && b < |v.disk|
  {
    v.(super := Push(v.super, b).0, disk := v.disk[b := Pushed(v.super, b, v.disk[b])],
       stack := v.stack + [b], owner := v.owner[b := OnChain(|v.stack|)])
  }

  lemma GiveStep(v: Vol, b: nat)
    requires Owned(v) && InZone(b) && b in v.owner && v.owner[b] == Held
    ensures TableOk(v.super) && v.super.nfree <= GROUP
    ensures var w := Give(v, b);
            && Owned(w) && w.addrs == v.addrs
            && (forall n, p :: n in v.addrs && ValidPath(p) ==>
              BlkAt(w.addrs[n], w.disk, p) == BlkAt(v.addrs[n], v.disk, p))
            && (forall c: nat :: c < |v.disk| && c != b ==> w.disk[c] == v.disk[c])
            && (forall c: nat :: InZone(c) ==> (w.owner[c] == Held <==> v.owner[c] == Held && c != b))
  {
    GiveChain(v, b);
    OffTreeStep(v, Give(v, b), b);
  }

  lemma GiveChain(v: Vol, b: nat)
    requires Owned(v) && InZone(b) && b in v.owner && v.owner[b] == Held
    ensures TableOk(v.super) && v.super.nfree <= GROUP && ChainOwned(Give(v, b)) && Give(v, b).super.nfree >= 1
  {
    OwnedStack(v);
    PushedLoads(v.super, b, v.disk[b]);
    FreedChain(v, Give(v, b), b);
  }

  /** The chain after block b is freed, whatever its bytes past the table are. */
  lemma FreedChain(v: Vol, w: Vol, b: nat)
    requires Chained(v) && StackOk(v.stack) && InZone(b) && b !in v.stack && |v.disk| == NSECTOR
    requires w.super == Push(v.super, b).0 && w.stack == v.stack + [b]
    requires |w.disk| == NSECTOR && w.disk == v.disk[b := w.disk[b]]
    requires LoadSuper(w.disk[b]) == if v.super.nfree >= GROUP then v.super else LoadSuper(v.disk[b])
    ensures Chained(w) && StackOk(w.stack) && w.super.nfree >= 1
  {
    ChainOf(v);
    TablesUpdate(v.disk, b, w.disk[b]);
    PushAddsTop(v.super, Tables(v.disk), v.stack, b, LoadSuper(w.disk[b]));
    ChainIs(w);
  }
}
