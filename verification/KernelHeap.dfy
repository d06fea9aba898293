/** The kernel heap: operator new and delete with their block headers, over the extent map. */
module KernelHeap {
  import opened ExtentMap

  const WORD: nat := 0x1_0000_0000
  const MAP_SIZE: nat := 0x200                 // MEMORY_MAP_ARRAY_SIZE
  const HEAP_START: nat := 0xC018_0000
  const HEAP_END: nat := 0xC020_0000           // HEAP_START + KERNEL_HEAP_SIZE
  const MAGIC: nat := 0x4B4E_4C4D
  const HEADER: nat := 8
  const ALIGNMENT: nat := 8

  datatype Header = Header(magic: nat, totalSize: nat)

  /** What operator delete accepts as a block's header. */
  predicate Genuine(h: Header) {
    h.magic == MAGIC && h.totalSize >= HEADER
  }

  /** AlignUp in 32-bit arithmetic. */
  function AlignUp(v: nat): (r: nat)
    ensures r % ALIGNMENT == 0
    ensures v + ALIGNMENT <= WORD ==> v <= r < v + ALIGNMENT
  {
    var w := (v + ALIGNMENT - 1) % WORD;
    w - w % ALIGNMENT
  }

  /** Block sizes operator new asks for. */
  function TotalSize(size: nat): nat {
    AlignUp(size + HEADER)
  }

  /** A block has room for the request and its header exactly up to 2^32 - 16 bytes; past
      that the rounding wraps around to 0. */
  lemma TotalSizeFits(size: nat)
    requires size + HEADER < WORD
    ensures TotalSize(size) >= size + HEADER <==> size <= WORD - 16
    ensures size > WORD - 16 ==> TotalSize(size) == 0
  {
    if size > WORD - 16 {
      assert (size + HEADER + ALIGNMENT - 1) % WORD == size + HEADER + ALIGNMENT - 1 - WORD;
    }
  }

  ghost predicate Covered(live: map<nat, nat>, u: nat) {
    exists a :: a in live && a <= u < a + live[a]
  }

  /** A unit of the heap is free or in a live block, not both; any other unit is neither. */
  ghost predicate UnitTiled(free: seq<MapNode>, live: map<nat, nat>, u: nat) {
    if HEAP_START <= u < HEAP_END then IsFree(free, u) != Covered(live, u) else !IsFree(free, u) && !Covered(live, u)
  }

  /** Free extents and live blocks tile the heap: every unit is in exactly one of them. */
  ghost predicate Tiled(free: seq<MapNode>, live: map<nat, nat>) {
    && (forall u: nat {:trigger UnitTiled(free, live, u)} :: UnitTiled(free, live, u))
    && (forall a :: a in live ==> live[a] > 0)
    && (forall a, b :: a in live && b in live && a < b ==> a + live[a] <= b)
  }

  ghost predicate AllAligned(free: seq<MapNode>, live: map<nat, nat>) {
    && (forall i :: 0 <= i < |free| ==> free[i].idx % ALIGNMENT == 0 && free[i].size % ALIGNMENT == 0)
    && (forall a :: a in live ==> a % ALIGNMENT == 0 && live[a] % ALIGNMENT == 0 && live[a] > HEADER)
  }

  lemma LiveNotFree(free: seq<MapNode>, live: map<nat, nat>, b: nat, u: nat)
    requires Tiled(free, live) && b in live && b <= u < b + live[b]
    ensures !IsFree(free, u) && HEAP_START <= u
  {
    assert UnitTiled(free, live, u) && Covered(live, u);
  }

  /** A free run and a live block share no unit. */
  lemma FreeApart(free: seq<MapNode>, live: map<nat, nat>, b: nat, a: nat, n: nat)
    requires Tiled(free, live) && b in live && FreeRun(free, a, n) && n > 0
    ensures b + live[b] <= a || a + n <= b
  {
    if b < a + n && a < b + live[b] { LiveNotFree(free, live, b, if a < b then b else a); }
  }

  lemma TakeTiled(free: seq<MapNode>, live: map<nat, nat>, i: nat, n: nat)
    requires Canonical(free) && Tiled(free, live) && i < |free| && 0 < n <= free[i].size
    ensures free[i].idx !in live && Tiled(Cut(free, i, n), live[free[i].idx := n])
  {
    var a, c, l := free[i].idx, Cut(free, i, n), live[free[i].idx := n];
    forall u: nat | a <= u < a + n ensures IsFree(free, u) { CutFree(free, i, n, u); }
    assert FreeRun(free, a, n);
    forall b | b in live ensures b != a && (b + live[b] <= a || a + n <= b) { FreeApart(free, live, b, a, n); }
    forall u: nat ensures UnitTiled(c, l, u) {
      assert UnitTiled(free, live, u);
      CutFree(free, i, n, u);
      TakeCovers(live, a, n, u);
    }
    forall x, y | x in l && y in l && x < y ensures x + l[x] <= y {
      assert (x == a || x in live) && (y == a || y in live);
    }
  }

  lemma TakeCovers(live: map<nat, nat>, a: nat, n: nat, u: nat)
    requires a !in live
    ensures Covered(live[a := n], u) <==> Covered(live, u) || a <= u < a + n
  {
    var l := live[a := n];
    if a <= u < a + n { assert a in l; }
    if b :| b in live && b <= u < b + live[b] { assert b in l; }
  }

  /** A live block is entirely in use. */
  lemma LiveInUse(free: seq<MapNode>, live: map<nat, nat>, a: nat)
    requires Canonical(free) && Tiled(free, live) && a in live
    ensures InUse(free, live[a], a)
  {
    forall i | 0 <= i < |free| ensures free[i].idx + free[i].size <= a || a + live[a] <= free[i].idx {
      forall u: nat | free[i].idx <= u < free[i].idx + free[i].size ensures IsFree(free, u) {
        assert Within(free[i], u);
      }
      FreeApart(free, live, a, free[i].idx, free[i].size);
    }
  }

  lemma GiveTiled(free: seq<MapNode>, live: map<nat, nat>, k: nat, a: nat)
    requires Canonical(free) && Tiled(free, live) && a in live && Before(free, k, a) && InUse(free, live[a], a)
    ensures Tiled(Put(free, k, live[a], a), live - {a})
  {
    var n, l := live[a], live - {a};
    forall u: nat ensures UnitTiled(Put(free, k, n, a), l, u) {
      assert UnitTiled(free, live, u);
      PutFree(free, k, n, a, u);
      GiveCovers(free, live, a, u);
      assert a <= u < a + n ==> Covered(live, u);
    }
  }

  lemma GiveCovers(free: seq<MapNode>, live: map<nat, nat>, a: nat, u: nat)
    requires Tiled(free, live) && a in live
    ensures Covered(live - {a}, u) <==> Covered(live, u) && !(a <= u < a + live[a])
  {
    if b :| b in live - {a} && b <= u < b + (live - {a})[b] { assert b in live; }
    if b :| b in live && b <= u < b + live[b] && !(a <= u < a + live[a]) { assert b in live - {a}; }
  }

  lemma CutAligned(free: seq<MapNode>, live: map<nat, nat>, i: nat, n: nat)
    requires AllAligned(free, live) && i < |free| && HEADER < n <= free[i].size && n % ALIGNMENT == 0
    ensures AllAligned(Cut(free, i, n), live[free[i].idx := n])
  {
  }

  /** What handing out the front of extent i leaves. */
  lemma TakeBlock(free: seq<MapNode>, live: map<nat, nat>, i: nat, n: nat)
    requires Canonical(free) && Tiled(free, live) && AllAligned(free, live) && i < |free|
    requires HEADER < n <= free[i].size && n % ALIGNMENT == 0
    ensures var a, c, l := free[i].idx, Cut(free, i, n), live[free[i].idx := n];
            && a !in live && a > 0 && (a + HEADER) % ALIGNMENT == 0 && FreeRun(free, a, n)
            && Canonical(c) && Tiled(c, l) && AllAligned(c, l)
  {
    TakeTiled(free, live, i, n);
    CutCanonical(free, i, n);
    CutAligned(free, live, i, n);
    forall u: nat | free[i].idx <= u < free[i].idx + n ensures IsFree(free, u) { CutFree(free, i, n, u); }
  }

  lemma FrontNotLive(free: seq<MapNode>, live: map<nat, nat>)
    requires Canonical(free) && Tiled(free, live) && free != []
    ensures free[0].idx !in live
  {
    assert Within(free[0], free[0].idx);
    if free[0].idx in live { LiveNotFree(free, live, free[0].idx, free[0].idx); }
  }

  lemma PutAligned(free: seq<MapNode>, live: map<nat, nat>, k: nat, a: nat)
    requires AllAligned(free, live) && k <= |free| && a in live
    ensures AllAligned(Put(free, k, live[a], a), live - {a})
  {
  }

  /** The block is the front of the lowest free extent that has room for it. */
  ghost predicate LowestFit(free: seq<MapNode>, n: nat, block: nat) {
    exists i ::
      0 <= i < |free| && free[i].idx == block && free[i].size >= n && forall j :: 0 <= j < i ==> free[j].size < n
  }

  class KernelAllocator {
    const nodes: array<MapNode>
    var headers: map<nat, Header>             // the header words in heap memory, by address
    ghost var free: seq<MapNode>
    ghost var live: map<nat, nat>             // size of each allocated block, header included

    ghost predicate Valid()
      reads this, nodes
    {
      && nodes.Length == MAP_SIZE && Canonical(free) && Lists(nodes[..], free)
      && Tiled(free, live) && AllAligned(free, live)
      && forall a :: a in live ==> a in headers && headers[a] == Header(MAGIC, live[a])
    }

    /** Initialize: the whole heap is one free extent. */
    constructor ()
      ensures Valid() && fresh(nodes) && live == map[] && free == [MapNode(HEAP_END - HEAP_START, HEAP_START)]
    {
      nodes := new MapNode[MAP_SIZE](_ => ZERO);
      headers, live, free := map[], map[], [MapNode(HEAP_END - HEAP_START, HEAP_START)];
      new;
      nodes[0] := MapNode(HEAP_END - HEAP_START, HEAP_START);
      forall u: nat ensures UnitTiled(free, live, u) {
        if HEAP_START <= u < HEAP_END { assert Within(free[0], u); }
      }
    }

    /** AllocMemory, with the header of the new block. A request for 0 units reserves
        nothing, but the header is written all the same. */
    method AllocBlock(total: nat) returns (block: nat)
      requires Valid() && (total > HEADER || total == 0) && total % ALIGNMENT == 0
      modifies this, nodes
      ensures Valid()
      ensures block == 0 || total == 0 ==> free == old(free) && live == old(live)
      ensures total == 0 ==> block == if old(free) == [] then 0 else old(free)[0].idx
      ensures total > 0 ==> (block == 0 <==> !HasRun(old(free), total))
      ensures total > 0 && block != 0 ==>
                && (block + HEADER) % ALIGNMENT == 0 && block !in old(live) && live == old(live)[block := total]
                && FreeRun(old(free), block, total) && LowestFit(old(free), total, block)
    {
      ghost var at, w;
      block, at, w := Alloc(nodes, total, free);
      if block != 0 {
        if total == 0 {
          FrontNotLive(free, live);
        } else {
          TakeBlock(free, live, at, total);
          free, live := w, live[block := total];
        }
        headers := headers[block := Header(MAGIC, total)];
      }
    }

    /** operator new: an 8-aligned block of size bytes, or 0 exactly when no free run of
        the block's size is left. Sizes from 2^32 - 8 up are refused. The few between, whose
        block size wraps to 0, get the address of the first free extent, which stays free. */
    method KernelHeapAllocate(size: nat) returns (p: nat)
      requires Valid() && size < WORD
      modifies this, nodes
      ensures Valid()
      ensures p == 0 || size > WORD - 16 ==> free == old(free) && live == old(live)
      ensures size > WORD - 16 ==> p == if size >= WORD - HEADER || old(free) == [] then 0
              else old(free)[0].idx + HEADER
      ensures size <= WORD - 16 ==>
              var total := TotalSize(if size == 0 then 1 else size);
              && total >= HEADER + size
              && (p == 0 <==> !HasRun(old(free), total))
              && (p != 0 ==>
                    && p > HEADER && p % ALIGNMENT == 0 && p - HEADER !in old(live)
                    && live == old(live)[p - HEADER := total]
                    && FreeRun(old(free), p - HEADER, total) && LowestFit(old(free), total, p - HEADER))
    {
      var want := if size == 0 then 1 else size;
      if want > WORD - 1 - HEADER {
        return 0;
      }
      TotalSizeFits(want);
      var block := AllocBlock(TotalSize(want));
      p := if block == 0 then 0 else block + HEADER;
    }

    /** operator delete: false is its panic on a pointer that heads no block. */
    method KernelHeapRelease(p: nat) returns (ok: bool)
      requires Valid() && (p == 0 || p >= HEADER)
      requires p != 0 && p - HEADER !in live ==> p - HEADER in headers && !Genuine(headers[p - HEADER])
      requires p != 0 && p - HEADER in live && Alone(free, live[p - HEADER], p - HEADER) ==> |free| + 1 < MAP_SIZE
      modifies this, nodes
      ensures Valid()
      ensures ok <==> p == 0 || p - HEADER in old(live)
      ensures !ok || p == 0 ==> free == old(free) && live == old(live)
      ensures ok && p != 0 ==>
              live == old(live) - {p - HEADER} && p - HEADER in headers && !Genuine(headers[p - HEADER])
      ensures ok && p != 0 ==>
                forall u: nat :: IsFree(free, u) <==>
                  IsFree(old(free), u) || p - HEADER <= u < p - HEADER + old(live)[p - HEADER]
    {
      if p == 0 {
        return true;
      }
      var a := p - HEADER;
      if !Genuine(headers[a]) {
        return false;
      }
      var total := headers[a].totalSize;
      headers := headers[a := Header(0, 0)];
      ghost var m := free;
      LiveInUse(m, live, a);
      LiveNotFree(m, live, a, a);
      var k, w := Free(nodes, total, a, m);
      PutCanonical(m, k, total, a);
      GiveTiled(m, live, k, a);
      PutAligned(m, live, k, a);
      forall u: nat ensures IsFree(w, u) <==> IsFree(m, u) || a <= u < a + total { PutFree(m, k, total, a, u); }
      free, live := w, live - {a};
      return true;
    }
  }
}
