/** Which free blocks Bmap takes on its way to a slot, how far a transfer gets with those
    there are, and what a disk that fills up halfway leaves. */
module VolumeSpace {
  import opened Common
  import opened DiskBlocks
  import opened FreeChain
  import opened VolumeState
  import opened VolumeSteps

  function Depth(p: Path): nat {
    match p
    case Top(_) => 0
    case Mid(_, _) => 1
    case Leaf(_, _, _) => 2
  }

  // ------------------------------------------------------------ one slot

  /** How many blocks Bmap must allocate to complete the way to slot p. */
  ghost function Missing(v: Vol, n: nat, p: Path): nat
    requires n in v.addrs && |v.addrs[n]| == NADDR && ValidPath(p)
    decreases Depth(p)
  {
    (if BlkAt(v.addrs[n], v.disk, p) == 0 then 1 else 0) + (if p.Top? then 0 else Missing(v, n, Parent(p)))
  }

  /** ... of which it allocates these before the block of p itself. */
  ghost function Above(v: Vol, n: nat, p: Path): nat
    requires n in v.addrs && |v.addrs[n]| == NADDR && ValidPath(p)
  {
    if p.Top? then 0 else Missing(v, n, Parent(p))
  }

  /** The empty slots on the way to p. */
  ghost function Gaps(v: Vol, n: nat, p: Path): set<Path>
    requires n in v.addrs && |v.addrs[n]| == NADDR && ValidPath(p)
    decreases Depth(p)
  {
    (if BlkAt(v.addrs[n], v.disk, p) == 0 then {p} else {}) + (if p.Top? then {} else Gaps(v, n, Parent(p)))
  }

  predicate OnWay(q: Path, p: Path)
    decreases Depth(p)
  {
    q == p || (!p.Top? && OnWay(q, Parent(p)))
  }

  /** What slot q holds after Bmap has come by: its block, or the next one off the top of
      the chain, or nothing when the chain has run out. */
  ghost function Given(v: Vol, n: nat, q: Path): nat
    requires n in v.addrs && |v.addrs[n]| == NADDR && ValidPath(q)
  {
    var b, above := BlkAt(v.addrs[n], v.disk, q), Above(v, n, q);
    if b != 0 then b else if above < |v.stack| then v.stack[|v.stack| - 1 - above] else 0
  }

  /** No block is in transit after v if none was before and the step left none. */
  ghost predicate SameHeld(v: Vol, w: Vol) {
    forall b: nat :: InZone(b) && b in v.owner ==> b in w.owner && (w.owner[b] == Held <==> v.owner[b] == Held)
  }

  /** A slot that held c holds b, which came off the chain if it had to. */
  predicate Took(stack: seq<nat>, nfree: nat, rest: seq<nat>, left: nat, c: nat, b: nat) {
    if c != 0 then b == c && rest == stack && left == nfree
    else if stack != [] then b == stack[|stack| - 1] != 0 && rest == stack[..|stack| - 1] && left >= 1
    else b == 0 && rest == []
  }

  /** Slot p has been looked at, and given a block if it was empty and there was one. */
  ghost predicate Ensured(v: Vol, w: Vol, n: nat, p: Path, b: nat, took: bool) {
    && n in v.addrs && |v.addrs[n]| == NADDR && ValidPath(p)
    && GrownOnly(v, w) && SameHeld(v, w) && OnlySlot(v, w, n, p) && b == BlkAt(w.addrs[n], w.disk, p)
    && (took <==> BlkAt(v.addrs[n], v.disk, p) == 0 && v.stack != [])
    && Took(v.stack, v.super.nfree, w.stack, w.super.nfree, BlkAt(v.addrs[n], v.disk, p), b)
  }

  /** Bmap has been down the way to slot p: each slot on it holds what it was given, no
      other slot of the file has changed. torn says that the chain ran out below an index
      block allocated on this very way, which is then released without being written. */
  ghost predicate Walked(v: Vol, w: Vol, n: nat, p: Path, b: nat, torn: bool) {
    && n in v.addrs && |v.addrs[n]| == NADDR && ValidPath(p) && n in w.addrs && |w.addrs[n]| == NADDR
    && GrownOnly(v, w) && SameHeld(v, w) && Paid(v, w, n, p, b, torn)
    && forall q :: ValidPath(q) ==>
         BlkAt(w.addrs[n], w.disk, q) == if OnWay(q, p) then Given(v, n, q) else BlkAt(v.addrs[n], v.disk, q)
  }

  /** What the way to p has cost. */
  ghost predicate Paid(v: Vol, w: Vol, n: nat, p: Path, b: nat, torn: bool)
    requires n in v.addrs && |v.addrs[n]| == NADDR && ValidPath(p)
  {
    && b == Given(v, n, p)
    && w.stack == v.stack[..|v.stack| - Min(|v.stack|, Missing(v, n, p))]
    && (v.super.nfree >= 1 && Missing(v, n, p) <= |v.stack| ==> w.super.nfree >= 1)
    && (torn <==> 0 < |v.stack| < Missing(v, n, p))
  }

  /** The slots below an empty one are empty. */
  lemma {:induction false} GapBelow(v: Vol, n: nat, p: Path)
    requires n in v.addrs && |v.addrs[n]| == NADDR && ValidPath(p)
    ensures Above(v, n, p) > 0 ==> BlkAt(v.addrs[n], v.disk, p) == 0 && BlkAt(v.addrs[n], v.disk, Parent(p)) == 0
    decreases Depth(p)
  {
    if !p.Top? { GapBelow(v, n, Parent(p)); }
  }

  lemma WalkedTop(v: Vol, w: Vol, n: nat, i: nat, b: nat, took: bool)
    requires Ensured(v, w, n, Top(i), b, took)
    ensures Walked(v, w, n, Top(i), b, false)
  {
  }

  /** The next slot down. */
  lemma WalkedDown(v: Vol, w: Vol, x: Vol, n: nat, p: Path, t: nat, torn: bool, b: nat, took: bool)
    requires ValidPath(p) && !p.Top? && Walked(v, w, n, Parent(p), t, torn) && t != 0
    requires Ensured(w, x, n, p, b, took)
    ensures Walked(v, x, n, p, b, b == 0 && BlkAt(v.addrs[n], v.disk, Parent(p)) == 0)
  {
    GrownTrans(v, w, x);
    assert !OnWay(p, Parent(p));
    assert BlkAt(w.addrs[n], w.disk, p) == BlkAt(v.addrs[n], v.disk, p);
    PaidDown(v, w, x, n, p, t, torn, b);
    SlotsDown(v, w, x, n, p);
  }

  lemma SlotsDown(v: Vol, w: Vol, x: Vol, n: nat, p: Path)
    requires ValidPath(p) && !p.Top? && n in v.addrs && |v.addrs[n]| == NADDR && n in w.addrs && OnlySlot(w, x, n, p)
    requires forall q :: ValidPath(q) ==>
               BlkAt(w.addrs[n], w.disk, q) ==
               if OnWay(q, Parent(p)) then Given(v, n, q) else BlkAt(v.addrs[n], v.disk, q)
    requires BlkAt(x.addrs[n], x.disk, p) == Given(v, n, p)
    ensures forall q :: ValidPath(q) ==>
              BlkAt(x.addrs[n], x.disk, q) == if OnWay(q, p) then Given(v, n, q) else BlkAt(v.addrs[n], v.disk, q)
  {
    assert forall q :: q != p ==> (OnWay(q, p) <==> OnWay(q, Parent(p)));
  }

  lemma PaidDown(v: Vol, w: Vol, x: Vol, n: nat, p: Path, t: nat, torn: bool, b: nat)
    requires n in v.addrs && |v.addrs[n]| == NADDR && ValidPath(p) && !p.Top?
    requires Paid(v, w, n, Parent(p), t, torn) && t != 0
    requires Took(w.stack, w.super.nfree, x.stack, x.super.nfree, BlkAt(v.addrs[n], v.disk, p), b)
    ensures Paid(v, x, n, p, b, b == 0 && BlkAt(v.addrs[n], v.disk, Parent(p)) == 0)
  {
    GapBelow(v, n, Parent(p));
    GapBelow(v, n, p);
    TakenNext(v.stack, Above(v, n, p), w.stack, w.super.nfree, x.stack, x.super.nfree,
      BlkAt(v.addrs[n], v.disk, p), b);
  }

  lemma TakenNext(stack: seq<nat>, above: nat, mid: seq<nat>, nfree: nat, rest: seq<nat>, left: nat, c: nat, b: nat)
    requires above <= |stack| && mid == stack[..|stack| - above] && Took(mid, nfree, rest, left, c, b)
    ensures b == if c != 0 then c else if above < |stack| then stack[|stack| - 1 - above] else 0
    ensures rest == stack[..|stack| - Min(|stack|, above + if c == 0 then 1 else 0)]
  {
    PrefixNext(stack, above);
  }

  /** Alloc can be entered for the next slot down. */
  lemma NextEnterable(v: Vol, w: Vol, n: nat, p: Path, t: nat, torn: bool)
    requires ValidPath(p) && !p.Top? && Walked(v, w, n, Parent(p), t, torn) && t != 0
    requires v.super.nfree >= 1 || Missing(v, n, p) == 0
    ensures BlkAt(w.addrs[n], w.disk, p) == 0 ==> w.super.nfree >= 1
  {
    GapBelow(v, n, Parent(p));
    assert !OnWay(p, Parent(p));
    assert BlkAt(w.addrs[n], w.disk, p) == BlkAt(v.addrs[n], v.disk, p);
  }

  lemma PrefixNext(s: seq<nat>, k: nat)
    requires k <= |s|
    ensures k < |s| ==> var r := s[..|s| - k]; r[|r| - 1] == s[|s| - 1 - k] && r[..|r| - 1] == s[..|s| - (k + 1)]
  {
  }

  /** No block for an index block on the way. */
  lemma WalkedStop(v: Vol, w: Vol, n: nat, p: Path, torn: bool)
    requires ValidPath(p) && !p.Top? && Walked(v, w, n, Parent(p), 0, torn)
    requires forall i :: 0 <= i < |v.stack| ==> v.stack[i] != 0
    ensures Walked(v, w, n, p, 0, torn)
  {
    GapBelow(v, n, p);
    assert !OnWay(p, Parent(p));
  }

  lemma {:induction false} GapIsEmpty(v: Vol, n: nat, p: Path, q: Path)
    requires n in v.addrs && |v.addrs[n]| == NADDR && ValidPath(p)
    ensures q in Gaps(v, n, p) ==> ValidPath(q)
    ensures q in Gaps(v, n, p) <==> OnWay(q, p) && ValidPath(q) && BlkAt(v.addrs[n], v.disk, q) == 0
    decreases Depth(p)
  {
    if !p.Top? { GapIsEmpty(v, n, Parent(p), q); }
  }

  lemma {:induction false} GapsAreMissing(v: Vol, n: nat, p: Path)
    requires n in v.addrs && |v.addrs[n]| == NADDR && ValidPath(p)
    ensures |Gaps(v, n, p)| == Missing(v, n, p)
    decreases Depth(p)
  {
    if !p.Top? {
      GapsAreMissing(v, n, Parent(p));
      GapIsEmpty(v, n, Parent(p), p);
      assert !OnWay(p, Parent(p));
    }
  }

  // -------------------------------------------------- a range of logical blocks

  /** The empty slots on the ways to the logical blocks lo .. hi - 1. */
  ghost function GapsOf(v: Vol, n: nat, lo: nat, hi: nat): set<Path>
    requires n in v.addrs && |v.addrs[n]| == NADDR
    decreases hi - lo
  {
    if hi <= lo then {}
    else (if lo < HUGE_FILE_BLOCK then Gaps(v, n, PathOf(lo)) else {}) + GapsOf(v, n, lo + 1, hi)
  }

  /** How many free blocks mapping them would leave; below 0, how many it lacks. */
  ghost function Spare(v: Vol, n: nat, lo: nat, hi: nat): int
    requires n in v.addrs && |v.addrs[n]| == NADDR
  {
    |v.stack| - |GapsOf(v, n, lo, hi)|
  }

  ghost predicate RoomFor(v: Vol, n: nat, lo: nat, hi: nat)
    requires n in v.addrs && |v.addrs[n]| == NADDR
  {
    Spare(v, n, lo, hi) >= 0
  }

  /** How far the blocks last: lo .. Served - 1 can be mapped. */
  ghost function Served(v: Vol, n: nat, lo: nat, hi: nat): (s: nat)
    requires n in v.addrs && |v.addrs[n]| == NADDR
    ensures lo <= s && (lo <= hi ==> s <= hi) && RoomFor(v, n, lo, s)
    decreases hi
  {
    if hi <= lo then lo else if RoomFor(v, n, lo, hi) then hi else Served(v, n, lo, hi - 1)
  }

  /** The chain runs out below an index block that was itself only just allocated. */
  ghost predicate Torn(v: Vol, n: nat, lo: nat, hi: nat)
    requires n in v.addrs && |v.addrs[n]| == NADDR
  {
    Served(v, n, lo, hi) < hi && Spare(v, n, lo, Served(v, n, lo, hi)) > 0
  }

  lemma {:induction false} Within(a: set<Path>, b: set<Path>)
    requires a <= b
    ensures |a| <= |b|
    decreases a
  {
    if x :| x in a { Within(a - {x}, b - {x}); }
  }

  lemma {:induction false} SpareShrinks(v: Vol, n: nat, lo: nat, k: nat, hi: nat)
    requires n in v.addrs && |v.addrs[n]| == NADDR && k <= hi
    ensures Spare(v, n, lo, k) >= Spare(v, n, lo, hi)
  {
    GapsGrow(v, n, lo, k, hi);
    Within(GapsOf(v, n, lo, k), GapsOf(v, n, lo, hi));
  }

  lemma {:induction false} GapsGrow(v: Vol, n: nat, lo: nat, k: nat, hi: nat)
    requires n in v.addrs && |v.addrs[n]| == NADDR && k <= hi
    ensures GapsOf(v, n, lo, k) <= GapsOf(v, n, lo, hi)
    decreases hi - lo
  {
    if lo < k { GapsGrow(v, n, lo + 1, k, hi); }
  }

  /** Served is the most that there is room for. */
  lemma {:induction false} ServedIsMost(v: Vol, n: nat, lo: nat, hi: nat, k: nat)
    requires n in v.addrs && |v.addrs[n]| == NADDR && lo <= k <= hi
    ensures RoomFor(v, n, lo, k) <==> k <= Served(v, n, lo, hi)
    decreases hi
  {
    if RoomFor(v, n, lo, hi) {
      SpareShrinks(v, n, lo, k, hi);
    } else if lo < hi {
      if k < hi { ServedIsMost(v, n, lo, hi - 1, k); }
    }
  }

  /** Mapping a block stops nothing from being mapped further on that there was room for. */
  lemma ServedUpTo(v: Vol, n: nat, lo: nat, hi: nat, k: nat)
    requires n in v.addrs && |v.addrs[n]| == NADDR && lo <= k < hi && RoomFor(v, n, lo, k) && !RoomFor(v, n, lo, k + 1)
    ensures Served(v, n, lo, hi) == k
  {
    ServedIsMost(v, n, lo, hi, k);
    ServedIsMost(v, n, lo, hi, k + 1);
  }

  /** The slots of file n are as empty as they were, but for those on the way to p. */
  ghost predicate Filled(v: Vol, w: Vol, n: nat, p: Path) {
    && n in v.addrs && n in w.addrs && |v.addrs[n]| == NADDR && |w.addrs[n]| == NADDR && ValidPath(p)
    && forall q :: ValidPath(q) ==>
         (BlkAt(w.addrs[n], w.disk, q) == 0 <==> BlkAt(v.addrs[n], v.disk, q) == 0 && q !in Gaps(v, n, p))
  }

  lemma WalkedFills(v: Vol, w: Vol, n: nat, p: Path, b: nat, torn: bool)
    requires Walked(v, w, n, p, b, torn) && Missing(v, n, p) <= |v.stack|
    requires forall i :: 0 <= i < |v.stack| ==> v.stack[i] != 0
    ensures Filled(v, w, n, p) && |w.stack| == |v.stack| - Missing(v, n, p) && b != 0
  {
    forall q | ValidPath(q)
      ensures BlkAt(w.addrs[n], w.disk, q) == 0 <==> BlkAt(v.addrs[n], v.disk, q) == 0 && q !in Gaps(v, n, p)
    {
      GapIsEmpty(v, n, p, q);
      if OnWay(q, p) { AboveBelow(v, n, q, p); }
    }
    AboveBelow(v, n, p, p);
  }

  lemma {:induction false} AboveBelow(v: Vol, n: nat, q: Path, p: Path)
    requires n in v.addrs && |v.addrs[n]| == NADDR && ValidPath(p) && OnWay(q, p)
    ensures ValidPath(q) && Missing(v, n, q) <= Missing(v, n, p)
    decreases Depth(p)
  {
    if q != p { AboveBelow(v, n, q, Parent(p)); }
  }

  lemma {:induction false} GapsAfter(v: Vol, w: Vol, n: nat, p: Path, q: Path)
    requires Filled(v, w, n, p) && ValidPath(q)
    ensures Gaps(w, n, q) == Gaps(v, n, q) - Gaps(v, n, p)
    decreases Depth(q)
  {
    if !q.Top? { GapsAfter(v, w, n, p, Parent(q)); }
  }

  lemma {:induction false} GapsOfAfter(v: Vol, w: Vol, n: nat, p: Path, lo: nat, hi: nat)
    requires Filled(v, w, n, p)
    ensures GapsOf(w, n, lo, hi) == GapsOf(v, n, lo, hi) - Gaps(v, n, p)
    decreases hi - lo
  {
    if lo < hi {
      GapsOfAfter(v, w, n, p, lo + 1, hi);
      if lo < HUGE_FILE_BLOCK { GapsAfter(v, w, n, p, PathOf(lo)); }
    }
  }

  /** Mapping block lo takes the blocks for its own gaps and leaves what the rest needs. */
  lemma RangeStep(v: Vol, w: Vol, n: nat, lo: nat, hi: nat)
    requires lo < HUGE_FILE_BLOCK && lo < hi && Filled(v, w, n, PathOf(lo))
    requires |w.stack| == |v.stack| - Missing(v, n, PathOf(lo))
    ensures Spare(w, n, lo + 1, hi) == Spare(v, n, lo, hi)
  {
    var gaps, rest := Gaps(v, n, PathOf(lo)), GapsOf(v, n, lo + 1, hi);
    GapsOfAfter(v, w, n, PathOf(lo), lo + 1, hi);
    GapsAreMissing(v, n, PathOf(lo));
    assert GapsOf(v, n, lo, hi) == gaps + (rest - gaps);
  }

  /** Without room for block lo there is none for any range that starts with it. */
  lemma NoRoomFor(v: Vol, n: nat, lo: nat)
    requires n in v.addrs && |v.addrs[n]| == NADDR && lo < HUGE_FILE_BLOCK
    ensures Spare(v, n, lo, lo + 1) == |v.stack| - Missing(v, n, PathOf(lo))
  {
    GapsAreMissing(v, n, PathOf(lo));
    assert GapsOf(v, n, lo + 1, lo + 1) == {};
    assert GapsOf(v, n, lo, lo + 1) == Gaps(v, n, PathOf(lo));
  }

  /** Block numbers past the largest file take nothing. */
  lemma {:induction false} NothingPastHuge(v: Vol, n: nat, lo: nat, hi: nat)
    requires n in v.addrs && |v.addrs[n]| == NADDR && lo >= HUGE_FILE_BLOCK
    ensures GapsOf(v, n, lo, hi) == {}
    decreases hi - lo
  {
    if lo < hi { NothingPastHuge(v, n, lo + 1, hi); }
  }

  /** Slots that read the same have the same gaps. */
  ghost predicate SlotsSame(v: Vol, w: Vol, n: nat) {
    && n in v.addrs && n in w.addrs && |v.addrs[n]| == NADDR && |w.addrs[n]| == NADDR && w.stack == v.stack
    && forall q :: ValidPath(q) ==> BlkAt(w.addrs[n], w.disk, q) == BlkAt(v.addrs[n], v.disk, q)
  }

  lemma {:induction false} GapsSame(v: Vol, w: Vol, n: nat, p: Path)
    requires SlotsSame(v, w, n) && ValidPath(p)
    ensures Gaps(w, n, p) == Gaps(v, n, p)
    decreases Depth(p)
  {
    if !p.Top? { GapsSame(v, w, n, Parent(p)); }
  }

  lemma {:induction false} SpareSame(v: Vol, w: Vol, n: nat, lo: nat, hi: nat)
    requires SlotsSame(v, w, n)
    ensures GapsOf(w, n, lo, hi) == GapsOf(v, n, lo, hi) && Spare(w, n, lo, hi) == Spare(v, n, lo, hi)
    decreases hi - lo
  {
    if lo < hi {
      SpareSame(v, w, n, lo + 1, hi);
      if lo < HUGE_FILE_BLOCK { GapsSame(v, w, n, PathOf(lo)); }
    }
  }

  // ---------------------------------------------------------- a transfer

  /** The first logical block that count bytes at offset off do not reach. */
  function Blocks(off: nat, count: nat): nat {
    if count == 0 then off / BLOCK_SIZE else (off + count + BLOCK_SIZE - 1) / BLOCK_SIZE
  }

  /** How many of count bytes at offset off get transferred: those below the largest file
      size, in the blocks that there is room for. */
  ghost function Transferred(v: Vol, n: nat, off: nat, count: nat): nat
    requires n in v.addrs && |v.addrs[n]| == NADDR
  {
    var served := Served(v, n, off / BLOCK_SIZE, Blocks(off, count));
    Min(count, Min(Max(off, MAX_BYTES), Max(off, served * BLOCK_SIZE)) - off)
  }

  /** The transfer has come to block k: what was to spare at the start is to spare now. */
  ghost predicate Going(v: Vol, w: Vol, n: nat, lo: nat, k: nat, hi: nat) {
    && n in v.addrs && |v.addrs[n]| == NADDR && n in w.addrs && |w.addrs[n]| == NADDR && lo <= k <= hi
    && forall h: nat {:trigger Spare(w, n, k, h)} :: k <= h <= hi ==> Spare(w, n, k, h) == Spare(v, n, lo, h)
  }

  lemma GoingOn(v: Vol, w: Vol, x: Vol, n: nat, lo: nat, k: nat, hi: nat)
    requires Going(v, w, n, lo, k, hi) && Going(w, x, n, k, k + 1, hi)
    ensures Going(v, x, n, lo, k + 1, hi)
  {
    var next := k + 1;
    forall h: nat | next <= h <= hi ensures Spare(x, n, next, h) == Spare(v, n, lo, h) {
      assert Spare(x, n, next, h) == Spare(w, n, k, h);
    }
  }

  lemma FilledGoes(v: Vol, w: Vol, n: nat, lo: nat, hi: nat)
    requires lo < HUGE_FILE_BLOCK && lo < hi && Filled(v, w, n, PathOf(lo))
    requires |w.stack| == |v.stack| - Missing(v, n, PathOf(lo))
    ensures Going(v, w, n, lo, lo + 1, hi)
  {
    var next := lo + 1;
    forall h: nat | next <= h <= hi ensures Spare(w, n, next, h) == Spare(v, n, lo, h) { RangeStep(v, w, n, lo, h); }
  }

  lemma NothingGiven(v: Vol, n: nat, p: Path)
    requires n in v.addrs && |v.addrs[n]| == NADDR && ValidPath(p) && Missing(v, n, p) > |v.stack|
    ensures Given(v, n, p) == 0
  {
    GapBelow(v, n, p);
  }

  lemma StillGoing(v: Vol, w: Vol, x: Vol, n: nat, lo: nat, k: nat, hi: nat)
    requires Going(v, w, n, lo, k, hi) && SlotsSame(w, x, n)
    ensures Going(v, x, n, lo, k, hi) && Spare(x, n, k, hi) == Spare(w, n, k, hi)
  {
    forall h: nat | k <= h <= hi ensures Spare(x, n, k, h) == Spare(w, n, k, h) { SpareSame(w, x, n, k, h); }
  }

  /** Alloc is not entered again after it has failed. */
  ghost predicate Enterable(v: Vol, n: nat, lo: nat, hi: nat)
    requires n in v.addrs && |v.addrs[n]| == NADDR
  {
    v.super.nfree >= 1 || RoomFor(v, n, lo, hi)
  }

  /** The blocks that count bytes at offset off touch are lo .. hi - 1. */
  ghost predicate Touches(off: nat, count: nat, lo: nat, hi: nat) {
    lo == off / BLOCK_SIZE && hi == Blocks(off, count)
  }

  /** How a transfer of count bytes ends: got of them, the blocks used up, and whether an
      index block was left unwritten. */
  ghost predicate Ended(v: Vol, w: Vol, n: nat, off: nat, count: nat, got: nat, torn: bool) {
    && n in v.addrs && |v.addrs[n]| == NADDR
    && forall lo, hi :: Touches(off, count, lo, hi) ==>
         && got == Transferred(v, n, off, count)
         && |w.stack| == (if RoomFor(v, n, lo, hi) then Spare(v, n, lo, hi) else 0)
         && (torn <==> Torn(v, n, lo, hi))
  }

  /** Where a transfer stands after got bytes: at the first block not reached, which is the
      block of the next byte unless there is none. */
  predicate AtBlock(off: nat, count: nat, got: nat, k: nat) {
    && got <= count && k == Blocks(off, got) && k <= Blocks(off, count)
    && (got < count ==> k == (off + got) / BLOCK_SIZE && (got == 0 || k * BLOCK_SIZE == off + got))
  }

  lemma StartBlock(off: nat, count: nat)
    ensures AtBlock(off, count, 0, off / BLOCK_SIZE)
  {
  }

  /** A chunk ends with the block or with the transfer. */
  lemma NextBlock(off: nat, count: nat, got: nat, k: nat, nbytes: nat)
    requires AtBlock(off, count, got, k) && got < count
    requires nbytes == Min(BLOCK_SIZE - (off + got) % BLOCK_SIZE, count - got)
    ensures 0 < nbytes && (off + got) % BLOCK_SIZE + nbytes <= BLOCK_SIZE && k < Blocks(off, count)
    ensures AtBlock(off, count, got + nbytes, k + 1)
  {
    var at := off + got;
    assert at == at / BLOCK_SIZE * BLOCK_SIZE + at % BLOCK_SIZE;
  }

  lemma EndedWhole(v: Vol, w: Vol, n: nat, off: nat, count: nat)
    requires Going(v, w, n, off / BLOCK_SIZE, Blocks(off, count), Blocks(off, count))
    requires off + count <= Max(off, MAX_BYTES)
    ensures Ended(v, w, n, off, count, count, false)
  {
    var hi := Blocks(off, count);
    assert Spare(w, n, hi, hi) == |w.stack|;
    assert count > 0 ==> hi * BLOCK_SIZE >= off + count;
  }

  /** The transfer has reached the largest file size. */
  lemma EndedBig(v: Vol, w: Vol, n: nat, off: nat, count: nat, got: nat, k: nat)
    requires AtBlock(off, count, got, k) && got < count && off + got >= MAX_BYTES && off + got <= Max(off, MAX_BYTES)
    requires Going(v, w, n, off / BLOCK_SIZE, k, Blocks(off, count))
    ensures Ended(v, w, n, off, count, got, false)
  {
    var hi := Blocks(off, count);
    NothingPastHuge(w, n, k, hi);
    assert Spare(w, n, k, hi) == |w.stack|;
    assert hi * BLOCK_SIZE >= off + count;
  }

  /** There was no block for k. */
  lemma EndedShort(v: Vol, w: Vol, x: Vol, n: nat, off: nat, count: nat, got: nat, k: nat, torn: bool)
    requires AtBlock(off, count, got, k) && got < count && off + got < MAX_BYTES
    requires Going(v, w, n, off / BLOCK_SIZE, k, Blocks(off, count)) && Spare(w, n, k, k + 1) < 0
    requires x.stack == [] && (torn <==> w.stack != [])
    ensures Ended(v, x, n, off, count, got, torn)
  {
    var lo, hi := off / BLOCK_SIZE, Blocks(off, count);
    assert k < hi by { assert hi * BLOCK_SIZE >= off + count; }
    assert Spare(w, n, k, k) == |w.stack| && Spare(v, n, lo, k + 1) == Spare(w, n, k, k + 1);
    ServedUpTo(v, n, lo, hi, k);
    SpareShrinks(v, n, lo, k + 1, hi);
    assert got == 0 ==> k == lo && Max(off, k * BLOCK_SIZE) == off;
  }

  /** A transfer of count bytes has done got of them and comes to block k. */
  ghost predicate Supplied(v: Vol, w: Vol, n: nat, off: nat, count: nat, got: nat, k: nat) {
    && n in w.addrs && |w.addrs[n]| == NADDR && got <= count
    && forall lo, hi :: Touches(off, count, lo, hi) ==>
         && AtBlock(off, count, got, k) && off + got <= Max(off, MAX_BYTES)
         && Going(v, w, n, lo, k, hi) && Enterable(w, n, k, hi)
  }

  lemma SuppliedStarts(v: Vol, n: nat, off: nat, count: nat)
    requires n in v.addrs && |v.addrs[n]| == NADDR && Enterable(v, n, off / BLOCK_SIZE, Blocks(off, count))
    ensures Supplied(v, v, n, off, count, 0, off / BLOCK_SIZE)
  {
    StartBlock(off, count);
  }

  /** What the chunk that comes next is like. */
  ghost predicate ChunkAt(off: nat, count: nat, got: nat, k: nat, nbytes: nat) {
    && 0 < nbytes && (off + got) % BLOCK_SIZE + nbytes <= BLOCK_SIZE && got + nbytes <= count
    && k == (off + got) / BLOCK_SIZE < Blocks(off, count)
    && AtBlock(off, count, got + nbytes, k + 1)
    && (off + got < MAX_BYTES ==> off + got + nbytes <= MAX_BYTES)
  }

  lemma NextChunk(v: Vol, w: Vol, n: nat, off: nat, count: nat, got: nat, k: nat, nbytes: nat)
    requires Supplied(v, w, n, off, count, got, k) && got < count
    requires nbytes == Min(BLOCK_SIZE - (off + got) % BLOCK_SIZE, count - got)
    ensures ChunkAt(off, count, got, k, nbytes) && Enterable(w, n, k, Blocks(off, count))
  {
    assert Touches(off, count, off / BLOCK_SIZE, Blocks(off, count));
    NextBlock(off, count, got, k, nbytes);
  }

  lemma SuppliedMore(v: Vol, w: Vol, x: Vol, n: nat, off: nat, count: nat, got: nat, k: nat, nbytes: nat)
    requires Supplied(v, w, n, off, count, got, k) && ChunkAt(off, count, got, k, nbytes) && off + got < MAX_BYTES
    requires Going(w, x, n, k, k + 1, Blocks(off, count)) && Enterable(x, n, k + 1, Blocks(off, count))
    ensures Supplied(v, x, n, off, count, got + nbytes, k + 1)
  {
    assert Touches(off, count, off / BLOCK_SIZE, Blocks(off, count));
    GoingOn(v, w, x, n, off / BLOCK_SIZE, k, Blocks(off, count));
  }

  lemma SuppliedEnds(v: Vol, w: Vol, x: Vol, n: nat, off: nat, count: nat, got: nat, k: nat, torn: bool)
    requires Supplied(v, w, n, off, count, got, k) && got < count
    requires if off + got >= MAX_BYTES then x == w && !torn
             else Spare(w, n, k, k + 1) < 0 && x.stack == [] && (torn <==> w.stack != [])
    ensures Ended(v, x, n, off, count, got, torn)
  {
    assert Touches(off, count, off / BLOCK_SIZE, Blocks(off, count));
    if off + got >= MAX_BYTES {
      EndedBig(v, w, n, off, count, got, k);
    } else {
      EndedShort(v, w, x, n, off, count, got, k, torn);
    }
  }

  lemma SuppliedFits(v: Vol, w: Vol, n: nat, off: nat, count: nat, got: nat, k: nat)
    requires Supplied(v, w, n, off, count, got, k)
    ensures got > 0 ==> off + got <= MAX_BYTES
  {
    assert Touches(off, count, off / BLOCK_SIZE, Blocks(off, count));
  }

  lemma SuppliedWhole(v: Vol, w: Vol, n: nat, off: nat, count: nat, k: nat)
    requires Supplied(v, w, n, off, count, count, k)
    ensures Ended(v, w, n, off, count, count, false)
  {
    assert Touches(off, count, off / BLOCK_SIZE, Blocks(off, count));
    EndedWhole(v, w, n, off, count);
  }

  /** What Ended says. */
  lemma EndedMeans(v: Vol, w: Vol, n: nat, off: nat, count: nat, got: nat, torn: bool)
    requires Ended(v, w, n, off, count, got, torn)
    ensures n in v.addrs && |v.addrs[n]| == NADDR
    ensures got == Transferred(v, n, off, count) <= count
    ensures torn <==> Torn(v, n, off / BLOCK_SIZE, Blocks(off, count))
  {
    assert Touches(off, count, off / BLOCK_SIZE, Blocks(off, count));
  }

  /** With room for its blocks a transfer stops at nothing but the largest file size. */
  lemma RoomIsEnough(v: Vol, n: nat, off: nat, count: nat)
    requires n in v.addrs && |v.addrs[n]| == NADDR && RoomFor(v, n, off / BLOCK_SIZE, Blocks(off, count))
    ensures Transferred(v, n, off, count) == if off >= MAX_BYTES then 0 else Min(count, MAX_BYTES - off)
    ensures !Torn(v, n, off / BLOCK_SIZE, Blocks(off, count))
  {
    assert count > 0 ==> Blocks(off, count) * BLOCK_SIZE >= off + count;
  }

  /** With room for its blocks a transfer is complete, up to the largest file size. */
  ghost predicate Complete(v: Vol, n: nat, off: nat, count: nat, got: nat, torn: bool) {
    && n in v.addrs && |v.addrs[n]| == NADDR
    && forall lo, hi :: Touches(off, count, lo, hi) && RoomFor(v, n, lo, hi) ==>
         !torn && got == if off >= MAX_BYTES then 0 else Min(count, MAX_BYTES - off)
  }

  lemma EndedComplete(v: Vol, w: Vol, n: nat, off: nat, count: nat, got: nat, torn: bool)
    requires Ended(v, w, n, off, count, got, torn)
    ensures Complete(v, n, off, count, got, torn)
  {
    EndedMeans(v, w, n, off, count, got, torn);
    if RoomFor(v, n, off / BLOCK_SIZE, Blocks(off, count)) { RoomIsEnough(v, n, off, count); }
  }

  /** Every logical block of the range has its block already. */
  predicate AllMapped(addr: seq<nat>, disk: seq<Block>, lo: nat, hi: nat)
    requires |addr| == NADDR
  {
    forall l: nat :: lo <= l < hi && l < HUGE_FILE_BLOCK ==> BlkAt(addr, disk, PathOf(l)) != 0
  }

  lemma {:induction false} NoGapsIffMapped(v: Vol, n: nat, lo: nat, hi: nat)
    requires n in v.addrs && |v.addrs[n]| == NADDR
    ensures GapsOf(v, n, lo, hi) == {} <==> AllMapped(v.addrs[n], v.disk, lo, hi)
    decreases hi - lo
  {
    if lo < hi {
      NoGapsIffMapped(v, n, lo + 1, hi);
      MappedSplit(v.addrs[n], v.disk, lo, hi);
      if lo < HUGE_FILE_BLOCK { NoGapIffMapped(v, n, PathOf(lo)); }
      GapsSplit(v, n, lo, hi);
    }
  }

  /** With no block left that is what there is room for. */
  lemma AllMappedIsRoom(v: Vol, n: nat, lo: nat, hi: nat)
    requires n in v.addrs && |v.addrs[n]| == NADDR && v.stack == []
    ensures RoomFor(v, n, lo, hi) <==> AllMapped(v.addrs[n], v.disk, lo, hi)
  {
    NoGapsIffMapped(v, n, lo, hi);
  }

  /** There is room for a transfer if its blocks are there already, and if there are three
      free blocks for each of them. */
  lemma RoomComes(v: Vol, n: nat, lo: nat, hi: nat)
    requires n in v.addrs && |v.addrs[n]| == NADDR && lo <= hi
    requires AllMapped(v.addrs[n], v.disk, lo, hi) || |v.stack| >= 3 * (hi - lo)
    ensures RoomFor(v, n, lo, hi)
  {
    NoGapsIffMapped(v, n, lo, hi);
    FewGaps(v, n, lo, hi);
  }

  lemma {:induction false} FewGaps(v: Vol, n: nat, lo: nat, hi: nat)
    requires n in v.addrs && |v.addrs[n]| == NADDR && lo <= hi
    ensures |GapsOf(v, n, lo, hi)| <= 3 * (hi - lo)
    decreases hi - lo
  {
    if lo < hi {
      FewGaps(v, n, lo + 1, hi);
      ThreeMore(v, n, lo, hi);
    }
  }

  lemma ThreeMore(v: Vol, n: nat, lo: nat, hi: nat)
    requires n in v.addrs && |v.addrs[n]| == NADDR && lo < hi
    ensures |GapsOf(v, n, lo, hi)| <= 3 + |GapsOf(v, n, lo + 1, hi)|
  {
    var more := if lo < HUGE_FILE_BLOCK then Gaps(v, n, PathOf(lo)) else {};
    if lo < HUGE_FILE_BLOCK { GapsAreFew(v, n, PathOf(lo)); }
    UnionSize(more, GapsOf(v, n, lo + 1, hi));
  }

  lemma {:induction false} GapsAreFew(v: Vol, n: nat, p: Path)
    requires n in v.addrs && |v.addrs[n]| == NADDR && ValidPath(p)
    ensures |Gaps(v, n, p)| <= Depth(p) + 1 <= 3
    decreases Depth(p)
  {
    if !p.Top? {
      GapsAreFew(v, n, Parent(p));
      UnionSize({p}, Gaps(v, n, Parent(p)));
    }
  }

  lemma UnionSize(a: set<Path>, b: set<Path>)
    ensures |a + b| <= |a| + |b|
  {
    assert a + b == a + (b - a) && a !! (b - a);
    Within(b - a, b);
  }

  lemma MappedSplit(addr: seq<nat>, disk: seq<Block>, lo: nat, hi: nat)
    requires |addr| == NADDR && lo < hi
    ensures AllMapped(addr, disk, lo, hi) <==>
              (lo < HUGE_FILE_BLOCK ==> BlkAt(addr, disk, PathOf(lo)) != 0) && AllMapped(addr, disk, lo + 1, hi)
  {
  }

  lemma NoGapIffMapped(v: Vol, n: nat, p: Path)
    requires n in v.addrs && |v.addrs[n]| == NADDR && ValidPath(p)
    ensures Gaps(v, n, p) == {} <==> BlkAt(v.addrs[n], v.disk, p) != 0
  {
    GapsAreMissing(v, n, p);
    GapBelow(v, n, p);
    assert Gaps(v, n, p) == {} <==> |Gaps(v, n, p)| == 0;
  }

  lemma GapsSplit(v: Vol, n: nat, lo: nat, hi: nat)
    requires n in v.addrs && |v.addrs[n]| == NADDR && lo < hi
    ensures GapsOf(v, n, lo, hi) == {} <==>
              GapsOf(v, n, lo + 1, hi) == {} && (lo < HUGE_FILE_BLOCK ==> Gaps(v, n, PathOf(lo)) == {})
  {
  }
}
