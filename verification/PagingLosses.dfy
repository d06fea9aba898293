/** Runs of the kernel in which a process loses what it stored, or sees what another one did:
    what the conditions of the main theorems are for. */
module PagingLosses {
  import opened Common
  import opened PagingState
  import opened PagingInvariant
  import opened PagingSharing
  import opened PagingBookkeeping
  import opened PagingFork
  import opened PagingGuards
  import opened PagingClock
  import opened PagingKernel

  /** A private page on a frame the clock may take. */
  ghost predicate PrivatePage(m: Mem, p: PageId) {
    && p in m.pages && m.pages[p].state.Resident? && m.pages[p].pte.rw && InBounds(m, p)
    && !m.frames[m.pages[p].frame].pinned
  }

  /** The clock sees nothing but this page on its frame. */
  lemma PrivateFrame(m: Mem, p: PageId)
    requires Good(m) && PrivatePage(m, p)
    ensures var f := m.pages[p].frame;
            && Eligible(m, f) && m.frames[f].rmap == [p] && m.frames[f].cowRef == 0 && OnFrame(m, p, f)
            && (Idle(m, f) <==> !m.pages[p].pte.accessed)
            && (Discardable(m, f) <==> m.pages[p].backing.ExecFile? && !m.pages[p].pte.dirty)
  {
    var f := m.pages[p].frame;
    assert PageOk(m, p) && FrameOk(m, f) && OnFrame(m, p, f);
    assert p in m.frames[f].rmap;
  }

  /** A clean private page of the executable that was not used lately: the next position of
      the clock on its frame brings the file's bytes back. */
  method ClockDrops(k: Kernel, p: PageId)
    requires k.Valid() && PrivatePage(k.State(), p) && k.pages[p].backing.ExecFile?
    requires !k.pages[p].pte.accessed && !k.pages[p].pte.dirty && View(k.State(), p) != k.pages[p].initial
    modifies k
    ensures k.Valid() && InBounds(k.State(), p) && View(k.State(), p) == old(k.pages)[p].initial
  {
    ghost var m := k.State();
    PrivateFrame(m, p);
    var o := k.TryFrame(k.pages[p].frame);
    assert Drift(m, k.State(), p);
    assert Lost(m, m.pages[p].frame, p);
  }

  /** A store, a rebuild of the process's page tables, the clock: the store is gone. */
  method LostByRebuild(k: Kernel, p: PageId, off: nat, b: byte) returns (ghost stored: Page)
    requires k.Valid() && PrivatePage(k.State(), p) && k.pages[p].backing.ExecFile?
    requires off < PAGE_SIZE && b != k.pages[p].initial[off]
    modifies k
    ensures k.Valid() && InBounds(k.State(), p) && stored == old(View(k.State(), p))[off := b]
    ensures View(k.State(), p)[off] != stored[off]
  {
    assert PageOk(k.State(), p);
    var ok := k.Store(p, off, b);
    ghost var m := k.State();
    stored := View(m, p);
    k.BuildPageTablesForImage(p.pid);
    assert Rebuilt(m, k.State(), p) && SameView(m, k.State(), p);
    assert PageOk(k.State(), p);
    assert k.pages[p].pte.rw;
    ClockDrops(k, p);
  }

  ghost predicate OnlyZeroPinned(m: Mem) {
    forall f: nat :: 0 < f < |m.frames| ==> !m.frames[f].pinned
  }

  /** The clock passes a private page twice: its first pass clears the accessed bit, the
      second one swaps the page out. */
  method PushOut(k: Kernel, p: PageId)
    requires k.Valid() && PrivatePage(k.State(), p) && OnlyZeroPinned(k.State()) && !SwapFull(k.State())
    requires k.pages[p].pte.accessed && (k.pages[p].backing.ZeroFill? || k.pages[p].pte.dirty)
    modifies k
    ensures k.Valid() && OnlyZeroPinned(k.State()) && k.pages.Keys == old(k.pages).Keys
    ensures SwappedOut(k.State(), p, true) && SameView(old(k.State()), k.State(), p)
    ensures exists f: nat :: f < |k.frames| && !k.frames[f].used
  {
    ghost var m := k.State();
    var f := k.pages[p].frame;
    PrivateFrame(m, p);
    var o := k.TryFrame(f);
    ghost var n := k.State();
    assert OnlyAgedSince(m, n);
    assert Steady(m, n, p);
    PrivateFrame(n, p);
    SwappedByClock(k, p);
  }

  method SwappedByClock(k: Kernel, p: PageId)
    requires k.Valid() && PrivatePage(k.State(), p) && OnlyZeroPinned(k.State()) && !SwapFull(k.State())
    requires !k.pages[p].pte.accessed && (k.pages[p].backing.ZeroFill? || k.pages[p].pte.dirty)
    modifies k
    ensures k.Valid() && OnlyZeroPinned(k.State()) && k.pages.Keys == old(k.pages).Keys
    ensures SwappedOut(k.State(), p, true) && SameView(old(k.State()), k.State(), p)
    ensures exists f: nat :: f < |k.frames| && !k.frames[f].used
  {
    ghost var m := k.State();
    var f := k.pages[p].frame;
    PrivateFrame(m, p);
    var o := k.TryFrame(f);
    assert FrameOk(k.State(), f);
    assert !Lost(m, f, p);
  }

  /** A store, the way out to a swap slot and back, the clock: the store is gone, without
      any rebuild. */
  method LostBySwapIn(k: Kernel, p: PageId, off: nat, b: byte) returns (ghost stored: Page)
    requires k.Valid() && PrivatePage(k.State(), p) && k.pages[p].backing.ExecFile?
    requires off < PAGE_SIZE && b != k.pages[p].initial[off]
    requires OnlyZeroPinned(k.State()) && !SwapFull(k.State())
    modifies k
    ensures k.Valid() && InBounds(k.State(), p) && stored == old(View(k.State(), p))[off := b]
    ensures View(k.State(), p)[off] != stored[off]
  {
    assert PageOk(k.State(), p);
    var ok := k.Store(p, off, b);
    stored := View(k.State(), p);
    PushOut(k, p);
    BackFromSwap(k, p);
    ClockDrops(k, p);
  }

  /** An unmarked page that is swapped in again is private and clean. */
  method BackFromSwap(k: Kernel, p: PageId)
    requires k.Valid() && OnlyZeroPinned(k.State()) && SwappedOut(k.State(), p, true)
    requires exists f: nat :: f < |k.frames| && !k.frames[f].used
    modifies k
    ensures k.Valid() && PrivatePage(k.State(), p) && SameView(old(k.State()), k.State(), p)
    ensures !k.pages[p].pte.accessed && !k.pages[p].pte.dirty
  {
    ghost var m := k.State();
    assert PageOk(m, p);
    InvBounds(m, 0, 0, p);
    var ok := k.SwapInPage(p);
    assert Loose(m, k.State(), p) && Guarded(m, p);
    assert PageOk(k.State(), p);
  }

  /** A page guarded only by the mark of its frame, a copy-on-write fault, and the clock
      before the store that faulted: the bytes it had are gone. */
  method LostByFault(k: Kernel, p: PageId)
    requires k.Valid() && p in k.pages && InBounds(k.State(), p) && k.pages[p].state.Resident? && !k.pages[p].pte.rw
    requires k.pages[p].backing.ExecFile? && View(k.State(), p) != k.pages[p].initial
    requires !k.pages[p].pte.dirty && !k.pages[p].pte.accessed
    requires OnlyZeroPinned(k.State()) && !AllUsed(k.frames)
    modifies k
    ensures k.Valid() && InBounds(k.State(), p) && View(k.State(), p) == old(k.pages)[p].initial
  {
    ghost var m := k.State();
    assert PageOk(m, p);
    var ok := k.HandleCopyOnWriteFault(p);
    assert Loose(m, k.State(), p);
    assert PageOk(k.State(), p);
    ClockDrops(k, p);
  }

  // ------------------------------------------------- fork with an unmarked page

  /** A page written by process p.pid and swapped out while it was private carries no mark.
      Forked then, it comes back writable for parent and child on one frame, and a byte the
      child stores is what the parent reads. */
  method ForkLeaks(p: PageId, child: nat, off: nat, b: byte, c: byte) returns (k: Kernel, f: nat)
    requires p.pid < NPROC && p.vpn < USER_PAGE_COUNT && child != p.pid && child < NPROC && off < PAGE_SIZE && b != c
    ensures InBounds(k.State(), p) && View(k.State(), p)[off] == b
    ensures var n, q := k.State(), PageId(child, p.vpn);
            && InBounds(n, q) && n.pages[p].slot.Some? && n.pages[q].slot.Some? && f < |n.frames|
            && var o := LeakRun(n, p, q, f, off, c);
               o.pages[q].pte.rw && InBounds(o, p) && View(o, p)[off] == c
  {
    k := WrittenPage(p, off, b);
    PushOut(k, p);
    ghost var m := k.State();
    assert PageOk(m, p) && p == PageId(p.pid, p.vpn) && k.pages.Keys == {p};
    var ok := k.Fork(p.pid, child);
    f :| 0 <= f < |k.frames| && !k.frames[f].used;
    UnmarkedForkLeaks(m, k.State(), p.pid, child, p.vpn, f, off, c);
  }

  /** A fresh kernel in which one page has been written to. */
  method WrittenPage(p: PageId, off: nat, b: byte) returns (k: Kernel)
    requires p.pid < NPROC && p.vpn < USER_PAGE_COUNT && off < PAGE_SIZE
    ensures fresh(k) && k.Valid() && k.pages.Keys == {p} && PrivatePage(k.State(), p) && OnlyZeroPinned(k.State())
    ensures !SwapFull(k.State()) && k.pages[p].pte.accessed && k.pages[p].backing.ZeroFill?
    ensures View(k.State(), p)[off] == b
  {
    k := new Kernel(2, 1);
    k.AddZeroPage(p);
    assert !k.slots[0].used && !k.frames[1].used;
    ghost var f := OwnFrame(k, p, ZeroPage());
    var ok := k.Store(p, off, b);
  }

  /** A fresh kernel with one page of an executable brought in. */
  method LoadedPage(frames: nat, p: PageId, page: Page) returns (k: Kernel)
    requires p.pid < NPROC && p.vpn < USER_PAGE_COUNT && frames >= 2
    ensures fresh(k) && k.Valid() && k.pages.Keys == {p} && PrivatePage(k.State(), p) && OnlyZeroPinned(k.State())
    ensures !SwapFull(k.State()) && k.pages[p].backing.ExecFile? && k.pages[p].initial == page
    ensures frames > 2 ==> !AllUsed(k.frames)
  {
    k := new Kernel(frames, 1);
    k.AddExecPage(p, page);
    assert !k.slots[0].used && !k.frames[1].used && (frames > 2 ==> !k.frames[2].used);
    ghost var f := OwnFrame(k, p, page);
  }

  /** The first two losing runs from there: a process stores a byte into a page of its
      executable, and reads the file's byte afterwards. */
  method LostFromStart(p: PageId, page: Page, off: nat, b: byte, rebuilt: bool) returns (k: Kernel, ghost stored: Page)
    requires p.pid < NPROC && p.vpn < USER_PAGE_COUNT && off < PAGE_SIZE && b != page[off]
    ensures k.Valid() && InBounds(k.State(), p) && stored[off] == b && View(k.State(), p)[off] != b
  {
    k := LoadedPage(2, p, page);
    if rebuilt { stored := LostByRebuild(k, p, off, b); } else { stored := LostBySwapIn(k, p, off, b); }
  }

  /** The third: a store and a rebuild, then a fork, which makes the page read-only with the
      mark of its frame as its only guard, and a copy-on-write fault. */
  method FaultFromStart(p: PageId, page: Page, off: nat, b: byte, child: nat) returns (k: Kernel, ghost stored: Page)
    requires p.pid < NPROC && p.vpn < USER_PAGE_COUNT && off < PAGE_SIZE && b != page[off]
    requires child != p.pid && child < NPROC
    ensures k.Valid() && InBounds(k.State(), p) && stored[off] == b && View(k.State(), p)[off] != b
  {
    k := LoadedPage(3, p, page);
    var ok := k.Store(p, off, b);
    ghost var a := k.State();
    stored := View(a, p);
    k.BuildPageTablesForImage(p.pid);
    ghost var c := k.State();
    assert Rebuilt(a, c, p) && SameView(a, c, p) && PageOk(a, p);
    ShareWith(k, p, PageId(child, p.vpn));
    LostByFault(k, p);
  }

  /** What a fork does to a process with this one page. */
  method ShareWith(k: Kernel, p: PageId, q: PageId)
    requires k.Valid() && k.pages.Keys == {p} && PrivatePage(k.State(), p) && q != p && q.vpn == p.vpn && q.pid < NPROC
    modifies k
    ensures k.Valid() && p in k.pages && InBounds(k.State(), p) && View(k.State(), p) == View(old(k.State()), p)
    ensures k.pages[p] == old(k.pages)[p].(pte := old(k.pages)[p].pte.(rw := false))
    ensures OnlyZeroPinned(old(k.State())) ==> OnlyZeroPinned(k.State())
    ensures !AllUsed(old(k.frames)) ==> !AllUsed(k.frames)
  {
    ghost var m := k.State();
    assert PageOk(m, p);
    CloneMetaStep(m, p, q);
    k.CloneLayoutOf(p, q);
    ghost var n := k.State();
    assert SameView(m, n, p);
    SharedAlone(n, p, q);
    var ok := k.ShareResidentPage(p, q);
  }

  lemma SharedAlone(n: Mem, p: PageId, q: PageId)
    requires Good(n) && PrivatePage(n, p) && q in n.pages && n.pages[q].state.Reserved? && q != p && q.vpn == p.vpn
    ensures CanShare(n.frames[n.pages[p].frame])
    ensures var o := ForkResident(n, p, q);
            && Good(o) && SameView(n, o, p) && o.pages[p] == n.pages[p].(pte := n.pages[p].pte.(rw := false))
            && (OnlyZeroPinned(n) ==> OnlyZeroPinned(o)) && (!AllUsed(n.frames) ==> !AllUsed(o.frames))
  {
    assert PageOk(n, p);
    ForkResidentGood(n, p, q);
    var o := ForkResident(n, p, q);
    assert forall g: nat :: g < |n.frames| ==> o.frames[g].used == n.frames[g].used;
  }

  method OwnFrame(k: Kernel, p: PageId, page: Page) returns (ghost f: nat)
    requires k.Valid() && p in k.pages
    requires k.pages[p] == PageInfo(Reserved, false, 0, None, NO_PTE, k.pages[p].backing, page)
    requires OnlyZeroPinned(k.State()) && !SwapFull(k.State()) && !AllUsed(k.frames)
    modifies k
    ensures k.Valid() && k.pages.Keys == old(k.pages).Keys && PrivatePage(k.State(), p) && OnlyZeroPinned(k.State())
    ensures !SwapFull(k.State()) && k.pages[p].backing == old(k.pages)[p].backing && k.pages[p].pte.present
    ensures k.pages[p].initial == page && |k.frames| == |old(k.frames)|
    ensures forall g: nat :: g < |k.frames| && g != f && !old(k.frames)[g].used ==> !k.frames[g].used
  {
    var r := k.TakePage();
    ghost var m := k.State();
    f := r.value;
    assert OnlyZeroPinned(m) && !SwapFull(m);
    k.FillAndAttach(p, r.value, page);
    AttachedPrivate(m, k.State(), p, r.value, page);
  }

  lemma AttachedPrivate(m: Mem, n: Mem, p: PageId, f: nat, page: Page)
    requires Good(m) && Good(n) && p in m.pages && f < |m.ram| && 0 < f < |m.frames| && OnlyZeroPinned(m)
             && !SwapFull(m)
    requires n == Attach(FillFrame(m, f, page), p, f, true, false, false)
    ensures PrivatePage(n, p) && OnlyZeroPinned(n) && !SwapFull(n) && n.pages[p].pte.present
    ensures n.pages.Keys == m.pages.Keys && n.pages[p].backing == m.pages[p].backing
    ensures n.pages[p].initial == m.pages[p].initial
  {
    InvBounds(n, 0, 0, p);
    assert n.slots == m.slots;
  }
}
