/** Which steps leave the pages of an executable safe from the clock: a page loses its
    guard only when it is swapped in, remapped, or given a frame of its own. */
module PagingGuards {
  import opened Common
  import opened PagingState
  import opened PagingInvariant
  import opened PagingSteps
  import opened PagingSharing
  import opened PagingBookkeeping
  import opened PagingEviction
  import opened PagingFork

  ghost predicate StillGuarded(m: Mem, n: Mem) {
    forall q {:trigger StillGuards(m, n, q)} :: q in m.pages ==> StillGuards(m, n, q)
  }

  ghost predicate StillGuardedBut(m: Mem, n: Mem, p: PageId) {
    forall q {:trigger StillGuards(m, n, q)} :: q in m.pages && q != p ==> StillGuards(m, n, q)
  }

  /** Frames may lose their mark only where nobody is mapped. */
  lemma MarksKeptGuards(m: Mem, n: Mem)
    requires Inv(m) && n.pages == m.pages && |n.frames| == |m.frames|
    requires forall f: nat :: f < |m.frames| && m.frames[f].mapCount != 0 && m.frames[f].cow ==> n.frames[f].cow
    ensures StillGuarded(m, n)
  {
    forall q | q in m.pages ensures StillGuards(m, n, q) {
      InvBounds(m, 0, 0, q);
      if m.pages[q].state.Resident? {
        assert FrameOk(m, m.pages[q].frame) && OnFrame(m, q, m.pages[q].frame);
      }
    }
  }

  lemma TakeFrameSteady(m: Mem, f: nat)
    requires Inv(m) && f < |m.frames| && !m.frames[f].used
    ensures 0 < f && Inv(TakeFrame(m, f)) && ViewsSteady(m, TakeFrame(m, f))
  {
    assert FrameOk(m, f);
    TakeFrameStep(m, f);
    MarksKeptGuards(m, TakeFrame(m, f));
    KeptIsSteady(m, TakeFrame(m, f));
  }

  lemma FillFrameSteady(m: Mem, f: nat, page: Page)
    requires Inv(m) && 0 < f < |m.frames| && m.frames[f].mapCount == 0
    ensures f < |m.ram| && Inv(FillFrame(m, f, page)) && ViewsSteady(m, FillFrame(m, f, page))
  {
    FillFrameStep(m, f, page);
    MarksKeptGuards(m, FillFrame(m, f, page));
    KeptIsSteady(m, FillFrame(m, f, page));
  }

  lemma SetPinnedSteady(m: Mem, f: nat, b: bool)
    requires Good(m) && 0 < f < |m.frames| && (b ==> m.frames[f].used)
    ensures Good(SetPinned(m, f, b)) && ViewsSteady(m, SetPinned(m, f, b))
  {
    SetPinnedStep(m, 0, 0, f, b);
    MarksKeptGuards(m, SetPinned(m, f, b));
    KeptIsSteady(m, SetPinned(m, f, b));
  }

  lemma AgedSteady(m: Mem, n: Mem)
    requires Good(m) && OnlyAgedSince(m, n)
    ensures Good(n) && ViewsSteady(m, n)
  {
    AgingStep(m, n);
    forall q | q in m.pages ensures StillGuards(m, n, q) { InvBounds(m, 0, 0, q); }
    KeptIsSteady(m, n);
  }

  /** One page changes, and no frame loses its mark. */
  lemma OnePageGuards(m: Mem, n: Mem, p: PageId)
    requires Inv(m) && p in m.pages && p in n.pages && n.pages == m.pages[p := n.pages[p]] && |n.frames| == |m.frames|
    requires forall f: nat :: f < |m.frames| && m.frames[f].cow ==>
               n.frames[f].cow || forall q :: OnFrame(m, q, f) ==> q == p
    ensures StillGuardedBut(m, n, p)
  {
    forall q | q in m.pages && q != p ensures StillGuards(m, n, q) {
      InvBounds(m, 0, 0, q);
      if m.pages[q].state.Resident? { assert OnFrame(m, q, m.pages[q].frame); }
    }
  }

  lemma DetachGuards(m: Mem, p: PageId)
    requires Inv(m) && p in m.pages && m.pages[p].state.Resident? && InBounds(m, p)
    ensures StillGuardedBut(m, Detach(m, p), p)
  {
    var n := Detach(m, p);
    var f := m.pages[p].frame;
    assert FrameOk(m, f) && OnFrame(m, p, f);
    if exists q :: OnFrame(m, q, f) && q != p {
      var q :| OnFrame(m, q, f) && q != p;
      NoDupCard(m.frames[f].rmap);
      SubsetCard({p, q}, set x | x in m.frames[f].rmap);
    }
    OnePageGuards(m, n, p);
  }

  lemma SwapInGuards(m: Mem, p: PageId, f: nat)
    requires Good(m) && p in m.pages && m.pages[p].state.Swapped? && InBounds(m, p) && m.pages[p].slot.Some?
    requires f < |m.frames|
    ensures StillGuardedBut(m, SwapIn(m, p, f), p)
  {
    var s := m.pages[p].slot.value;
    assert PageOk(m, p);
    SlotSharersBounded(m, s);
    OnePageGuards(m, SwapIn(m, p, f), p);
  }

  lemma MakeWritableGuards(m: Mem, p: PageId)
    requires Inv(m) && p in m.pages && m.pages[p].state.Resident? && InBounds(m, p) && SoleUser(m, p)
    ensures StillGuardedBut(m, MakeWritable(m, p), p)
  {
    OnePageGuards(m, MakeWritable(m, p), p);
  }

  /** Everybody on frame f has left for slot t. */
  lemma EvictionGuards(m: Mem, n: Mem, o: Mem, f: nat, t: nat)
    requires Good(m) && Evicting(m, n, f, t) && n.frames[f].mapCount == 0 && o.pages == n.pages && ViewsKept(m, o)
    requires |o.frames| == |n.frames| && forall g: nat :: g < |n.frames| && g != f ==> o.frames[g] == n.frames[g]
    ensures ViewsSteady(m, o)
  {
    assert FrameOk(n, f);
    forall q | q in m.pages ensures StillGuards(m, o, q) {
      InvBounds(m, 0, 0, q);
      if OnFrame(m, q, f) { EvictedIsOut(m, n, f, t, q); }
    }
    KeptIsSteady(m, o);
  }

  lemma EvictedIsOut(m: Mem, n: Mem, f: nat, t: nat, q: PageId)
    requires Good(m) && Evicting(m, n, f, t) && n.frames[f].mapCount == 0 && OnFrame(m, q, f)
    ensures q in n.pages && !n.pages[q].state.Resident?
  {
    assert SameView(m, n, q) && FrameOk(n, f) && forall g: nat :: g < |m.frames| ==> FrameOk(m, g);
    assert PageOk(n, q);
    forall g: nat | g < |m.frames| && g != f ensures !OnFrame(n, q, g) {
      assert FrameOk(n, g) && FrameOk(m, g) && !OnFrame(m, q, g);
      assert q !in m.frames[g].rmap;
    }
    assert n.pages[q].state.Resident? ==> OnFrame(n, q, n.pages[q].frame);
  }

  // -------------------------------------------------- whole steps of the kernel

  lemma AttachOwnFrameSteady(m: Mem, p: PageId, f: nat)
    requires Good(m) && p in m.pages && m.pages[p].state.Reserved?
    requires 0 < f < |m.frames| && m.frames[f].used && m.frames[f].mapCount == 0
    ensures InBounds(m, p)
    ensures var n := Attach(m, p, f, true, false, false);
            Good(n) && ViewsSteadyBut(m, n, p) && InBounds(n, p) && View(n, p) == m.ram[f]
  {
    var n := Attach(m, p, f, true, false, false);
    AttachOwnFrameStep(m, p, f, true);
    assert FrameOk(m, f);
    OnePageKeepsVpn(m, n, p);
    OnePageGuards(m, n, p);
    KeptIsSteadyBut(m, n, p);
  }

  lemma MapZeroPageSteady(m: Mem, p: PageId)
    requires Good(m) && p in m.pages && m.pages[p].state.Reserved? && m.pages[p].initial == ZeroPage()
    requires CanShare(m.frames[0])
    ensures Good(MapZeroPage(m, p)) && ViewsSteady(m, MapZeroPage(m, p))
  {
    var n := MapZeroPage(m, p);
    MapZeroPageStep(m, p);
    OnePageKeepsVpn(m, n, p);
    OnePageGuards(m, n, p);
    KeptIsSteadyBut(m, n, p);
    InvBounds(m, 0, 0, p);
    forall q | q in m.pages ensures Steady(m, n, q) { assert q != p ==> SameView(m, n, q); }
  }

  /** Page p is an altered page of the executable that is swapped out. */
  ghost predicate Altered(m: Mem, p: PageId) {
    p in m.pages && m.pages[p].state.Swapped? && m.pages[p].backing.ExecFile? && InBounds(m, p) &&
    View(m, p) != m.pages[p].initial
  }

  lemma SwapInSteady(m: Mem, p: PageId, f: nat)
    requires Good(m) && p in m.pages && m.pages[p].state.Swapped? && InBounds(m, p) && m.pages[p].slot.Some?
    requires HoldsSwappedPage(m, p, f)
    ensures CanRegister(m.slots[m.pages[p].slot.value], f)
    ensures var n := SwapIn(m, p, f); Good(n) && ViewsSteadyBut(m, n, p) && SameView(m, n, p)
  {
    SwapInGood(m, p, f);
    SwapInGuards(m, p, f);
    KeptIsSteadyBut(m, SwapIn(m, p, f), p);
  }

  lemma SwappedInDrifts(m: Mem, b: Mem, n: Mem, p: PageId)
    requires ViewsDrift(m, b) && ViewsSteadyBut(b, n, p) && SameView(b, n, p)
    requires p in m.pages && m.pages[p].state.Swapped? && b.pages[p] == m.pages[p]
    ensures ViewsDriftBut(m, n, p) && (!Altered(m, p) ==> ViewsDrift(m, n))
  {
    SteadyButIsDriftBut(b, n, p);
    DriftThenBut(m, b, n, p);
    assert Drift(m, b, p) && Loose(m, n, p) && Guarded(m, p);
    if !Altered(m, p) {
      forall q | q in m.pages ensures Drift(m, n, q) { assert q != p ==> Drift(m, n, q); }
    }
  }

  lemma MakeWritableSteady(m: Mem, p: PageId)
    requires Good(m) && p in m.pages && m.pages[p].state.Resident? && InBounds(m, p)
    requires m.frames[m.pages[p].frame].cowRef <= 1
    ensures SoleUser(m, p)
    ensures var n := MakeWritable(m, p); Good(n) && ViewsSteadyBut(m, n, p) && SameView(m, n, p)
  {
    assert FrameOk(m, m.pages[p].frame) && OnFrame(m, p, m.pages[p].frame);
    OneReferenceIsSole(m, p);
    MakeWritableStep(m, p);
    OnePageKeepsVpn(m, MakeWritable(m, p), p);
    MakeWritableGuards(m, p);
    KeptIsSteadyBut(m, MakeWritable(m, p), p);
  }

  lemma DetachSteady(m: Mem, p: PageId)
    requires Good(m) && p in m.pages && m.pages[p].state.Resident?
    ensures InBounds(m, p) && Good(Detach(m, p)) && ViewsSteadyBut(m, Detach(m, p), p)
  {
    DetachKeepsInv(m, 0, 0, p);
    DetachKeepsViews(m, 0, 0, p);
    OnePageKeepsVpn(m, Detach(m, p), p);
    DetachGuards(m, p);
    KeptIsSteadyBut(m, Detach(m, p), p);
  }

  lemma StoreByteSteady(m: Mem, p: PageId, off: nat, b: byte)
    requires Good(m) && p in m.pages && m.pages[p].state.Resident? && m.pages[p].pte.rw && off < PAGE_SIZE
    ensures InBounds(m, p)
    ensures var n := StoreByte(m, p, off, b);
            Good(n) && ViewsSteadyBut(m, n, p) && Guarded(n, p) && View(n, p) == View(m, p)[off := b]
  {
    StoreByteStep(m, p, off, b);
    OnePageKeepsVpn(m, StoreByte(m, p, off, b), p);
    OnePageGuards(m, StoreByte(m, p, off, b), p);
    KeptIsSteadyBut(m, StoreByte(m, p, off, b), p);
  }

  /** A rebuilt page-table entry has no dirty bit, so only the frame's mark and the file
      guard the page. */
  lemma RemapPageSteady(m: Mem, p: PageId)
    requires Good(m) && p in m.pages
    ensures InBounds(m, p)
    ensures var n := RemapPage(m, p); Good(n) && ViewsSteadyBut(m, n, p) && SameView(m, n, p)
  {
    RemapPageStep(m, p);
    OnePageGuards(m, RemapPage(m, p), p);
    KeptIsSteadyBut(m, RemapPage(m, p), p);
  }

  /** After a rebuild page q is guarded by its frame's mark or the file, or it is not resident. */
  ghost predicate Rebuilt(m: Mem, n: Mem, q: PageId) {
    && q in m.pages && q in n.pages && InBounds(m, q)
    && n.pages[q] == m.pages[q].(pte := n.pages[q].pte) && !n.pages[q].pte.dirty && !n.pages[q].pte.accessed
    && (m.pages[q].state.Resident? ==> (n.pages[q].pte.rw <==> m.frames[m.pages[q].frame].cowRef == 0))
    && (Guarded(n, q) <==> (m.pages[q].backing.ExecFile? && m.pages[q].state.Resident? ==>
          m.frames[m.pages[q].frame].cow || m.ram[m.pages[q].frame] == m.pages[q].initial))
  }

  /** The rebuild of a process's page table has passed pages [0, v). */
  ghost predicate Rebuilding(m: Mem, n: Mem, pid: nat, v: nat) {
    && ViewsKept(m, n) && n.frames == m.frames && n.ram == m.ram && n.slots == m.slots
    && (forall q :: q in m.pages && (q.pid != pid || q.vpn >= v) ==> n.pages[q] == m.pages[q])
    && (forall q :: q in m.pages && q.pid == pid && q.vpn < v ==> Rebuilt(m, n, q))
  }

  lemma RebuildStarts(m: Mem, pid: nat)
    requires Inv(m)
    ensures Rebuilding(m, m, pid, 0)
  {
    KeptRefl(m);
  }

  lemma RebuildAdvances(m: Mem, n: Mem, pid: nat, v: nat)
    requires Good(m) && Good(n) && Rebuilding(m, n, pid, v) && PageId(pid, v) in n.pages
    ensures InBounds(n, PageId(pid, v)) && Good(RemapPage(n, PageId(pid, v)))
    ensures Rebuilding(m, RemapPage(n, PageId(pid, v)), pid, v + 1)
  {
    var p := PageId(pid, v);
    RemapPageSteady(n, p);
    var o := RemapPage(n, p);
    forall q | q in m.pages ensures SameView(m, o, q) {
      assert SameView(m, n, q);
      assert q != p ==> Steady(n, o, q);
    }
    forall q | q in m.pages && q.pid == pid && q.vpn < v + 1 ensures Rebuilt(m, o, q) {
      InvBounds(m, 0, 0, q);
      InvBounds(o, 0, 0, q);
      if q != p { assert q.vpn < v && Rebuilt(m, n, q); }
    }
  }

  lemma RebuildEnds(m: Mem, n: Mem, pid: nat)
    requires Good(n) && Rebuilding(m, n, pid, USER_PAGE_COUNT)
    ensures forall q :: q in n.pages && q.pid != pid && Guarded(m, q) ==> Guarded(n, q)
  {
    forall q | q in n.pages ensures SameView(m, n, q) {}
  }

  /** Page in, then copy on write: page p keeps its bytes if it had a guard. */
  lemma StorableDrifts(m: Mem, a: Mem, n: Mem, p: PageId)
    requires ViewsDriftBut(m, a, p) && ViewsDriftBut(a, n, p) && (p in n.pages ==> SameView(a, n, p))
    ensures ViewsDriftBut(m, n, p)
  {
    forall q | q in m.pages ensures Loose(m, n, q) && (q != p ==> Drift(m, n, q)) {
      assert Loose(m, a, q) && Loose(a, n, q);
      assert q != p ==> Drift(m, a, q) && Drift(a, n, q);
    }
  }

  lemma DropSwappedSteady(m: Mem, p: PageId)
    requires Good(m) && p in m.pages && m.pages[p].state.Swapped?
    ensures InBounds(m, p) && m.pages[p].slot.Some?
    ensures Good(DropSwapped(m, p)) && ViewsSteadyBut(m, DropSwapped(m, p), p)
  {
    DropSwappedStep(m, p);
    OnePageKeepsVpn(m, DropSwapped(m, p), p);
    OnePageGuards(m, DropSwapped(m, p), p);
    KeptIsSteadyBut(m, DropSwapped(m, p), p);
  }

  /** Where a page comes or goes, the others keep their frames. */
  lemma OthersSteady(m: Mem, n: Mem)
    requires forall q :: q in m.pages && q in n.pages ==> SameView(m, n, q) && n.pages[q] == m.pages[q]
    requires n.frames == m.frames
    ensures forall q :: q in m.pages && q in n.pages ==> Steady(m, n, q)
  {
    forall q | q in m.pages && q in n.pages ensures Steady(m, n, q) { assert SameView(m, n, q); }
  }

  // ------------------------------------------------------------------- fork

  /** In the course of a fork: frames get marks and lose none, the parent's entries become
      read-only and nothing else, and a page the child shares is marked. */
  ghost predicate Sheltered(m: Mem, n: Mem) {
    && n.ram == m.ram && |n.frames| == |m.frames|
    && (forall f: nat :: f < |m.frames| && m.frames[f].cow ==> n.frames[f].cow)
    && (forall q :: q in m.pages ==>
      q in n.pages && n.pages[q] == m.pages[q].(pte := m.pages[q].pte.(rw := n.pages[q].pte.rw)))
    && (forall q :: q in n.pages && q !in m.pages && n.pages[q].state.Resident? ==>
          n.pages[q].frame < |n.frames| && n.frames[n.pages[q].frame].cow)
  }

  lemma ShelterLayout(m: Mem, n: Mem, p: PageId, q: PageId)
    requires Sheltered(m, n) && InBounds(n, p) && p != q && q !in m.pages
    ensures Sheltered(m, CloneMeta(n, p, q))
  {
  }

  lemma ShelterFrame(m: Mem, n: Mem, p: PageId, q: PageId)
    requires Sheltered(m, n) && InBounds(n, p) && n.pages[p].state.Resident? && q in n.pages && q != p && q !in m.pages
    ensures Sheltered(m, ForkResident(n, p, q))
  {
  }

  lemma ShelteredGuards(m: Mem, n: Mem)
    requires Inv(m) && Inv(n) && Sheltered(m, n)
    ensures forall q :: q in m.pages && Guarded(m, q) ==> Guarded(n, q)
    ensures forall q :: q in n.pages && q !in m.pages ==> Guarded(n, q)
  {
    forall q | q in n.pages ensures InBounds(n, q) { InvBounds(n, 0, 0, q); }
  }

  // ---------------------------------------------------- what the clock may drop

  /** The clock drops frame f without writing it out. */
  ghost predicate Discardable(m: Mem, f: nat)
    requires f < |m.frames|
  {
    !m.frames[f].cow && forall p :: p in m.frames[f].rmap ==>
      p in m.pages && m.pages[p].backing.ExecFile? && !m.pages[p].pte.dirty
  }

  /** The bytes of page q are gone when the clock frees frame f. */
  ghost predicate Lost(m: Mem, f: nat, q: PageId)
    requires f < |m.frames|
  {
    OnFrame(m, q, f) && Discardable(m, f) && f < |m.ram| && m.ram[f] != m.pages[q].initial
  }

  /** A page is lost on its frame exactly when nobody guards it. */
  lemma LostIffUnguarded(m: Mem, f: nat, q: PageId)
    requires Inv(m) && OnFrame(m, q, f) && f < |m.frames| && f != 0
    ensures Lost(m, f, q) <==> !Guarded(m, q)
  {
    InvBounds(m, 0, 0, q);
    assert FrameOk(m, f);
    assert q in m.frames[f].rmap;
    if !m.frames[f].cow {
      assert m.frames[f].rmap[0] == q;
    }
  }

  /** Dropping a discardable frame: page q keeps its bytes exactly when it is not lost. */
  lemma DiscardStep(m: Mem, f: nat, p: PageId)
    requires Good(m) && 0 < f < |m.frames| && OnFrame(m, p, f) && Discardable(m, f)
    ensures InBounds(m, p) && Good(Detach(m, p)) && ViewsDrift(m, Detach(m, p))
    ensures forall q :: q in m.pages ==> (SameView(m, Detach(m, p), q) <==> !Lost(m, f, q))
  {
    DetachSteady(m, p);
    var n := Detach(m, p);
    assert FrameOk(m, f);
    assert m.frames[f].rmap == [p] by { assert p in m.frames[f].rmap; }
    LostIffUnguarded(m, f, p);
    InvBounds(n, 0, 0, p);
    forall q | q in m.pages ensures Drift(m, n, q) && (SameView(m, n, q) <==> !Lost(m, f, q)) {
      if q != p {
        assert Steady(m, n, q);
      }
    }
  }
}
