/** Steps that touch only bookkeeping, the sharing bound that keeps the 16-bit
    counters exact, and how far views can drift. */
module PagingBookkeeping {
  import opened Common
  import opened PagingState
  import opened PagingInvariant
  import opened PagingSteps

  // ------------------------------------------------- sharing stays per page

  /** Fork copies a page to the same virtual page, so everybody on a frame or a slot
      has the same virtual page number. The zero page is the exception. */
  ghost predicate SameVpn(m: Mem) {
    && (forall p :: p in m.pages ==> p.pid < NPROC && p.vpn < USER_PAGE_COUNT)
    && (forall p, q, f: nat :: OnFrame(m, p, f) && OnFrame(m, q, f) && f != 0 ==> p.vpn == q.vpn)
    && (forall p, q, s: nat :: Names(m, p, s) && Names(m, q, s) ==> p.vpn == q.vpn)
  }

  lemma {:induction false} PidsBounded(ids: set<PageId>, v: nat, n: nat)
    requires forall p :: p in ids ==> p.vpn == v && p.pid < n
    ensures |ids| <= n
    decreases n
  {
    if n == 0 {
      if x :| x in ids { assert false; }
    } else {
      var last := PageId(n - 1, v);
      PidsBounded(ids - {last}, v, n - 1);
    }
  }

  /** A slot never has more sharers than there are processes, so the 16-bit share
      count set at swap-in is exact. */
  lemma SlotSharersBounded(m: Mem, s: nat)
    requires Inv(m) && SameVpn(m) && s < |m.slots| && m.slots[s].used
    ensures m.slots[s].mapCount <= NPROC
  {
    assert SlotOk(m, s, Extra(0, 0, s));
    var ids := Namers(m, s);
    var x :| x in ids;
    assert Names(m, x, s);
    forall p | p in ids ensures p.vpn == x.vpn && p.pid < NPROC { assert Names(m, p, s); }
    PidsBounded(ids, x.vpn, NPROC);
  }

  // -------------------------------------------------- bookkeeping-only steps

  /** A step that leaves ram and slots alone, changes page records only in their
      page-table entries, and frames only in their pin. */
  ghost predicate OnlyPtesAndPins(m: Mem, n: Mem) {
    && n.ram == m.ram && n.slots == m.slots
    && |n.frames| == |m.frames|
    && n.pages.Keys == m.pages.Keys
    && (forall f: nat :: f < |m.frames| ==> n.frames[f] == m.frames[f].(pinned := n.frames[f].pinned))
    && (forall p :: p in m.pages ==> n.pages[p] == m.pages[p].(pte := n.pages[p].pte))
  }

  lemma PteStep(m: Mem, n: Mem, t: nat, k: nat)
    requires InvPending(m, t, k) && OnlyPtesAndPins(m, n)
    requires forall p :: p in n.pages ==> PageOk(n, p)
    requires n.frames[0].pinned && forall f: nat :: f < |n.frames| && n.frames[f].pinned ==> n.frames[f].used
    ensures InvPending(n, t, k) && ViewsKept(m, n)
    ensures SameVpn(m) ==> SameVpn(n)
  {
    forall f: nat | f < |n.frames| ensures FrameOk(n, f) {
      assert FrameOk(m, f);
      assert forall q :: OnFrame(n, q, f) <==> OnFrame(m, q, f);
    }
    forall q | q in n.pages ensures SameView(m, n, q) { InvBounds(m, t, k, q); }
    forall s: nat | s < |n.slots| ensures SlotOk(n, s, Extra(t, k, s)) {
      assert SlotOk(m, s, Extra(t, k, s));
      assert Namers(n, s) == Namers(m, s);
      if SharersFlagged(m, s) {
        forall q | Names(n, q, s) && n.pages[q].state.Swapped? ensures n.pages[q].swappedCow { assert Names(m, q, s); }
      }
      if m.slots[s].used && m.slots[s].residentFrame.Some? {
        var g := m.slots[s].residentFrame.value;
        forall q | OnFrame(n, q, g) ensures n.pages[q].slot == Some(s) { assert OnFrame(m, q, g); }
        assert ResidentOk(n, s, n.slots[s], g);
      }
    }
    if SameVpn(m) {
      forall p, q, f: nat | OnFrame(n, p, f) && OnFrame(n, q, f) && f != 0 ensures p.vpn == q.vpn {
        assert OnFrame(m, p, f) && OnFrame(m, q, f);
      }
      forall p, q, s: nat | Names(n, p, s) && Names(n, q, s) ensures p.vpn == q.vpn {
        assert Names(m, p, s) && Names(m, q, s);
      }
    }
  }

  lemma SetPinnedStep(m: Mem, t: nat, k: nat, f: nat, b: bool)
    requires InvPending(m, t, k) && 0 < f < |m.frames| && (b ==> m.frames[f].used)
    ensures InvPending(SetPinned(m, f, b), t, k) && ViewsKept(m, SetPinned(m, f, b))
    ensures SameVpn(m) ==> SameVpn(SetPinned(m, f, b))
  {
    var n := SetPinned(m, f, b);
    assert FrameOk(m, 0);
    forall q | q in n.pages ensures PageOk(n, q) { assert PageOk(m, q); }
    forall g: nat | g < |n.frames| && n.frames[g].pinned ensures n.frames[g].used { assert FrameOk(m, g); }
    PteStep(m, n, t, k);
  }

  /** Only accessed bits were cleared. */
  ghost predicate OnlyAgedSince(m: Mem, n: Mem) {
    && n.frames == m.frames && n.ram == m.ram && n.slots == m.slots
    && n.pages.Keys == m.pages.Keys
    && forall p :: p in m.pages ==>
         && n.pages[p] == m.pages[p].(pte := m.pages[p].pte.(accessed := n.pages[p].pte.accessed))
         && (n.pages[p].pte.accessed ==> m.pages[p].pte.accessed)
  }

  lemma AgingStep(m: Mem, n: Mem)
    requires Inv(m) && OnlyAgedSince(m, n)
    ensures Inv(n) && ViewsKept(m, n) && (SameVpn(m) ==> SameVpn(n))
  {
    assert FrameOk(m, 0);
    forall g: nat | g < |n.frames| && n.frames[g].pinned ensures n.frames[g].used { assert FrameOk(m, g); }
    forall q | q in n.pages ensures PageOk(n, q) { assert PageOk(m, q); }
    PteStep(m, n, 0, 0);
  }

  /** Rebuilding a page table never hands out a writable mapping of a shared frame. */
  lemma RemapPageStep(m: Mem, p: PageId)
    requires Inv(m) && p in m.pages
    ensures InBounds(m, p) && Inv(RemapPage(m, p)) && ViewsKept(m, RemapPage(m, p))
    ensures SameVpn(m) ==> SameVpn(RemapPage(m, p))
  {
    InvBounds(m, 0, 0, p);
    var n := RemapPage(m, p);
    assert FrameOk(m, 0) && PageOk(m, p);
    forall q | q in n.pages ensures PageOk(n, q) { assert PageOk(m, q); }
    forall g: nat | g < |n.frames| && n.frames[g].pinned ensures n.frames[g].used { assert FrameOk(m, g); }
    PteStep(m, n, 0, 0);
  }

  lemma AddPageStep(m: Mem, p: PageId, flag: bool, backing: Backing, initial: Page)
    requires Inv(m) && p !in m.pages && (backing.ZeroFill? ==> initial == ZeroPage())
    ensures var n := AddPage(m, p, flag, backing, initial);
            && Inv(n)
            && (forall q :: q in m.pages ==> SameView(m, n, q))
            && InBounds(n, p) && View(n, p) == initial
            && (SameVpn(m) && p.pid < NPROC && p.vpn < USER_PAGE_COUNT ==> SameVpn(n))
  {
    var n := AddPage(m, p, flag, backing, initial);
    forall f: nat | f < |n.frames| ensures FrameOk(n, f) {
      assert FrameOk(m, f);
      assert forall q :: OnFrame(n, q, f) <==> OnFrame(m, q, f);
    }
    forall q | q in n.pages ensures PageOk(n, q) && (q in m.pages ==> SameView(m, n, q)) {
      if q != p { assert PageOk(m, q); InvBounds(m, 0, 0, q); }
    }
    forall s: nat | s < |n.slots| ensures SlotOk(n, s, Extra(0, 0, s)) {
      assert SlotOk(m, s, Extra(0, 0, s));
      assert Namers(n, s) == Namers(m, s);
      if SharersFlagged(m, s) {
        forall q | Names(n, q, s) && n.pages[q].state.Swapped? ensures n.pages[q].swappedCow { assert Names(m, q, s); }
      }
      if m.slots[s].used && m.slots[s].residentFrame.Some? {
        var g := m.slots[s].residentFrame.value;
        forall q | OnFrame(n, q, g) ensures n.pages[q].slot == Some(s) { assert OnFrame(m, q, g); }
        assert ResidentOk(n, s, n.slots[s], g);
      }
    }
    if SameVpn(m) {
      forall x, y, f: nat | OnFrame(n, x, f) && OnFrame(n, y, f) && f != 0 ensures x.vpn == y.vpn {
        assert OnFrame(m, x, f) && OnFrame(m, y, f);
      }
      forall x, y, s: nat | Names(n, x, s) && Names(n, y, s) ensures x.vpn == y.vpn {
        assert Names(m, x, s) && Names(m, y, s);
      }
    }
  }

  lemma RemovePageStep(m: Mem, p: PageId)
    requires Inv(m) && p in m.pages && m.pages[p].state.Reserved?
    ensures var n := RemovePage(m, p);
            && Inv(n)
            && (forall q :: q in n.pages ==> SameView(m, n, q))
            && (SameVpn(m) ==> SameVpn(n))
  {
    var n := RemovePage(m, p);
    assert PageOk(m, p);
    forall f: nat | f < |n.frames| ensures FrameOk(n, f) {
      assert FrameOk(m, f);
      assert forall q :: OnFrame(n, q, f) <==> OnFrame(m, q, f);
    }
    forall q | q in n.pages ensures PageOk(n, q) && SameView(m, n, q) {
      assert PageOk(m, q);
      InvBounds(m, 0, 0, q);
    }
    forall s: nat | s < |n.slots| ensures SlotOk(n, s, Extra(0, 0, s)) {
      assert SlotOk(m, s, Extra(0, 0, s));
      assert Namers(n, s) == Namers(m, s);
      if SharersFlagged(m, s) {
        forall q | Names(n, q, s) && n.pages[q].state.Swapped? ensures n.pages[q].swappedCow { assert Names(m, q, s); }
      }
      if m.slots[s].used && m.slots[s].residentFrame.Some? {
        var g := m.slots[s].residentFrame.value;
        forall q | OnFrame(n, q, g) ensures n.pages[q].slot == Some(s) { assert OnFrame(m, q, g); }
        assert ResidentOk(n, s, n.slots[s], g);
      }
    }
    if SameVpn(m) {
      forall x, y, f: nat | OnFrame(n, x, f) && OnFrame(n, y, f) && f != 0 ensures x.vpn == y.vpn {
        assert OnFrame(m, x, f) && OnFrame(m, y, f);
      }
      forall x, y, s: nat | Names(n, x, s) && Names(n, y, s) ensures x.vpn == y.vpn {
        assert Names(m, x, s) && Names(m, y, s);
      }
    }
  }

  // ------------------------------- the other steps keep sharing per page too

  /** Only page p is rewritten; its new frame and slot, if any, are either used by
      nobody else or only by pages with p's virtual page number. */
  lemma OnePageKeepsVpn(m: Mem, n: Mem, p: PageId)
    requires SameVpn(m) && p in m.pages && n.pages.Keys == m.pages.Keys
    requires forall q :: q in m.pages && q != p ==>
               n.pages[q] == m.pages[q].(pte := n.pages[q].pte)
    requires forall q, f: nat :: OnFrame(n, p, f) && f != 0 && OnFrame(m, q, f) ==> q.vpn == p.vpn
    requires forall q, s: nat :: Names(n, p, s) && Names(m, q, s) ==> q.vpn == p.vpn
    ensures SameVpn(n)
  {
    forall x, y, f: nat | OnFrame(n, x, f) && OnFrame(n, y, f) && f != 0 ensures x.vpn == y.vpn {
      assert x != p ==> OnFrame(m, x, f);
      assert y != p ==> OnFrame(m, y, f);
    }
    forall x, y, s: nat | Names(n, x, s) && Names(n, y, s) ensures x.vpn == y.vpn {
      assert x != p ==> Names(m, x, s);
      assert y != p ==> Names(m, y, s);
    }
  }

  // -------------------------------------------- what the kernel guarantees

  ghost predicate Good(m: Mem) {
    Inv(m) && SameVpn(m)
  }

  /** The bytes of a page of the executable are safe from the clock while the page is not
      resident, is dirty, sits on a copy-on-write frame, or is still what the file holds.
      Every other page is safe anyway. */
  ghost predicate Guarded(m: Mem, q: PageId) {
    && InBounds(m, q)
    && (m.pages[q].backing.ExecFile? && m.pages[q].state.Resident? ==>
          m.pages[q].pte.dirty || m.frames[m.pages[q].frame].cow || m.ram[m.pages[q].frame] == m.pages[q].initial)
  }

  /** Page q keeps its bytes, unless it is an unguarded page of the executable, which may
      fall back to the file. */
  ghost predicate Loose(m: Mem, n: Mem, q: PageId) {
    && InBounds(m, q) && InBounds(n, q)
    && n.pages[q].backing == m.pages[q].backing
    && n.pages[q].initial == m.pages[q].initial
    && (View(n, q) == View(m, q) || (!Guarded(m, q) && View(n, q) == m.pages[q].initial))
  }

  ghost predicate Drift(m: Mem, n: Mem, q: PageId) {
    Loose(m, n, q) && (Guarded(m, q) ==> Guarded(n, q))
  }

  /** What paging behind a process's back does. */
  ghost predicate ViewsDrift(m: Mem, n: Mem) {
    && n.pages.Keys == m.pages.Keys
    && forall q :: q in m.pages ==> Drift(m, n, q)
  }

  /** The same, except that page p may have lost its guard. */
  ghost predicate ViewsDriftBut(m: Mem, n: Mem, p: PageId) {
    && n.pages.Keys == m.pages.Keys
    && forall q :: q in m.pages ==> Loose(m, n, q) && (q != p ==> Drift(m, n, q))
  }

  lemma DriftTrans(m: Mem, n: Mem, o: Mem)
    requires ViewsDrift(m, n) && ViewsDrift(n, o)
    ensures ViewsDrift(m, o)
  {
    forall q | q in m.pages ensures Drift(m, o, q) { assert Drift(m, n, q) && Drift(n, o, q); }
  }

  lemma DriftThenBut(m: Mem, n: Mem, o: Mem, p: PageId)
    requires ViewsDrift(m, n) && ViewsDriftBut(n, o, p)
    ensures ViewsDriftBut(m, o, p)
  {
    forall q | q in m.pages ensures Loose(m, o, q) && (q != p ==> Drift(m, o, q)) {
      assert Drift(m, n, q) && Loose(n, o, q);
      assert q != p ==> Drift(n, o, q);
    }
  }

  lemma DriftIsBut(m: Mem, n: Mem, p: PageId)
    requires ViewsDrift(m, n)
    ensures ViewsDriftBut(m, n, p)
  {
    forall q | q in m.pages ensures Drift(m, n, q) {}
  }

  /** Page q reads the same and keeps its guard. */
  ghost predicate Steady(m: Mem, n: Mem, q: PageId) {
    SameView(m, n, q) && (Guarded(m, q) ==> Guarded(n, q))
  }

  ghost predicate ViewsSteady(m: Mem, n: Mem) {
    && n.pages.Keys == m.pages.Keys
    && forall q :: q in m.pages ==> Steady(m, n, q)
  }

  ghost predicate ViewsSteadyBut(m: Mem, n: Mem, p: PageId) {
    && n.pages.Keys == m.pages.Keys
    && forall q :: q in m.pages && q != p ==> Steady(m, n, q)
  }

  lemma SteadyIsDrift(m: Mem, n: Mem)
    requires ViewsSteady(m, n)
    ensures ViewsDrift(m, n)
  {
    forall q | q in m.pages ensures Drift(m, n, q) { assert Steady(m, n, q); }
  }

  lemma SteadyTrans(m: Mem, n: Mem, o: Mem)
    requires ViewsSteady(m, n) && ViewsSteady(n, o)
    ensures ViewsSteady(m, o)
  {
    forall q | q in m.pages ensures Steady(m, o, q) { assert Steady(m, n, q) && Steady(n, o, q); }
  }

  lemma SteadyRefl(m: Mem)
    requires Inv(m)
    ensures ViewsSteady(m, m) && ViewsDrift(m, m)
  {
    forall q | q in m.pages ensures Steady(m, m, q) { InvBounds(m, 0, 0, q); }
    SteadyIsDrift(m, m);
  }

  lemma SteadyButTrans(m: Mem, n: Mem, o: Mem, p: PageId)
    requires ViewsSteadyBut(m, n, p) && ViewsSteadyBut(n, o, p)
    ensures ViewsSteadyBut(m, o, p)
  {
    forall q | q in m.pages && q != p ensures Steady(m, o, q) { assert Steady(m, n, q) && Steady(n, o, q); }
  }

  lemma SteadyThenBut(m: Mem, n: Mem, o: Mem, p: PageId)
    requires ViewsSteady(m, n) && ViewsSteadyBut(n, o, p)
    ensures ViewsSteadyBut(m, o, p)
  {
    forall q | q in m.pages ensures Steady(m, n, q) {}
    SteadyButTrans(m, n, o, p);
  }

  lemma SteadyButIsDriftBut(m: Mem, n: Mem, p: PageId)
    requires ViewsSteadyBut(m, n, p) && SameView(m, n, p)
    ensures ViewsDriftBut(m, n, p)
  {
    forall q | q in m.pages ensures Loose(m, n, q) && (q != p ==> Drift(m, n, q)) { assert q != p ==> Steady(m, n, q); }
  }

  /** A resident page stayed where it was and lost neither its dirty bit nor the mark of
      its frame. */
  ghost predicate StillGuards(m: Mem, n: Mem, q: PageId) {
    q in m.pages && InBounds(m, q) && InBounds(n, q) && n.pages[q].state.Resident? ==>
      && m.pages[q].state.Resident? && n.pages[q].frame == m.pages[q].frame
      && (m.pages[q].pte.dirty ==> n.pages[q].pte.dirty)
      && (m.frames[m.pages[q].frame].cow ==> n.frames[m.pages[q].frame].cow)
  }

  lemma KeptIsSteady(m: Mem, n: Mem)
    requires ViewsKept(m, n) && forall q {:trigger StillGuards(m, n, q)} :: q in m.pages ==> StillGuards(m, n, q)
    ensures ViewsSteady(m, n)
  {
    forall q | q in m.pages ensures Steady(m, n, q) { assert SameView(m, n, q) && StillGuards(m, n, q); }
  }

  lemma KeptIsSteadyBut(m: Mem, n: Mem, p: PageId)
    requires ViewsKeptBut(m, n, p)
    requires forall q {:trigger StillGuards(m, n, q)} :: q in m.pages && q != p ==> StillGuards(m, n, q)
    ensures ViewsSteadyBut(m, n, p)
  {
    forall q | q in m.pages && q != p ensures Steady(m, n, q) { assert SameView(m, n, q) && StillGuards(m, n, q); }
  }

  lemma KeptTrans(m: Mem, n: Mem, o: Mem)
    requires ViewsKept(m, n) && ViewsKept(n, o)
    ensures ViewsKept(m, o)
  {
    forall q | q in m.pages ensures SameView(m, o, q) { assert SameView(m, n, q) && SameView(n, o, q); }
  }

  predicate Untouchable(m: Mem, p: PageId)
    requires InBounds(m, p)
  {
    m.pages[p].state.Resident? ==> m.frames[m.pages[p].frame].pinned
  }

  /** What reclaim leaves alone: pages that are not resident on an unpinned frame,
      pinned frames with their contents, and slots whose sharers are all out. */
  ghost predicate Undisturbed(m: Mem, n: Mem) {
    && n.pages.Keys == m.pages.Keys
    && |n.frames| == |m.frames| && |n.ram| == |m.ram| && |n.slots| == |m.slots|
    && (forall p :: p in m.pages && InBounds(m, p) && Untouchable(m, p) ==> n.pages[p] == m.pages[p])
    && (forall f: nat :: f < |m.frames| && f < |m.ram| && m.frames[f].pinned ==>
      n.frames[f] == m.frames[f] && n.ram[f] == m.ram[f])
    && (forall s: nat :: s < |m.slots| && m.slots[s].used && m.slots[s].residentFrame.None? ==>
      n.slots[s] == m.slots[s])
  }

  lemma KeptRefl(m: Mem)
    requires Inv(m)
    ensures ViewsKept(m, m)
  {
    forall q | q in m.pages ensures SameView(m, m, q) { InvBounds(m, 0, 0, q); }
  }

  lemma UndisturbedTrans(m: Mem, n: Mem, o: Mem)
    requires Inv(m) && Inv(n) && Undisturbed(m, n) && Undisturbed(n, o)
    ensures Undisturbed(m, o)
  {
    forall p | p in m.pages && InBounds(m, p) && Untouchable(m, p) ensures o.pages[p] == m.pages[p] {
      assert n.pages[p] == m.pages[p];
      InvBounds(n, 0, 0, p);
    }
  }
}
