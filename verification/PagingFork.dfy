/** Fork: CloneFrom copies the layout and the slot references, CloneResidentPagesFrom
    then shares the resident frames. */
module PagingFork {
  import opened Common
  import opened PagingState
  import opened PagingInvariant
  import opened PagingSteps
  import opened PagingSharing
  import opened PagingBookkeeping

  /** Every swapped-out page of the process carries the copy-on-write mark. */
  ghost predicate ForkSafe(m: Mem, pid: nat) {
    forall v: nat :: PageId(pid, v) in m.pages && m.pages[PageId(pid, v)].state.Swapped?
      ==> m.pages[PageId(pid, v)].swappedCow
  }

  ghost predicate HasResident(m: Mem, pid: nat) {
    exists v: nat :: PageId(pid, v) in m.pages && m.pages[PageId(pid, v)].state.Resident?
  }

  ghost predicate Bounded(m: Mem) {
    && 0 < |m.frames| && |m.ram| == |m.frames|
    && forall p :: p in m.pages ==> InBounds(m, p)
  }

  /** CloneFrom for one page. */
  function CloneMeta(m: Mem, p: PageId, q: PageId): Mem
    requires InBounds(m, p) && p != q
  {
    var i := m.pages[p];
    var out := i.state.Swapped? && i.slot.Some?;
    m.(slots := if out then m.slots[i.slot.value := AddSlotReference(m.slots[i.slot.value])] else m.slots,
       pages := m.pages[q := PageInfo(if out then Swapped else Reserved, i.swappedCow, 0, if out then i.slot else None,
                                      NO_PTE, i.backing, i.initial)])
  }

  lemma CloneMetaIsFork(m: Mem, p: PageId, q: PageId)
    requires InBounds(m, p) && p != q && m.pages[p].state.Swapped? && m.pages[p].slot.Some?
    ensures var i := m.pages[p]; var a := AddPage(m, q, i.swappedCow, i.backing, i.initial);
            InBounds(a, p) && CloneMeta(m, p, q) == ForkSwapped(a, p, q)
  {
    var i := m.pages[p];
    var a := AddPage(m, q, i.swappedCow, i.backing, i.initial);
    assert ForkSwapped(a, p, q).pages == CloneMeta(m, p, q).pages;
  }

  lemma ForkSwappedGood(a: Mem, p: PageId, q: PageId)
    requires Good(a) && p in a.pages && a.pages[p].state.Swapped? && a.pages[p].swappedCow
    requires q in a.pages && a.pages[q].state.Reserved? && q.vpn == p.vpn && p != q
    ensures InBounds(a, p) && a.pages[p].slot.Some?
    ensures var n := ForkSwapped(a, p, q);
            Good(n) && ViewsKeptBut(a, n, q) && InBounds(n, q) && View(n, q) == View(a, p)
  {
    ForkSwappedStep(a, p, q);
    var n := ForkSwapped(a, p, q);
    forall x, s: nat | Names(n, q, s) && Names(a, x, s) ensures x.vpn == q.vpn { assert Names(a, p, s); }
    OnePageKeepsVpn(a, n, q);
  }

  lemma CloneMetaStep(m: Mem, p: PageId, q: PageId)
    requires Good(m) && p in m.pages && q !in m.pages && q.vpn == p.vpn && q.pid < NPROC
    requires m.pages[p].state.Swapped? ==> m.pages[p].swappedCow
    ensures InBounds(m, p)
    ensures var n := CloneMeta(m, p, q);
            && Good(n)
            && (forall x :: x in m.pages ==> SameView(m, n, x))
            && InBounds(n, q) && (m.pages[p].state.Swapped? ==> View(n, q) == View(m, p))
  {
    InvBounds(m, 0, 0, p);
    assert PageOk(m, p);
    var i := m.pages[p];
    var a := AddPage(m, q, i.swappedCow, i.backing, i.initial);
    AddPageStep(m, q, i.swappedCow, i.backing, i.initial);
    var n := CloneMeta(m, p, q);
    if i.state.Swapped? {
      CloneMetaIsFork(m, p, q);
      ForkSwappedGood(a, p, q);
      forall x | x in m.pages ensures SameView(m, n, x) { assert SameView(m, a, x) && SameView(a, n, x); }
      assert SameView(m, a, p);
    } else {
      assert n == a;
    }
  }

  lemma ForkResidentGood(m: Mem, p: PageId, q: PageId)
    requires Good(m) && p in m.pages && m.pages[p].state.Resident?
    requires q in m.pages && q != p && m.pages[q].state.Reserved? && q.vpn == p.vpn
    ensures InBounds(m, p)
    ensures m.pages[p].slot.Some? ==> CanRegister(AddSlotReference(m.slots[m.pages[p].slot.value]), m.pages[p].frame)
    ensures CanShare(m.frames[m.pages[p].frame]) ==>
              var n := ForkResident(m, p, q);
              Good(n) && ViewsKeptBut(m, n, q) && InBounds(n, q) && View(n, q) == View(m, p)
  {
    ForkResidentStep(m, p, q);
    if CanShare(m.frames[m.pages[p].frame]) {
      var n := ForkResident(m, p, q);
      forall x, f: nat | OnFrame(n, q, f) && OnFrame(m, x, f) && f != 0 ensures x.vpn == q.vpn {
        assert OnFrame(m, p, f);
      }
      forall x, s: nat | Names(n, q, s) && Names(m, x, s) ensures x.vpn == q.vpn { assert Names(m, p, s); }
      OnePageKeepsVpn(m, n, q);
    }
  }

  // ------------------------------------------------------- the two passes

  /** The child's page reads what the parent's page read before the fork. */
  ghost predicate ChildReads(m: Mem, n: Mem, p: PageId, q: PageId) {
    && p in m.pages && q in n.pages
    && InBounds(m, p) && InBounds(n, q)
    && View(n, q) == View(m, p)
  }

  ghost predicate ChildKeys(m: Mem, n: Mem, parent: nat, child: nat, v: nat) {
    forall q :: q in n.pages <==> q in m.pages || (q.pid == child && q.vpn < v && PageId(parent, q.vpn) in m.pages)
  }

  /** The parent keeps its frames and slots; at most its page-table entries change. */
  ghost predicate ParentKept(m: Mem, n: Mem) {
    && (forall q :: q in m.pages ==> q in n.pages && n.pages[q] == m.pages[q].(pte := n.pages[q].pte))
    && |n.slots| == |m.slots| && |n.frames| == |m.frames|
    && (forall s: nat :: s < |m.slots| && m.slots[s].used ==>
      n.slots[s].used && n.slots[s].mapCount >= m.slots[s].mapCount)
    && (forall s: nat {:trigger n.slots[s]} :: s < |m.slots| && m.slots[s].residentFrame.None? ==>
      n.slots[s].residentFrame.None? && n.slots[s].data == m.slots[s].data)
  }

  ghost predicate SlotDoubled(n: Mem, i: PageInfo) {
    i.state.Swapped? && i.slot.Some? ==>
      i.slot.value < |n.slots| && (n.slots[i.slot.value].used ==> n.slots[i.slot.value].mapCount >= 2)
  }

  ghost predicate LayoutCopied(m: Mem, n: Mem, p: PageId, q: PageId) {
    && p in m.pages && q in n.pages
    && n.pages[q].backing == m.pages[p].backing && n.pages[q].initial == m.pages[p].initial
    && SlotDoubled(n, m.pages[p])
    && (m.pages[p].state.Swapped? && m.pages[p].slot.Some? ==>
          n.pages[q] == m.pages[p].(frame := 0, pte := NO_PTE))
  }

  ghost predicate ClonedState(m: Mem, n: Mem, parent: nat, child: nat, w: nat) {
    && LayoutCopied(m, n, PageId(parent, w), PageId(child, w))
    && n.pages[PageId(child, w)].state == (if m.pages[PageId(parent, w)].state.Swapped? then Swapped else Reserved)
  }

  /** CloneFrom has passed pages [0, v); m is the state before the fork. */
  ghost predicate LayoutCloned(m: Mem, n: Mem, parent: nat, child: nat, v: nat) {
    && Bounded(n) && ParentKept(m, n) && ChildKeys(m, n, parent, child, v)
    && (forall w: nat :: w < v && PageId(parent, w) in m.pages ==> ClonedState(m, n, parent, child, w))
    && (ForkSafe(m, parent) ==>
          && Good(n)
          && (forall q :: q in m.pages ==> SameView(m, n, q))
          && (forall w: nat :: w < v && PageId(parent, w) in m.pages && m.pages[PageId(parent, w)].state.Swapped?
                ==> ChildReads(m, n, PageId(parent, w), PageId(child, w))))
  }

  lemma CloneStart(m: Mem, parent: nat, child: nat)
    requires Good(m)
    ensures LayoutCloned(m, m, parent, child, 0)
  {
    KeptRefl(m);
  }

  lemma LayoutSkip(m: Mem, n: Mem, parent: nat, child: nat, v: nat)
    requires LayoutCloned(m, n, parent, child, v) && PageId(parent, v) !in m.pages
    ensures LayoutCloned(m, n, parent, child, v + 1)
  {
    forall q | q in n.pages ensures q in m.pages
      || (q.pid == child && q.vpn < v + 1 && PageId(parent, q.vpn) in m.pages) {}
    forall q: PageId | q.pid == child && q.vpn < v + 1 && PageId(parent, q.vpn) in m.pages ensures q in n.pages {
      assert q.vpn < v;
    }
  }

  lemma LayoutAdvanceParent(m: Mem, n: Mem, p: PageId, q: PageId)
    requires Bounded(n) && ParentKept(m, n) && p in m.pages && p != q && q !in m.pages && InBounds(n, p)
    ensures Bounded(CloneMeta(n, p, q)) && ParentKept(m, CloneMeta(n, p, q))
  {
    var o := CloneMeta(n, p, q);
    forall x | x in o.pages ensures InBounds(o, x) { if x != q { assert InBounds(n, x); } }
  }

  lemma LayoutAdvanceStates(m: Mem, n: Mem, parent: nat, child: nat, v: nat)
    requires Good(m) && LayoutCloned(m, n, parent, child, v) && PageId(parent, v) in m.pages
    requires child != parent && InBounds(n, PageId(parent, v))
    ensures var o := CloneMeta(n, PageId(parent, v), PageId(child, v));
            forall w: nat :: w < v + 1 && PageId(parent, w) in m.pages ==> ClonedState(m, o, parent, child, w)
  {
    var p, q := PageId(parent, v), PageId(child, v);
    NewState(m, n, parent, child, v);
    forall w: nat | w < v + 1 && PageId(parent, w) in m.pages
      ensures ClonedState(m, CloneMeta(n, p, q), parent, child, w)
    {
      if w < v { OldState(m, n, parent, child, v, w); }
    }
  }

  /** The page just cloned. */
  lemma NewState(m: Mem, n: Mem, parent: nat, child: nat, v: nat)
    requires Good(m) && ParentKept(m, n) && PageId(parent, v) in m.pages
    requires child != parent && InBounds(n, PageId(parent, v))
    ensures ClonedState(m, CloneMeta(n, PageId(parent, v), PageId(child, v)), parent, child, v)
  {
    var p := PageId(parent, v);
    assert PageOk(m, p);
    if m.pages[p].state.Swapped? {
      assert SlotOk(m, m.pages[p].slot.value, Extra(0, 0, m.pages[p].slot.value));
    }
  }

  /** The pages cloned before it. */
  lemma OldState(m: Mem, n: Mem, parent: nat, child: nat, v: nat, w: nat)
    requires ClonedState(m, n, parent, child, w) && w < v && child != parent && InBounds(n, PageId(parent, v))
    ensures ClonedState(m, CloneMeta(n, PageId(parent, v), PageId(child, v)), parent, child, w)
  {
  }

  lemma LayoutAdvanceKeys(m: Mem, n: Mem, parent: nat, child: nat, v: nat)
    requires ChildKeys(m, n, parent, child, v) && PageId(parent, v) in m.pages
    requires child != parent && InBounds(n, PageId(parent, v))
    ensures ChildKeys(m, CloneMeta(n, PageId(parent, v), PageId(child, v)), parent, child, v + 1)
  {
    var p, q := PageId(parent, v), PageId(child, v);
    var o := CloneMeta(n, p, q);
    forall x | x in o.pages ensures x in m.pages
      || (x.pid == child && x.vpn < v + 1 && PageId(parent, x.vpn) in m.pages) {}
    forall x: PageId | x.pid == child && x.vpn < v + 1 && PageId(parent, x.vpn) in m.pages ensures x in o.pages {
      if x != q { assert x.vpn < v && x in n.pages; }
    }
  }

  lemma LayoutAdvance(m: Mem, n: Mem, parent: nat, child: nat, v: nat)
    requires Good(m) && LayoutCloned(m, n, parent, child, v) && PageId(parent, v) in m.pages
    requires child != parent && child < NPROC && forall q :: q in m.pages ==> q.pid != child
    ensures InBounds(n, PageId(parent, v))
    ensures LayoutCloned(m, CloneMeta(n, PageId(parent, v), PageId(child, v)), parent, child, v + 1)
  {
    var p, q := PageId(parent, v), PageId(child, v);
    assert InBounds(n, p);
    LayoutAdvanceParent(m, n, p, q);
    LayoutAdvanceStates(m, n, parent, child, v);
    LayoutAdvanceKeys(m, n, parent, child, v);
    if ForkSafe(m, parent) {
      CloneMetaStep(n, p, q);
      var o := CloneMeta(n, p, q);
      forall x | x in m.pages ensures SameView(m, o, x) { assert SameView(m, n, x) && SameView(n, o, x); }
      forall w: nat | w < v + 1 && PageId(parent, w) in m.pages && m.pages[PageId(parent, w)].state.Swapped?
        ensures ChildReads(m, o, PageId(parent, w), PageId(child, w))
      {
        if w < v {
          assert ChildReads(m, n, PageId(parent, w), PageId(child, w));
          assert SameView(n, o, PageId(child, w));
        } else {
          assert SameView(m, n, p);
        }
      }
    }
  }

  /** CloneResidentPagesFrom has passed pages [0, v). */
  ghost predicate FramesCloned(m: Mem, n: Mem, parent: nat, child: nat, v: nat) {
    && Bounded(n) && ParentKept(m, n) && ChildKeys(m, n, parent, child, USER_PAGE_COUNT)
    && (forall w: nat :: w < USER_PAGE_COUNT && PageId(parent, w) in m.pages ==>
          && LayoutCopied(m, n, PageId(parent, w), PageId(child, w))
          && (w >= v && m.pages[PageId(parent, w)].state.Resident? ==> n.pages[PageId(child, w)].state.Reserved?))
    && (ForkSafe(m, parent) ==>
          && Good(n)
          && (forall q :: q in m.pages ==> SameView(m, n, q))
          && (forall w: nat :: w < USER_PAGE_COUNT && PageId(parent, w) in m.pages
                               && (w < v || !m.pages[PageId(parent, w)].state.Resident?)
                ==> ChildReads(m, n, PageId(parent, w), PageId(child, w))))
  }

  ghost predicate AllPages(v: nat) {
    v == USER_PAGE_COUNT
  }

  /** CloneResidentPagesFrom has passed all pages. */
  ghost predicate Copied(m: Mem, n: Mem, parent: nat, child: nat) {
    forall v :: AllPages(v) ==> FramesCloned(m, n, parent, child, v)
  }

  lemma FramesStart(m: Mem, n: Mem, parent: nat, child: nat)
    requires Good(m) && LayoutCloned(m, n, parent, child, USER_PAGE_COUNT)
    ensures FramesCloned(m, n, parent, child, 0)
  {
    assert forall w: nat :: w < USER_PAGE_COUNT && PageId(parent, w) in m.pages ==> ClonedState(m, n, parent, child, w);
    if ForkSafe(m, parent) {
      forall w: nat | w < USER_PAGE_COUNT && PageId(parent, w) in m.pages && !m.pages[PageId(parent, w)].state.Resident?
        ensures ChildReads(m, n, PageId(parent, w), PageId(child, w))
      {
        assert ClonedState(m, n, parent, child, w);
        InvBounds(m, 0, 0, PageId(parent, w));
      }
    }
  }

  lemma FramesSkip(m: Mem, n: Mem, parent: nat, child: nat, v: nat)
    requires FramesCloned(m, n, parent, child, v)
    requires PageId(parent, v) in m.pages ==> !m.pages[PageId(parent, v)].state.Resident?
    ensures FramesCloned(m, n, parent, child, v + 1)
  {
  }

  lemma FramesAdvance(m: Mem, n: Mem, parent: nat, child: nat, v: nat)
    requires Good(m) && FramesCloned(m, n, parent, child, v) && v < USER_PAGE_COUNT
    requires PageId(parent, v) in m.pages && m.pages[PageId(parent, v)].state.Resident?
    requires child != parent && forall q :: q in m.pages ==> q.pid != child
    requires InBounds(n, PageId(parent, v)) && CanShare(n.frames[n.pages[PageId(parent, v)].frame])
    requires PageId(child, v) in n.pages
    ensures FramesCloned(m, ForkResident(n, PageId(parent, v), PageId(child, v)), parent, child, v + 1)
  {
    var p, q := PageId(parent, v), PageId(child, v);
    var o := ForkResident(n, p, q);
    assert LayoutCopied(m, n, p, q);
    assert PageOk(m, p);
    ForkResidentBounded(n, p, q);
    ForkResidentKeepsParent(m, n, o, p, q);
    FramesAdvanceLayout(m, n, o, parent, child, v);
    if ForkSafe(m, parent) { FramesAdvanceReads(m, n, o, parent, child, v); }
  }

  lemma ForkResidentBounded(n: Mem, p: PageId, q: PageId)
    requires Bounded(n) && InBounds(n, p) && n.pages[p].state.Resident? && q in n.pages && q != p
    ensures Bounded(ForkResident(n, p, q)) && ForkResident(n, p, q).pages.Keys == n.pages.Keys
  {
    var o := ForkResident(n, p, q);
    forall x | x in o.pages ensures InBounds(o, x) { assert InBounds(n, x); }
  }

  lemma FramesAdvanceLayout(m: Mem, n: Mem, o: Mem, parent: nat, child: nat, v: nat)
    requires FramesCloned(m, n, parent, child, v) && v < USER_PAGE_COUNT && child != parent
    requires PageId(parent, v) in m.pages && m.pages[PageId(parent, v)].state.Resident? && PageId(child, v) in n.pages
    requires InBounds(n, PageId(parent, v)) && n.pages[PageId(parent, v)].state.Resident?
    requires o == ForkResident(n, PageId(parent, v), PageId(child, v))
    ensures forall w: nat :: w < USER_PAGE_COUNT && PageId(parent, w) in m.pages ==>
              && LayoutCopied(m, o, PageId(parent, w), PageId(child, w))
              && (w >= v + 1 && m.pages[PageId(parent, w)].state.Resident? ==>
                o.pages[PageId(child, w)].state.Reserved?)
  {
    forall w: nat | w < USER_PAGE_COUNT && PageId(parent, w) in m.pages
      ensures LayoutCopied(m, o, PageId(parent, w), PageId(child, w))
      ensures w >= v + 1 && m.pages[PageId(parent, w)].state.Resident? ==> o.pages[PageId(child, w)].state.Reserved?
    {
      assert LayoutCopied(m, n, PageId(parent, w), PageId(child, w));
      ForkResidentKeepsLayout(m, n, o, PageId(parent, v), PageId(child, v), PageId(parent, w), PageId(child, w));
    }
  }

  lemma ForkResidentKeepsParent(m: Mem, n: Mem, o: Mem, p: PageId, q: PageId)
    requires ParentKept(m, n) && p in m.pages && q in n.pages && q !in m.pages
    requires InBounds(n, p) && n.pages[p].state.Resident? && o == ForkResident(n, p, q) && PageOk(m, p)
    ensures ParentKept(m, o)
  {
    assert n.pages[p].slot == m.pages[p].slot;
  }

  lemma ForkResidentKeepsLayout(m: Mem, n: Mem, o: Mem, p: PageId, q: PageId, x: PageId, y: PageId)
    requires LayoutCopied(m, n, x, y) && q in n.pages && q != p && y != p
    requires y == q ==> x in m.pages && m.pages[x].state.Resident?
    requires InBounds(n, p) && n.pages[p].state.Resident? && o == ForkResident(n, p, q)
    ensures LayoutCopied(m, o, x, y) && (y != q ==> o.pages[y] == n.pages[y])
  {
  }

  lemma FramesAdvanceReads(m: Mem, n: Mem, o: Mem, parent: nat, child: nat, v: nat)
    requires Good(m) && FramesCloned(m, n, parent, child, v) && v < USER_PAGE_COUNT && ForkSafe(m, parent)
    requires PageId(parent, v) in m.pages && m.pages[PageId(parent, v)].state.Resident?
    requires child != parent && forall q :: q in m.pages ==> q.pid != child
    requires InBounds(n, PageId(parent, v)) && CanShare(n.frames[n.pages[PageId(parent, v)].frame])
    requires PageId(child, v) in n.pages && o == ForkResident(n, PageId(parent, v), PageId(child, v))
    ensures Good(o) && forall q :: q in m.pages ==> SameView(m, o, q)
    ensures forall w: nat :: w < USER_PAGE_COUNT && PageId(parent, w) in m.pages
                             && (w < v + 1 || !m.pages[PageId(parent, w)].state.Resident?)
              ==> ChildReads(m, o, PageId(parent, w), PageId(child, w))
  {
    var p, q := PageId(parent, v), PageId(child, v);
    assert LayoutCopied(m, n, p, q);
    ForkResidentGood(n, p, q);
    forall x | x in m.pages ensures SameView(m, o, x) { assert SameView(m, n, x) && SameView(n, o, x); }
    forall w: nat | w < USER_PAGE_COUNT && PageId(parent, w) in m.pages
                    && (w < v + 1 || !m.pages[PageId(parent, w)].state.Resident?)
      ensures ChildReads(m, o, PageId(parent, w), PageId(child, w))
    {
      if w == v {
        assert SameView(m, n, p);
      } else {
        assert ChildReads(m, n, PageId(parent, w), PageId(child, w));
        assert SameView(n, o, PageId(child, w));
      }
    }
  }

  /** What fork promises. With every swapped page marked, the child starts with the
      parent's contents and everybody else is undisturbed; with an unmarked one the
      sharing invariant is lost. */
  ghost predicate Forked(m: Mem, n: Mem, parent: nat, child: nat) {
    && (forall q :: q in n.pages <==> q in m.pages || (q.pid == child && PageId(parent, q.vpn) in m.pages))
    && (forall q :: q in m.pages ==> SameView(m, n, q))
    && (forall w: nat :: PageId(parent, w) in m.pages ==>
          && ChildReads(m, n, PageId(parent, w), PageId(child, w))
          && n.pages[PageId(child, w)].backing == m.pages[PageId(parent, w)].backing
          && n.pages[PageId(child, w)].initial == m.pages[PageId(parent, w)].initial)
  }

  lemma ForkDone(m: Mem, n: Mem, parent: nat, child: nat)
    requires Good(m) && Copied(m, n, parent, child)
    ensures ForkSafe(m, parent) ==> Good(n) && Forked(m, n, parent, child)
    ensures ForkSafe(m, parent) <==> Inv(n)
  {
    assert AllPages(USER_PAGE_COUNT);
    if ForkSafe(m, parent) {
      forall w: nat | PageId(parent, w) in m.pages
        ensures LayoutCopied(m, n, PageId(parent, w), PageId(child, w))
        ensures ChildReads(m, n, PageId(parent, w), PageId(child, w))
      {
        assert w < USER_PAGE_COUNT;
      }
      forall q: PageId ensures q in n.pages <==> q in m.pages || (q.pid == child && PageId(parent, q.vpn) in m.pages) {
        if PageId(parent, q.vpn) in m.pages { assert q.vpn < USER_PAGE_COUNT; }
      }
    } else {
      var v: nat :| PageId(parent, v) in m.pages && m.pages[PageId(parent, v)].state.Swapped?
                    && !m.pages[PageId(parent, v)].swappedCow;
      var p := PageId(parent, v);
      assert v < USER_PAGE_COUNT && PageOk(m, p);
      assert LayoutCopied(m, n, p, PageId(child, v));
      if Inv(n) {
        assert SlotOk(n, m.pages[p].slot.value, Extra(0, 0, m.pages[p].slot.value))
          && Names(n, p, m.pages[p].slot.value);
      }
    }
  }

  // ------------------------------------------------ what an unmarked page leads to

  /** Parent and child fault the page back in, both get it writable on one frame, and the
      child's store changes what the parent reads. */
  ghost function LeakRun(n: Mem, p: PageId, q: PageId, f: nat, off: nat, b: byte): Mem
    requires InBounds(n, p) && InBounds(n, q) && p != q && n.pages[p].slot.Some? && n.pages[q].slot.Some?
    requires f < |n.frames| && off < PAGE_SIZE
  {
    var filled := FillFrame(TakeFrame(n, f), f, n.slots[n.pages[p].slot.value].data);
    var parentIn := SwapIn(filled, p, f);
    var childIn := SwapIn(parentIn, q, f);
    StoreByte(childIn, q, off, b)
  }

  /** Whatever unmarked swapped page the parent had, once the fork is done such a run is
      there, as soon as a frame is free. */
  lemma UnmarkedForkLeaks(m: Mem, n: Mem, parent: nat, child: nat, v: nat, f: nat, off: nat, b: byte)
    requires Good(m) && Copied(m, n, parent, child) && child != parent
    requires PageId(parent, v) in m.pages && m.pages[PageId(parent, v)].state.Swapped?
    requires !m.pages[PageId(parent, v)].swappedCow
    requires f < |n.frames| && !n.frames[f].used && off < PAGE_SIZE && b != View(m, PageId(parent, v))[off]
    ensures var p, q := PageId(parent, v), PageId(child, v);
            && InBounds(n, p) && InBounds(n, q) && n.pages[p].slot.Some? && n.pages[q].slot == n.pages[p].slot
            && InBounds(m, p) && View(n, p) == View(m, p) == View(n, q)
            && var o := LeakRun(n, p, q, f, off, b);
               && o.pages[p].pte.rw && o.pages[q].pte.rw
               && InBounds(o, p) && View(o, p)[off] == b != View(m, p)[off]
  {
    var p, q := PageId(parent, v), PageId(child, v);
    assert AllPages(USER_PAGE_COUNT) && PageOk(m, p) && v < USER_PAGE_COUNT;
    var s := m.pages[p].slot.value;
    assert LayoutCopied(m, n, p, q) && SlotOk(m, s, Extra(0, 0, s)) && Names(m, p, s);
    SwappedNamerCounts(m, 0, 0, p);
    assert m.slots[s].residentFrame.None?;
    assert n.slots[s].data == m.slots[s].data;
  }
}
