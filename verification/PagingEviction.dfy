/** Moving one frame, with all its sharers, out to a swap slot. */
module PagingEviction {
  import opened Common
  import opened PagingState
  import opened PagingInvariant
  import opened PagingSteps
  import opened PagingBookkeeping

  /** Part of frame f's sharers of state m have moved to slot t. */
  ghost predicate Evicting(m: Mem, n: Mem, f: nat, t: nat) {
    && 0 < f < |m.frames| && |n.frames| == |m.frames| && n.ram == m.ram && f < |m.ram|
    && t < |m.slots| == |n.slots|
    && InvPending(n, t, n.frames[f].mapCount)
    && SameVpn(n)
    && (forall p, q :: OnFrame(n, p, f) && Names(n, q, t) ==> p.vpn == q.vpn)
    && !m.slots[t].used
    && n.slots[t] == Slot(true, m.frames[f].mapCount, 0, None, m.ram[f])
    && n.frames[f].used && n.frames[f].pinned
    && (n.slots[t].mapCount >= 2 ==> n.frames[f].cowRef >= n.frames[f].mapCount)
    && ViewsKept(m, n)
    && (forall g: nat :: g < |m.frames| && g != f ==> n.frames[g] == m.frames[g])
    && (forall q :: q in m.pages && !OnFrame(m, q, f) ==> n.pages[q] == m.pages[q] && !OnFrame(n, q, f))
    && (forall s: nat :: s < |m.slots| && s != t && m.slots[s].used && m.slots[s].residentFrame.None?
          ==> n.slots[s] == m.slots[s])
  }

  lemma EvictionStart(m: Mem, f: nat, t: nat)
    requires Good(m) && 0 < f < |m.frames| && m.frames[f].mapCount != 0
    requires t < |m.slots| && !m.slots[t].used
    ensures f < |m.ram|
    ensures Evicting(m, SetPinned(TakeSlot(m, t, m.frames[f].mapCount, m.ram[f]), f, true), f, t)
  {
    assert FrameOk(m, f);
    var k := m.frames[f].mapCount;
    var a := TakeSlot(m, t, k, m.ram[f]);
    TakeSlotStep(m, t, k, m.ram[f]);
    SetPinnedStep(a, t, k, f, true);
    var n := SetPinned(a, f, true);
    KeptTrans(m, a, n);
    forall q, s: nat | Names(n, q, s) ensures s != t && Names(m, q, s) { assert PageOk(m, q); }
    assert forall q, g: nat :: OnFrame(n, q, g) <==> OnFrame(m, q, g);
  }

  /** One sharer moves: the slot makes good one promise and nobody's view changes. */
  lemma EvictPageStep(n: Mem, t: nat, k: nat, p: PageId, left: nat)
    requires k == left + 1 && InvPending(n, t, k) && p in n.pages && n.pages[p].state.Resident?
    requires InBounds(n, p) && n.frames[n.pages[p].frame].mapCount == k && n.frames[n.pages[p].frame].pinned
    requires t < |n.slots| && n.slots[t].used && n.slots[t].residentFrame.None?
    requires n.slots[t].data == n.ram[n.pages[p].frame]
    requires n.slots[t].mapCount >= 2 ==> n.frames[n.pages[p].frame].cowRef >= k
    ensures var o := EvictPageToSwap(n, p, t); InvPending(o, t, left) && ViewsKept(n, o)
  {
    var f := n.pages[p].frame;
    var a := Detach(n, p);
    assert a.slots[t] == n.slots[t] by { assert PageOk(n, p); }
    assert InvPending(a, t, k) by { DetachKeepsInv(n, t, k, p); }
    assert ViewsKeptBut(n, a, p) by { DetachKeepsViews(n, t, k, p); }
    NameSlotStep(a, t, k, p, n.frames[f].cowRef != 0);
    assert n.frames[f].mapCount != 0 && OnFrame(n, p, f);
    EvictedViews(n, a, EvictPageToSwap(n, p, t), p);
  }

  lemma EvictedViews(n: Mem, a: Mem, o: Mem, p: PageId)
    requires ViewsKeptBut(n, a, p) && ViewsKeptBut(a, o, p) && InBounds(n, p) && InBounds(o, p)
    requires View(o, p) == View(n, p) && o.pages[p].backing == n.pages[p].backing
             && o.pages[p].initial == n.pages[p].initial
    ensures ViewsKept(n, o)
  {
    forall q | q in n.pages ensures SameView(n, o, q) {
      if q != p { assert SameView(n, a, q) && SameView(a, o, q); }
    }
  }

  lemma EvictPageKeepsVpn(n: Mem, p: PageId, f: nat, t: nat)
    requires SameVpn(n) && OnFrame(n, p, f) && InBounds(n, p) && f != 0
    requires forall x, y :: OnFrame(n, x, f) && Names(n, y, t) ==> x.vpn == y.vpn
    ensures var o := EvictPageToSwap(n, p, t);
            SameVpn(o) && forall x, y :: OnFrame(o, x, f) && Names(o, y, t) ==> x.vpn == y.vpn
  {
    var o := EvictPageToSwap(n, p, t);
    OnePageKeepsVpn(n, o, p);
    forall x, y | OnFrame(o, x, f) && Names(o, y, t) ensures x.vpn == y.vpn {
      assert OnFrame(n, x, f);
      if y != p { assert Names(n, y, t); }
    }
  }

  /** What EvictPageToSwap touches: its page, its frame, and the slot it last came from. */
  ghost predicate EvictShape(n: Mem, o: Mem, p: PageId, f: nat, t: nat) {
    && f < |n.frames| && t < |n.slots| && p in n.pages
    && |o.frames| == |n.frames| && o.ram == n.ram && |o.slots| == |n.slots|
    && o.slots[t] == n.slots[t]
    && o.frames[f].used && o.frames[f].pinned && o.frames[f].mapCount == n.frames[f].mapCount - 1
    && (n.frames[f].cowRef >= n.frames[f].mapCount ==> o.frames[f].cowRef >= o.frames[f].mapCount)
    && (forall g: nat :: g < |n.frames| && g != f ==> o.frames[g] == n.frames[g])
    && o.pages.Keys == n.pages.Keys
    && (forall q :: q in n.pages && q != p ==> o.pages[q] == n.pages[q])
    && !OnFrame(o, p, f)
    && (forall s: nat :: s < |n.slots| && n.slots[s].used && n.slots[s].residentFrame.None?
          ==> o.slots[s] == n.slots[s])
  }

  lemma EvictPageShape(n: Mem, t: nat, k: nat, p: PageId, f: nat)
    requires InvPending(n, t, k) && OnFrame(n, p, f) && 0 < f < |n.frames| && InBounds(n, p)
    requires n.frames[f].mapCount == k && n.frames[f].pinned
    requires t < |n.slots| && n.slots[t].used && n.slots[t].residentFrame.None?
    ensures EvictShape(n, EvictPageToSwap(n, p, t), p, f, t)
  {
    assert FrameOk(n, f) && PageOk(n, p);
  }

  lemma EvictingAdvances(m: Mem, n: Mem, o: Mem, f: nat, t: nat, p: PageId)
    requires Evicting(m, n, f, t) && OnFrame(n, p, f) && EvictShape(n, o, p, f, t)
    requires InvPending(o, t, o.frames[f].mapCount) && ViewsKept(m, o) && SameVpn(o)
    requires forall x, y :: OnFrame(o, x, f) && Names(o, y, t) ==> x.vpn == y.vpn
    ensures Evicting(m, o, f, t)
  {
    forall q | q in m.pages && !OnFrame(m, q, f) ensures o.pages[q] == m.pages[q] && !OnFrame(o, q, f) {
      assert q != p;
    }
  }

  /** The pages that have left frame f are swapped out, without a mark if nobody shared it. */
  ghost predicate LeftUnmarked(m: Mem, n: Mem, f: nat) {
    && f < |m.frames| && f < |n.frames| && (m.frames[f].cowRef == 0 ==> n.frames[f].cowRef == 0)
    && forall q {:trigger OnFrame(m, q, f)} :: OnFrame(m, q, f) && !OnFrame(n, q, f) ==>
         && q in n.pages && n.pages[q].state.Swapped?
         && (m.frames[f].cowRef == 0 ==> !n.pages[q].swappedCow)
  }

  lemma LeavesUnmarked(m: Mem, n: Mem, f: nat, t: nat, p: PageId)
    requires LeftUnmarked(m, n, f) && OnFrame(n, p, f) && InBounds(n, p)
    ensures LeftUnmarked(m, EvictPageToSwap(n, p, t), f)
  {
    var o := EvictPageToSwap(n, p, t);
    forall q | OnFrame(m, q, f) && !OnFrame(o, q, f)
      ensures q in o.pages && o.pages[q].state.Swapped? && (m.frames[f].cowRef == 0 ==> !o.pages[q].swappedCow)
    {
      if q != p { assert !OnFrame(n, q, f); }
    }
  }

  lemma EvictionStep(m: Mem, n: Mem, f: nat, t: nat, p: PageId)
    requires Evicting(m, n, f, t) && OnFrame(n, p, f)
    ensures InBounds(n, p)
    ensures var o := EvictPageToSwap(n, p, t);
            Evicting(m, o, f, t) && o.frames[f].mapCount == n.frames[f].mapCount - 1
  {
    var k := n.frames[f].mapCount;
    assert InBounds(n, p) by { InvBounds(n, t, k, p); }
    var o := EvictPageToSwap(n, p, t);
    assert EvictShape(n, o, p, f, t) by { EvictPageShape(n, t, k, p, f); }
    assert InvPending(o, t, o.frames[f].mapCount) && ViewsKept(n, o) by {
      EvictPageStep(n, t, k, p, o.frames[f].mapCount);
    }
    assert ViewsKept(m, o) by { KeptTrans(m, n, o); }
    EvictPageKeepsVpn(n, p, f, t);
    EvictingAdvances(m, n, o, f, t, p);
  }

  /** Every sharer is out: the slot's promises are met and the frame is free to go. */
  lemma EvictionDone(m: Mem, n: Mem, f: nat, t: nat)
    requires Evicting(m, n, f, t) && n.frames[f].mapCount == 0 && Good(m) && !m.frames[f].pinned
    ensures var o := n.(frames := n.frames[f := FreeIfUnmapped(n.frames[f].(pinned := false), f)]);
            Good(o) && ViewsKept(m, o) && Undisturbed(m, o)
  {
    var o := n.(frames := n.frames[f := FreeIfUnmapped(n.frames[f].(pinned := false), f)]);
    PendingIrrelevant(n, t, 0);
    assert FrameOk(n, f);
    UnmappedFrameStep(n, o, f);
    KeptTrans(m, n, o);
    forall p, q, g: nat | OnFrame(o, p, g) && OnFrame(o, q, g) && g != 0 ensures p.vpn == q.vpn {
      assert OnFrame(n, p, g) && OnFrame(n, q, g);
    }
    forall p, q, s: nat | Names(o, p, s) && Names(o, q, s) ensures p.vpn == q.vpn {
      assert Names(n, p, s) && Names(n, q, s);
    }
  }
}
