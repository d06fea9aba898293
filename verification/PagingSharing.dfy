/** The steps where sharing happens: swapping a shared page back in, fork, ending
    copy-on-write on the last copy, and user stores. */
module PagingSharing {
  import opened Common
  import opened PagingState
  import opened PagingInvariant
  import opened PagingSteps
  import opened PagingBookkeeping

  /** Frame f holds what page p should read: another sharer brought it back, or it is
      a fresh frame filled from the slot. */
  ghost predicate HoldsSwappedPage(m: Mem, p: PageId, f: nat)
    requires InBounds(m, p) && m.pages[p].slot.Some?
  {
    var slot := m.slots[m.pages[p].slot.value];
    && f < |m.frames|
    && (slot.residentFrame == Some(f)
        || (slot.residentFrame.None? && 0 < f && m.frames[f].used && m.frames[f].mapCount == 0
          && m.ram[f] == slot.data))
  }

  // --------------------------------------------------------------- swap in

  lemma SwapInFrameOk(m: Mem, p: PageId, f: nat, g: nat)
    requires Inv(m) && p in m.pages && m.pages[p].state.Swapped?
    requires InBounds(m, p) && m.pages[p].slot.Some?
    requires HoldsSwappedPage(m, p, f) && m.slots[m.pages[p].slot.value].mapCount <= MAX_COUNT
    requires g < |m.frames|
    ensures FrameOk(SwapIn(m, p, f), g)
  {
    var s := m.pages[p].slot.value;
    var n := SwapIn(m, p, f);
    SwappedNamerCounts(m, 0, 0, p);
    assert PageOk(m, p) && SlotOk(m, s, Extra(0, 0, s)) && FrameOk(m, f) && FrameOk(m, g);
    assert forall q :: OnFrame(n, q, g) <==> OnFrame(m, q, g) || (q == p && g == f);
    AppendFacts(m.frames[f].rmap, p) by { assert !OnFrame(m, p, f); }
    assert Names(m, p, s);
  }

  lemma SwapInOwnSlotOk(m: Mem, p: PageId, f: nat)
    requires Inv(m) && p in m.pages && m.pages[p].state.Swapped?
    requires InBounds(m, p) && m.pages[p].slot.Some?
    requires HoldsSwappedPage(m, p, f) && m.slots[m.pages[p].slot.value].mapCount <= MAX_COUNT
    ensures SlotOk(SwapIn(m, p, f), m.pages[p].slot.value, 0)
  {
    var s := m.pages[p].slot.value;
    var n := SwapIn(m, p, f);
    SwappedNamerCounts(m, 0, 0, p);
    assert PageOk(m, p) && FrameOk(m, f) && SlotOk(m, s, Extra(0, 0, s));
    NamersOfUpdate(m, n, p, s);
    assert Names(m, p, s);
    assert n.slots[s].mapCount >= 2 ==> SharersFlagged(n, s) by {
      if n.slots[s].mapCount >= 2 { SwapInFlags(m, p, f, s); }
    }
    SwapInNames(m, p, f, s);
    assert ResidentOk(n, s, n.slots[s], f);
  }

  lemma SwapInFlags(m: Mem, p: PageId, f: nat, s: nat)
    requires InBounds(m, p) && m.pages[p].slot == Some(s) && f < |m.frames| && SharersFlagged(m, s)
    ensures SharersFlagged(SwapIn(m, p, f), s)
  {
    var n := SwapIn(m, p, f);
    forall q | Names(n, q, s) && n.pages[q].state.Swapped? ensures n.pages[q].swappedCow {
      assert Names(m, q, s) && n.pages[q] == m.pages[q];
    }
  }

  lemma SwapInNames(m: Mem, p: PageId, f: nat, s: nat)
    requires InBounds(m, p) && m.pages[p].slot == Some(s) && f < |m.frames|
    requires forall q :: OnFrame(m, q, f) ==> m.pages[q].slot == Some(s)
    ensures AllName(SwapIn(m, p, f), f, s)
  {
    var n := SwapIn(m, p, f);
    forall q | OnFrame(n, q, f) ensures n.pages[q].slot == Some(s) { assert q == p || OnFrame(m, q, f); }
  }

  lemma SwapInOtherSlotOk(m: Mem, p: PageId, f: nat, r: nat)
    requires Inv(m) && p in m.pages && m.pages[p].state.Swapped?
    requires InBounds(m, p) && m.pages[p].slot.Some?
    requires HoldsSwappedPage(m, p, f) && m.slots[m.pages[p].slot.value].mapCount <= MAX_COUNT
    requires r < |m.slots| && m.pages[p].slot != Some(r)
    ensures SlotOk(SwapIn(m, p, f), r, 0)
  {
    var s := m.pages[p].slot.value;
    var n := SwapIn(m, p, f);
    assert SlotOk(m, s, Extra(0, 0, s)) && SlotOk(m, r, Extra(0, 0, r));
    NamersOfUpdate(m, n, p, r);
    if m.slots[r].used {
      OtherPageKeepsSlot(m, n, p, r);
      if m.slots[r].residentFrame.Some? {
        var g := m.slots[r].residentFrame.value;
        assert FrameOk(m, g);
        var x := m.frames[g].rmap[0];
        assert x in m.frames[g].rmap && OnFrame(m, x, g);
        assert g != f;
        assert ResidentOk(n, r, n.slots[r], g);
      }
    }
  }

  lemma SwapInPageOk(m: Mem, p: PageId, f: nat, q: PageId)
    requires Inv(m) && p in m.pages && m.pages[p].state.Swapped? && q in m.pages
    requires InBounds(m, p) && m.pages[p].slot.Some?
    requires HoldsSwappedPage(m, p, f) && m.slots[m.pages[p].slot.value].mapCount <= MAX_COUNT
    ensures PageOk(SwapIn(m, p, f), q) && SameView(m, SwapIn(m, p, f), q)
  {
    var s := m.pages[p].slot.value;
    SwappedNamerCounts(m, 0, 0, p);
    assert PageOk(m, p) && SlotOk(m, s, Extra(0, 0, s)) && FrameOk(m, f) && PageOk(m, q) && Names(m, p, s);
    InvBounds(m, 0, 0, q);
    if q != p && m.pages[q].state.Resident? && m.pages[q].frame == f { assert OnFrame(m, q, f); }
    if q != p && m.pages[q].slot.Some? {
      var r := m.pages[q].slot.value;
      assert SlotOk(m, r, Extra(0, 0, r));
    }
  }

  /** A swapped page comes back: nobody's view changes, its own included. */
  lemma SwapInStep(m: Mem, p: PageId, f: nat)
    requires Inv(m) && p in m.pages && m.pages[p].state.Swapped?
    requires InBounds(m, p) && m.pages[p].slot.Some?
    requires HoldsSwappedPage(m, p, f) && m.slots[m.pages[p].slot.value].mapCount <= MAX_COUNT
    ensures CanRegister(m.slots[m.pages[p].slot.value], f)
    ensures var n := SwapIn(m, p, f); Inv(n) && ViewsKept(m, n)
  {
    assert PageOk(m, p);
    var n := SwapIn(m, p, f);
    forall g: nat | g < |n.frames| ensures FrameOk(n, g) { SwapInFrameOk(m, p, f, g); }
    forall r: nat | r < |n.slots| ensures SlotOk(n, r, Extra(0, 0, r)) {
      if r == m.pages[p].slot.value { SwapInOwnSlotOk(m, p, f); } else { SwapInOtherSlotOk(m, p, f, r); }
    }
    forall q | q in n.pages ensures PageOk(n, q) && SameView(m, n, q) { SwapInPageOk(m, p, f, q); }
  }

  lemma SwapInKeepsVpn(m: Mem, p: PageId, f: nat)
    requires Good(m) && p in m.pages && m.pages[p].state.Swapped?
    requires InBounds(m, p) && m.pages[p].slot.Some? && HoldsSwappedPage(m, p, f)
    ensures SameVpn(SwapIn(m, p, f))
  {
    var s := m.pages[p].slot.value;
    assert PageOk(m, p) && SlotOk(m, s, Extra(0, 0, s)) && FrameOk(m, f);
    forall q | OnFrame(m, q, f) ensures q.vpn == p.vpn {
      assert Names(m, p, s);
      if m.slots[s].residentFrame == Some(f) { assert Names(m, q, s); }
    }
    OnePageKeepsVpn(m, SwapIn(m, p, f), p);
  }

  lemma SwapInGood(m: Mem, p: PageId, f: nat)
    requires Good(m) && p in m.pages && m.pages[p].state.Swapped?
    requires InBounds(m, p) && m.pages[p].slot.Some? && HoldsSwappedPage(m, p, f)
    ensures CanRegister(m.slots[m.pages[p].slot.value], f)
    ensures Good(SwapIn(m, p, f)) && ViewsKept(m, SwapIn(m, p, f))
  {
    var s := m.pages[p].slot.value;
    assert PageOk(m, p) && SlotOk(m, s, Extra(0, 0, s));
    SlotSharersBounded(m, s);
    SwapInStep(m, p, f);
    SwapInKeepsVpn(m, p, f);
  }

  // ------------------------------------------------------------------ fork

  lemma ForkResidentFrameOk(m: Mem, p: PageId, q: PageId, g: nat)
    requires Inv(m) && p in m.pages && m.pages[p].state.Resident?
    requires q in m.pages && q != p && m.pages[q].state.Reserved?
    requires InBounds(m, p) && CanShare(m.frames[m.pages[p].frame]) && g < |m.frames|
    ensures FrameOk(ForkResident(m, p, q), g)
  {
    var n := ForkResident(m, p, q);
    var f := m.pages[p].frame;
    assert PageOk(m, p) && PageOk(m, q) && FrameOk(m, f) && FrameOk(m, g);
    assert forall x :: OnFrame(n, x, g) <==> OnFrame(m, x, g) || (x == q && g == f);
    AppendFacts(m.frames[f].rmap, q) by { assert !OnFrame(m, q, f); }
    assert OnFrame(m, p, f);
  }

  lemma ForkResidentNames(m: Mem, p: PageId, q: PageId, r: nat)
    requires InBounds(m, p) && m.pages[p].state.Resident?
    requires q in m.pages && q != p && m.pages[q].slot.None?
    ensures |Namers(ForkResident(m, p, q), r)| == |Namers(m, r)| + (if m.pages[p].slot == Some(r) then 1 else 0)
  {
    var n := ForkResident(m, p, q);
    var a, b := Namers(m, r), Namers(n, r);
    if m.pages[p].slot == Some(r) {
      assert b == a + {q};
    } else {
      assert b == a;
    }
  }

  lemma ForkResidentFlags(m: Mem, p: PageId, q: PageId, r: nat)
    requires Inv(m) && p in m.pages && m.pages[p].state.Resident?
    requires q in m.pages && q != p && m.pages[q].state.Reserved?
    requires InBounds(m, p) && r < |m.slots| && m.slots[r].used
    ensures SharersFlagged(ForkResident(m, p, q), r) || (m.slots[r].mapCount < 2 && m.pages[p].slot != Some(r))
  {
    var n := ForkResident(m, p, q);
    assert SlotOk(m, r, Extra(0, 0, r)) && PageOk(m, p);
    forall x | Names(n, x, r) && n.pages[x].state.Swapped?
      ensures n.pages[x].swappedCow || (m.slots[r].mapCount < 2 && m.pages[p].slot != Some(r))
    {
      assert Names(m, x, r) && m.pages[x].state.Swapped?;
      SwappedNamerCounts(m, 0, 0, x);
    }
  }

  lemma ForkResidentSlotOk(m: Mem, p: PageId, q: PageId, r: nat)
    requires Inv(m) && p in m.pages && m.pages[p].state.Resident?
    requires q in m.pages && q != p && m.pages[q].state.Reserved?
    requires InBounds(m, p) && CanShare(m.frames[m.pages[p].frame]) && r < |m.slots|
    ensures SlotOk(ForkResident(m, p, q), r, 0)
  {
    var n := ForkResident(m, p, q);
    var f := m.pages[p].frame;
    assert PageOk(m, p) && PageOk(m, q) && FrameOk(m, f) && SlotOk(m, r, Extra(0, 0, r));
    assert OnFrame(m, p, f);
    if m.slots[r].used {
      ForkResidentNames(m, p, q, r);
      ForkResidentFlags(m, p, q, r);
      if m.slots[r].residentFrame.Some? {
        var g := m.slots[r].residentFrame.value;
        assert AllName(m, g, r);
        assert AllName(n, g, r) by {
          forall x | OnFrame(n, x, g) ensures n.pages[x].slot == Some(r) {
            assert OnFrame(m, x, g) || (x == q && g == f);
          }
        }
        assert ResidentOk(n, r, n.slots[r], g);
      }
    }
  }

  lemma ForkResidentPagesOk(m: Mem, p: PageId, q: PageId, x: PageId)
    requires Inv(m) && p in m.pages && m.pages[p].state.Resident?
    requires q in m.pages && q != p && m.pages[q].state.Reserved?
    requires InBounds(m, p) && CanShare(m.frames[m.pages[p].frame]) && x in m.pages
    ensures var n := ForkResident(m, p, q);
            x in n.pages && PageOk(n, x) && (x != q ==> SameView(m, n, x))
  {
    var f := m.pages[p].frame;
    assert PageOk(m, p) && PageOk(m, q) && PageOk(m, x) && FrameOk(m, f) && OnFrame(m, p, f);
    InvBounds(m, 0, 0, x);
    if x != p && OnFrame(m, x, f) { TwoMappers(m, f, p, x); }
  }

  lemma TwoMappers(m: Mem, f: nat, p: PageId, x: PageId)
    requires f < |m.frames| == |m.ram| && FrameOk(m, f) && OnFrame(m, p, f) && OnFrame(m, x, f) && p != x
    ensures m.frames[f].mapCount >= 2
  {
    NoDupCard(m.frames[f].rmap);
    SubsetCard({p, x}, set y | y in m.frames[f].rmap);
  }

  /** Fork of a resident page: both mappings read-only, the child reads the parent's
      bytes, nobody else notices. It is refused only when the share counter is full. */
  lemma ForkResidentStep(m: Mem, p: PageId, q: PageId)
    requires Inv(m) && p in m.pages && m.pages[p].state.Resident?
    requires q in m.pages && q != p && m.pages[q].state.Reserved?
    ensures InBounds(m, p)
    ensures m.pages[p].slot.Some? ==> CanRegister(m.slots[m.pages[p].slot.value], m.pages[p].frame)
    ensures CanShare(m.frames[m.pages[p].frame]) ==>
              var n := ForkResident(m, p, q);
              Inv(n) && ViewsKeptBut(m, n, q) && InBounds(n, q) && View(n, q) == View(m, p)
  {
    InvBounds(m, 0, 0, p);
    var f := m.pages[p].frame;
    assert PageOk(m, p) && PageOk(m, q) && FrameOk(m, f) && OnFrame(m, p, f);
    if m.pages[p].slot.Some? {
      var s := m.pages[p].slot.value;
      assert SlotOk(m, s, Extra(0, 0, s));
    }
    if CanShare(m.frames[f]) {
      var n := ForkResident(m, p, q);
      forall g: nat | g < |n.frames| ensures FrameOk(n, g) { ForkResidentFrameOk(m, p, q, g); }
      forall r: nat | r < |n.slots| ensures SlotOk(n, r, Extra(0, 0, r)) { ForkResidentSlotOk(m, p, q, r); }
      forall x | x in n.pages ensures PageOk(n, x) && (x != q ==> SameView(m, n, x)) {
        ForkResidentPagesOk(m, p, q, x);
      }
    }
  }

  lemma ForkSwappedSlotOk(m: Mem, p: PageId, q: PageId, r: nat)
    requires Inv(m) && p in m.pages && m.pages[p].state.Swapped? && m.pages[p].swappedCow
    requires q in m.pages && m.pages[q].state.Reserved? && r < |m.slots|
    requires InBounds(m, p) && m.pages[p].slot.Some?
    ensures SlotOk(ForkSwapped(m, p, q), r, 0)
  {
    var n := ForkSwapped(m, p, q);
    assert PageOk(m, p) && PageOk(m, q) && SlotOk(m, r, Extra(0, 0, r));
    NamersOfUpdate(m, n, q, r);
    SwappedNamerCounts(m, 0, 0, p);
    if m.slots[r].used {
      if n.slots[r].mapCount >= 2 {
        forall x | Names(n, x, r) && n.pages[x].state.Swapped? ensures n.pages[x].swappedCow {
          if x != q && x != p && m.slots[r].mapCount < 2 {
            assert Names(m, x, r);
            if Names(m, p, r) { SubsetCard({p, x}, Namers(m, r)); }
          } else if x != q { assert Names(m, x, r); }
        }
      }
      if n.slots[r].residentFrame.Some? {
        var g := n.slots[r].residentFrame.value;
        assert AllName(m, g, r);
        forall x | OnFrame(n, x, g) ensures n.pages[x].slot == Some(r) { assert OnFrame(m, x, g); }
        assert ResidentOk(n, r, n.slots[r], g);
      }
    }
  }

  /** Fork of a swapped page that carries the copy-on-write mark. */
  lemma ForkSwappedStep(m: Mem, p: PageId, q: PageId)
    requires Inv(m) && p in m.pages && m.pages[p].state.Swapped? && m.pages[p].swappedCow
    requires q in m.pages && m.pages[q].state.Reserved?
    ensures InBounds(m, p) && m.pages[p].slot.Some?
    ensures var n := ForkSwapped(m, p, q);
            Inv(n) && ViewsKeptBut(m, n, q) && InBounds(n, q) && View(n, q) == View(m, p)
  {
    InvBounds(m, 0, 0, p);
    assert PageOk(m, p) && PageOk(m, q);
    var n := ForkSwapped(m, p, q);
    forall g: nat | g < |n.frames| ensures FrameOk(n, g) {
      assert FrameOk(m, g);
      assert forall x :: OnFrame(n, x, g) <==> OnFrame(m, x, g);
    }
    forall r: nat | r < |n.slots| ensures SlotOk(n, r, Extra(0, 0, r)) { ForkSwappedSlotOk(m, p, q, r); }
    forall x | x in n.pages ensures PageOk(n, x) && (x != q ==> SameView(m, n, x)) {
      assert PageOk(m, x);
      InvBounds(m, 0, 0, x);
    }
  }

  // ------------------------------------- private frames and stores to them

  /** A mapping is the only thing that depends on its frame: no other page maps it and
      no swapped-out sharer will come back for it. */
  ghost predicate SoleUser(m: Mem, p: PageId)
    requires InBounds(m, p) && m.pages[p].state.Resident?
  {
    var f := m.pages[p].frame;
    && f != 0
    && (forall q :: OnFrame(m, q, f) ==> q == p)
    && (forall s: nat :: s < |m.slots| && m.slots[s].used && m.slots[s].residentFrame == Some(f)
          ==> m.slots[s].residentCount == m.slots[s].mapCount)
  }

  /** With at most one reference left the frame belongs to this page alone. */
  lemma OneReferenceIsSole(m: Mem, p: PageId)
    requires Inv(m) && p in m.pages && m.pages[p].state.Resident?
    requires InBounds(m, p) && m.frames[m.pages[p].frame].cowRef <= 1 && m.pages[p].frame != 0
    ensures SoleUser(m, p)
  {
    var f := m.pages[p].frame;
    assert FrameOk(m, f) && OnFrame(m, p, f);
    forall q | OnFrame(m, q, f) ensures q == p {
      var r := m.frames[f].rmap;
      assert q in r && p in r && |r| == 1;
    }
    forall s: nat | s < |m.slots| && m.slots[s].used && m.slots[s].residentFrame == Some(f)
      ensures m.slots[s].residentCount == m.slots[s].mapCount
    {
      assert SlotOk(m, s, Extra(0, 0, s));
    }
  }

  /** A writable mapping is the sole user of its frame, which is never the zero page. */
  lemma WritableIsSole(m: Mem, p: PageId)
    requires Inv(m) && p in m.pages && m.pages[p].state.Resident? && m.pages[p].pte.rw
    ensures InBounds(m, p) && SoleUser(m, p)
  {
    InvBounds(m, 0, 0, p);
    assert PageOk(m, p);
    OneReferenceIsSole(m, p);
  }

  lemma SingleElement(r: seq<PageId>, p: PageId)
    requires NoDup(r) && p in r && forall q :: q in r ==> q == p
    ensures |r| == 1
  {
    var last := r[|r| - 1];
    assert last in r && r[0] in r;
  }

  /** A step that only rewrites the contents of p's own frame and p's page-table entry,
      and drops the frame's share count. */
  lemma SoleFramePages(m: Mem, n: Mem, p: PageId)
    requires Inv(m) && p in m.pages && m.pages[p].state.Resident? && InBounds(m, p) && SoleUser(m, p)
    requires |n.frames| == |m.frames| == |n.ram| && p in n.pages
    requires var f := m.pages[p].frame;
             n == m.(frames := m.frames[f := m.frames[f].(cowRef := 0, cow := false)],
                     ram := m.ram[f := n.ram[f]],
                     pages := m.pages[p := m.pages[p].(pte := n.pages[p].pte)])
    requires n.pages[p].pte.present && n.pages[p].pte.frame == m.pages[p].frame
    requires m.frames[m.pages[p].frame].mapCount == 1
    ensures forall g: nat :: g < |n.frames| ==> FrameOk(n, g)
    ensures forall q :: q in n.pages ==> PageOk(n, q) && (q != p ==> SameView(m, n, q))
  {
    var f := m.pages[p].frame;
    assert FrameOk(m, f) && OnFrame(m, p, f) && PageOk(m, p);
    forall g: nat | g < |n.frames| ensures FrameOk(n, g) {
      assert FrameOk(m, g);
      assert forall q :: OnFrame(n, q, g) <==> OnFrame(m, q, g);
    }
    forall q | q in n.pages ensures PageOk(n, q) && (q != p ==> SameView(m, n, q)) {
      assert PageOk(m, q);
      InvBounds(m, 0, 0, q);
      if q != p && m.pages[q].state.Resident? { assert OnFrame(m, q, m.pages[q].frame); }
      if m.pages[q].state.Swapped? { SwappedNamerCounts(m, 0, 0, q); }
    }
  }

  lemma SoleFrameStep(m: Mem, n: Mem, p: PageId)
    requires Inv(m) && p in m.pages && m.pages[p].state.Resident? && InBounds(m, p) && SoleUser(m, p)
    requires |n.frames| == |m.frames| == |n.ram| && p in n.pages
    requires var f := m.pages[p].frame;
             n == m.(frames := m.frames[f := m.frames[f].(cowRef := 0, cow := false)],
                     ram := m.ram[f := n.ram[f]],
                     pages := m.pages[p := m.pages[p].(pte := n.pages[p].pte)])
    requires n.pages[p].pte.present && n.pages[p].pte.frame == m.pages[p].frame
    ensures Inv(n) && ViewsKeptBut(m, n, p) && InBounds(n, p) && View(n, p) == n.ram[m.pages[p].frame]
  {
    var f := m.pages[p].frame;
    assert FrameOk(m, f) && OnFrame(m, p, f) && PageOk(m, p);
    assert m.frames[f].mapCount == 1 by {
      var r := m.frames[f].rmap;
      assert p in r;
      SingleElement(r, p);
    }
    SoleFramePages(m, n, p);
    forall s: nat | s < |n.slots| ensures SlotOk(n, s, Extra(0, 0, s)) {
      assert SlotOk(m, s, Extra(0, 0, s));
      NamersOfUpdate(m, n, p, s);
      if m.slots[s].used {
        if SharersFlagged(m, s) {
          forall q | Names(n, q, s) && n.pages[q].state.Swapped? ensures n.pages[q].swappedCow {
            assert Names(m, q, s);
          }
        }
        if m.slots[s].residentFrame.Some? {
          var g := m.slots[s].residentFrame.value;
          forall q | OnFrame(n, q, g) ensures n.pages[q].slot == Some(s) { assert OnFrame(m, q, g); }
          assert ResidentOk(n, s, n.slots[s], g);
        }
      }
    }
  }

  lemma MakeWritableStep(m: Mem, p: PageId)
    requires Inv(m) && p in m.pages && m.pages[p].state.Resident?
    requires InBounds(m, p) && m.frames[m.pages[p].frame].cowRef <= 1 && m.pages[p].frame != 0
    ensures var n := MakeWritable(m, p); Inv(n) && ViewsKept(m, n)
  {
    OneReferenceIsSole(m, p);
    assert PageOk(m, p);
    SoleFrameStep(m, MakeWritable(m, p), p);
  }

  /** A store through a writable mapping changes one byte of one page, whoever else
      once shared the frame. */
  lemma StoreByteStep(m: Mem, p: PageId, off: nat, b: byte)
    requires Inv(m) && p in m.pages && m.pages[p].state.Resident? && m.pages[p].pte.rw && off < PAGE_SIZE
    ensures InBounds(m, p)
    ensures var n := StoreByte(m, p, off, b);
            Inv(n) && ViewsKeptBut(m, n, p) && InBounds(n, p) && View(n, p) == View(m, p)[off := b]
  {
    WritableIsSole(m, p);
    assert PageOk(m, p) && FrameOk(m, m.pages[p].frame);
    var f := m.pages[p].frame;
    assert m.frames[f].(cowRef := 0, cow := false) == m.frames[f];
    SoleFrameStep(m, StoreByte(m, p, off, b), p);
  }
}
