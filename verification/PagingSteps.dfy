/** Every other page primitive keeps the invariant, and what each does to what the
    processes read. */
module PagingSteps {
  import opened Common
  import opened PagingState
  import opened PagingInvariant

  // --------------------------------------------------- frames nobody maps

  /** A frame outside every mapping is registered for no slot. */
  lemma UnmappedNotRegistered(m: Mem, t: nat, k: nat, f: nat, s: nat)
    requires InvPending(m, t, k) && f < |m.frames| && m.frames[f].mapCount == 0
    requires s < |m.slots| && m.slots[s].used
    ensures m.slots[s].residentFrame != Some(f)
  {
    assert SlotOk(m, s, Extra(t, k, s));
  }

  /** Changing only a frame nobody maps, and its contents, disturbs nothing else. */
  lemma UnmappedFrameStep(m: Mem, n: Mem, f: nat)
    requires Inv(m) && 0 < f < |m.frames| && m.frames[f].mapCount == 0
    requires |n.frames| == |m.frames| && |n.ram| == |m.ram| == |m.frames|
    requires n == m.(frames := m.frames[f := n.frames[f]], ram := m.ram[f := n.ram[f]])
    requires n.frames[f].mapCount == 0 && n.frames[f].rmap == [] && CountsOk(f, n.frames[f])
    ensures Inv(n) && ViewsKept(m, n)
  {
    assert FrameOk(m, f);
    forall g: nat | g < |n.frames| ensures FrameOk(n, g) {
      assert FrameOk(m, g);
      assert forall p :: OnFrame(n, p, g) <==> OnFrame(m, p, g);
    }
    forall p | p in n.pages ensures PageOk(n, p) && SameView(m, n, p) {
      assert PageOk(m, p);
      InvBounds(m, 0, 0, p);
      if m.pages[p].state.Resident? { assert OnFrame(m, p, m.pages[p].frame) && FrameOk(m, m.pages[p].frame); }
      if m.pages[p].slot.Some? { UnmappedNotRegistered(m, 0, 0, f, m.pages[p].slot.value); }
    }
    forall s: nat | s < |n.slots| ensures SlotOk(n, s, Extra(0, 0, s)) {
      assert SlotOk(m, s, Extra(0, 0, s));
      assert Namers(n, s) == Namers(m, s);
      if m.slots[s].used {
        UnmappedNotRegistered(m, 0, 0, f, s);
        assert SharersFlagged(m, s) ==> SharersFlagged(n, s) by {
          assert forall p :: Names(n, p, s) <==> Names(m, p, s);
        }
        if n.slots[s].residentFrame.Some? {
          var g := n.slots[s].residentFrame.value;
          assert forall p :: OnFrame(n, p, g) <==> OnFrame(m, p, g);
        }
      }
    }
  }

  lemma TakeFrameStep(m: Mem, f: nat)
    requires Inv(m) && f < |m.frames| && !m.frames[f].used
    ensures 0 < f && Inv(TakeFrame(m, f)) && ViewsKept(m, TakeFrame(m, f))
  {
    assert FrameOk(m, f);
    UnmappedFrameStep(m, TakeFrame(m, f), f);
  }

  lemma FillFrameStep(m: Mem, f: nat, page: Page)
    requires Inv(m) && 0 < f < |m.frames| && m.frames[f].mapCount == 0
    ensures f < |m.ram| && Inv(FillFrame(m, f, page)) && ViewsKept(m, FillFrame(m, f, page))
  {
    assert FrameOk(m, f);
    UnmappedFrameStep(m, FillFrame(m, f, page), f);
  }

  // ------------------------------------------------------------ attaching

  /** A reserved page takes over a frame of its own. */
  lemma AttachOwnFrameStep(m: Mem, p: PageId, f: nat, rw: bool)
    requires Inv(m) && p in m.pages && m.pages[p].state.Reserved?
    requires 0 < f < |m.frames| && m.frames[f].used && m.frames[f].mapCount == 0
    ensures InBounds(m, p)
    ensures var n := Attach(m, p, f, rw, false, false);
            Inv(n) && ViewsKeptBut(m, n, p) && InBounds(n, p) && View(n, p) == m.ram[f]
  {
    InvBounds(m, 0, 0, p);
    var n := Attach(m, p, f, rw, false, false);
    assert PageOk(m, p) && FrameOk(m, f);
    forall g: nat | g < |n.frames| ensures FrameOk(n, g) {
      assert FrameOk(m, g);
      assert forall q :: OnFrame(n, q, g) <==> OnFrame(m, q, g) || (q == p && g == f);
    }
    forall q | q in n.pages ensures PageOk(n, q) && (q != p ==> SameView(m, n, q)) {
      assert PageOk(m, q);
      InvBounds(m, 0, 0, q);
      if q != p && m.pages[q].state.Resident? {
        assert OnFrame(m, q, m.pages[q].frame) && FrameOk(m, m.pages[q].frame);
      }
    }
    forall s: nat | s < |n.slots| ensures SlotOk(n, s, Extra(0, 0, s)) {
      assert SlotOk(m, s, Extra(0, 0, s));
      NamersOfUpdate(m, n, p, s);
      if m.slots[s].used {
        UnmappedNotRegistered(m, 0, 0, f, s);
        OtherPageKeepsSlot(m, n, p, s);
      }
    }
  }

  /** Slot facts about other pages survive a change to a page that neither named the
      slot nor used its frame, before or after. */
  lemma OtherPageKeepsSlot(m: Mem, n: Mem, p: PageId, s: nat)
    requires p in m.pages && p in n.pages && n.pages == m.pages[p := n.pages[p]]
    requires !Names(m, p, s) && !Names(n, p, s)
    ensures SharersFlagged(m, s) ==> SharersFlagged(n, s)
    ensures forall f: nat :: AllName(m, f, s) && !OnFrame(n, p, f) ==> AllName(n, f, s)
  {
    forall q | Names(n, q, s) ensures Names(m, q, s) && n.pages[q] == m.pages[q] {}
    forall f: nat | AllName(m, f, s) && !OnFrame(n, p, f) ensures AllName(n, f, s) {
      forall q | OnFrame(n, q, f) ensures n.pages[q].slot == Some(s) { assert OnFrame(m, q, f); }
    }
  }

  lemma MapZeroPageStep(m: Mem, p: PageId)
    requires Inv(m) && p in m.pages && m.pages[p].state.Reserved?
    requires CanShare(m.frames[0])
    ensures var n := MapZeroPage(m, p);
            Inv(n) && ViewsKeptBut(m, n, p) && InBounds(n, p) && View(n, p) == ZeroPage()
  {
    assert FrameOk(m, 0);
    var n := MapZeroPage(m, p);
    assert PageOk(m, p);
    AppendFacts(m.frames[0].rmap, p) by { assert !OnFrame(m, p, 0); }
    forall g: nat | g < |n.frames| ensures FrameOk(n, g) {
      assert FrameOk(m, g);
      assert forall q :: OnFrame(n, q, g) <==> OnFrame(m, q, g) || (q == p && g == 0);
    }
    forall q | q in n.pages ensures PageOk(n, q) && (q != p ==> SameView(m, n, q)) {
      assert PageOk(m, q);
      InvBounds(m, 0, 0, q);
    }
    forall s: nat | s < |n.slots| ensures SlotOk(n, s, Extra(0, 0, s)) {
      assert SlotOk(m, s, Extra(0, 0, s));
      NamersOfUpdate(m, n, p, s);
      if m.slots[s].used { OtherPageKeepsSlot(m, n, p, s); }
    }
  }

  // ------------------------------------------------------------ swap slots

  lemma DropSwappedSlotOk(m: Mem, p: PageId, s: nat)
    requires Inv(m) && p in m.pages && m.pages[p].state.Swapped? && s < |m.slots|
    ensures InBounds(m, p) && m.pages[p].slot.Some? && SlotOk(DropSwapped(m, p), s, 0)
  {
    InvBounds(m, 0, 0, p);
    assert PageOk(m, p);
    var n := DropSwapped(m, p);
    SwappedNamerCounts(m, 0, 0, p);
    assert SlotOk(m, s, Extra(0, 0, s));
    NamersOfUpdate(m, n, p, s);
    if n.slots[s].used {
      if n.slots[s].mapCount >= 2 {
        forall q | Names(n, q, s) && n.pages[q].state.Swapped? ensures n.pages[q].swappedCow { assert Names(m, q, s); }
      }
      if n.slots[s].residentFrame.Some? {
        var g := n.slots[s].residentFrame.value;
        assert AllName(m, g, s);
        forall q | OnFrame(n, q, g) ensures n.pages[q].slot == Some(s) { assert OnFrame(m, q, g); }
        assert ResidentOk(n, s, n.slots[s], g);
      }
    }
  }

  /** FreePageInfo on a swapped page: the slot loses one name. */
  lemma DropSwappedStep(m: Mem, p: PageId)
    requires Inv(m) && p in m.pages && m.pages[p].state.Swapped?
    ensures InBounds(m, p) && m.pages[p].slot.Some?
    ensures Inv(DropSwapped(m, p)) && ViewsKeptBut(m, DropSwapped(m, p), p)
  {
    InvBounds(m, 0, 0, p);
    assert PageOk(m, p);
    var n := DropSwapped(m, p);
    var s0 := m.pages[p].slot.value;
    SwappedNamerCounts(m, 0, 0, p);
    assert SlotOk(m, s0, Extra(0, 0, s0));
    forall g: nat | g < |n.frames| ensures FrameOk(n, g) {
      assert FrameOk(m, g);
      assert forall q :: OnFrame(n, q, g) <==> OnFrame(m, q, g);
    }
    forall q | q in n.pages ensures PageOk(n, q) && (q != p ==> SameView(m, n, q)) {
      assert PageOk(m, q);
      InvBounds(m, 0, 0, q);
      if q != p && m.pages[q].slot == Some(s0) {
        SubsetCard({p, q}, Namers(m, s0));
      }
    }
    forall s: nat | s < |n.slots| ensures SlotOk(n, s, Extra(0, 0, s)) { DropSwappedSlotOk(m, p, s); }
  }

  /** A free slot is taken for k mappings that are still to be made. */
  lemma TakeSlotStep(m: Mem, t: nat, k: nat, data: Page)
    requires Inv(m) && t < |m.slots| && !m.slots[t].used && k >= 1
    ensures InvPending(TakeSlot(m, t, k, data), t, k) && ViewsKept(m, TakeSlot(m, t, k, data))
  {
    var n := TakeSlot(m, t, k, data);
    forall q | q in n.pages ensures PageOk(n, q) && SameView(m, n, q) && m.pages[q].slot != Some(t) {
      assert PageOk(m, q);
      InvBounds(m, 0, 0, q);
    }
    forall g: nat | g < |n.frames| ensures FrameOk(n, g) {
      assert FrameOk(m, g);
      assert forall q :: OnFrame(n, q, g) <==> OnFrame(m, q, g);
    }
    forall s: nat | s < |n.slots| ensures SlotOk(n, s, Extra(t, k, s)) {
      assert SlotOk(m, s, Extra(0, 0, s));
      assert Namers(n, s) == Namers(m, s);
      assert forall q :: Names(n, q, s) <==> Names(m, q, s);
      if s == t { assert Namers(n, t) == {}; }
      else if m.slots[s].residentFrame.Some? {
        var g := m.slots[s].residentFrame.value;
        assert forall q :: OnFrame(n, q, g) <==> OnFrame(m, q, g);
      }
    }
  }

  /** A detached page makes one of the promised mappings of slot t. */
  lemma NameSlotFrames(m: Mem, t: nat, k: nat, p: PageId, cow: bool)
    requires InvPending(m, t, k) && p in m.pages && m.pages[p].state.Reserved?
    ensures var n := NameSlot(m, p, t, cow); forall g: nat :: g < |n.frames| ==> FrameOk(n, g)
  {
    var n := NameSlot(m, p, t, cow);
    forall g: nat | g < |n.frames| ensures FrameOk(n, g) {
      assert FrameOk(m, g);
      assert forall q :: OnFrame(n, q, g) <==> OnFrame(m, q, g);
    }
  }

  lemma NameSlotStep(m: Mem, t: nat, k: nat, p: PageId, cow: bool)
    requires InvPending(m, t, k) && k >= 1 && t < |m.slots| && m.slots[t].used && m.slots[t].residentFrame.None?
    requires p in m.pages && m.pages[p].state.Reserved?
    requires m.slots[t].mapCount >= 2 ==> cow
    ensures var n := NameSlot(m, p, t, cow);
            InvPending(n, t, k - 1) && ViewsKeptBut(m, n, p) && InBounds(n, p) && View(n, p) == m.slots[t].data
  {
    InvBounds(m, t, k, p);
    assert PageOk(m, p);
    var n := NameSlot(m, p, t, cow);
    NameSlotFrames(m, t, k, p, cow);
    forall q | q in n.pages ensures PageOk(n, q) && (q != p ==> SameView(m, n, q)) {
      assert PageOk(m, q);
      InvBounds(m, t, k, q);
    }
    var j := k - 1;
    forall s: nat | s < |n.slots| ensures SlotOk(n, s, Extra(t, j, s)) {
      assert SlotOk(m, s, Extra(t, k, s));
      NamersOfUpdate(m, n, p, s);
      if m.slots[s].used {
        if s != t { OtherPageKeepsSlot(m, n, p, s); }
        else if m.slots[s].mapCount >= 2 {
          forall q | Names(n, q, s) && n.pages[q].state.Swapped? && q != p ensures n.pages[q].swappedCow {
            assert Names(m, q, s);
          }
        }
      }
    }
  }
}
