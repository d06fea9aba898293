/** What the invariant means, in terms a reader of the kernel would use. */
module PagingTheorems {
  import opened Common
  import opened PagingState
  import opened PagingInvariant
  import opened PagingClock

  ghost function Mappers(m: Mem, f: nat): set<PageId> {
    set p | p in m.pages && OnFrame(m, p, f)
  }

  ghost function ResidentNamers(m: Mem, s: nat): set<PageId> {
    set p | p in Namers(m, s) && m.pages[p].state.Resident?
  }

  /** A frame's map count is the number of pages mapped to it. */
  lemma FrameCountsMappers(m: Mem, f: nat)
    requires Inv(m) && f < |m.frames|
    ensures m.frames[f].mapCount == |Mappers(m, f)|
    ensures (set p | p in m.frames[f].rmap) == Mappers(m, f)
  {
    assert FrameOk(m, f);
    NoDupCard(m.frames[f].rmap);
    assert (set p | p in m.frames[f].rmap) == Mappers(m, f);
  }

  /** A used slot counts the pages naming it and, of these, the resident ones, which
      all sit on the frame it records. */
  lemma SlotCountsSharers(m: Mem, s: nat)
    requires Inv(m) && s < |m.slots| && m.slots[s].used
    ensures m.slots[s].mapCount == |Namers(m, s)| > 0
    ensures m.slots[s].residentCount == |ResidentNamers(m, s)|
    ensures m.slots[s].residentFrame.None? <==> ResidentNamers(m, s) == {}
    ensures m.slots[s].residentFrame.Some? ==>
              forall p :: p in ResidentNamers(m, s) <==> OnFrame(m, p, m.slots[s].residentFrame.value)
  {
    assert SlotOk(m, s, Extra(0, 0, s));
    forall p | p in ResidentNamers(m, s)
      ensures m.slots[s].residentFrame.Some? && OnFrame(m, p, m.slots[s].residentFrame.value)
    {
      assert PageOk(m, p);
    }
    if m.slots[s].residentFrame.Some? {
      var f := m.slots[s].residentFrame.value;
      FrameCountsMappers(m, f);
      assert Mappers(m, f) == ResidentNamers(m, s);
    }
  }

  /** The global zero page stays reserved, pinned and zero, is mapped read-only
      everywhere, and always carries one reference more than it has mappings. */
  lemma ZeroPageStaysZero(m: Mem)
    requires Inv(m)
    ensures m.frames[0].used && m.frames[0].pinned && m.ram[0] == ZeroPage()
    ensures m.frames[0].cowRef == m.frames[0].mapCount + 1
    ensures forall p :: OnFrame(m, p, 0) ==> !m.pages[p].pte.rw
    ensures forall s: nat :: s < |m.slots| && m.slots[s].used ==> m.slots[s].residentFrame != Some(0)
  {
    assert FrameOk(m, 0);
    forall p | OnFrame(m, p, 0) ensures !m.pages[p].pte.rw { assert PageOk(m, p); }
    forall s: nat | s < |m.slots| && m.slots[s].used ensures m.slots[s].residentFrame != Some(0) {
      assert SlotOk(m, s, Extra(0, 0, s));
    }
  }

  /** While sharers of a slot are still out, the frame that came back carries a
      reference for them, so its mappings stay read-only. */
  lemma AbsentSharersHoldAReference(m: Mem, s: nat, p: PageId, q: PageId)
    requires Inv(m) && Names(m, p, s) && m.pages[p].state.Resident?
    requires Names(m, q, s) && m.pages[q].state.Swapped?
    ensures InBounds(m, p)
    ensures var f := m.pages[p].frame;
            m.frames[f].cowRef >= m.frames[f].mapCount + 1 >= 2 && !m.pages[p].pte.rw
  {
    InvBounds(m, 0, 0, p);
    assert PageOk(m, p) && PageOk(m, q) && OnFrame(m, p, m.pages[p].frame);
    SwappedNamerCounts(m, 0, 0, q);
    assert SlotOk(m, s, Extra(0, 0, s)) && FrameOk(m, m.pages[p].frame);
  }

  /** No frame and no slot is lost: with the last page the last one of them is free. */
  lemma NothingKept(m: Mem)
    requires Inv(m) && Tidy(m, 0) && m.pages == map[]
    ensures forall f: nat :: 0 < f < |m.frames| ==> !m.frames[f].used
    ensures forall s: nat :: s < |m.slots| ==> !m.slots[s].used
  {
    forall f: nat | 0 < f < |m.frames| ensures !m.frames[f].used {
      FrameCountsMappers(m, f);
      assert Mappers(m, f) == {};
    }
    forall s: nat | s < |m.slots| ensures !m.slots[s].used {
      assert SlotOk(m, s, Extra(0, 0, s));
      assert Namers(m, s) == {};
    }
  }
}
