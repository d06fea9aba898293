/** What ties frames, slots and page records together, and that the page
    primitives keep it. */
module PagingInvariant {
  import opened Common
  import opened PagingState

  ghost predicate NoDup(s: seq<PageId>) {
    forall i, j :: 0 <= i < j < |s| ==> s[i] != s[j]
  }

  ghost function Namers(m: Mem, s: nat): set<PageId> {
    set p | p in m.pages && m.pages[p].slot == Some(s)
  }

  /** The reverse map of frame f lists exactly the pages resident on it, each once. */
  ghost predicate MappedBy(m: Mem, f: nat, rmap: seq<PageId>) {
    NoDup(rmap) && forall p :: p in rmap <==> OnFrame(m, p, f)
  }

  ghost predicate CountsOk(f: nat, fr: Frame) {
    && fr.mapCount == |fr.rmap|
    && fr.mapCount <= MAX_COUNT
    && fr.cowRef <= MAX_COUNT
    && (fr.mapCount > 0 ==> fr.used)
    && (fr.pinned ==> fr.used)
    && (fr.zero <==> f == 0)
    && (f == 0 ==> fr.used && fr.pinned && fr.cowRef == fr.mapCount + 1)
    && (f != 0 ==>
          && (fr.cow <==> fr.cowRef != 0)
          && (fr.cowRef != 0 ==> fr.mapCount != 0 && fr.cowRef >= fr.mapCount)
          && (fr.cowRef == 0 ==> fr.mapCount <= 1))
  }

  ghost predicate FrameOk(m: Mem, f: nat)
    requires f < |m.frames| && |m.ram| == |m.frames|
  {
    && CountsOk(f, m.frames[f])
    && MappedBy(m, f, m.frames[f].rmap)
    && (f == 0 ==> m.ram[0] == ZeroPage())
  }

  ghost predicate PageOk(m: Mem, p: PageId)
    requires p in m.pages
  {
    var i := m.pages[p];
    (i.backing.ZeroFill? ==> i.initial == ZeroPage()) &&
    match i.state
    case Reserved => i.slot.None? && !i.pte.present && !i.pte.rw
    case Swapped =>
      i.slot.Some? && i.slot.value < |m.slots| && m.slots[i.slot.value].used && !i.pte.present && !i.pte.rw
    case Resident =>
      && i.frame < |m.frames|
      && i.pte.present && i.pte.frame == i.frame
      && (i.pte.rw ==> i.frame != 0 && m.frames[i.frame].cowRef == 0)
      && (i.slot.Some? ==>
            && i.slot.value < |m.slots|
            && m.slots[i.slot.value].used
            && m.slots[i.slot.value].residentFrame == Some(i.frame))
  }

  ghost predicate AllName(m: Mem, f: nat, s: nat) {
    forall p :: OnFrame(m, p, f) ==> m.pages[p].slot == Some(s)
  }

  /** The frame registered for slot s: mapped by exactly the resident sharers, all
      naming s, and untouched while some sharer is still out. */
  ghost predicate ResidentOk(m: Mem, s: nat, t: Slot, f: nat)
    requires |m.ram| == |m.frames|
  {
    && 0 < f < |m.frames|
    && t.residentCount == m.frames[f].mapCount
    && AllName(m, f, s)
    && (t.residentCount < t.mapCount ==>
          m.frames[f].cowRef >= m.frames[f].mapCount + 1 && m.ram[f] == t.data)
  }

  ghost predicate SharersFlagged(m: Mem, s: nat) {
    forall p :: Names(m, p, s) && m.pages[p].state.Swapped? ==> m.pages[p].swappedCow
  }

  /** `pending` mappings of the slot are promised by a running eviction but not yet made. */
  ghost predicate SlotOk(m: Mem, s: nat, pending: nat)
    requires s < |m.slots| && |m.ram| == |m.frames|
  {
    m.slots[s].used ==>
      && m.slots[s].mapCount == |Namers(m, s)| + pending
      && 1 <= m.slots[s].mapCount
      && m.slots[s].residentCount <= m.slots[s].mapCount
      && (m.slots[s].residentFrame.None? <==> m.slots[s].residentCount == 0)
      && (m.slots[s].residentFrame.Some? ==> ResidentOk(m, s, m.slots[s], m.slots[s].residentFrame.value))
      && (m.slots[s].mapCount >= 2 ==> SharersFlagged(m, s))
  }

  function Extra(t: nat, k: nat, s: nat): nat {
    if s == t then k else 0
  }

  /** The invariant while slot t still expects k more mappings. */
  ghost predicate InvPending(m: Mem, t: nat, k: nat) {
    && 0 < |m.frames| && |m.ram| == |m.frames|
    && (forall f: nat :: f < |m.frames| ==> FrameOk(m, f))
    && (forall p :: p in m.pages ==> PageOk(m, p))
    && (forall s: nat :: s < |m.slots| ==> SlotOk(m, s, Extra(t, k, s)))
  }

  ghost predicate Inv(m: Mem) {
    InvPending(m, 0, 0)
  }

  lemma PendingIrrelevant(m: Mem, t: nat, u: nat)
    requires InvPending(m, t, 0)
    ensures InvPending(m, u, 0)
  {
    forall s: nat | s < |m.slots| ensures SlotOk(m, s, Extra(u, 0, s)) {
      assert SlotOk(m, s, Extra(t, 0, s));
    }
  }

  lemma InvBounds(m: Mem, t: nat, k: nat, p: PageId)
    requires InvPending(m, t, k) && p in m.pages
    ensures InBounds(m, p)
  {
    assert PageOk(m, p);
  }

  /** Page q keeps its backing and reads the same bytes in both states. */
  ghost predicate SameView(m: Mem, n: Mem, q: PageId) {
    && InBounds(m, q) && InBounds(n, q)
    && View(n, q) == View(m, q)
    && n.pages[q].backing == m.pages[q].backing
    && n.pages[q].initial == m.pages[q].initial
  }

  ghost predicate ViewsKept(m: Mem, n: Mem) {
    && n.pages.Keys == m.pages.Keys
    && forall q :: q in m.pages ==> SameView(m, n, q)
  }

  ghost predicate ViewsKeptBut(m: Mem, n: Mem, p: PageId) {
    && n.pages.Keys == m.pages.Keys
    && forall q :: q in m.pages && q != p ==> SameView(m, n, q)
  }

  // ------------------------------------------------------------ list facts

  lemma {:induction false} RemoveFacts(s: seq<PageId>, p: PageId)
    requires NoDup(s) && p in s
    ensures |Remove(s, p)| == |s| - 1
    ensures NoDup(Remove(s, p))
    ensures forall q :: q in Remove(s, p) <==> q in s && q != p
  {
    if s[0] != p {
      var rest := s[1..];
      assert s == [s[0]] + rest;
      RemoveFacts(rest, p);
      var r := Remove(rest, p);
      assert forall i :: 0 <= i < |r| ==> r[i] in r;
      assert s[0] !in rest;
    } else {
      assert s[0] !in s[1..];
    }
  }

  lemma AppendFacts(s: seq<PageId>, p: PageId)
    requires NoDup(s) && p !in s
    ensures NoDup(s + [p])
    ensures forall q :: q in s + [p] <==> q in s || q == p
  {
  }

  lemma NamersOfUpdate(m: Mem, n: Mem, p: PageId, s: nat)
    requires p in m.pages && p in n.pages && n.pages == m.pages[p := n.pages[p]]
    ensures Namers(n, s) == if n.pages[p].slot == Some(s) then Namers(m, s) + {p} else Namers(m, s) - {p}
    ensures |Namers(n, s)| == |Namers(m, s)|
                              - (if m.pages[p].slot == Some(s) then 1 else 0)
                              + (if n.pages[p].slot == Some(s) then 1 else 0)
  {
    var a, b := Namers(m, s), Namers(n, s);
    assert b == if n.pages[p].slot == Some(s) then a + {p} else a - {p};
    assert p in a <==> m.pages[p].slot == Some(s);
    if p in a { assert (a - {p}) + {p} == a; }
  }

  // ---------------------------------------------------------------- Detach

  lemma DetachFrameOk(m: Mem, p: PageId, f: nat)
    requires InBounds(m, p) && m.pages[p].state.Resident?
    requires f < |m.frames| && FrameOk(m, f)
    ensures FrameOk(Detach(m, p), f)
  {
    var n := Detach(m, p);
    assert forall q :: OnFrame(n, q, f) <==> OnFrame(m, q, f) && q != p;
    if f == m.pages[p].frame {
      assert OnFrame(m, p, f);
      RemoveFacts(m.frames[f].rmap, p);
    }
  }

  lemma DetachNames(m: Mem, p: PageId, s: nat)
    requires InBounds(m, p) && m.pages[p].state.Resident?
    ensures |Namers(Detach(m, p), s)| == |Namers(m, s)| - (if m.pages[p].slot == Some(s) then 1 else 0)
    ensures SharersFlagged(m, s) ==> SharersFlagged(Detach(m, p), s)
  {
    var n := Detach(m, p);
    NamersOfUpdate(m, n, p, s);
    forall q | Names(n, q, s) ensures Names(m, q, s) && n.pages[q] == m.pages[q] {}
  }

  lemma DetachResidentOk(m: Mem, t: nat, k: nat, p: PageId, s: nat)
    requires InvPending(m, t, k) && p in m.pages && m.pages[p].state.Resident?
    requires s < |m.slots| && InBounds(m, p)
    requires Detach(m, p).slots[s].used && Detach(m, p).slots[s].residentFrame.Some?
    ensures var n := Detach(m, p); ResidentOk(n, s, n.slots[s], n.slots[s].residentFrame.value)
  {
    var n := Detach(m, p);
    var f := m.pages[p].frame;
    var g := n.slots[s].residentFrame.value;
    assert PageOk(m, p) && FrameOk(m, f) && SlotOk(m, s, Extra(t, k, s)) && OnFrame(m, p, f);
    assert m.slots[s].residentFrame == Some(g) && ResidentOk(m, s, m.slots[s], g);
    if m.pages[p].slot != Some(s) { assert g != f; }
    forall q | OnFrame(n, q, g) ensures n.pages[q].slot == Some(s) { assert OnFrame(m, q, g); }
  }

  lemma DetachSlotOk(m: Mem, t: nat, k: nat, p: PageId, s: nat)
    requires InvPending(m, t, k) && p in m.pages && m.pages[p].state.Resident?
    requires s < |m.slots|
    ensures InBounds(m, p) && SlotOk(Detach(m, p), s, Extra(t, k, s))
  {
    InvBounds(m, t, k, p);
    var n := Detach(m, p);
    var f := m.pages[p].frame;
    assert PageOk(m, p) && FrameOk(m, f) && SlotOk(m, s, Extra(t, k, s));
    assert OnFrame(m, p, f);
    DetachNames(m, p, s);
    if n.slots[s].used && n.slots[s].residentFrame.Some? {
      DetachResidentOk(m, t, k, p, s);
    }
  }

  lemma DetachKeepsInv(m: Mem, t: nat, k: nat, p: PageId)
    requires InvPending(m, t, k) && p in m.pages && m.pages[p].state.Resident?
    ensures InBounds(m, p) && InvPending(Detach(m, p), t, k)
  {
    InvBounds(m, t, k, p);
    var n := Detach(m, p);
    var f := m.pages[p].frame;
    assert PageOk(m, p) && FrameOk(m, f) && OnFrame(m, p, f);
    forall g: nat | g < |n.frames| ensures FrameOk(n, g) { assert FrameOk(m, g); DetachFrameOk(m, p, g); }
    forall s: nat | s < |n.slots| ensures SlotOk(n, s, Extra(t, k, s)) { DetachSlotOk(m, t, k, p, s); }
    forall q | q in n.pages ensures PageOk(n, q) {
      assert PageOk(m, q);
      if q != p && m.pages[q].slot.Some? {
        var s := m.pages[q].slot.value;
        assert SlotOk(m, s, Extra(t, k, s)) && SlotOk(n, s, Extra(t, k, s));
        DetachKeepsNamedSlot(m, t, k, p, q);
      }
    }
  }

  lemma DetachKeepsNamedSlot(m: Mem, t: nat, k: nat, p: PageId, q: PageId)
    requires InvPending(m, t, k) && p in m.pages && m.pages[p].state.Resident?
    requires q in m.pages && q != p && m.pages[q].slot.Some?
    ensures InBounds(m, p) && InBounds(m, q)
    ensures var s := m.pages[q].slot.value; var n := Detach(m, p);
            && n.slots[s].used
            && (m.pages[q].state.Resident? ==> n.slots[s].residentFrame == Some(m.pages[q].frame))
  {
    InvBounds(m, t, k, p);
    InvBounds(m, t, k, q);
    var s := m.pages[q].slot.value;
    assert PageOk(m, p) && PageOk(m, q) && SlotOk(m, s, Extra(t, k, s));
    if m.pages[p].slot == Some(s) {
      assert {p, q} <= Namers(m, s);
      SubsetCard({p, q}, Namers(m, s));
      if m.pages[q].state.Resident? {
        var f := m.pages[q].frame;
        assert FrameOk(m, f) && OnFrame(m, p, f) && OnFrame(m, q, f);
      }
    }
  }

  lemma {:induction false} SubsetCard(a: set<PageId>, b: set<PageId>)
    requires a <= b
    ensures |a| <= |b|
    decreases a
  {
    if a != {} {
      var x :| x in a;
      SubsetCard(a - {x}, b - {x});
    }
  }

  lemma DetachKeepsViews(m: Mem, t: nat, k: nat, p: PageId)
    requires InvPending(m, t, k) && p in m.pages && m.pages[p].state.Resident?
    ensures InBounds(m, p) && ViewsKeptBut(m, Detach(m, p), p)
  {
    DetachKeepsInv(m, t, k, p);
    var n := Detach(m, p);
    assert PageOk(m, p);
    forall q | q in m.pages && q != p
      ensures SameView(m, n, q)
    {
      InvBounds(m, t, k, q);
      InvBounds(n, t, k, q);
      assert PageOk(m, q);
      if m.pages[q].state.Swapped? && m.pages[p].slot == m.pages[q].slot {
        var s := m.pages[q].slot.value;
        assert SlotOk(m, s, Extra(t, k, s));
        var f := m.pages[p].frame;
        assert FrameOk(m, f) && OnFrame(m, p, f);
        SwappedNamerCounts(m, t, k, q);
      }
    }
  }

  /** A swapped-out page keeps its slot's map count above the resident count. */
  lemma SwappedNamerCounts(m: Mem, t: nat, k: nat, q: PageId)
    requires InvPending(m, t, k) && q in m.pages && m.pages[q].state.Swapped?
    ensures InBounds(m, q)
    ensures var s := m.slots[m.pages[q].slot.value]; s.residentCount < s.mapCount
  {
    InvBounds(m, t, k, q);
    assert PageOk(m, q);
    var s := m.pages[q].slot.value;
    assert SlotOk(m, s, Extra(t, k, s));
    if m.slots[s].residentFrame.Some? {
      var f := m.slots[s].residentFrame.value;
      assert FrameOk(m, f);
      var r := m.frames[f].rmap;
      var rs := set x | x in r;
      NoDupCard(r);
      forall x | x in rs ensures x in Namers(m, s) - {q} { assert OnFrame(m, x, f); }
      SubsetCard(rs, Namers(m, s) - {q});
      assert q in Namers(m, s);
    }
  }

  lemma {:induction false} NoDupCard(s: seq<PageId>)
    requires NoDup(s)
    ensures |set x | x in s| == |s|
  {
    if s != [] {
      var rest := s[1..];
      NoDupCard(rest);
      assert (set x | x in s) == (set x | x in rest) + {s[0]};
      assert s[0] !in rest;
    }
  }
}
