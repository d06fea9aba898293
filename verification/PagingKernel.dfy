/** The kernel's paging machine: frame table, physical memory, swap slots and page
    records, updated in place by the methods of UserPageManager, SwapManager and
    MemoryDescriptor. */
module PagingKernel {
  import opened Common
  import opened PagingState
  import opened PagingInvariant
  import opened PagingSteps
  import opened PagingSharing
  import opened PagingBookkeeping
  import opened PagingEviction
  import opened PagingFork
  import opened PagingGuards
  import opened PagingClock

  class Kernel {
    var frames: seq<Frame>
    var ram: seq<Page>
    var slots: seq<Slot>
    var pages: map<PageId, PageInfo>
    var clockHand: nat
    var reclaiming: bool

    ghost function State(): Mem
      reads this
    {
      Mem(frames, ram, slots, pages)
    }

    ghost predicate Valid()
      reads this
    {
      Good(State()) && clockHand < |frames|
    }

    /** UserPageManager.Initialize and SwapManager.Initialize: only the zero page is in use. */
    constructor (frameCount: nat, slotCount: nat)
      requires frameCount >= 1
      ensures Valid() && !reclaiming && Tidy(State(), 0)
      ensures pages == map[] && |frames| == frameCount && |slots| == slotCount
      ensures forall f: nat :: f < frameCount ==> (frames[f].used <==> f == 0) && (frames[f].pinned <==> f == 0)
      ensures forall s: nat :: s < slotCount ==> !slots[s].used
    {
      frames := seq(frameCount, i => if i == 0 then Frame(true, 0, [], 1, true, true, true) else FREE_FRAME);
      ram := seq(frameCount, _ => ZeroPage());
      slots := seq(slotCount, _ => Slot(false, 0, 0, None, ZeroPage()));
      pages := map[];
      clockHand := 0;
      reclaiming := false;
      new;
      ghost var m := State();
      forall f: nat | f < |m.frames| ensures FrameOk(m, f) {}
      forall s: nat | s < |m.slots| ensures SlotOk(m, s, Extra(0, 0, s)) {}
    }

    // ------------------------------------------------- reverse maps and slots

    method AttachReverseMap(f: nat, p: PageId, zero: bool, cow: bool)
      requires f < |frames|
      modifies this`frames
      ensures frames == old(frames)[f := PagingState.AttachReverseMap(old(frames)[f], p, zero, cow)]
    {
      frames := frames[f := frames[f].(rmap := frames[f].rmap + [p])];
      frames := frames[f := frames[f].(mapCount := frames[f].mapCount + 1)];
      frames := frames[f := frames[f].(zero := frames[f].zero || zero, cow := frames[f].cow || cow)];
    }

    method ReleaseCopyOnWriteRef(f: nat)
      requires f < |frames| && frames[f].cowRef != 0
      modifies this`frames
      ensures frames == old(frames)[f := old(frames)[f].(cowRef := old(frames)[f].cowRef - 1,
                cow := old(frames)[f].cow && old(frames)[f].cowRef != 1)]
    {
      frames := frames[f := frames[f].(cowRef := frames[f].cowRef - 1)];
      if frames[f].cowRef == 0 {
        frames := frames[f := frames[f].(cow := false)];
      }
    }

    method UnlinkReverseMap(f: nat, p: PageId)
      requires f < |frames|
      modifies this`frames
      ensures frames == old(frames)[f := old(frames)[f].(rmap := Remove(old(frames)[f].rmap, p),
                mapCount := if old(frames)[f].mapCount != 0 then old(frames)[f].mapCount - 1 else 0)]
    {
      frames := frames[f := frames[f].(rmap := Remove(frames[f].rmap, p))];
      if frames[f].mapCount != 0 {
        frames := frames[f := frames[f].(mapCount := frames[f].mapCount - 1)];
      }
    }

    /** A frame nobody maps any more is not shared either. */
    method ClearIfUnmapped(f: nat)
      requires f < |frames|
      modifies this`frames
      ensures frames == old(frames)[f := if old(frames)[f].mapCount != 0 then old(frames)[f]
                                         else old(frames)[f].(cow := false, cowRef := if f == 0
                                           then old(frames)[f].cowRef else 0)]
    {
      if frames[f].mapCount == 0 {
        frames := frames[f := frames[f].(cow := false)];
        if f != 0 {
          frames := frames[f := frames[f].(cowRef := 0)];
        }
      }
    }

    method DetachReverseMap(f: nat, p: PageId)
      requires f < |frames|
      modifies this`frames
      ensures frames == old(frames)[f := PagingState.DetachReverseMap(old(frames)[f], f, p)]
    {
      UnlinkReverseMap(f, p);
      if frames[f].cowRef != 0 {
        ReleaseCopyOnWriteRef(f);
      }
      ClearIfUnmapped(f);
    }

    /** The panic on freeing a mapped page cannot happen: every caller meets the requires. */
    method FreePage(f: nat)
      requires f < |frames| && frames[f].mapCount == 0
      modifies this`frames
      ensures f == 0 ==> frames == old(frames)
      ensures f != 0 ==> frames == old(frames)[f := old(frames)[f].(used := false, cowRef := 0, zero := false,
                cow := false, pinned := false, rmap := [])]
    {
      if f == 0 { return; }
      frames := frames[f := frames[f].(cowRef := 0, zero := false, cow := false, pinned := false, rmap := [])];
      frames := frames[f := frames[f].(used := false)];
    }

    method ReleaseResidentReference(s: nat)
      requires s < |slots|
      modifies this`slots
      ensures slots == if old(slots)[s].used
                       then old(slots)[s := PagingState.ReleaseResidentReference(old(slots)[s])] else old(slots)
    {
      if !slots[s].used { return; }
      if slots[s].residentCount != 0 {
        slots := slots[s := slots[s].(residentCount := slots[s].residentCount - 1)];
      }
      if slots[s].mapCount != 0 {
        slots := slots[s := slots[s].(mapCount := slots[s].mapCount - 1)];
      }
      if slots[s].residentCount == 0 {
        slots := slots[s := slots[s].(residentFrame := None)];
      }
      if slots[s].mapCount == 0 {
        slots := slots[s := FreeSlot(slots[s])];
      }
    }

    method ReleaseSlotReference(s: nat)
      requires s < |slots|
      modifies this`slots
      ensures slots == if old(slots)[s].used
                       then old(slots)[s := PagingState.ReleaseSlotReference(old(slots)[s])] else old(slots)
    {
      if !slots[s].used { return; }
      if slots[s].mapCount != 0 {
        slots := slots[s := slots[s].(mapCount := slots[s].mapCount - 1)];
      }
      if slots[s].residentCount > slots[s].mapCount {
        slots := slots[s := slots[s].(residentCount := slots[s].mapCount)];
      }
      if slots[s].residentCount == 0 {
        slots := slots[s := slots[s].(residentFrame := None)];
      }
      if slots[s].mapCount == 0 {
        slots := slots[s := FreeSlot(slots[s])];
      }
    }

    method RegisterResident(s: nat, f: nat) returns (ok: bool)
      requires s < |slots|
      modifies this`slots
      ensures ok == CanRegister(old(slots)[s], f)
      ensures slots == if ok then old(slots)[s := PagingState.RegisterResident(old(slots)[s], f)] else old(slots)
    {
      if !slots[s].used { return false; }
      if slots[s].residentFrame.None? {
        slots := slots[s := slots[s].(residentFrame := Some(f))];
      } else if slots[s].residentFrame.value != f {
        return false;
      }
      if slots[s].residentCount < slots[s].mapCount {
        slots := slots[s := slots[s].(residentCount := slots[s].residentCount + 1)];
      }
      return true;
    }

    method AllocateSlot(k: nat) returns (r: Option<nat>)
      requires k >= 1
      modifies this`slots
      ensures r.None? <==> forall s: nat :: s < |old(slots)| ==> old(slots)[s].used
      ensures r.None? ==> slots == old(slots)
      ensures r.Some? ==> r.value < |old(slots)| && !old(slots)[r.value].used
      ensures r.Some? ==> slots == old(slots)[r.value := Slot(true, k, 0, None, old(slots)[r.value].data)]
    {
      for i := 0 to |slots|
        invariant slots == old(slots)
        invariant forall s: nat :: s < i ==> slots[s].used
      {
        if !slots[i].used {
          slots := slots[i := slots[i].(used := true, mapCount := k, residentCount := 0, residentFrame := None)];
          return Some(i);
        }
      }
      return None;
    }

    // ---------------------------------------------------- attach and detach

    method AttachFrame(p: PageId, f: nat, rw: bool, zero: bool, cow: bool)
      requires p in pages && !pages[p].state.Resident? && f < |frames|
      modifies this`frames, this`pages
      ensures State() == Attach(old(State()), p, f, rw, zero, cow)
    {
      AttachReverseMap(f, p, zero, cow);
      pages := pages[p := pages[p].(state := Resident, frame := f, slot := None)];
      pages := pages[p := pages[p].(pte := Pte(true, rw, f, false, false))];
    }

    method DetachFrame(p: PageId)
      requires InBounds(State(), p) && pages[p].state.Resident?
      modifies this`frames, this`slots, this`pages
      ensures State() == Detach(old(State()), p)
    {
      var f := pages[p].frame;
      var slot := pages[p].slot;
      pages := pages[p := pages[p].(pte := NO_PTE)];
      DetachReverseMap(f, p);
      if slot.Some? {
        ReleaseResidentReference(slot.value);
      }
      pages := pages[p := pages[p].(frame := 0, slot := None, state := Reserved)];
      if frames[f].mapCount == 0 && !frames[f].pinned {
        if f != 0 {
          FreePage(f);
        }
      }
    }

    method EvictPageToSwap(p: PageId, t: nat)
      requires InBounds(State(), p) && pages[p].state.Resident?
      modifies this`frames, this`slots, this`pages
      ensures State() == PagingState.EvictPageToSwap(old(State()), p, t)
    {
      var cow := frames[pages[p].frame].cowRef != 0;
      pages := pages[p := pages[p].(swappedCow := cow)];
      ghost var flagged := State();
      DetachFrame(p);
      pages := pages[p := pages[p].(state := Swapped, frame := 0, slot := Some(t))];
      assert pages == PagingState.EvictPageToSwap(old(State()), p, t).pages;
    }

    // --------------------------------------------------------- clock reclaim

    /** CollectEvictionInfo over the whole reverse map of frame f. */
    method CollectFrameInfo(f: nat) returns (accessed: bool, dirty: bool, discardable: bool)
      requires Valid() && f < |frames|
      ensures !accessed <==> Idle(State(), f)
      ensures discardable <==> Discardable(State(), f)
      ensures discardable ==> !dirty
    {
      accessed, dirty, discardable := false, false, !frames[f].cow;
      var rmap := frames[f].rmap;
      assert FrameOk(State(), f);
      for i := 0 to |rmap|
        invariant forall j :: 0 <= j < |rmap| ==> rmap[j] in rmap && OnFrame(State(), rmap[j], f)
        invariant !accessed <==> forall j :: 0 <= j < i ==> !pages[rmap[j]].pte.accessed
        invariant discardable <==>
                    !frames[f].cow && forall j :: 0 <= j < i ==>
                      pages[rmap[j]].backing.ExecFile? && !pages[rmap[j]].pte.dirty
        invariant discardable ==> !dirty
      {
        var info := pages[rmap[i]];
        accessed := accessed || info.pte.accessed;
        dirty := dirty || info.pte.dirty;
        discardable := discardable && info.backing.ExecFile? && !info.pte.dirty;
      }
    }

    /** ClearPageAccessed for every entry of a reverse map. */
    method ClearPagesAccessed(rmap: seq<PageId>)
      requires forall p :: p in rmap ==> p in pages
      modifies this`pages
      ensures pages == AgedPages(old(pages), rmap)
    {
      for i := 0 to |rmap|
        invariant pages == AgedPages(old(pages), rmap[..i])
      {
        var p := rmap[i];
        assert rmap[..i + 1][..i] == rmap[..i] && p in rmap;
        pages := pages[p := pages[p].(pte := pages[p].pte.(accessed := false))];
      }
      assert rmap[..|rmap|] == rmap;
    }

    method ClearFrameAccessed(f: nat)
      requires Valid() && f < |frames| && !frames[f].pinned
      modifies this`pages
      ensures Valid() && OnlyAgedSince(old(State()), State()) && ViewsSteady(old(State()), State())
      ensures Undisturbed(old(State()), State())
      ensures Idle(State(), f)
      ensures forall g: nat :: g < |frames| && old(Idle(State(), g)) ==> Idle(State(), g)
      ensures forall g: nat :: g < |frames| && g != f && Idle(State(), g) ==> old(Idle(State(), g))
    {
      AgedFrame(State(), f);
      AgedIdle(State(), f);
      AgedElsewhere(State(), f);
      AgedUndisturbed(State(), f);
      ClearPagesAccessed(frames[f].rmap);
    }

    /** EvictPageToReserved for the pages of a clean, unshared frame of executable data. */
    method DiscardFrame(f: nat)
      requires Valid() && 0 < f < |frames| && frames[f].mapCount != 0 && !frames[f].pinned && Discardable(State(), f)
      modifies this`frames, this`slots, this`pages
      ensures Valid() && ViewsDrift(old(State()), State()) && Undisturbed(old(State()), State())
      ensures old(frames)[f].used && frames == old(frames)[f := frames[f]] && !frames[f].used
      ensures f < |old(State()).frames| && OnlyLost(old(State()), State(), f)
    {
      ghost var m := State();
      assert FrameOk(m, f);
      var p := frames[f].rmap[0];
      assert p in frames[f].rmap && OnFrame(m, p, f);
      DiscardStep(m, f, p);
      RemoveFacts(m.frames[f].rmap, p);
      DetachFrame(p);
      forall s: nat | s < |m.slots| && m.slots[s].used && m.slots[s].residentFrame.None?
        ensures slots[s] == m.slots[s]
      {
        assert PageOk(m, p);
      }
    }

    /** The loop of ReclaimOneFrame that moves every mapping of frame f to slot t. */
    method EvictMappings(f: nat, t: nat, ghost m: Mem)
      requires Evicting(m, State(), f, t) && ram == m.ram && f < |frames| && LeftUnmarked(m, State(), f)
      modifies this`frames, this`slots, this`pages
      ensures Evicting(m, State(), f, t) && ram == m.ram && f < |frames| && frames[f].mapCount == 0
      ensures LeftUnmarked(m, State(), f)
    {
      while frames[f].rmap != []
        invariant ram == m.ram && f < |frames|
        invariant Evicting(m, State(), f, t) && LeftUnmarked(m, State(), f)
        decreases frames[f].mapCount
      {
        var p := frames[f].rmap[0];
        assert FrameOk(State(), f) && p in frames[f].rmap;
        EvictionStep(m, State(), f, t, p);
        LeavesUnmarked(m, State(), f, t, p);
        EvictPageToSwap(p, t);
      }
      assert FrameOk(State(), f);
    }

    /** AllocateSlot, WritePage, the eviction loop and ReleaseReclaimPin of ReclaimOneFrame. */
    method SwapOutFrame(f: nat) returns (ok: bool)
      requires Valid() && Eligible(State(), f)
      modifies this`frames, this`slots, this`ram, this`pages
      ensures Valid() && ViewsSteady(old(State()), State()) && Undisturbed(old(State()), State())
      ensures !ok <==> SwapFull(old(State()))
      ensures !ok ==> State() == old(State())
      ensures ok ==> old(frames)[f].used && frames == old(frames)[f := frames[f]] && !frames[f].used
      ensures ok ==> forall q :: old(OnFrame(State(), q, f)) ==> SwappedOut(State(), q, old(frames)[f].cowRef == 0)
    {
      ghost var m := State();
      assert FrameOk(m, f);
      SteadyRefl(m);
      var r := AllocateSlot(frames[f].mapCount);
      if r.None? { return false; }
      var t := r.value;
      frames := frames[f := frames[f].(pinned := true)];
      slots := slots[t := slots[t].(data := ram[f])];
      EvictionStart(m, f, t);
      assert State() == SetPinned(TakeSlot(m, t, m.frames[f].mapCount, m.ram[f]), f, true);
      EvictMappings(f, t, m);
      FinishEviction(f, t, m);
      return true;
    }

    /** ReleaseReclaimPin on the frame everybody has left. */
    method ReleaseReclaimPin(f: nat)
      requires 0 < f < |frames| && frames[f].mapCount == 0
      modifies this`frames
      ensures frames == old(frames)[f := FreeIfUnmapped(old(frames)[f].(pinned := false), f)]
    {
      frames := frames[f := frames[f].(pinned := false)];
      FreePage(f);
    }

    method FinishEviction(f: nat, t: nat, ghost m: Mem)
      requires Good(m) && Evicting(m, State(), f, t) && f < |frames| && frames[f].mapCount == 0 && !m.frames[f].pinned
      requires LeftUnmarked(m, State(), f)
      modifies this`frames
      ensures Good(State()) && ViewsSteady(m, State()) && Undisturbed(m, State())
      ensures frames == m.frames[f := frames[f]] && !frames[f].used
      ensures forall q :: OnFrame(m, q, f) ==> SwappedOut(State(), q, m.frames[f].cowRef == 0)
    {
      ghost var n := State();
      EvictionDone(m, n, f, t);
      ReleaseReclaimPin(f);
      assert frames == m.frames[f := frames[f]];
      EvictionGuards(m, n, State(), f, t);
      forall q | OnFrame(m, q, f) ensures SwappedOut(State(), q, m.frames[f].cowRef == 0) {
        EvictedIsOut(m, n, f, t, q);
      }
    }

    /** One position of the clock hand. It takes an eligible frame that was not used lately
        and that it may drop or has a slot for, and costs exactly the lost pages their bytes. */
    method TryFrame(f: nat) returns (o: Outcome)
      requires Valid() && f < |frames|
      modifies this`frames, this`slots, this`ram, this`pages
      ensures f < |old(State()).frames| && Turned(old(State()), State(), f, o)
      ensures o.Freed? <==>
                old(Eligible(State(), f) && Idle(State(), f) && (Discardable(State(), f) || !SwapFull(State())))
      ensures o.Freed? && !old(Discardable(State(), f)) ==>
                forall q :: old(OnFrame(State(), q, f)) ==> SwappedOut(State(), q, old(frames)[f].cowRef == 0)
    {
      ghost var m := State();
      SteadyRefl(m);
      if frames[f].mapCount == 0 || frames[f].zero || frames[f].pinned { return Skipped; }
      assert FrameOk(m, f);
      var accessed, dirty, discardable := CollectFrameInfo(f);
      if accessed {
        ClearFrameAccessed(f);
        SteadyIsDrift(m, State());
        return Skipped;
      }
      if discardable && !dirty {
        DiscardFrame(f);
        return Freed;
      }
      var swapped := SwapOutFrame(f);
      SteadyIsDrift(m, State());
      return if swapped then Freed else NoSlot;
    }

    /** One position of the sweep that began at `start` in state m. */
    method TurnHand(ghost m: Mem, ghost start: nat, ghost scanned: nat) returns (o: Outcome, f: nat)
      requires AtPosition(m, State(), start, scanned, clockHand) && scanned < |frames|
      modifies this`frames, this`slots, this`ram, this`pages, this`clockHand
      ensures f == old(clockHand)
      ensures if o.Skipped? then AtPosition(m, State(), start, scanned + 1, clockHand)
              else SweepEnd(m, State(), start, clockHand, o.Freed?, f)
    {
      f := clockHand;
      ghost var before := State();
      NextHand(f, |frames|);
      clockHand := (clockHand + 1) % |frames|;
      o := TryFrame(f);
      HandTurned(m, before, State(), start, scanned, f, o);
    }

    /** One turn of the clock: frees exactly one frame, or reports that none could go.
        A failed turn that was not stopped by a full swap leaves every eligible frame
        idle, and a turn that starts with an idle eligible frame and room in the swap
        cannot fail. A success costs exactly the lost pages of the victim their bytes. */
    method ReclaimOneFrame() returns (ok: bool, ghost victim: nat)
      requires Valid()
      modifies this`frames, this`slots, this`ram, this`pages, this`clockHand
      ensures Valid() && Reclaimed(old(State()), State(), ok, victim)
      ensures old(NoneTakeable(State())) ==> !ok && clockHand == old(clockHand)
      ensures !old(NoneTakeable(State())) ==>
                && FirstTakeable(old(State()), old(clockHand), victim)
                && clockHand == (if victim + 1 == |frames| then 0 else victim + 1)
                && (ok <==> old(Discardable(State(), victim) || !SwapFull(State())))
    {
      ghost var m := State();
      ghost var start := clockHand;
      var total := |frames|;
      var scanned := 0;
      SweepStart(m, start);
      while scanned < total
        invariant AtPosition(m, State(), start, scanned, clockHand)
      {
        var outcome, f := TurnHand(m, start, scanned);
        if !outcome.Skipped? {
          return outcome.Freed?, f;
        }
        scanned := scanned + 1;
      }
      SweepEmpty(m, State(), start);
      return false, 0;
    }

    method GetUsedPageCount() returns (used: nat)
      ensures used == UsedCount(frames)
    {
      used := 0;
      for i := 0 to |frames|
        invariant used == UsedCount(frames[..i])
      {
        assert frames[..i + 1][..i] == frames[..i];
        if frames[i].used { used := used + 1; }
      }
      assert frames[..|frames|] == frames;
    }

    /** Terminates because each success frees one frame and failures in a row are few. It
        stops short of the watermark only when no frame can go or the swap is full, and does
        nothing at all without a swap area. */
    method ReclaimUntilLowWatermark()
      requires Valid()
      modifies this
      ensures Valid() && ViewsDrift(old(State()), State()) && Undisturbed(old(State()), State())
      ensures UsedCount(frames) * 100 <= |frames| * RECLAIM_LOW_WATERMARK_PERCENT
              || SwapFull(State()) || forall f: nat :: !Eligible(State(), f)
      ensures Recedes(old(State()), State())
      ensures UsedCount(frames) == old(UsedCount(frames))
              || (UsedCount(frames) + 1) * 100 > |frames| * RECLAIM_LOW_WATERMARK_PERCENT
      ensures old(slots) == [] ==> State() == old(State()) && clockHand == old(clockHand)
      ensures reclaiming == if old(slots) == [] then old(reclaiming) else false
    {
      ghost var m := State();
      SteadyRefl(m);
      if |slots| == 0 { return; }
      var total := |frames|;
      reclaiming := true;
      var scannedRounds := 0;
      var used := GetUsedPageCount();
      while used * 100 > total * RECLAIM_LOW_WATERMARK_PERCENT
        invariant Valid() && ViewsDrift(m, State()) && Undisturbed(m, State()) && Recedes(m, State())
        invariant used == UsedCount(frames) && |frames| == total
        invariant used == UsedCount(m.frames) || (used + 1) * 100 > total * RECLAIM_LOW_WATERMARK_PERCENT
        invariant scannedRounds <= 2
        invariant Stalled(State(), scannedRounds)
        decreases used, 3 - scannedRounds
      {
        ghost var before := State();
        var ok, victim := ReclaimOneFrame();
        ReclaimTurn(m, before, State(), ok, victim, scannedRounds);
        scannedRounds := if ok then 0 else scannedRounds + 1;
        if scannedRounds > 2 { break; }
        used := GetUsedPageCount();
      }
      reclaiming := false;
    }

    /** PageManager.AllocatePages(1): the lowest free frame. */
    method TakeLowestFrame() returns (r: Option<nat>)
      requires Valid()
      modifies this`frames
      ensures r.None? <==> forall f: nat :: f < |old(frames)| ==> old(frames)[f].used
      ensures r.None? ==> frames == old(frames)
      ensures r.Some? ==> r.value < |old(frames)| && !old(frames)[r.value].used
      ensures r.Some? ==> State() == TakeFrame(old(State()), r.value)
      ensures r.Some? ==> forall f: nat :: f < r.value ==> old(frames)[f].used
    {
      for f := 0 to |frames|
        invariant frames == old(frames)
        invariant forall g: nat :: g < f ==> frames[g].used
      {
        if !frames[f].used {
          frames := frames[f := FREE_FRAME.(used := true)];
          return Some(f);
        }
      }
      return None;
    }

    /** A frame without reclaim. */
    method TakePage() returns (r: Option<nat>)
      requires Valid()
      modifies this`frames
      ensures Valid() && ViewsDrift(old(State()), State()) && Undisturbed(old(State()), State())
      ensures r.Some? ==> 0 < r.value < |frames| && frames[r.value].used && frames[r.value].mapCount == 0
      ensures r.Some? ==> r.value < |old(frames)| && !old(frames)[r.value].used
      ensures r.Some? ==> TookOne(old(State()), State(), r.value)
      ensures r.None? ==> AllUsed(frames) && frames == old(frames)
      ensures r.Some? ==> State() == TakeFrame(old(State()), r.value)
      ensures r.Some? ==> forall f: nat :: f < r.value ==> old(frames)[f].used
    {
      ghost var a := State();
      SteadyRefl(a);
      r := TakeLowestFrame();
      if r.Some? {
        TakeFrameSteady(a, r.value);
        SteadyIsDrift(a, State());
        SamePagesKeepVpn(a, State());
        TakenUndisturbed(a, r.value);
      }
    }

    /** AllocatePage's reclaim, before or between its searches. */
    method ReclaimIf(needed: bool)
      requires Valid()
      modifies this
      ensures Valid() && ViewsDrift(old(State()), State()) && Undisturbed(old(State()), State())
      ensures Recedes(old(State()), State()) && (!old(reclaiming) ==> !reclaiming)
      ensures needed ==>
                || UsedCount(frames) * 100 <= |frames| * RECLAIM_LOW_WATERMARK_PERCENT
                || SwapFull(State()) || forall f: nat :: !Eligible(State(), f)
      ensures !needed ==> State() == old(State()) && reclaiming == old(reclaiming)
    {
      SteadyRefl(State());
      if needed {
        ReclaimUntilLowWatermark();
      }
    }

    /** A search, after a reclaim if one is due. */
    method Search(reclaim: bool) returns (r: Option<nat>)
      requires Valid()
      modifies this
      ensures Valid() && ViewsDrift(old(State()), State()) && Undisturbed(old(State()), State())
      ensures r.Some? ==> 0 < r.value < |frames| && frames[r.value].used && frames[r.value].mapCount == 0
      ensures r.Some? && r.value < |old(frames)| ==> !old(frames[r.value].pinned)
      ensures r.Some? ==> TookOne(old(State()), State(), r.value)
      ensures r.None? ==> AllUsed(frames) && AllUsed(old(frames)) && Recedes(old(State()), State())
      ensures r.None? && reclaim ==> SwapFull(State()) || forall f: nat :: !Eligible(State(), f)
      ensures !reclaim ==> reclaiming == old(reclaiming) && (r.None? <==> old(AllUsed(frames)))
      ensures !reclaim && r.Some? ==>
                && r.value < |old(frames)| && State() == TakeFrame(old(State()), r.value)
                && forall f: nat :: f < r.value ==> old(frames)[f].used
      ensures !old(reclaiming) ==> !reclaiming
    {
      ghost var m := State();
      ReclaimIf(reclaim);
      ghost var a := State();
      r := TakePage();
      DriftTrans(m, a, State());
      UndisturbedTrans(m, a, State());
      if r.None? { UsedCountAll(frames); }
    }

    /** The frame handed out is mapped by nobody; reclaim may have run, but what the caller
        may rely on stays put. Below the high watermark it is the lowest free frame and
        nothing else happens; it fails only when reclaim finds nothing to give back. */
    method AllocatePage() returns (r: Option<nat>)
      requires Valid()
      modifies this
      ensures Valid() && ViewsDrift(old(State()), State()) && Undisturbed(old(State()), State())
      ensures r.Some? ==> 0 < r.value < |frames| && frames[r.value].used && frames[r.value].mapCount == 0
      ensures r.Some? && r.value < |old(frames)| ==> !old(frames[r.value].pinned)
      ensures r.Some? ==> TookOne(old(State()), State(), r.value)
      ensures r.None? ==> AllUsed(frames) && AllUsed(old(frames)) && Recedes(old(State()), State())
      ensures r.None? ==> old(reclaiming) || SwapFull(State()) || forall f: nat :: !Eligible(State(), f)
      ensures !old(reclaiming) ==> !reclaiming
      ensures old(reclaiming || (UsedCount(frames) + 1) * 100 < |frames| * RECLAIM_HIGH_WATERMARK_PERCENT)
              && !old(AllUsed(frames)) ==>
                && r.Some? && r.value < |old(frames)| && State() == TakeFrame(old(State()), r.value)
                && forall f: nat :: f < r.value ==> old(frames)[f].used
    {
      ghost var m := State();
      var used := GetUsedPageCount();
      r := Search(!reclaiming && (used + 1) * 100 >= |frames| * RECLAIM_HIGH_WATERMARK_PERCENT);
      if r.None? && !reclaiming {
        ghost var b := State();
        r := Search(true);
        DriftTrans(m, b, State());
        UndisturbedTrans(m, b, State());
      }
    }

    // ------------------------------------------------------------ page faults

    /** Zero, file or copied contents for a frame nobody maps yet. */
    method Fill(f: nat, page: Page)
      requires Valid() && 0 < f < |frames| && frames[f].mapCount == 0
      modifies this`ram
      ensures Valid() && f < |old(ram)| && State() == FillFrame(old(State()), f, page)
      ensures ViewsSteady(old(State()), State())
    {
      FillFrameSteady(State(), f, page);
      SamePagesKeepVpn(State(), FillFrame(State(), f, page));
      ram := ram[f := page];
    }

    /** A private writable mapping of a frame nobody maps yet. */
    method AttachOwnFrame(p: PageId, f: nat)
      requires Valid() && p in pages && pages[p].state.Reserved?
      requires 0 < f < |frames| && frames[f].used && frames[f].mapCount == 0
      modifies this`frames, this`pages
      ensures Valid() && ViewsSteadyBut(old(State()), State(), p)
      ensures State() == Attach(old(State()), p, f, true, false, false)
      ensures InBounds(State(), p) && View(State(), p) == ram[f]
    {
      ghost var m := State();
      AttachOwnFrameSteady(m, p, f);
      AttachFrame(p, f, true, false, false);
    }

    /** ShareAsCopyOnWrite and AttachFrame on the zero page. */
    method ShareZeroPage(p: PageId)
      requires p in pages && !pages[p].state.Resident? && 0 < |frames|
      modifies this`frames, this`pages
      ensures State() == PagingState.MapZeroPage(old(State()), p)
    {
      frames := frames[0 := ShareAsCopyOnWrite(frames[0])];
      AttachFrame(p, 0, false, true, true);
    }

    /** The zero page, shared once more; it is what the page read before. */
    method MapZeroPageForCopyOnWrite(p: PageId) returns (ok: bool)
      requires Valid() && p in pages && pages[p].state.Reserved? && pages[p].initial == ZeroPage()
      modifies this`frames, this`pages
      ensures Valid() && ViewsSteady(old(State()), State())
      ensures ok <==> CanShare(old(frames)[0])
      ensures ok ==> pages[p].state.Resident? && pages[p].frame == 0 && !pages[p].pte.rw
      ensures SameFrames(old(State()), State())
      ensures old(Tidy(State(), 0)) ==> Tidy(State(), 0)
      ensures !ok ==> State() == old(State())
    {
      ghost var m := State();
      SteadyRefl(m);
      if frames[0].cowRef == MAX_COUNT { return false; }
      MapZeroPageSteady(m, p);
      ShareZeroPage(p);
      return true;
    }

    /** The mapping half of swapping page p in, once frame f holds its contents.
        RegisterResident never refuses here, so its undo path is unreachable. */
    method MapSwappedPage(p: PageId, f: nat)
      requires InBounds(State(), p) && pages[p].state.Swapped? && pages[p].slot.Some? && f < |frames|
      requires CanRegister(slots[pages[p].slot.value], f)
      modifies this`frames, this`slots, this`pages
      ensures State() == SwapIn(old(State()), p, f)
    {
      var s := pages[p].slot.value;
      var slotMapCount := slots[s].mapCount;
      var cow := pages[p].swappedCow && slotMapCount > 1;
      AttachFrame(p, f, !cow, false, cow);
      var registered := RegisterResident(s, f);
      if cow {
        frames := frames[f := SetCopyOnWriteRefCount(frames[f], slotMapCount)];
      }
      pages := pages[p := pages[p].(slot := Some(s), swappedCow := false)];
    }

    /** A new frame filled from the slot of a swapped page. */
    method FillFromSlot(p: PageId) returns (r: Option<nat>)
      requires Valid() && InBounds(State(), p) && pages[p].state.Swapped? && pages[p].slot.Some?
      requires slots[pages[p].slot.value].used && slots[pages[p].slot.value].residentFrame.None?
      modifies this
      ensures Valid() && ViewsDrift(old(State()), State())
      ensures InBounds(State(), p) && pages[p] == old(pages)[p]
      ensures r.Some? ==> HoldsSwappedPage(State(), p, r.value)
      ensures PinsReceded(old(State()), State())
      ensures r.None? ==> AllUsed(frames) && AllUsed(old(frames)) && Recedes(old(State()), State())
      ensures r.None? ==> old(reclaiming) || SwapFull(State()) || forall f: nat :: !Eligible(State(), f)
      ensures r.Some? ==> TookOne(old(State()), State(), r.value)
      ensures !old(reclaiming) ==> !reclaiming
    {
      ghost var m := State();
      r := AllocatePage();
      InBoundsStays(m, State(), p);
      if r.None? { return; }
      ghost var a := State();
      Fill(r.value, slots[pages[p].slot.value].data);
      SteadyIsDrift(a, State());
      DriftTrans(m, a, State());
      InvBounds(State(), 0, 0, p);
    }

    /** The frame a swapped page is to come back in: the slot's, or a new one filled from
        the slot. */
    method FrameForSwapped(p: PageId) returns (r: Option<nat>)
      requires Valid() && InBounds(State(), p) && pages[p].state.Swapped? && pages[p].slot.Some?
      modifies this
      ensures Valid() && ViewsDrift(old(State()), State())
      ensures InBounds(State(), p) && pages[p] == old(pages)[p]
      ensures r.Some? ==> HoldsSwappedPage(State(), p, r.value)
      ensures PinsReceded(old(State()), State())
      ensures r.None? ==> AllUsed(frames) && AllUsed(old(frames))
      ensures r.None? ==> old(reclaiming) || SwapFull(State()) || forall f: nat :: !Eligible(State(), f)
      ensures var s := old(pages)[p].slot.value;
              old(slots)[s].residentFrame.Some? ==> r == old(slots)[s].residentFrame && State() == old(State())
      ensures old(Tidy(State(), 0)) ==> Tidy(State(), if r.Some? then r.value else 0)
      ensures !old(reclaiming) ==> !reclaiming
    {
      SteadyRefl(State());
      var s := pages[p].slot.value;
      assert PageOk(State(), p) && SlotOk(State(), s, Extra(0, 0, s));
      if slots[s].residentFrame.Some? {
        return slots[s].residentFrame;
      }
      ghost var m := State();
      r := FillFromSlot(p);
      AllocatedTidy(m, State(), r);
    }

    /** Page p moves onto frame f, which holds what it should read. */
    method MapIn(p: PageId, f: nat)
      requires Valid() && InBounds(State(), p) && pages[p].state.Swapped? && pages[p].slot.Some?
      requires HoldsSwappedPage(State(), p, f)
      modifies this`frames, this`slots, this`pages
      ensures Valid() && ViewsSteadyBut(old(State()), State(), p) && SameView(old(State()), State(), p)
      ensures pages[p].state.Resident? && !pages[p].pte.dirty && !pages[p].pte.accessed
      ensures !old(pages)[p].swappedCow ==> pages[p].pte.rw
      ensures PinsReceded(old(State()), State())
      ensures SameFrames(old(State()), State()) && pages[p].frame == f
      ensures old(Tidy(State(), f)) ==> Tidy(State(), 0)
    {
      SwapInSteady(State(), p, f);
      if Tidy(State(), f) { SwapInTidy(State(), p, f); }
      MapSwappedPage(p, f);
    }

    /** Swap-in of page p. A page of the executable that differs from the file loses its guard. */
    method SwapInPage(p: PageId) returns (ok: bool)
      requires Valid() && InBounds(State(), p) && pages[p].state.Swapped? && pages[p].slot.Some?
      modifies this
      ensures Valid() && ViewsDriftBut(old(State()), State(), p)
      ensures !old(Altered(State(), p)) ==> ViewsDrift(old(State()), State())
      ensures ok ==> p in pages && pages[p].state.Resident? && !pages[p].pte.dirty && !pages[p].pte.accessed
      ensures ok && !old(pages)[p].swappedCow ==> pages[p].pte.rw
      ensures PinsReceded(old(State()), State())
      ensures !ok ==> AllUsed(frames) && AllUsed(old(frames))
      ensures !ok ==> old(reclaiming) || SwapFull(State()) || forall f: nat :: !Eligible(State(), f)
      ensures old(AtHand(State(), p)) ==>
                ok && SameFrames(old(State()), State()) && pages[p].frame == old(FrameAtHand(State(), p))
      ensures old(Tidy(State(), 0)) ==> Tidy(State(), 0)
      ensures !old(reclaiming) ==> !reclaiming
    {
      ghost var m := State();
      var f := FrameForSwapped(p);
      ghost var b := State();
      if f.None? {
        DriftIsBut(m, b, p);
        return false;
      }
      MapIn(p, f.value);
      SwappedInDrifts(m, b, State(), p);
      return true;
    }

    /** Brings page p in from wherever it is; what every process reads is unchanged. */
    method EnsurePagePresent(p: PageId) returns (ok: bool)
      requires Valid()
      modifies this
      ensures Valid() && ViewsDriftBut(old(State()), State(), p)
      ensures !old(Altered(State(), p)) ==> ViewsDrift(old(State()), State())
      ensures ok ==> p in pages && pages[p].state.Resident?
      ensures p !in pages ==> !ok
      ensures !ok && p in old(pages) ==> Exhausted(State(), p, old(reclaiming))
      ensures old(p in pages && pages[p].state.Resident?) ==> State() == old(State())
      ensures old(AtHand(State(), p)) ==>
                ok && SameFrames(old(State()), State()) && pages[p].frame == old(FrameAtHand(State(), p))
      ensures old(Tidy(State(), 0)) ==> Tidy(State(), 0)
      ensures !old(reclaiming) ==> !reclaiming
    {
      ghost var m := State();
      SteadyRefl(m);
      DriftIsBut(m, m, p);
      if p !in pages { return false; }
      InvBounds(m, 0, 0, p);
      assert PageOk(m, p);
      match pages[p].state {
        case Resident => return true;
        case Swapped =>
          ok := SwapInPage(p);
        case Reserved =>
          ok := FirstTouch(p);
          DriftIsBut(m, State(), p);
      }
    }

    /** The first access to a page: zeros shared copy-on-write, or the page of the file. */
    method FirstTouch(p: PageId) returns (ok: bool)
      requires Valid() && p in pages && pages[p].state.Reserved?
      modifies this
      ensures Valid() && ViewsDrift(old(State()), State())
      ensures ok ==> p in pages && pages[p].state.Resident?
      ensures !ok ==> Exhausted(State(), p, old(reclaiming))
      ensures old(AtHand(State(), p)) ==> ok && SameFrames(old(State()), State()) && pages[p].frame == 0
      ensures old(Tidy(State(), 0)) ==> Tidy(State(), 0)
      ensures !old(reclaiming) ==> !reclaiming
    {
      ghost var m := State();
      assert PageOk(m, p);
      if pages[p].backing.ZeroFill? {
        ok := MapZeroPageForCopyOnWrite(p);
        SteadyIsDrift(m, State());
      } else {
        ok := LoadOwnPage(p, pages[p].initial);
      }
    }

    method FillAndAttach(p: PageId, f: nat, page: Page)
      requires Valid() && p in pages && pages[p].state.Reserved? && pages[p].initial == page
      requires 0 < f < |frames| && frames[f].used && frames[f].mapCount == 0
      modifies this`ram, this`frames, this`pages
      ensures Valid() && ViewsSteady(old(State()), State()) && f < |old(State()).ram|
      ensures State() == Attach(FillFrame(old(State()), f, page), p, f, true, false, false)
      ensures old(Tidy(State(), f)) ==> Tidy(State(), 0)
    {
      ghost var m := State();
      InvBounds(m, 0, 0, p);
      Fill(f, page);
      ghost var b := State();
      if Tidy(m, f) { AttachTidy(b, p, f, true); }
      AttachOwnFrame(p, f);
      forall q | q in m.pages ensures Steady(m, State(), q) {
        assert Steady(m, b, q);
        if q != p { assert Steady(b, State(), q); }
      }
    }

    /** AllocatePage, fill, AttachFrame: the executable-file branch of EnsurePagePresent
        and AllocateZeroedPage, which exec uses for the stack. */
    method LoadOwnPage(p: PageId, page: Page) returns (ok: bool)
      requires Valid() && p in pages && pages[p].state.Reserved? && pages[p].initial == page
      modifies this
      ensures Valid() && ViewsDrift(old(State()), State())
      ensures ok ==> p in pages && pages[p].state.Resident? && pages[p].pte.rw
      ensures !ok ==> AllUsed(frames) && pages[p] == old(pages)[p]
      ensures !ok ==> old(reclaiming) || SwapFull(State()) || forall f: nat :: !Eligible(State(), f)
      ensures old(Tidy(State(), 0)) ==> Tidy(State(), 0)
      ensures !old(reclaiming) ==> !reclaiming
    {
      ghost var m := State();
      InvBounds(m, 0, 0, p);
      var r := AllocatePage();
      InBoundsStays(m, State(), p);
      ghost var a := State();
      AllocatedTidy(m, a, r);
      if r.None? { return false; }
      FillAndAttach(p, r.value, page);
      SteadyIsDrift(a, State());
      DriftTrans(m, a, State());
      return true;
    }

    /** The last reference becomes writable in place. */
    method MakeLastWritable(p: PageId)
      requires Valid() && p in pages && pages[p].state.Resident? && pages[p].frame < |frames|
      requires frames[pages[p].frame].cowRef <= 1
      modifies this`pages, this`frames
      ensures Valid() && ViewsDriftBut(old(State()), State(), p) && SameView(old(State()), State(), p)
      ensures InBounds(old(State()), p) && SoleUser(old(State()), p)
      ensures pages == old(pages)[p := old(pages)[p].(pte := old(pages)[p].pte.(rw := true))]
      ensures SameFrames(old(State()), State()) && PinsReceded(old(State()), State())
      ensures old(Tidy(State(), 0)) ==> Tidy(State(), 0)
    {
      ghost var m := State();
      var f := pages[p].frame;
      InvBounds(m, 0, 0, p);
      MakeWritableSteady(m, p);
      pages := pages[p := pages[p].(pte := pages[p].pte.(rw := true))];
      frames := frames[f := frames[f].(cowRef := 0, cow := false)];
      SteadyButIsDriftBut(m, State(), p);
    }

    /** A write to a read-only mapping: the last reference becomes writable in place,
        any other copy gets a frame of its own; nobody reads anything new. Until the store
        that follows, a page of the executable may be without its guard. */
    method HandleCopyOnWriteFault(p: PageId) returns (ok: bool)
      requires Valid()
      modifies this
      ensures Valid() && ViewsDriftBut(old(State()), State(), p)
      ensures p in pages ==> SameView(old(State()), State(), p)
      ensures !ok ==> ViewsDrift(old(State()), State())
      ensures ok ==> p in pages && pages[p].state.Resident? && pages[p].pte.rw
      ensures ok ==> old(p in pages && pages[p].state.Resident? && !pages[p].pte.rw)
      ensures ok && old(p in pages && pages[p].state.Resident? && pages[p].frame < |frames| &&
                        frames[pages[p].frame].cowRef <= 1)
              ==> InBounds(old(State()), p) && SoleUser(old(State()), p)
      ensures !ok && old(p in pages && pages[p].state.Resident? && !pages[p].pte.rw) ==>
                AllUsed(frames) && AllUsed(old(frames)) && Exhausted(State(), p, old(reclaiming))
      ensures old(LastReference(State(), p) && !pages[p].pte.rw) ==>
                ok && SameFrames(old(State()), State()) && slots == old(slots) && pages[p].frame == old(pages)[p].frame
      ensures ok && !old(LastReference(State(), p)) ==> pages[p].frame != old(pages)[p].frame
      ensures old(Tidy(State(), 0)) ==> Tidy(State(), 0)
      ensures !old(reclaiming) ==> !reclaiming
      ensures ok ==> OlderBits(old(State()), State(), p) && PinsReceded(old(State()), State())
    {
      ghost var m := State();
      SteadyRefl(m);
      DriftIsBut(m, m, p);
      assert p in pages ==> Steady(m, m, p);
      if p !in pages || !pages[p].state.Resident? || pages[p].pte.rw { return false; }
      InvBounds(m, 0, 0, p);
      var f := pages[p].frame;
      assert PageOk(m, p) && FrameOk(m, f) && OnFrame(m, p, f);
      var refCount := frames[f].cowRef;
      if (refCount == 0 && !frames[f].cow) || refCount == 1 {
        MakeLastWritable(p);
        return true;
      }
      ok := SplitPage(p);
    }

    /** AllocatePage with frame f pinned, so that reclaim cannot take it meanwhile. */
    method AllocateKeeping(f: nat) returns (r: Option<nat>)
      requires Valid() && f < |frames| && frames[f].mapCount != 0
      modifies this
      ensures Valid() && KeptAside(old(State()), State(), f)
      ensures r.Some? ==> 0 < r.value < |frames| && r.value != f
      ensures r.Some? ==> frames[r.value].used && frames[r.value].mapCount == 0
      ensures r.Some? ==> TookOne(old(State()), State(), r.value)
      ensures r.None? ==> AllUsed(frames) && AllUsed(old(frames)) && Recedes(old(State()), State())
      ensures r.None? ==> old(reclaiming) || Barren(State(), f)
      ensures !old(reclaiming) ==> !reclaiming
    {
      ghost var m := State();
      assert FrameOk(m, f) && FrameOk(m, 0);
      if frames[f].pinned {
        r := AllocatePage();
        PinnedPagesStay(m, State(), f);
        return r;
      }
      SetPinnedSteady(m, f, true);
      frames := frames[f := frames[f].(pinned := true)];
      assert State() == SetPinned(m, f, true);
      r := AllocatePage();
      ghost var b := State();
      UnpinKeeps(m, b, f);
      if r.Some? { UnpinTook(m, b, f, r.value); } else { UnpinReceded(m, b, f); }
      frames := frames[f := frames[f].(pinned := false)];
      assert State() == SetPinned(b, f, false);
    }

    /** The copying half of HandleCopyOnWriteFault. */
    method SplitPage(p: PageId) returns (ok: bool)
      requires Valid() && p in pages && pages[p].state.Resident? && !pages[p].pte.rw
      modifies this
      ensures Valid() && ViewsDriftBut(old(State()), State(), p) && SameView(old(State()), State(), p)
      ensures !ok ==> ViewsDrift(old(State()), State())
      ensures ok ==> p in pages && pages[p].state.Resident? && pages[p].pte.rw
      ensures !ok ==> AllUsed(frames) && AllUsed(old(frames))
      ensures ok ==> !pages[p].pte.dirty && !pages[p].pte.accessed && PinsReceded(old(State()), State())
      ensures ok ==> pages[p].frame != old(pages)[p].frame
      ensures !ok ==> Exhausted(State(), p, old(reclaiming))
      ensures old(Tidy(State(), 0)) ==> Tidy(State(), 0)
      ensures !old(reclaiming) ==> !reclaiming
    {
      ghost var m := State();
      InvBounds(m, 0, 0, p);
      var f := pages[p].frame;
      assert FrameOk(m, f) && OnFrame(m, p, f);
      var r := AllocateKeeping(f);
      ghost var a := State();
      DriftIsBut(m, a, p);
      assert SameView(m, a, p);
      AllocatedTidy(m, a, r);
      if r.None? { return false; }
      CopyAndSwitch(p, r.value);
      SteadyButIsDriftBut(a, State(), p);
      DriftThenBut(m, a, State(), p);
      return true;
    }

    /** CopyPage, DetachFrame from the shared frame and AttachFrame to the copy. */
    method CopyAndSwitch(p: PageId, newPage: nat)
      requires Valid() && p in pages && pages[p].state.Resident? && pages[p].frame < |frames| == |ram|
      requires 0 < newPage < |frames| && newPage != pages[p].frame
      requires frames[newPage].used && frames[newPage].mapCount == 0
      modifies this`ram, this`frames, this`slots, this`pages
      ensures Valid() && ViewsSteadyBut(old(State()), State(), p) && SameView(old(State()), State(), p)
      ensures p in pages && pages[p].state.Resident? && pages[p].pte.rw && pages[p].frame == newPage
      ensures !pages[p].pte.dirty && !pages[p].pte.accessed && PinsReceded(old(State()), State())
      ensures old(Tidy(State(), newPage)) ==> Tidy(State(), 0)
    {
      CopyStep(State(), p, newPage);
      ram := ram[newPage := ram[pages[p].frame]];
      DetachFrame(p);
      AttachFrame(p, newPage, true, false, false);
    }

    // ------------------------------------------------------------------ fork

    /** The body of CloneFrom's loop. */
    method CloneLayoutOf(p: PageId, q: PageId)
      requires InBounds(State(), p) && p != q
      modifies this`slots, this`pages
      ensures State() == CloneMeta(old(State()), p, q)
    {
      var info := pages[p];
      pages := pages[q := PageInfo(Reserved, info.swappedCow, 0, None, NO_PTE, info.backing, info.initial)];
      if info.state.Swapped? && info.slot.Some? {
        pages := pages[q := pages[q].(state := Swapped, slot := info.slot)];
        slots := slots[info.slot.value := AddSlotReference(slots[info.slot.value])];
      }
    }

    /** CloneFrom: layout and slot references, no frames. */
    method CloneFrom(parent: nat, child: nat)
      requires Valid() && child != parent && child < NPROC
      requires forall q :: q in pages ==> q.pid != child
      modifies this`slots, this`pages
      ensures LayoutCloned(old(State()), State(), parent, child, USER_PAGE_COUNT) && Sheltered(old(State()), State())
      ensures frames == old(frames)
    {
      ghost var m := State();
      CloneStart(m, parent, child);
      for v := 0 to USER_PAGE_COUNT
        invariant frames == m.frames && ram == m.ram
        invariant LayoutCloned(m, State(), parent, child, v) && Sheltered(m, State())
      {
        var p, q := PageId(parent, v), PageId(child, v);
        if p in pages {
          LayoutAdvance(m, State(), parent, child, v);
          ShelterLayout(m, State(), p, q);
          CloneLayoutOf(p, q);
        } else {
          LayoutSkip(m, State(), parent, child, v);
        }
      }
    }

    /** CloneResidentPagesFrom: share the frames copy-on-write. Refused when a share
        counter is saturated, which NewProc turns into a panic. */
    method CloneResidentPagesFrom(parent: nat, child: nat, ghost m: Mem) returns (ok: bool)
      requires Good(m) && LayoutCloned(m, State(), parent, child, USER_PAGE_COUNT) && Sheltered(m, State())
      requires child != parent && child < NPROC && forall q :: q in m.pages ==> q.pid != child
      modifies this`frames, this`slots, this`pages
      ensures ok ==> Copied(m, State(), parent, child) && Sheltered(m, State())
      ensures !ok && ForkSafe(m, parent) ==> Saturated(State(), parent)
      ensures !HasResident(m, parent) ==> ok && frames == old(frames)
      ensures ok && old(Tidy(State(), 0)) ==> Tidy(State(), 0)
    {
      FramesStart(m, State(), parent, child);
      for v := 0 to USER_PAGE_COUNT
        invariant FramesCloned(m, State(), parent, child, v) && Sheltered(m, State())
        invariant !HasResident(m, parent) ==> frames == old(frames)
        invariant old(Tidy(State(), 0)) ==> Tidy(State(), 0)
      {
        ok := ShareNext(parent, child, v, m);
        if !ok { return; }
      }
      return true;
    }

    /** One page of the parent. */
    method ShareNext(parent: nat, child: nat, v: nat, ghost m: Mem) returns (ok: bool)
      requires Good(m) && FramesCloned(m, State(), parent, child, v) && Sheltered(m, State()) && v < USER_PAGE_COUNT
      requires child != parent && child < NPROC && forall q :: q in m.pages ==> q.pid != child
      modifies this`frames, this`slots, this`pages
      ensures ok ==> FramesCloned(m, State(), parent, child, v + 1) && Sheltered(m, State())
      ensures !ok && ForkSafe(m, parent) ==> Saturated(State(), parent)
      ensures !HasResident(m, parent) ==> ok && frames == old(frames)
      ensures ok && old(Tidy(State(), 0)) ==> Tidy(State(), 0)
    {
      var p, q := PageId(parent, v), PageId(child, v);
      if p !in pages || !pages[p].state.Resident? {
        FramesSkip(m, State(), parent, child, v);
        return true;
      }
      ghost var n := State();
      assert LayoutCopied(m, n, p, q) && InBounds(n, p);
      ok := ShareResidentPage(p, q);
      if !ok {
        if ForkSafe(m, parent) { RefusedIsSaturated(n, p, q); }
        return;
      }
      if Tidy(n, 0) { ForkTidy(n, p, q); }
      FramesAdvance(m, n, parent, child, v);
      ShelterFrame(m, n, p, q);
    }

    /** The body of CloneResidentPagesFrom's loop. */
    method ShareResidentPage(p: PageId, q: PageId) returns (ok: bool)
      requires InBounds(State(), p) && pages[p].state.Resident? && q in pages && q != p && pages[q].state.Reserved?
      modifies this`frames, this`slots, this`pages
      ensures ok ==> CanShare(old(frames)[old(pages)[p].frame]) && State() == ForkResident(old(State()), p, q)
      ensures !CanShare(old(frames)[old(pages)[p].frame]) ==> !ok && State() == old(State())
      ensures !ok && CanShare(old(frames)[old(pages)[p].frame]) ==>
                && old(pages)[p].slot.Some?
                && !CanRegister(AddSlotReference(old(slots)[old(pages)[p].slot.value]), old(pages)[p].frame)
    {
      var info := pages[p];
      var f := info.frame;
      if frames[f].cowRef == MAX_COUNT { return false; }
      frames := frames[f := ShareAsCopyOnWrite(frames[f])];
      pages := pages[p := info.(pte := info.pte.(rw := false))];
      if info.slot.Some? {
        slots := slots[info.slot.value := AddSlotReference(slots[info.slot.value])];
      }
      AttachFrame(q, f, false, false, true);
      if info.slot.Some? {
        var registered := RegisterResident(info.slot.value, f);
        if !registered {
          DetachFrame(q);
          ReleaseSlotReference(info.slot.value);
          return false;
        }
        pages := pages[q := pages[q].(slot := info.slot)];
      }
      return true;
    }

    /** The two clone calls of NewProc back to back. */
    method CloneBoth(parent: nat, child: nat) returns (ok: bool)
      requires Valid() && child != parent && child < NPROC
      requires forall q :: q in pages ==> q.pid != child
      modifies this`frames, this`slots, this`pages
      ensures ok ==> Copied(old(State()), State(), parent, child) && Sheltered(old(State()), State())
      ensures !HasResident(old(State()), parent) ==> ok && frames == old(frames)
      ensures ok && old(Tidy(State(), 0)) ==> Tidy(State(), 0)
      ensures !ok && old(ForkSafe(State(), parent)) ==> Saturated(State(), parent)
    {
      ghost var m := State();
      CloneFrom(parent, child);
      ok := CloneResidentPagesFrom(parent, child, m);
    }

    /** With every swapped page of the parent marked, the child starts with the parent's
        contents and nobody else notices; with an unmarked one the sharing invariant is lost. */
    method Fork(parent: nat, child: nat) returns (ok: bool)
      requires Valid() && child != parent && child < NPROC
      requires forall q :: q in pages ==> q.pid != child
      modifies this`frames, this`slots, this`pages
      ensures ok && old(ForkSafe(State(), parent)) ==> Valid() && Forked(old(State()), State(), parent, child)
      ensures ok && old(ForkSafe(State(), parent)) ==>
                && (forall q :: q in old(pages) && old(Guarded(State(), q)) ==> Guarded(State(), q))
                && (forall q :: q in pages && q !in old(pages) ==> Guarded(State(), q))
      ensures ok ==> (old(ForkSafe(State(), parent)) <==> Inv(State()))
      ensures ok ==> Copied(old(State()), State(), parent, child)
      ensures !HasResident(old(State()), parent) ==> ok && frames == old(frames)
      ensures ok && old(Tidy(State(), 0)) ==> Tidy(State(), 0)
      ensures !ok && old(ForkSafe(State(), parent)) ==> Saturated(State(), parent)
    {
      ghost var m := State();
      ok := CloneBoth(parent, child);
      if ok { ForkEnds(m, State(), parent, child); }
    }

    // ---------------------------------- stores, page tables, heap and exit

    /** The processor's store: it happens only through a present, writable mapping. */
    method Store(p: PageId, off: nat, b: byte) returns (ok: bool)
      requires Valid() && off < PAGE_SIZE
      modifies this`ram, this`pages
      ensures Valid() && ViewsSteadyBut(old(State()), State(), p)
      ensures ok <==> p in old(pages) && old(pages)[p].pte.present && old(pages)[p].pte.rw
      ensures !ok ==> State() == old(State())
      ensures ok ==> InBounds(old(State()), p) && InBounds(State(), p) && Guarded(State(), p)
      ensures ok ==> View(State(), p) == View(old(State()), p)[off := b]
      ensures ok ==> old(pages)[p].state.Resident? && State() == StoreByte(old(State()), p, off, b)
    {
      ghost var m := State();
      SteadyRefl(m);
      if p !in pages || !pages[p].pte.present || !pages[p].pte.rw { return false; }
      assert PageOk(m, p);
      StoreByteSteady(m, p, off, b);
      var f := pages[p].frame;
      ram := ram[f := ram[f][off := b]];
      pages := pages[p := pages[p].(pte := pages[p].pte.(accessed := true, dirty := true))];
      return true;
    }

    /** The faults of a user store: page in, then copy on write. */
    method MakeStorable(p: PageId) returns (ok: bool)
      requires Valid()
      modifies this
      ensures Valid() && ViewsDriftBut(old(State()), State(), p)
      ensures ok ==> p in pages && pages[p].pte.present && pages[p].pte.rw
      ensures !ok && !old(Altered(State(), p)) ==> ViewsDrift(old(State()), State())
      ensures !ok && p in old(pages) ==> Exhausted(State(), p, old(reclaiming))
      ensures old(StoresInPlace(State(), p)) ==>
                ok && SameFrames(old(State()), State()) && slots == old(slots) && pages[p].frame == old(pages)[p].frame
      ensures old(Tidy(State(), 0)) ==> Tidy(State(), 0)
      ensures !old(reclaiming) ==> !reclaiming
    {
      ghost var m := State();
      ok := EnsurePagePresent(p);
      if !ok { return; }
      if !pages[p].pte.rw {
        ghost var a := State();
        ok := HandleCopyOnWriteFault(p);
        StorableDrifts(m, a, State(), p);
        if !ok && !Altered(m, p) { DriftTrans(m, a, State()); }
      }
      if ok { assert PageOk(State(), p); }
    }

    /** A user store with the faults it may take. */
    method UserWrite(p: PageId, off: nat, b: byte) returns (ok: bool)
      requires Valid() && off < PAGE_SIZE
      modifies this
      ensures Valid() && pages.Keys == old(pages).Keys
      ensures forall q :: q in old(pages) && q != p ==> Drift(old(State()), State(), q)
      ensures !ok ==> ViewsDriftBut(old(State()), State(), p)
      ensures !ok && !old(Altered(State(), p)) ==> ViewsDrift(old(State()), State())
      ensures ok ==> p in old(pages) && InBounds(old(State()), p) && Guarded(State(), p)
      ensures ok ==> pages[p].backing == old(pages)[p].backing && pages[p].initial == old(pages)[p].initial
      ensures ok && old(Guarded(State(), p)) ==> View(State(), p) == View(old(State()), p)[off := b]
      ensures !ok && p in old(pages) ==> Exhausted(State(), p, old(reclaiming))
      ensures old(StoresInPlace(State(), p)) ==>
                && ok && StoredInPlace(old(State()), State(), p, off, b)
      ensures old(Tidy(State(), 0)) ==> Tidy(State(), 0)
      ensures !old(reclaiming) ==> !reclaiming
    {
      ghost var m := State();
      ok := MakeStorable(p);
      if !ok { return; }
      ghost var n := State();
      ok := Store(p, off, b);
      assert Loose(m, n, p);
      forall q | q in m.pages && q != p ensures Drift(m, State(), q) { assert Drift(m, n, q) && Steady(n, State(), q); }
    }

    /** One entry of ClearPageTables and RemapResidentPages. */
    method RemapEntry(p: PageId)
      requires InBounds(State(), p)
      modifies this`pages
      ensures State() == RemapPage(old(State()), p)
    {
      pages := pages[p := pages[p].(pte :=
        if pages[p].state.Resident? then Pte(true, frames[pages[p].frame].cowRef == 0, pages[p].frame, false, false)
        else NO_PTE)];
    }

    /** BuildPageTablesForImage. */
    method BuildPageTablesForImage(pid: nat)
      requires Valid()
      modifies this`pages
      ensures Valid() && ViewsKept(old(State()), State()) && frames == old(frames)
      ensures forall q :: q in pages && q.pid != pid && old(Guarded(State(), q)) ==> Guarded(State(), q)
      ensures forall q :: q in pages && q.pid == pid && q.vpn < USER_PAGE_COUNT ==> Rebuilt(old(State()), State(), q)
    {
      ghost var m := State();
      RebuildStarts(m, pid);
      for v := 0 to USER_PAGE_COUNT
        invariant Valid() && frames == m.frames
        invariant Rebuilding(m, State(), pid, v)
      {
        var p := PageId(pid, v);
        if p in pages {
          RebuildAdvances(m, State(), pid, v);
          RemapEntry(p);
        }
      }
      RebuildEnds(m, State(), pid);
    }

    /** FreePageInfo: the page lets go of its frame or slot. */
    method FreePageInfo(p: PageId)
      requires Valid() && p in pages
      modifies this`frames, this`slots, this`pages
      ensures Valid() && ViewsSteadyBut(old(State()), State(), p) && pages[p].state.Reserved?
      ensures old(Tidy(State(), 0)) ==> Tidy(State(), 0)
    {
      ghost var m := State();
      SteadyRefl(m);
      InvBounds(m, 0, 0, p);
      assert PageOk(m, p);
      match pages[p].state {
        case Resident =>
          DetachSteady(m, p);
          if Tidy(m, 0) { DetachTidy(m, p, 0); }
          DetachFrame(p);
        case Swapped =>
          DropSwappedSteady(m, p);
          ReleaseSlotReference(pages[p].slot.value);
          pages := pages[p := pages[p].(state := Reserved, frame := 0, slot := None)];
        case Reserved =>
      }
    }

    /** FreePageInfo and ClearPageInfo: the page leaves the process. */
    method DropPage(p: PageId)
      requires Valid()
      modifies this`frames, this`slots, this`pages
      ensures Valid() && pages.Keys == old(pages).Keys - {p}
      ensures forall q :: q in pages ==> Steady(old(State()), State(), q)
      ensures old(Tidy(State(), 0)) ==> Tidy(State(), 0)
    {
      ghost var m := State();
      SteadyRefl(m);
      if p !in pages { return; }
      FreePageInfo(p);
      ghost var n := State();
      RemovePageStep(n, p);
      pages := pages - {p};
      OthersSteady(n, State());
      forall q | q in pages ensures Steady(m, State(), q) { assert Steady(m, n, q) && Steady(n, State(), q); }
    }

    /** Gives pages [lo, hi) of a process back. */
    method DropRange(pid: nat, lo: nat, hi: nat)
      requires Valid() && lo <= hi
      modifies this`frames, this`slots, this`pages
      ensures Valid() && pages.Keys == old(pages).Keys - Range(pid, lo, hi)
      ensures ViewsOnCommon(old(State()), State())
      ensures old(Tidy(State(), 0)) ==> Tidy(State(), 0)
    {
      ghost var m := State();
      SteadyRefl(m);
      for v := lo to hi
        invariant Valid() && pages.Keys == m.pages.Keys - Range(pid, lo, v)
        invariant ViewsOnCommon(m, State()) && (Tidy(m, 0) ==> Tidy(State(), 0))
      {
        ghost var n := State();
        DropPage(PageId(pid, v));
        assert Range(pid, lo, v + 1) == Range(pid, lo, v) + {PageId(pid, v)};
        CommonTrans(m, n, State());
      }
    }

    /** A page of a region backed by the executable, and what the file has there. */
    method AddExecPage(p: PageId, page: Page)
      requires Valid() && p.pid < NPROC && p.vpn < USER_PAGE_COUNT && p !in pages
      modifies this`pages
      ensures Valid() && pages.Keys == old(pages).Keys + {p}
      ensures InBounds(State(), p) && View(State(), p) == page && pages[p].backing.ExecFile? && Guarded(State(), p)
      ensures State() == AddPage(old(State()), p, false, ExecFile, page)
      ensures forall q :: q in old(pages) ==> Steady(old(State()), State(), q)
    {
      AddPageStep(State(), p, false, ExecFile, page);
      OthersSteady(State(), AddPage(State(), p, false, ExecFile, page));
      pages := pages[p := PageInfo(Reserved, false, 0, None, NO_PTE, ExecFile, page)];
    }

    /** InitializeReservedPageInfo on a new zero-filled page. */
    method AddZeroPage(p: PageId)
      requires Valid() && p.pid < NPROC && p.vpn < USER_PAGE_COUNT && p !in pages
      modifies this`pages
      ensures Valid() && pages.Keys == old(pages).Keys + {p} && ReadsZero(State(), p)
      ensures State() == AddPage(old(State()), p, false, ZeroFill, ZeroPage())
      ensures forall q :: q in old(pages) ==> Steady(old(State()), State(), q)
    {
      AddPageStep(State(), p, false, ZeroFill, ZeroPage());
      OthersSteady(State(), AddPage(State(), p, false, ZeroFill, ZeroPage()));
      pages := pages[p := PageInfo(Reserved, false, 0, None, NO_PTE, ZeroFill, ZeroPage())];
    }

    /** Registers pages [lo, hi) of a process as reserved, zero-filled. */
    method AddRange(pid: nat, lo: nat, hi: nat)
      requires Valid() && pid < NPROC && lo <= hi <= USER_PAGE_COUNT && Range(pid, lo, hi) !! pages.Keys
      modifies this`pages
      ensures Valid() && pages.Keys == old(pages).Keys + Range(pid, lo, hi)
      ensures forall q :: q in old(pages) ==> Steady(old(State()), State(), q)
      ensures forall q :: q in Range(pid, lo, hi) ==> ReadsZero(State(), q)
    {
      ghost var m := State();
      SteadyRefl(m);
      for v := lo to hi
        invariant Valid() && pages.Keys == m.pages.Keys + Range(pid, lo, v)
        invariant forall q :: q in m.pages ==> Steady(m, State(), q)
        invariant forall q :: q in Range(pid, lo, v) ==> ReadsZero(State(), q)
      {
        ghost var n := State();
        var p := PageId(pid, v);
        assert p in Range(pid, lo, hi) && p !in Range(pid, lo, v);
        AddZeroPage(p);
        RangeAdded(m, n, State(), pid, lo, v);
      }
    }

    /** SetHeapBreak on the pages of the heap: grow with reserved zero-filled pages or
        give back the pages above the new break. */
    method SetHeapPages(pid: nat, oldEnd: nat, newEnd: nat)
      requires Valid() && pid < NPROC && newEnd <= USER_PAGE_COUNT
      requires oldEnd <= newEnd ==> Range(pid, oldEnd, newEnd) !! pages.Keys
      modifies this`frames, this`slots, this`pages
      ensures Valid() && ViewsOnCommon(old(State()), State())
      ensures old(Tidy(State(), 0)) ==> Tidy(State(), 0)
      ensures pages.Keys == if newEnd < oldEnd then old(pages).Keys - Range(pid, newEnd, oldEnd)
                            else old(pages).Keys + Range(pid, oldEnd, newEnd)
      ensures oldEnd <= newEnd ==> forall q :: q in Range(pid, oldEnd, newEnd) ==> ReadsZero(State(), q)
    {
      if newEnd < oldEnd { DropRange(pid, newEnd, oldEnd); }
      else { AddRange(pid, oldEnd, newEnd); }
    }

    /** ReleaseResidentPages and Release at exit: every page of the process goes, and
        nothing any other process reads changes. */
    method Exit(pid: nat)
      requires Valid()
      modifies this`frames, this`slots, this`pages
      ensures Valid() && ViewsOnCommon(old(State()), State())
      ensures old(Tidy(State(), 0)) ==> Tidy(State(), 0)
      ensures forall q :: q in pages <==> q in old(pages) && q.pid != pid
    {
      assert forall q :: q in pages && q.pid == pid ==> q in Range(pid, 0, USER_PAGE_COUNT);
      DropRange(pid, 0, USER_PAGE_COUNT);
    }
  }

  /** Page p lets go of its frame and takes frame f. */
  lemma SwitchStep(m: Mem, p: PageId, f: nat)
    requires Good(m) && p in m.pages && m.pages[p].state.Resident? && m.pages[p].frame < |m.frames|
    requires 0 < f < |m.frames| && f != m.pages[p].frame && m.frames[f].used && m.frames[f].mapCount == 0
    ensures InBounds(m, p)
    ensures var n := Attach(Detach(m, p), p, f, true, false, false);
            && Good(n) && ViewsSteadyBut(m, n, p) && InBounds(n, p) && View(n, p) == m.ram[f]
            && PinsReceded(m, n) && (Tidy(m, f) ==> Tidy(n, 0))
  {
    DetachSteady(m, p);
    var b := Detach(m, p);
    AttachOwnFrameSteady(b, p, f);
    SteadyButTrans(m, b, Attach(b, p, f, true, false, false), p);
    if Tidy(m, f) {
      DetachTidy(m, p, f);
      AttachTidy(b, p, f, true);
    }
  }

  /** ... which was given a copy of its bytes. */
  lemma CopyStep(m: Mem, p: PageId, f: nat)
    requires Good(m) && p in m.pages && m.pages[p].state.Resident? && m.pages[p].frame < |m.frames| == |m.ram|
    requires 0 < f < |m.frames| && f != m.pages[p].frame && m.frames[f].used && m.frames[f].mapCount == 0
    ensures var a := FillFrame(m, f, m.ram[m.pages[p].frame]);
            && InBounds(a, p)
            && var n := Attach(Detach(a, p), p, f, true, false, false);
               && Good(n) && ViewsSteadyBut(m, n, p) && SameView(m, n, p)
               && PinsReceded(m, n) && (Tidy(m, f) ==> Tidy(n, 0))
  {
    var a := FillFrame(m, f, m.ram[m.pages[p].frame]);
    InvBounds(m, 0, 0, p);
    FillFrameSteady(m, f, m.ram[m.pages[p].frame]);
    SamePagesKeepVpn(m, a);
    assert View(a, p) == View(m, p);
    SwitchStep(a, p, f);
    SteadyThenBut(m, a, Attach(Detach(a, p), p, f, true, false, false), p);
  }

  /** Frame f, the pages on it and its bytes have stayed. */
  ghost predicate KeptAside(m: Mem, n: Mem, f: nat) {
    && ViewsDrift(m, n) && PinsReceded(m, n)
    && f < |n.frames| == |m.frames| && n.frames[f] == m.frames[f]
    && f < |n.ram| == |m.ram| && n.ram[f] == m.ram[f]
    && forall p :: p in m.pages && OnFrame(m, p, f) ==> n.pages[p] == m.pages[p]
  }

  /** Reclaim finds nothing to take besides frame f. */
  ghost predicate Barren(m: Mem, f: nat) {
    SwapFull(m) || forall g: nat :: Eligible(m, g) ==> g == f
  }

  lemma UnpinKeeps(m: Mem, b: Mem, f: nat)
    requires Good(m) && 0 < f < |m.frames| && m.frames[f].used && !m.frames[f].pinned
    requires Good(SetPinned(m, f, true)) && ViewsSteady(m, SetPinned(m, f, true))
    requires Good(b) && ViewsDrift(SetPinned(m, f, true), b) && Undisturbed(SetPinned(m, f, true), b)
    requires PinsReceded(SetPinned(m, f, true), b)
    ensures f < |b.frames| && Good(SetPinned(b, f, false)) && KeptAside(m, SetPinned(b, f, false), f)
  {
    var a := SetPinned(m, f, true);
    PinnedPagesStay(a, b, f);
    SteadyIsDrift(m, a);
    DriftTrans(m, a, b);
    SetPinnedSteady(b, f, false);
    SteadyIsDrift(b, SetPinned(b, f, false));
    DriftTrans(m, b, SetPinned(b, f, false));
  }

  lemma UnpinTook(m: Mem, b: Mem, f: nat, r: nat)
    requires f < |m.frames| && !m.frames[f].pinned && r != f
    requires TookOne(SetPinned(m, f, true), b, r) && f < |b.frames|
    ensures TookOne(m, SetPinned(b, f, false), r)
  {
  }

  lemma UnpinReceded(m: Mem, b: Mem, f: nat)
    requires f < |m.frames| && !m.frames[f].pinned && f < |b.frames| && Recedes(SetPinned(m, f, true), b)
    requires AllUsed(b.frames) && AllUsed(SetPinned(m, f, true).frames)
    ensures Recedes(m, SetPinned(b, f, false)) && AllUsed(m.frames) && AllUsed(SetPinned(b, f, false).frames)
    ensures SwapFull(b) || (forall g: nat :: !Eligible(b, g)) ==> Barren(SetPinned(b, f, false), f)
  {
    var a, n := SetPinned(m, f, true), SetPinned(b, f, false);
    forall g: nat | g < |m.frames| ensures m.frames[g].used && n.frames[g].used {
      assert a.frames[g].used && b.frames[g].used;
    }
    forall g: nat | Eligible(n, g) && g != f ensures Eligible(b, g) {}
  }

  /** The sweep goes on, or ends at the first frame that could be taken. */
  lemma HandTurned(m: Mem, n: Mem, o: Mem, start: nat, scanned: nat, f: nat, outcome: Outcome)
    requires Good(m) && Sweeping(m, n, start, scanned) && start < |m.frames| && scanned < |m.frames|
    requires f == (if start + scanned < |m.frames| then start + scanned else start + scanned - |m.frames|)
    requires Turned(n, o, f, outcome)
    ensures if outcome.Skipped? then Sweeping(m, o, start, scanned + 1) else Reclaimed(m, o, outcome.Freed?, f)
    ensures !outcome.Skipped? ==> FirstTakeable(m, start, f) && (outcome.Freed? <==> Discardable(m, f) || !SwapFull(m))
  {
    if outcome.Skipped? {
      SweepOn(m, n, o, start, scanned, f);
    } else {
      SweepStops(m, n, o, start, scanned, f, outcome);
      StopsAtFirst(m, n, start, scanned, f);
      AgedDiscardable(m, n, f);
    }
  }

  lemma ReclaimTurn(m: Mem, n: Mem, o: Mem, ok: bool, victim: nat, rounds: nat)
    requires Inv(m) && Inv(n) && ViewsDrift(m, n) && Undisturbed(m, n) && Recedes(m, n) && Stalled(n, rounds)
    requires Reclaimed(n, o, ok, victim)
    ensures ViewsDrift(m, o) && Undisturbed(m, o) && Recedes(m, o)
    ensures UsedCount(o.frames) == UsedCount(n.frames) - if ok then 1 else 0
    ensures Stalled(o, if ok then 0 else rounds + 1)
  {
    ReclaimRecedes(n, o, ok, victim);
    DriftTrans(m, n, o);
    UndisturbedTrans(m, n, o);
    if ok {
      UsedCountFreed(n.frames, o.frames, victim);
    } else {
      StallsOn(n, o, rounds, victim);
    }
  }

  lemma AgedDiscardable(m: Mem, n: Mem, f: nat)
    requires OnlyAgedSince(m, n) && f < |m.frames|
    ensures Discardable(m, f) <==> Discardable(n, f)
    ensures SwapFull(m) <==> SwapFull(n)
  {
  }

  /** Sharing page p is refused for nothing but its frame's counter. */
  lemma RefusedIsSaturated(n: Mem, p: PageId, q: PageId)
    requires Good(n) && p in n.pages && n.pages[p].state.Resident? && q in n.pages && n.pages[q].state.Reserved?
    requires InBounds(n, p) && q != p && q.vpn == p.vpn && q.pid < NPROC
    ensures !CanShare(n.frames[n.pages[p].frame]) ==> Saturated(n, p.pid)
    ensures n.pages[p].slot.Some? && CanShare(n.frames[n.pages[p].frame]) ==>
              CanRegister(AddSlotReference(n.slots[n.pages[p].slot.value]), n.pages[p].frame)
  {
    ForkResidentGood(n, p, q);
  }

  lemma ForkEnds(m: Mem, n: Mem, parent: nat, child: nat)
    requires Good(m) && Copied(m, n, parent, child) && Sheltered(m, n)
    ensures ForkSafe(m, parent) <==> Inv(n)
    ensures ForkSafe(m, parent) ==> Good(n) && Forked(m, n, parent, child) && |n.frames| == |m.frames|
    ensures ForkSafe(m, parent) ==>
              && (forall q :: q in m.pages && Guarded(m, q) ==> Guarded(n, q))
              && (forall q :: q in n.pages && q !in m.pages ==> Guarded(n, q))
  {
    ForkDone(m, n, parent, child);
    if ForkSafe(m, parent) { ShelteredGuards(m, n); }
  }

  lemma RangeAdded(m: Mem, n: Mem, o: Mem, pid: nat, lo: nat, v: nat)
    requires lo <= v && n.pages.Keys == m.pages.Keys + Range(pid, lo, v) && ReadsZero(o, PageId(pid, v))
    requires forall q :: q in m.pages ==> Steady(m, n, q)
    requires forall q :: q in Range(pid, lo, v) ==> ReadsZero(n, q)
    requires forall q :: q in n.pages ==> Steady(n, o, q)
    ensures Range(pid, lo, v + 1) == Range(pid, lo, v) + {PageId(pid, v)}
    ensures forall q :: q in m.pages ==> Steady(m, o, q)
    ensures forall q :: q in Range(pid, lo, v + 1) ==> ReadsZero(o, q)
  {
    RangeNext(pid, lo, v);
    forall q | q in m.pages ensures Steady(m, o, q) { assert Steady(m, n, q) && Steady(n, o, q); }
    forall q | q in Range(pid, lo, v) ensures ReadsZero(o, q) { StaysZero(n, o, q); }
  }

  lemma RangeNext(pid: nat, lo: nat, v: nat)
    requires lo <= v
    ensures Range(pid, lo, v + 1) == Range(pid, lo, v) + {PageId(pid, v)}
  {
  }

  lemma StaysZero(n: Mem, o: Mem, q: PageId)
    requires ReadsZero(n, q) && Steady(n, o, q)
    ensures ReadsZero(o, q)
  {
  }
}
