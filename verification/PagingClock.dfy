/** The clock that reclaims frames, and what a turn, a sweep and a fault may change. */
module PagingClock {
  import opened Common
  import opened PagingState
  import opened PagingInvariant
  import opened PagingSteps
  import opened PagingSharing
  import opened PagingBookkeeping
  import opened PagingGuards

  const RECLAIM_HIGH_WATERMARK_PERCENT: nat := 80
  const RECLAIM_LOW_WATERMARK_PERCENT: nat := 70

  function UsedCount(frames: seq<Frame>): (c: nat)
    ensures c <= |frames|
  {
    if frames == [] then 0
    else UsedCount(frames[..|frames| - 1]) + (if frames[|frames| - 1].used then 1 else 0)
  }

  /** Freeing one used frame lowers the count by one. */
  lemma {:induction false} UsedCountFreed(a: seq<Frame>, b: seq<Frame>, v: nat)
    requires |a| == |b|
    requires forall g: nat :: g < |a| && g != v ==> a[g].used == b[g].used
    requires v < |a| ==> a[v].used && !b[v].used
    ensures UsedCount(b) == UsedCount(a) - (if v < |a| then 1 else 0)
  {
    if a != [] {
      var k := |a| - 1;
      UsedCountFreed(a[..k], b[..k], v);
    }
  }

  /** A frame the clock may take, and one whose mappings were not used lately. */
  ghost predicate Eligible(m: Mem, f: nat) {
    f < |m.frames| && m.frames[f].mapCount != 0 && !m.frames[f].zero && !m.frames[f].pinned
  }

  ghost predicate Idle(m: Mem, f: nat)
    requires f < |m.frames|
  {
    forall p :: p in m.frames[f].rmap && p in m.pages ==> !m.pages[p].pte.accessed
  }

  /** A frame that the clock takes when its hand comes by, if it may drop it or swap has room. */
  ghost predicate Takeable(m: Mem, f: nat) {
    Eligible(m, f) && Idle(m, f)
  }

  /** How many positions frame g is ahead of the hand. */
  function Ahead(hand: nat, g: nat, total: nat): nat
    requires hand < total && g < total
  {
    if g >= hand then g - hand else g + total - hand
  }

  /** Frame v is the first one ahead of the hand that can be taken. */
  ghost predicate FirstTakeable(m: Mem, hand: nat, v: nat) {
    && hand < |m.frames| && Takeable(m, v)
    && forall g: nat :: Takeable(m, g) ==> Ahead(hand, v, |m.frames|) <= Ahead(hand, g, |m.frames|)
  }

  ghost predicate NoneTakeable(m: Mem) {
    forall g: nat :: !Takeable(m, g)
  }

  /** The clock has passed frame g within `scanned` positions from `start`. */
  ghost predicate Passed(start: nat, scanned: nat, total: nat, g: nat) {
    (start <= g < start + scanned && g < total) || g < start + scanned - total
  }

  /** What a sweep has made of frame g: whatever it passed had been used and no longer
      counts as used, and what lies ahead is as it was. */
  ghost predicate FrameSwept(m: Mem, n: Mem, start: nat, scanned: nat, g: nat) {
    && g < |m.frames| && g < |n.frames| && (Idle(m, g) ==> Idle(n, g))
    && (Eligible(m, g) ==>
          if Passed(start, scanned, |m.frames|, g) then Idle(n, g) && !Idle(m, g) else Idle(n, g) <==> Idle(m, g))
  }

  /** A sweep in progress changed accessed bits only. */
  ghost predicate Sweeping(m: Mem, n: Mem, start: nat, scanned: nat) {
    && n.frames == m.frames && n.slots == m.slots
    && Good(n) && ViewsSteady(m, n) && OnlyAgedSince(m, n) && Undisturbed(m, n)
    && forall g: nat :: g < |m.frames| ==> FrameSwept(m, n, start, scanned, g)
  }

  ghost predicate SwapFull(m: Mem) {
    forall s: nat :: s < |m.slots| ==> m.slots[s].used
  }

  /** Freeing frame f cost exactly the lost pages their bytes. */
  ghost predicate OnlyLost(m: Mem, n: Mem, f: nat)
    requires f < |m.frames|
  {
    forall q :: q in m.pages ==> (SameView(m, n, q) <==> !Lost(m, f, q))
  }

  datatype Outcome = Skipped | Freed | NoSlot

  /** What one position of the clock hand may do. */
  ghost predicate Turned(m: Mem, n: Mem, f: nat, o: Outcome)
    requires f < |m.frames|
  {
    && Good(n) && ViewsDrift(m, n) && Undisturbed(m, n)
    && (o.Skipped? <==> !Takeable(m, f))
    && (o.Freed? <==> Takeable(m, f) && (Discardable(m, f) || !SwapFull(m)))
    && match o
       case Skipped =>
         && ViewsSteady(m, n) && OnlyAgedSince(m, n)
         && (forall g: nat :: g < |m.frames| && Idle(m, g) ==> Idle(n, g))
         && (forall g: nat :: g < |m.frames| && g != f && Idle(n, g) ==> Idle(m, g))
         && (Eligible(m, f) ==> Idle(n, f) && !Idle(m, f))
       case Freed =>
         && m.frames[f].used && n.frames == m.frames[f := n.frames[f]] && !n.frames[f].used
         && OnlyLost(m, n, f)
       case NoSlot => SwapFull(m) && n == m
  }

  /** The outcome of one ReclaimOneFrame. */
  ghost predicate Reclaimed(m: Mem, n: Mem, ok: bool, victim: nat) {
    && Good(n) && ViewsDrift(m, n) && Undisturbed(m, n)
    && (ok ==> victim < |m.frames| && m.frames[victim].used && n.frames == m.frames[victim := n.frames[victim]]
               && !n.frames[victim].used && OnlyLost(m, n, victim))
    && (!ok ==> n.frames == m.frames && n.slots == m.slots && ViewsSteady(m, n))
    && (!ok && !SwapFull(n) ==> forall f: nat :: Eligible(m, f) ==> Idle(n, f) && !Idle(m, f))
  }

  lemma NextHand(h: nat, total: nat)
    requires h < total
    ensures (h + 1) % total == if h + 1 == total then 0 else h + 1
  {
  }

  lemma SweepStart(m: Mem, start: nat)
    requires Good(m) && start < |m.frames|
    ensures Sweeping(m, m, start, 0)
  {
    SteadyRefl(m);
  }

  lemma SweptOn(m: Mem, n: Mem, o: Mem, start: nat, scanned: nat, f: nat, g: nat)
    requires Sweeping(m, n, start, scanned) && f < |m.frames| && Turned(n, o, f, Skipped)
    requires start < |m.frames| && scanned < |m.frames| && g < |m.frames|
    requires f == (if start + scanned < |m.frames| then start + scanned else start + scanned - |m.frames|)
    ensures FrameSwept(m, o, start, scanned + 1, g)
  {
    assert FrameSwept(m, n, start, scanned, g);
    assert Passed(start, scanned + 1, |m.frames|, g) <==> g == f || Passed(start, scanned, |m.frames|, g);
    assert Eligible(n, g) <==> Eligible(m, g);
  }

  lemma SweptAged(m: Mem, n: Mem, o: Mem)
    requires OnlyAgedSince(m, n) && OnlyAgedSince(n, o)
    ensures OnlyAgedSince(m, o)
  {
  }

  lemma SweepOn(m: Mem, n: Mem, o: Mem, start: nat, scanned: nat, f: nat)
    requires Good(m) && Sweeping(m, n, start, scanned) && f < |m.frames|
    requires start < |m.frames| && scanned < |m.frames|
    requires f == (if start + scanned < |m.frames| then start + scanned else start + scanned - |m.frames|)
    requires Turned(n, o, f, Skipped)
    ensures Sweeping(m, o, start, scanned + 1)
  {
    SteadyTrans(m, n, o);
    UndisturbedTrans(m, n, o);
    SweptAged(m, n, o);
    var next := scanned + 1;
    forall g: nat | g < |m.frames| ensures FrameSwept(m, o, start, next, g) {
      SweptOn(m, n, o, start, scanned, f, g);
    }
  }

  lemma SweepStops(m: Mem, n: Mem, o: Mem, start: nat, scanned: nat, f: nat, outcome: Outcome)
    requires Good(m) && Sweeping(m, n, start, scanned) && f < |m.frames| && !outcome.Skipped?
    requires Turned(n, o, f, outcome)
    ensures Reclaimed(m, o, outcome.Freed?, f)
  {
    SteadyIsDrift(m, n);
    DriftTrans(m, n, o);
    UndisturbedTrans(m, n, o);
    if outcome.Freed? {
      forall q | q in m.pages ensures SameView(m, o, q) <==> !Lost(m, f, q) {
        AgedLost(m, n, f, q);
        assert Steady(m, n, q) && Drift(n, o, q);
      }
    }
  }

  /** Where the sweep stops is the first frame that could be taken when it began. */
  lemma StopsAtFirst(m: Mem, n: Mem, start: nat, scanned: nat, f: nat)
    requires Sweeping(m, n, start, scanned) && start < |m.frames| && scanned < |m.frames| && Takeable(n, f)
    requires f == (if start + scanned < |m.frames| then start + scanned else start + scanned - |m.frames|)
    ensures FirstTakeable(m, start, f)
  {
    assert Eligible(m, f) && FrameSwept(m, n, start, scanned, f) && !Passed(start, scanned, |m.frames|, f);
    forall g: nat | Takeable(m, g) ensures Ahead(start, f, |m.frames|) <= Ahead(start, g, |m.frames|) {
      assert FrameSwept(m, n, start, scanned, g) && !Passed(start, scanned, |m.frames|, g);
    }
  }

  lemma SweptNone(m: Mem, n: Mem, start: nat)
    requires Sweeping(m, n, start, |m.frames|) && start < |m.frames|
    ensures NoneTakeable(m)
  {
    forall g: nat | Eligible(m, g) ensures !Idle(m, g) {
      assert FrameSwept(m, n, start, |m.frames|, g) && Passed(start, |m.frames|, |m.frames|, g);
    }
  }

  lemma AgedLost(m: Mem, n: Mem, f: nat, q: PageId)
    requires OnlyAgedSince(m, n) && f < |m.frames|
    ensures Lost(m, f, q) <==> Lost(n, f, q)
  {
  }

  lemma SweepFails(m: Mem, n: Mem, start: nat)
    requires Sweeping(m, n, start, |m.frames|) && start < |m.frames|
    ensures Reclaimed(m, n, false, 0)
  {
    SteadyIsDrift(m, n);
    forall g: nat | Eligible(m, g) ensures Idle(n, g) && !Idle(m, g) {
      assert FrameSwept(m, n, start, |m.frames|, g) && Passed(start, |m.frames|, |m.frames|, g);
    }
  }

  /** How a sweep from `start` ended: at the first frame that could be taken when it
      began, with the hand behind it, or back at the start when there was none. */
  ghost predicate SweepEnd(m: Mem, n: Mem, start: nat, hand: nat, ok: bool, victim: nat) {
    && Reclaimed(m, n, ok, victim)
    && (NoneTakeable(m) ==> !ok && hand == start)
    && (!NoneTakeable(m) ==>
          && FirstTakeable(m, start, victim) && hand == (if victim + 1 == |m.frames| then 0 else victim + 1)
          && (ok <==> Discardable(m, victim) || !SwapFull(m)))
  }

  /** The hand after `scanned` positions of a sweep from `start`. */
  ghost predicate AtPosition(m: Mem, n: Mem, start: nat, scanned: nat, hand: nat) {
    && Good(m) && Sweeping(m, n, start, scanned) && start < |m.frames| && scanned <= |m.frames|
    && hand == if start + scanned < |m.frames| then start + scanned else start + scanned - |m.frames|
  }

  lemma SweepEmpty(m: Mem, n: Mem, start: nat)
    requires Sweeping(m, n, start, |m.frames|) && start < |m.frames|
    ensures SweepEnd(m, n, start, start, false, 0)
  {
    SweepFails(m, n, start);
    SweptNone(m, n, start);
  }

  /** After `rounds` failed turns in a row. */
  ghost predicate Stalled(m: Mem, rounds: nat) {
    && (rounds >= 1 && !SwapFull(m) ==> forall f: nat :: Eligible(m, f) ==> Idle(m, f))
    && (rounds >= 2 && !SwapFull(m) ==> forall f: nat :: !Eligible(m, f))
  }

  lemma StallsOn(m: Mem, n: Mem, rounds: nat, victim: nat)
    requires Stalled(m, rounds) && Reclaimed(m, n, false, victim)
    ensures Stalled(n, rounds + 1)
  {
    forall f: nat | Eligible(n, f) ensures Eligible(m, f) {}
  }

  lemma SamePagesKeepVpn(m: Mem, n: Mem)
    requires SameVpn(m) && n.pages == m.pages
    ensures SameVpn(n)
  {
    forall p, q, f: nat | OnFrame(n, p, f) && OnFrame(n, q, f) && f != 0 ensures p.vpn == q.vpn {
      assert OnFrame(m, p, f) && OnFrame(m, q, f);
    }
    forall p, q, s: nat | Names(n, p, s) && Names(n, q, s) ensures p.vpn == q.vpn {
      assert Names(m, p, s) && Names(m, q, s);
    }
  }

  /** A frame that is not in use is not pinned either. */
  lemma TakenUndisturbed(m: Mem, f: nat)
    requires Inv(m) && f < |m.frames| && !m.frames[f].used
    ensures Undisturbed(m, TakeFrame(m, f))
  {
    assert FrameOk(m, f);
  }

  lemma PinnedPagesStay(m: Mem, n: Mem, f: nat)
    requires Inv(m) && Undisturbed(m, n) && f < |m.frames| && m.frames[f].pinned
    ensures forall p :: OnFrame(m, p, f) ==> p in n.pages && n.pages[p] == m.pages[p]
  {
    forall p | OnFrame(m, p, f) ensures n.pages[p] == m.pages[p] { InvBounds(m, 0, 0, p); }
  }

  /** Clearing accessed bits one page after the other. */
  function AgedPages(pages: map<PageId, PageInfo>, ps: seq<PageId>): (r: map<PageId, PageInfo>)
    requires forall p :: p in ps ==> p in pages
    ensures r.Keys == pages.Keys
    ensures forall p :: p in pages ==>
              r[p] == if p in ps then pages[p].(pte := pages[p].pte.(accessed := false)) else pages[p]
  {
    if ps == [] then pages
    else
      var k := |ps| - 1;
      assert ps == ps[..k] + [ps[k]];
      var before := AgedPages(pages, ps[..k]);
      before[ps[k] := before[ps[k]].(pte := before[ps[k]].pte.(accessed := false))]
  }

  /** Frames have been given back, and the others are as they were. */
  ghost predicate Recedes(m: Mem, n: Mem) {
    && |n.frames| == |m.frames|
    && forall f: nat :: f < |m.frames| ==> n.frames[f] == m.frames[f] || (!n.frames[f].used && !n.frames[f].pinned)
  }

  lemma ReclaimRecedes(m: Mem, n: Mem, ok: bool, victim: nat)
    requires Reclaimed(m, n, ok, victim)
    ensures Recedes(m, n)
  {
    if ok { assert FrameOk(n, victim); }
  }

  ghost predicate PinsReceded(m: Mem, n: Mem) {
    |n.frames| == |m.frames| && forall f: nat :: f < |m.frames| && n.frames[f].pinned ==> m.frames[f].pinned
  }

  /** The entry of page p has no bit set that it did not have before. */
  ghost predicate OlderBits(m: Mem, n: Mem, p: PageId) {
    && p in m.pages && p in n.pages
    && (n.pages[p].pte.dirty ==> m.pages[p].pte.dirty) && (n.pages[p].pte.accessed ==> m.pages[p].pte.accessed)
  }

  /** Page q is swapped out, without the copy-on-write mark if it was private. */
  ghost predicate SwappedOut(n: Mem, q: PageId, private: bool) {
    q in n.pages && n.pages[q].state.Swapped? && (private ==> !n.pages[q].swappedCow)
  }

  /** Frame f has been put to use, and others at most given back. */
  ghost predicate TookOne(m: Mem, n: Mem, f: nat) {
    && |n.frames| == |m.frames| && (f < |n.frames| ==> !n.frames[f].pinned)
    && forall g: nat :: g < |m.frames| && g != f ==>
         n.frames[g] == m.frames[g] || (!n.frames[g].used && !n.frames[g].pinned)
  }

  /** Reclaim leaves the record of a page that is not resident alone. */
  lemma InBoundsStays(m: Mem, n: Mem, p: PageId)
    requires Undisturbed(m, n) && InBounds(m, p) && !m.pages[p].state.Resident? && Inv(n)
    ensures n.pages[p] == m.pages[p] && InBounds(n, p)
  {
    InvBounds(n, 0, 0, p);
  }

  /** Every mapping of frame f is aged. */
  lemma AgedOnly(m: Mem, ps: seq<PageId>)
    requires forall p :: p in ps ==> p in m.pages
    ensures OnlyAgedSince(m, m.(pages := AgedPages(m.pages, ps)))
  {
    var r := AgedPages(m.pages, ps);
    assert forall p :: p in m.pages ==> r[p] == m.pages[p].(pte := m.pages[p].pte.(accessed := r[p].pte.accessed));
  }

  lemma AgedFrame(m: Mem, f: nat)
    requires Good(m) && f < |m.frames|
    ensures forall p :: p in m.frames[f].rmap ==> p in m.pages
    ensures var n := m.(pages := AgedPages(m.pages, m.frames[f].rmap));
            OnlyAgedSince(m, n) && Good(n) && ViewsSteady(m, n)
  {
    assert forall p :: p in m.frames[f].rmap ==> p in m.pages by {
      assert FrameOk(m, f);
      assert forall p :: p in m.frames[f].rmap ==> OnFrame(m, p, f);
    }
    AgedOnly(m, m.frames[f].rmap);
    AgedSteady(m, m.(pages := AgedPages(m.pages, m.frames[f].rmap)));
  }

  lemma AgedIdle(m: Mem, f: nat)
    requires f < |m.frames| && forall p :: p in m.frames[f].rmap ==> p in m.pages
    ensures var n := m.(pages := AgedPages(m.pages, m.frames[f].rmap));
            Idle(n, f) && forall g: nat :: g < |m.frames| && Idle(m, g) ==> Idle(n, g)
  {
  }

  /** On the other frames the bits stay. */
  lemma AgedElsewhere(m: Mem, f: nat)
    requires Inv(m) && f < |m.frames| && forall p :: p in m.frames[f].rmap ==> p in m.pages
    ensures var n := m.(pages := AgedPages(m.pages, m.frames[f].rmap));
            forall g: nat :: g < |m.frames| && g != f && Idle(n, g) ==> Idle(m, g)
  {
    var n := m.(pages := AgedPages(m.pages, m.frames[f].rmap));
    forall g: nat | g < |m.frames| && g != f && Idle(n, g) ensures Idle(m, g) {
      assert FrameOk(m, f) && FrameOk(m, g);
      forall p | p in m.frames[g].rmap && p in m.pages ensures !m.pages[p].pte.accessed {
        assert OnFrame(m, p, g) && !OnFrame(m, p, f);
      }
    }
  }

  lemma AgedUndisturbed(m: Mem, f: nat)
    requires Good(m) && f < |m.frames| && !m.frames[f].pinned
    requires forall p :: p in m.frames[f].rmap ==> p in m.pages
    ensures Undisturbed(m, m.(pages := AgedPages(m.pages, m.frames[f].rmap)))
  {
    assert FrameOk(m, f);
    assert forall p :: p in m.frames[f].rmap ==> OnFrame(m, p, f);
  }

  ghost function Range(pid: nat, lo: nat, hi: nat): set<PageId> {
    set v: nat | lo <= v < hi :: PageId(pid, v)
  }

  ghost predicate ViewsOnCommon(m: Mem, n: Mem) {
    forall q :: q in m.pages && q in n.pages ==> Steady(m, n, q)
  }

  ghost predicate ReadsZero(m: Mem, q: PageId) {
    InBounds(m, q) && View(m, q) == ZeroPage() && m.pages[q].backing.ZeroFill?
  }

  lemma CommonTrans(m: Mem, n: Mem, o: Mem)
    requires ViewsOnCommon(m, n) && ViewsOnCommon(n, o) && o.pages.Keys <= n.pages.Keys
    ensures ViewsOnCommon(m, o)
  {
    forall q | q in m.pages && q in o.pages ensures Steady(m, o, q) {
      assert q in n.pages && Steady(m, n, q) && Steady(n, o, q);
    }
  }

  ghost predicate AllUsed(frames: seq<Frame>) {
    forall f: nat :: f < |frames| ==> frames[f].used
  }

  /** What a fault on page p can fail for: the zero page is shared to the limit of its
      counter and p is to map it, or every frame is used and reclaim, unless it is running
      already, cannot give one back: swap is full, or nothing is left to take but the frame
      that p itself is on. */
  ghost predicate Exhausted(m: Mem, p: PageId, reclaiming: bool) {
    || (p in m.pages && m.pages[p].state.Reserved? && m.pages[p].backing.ZeroFill?
        && m.frames != [] && !CanShare(m.frames[0]))
    || (AllUsed(m.frames) && (reclaiming || NothingLeft(m, p)))
  }

  ghost predicate NothingLeft(m: Mem, p: PageId) {
    SwapFull(m) || forall f: nat :: Eligible(m, f) ==> OnFrame(m, p, f)
  }

  /** Between operations: no frame is pinned but the zero page, and each frame in use, but for
      f, is mapped. */
  ghost predicate Tidy(m: Mem, f: nat) {
    forall g: nat :: 0 < g < |m.frames| ==>
      !m.frames[g].pinned && (g != f && m.frames[g].used ==> m.frames[g].mapCount != 0)
  }

  lemma AllocatedTidy(m: Mem, n: Mem, r: Option<nat>)
    requires if r.Some? then TookOne(m, n, r.value) else Recedes(m, n)
    ensures Tidy(m, 0) ==> Tidy(n, if r.Some? then r.value else 0)
  {
  }

  lemma DetachTidy(m: Mem, p: PageId, f: nat)
    requires Tidy(m, f) && InBounds(m, p) && m.pages[p].state.Resident?
    ensures Tidy(Detach(m, p), f)
  {
  }

  lemma AttachTidy(m: Mem, p: PageId, f: nat, rw: bool)
    requires Tidy(m, f) && p in m.pages && f < |m.frames|
    ensures Tidy(Attach(m, p, f, rw, false, false), 0)
  {
  }

  lemma SwapInTidy(m: Mem, p: PageId, f: nat)
    requires Tidy(m, f) && InBounds(m, p) && m.pages[p].slot.Some? && f < |m.frames|
    ensures Tidy(SwapIn(m, p, f), 0)
  {
  }

  lemma ForkTidy(m: Mem, p: PageId, q: PageId)
    requires Tidy(m, 0) && InBounds(m, p) && m.pages[p].state.Resident? && q in m.pages && q != p
    ensures Tidy(ForkResident(m, p, q), 0)
  {
  }

  /** Page p can be brought in without a frame of its own: it is in, or it is a page of zeros,
      or another sharer of its slot is back already. */
  ghost predicate AtHand(m: Mem, p: PageId) {
    && InBounds(m, p) && m.frames != []
    && match m.pages[p].state
       case Resident => true
       case Reserved => m.pages[p].backing.ZeroFill? && CanShare(m.frames[0])
       case Swapped => m.pages[p].slot.Some? && m.slots[m.pages[p].slot.value].residentFrame.Some?
  }

  /** The frame it is then on. */
  ghost function FrameAtHand(m: Mem, p: PageId): nat
    requires AtHand(m, p)
  {
    match m.pages[p].state
    case Resident => m.pages[p].frame
    case Reserved => 0
    case Swapped => m.slots[m.pages[p].slot.value].residentFrame.value
  }

  /** Frames are taken or given back by nobody, and none has other bytes. */
  ghost predicate SameFrames(m: Mem, n: Mem) {
    && n.ram == m.ram && |n.frames| == |m.frames|
    && forall f: nat :: f < |m.frames| ==> n.frames[f].used == m.frames[f].used
  }

  /** Page p is mapped, and its mapping is the last reference to its frame. */
  ghost predicate LastReference(m: Mem, p: PageId) {
    p in m.pages && m.pages[p].state.Resident? && m.pages[p].frame < |m.frames|
      && m.frames[m.pages[p].frame].cowRef <= 1
  }

  ghost predicate StoresInPlace(m: Mem, p: PageId) {
    p in m.pages && m.pages[p].state.Resident? && (m.pages[p].pte.rw || LastReference(m, p))
  }

  /** The byte is in the frame that the page was on, and nothing else has moved. */
  ghost predicate StoredInPlace(m: Mem, n: Mem, p: PageId, off: nat, b: byte) {
    && p in m.pages && p in n.pages && n.pages[p].frame == m.pages[p].frame < |m.ram| && off < PAGE_SIZE
    && n.ram == m.ram[m.pages[p].frame := m.ram[m.pages[p].frame][off := b]] && n.slots == m.slots
    && |n.frames| == |m.frames| && forall f: nat :: f < |m.frames| ==> n.frames[f].used == m.frames[f].used
  }

  lemma {:induction false} UsedCountAll(frames: seq<Frame>)
    requires AllUsed(frames)
    ensures UsedCount(frames) == |frames|
  {
    if frames != [] { UsedCountAll(frames[..|frames| - 1]); }
  }

  /** Some page of the process is on a frame that is shared to the limit of its counter. */
  ghost predicate Saturated(m: Mem, pid: nat) {
    exists p :: p in m.pages && p.pid == pid && m.pages[p].state.Resident?
                && m.pages[p].frame < |m.frames| && !CanShare(m.frames[m.pages[p].frame])
  }
}
