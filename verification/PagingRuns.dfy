/** Whole runs: whatever processes do, in whatever order, with reclaim in between,
    each zero-filled page behaves as a private array of bytes. */
module PagingRuns {
  import opened Common
  import opened PagingState
  import opened PagingInvariant
  import opened PagingBookkeeping
  import opened PagingFork
  import opened PagingGuards
  import opened PagingClock
  import opened PagingKernel

  /** The memory a process believes in: its zero-filled pages, or with `whole` its pages of
      the executable as well. */
  type Flat = map<PageId, Page>

  ghost function FlatOf(m: Mem, whole: bool): Flat {
    map q | q in m.pages && (whole || m.pages[q].backing.ZeroFill?) && InBounds(m, q) :: View(m, q)
  }

  /** No page of an executable stands to lose its bytes to the clock. */
  ghost predicate AllGuarded(m: Mem) {
    forall q :: q in m.pages ==> Guarded(m, q)
  }

  datatype Op =
    | Read(p: PageId)
    | Write(p: PageId, off: nat, b: byte)
    | Clone(parent: nat, child: nat)
    | Brk(pid: nat, oldEnd: nat, newEnd: nat)
    | Quit(pid: nat)
    | Reclaim
    | Rebuild(pid: nat)
    | Load(p: PageId, page: Page)               // exec lays out a page of the executable

  /** What an operation that went through does to flat private memory, of all pages or of the
      zero-filled ones. */
  ghost function Apply(flat: Flat, op: Op, whole: bool): Flat {
    match op
    case Write(p, off, b) => if p in flat && off < PAGE_SIZE then flat[p := flat[p][off := b]] else flat
    case Clone(parent, child) =>
      flat + map q | q in Range(child, 0, USER_PAGE_COUNT)
        && PageId(parent, q.vpn) in flat :: flat[PageId(parent, q.vpn)]
    case Brk(pid, oldEnd, newEnd) =>
      if newEnd < oldEnd then flat - Range(pid, newEnd, oldEnd)
      else flat + map q | q in Range(pid, oldEnd, newEnd) :: ZeroPage()
    case Quit(pid) => map q | q in flat && q.pid != pid :: flat[q]
    case Read(_) => flat
    case Reclaim => flat
    case Rebuild(_) => flat
    case Load(p, page) => if whole then flat[p := page] else flat
  }

  /** done[i] says whether operation i went through. */
  ghost function Replay(flat: Flat, ops: seq<Op>, done: seq<bool>, whole: bool): Flat
    requires |done| <= |ops|
  {
    if done == [] then flat
    else
      var k := |done| - 1;
      var before := Replay(flat, ops, done[..k], whole);
      if done[k] then Apply(before, ops[k], whole) else before
  }

  lemma DriftIsFlat(m: Mem, n: Mem, whole: bool)
    requires ViewsDrift(m, n) && (whole ==> AllGuarded(m))
    ensures FlatOf(n, whole) == FlatOf(m, whole) && (whole ==> AllGuarded(n))
  {
    forall q | q in m.pages ensures Drift(m, n, q) && (whole ==> Guarded(n, q)) {}
  }

  lemma DriftButIsFlat(m: Mem, n: Mem, p: PageId, whole: bool)
    requires ViewsDriftBut(m, n, p) && (whole ==> AllGuarded(m))
    ensures FlatOf(n, whole) == FlatOf(m, whole)
  {
    assert forall q :: q in m.pages ==> Loose(m, n, q);
  }

  /** Flat memories that agree page by page. */
  lemma SameFlat(a: Flat, b: Flat)
    requires forall q: PageId :: (q in a <==> q in b) && (q in a ==> a[q] == b[q])
    ensures a == b
  {
  }

  lemma WrittenPageIsFlat(m: Mem, n: Mem, p: PageId, off: nat, b: byte, q: PageId, whole: bool)
    requires n.pages.Keys == m.pages.Keys && q in m.pages && off < PAGE_SIZE && (whole ==> Guarded(m, q))
    requires q != p ==> Drift(m, n, q)
    requires q == p ==> InBounds(m, p) && Guarded(n, p) && n.pages[p].backing == m.pages[p].backing
    requires q == p && Guarded(m, p) ==> View(n, p) == View(m, p)[off := b]
    ensures q in FlatOf(n, whole) <==> q in FlatOf(m, whole)
    ensures q in FlatOf(n, whole) ==> FlatOf(n, whole)[q] == if q == p then FlatOf(m, whole)[q][off := b]
            else FlatOf(m, whole)[q]
    ensures whole ==> Guarded(n, q)
  {
  }

  lemma WriteIsFlat(m: Mem, n: Mem, p: PageId, off: nat, b: byte, whole: bool)
    requires n.pages.Keys == m.pages.Keys && p in m.pages && off < PAGE_SIZE && (whole ==> AllGuarded(m))
    requires forall q :: q in m.pages && q != p ==> Drift(m, n, q)
    requires InBounds(m, p) && Guarded(n, p) && n.pages[p].backing == m.pages[p].backing
    requires Guarded(m, p) ==> View(n, p) == View(m, p)[off := b]
    ensures FlatOf(n, whole) == Apply(FlatOf(m, whole), Write(p, off, b), whole) && (whole ==> AllGuarded(n))
  {
    var have, before := FlatOf(n, whole), FlatOf(m, whole);
    var want := Apply(before, Write(p, off, b), whole);
    assert forall q :: (q in before ==> q in m.pages) && (q in have ==> q in n.pages);
    forall q: PageId ensures (q in have <==> q in want) && (q in have ==> have[q] == want[q]) {
      if q in m.pages { WrittenPageIsFlat(m, n, p, off, b, q, whole); }
    }
    SameFlat(have, want);
    if whole {
      forall q | q in n.pages ensures Guarded(n, q) { WrittenPageIsFlat(m, n, p, off, b, q, whole); }
    }
  }

  lemma ForkedPageIsFlat(m: Mem, n: Mem, parent: nat, child: nat, q: PageId, whole: bool)
    requires Good(m) && Good(n) && Forked(m, n, parent, child) && q in n.pages
    requires forall x :: x in m.pages ==> x.pid != child
    ensures var p := if q in m.pages then q else PageId(parent, q.vpn);
            && (q !in m.pages ==> q.pid == child && q.vpn < USER_PAGE_COUNT)
            && (q in FlatOf(n, whole) <==> p in FlatOf(m, whole))
            && (p in FlatOf(m, whole) ==> FlatOf(n, whole)[q] == FlatOf(m, whole)[p])
  {
    InvBounds(n, 0, 0, q);
    if q in m.pages {
      assert SameView(m, n, q);
    } else {
      assert ChildReads(m, n, PageId(parent, q.vpn), PageId(child, q.vpn));
    }
  }

  lemma ForkIsFlat(m: Mem, n: Mem, parent: nat, child: nat, whole: bool)
    requires Good(m) && Good(n) && Forked(m, n, parent, child)
    requires forall q :: q in m.pages ==> q.pid != child
    ensures FlatOf(n, whole) == Apply(FlatOf(m, whole), Clone(parent, child), whole)
  {
    var have, before := FlatOf(n, whole), FlatOf(m, whole);
    assert forall q :: (q in before ==> q in m.pages) && (q in have ==> q in n.pages);
    forall q | q in n.pages ensures FlatForked(before, have, m.pages.Keys, parent, child, q) {
      ForkedPageIsFlat(m, n, parent, child, q, whole);
    }
    FlatForkedIsClone(before, have, m.pages.Keys, n.pages.Keys, parent, child);
  }

  /** Page q after a fork, the pages there were before being `keys`. */
  ghost predicate FlatForked(before: Flat, have: Flat, keys: set<PageId>, parent: nat, child: nat, q: PageId) {
    var p := if q in keys then q else PageId(parent, q.vpn);
    && (q !in keys ==> q.pid == child && q.vpn < USER_PAGE_COUNT)
    && (q in have <==> p in before) && (p in before ==> have[q] == before[p])
  }

  lemma FlatForkedIsClone(before: Flat, have: Flat, keys: set<PageId>, after: set<PageId>, parent: nat, child: nat)
    requires before.Keys <= keys && have.Keys <= after && forall q :: q in keys ==> q.pid != child
    requires forall q :: q in after ==> FlatForked(before, have, keys, parent, child, q)
    requires forall q: PageId :: q in after <==> q in keys || (q.pid == child && PageId(parent, q.vpn) in keys)
    ensures have == Apply(before, Clone(parent, child), false)
  {
    var want := Apply(before, Clone(parent, child), false);
    forall q: PageId ensures (q in have <==> q in want) && (q in have ==> have[q] == want[q]) {
      if q in after { assert FlatForked(before, have, keys, parent, child, q); }
    }
    SameFlat(have, want);
  }

  lemma DropIsFlat(m: Mem, n: Mem, gone: set<PageId>, whole: bool)
    requires ViewsOnCommon(m, n) && n.pages.Keys == m.pages.Keys - gone && (whole ==> AllGuarded(m))
    requires Inv(m)
    ensures FlatOf(n, whole) == FlatOf(m, whole) - gone && (whole ==> AllGuarded(n))
  {
    forall q | q in n.pages ensures Steady(m, n, q) {}
  }

  lemma GrownPageIsFlat(m: Mem, n: Mem, added: set<PageId>, q: PageId, whole: bool)
    requires ViewsOnCommon(m, n) && n.pages.Keys == m.pages.Keys + added && added !! m.pages.Keys
    requires q in n.pages && (q in added ==> ReadsZero(n, q)) && (q in m.pages && whole ==> Guarded(m, q))
    ensures q in FlatOf(n, whole) <==> q in FlatOf(m, whole) || q in added
    ensures q in FlatOf(n, whole) ==> FlatOf(n, whole)[q] == if q in added then ZeroPage() else FlatOf(m, whole)[q]
    ensures whole ==> Guarded(n, q)
  {
    if q in m.pages { assert Steady(m, n, q); }
  }

  lemma GrowIsFlat(m: Mem, n: Mem, added: set<PageId>, whole: bool)
    requires ViewsOnCommon(m, n) && n.pages.Keys == m.pages.Keys + added && added !! m.pages.Keys
    requires (forall q :: q in added ==> ReadsZero(n, q)) && (whole ==> AllGuarded(m))
    ensures FlatOf(n, whole) == FlatOf(m, whole) + (map q | q in added :: ZeroPage()) && (whole ==> AllGuarded(n))
  {
    var have, before := FlatOf(n, whole), FlatOf(m, whole);
    var want := before + (map q | q in added :: ZeroPage());
    assert forall q :: (q in before ==> q in m.pages) && (q in have ==> q in n.pages);
    forall q: PageId ensures (q in have <==> q in want) && (q in have ==> have[q] == want[q]) {
      if q in n.pages { GrownPageIsFlat(m, n, added, q, whole); }
    }
    SameFlat(have, want);
    if whole {
      forall q | q in n.pages ensures Guarded(n, q) { GrownPageIsFlat(m, n, added, q, whole); }
    }
  }

  lemma QuitIsFlat(m: Mem, n: Mem, pid: nat, whole: bool)
    requires ViewsOnCommon(m, n) && Inv(m) && (whole ==> AllGuarded(m))
    requires forall q :: q in n.pages <==> q in m.pages && q.pid != pid
    ensures FlatOf(n, whole) == Apply(FlatOf(m, whole), Quit(pid), whole) && (whole ==> AllGuarded(n))
  {
    var have, before := FlatOf(n, whole), FlatOf(m, whole);
    var want := Apply(before, Quit(pid), whole);
    assert forall q :: (q in before ==> q in m.pages) && (q in have ==> q in n.pages);
    forall q: PageId ensures (q in have <==> q in want) && (q in have ==> have[q] == want[q]) {
      if q in n.pages { StayedIsFlat(m, n, q, whole); }
    }
    SameFlat(have, want);
    if whole {
      forall q | q in n.pages ensures Guarded(n, q) { assert Steady(m, n, q); }
    }
  }

  lemma StayedIsFlat(m: Mem, n: Mem, q: PageId, whole: bool)
    requires ViewsOnCommon(m, n) && Inv(m) && q in n.pages && q in m.pages
    ensures q in FlatOf(n, whole) <==> q in FlatOf(m, whole)
    ensures q in FlatOf(n, whole) ==> FlatOf(n, whole)[q] == FlatOf(m, whole)[q]
  {
    assert Steady(m, n, q);
  }

  lemma KeptIsFlat(m: Mem, n: Mem, whole: bool)
    requires ViewsKept(m, n)
    ensures FlatOf(n, whole) == FlatOf(m, whole)
  {
    forall q | q in m.pages ensures SameView(m, n, q) {}
  }

  /** What an operation asks of the state it finds: the pages it names are there, a new
      heap page is not, a fork is into an unused process and of no unmarked swapped page. */
  ghost predicate Allowed(m: Mem, op: Op) {
    match op
    case Read(p) => p in m.pages
    case Write(p, off, _) => p in m.pages && off < PAGE_SIZE
    case Clone(parent, child) =>
      && child != parent && child < NPROC && ForkSafe(m, parent)
      && forall v :: 0 <= v < USER_PAGE_COUNT ==> PageId(child, v) !in m.pages
    case Brk(pid, oldEnd, newEnd) =>
      pid < NPROC && newEnd <= USER_PAGE_COUNT && forall v :: oldEnd <= v < newEnd ==> PageId(pid, v) !in m.pages
    case Quit(_) => true
    case Reclaim => true
    case Rebuild(_) => true
    case Load(p, _) => p.pid < NPROC && p.vpn < USER_PAGE_COUNT && p !in m.pages
  }

  /** A page that a rebuild leaves without a guard: altered, resident and private. */
  ghost predicate Private(m: Mem, p: PageId) {
    && InBounds(m, p) && m.pages[p].backing.ExecFile? && m.pages[p].state.Resident?
    && !m.frames[m.pages[p].frame].cow && m.ram[m.pages[p].frame] != m.pages[p].initial
  }

  /** The operations that leave an altered page of an executable without a guard: swapping
      it in other than for a store, and rebuilding the page table over it. */
  ghost predicate Exposes(m: Mem, op: Op, done: bool) {
    match op
    case Read(p) => Altered(m, p)
    case Write(p, _, _) => !done && Altered(m, p)
    case Rebuild(pid) => exists v: nat :: v < USER_PAGE_COUNT && Private(m, PageId(pid, v))
    case _ => false
  }

  lemma RebuildGuards(m: Mem, n: Mem, pid: nat)
    requires Good(m) && ViewsKept(m, n) && AllGuarded(m) && !Exposes(m, Rebuild(pid), true)
    requires forall q :: q in n.pages && q.pid != pid && Guarded(m, q) ==> Guarded(n, q)
    requires forall q :: q in n.pages && q.pid == pid && q.vpn < USER_PAGE_COUNT ==> Rebuilt(m, n, q)
    ensures AllGuarded(n)
  {
    forall q | q in n.pages ensures Guarded(n, q) {
      if q.pid == pid {
        assert Rebuilt(m, n, q);
        assert !Private(m, PageId(pid, q.vpn));
      }
    }
  }

  // ------------------------------------------------------------ one operation

  /** An access that takes no frame: to a page that is at hand, or a store by its only user. */
  ghost predicate NeedsNoFrame(m: Mem, op: Op) {
    match op
    case Read(p) => AtHand(m, p)
    case Write(p, off, _) => off < PAGE_SIZE && StoresInPlace(m, p)
    case _ => false
  }

  /** One operation of the running system, which begins and ends outside any reclaim. It goes
      through when it is allowed and memory lasts, and without new memory when it needs none;
      no frame is lost. `stop` reports a fork outside the model, or one the kernel panics on
      because a share counter is at its limit. The pages of an executable take part in the flat memory
      as long as nothing has exposed them. */
  ghost predicate Stepped(m: Mem, n: Mem, op: Op, done: bool) {
    && FlatOf(n, false) == (if done then Apply(FlatOf(m, false), op, false) else FlatOf(m, false))
    && (AllGuarded(m) ==> FlatOf(n, true) == if done then Apply(FlatOf(m, true), op, true) else FlatOf(m, true))
    && (AllGuarded(m) && !Exposes(m, op, done) ==> AllGuarded(n))
    && (done ==> Allowed(m, op))
    && (!done ==> !Allowed(m, op) || ((op.Read? || op.Write?) && Exhausted(n, op.p, false)))
    && (NeedsNoFrame(m, op) ==> done) && (Tidy(m, 0) ==> Tidy(n, 0))
  }

  lemma ReadStepped(m: Mem, n: Mem, p: PageId, done: bool)
    requires Inv(m) && ViewsDriftBut(m, n, p) && (!Altered(m, p) ==> ViewsDrift(m, n))
    requires done ==> p in m.pages
    requires !done && p in m.pages ==> Exhausted(n, p, false)
    requires (AtHand(m, p) ==> done) && (Tidy(m, 0) ==> Tidy(n, 0))
    ensures Stepped(m, n, Read(p), done)
  {
    DriftButIsFlat(m, n, p, false);
    if AllGuarded(m) {
      DriftButIsFlat(m, n, p, true);
      if !Altered(m, p) { DriftIsFlat(m, n, true); }
    }
  }

  lemma RefusedStepped(m: Mem, op: Op)
    requires !Allowed(m, op)
    ensures Stepped(m, m, op, false)
  {
  }

  lemma FailedWriteStepped(m: Mem, n: Mem, p: PageId, off: nat, b: byte)
    requires Inv(m) && ViewsDriftBut(m, n, p) && (!Altered(m, p) ==> ViewsDrift(m, n))
    requires p in m.pages ==> Exhausted(n, p, false)
    requires !StoresInPlace(m, p) && (Tidy(m, 0) ==> Tidy(n, 0))
    ensures Stepped(m, n, Write(p, off, b), false)
  {
    DriftButIsFlat(m, n, p, false);
    if AllGuarded(m) {
      DriftButIsFlat(m, n, p, true);
      if !Altered(m, p) { DriftIsFlat(m, n, true); }
    }
  }

  lemma WriteStepped(m: Mem, n: Mem, p: PageId, off: nat, b: byte)
    requires Tidy(m, 0) ==> Tidy(n, 0)
    requires Inv(m) && n.pages.Keys == m.pages.Keys && p in m.pages && off < PAGE_SIZE
    requires forall q :: q in m.pages && q != p ==> Drift(m, n, q)
    requires InBounds(m, p) && Guarded(n, p) && n.pages[p].backing == m.pages[p].backing
    requires Guarded(m, p) ==> View(n, p) == View(m, p)[off := b]
    ensures Stepped(m, n, Write(p, off, b), true)
  {
    WriteIsFlat(m, n, p, off, b, false);
    if AllGuarded(m) { WriteIsFlat(m, n, p, off, b, true); }
  }

  lemma ForkStepped(m: Mem, n: Mem, parent: nat, child: nat)
    requires Tidy(m, 0) ==> Tidy(n, 0)
    requires Good(m) && Good(n) && Forked(m, n, parent, child) && Allowed(m, Clone(parent, child))
    requires forall q :: q in m.pages && Guarded(m, q) ==> Guarded(n, q)
    requires forall q :: q in n.pages && q !in m.pages ==> Guarded(n, q)
    ensures Stepped(m, n, Clone(parent, child), true)
  {
    forall q | q in m.pages ensures q.pid != child { assert q == PageId(q.pid, q.vpn); }
    ForkIsFlat(m, n, parent, child, false);
    ForkIsFlat(m, n, parent, child, true);
  }

  lemma BrkStepped(m: Mem, n: Mem, pid: nat, oldEnd: nat, newEnd: nat)
    requires Tidy(m, 0) ==> Tidy(n, 0)
    requires Inv(m) && ViewsOnCommon(m, n) && Allowed(m, Brk(pid, oldEnd, newEnd))
    requires n.pages.Keys == if newEnd < oldEnd then m.pages.Keys - Range(pid, newEnd, oldEnd)
                             else m.pages.Keys + Range(pid, oldEnd, newEnd)
    requires oldEnd <= newEnd ==> forall q :: q in Range(pid, oldEnd, newEnd) ==> ReadsZero(n, q)
    ensures Stepped(m, n, Brk(pid, oldEnd, newEnd), true)
  {
    if newEnd < oldEnd {
      DropIsFlat(m, n, Range(pid, newEnd, oldEnd), false);
      if AllGuarded(m) { DropIsFlat(m, n, Range(pid, newEnd, oldEnd), true); }
    } else {
      GrowIsFlat(m, n, Range(pid, oldEnd, newEnd), false);
      if AllGuarded(m) { GrowIsFlat(m, n, Range(pid, oldEnd, newEnd), true); }
    }
  }

  lemma QuitStepped(m: Mem, n: Mem, pid: nat)
    requires Tidy(m, 0) ==> Tidy(n, 0)
    requires Inv(m) && ViewsOnCommon(m, n) && forall q :: q in n.pages <==> q in m.pages && q.pid != pid
    ensures Stepped(m, n, Quit(pid), true)
  {
    QuitIsFlat(m, n, pid, false);
    if AllGuarded(m) { QuitIsFlat(m, n, pid, true); }
  }

  lemma ReclaimStepped(m: Mem, n: Mem)
    requires Tidy(m, 0) ==> Tidy(n, 0)
    requires Inv(m) && ViewsDrift(m, n)
    ensures Stepped(m, n, Reclaim, true)
  {
    DriftIsFlat(m, n, false);
    if AllGuarded(m) { DriftIsFlat(m, n, true); }
  }

  lemma RebuildStepped(m: Mem, n: Mem, pid: nat)
    requires Tidy(m, 0) ==> Tidy(n, 0)
    requires Good(m) && ViewsKept(m, n)
    requires forall q :: q in n.pages && q.pid != pid && Guarded(m, q) ==> Guarded(n, q)
    requires forall q :: q in n.pages && q.pid == pid && q.vpn < USER_PAGE_COUNT ==> Rebuilt(m, n, q)
    ensures Stepped(m, n, Rebuild(pid), true)
  {
    KeptIsFlat(m, n, false);
    KeptIsFlat(m, n, true);
    if AllGuarded(m) && !Exposes(m, Rebuild(pid), true) { RebuildGuards(m, n, pid); }
  }

  lemma LoadedPageIsFlat(m: Mem, n: Mem, p: PageId, page: Page, q: PageId, whole: bool)
    requires Inv(m) && p !in m.pages && n == AddPage(m, p, false, ExecFile, page) && q in n.pages
    requires (q in m.pages ==> Steady(m, n, q)) && InBounds(n, p) && View(n, p) == page
    ensures q in FlatOf(n, whole) <==> if q == p then whole else q in FlatOf(m, whole)
    ensures q in FlatOf(n, whole) ==> FlatOf(n, whole)[q] == if q == p then page else FlatOf(m, whole)[q]
  {
    if q in m.pages { assert SameView(m, n, q); }
  }

  lemma LoadIsFlat(m: Mem, n: Mem, p: PageId, page: Page, whole: bool)
    requires Inv(m) && p !in m.pages && n == AddPage(m, p, false, ExecFile, page)
    requires (forall q :: q in m.pages ==> Steady(m, n, q)) && InBounds(n, p) && View(n, p) == page
    ensures FlatOf(n, whole) == Apply(FlatOf(m, whole), Load(p, page), whole)
  {
    var have, before := FlatOf(n, whole), FlatOf(m, whole);
    var want := Apply(before, Load(p, page), whole);
    assert forall q :: (q in before ==> q in m.pages) && (q in have ==> q in n.pages);
    forall q: PageId ensures (q in have <==> q in want) && (q in have ==> have[q] == want[q]) {
      if q in n.pages { LoadedPageIsFlat(m, n, p, page, q, whole); }
    }
    SameFlat(have, want);
  }

  lemma LoadStepped(m: Mem, n: Mem, p: PageId, page: Page)
    requires Inv(m) && Allowed(m, Load(p, page)) && n == AddPage(m, p, false, ExecFile, page)
    requires (forall q :: q in m.pages ==> Steady(m, n, q)) && InBounds(n, p) && View(n, p) == page && Guarded(n, p)
    ensures Stepped(m, n, Load(p, page), true)
  {
    LoadIsFlat(m, n, p, page, false);
    LoadIsFlat(m, n, p, page, true);
    if AllGuarded(m) {
      forall q | q in n.pages ensures Guarded(n, q) { if q != p { assert Steady(m, n, q); } }
    }
  }

  method Step(k: Kernel, op: Op) returns (done: bool, stop: bool)
    requires k.Valid() && !k.reclaiming
    modifies k
    ensures !stop ==> k.Valid() && !k.reclaiming && Stepped(old(k.State()), k.State(), op, done)
    ensures stop ==> op.Clone? && (!Allowed(old(k.State()), op) || Saturated(k.State(), op.parent))
  {
    ghost var m := k.State();
    done, stop := true, false;
    match op {
      case Read(p) =>
        done := k.EnsurePagePresent(p);
        ReadStepped(m, k.State(), p, done);
      case Write(p, off, b) =>
        if off >= PAGE_SIZE {
          RefusedStepped(m, op);
          return false, false;
        }
        done := k.UserWrite(p, off, b);
        if done { WriteStepped(m, k.State(), p, off, b); } else { FailedWriteStepped(m, k.State(), p, off, b); }
      case Clone(parent, child) =>
        done := CloneOp(k, parent, child);
        stop := !done;
      case Brk(pid, oldEnd, newEnd) =>
        if pid >= NPROC || newEnd > USER_PAGE_COUNT || (exists v | oldEnd <= v < newEnd :: PageId(pid, v) in k.pages) {
          RefusedStepped(m, op);
          return false, false;
        }
        k.SetHeapPages(pid, oldEnd, newEnd);
        BrkStepped(m, k.State(), pid, oldEnd, newEnd);
      case Quit(pid) =>
        k.Exit(pid);
        QuitStepped(m, k.State(), pid);
      case Reclaim =>
        k.ReclaimUntilLowWatermark();
        ReclaimStepped(m, k.State());
      case Rebuild(pid) =>
        k.BuildPageTablesForImage(pid);
        RebuildStepped(m, k.State(), pid);
      case Load(p, page) =>
        if p.pid >= NPROC || p.vpn >= USER_PAGE_COUNT || p in k.pages {
          RefusedStepped(m, op);
          return false, false;
        }
        k.AddExecPage(p, page);
        LoadStepped(m, k.State(), p, page);
    }
  }

  method CloneOp(k: Kernel, parent: nat, child: nat) returns (done: bool)
    requires k.Valid()
    modifies k
    ensures k.reclaiming == old(k.reclaiming)
    ensures done ==> k.Valid() && Stepped(old(k.State()), k.State(), Clone(parent, child), true)
    ensures !done ==> !Allowed(old(k.State()), Clone(parent, child)) || Saturated(k.State(), parent)
  {
    ghost var m := k.State();
    if child == parent || child >= NPROC || (exists v | 0 <= v < USER_PAGE_COUNT :: PageId(child, v) in k.pages) {
      return false;
    }
    if exists v | 0 <= v < USER_PAGE_COUNT :: PageId(parent, v) in k.pages && k.pages[PageId(parent, v)].state.Swapped?
                                               && !k.pages[PageId(parent, v)].swappedCow {
      return false;
    }
    assert ForkSafe(m, parent);
    done := k.Fork(parent, child);
    if done { ForkStepped(m, k.State(), parent, child); }
  }

  // --------------------------------------------------------------- whole runs

  /** The states a run has gone through, with the outcome of each operation. */
  ghost predicate Traced(trace: seq<Mem>, ops: seq<Op>, done: seq<bool>) {
    && |done| <= |ops| && |trace| == |done| + 1
    && forall i :: 0 <= i < |done| ==> Stepped(trace[i], trace[i + 1], ops[i], done[i])
  }

  ghost predicate NothingExposed(trace: seq<Mem>, ops: seq<Op>, done: seq<bool>)
    requires Traced(trace, ops, done)
  {
    AllGuarded(trace[0]) && forall i :: 0 <= i < |done| ==> !Exposes(trace[i], ops[i], done[i])
  }

  lemma {:induction false} TraceIsReplay(trace: seq<Mem>, ops: seq<Op>, done: seq<bool>)
    requires Traced(trace, ops, done)
    ensures FlatOf(trace[|done|], false) == Replay(FlatOf(trace[0], false), ops, done, false)
    ensures NothingExposed(trace, ops, done) ==>
              && AllGuarded(trace[|done|])
              && FlatOf(trace[|done|], true) == Replay(FlatOf(trace[0], true), ops, done, true)
  {
    if done != [] {
      var k := |done| - 1;
      assert Stepped(trace[k], trace[k + 1], ops[k], done[k]);
      TraceIsReplay(trace[..k + 1], ops, done[..k]);
    }
  }

  /** No run loses a frame: those in use are mapped, whenever an operation is over. */
  lemma {:induction false} TraceIsTidy(trace: seq<Mem>, ops: seq<Op>, done: seq<bool>, i: nat)
    requires Traced(trace, ops, done) && Tidy(trace[0], 0) && i <= |done|
    ensures Tidy(trace[i], 0)
  {
    if i != 0 {
      TraceIsTidy(trace, ops, done, i - 1);
      assert Stepped(trace[i - 1], trace[i], ops[i - 1], done[i - 1]);
    }
  }

  /** Any run of the paging machine is a run of flat private memories. done[i] says whether
      operation i went through, and Stepped why one did not. The run breaks off only at a fork
      outside the model or with a share counter at its limit. */
  method Run(k: Kernel, ops: seq<Op>) returns (done: seq<bool>, ghost trace: seq<Mem>)
    requires k.Valid() && !k.reclaiming
    modifies k
    ensures Traced(trace, ops, done) && trace[0] == old(k.State())
    ensures FlatOf(trace[|done|], false) == Replay(old(FlatOf(k.State(), false)), ops, done, false)
    ensures NothingExposed(trace, ops, done) ==>
              FlatOf(trace[|done|], true) == Replay(old(FlatOf(k.State(), true)), ops, done, true)
    ensures |done| == |ops| ==> k.Valid() && trace[|done|] == k.State()
    ensures |done| < |ops| ==>
              ops[|done|].Clone? && (!Allowed(trace[|done|], ops[|done|]) || Saturated(k.State(), ops[|done|].parent))
  {
    done, trace := [], [k.State()];
    while |done| < |ops|
      invariant Traced(trace, ops, done) && k.Valid() && !k.reclaiming
      invariant trace[0] == old(k.State()) && trace[|done|] == k.State()
    {
      var d, stop := Step(k, ops[|done|]);
      if stop { break; }
      done, trace := done + [d], trace + [k.State()];
    }
    TraceIsReplay(trace, ops, done);
  }
}
