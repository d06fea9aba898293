/** The layout of a process's address space: ConfigureExecutableLayout, SetHeapBreak and the
    growth of the stack on a fault. Kernel memory for page records is a parameter. */
module AddressSpace {
  import opened Common

  const PAGE: nat := 0x1000
  const USER_END: nat := 0x80_0000             // USER_SPACE_END
  const WORD: nat := 0x1_0000_0000
  const MAX_REGION_COUNT: nat := 16

  datatype Kind = Runtime | Code | Rodata | Data | Bss | Heap | Stack

  datatype PageState = Unset | Reserved | Resident | Swapped

  datatype PageInfo = PageInfo(state: PageState, region: nat, frame: nat, backingOffset: nat, swapSlot: nat)

  datatype Region = Region(kind: Kind, start: nat, end: nat, growsDown: bool, pages: seq<PageInfo>)

  function AlignDown(v: nat): (r: nat)
    ensures r % PAGE == 0 && r <= v < r + PAGE
  {
    v / PAGE * PAGE
  }

  /** In 32-bit arithmetic. */
  function AlignUp(v: nat): (r: nat)
    ensures r % PAGE == 0 && (v + PAGE <= WORD ==> v <= r < v + PAGE)
  {
    (v + PAGE - 1) % WORD / PAGE * PAGE
  }

  function Add(a: nat, b: nat): nat {
    (a + b) % WORD
  }

  function Sub(a: nat, b: nat): nat
    requires b < WORD
  {
    (a + WORD - b) % WORD
  }

  function PageCount(r: Region): nat {
    if r.start <= r.end then (r.end - r.start) / PAGE else 0
  }

  predicate Holds(r: Region, a: nat) {
    r.start <= a < r.end
  }

  ghost predicate Mapped(rs: seq<Region>, a: nat) {
    exists i :: 0 <= i < |rs| && Holds(rs[i], a)
  }

  /** What CheckUserSpace accepts: within bounds, in address order, no overlap. */
  ghost predicate Ordered(rs: seq<Region>) {
    && (forall i :: 0 <= i < |rs| ==> rs[i].start <= rs[i].end <= USER_END)
    && forall i :: 0 < i < |rs| ==> rs[i - 1].end <= rs[i].start
  }

  lemma {:induction false} OrderedFar(rs: seq<Region>, i: nat, j: nat)
    requires Ordered(rs) && i < j < |rs|
    ensures rs[i].end <= rs[j].start
    decreases j
  {
    if i + 1 < j { OrderedFar(rs, i, j - 1); }
  }

  /** The regions follow one another without a gap from lo to hi. */
  ghost predicate Tiles(rs: seq<Region>, lo: nat, hi: nat) {
    if rs == [] then lo == hi
    else
      var last := |rs| - 1;
      rs[last].end == hi && rs[last].start <= hi && Tiles(rs[..last], lo, rs[last].start)
  }

  lemma {:induction false} TilesUp(rs: seq<Region>, lo: nat, hi: nat)
    requires Tiles(rs, lo, hi)
    ensures lo <= hi
  {
    if rs != [] { TilesUp(rs[..|rs| - 1], lo, rs[|rs| - 1].start); }
  }

  lemma TilesMore(rs: seq<Region>, lo: nat, hi: nat, r: Region)
    requires Tiles(rs, lo, hi) && r.start == hi <= r.end
    ensures Tiles(rs + [r], lo, r.end)
  {
    assert (rs + [r])[..|rs|] == rs;
  }

  /** In a tiling every address of the range is in exactly one region, and no other is. */
  lemma {:induction false} TilesExactly(rs: seq<Region>, lo: nat, hi: nat, a: nat)
    requires Tiles(rs, lo, hi)
    ensures lo <= a < hi <==> Mapped(rs, a)
    ensures forall i, j :: 0 <= i < |rs| && 0 <= j < |rs| && Holds(rs[i], a) && Holds(rs[j], a) ==> i == j
  {
    if rs != [] {
      var last := |rs| - 1;
      TilesUp(rs[..last], lo, rs[last].start);
      TilesExactly(rs[..last], lo, rs[last].start, a);
      if rs[last].start <= a < hi { assert Holds(rs[last], a); }
      if i :| 0 <= i < last && Holds(rs[..last][i], a) { assert Holds(rs[i], a); }
      forall i | 0 <= i < last && Holds(rs[i], a) ensures a < rs[last].start { assert Holds(rs[..last][i], a); }
      forall i, j | 0 <= i < last && 0 <= j < last && Holds(rs[i], a) && Holds(rs[j], a) ensures i == j {
        assert Holds(rs[..last][i], a) && Holds(rs[..last][j], a);
      }
    }
  }

  lemma {:induction false} TilesOrdered(rs: seq<Region>, lo: nat, hi: nat)
    requires Tiles(rs, lo, hi)
    ensures rs != [] ==> rs[0].start == lo && rs[|rs| - 1].end == hi
    ensures hi <= USER_END ==> Ordered(rs)
  {
    if rs != [] {
      var rest := rs[..|rs| - 1];
      TilesOrdered(rest, lo, rs[|rs| - 1].start);
      TilesUp(rest, lo, rs[|rs| - 1].start);
      if hi <= USER_END { OrderedJoin(rest, [rs[|rs| - 1]]); assert rest + [rs[|rs| - 1]] == rs; }
    }
  }

  lemma OrderedJoin(x: seq<Region>, y: seq<Region>)
    ensures Ordered(x + y) <==> Ordered(x) && Ordered(y) && (x != [] && y != [] ==> x[|x| - 1].end <= y[0].start)
  {
    var z := x + y;
    if Ordered(z) {
      forall i | 0 <= i < |x| ensures x[i] == z[i] {}
      forall i | 0 <= i < |y| ensures y[i] == z[|x| + i] {}
      if x != [] && y != [] { assert z[|x| - 1] == x[|x| - 1] && z[|x|] == y[0]; }
      forall i | 0 < i < |y| ensures y[i - 1].end <= y[i].start { assert z[|x| + i - 1].end <= z[|x| + i].start; }
    }
  }

  // ------------------------------------------------- the data segment

  datatype Range = Range(start: nat, end: nat, kind: Kind)

  predicate InRange(g: Range, a: nat) {
    g.start <= a < g.end
  }

  /** The pages a section touches, clipped to the data segment. */
  function Clip(kind: Kind, start: nat, size: nat, lo: nat, hi: nat): Range {
    if size == 0 then Range(0, 0, kind) else Range(Max(AlignDown(start), lo), Min(AlignUp(Add(start, size)), hi), kind)
  }

  /** An address is in the range exactly when it is in the segment and its page reaches from the
      section's first page up to its end, the end being a word of 32 bits. */
  lemma ClipIsPages(kind: Kind, start: nat, size: nat, lo: nat, hi: nat, a: nat)
    ensures InRange(Clip(kind, start, size, lo, hi), a) <==>
              && size != 0 && lo <= a < hi && start / PAGE <= a / PAGE
              && a / PAGE * PAGE < (start + size) % WORD <= WORD - PAGE
  {
    var e := (start + size) % WORD;
    UpToPage(e, a);
  }

  lemma UpToPage(e: nat, a: nat)
    requires e < WORD
    ensures a < AlignUp(e) <==> a / PAGE * PAGE < e <= WORD - PAGE
  {
  }

  /** Without the wrap: the pages that hold a byte of the section. */
  lemma PageReaches(start: nat, size: nat, a: nat)
    ensures start / PAGE <= a / PAGE && a / PAGE * PAGE < start + size && size != 0 <==>
              exists b :: start <= b < start + size && b / PAGE == a / PAGE
  {
    if start / PAGE <= a / PAGE && a / PAGE * PAGE < start + size && size != 0 {
      var b := Max(start, a / PAGE * PAGE);
      assert b / PAGE == a / PAGE;
    }
  }

  /** The ranges, lowest first, as ConfigureExecutableLayout collects and sorts them. */
  function Ranges(ro: Range, bss: Range): (g: seq<Range>)
    ensures |g| <= 2 && forall i :: 0 <= i < |g| ==> g[i].start < g[i].end && (g[i] == ro || g[i] == bss)
    ensures forall i, j :: 0 <= i < j < |g| ==> g[i].start <= g[j].start
    ensures (ro.start < ro.end ==> ro in g) && (bss.start < bss.end ==> bss in g)
  {
    if ro.start < ro.end && bss.start < bss.end then (if bss.start < ro.start then [bss, ro] else [ro, bss])
    else if ro.start < ro.end then [ro]
    else if bss.start < bss.end then [bss]
    else []
  }

  /** What an address of the data segment is mapped as. Where read-only data and bss overlap,
      the section that starts on the lower page has it, read-only data if both start on one. */
  predicate KindFits(kind: Kind, ro: Range, bss: Range, a: nat) {
    match kind
    case Data => !InRange(ro, a) && !InRange(bss, a)
    case Rodata => InRange(ro, a) && (InRange(bss, a) ==> ro.start <= bss.start)
    case Bss => InRange(bss, a) && (InRange(ro, a) ==> bss.start < ro.start)
    case _ => false
  }

  predicate OfSegment(kind: Kind) {
    kind == Data || kind == Rodata || kind == Bss
  }

  predicate OfData(rs: seq<Region>) {
    forall i :: 0 <= i < |rs| ==> OfSegment(rs[i].kind)
  }

  ghost predicate HasPlainData(lo: nat, hi: nat, ro: Range, bss: Range) {
    exists a :: lo <= a < hi && KindFits(Data, ro, bss, a)
  }

  ghost predicate KindsFit(rs: seq<Region>, ro: Range, bss: Range) {
    forall i, a :: 0 <= i < |rs| && Holds(rs[i], a) ==> KindFits(rs[i].kind, ro, bss, a)
  }

  /** ConfigureExecutableLayout's arguments, all 32-bit words. */
  datatype Layout = Layout(codeStart: nat, codeSize: nat, dataStart: nat, dataSize: nat, rodataStart: nat,
    rodataSize: nat,
                           bssStart: nat, bssSize: nat, stackSize: nat)
  {
    predicate InWords() {
      && codeStart < WORD && codeSize < WORD && dataStart < WORD && dataSize < WORD && rodataStart < WORD
      && rodataSize < WORD
      && bssStart < WORD && bssSize < WORD && stackSize < WORD
    }

    function CodeEnd(): nat {
      AlignUp(Add(codeStart, codeSize))
    }

    function DataEnd(): nat {
      AlignUp(Add(dataStart, dataSize))
    }

    function StackBottom(): nat
      requires stackSize < WORD
    {
      AlignDown(Sub(USER_END, stackSize))
    }

    function Ro(): Range {
      Clip(Rodata, rodataStart, rodataSize, dataStart, DataEnd())
    }

    function Bss(): Range {
      Clip(Kind.Bss, bssStart, bssSize, dataStart, DataEnd())
    }

    ghost predicate Fits()
      requires stackSize < WORD
    {
      && PAGE <= codeStart <= CodeEnd() <= dataStart <= DataEnd() <= StackBottom() <= USER_END
      && (dataStart == DataEnd() || HasPlainData(dataStart, DataEnd(), Ro(), Bss()))
    }
  }

  /** Without wrap-around, the code and data regions have every byte of their segments, the
      stack has its size, and each of them ends on a page boundary and is less than a page
      longer. */
  lemma SegmentsCovered(l: Layout)
    requires l.InWords()
    ensures l.CodeEnd() % PAGE == 0 && l.DataEnd() % PAGE == 0 && l.StackBottom() % PAGE == 0
    ensures l.codeStart + l.codeSize <= WORD - PAGE ==>
              l.codeStart + l.codeSize <= l.CodeEnd() < l.codeStart + l.codeSize + PAGE
    ensures l.dataStart + l.dataSize <= WORD - PAGE ==>
              l.dataStart + l.dataSize <= l.DataEnd() < l.dataStart + l.dataSize + PAGE
    ensures l.stackSize <= USER_END ==> l.stackSize <= USER_END - l.StackBottom() < l.stackSize + PAGE
    ensures l.stackSize > USER_END ==> l.StackBottom() >= USER_END
  {
  }

  /** A finished layout: the data regions tile the data segment, page by page of the right
      kind, between the code and the heap. */
  ghost predicate Configured(rs: seq<Region>, l: Layout)
    requires l.stackSize < WORD
  {
    exists n: nat :: ConfiguredAt(rs, l, n)
  }

  ghost predicate ConfiguredAt(rs: seq<Region>, l: Layout, n: nat)
    requires l.stackSize < WORD
  {
    && 2 <= n && n + 2 <= |rs| <= n + 3 && Ordered(rs)
    && rs[0].kind == Runtime && rs[0].start == 0 && rs[0].end == PAGE
    && rs[1].kind == Code && rs[1].start == l.codeStart && rs[1].end == l.CodeEnd()
    && Tiles(rs[2..n], l.dataStart, l.DataEnd()) && KindsFit(rs[2..n], l.Ro(), l.Bss())
    && HeapAndStack(rs) && rs[|rs| - 2].start == rs[|rs| - 2].end == l.DataEnd()
    && rs[|rs| - 1].start == l.StackBottom() && rs[|rs| - 1].end == USER_END
  }

  /** The last two regions are the heap and the stack, each with a record per page, and
      no other region has their kinds. */
  ghost predicate HeapAndStack(rs: seq<Region>) {
    && |rs| >= 2 && rs[|rs| - 2].kind == Heap && rs[|rs| - 1].kind == Stack
    && !rs[|rs| - 2].growsDown && rs[|rs| - 1].growsDown
    && (forall i :: |rs| - 2 <= i < |rs| ==> |rs[i].pages| == PageCount(rs[i]))
    && forall i :: 0 <= i < |rs| - 2 ==> rs[i].kind != Heap && rs[i].kind != Stack
  }

  class MemoryDescriptor {
    var m_Regions: seq<Region>
    var m_HeapBase: nat
    var m_HeapBreak: nat

    /** AddRegion, with its page records reserved. */
    method AddRegion(kind: Kind, start: nat, end: nat, growsDown: bool) returns (ok: bool)
      modifies this`m_Regions
      ensures ok <==> start <= end && |old(m_Regions)| < MAX_REGION_COUNT
      ensures m_Regions == if ok then old(m_Regions) + [NewRegion(kind, start, end, growsDown, |old(m_Regions)|)]
                           else old(m_Regions)
    {
      if start > end || |m_Regions| >= MAX_REGION_COUNT {
        return false;
      }
      m_Regions := m_Regions + [NewRegion(kind, start, end, growsDown, |m_Regions|)];
      return true;
    }

    ghost predicate Placed(head: seq<Region>, lo: nat, cursor: nat, ro: Range, bss: Range)
      reads this`m_Regions
    {
      PlacedUpTo(m_Regions, head, lo, cursor, ro, bss)
    }

    method AddPiece(kind: Kind, start: nat, end: nat, ghost head: seq<Region>, ghost lo: nat, ghost ro: Range,
      ghost bss: Range)
      requires Placed(head, lo, start, ro, bss) && start <= end && |m_Regions| < MAX_REGION_COUNT && OfSegment(kind)
      requires forall a :: start <= a < end ==> KindFits(kind, ro, bss, a)
      modifies this`m_Regions
      ensures Placed(head, lo, end, ro, bss) && |m_Regions| == |old(m_Regions)| + 1
    {
      PlaceMore(m_Regions, NewRegion(kind, start, end, false, |m_Regions|), head, lo, ro, bss);
      var _ := AddRegion(kind, start, end, false);
    }

    /** Range i of the loop, with the plain data before it. */
    method AddRange(ranges: seq<Range>, i: nat, cursor: nat,
                    ghost head: seq<Region>, ghost lo: nat, ghost ro: Range, ghost bss: Range)
      requires ranges == Ranges(ro, bss) && i < |ranges|
      requires ranges[i].end > cursor && ro.kind == Rodata && bss.kind == Bss
      requires forall j :: 0 <= j < i ==> ranges[j].end <= cursor
      requires Placed(head, lo, cursor, ro, bss) && |m_Regions| + 2 <= MAX_REGION_COUNT
      modifies this`m_Regions
      ensures Placed(head, lo, ranges[i].end, ro, bss) && |old(m_Regions)| < |m_Regions| <= |old(m_Regions)| + 2
    {
      var start := Max(ranges[i].start, cursor);
      if cursor < start {
        Between(ranges, i, cursor, ro, bss);
        AddPiece(Data, cursor, start, head, lo, ro, bss);
      }
      AddPiece(ranges[i].kind, start, ranges[i].end, head, lo, ro, bss);
    }

    /** The loop over the special ranges and the rest of the data segment behind them;
        hasData tells whether any plain data was left. */
    method AddData(lo: nat, hi: nat, ro: Range, bss: Range) returns (hasData: bool)
      requires |m_Regions| == 2 && Unused(m_Regions) && ro.kind == Rodata && bss.kind == Bss
      requires ro.start < ro.end ==> lo <= ro.start && ro.end <= hi
      requires bss.start < bss.end ==> lo <= bss.start && bss.end <= hi
      modifies this`m_Regions
      ensures Placed(old(m_Regions), lo, Max(lo, hi), ro, bss) && |m_Regions| <= 7 && OfData(m_Regions[2..])
      ensures hasData <==> HasPlainData(lo, hi, ro, bss)
    {
      var ranges := Ranges(ro, bss);
      ghost var head := m_Regions;
      ghost var plain := lo;
      hasData := false;
      var cursor := lo;
      assert m_Regions[2..] == [];
      for i := 0 to |ranges|
        invariant lo <= cursor <= Max(lo, hi) && |m_Regions| <= 2 + 2 * i && Placed(head, lo, cursor, ro, bss)
        invariant forall j :: 0 <= j < i ==> ranges[j].end <= cursor
        invariant hasData ==> lo <= plain < hi && KindFits(Data, ro, bss, plain)
        invariant !hasData ==> !HasPlainData(lo, cursor, ro, bss)
      {
        if ranges[i].end > cursor {
          AddRange(ranges, i, cursor, head, lo, ro, bss);
          if cursor < ranges[i].start {
            Between(ranges, i, cursor, ro, bss);
            hasData, plain := true, cursor;
          }
          forall a | ranges[i].start <= a < ranges[i].end ensures !KindFits(Data, ro, bss, a) {
            assert InRange(ranges[i], a);
          }
          cursor := ranges[i].end;
        }
      }
      if cursor < hi {
        Between(ranges, |ranges|, cursor, ro, bss);
        AddPiece(Data, cursor, hi, head, lo, ro, bss);
        hasData, plain := true, cursor;
      }
      if hasData {
        assert KindFits(Data, ro, bss, plain);
      } else {
        forall a | lo <= a < hi ensures !KindFits(Data, ro, bss, a) {}
      }
    }

    /** CheckUserSpace's two loops. */
    method CheckUserSpace() returns (ok: bool)
      ensures ok <==> Ordered(m_Regions)
    {
      for i := 0 to |m_Regions|
        invariant forall j :: 0 <= j < i ==> m_Regions[j].start <= m_Regions[j].end <= USER_END
      {
        if m_Regions[i].start > m_Regions[i].end || m_Regions[i].end > USER_END {
          return false;
        }
      }
      for i := 0 to |m_Regions|
        invariant forall j :: 0 < j < i ==> m_Regions[j - 1].end <= m_Regions[j].start
      {
        if i > 0 && m_Regions[i - 1].end > m_Regions[i].start {
          return false;
        }
      }
      return true;
    }

    method AddHeapAndStack(l: Layout) returns (ok: bool, ghost heap: Region, ghost stack: Region)
      requires l.InWords() && |m_Regions| <= 8
      modifies this
      ensures m_HeapBase == m_HeapBreak == l.DataEnd() && (ok <==> l.StackBottom() <= USER_END)
      ensures heap == NewRegion(Heap, l.DataEnd(), l.DataEnd(), false, |old(m_Regions)|)
      ensures stack == NewRegion(Stack, l.StackBottom(), USER_END, true, |old(m_Regions)| + 1)
      ensures ok ==> m_Regions == old(m_Regions) + [heap, stack] && (old(Unused(m_Regions)) ==> Unused(m_Regions))
    {
      m_HeapBase, m_HeapBreak := l.DataEnd(), l.DataEnd();
      heap := NewRegion(Heap, m_HeapBase, m_HeapBreak, false, |m_Regions|);
      var _ := AddRegion(Heap, m_HeapBase, m_HeapBreak, false);
      stack := NewRegion(Stack, l.StackBottom(), USER_END, true, |m_Regions|);
      ok := AddRegion(Stack, l.StackBottom(), USER_END, true);
    }

    /** The regions behind the data segment, and the check of the whole. */
    method FinishLayout(l: Layout, hasData: bool, ghost head: seq<Region>, ghost data: seq<Region>) returns (ok: bool)
      requires l.InWords() && |head| == 2 && |data| <= 5 && m_Regions == head + data && Unused(m_Regions)
      requires Tiles(data, l.dataStart, Max(l.dataStart, l.DataEnd()))
      requires KindsFit(data, l.Ro(), l.Bss()) && OfData(data)
      requires hasData <==> HasPlainData(l.dataStart, l.DataEnd(), l.Ro(), l.Bss())
      requires IsHead(head, l)
      modifies this
      ensures ok <==> l.Fits()
      ensures ok ==> m_HeapBase == m_HeapBreak == l.DataEnd() && Configured(m_Regions, l) && Unused(m_Regions)
    {
      ghost var anchor := AddAnchor(l.dataStart, hasData);
      var added, heap, stack := AddHeapAndStack(l);
      if !added {
        return false;
      }
      assert m_Regions == head + (data + (anchor + [heap, stack]));
      LayoutOrdered(head, data, anchor, heap, stack, l);
      ok := CheckUserSpace();
    }

    /** ResetLayout, the runtime page and the code. */
    method StartLayout(l: Layout) returns (ok: bool)
      modifies this
      ensures ok <==> l.codeStart <= l.CodeEnd()
      ensures ok ==> IsHead(m_Regions, l) && Unused(m_Regions)
    {
      m_Regions, m_HeapBase, m_HeapBreak := [], 0, 0;
      var _ := AddRegion(Runtime, 0, PAGE, false);
      ok := AddRegion(Code, l.codeStart, l.CodeEnd(), false);
    }

    /** The anchor of a layout without plain data. */
    method AddAnchor(dataStart: nat, hasData: bool) returns (ghost anchor: seq<Region>)
      requires |m_Regions| <= 7
      modifies this`m_Regions
      ensures m_Regions == old(m_Regions) + anchor && (old(Unused(m_Regions)) ==> Unused(m_Regions))
      ensures if hasData then anchor == []
              else anchor == [NewRegion(Data, dataStart, dataStart, false, |old(m_Regions)|)]
    {
      anchor := [];
      if !hasData {
        anchor := [NewRegion(Data, dataStart, dataStart, false, |m_Regions|)];
        var _ := AddRegion(Data, dataStart, dataStart, false);
      }
    }

    /** The layout of a new program, in address order: runtime page, code, data segment,
        empty heap, stack. It succeeds exactly when the segments fit one after the other
        and, unless the data segment is empty, some of it is plain data: a segment that
        read-only data and bss cover between them is refused, because the empty data
        region then added as an anchor is out of order. */
    method ConfigureExecutableLayout(l: Layout) returns (ok: bool)
      requires l.InWords()
      modifies this
      ensures ok <==> l.Fits()
      ensures ok ==> m_HeapBase == m_HeapBreak == l.DataEnd() && Configured(m_Regions, l) && Valid()
      ensures ok ==> Unused(m_Regions)
    {
      var added := StartLayout(l);
      if !added {
        return false;
      }
      ghost var head := m_Regions;
      var hasData := AddData(l.dataStart, l.DataEnd(), l.Ro(), l.Bss());
      ok := FinishLayout(l, hasData, head, m_Regions[2..]);
      if ok { ConfiguredLaidOut(m_Regions, l); }
    }

    // ------------------------------------------- heap break and stack growth

    /** Between two operations on a laid-out address space. */
    ghost predicate Valid()
      reads this
    {
      LaidOut(m_Regions, m_HeapBase, m_HeapBreak)
    }

    method FindRegionByType(kind: Kind) returns (r: Option<nat>)
      ensures r.Some? ==> r.value < |m_Regions| && m_Regions[r.value].kind == kind
                          && forall j: nat :: j < r.value ==> m_Regions[j].kind != kind
      ensures r.None? ==> forall j: nat :: j < |m_Regions| ==> m_Regions[j].kind != kind
    {
      for i := 0 to |m_Regions|
        invariant forall j: nat :: j < i ==> m_Regions[j].kind != kind
      {
        if m_Regions[i].kind == kind {
          return Some(i);
        }
      }
      r := None;
    }

    /** The region of an address; in an ordered layout there is at most one. */
    method FindRegion(a: nat) returns (r: Option<nat>)
      requires Ordered(m_Regions)
      ensures r.Some? ==> r.value < |m_Regions| && Holds(m_Regions[r.value], a)
                          && forall j: nat :: j < |m_Regions| && Holds(m_Regions[j], a) ==> j == r.value
      ensures r.None? <==> !Mapped(m_Regions, a)
    {
      for i := 0 to |m_Regions|
        invariant forall j: nat :: j < i ==> !Holds(m_Regions[j], a)
      {
        if Holds(m_Regions[i], a) {
          forall j: nat | i < j < |m_Regions| ensures !Holds(m_Regions[j], a) { OrderedFar(m_Regions, i, j); }
          return Some(i);
        }
      }
      r := None;
    }

    /** The heap's end moves; pages that stay keep their records, new ones are reserved. */
    method MoveBreak(h: nat, b: nat)
      requires Valid() && h == |m_Regions| - 2 && b % PAGE == 0 && m_HeapBase <= b <= m_Regions[h + 1].start
      modifies this`m_Regions, this`m_HeapBreak
      ensures Valid() && m_HeapBreak == b && BreakMoved(old(m_Regions), m_Regions, h, b)
    {
      HeapMoves(m_Regions, h, b);
      m_Regions := m_Regions[h := HeapTo(m_Regions[h], h, b)];
      m_HeapBreak := b;
    }

    /** The break moves to the page boundary at or above newBreak, but not below the heap's
        base nor into the stack; hasMemory is whether the page records can be enlarged. */
    method SetHeapBreak(newBreak: nat, hasMemory: bool) returns (ok: bool)
      requires Valid() && newBreak < WORD
      modifies this
      ensures Valid() && m_HeapBase == old(m_HeapBase)
      ensures ok <==> m_HeapBase <= AlignUp(newBreak) <= old(m_Regions)[|old(m_Regions)| - 1].start
                      && (AlignUp(newBreak) > old(m_HeapBreak) ==> hasMemory)
      ensures !ok ==> m_Regions == old(m_Regions) && m_HeapBreak == old(m_HeapBreak)
      ensures ok ==>
                && m_HeapBreak == AlignUp(newBreak)
                && BreakMoved(old(m_Regions), m_Regions, |m_Regions| - 2, AlignUp(newBreak))
    {
      var found := FindRegionByType(Heap);
      var h := found.value;
      var alignedBreak := AlignUp(newBreak);
      if alignedBreak < m_HeapBase {
        return false;
      }
      var s := FindRegionByType(Stack);
      if alignedBreak > m_Regions[s.value].start {
        return false;
      }
      PagesGrow(m_Regions[h].start, m_Regions[h].end, alignedBreak);
      if (alignedBreak - m_Regions[h].start) / PAGE > PageCount(m_Regions[h]) && !hasMemory {
        return false;
      }
      MoveBreak(h, alignedBreak);
      return true;
    }

    /** The stack's region gains a page at its low end; its records are stored last page
        first, so the new one goes at the end. The caller has to see to it that a page of
        room is left above the heap: without it the regions come to overlap. */
    method GrowStackByPage(hasMemory: bool) returns (ok: bool)
      requires Valid() && m_Regions[|m_Regions| - 1].start >= PAGE
      modifies this`m_Regions
      ensures |m_Regions| == |old(m_Regions)| && ok == hasMemory
      ensures Valid() <==> !ok || old(m_Regions)[|m_Regions| - 1].start >= m_HeapBreak + PAGE
      ensures var s := |m_Regions| - 1;
              && m_Regions == (if ok then old(m_Regions)[s := m_Regions[s]] else old(m_Regions))
              && (ok ==> m_Regions[s].start == old(m_Regions)[s].start - PAGE
                         && m_Regions[s].end == old(m_Regions)[s].end
                         && forall a :: m_Regions[s].start <= a < old(m_Regions)[s].start ==>
                           IsFresh(m_Regions[s], a, s))
      ensures SameInfos(old(m_Regions), m_Regions)
    {
      var found := FindRegionByType(Stack);
      var s := found.value;
      SameInfosRefl(m_Regions);
      if !hasMemory {
        return false;
      }
      StackMoves(m_Regions, s);
      m_Regions := m_Regions[s := StackDown(m_Regions[s], s)];
      return true;
    }

    /** HandlePageFault up to the paging itself, for an absent page: the region to page in,
        after the stack has grown by a page for an access just below it. It never grows
        to within a page of the heap. */
    method FindOrGrow(faultAddress: nat, esp: nat, hasMemory: bool) returns (r: Option<nat>)
      requires Valid() && esp < WORD
      modifies this`m_Regions
      ensures Valid() && |m_Regions| == |old(m_Regions)| && SameInfos(old(m_Regions), m_Regions)
      ensures r.Some? <==> Mapped(m_Regions, faultAddress)
      ensures r.Some? ==> r.value < |m_Regions| && Holds(m_Regions[r.value], faultAddress)
      ensures var s := |m_Regions| - 1;
              (m_Regions != old(m_Regions) <==>
                && hasMemory && !old(Mapped(m_Regions, faultAddress))
                && Sub(esp, 8) <= faultAddress < old(m_Regions)[s].start
                && old(m_Regions)[s].start > m_HeapBreak + PAGE)
              && (m_Regions != old(m_Regions) ==>
                m_Regions == old(m_Regions)[s := m_Regions[s]] && m_Regions[s].start == old(m_Regions)[s].start - PAGE
                && (m_Regions[s].start <= faultAddress ==> r == Some(s)))
    {
      SameInfosRefl(m_Regions);
      r := FindRegion(faultAddress);
      var s := |m_Regions| - 1;
      if r.None? && faultAddress >= Sub(esp, 8) && faultAddress < m_Regions[s].start {
        if m_Regions[s].start <= m_HeapBreak + PAGE {
          return;
        }
        r := GrowAndFind(faultAddress, hasMemory);
      }
    }

    method GrowAndFind(faultAddress: nat, hasMemory: bool) returns (r: Option<nat>)
      requires Valid() && m_Regions[|m_Regions| - 1].start >= m_HeapBreak + PAGE
      requires !Mapped(m_Regions, faultAddress)
      modifies this`m_Regions
      ensures Valid() && |m_Regions| == |old(m_Regions)| && SameInfos(old(m_Regions), m_Regions)
      ensures r.Some? <==> Mapped(m_Regions, faultAddress)
      ensures r.Some? ==> r.value < |m_Regions| && Holds(m_Regions[r.value], faultAddress)
      ensures hasMemory <==> m_Regions != old(m_Regions)
      ensures var s := |m_Regions| - 1;
              m_Regions != old(m_Regions) ==>
                && m_Regions == old(m_Regions)[s := m_Regions[s]]
                && m_Regions[s].start == old(m_Regions)[s].start - PAGE
                && (m_Regions[s].start <= faultAddress < old(m_Regions)[s].start ==> r == Some(s))
    {
      ghost var s := |m_Regions| - 1;
      var grown := GrowStackByPage(hasMemory);
      r := None;
      if grown {
        assert m_Regions[s].start < old(m_Regions)[s].start;
        r := FindRegion(faultAddress);
        assert Holds(m_Regions[s], faultAddress) ==> r == Some(s);
      }
    }
  }

  ghost predicate LaidOut(rs: seq<Region>, base: nat, brk: nat) {
    && Ordered(rs) && HeapAndStack(rs)
    && rs[|rs| - 2].start == base && rs[|rs| - 2].end == brk && base % PAGE == 0 && brk % PAGE == 0
    && rs[|rs| - 1].start % PAGE == 0 && rs[|rs| - 1].end % PAGE == 0
  }

  /** Only the heap region h changed: it ends at b. */
  ghost predicate BreakMoved(rs: seq<Region>, ss: seq<Region>, h: nat, b: nat) {
    && h < |rs| && |ss| == |rs| && ss == rs[h := ss[h]] && ss[h].start == rs[h].start && ss[h].end == b
    && SameInfos(rs, ss) && forall a :: rs[h].end <= a < b ==> IsFresh(ss[h], a, h)
  }

  lemma PagesGrow(start: nat, end: nat, b: nat)
    requires start % PAGE == 0 && end % PAGE == 0 && b % PAGE == 0 && start <= end && start <= b
    ensures (b - start) / PAGE > (end - start) / PAGE <==> b > end
  {
  }

  lemma ConfiguredLaidOut(rs: seq<Region>, l: Layout)
    requires l.InWords() && Configured(rs, l)
    ensures LaidOut(rs, l.DataEnd(), l.DataEnd())
  {
    var n: nat :| ConfiguredAt(rs, l, n);
    assert rs[|rs| - 2].start == l.DataEnd();
  }

  /** Region number index has a record for each of its pages, all reserved; k counts from its
      low end. */
  ghost predicate RegionUnused(r: Region, index: nat) {
    && |r.pages| == PageCount(r)
    && forall k: nat :: k < |r.pages| ==>
         r.pages[if r.growsDown then |r.pages| - 1 - k else k] == PageInfo(Reserved, index, 0, k * PAGE, 0)
  }

  ghost predicate Unused(rs: seq<Region>) {
    forall i: nat :: i < |rs| ==> RegionUnused(rs[i], i)
  }

  function NewRegion(kind: Kind, start: nat, end: nat, growsDown: bool, index: nat): (r: Region)
    ensures r.kind == kind && r.start == start && r.end == end && r.growsDown == growsDown && RegionUnused(r, index)
  {
    var n := if start <= end then (end - start) / PAGE else 0;
    Region(kind, start, end, growsDown,
      seq(n, k requires 0 <= k < n => PageInfo(Reserved, index, 0, (if growsDown then n - 1 - k else k) * PAGE, 0)))
  }

  /** Addresses between the ranges done and the next one lie in no range. */
  lemma Between(ranges: seq<Range>, i: nat, cursor: nat, ro: Range, bss: Range)
    requires ranges == Ranges(ro, bss) && i <= |ranges| && forall j :: 0 <= j < i ==> ranges[j].end <= cursor
    ensures forall a :: cursor <= a && (i < |ranges| ==> a < ranges[i].start) ==> KindFits(Data, ro, bss, a)
  {
    forall a | cursor <= a && (i < |ranges| ==> a < ranges[i].start) ensures KindFits(Data, ro, bss, a) {
      forall j | 0 <= j < |ranges| ensures !InRange(ranges[j], a) {
        if i < j { assert ranges[i].start <= ranges[j].start; }
      }
      assert InRange(ro, a) ==> ro in ranges;
      assert InRange(bss, a) ==> bss in ranges;
    }
  }

  /** Regions 0 and 1 are those of `head`; the rest tile the data segment up to cursor. */
  ghost predicate PlacedUpTo(rs: seq<Region>, head: seq<Region>, lo: nat, cursor: nat, ro: Range, bss: Range) {
    && |head| == 2 <= |rs| && rs[..2] == head
    && Tiles(rs[2..], lo, cursor) && KindsFit(rs[2..], ro, bss) && OfData(rs[2..]) && Unused(rs)
  }

  lemma PlaceMore(rs: seq<Region>, r: Region, head: seq<Region>, lo: nat, ro: Range, bss: Range)
    requires PlacedUpTo(rs, head, lo, r.start, ro, bss) && r.start <= r.end && OfSegment(r.kind)
    requires RegionUnused(r, |rs|) && forall a :: Holds(r, a) ==> KindFits(r.kind, ro, bss, a)
    ensures PlacedUpTo(rs + [r], head, lo, r.end, ro, bss)
  {
    AppendPiece(rs[2..], r, lo, ro, bss);
    assert (rs + [r])[2..] == rs[2..] + [r];
    assert (rs + [r])[..2] == rs[..2];
  }

  lemma AppendPiece(rs: seq<Region>, r: Region, lo: nat, ro: Range, bss: Range)
    requires r.start <= r.end && Tiles(rs, lo, r.start) && KindsFit(rs, ro, bss)
    requires forall a :: Holds(r, a) ==> KindFits(r.kind, ro, bss, a)
    ensures Tiles(rs + [r], lo, r.end) && KindsFit(rs + [r], ro, bss)
  {
    TilesMore(rs, lo, r.start, r);
  }

  predicate IsHead(head: seq<Region>, l: Layout) {
    && |head| == 2 && head[0].kind == Runtime && head[0].start == 0 && head[0].end == PAGE
    && head[1].kind == Code && head[1].start == l.codeStart && head[1].end == l.CodeEnd() && l.codeStart <= l.CodeEnd()
  }

  lemma TailOrdered(anchor: seq<Region>, heap: Region, stack: Region, lo: nat, hi: nat)
    requires anchor == [] || (|anchor| == 1 && anchor[0].start == anchor[0].end == lo)
    requires heap.start == heap.end == hi && stack.start <= stack.end == USER_END
    ensures Ordered(anchor + [heap, stack]) <==> hi <= stack.start && (anchor == [] || lo <= hi)
    ensures (anchor + [heap, stack])[0].start == if anchor == [] then hi else lo
  {
    var t := anchor + [heap, stack];
    assert t == if anchor == [] then [heap, stack] else [anchor[0], heap, stack];
    if Ordered(t) { assert t[|t| - 2].end <= t[|t| - 1].start; }
  }

  /** Data tiling lo .. max(lo, hi) in front of a tail. */
  lemma DataOrdered(data: seq<Region>, tail: seq<Region>, lo: nat, hi: nat)
    requires Tiles(data, lo, Max(lo, hi)) && tail != [] && (tail[0].start == lo || tail[0].start == hi)
    requires data == [] ==> hi <= lo
    requires Ordered(tail)
    ensures Ordered(data + tail) <==> data == [] || Max(lo, hi) <= tail[0].start
    ensures (data + tail)[0].start == if data == [] then tail[0].start else lo
  {
    OrderedJoin(data, tail);
    TilesOrdered(data, lo, Max(lo, hi));
  }

  /** When the pieces are in order: the anchor is, only in an empty data segment. */
  lemma PiecesOrdered(head: seq<Region>, data: seq<Region>, anchor: seq<Region>, heap: Region, stack: Region, lo: nat,
    hi: nat)
    requires |head| == 2 && head[0].start <= head[0].end && head[1].start <= head[1].end && Tiles(data, lo, Max(lo, hi))
    requires (anchor == [] && lo < hi) || (|anchor| == 1 && anchor[0].start == anchor[0].end == lo)
    requires heap.start == heap.end == hi && stack.start <= stack.end == USER_END
    ensures Ordered(head + (data + (anchor + [heap, stack]))) <==>
              head[0].end <= head[1].start && head[1].end <= lo <= hi <= stack.start && (anchor == [] || lo == hi)
  {
    var tail := anchor + [heap, stack];
    TailOrdered(anchor, heap, stack, lo, hi);
    OrderedJoin(head, data + tail);
    OrderedJoin(data, tail);
    if Ordered(tail) { DataOrdered(data, tail, lo, hi); }
    HeadOrdered(head);
  }

  lemma HeadOrdered(head: seq<Region>)
    requires |head| == 2 && head[0].start <= head[0].end && head[1].start <= head[1].end
    ensures Ordered(head) <==> head[0].end <= head[1].start && head[1].end <= USER_END
  {
  }

  lemma LayoutOrdered(head: seq<Region>, data: seq<Region>, anchor: seq<Region>, heap: Region, stack: Region, l: Layout)
    requires l.InWords() && IsHead(head, l) && OfData(data) && OfData(anchor)
    requires Tiles(data, l.dataStart, Max(l.dataStart, l.DataEnd())) && KindsFit(data, l.Ro(), l.Bss())
    requires if HasPlainData(l.dataStart, l.DataEnd(), l.Ro(), l.Bss()) then anchor == []
             else |anchor| == 1 && anchor[0].start == anchor[0].end == l.dataStart
    requires heap.kind == Heap && !heap.growsDown
    requires heap.start == heap.end == l.DataEnd() && |heap.pages| == PageCount(heap)
    requires stack.kind == Stack && stack.growsDown
    requires stack.start == l.StackBottom() <= stack.end == USER_END && |stack.pages| == PageCount(stack)
    ensures var rs := head + (data + (anchor + [heap, stack]));
            (Ordered(rs) <==> l.Fits()) && (Ordered(rs) ==> Configured(rs, l))
  {
    var rs := head + (data + (anchor + [heap, stack]));
    PiecesOrdered(head, data, anchor, heap, stack, l.dataStart, l.DataEnd());
    if Ordered(rs) { LayoutConfigured(rs, head, data, anchor, heap, stack, l); }
  }

  lemma LayoutConfigured(rs: seq<Region>, head: seq<Region>, data: seq<Region>, anchor: seq<Region>,
                         heap: Region, stack: Region, l: Layout)
    requires l.InWords() && IsHead(head, l) && OfData(data) && OfData(anchor) && |anchor| <= 1
    requires rs == head + (data + (anchor + [heap, stack])) && Ordered(rs) && l.dataStart <= l.DataEnd()
    requires Tiles(data, l.dataStart, l.DataEnd()) && KindsFit(data, l.Ro(), l.Bss())
    requires heap.kind == Heap && !heap.growsDown
    requires heap.start == heap.end == l.DataEnd() && |heap.pages| == PageCount(heap)
    requires stack.kind == Stack && stack.growsDown
    requires stack.start == l.StackBottom() <= stack.end == USER_END && |stack.pages| == PageCount(stack)
    ensures Configured(rs, l)
  {
    var n := 2 + |data|;
    assert rs[2..n] == data && rs[|rs| - 2] == heap && rs[|rs| - 1] == stack && rs[0] == head[0] && rs[1] == head[1];
    forall i | 0 <= i < |rs| - 2 ensures rs[i].kind != Heap && rs[i].kind != Stack {
      assert rs[i] == if i < 2 then head[i] else if i < n then data[i - 2] else anchor[i - n];
    }
    assert ConfiguredAt(rs, l, n);
  }

  // ------------------------------------------------------- page records

  /** GetPageInfoByAddress within the region found. */
  function InfoOf(r: Region, a: nat): Option<PageInfo>
    requires Holds(r, a)
  {
    if AlignDown(a) < r.start then None
    else
      var (count, offset) := (PageCount(r), (AlignDown(a) - r.start) / PAGE);
      if offset >= count || |r.pages| != count then None
      else if r.growsDown then Some(r.pages[count - 1 - offset])
      else Some(r.pages[offset])
  }

  /** A newly reserved page. */
  predicate IsFresh(r: Region, a: nat, index: nat) {
    Holds(r, a) && AlignDown(a) >= r.start
    && InfoOf(r, a) == Some(PageInfo(Reserved, index, 0, AlignDown(a) - r.start, 0))
  }

  /** Every address in the same region before and after keeps its record. */
  ghost predicate SameInfos(rs: seq<Region>, ss: seq<Region>) {
    && |rs| == |ss|
    && forall i, a :: 0 <= i < |rs| && Holds(rs[i], a) && Holds(ss[i], a) ==> InfoOf(ss[i], a) == InfoOf(rs[i], a)
  }

  lemma SameInfosRefl(rs: seq<Region>)
    ensures SameInfos(rs, rs)
  {
  }

  /** The heap with another end: records beyond it go, records up to it are added. */
  function HeapTo(r: Region, index: nat, end: nat): Region
    requires r.start <= end
  {
    var n := (end - r.start) / PAGE;
    var more := if n <= |r.pages| then 0 else n - |r.pages|;
    var added := seq(more, o requires 0 <= o < more => PageInfo(Reserved, index, 0, (|r.pages| + o) * PAGE, 0));
    r.(end := end, pages := if n <= |r.pages| then r.pages[..n] else r.pages + added)
  }

  function StackDown(r: Region, index: nat): Region
    requires r.start >= PAGE
  {
    r.(start := r.start - PAGE, pages := r.pages + [PageInfo(Reserved, index, 0, 0, 0)])
  }

  lemma PageOffset(start: nat, a: nat)
    requires start % PAGE == 0 && a >= start
    ensures AlignDown(a) >= start && (AlignDown(a) - start) / PAGE == a / PAGE - start / PAGE
  {
  }

  lemma HeapMoves(rs: seq<Region>, h: nat, end: nat)
    requires Ordered(rs) && HeapAndStack(rs) && h == |rs| - 2 && end % PAGE == 0
    requires rs[h].start <= end <= rs[h + 1].start && rs[h].start % PAGE == 0 && rs[h].end % PAGE == 0
    ensures var ss := rs[h := HeapTo(rs[h], h, end)];
            && Ordered(ss) && HeapAndStack(ss) && SameInfos(rs, ss)
            && forall a :: rs[h].end <= a < end ==> IsFresh(ss[h], a, h)
  {
    HeapInfos(rs[h], h, end);
    HeapReplaced(rs, h, HeapTo(rs[h], h, end));
  }

  lemma HeapReplaced(rs: seq<Region>, h: nat, t: Region)
    requires Ordered(rs) && HeapAndStack(rs) && h == |rs| - 2
    requires t.kind == Heap && !t.growsDown && |t.pages| == PageCount(t)
    requires rs[h].start == t.start <= t.end <= rs[h + 1].start
    requires forall a :: Holds(rs[h], a) && Holds(t, a) ==> InfoOf(t, a) == InfoOf(rs[h], a)
    ensures var ss := rs[h := t]; Ordered(ss) && HeapAndStack(ss) && SameInfos(rs, ss)
  {
  }

  lemma FreshInHeap(r: Region, h: nat, end: nat, a: nat)
    requires !r.growsDown && r.start <= r.end <= a < end && |r.pages| == PageCount(r)
    requires r.start % PAGE == 0 && r.end % PAGE == 0 && end % PAGE == 0
    ensures IsFresh(HeapTo(r, h, end), a, h)
  {
    PageOffset(r.start, a);
  }

  lemma HeapInfos(r: Region, h: nat, end: nat)
    requires !r.growsDown && r.start <= r.end && r.start <= end && |r.pages| == PageCount(r)
    requires r.start % PAGE == 0 && r.end % PAGE == 0 && end % PAGE == 0
    ensures var t := HeapTo(r, h, end);
            && |t.pages| == PageCount(t)
            && (forall a :: Holds(r, a) && Holds(t, a) ==> InfoOf(t, a) == InfoOf(r, a))
            && forall a :: r.end <= a < end ==> IsFresh(t, a, h)
  {
    var t := HeapTo(r, h, end);
    forall a | Holds(r, a) && Holds(t, a) ensures InfoOf(t, a) == InfoOf(r, a) { PageOffset(r.start, a); }
    forall a | r.end <= a < end ensures IsFresh(t, a, h) { FreshInHeap(r, h, end, a); }
  }

  /** Each page's record keeps its place from the end, which is where it is looked up. The
      regions stay in order exactly when there is a page of room above the heap. */
  lemma StackMoves(rs: seq<Region>, s: nat)
    requires Ordered(rs) && HeapAndStack(rs) && s == |rs| - 1 && rs[s].start >= PAGE
    requires rs[s].start % PAGE == 0 && rs[s].end % PAGE == 0
    ensures var ss := rs[s := StackDown(rs[s], s)];
            && HeapAndStack(ss) && SameInfos(rs, ss) && (Ordered(ss) <==> rs[s - 1].end + PAGE <= rs[s].start)
            && forall a :: ss[s].start <= a < rs[s].start ==> IsFresh(ss[s], a, s)
  {
    var r, t := rs[s], StackDown(rs[s], s);
    forall a | Holds(r, a) && Holds(t, a) ensures InfoOf(t, a) == InfoOf(r, a) {
      PageOffset(r.start, a);
      PageOffset(t.start, a);
    }
    forall a | t.start <= a < r.start ensures IsFresh(t, a, s) { PageOffset(t.start, a); }
  }
}
