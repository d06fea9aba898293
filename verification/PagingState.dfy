/** The demand-paging state shared by all processes: physical frames, swap slots
    and per-process page records, with the primitive updates the kernel performs
    on them (src/mm/PageManager.cpp, src/mm/SwapManager.cpp,
    src/proc/MemoryDescriptor.cpp).

    Frames are numbered from the start of the user pool, so frame 0 is the global
    zero page. */
module PagingState {
  import opened Common

  const PAGE_SIZE: nat := 4096
  const MAX_COUNT: nat := 0xffff   // the frame counters are 16 bits wide
  const NPROC: nat := 100
  const USER_PAGE_COUNT: nat := 2048

  type Page = s: seq<byte> | |s| == PAGE_SIZE witness seq(PAGE_SIZE, _ => 0)

  function ZeroPage(): (z: Page)
    ensures forall i :: 0 <= i < PAGE_SIZE ==> z[i] == 0
  {
    seq(PAGE_SIZE, _ => 0)
  }

  datatype PageId = PageId(pid: nat, vpn: nat)

  datatype PageState = Reserved | Resident | Swapped

  datatype Backing = ZeroFill | ExecFile

  datatype Pte = Pte(present: bool, rw: bool, frame: nat, accessed: bool, dirty: bool)

  const NO_PTE := Pte(false, false, 0, false, false)

  /** One page of one process. `initial` is what the backing store supplies on the
      first touch: zeros, or the page of the executable file. */
  datatype PageInfo = PageInfo(
    state: PageState, swappedCow: bool, frame: nat, slot: Option<nat>, pte: Pte,
    backing: Backing, initial: Page)

  datatype Frame = Frame(
    used: bool, mapCount: nat, rmap: seq<PageId>, cowRef: nat,
    zero: bool, cow: bool, pinned: bool)

  datatype Slot = Slot(
    used: bool, mapCount: nat, residentCount: nat, residentFrame: Option<nat>, data: Page)

  datatype Mem = Mem(frames: seq<Frame>, ram: seq<Page>, slots: seq<Slot>, pages: map<PageId, PageInfo>)

  const FREE_FRAME := Frame(false, 0, [], 0, false, false, false)

  // ---------------------------------------------------------------- frames

  function Remove(s: seq<PageId>, p: PageId): seq<PageId> {
    if s == [] then [] else if s[0] == p then s[1..] else [s[0]] + Remove(s[1..], p)
  }

  /** AttachReverseMap. */
  function AttachReverseMap(fr: Frame, p: PageId, zero: bool, cow: bool): Frame {
    fr.(rmap := fr.rmap + [p], mapCount := fr.mapCount + 1, zero := fr.zero || zero, cow := fr.cow || cow)
  }

  /** DetachReverseMap, including the release of one copy-on-write reference. */
  function DetachReverseMap(fr: Frame, f: nat, p: PageId): Frame {
    var unlinked := fr.(rmap := Remove(fr.rmap, p), mapCount := if fr.mapCount != 0 then fr.mapCount - 1 else 0);
    var released :=
      if fr.cowRef != 0 then
        unlinked.(cowRef := fr.cowRef - 1, cow := if fr.cowRef - 1 == 0 then false else unlinked.cow)
      else unlinked;
    if released.mapCount == 0 then
      released.(cow := false, cowRef := if f == 0 then released.cowRef else 0)
    else released
  }

  /** ShareAsCopyOnWrite refuses once the 16-bit counter is saturated. */
  predicate CanShare(fr: Frame) {
    fr.cowRef != MAX_COUNT
  }

  function ShareAsCopyOnWrite(fr: Frame): Frame {
    fr.(cowRef := if fr.cowRef == 0 then 2 else fr.cowRef + 1, cow := true)
  }

  /** The free that DetachFrame performs when nothing maps the frame any more. */
  function FreeIfUnmapped(fr: Frame, f: nat): Frame {
    if fr.mapCount == 0 && !fr.pinned && f != 0 then
      fr.(used := false, cowRef := 0, zero := false, cow := false, pinned := false, rmap := [])
    else fr
  }

  // ----------------------------------------------------------------- slots

  function FreeSlot(s: Slot): Slot {
    s.(used := false, mapCount := 0, residentCount := 0, residentFrame := None)
  }

  function ReleaseSlotReference(s: Slot): Slot {
    var m := if s.mapCount != 0 then s.mapCount - 1 else 0;
    var r := if s.residentCount > m then m else s.residentCount;
    var t := s.(mapCount := m, residentCount := r, residentFrame := if r == 0 then None else s.residentFrame);
    if m == 0 then FreeSlot(t) else t
  }

  function ReleaseResidentReference(s: Slot): Slot {
    var r := if s.residentCount != 0 then s.residentCount - 1 else 0;
    var m := if s.mapCount != 0 then s.mapCount - 1 else 0;
    var t := s.(mapCount := m, residentCount := r, residentFrame := if r == 0 then None else s.residentFrame);
    if m == 0 then FreeSlot(t) else t
  }

  /** RegisterResident refuses an unused slot or one whose sharers use another frame. */
  predicate CanRegister(s: Slot, f: nat) {
    s.used && (s.residentFrame == None || s.residentFrame == Some(f))
  }

  function RegisterResident(s: Slot, f: nat): Slot {
    s.(residentFrame := Some(f),
       residentCount := if s.residentCount < s.mapCount then s.residentCount + 1 else s.residentCount)
  }

  // ------------------------------------------------------- page primitives

  predicate OnFrame(m: Mem, p: PageId, f: nat) {
    p in m.pages && m.pages[p].state.Resident? && m.pages[p].frame == f
  }

  predicate Names(m: Mem, p: PageId, s: nat) {
    p in m.pages && m.pages[p].slot == Some(s)
  }

  /** Bounds that make the indices of a page record meaningful. */
  predicate InBounds(m: Mem, p: PageId) {
    && p in m.pages
    && |m.ram| == |m.frames|
    && (m.pages[p].state.Resident? ==> m.pages[p].frame < |m.frames|)
    && (m.pages[p].slot.Some? ==> m.pages[p].slot.value < |m.slots|)
  }

  /** DetachFrame(page, clearPte, resetToReserved, freeFrameIfUnmapped). */
  function Detach(m: Mem, p: PageId): Mem
    requires InBounds(m, p) && m.pages[p].state.Resident?
  {
    var i := m.pages[p];
    var f := i.frame;
    m.(frames := m.frames[f := FreeIfUnmapped(DetachReverseMap(m.frames[f], f, p), f)],
       slots := if i.slot.Some? && m.slots[i.slot.value].used
                then m.slots[i.slot.value := ReleaseResidentReference(m.slots[i.slot.value])] else m.slots,
       pages := m.pages[p := i.(state := Reserved, frame := 0, slot := None, pte := NO_PTE)])
  }

  /** AttachFrame on a page that is not attached; MapPage clears accessed and dirty. */
  function Attach(m: Mem, p: PageId, f: nat, rw: bool, zero: bool, cow: bool): Mem
    requires p in m.pages && f < |m.frames|
  {
    m.(frames := m.frames[f := AttachReverseMap(m.frames[f], p, zero, cow)],
       pages := m.pages[p := m.pages[p].(state := Resident, frame := f, slot := None,
                                         pte := Pte(true, rw, f, false, false))])
  }

  /** FreePageInfo on a swapped page. */
  function DropSwapped(m: Mem, p: PageId): Mem
    requires InBounds(m, p) && m.pages[p].state.Swapped? && m.pages[p].slot.Some?
  {
    var s := m.pages[p].slot.value;
    m.(slots := if m.slots[s].used then m.slots[s := ReleaseSlotReference(m.slots[s])] else m.slots,
       pages := m.pages[p := m.pages[p].(state := Reserved, frame := 0, slot := None)])
  }

  /** The tail of EvictPageToSwap: a detached page is recorded against its slot. */
  function NameSlot(m: Mem, p: PageId, t: nat, cow: bool): Mem
    requires p in m.pages
  {
    m.(pages := m.pages[p := m.pages[p].(state := Swapped, frame := 0, slot := Some(t), swappedCow := cow)])
  }

  function EvictPageToSwap(m: Mem, p: PageId, t: nat): Mem
    requires InBounds(m, p) && m.pages[p].state.Resident?
  {
    var cow := m.frames[m.pages[p].frame].cowRef != 0;
    NameSlot(Detach(m, p), p, t, cow)
  }

  /** AllocatePage's bookkeeping for the frame it picked. */
  function TakeFrame(m: Mem, f: nat): Mem
    requires f < |m.frames|
  {
    m.(frames := m.frames[f := FREE_FRAME.(used := true)])
  }

  /** The new contents of a frame nobody maps yet (zeroed, read from a slot or a file, or copied). */
  function FillFrame(m: Mem, f: nat, page: Page): Mem
    requires f < |m.ram|
  {
    m.(ram := m.ram[f := page])
  }

  /** MapZeroPageForCopyOnWrite once the zero page accepts another reference. */
  function MapZeroPage(m: Mem, p: PageId): Mem
    requires p in m.pages && 0 < |m.frames|
  {
    Attach(m.(frames := m.frames[0 := ShareAsCopyOnWrite(m.frames[0])]), p, 0, false, true, true)
  }

  /** SetCopyOnWriteRefCount, through the 16-bit parameter. */
  function SetCopyOnWriteRefCount(fr: Frame, count: nat): Frame {
    var refs := count % (MAX_COUNT + 1);
    fr.(cowRef := refs, cow := refs != 0)
  }

  /** The swap-in branch of EnsurePagePresent once frame f holds the contents. */
  function SwapIn(m: Mem, p: PageId, f: nat): Mem
    requires InBounds(m, p) && m.pages[p].slot.Some? && f < |m.frames|
  {
    var s := m.pages[p].slot.value;
    var sharers := m.slots[s].mapCount;
    var cow := m.pages[p].swappedCow && sharers > 1;
    var fr := AttachReverseMap(m.frames[f], p, false, cow);
    m.(frames := m.frames[f := if cow then SetCopyOnWriteRefCount(fr, sharers) else fr],
       slots := m.slots[s := RegisterResident(m.slots[s], f)],
       pages := m.pages[p := m.pages[p].(state := Resident, frame := f, swappedCow := false,
                                         pte := Pte(true, !cow, f, false, false))])
  }

  function AddSlotReference(s: Slot): Slot {
    if s.used then s.(mapCount := s.mapCount + 1) else s
  }

  /** The two clone calls for one page that is resident in the parent: parent and child
      map the frame read-only and name the same slot. */
  function ForkResident(m: Mem, p: PageId, q: PageId): Mem
    requires InBounds(m, p) && m.pages[p].state.Resident? && q in m.pages && q != p
  {
    var i := m.pages[p];
    var f := i.frame;
    m.(frames := m.frames[f := AttachReverseMap(ShareAsCopyOnWrite(m.frames[f]), q, false, true)],
       slots := if i.slot.None? then m.slots
                else m.slots[i.slot.value := RegisterResident(AddSlotReference(m.slots[i.slot.value]), f)],
       pages := m.pages[p := i.(pte := i.pte.(rw := false))]
                       [q := m.pages[q].(state := Resident, frame := f, slot := i.slot,
                                         pte := Pte(true, false, f, false, false))])
  }

  /** CloneFrom for one page that is swapped out in the parent: the child names the same slot. */
  function ForkSwapped(m: Mem, p: PageId, q: PageId): Mem
    requires InBounds(m, p) && m.pages[p].state.Swapped? && m.pages[p].slot.Some? && q in m.pages
  {
    var s := m.pages[p].slot.value;
    m.(slots := m.slots[s := AddSlotReference(m.slots[s])],
       pages := m.pages[q := m.pages[q].(state := Swapped, frame := 0, slot := Some(s),
                                         swappedCow := m.pages[p].swappedCow)])
  }

  /** HandleCopyOnWriteFault on the last copy: the mapping becomes writable in place. */
  function MakeWritable(m: Mem, p: PageId): Mem
    requires InBounds(m, p) && m.pages[p].state.Resident?
  {
    var i := m.pages[p];
    m.(frames := m.frames[i.frame := m.frames[i.frame].(cowRef := 0, cow := false)],
       pages := m.pages[p := i.(pte := i.pte.(rw := true))])
  }

  /** AllocateSlot followed by WritePage: slot t expects k mappings of `data`. */
  function TakeSlot(m: Mem, t: nat, k: nat, data: Page): Mem
    requires t < |m.slots|
  {
    m.(slots := m.slots[t := Slot(true, k, 0, None, data)])
  }

  /** One entry of ClearPageTables and RemapResidentPages: writable unless the frame is shared. */
  function RemapPage(m: Mem, p: PageId): Mem
    requires InBounds(m, p)
  {
    var i := m.pages[p];
    m.(pages := m.pages[p := i.(pte :=
      if i.state.Resident? then Pte(true, m.frames[i.frame].cowRef == 0, i.frame, false, false) else NO_PTE)])
  }

  function SetPinned(m: Mem, f: nat, b: bool): Mem
    requires f < |m.frames|
  {
    m.(frames := m.frames[f := m.frames[f].(pinned := b)])
  }

  /** InitializeReservedPageInfo for a page the heap or the stack grew by. */
  function AddPage(m: Mem, p: PageId, flag: bool, backing: Backing, initial: Page): Mem {
    m.(pages := m.pages[p := PageInfo(Reserved, flag, 0, None, NO_PTE, backing, initial)])
  }

  function RemovePage(m: Mem, p: PageId): Mem {
    m.(pages := m.pages - {p})
  }

  /** A user store through a writable mapping, as the processor performs it. */
  function StoreByte(m: Mem, p: PageId, off: nat, b: byte): Mem
    requires InBounds(m, p) && m.pages[p].state.Resident? && off < PAGE_SIZE
  {
    var i := m.pages[p];
    m.(ram := m.ram[i.frame := m.ram[i.frame][off := b]],
       pages := m.pages[p := i.(pte := i.pte.(accessed := true, dirty := true))])
  }

  /** What a process reads at page p: the backing contents while nothing is resident,
      the frame while resident, and, while swapped, the frame another sharer already
      brought back or else the slot. */
  function View(m: Mem, p: PageId): Page
    requires InBounds(m, p)
  {
    var i := m.pages[p];
    match i.state
    case Reserved => i.initial
    case Resident => m.ram[i.frame]
    case Swapped =>
      if i.slot.None? then i.initial
      else
        var s := m.slots[i.slot.value];
        if s.residentFrame.Some? && s.residentFrame.value < |m.ram| then m.ram[s.residentFrame.value] else s.data
  }
}
