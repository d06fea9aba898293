/** Where a swap slot keeps its page: eight consecutive blocks behind the data zone of the root
    device. The blocks are those the buffer cache presents, memory is a map of page frames. */
module SwapArea {
  import opened Common
  import opened DiskBlocks
  import opened PagingState

  const BLOCKS_PER_PAGE: nat := 8               // PAGE_SIZE / BLOCK_SIZE
  const MAX_SWAP_SLOT_COUNT: nat := 1024
  const DATA_ZONE_END_SECTOR: nat := 17999
  const SWAP_BEGIN: nat := DATA_ZONE_END_SECTOR + 1

  /** As many slots as fit between the data zone and the end of the disk. */
  function SlotCount(sectors: nat): (n: nat)
    ensures n <= MAX_SWAP_SLOT_COUNT
    ensures forall s: nat :: s < n ==> SlotToBlock(s) + BLOCKS_PER_PAGE <= sectors
    ensures n < MAX_SWAP_SLOT_COUNT ==> sectors < SlotToBlock(n) + BLOCKS_PER_PAGE
  {
    var n := (if sectors > SWAP_BEGIN then sectors - SWAP_BEGIN else 0) / BLOCKS_PER_PAGE;
    if n > MAX_SWAP_SLOT_COUNT then MAX_SWAP_SLOT_COUNT else n
  }

  function SlotToBlock(slot: nat): (b: nat)
    ensures b > DATA_ZONE_END_SECTOR
  {
    SWAP_BEGIN + slot * BLOCKS_PER_PAGE
  }

  /** Different slots have different blocks. */
  lemma SlotsApart(s: nat, t: nat)
    requires s != t
    ensures SlotToBlock(s) + BLOCKS_PER_PAGE <= SlotToBlock(t) || SlotToBlock(t) + BLOCKS_PER_PAGE <= SlotToBlock(s)
  {
  }

  /** The i-th piece of a page, as it fills one block. */
  function Piece(page: Page, i: nat): Block
    requires i < BLOCKS_PER_PAGE
  {
    page[i * BLOCK_SIZE..(i + 1) * BLOCK_SIZE]
  }

  function WithPiece(page: Page, i: nat, block: Block): (r: Page)
    requires i < BLOCKS_PER_PAGE
    ensures forall j: nat :: j < BLOCKS_PER_PAGE ==> Piece(r, j) == if j == i then block else Piece(page, j)
  {
    page[..i * BLOCK_SIZE] + block + page[(i + 1) * BLOCK_SIZE..]
  }

  /** The slot's blocks hold the page. */
  ghost predicate Holds(disk: seq<Block>, slot: nat, page: Page) {
    && SlotToBlock(slot) + BLOCKS_PER_PAGE <= |disk|
    && forall i: nat :: i < BLOCKS_PER_PAGE ==> disk[SlotToBlock(slot) + i] == Piece(page, i)
  }

  /** Byte k of the page is where a reader of the disk would look for it. */
  lemma ByteOnDisk(disk: seq<Block>, slot: nat, page: Page, k: nat)
    requires Holds(disk, slot, page) && k < PAGE_SIZE
    ensures k / BLOCK_SIZE < BLOCKS_PER_PAGE && SlotToBlock(slot) + k / BLOCK_SIZE < |disk|
    ensures disk[SlotToBlock(slot) + k / BLOCK_SIZE][k % BLOCK_SIZE] == page[k]
  {
    var i := k / BLOCK_SIZE;
    assert disk[SlotToBlock(slot) + i] == Piece(page, i);
    assert k == i * BLOCK_SIZE + k % BLOCK_SIZE;
  }

  /** Only the slot's blocks have changed. */
  ghost predicate OnlySlot(d: seq<Block>, e: seq<Block>, slot: nat) {
    && |d| == |e|
    && forall b: nat :: b < |d| && !(SlotToBlock(slot) <= b < SlotToBlock(slot) + BLOCKS_PER_PAGE) ==> d[b] == e[b]
  }

  lemma {:induction false} PiecesDetermine(a: Page, b: Page)
    requires forall i: nat :: i < BLOCKS_PER_PAGE ==> Piece(a, i) == Piece(b, i)
    ensures a == b
  {
    forall k: nat | k < PAGE_SIZE ensures a[k] == b[k] {
      var i := k / BLOCK_SIZE;
      assert Piece(a, i)[k - i * BLOCK_SIZE] == Piece(b, i)[k - i * BLOCK_SIZE];
    }
  }

  lemma HeldPageUnique(disk: seq<Block>, slot: nat, a: Page, b: Page)
    requires Holds(disk, slot, a) && Holds(disk, slot, b)
    ensures a == b
  {
    forall i: nat | i < BLOCKS_PER_PAGE ensures Piece(a, i) == Piece(b, i) {
      assert disk[SlotToBlock(slot) + i] == Piece(a, i);
    }
    PiecesDetermine(a, b);
  }

  // --------------------------------------------------------------- runs

  datatype PageWrite = PageWrite(slot: nat, page: Page)

  /** The disk after each of a series of completed page writes. */
  ghost predicate Writes(disks: seq<seq<Block>>, ws: seq<PageWrite>) {
    && |disks| == |ws| + 1
    && forall k: nat :: k < |ws| ==>
         Holds(disks[k + 1], ws[k].slot, ws[k].page) && OnlySlot(disks[k], disks[k + 1], ws[k].slot)
  }

  /** The last page written to the slot, or what it held at the start. */
  function LastWritten(ws: seq<PageWrite>, slot: nat, initial: Page): Page {
    if ws == [] then initial
    else if ws[|ws| - 1].slot == slot then ws[|ws| - 1].page
    else LastWritten(ws[..|ws| - 1], slot, initial)
  }

  /** Whatever other slots are written meanwhile, a slot holds the page last written to it. */
  lemma {:induction false} SlotHoldsLastWrite(disks: seq<seq<Block>>, ws: seq<PageWrite>, slot: nat, initial: Page)
    requires Writes(disks, ws) && Holds(disks[0], slot, initial)
    ensures Holds(disks[|ws|], slot, LastWritten(ws, slot, initial))
    decreases |ws|
  {
    if ws != [] {
      var n := |ws| - 1;
      assert forall k: nat :: k < n ==> ws[..n][k] == ws[k];
      SlotHoldsLastWrite(disks[..n + 1], ws[..n], slot, initial);
      assert OnlySlot(disks[n], disks[n + 1], ws[n].slot);
      if ws[n].slot != slot {
        OtherSlotKept(disks[n], disks[n + 1], ws[n].slot, slot, LastWritten(ws[..n], slot, initial));
      }
    }
  }

  lemma OtherSlotKept(d: seq<Block>, e: seq<Block>, written: nat, slot: nat, page: Page)
    requires OnlySlot(d, e, written) && slot != written && Holds(d, slot, page)
    ensures Holds(e, slot, page)
  {
    forall i: nat | i < BLOCKS_PER_PAGE ensures e[SlotToBlock(slot) + i] == Piece(page, i) {
      SlotsApart(written, slot);
      assert d[SlotToBlock(slot) + i] == Piece(page, i);
    }
  }

  /** So a page read back from a slot is the page last written out to it. */
  lemma ReadBackIsLastWrite(disks: seq<seq<Block>>, ws: seq<PageWrite>, slot: nat, initial: Page, read: Page)
    requires Writes(disks, ws) && Holds(disks[0], slot, initial) && Holds(disks[|ws|], slot, read)
    ensures read == LastWritten(ws, slot, initial)
  {
    SlotHoldsLastWrite(disks, ws, slot, initial);
    HeldPageUnique(disks[|ws|], slot, read, LastWritten(ws, slot, initial));
  }

  /** No series of page writes reaches the file system: its blocks lie in front of the slots. */
  lemma {:induction false} FileSystemUntouched(disks: seq<seq<Block>>, ws: seq<PageWrite>, b: nat)
    requires Writes(disks, ws) && b <= DATA_ZONE_END_SECTOR && b < |disks[0]|
    ensures b < |disks[|ws|]| && disks[|ws|][b] == disks[0][b]
    decreases |ws|
  {
    if ws != [] {
      var n := |ws| - 1;
      assert forall k: nat :: k < n ==> ws[..n][k] == ws[k];
      FileSystemUntouched(disks[..n + 1], ws[..n], b);
      assert OnlySlot(disks[n], disks[n + 1], ws[n].slot);
    }
  }

  // ------------------------------------------- the slots of the paging model

  /** The disk holds, for every used slot, the page the paging model says is in it. */
  ghost predicate Stores(disk: seq<Block>, slots: seq<Slot>) {
    forall s: nat :: s < |slots| && slots[s].used ==> Holds(disk, s, slots[s].data)
  }

  /** WritePage is what puts a page into a slot taken for a frame. */
  lemma WriteRefinesTakeSlot(d: seq<Block>, e: seq<Block>, m: Mem, t: nat, k: nat, data: Page)
    requires Stores(d, m.slots) && t < |m.slots| && Holds(e, t, data) && OnlySlot(d, e, t)
    ensures Stores(e, TakeSlot(m, t, k, data).slots)
  {
    forall s: nat | s < |m.slots| && s != t && m.slots[s].used ensures Holds(e, s, m.slots[s].data) {
      OtherSlotKept(d, e, t, s, m.slots[s].data);
    }
  }

  /** ReadPage brings exactly the page of the slot. */
  lemma ReadRefinesSlot(d: seq<Block>, slots: seq<Slot>, s: nat, read: Page)
    requires Stores(d, slots) && s < |slots| && slots[s].used && Holds(d, s, read)
    ensures read == slots[s].data
  {
    HeldPageUnique(d, s, read, slots[s].data);
  }

  /** No other step of the paging model changes the page in a used slot, so none needs the
      disk. */
  lemma OtherStepsKeepStored(d: seq<Block>, m: Mem, p: PageId, q: PageId, f: nat)
    requires Stores(d, m.slots) && InBounds(m, p) && f < |m.frames|
    ensures m.pages[p].state.Resident? ==> Stores(d, Detach(m, p).slots)
    ensures m.pages[p].state.Swapped? && m.pages[p].slot.Some? && m.slots[m.pages[p].slot.value].used ==>
              && Stores(d, DropSwapped(m, p).slots) && Stores(d, SwapIn(m, p, f).slots)
              && (q in m.pages ==> Stores(d, ForkSwapped(m, p, q).slots))
    ensures m.pages[p].state.Resident? && q in m.pages && q != p
            && (m.pages[p].slot.Some? ==> m.slots[m.pages[p].slot.value].used) ==>
              Stores(d, ForkResident(m, p, q).slots)
  {
  }

  class SwapManager {
    var m_SlotCount: nat
    var m_SwapBeginBlock: nat
    var m_Initialized: bool
    var used: seq<bool>
    var disk: seq<Block>
    var ram: map<nat, Page>

    ghost predicate Valid()
      reads this
    {
      && |used| == MAX_SWAP_SLOT_COUNT && m_SlotCount <= SlotCount(|disk|)
      && (m_Initialized ==> m_SwapBeginBlock == SWAP_BEGIN && m_SlotCount == SlotCount(|disk|) != 0)
    }

    predicate Usable(slot: nat)
      reads this
    {
      m_Initialized && slot < m_SlotCount && slot < |used| && used[slot]
    }

    constructor (disk: seq<Block>, ram: map<nat, Page>)
      ensures Valid() && !m_Initialized && this.disk == disk && this.ram == ram
    {
      m_SlotCount, m_SwapBeginBlock, m_Initialized := 0, 0, false;
      used := seq(MAX_SWAP_SLOT_COUNT, _ => false);
      this.disk, this.ram := disk, ram;
    }

    /** All slots are free; there is a swap area exactly when the disk has room for a page. */
    method Initialize()
      requires Valid()
      modifies this
      ensures Valid() && disk == old(disk) && ram == old(ram)
      ensures m_SlotCount == SlotCount(|disk|) && forall s: nat :: !Usable(s)
      ensures m_Initialized <==> SWAP_BEGIN + BLOCKS_PER_PAGE <= |disk|
    {
      m_SwapBeginBlock := DATA_ZONE_END_SECTOR + 1;
      var swapBlocks := if |disk| > m_SwapBeginBlock then |disk| - m_SwapBeginBlock else 0;
      m_SlotCount := swapBlocks / BLOCKS_PER_PAGE;
      if m_SlotCount > MAX_SWAP_SLOT_COUNT { m_SlotCount := MAX_SWAP_SLOT_COUNT; }
      used := seq(MAX_SWAP_SLOT_COUNT, _ => false);
      m_Initialized := m_SlotCount != 0;
    }

    /** The lowest slot that is not in use. */
    method AllocateSlot(mapCount: nat) returns (r: Option<nat>)
      requires Valid()
      modifies this`used
      ensures Valid()
      ensures r.None? <==> !m_Initialized || mapCount == 0 || forall s: nat :: s < m_SlotCount ==> old(Usable(s))
      ensures r.None? ==> used == old(used)
      ensures r.Some? ==> Usable(r.value) && used == old(used)[r.value := true] && !old(used)[r.value]
      ensures r.Some? ==> forall s: nat :: s < r.value ==> old(Usable(s))
    {
      if !m_Initialized || mapCount == 0 { return None; }
      for i := 0 to m_SlotCount
        invariant used == old(used)
        invariant forall s: nat :: s < i ==> Usable(s)
      {
        if !used[i] {
          assert !Usable(i);
          used := used[i := true];
          return Some(i);
        }
      }
      r := None;
    }

    method FreeSlot(slot: nat)
      requires Valid()
      modifies this`used
      ensures Valid() && used == if m_Initialized && slot < m_SlotCount then old(used)[slot := false] else old(used)
    {
      if m_Initialized && slot < m_SlotCount {
        used := used[slot := false];
      }
    }

    /** The page frame goes to the slot's blocks; no other block changes, and memory not at all. */
    method WritePage(slot: nat, physicalAddress: nat) returns (ok: bool)
      requires Valid() && (physicalAddress != 0 ==> physicalAddress in ram)
      modifies this
      ensures Valid() && ram == old(ram) && used == old(used) && m_Initialized == old(m_Initialized)
      ensures m_SlotCount == old(m_SlotCount)
      ensures ok <==> old(Usable(slot)) && physicalAddress != 0
      ensures !ok ==> disk == old(disk)
      ensures ok ==> Holds(disk, slot, ram[physicalAddress]) && OnlySlot(old(disk), disk, slot)
    {
      if !Usable(slot) || physicalAddress == 0 { return false; }
      ghost var count := m_SlotCount;
      var at := m_SwapBeginBlock + slot * BLOCKS_PER_PAGE;
      assert at == SlotToBlock(slot);
      var i := 0;
      while i < BLOCKS_PER_PAGE
        invariant i <= BLOCKS_PER_PAGE && at + BLOCKS_PER_PAGE <= |disk|
        invariant ram == old(ram) && used == old(used) && m_Initialized && m_SwapBeginBlock == SWAP_BEGIN
        invariant m_SlotCount == count
        invariant OnlySlot(old(disk), disk, slot)
        invariant forall j: nat :: j < i ==> disk[at + j] == Piece(ram[physicalAddress], j)
      {
        disk := disk[at + i := Piece(ram[physicalAddress], i)];
        i := i + 1;
      }
      ok := true;
    }

    /** The slot's page comes into the frame; no other frame changes, and the disk not at all. */
    method ReadPage(slot: nat, physicalAddress: nat) returns (ok: bool)
      requires Valid() && (physicalAddress != 0 ==> physicalAddress in ram)
      modifies this
      ensures Valid() && disk == old(disk) && used == old(used) && m_Initialized == old(m_Initialized)
      ensures m_SlotCount == old(m_SlotCount)
      ensures ok <==> old(Usable(slot)) && physicalAddress != 0
      ensures !ok ==> ram == old(ram)
      ensures ok ==> physicalAddress in ram && Holds(disk, slot, ram[physicalAddress])
      ensures ok ==> ram == old(ram)[physicalAddress := ram[physicalAddress]]
    {
      if !Usable(slot) || physicalAddress == 0 { return false; }
      var at := m_SwapBeginBlock + slot * BLOCKS_PER_PAGE;
      assert at == SlotToBlock(slot);
      ghost var count := m_SlotCount;
      var i := 0;
      while i < BLOCKS_PER_PAGE
        invariant i <= BLOCKS_PER_PAGE && at + BLOCKS_PER_PAGE <= |disk|
        invariant disk == old(disk) && used == old(used) && m_Initialized && m_SwapBeginBlock == SWAP_BEGIN
        invariant m_SlotCount == count
        invariant physicalAddress in ram && ram == old(ram)[physicalAddress := ram[physicalAddress]]
        invariant forall j: nat :: j < i ==> disk[at + j] == Piece(ram[physicalAddress], j)
      {
        ram := ram[physicalAddress := WithPiece(ram[physicalAddress], i, disk[at + i])];
        i := i + 1;
      }
      ok := true;
    }
  }
}
