/** PageManager's bitmap of used pages, one entry per page. */
module PageBitmap {

  const PAGE_SIZE: nat := 0x1000

  /** Pages at .. at + n - 1 are free. */
  ghost predicate FreeRun(used: seq<bool>, at: nat, n: nat) {
    at + n <= |used| && forall p :: at <= p < at + n ==> !used[p]
  }

  ghost predicate HasFreeRun(used: seq<bool>, n: nat) {
    exists at: nat :: FreeRun(used, at, n)
  }

  /** The map with pages at .. at + n - 1 set to `value`. */
  function Marked(used: seq<bool>, at: nat, n: nat, value: bool): (r: seq<bool>)
    requires at + n <= |used|
    ensures |r| == |used| && forall p :: 0 <= p < |used| ==> r[p] == if at <= p < at + n then value else used[p]
  {
    used[..at] + seq(n, _ => value) + used[at + n..]
  }

  class PageManager {
    const m_Bitmap: array<bool>
    const m_PoolStartAddress: nat

    /** InitializePool: every page of the pool is free. */
    constructor (poolStartAddress: nat, pages: nat)
      ensures fresh(m_Bitmap) && m_Bitmap.Length == pages && m_PoolStartAddress == poolStartAddress
      ensures FreeRun(m_Bitmap[..], 0, pages)
    {
      m_Bitmap := new bool[pages](_ => false);
      m_PoolStartAddress := poolStartAddress;
    }

    /** MarkPagesUsed and MarkPagesFree. */
    method MarkPages(startPage: nat, pageCount: nat, value: bool)
      requires startPage + pageCount <= m_Bitmap.Length
      modifies m_Bitmap
      ensures m_Bitmap[..] == Marked(old(m_Bitmap[..]), startPage, pageCount, value)
    {
      for i := 0 to pageCount
        invariant m_Bitmap[..] == Marked(old(m_Bitmap[..]), startPage, i, value)
      {
        m_Bitmap[startPage + i] := value;
      }
    }

    /** The search of AllocatePages, which keeps the length of the free run that ends at
        the current page: it finds the lowest run that is long enough. */
    method FindRun(pageCount: nat) returns (found: bool, runStart: nat)
      requires 0 < pageCount
      ensures found ==> FreeRun(m_Bitmap[..], runStart, pageCount)
      ensures found ==> forall at: nat :: at < runStart ==> !FreeRun(m_Bitmap[..], at, pageCount)
      ensures !found ==> !HasFreeRun(m_Bitmap[..], pageCount)
    {
      runStart := 0;
      var runLength: nat := 0;
      for page := 0 to m_Bitmap.Length
        invariant runLength < pageCount && runLength <= page && (runLength > 0 ==> runStart == page - runLength)
        invariant forall p :: page - runLength <= p < page ==> !m_Bitmap[p]
        invariant forall at: nat :: at < page - runLength ==> !FreeRun(m_Bitmap[..], at, pageCount)
      {
        if m_Bitmap[page] {
          forall at: nat | at < page + 1 ensures !FreeRun(m_Bitmap[..], at, pageCount) {
            if page - runLength <= at && at + pageCount <= m_Bitmap.Length {
              assert at <= page < at + pageCount && m_Bitmap[..][page];
            }
          }
          runLength := 0;
        } else {
          if runLength == 0 {
            runStart := page;
          }
          runLength := runLength + 1;
          if runLength == pageCount {
            return true, runStart;
          }
        }
      }
      found := false;
    }

    /** The address of the lowest free run, now used. It is not found (address 0) when there
        is none, or when nothing is asked for. */
    method AllocatePages(pageCount: nat) returns (found: bool, address: nat)
      modifies m_Bitmap
      ensures found <==> pageCount > 0 && HasFreeRun(old(m_Bitmap[..]), pageCount)
      ensures !found ==> address == 0 && m_Bitmap[..] == old(m_Bitmap[..])
      ensures found ==> exists start: nat ::
                && FreeRun(old(m_Bitmap[..]), start, pageCount) && address == m_PoolStartAddress + start * PAGE_SIZE
                && (forall at: nat :: at < start ==> !FreeRun(old(m_Bitmap[..]), at, pageCount))
                && m_Bitmap[..] == Marked(old(m_Bitmap[..]), start, pageCount, true)
    {
      if pageCount == 0 || pageCount > m_Bitmap.Length {
        return false, 0;
      }
      var runStart;
      found, runStart := FindRun(pageCount);
      if !found {
        return false, 0;
      }
      MarkPages(runStart, pageCount, true);
      address := m_PoolStartAddress + runStart * PAGE_SIZE;
    }

    /** Frees a run of the pool; an address outside it or off the page grid is ignored. */
    method FreePages(pageCount: nat, startAddress: nat)
      modifies m_Bitmap
      ensures var offset := startAddress - m_PoolStartAddress;
              m_Bitmap[..] == if offset >= 0 && offset % PAGE_SIZE == 0
                && offset / PAGE_SIZE + pageCount <= |old(m_Bitmap[..])|
                              then Marked(old(m_Bitmap[..]), offset / PAGE_SIZE, pageCount, false)
                                else old(m_Bitmap[..])
    {
      if pageCount == 0 || startAddress < m_PoolStartAddress {
        return;
      }
      var offset := startAddress - m_PoolStartAddress;
      if offset % PAGE_SIZE != 0 {
        return;
      }
      var startPage := offset / PAGE_SIZE;
      if pageCount > m_Bitmap.Length || startPage > m_Bitmap.Length - pageCount {
        return;
      }
      MarkPages(startPage, pageCount, false);
    }
  }
}
