/** The page rounding done before a TLB entry is created (main.c, create_tlb_entry). */
module TlbEntry {
  import opened MachineWords

  const PAGE_SIZE: int := 1024
  const PAGES: int := 0x40_0000

  function PageAlignedAddress(address: Word32): Word32 {
    address - address % PAGE_SIZE
  }

  /** The rounding macro on a plain size. */
  function PageAlignedSize(size: Word32): Word32 {
    PAGE_SIZE * (size / PAGE_SIZE + 1) % TWO_32
  }

  /** The rounding macro on "size + PAGE_SIZE". It does not parenthesise its argument, so only
      the page size is divided by the page size and the size itself is taken for pages. */
  function PageAlignedSum(size: Word32): Word32 {
    PAGE_SIZE * Add32(Add32(size, PAGE_SIZE / PAGE_SIZE), 1) % TWO_32
  }

  /** The pages the rounding is meant to map: those that hold the request, and one more when
      it ends on a page boundary. */
  function PagesOf(address: Word32, size: Word32): nat {
    (address % PAGE_SIZE + size) / PAGE_SIZE + 1
  }

  /** The pages that hold the request. */
  function NeededPages(address: Word32, size: Word32): nat {
    (address % PAGE_SIZE + size + PAGE_SIZE - 1) / PAGE_SIZE
  }

  predicate InLastPage(address: Word32) {
    address / PAGE_SIZE + 1 == PAGES
  }

  /** The last part of the size, added to the address, leaves the address's page. */
  predicate CrossesPage(address: Word32, size: Word32) {
    address % PAGE_SIZE + size % PAGE_SIZE >= PAGE_SIZE
  }

  /** The comparison picks the sum: in the last page of the address space it always does. */
  predicate TakesSum(address: Word32, size: Word32) {
    InLastPage(address) || CrossesPage(address, size)
  }

  /** The pages that are mapped, counted modulo the size of the address space. */
  function MappedPages(address: Word32, size: Word32): nat {
    (if TakesSum(address, size) then size + 2 else size / PAGE_SIZE + 1) % PAGES
  }

  /** Computes the range handed to the MMU. The range starts page-aligned; it covers the request
      exactly when the mapped pages are enough, and it has the intended length exactly when the
      sum is not taken or happens to agree with it modulo the address space. */
  method CreateTlbEntry(address: Word32, size: Word32) returns (start: Word32, length: Word32)
    ensures start % PAGE_SIZE == 0 && start <= address < start + PAGE_SIZE
    ensures length == PAGE_SIZE * MappedPages(address, size)
    ensures address + size <= start + length <==> NeededPages(address, size) <= MappedPages(address, size)
    ensures length == PAGE_SIZE * PagesOf(address, size) <==>
              PagesOf(address, size) < PAGES
              && (TakesSum(address, size) ==> (size + 2 - PagesOf(address, size)) % PAGES == 0)
  {
    start := PageAlignedAddress(address);
    assert start % PAGE_SIZE == 0 && start + address % PAGE_SIZE == address;
    if Add32(address, size % PAGE_SIZE) >= Add32(start, PAGE_SIZE) {
      length := PageAlignedSum(size);
    } else {
      length := PageAlignedSize(size);
    }
    hide PageAlignedSum, PageAlignedSize, PageAlignedAddress, Add32, NeededPages, MappedPages, TakesSum, PagesOf;
    ComparisonExactly(address, size);
    RoundedSizes(address, size);
    Covered(address, size);
    IntendedExactly(address, size);
  }

  /** In the last page the page's end wraps to zero and the comparison always holds. */
  lemma ComparisonExactly(address: Word32, size: Word32)
    ensures Add32(address, size % PAGE_SIZE) >= Add32(PageAlignedAddress(address), PAGE_SIZE) <==>
              TakesSum(address, size)
  {
    assert address == PAGE_SIZE * (address / PAGE_SIZE) + address % PAGE_SIZE;
    if InLastPage(address) {
      assert PageAlignedAddress(address) + PAGE_SIZE == TWO_32;
    }
  }

  /** Both branches, in pages. */
  lemma RoundedSizes(address: Word32, size: Word32)
    ensures (if TakesSum(address, size) then PageAlignedSum(size) else PageAlignedSize(size))
         == PAGE_SIZE * MappedPages(address, size)
  {
    hide TakesSum;
    PagesWrap(size / PAGE_SIZE + 1);
    PagesWrap(size + 2);
    PagesWrap(Add32(Add32(size, 1), 1));
    TwoMore(size);
  }

  lemma PagesWrap(n: nat)
    ensures PAGE_SIZE * n % TWO_32 == PAGE_SIZE * (n % PAGES)
  {
    Quotient(PAGE_SIZE * n, TWO_32, n / PAGES, PAGE_SIZE * (n % PAGES));
  }

  lemma TwoMore(size: Word32)
    ensures Add32(Add32(size, 1), 1) % PAGES == (size + 2) % PAGES
  {
    if size + 2 >= TWO_32 {
      Quotient(size + 2, PAGES, 1024, size + 2 - TWO_32);
    }
  }

  lemma Covered(address: Word32, size: Word32)
    ensures address % PAGE_SIZE + size <= PAGE_SIZE * MappedPages(address, size)
       <==> NeededPages(address, size) <= MappedPages(address, size)
  {
    hide MappedPages;
  }

  lemma IntendedExactly(address: Word32, size: Word32)
    ensures MappedPages(address, size) == PagesOf(address, size) <==>
              PagesOf(address, size) < PAGES
              && (TakesSum(address, size) ==> (size + 2 - PagesOf(address, size)) % PAGES == 0)
  {
    var p, n := PagesOf(address, size), size + 2;
    if TakesSum(address, size) {
      SameRemainder(n, p);
    } else {
      assert p == size / PAGE_SIZE + 1;
    }
  }

  lemma SameRemainder(n: nat, p: nat)
    requires p <= n
    ensures p < PAGES ==> (n % PAGES == p <==> (n - p) % PAGES == 0)
  {
    if p < PAGES {
      if n % PAGES == p {
        Quotient(n - p, PAGES, n / PAGES, 0);
      } else if (n - p) % PAGES == 0 {
        Quotient(n, PAGES, (n - p) / PAGES, p);
      }
    }
  }

  // ---------- Requests of less than 4 MB ----------

  /** A request of less than 2^22 - 2 bytes is always covered. */
  lemma SmallRequestIsCovered(address: Word32, size: Word32)
    requires size + 2 < PAGES
    ensures NeededPages(address, size) <= MappedPages(address, size)
  {
  }

  /** It gets the intended length exactly when the sum is not taken; else as many pages as it
      has bytes, and two more. */
  lemma SmallRequestExactly(address: Word32, size: Word32)
    requires size + 2 < PAGES
    ensures MappedPages(address, size) == PagesOf(address, size) <==>
              !InLastPage(address) && !CrossesPage(address, size)
    ensures TakesSum(address, size) ==> MappedPages(address, size) == size + 2
  {
    IntendedExactly(address, size);
    FewPages(address, size);
    hide PagesOf;
    Quotient(size + 2, PAGES, 0, size + 2);
    if TakesSum(address, size) {
      var extra := size + 2 - PagesOf(address, size);
      Quotient(extra, PAGES, 0, extra);
    }
  }

  /** The intended pages are few; where the sum is taken it is more. */
  lemma FewPages(address: Word32, size: Word32)
    requires size + 2 < PAGES
    ensures PagesOf(address, size) < PAGES
    ensures TakesSum(address, size) ==> PagesOf(address, size) < size + 2
  {
  }

  /** It is over-mapped by at most one page exactly when the sum is not taken, or nothing is
      requested at an address inside a page. */
  lemma OverMapsByOnePageExactly(address: Word32, size: Word32)
    requires size + 2 < PAGES
    ensures MappedPages(address, size) <= NeededPages(address, size) + 1 <==>
              !TakesSum(address, size) || (size == 0 && address % PAGE_SIZE != 0)
  {
  }

  /** For example 100 bytes at 1000, which need two pages, get 102. */
  lemma SmallRequestOverMapped()
    ensures PagesOf(1000, 100) == 2 && NeededPages(1000, 100) == 2
    ensures PAGE_SIZE * MappedPages(1000, 100) == 104448
  {
  }

  /** And a request of the smallest size that is not always covered gets nothing: its pages wrap
      to zero although 4 MB are far from filling the address space. */
  lemma LargeRequestUncovered()
    ensures MappedPages(1023, 0x3F_FFFE) == 0 && NeededPages(1023, 0x3F_FFFE) == 4097
  {
  }
}
