/** Page numbers and offsets for a symbolic page size.

They are defined by repeated subtraction, which keeps division by a variable out of
the proofs that use them; PageSplit says that they are quotient and remainder, that
is the shift by TARGET_PAGE_BITS and the mask of the source. */
module Pages {
  import opened Radix

  function PageNo(page: nat, a: nat): nat
    requires page > 0
  {
    if a < page then 0 else 1 + PageNo(page, a - page)
  }

  function PageOff(page: nat, a: nat): (r: nat)
    requires page > 0
    ensures r < page && r <= a
  {
    if a < page then a else PageOff(page, a - page)
  }

  predicate Aligned(page: nat, a: nat)
    requires page > 0
  {
    PageOff(page, a) == 0
  }

  lemma {:induction false} PageSplit(page: nat, a: nat)
    requires page > 0
    ensures PageNo(page, a) == a / page && PageOff(page, a) == a % page
    ensures PageNo(page, a) * page + PageOff(page, a) == a
  {
    if a < page {
      ModUnique(a, page, 0, a);
    } else {
      PageSplit(page, a - page);
      ModUnique(a, page, (a - page) / page + 1, (a - page) % page);
    }
  }

  lemma PageBase(page: nat, base: nat, a: nat)
    requires page > 0 && Aligned(page, base) && base <= a < base + page
    ensures PageOff(page, a) == a - base && PageNo(page, a) == PageNo(page, base)
  {
    PageSplit(page, base);
    PageSplit(page, a);
    ModUnique(a, page, PageNo(page, base), a - base);
  }

  lemma PageOf(page: nat, a: nat)
    requires page > 0
    ensures Aligned(page, a - PageOff(page, a))
    ensures PageNo(page, a - PageOff(page, a)) == PageNo(page, a)
  {
    PageSplit(page, a);
    PageSplit(page, a - PageOff(page, a));
    ModUnique(a - PageOff(page, a), page, PageNo(page, a), 0);
  }

  lemma SamePage(page: nat, x: nat, y: nat)
    requires page > 0 && Aligned(page, x) && Aligned(page, y) && x <= y < x + page
    ensures x == y
  {
    PageBase(page, x, y);
  }

  lemma PageOrder(page: nat, x: nat, y: nat)
    requires page > 0 && x <= y
    ensures PageNo(page, x) <= PageNo(page, y)
  {
    PageSplit(page, x);
    PageSplit(page, y);
    if x / page > y / page {
      MulOrder(y / page + 1, x / page, page);
    }
  }

  lemma AlignedSum(page: nat, x: nat, y: nat)
    requires page > 0 && Aligned(page, x) && Aligned(page, y)
    ensures Aligned(page, x + y) && PageNo(page, x + y) == PageNo(page, x) + PageNo(page, y)
  {
    PageSplit(page, x);
    PageSplit(page, y);
    PageSplit(page, x + y);
    assert (PageNo(page, x) + PageNo(page, y)) * page == x + y;
    ModUnique(x + y, page, PageNo(page, x) + PageNo(page, y), 0);
  }

  lemma AlignedDifference(page: nat, x: nat, y: nat)
    requires page > 0 && Aligned(page, x) && Aligned(page, x + y)
    ensures Aligned(page, y)
  {
    var r := PageOff(page, y);
    PageOf(page, y);
    AlignedSum(page, x, y - r);
    PageBase(page, x + (y - r), x + y);
  }

  /** Page numbers tell whether an address is below an aligned bound. */
  lemma BelowAligned(page: nat, a: nat, bound: nat)
    requires page > 0 && Aligned(page, bound)
    ensures a < bound <==> PageNo(page, a) < PageNo(page, bound)
  {
    PageSplit(page, a);
    PageSplit(page, bound);
    if a < bound {
      if PageNo(page, a) >= PageNo(page, bound) {
        MulOrder(PageNo(page, bound), PageNo(page, a), page);
      }
    } else {
      PageOrder(page, bound, a);
    }
  }

  /** The addresses of an aligned range are those whose page is in the range of pages. */
  lemma AlignedRange(page: nat, start: nat, size: nat, a: nat)
    requires page > 0 && Aligned(page, start) && Aligned(page, size)
    ensures start <= a < start + size <==>
            PageNo(page, start) <= PageNo(page, a) < PageNo(page, start) + PageNo(page, size)
  {
    AlignedSum(page, start, size);
    BelowAligned(page, a, start);
    BelowAligned(page, a, start + size);
  }

  /** Every page number has a base address. */
  lemma BaseOf(page: nat, i: nat) returns (base: nat)
    requires page > 0
    ensures Aligned(page, base) && PageNo(page, base) == i
  {
    base := i * page;
    PageSplit(page, base);
    ModUnique(base, page, i, 0);
  }

  lemma PositivePages(page: nat, size: nat)
    requires page > 0 && Aligned(page, size) && size > 0
    ensures PageNo(page, size) > 0
  {
    PageSplit(page, size);
  }

  /** An aligned bound above an address is above the whole page of the address. */
  lemma WholePageBelow(page: nat, base: nat, bound: nat)
    requires page > 0 && Aligned(page, base) && Aligned(page, bound) && base < bound
    ensures base + page <= bound
  {
    if bound < base + page {
      SamePage(page, base, bound);
    }
  }

  /** size & -page: the whole pages of a size, as a lemma result so that the rounding
      is not expanded where it is used. */
  lemma WholePages(page: nat, start: nat, size: nat) returns (len: nat)
    requires page > 0 && Aligned(page, start) && size >= page
    ensures len == size - PageOff(page, size) && 0 < len <= size < len + page
    ensures Aligned(page, len) && Aligned(page, start + len)
  {
    len := size - PageOff(page, size);
    PageOf(page, size);
    AlignedSum(page, start, len);
  }
}
