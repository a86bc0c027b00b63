// Counting which memory pages have to stay locked (src/allocators.h: LockedPageManagerBase).
// Pages are named by number, that is, address divided by page size.
module PageLocks {
  import opened Arithmetic

  datatype Range = Range(base: nat, size: nat)

  predicate Touches(r: Range, page: nat, pageSize: nat)
    requires pageSize > 0
  {
    r.size > 0 && r.base / pageSize <= page <= (r.base + r.size - 1) / pageSize
  }

  lemma PagesOf(r: Range, pageSize: nat)
    requires pageSize > 0
    ensures r.size == 0 ==> forall q: nat :: !Touches(r, q, pageSize)
    ensures r.size > 0 ==>
              var first, last := r.base / pageSize, (r.base + r.size - 1) / pageSize;
              forall q: nat :: Touches(r, q, pageSize) <==> first <= q <= last
  {
  }

  lemma InOrder(base: nat, size: nat, pageSize: nat)
    requires pageSize > 0 && size > 0
    ensures base / pageSize <= (base + size - 1) / pageSize
  {
    var a, b := base / pageSize, (base + size - 1) / pageSize;
    assert (b + 1) * pageSize == b * pageSize + pageSize;
    if a > b {
      AtMost(b + 1, a, pageSize);
    }
  }

  // How many of the ranges touch a page.
  function Holders(ranges: seq<Range>, page: nat, pageSize: nat): nat
    requires pageSize > 0
  {
    if ranges == [] then 0
    else Holders(ranges[..|ranges| - 1], page, pageSize) + if Touches(ranges[|ranges| - 1], page, pageSize) then 1
        else 0
  }

  lemma HoldersSnoc(ranges: seq<Range>, r: Range, page: nat, pageSize: nat)
    requires pageSize > 0
    ensures Holders(ranges + [r], page, pageSize) == Holders(ranges, page, pageSize) + if Touches(r, page, pageSize)
            then 1 else 0
  {
    assert (ranges + [r])[..|ranges|] == ranges;
  }

  function Without(ranges: seq<Range>, i: nat): seq<Range>
    requires i < |ranges|
  {
    ranges[..i] + ranges[i + 1..]
  }

  lemma {:induction false} HoldersWithout(ranges: seq<Range>, i: nat, page: nat, pageSize: nat)
    requires pageSize > 0 && i < |ranges|
    ensures Holders(ranges, page, pageSize) == Holders(Without(ranges, i), page, pageSize)
            + if Touches(ranges[i], page, pageSize) then 1 else 0
  {
    var init, last := ranges[..|ranges| - 1], ranges[|ranges| - 1];
    if i == |ranges| - 1 {
      assert Without(ranges, i) == init;
    } else {
      HoldersWithout(init, i, page, pageSize);
      assert Without(ranges, i) == Without(init, i) + [last];
      HoldersSnoc(Without(init, i), last, page, pageSize);
    }
  }

  function CountAt(histogram: map<nat, int>, page: nat): int { if page in histogram then histogram[page] else 0 }

  class LockedPageManager {
    const pageSize: nat
    var histogram: map<nat, int>
    ghost var osLocked: set<nat>          // pages the operating system holds in memory
    ghost var outstanding: seq<Range>     // ranges locked and not unlocked yet

    constructor (pageSize: nat)
      requires pageSize > 0
      ensures Valid() && outstanding == [] && this.pageSize == pageSize
    {
      this.pageSize, histogram, osLocked, outstanding := pageSize, map[], {}, [];
    }

    // Each count is the number of outstanding ranges on the page, and a page is locked exactly
    // when that number is positive.
    ghost predicate Valid()
      reads this
    {
      && pageSize > 0 && osLocked == histogram.Keys
      && forall page ::
           CountAt(histogram, page) == Holders(outstanding, page, pageSize)
           && (page in histogram ==> histogram[page] > 0)
    }

    lemma LockedExactly(page: nat)
      requires Valid()
      ensures page in osLocked <==> Holders(outstanding, page, pageSize) > 0
      ensures outstanding == [] ==> histogram == map[] && osLocked == {}
    {
      assert CountAt(histogram, page) == Holders(outstanding, page, pageSize);
      if outstanding == [] {
        forall p ensures p !in histogram { assert CountAt(histogram, p) == 0; }
      }
    }

    method LockRange(base: nat, size: nat)
      requires Valid()
      modifies this
      ensures Valid() && outstanding == old(outstanding) + [Range(base, size)]
    {
      hide Touches, Holders;
      ghost var r := Range(base, size);
      forall page: nat ensures Holders(outstanding + [r], page, pageSize) ==
                               Holders(outstanding, page, pageSize) + if Touches(r, page, pageSize) then 1 else 0 {
        HoldersSnoc(outstanding, r, page, pageSize);
      }
      PagesOf(r, pageSize);
      if size == 0 {
        outstanding := outstanding + [r];
        return;
      }
      InOrder(base, size, pageSize);
      var startPage, endPage := base / pageSize, (base + size - 1) / pageSize;
      ghost var was := histogram;
      for page := startPage to endPage + 1
        invariant forall q: nat :: CountAt(histogram, q) == CountAt(was, q) + if startPage <= q < page then 1 else 0
        invariant osLocked == histogram.Keys && forall q :: q in histogram ==> histogram[q] > 0
        invariant outstanding == old(outstanding)
      {
        ghost var before := histogram;
        if page !in histogram {
          osLocked := osLocked + {page};
          histogram := histogram[page := 1];
        } else {
          histogram := histogram[page := histogram[page] + 1];
        }
        assert forall q: nat :: CountAt(histogram, q) == CountAt(before, q) + if q == page then 1 else 0;
      }
      outstanding := outstanding + [r];
    }

    // Only for a range that is outstanding; then no page of it lacks a count.
    method UnlockRange(base: nat, size: nat, ghost i: nat)
      requires Valid() && i < |outstanding| && outstanding[i] == Range(base, size)
      modifies this
      ensures Valid() && outstanding == Without(old(outstanding), i)
    {
      hide Touches, Holders;
      ghost var r := Range(base, size);
      PagesOf(r, pageSize);
      forall page: nat ensures Holders(outstanding, page, pageSize) ==
                               Holders(Without(outstanding, i), page, pageSize) + if Touches(r, page, pageSize) then 1
                                   else 0 {
        HoldersWithout(outstanding, i, page, pageSize);
      }
      if size == 0 {
        outstanding := Without(outstanding, i);
        return;
      }
      InOrder(base, size, pageSize);
      var startPage, endPage := base / pageSize, (base + size - 1) / pageSize;
      ghost var was := histogram;
      for page := startPage to endPage + 1
        invariant forall q: nat :: CountAt(histogram, q) == CountAt(was, q) - if startPage <= q < page then 1 else 0
        invariant osLocked == histogram.Keys && forall q :: q in histogram ==> histogram[q] > 0
        invariant outstanding == old(outstanding)
      {
        assert Touches(r, page, pageSize) && CountAt(was, page) == Holders(outstanding, page, pageSize) > 0;
        assert page in histogram;
        ghost var before := histogram;
        var count := histogram[page] - 1;
        histogram := histogram[page := count];
        if count == 0 {
          osLocked := osLocked - {page};
          histogram := histogram - {page};
        }
        assert forall q: nat :: CountAt(histogram, q) == CountAt(before, q) - if q == page then 1 else 0;
      }
      outstanding := Without(outstanding, i);
    }

    method GetLockedPageCount() returns (n: nat)
      requires Valid()
      ensures n == |osLocked|
    {
      n := |histogram|;
    }
  }

  // A range touches exactly the pages it overlaps.
  lemma TouchesExactly(r: Range, page: nat, pageSize: nat)
    requires pageSize > 0
    ensures Touches(r, page, pageSize) <==>
            r.size > 0 && r.base < (page + 1) * pageSize && page * pageSize < r.base + r.size
  {
    if r.size > 0 {
      Within(r.base, page, pageSize);
      Within(r.base + r.size - 1, page, pageSize);
    }
  }

  lemma Within(a: nat, page: nat, p: nat)
    requires p > 0
    ensures a / p <= page <==> a < (page + 1) * p
    ensures a / p >= page <==> a >= page * p
  {
    assert a == a / p * p + a % p;
    if a / p <= page {
      AtMost(a / p, page, p);
      assert (page + 1) * p == page * p + p;
    } else {
      AtMost(page + 1, a / p, p);
    }
    if a / p < page {
      AtMost(a / p + 1, page, p);
      assert (a / p + 1) * p == a / p * p + p;
    } else {
      AtMost(page, a / p, p);
    }
  }
}
