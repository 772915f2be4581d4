/** Page slices, page counts and `has_next`, for `SearchResult` and for `Page.of`. */
module Pagination {

  /** Python's s[a:b]: negative bounds count from the end, and both are clamped. */
  function PySlice<T>(s: seq<T>, a: int, b: int): seq<T>
  {
    var lo, hi := Bound(|s|, a), Bound(|s|, b);
    if lo <= hi then s[lo..hi] else []
  }

  function Bound(n: nat, i: int): (r: nat)
    ensures r <= n
  {
    var j := if i < 0 then i + n else i;
    if j < 0 then 0 else if j > n then n else j
  }

  /** Slicing with bounds inside the list is the usual one; bounds outside are cut off; a negative bound
      counts from the end. */
  lemma PySliceMeans<T>(s: seq<T>, a: int, b: int)
    requires a >= 0 && b >= 0
    ensures a <= b <= |s| ==> PySlice(s, a, b) == s[a..b]
    ensures a <= |s| <= b ==> PySlice(s, a, b) == s[a..]
    ensures a >= |s| || a >= b ==> PySlice(s, a, b) == []
    ensures 0 < b <= a <= |s| ==> PySlice(s, -a, -b) == s[|s| - a..|s| - b]
    ensures 0 < b <= |s| <= a ==> PySlice(s, -a, -b) == s[..|s| - b]
    ensures 0 < a <= |s| ==> PySlice(s, -a, 0) == [] && PySlice(s, 0, -a) == s[..|s| - a]
  {
  }

  /** Python's floor division. */
  function FloorDiv(a: int, b: int): int
    requires b != 0
  {
    if b > 0 || a % b == 0 then a / b else a / b - 1
  }

  lemma FloorDivIsFloor(a: int, b: int)
    requires b != 0
    ensures b > 0 ==> FloorDiv(a, b) * b <= a < FloorDiv(a, b) * b + b
    ensures b < 0 ==> FloorDiv(a, b) * b + b < a <= FloorDiv(a, b) * b
  {
    assert a == (a / b) * b + a % b;
    if b < 0 && a % b != 0 {
      assert (a / b - 1) * b == (a / b) * b - b;
    }
  }

  /** `PageRequest.offset`. */
  function Offset(page: int, size: int): int
  {
    (page - 1) * size
  }

  /** The page's items, as both `search` and `Page.of` slice them. */
  function Page<T>(all: seq<T>, page: int, size: int): seq<T>
  {
    PySlice(all, Offset(page, size), Offset(page, size) + size)
  }

  /** `SearchResult.total_pages`. */
  function TotalPages(total: int, size: int): int
  {
    if size == 0 then 0 else FloorDiv(total + size - 1, size)
  }

  /** `Page.total_pages`, with exact division in place of floats. */
  function CeilPages(total: int, size: int): int
  {
    if size <= 0 || total <= 0 then 0 else -((-(total as real / size as real)).Floor)
  }

  lemma TotalPagesIsLeast(total: int, size: int)
    requires size >= 1
    ensures (TotalPages(total, size) - 1) * size < total <= TotalPages(total, size) * size
    ensures Offset(TotalPages(total, size), size) < total <= Offset(TotalPages(total, size) + 1, size)
  {
    FloorDivIsFloor(total + size - 1, size);
    OffsetGrows(TotalPages(total, size), size);
  }

  lemma OffsetGrows(page: int, size: int)
    ensures Offset(page + 1, size) == Offset(page, size) + size
    ensures Offset(1, size) == 0
  {
  }

  lemma {:induction false} OffsetMonotone(page: int, more: nat, size: int)
    requires size >= 1
    ensures Offset(page, size) <= Offset(page + more, size)
  {
    if more > 0 {
      OffsetMonotone(page, more - 1, size);
      OffsetGrows(page + more - 1, size);
    }
  }

  lemma ScaleInt(a: int, b: int, c: int)
    requires c > 0
    ensures a < b <==> a * c < b * c
  {
  }

  lemma ScaleReal(a: real, b: real, c: real)
    requires c > 0.0
    ensures a < b <==> a * c < b * c
  {
  }

  lemma RatioBounds(total: int, size: int, k: int)
    requires size >= 1 && (k - 1) * size < total <= k * size
    ensures (k - 1) as real < total as real / size as real <= k as real
  {
    var x := total as real / size as real;
    assert x * size as real == total as real;
    assert ((k - 1) * size) as real == (k - 1) as real * size as real;
    assert (k * size) as real == k as real * size as real;
    ScaleReal(k as real, x, size as real);
    ScaleReal((k - 1) as real, x, size as real);
  }

  /** The two ways of counting pages agree wherever the request is valid. */
  lemma PageCountsAgree(total: nat, size: int)
    requires size >= 1
    ensures CeilPages(total, size) == TotalPages(total, size)
  {
    var k := TotalPages(total, size);
    TotalPagesIsLeast(total, size);
    if total == 0 {
      ScaleInt(k - 1, 0, size);
      ScaleInt(k, 0, size);
    } else {
      RatioBounds(total, size, k);
    }
  }

  // ---------------------------------------------------------------- partition

  function Prefix<T>(all: seq<T>, n: nat): seq<T>
  {
    if n <= |all| then all[..n] else all
  }

  function Rest<T>(all: seq<T>, n: nat): seq<T>
  {
    if n <= |all| then all[n..] else []
  }

  lemma BlockSplits<T>(all: seq<T>, lo: nat, size: nat)
    ensures Prefix(all, lo) + PySlice(all, lo, lo + size) == Prefix(all, lo + size)
    ensures PySlice(all, lo, lo + size) + Rest(all, lo + size) == Rest(all, lo)
  {
  }

  function FirstPages<T>(all: seq<T>, size: int, n: nat): seq<T>
  {
    if n == 0 then [] else FirstPages(all, size, n - 1) + Page(all, n, size)
  }

  lemma {:induction false} FirstPagesArePrefix<T>(all: seq<T>, size: int, n: nat)
    requires size >= 1
    ensures Offset(n + 1, size) >= 0 && FirstPages(all, size, n) == Prefix(all, Offset(n + 1, size))
  {
    OffsetGrows(n, size);
    if n > 0 {
      FirstPagesArePrefix(all, size, n - 1);
      BlockSplits(all, Offset(n, size), size);
    }
  }

  /** Pages 1..total_pages in a row are the whole list, with nothing repeated or dropped. */
  lemma PagesPartition<T>(all: seq<T>, size: int)
    requires size >= 1
    ensures TotalPages(|all|, size) >= 0 && FirstPages(all, size, TotalPages(|all|, size)) == all
    ensures CeilPages(|all|, size) == TotalPages(|all|, size)
  {
    PageCountsAgree(|all|, size);
    TotalPagesIsLeast(|all|, size);
    var k := TotalPages(|all|, size);
    ScaleInt(k, 0, size);
    FirstPagesArePrefix(all, size, k);
  }

  // ---------------------------------------------------------------- following has_next

  predicate HasNext(page: int, total: int, size: int)
  {
    page < TotalPages(total, size)
  }

  function LastVisited(page: int, total: int, size: int): int
    decreases TotalPages(total, size) - page
  {
    if HasNext(page, total, size) then LastVisited(page + 1, total, size) else page
  }

  /** The items met by starting at `page` and going on while `has_next` says so. */
  function Walk<T>(all: seq<T>, page: int, size: int): seq<T>
    decreases TotalPages(|all|, size) - page
  {
    Page(all, page, size) + if HasNext(page, |all|, size) then Walk(all, page + 1, size) else []
  }

  lemma {:induction false} LastVisitedIsLast(page: int, total: int, size: int)
    ensures LastVisited(page, total, size) == if TotalPages(total, size) > page then TotalPages(total, size) else page
    decreases TotalPages(total, size) - page
  {
    if HasNext(page, total, size) {
      LastVisitedIsLast(page + 1, total, size);
    }
  }

  lemma {:induction false} WalkFrom<T>(all: seq<T>, page: int, size: int)
    requires size >= 1 && page >= 1 && Offset(page, size) >= 0
    ensures Walk(all, page, size) == Rest(all, Offset(page, size))
    decreases TotalPages(|all|, size) - page
  {
    OffsetGrows(page, size);
    BlockSplits(all, Offset(page, size), size);
    if HasNext(page, |all|, size) {
      WalkFrom(all, page + 1, size);
      assert Walk(all, page, size) == Page(all, page, size) + Walk(all, page + 1, size);
    } else {
      NothingBehind(all, page, size);
      assert Walk(all, page, size) == Page(all, page, size);
    }
  }

  lemma NothingBehind<T>(all: seq<T>, page: int, size: int)
    requires size >= 1 && page >= 1 && !HasNext(page, |all|, size)
    ensures Offset(page + 1, size) >= |all|
  {
    var k := TotalPages(|all|, size);
    TotalPagesIsLeast(|all|, size);
    OffsetMonotone(k + 1, page - k, size);
  }

  lemma {:induction false} WalkOfNothing<T>(page: int, size: int)
    ensures Walk<T>([], page, size) == []
    decreases TotalPages(0, size) - page
  {
    if HasNext(page, 0, size) {
      WalkOfNothing<T>(page + 1, size);
    }
  }

  /** With a negative size there is no second page of a nonempty list. */
  lemma NegativeSizeHasNoNext(total: int, size: int)
    requires size < 0 && total >= 1
    ensures !HasNext(1, total, size)
  {
    var q := FloorDiv(total + size - 1, size);
    FloorDivIsFloor(total + size - 1, size);
    ScaleInt(1, q, -size);
    assert q * -size == -(q * size);
  }

  /** Following `has_next` from page 1 ends at the last page, and collects the whole list exactly
      when the page size is positive or there is nothing to collect. */
  lemma WalkIsComplete<T>(all: seq<T>, size: int)
    ensures LastVisited(1, |all|, size) == if TotalPages(|all|, size) > 1 then TotalPages(|all|, size) else 1
    ensures Walk(all, 1, size) == all <==> size >= 1 || all == []
  {
    LastVisitedIsLast(1, |all|, size);
    if size >= 1 {
      OffsetGrows(1, size);
      WalkFrom(all, 1, size);
    } else if all == [] {
      WalkOfNothing<T>(1, size);
    } else {
      if size < 0 {
        NegativeSizeHasNoNext(|all|, size);
      }
      OffsetGrows(1, size);
      assert Walk(all, 1, size) == Page(all, 1, size);
      assert |Page(all, 1, size)| < |all|;
    }
  }
}
