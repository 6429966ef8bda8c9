/**
 * Page arithmetic shared by the feedback listing and the leaderboard: the clamps applied to
 * the requested page and page size, the page slice, and the page count.
 */
module Paging {

  /** Largest page size the services accept. */
  const MaxPageSize: int := 100

  /** Largest value of a Java `int`. */
  const MaxInt: int := 0x7fff_ffff

  /** `Math.max(1, pageNumber)`. */
  function NormalizePage(pageNumber: int): (page: int)
    ensures page >= 1
    ensures pageNumber >= 1 ==> page == pageNumber
    ensures pageNumber < 1 ==> page == 1
  {
    if pageNumber < 1 then 1 else pageNumber
  }

  /** `Math.max(1, Math.min(pageSize, 100))`. */
  function NormalizeSize(pageSize: int): (size: int)
    ensures 1 <= size <= MaxPageSize
    ensures 1 <= pageSize <= MaxPageSize ==> size == pageSize
    ensures pageSize > MaxPageSize ==> size == MaxPageSize
    ensures pageSize < 1 ==> size == 1
  {
    var capped := if pageSize < MaxPageSize then pageSize else MaxPageSize;
    if capped < 1 then 1 else capped
  }

  /** Number of pages of `size` items needed for `total` items (the integer form of `Math.ceil(total / size)`). */
  function CeilDiv(total: nat, size: int): (pages: nat)
    requires size >= 1
    ensures pages * size >= total
    ensures pages == 0 || (pages - 1) * size < total
  {
    (total + size - 1) / size
  }

  /** No items means no pages; any item means at least one. */
  lemma CeilDivZero(total: nat, size: int)
    requires size >= 1
    ensures CeilDiv(total, size) == 0 <==> total == 0
  {
  }

  /** Index of the first item of a 1-based page. */
  function Offset(page: int, size: int): nat
    requires page >= 1 && size >= 1
  {
    MulNonNegative(page - 1, size);
    (page - 1) * size
  }

  /** The first page starts at item 0, and each page starts one page size after the one before. */
  lemma OffsetSteps(page: int, size: int)
    requires page >= 1 && size >= 1
    ensures Offset(1, size) == 0
    ensures Offset(page + 1, size) == Offset(page, size) + size
  {
    assert page * size == (page - 1) * size + size;
  }

  /** Java `int` arithmetic: the exact value reduced to 32-bit two's complement. */
  function WrapInt(x: int): (r: int)
    ensures -0x8000_0000 <= r <= MaxInt
    ensures (x - r) % 0x1_0000_0000 == 0
    ensures -0x8000_0000 <= x <= MaxInt ==> r == x
  {
    var m := x % 0x1_0000_0000;
    if m > MaxInt then m - 0x1_0000_0000 else m
  }

  /**
   * The first result as the query computes it from `Page.of(page - 1, size)`: the product
   * `index * size` in `int`.
   */
  function FirstResultAsWritten(page: int, size: int): (first: int)
    requires page >= 1 && size >= 1
    ensures -0x8000_0000 <= first <= MaxInt
  {
    WrapInt((page - 1) * size)
  }

  /** While the offset fits in an `int` the query starts where the page arithmetic says. */
  lemma FirstResultAgreesInRange(page: int, size: int)
    requires page >= 1 && size >= 1 && (page - 1) * size <= MaxInt
    ensures FirstResultAsWritten(page, size) == Offset(page, size)
  {
    MulNonNegative(page - 1, size);
  }

  /**
   * Past that the product wraps: page 214748366 of 20 starts at item 4, inside page 1, and page
   * 107374185 of 20 asks for a negative first result.
   */
  lemma FirstResultWraps()
    ensures FirstResultAsWritten(214748366, 20) == 4 && Offset(214748366, 20) != 4
    ensures FirstResultAsWritten(107374185, 20) < 0
  {
  }

  lemma MulNonNegative(a: int, b: int)
    requires a >= 0 && b >= 0
    ensures a * b >= 0
  {
  }

  /** The items of 1-based page `page`: at most `size` items from offset (page-1)*size; none past the end. */
  function PageSlice<T>(s: seq<T>, page: int, size: int): (r: seq<T>)
    requires page >= 1 && size >= 1
    ensures |r| <= size
    ensures Offset(page, size) >= |s| ==> r == []
    ensures Offset(page, size) < |s| ==>
      |r| == (if Offset(page, size) + size <= |s| then size else |s| - Offset(page, size))
    ensures forall i :: 0 <= i < |r| ==> r[i] == s[Offset(page, size) + i]
  {
    var offset := Offset(page, size);
    if offset >= |s| then []
    else if offset + size <= |s| then s[offset..offset + size]
    else s[offset..]
  }

  /** Every item lies on exactly the page and position the arithmetic predicts. */
  lemma PageSliceCovers<T>(s: seq<T>, size: int, j: nat)
    requires size >= 1 && j < |s|
    ensures j / size + 1 >= 1
    ensures Offset(j / size + 1, size) + j % size == j
    ensures |PageSlice(s, j / size + 1, size)| > j % size
    ensures PageSlice(s, j / size + 1, size)[j % size] == s[j]
  {
    var page := j / size + 1;
    assert Offset(page, size) == (j / size) * size;
    assert (j / size) * size + j % size == j;
  }

  /** A page has items exactly when its number is at most the page count. */
  lemma PageNonEmptyIff<T>(s: seq<T>, page: int, size: int)
    requires page >= 1 && size >= 1
    ensures |PageSlice(s, page, size)| > 0 <==> page <= CeilDiv(|s|, size)
  {
    var n := |s|;
    var pages := CeilDiv(n, size);
    if page <= pages {
      assert (page - 1) * size <= (pages - 1) * size by {
        MulMonotone(page - 1, pages - 1, size);
      }
    } else {
      assert pages * size <= (page - 1) * size by {
        MulMonotone(pages, page - 1, size);
      }
    }
  }

  lemma MulMonotone(a: int, b: int, c: int)
    requires 0 <= a <= b && c >= 0
    ensures a * c <= b * c
  {
  }
}
