/** `Paginator(object_list, per_page).get_page(number)`, for a page number
    the paginator has already resolved: page `number` (from 1) holds the
    items from position `(number - 1) * size` up to, not including,
    `number * size`, or up to the end of the list if that comes first. */
module Paging {

  /** A page size or a page number: both start at 1. */
  type Positive = n: nat | n >= 1 witness 1

  function Min(a: int, b: int): int {
    if a <= b then a else b
  }

  function Page<T>(items: seq<T>, size: Positive, number: Positive): (r: seq<T>)
    ensures |r| == if (number - 1) * size >= |items| then 0
                   else Min(size, |items| - (number - 1) * size)
    ensures forall i :: 0 <= i < |r| ==> r[i] == items[(number - 1) * size + i]
  {
    var start := (number - 1) * size;
    if start >= |items| then []
    else
      var end := Min(start + size, |items|);
      assert start <= end;
      items[start..end]
  }

  /** Every item lies on exactly the page its position says: position `i`
      is entry `i % size` of page `i / size + 1`. */
  lemma PageOfPosition<T>(items: seq<T>, size: Positive, i: nat)
    requires i < |items|
    ensures var p := Page(items, size, i / size + 1);
            i % size < |p| && p[i % size] == items[i]
  {
    var q, m := i / size, i % size;
    assert q * size + m == i;
    assert q * size <= i;
    var p := Page(items, size, q + 1);
    assert (q + 1 - 1) * size == q * size;
    assert |p| == Min(size, |items| - q * size);
  }

  /** A page holds only items of the list. */
  lemma PageWithin<T>(items: seq<T>, size: Positive, number: Positive)
    ensures forall x :: x in Page(items, size, number) ==> x in items
  {
  }

  /** Pages are disjoint: an entry of page `k` is not at a position of any
      other page. */
  lemma PagesDisjoint<T>(items: seq<T>, size: Positive, k: Positive, j: nat)
    requires j < |Page(items, size, k)|
    ensures (k - 1) * size + j < |items|
    ensures ((k - 1) * size + j) / size + 1 == k
  {
    var i := (k - 1) * size + j;
    assert j < size;
    assert i / size == k - 1 by {
      assert (k - 1) * size <= i < (k - 1) * size + size;
      DivBetween(i, size, k - 1);
    }
  }

  lemma DivBetween(i: nat, size: nat, q: nat)
    requires size > 0 && q * size <= i < q * size + size
    ensures i / size == q
  {
    var d, m := i / size, i % size;
    assert d * size + m == i && 0 <= m < size;
    if d < q {
      MulMono(d + 1, q, size);
    } else if d > q {
      MulMono(q + 1, d, size);
    }
  }

  lemma MulMono(a: nat, b: nat, c: nat)
    requires a <= b
    ensures a * c <= b * c
  {
  }

  /** With 14 posts and 10 per page, the pages hold 10 and then 4. The third
      slice is empty; `get_page(3)` itself never asks for it, since it
      resolves a number past the last page to the last page before
      slicing. */
  lemma FourteenInPagesOfTen<T>(items: seq<T>)
    requires |items| == 14
    ensures |Page(items, 10, 1)| == 10 && |Page(items, 10, 2)| == 4
    ensures Page(items, 10, 3) == []
  {
  }
}
