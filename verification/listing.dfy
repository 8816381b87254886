/**
  The list-page machinery shared by the alert, incident and device lists:
  `Array.prototype.filter` and the `slice(page * rowsPerPage, page * rowsPerPage + rowsPerPage)`
  that selects the visible page.
 */
module Listing {

  /** a can be obtained from b by deleting elements, keeping the order of the rest. */
  ghost predicate SubsequenceOf<T>(a: seq<T>, b: seq<T>)
    decreases |b|
  {
    || |a| == 0
    || (|b| > 0 && ((a[0] == b[0] && SubsequenceOf(a[1..], b[1..])) || SubsequenceOf(a, b[1..])))
  }

  /** `xs.filter(keep)`. */
  function Filter<T(!new)>(xs: seq<T>, keep: T -> bool): (r: seq<T>)
    ensures |r| <= |xs|
    ensures forall x :: x in r <==> x in xs && keep(x)
    ensures SubsequenceOf(r, xs)
    ensures forall x :: multiset(r)[x] == if keep(x) then multiset(xs)[x] else 0
  {
    if |xs| == 0 then []
    else
      var rest := Filter(xs[1..], keep);
      assert xs == [xs[0]] + xs[1..];
      assert multiset(xs) == multiset{xs[0]} + multiset(xs[1..]);
      if keep(xs[0]) then
        assert ([xs[0]] + rest)[1..] == rest;
        [xs[0]] + rest
      else
        rest
  }

  /** A filter that keeps every element returns the list itself. */
  lemma {:induction false} FilterKeepsAll<T(!new)>(xs: seq<T>, keep: T -> bool)
    requires forall x :: x in xs ==> keep(x)
    ensures Filter(xs, keep) == xs
    decreases |xs|
  {
    if |xs| > 0 {
      assert forall x :: x in xs[1..] ==> x in xs;
      FilterKeepsAll(xs[1..], keep);
      assert xs == [xs[0]] + xs[1..];
    }
  }

  /** Two tests that agree on every element of the list select the same elements. */
  lemma {:induction false} FilterSameTest<T(!new)>(xs: seq<T>, keep: T -> bool, keep': T -> bool)
    requires forall x :: x in xs ==> keep(x) == keep'(x)
    ensures Filter(xs, keep) == Filter(xs, keep')
    decreases |xs|
  {
    if |xs| > 0 {
      assert forall x :: x in xs[1..] ==> x in xs;
      FilterSameTest(xs[1..], keep, keep');
    }
  }

  /** Applying the same filter twice changes nothing. */
  lemma {:induction false} FilterIdempotent<T(!new)>(xs: seq<T>, keep: T -> bool)
    ensures Filter(Filter(xs, keep), keep) == Filter(xs, keep)
  {
    FilterKeepsAll(Filter(xs, keep), keep);
  }

  /** Elementwise `xs.map(f)`. */
  function Map<T, U>(xs: seq<T>, f: T -> U): (r: seq<U>)
    ensures |r| == |xs|
    ensures forall i :: 0 <= i < |xs| ==> r[i] == f(xs[i])
  {
    seq(|xs|, i requires 0 <= i < |xs| => f(xs[i]))
  }

  function Min(a: int, b: int): int {
    if a <= b then a else b
  }

  /** The index of a page's first row. */
  function Offset(page: nat, rowsPerPage: nat): nat {
    page * rowsPerPage
  }

  /**
    `xs.slice(page * rowsPerPage, page * rowsPerPage + rowsPerPage)`; JavaScript
    clamps both bounds to the length, so a start past the end gives an empty page.
   */
  function Page<T>(xs: seq<T>, page: nat, rowsPerPage: nat): (r: seq<T>)
    ensures |r| <= rowsPerPage
    ensures Offset(page, rowsPerPage) >= |xs| ==> r == []
    ensures Offset(page, rowsPerPage) < |xs| ==> |r| == Min(rowsPerPage, |xs| - Offset(page, rowsPerPage))
    ensures forall k :: 0 <= k < |r| ==> Offset(page, rowsPerPage) + k < |xs| && r[k] == xs[Offset(page, rowsPerPage) + k]
  {
    var start := Min(page * rowsPerPage, |xs|);
    var end := Min(page * rowsPerPage + rowsPerPage, |xs|);
    xs[start..end]
  }

  /** The page that index `i` falls on. */
  function PageOf(i: nat, rowsPerPage: nat): nat
    requires rowsPerPage > 0
  {
    i / rowsPerPage
  }

  /** The position of index `i` within its page. */
  function SlotOf(i: nat, rowsPerPage: nat): nat
    requires rowsPerPage > 0
  {
    i % rowsPerPage
  }

  /** Every element is shown on exactly the page its index falls in, at its offset within that page. */
  lemma PageCovers<T>(xs: seq<T>, rowsPerPage: nat, i: nat)
    requires rowsPerPage > 0 && i < |xs|
    ensures var p := Page(xs, PageOf(i, rowsPerPage), rowsPerPage);
            SlotOf(i, rowsPerPage) < |p| && p[SlotOf(i, rowsPerPage)] == xs[i]
  {
    var q := i / rowsPerPage;
    assert q * rowsPerPage + i % rowsPerPage == i;
    assert q * rowsPerPage <= i;
  }

  /** The first page is the list's prefix of `rowsPerPage` elements. */
  lemma FirstPageIsPrefix<T>(xs: seq<T>, rowsPerPage: nat)
    ensures Page(xs, 0, rowsPerPage) == xs[..Min(rowsPerPage, |xs|)]
  {
  }
}
