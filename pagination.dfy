/** The page navigator of `src/components/Pagination.tsx`: a window of page numbers around
    the current page, with the first and last page always shown and an ellipsis for each
    run of pages left out, between a previous and a next button. */
module Pagination {
  import opened Wrappers
  import opened Seqs

  /** One entry of the navigator: a page button or an ellipsis. */
  datatype Item = Page(n: int) | Ellipsis

  /** The buttons for pages `lo` up to `hi`, none when `hi < lo`. */
  function PageRange(lo: int, hi: int): (r: seq<Item>)
    ensures |r| == Max(0, hi - lo + 1)
    ensures forall k :: 0 <= k < |r| ==> r[k] == Page(lo + k)
  {
    seq(Max(0, hi - lo + 1), k requires 0 <= k < Max(0, hi - lo + 1) => Page(lo + k))
  }

  /** The window that `getVisiblePages` builds: never more than seven entries, every page
      when there are at most seven, and the first and the last page always. */
  function Window(cur: int, total: int): (r: seq<Item>)
    ensures |r| <= 7
    ensures total <= 7 ==> |r| == Max(0, total)
    ensures total >= 1 ==> |r| >= 1 && r[0] == Page(1) && r[|r| - 1] == Page(total)
  {
    if total <= 7 then PageRange(1, total)
    else
      [Page(1)]
      + (if cur > 3 then [Ellipsis] else [])
      + PageRange(Max(2, cur - 1), Min(total - 1, cur + 1))
      + (if cur < total - 2 then [Ellipsis] else [])
      + [Page(total)]
  }

  /** Appends the buttons for `lo` up to `hi`, as the `for` loops do. */
  method PushRange(pages: seq<Item>, lo: int, hi: int) returns (out: seq<Item>)
    ensures out == pages + PageRange(lo, hi)
  {
    out := pages;
    var i := lo;
    while i <= hi
      invariant lo <= i <= Max(lo, hi + 1)
      invariant out == pages + PageRange(lo, i - 1)
      decreases hi - i
    {
      out := out + [Page(i)];
      i := i + 1;
    }
  }

  /** `getVisiblePages`. */
  method GetVisiblePages(cur: int, total: int) returns (pages: seq<Item>)
    ensures pages == Window(cur, total)
  {
    pages := [];
    if total <= 7 {
      pages := PushRange(pages, 1, total);
    } else {
      pages := pages + [Page(1)];
      if cur > 3 {
        pages := pages + [Ellipsis];
      }
      ghost var lead := pages;
      pages := PushRange(pages, Max(2, cur - 1), Min(total - 1, cur + 1));
      if cur < total - 2 {
        pages := pages + [Ellipsis];
      }
      pages := pages + [Page(total)];
      assert lead == [Page(1)] + (if cur > 3 then [Ellipsis] else []);
    }
  }

  /** The page numbers shown, in order. */
  predicate Increasing(w: seq<Item>) {
    forall i, j :: 0 <= i < j < |w| && w[i].Page? && w[j].Page? ==> w[i].n < w[j].n
  }

  predicate WithinPages(w: seq<Item>, total: int) {
    forall i :: 0 <= i < |w| && w[i].Page? ==> 1 <= w[i].n <= total
  }

  /** Neighbouring buttons are neighbouring pages, and every ellipsis stands between two
      buttons with at least one page left out between them. */
  predicate GapsMarked(w: seq<Item>) {
    && (forall i :: 0 <= i < |w| - 1 && w[i].Page? && w[i + 1].Page? ==> w[i + 1].n == w[i].n + 1)
    && (forall i :: 0 <= i < |w| && w[i].Ellipsis? ==>
          0 < i < |w| - 1 && w[i - 1].Page? && w[i + 1].Page? && w[i + 1].n > w[i - 1].n + 1)
  }

  /** Up to seven pages are all shown, in order, with no ellipsis. */
  lemma SmallTotalShowsAll(cur: int, total: int)
    requires total <= 7
    ensures var w := Window(cur, total);
      |w| == Max(0, total) && forall i :: 0 <= i < |w| ==> w[i] == Page(i + 1)
  {
  }

  /** Past seven pages the first entry is page 1, the last is the last page, and, for a
      current page in range, the leading and trailing ellipses appear exactly when the
      current page is past 3 and before `total - 2`. */
  lemma LargeTotalShape(cur: int, total: int)
    requires total > 7 && 1 <= cur <= total
    ensures var w := Window(cur, total);
      && |w| >= 3 && w[0] == Page(1) && w[|w| - 1] == Page(total)
      && (w[1] == Ellipsis <==> cur > 3)
      && (w[|w| - 2] == Ellipsis <==> cur < total - 2)
  {
    var lo, hi := Max(2, cur - 1), Min(total - 1, cur + 1);
    var left := if cur > 3 then [Ellipsis] else [];
    var right := if cur < total - 2 then [Ellipsis] else [];
    var mid := PageRange(lo, hi);
    var w := Window(cur, total);
    assert w == [Page(1)] + left + mid + right + [Page(total)];
    assert mid != [] && mid[0] == Page(lo) && mid[|mid| - 1] == Page(hi);
    if cur > 3 {
      assert w[1] == left[0];
    } else {
      assert w[1] == mid[0];
    }
    if cur < total - 2 {
      assert w[|w| - 2] == right[0];
    } else {
      assert w[|w| - 2] == mid[|mid| - 1];
    }
  }

  /** The entry at each position of a window past seven pages, with `L` leading ellipses
      (0 or 1) and `M` middle buttons starting at `lo`. */
  lemma LargeWindowAt(cur: int, total: int, i: int)
    requires total > 7 && 0 <= i < |Window(cur, total)|
    ensures var lo, hi := Max(2, cur - 1), Min(total - 1, cur + 1);
      var L, M := (if cur > 3 then 1 else 0), Max(0, hi - lo + 1);
      var w := Window(cur, total);
      && |w| == 2 + L + M + (if cur < total - 2 then 1 else 0)
      && (i == 0 ==> w[i] == Page(1))
      && (0 < i < 1 + L ==> w[i] == Ellipsis)
      && (1 + L <= i < 1 + L + M ==> w[i] == Page(lo + i - 1 - L))
      && (1 + L + M <= i < |w| - 1 ==> w[i] == Ellipsis)
      && (i == |w| - 1 ==> w[i] == Page(total))
  {
    var lo, hi := Max(2, cur - 1), Min(total - 1, cur + 1);
    var left := if cur > 3 then [Ellipsis] else [];
    var right := if cur < total - 2 then [Ellipsis] else [];
    var mid := PageRange(lo, hi);
    var a := [Page(1)] + left;
    var b := a + mid;
    var c := b + right;
    var w := Window(cur, total);
    assert w == c + [Page(total)];
    if i < |a| {
    } else if i < |b| {
      assert w[i] == mid[i - |a|];
    } else if i < |c| {
      assert w[i] == right[i - |b|];
    }
  }

  /** `LargeWindowAt` at every position at once. */
  lemma LargeWindowEntries(cur: int, total: int)
    requires total > 7
    ensures var lo, hi := Max(2, cur - 1), Min(total - 1, cur + 1);
      var L, M := (if cur > 3 then 1 else 0), Max(0, hi - lo + 1);
      var w := Window(cur, total);
      && |w| == 2 + L + M + (if cur < total - 2 then 1 else 0) && M <= 3
      && (forall i :: 0 <= i < |w| ==>
          && (i == 0 ==> w[i] == Page(1))
          && (0 < i < 1 + L ==> w[i] == Ellipsis)
          && (1 + L <= i < 1 + L + M ==> w[i] == Page(lo + i - 1 - L))
          && (1 + L + M <= i < |w| - 1 ==> w[i] == Ellipsis)
          && (i == |w| - 1 ==> w[i] == Page(total)))
  {
    var w := Window(cur, total);
    LargeWindowAt(cur, total, 0);
    forall i | 0 <= i < |w| {
      LargeWindowAt(cur, total, i);
    }
  }

  /** Past seven pages the numbers shown are pages, in increasing order, in at most seven
      entries. */
  lemma LargeWindowOrdered(cur: int, total: int)
    requires total > 7
    ensures var w := Window(cur, total);
      Increasing(w) && WithinPages(w, total) && |w| <= 7
  {
    LargeWindowEntries(cur, total);
  }

  /** Past seven pages neighbouring buttons are neighbouring pages and each ellipsis stands
      for at least one page. */
  lemma LargeWindowGaps(cur: int, total: int)
    requires total > 7
    ensures GapsMarked(Window(cur, total))
  {
    LargeWindowEntries(cur, total);
  }

  /** Past seven pages the current page, when in range, is shown. */
  lemma LargeWindowShowsCurrent(cur: int, total: int)
    requires total > 7 && 1 <= cur <= total
    ensures Page(cur) in Window(cur, total)
  {
    var w := Window(cur, total);
    var lo := Max(2, cur - 1);
    var L := if cur > 3 then 1 else 0;
    LargeWindowEntries(cur, total);
    if cur == 1 {
      assert w[0] == Page(cur);
    } else if cur == total {
      assert w[|w| - 1] == Page(cur);
    } else {
      assert w[1 + L + (cur - lo)] == Page(cur);
    }
  }

  /** Every shown number is a page, the numbers increase strictly, the current page is shown
      whenever it is a page, there are at most seven entries, and ellipses mark exactly the
      pages left out. */
  lemma WindowWellFormed(cur: int, total: int)
    ensures var w := Window(cur, total);
      && Increasing(w) && WithinPages(w, total) && |w| <= 7
      && GapsMarked(w)
      && (1 <= cur <= total ==> Page(cur) in w)
  {
    if total > 7 {
      LargeWindowOrdered(cur, total);
      LargeWindowGaps(cur, total);
      if 1 <= cur <= total {
        LargeWindowShowsCurrent(cur, total);
      }
    } else if 1 <= cur <= total {
      assert Window(cur, total)[cur - 1] == Page(cur);
    }
  }

  /** What the component renders: nothing for a single page; otherwise the window, the
      previous button disabled on page 1 and the next button disabled on the last page. */
  datatype View = View(pages: seq<Item>, prevDisabled: bool, nextDisabled: bool)

  function Render(cur: int, total: int): (v: Option<View>)
    ensures v.None? <==> total <= 1
    ensures v.Some? ==> v.value.pages == Window(cur, total)
    ensures v.Some? ==> (v.value.prevDisabled <==> cur == 1) && (v.value.nextDisabled <==> cur == total)
  {
    if total <= 1 then None else Some(View(Window(cur, total), cur == 1, cur == total))
  }

  /** The page a click on an entry asks for: a button asks for its page, the arrows for the
      neighbouring pages, a disabled arrow or an ellipsis for nothing. */
  datatype Click = Prev | Next | OnItem(i: nat)

  function Requested(v: View, cur: int, click: Click): Option<int> {
    match click
    case Prev => if v.prevDisabled then None else Some(cur - 1)
    case Next => if v.nextDisabled then None else Some(cur + 1)
    case OnItem(i) => if i < |v.pages| && v.pages[i].Page? then Some(v.pages[i].n) else None
  }

  /** From a page in range, every click asks for a page in range. */
  lemma RequestsStayInRange(cur: int, total: int, click: Click)
    requires 1 <= cur <= total && total > 1
    ensures var r := Requested(Render(cur, total).value, cur, click);
      r.Some? ==> 1 <= r.value <= total
  {
    WindowWellFormed(cur, total);
  }
}
