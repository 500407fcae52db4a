/** The pagination of the printable schedule: the doses are cut into pages
    of 13 (one column) or 26 (two columns) rows, and each page of the
    two-column layout into a left column of at most 13 rows and, when
    anything is left, a right column. The rendering itself (markup, styles,
    the translated labels) is not modelled. */
module PrintTemplate {
  import opened Wrappers
  import opened Text

  /** The two print layouts. */
  datatype Layout = OneColumn | TwoColumns

  /** `ITEMS_PER_COL`: the rows of one column. */
  const ITEMS_PER_COL: nat := 13

  /** `itemsPerPage`: two columns' worth in the two-column layout, one
      otherwise. */
  function ItemsPerPage(layout: Layout): (n: nat)
    ensures n > 0 && n % ITEMS_PER_COL == 0
    ensures n / ITEMS_PER_COL == if layout == TwoColumns then 2 else 1
  {
    if layout == TwoColumns then ITEMS_PER_COL * 2 else ITEMS_PER_COL
  }

  /** `Math.ceil(count / itemsPerPage) || 1`: the fewest pages that hold
      every dose, and one (empty) page when there is none. */
  function TotalPages(count: nat, itemsPerPage: nat): (pages: nat)
    requires itemsPerPage > 0
    ensures pages >= 1
    ensures count == 0 ==> pages == 1
    ensures count > 0 ==> (pages - 1) * itemsPerPage < count <= pages * itemsPerPage
  {
    if count == 0 then 1 else (count + itemsPerPage - 1) / itemsPerPage
  }

  /** `items.slice(start, end)` for non-negative bounds: the bounds are
      clipped to the length, and an empty slice results when the end is not
      after the start. */
  function Slice<T>(items: seq<T>, start: nat, end: nat): (part: seq<T>)
    ensures var lo := if start < |items| then start else |items|;
      var hi := if end < |items| then end else |items|;
      part == if lo <= hi then items[lo..hi] else []
  {
    var lo := if start < |items| then start else |items|;
    var hi := if end < |items| then end else |items|;
    if lo <= hi then items[lo..hi] else []
  }

  /** `pages`: page `i` is the slice starting at `i * itemsPerPage`. */
  function Pages<T>(items: seq<T>, itemsPerPage: nat): (pages: seq<seq<T>>)
    requires itemsPerPage > 0
    ensures |pages| == TotalPages(|items|, itemsPerPage)
  {
    seq(TotalPages(|items|, itemsPerPage), i requires 0 <= i => Slice(items, i * itemsPerPage, i * itemsPerPage + itemsPerPage))
  }

  /** The pages one after the other. */
  function Concat<T>(groups: seq<seq<T>>): seq<T> {
    if groups == [] then [] else groups[0] + Concat(groups[1..])
  }

  /** A list that fits on one page is that page. */
  lemma PagesSingle<T>(items: seq<T>, itemsPerPage: nat)
    requires 0 < itemsPerPage && |items| <= itemsPerPage
    ensures Pages(items, itemsPerPage) == [items]
  {
    var n := |items|;
    if n > 0 {
      DivUnique(n + itemsPerPage - 1, itemsPerPage, 1, n - 1);
    }
    assert TotalPages(|items|, itemsPerPage) == 1;
    assert Slice(items, 0, itemsPerPage) == items;
  }

  /** A longer list is a full first page followed by the pages of the rest. */
  lemma PagesStep<T>(items: seq<T>, itemsPerPage: nat)
    requires 0 < itemsPerPage < |items|
    ensures Pages(items, itemsPerPage) == [items[..itemsPerPage]] + Pages(items[itemsPerPage..], itemsPerPage)
  {
    var p := itemsPerPage;
    var rest := items[p..];
    var pages, tail := Pages(items, p), Pages(rest, p);
    assert TotalPages(|items|, p) == TotalPages(|rest|, p) + 1 by {
      CeilingStep(|items|, p);
    }
    assert pages[0] == items[..p];
    forall i | 1 <= i < |pages|
      ensures pages[i] == tail[i - 1]
    {
      ShiftedPage(items, p, i);
    }
  }

  /** Page `i` of a list is page `i - 1` of the list without its first page. */
  lemma ShiftedPage<T>(items: seq<T>, p: nat, i: nat)
    requires 0 < p < |items| && 1 <= i
    ensures Slice(items, i * p, i * p + p) == Slice(items[p..], (i - 1) * p, (i - 1) * p + p)
  {
    var j := (i - 1) * p;
    assert i * p == j + p;
    SliceShift(items, p, j);
  }

  lemma SliceShift<T>(items: seq<T>, p: nat, j: nat)
    requires p <= |items|
    ensures Slice(items, j + p, j + p + p) == Slice(items[p..], j, j + p)
  {
    var rest := items[p..];
    if j + p < |items| {
      var hi := if j + p + p < |items| then j + p + p else |items|;
      assert items[j + p..hi] == rest[j..hi - p];
    }
  }

  /** One page more for one page's worth of items more. */
  lemma CeilingStep(n: nat, p: nat)
    requires 0 < p < n
    ensures (n + p - 1) / p == (n - p + p - 1) / p + 1
  {
    var m := n - p + p - 1;
    var q, r := m / p, m % p;
    assert m == q * p + r;
    assert n + p - 1 == (q + 1) * p + r;
    DivUnique(n + p - 1, p, q + 1, r);
  }

  /** Division by a positive divisor has one quotient. */
  lemma DivUnique(n: int, p: int, q: int, r: int)
    requires p > 0 && 0 <= r < p && n == q * p + r
    ensures n / p == q
  {
    var q0, r0 := n / p, n % p;
    assert n == q0 * p + r0;
    var k := q - q0;
    assert k * p == r0 - r;
    if k >= 1 {
      assert k * p >= p by { MulLe(1, k, p); }
    } else if k <= -1 {
      assert (-k) * p >= p by { MulLe(1, -k, p); }
    }
  }

  /** Concatenating the pages in order gives back the list. */
  lemma {:induction false} PagesConcat<T>(items: seq<T>, itemsPerPage: nat)
    requires itemsPerPage > 0
    ensures Concat(Pages(items, itemsPerPage)) == items
    decreases |items|
  {
    if |items| <= itemsPerPage {
      PagesSingle(items, itemsPerPage);
      assert Concat([items]) == items + Concat([]);
    } else {
      PagesStep(items, itemsPerPage);
      PagesConcat(items[itemsPerPage..], itemsPerPage);
      var pages := Pages(items, itemsPerPage);
      assert pages[1..] == Pages(items[itemsPerPage..], itemsPerPage);
      assert items == items[..itemsPerPage] + items[itemsPerPage..];
    }
  }

  /** Every page holds at most `itemsPerPage` doses, every page but the last
      exactly that many, and with at least one dose no page is empty. */
  lemma PageSizes<T>(items: seq<T>, itemsPerPage: nat)
    requires itemsPerPage > 0
    ensures var pages := Pages(items, itemsPerPage);
      (forall i :: 0 <= i < |pages| ==> |pages[i]| <= itemsPerPage)
      && (forall i :: 0 <= i < |pages| - 1 ==> |pages[i]| == itemsPerPage)
      && (|items| > 0 ==> forall i :: 0 <= i < |pages| ==> |pages[i]| > 0)
  {
    forall i | 0 <= i < |Pages(items, itemsPerPage)|
      ensures |Pages(items, itemsPerPage)[i]| <= itemsPerPage
      ensures i < |Pages(items, itemsPerPage)| - 1 ==> |Pages(items, itemsPerPage)[i]| == itemsPerPage
      ensures |items| > 0 ==> |Pages(items, itemsPerPage)[i]| > 0
    {
      PageSize(items, itemsPerPage, i);
    }
  }

  /** The size of page `i`. */
  lemma PageSize<T>(items: seq<T>, p: nat, i: nat)
    requires 0 < p && i < TotalPages(|items|, p)
    ensures var total, page := TotalPages(|items|, p), Pages(items, p)[i];
      |page| <= p
      && (i < total - 1 ==> |page| == p)
      && (|items| > 0 ==> |page| > 0)
  {
    var total := TotalPages(|items|, p);
    var lo := i * p;
    assert Pages(items, p)[i] == Slice(items, lo, lo + p);
    if |items| > 0 {
      var last := (total - 1) * p;
      assert last < |items|;
      assert lo <= last by { MulLe(i, total - 1, p); }
      if i < total - 1 {
        assert lo + p <= last by {
          MulLe(i + 1, total - 1, p);
          assert (i + 1) * p == lo + p;
        }
      }
    }
  }

  lemma MulLe(a: nat, b: nat, p: nat)
    requires a <= b
    ensures a * p <= b * p
  {
  }

  /** The columns of a page, pushed one by one onto a fresh list: in the
      two-column layout the first 13 doses, then the rest when there is any;
      otherwise the whole page. */
  method PageColumns<T>(page: seq<T>, layout: Layout) returns (columns: seq<seq<T>>)
    ensures 1 <= |columns| <= 2 && Concat(columns) == page
    ensures layout == OneColumn ==> columns == [page]
    ensures layout == TwoColumns ==>
      columns[0] == Slice(page, 0, ITEMS_PER_COL) && (|columns| == 2 <==> |page| > ITEMS_PER_COL)
    ensures layout == TwoColumns && |page| <= ItemsPerPage(layout) ==>
      forall k :: 0 <= k < |columns| ==> |columns[k]| <= ITEMS_PER_COL
  {
    columns := [];
    if layout == TwoColumns {
      var left := Slice(page, 0, ITEMS_PER_COL);
      var right := Slice(page, ITEMS_PER_COL, |page|);
      columns := columns + [left];
      if |right| > 0 {
        columns := columns + [right];
        assert columns[1..] == [right] && [right][1..] == [];
        assert Concat(columns) == left + (right + Concat([]));
      } else {
        assert Concat(columns) == left + Concat([]);
      }
      assert left + right == page;
    } else {
      columns := columns + [page];
      assert Concat(columns) == page + Concat([]);
    }
  }

  /** `number.toString().padStart(2, '0')`: the dose number as shown in the
      last column, at least two characters, reading back as the number. */
  function DoseNumberText(number: int): (text: string)
    ensures |text| >= 2
    ensures number >= 0 ==> ToNumber(text) == Some(number)
  {
    var text := PadStart(IntToString(number), 2, '0');
    if number >= 0 then
      NatToStringShape(number);
      NatToStringRoundTrip(number);
      PadZerosValue(NatToString(number), 2);
      text
    else
      text
  }

  /** A dose number of one digit gains a leading zero, a longer one is shown
      as it is, and the text reads back as the number. */
  lemma DoseNumberReadBack(number: nat)
    ensures var text := DoseNumberText(number);
      |text| >= 2 && ToNumber(text) == Some(number)
      && (number < 10 ==> text == ['0', DigitChar(number)])
      && (number >= 10 ==> text == NatToString(number))
  {
    NatToStringShape(number);
    NatToStringRoundTrip(number);
    PadZerosValue(NatToString(number), 2);
    if number < 10 {
      Pad2OneDigit(number);
    }
  }

  /** The first dose is shown as `01`. */
  lemma FirstDoseNumber()
    ensures DoseNumberText(1) == "01"
  {
    DoseNumberReadBack(1);
  }
}
