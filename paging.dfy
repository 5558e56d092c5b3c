/**
 * The paginator the list views use (`Paginator(products, 12)` followed by
 * `get_page`), with no orphans and an allowed empty first page.
 */
module Paging {
  import opened Common

  /** Page size of the product list and of the category page. */
  const PerPage: nat := 12

  datatype Page<T> = Page(number: nat, numPages: nat, items: seq<T>)

  /** Number of pages: at least one, and just enough to hold `count` records. */
  function NumPages(count: nat): (n: nat)
    ensures n >= 1
    ensures count <= n * PerPage
    ensures count == 0 || (n - 1) * PerPage < count
  {
    var hits := if count < 1 then 1 else count;
    (hits + PerPage - 1) / PerPage
  }

  /**
   * `get_page`: a missing or non-integer page number gives page 1; a number
   * below 1 or past the end gives the last page; anything else is honoured.
   */
  function PageNumber(count: nat, requested: Option<int>): (n: nat)
    ensures 1 <= n <= NumPages(count)
    ensures requested.None? ==> n == 1
    ensures requested.Some? && 1 <= requested.value <= NumPages(count) ==> n == requested.value
    ensures requested.Some? && !(1 <= requested.value <= NumPages(count)) ==> n == NumPages(count)
  {
    match requested
    case None => 1
    case Some(k) => if 1 <= k <= NumPages(count) then k else NumPages(count)
  }

  /** The records of page `number` (1-based): a window of at most `PerPage` records. */
  function PageAt<T>(items: seq<T>, number: nat): (r: seq<T>)
    requires 1 <= number <= NumPages(|items|)
    ensures |r| <= PerPage
    ensures forall k :: 0 <= k < |r| ==> (number - 1) * PerPage + k < |items| && r[k] == items[(number - 1) * PerPage + k]
  {
    var bottom := (number - 1) * PerPage;
    if bottom + PerPage >= |items| then items[bottom..] else items[bottom..bottom + PerPage]
  }

  /** The page served for `requested`: the page `PageNumber` picks, holding that page's window of records. */
  function GetPage<T>(items: seq<T>, requested: Option<int>): (p: Page<T>)
    ensures p.numPages == NumPages(|items|)
    ensures p.number == PageNumber(|items|, requested)
    ensures p.items == PageAt(items, p.number)
    ensures 1 <= p.number <= p.numPages
    ensures requested.Some? && 1 <= requested.value <= p.numPages ==> p.number == requested.value
    ensures |p.items| <= PerPage
    ensures forall k :: 0 <= k < |p.items| ==>
              (p.number - 1) * PerPage + k < |items| && p.items[k] == items[(p.number - 1) * PerPage + k]
  {
    var n := PageNumber(|items|, requested);
    Page(n, NumPages(|items|), PageAt(items, n))
  }

  /** Every record appears on page `i / PerPage + 1`, at position `i % PerPage`. */
  lemma EveryRecordOnItsPage<T>(items: seq<T>, i: nat)
    requires i < |items|
    ensures 1 <= i / PerPage + 1 <= NumPages(|items|)
    ensures i % PerPage < |PageAt(items, i / PerPage + 1)|
    ensures PageAt(items, i / PerPage + 1)[i % PerPage] == items[i]
  {
    var n := i / PerPage + 1;
    var c := |items|;
    assert NumPages(c) == (c + PerPage - 1) / PerPage;
    assert n <= NumPages(c);
  }

  /** Every page but the last is full; the last holds the remainder, and is non-empty unless there are no records. */
  lemma PageSizes<T>(items: seq<T>, number: nat)
    requires 1 <= number <= NumPages(|items|)
    ensures number < NumPages(|items|) ==> |PageAt(items, number)| == PerPage
    ensures number == NumPages(|items|) ==> |PageAt(items, number)| == |items| - (number - 1) * PerPage
    ensures |items| > 0 ==> |PageAt(items, number)| > 0
  {
  }

  /** 25 records: page 1 holds 12, page 3 holds 1, and page 99 is served as page 3. */
  lemma TwentyFiveRecords<T>(items: seq<T>)
    requires |items| == 25
    ensures NumPages(25) == 3
    ensures |GetPage(items, Some(1)).items| == 12
    ensures |GetPage(items, Some(3)).items| == 1
    ensures GetPage(items, Some(99)).number == 3
    ensures GetPage(items, Some(0)).number == 3
    ensures GetPage(items, None).number == 1
  {
    PageSizes(items, 1);
    PageSizes(items, 3);
  }
}
