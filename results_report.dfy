/** The report logic of the results screen
    (frontend/src/screens/ResultsScreen.tsx): the tally of entries per Robson
    classification, the date-range report, and the pagination of the entry
    table. Dates are integers (milliseconds since the epoch); what the date
    picker and the HTTP requests do is outside the model. */
module ResultsReport {
  import opened Text

  /** One entry as the screen receives it from the server. */
  datatype Result = Result(classification: string, csection: bool, date: int)

  /** The eleven labels of the report, in the order the report shows them. */
  const ClassificationOrder: seq<string> := ["1", "2", "3", "4", "5.1", "5.2", "6", "7", "8", "9", "10"]

  lemma ClassificationOrderDistinct()
    ensures forall i, j :: 0 <= i < j < |ClassificationOrder| ==> ClassificationOrder[i] != ClassificationOrder[j]
  {
  }

  // ---------------------------------------------------------------------
  // processResultsForAnalysis
  // ---------------------------------------------------------------------

  /** Number of results whose classification is exactly `cls`. */
  function CountClass(results: seq<Result>, cls: string): nat {
    if results == [] then 0
    else CountClass(results[..|results| - 1], cls)
         + (if results[|results| - 1].classification == cls then 1 else 0)
  }

  /** Number of results classified `cls` that were C-sections; never more
      than the results classified `cls`. */
  function CountCsection(results: seq<Result>, cls: string): (r: nat)
    ensures r <= CountClass(results, cls)
  {
    if results == [] then 0
    else
      var last := results[|results| - 1];
      CountCsection(results[..|results| - 1], cls)
      + (if last.classification == cls && last.csection then 1 else 0)
  }

  /** Number of results whose classification is one of the report's labels. */
  function CountListed(results: seq<Result>): nat {
    if results == [] then 0
    else CountListed(results[..|results| - 1])
         + (if results[|results| - 1].classification in ClassificationOrder then 1 else 0)
  }

  datatype Counts = Counts(responses: nat, csectionCount: nat)
  datatype TallyRow = TallyRow(classification: string, responses: nat, csectionCount: nat)

  /** The report table: row `i` is for label `ClassificationOrder[i]`. */
  function Tally(results: seq<Result>): (rows: seq<TallyRow>)
    ensures |rows| == |ClassificationOrder|
  {
    seq(|ClassificationOrder|, i requires 0 <= i < |ClassificationOrder| =>
      TallyRow(ClassificationOrder[i], CountClass(results, ClassificationOrder[i]),
               CountCsection(results, ClassificationOrder[i])))
  }

  /** `processResultsForAnalysis`: a dictionary of counts per label, set to
      zero for every label, then bumped once per result whose classification
      is a key of the dictionary, then read out in label order. */
  method ProcessResultsForAnalysis(results: seq<Result>) returns (rows: seq<TallyRow>)
    ensures rows == Tally(results)
  {
    var categoryData := ZeroCounts();
    categoryData := CountResults(results, categoryData);
    rows := ReadOut(results, categoryData);
  }

  /** The first loop: every label of the report mapped to zero counts. */
  method ZeroCounts() returns (categoryData: map<string, Counts>)
    ensures categoryData.Keys == set l | l in ClassificationOrder
    ensures forall l :: l in categoryData ==> categoryData[l] == Counts(0, 0)
  {
    categoryData := map[];
    var k := 0;
    while k < |ClassificationOrder|
      invariant 0 <= k <= |ClassificationOrder|
      invariant categoryData.Keys == set l | l in ClassificationOrder[..k]
      invariant forall l :: l in categoryData ==> categoryData[l] == Counts(0, 0)
    {
      assert ClassificationOrder[..k + 1] == ClassificationOrder[..k] + [ClassificationOrder[k]];
      categoryData := categoryData[ClassificationOrder[k] := Counts(0, 0)];
      k := k + 1;
    }
    assert ClassificationOrder[..k] == ClassificationOrder;
  }

  /** The second loop: starting from zero counts, each result whose label is
      a key bumps that key's responses, and its C-section count when the
      result was a C-section; the counts end as the label's totals. */
  method CountResults(results: seq<Result>, zero: map<string, Counts>) returns (categoryData: map<string, Counts>)
    requires forall l :: l in zero ==> zero[l] == Counts(0, 0)
    ensures categoryData.Keys == zero.Keys
    ensures forall l :: l in categoryData ==>
              categoryData[l] == Counts(CountClass(results, l), CountCsection(results, l))
  {
    categoryData := zero;
    var i := 0;
    while i < |results|
      invariant 0 <= i <= |results|
      invariant categoryData.Keys == zero.Keys
      invariant forall l :: l in categoryData ==>
                  categoryData[l] == Counts(CountClass(results[..i], l), CountCsection(results[..i], l))
    {
      assert results[..i + 1][..i] == results[..i];
      var result := results[i];
      if result.classification in categoryData {
        var c := categoryData[result.classification];
        var csections := if result.csection then c.csectionCount + 1 else c.csectionCount;
        categoryData := categoryData[result.classification := Counts(c.responses + 1, csections)];
      }
      i := i + 1;
    }
    assert results[..i] == results;
  }

  /** The third step: the counts read out in the report's label order. */
  method ReadOut(results: seq<Result>, categoryData: map<string, Counts>) returns (rows: seq<TallyRow>)
    requires categoryData.Keys == set l | l in ClassificationOrder
    requires forall l :: l in categoryData ==>
               categoryData[l] == Counts(CountClass(results, l), CountCsection(results, l))
    ensures rows == Tally(results)
  {
    rows := [];
    var j := 0;
    while j < |ClassificationOrder|
      invariant 0 <= j <= |ClassificationOrder|
      invariant rows == Tally(results)[..j]
    {
      var cls := ClassificationOrder[j];
      rows := rows + [TallyRow(cls, categoryData[cls].responses, categoryData[cls].csectionCount)];
      j := j + 1;
    }
  }

  /** Sum of the `responses` column over a list of labels. */
  function SumResponses(results: seq<Result>, labels: seq<string>): nat {
    if labels == [] then 0
    else CountClass(results, labels[0]) + SumResponses(results, labels[1..])
  }

  lemma {:induction false} SumResponsesOfNothing(labels: seq<string>)
    ensures SumResponses([], labels) == 0
  {
    if labels != [] {
      SumResponsesOfNothing(labels[1..]);
    }
  }

  /** One more result adds one to the sum over distinct labels exactly when
      its classification is among them. */
  lemma {:induction false} SumResponsesStep(results: seq<Result>, r: Result, labels: seq<string>)
    requires forall i, j :: 0 <= i < j < |labels| ==> labels[i] != labels[j]
    ensures SumResponses(results + [r], labels)
            == SumResponses(results, labels) + (if r.classification in labels then 1 else 0)
  {
    if labels != [] {
      assert (results + [r])[..|results|] == results;
      SumResponsesStep(results, r, labels[1..]);
      assert r.classification in labels <==> r.classification == labels[0] || r.classification in labels[1..];
      assert labels[0] !in labels[1..];
    }
  }

  /** A result whose classification is not one of the eleven labels (such as
      plain "5", which the server accepts) is counted in no row, so the
      `responses` column sums to the number of results with a listed label. */
  lemma {:induction false} TallyCountsListedResults(results: seq<Result>)
    ensures SumResponses(results, ClassificationOrder) == CountListed(results)
  {
    if results == [] {
      SumResponsesOfNothing(ClassificationOrder);
    } else {
      var init := results[..|results| - 1];
      TallyCountsListedResults(init);
      ClassificationOrderDistinct();
      SumResponsesStep(init, results[|results| - 1], ClassificationOrder);
      assert init + [results[|results| - 1]] == results;
    }
  }

  /** Every row of the report is zero when there are no results, and in
      every row the C-section count is at most the number of responses. */
  lemma TallyRowsBounded(results: seq<Result>)
    ensures forall i :: 0 <= i < |ClassificationOrder| ==>
              Tally(results)[i].classification == ClassificationOrder[i]
              && Tally(results)[i].csectionCount <= Tally(results)[i].responses
    ensures results == [] ==> forall i :: 0 <= i < |ClassificationOrder| ==>
              Tally(results)[i].responses == 0 && Tally(results)[i].csectionCount == 0
  {
  }

  /** A result with a label outside the report leaves every row as it was. */
  lemma {:induction false} UnlistedResultIgnored(results: seq<Result>, r: Result)
    requires r.classification !in ClassificationOrder
    ensures Tally(results + [r]) == Tally(results)
  {
    assert (results + [r])[..|results|] == results;
    var a, b := Tally(results + [r]), Tally(results);
    forall i | 0 <= i < |ClassificationOrder| ensures a[i] == b[i] {
      assert r.classification != ClassificationOrder[i];
    }
  }

  // ---------------------------------------------------------------------
  // handleSubmit: the date-range report
  // ---------------------------------------------------------------------

  const DayMs := 86_400_000

  /** `endOfDay`: the last millisecond of the day `d` falls in. */
  function EndOfDay(d: int): (e: int)
    ensures d <= e < d + DayMs
    ensures (e + 1) % DayMs == 0
  {
    d - d % DayMs + DayMs - 1
  }

  predicate InRange(r: Result, start: int, end: int) {
    start <= r.date <= EndOfDay(end)
  }

  /** The results dated from `start` to the end of the day of `end`, in their
      original order. */
  function FilterByDate(all: seq<Result>, start: int, end: int): (r: seq<Result>)
    ensures |r| <= |all|
    ensures forall x :: x in r <==> x in all && InRange(x, start, end)
  {
    if all == [] then []
    else if InRange(all[0], start, end) then [all[0]] + FilterByDate(all[1..], start, end)
    else FilterByDate(all[1..], start, end)
  }

  /** Filtering keeps order: it can be done piece by piece on any split of
      the list. */
  lemma {:induction false} FilterByDateSplits(a: seq<Result>, b: seq<Result>, start: int, end: int)
    ensures FilterByDate(a + b, start, end) == FilterByDate(a, start, end) + FilterByDate(b, start, end)
  {
    if a != [] {
      assert (a + b)[1..] == a[1..] + b;
      FilterByDateSplits(a[1..], b, start, end);
    } else {
      assert a + b == b;
    }
  }

  /** Narrowing a report to a range inside the first gives the same result
      as filtering the full list with the inner range; since the screen
      always filters the full list, ranges never compound. */
  lemma {:induction false} FilterByDateNested(all: seq<Result>, s1: int, e1: int, s2: int, e2: int)
    requires s1 <= s2 && EndOfDay(e2) <= EndOfDay(e1)
    ensures FilterByDate(FilterByDate(all, s1, e1), s2, e2) == FilterByDate(all, s2, e2)
  {
    if all != [] {
      FilterByDateNested(all[1..], s1, e1, s2, e2);
    }
  }

  // ---------------------------------------------------------------------
  // Pagination
  // ---------------------------------------------------------------------

  const EntriesPerPage := 25

  /** `Math.ceil(n / 25) || 1`: the pages needed for `n` entries, and at
      least one. */
  function TotalPages(n: nat): (t: nat)
    ensures t >= 1
    ensures n <= t * EntriesPerPage
    ensures n > 0 ==> (t - 1) * EntriesPerPage < n
    ensures n == 0 ==> t == 1
  {
    if n == 0 then 1 else (n + EntriesPerPage - 1) / EntriesPerPage
  }

  /** The page-reset effect: a current page past the last page goes back to
      page 1. */
  function ResetPage(current: int, n: nat): (p: int)
    ensures current >= 1 ==> 1 <= p <= TotalPages(n)
    ensures 1 <= current <= TotalPages(n) ==> p == current
    ensures current > TotalPages(n) ==> p == 1
  {
    if current > TotalPages(n) then 1 else current
  }

  /** `Array.prototype.slice(begin, end)`: negative bounds count from the
      end, and both are clamped to the array. */
  function Slice<T>(s: seq<T>, begin: int, end: int): (r: seq<T>)
    ensures |r| <= |s|
    ensures forall x :: x in r ==> x in s
    ensures 0 <= begin <= end <= |s| ==> r == s[begin..end]
    ensures 0 <= begin <= |s| <= end ==> r == s[begin..]
    ensures 0 <= end <= begin ==> r == []
    ensures 0 <= |s| <= begin ==> r == []
  {
    var b := if begin < 0 then (if |s| + begin < 0 then 0 else |s| + begin)
             else if begin > |s| then |s| else begin;
    var e := if end < 0 then (if |s| + end < 0 then 0 else |s| + end)
             else if end > |s| then |s| else end;
    if b < e then s[b..e] else []
  }

  /** `currentEntries`: the entries shown on page `page`. */
  function CurrentEntries(results: seq<Result>, page: int): (r: seq<Result>)
    ensures page >= 1 ==> |r| <= EntriesPerPage
  {
    Slice(results, page * EntriesPerPage - EntriesPerPage, page * EntriesPerPage)
  }

  /** Every entry is shown on exactly one page: entry `k` is at position
      `k % 25` of page `k / 25 + 1`, and that page lies within the page
      count. */
  lemma EntryOnItsPage(results: seq<Result>, k: int)
    requires 0 <= k < |results|
    ensures var page := k / EntriesPerPage + 1;
            && 1 <= page <= TotalPages(|results|)
            && k % EntriesPerPage < |CurrentEntries(results, page)|
            && CurrentEntries(results, page)[k % EntriesPerPage] == results[k]
  {
    var page := k / EntriesPerPage + 1;
    var lo := page * EntriesPerPage - EntriesPerPage;
    assert lo == k - k % EntriesPerPage;
    assert lo <= k < lo + EntriesPerPage;
  }

  /** The pages shown as numbers around the current page: all of them when
      there are at most five, otherwise at most four. */
  function PageWindow(total: int, current: int): (w: (int, int))
    requires total >= 1
    ensures 1 <= w.0 <= w.1 <= total
    ensures 1 <= current <= total ==> w.0 <= current <= w.1
    ensures total <= 5 ==> w == (1, total)
    ensures total > 5 ==> 3 <= w.1 - w.0 + 1 <= 4
  {
    if total <= 5 then (1, total)
    else if current <= 3 then (1, 4)
    else if current >= total - 2 then (total - 3, total)
    else (current - 1, current + 1)
  }

  datatype PageItem = PageLink(page: int, active: bool) | Ellipsis
  datatype Pagination = Pagination(previous: bool, items: seq<PageItem>, next: bool)

  /** The link to page `p`, highlighted when `p` is the current page. */
  function Link(p: int, current: int): PageItem {
    PageLink(p, p == current)
  }

  /** Neighbouring page links are consecutive pages; an ellipsis stands
      between two links, never at an end, and only where pages are skipped. */
  ghost predicate LinksAscend(items: seq<PageItem>) {
    && (forall k :: 0 <= k < |items| - 1 && items[k].PageLink? && items[k + 1].PageLink? ==>
          items[k + 1].page == items[k].page + 1)
    && (forall k :: 0 <= k < |items| && items[k].Ellipsis? ==>
          0 < k < |items| - 1 && items[k - 1].PageLink? && items[k + 1].PageLink?
          && items[k - 1].page + 1 < items[k + 1].page)
  }

  /** In a list of that shape the page numbers strictly increase. */
  lemma {:induction false} LinksAscendIncreasing(items: seq<PageItem>, a: int, b: int)
    requires LinksAscend(items)
    requires 0 <= a < b < |items| && items[a].PageLink? && items[b].PageLink?
    ensures items[a].page < items[b].page
    decreases b - a
  {
    if b == a + 1 {
    } else if items[a + 1].PageLink? {
      LinksAscendIncreasing(items, a + 1, b);
    } else if b > a + 2 {
      LinksAscendIncreasing(items, a + 2, b);
    }
  }

  /** Links to the pages `lo..hi`, in order. */
  function Range(lo: int, hi: int, current: int): (r: seq<PageItem>)
    requires lo <= hi + 1
    ensures |r| == hi - lo + 1
    ensures forall k :: 0 <= k < |r| ==> r[k] == Link(lo + k, current)
  {
    seq(hi - lo + 1, k requires 0 <= k < hi - lo + 1 => Link(lo + k, current))
  }

  /** The page items `renderPagination` pushes, in order: page 1 and an
      ellipsis when the window starts later, the window, then an ellipsis
      and the last page when the window ends earlier. */
  function PageItems(total: int, current: int): seq<PageItem>
    requires total >= 1
  {
    var (startPage, endPage) := PageWindow(total, current);
    var lead := if startPage > 1 then [Link(1, current)] + (if startPage > 2 then [Ellipsis] else []) else [];
    var trail := if endPage < total then (if endPage < total - 1 then [Ellipsis] else []) + [Link(total, current)] else [];
    lead + Range(startPage, endPage, current) + trail
  }

  /** Position `k` of the page items, read off the three parts. */
  lemma PageItemsAt(total: int, current: int, k: int)
    requires total >= 2
    requires 0 <= k < |PageItems(total, current)|
    ensures var (startPage, endPage) := PageWindow(total, current);
            var h := if startPage > 2 then 2 else if startPage > 1 then 1 else 0;
            var m := endPage - startPage + 1;
            var items := PageItems(total, current);
            && (k == 0 && h > 0 ==> items[k] == Link(1, current))
            && (k == 1 && h == 2 ==> items[k] == Ellipsis)
            && (h <= k < h + m ==> items[k] == Link(startPage + k - h, current))
            && (k == h + m && endPage < total - 1 ==> items[k] == Ellipsis)
            && (k == |items| - 1 && endPage < total ==> items[k] == Link(total, current))
            && |items| == h + m + (if endPage < total - 1 then 2 else if endPage < total then 1 else 0)
  {
    var (startPage, endPage) := PageWindow(total, current);
    var lead := if startPage > 1 then [Link(1, current)] + (if startPage > 2 then [Ellipsis] else []) else [];
    var mid := Range(startPage, endPage, current);
    var trail := if endPage < total then (if endPage < total - 1 then [Ellipsis] else []) + [Link(total, current)] else [];
    var items := lead + mid + trail;
    assert items == PageItems(total, current);
    var h, m := |lead|, |mid|;
    if h <= k < h + m {
      assert items[k] == mid[k - h];
    } else if k >= h + m {
      assert items[k] == trail[k - h - m];
    }
  }

  /** Neighbouring links are consecutive pages, and an ellipsis stands
      between two links exactly where pages are skipped. */
  lemma PageItemsAscend(total: int, current: int)
    requires total >= 2
    ensures LinksAscend(PageItems(total, current))
  {
    var items := PageItems(total, current);
    forall k | 0 <= k < |items| - 1 && items[k].PageLink? && items[k + 1].PageLink?
      ensures items[k + 1].page == items[k].page + 1
    {
      PageItemsAt(total, current, k);
      PageItemsAt(total, current, k + 1);
    }
    forall k | 0 <= k < |items| && items[k].Ellipsis?
      ensures 0 < k < |items| - 1 && items[k - 1].PageLink? && items[k + 1].PageLink?
              && items[k - 1].page + 1 < items[k + 1].page
    {
      PageItemsAt(total, current, k);
      assert 0 < k < |items| - 1;
      PageItemsAt(total, current, k - 1);
      PageItemsAt(total, current, k + 1);
    }
  }

  /** The page items start at page 1 and end at the last page; an ellipsis
      follows page 1 exactly when the window starts after page 2, and one
      precedes the last page exactly when the window ends before the page
      preceding it. */
  lemma PageItemsEnds(total: int, current: int)
    requires total >= 2
    ensures var items := PageItems(total, current);
            var (startPage, endPage) := PageWindow(total, current);
            && |items| >= 2
            && items[0] == Link(1, current)
            && items[|items| - 1] == Link(total, current)
            && (items[1].Ellipsis? <==> startPage > 2)
            && (items[|items| - 2].Ellipsis? <==> endPage < total - 1)
  {
    var items := PageItems(total, current);
    PageItemsAt(total, current, 0);
    assert |items| >= 2;
    PageItemsAt(total, current, 1);
    PageItemsAt(total, current, |items| - 2);
    PageItemsAt(total, current, |items| - 1);
  }

  /** Every page of the window is shown, and only the link to the current
      page is highlighted. */
  lemma PageItemsCoverWindow(total: int, current: int)
    requires total >= 2
    ensures var items := PageItems(total, current);
            var (startPage, endPage) := PageWindow(total, current);
            && (forall p :: startPage <= p <= endPage ==> Link(p, current) in items)
            && (forall k :: 0 <= k < |items| && items[k].PageLink? ==> items[k] == Link(items[k].page, current))
  {
    var items := PageItems(total, current);
    var (startPage, endPage) := PageWindow(total, current);
    var h := if startPage > 2 then 2 else if startPage > 1 then 1 else 0;
    forall k | 0 <= k < |items| && items[k].PageLink? ensures items[k] == Link(items[k].page, current) {
      PageItemsAt(total, current, k);
    }
    forall p | startPage <= p <= endPage ensures Link(p, current) in items {
      PageItemsAt(total, current, h + p - startPage);
    }
  }

  /** `renderPagination`: nothing when there is one page; otherwise
      Previous, the page items, and Next. */
  method RenderPagination(n: nat, current: int) returns (r: Option<Pagination>)
    ensures r.None? <==> TotalPages(n) <= 1
    ensures r.Some? ==> r.value.items == PageItems(TotalPages(n), current)
    ensures r.Some? ==> (r.value.previous <==> current > 1)
    ensures r.Some? ==> (r.value.next <==> current < TotalPages(n))
  {
    var total := TotalPages(n);
    if total <= 1 {
      return None;
    }
    var (startPage, endPage) := PageWindow(total, current);
    var pages: seq<PageItem> := [];
    if startPage > 1 {
      pages := pages + [Link(1, current)];
      if startPage > 2 {
        pages := pages + [Ellipsis];
      }
    }
    ghost var lead := pages;
    var i := startPage;
    while i <= endPage
      invariant startPage <= i <= endPage + 1
      invariant pages == lead + Range(startPage, i - 1, current)
    {
      assert Range(startPage, i, current) == Range(startPage, i - 1, current) + [Link(i, current)];
      pages := pages + [Link(i, current)];
      i := i + 1;
    }
    if endPage < total {
      if endPage < total - 1 {
        pages := pages + [Ellipsis];
      }
      pages := pages + [Link(total, current)];
    }
    r := Some(Pagination(current > 1, pages, current < total));
  }

  // ---------------------------------------------------------------------
  // The screen's state
  // ---------------------------------------------------------------------

  datatype SubmitOutcome = Alerted(message: string) | Generated

  /** The state the results screen keeps: the entries fetched for the
      selected group or filter, the entries of the current report, whether a
      report has been generated, and the page of the table on view. */
  class ResultsScreen {
    var allResults: seq<Result>
    var results: seq<Result>
    var reportGenerated: bool
    var currentPage: int

    /** The page on view is always a page of the table. */
    ghost predicate Valid()
      reads this
    {
      1 <= currentPage <= TotalPages(|results|)
    }

    constructor ()
      ensures Valid()
      ensures allResults == [] && results == [] && !reportGenerated && currentPage == 1
    {
      allResults := [];
      results := [];
      reportGenerated := false;
      currentPage := 1;
    }

    /** The effect that runs whenever `results` changes. */
    method ResetPageIfOutOfRange()
      requires currentPage >= 1
      modifies this`currentPage
      ensures Valid()
      ensures currentPage == ResetPage(old(currentPage), |results|)
    {
      if currentPage > TotalPages(|results|) {
        currentPage := 1;
      }
    }

    /** A successful `fetchResults`: the fetched entries become both the full
      list and the shown list. */
    method LoadResults(data: seq<Result>)
      requires Valid()
      modifies this
      ensures Valid()
      ensures allResults == data && results == data && reportGenerated == old(reportGenerated)
      ensures currentPage == ResetPage(old(currentPage), |data|)
    {
      results := data;
      allResults := data;
      ResetPageIfOutOfRange();
    }

    /** `handleSubmit`: with both dates chosen and the start not after the
      end, the shown list becomes the full list narrowed to the range (to
      the end of the end date's day) and a report is marked as generated;
      otherwise an alert is shown and nothing changes. */
    method HandleSubmit(startDate: Option<int>, endDate: Option<int>) returns (outcome: SubmitOutcome)
      requires Valid()
      modifies this
      ensures Valid()
      ensures startDate.None? || endDate.None? ==>
                outcome == Alerted("Please select both start and end dates.")
      ensures startDate.Some? && endDate.Some? && startDate.value > endDate.value ==>
                outcome == Alerted("Start date cannot be after end date.")
      ensures outcome.Alerted? ==> unchanged(this)
      ensures outcome.Generated? <==> startDate.Some? && endDate.Some? && startDate.value <= endDate.value
      ensures outcome.Generated? ==>
                && results == FilterByDate(allResults, startDate.value, endDate.value)
                && allResults == old(allResults)
                && reportGenerated
                && currentPage == ResetPage(old(currentPage), |results|)
    {
      if startDate.None? || endDate.None? {
        return Alerted("Please select both start and end dates.");
      }
      if startDate.value > endDate.value {
        return Alerted("Start date cannot be after end date.");
      }
      results := FilterByDate(allResults, startDate.value, endDate.value);
      reportGenerated := true;
      ResetPageIfOutOfRange();
      return Generated;
    }

    /** The menu action that clears a generated report: the shown list goes
      back to the full list; without a report it does nothing. */
    method ClearReport()
      requires Valid()
      modifies this
      ensures Valid()
      ensures !old(reportGenerated) ==> unchanged(this)
      ensures old(reportGenerated) ==>
                && results == allResults == old(allResults)
                && !reportGenerated
                && currentPage == ResetPage(old(currentPage), |allResults|)
    {
      if reportGenerated {
        results := allResults;
        reportGenerated := false;
        ResetPageIfOutOfRange();
      }
    }
  }
}
