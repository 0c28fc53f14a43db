/** Backward pagination over a news index and the watermark that joins one collection to the next. */
module GdeltCollector {
  import opened Numbers
  import opened Sequences
  import opened Wrappers

  /** Microseconds. */
  type Time = int

  const SECOND: int := 1000000
  const HOUR: int := 3600 * SECOND

  /** `seen` is the instant the index orders by; `published` is the date the client parses, if it can. */
  datatype Article = Article(id: nat, seen: Time, published: Option<Time>)

  datatype Query = Query(lookbackHours: int, maxRecords: int, maxPages: int, overlapSeconds: int)

  datatype Fetched = Page(articles: seq<Article>) | Raised

  /** Filtered out or a duplicate; stored; or the store itself raised. */
  datatype Handled = Skipped | Stored | Broke

  /** One collection: its clock, what the index answers to the n-th request for a window, and
      what happens to the k-th article of that answer. */
  datatype Attempt = Attempt(now: Time, fetch: (nat, Time, Time) -> Fetched, handle: (nat, Article) -> Handled)

  datatype Stop = PageCap | EmptyPage | ShortPage | ReachedStart | NotAdvancing | Failed

  /** A page as it was read: the window end it was asked for and its articles. */
  datatype PageRead = PageRead(end: Time, articles: seq<Article>)

  function Oldest(articles: seq<Article>): (o: Option<Time>)
    ensures o.Some? ==> exists i :: 0 <= i < |articles| && articles[i].published == o
    ensures forall i :: 0 <= i < |articles| && articles[i].published.Some? ==>
      o.Some? && o.value <= articles[i].published.value
  {
    if articles == [] then None
    else
      var rest := Oldest(articles[..|articles| - 1]);
      var p := articles[|articles| - 1].published;
      if p.Some? && (rest.None? || p.value < rest.value) then p else rest
  }

  /** The later of the running maximum and an article's date. */
  function Newer(best: Option<Time>, article: Article): Option<Time> {
    if article.published.Some? && (best.None? || article.published.value > best.value) then article.published else best
  }

  function Newest(best: Option<Time>, articles: seq<Article>): Option<Time> {
    if articles == [] then best else Newer(Newest(best, articles[..|articles| - 1]), articles[|articles| - 1])
  }

  function CountStored(handle: (nat, Article) -> Handled, page: nat, articles: seq<Article>): nat {
    if articles == [] then 0
    else CountStored(handle, page, articles[..|articles| - 1])
         + (if handle(page, articles[|articles| - 1]).Stored? then 1 else 0)
  }

  predicate Breaks(handle: (nat, Article) -> Handled, page: nat, articles: seq<Article>) {
    exists i :: 0 <= i < |articles| && handle(page, articles[i]).Broke?
  }

  /** What becomes of the window end after a page was processed: stop, or carry on below it. */
  function NextEnd(q: Query, start: Time, end: Time, articles: seq<Article>): (r: (Stop, Option<Time>))
    ensures !r.0.Failed? && (r.1.Some? ==> r.1.value < end)
  {
    if |articles| < q.maxRecords then (ShortPage, None)
    else
      var oldest := Oldest(articles);
      if oldest.None? || oldest.value <= start then (ReachedStart, None)
      else if oldest.value - SECOND >= end then (NotAdvancing, None)
      else (PageCap, Some(oldest.value - SECOND))
  }

  /** The pages read from window end `end` on, the n-th request next, and why it stopped. */
  function Paging(q: Query, a: Attempt, start: Time, end: Time, n: nat): (seq<PageRead>, Stop)
    decreases Max(q.maxPages - n, 0)
  {
    if n >= q.maxPages then ([], PageCap)
    else
      match a.fetch(n, start, end)
      case Raised => ([], Failed)
      case Page(articles) =>
        if articles == [] then ([], EmptyPage)
        else if Breaks(a.handle, n, articles) then ([], Failed)
        else
          var (stop, next) := NextEnd(q, start, end, articles);
          if next.None? then ([PageRead(end, articles)], stop)
          else
            var (rest, stop') := Paging(q, a, start, next.value, n + 1);
            ([PageRead(end, articles)] + rest, stop')
  }

  function Articles(pages: seq<PageRead>): seq<Article> {
    if pages == [] then [] else pages[0].articles + Articles(pages[1..])
  }

  function StoredIn(handle: (nat, Article) -> Handled, pages: seq<PageRead>, n: nat): nat
    decreases pages
  {
    if pages == [] then 0 else CountStored(handle, n, pages[0].articles) + StoredIn(handle, pages[1..], n + 1)
  }

  // ---------------------------------------------------------------- windows and watermark

  /** (expected start, actual start) of the next window. */
  function CollectionWindow(q: Query, watermark: Option<Time>, now: Time): (Time, Time) {
    if watermark.None? then (now - Max(1, q.lookbackHours) * HOUR, now - Max(1, q.lookbackHours) * HOUR)
    else (watermark.value, watermark.value - Max(0, q.overlapSeconds) * SECOND)
  }

  function WholeSeconds(span: Time): int {
    if span >= 0 then span / SECOND else -((-span) / SECOND)
  }

  /** (gap seconds, overlap seconds). */
  function CoverageMetrics(expected: Time, actual: Time): (int, int) {
    (Max(0, WholeSeconds(actual - expected)), Max(0, WholeSeconds(expected - actual)))
  }

  function SuccessWatermark(watermark: Option<Time>, now: Time, newest: Option<Time>): Time {
    var candidate := if newest.Some? then newest.value else now;
    if watermark.Some? && candidate < watermark.value then watermark.value else candidate
  }

  function Outcome(q: Query, watermark: Option<Time>, a: Attempt): (seq<PageRead>, Stop) {
    Paging(q, a, CollectionWindow(q, watermark, a.now).1, a.now, 0)
  }

  /** The watermark after one collection: a failed one leaves it alone. */
  function NextWatermark(q: Query, watermark: Option<Time>, a: Attempt): Option<Time> {
    var (pages, stop) := Outcome(q, watermark, a);
    if stop.Failed? then watermark else Some(SuccessWatermark(watermark, a.now, Newest(None, Articles(pages))))
  }

  /** The first window reaches back the configured hours, at least one; a later one starts the overlap
      before the watermark. */
  lemma WindowStarts(q: Query, watermark: Option<Time>, now: Time)
    ensures var (expected, actual) := CollectionWindow(q, watermark, now);
      match watermark
      case None =>
        expected == actual && now - actual == 3600000000 * if q.lookbackHours >= 1 then q.lookbackHours else 1
      case Some(w) => expected == w && w - actual == 1000000 * if q.overlapSeconds >= 0 then q.overlapSeconds else 0
  {
  }

  /** The loop carries on from a full page whose dates that parse, of which there are some, all lie
      after the window's start, and then from a second below the oldest of them. */
  lemma CarriesOnIff(q: Query, start: Time, end: Time, articles: seq<Article>)
    ensures var next := NextEnd(q, start, end, articles).1;
      && (next.Some? <==>
            && |articles| >= q.maxRecords
            && (forall x :: x in articles && x.published.Some? ==> x.published.value > start)
            && (exists x :: x in articles && x.published.Some? && x.published.value - 1000000 < end))
      && (next.Some? ==>
            && (exists x :: x in articles && x.published == Some(next.value + 1000000))
            && (forall x :: x in articles && x.published.Some? ==> x.published.value >= next.value + 1000000))
  {
    hide Oldest;
    var o := Oldest(articles);
    if o.Some? {
      var i :| 0 <= i < |articles| && articles[i].published == o;
      assert articles[i] in articles;
    }
  }

  function StoredAs(handle: (nat, Article) -> Handled, page: nat): Article -> bool {
    (x: Article) => handle(page, x).Stored?
  }

  /** The stored count of a page is the number of its articles that were stored. */
  lemma {:induction false} StoredCounted(handle: (nat, Article) -> Handled, page: nat, articles: seq<Article>)
    ensures CountStored(handle, page, articles) == |Filter(StoredAs(handle, page), articles)|
  {
    if articles != [] { StoredCounted(handle, page, articles[..|articles| - 1]); }
  }

  lemma {:induction false} NewestConcat(best: Option<Time>, s: seq<Article>, t: seq<Article>)
    ensures Newest(best, s + t) == Newest(Newest(best, s), t) && Newest(best, []) == best
  {
    if t == [] {
      assert s + t == s;
    } else {
      NewestConcat(best, s, t[..|t| - 1]);
      assert (s + t)[..|s + t| - 1] == s + t[..|t| - 1];
    }
  }

  /** The inner loop: filter and store one page, tracking the newest date seen. */
  method ProcessPage(handle: (nat, Article) -> Handled, page: nat, articles: seq<Article>, newest: Option<Time>)
    returns (stored: nat, skipped: nat, newest': Option<Time>, broke: bool)
    ensures broke <==> Breaks(handle, page, articles)
    ensures !broke ==>
      && stored == CountStored(handle, page, articles) && stored + skipped == |articles|
      && newest' == Newest(newest, articles)
  {
    stored, skipped, newest', broke := 0, 0, newest, false;
    var i := 0;
    while i < |articles| && !broke
      invariant 0 <= i <= |articles|
      invariant broke ==> Breaks(handle, page, articles)
      invariant !broke ==>
        && (forall k :: 0 <= k < i ==> !handle(page, articles[k]).Broke?)
        && stored == CountStored(handle, page, articles[..i]) && stored + skipped == i
        && newest' == Newest(newest, articles[..i])
      decreases |articles| - i, !broke
    {
      assert articles[..i + 1][..i] == articles[..i];
      newest' := Newer(newest', articles[i]);
      match handle(page, articles[i]) {
        case Skipped => skipped := skipped + 1;
        case Stored => stored := stored + 1;
        case Broke => broke := true;
      }
      if !broke {
        i := i + 1;
      }
    }
    assert articles[..|articles|] == articles;
  }

  /** Reading one page, unfolded: `rest` is what follows it. */
  lemma PagingStep(q: Query, a: Attempt, start: Time, end: Time, n: nat) returns (rest: seq<PageRead>)
    ensures n >= q.maxPages ==> Paging(q, a, start, end, n) == ([], PageCap)
    ensures n < q.maxPages ==>
      var (pages, stop) := Paging(q, a, start, end, n);
      match a.fetch(n, start, end)
      case Raised => stop.Failed?
      case Page(articles) =>
        if articles == [] then stop.EmptyPage? && pages == []
        else if Breaks(a.handle, n, articles) then stop.Failed?
        else
          var next := NextEnd(q, start, end, articles).1;
          && (next.None? ==> rest == [] && !stop.Failed?)
          && (next.Some? ==> (rest, stop) == Paging(q, a, start, next.value, n + 1))
          && |pages| == 1 + |rest|
          && Articles(pages) == articles + Articles(rest)
          && StoredIn(a.handle, pages, n) == CountStored(a.handle, n, articles) + StoredIn(a.handle, rest, n + 1)
  {
    var pages := Paging(q, a, start, end, n).0;
    rest := if pages == [] then [] else pages[1..];
  }

  lemma NoPages(handle: (nat, Article) -> Handled, n: nat)
    ensures Articles([]) == [] && StoredIn(handle, [], n) == 0
  {
  }

  datatype CollectionResult = CollectionResult(
    pagesFetched: nat, itemsFetched: nat, itemsStored: nat, itemsSkipped: nat, failed: bool,
    expectedStart: Time, actualStart: Time, gapSeconds: int, overlapSeconds: int)

  class Source {
    var ingestionWindowEndAt: Option<Time>
    var errorCount: nat

    constructor ()
      ensures ingestionWindowEndAt == None && errorCount == 0
    {
      ingestionWindowEndAt, errorCount := None, 0;
    }

    method CollectQuery(q: Query, a: Attempt) returns (result: CollectionResult, ghost processed: seq<Article>)
      modifies this
      ensures var (pages, stop) := Outcome(q, old(ingestionWindowEndAt), a);
        && (result.failed <==> stop.Failed?)
        && ingestionWindowEndAt == NextWatermark(q, old(ingestionWindowEndAt), a)
        && errorCount == (if stop.Failed? then old(errorCount) + 1 else 0)
        && (!stop.Failed? ==>
              && processed == Articles(pages) && result.pagesFetched == |pages|
              && result.itemsFetched == |Articles(pages)| == result.itemsStored + result.itemsSkipped
              && result.itemsStored == StoredIn(a.handle, pages, 0))
      ensures (result.expectedStart, result.actualStart) == CollectionWindow(q, old(ingestionWindowEndAt), a.now)
      ensures (result.gapSeconds, result.overlapSeconds) == CoverageMetrics(result.expectedStart, result.actualStart)
    {
      hide Paging, Articles, StoredIn, NextEnd, Newest, CountStored, Breaks, CollectionWindow, CoverageMetrics,
          SuccessWatermark;
      var (expectedStart, start) := CollectionWindow(q, ingestionWindowEndAt, a.now);
      var (gap, overlap) := CoverageMetrics(expectedStart, start);
      var end, pagesFetched, itemsFetched, stored, skipped := a.now, 0, 0, 0, 0;
      var newest: Option<Time> := None;
      var failed, done := false, false;
      processed := [];
      NewestConcat(None, [], []);
      ghost var (allPages, stop) := Outcome(q, ingestionWindowEndAt, a);
      ghost var rest := allPages;
      while !failed && !done && pagesFetched < q.maxPages
        invariant 0 <= pagesFetched && 0 <= itemsFetched && 0 <= stored && 0 <= skipped
        invariant ingestionWindowEndAt == old(ingestionWindowEndAt) && errorCount == old(errorCount)
        invariant failed ==> stop.Failed?
        invariant !failed && !done ==> (rest, stop) == Paging(q, a, start, end, pagesFetched)
        invariant done && !failed ==> !stop.Failed? && rest == []
        invariant !failed ==>
          && Articles(allPages) == processed + Articles(rest) && |allPages| == pagesFetched + |rest|
          && itemsFetched == |processed| == stored + skipped
          && StoredIn(a.handle, allPages, 0) == stored + StoredIn(a.handle, rest, pagesFetched)
          && newest == Newest(None, processed)
        decreases q.maxPages - pagesFetched, !failed && !done
      {
        ghost var after := PagingStep(q, a, start, end, pagesFetched);
        var answer := a.fetch(pagesFetched, start, end);
        if answer.Raised? {
          failed := true;
        } else if answer.articles == [] {
          done := true;
        } else {
          var articles := answer.articles;
          var page := pagesFetched;
          pagesFetched := pagesFetched + 1;
          itemsFetched := itemsFetched + |articles|;
          var pageStored, pageSkipped, pageNewest, broke := ProcessPage(a.handle, page, articles, newest);
          failed, newest := broke, pageNewest;
          stored, skipped := stored + pageStored, skipped + pageSkipped;
          if !failed {
            NewestConcat(None, processed, articles);
            processed := processed + articles;
            rest := after;
            var (_, next) := NextEnd(q, start, end, articles);
            if next.Some? {
              end := next.value;
            } else {
              done := true;
            }
          }
        }
      }
      if failed {
        errorCount := errorCount + 1;
      } else {
        if !done {
          ghost var _ := PagingStep(q, a, start, end, pagesFetched);
        }
        NoPages(a.handle, pagesFetched);
        assert rest == [] && !stop.Failed?;
        assert processed == Articles(allPages);
        ingestionWindowEndAt := Some(SuccessWatermark(ingestionWindowEndAt, a.now, newest));
        errorCount := 0;
      }
      result := CollectionResult(
        pagesFetched, itemsFetched, stored, skipped, failed, expectedStart, start, gap, overlap);
    }
  }
}
