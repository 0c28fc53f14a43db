/** What backward pagination reaches: against a service that answers with the newest articles of a
    closed window, within one collection and over any series of collections. */
module GdeltPaging {
  import opened Numbers
  import opened Wrappers
  import opened GdeltCollector
  import opened Sequences

  /** A window bound as the service sees it: formatted to the second. */
  function ToSecond(t: Time): Time {
    t - t % SECOND
  }

  /** The index works in whole seconds, and a date that parses is the index's own. */
  ghost predicate Timed(archive: iset<Article>) {
    forall x :: x in archive ==> x.seen % SECOND == 0 && (x.published.Some? ==> x.published.value == x.seen)
  }

  ghost predicate InWindow(x: Article, lo: Time, hi: Time) {
    ToSecond(lo) <= x.seen <= ToSecond(hi)
  }

  ghost predicate NoNewer(x: Article, page: seq<Article>) {
    forall y :: y in page ==> x.seen <= y.seen
  }

  /** The newest `max` articles of the window; ties at the last place go either way. */
  ghost predicate NewestPage(page: seq<Article>, archive: iset<Article>, lo: Time, hi: Time, max: int) {
    && |page| <= max
    && Distinct(page)
    && (forall x :: x in page ==> x in archive && InWindow(x, lo, hi))
    && (forall x :: x in archive && InWindow(x, lo, hi) && x !in page ==> |page| == max && NoNewer(x, page))
  }

  /** Every answer of the service, if one comes, is the newest page of what it holds. */
  ghost predicate Conforming(q: Query, a: Attempt, archive: iset<Article>) {
    && q.maxRecords >= 1
    && Timed(archive)
    && forall n, lo, hi :: a.fetch(n, lo, hi).Page? ==>
         NewestPage(a.fetch(n, lo, hi).articles, archive, lo, hi, q.maxRecords)
  }

  // ---------------------------------------------------------------- one collection

  /** Whatever the service answers, each page is asked for with an earlier end than the page before. */
  lemma {:induction false} EndsDecrease(q: Query, a: Attempt, start: Time, end: Time, n: nat)
    ensures var pages := Paging(q, a, start, end, n).0;
      && (forall i :: 0 <= i < |pages| ==> pages[i].end <= end)
      && (forall i, j :: 0 <= i < j < |pages| ==> pages[j].end < pages[i].end)
      && |pages| <= Max(q.maxPages - n, 0)
    decreases Max(q.maxPages - n, 0)
  {
    var pages := Paging(q, a, start, end, n).0;
    if |pages| > 0 {
      var next := NextEnd(q, start, end, pages[0].articles).1;
      if next.Some? {
        EndsDecrease(q, a, start, next.value, n + 1);
        var rest := Paging(q, a, start, next.value, n + 1).0;
        assert forall i :: 1 <= i < |pages| ==> pages[i] == rest[i - 1];
      }
    }
  }

  lemma {:induction false} InSomePage(pages: seq<PageRead>, x: Article)
    ensures x in Articles(pages) <==> exists i :: 0 <= i < |pages| && x in pages[i].articles
  {
    if pages != [] {
      InSomePage(pages[1..], x);
      assert forall i :: 1 <= i < |pages| ==> pages[i] == pages[1..][i - 1];
    }
  }

  lemma WholeSecondsApart(u: Time, v: Time)
    requires u % SECOND == 0 && v % SECOND == 0
    ensures ToSecond(u) == u && ToSecond(v - SECOND) == v - SECOND
    ensures u < v ==> u <= v - SECOND
  {
  }

  lemma ToSecondFloors(t: Time, u: Time)
    requires u % SECOND == 0
    ensures ToSecond(t) <= t < ToSecond(t) + SECOND && (u < ToSecond(t) <==> u <= ToSecond(t) - SECOND)
  {
  }

  lemma ToSecondMonotone(t: Time, u: Time)
    requires t <= u
    ensures ToSecond(t) <= ToSecond(u)
  {
  }

  lemma PageInWindow(q: Query, a: Attempt, archive: iset<Article>, lo: Time, hi: Time, n: nat)
    requires Conforming(q, a, archive) && a.fetch(n, lo, hi).Page?
    ensures forall x :: x in a.fetch(n, lo, hi).articles ==> x in archive && InWindow(x, lo, hi)
  {
    assert NewestPage(a.fetch(n, lo, hi).articles, archive, lo, hi, q.maxRecords);
  }

  /** All a collection reads lies in the service's archive and inside its window. */
  lemma {:induction false} PagesInWindow(q: Query, a: Attempt, archive: iset<Article>, start: Time, end: Time, n: nat)
    requires Conforming(q, a, archive)
    ensures forall x :: x in Articles(Paging(q, a, start, end, n).0) ==> x in archive && InWindow(x, start, end)
    decreases Max(q.maxPages - n, 0)
  {
    hide Conforming, ToSecond, NewestPage;
    var pages := Paging(q, a, start, end, n).0;
    if |pages| > 0 {
      var next := NextEnd(q, start, end, pages[0].articles).1;
      PageInWindow(q, a, archive, start, end, n);
      if next.Some? {
        PagesInWindow(q, a, archive, start, next.value, n + 1);
        ToSecondMonotone(next.value, end);
        assert pages[1..] == Paging(q, a, start, next.value, n + 1).0;
      } else {
        assert pages[1..] == [];
      }
    }
  }

  /** No repetition but of articles whose date does not parse. */
  ghost predicate DistinctDated(s: seq<Article>) {
    forall i, j :: 0 <= i < j < |s| && s[i] == s[j] ==> s[i].published.None?
  }

  /** No article with a date is processed twice in one collection. */
  lemma {:induction false} NothingTwice(q: Query, a: Attempt, archive: iset<Article>, start: Time, end: Time, n: nat)
    requires Conforming(q, a, archive)
    ensures DistinctDated(Articles(Paging(q, a, start, end, n).0))
    decreases Max(q.maxPages - n, 0)
  {
    hide Conforming, NewestPage, ToSecond, Articles, DistinctDated, Oldest, NextEnd;
    var pages := Paging(q, a, start, end, n).0;
    NoArticles();
    if |pages| > 0 {
      var articles := pages[0].articles;
      var next := NextEnd(q, start, end, articles).1;
      var rest := if next.Some? then Paging(q, a, start, next.value, n + 1).0 else [];
      assert pages == [pages[0]] + rest;
      FirstThenRest(pages[0], rest);
      DatedAbove(q, a, archive, start, end, n);
      if next.Some? {
        NothingTwice(q, a, archive, start, next.value, n + 1);
        PagesInWindow(q, a, archive, start, next.value, n + 1);
        ToSecondFloors(next.value, 0);
      }
      DatedApart(articles, Articles(rest));
    }
  }

  lemma NoArticles()
    ensures Articles([]) == [] && DistinctDated([])
  {
  }

  lemma FirstThenRest(first: PageRead, rest: seq<PageRead>)
    ensures Articles([first] + rest) == first.articles + Articles(rest)
  {
    assert ([first] + rest)[1..] == rest;
  }

  /** The dated articles of a page all lie above the window that follows it. */
  lemma DatedAbove(q: Query, a: Attempt, archive: iset<Article>, start: Time, end: Time, n: nat)
    requires Conforming(q, a, archive) && a.fetch(n, start, end).Page?
    ensures var articles := a.fetch(n, start, end).articles;
      var next := NextEnd(q, start, end, articles).1;
      && Distinct(articles)
      && forall x :: x in articles && x.published.Some? && next.Some? ==> next.value < x.seen
  {
    hide ToSecond;
    var articles := a.fetch(n, start, end).articles;
    assert NewestPage(articles, archive, start, end, q.maxRecords);
    forall x | x in articles && x.published.Some? ensures Oldest(articles).Some? && Oldest(articles).value <= x.seen {
      FirstPageDated(archive, articles, end, x);
    }
  }

  lemma DatedApart(a: seq<Article>, b: seq<Article>)
    requires Distinct(a) && DistinctDated(b) && forall x :: x in a && x in b ==> x.published.None?
    ensures DistinctDated(a + b)
  {
    forall i, j | 0 <= i < j < |a + b| && (a + b)[i] == (a + b)[j] ensures (a + b)[i].published.None? {
      if i < |a| <= j { assert a[i] in a && b[j - |a|] in b; }
    }
  }

  /** x shares the second of a full page's oldest article and did not fit on that page. */
  ghost predicate Cut(q: Query, pages: seq<PageRead>, x: Article) {
    exists i :: 0 <= i < |pages| && CutBy(q, pages[i], x)
  }

  ghost predicate CutBy(q: Query, page: PageRead, x: Article) {
    |page.articles| >= q.maxRecords && Oldest(page.articles) == Some(x.seen) && x !in page.articles
  }

  /** Some page goes back at least to the time of x. */
  ghost predicate Reached(pages: seq<PageRead>, x: Article) {
    exists i :: 0 <= i < |pages| && GoesBackTo(pages[i], x)
  }

  ghost predicate GoesBackTo(page: PageRead, x: Article) {
    var o := Oldest(page.articles);
    o.Some? && o.value <= x.seen
  }

  /** The last page read is full and none of its dates parses: the loop cannot tell how far it got. */
  ghost predicate Blind(q: Query, pages: seq<PageRead>) {
    pages != [] && |pages[|pages| - 1].articles| >= q.maxRecords && Oldest(pages[|pages| - 1].articles).None?
  }

  /** The loop ended before it could know that the window was exhausted. */
  ghost predicate Early(q: Query, pages: seq<PageRead>, stop: Stop) {
    stop.PageCap? || stop.Failed? || Blind(q, pages)
  }

  /** Not cut off by a full page and, where the loop ended early, gone back to. */
  ghost predicate Within(q: Query, pages: seq<PageRead>, stop: Stop, x: Article) {
    !Cut(q, pages, x) && (Early(q, pages, stop) ==> Reached(pages, x))
  }

  /** The page holds x although x is older than every date on it that parses. */
  ghost predicate OvertakenBy(page: PageRead, x: Article) {
    x in page.articles && Oldest(page.articles).Some? && x.seen < Oldest(page.articles).value
  }

  /** The page holds x, but neither its dates nor its length show that it goes back so far. */
  ghost predicate StrayBy(q: Query, page: PageRead, x: Article) {
    || OvertakenBy(page, x)
    || (x in page.articles && |page.articles| >= q.maxRecords && Oldest(page.articles).None?)
  }

  ghost predicate Stray(q: Query, pages: seq<PageRead>, x: Article) {
    exists i :: 0 <= i < |pages| && StrayBy(q, pages[i], x)
  }

  /** Within what the loop knows it went through, or come across beside it. */
  ghost predicate Met(q: Query, pages: seq<PageRead>, stop: Stop, x: Article) {
    Within(q, pages, stop, x) || Stray(q, pages, x)
  }

  /** The first page either holds x, tells the loop nothing, cuts x off, or leaves it to the window
      below. */
  lemma FirstPage(q: Query, archive: iset<Article>, start: Time, end: Time, articles: seq<Article>, x: Article)
    requires q.maxRecords >= 1 && Timed(archive) && NewestPage(articles, archive, start, end, q.maxRecords)
    requires x in archive && InWindow(x, start, end) && x !in articles
    ensures |articles| == q.maxRecords
    ensures Oldest(articles).None? ==> NextEnd(q, start, end, articles) == (ReachedStart, None)
    ensures Oldest(articles).Some? && !CutBy(q, PageRead(end, articles), x) ==>
      && NextEnd(q, start, end, articles) == (PageCap, Some(Oldest(articles).value - SECOND))
      && InWindow(x, start, Oldest(articles).value - SECOND)
      && !GoesBackTo(PageRead(end, articles), x)
  {
    hide ToSecond, Distinct, Oldest;
    var o := Oldest(articles);
    if o.Some? {
      var i :| 0 <= i < |articles| && articles[i].published == o;
      assert articles[i] in articles && InWindow(articles[i], start, end);
      WholeSecondsApart(x.seen, o.value);
      ToSecondFloors(start, x.seen);
      ToSecondFloors(end, o.value);
    }
  }

  lemma EmptyMeansNone(q: Query, archive: iset<Article>, start: Time, end: Time, articles: seq<Article>)
    requires q.maxRecords >= 1 && NewestPage(articles, archive, start, end, q.maxRecords) && articles == []
    ensures forall x :: x in archive ==> !InWindow(x, start, end)
  {
  }

  lemma FirstPageDated(archive: iset<Article>, articles: seq<Article>, end: Time, x: Article)
    requires Timed(archive) && x in archive && x in articles && x.published.Some?
    ensures GoesBackTo(PageRead(end, articles), x)
    ensures Oldest(articles).Some? && Oldest(articles).value <= x.seen
  {
    var k :| 0 <= k < |articles| && articles[k] == x;
  }

  /** What holds of the pages after the first carries over. */
  lemma WithinRest(q: Query, first: PageRead, rest: seq<PageRead>, stop: Stop, x: Article)
    requires Oldest(first.articles).Some? && !CutBy(q, first, x) && !GoesBackTo(first, x)
    ensures Within(q, [first] + rest, stop, x) <==> Within(q, rest, stop, x)
  {
    hide Oldest, GoesBackTo, CutBy;
    var pages := [first] + rest;
    assert forall i :: 0 <= i < |rest| ==> rest[i] == pages[i + 1];
    assert rest != [] ==> pages[|pages| - 1] == rest[|rest| - 1];
    if rest == [] { hide *; BlindNeedsNoDate(q, first); }
  }

  lemma BlindNeedsNoDate(q: Query, first: PageRead)
    requires Oldest(first.articles).Some?
    ensures !Blind(q, [first]) && !Blind(q, [])
  {
  }

  /** What a collection processes, exactly: the articles of the window that no full page cut off and
      that, where the loop ended early, some page went back to, and those it came across beside them.
      An article with a date is never of the second kind. */
  lemma {:induction false} ProcessedIff(
      q: Query, a: Attempt, archive: iset<Article>, start: Time, end: Time, n: nat, x: Article)
    requires Conforming(q, a, archive) && x in archive && InWindow(x, start, end)
    ensures var (pages, stop) := Paging(q, a, start, end, n);
      && (x in Articles(pages) <==> Met(q, pages, stop, x))
      && (x.published.Some? ==> !Stray(q, pages, x))
    decreases Max(q.maxPages - n, 0)
  {
    hide ToSecond, NewestPage, Oldest, Timed, InWindow, GoesBackTo, Articles, Within, CutBy, Cut, NextEnd, Stray;
    hide StrayBy;
    var (pages, stop) := Paging(q, a, start, end, n);
    NothingRead(q, x);
    if |pages| > 0 {
      var articles := pages[0].articles;
      var next := NextEnd(q, start, end, articles).1;
      var rest := if next.Some? then Paging(q, a, start, next.value, n + 1).0 else [];
      assert pages == [pages[0]] + rest && pages[0] == PageRead(end, articles);
      ArticlesCons(pages[0], rest, x);
      StrayRest(q, pages[0], rest, x);
      if x.published.Some? { DatedStrays(q, archive, pages[0], x); }
      if next.Some? && next.value < x.seen { LaterPagesOlder(q, a, archive, start, next.value, n + 1, x, rest); }
      StrayMet(q, rest, x);
      if x in articles {
        if !StrayBy(q, pages[0], x) {
          HeldBy(q, start, pages[0], x);
          if Oldest(articles).None? {
            ShortHolds(q, pages[0], x);
          } else {
            FirstHolds(q, pages[0], rest, stop, x);
          }
        }
      } else {
        NotHeld(q, pages[0], x);
        FirstPage(q, archive, start, end, articles, x);
        if Oldest(articles).None? {
          BlindPage(q, pages[0], stop, x);
        } else if CutBy(q, pages[0], x) {
          CutFirst(q, start, pages[0], rest, stop, x);
        } else {
          ProcessedIff(q, a, archive, start, next.value, n + 1, x);
          WithinRest(q, pages[0], rest, stop, x);
        }
      }
    } else if stop.EmptyPage? {
      EmptyMeansNone(q, archive, start, end, a.fetch(n, start, end).articles);
    }
  }

  lemma StrayRest(q: Query, first: PageRead, rest: seq<PageRead>, x: Article)
    ensures Stray(q, [first] + rest, x) <==> StrayBy(q, first, x) || Stray(q, rest, x)
  {
    hide StrayBy;
    var pages := [first] + rest;
    if i :| 0 <= i < |pages| && StrayBy(q, pages[i], x) {
      if i > 0 { assert StrayBy(q, rest[i - 1], x); }
    }
    if i :| 0 <= i < |rest| && StrayBy(q, rest[i], x) {
      assert StrayBy(q, pages[i + 1], x);
    }
    assert StrayBy(q, first, x) ==> StrayBy(q, pages[0], x);
  }

  lemma DatedStrays(q: Query, archive: iset<Article>, page: PageRead, x: Article)
    requires Timed(archive) && x in archive && x.published.Some?
    ensures !StrayBy(q, page, x)
  {
    if x in page.articles { FirstPageDated(archive, page.articles, page.end, x); }
  }

  lemma StrayMet(q: Query, pages: seq<PageRead>, x: Article)
    ensures Stray(q, pages, x) ==> x in Articles(pages)
  {
    hide Articles;
    InSomePage(pages, x);
  }

  lemma NotHeld(q: Query, page: PageRead, x: Article)
    requires x !in page.articles
    ensures !StrayBy(q, page, x)
  {
  }

  /** A page that holds x and shows that it goes back so far: by a date, or by being short. */
  lemma HeldBy(q: Query, start: Time, page: PageRead, x: Article)
    requires x in page.articles && !StrayBy(q, page, x)
    ensures Oldest(page.articles).None? ==> |page.articles| < q.maxRecords
    ensures Oldest(page.articles).Some? ==> GoesBackTo(page, x)
    ensures var next := NextEnd(q, start, page.end, page.articles).1; next.Some? ==> next.value < x.seen
    ensures Oldest(page.articles).None? ==> NextEnd(q, start, page.end, page.articles) == (ShortPage, None)
  {
    hide Oldest;
  }

  lemma ShortHolds(q: Query, page: PageRead, x: Article)
    requires x in page.articles && |page.articles| < q.maxRecords
    ensures Within(q, [page], ShortPage, x)
  {
  }

  lemma NothingRead(q: Query, x: Article)
    ensures x !in Articles([]) && !Cut(q, [], x) && !Stray(q, [], x)
    ensures forall stop: Stop :: stop.PageCap? || stop.Failed? ==> !Within(q, [], stop, x)
  {
  }

  lemma ArticlesCons(first: PageRead, rest: seq<PageRead>, x: Article)
    ensures x in Articles([first] + rest) <==> x in first.articles || x in Articles(rest)
  {
    assert ([first] + rest)[1..] == rest;
  }

  lemma FirstHolds(q: Query, first: PageRead, rest: seq<PageRead>, stop: Stop, x: Article)
    requires x in first.articles && GoesBackTo(first, x) && !Cut(q, rest, x)
    ensures Within(q, [first] + rest, stop, x)
  {
    hide GoesBackTo, Oldest;
    var pages := [first] + rest;
    assert forall i :: 1 <= i < |pages| ==> pages[i] == rest[i - 1];
    assert pages[0] == first;
  }

  lemma CutFirst(q: Query, start: Time, first: PageRead, rest: seq<PageRead>, stop: Stop, x: Article)
    requires CutBy(q, first, x)
    ensures !Within(q, [first] + rest, stop, x)
    ensures var next := NextEnd(q, start, first.end, first.articles).1; next.Some? ==> next.value < x.seen
  {
    assert ([first] + rest)[0] == first;
  }

  lemma BlindPage(q: Query, first: PageRead, stop: Stop, x: Article)
    requires |first.articles| >= q.maxRecords && Oldest(first.articles).None?
    ensures !Within(q, [first], stop, x)
  {
  }

  /** Pages below the time of x neither hold it nor cut it off. */
  lemma LaterPagesOlder(
      q: Query, a: Attempt, archive: iset<Article>, start: Time, end: Time, n: nat, x: Article, rest: seq<PageRead>)
    requires Conforming(q, a, archive) && end < x.seen
    requires rest == Paging(q, a, start, end, n).0
    ensures x !in Articles(rest) && !Cut(q, rest, x)
  {
    hide Paging, Conforming, ToSecond, Articles;
    PagesInWindow(q, a, archive, start, end, n);
    ToSecondFloors(end, 0);
    if i :| 0 <= i < |rest| && CutBy(q, rest[i], x) {
      var articles := rest[i].articles;
      var k :| 0 <= k < |articles| && articles[k].published == Some(x.seen);
      InSomePage(rest, articles[k]);
      ArchiveTimed(q, a, archive);
    }
  }

  lemma ArchiveTimed(q: Query, a: Attempt, archive: iset<Article>)
    requires Conforming(q, a, archive)
    ensures Timed(archive)
  {
  }

  // ---------------------------------------------------------------- repetitions

  ghost predicate OnBoth(pages: seq<PageRead>, x: Article, i: nat, j: nat) {
    i < j < |pages| && x in pages[i].articles && x in pages[j].articles
  }

  ghost predicate Repeated(pages: seq<PageRead>, x: Article) {
    exists i: nat, j: nat :: OnBoth(pages, x, i, j)
  }

  ghost predicate Overtaken(pages: seq<PageRead>, x: Article) {
    exists i :: 0 <= i < |pages| - 1 && OvertakenBy(pages[i], x)
  }

  lemma RepeatedRest(first: PageRead, rest: seq<PageRead>, x: Article)
    ensures Repeated([first] + rest, x) <==> (x in first.articles && x in Articles(rest)) || Repeated(rest, x)
  {
    hide Articles;
    var pages := [first] + rest;
    InSomePage(rest, x);
    if i: nat, j: nat :| OnBoth(pages, x, i, j) {
      if i > 0 { assert OnBoth(rest, x, i - 1, j - 1); }
    }
    if i: nat, j: nat :| OnBoth(rest, x, i, j) {
      assert OnBoth(pages, x, i + 1, j + 1);
    }
    if j: nat :| j < |rest| && x in rest[j].articles {
      assert x in first.articles ==> OnBoth(pages, x, 0, j + 1);
    }
  }

  lemma OvertakenRest(first: PageRead, rest: seq<PageRead>, x: Article)
    ensures Overtaken([first] + rest, x) <==> (rest != [] && OvertakenBy(first, x)) || Overtaken(rest, x)
  {
    hide OvertakenBy;
    var pages := [first] + rest;
    if i :| 0 <= i < |pages| - 1 && OvertakenBy(pages[i], x) {
      if i > 0 { assert OvertakenBy(rest[i - 1], x); }
    }
    if i :| 0 <= i < |rest| - 1 && OvertakenBy(rest[i], x) {
      assert OvertakenBy(pages[i + 1], x);
    }
    assert pages[0] == first;
  }

  lemma NotOnPages(q: Query, pages: seq<PageRead>, stop: Stop, x: Article)
    requires x !in Articles(pages)
    ensures !Repeated(pages, x) && !Overtaken(pages, x) && !MetAgain(q, pages, stop, x)
  {
    hide Articles;
    InSomePage(pages, x);
  }

  lemma CutRest(q: Query, first: PageRead, rest: seq<PageRead>, stop: Stop, x: Article)
    requires rest != []
    ensures Cut(q, rest, x) ==> Cut(q, [first] + rest, x)
    ensures Early(q, [first] + rest, stop) <==> Early(q, rest, stop)
  {
    hide CutBy;
    var pages := [first] + rest;
    assert forall i :: 0 <= i < |rest| ==> rest[i] == pages[i + 1];
    assert pages[|pages| - 1] == rest[|rest| - 1];
  }

  /** Some page but the last holds x, older than every date on it that parses, and the pages below
      meet it again. */
  ghost predicate MetAgain(q: Query, pages: seq<PageRead>, stop: Stop, x: Article) {
    exists i :: 0 <= i < |pages| - 1 && OvertakenBy(pages[i], x) && Met(q, pages[i + 1..], stop, x)
  }

  lemma MetAgainRest(q: Query, first: PageRead, rest: seq<PageRead>, stop: Stop, x: Article)
    ensures MetAgain(q, [first] + rest, stop, x)
       <==> (rest != [] && OvertakenBy(first, x) && Met(q, rest, stop, x)) || MetAgain(q, rest, stop, x)
  {
    hide OvertakenBy, Met;
    var pages := [first] + rest;
    assert pages[0] == first && pages[1..] == rest;
    if i :| 0 <= i < |pages| - 1 && OvertakenBy(pages[i], x) && Met(q, pages[i + 1..], stop, x) {
      if i > 0 { assert OvertakenBy(rest[i - 1], x) && pages[i + 1..] == rest[i - 1 + 1..]; }
    }
    if i :| 0 <= i < |rest| - 1 && OvertakenBy(rest[i], x) && Met(q, rest[i + 1..], stop, x) {
      assert OvertakenBy(pages[i + 1], x) && pages[i + 1 + 1..] == rest[i + 1..];
    }
  }

  /** Which articles come twice, in any collection: exactly those met again. Such an article was
      overtaken, and where the loop did not end early and no page cut x off an overtaken one is. */
  lemma {:induction false} RepeatedIff(
      q: Query, a: Attempt, archive: iset<Article>, start: Time, end: Time, n: nat, x: Article)
    requires Conforming(q, a, archive) && x in archive && InWindow(x, start, end)
    ensures var (pages, stop) := Paging(q, a, start, end, n);
      && (Repeated(pages, x) <==> MetAgain(q, pages, stop, x))
      && (Repeated(pages, x) ==> Overtaken(pages, x))
      && (!Early(q, pages, stop) && !Cut(q, pages, x) ==> (Repeated(pages, x) <==> Overtaken(pages, x)))
    decreases Max(q.maxPages - n, 0)
  {
    hide ToSecond, NewestPage, Oldest, Timed, InWindow, Repeated, Overtaken, MetAgain, Cut, Early, Articles, Stray;
    var (pages, stop) := Paging(q, a, start, end, n);
    if |pages| <= 1 {
      AtMostOnePage(q, pages, stop, x);
    } else {
      var articles := pages[0].articles;
      var next := NextEnd(q, start, end, articles).1.value;
      var rest := Paging(q, a, start, next, n + 1).0;
      assert pages == [pages[0]] + rest;
      RepeatedRest(pages[0], rest, x);
      OvertakenRest(pages[0], rest, x);
      MetAgainRest(q, pages[0], rest, stop, x);
      CutRest(q, pages[0], rest, stop, x);
      WholeSeen(q, a, archive, start, end, n, x);
      WholeSecondsApart(x.seen, Oldest(articles).value);
      if next < x.seen {
        LaterPagesOlder(q, a, archive, start, next, n + 1, x, rest);
        NotOnPages(q, rest, stop, x);
      } else {
        SeenBelow(start, end, next, x);
        ProcessedIff(q, a, archive, start, next, n + 1, x);
        RepeatedIff(q, a, archive, start, next, n + 1, x);
      }
    }
  }

  lemma WholeSeen(q: Query, a: Attempt, archive: iset<Article>, lo: Time, hi: Time, n: nat, x: Article)
    requires Conforming(q, a, archive) && x in archive && a.fetch(n, lo, hi).Page?
    ensures x.seen % SECOND == 0
    ensures var o := Oldest(a.fetch(n, lo, hi).articles); o.Some? ==> o.value % SECOND == 0
  {
    var articles := a.fetch(n, lo, hi).articles;
    PageInWindow(q, a, archive, lo, hi, n);
    if Oldest(articles).Some? {
      var i :| 0 <= i < |articles| && articles[i].published == Oldest(articles);
      assert articles[i] in articles;
    }
  }

  lemma SeenBelow(start: Time, end: Time, next: Time, x: Article)
    requires InWindow(x, start, end) && x.seen <= next
    ensures x.seen % SECOND == 0 ==> InWindow(x, start, next)
  {
    ToSecondMonotone(x.seen, next);
  }

  lemma AtMostOnePage(q: Query, pages: seq<PageRead>, stop: Stop, x: Article)
    requires |pages| <= 1
    ensures !Repeated(pages, x) && !Overtaken(pages, x) && !MetAgain(q, pages, stop, x)
  {
  }

  // ---------------------------------------------------------------- series of collections

  /** The watermark in front of the n-th collection. */
  function Watermark(q: Query, w0: Option<Time>, runs: seq<Attempt>, n: nat): Option<Time>
    requires n <= |runs|
  {
    if n == 0 then w0 else NextWatermark(q, Watermark(q, w0, runs, n - 1), runs[n - 1])
  }

  function StartOf(q: Query, w0: Option<Time>, runs: seq<Attempt>, n: nat): Time
    requires n < |runs|
  {
    CollectionWindow(q, Watermark(q, w0, runs, n), runs[n].now).1
  }

  function OutcomeOf(q: Query, w0: Option<Time>, runs: seq<Attempt>, n: nat): (seq<PageRead>, Stop)
    requires n < |runs|
  {
    Outcome(q, Watermark(q, w0, runs, n), runs[n])
  }

  /** Whatever the service answers, the watermark never decreases and is never lost. */
  lemma {:induction false} WatermarkMonotone(q: Query, w0: Option<Time>, runs: seq<Attempt>, i: nat, j: nat)
    requires i <= j <= |runs|
    ensures Watermark(q, w0, runs, i).Some? ==>
      && Watermark(q, w0, runs, j).Some?
      && Watermark(q, w0, runs, i).value <= Watermark(q, w0, runs, j).value
    decreases j
  {
    if i < j { WatermarkMonotone(q, w0, runs, i, j - 1); }
  }

  /** Consecutive windows leave no gap: each starts at or before the watermark, and the reported gap is zero. */
  lemma NoGap(q: Query, watermark: Option<Time>, now: Time)
    ensures var (expected, actual) := CollectionWindow(q, watermark, now);
      && actual <= expected && (watermark.Some? ==> expected == watermark.value)
      && CoverageMetrics(expected, actual) == (0, if watermark.Some? then Max(0, q.overlapSeconds) else 0)
  {
  }

  lemma {:induction false} NewestIsOne(articles: seq<Article>)
    ensures var m := Newest(None, articles);
      && (m.Some? ==> exists x :: x in articles && x.published == m)
      && (forall x :: x in articles && x.published.Some? ==> m.Some? && x.published.value <= m.value)
  {
    if articles != [] {
      var front, last := articles[..|articles| - 1], articles[|articles| - 1];
      NewestIsOne(front);
      assert articles == front + [last];
      assert last in articles;
      assert forall x :: x in front ==> x in articles;
    }
  }

  /** After a success the watermark is no older than anything read, and it is the previous one, the
      date of an article read, or, when nothing dated was read, the clock. */
  lemma WatermarkIsNewest(q: Query, watermark: Option<Time>, a: Attempt)
    requires !Outcome(q, watermark, a).1.Failed?
    ensures var articles, next := Articles(Outcome(q, watermark, a).0), NextWatermark(q, watermark, a);
      && next.Some?
      && (forall x :: x in articles && x.published.Some? ==> x.published.value <= next.value)
      && (|| next == watermark
          || (exists x :: x in articles && x.published == next)
          || (next.value == a.now && forall x :: x in articles ==> x.published.None?))
  {
    NewestIsOne(Articles(Outcome(q, watermark, a).0));
  }

  /** Against a conforming service one collection moves the watermark no further than its own clock. */
  lemma WatermarkWithinClock(q: Query, watermark: Option<Time>, a: Attempt, archive: iset<Article>)
    requires Conforming(q, a, archive)
    ensures var next := NextWatermark(q, watermark, a);
      next == watermark || (next.Some? && next.value <= a.now && !Outcome(q, watermark, a).1.Failed?)
  {
    var start := CollectionWindow(q, watermark, a.now).1;
    PagesInWindow(q, a, archive, start, a.now, 0);
    NewestIsOne(Articles(Outcome(q, watermark, a).0));
  }

  /** A watermark was either there from the outset or set by a successful collection no earlier than it. */
  lemma {:induction false} WatermarkOrigin(q: Query, w0: Option<Time>, runs: seq<Attempt>,
      archives: seq<iset<Article>>, n: nat)
    returns (i: nat)
    requires n <= |runs| == |archives| && forall k :: 0 <= k < |runs| ==> Conforming(q, runs[k], archives[k])
    ensures Watermark(q, w0, runs, n) != w0 ==>
      && i < n && !OutcomeOf(q, w0, runs, i).1.Failed?
      && Watermark(q, w0, runs, n).Some? && Watermark(q, w0, runs, n).value <= runs[i].now
  {
    i := 0;
    if n > 0 {
      WatermarkWithinClock(q, Watermark(q, w0, runs, n - 1), runs[n - 1], archives[n - 1]);
      if Watermark(q, w0, runs, n) == Watermark(q, w0, runs, n - 1) {
        i := WatermarkOrigin(q, w0, runs, archives, n - 1);
      } else {
        i := n - 1;
      }
    }
  }

  /** The service shows x in every collection that starts at least `delay` after its publication. */
  ghost predicate ShownAfter(x: Article, delay: Time, runs: seq<Attempt>, archives: seq<iset<Article>>)
    requires |runs| == |archives|
  {
    forall k :: 0 <= k < |runs| && x.seen + delay <= runs[k].now ==> x in archives[k]
  }

  /** x does not predate what the series was asked to collect: the start of its first successful
      window, or of the window that the watermark it began with calls for. */
  ghost predicate InScope(q: Query, w0: Option<Time>, runs: seq<Attempt>, x: Article) {
    && (w0.Some? ==> CollectionWindow(q, w0, 0).1 <= x.seen)
    && (forall k :: 0 <= k < |runs| && Watermark(q, w0, runs, k).None? && !OutcomeOf(q, w0, runs, k).1.Failed? ==>
          StartOf(q, w0, runs, k) <= x.seen)
  }

  /** Over any series of collections, failures included: an article that the service shows within
      the overlap of its publication is, by the first successful collection that could see it,
      processed, or else was cut off by a full page or left below where some collection ended early,
      at the page cap or on a full page without a date. There is no other way to lose it. */
  lemma {:induction false} NothingSlipsBetween(
      q: Query, w0: Option<Time>, runs: seq<Attempt>, archives: seq<iset<Article>>, x: Article, delay: Time, j: nat)
    returns (i: nat)
    requires j < |runs| == |archives| && forall k :: 0 <= k < |runs| ==> Conforming(q, runs[k], archives[k])
    requires 0 <= delay <= Max(0, q.overlapSeconds) * SECOND
    requires ShownAfter(x, delay, runs, archives) && InScope(q, w0, runs, x)
    requires x.seen + delay <= runs[j].now && !OutcomeOf(q, w0, runs, j).1.Failed?
    ensures i <= j && !OutcomeOf(q, w0, runs, i).1.Failed?
    ensures var (pages, stop) := OutcomeOf(q, w0, runs, i);
      x in Articles(pages) || Cut(q, pages, x) || (Early(q, pages, stop) && !Reached(pages, x))
    decreases j
  {
    hide OutcomeOf, Conforming, Articles, Cut, Reached, Early, InWindow;
    var start, w := StartOf(q, w0, runs, j), Watermark(q, w0, runs, j);
    if start <= x.seen {
      SeenByRun(q, w0, runs, archives[j], x, j);
      i := j;
    } else {
      assert w.Some?;
      i := WatermarkOrigin(q, w0, runs, archives, j);
      i := NothingSlipsBetween(q, w0, runs, archives, x, delay, i);
    }
  }

  lemma SeenByRun(q: Query, w0: Option<Time>, runs: seq<Attempt>, archive: iset<Article>, x: Article, j: nat)
    requires j < |runs| && Conforming(q, runs[j], archive) && x in archive
    requires StartOf(q, w0, runs, j) <= x.seen <= runs[j].now
    ensures var (pages, stop) := OutcomeOf(q, w0, runs, j);
      x in Articles(pages) || Cut(q, pages, x) || (Early(q, pages, stop) && !Reached(pages, x))
  {
    hide Articles, Cut, Reached, Early, NewestPage, Paging;
    ToSecondMonotone(StartOf(q, w0, runs, j), x.seen);
    ToSecondMonotone(x.seen, runs[j].now);
    WholeSecondsApart(x.seen, x.seen);
    ProcessedIff(q, runs[j], archive, StartOf(q, w0, runs, j), runs[j].now, 0, x);
  }

  /** What the page cap or a full page left below the overlap is lost for good: once the watermark
      has passed it by more than the overlap, no later collection reads it. */
  lemma LeftBehind(q: Query, w0: Option<Time>, runs: seq<Attempt>, archive: iset<Article>, x: Article, j: nat, k: nat)
    requires j <= k < |runs| && Conforming(q, runs[k], archive)
    requires var w := Watermark(q, w0, runs, j);
      w.Some? && x.seen < ToSecond(w.value - Max(0, q.overlapSeconds) * SECOND)
    ensures x !in Articles(OutcomeOf(q, w0, runs, k).0)
  {
    hide Articles, Paging, ToSecond, Conforming;
    var start := StartOf(q, w0, runs, k);
    WatermarkMonotone(q, w0, runs, j, k);
    ToSecondMonotone(Watermark(q, w0, runs, j).value - Max(0, q.overlapSeconds) * SECOND, start);
    PagesInWindow(q, runs[k], archive, start, runs[k].now, 0);
  }

  // ---------------------------------------------------------------- two services

  const NEWS: Query := Query(1, 1, 3, 0)

  /** Two articles of one second, at five seconds past. */
  function Twin(id: nat): Article {
    Article(id, 5 * SECOND, Some(5 * SECOND))
  }

  /** An index that shows the first of them wherever the window takes in that second. */
  function TwinIndex(): Attempt {
    Attempt(10 * SECOND,
            (n, lo, hi) => if ToSecond(lo) <= 5 * SECOND <= ToSecond(hi) then Page([Twin(0)]) else Page([]),
            (n, x) => Stored)
  }

  lemma PageThen(q: Query, a: Attempt, start: Time, end: Time, n: nat, articles: seq<Article>)
    requires n < q.maxPages && a.fetch(n, start, end) == Page(articles) && articles != []
    requires forall x :: x in articles ==> a.handle(n, x).Stored?
    ensures var (stop, next) := NextEnd(q, start, end, articles);
      Paging(q, a, start, end, n) ==
        if next.None? then ([PageRead(end, articles)], stop)
        else
          var (rest, stop') := Paging(q, a, start, next.value, n + 1);
          ([PageRead(end, articles)] + rest, stop')
  {
    hide NextEnd;
    assert forall i :: 0 <= i < |articles| ==> articles[i] in articles;
  }

  lemma NothingThen(q: Query, a: Attempt, start: Time, end: Time, n: nat)
    requires n < q.maxPages && a.fetch(n, start, end) == Page([])
    ensures Paging(q, a, start, end, n) == ([], EmptyPage)
  {
  }

  lemma WholeSecond(k: int)
    ensures ToSecond(k * SECOND) == k * SECOND
  {
  }

  /** With one article to a page, the second of two articles of one second is cut off. */
  lemma TwinIsCut()
    ensures Conforming(NEWS, TwinIndex(), iset{Twin(0), Twin(1)})
    ensures var (pages, stop) := Paging(NEWS, TwinIndex(), 0, 10 * SECOND, 0);
      stop.EmptyPage? && Cut(NEWS, pages, Twin(1)) && Twin(1) !in Articles(pages)
  {
    hide Paging, ToSecond, Conforming, Articles;
    var q, a := NEWS, TwinIndex();
    var first := PageRead(10 * SECOND, [Twin(0)]);
    OldestOfOne(Twin(0));
    WholeSecond(10);
    WholeSecond(0);
    WholeSecond(4);
    PageThen(q, a, 0, 10 * SECOND, 0, [Twin(0)]);
    NothingThen(q, a, 0, 4 * SECOND, 1);
    InSomePage([first], Twin(1));
    var pages := Paging(q, a, 0, 10 * SECOND, 0).0;
    assert [first] + [] == [first] == pages;
    assert CutBy(q, pages[0], Twin(1));
    TwinConforms();
  }

  lemma TwinConforms()
    ensures Conforming(NEWS, TwinIndex(), iset{Twin(0), Twin(1)})
  {
    hide ToSecond;
  }

  lemma OldestOfOne(x: Article)
    ensures Oldest([x]) == x.published
  {
    assert [x][..0] == [];
  }

  const PAIRS: Query := Query(1, 2, 3, 0)

  const FRESH: Article := Article(0, 10 * SECOND, Some(10 * SECOND))

  const UNDATED: Article := Article(1, 5 * SECOND, None)

  /** An index of a dated article and an older one whose date does not parse. */
  function UndatedIndex(): Attempt {
    Attempt(10 * SECOND,
            (n, lo, hi) =>
              Page((if ToSecond(lo) <= 10 * SECOND <= ToSecond(hi) then [FRESH] else [])
                   + (if ToSecond(lo) <= 5 * SECOND <= ToSecond(hi) then [UNDATED] else [])),
            (n, x) => Stored)
  }

  lemma UndatedConforms()
    ensures Conforming(PAIRS, UndatedIndex(), iset{FRESH, UNDATED})
  {
    hide ToSecond;
  }

  lemma OldestOfPair()
    ensures Oldest([FRESH, UNDATED]) == Some(10 * SECOND)
  {
    assert [FRESH, UNDATED][..1] == [FRESH];
    OldestOfOne(FRESH);
  }

  /** The loop steps back from the date it can read, so the older article comes twice. */
  lemma UndatedTwice()
    ensures Conforming(PAIRS, UndatedIndex(), iset{FRESH, UNDATED})
    ensures Articles(Paging(PAIRS, UndatedIndex(), 0, 10 * SECOND, 0).0) == [FRESH, UNDATED, UNDATED]
  {
    hide Paging, ToSecond, Conforming, Oldest;
    var q, a, page := PAIRS, UndatedIndex(), [FRESH, UNDATED];
    WholeSecond(10);
    WholeSecond(0);
    WholeSecond(9);
    OldestOfPair();
    UndatedConforms();
    assert [FRESH] + [UNDATED] == page && [] + [UNDATED] == [UNDATED];
    PageThen(q, a, 0, 10 * SECOND, 0, page);
    PageThen(q, a, 0, 9 * SECOND, 1, [UNDATED]);
    var first, second := PageRead(10 * SECOND, page), PageRead(9 * SECOND, [UNDATED]);
    assert [first] + [second] == [first, second];
    assert Articles([second]) == [UNDATED] + Articles([]);
    assert Articles([first, second]) == page + Articles([second]);
  }
}
