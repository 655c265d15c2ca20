/**
 * get_search_list and get_total_results: fetch the result pages of one date
 * range in order, backing off while the site reports rate-limiting. The
 * browser is a script of page fetches, consumed one response per fetch.
 */
module Crawl {
  import opened Errors
  import opened Numbers

  /** The value RETRY_TIMES starts with. */
  const INITIAL_RETRY := 60
  /** The value RETRY_TIMES is set to after a fetch that was not rate-limited. */
  const RESET_RETRY := 10
  /** Results per listing page. */
  const PAGE_SIZE := 20

  /** A search result: the anchor text and its href. */
  datatype Hit = Hit(title: string, href: string)

  /** One <li> of the result list: its first <a>, if there is one. */
  datatype Listing = Listing(anchor: Option<Hit>)

  /**
   * What one fetch of a result page shows: whether the rate-limit marker is in
   * the text, what get_total_results reads from it, and the result list.
   */
  datatype Page = Page(limited: bool, total: Option<int>, items: seq<Listing>)

  /** RETRY_TIMES, with the sleeps taken and the page_index of every fetch so far. */
  datatype Trace = Trace(retry: int, sleeps: seq<int>, pages: seq<int>)

  /** The value returned, the exception raised, or an exhausted script. */
  datatype Outcome = Done(hits: seq<Hit>) | Failed(error: Error) | OutOfScript

  datatype Fetched = Fetched(page: Option<Page>, rest: seq<Page>, trace: Trace)
  datatype Crawled = Crawled(outcome: Outcome, rest: seq<Page>, trace: Trace)

  /** The results the loop over li_tags appends: anchors only, in order. */
  function Anchored(items: seq<Listing>): (hs: seq<Hit>)
    ensures |hs| <= |items|
    decreases |items|
  {
    if |items| == 0 then []
    else (if items[0].anchor.Some? then [items[0].anchor.value] else []) + Anchored(items[1..])
  }

  /** A hit is returned exactly when some listing item carries it as its anchor; items without one are skipped. */
  lemma {:induction false} AnchoredIff(items: seq<Listing>, h: Hit)
    ensures h in Anchored(items) <==> exists i :: 0 <= i < |items| && items[i].anchor == Some(h)
    decreases |items|
  {
    if |items| > 0 {
      AnchoredIff(items[1..], h);
      if h !in Anchored(items) {
        forall i | 0 <= i < |items| ensures items[i].anchor != Some(h) {
          if i > 0 {
            assert items[i] == items[1..][i - 1];
          }
        }
      } else if items[0].anchor != Some(h) {
        var j :| 0 <= j < |items[1..]| && items[1..][j].anchor == Some(h);
        assert items[j + 1].anchor == Some(h);
      }
    }
  }


  /** Fetch one page until a fetch is not rate-limited (auto.py:88-102). */
  function FetchPage(script: seq<Page>, tr: Trace, page: int): (f: Fetched)
    ensures |f.rest| <= |script|
    ensures f.page.Some? ==> |f.rest| < |script|
    decreases |script|
  {
    if |script| == 0 then Fetched(None, [], tr)
    else if script[0].limited then
      FetchPage(script[1..], Trace(2 * tr.retry, tr.sleeps + [tr.retry], tr.pages + [page]), page)
    else Fetched(Some(script[0]), script[1..], Trace(RESET_RETRY, tr.sleeps, tr.pages + [page]))
  }

  /** Hits gathered before a call are prepended to what the call returns. */
  function Prepend(hits: seq<Hit>, o: Outcome): Outcome
  {
    if o.Done? then Done(hits + o.hits) else o
  }

  /** total_pages once a response of page is read: counted on page 1 when not yet known, else passed on. */
  function TotalPages(resp: Page, page: int, totalPages: Option<int>): (tp: Option<int>)
    ensures page == 1 && totalPages.None? ==> (tp.None? <==> resp.total.None?)
    ensures page == 1 && totalPages.None? && resp.total.Some? ==>
      tp.value * PAGE_SIZE >= resp.total.value > (tp.value - 1) * PAGE_SIZE
    ensures !(page == 1 && totalPages.None?) ==> tp == totalPages
  {
    if page == 1 && totalPages.None? then
      if resp.total.None? then None else Some(CeilDiv(resp.total.value, PAGE_SIZE))
    else totalPages
  }

  /**
   * get_search_list(date_range, kw, driver, page, totalPages), over the script.
   * It fails only with the TypeError of a missing result count.
   */
  function Search(script: seq<Page>, tr: Trace, page: int, totalPages: Option<int>): (c: Crawled)
    ensures c.outcome.Failed? ==> c.outcome.error == TypeError
    decreases |script|
  {
    var f := FetchPage(script, tr, page);
    if f.page.None? then Crawled(OutOfScript, f.rest, f.trace)
    else
      var resp := f.page.value;
      var tp := TotalPages(resp, page, totalPages);
      if tp.None? then Crawled(Failed(TypeError), f.rest, f.trace)
      else
        var items := Anchored(resp.items);
        if page < tp.value then
          var c := Search(f.rest, f.trace, page + 1, tp);
          Crawled(Prepend(items, c.outcome), c.rest, c.trace)
        else Crawled(Done(items), f.rest, f.trace)
  }

  /** The crawl result once hits gathered earlier are prepended. */
  function Resume(hits: seq<Hit>, c: Crawled): Crawled
  {
    Crawled(Prepend(hits, c.outcome), c.rest, c.trace)
  }

  lemma ResumeResume(a: seq<Hit>, b: seq<Hit>, c: Crawled)
    ensures Resume(a, Resume(b, c)) == Resume(a + b, c)
  {
    if c.outcome.Done? {
      assert a + (b + c.outcome.hits) == (a + b) + c.outcome.hits;
    }
  }

  /** A rate-limited fetch: same page, the current retry slept, the retry doubled. */
  lemma SearchLimited(s: seq<Page>, tr: Trace, page: int, totalPages: Option<int>)
    requires |s| > 0 && s[0].limited
    ensures Search(s, tr, page, totalPages)
         == Search(s[1..], Trace(2 * tr.retry, tr.sleeps + [tr.retry], tr.pages + [page]), page, totalPages)
  {
  }

  /** A fetch that is not rate-limited: the retry reset, the page's results taken. */
  lemma SearchAccepted(s: seq<Page>, tr: Trace, page: int, totalPages: Option<int>)
    requires |s| > 0 && !s[0].limited
    ensures var tr' := Trace(RESET_RETRY, tr.sleeps, tr.pages + [page]);
      var tp := TotalPages(s[0], page, totalPages);
      Search(s, tr, page, totalPages) ==
        if tp.None? then Crawled(Failed(TypeError), s[1..], tr')
        else if page < tp.value then Resume(Anchored(s[0].items), Search(s[1..], tr', page + 1, tp))
        else Crawled(Done(Anchored(s[0].items)), s[1..], tr')
  {
  }

  /** The crawler's state: the global RETRY_TIMES, and the log the model keeps of it. */
  class Crawler {
    var retrySeconds: int
    ghost var sleeps: seq<int>
    ghost var pages: seq<int>

    ghost function State(): Trace
      reads this
    {
      Trace(retrySeconds, sleeps, pages)
    }

    constructor ()
      ensures State() == Trace(INITIAL_RETRY, [], [])
    {
      retrySeconds := INITIAL_RETRY;
      sleeps := [];
      pages := [];
    }

    /**
     * get_search_list from page 1, with the retry and the page recursion
     * written as one loop. Returns the outcome and the unread part of the script.
     */
    method GetSearchList(script: seq<Page>) returns (outcome: Outcome, rest: seq<Page>)
      modifies this
      ensures Crawled(outcome, rest, State()) == Search(script, old(State()), 1, None)
    {
      ghost var goal := Search(script, State(), 1, None);
      var i := 0;
      var page := 1;
      var totalPages: Option<int> := None;
      var hits: seq<Hit> := [];
      while i < |script|
        invariant 0 <= i <= |script|
        invariant Resume(hits, Search(script[i..], State(), page, totalPages)) == goal
        decreases |script| - i
      {
        ghost var before := State();
        ghost var s := script[i..];
        assert s[1..] == script[i + 1..];
        var resp := script[i];
        i := i + 1;
        pages := pages + [page];
        if resp.limited {
          sleeps := sleeps + [retrySeconds];
          retrySeconds := 2 * retrySeconds;
          SearchLimited(s, before, page, totalPages);
        } else {
          retrySeconds := RESET_RETRY;
          SearchAccepted(s, before, page, totalPages);
          if page == 1 && totalPages.None? {
            if resp.total.None? {
              return Failed(TypeError), script[i..];
            }
            totalPages := Some(CeilDiv(resp.total.value, PAGE_SIZE));
          }
          if totalPages.None? {
            return Failed(TypeError), script[i..];
          }
          var items := Anchored(resp.items);
          ResumeResume(hits, items, Search(script[i..], State(), page + 1, totalPages));
          hits := hits + items;
          if page < totalPages.value {
            page := page + 1;
          } else {
            return Done(hits), script[i..];
          }
        }
      }
      assert script[i..] == [];
      return OutOfScript, [];
    }
  }

  // ---------------------------------------------------------------------
  // Back-off on one page

  function Pow2(n: nat): (r: nat)
    ensures r >= 1
  {
    if n == 0 then 1 else 2 * Pow2(n - 1)
  }

  /** r, 2r, 4r, ...: k sleeps starting from retry r. */
  function Doubling(r: int, k: nat): (ds: seq<int>)
    ensures |ds| == k
  {
    seq(k, i requires 0 <= i < k => r * Pow2(i))
  }

  function Repeat(p: int, m: nat): (ps: seq<int>)
    ensures |ps| == m && forall i :: 0 <= i < m ==> ps[i] == p
  {
    seq(m, i requires 0 <= i < m => p)
  }

  /** The number of rate-limited responses the script starts with. */
  function LeadingLimited(s: seq<Page>): (k: nat)
    ensures k <= |s|
    ensures forall i :: 0 <= i < k ==> s[i].limited
    ensures k < |s| ==> !s[k].limited
    decreases |s|
  {
    if |s| == 0 || !s[0].limited then 0 else 1 + LeadingLimited(s[1..])
  }

  /**
   * Fetching one page: each of the k rate-limited responses before the first
   * clean one refetches the same page after sleeping the current retry, which
   * then doubles, so the sleeps are r, 2r, 4r, ...; the clean response is
   * the one returned, and it sets the retry to 10.
   */
  lemma {:induction false} FetchPageBackoff(script: seq<Page>, tr: Trace, page: int)
    ensures var f, k := FetchPage(script, tr, page), LeadingLimited(script);
      && f.trace.sleeps == tr.sleeps + Doubling(tr.retry, k)
      && (k < |script| ==>
            && f.page == Some(script[k]) && f.rest == script[k + 1..]
            && f.trace.pages == tr.pages + Repeat(page, k + 1)
            && f.trace.retry == RESET_RETRY)
      && (k == |script| ==>
            && f.page.None? && f.rest == []
            && f.trace.pages == tr.pages + Repeat(page, k)
            && f.trace.retry == tr.retry * Pow2(k))
    decreases |script|
  {
    if |script| > 0 && script[0].limited {
      var r := tr.retry;
      var tr1 := Trace(2 * r, tr.sleeps + [r], tr.pages + [page]);
      FetchPageBackoff(script[1..], tr1, page);
      var k := LeadingLimited(script[1..]);
      DoublingCons(r, k);
      RepeatCons(page, k);
      RepeatCons(page, k + 1);
      if k < |script[1..]| {
        assert script[1..][k + 1..] == script[k + 2..];
      }
    }
  }

  /** One more rate-limited response in front: one more sleep, at the current retry, before the doubled ones. */
  lemma DoublingCons(r: int, k: nat)
    ensures [r] + Doubling(2 * r, k) == Doubling(r, k + 1)
    ensures (2 * r) * Pow2(k) == r * Pow2(k + 1)
  {
    forall i | 0 <= i < k + 1 ensures r * Pow2(i) == if i == 0 then r else (2 * r) * Pow2(i - 1) {
      if i > 0 {
        assert Pow2(i) == 2 * Pow2(i - 1);
      }
    }
    assert Pow2(k + 1) == 2 * Pow2(k);
  }

  lemma RepeatCons(p: int, m: nat)
    ensures [p] + Repeat(p, m) == Repeat(p, m + 1)
  {
  }

  /** The page log of one fetch: the page, once per response read. */
  lemma FetchPageLog(script: seq<Page>, tr: Trace, page: int) returns (m: nat)
    ensures var f := FetchPage(script, tr, page);
      && m == |script| - |f.rest|
      && (f.page.Some? ==> m >= 1)
      && f.trace.pages == tr.pages + Repeat(page, m)
      && f.trace.pages[|tr.pages|..] == Repeat(page, m)
  {
    FetchPageBackoff(script, tr, page);
    var k := LeadingLimited(script);
    m := if k < |script| then k + 1 else k;
  }

  /** From the first RETRY_TIMES, four rate-limited fetches sleep 60, 120, 240 and 480 seconds. */
  lemma InitialBackoff()
    ensures Doubling(INITIAL_RETRY, 4) == [60, 120, 240, 480]
  {
    assert Pow2(3) == 8;
  }

  // ---------------------------------------------------------------------
  // What a crawl returns

  /** The responses that were not rate-limited, in order. */
  function Accepted(s: seq<Page>): seq<Page>
    decreases |s|
  {
    if |s| == 0 then [] else (if s[0].limited then [] else [s[0]]) + Accepted(s[1..])
  }

  /** The hits of consecutive pages, concatenated in page order. */
  function Collect(ps: seq<Page>): seq<Hit>
    decreases |ps|
  {
    if |ps| == 0 then [] else Anchored(ps[0].items) + Collect(ps[1..])
  }

  /** The first n accepted pages' hits, or an exhausted script when there are fewer. */
  function FirstPages(acc: seq<Page>, n: nat): Outcome
  {
    if |acc| < n then OutOfScript else Done(Collect(acc[..n]))
  }

  /**
   * The reference for a whole crawl: page 1 is the first clean response; its
   * count gives total_pages = ceil(total / 20), and the result is the hits of
   * the first max(1, total_pages) clean responses, so page 1 is kept even
   * when total_pages is 0. A missing count raises TypeError.
   */
  function Expected(acc: seq<Page>): Outcome
  {
    if |acc| == 0 then OutOfScript
    else if acc[0].total.None? then Failed(TypeError)
    else FirstPages(acc, Max(1, CeilDiv(acc[0].total.value, PAGE_SIZE)))
  }

  lemma {:induction false} FetchPageAccepted(script: seq<Page>, tr: Trace, page: int)
    ensures var f := FetchPage(script, tr, page);
      && (f.page.Some? <==> Accepted(script) != [])
      && (f.page.Some? ==> f.page.value == Accepted(script)[0] && Accepted(f.rest) == Accepted(script)[1..])
    decreases |script|
  {
    if |script| > 0 {
      if script[0].limited {
        var tr1 := Trace(2 * tr.retry, tr.sleeps + [tr.retry], tr.pages + [page]);
        assert FetchPage(script, tr, page) == FetchPage(script[1..], tr1, page);
        assert Accepted(script) == Accepted(script[1..]);
        FetchPageAccepted(script[1..], tr1, page);
      } else {
        assert Accepted(script) == [script[0]] + Accepted(script[1..]);
      }
    }
  }

  lemma {:induction false} AcceptedAppend(a: seq<Page>, b: seq<Page>)
    ensures Accepted(a + b) == Accepted(a) + Accepted(b)
    decreases |a|
  {
    if |a| > 0 {
      assert (a + b)[0] == a[0] && (a + b)[1..] == a[1..] + b;
      AcceptedAppend(a[1..], b);
      var head := if a[0].limited then [] else [a[0]];
      assert Accepted(a + b) == head + Accepted(a[1..] + b);
      assert Accepted(a) == head + Accepted(a[1..]);
    } else {
      assert a + b == b;
    }
  }

  /** From page p with total_pages t known, the crawl returns the next max(1, t - p + 1) clean pages. */
  lemma {:induction false} SearchCollects(script: seq<Page>, tr: Trace, page: int, t: int)
    ensures Search(script, tr, page, Some(t)).outcome == FirstPages(Accepted(script), Max(1, t - page + 1))
    decreases |script|
  {
    var f := FetchPage(script, tr, page);
    var acc := Accepted(script);
    FetchPageAccepted(script, tr, page);
    if f.page.Some? {
      var items := Anchored(acc[0].items);
      if page < t {
        SearchCollects(f.rest, f.trace, page + 1, t);
        var n := t - page + 1;
        if |acc| >= n {
          assert acc[..n][1..] == acc[1..][..n - 1];
        }
      } else {
        assert Collect(acc[..1]) == items;
      }
    }
  }

  /** A crawl from page 1 returns exactly what the reference says, for every script. */
  lemma CrawlCollects(script: seq<Page>, tr: Trace)
    ensures Search(script, tr, 1, None).outcome == Expected(Accepted(script))
  {
    var f := FetchPage(script, tr, 1);
    var acc := Accepted(script);
    FetchPageAccepted(script, tr, 1);
    if f.page.Some? && acc[0].total.Some? {
      var t := CeilDiv(acc[0].total.value, PAGE_SIZE);
      var items := Anchored(acc[0].items);
      if 1 < t {
        SearchCollects(f.rest, f.trace, 2, t);
        if |acc| >= t {
          assert acc[..t][1..] == acc[1..][..t - 1];
        }
      } else {
        assert Collect(acc[..1]) == items;
      }
    }
  }

  /** A listing with 45 results is read as three pages, returned in page order. */
  lemma FortyFiveResults(p1: Page, p2: Page, p3: Page, later: seq<Page>, tr: Trace)
    requires !p1.limited && !p2.limited && !p3.limited && p1.total == Some(45)
    ensures Search([p1, p2, p3] + later, tr, 1, None).outcome
         == Done(Anchored(p1.items) + Anchored(p2.items) + Anchored(p3.items))
  {
    var s := [p1, p2, p3] + later;
    CrawlCollects(s, tr);
    AcceptedAppend([p1, p2, p3], later);
    assert [p1, p2, p3][1..] == [p2, p3] && [p2, p3][1..] == [p3] && [p3][1..] == [];
    assert Accepted([p3]) == [p3];
    assert Accepted([p2, p3]) == [p2, p3];
    assert Accepted([p1, p2, p3]) == [p1, p2, p3];
    assert CeilDiv(45, PAGE_SIZE) == 3;
    var acc := Accepted(s);
    assert acc[..3] == [p1, p2, p3];
    assert Collect([p1, p2, p3]) == Anchored(p1.items) + Anchored(p2.items) + Anchored(p3.items) by {
      assert [p1, p2, p3][1..] == [p2, p3] && [p2, p3][1..] == [p3] && [p3][1..] == [];
      assert Collect([p3]) == Anchored(p3.items);
      assert Collect([p2, p3]) == Anchored(p2.items) + Anchored(p3.items);
    }
  }

  // ---------------------------------------------------------------------
  // The order pages are fetched in

  /** Page indices that stay the same or go up by one from each fetch to the next. */
  ghost predicate Steady(ps: seq<int>)
  {
    forall i :: 0 <= i < |ps| - 1 ==> ps[i] <= ps[i + 1] <= ps[i] + 1
  }

  lemma SteadyConcat(page: int, m: nat, later: seq<int>)
    requires Steady(later)
    requires |later| > 0 ==> m > 0 && later[0] == page + 1
    ensures Steady(Repeat(page, m) + later)
  {
    var ps := Repeat(page, m) + later;
    forall i | 0 <= i < |ps| - 1 ensures ps[i] <= ps[i + 1] <= ps[i] + 1 {
      if i + 1 >= m {
        assert ps[i + 1] == later[i + 1 - m];
        if i >= m {
          assert ps[i] == later[i - m];
        }
      }
    }
  }

  /** A response that leaves pages to fetch hands the rest of the script and the log on to the next page. */
  lemma SearchNext(script: seq<Page>, tr: Trace, page: int, tp: Option<int>)
    requires FetchPage(script, tr, page).page.Some?
    ensures var f := FetchPage(script, tr, page);
      var tp' := TotalPages(f.page.value, page, tp);
      var c0, c := Search(script, tr, page, tp), Search(f.rest, f.trace, page + 1, tp');
      tp'.Some? && page < tp'.value ==> c0.rest == c.rest && c0.trace == c.trace
  {
  }

  /** One log entry per response read, appended to the log; the first is of the starting page. */
  lemma {:induction false} SearchLogShape(script: seq<Page>, tr: Trace, page: int, tp: Option<int>)
    ensures var c := Search(script, tr, page, tp);
      && |c.rest| <= |script|
      && |c.trace.pages| == |tr.pages| + (|script| - |c.rest|)
      && c.trace.pages[..|tr.pages|] == tr.pages
      && (|c.trace.pages| > |tr.pages| ==> c.trace.pages[|tr.pages|] == page)
    decreases |script|
  {
    var c0 := Search(script, tr, page, tp);
    var f := FetchPage(script, tr, page);
    var m := FetchPageLog(script, tr, page);
    if f.page.None? {
      assert c0 == Crawled(OutOfScript, f.rest, f.trace);
    } else {
      var tp' := TotalPages(f.page.value, page, tp);
      if tp'.Some? && page < tp'.value {
        SearchLogShape(f.rest, f.trace, page + 1, tp');
        var c := Search(f.rest, f.trace, page + 1, tp');
        SearchNext(script, tr, page, tp);
        PageLogSplit(tr.pages, Repeat(page, m), c.trace.pages);
      } else {
        assert c0.trace == f.trace && c0.rest == f.rest;
      }
    }
  }

  /**
   * Each fetch after the first is of the same page (a retry) or of the next
   * page: pages are fetched in increasing order and none is skipped.
   */
  lemma {:induction false} SearchPageOrder(script: seq<Page>, tr: Trace, page: int, tp: Option<int>)
    ensures var c := Search(script, tr, page, tp);
      |c.trace.pages| >= |tr.pages| && Steady(c.trace.pages[|tr.pages|..])
    decreases |script|
  {
    var c0 := Search(script, tr, page, tp);
    var f := FetchPage(script, tr, page);
    var m := FetchPageLog(script, tr, page);
    if f.page.None? {
      assert c0.trace == f.trace;
    } else {
      var tp' := TotalPages(f.page.value, page, tp);
      if tp'.Some? && page < tp'.value {
        SearchLogShape(f.rest, f.trace, page + 1, tp');
        SearchPageOrder(f.rest, f.trace, page + 1, tp');
        var c := Search(f.rest, f.trace, page + 1, tp');
        SearchNext(script, tr, page, tp);
        SteadyStep(tr.pages, page, m, c.trace.pages);
      } else {
        assert c0.trace == f.trace;
      }
    }
  }

  /** When total_pages t is known and the crawl from page p returns, the last page fetched is max(p, t). */
  lemma {:induction false} SearchLastPage(script: seq<Page>, tr: Trace, page: int, t: int)
    requires Search(script, tr, page, Some(t)).outcome.Done?
    ensures var c := Search(script, tr, page, Some(t));
      |c.trace.pages| > 0 && c.trace.pages[|c.trace.pages| - 1] == Max(page, t)
    decreases |script|
  {
    var c0 := Search(script, tr, page, Some(t));
    var f := FetchPage(script, tr, page);
    var m := FetchPageLog(script, tr, page);
    if page < t {
      SearchLastPage(f.rest, f.trace, page + 1, t);
      assert c0.trace == Search(f.rest, f.trace, page + 1, Some(t)).trace;
    } else {
      assert c0.trace == f.trace;
    }
  }

  /** A run of fetches of one page followed by a steady log that starts on the next page is steady. */
  lemma SteadyStep(before: seq<int>, page: int, m: nat, lg: seq<int>)
    requires m >= 1
    requires |lg| >= |before| + m && lg[..|before| + m] == before + Repeat(page, m)
    requires Steady(lg[|before| + m..])
    requires |lg| > |before| + m ==> lg[|before| + m] == page + 1
    ensures Steady(lg[|before|..])
  {
    PageLogSplit(before, Repeat(page, m), lg);
    SteadyConcat(page, m, lg[|before| + m..]);
  }

  lemma PageLogSplit(before: seq<int>, mid: seq<int>, lg: seq<int>)
    requires |lg| >= |before| + |mid| && lg[..|before| + |mid|] == before + mid
    ensures lg[..|before|] == before
    ensures lg[|before|..] == mid + lg[|before| + |mid|..]
  {
    assert lg[..|before|] == lg[..|before| + |mid|][..|before|];
    assert lg == before + mid + lg[|before| + |mid|..];
  }

  /** A crawl from page 1 that returns has fetched pages 1 .. max(1, ceil(total / 20)) last. */
  lemma CrawlLastPage(script: seq<Page>, tr: Trace)
    requires Search(script, tr, 1, None).outcome.Done?
    ensures var c, acc := Search(script, tr, 1, None), Accepted(script);
      && |acc| > 0 && acc[0].total.Some?
      && |c.trace.pages| > |tr.pages|
      && c.trace.pages[|c.trace.pages| - 1] == Max(1, CeilDiv(acc[0].total.value, PAGE_SIZE))
  {
    var f := FetchPage(script, tr, 1);
    FetchPageAccepted(script, tr, 1);
    FetchPageBackoff(script, tr, 1);
    var acc := Accepted(script);
    var t := CeilDiv(acc[0].total.value, PAGE_SIZE);
    var k := LeadingLimited(script);
    if 1 < t {
      SearchLastPage(f.rest, f.trace, 2, t);
      SearchLogShape(f.rest, f.trace, 2, Some(t));
    }
  }
}
