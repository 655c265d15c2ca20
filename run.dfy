/**
 * main: split the requested dates into ranges, crawl every range with the
 * same crawler and concatenate the hits in range order, then filter them.
 * Only ValueError is caught, and it ends the run quietly before filtering;
 * every other exception escapes main.
 */
module App {
  import opened Errors
  import opened DateRanges
  import opened Crawl
  import opened Filter

  /** How a call of main ends. */
  datatype Ending =
    | Quit              // ValueError caught: the driver is closed and main returns
    | Crashed(error: Error) // any other exception escapes main
    | Stalled           // the script of responses ran out before the crawl finished: still retrying, or pages left to fetch
    | Finished(report: Report)

  /** How main ends, and the crawler state it leaves behind. */
  datatype Session = Session(ending: Ending, trace: Trace)

  /**
   * The loop over the date ranges: each range is crawled from page 1 on the
   * responses left by the previous one. It fails only with the TypeError of a
   * missing result count.
   */
  function CrawlRanges(ranges: seq<DateRange>, script: seq<Page>, tr: Trace): (c: Crawled)
    ensures c.outcome.Failed? ==> c.outcome.error == TypeError
    decreases |ranges|
  {
    if |ranges| == 0 then Crawled(Done([]), script, tr)
    else
      var c := Search(script, tr, 1, None);
      if c.outcome.Done? then Resume(c.outcome.hits, CrawlRanges(ranges[1..], c.rest, c.trace))
      else c
  }

  /** The try/except around the split and the crawl. */
  function Caught(e: Error): (en: Ending)
    ensures en == Quit <==> e == ValueError
    ensures en != Quit ==> en == Crashed(e)
  {
    if e == ValueError then Quit else Crashed(e)
  }

  /** main(start_time, end_time, keyword, filter_keyword) over a script of search responses and a browser for result pages. */
  function MainSpec(s: DateArg, e: DateArg, filterKeyword: string, script: seq<Page>,
                    browser: string -> Rendered, tr: Trace): (m: Session)
    ensures m.ending == Quit ==> m.trace == tr
    ensures m.ending == Quit ==> Partition(s, e) == Err(ValueError)
    ensures m.ending.Finished? ==> |m.ending.report.images| == |m.ending.report.kept|
  {
    match Partition(s, e)
    case Err(err) => Session(Caught(err), tr)
    case Ok(ranges) =>
      var c := CrawlRanges(ranges, script, tr);
      match c.outcome
      case OutOfScript => Session(Stalled, c.trace)
      case Failed(err) => Session(Caught(err), c.trace)
      case Done(results) =>
        match FilterSpec(results, browser, filterKeyword)
        case Err(err) => Session(Crashed(err), c.trace)
        case Ok(rep) => Session(Finished(rep), c.trace)
  }

  /** main, with the loop over the ranges and the results list extended in place. */
  method RunMain(crawler: Crawler, s: DateArg, e: DateArg, filterKeyword: string, script: seq<Page>,
                 browser: string -> Rendered) returns (ending: Ending)
    modifies crawler
    ensures Session(ending, crawler.State()) == MainSpec(s, e, filterKeyword, script, browser, old(crawler.State()))
  {
    var split := SplitDateRangeBackward(s, e);
    if split.Err? {
      return Caught(split.error);
    }
    var ranges := split.value;
    ghost var goal := CrawlRanges(ranges, script, crawler.State());
    var results: seq<Hit> := [];
    var rest := script;
    var i := 0;
    while i < |ranges|
      invariant 0 <= i <= |ranges|
      invariant Resume(results, CrawlRanges(ranges[i..], rest, crawler.State())) == goal
    {
      var outcome, rest' := crawler.GetSearchList(rest);
      assert ranges[i..][1..] == ranges[i + 1..];
      match outcome {
        case Done(hits) =>
          ResumeResume(results, hits, CrawlRanges(ranges[i + 1..], rest', crawler.State()));
          results := results + hits;
          rest := rest';
        case Failed(err) =>
          return Caught(err);
        case OutOfScript =>
          return Stalled;
      }
      i := i + 1;
    }
    assert ranges[i..] == [];
    assert results + [] == results;
    var filtered := FilterContent(results, browser, filterKeyword);
    if filtered.Err? {
      return Crashed(filtered.error);
    }
    return Finished(filtered.value);
  }

  // ---------------------------------------------------------------------
  // What main promises

  /** results.extend keeps range order: the hits of the first ranges come before those of the later ones. */
  lemma {:induction false} CrawlRangesAppend(a: seq<DateRange>, b: seq<DateRange>, script: seq<Page>, tr: Trace)
    ensures CrawlRanges(a + b, script, tr) ==
      (var c := CrawlRanges(a, script, tr);
       if c.outcome.Done? then Resume(c.outcome.hits, CrawlRanges(b, c.rest, c.trace)) else c)
    decreases |a|
  {
    if |a| == 0 {
      assert a + b == b;
      var c := CrawlRanges(b, script, tr);
      if c.outcome.Done? {
        assert [] + c.outcome.hits == c.outcome.hits;
      }
    } else {
      assert (a + b)[1..] == a[1..] + b;
      var c0 := Search(script, tr, 1, None);
      if c0.outcome.Done? {
        CrawlRangesAppend(a[1..], b, c0.rest, c0.trace);
        var c1 := CrawlRanges(a[1..], c0.rest, c0.trace);
        if c1.outcome.Done? {
          ResumeResume(c0.outcome.hits, c1.outcome.hits, CrawlRanges(b, c1.rest, c1.trace));
        }
      }
    }
  }

  /**
   * The caught ValueError ends main early exactly when a date does not parse
   * or the start is after the end.
   */
  lemma MainQuits(s: DateArg, e: DateArg, filterKeyword: string, script: seq<Page>,
                  browser: string -> Rendered, tr: Trace)
    ensures MainSpec(s, e, filterKeyword, script, browser, tr).ending == Quit <==>
      (s.parsed.None? || e.parsed.None? || s.parsed.value > e.parsed.value)
  {
    PartitionErrors(s, e);
  }

  /** Equal start and end dates raise IndexError, which main does not catch; nothing is fetched. */
  lemma MainEqualDates(s: DateArg, e: DateArg, filterKeyword: string, script: seq<Page>,
                       browser: string -> Rendered, tr: Trace)
    requires s.parsed.Some? && s.parsed == e.parsed
    ensures MainSpec(s, e, filterKeyword, script, browser, tr) == Session(Crashed(IndexError), tr)
  {
    PartitionErrors(s, e);
  }

  /** A crawl that finds nothing makes filter_content's os.remove raise FileNotFoundError out of main. */
  lemma MainNoResults(s: DateArg, e: DateArg, filterKeyword: string, script: seq<Page>,
                      browser: string -> Rendered, tr: Trace)
    requires Partition(s, e).Ok?
    requires CrawlRanges(Partition(s, e).value, script, tr).outcome == Done([])
    ensures MainSpec(s, e, filterKeyword, script, browser, tr).ending == Crashed(FileNotFoundError)
  {
    FilterFails([], browser, filterKeyword);
  }

  /**
   * A finished run: the dates were split, every range was crawled, and the
   * report keeps exactly the crawled hits whose page contains the filter
   * keyword, in crawl order, with one image each and, when any is kept, their
   * manifest.
   */
  lemma MainFinished(s: DateArg, e: DateArg, filterKeyword: string, script: seq<Page>,
                     browser: string -> Rendered, tr: Trace)
    requires MainSpec(s, e, filterKeyword, script, browser, tr).ending.Finished?
    ensures Partition(s, e).Ok?
    ensures var c := CrawlRanges(Partition(s, e).value, script, tr);
      var rep := MainSpec(s, e, filterKeyword, script, browser, tr).ending.report;
      && c.outcome.Done? && |c.outcome.hits| > 0
      && rep.kept == Matching(c.outcome.hits, browser, filterKeyword)
      && |rep.images| == |rep.kept|
      && rep.manifest == (if |rep.kept| > 0 then Some(Manifest(rep.kept)) else None)
      && (forall h :: h in rep.kept <==>
            h in c.outcome.hits && exists i :: OccursAt(browser(h.href).text, filterKeyword, i))
  {
    var c := CrawlRanges(Partition(s, e).value, script, tr);
    var results := c.outcome.hits;
    FilterReport(results, browser, filterKeyword);
    forall h
      ensures h in Matching(results, browser, filterKeyword) <==>
        h in results && exists i :: OccursAt(browser(h.href).text, filterKeyword, i)
    {
      MatchingIff(results, browser, filterKeyword, h);
    }
  }
}
