/**
 * filter_content: visit every search result, keep those whose page text
 * contains the filter keyword, capture each kept page in viewport slices
 * stitched onto one canvas, and write the manifest of kept results.
 */
module Filter {
  import opened Errors
  import opened Seqs
  import opened Numbers
  import opened Crawl

  /** The pixel size of one viewport capture. */
  datatype Shot = Shot(width: nat, height: nat)

  /**
   * A result page as the browser shows it: the text BeautifulSoup extracts,
   * whether <body> appeared within the wait, document.body.scrollHeight,
   * window.innerHeight, and the capture taken after scrolling to an offset.
   */
  datatype Rendered = Rendered(text: string, bodyReady: bool, scrollHeight: nat, innerHeight: nat,
                               capture: int -> Shot)

  /** One paste of a capture onto the canvas, at a vertical offset. */
  datatype Placement = Placement(shot: Shot, top: int)

  /** Image.new('RGB', (width, height)) and the pastes made on it, in order. */
  datatype Canvas = Canvas(width: nat, height: nat, pasted: seq<Placement>)

  /** What filter_content leaves behind: the kept results, their images, the manifest if it stays. */
  datatype Report = Report(kept: seq<Hit>, images: seq<Canvas>, manifest: Option<string>)

  // ---------------------------------------------------------------------
  // The keyword test: `filter_keyword in soup.get_text()`

  predicate StartsWith(s: string, p: string)
  {
    |p| <= |s| && s[..|p|] == p
  }

  /** Python's `kw in text` on strings: a case-sensitive substring test. */
  function Contains(text: string, kw: string): (r: bool)
    ensures r ==> |kw| <= |text|
    ensures |kw| == 0 ==> r
    decreases |text|
  {
    StartsWith(text, kw) || (|text| > 0 && Contains(text[1..], kw))
  }

  /** kw occurs in text starting at position i. */
  predicate OccursAt(text: string, kw: string, i: int)
  {
    0 <= i <= |text| - |kw| && text[i..i + |kw|] == kw
  }

  /** The substring test holds exactly when kw occurs at some position of text. */
  lemma {:induction false} ContainsIff(text: string, kw: string)
    ensures Contains(text, kw) <==> exists i :: OccursAt(text, kw, i)
    decreases |text|
  {
    if StartsWith(text, kw) {
      assert OccursAt(text, kw, 0);
    }
    if |text| > 0 {
      ContainsIff(text[1..], kw);
      if exists i :: OccursAt(text, kw, i) {
        var i :| OccursAt(text, kw, i);
        if i > 0 {
          assert text[1..][i - 1..i - 1 + |kw|] == text[i..i + |kw|];
          assert OccursAt(text[1..], kw, i - 1);
        } else {
          assert StartsWith(text, kw);
        }
      }
      if Contains(text[1..], kw) {
        var i :| OccursAt(text[1..], kw, i);
        assert text[i + 1..i + 1 + |kw|] == text[1..][i..i + |kw|];
        assert OccursAt(text, kw, i + 1);
      }
    } else {
      if exists i :: OccursAt(text, kw, i) {
        var i :| OccursAt(text, kw, i);
        assert |kw| == 0 && i == 0;
        assert StartsWith(text, kw);
      }
    }
  }

  // ---------------------------------------------------------------------
  // Viewport slices: `for i in range(0, total_height, viewport_height)`

  /** The captures for offsets 0, v, 2v, ... < h, in scroll order. */
  function Slices(p: Rendered): (ss: seq<Shot>)
    requires p.innerHeight > 0
    ensures |ss| * p.innerHeight >= p.scrollHeight > (|ss| - 1) * p.innerHeight
    ensures forall k :: 0 <= k < |ss| ==> ss[k] == p.capture(k * p.innerHeight)
  {
    var v := p.innerHeight;
    seq(CeilDiv(p.scrollHeight, v), k requires 0 <= k => p.capture(k * v))
  }

  /** The loop at auto.py:185-189: scroll to each offset and capture the viewport. */
  method Capture(p: Rendered) returns (r: Result<seq<Shot>>)
    ensures p.innerHeight == 0 ==> r == Err(ValueError)
    ensures p.innerHeight > 0 ==> r.Ok?
    ensures p.innerHeight > 0 ==>
      var n := |r.value|;
      && n * p.innerHeight >= p.scrollHeight
      && (n == 0 || (n - 1) * p.innerHeight < p.scrollHeight)
      && forall k :: 0 <= k < n ==> r.value[k] == p.capture(k * p.innerHeight)
    ensures p.innerHeight > 0 ==> r.value == Slices(p)
  {
    var h, v := p.scrollHeight, p.innerHeight;
    if v == 0 {
      return Err(ValueError);
    }
    var shots: seq<Shot> := [];
    var offset := 0;
    while offset < h
      invariant offset == |shots| * v
      invariant |shots| == 0 || (|shots| - 1) * v < h
      invariant forall k :: 0 <= k < |shots| ==> shots[k] == p.capture(k * v)
      decreases h as int - offset
    {
      shots := shots + [p.capture(offset)];
      offset := offset + v;
    }
    CeilDivUnique(h, v, |shots|);
    return Ok(shots);
  }

  // ---------------------------------------------------------------------
  // Stitching: `offset += screenshot.height` after each paste

  /** The total height of a run of captures. */
  function HeightSum(shots: seq<Shot>): nat
    decreases |shots|
  {
    if |shots| == 0 then 0 else HeightSum(shots[..|shots| - 1]) + shots[|shots| - 1].height
  }

  /** Each capture pasted at the summed heights of those before it. */
  function Placements(shots: seq<Shot>): seq<Placement>
  {
    seq(|shots|, k requires 0 <= k < |shots| => Placement(shots[k], HeightSum(shots[..k])))
  }

  lemma PlacementsSnoc(shots: seq<Shot>, i: nat)
    requires i < |shots|
    ensures Placements(shots[..i + 1]) == Placements(shots[..i]) + [Placement(shots[i], HeightSum(shots[..i]))]
  {
    var a, b := shots[..i + 1], shots[..i];
    assert a[..i] == b;
    forall k | 0 <= k < i ensures Placements(a)[k] == Placements(b)[k] {
      assert a[..k] == b[..k];
    }
  }

  /** auto.py:192-197: a canvas as wide as the first capture and totalHeight tall. */
  method Stitch(shots: seq<Shot>, totalHeight: nat) returns (r: Result<Canvas>)
    ensures shots == [] ==> r == Err(IndexError)
    ensures shots != [] ==> r == Ok(Canvas(shots[0].width, totalHeight, Placements(shots)))
  {
    if |shots| == 0 {
      return Err(IndexError);
    }
    var pasted: seq<Placement> := [];
    var offset := 0;
    var i := 0;
    while i < |shots|
      invariant 0 <= i <= |shots|
      invariant offset == HeightSum(shots[..i])
      invariant pasted == Placements(shots[..i])
    {
      PlacementsSnoc(shots, i);
      assert shots[..i + 1][..i] == shots[..i];
      pasted := pasted + [Placement(shots[i], offset)];
      offset := offset + shots[i].height;
      i := i + 1;
    }
    assert shots[..i] == shots;
    return Ok(Canvas(shots[0].width, totalHeight, pasted));
  }

  /** With captures of one height, slice k is pasted k heights down. */
  lemma {:induction false} UniformPlacement(shots: seq<Shot>, height: nat)
    requires forall k :: 0 <= k < |shots| ==> shots[k].height == height
    ensures HeightSum(shots) == |shots| * height
    ensures forall k :: 0 <= k < |shots| ==> Placements(shots)[k].top == k * height
    decreases |shots|
  {
    if |shots| > 0 {
      UniformPlacement(shots[..|shots| - 1], height);
      forall k | 0 <= k < |shots| ensures HeightSum(shots[..k]) == k * height {
        UniformPrefix(shots, height, k);
      }
    }
  }

  lemma {:induction false} UniformPrefix(shots: seq<Shot>, height: nat, k: nat)
    requires k <= |shots|
    requires forall j :: 0 <= j < |shots| ==> shots[j].height == height
    ensures HeightSum(shots[..k]) == k * height
    decreases k
  {
    if k > 0 {
      UniformPrefix(shots, height, k - 1);
      assert shots[..k][..k - 1] == shots[..k - 1];
    }
  }

  /** The full-page image of a kept page, or the exception capturing it raises. */
  function Picture(p: Rendered): (r: Result<Canvas>)
    ensures r.Ok? ==> p.bodyReady && p.innerHeight > 0 && p.scrollHeight > 0
    ensures r.Ok? ==> r.value.height == p.scrollHeight && |r.value.pasted| > 0
  {
    if !p.bodyReady then Err(TimeoutException)
    else if p.innerHeight == 0 then Err(ValueError)
    else
      var shots := Slices(p);
      if |shots| == 0 then Err(IndexError)
      else Ok(Canvas(shots[0].width, p.scrollHeight, Placements(shots)))
  }

  /**
   * Which exception a capture raises: a body that never appears times out,
   * a zero viewport height makes range() raise ValueError, a zero page height
   * leaves no capture for screenshots[0]. Otherwise the canvas is as wide as
   * the first capture and as tall as the page, with ceil(height / viewport)
   * captures, capture k taken at offset k * viewport and pasted in that order.
   */
  lemma PictureOutcome(p: Rendered)
    ensures Picture(p) == Err(TimeoutException) <==> !p.bodyReady
    ensures Picture(p) == Err(ValueError) <==> p.bodyReady && p.innerHeight == 0
    ensures Picture(p) == Err(IndexError) <==> p.bodyReady && p.innerHeight > 0 && p.scrollHeight == 0
    ensures Picture(p).Ok? ==>
      var c, v := Picture(p).value, p.innerHeight;
      && c.width == p.capture(0).width && c.height == p.scrollHeight
      && |c.pasted| == CeilDiv(p.scrollHeight, v)
      && forall k :: 0 <= k < |c.pasted| ==> c.pasted[k].shot == p.capture(k * v)
  {
    if p.bodyReady && p.innerHeight > 0 {
      var h, v := p.scrollHeight, p.innerHeight;
      if h > 0 {
        assert CeilDiv(h, v) >= 1;
      } else {
        assert CeilDiv(h, v) == 0;
      }
    }
  }

  /** A 1850-pixel page in an 800-pixel viewport: three slices at 0, 800 and 1600, a 1850-pixel canvas. */
  lemma ThreeSlices(p: Rendered)
    requires p.bodyReady && p.scrollHeight == 1850 && p.innerHeight == 800
    requires forall y :: p.capture(y) == Shot(1280, 800)
    ensures Picture(p) == Ok(Canvas(1280, 1850, [
      Placement(Shot(1280, 800), 0), Placement(Shot(1280, 800), 800), Placement(Shot(1280, 800), 1600)]))
  {
    var shots := Slices(p);
    var s := Shot(1280, 800);
    assert CeilDiv(1850, 800) == 3;
    assert shots == [s, s, s] by {
      assert |shots| == 3;
      assert shots[0] == p.capture(0) && shots[1] == p.capture(800) && shots[2] == p.capture(1600);
    }
    UniformPlacement(shots, 800);
    var pl := Placements(shots);
    assert pl[0].top == 0 && pl[1].top == 800 && pl[2].top == 1600;
    assert pl == [Placement(s, 0), Placement(s, 800), Placement(s, 1600)];
  }

  // ---------------------------------------------------------------------
  // The manifest: `title\nhref\n\n` per kept result

  function Record(h: Hit): string
  {
    h.title + "\n" + h.href + "\n\n"
  }

  /** The text written to the manifest file for the kept results. */
  function Manifest(hits: seq<Hit>): (m: string)
    ensures |m| >= 3 * |hits|
    ensures |m| == 0 <==> |hits| == 0
    decreases |hits|
  {
    if |hits| == 0 then "" else Record(hits[0]) + Manifest(hits[1..])
  }

  /** Rewriting the file after each result extends it by the new record. */
  lemma {:induction false} ManifestAppend(a: seq<Hit>, b: seq<Hit>)
    ensures Manifest(a + b) == Manifest(a) + Manifest(b)
    decreases |a|
  {
    if |a| == 0 {
      assert a + b == b;
    } else {
      assert (a + b)[0] == a[0] && (a + b)[1..] == a[1..] + b;
      ManifestAppend(a[1..], b);
    }
  }

  /** The lines of the manifest: title, href and a blank line per record, then the empty tail. */
  function ManifestLines(hits: seq<Hit>): seq<string>
    decreases |hits|
  {
    if |hits| == 0 then [""] else [hits[0].title, hits[0].href, ""] + ManifestLines(hits[1..])
  }

  /** Reads records back from the manifest's lines. */
  function ParseLines(ls: seq<string>): Option<seq<Hit>>
    decreases |ls|
  {
    if ls == [""] then Some([])
    else if |ls| >= 4 && ls[2] == "" then
      match ParseLines(ls[3..])
      case Some(rest) => Some([Hit(ls[0], ls[1])] + rest)
      case None => None
    else None
  }

  function ParseManifest(text: string): Option<seq<Hit>>
  {
    ParseLines(Split(text, '\n'))
  }

  predicate OneLine(h: Hit)
  {
    '\n' !in h.title && '\n' !in h.href
  }

  lemma {:induction false} SplitManifest(hits: seq<Hit>)
    requires forall i :: 0 <= i < |hits| ==> OneLine(hits[i])
    ensures Split(Manifest(hits), '\n') == ManifestLines(hits)
    decreases |hits|
  {
    if |hits| > 0 {
      var h := hits[0];
      var m := Manifest(hits[1..]);
      SplitManifest(hits[1..]);
      assert Manifest(hits) == h.title + ['\n'] + (h.href + ['\n'] + ([] + ['\n'] + m));
      SplitFirst([], '\n', m);
      SplitFirst(h.href, '\n', [] + ['\n'] + m);
      SplitFirst(h.title, '\n', h.href + ['\n'] + ([] + ['\n'] + m));
    }
  }

  lemma {:induction false} ParseManifestLines(hits: seq<Hit>)
    ensures ParseLines(ManifestLines(hits)) == Some(hits)
    decreases |hits|
  {
    if |hits| > 0 {
      ParseManifestLines(hits[1..]);
      var ls := ManifestLines(hits);
      assert ls[3..] == ManifestLines(hits[1..]);
      assert [hits[0]] + hits[1..] == hits;
    }
  }

  /** The manifest names every kept result, title and link, in order. */
  lemma ManifestRoundTrip(hits: seq<Hit>)
    requires forall i :: 0 <= i < |hits| ==> OneLine(hits[i])
    ensures ParseManifest(Manifest(hits)) == Some(hits)
  {
    SplitManifest(hits);
    ParseManifestLines(hits);
  }

  // ---------------------------------------------------------------------
  // The loop over the results

  /** auto.py:170-197 for one kept page: wait for <body>, capture the slices, stitch them. */
  method Screenshot(p: Rendered) returns (r: Result<Canvas>)
    ensures r == Picture(p)
  {
    if !p.bodyReady {
      return Err(TimeoutException);
    }
    var shots := Capture(p);
    if shots.Err? {
      return Err(shots.error);
    }
    r := Stitch(shots.value, p.scrollHeight);
  }

  /** A result with the filter keyword on its page is kept. */
  function Keep(h: Hit, browser: string -> Rendered, keyword: string): seq<Hit>
  {
    if Contains(browser(h.href).text, keyword) then [h] else []
  }

  /** The results whose pages contain the keyword, in input order. */
  function Matching(results: seq<Hit>, browser: string -> Rendered, keyword: string): (m: seq<Hit>)
    ensures |m| <= |results|
    decreases |results|
  {
    if |results| == 0 then []
    else Matching(results[..|results| - 1], browser, keyword) + Keep(results[|results| - 1], browser, keyword)
  }

  /** The images of the kept pages, in order, or the first exception raised while capturing. */
  function Pictures(kept: seq<Hit>, browser: string -> Rendered): (r: Result<seq<Canvas>>)
    ensures r.Ok? ==> |r.value| == |kept|
    decreases |kept|
  {
    if |kept| == 0 then Ok([])
    else match Pictures(kept[..|kept| - 1], browser)
      case Err(e) => Err(e)
      case Ok(cs) =>
        match Picture(browser(kept[|kept| - 1].href))
        case Ok(c) => Ok(cs + [c])
        case Err(e) => Err(e)
  }

  /**
   * What filter_content leaves: the kept results with their images and the
   * manifest; with nothing kept the manifest and directory are removed, and
   * os.remove raises when there were no results at all (the file was never written).
   */
  function FilterSpec(results: seq<Hit>, browser: string -> Rendered, keyword: string): (r: Result<Report>)
    ensures r.Ok? ==> |results| > 0 && |r.value.images| == |r.value.kept| <= |results|
    ensures r.Ok? ==> (r.value.manifest.Some? <==> |r.value.kept| > 0)
  {
    var kept := Matching(results, browser, keyword);
    match Pictures(kept, browser)
    case Err(e) => Err(e)
    case Ok(images) =>
      if |kept| == 0 then
        if |results| == 0 then Err(FileNotFoundError) else Ok(Report([], [], None))
      else Ok(Report(kept, images, Some(Manifest(kept))))
  }

  /** Filtering keeps input order: the results kept from a prefix come before those kept from the rest. */
  lemma {:induction false} MatchingAppend(a: seq<Hit>, b: seq<Hit>, browser: string -> Rendered, keyword: string)
    ensures Matching(a + b, browser, keyword) == Matching(a, browser, keyword) + Matching(b, browser, keyword)
    decreases |b|
  {
    if |b| == 0 {
      assert a + b == a;
    } else {
      var n := |b| - 1;
      assert (a + b)[..|a + b| - 1] == a + b[..n] && (a + b)[|a + b| - 1] == b[n];
      MatchingAppend(a, b[..n], browser, keyword);
      var x, y, z := Matching(a, browser, keyword), Matching(b[..n], browser, keyword), Keep(b[n], browser, keyword);
      assert (x + y) + z == x + (y + z);
    }
  }

  /** Once a capture has failed, later pages change nothing: the first exception is the one raised. */
  lemma {:induction false} PicturesAppend(a: seq<Hit>, b: seq<Hit>, browser: string -> Rendered)
    requires Pictures(a, browser).Err?
    ensures Pictures(a + b, browser) == Pictures(a, browser)
    decreases |b|
  {
    if |b| == 0 {
      assert a + b == a;
    } else {
      var n := |b| - 1;
      assert (a + b)[..|a + b| - 1] == a + b[..n];
      PicturesAppend(a, b[..n], browser);
    }
  }

  /** What one turn of the loop over the results does to the kept results and their images. */
  lemma FilterStep(results: seq<Hit>, i: nat, browser: string -> Rendered, keyword: string,
                   kept: seq<Hit>, images: seq<Canvas>)
    requires i < |results|
    requires kept == Matching(results[..i], browser, keyword)
    requires Pictures(kept, browser) == Ok(images)
    ensures var r, p := results[i], browser(results[i].href);
      && Matching(results[..i + 1], browser, keyword) == kept + Keep(r, browser, keyword)
      && (Keep(r, browser, keyword) == [r] ==>
            Pictures(kept + [r], browser) ==
              (match Picture(p) case Ok(c) => Ok(images + [c]) case Err(e) => Err(e)))
      && (Keep(r, browser, keyword) == [r] && Picture(p).Err? ==>
            FilterSpec(results, browser, keyword) == Err(Picture(p).error))
  {
    var r := results[i];
    assert results[..i + 1][..i] == results[..i];
    PicturesSnoc(kept, r, browser, images);
    if Keep(r, browser, keyword) == [r] && Picture(browser(r.href)).Err? {
      FilterStepFails(results, i, browser, keyword);
    }
  }

  /** Capturing one more kept page appends its image, or raises what the capture raises. */
  lemma PicturesSnoc(kept: seq<Hit>, r: Hit, browser: string -> Rendered, images: seq<Canvas>)
    requires Pictures(kept, browser) == Ok(images)
    ensures Pictures(kept + [r], browser) ==
      (match Picture(browser(r.href)) case Ok(c) => Ok(images + [c]) case Err(e) => Err(e))
  {
    assert (kept + [r])[..|kept + [r]| - 1] == kept;
  }

  /** A capture that fails on a kept result is the exception filter_content raises. */
  lemma FilterStepFails(results: seq<Hit>, i: nat, browser: string -> Rendered, keyword: string)
    requires i < |results|
    requires Keep(results[i], browser, keyword) == [results[i]]
    requires Pictures(Matching(results[..i + 1], browser, keyword), browser).Err?
    ensures FilterSpec(results, browser, keyword)
         == Err(Pictures(Matching(results[..i + 1], browser, keyword), browser).error)
  {
    var before := Matching(results[..i + 1], browser, keyword);
    assert results == results[..i + 1] + results[i + 1..];
    MatchingAppend(results[..i + 1], results[i + 1..], browser, keyword);
    PicturesAppend(before, Matching(results[i + 1..], browser, keyword), browser);
  }

  /** The loop at auto.py:153-205 and the clean-up after it. */
  method FilterContent(results: seq<Hit>, browser: string -> Rendered, keyword: string) returns (r: Result<Report>)
    ensures r == FilterSpec(results, browser, keyword)
  {
    var kept: seq<Hit> := [];
    var images: seq<Canvas> := [];
    var i := 0;
    while i < |results|
      invariant 0 <= i <= |results|
      invariant kept == Matching(results[..i], browser, keyword)
      invariant Pictures(kept, browser) == Ok(images)
    {
      var result := results[i];
      var page := browser(result.href);
      FilterStep(results, i, browser, keyword, kept, images);
      if Contains(page.text, keyword) {
        kept := kept + [result];
        var picture := Screenshot(page);
        if picture.Err? {
          return Err(picture.error);
        }
        images := images + [picture.value];
      }
      i := i + 1;
    }
    assert results[..i] == results;
    if |kept| == 0 {
      if |results| == 0 {
        return Err(FileNotFoundError);
      }
      return Ok(Report([], [], None));
    }
    return Ok(Report(kept, images, Some(Manifest(kept))));
  }

  // ---------------------------------------------------------------------
  // What filter_content promises

  /** A result is kept exactly when its page text contains the keyword. */
  lemma {:induction false} MatchingIff(results: seq<Hit>, browser: string -> Rendered, keyword: string, h: Hit)
    ensures h in Matching(results, browser, keyword) <==>
      h in results && exists i :: OccursAt(browser(h.href).text, keyword, i)
    decreases |results|
  {
    ContainsIff(browser(h.href).text, keyword);
    if |results| > 0 {
      var n := |results| - 1;
      MatchingIff(results[..n], browser, keyword, h);
      assert results == results[..n] + [results[n]];
    }
  }

  /** The captures succeed exactly when every kept page can be captured, and then image k is page k's. */
  lemma {:induction false} PicturesOk(kept: seq<Hit>, browser: string -> Rendered)
    ensures Pictures(kept, browser).Ok? <==>
      forall k :: 0 <= k < |kept| ==> Picture(browser(kept[k].href)).Ok?
    ensures Pictures(kept, browser).Ok? ==>
      |Pictures(kept, browser).value| == |kept| &&
      forall k :: 0 <= k < |kept| ==> Pictures(kept, browser).value[k] == Picture(browser(kept[k].href)).value
    decreases |kept|
  {
    if |kept| > 0 {
      var n := |kept| - 1;
      PicturesOk(kept[..n], browser);
      assert forall k :: 0 <= k < n ==> kept[..n][k] == kept[k];
    }
  }

  /**
   * The report of a run that returns: kept results in input order, one
   * stitched image per kept result, and a manifest listing exactly the kept
   * results when there are any (none otherwise: it is removed).
   */
  lemma FilterReport(results: seq<Hit>, browser: string -> Rendered, keyword: string)
    requires FilterSpec(results, browser, keyword).Ok?
    ensures var rep, kept := FilterSpec(results, browser, keyword).value, Matching(results, browser, keyword);
      && |results| > 0
      && rep.kept == kept
      && |rep.images| == |kept|
      && (forall k :: 0 <= k < |kept| ==> Picture(browser(kept[k].href)) == Ok(rep.images[k]))
      && (rep.manifest.Some? <==> |kept| > 0)
      && (rep.manifest.Some? ==> rep.manifest.value == Manifest(kept))
  {
    PicturesOk(Matching(results, browser, keyword), browser);
  }

  /** Some kept page cannot be captured. */
  predicate CaptureFails(kept: seq<Hit>, browser: string -> Rendered)
  {
    exists k :: 0 <= k < |kept| && Picture(browser(kept[k].href)).Err?
  }

  /** A capture fails the whole call exactly when some kept page cannot be captured; no results at all fails too. */
  lemma FilterFails(results: seq<Hit>, browser: string -> Rendered, keyword: string)
    ensures FilterSpec(results, browser, keyword).Err? <==>
      |results| == 0 || CaptureFails(Matching(results, browser, keyword), browser)
    ensures |results| == 0 ==> FilterSpec(results, browser, keyword) == Err(FileNotFoundError)
  {
    var kept := Matching(results, browser, keyword);
    PicturesOk(kept, browser);
    if |results| == 0 {
      assert kept == [];
      assert Pictures(kept, browser) == Ok([]);
    } else if Pictures(kept, browser).Err? {
      var k :| 0 <= k < |kept| && Picture(browser(kept[k].href)).Err?;
      assert FilterSpec(results, browser, keyword) == Err(Pictures(kept, browser).error);
    } else {
      assert FilterSpec(results, browser, keyword).Ok?;
    }
  }
}
