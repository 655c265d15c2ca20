/**
 * split_date_range_backward: the search window [start, end] is cut into
 * chunks of at most 365 days, found by walking backward from the end date.
 * Dates are day ordinals, so timedelta(days=n) is integer addition; the
 * datetime.min and datetime.max bounds are not part of this model.
 */
module DateRanges {
  import opened Errors
  import opened Numbers

  /** The step of the backward walk, timedelta(days=365). */
  const SPAN_DAYS := 365

  /**
   * A range bound as the script renders it: the strftime('%Y:%m:%d') text
   * of a day, or the caller's own start text, copied unchanged.
   */
  datatype Bound = Formatted(day: int) | Raw(text: string, day: int)

  /** One (start, end) tuple of date_ranges. */
  datatype DateRange = DateRange(lo: Bound, hi: Bound) {
    function Width(): int { hi.day - lo.day }
  }

  /** A date argument: its text and what strptime('%Y:%m:%d') makes of it (None: it raises). */
  datatype DateArg = DateArg(text: string, parsed: Option<int>)

  /** The ranges the while loop prepends, starting from current_end_date == cur. */
  function Walk(start: int, cur: int): (ws: seq<DateRange>)
    ensures |ws| == 0 <==> cur <= start
    ensures cur > start ==> ws[|ws| - 1].hi == Formatted(cur)
    decreases cur - start
  {
    if cur <= start then []
    else
      var lo := Max(cur - SPAN_DAYS, start);
      Walk(start, lo - 1) + [DateRange(Formatted(lo), Formatted(cur))]
  }

  /** current_end_date once the loop has stopped. */
  function WalkExit(start: int, cur: int): (x: int)
    ensures x <= start
    ensures cur > start ==> start - 1 <= x
    decreases cur - start
  {
    if cur <= start then cur else WalkExit(start, Max(cur - SPAN_DAYS, start) - 1)
  }

  /** What split_date_range_backward returns or raises. */
  function Partition(s: DateArg, e: DateArg): (r: Result<seq<DateRange>>)
    ensures r.Ok? ==> s.parsed.Some? && e.parsed.Some? && s.parsed.value < e.parsed.value
    ensures r.Ok? ==> |r.value| > 0 && r.value[|r.value| - 1].hi == Formatted(e.parsed.value)
  {
    if s.parsed.None? || e.parsed.None? then Err(ValueError)
    else
      var start, end := s.parsed.value, e.parsed.value;
      if start > end then Err(ValueError)
      else
        var ranges := Walk(start, end);
        if WalkExit(start, end) == start then
          if |ranges| == 0 then Err(IndexError)
          else Ok(ranges[0 := DateRange(Raw(s.text, start), ranges[0].hi)])
        else Ok(ranges)
  }

  /** The script's loop: prepend ranges walking backward, then patch the first start. */
  method SplitDateRangeBackward(s: DateArg, e: DateArg) returns (r: Result<seq<DateRange>>)
    ensures r == Partition(s, e)
  {
    if s.parsed.None? || e.parsed.None? {
      return Err(ValueError);
    }
    var start, end := s.parsed.value, e.parsed.value;
    if start > end {
      return Err(ValueError);
    }
    var ranges: seq<DateRange> := [];
    var cur := end;
    while cur > start
      invariant Walk(start, cur) + ranges == Walk(start, end)
      invariant WalkExit(start, cur) == WalkExit(start, end)
      decreases cur - start
    {
      var lo := Max(cur - SPAN_DAYS, start);
      var range := DateRange(Formatted(lo), Formatted(cur));
      assert Walk(start, cur) == Walk(start, lo - 1) + [range];
      assert Walk(start, lo - 1) + ([range] + ranges) == Walk(start, cur) + ranges;
      ranges := [range] + ranges;
      cur := lo - 1;
    }
    assert Walk(start, cur) == [] && WalkExit(start, cur) == cur;
    assert ranges == Walk(start, end);
    if cur == start {
      if |ranges| == 0 {
        return Err(IndexError);
      }
      ranges := ranges[0 := DateRange(Raw(s.text, start), ranges[0].hi)];
    }
    return Ok(ranges);
  }

  // ---------------------------------------------------------------------
  // The shape of the backward walk

  /**
   * Closed form of the walk: counting from the newest range, the j-th range
   * ends 366*j days before cur and starts 365 days before its end, clamped at start.
   */
  lemma {:induction false} WalkAt(start: int, cur: int, j: int)
    requires cur > start
    requires 0 <= j < |Walk(start, cur)|
    ensures Walk(start, cur)[|Walk(start, cur)| - 1 - j]
         == DateRange(Formatted(Max(cur - 366 * j - SPAN_DAYS, start)), Formatted(cur - 366 * j))
    decreases cur - start
  {
    var lo := Max(cur - SPAN_DAYS, start);
    var rest := Walk(start, lo - 1);
    assert Walk(start, cur) == rest + [DateRange(Formatted(lo), Formatted(cur))];
    if j > 0 {
      WalkAt(start, lo - 1, j - 1);
      assert Walk(start, cur)[|Walk(start, cur)| - 1 - j] == rest[|rest| - 1 - (j - 1)];
    }
  }

  /** The walk yields ceil((cur - start) / 366) ranges. */
  lemma {:induction false} WalkLength(start: int, cur: int)
    requires cur > start
    ensures |Walk(start, cur)| == CeilDiv(cur - start, 366)
    decreases cur - start
  {
    var lo := Max(cur - SPAN_DAYS, start);
    if lo - 1 > start {
      WalkLength(start, lo - 1);
    }
  }

  /** The loop stops on start exactly when the span is a whole number of 366-day steps. */
  lemma {:induction false} WalkExitAt(start: int, cur: int)
    requires cur > start
    ensures WalkExit(start, cur) == (if (cur - start) % 366 == 0 then start else start - 1)
    decreases cur - start
  {
    var lo := Max(cur - SPAN_DAYS, start);
    if lo - 1 > start {
      WalkExitAt(start, lo - 1);
    }
  }

  /** Properties of a partition that split_date_range_backward returned. */
  ghost predicate Contiguous(rs: seq<DateRange>)
  {
    forall i :: 0 <= i < |rs| - 1 ==> rs[i].hi.day + 1 == rs[i + 1].lo.day
  }

  /**
   * For start < end the call succeeds. The ranges are oldest first, each ends
   * the day before the next begins, the first starts on start and the last
   * ends on end; every range but the first spans exactly 365 days; there are
   * ceil((end - start) / 366) of them. The first range starts with the
   * caller's own text, spanning 366 days, exactly when end - start is a
   * multiple of 366; otherwise it is the formatted start and spans at most 365.
   */
  lemma PartitionShape(s: DateArg, e: DateArg)
    requires s.parsed.Some? && e.parsed.Some? && s.parsed.value < e.parsed.value
    ensures Partition(s, e).Ok?
    ensures var rs, start, end := Partition(s, e).value, s.parsed.value, e.parsed.value;
      && |rs| == CeilDiv(end - start, 366)
      && rs[0].lo.day == start
      && rs[|rs| - 1].hi.day == end
      && rs[|rs| - 1].hi == Formatted(end)
      && Contiguous(rs)
      && (forall i :: 0 <= i < |rs| ==> rs[i].hi.Formatted?)
      && (forall i :: 1 <= i < |rs| ==> rs[i].lo.Formatted? && rs[i].Width() == SPAN_DAYS)
      && (rs[0].lo.Raw? <==> (end - start) % 366 == 0)
      && (rs[0].lo.Raw? ==> rs[0].lo.text == s.text && rs[0].Width() == SPAN_DAYS + 1)
      && (rs[0].lo.Formatted? ==> 1 <= rs[0].Width() <= SPAN_DAYS)
  {
    var start, end := s.parsed.value, e.parsed.value;
    var w := Walk(start, end);
    WalkLength(start, end);
    WalkExitAt(start, end);
    var n := |w|;
    forall i | 0 <= i < n
      ensures w[i] == DateRange(Formatted(Max(end - 366 * (n - 1 - i) - SPAN_DAYS, start)),
                                Formatted(end - 366 * (n - 1 - i)))
    {
      WalkAt(start, end, n - 1 - i);
    }
    // the oldest range starts 1 + 366 * (n - 1) - ... days after start, or on it
    assert w[0].lo.day == Max(end - 366 * (n - 1) - SPAN_DAYS, start);
    var rs := Partition(s, e).value;
    assert forall i :: 1 <= i < n ==> rs[i] == w[i];
  }

  /** Errors: unparseable dates and start > end raise ValueError, start == end raises IndexError. */
  lemma PartitionErrors(s: DateArg, e: DateArg)
    ensures Partition(s, e).Err? <==>
      (s.parsed.None? || e.parsed.None? || s.parsed.value >= e.parsed.value)
    ensures Partition(s, e) == Err(ValueError) <==>
      (s.parsed.None? || e.parsed.None? || s.parsed.value > e.parsed.value)
    ensures Partition(s, e) == Err(IndexError) <==>
      (s.parsed.Some? && e.parsed.Some? && s.parsed.value == e.parsed.value)
  {
    if s.parsed.Some? && e.parsed.Some? && s.parsed.value < e.parsed.value {
      PartitionShape(s, e);
    }
  }

  /**
   * 2019:01:01 to 2021:06:15, with day 0 the start (2020 is a leap year, so the
   * end is day 896): three ranges, oldest first, and no patch since 896 is not
   * a multiple of 366.
   */
  lemma ThreeRanges(s: DateArg, e: DateArg)
    requires s.parsed == Some(0) && e.parsed == Some(896)
    ensures Partition(s, e) == Ok([DateRange(Formatted(0), Formatted(164)),
                                   DateRange(Formatted(165), Formatted(530)),
                                   DateRange(Formatted(531), Formatted(896))])
  {
    assert Walk(0, -1) == [] && WalkExit(0, -1) == -1;
    assert Walk(0, 164) == [DateRange(Formatted(0), Formatted(164))];
    assert Walk(0, 530) == Walk(0, 164) + [DateRange(Formatted(165), Formatted(530))];
    assert Walk(0, 896) == Walk(0, 530) + [DateRange(Formatted(531), Formatted(896))];
    assert WalkExit(0, 896) == WalkExit(0, 530) == WalkExit(0, 164) == WalkExit(0, -1);
    assert Walk(0, 896) == [DateRange(Formatted(0), Formatted(164)),
                            DateRange(Formatted(165), Formatted(530)),
                            DateRange(Formatted(531), Formatted(896))];
  }
}
