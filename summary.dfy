/** The location summary that the map module's `process_location_data` computes and that
    `FindMyFlipperUi.parseData` repeats: sort by time, first and last time, ping count, and the
    total and average time between pings rendered by `format_time`. */
module LocationSummary {
  import opened Wrappers
  import opened Text
  import opened ReportAggregator

  /** Hours, minutes and seconds of a duration. */
  datatype Clock = Clock(hours: int, minutes: int, seconds: int)

  /** `seconds // 3600`, `(seconds % 3600) // 60` and `seconds % 60` with Python's floor
      division, which agrees with Dafny's for the positive divisors used here. */
  function Hms(s: int): (c: Clock)
    ensures c.hours * 3600 + c.minutes * 60 + c.seconds == s
    ensures 0 <= c.minutes < 60 && 0 <= c.seconds < 60
  {
    var rest := s % 3600;
    assert rest % 60 == s % 60 by {
      assert s == 3600 * (s / 3600) + rest;
      assert s == 60 * (60 * (s / 3600)) + rest;
    }
    Clock(s / 3600, rest / 60, s % 60)
  }

  /** The split into hours, minutes under an hour and seconds under a minute is unique. */
  lemma HmsUnique(s: int, c: Clock)
    requires c.hours * 3600 + c.minutes * 60 + c.seconds == s
    requires 0 <= c.minutes < 60 && 0 <= c.seconds < 60
    ensures c == Hms(s)
  {
    var d := Hms(s);
    var a := c.minutes * 60 + c.seconds;
    var b := d.minutes * 60 + d.seconds;
    assert 0 <= a < 3600 && 0 <= b < 3600;
    assert (c.hours - d.hours) * 3600 == b - a;
    assert c.hours == d.hours;
    assert (c.minutes - d.minutes) * 60 == d.seconds - c.seconds;
  }

  /** `format_time`: `"<h>h <m>m <s>s"`. */
  function FormatTime(s: int): string
  {
    ClockText(Hms(s))
  }

  /** A number followed by its unit letter. */
  function ParseUnit(p: string, unit: char): Option<int>
  {
    if p != [] && p[|p| - 1] == unit then SignedDecimalValue(p[..|p| - 1]) else None
  }

  /** Reads a duration back from the text `format_time` produces. */
  function ParseTime(text: string): Option<int>
  {
    ParseWords(Split(text, " "))
  }

  function ParseWords(parts: seq<string>): Option<int>
  {
    if |parts| != 3 then None
    else
      match (ParseUnit(parts[0], 'h'), ParseUnit(parts[1], 'm'), ParseUnit(parts[2], 's'))
      case (Some(h), Some(m), Some(sec)) => Some(h * 3600 + m * 60 + sec)
      case _ => None
  }

  lemma ParseUnitOf(i: int, unit: char)
    ensures ParseUnit(IntToDecimal(i) + [unit], unit) == Some(i)
  {
    var p := IntToDecimal(i) + [unit];
    assert p[..|p| - 1] == IntToDecimal(i);
    SignedDecimalRoundTrip(i);
  }

  lemma SplitThreeWords(h: string, m: string, sec: string)
    requires ' ' !in h && ' ' !in m && ' ' !in sec
    ensures Split(h + " " + m + " " + sec, " ") == [h, m, sec]
  {
    assert h + " " + m + " " + sec == h + [' '] + (m + [' '] + sec);
    SplitAfterWord(h, ' ', m + [' '] + sec);
    SplitAfterWord(m, ' ', sec);
    SplitWithoutSeparator(sec, ' ');
  }

  /** The text for a given number of hours, minutes and seconds. */
  function ClockText(c: Clock): string
  {
    (IntToDecimal(c.hours) + "h") + " " + (IntToDecimal(c.minutes) + "m") + " " + (IntToDecimal(c.seconds) + "s")
  }

  lemma ParseClockWords(c: Clock)
    ensures ParseWords([IntToDecimal(c.hours) + "h", IntToDecimal(c.minutes) + "m", IntToDecimal(c.seconds) + "s"])
      == Some(c.hours * 3600 + c.minutes * 60 + c.seconds)
  {
    ParseUnitOf(c.hours, 'h');
    ParseUnitOf(c.minutes, 'm');
    ParseUnitOf(c.seconds, 's');
  }

  lemma ParseClockText(c: Clock)
    ensures ParseTime(ClockText(c)) == Some(c.hours * 3600 + c.minutes * 60 + c.seconds)
  {
    var h := IntToDecimal(c.hours) + "h";
    var m := IntToDecimal(c.minutes) + "m";
    var sec := IntToDecimal(c.seconds) + "s";
    SplitThreeWords(h, m, sec);
    ParseClockWords(c);
    assert ParseTime(ClockText(c)) == ParseWords([h, m, sec]);
  }

  /** The rendered duration determines the duration: `format_time` loses nothing. */
  lemma ParseFormatTime(s: int)
    ensures ParseTime(FormatTime(s)) == Some(s)
  {
    ParseClockText(Hms(s));
  }

  /** The values of the summary dictionary that the model keeps. */
  datatype Summary = Summary(
    sorted: seq<Location>, start: int, end: int, pingCount: nat,
    totalSeconds: int, averageSeconds: int, totalTime: string, averageTime: string)

  /** The exceptions `process_location_data` raises: a KeyError on the missing `isodatetime`
      column of an empty frame, and the ValueError of `int(NaN)` when the mean of no time
      differences is formatted. */
  datatype SummaryError = MissingColumn | NotANumber

  /** `process_location_data` (and the summary part of `parseData`) on already loaded records. */
  function ProcessLocationData(data: seq<Location>): (r: Result<Summary, SummaryError>)
    ensures r == Err(MissingColumn) <==> data == []
    ensures r == Err(NotANumber) <==> |data| == 1
    ensures r.Ok? ==>
      && r.value.sorted == SortByTimestamp(data)
      && SortedByTime(r.value.sorted) && multiset(r.value.sorted) == multiset(data)
      && r.value.pingCount == |data|
  {
    if data == [] then Err(MissingColumn)
    else if |data| == 1 then Err(NotANumber)
    else
      var sorted := SortByTimestamp(data);
      SortByTimestampCorrect(data);
      assert |sorted| == |multiset(sorted)| == |multiset(data)| == |data|;
      var start := sorted[0].timestamp;
      var end := sorted[|sorted| - 1].timestamp;
      var total := end - start;
      var average := MeanGap(total, |data| - 1);
      Ok(Summary(sorted, start, end, |data|, total, average, FormatTime(total), FormatTime(average)))
  }

  /** The summary's start and end are the least and greatest times of the records and the
      total time is their difference. */
  lemma SummaryBounds(data: seq<Location>)
    requires ProcessLocationData(data).Ok?
    ensures var v := ProcessLocationData(data).value;
      && (exists i :: 0 <= i < |data| && data[i].timestamp == v.start)
      && (exists i :: 0 <= i < |data| && data[i].timestamp == v.end)
      && (forall i :: 0 <= i < |data| ==> v.start <= data[i].timestamp <= v.end)
      && v.totalSeconds == v.end - v.start
  {
    var v := ProcessLocationData(data).value;
    SortedBounds(v.sorted, data);
  }

  /** The average is the total over the number of gaps rounded down, and the two texts render
      the total and the average. */
  lemma SummaryDurations(data: seq<Location>)
    requires ProcessLocationData(data).Ok?
    ensures var v := ProcessLocationData(data).value;
      && FloorQuotient(v.averageSeconds, v.totalSeconds, v.pingCount - 1)
      && v.totalTime == FormatTime(v.totalSeconds) && v.averageTime == FormatTime(v.averageSeconds)
  {
    var v := ProcessLocationData(data).value;
    var gaps := |data| - 1;
    assert v.pingCount - 1 == gaps && v.averageSeconds == MeanGap(v.totalSeconds, gaps);
    assert v.totalTime == FormatTime(v.totalSeconds) && v.averageTime == FormatTime(v.averageSeconds);
    MeanGapBounds(v.totalSeconds, gaps);
  }

  /** The mean of `gaps` time differences that add up to `total`, rounded down as `int()` does
      for a non-negative mean. */
  function MeanGap(total: int, gaps: int): int
    requires gaps > 0
  {
    total / gaps
  }

  /** `q` is `total / gaps` rounded down. */
  predicate FloorQuotient(q: int, total: int, gaps: int)
  {
    q * gaps <= total < (q + 1) * gaps
  }

  lemma MeanGapBounds(total: int, gaps: int)
    requires gaps > 0
    ensures FloorQuotient(MeanGap(total, gaps), total, gaps)
  {
  }

  /** The first and last entries of a sorted permutation are the least and greatest times. */
  lemma SortedBounds(sorted: seq<Location>, data: seq<Location>)
    requires SortedByTime(sorted) && multiset(sorted) == multiset(data) && data != []
    ensures |sorted| == |data|
    ensures exists i :: 0 <= i < |data| && data[i].timestamp == sorted[0].timestamp
    ensures exists i :: 0 <= i < |data| && data[i].timestamp == sorted[|sorted| - 1].timestamp
    ensures forall i :: 0 <= i < |data| ==> sorted[0].timestamp <= data[i].timestamp <= sorted[|sorted| - 1].timestamp
  {
    assert |sorted| == |multiset(sorted)| == |multiset(data)| == |data|;
    assert sorted[0] in multiset(data);
    assert sorted[|sorted| - 1] in multiset(data);
    forall i | 0 <= i < |data|
      ensures sorted[0].timestamp <= data[i].timestamp <= sorted[|sorted| - 1].timestamp
    {
      assert data[i] in multiset(sorted);
      var k :| 0 <= k < |sorted| && sorted[k] == data[i];
    }
  }
}
