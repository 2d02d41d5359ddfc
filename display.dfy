/**
 * What the clock shows: the RTC tuple formatted as `D/M/Y` and `H:M:S`,
 * the four text lines built from it, and the drawing of those lines on the
 * SSD1306 screen, which is kept here as the sequence of calls made on it.
 */
module Display {
  import opened Wrappers
  import opened Strings
  import opened TimeParser
  import opened Timezone

  /** Where the first line is drawn, and how far each further line moves down. */
  const FirstX: int := 1
  const FirstY: int := 1
  const NewlineOffsetPx: int := 8

  /** The dictionary `format_rtc_time` returns, with its `date` and `time` keys. */
  datatype FormattedTime = FormattedTime(date: string, time: string)

  /**
   * `format_rtc_time` over the tuple the RTC reports: the date is day, month
   * and year and the time is hour, minute and second, each as unpadded
   * decimals (`"{}"` format of a Python integer).
   */
  function FormatRtcTime(t: seq<int>): (f: FormattedTime)
    requires |t| == 8
    ensures |f.date| >= 5 && |f.time| >= 5
  {
    FormattedTime(
      IntToString(t[2]) + "/" + IntToString(t[1]) + "/" + IntToString(t[0]),
      IntToString(t[4]) + ":" + IntToString(t[5]) + ":" + IntToString(t[6]))
  }

  /** Three integers written with a one-character separator that none of them holds. */
  lemma ReadBackThree(a: int, b: int, c: int, sep: char)
    requires sep == '/' || sep == ':'
    ensures var parts := Split(IntToString(a) + [sep] + IntToString(b) + [sep] + IntToString(c), {sep});
      |parts| == 3 &&
      ParseInt(parts[0]) == Some(a) && ParseInt(parts[1]) == Some(b) && ParseInt(parts[2]) == Some(c)
  {
    IntToStringHasNoSeparator(a);
    IntToStringHasNoSeparator(b);
    IntToStringHasNoSeparator(c);
    SplitThree(IntToString(a), sep, IntToString(b), sep, IntToString(c), {sep});
    IntToStringRoundTrip(a);
    IntToStringRoundTrip(b);
    IntToStringRoundTrip(c);
  }

  /**
   * Cutting the formatted date at `/` and the time at `:` and reading each
   * piece with `int()` gives back day, month, year and hour, minute, second
   * of the tuple: the format loses nothing it shows.
   */
  lemma FormatRtcTimeReadsBack(t: seq<int>)
    requires |t| == 8
    ensures var date := Split(FormatRtcTime(t).date, {'/'});
      |date| == 3 &&
      ParseInt(date[0]) == Some(t[2]) && ParseInt(date[1]) == Some(t[1]) && ParseInt(date[2]) == Some(t[0])
    ensures var time := Split(FormatRtcTime(t).time, {':'});
      |time| == 3 &&
      ParseInt(time[0]) == Some(t[4]) && ParseInt(time[1]) == Some(t[5]) && ParseInt(time[2]) == Some(t[6])
  {
    ReadBackThree(t[2], t[1], t[0], '/');
    ReadBackThree(t[4], t[5], t[6], ':');
  }

  lemma YearShown()
    ensures IntToString(2020) == "2020"
  {
    assert NatToString(2020) == "2020" by {
      assert NatToString(202) == "202" by {
        assert NatToString(20) == "20";
      }
    }
  }

  /** The tuple parsed from the documented reply is shown as `4/7/2020` and `2:1:46`. */
  lemma FormatExample()
    ensures FormatRtcTime([2020, 7, 4, 0, 2, 1, 46, 0]) == FormattedTime("4/7/2020", "2:1:46")
  {
    YearShown();
    assert IntToString(46) == "46";
  }

  /**
   * A reply that parses is shown with the day, month and year and the hour,
   * minute and second it spelled out (leading zeros dropped).
   */
  lemma ShowsParsedTime(
    year: string, month: string, day: string, hour: string, minute: string, second: string,
    fraction: string, sign: char, offset: string)
    requires IsDigits(year) && IsDigits(month) && IsDigits(day)
    requires IsDigits(hour) && IsDigits(minute) && IsDigits(second) && IsDigits(fraction)
    requires sign in ZoneSep && NoneOf(offset, DateTimeSep + ZoneSep)
    ensures var r := ParseTimeString(IsoDateTime(year, month, day, hour, minute, second, fraction, sign, offset));
      r.Ok? && FormatRtcTime(r.value) == FormattedTime(
        NatToString(DigitsValue(day)) + "/" + NatToString(DigitsValue(month)) + "/" + NatToString(DigitsValue(year)),
        NatToString(DigitsValue(hour)) + ":" + NatToString(DigitsValue(minute)) + ":" + NatToString(DigitsValue(second)))
  {
    ParseWellFormed(year, month, day, hour, minute, second, fraction, sign, offset);
  }

  /**
   * `prep_display_data`: the city segment of the zone with `_` shown as a
   * space, then the date, the time and the free memory, one per line. The
   * zone is the one `fetch_current_timezone` returns, and the free memory
   * the number `gc.mem_free()` reports; the source indexes the second
   * `/`-segment without a check, so a zone must have one.
   */
  function PrepDisplayData(zone: string, formatted: FormattedTime, memFree: int): (lines: seq<string>)
    requires |Split(zone, {'/'})| >= 2
    ensures |lines| == 4
    ensures NoneOf(lines[0], {'_', '/'}) && |lines[0]| == |Split(zone, {'/'})[1]|
  {
    var city := Split(zone, {'/'})[1];
    SplitPiecesHaveNoSeparator(zone, {'/'});
    [
      Replace(city, '_', ' '),
      "date: " + formatted.date,
      "time: " + formatted.time,
      "memory: " + IntToString(memFree)
    ]
  }

  /**
   * For a zone `region/city`, the first line is the city with every `_`
   * turned into a space and every other character kept; the other three
   * lines carry their label followed by the value, which reads back.
   */
  lemma PrepDisplayDataLines(region: string, city: string, formatted: FormattedTime, memFree: int)
    requires NoneOf(region, {'/'}) && NoneOf(city, {'/'})
    ensures |Split(region + "/" + city, {'/'})| >= 2
    ensures var lines := PrepDisplayData(region + "/" + city, formatted, memFree);
      |lines[0]| == |city| &&
      (forall i :: 0 <= i < |city| ==> lines[0][i] == if city[i] == '_' then ' ' else city[i]) &&
      lines[1][..6] == "date: " && lines[1][6..] == formatted.date &&
      lines[2][..6] == "time: " && lines[2][6..] == formatted.time &&
      lines[3][..8] == "memory: " && ParseInt(lines[3][8..]) == Some(memFree)
  {
    SplitTwo(region, '/', city, {'/'});
    var lines := PrepDisplayData(region + "/" + city, formatted, memFree);
    assert lines[3][8..] == IntToString(memFree);
    IntToStringRoundTrip(memFree);
  }

  lemma NewYorkShown()
    ensures Replace("New_York", '_', ' ') == "New York"
  {
  }

  /** The first supported zone is shown as `New York`, above the date, time and memory lines. */
  lemma PrepDisplayDataExample(formatted: FormattedTime, memFree: int)
    ensures |Split(SupportedTimezones[0], {'/'})| >= 2
    ensures PrepDisplayData(SupportedTimezones[0], formatted, memFree)
      == ["New York", "date: " + formatted.date, "time: " + formatted.time, "memory: " + IntToString(memFree)]
  {
    NewYorkSplits();
    NewYorkShown();
  }

  /** One call made on the SSD1306 driver. */
  datatype DisplayCall =
    | FillCall(color: int)
    | TextCall(text: string, x: int, y: int)
    | ShowCall

  /** The text calls `print_data` makes for `data`: datum `i` at `(1, 1 + 8 * i)`. */
  function TextCalls(data: seq<string>): seq<DisplayCall>
  {
    if data == [] then []
    else
      var k := |data| - 1;
      TextCalls(data[..k]) + [TextCall(data[k], FirstX, FirstY + NewlineOffsetPx * k)]
  }

  /** The whole of what `print_data` sends: one clear, the lines, one flush. */
  function PrintTrace(data: seq<string>): seq<DisplayCall>
  {
    [FillCall(0)] + TextCalls(data) + [ShowCall]
  }

  lemma {:induction false} TextCallsPlaceEachDatum(data: seq<string>)
    ensures |TextCalls(data)| == |data|
    ensures forall i :: 0 <= i < |data| ==>
      TextCalls(data)[i] == TextCall(data[i], FirstX, FirstY + NewlineOffsetPx * i)
  {
    if data != [] {
      var k := |data| - 1;
      TextCallsPlaceEachDatum(data[..k]);
    }
  }

  /**
   * The order `print_data` keeps: exactly one clear first, then one text
   * call per datum in list order, each 8 pixels below the one before, then
   * exactly one show last, and nothing else.
   */
  lemma PrintTraceOrder(data: seq<string>)
    ensures |PrintTrace(data)| == |data| + 2
    ensures PrintTrace(data)[0] == FillCall(0)
    ensures PrintTrace(data)[|data| + 1] == ShowCall
    ensures forall i :: 0 <= i < |data| ==>
      PrintTrace(data)[i + 1] == TextCall(data[i], 1, 1 + 8 * i)
  {
    TextCallsPlaceEachDatum(data);
  }

  /** The screen, known by the calls made on it so far. */
  class Screen {
    var calls: seq<DisplayCall>

    constructor()
      ensures calls == []
    {
      calls := [];
    }

    method Fill(color: int)
      modifies this
      ensures calls == old(calls) + [FillCall(color)]
    {
      calls := calls + [FillCall(color)];
    }

    method Text(text: string, x: int, y: int)
      modifies this
      ensures calls == old(calls) + [TextCall(text, x, y)]
    {
      calls := calls + [TextCall(text, x, y)];
    }

    method Show()
      modifies this
      ensures calls == old(calls) + [ShowCall]
    {
      calls := calls + [ShowCall];
    }
  }

  /** `print_data`: clear the screen, draw each datum a line lower than the last, show. */
  method PrintData(display: Screen, data: seq<string>)
    modifies display
    ensures display.calls == old(display.calls) + PrintTrace(data)
  {
    display.Fill(0);
    var x, y := FirstX, FirstY;
    for k := 0 to |data|
      invariant y == FirstY + NewlineOffsetPx * k
      invariant display.calls == old(display.calls) + [FillCall(0)] + TextCalls(data[..k])
    {
      display.Text(data[k], x, y);
      y := y + NewlineOffsetPx;
      assert data[..k + 1][..k] == data[..k];
    }
    assert data[..|data|] == data;
    display.Show();
  }
}
