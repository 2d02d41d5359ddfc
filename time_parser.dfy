/**
 * `parse_time_string`: the `datetime` field of the world-time service's
 * reply, an ISO 8601 local date-time with a UTC offset such as
 * `2020-07-04T02:01:46.283707-04:00`, becomes the 8-tuple the MicroPython
 * RTC takes, `(year, month, day, weekday, hour, minute, second, subsecond)`,
 * with weekday and subsecond forced to 0. The tuple is a `seq<int>` so that
 * the slicing of the source is written as it is.
 */
module TimeParser {
  import opened Wrappers
  import opened Strings

  /** Which tuple unpacking met the wrong number of pieces. */
  datatype Field =
    | DateAndTime   // `date, time_add_zone = s.split('T')`
    | Date          // `year, month, day = date.split('-')`
    | TimeAndZone   // `time_data, _ = split on [+-]`
    | Time          // `hour, minute, second = time_data.split(':')`
    | Seconds       // `macrosecond, microsecond = second.split('.')`

  /**
   * The exceptions the parser can raise: `KeyError` for a reply without
   * `datetime`, and the two kinds of `ValueError` (a tuple unpacking that
   * expected `expected` pieces and got `found`, or `int()` of a non-number).
   */
  datatype ParseError =
    | MissingDatetime
    | WrongFieldCount(field: Field, expected: nat, found: nat)
    | NotAnInteger(text: string)

  /** The separators of each step. */
  const DateTimeSep: set<char> := {'T'}
  const DateSep: set<char> := {'-'}
  const ZoneSep: set<char> := {'+', '-'}
  const TimeSep: set<char> := {':'}
  const FractionSep: set<char> := {'.'}

  /** `int(text)`, raising `ValueError` on a text that is not a decimal integer. */
  function IntField(text: string): (r: Result<int, ParseError>)
    ensures r.Ok? <==> ParseInt(text).Some?
    ensures r.Ok? ==> r.value == ParseInt(text).value
    ensures r.Err? ==> r.error == NotAnInteger(text)
  {
    match ParseInt(text)
    case None => Err(NotAnInteger(text))
    case Some(n) => Ok(n)
  }

  /**
   * The part of `parse_time_string` after the offset is cut off: `date` is
   * the year, month and day text, `localTime` the `h:m:s.f` text. The seven
   * `int()` calls run left to right, so the first bad text is the one reported.
   */
  function ParseLocal(date: seq<string>, localTime: string): (r: Result<seq<int>, ParseError>)
    requires |date| == 3
    ensures r.Ok? ==> |r.value| == 8 && r.value[3] == 0 && r.value[7] == 0
  {
    var time := Split(localTime, TimeSep);
    if |time| != 3 then Err(WrongFieldCount(Time, 3, |time|))
    else
      var seconds := Split(time[2], FractionSep);
      if |seconds| != 2 then Err(WrongFieldCount(Seconds, 2, |seconds|))
      else
        var year :- IntField(date[0]);
        var month :- IntField(date[1]);
        var day :- IntField(date[2]);
        var hour :- IntField(time[0]);
        var minute :- IntField(time[1]);
        var second :- IntField(seconds[0]);
        var microsecond :- IntField(seconds[1]);
        var tuple := [year, month, day, hour, minute, second, microsecond, 0];
        Ok(tuple[0..3] + [0] + tuple[3..6] + [0])
  }

  /** The model of `parse_time_string` on the `datetime` string. */
  function ParseTimeString(s: string): (r: Result<seq<int>, ParseError>)
    ensures r.Ok? ==> |r.value| == 8 && r.value[3] == 0 && r.value[7] == 0
    ensures CountOf(s, DateTimeSep) != 1 ==>
      r == Err(WrongFieldCount(DateAndTime, 2, CountOf(s, DateTimeSep) + 1))
  {
    var dateAndTime := Split(s, DateTimeSep);
    if |dateAndTime| != 2 then Err(WrongFieldCount(DateAndTime, 2, |dateAndTime|))
    else
      var date := Split(dateAndTime[0], DateSep);
      if |date| != 3 then Err(WrongFieldCount(Date, 3, |date|))
      else
        var timeAndZone := Split(dateAndTime[1], ZoneSep);
        if |timeAndZone| != 2 then Err(WrongFieldCount(TimeAndZone, 2, |timeAndZone|))
        else ParseLocal(date, timeAndZone[0])
  }

  /** `parse_time_string(response)`: only the `datetime` field of the reply is read. */
  function ParseTimeResponse(response: map<string, string>): (r: Result<seq<int>, ParseError>)
    ensures "datetime" !in response ==> r == Err(MissingDatetime)
    ensures "datetime" in response ==> r == ParseTimeString(response["datetime"])
  {
    if "datetime" in response then ParseTimeString(response["datetime"]) else Err(MissingDatetime)
  }

  // ---------------------------------------------------------------------
  // Properties

  /** No parsed field is negative: a `-` never survives into a number's text. */
  lemma ParsedFieldsNonNegative(s: string)
    requires ParseTimeString(s).Ok?
    ensures forall i :: 0 <= i < 8 ==> ParseTimeString(s).value[i] >= 0
  {
    var dateAndTime := Split(s, DateTimeSep);
    var date := Split(dateAndTime[0], DateSep);
    var timeAndZone := Split(dateAndTime[1], ZoneSep);
    SplitPiecesHaveNoSeparator(dateAndTime[0], DateSep);
    SplitPiecesHaveNoSeparator(dateAndTime[1], ZoneSep);
    assert NoneOf(timeAndZone[0], {'-'});
    var time := Split(timeAndZone[0], TimeSep);
    SplitKeepsNoneOf(timeAndZone[0], TimeSep, {'-'});
    var seconds := Split(time[2], FractionSep);
    SplitKeepsNoneOf(time[2], FractionSep, {'-'});
    assert NoneOf(date[0], {'-'}) && NoneOf(date[1], {'-'}) && NoneOf(date[2], {'-'});
    ParseIntWithoutMinus(date[0]);
    ParseIntWithoutMinus(date[1]);
    ParseIntWithoutMinus(date[2]);
    ParseIntWithoutMinus(time[0]);
    ParseIntWithoutMinus(time[1]);
    ParseIntWithoutMinus(seconds[0]);
  }

  /** The text `Y-M-DTh:m:s.f` followed by a sign and a UTC offset. */
  function IsoDateTime(
    year: string, month: string, day: string,
    hour: string, minute: string, second: string, fraction: string,
    sign: char, offset: string): string
  {
    (year + "-" + month + "-" + day) + "T" +
    ((hour + ":" + minute + ":" + (second + "." + fraction)) + [sign] + offset)
  }

  /** The cuts of a local time `h:m:s.f` whose fields hold no separator. */
  lemma LocalTimeSplits(hour: string, minute: string, second: string, fraction: string)
    requires NoneOf(hour, TimeSep) && NoneOf(minute, TimeSep)
    requires NoneOf(second, TimeSep + FractionSep) && NoneOf(fraction, TimeSep + FractionSep)
    ensures Split(hour + ":" + minute + ":" + (second + "." + fraction), TimeSep)
      == [hour, minute, second + "." + fraction]
    ensures Split(second + "." + fraction, FractionSep) == [second, fraction]
  {
    assert NoneOf(second, FractionSep) && NoneOf(fraction, FractionSep);
    SplitTwo(second, '.', fraction, FractionSep);
    assert NoneOf(second + "." + fraction, TimeSep);
    SplitThree(hour, ':', minute, ':', second + "." + fraction, TimeSep);
  }

  /**
   * The local-time half of a reply whose seven numeric texts all read as
   * numbers: the tuple holds the first six of them around the two zeros,
   * and the microseconds are dropped.
   */
  lemma ParseLocalValues(
    year: string, month: string, day: string,
    hour: string, minute: string, second: string, fraction: string,
    y: int, mo: int, d: int, h: int, mi: int, sec: int)
    requires NoneOf(hour, TimeSep) && NoneOf(minute, TimeSep)
    requires NoneOf(second, TimeSep + FractionSep) && NoneOf(fraction, TimeSep + FractionSep)
    requires ParseInt(year) == Some(y) && ParseInt(month) == Some(mo) && ParseInt(day) == Some(d)
    requires ParseInt(hour) == Some(h) && ParseInt(minute) == Some(mi) && ParseInt(second) == Some(sec)
    requires ParseInt(fraction).Some?
    ensures ParseLocal([year, month, day], hour + ":" + minute + ":" + (second + "." + fraction))
      == Ok([y, mo, d, 0, h, mi, sec, 0])
  {
    LocalTimeSplits(hour, minute, second, fraction);
    var tuple := [y, mo, d, h, mi, sec, ParseInt(fraction).value, 0];
    assert tuple[0..3] + [0] + tuple[3..6] + [0] == [y, mo, d, 0, h, mi, sec, 0];
  }

  /**
   * The split on `T` and on the offset sign: when the date has no `T` and
   * the offset has no `T`, `+` or `-`, only the date and the local time
   * reach the rest of the parser.
   */
  lemma ParseReachesLocal(date: string, localTime: string, sign: char, offset: string)
    requires NoneOf(date, DateTimeSep) && NoneOf(localTime, DateTimeSep + ZoneSep)
    requires sign in ZoneSep && NoneOf(offset, DateTimeSep + ZoneSep)
    ensures ParseTimeString(date + "T" + (localTime + [sign] + offset))
      == var d := Split(date, DateSep);
         if |d| != 3 then Err(WrongFieldCount(Date, 3, |d|)) else ParseLocal(d, localTime)
  {
    var rest := localTime + [sign] + offset;
    SplitTwo(localTime, sign, offset, ZoneSep);
    SplitTwo(date, 'T', rest, DateTimeSep);
  }

  /**
   * The UTC offset is thrown away: two replies that differ only in the
   * offset's sign or text parse alike. The `-` signs of the date cannot be
   * mistaken for the offset's, since the date is cut off at `T` first.
   */
  lemma ParseIgnoresOffset(
    date: string, localTime: string, sign1: char, offset1: string, sign2: char, offset2: string)
    requires NoneOf(date, DateTimeSep) && NoneOf(localTime, DateTimeSep + ZoneSep)
    requires sign1 in ZoneSep && NoneOf(offset1, DateTimeSep + ZoneSep)
    requires sign2 in ZoneSep && NoneOf(offset2, DateTimeSep + ZoneSep)
    ensures ParseTimeString(date + "T" + (localTime + [sign1] + offset1))
      == ParseTimeString(date + "T" + (localTime + [sign2] + offset2))
  {
    ParseReachesLocal(date, localTime, sign1, offset1);
    ParseReachesLocal(date, localTime, sign2, offset2);
  }

  /** A date part without exactly two `-` is refused, whatever follows the `T`. */
  lemma ParseRejectsDateDashes(date: string, rest: string)
    requires NoneOf(date, DateTimeSep) && NoneOf(rest, DateTimeSep)
    requires CountOf(date, DateSep) != 2
    ensures ParseTimeString(date + "T" + rest)
      == Err(WrongFieldCount(Date, 3, CountOf(date, DateSep) + 1))
  {
    SplitTwo(date, 'T', rest, DateTimeSep);
  }

  /**
   * A time part without exactly one `+` or `-` is refused: a reply with no
   * offset at all, or with `Z` for UTC, fails here.
   */
  lemma ParseRejectsOffsetSigns(date: string, rest: string)
    requires NoneOf(date, DateTimeSep) && NoneOf(rest, DateTimeSep)
    requires CountOf(date, DateSep) == 2 && CountOf(rest, ZoneSep) != 1
    ensures ParseTimeString(date + "T" + rest)
      == Err(WrongFieldCount(TimeAndZone, 2, CountOf(rest, ZoneSep) + 1))
  {
    SplitTwo(date, 'T', rest, DateTimeSep);
  }

  /** A local time without exactly two `:` is refused. */
  lemma ParseRejectsTimeColons(date: seq<string>, localTime: string)
    requires |date| == 3 && CountOf(localTime, TimeSep) != 2
    ensures ParseLocal(date, localTime)
      == Err(WrongFieldCount(Time, 3, CountOf(localTime, TimeSep) + 1))
  {
  }

  /** A seconds field without exactly one `.` is refused: whole seconds alone do not parse. */
  lemma ParseRejectsSecondsDots(date: seq<string>, hour: string, minute: string, second: string)
    requires |date| == 3
    requires NoneOf(hour, TimeSep) && NoneOf(minute, TimeSep) && NoneOf(second, TimeSep)
    requires CountOf(second, FractionSep) != 1
    ensures ParseLocal(date, hour + ":" + minute + ":" + second)
      == Err(WrongFieldCount(Seconds, 2, CountOf(second, FractionSep) + 1))
  {
    SplitThree(hour, ':', minute, ':', second, TimeSep);
  }

  /**
   * With the separators right, parsing succeeds exactly when all seven
   * numeric texts are integers, the discarded microseconds included.
   */
  lemma ParseLocalNeedsIntegers(
    year: string, month: string, day: string,
    hour: string, minute: string, second: string, fraction: string)
    requires NoneOf(hour, TimeSep) && NoneOf(minute, TimeSep)
    requires NoneOf(second, TimeSep + FractionSep) && NoneOf(fraction, TimeSep + FractionSep)
    ensures ParseLocal([year, month, day], hour + ":" + minute + ":" + (second + "." + fraction)).Ok?
      <==> ParseInt(year).Some? && ParseInt(month).Some? && ParseInt(day).Some? &&
           ParseInt(hour).Some? && ParseInt(minute).Some? && ParseInt(second).Some? &&
           ParseInt(fraction).Some?
  {
    LocalTimeSplits(hour, minute, second, fraction);
  }

  /** When only the microseconds are not a number, `int()` of them is the error raised. */
  lemma ParseRejectsBadFraction(
    year: string, month: string, day: string,
    hour: string, minute: string, second: string, fraction: string)
    requires NoneOf(hour, TimeSep) && NoneOf(minute, TimeSep)
    requires NoneOf(second, TimeSep + FractionSep) && NoneOf(fraction, TimeSep + FractionSep)
    requires ParseInt(year).Some? && ParseInt(month).Some? && ParseInt(day).Some?
    requires ParseInt(hour).Some? && ParseInt(minute).Some? && ParseInt(second).Some?
    requires ParseInt(fraction).None?
    ensures ParseLocal([year, month, day], hour + ":" + minute + ":" + (second + "." + fraction))
      == Err(NotAnInteger(fraction))
  {
    LocalTimeSplits(hour, minute, second, fraction);
  }

  /**
   * A well-formed reply parses to `(Y, M, D, 0, h, m, s, 0)`: each field is
   * the value of its digits (leading zeros allowed), the fraction and the
   * offset leave no trace, and no field is range-checked or clamped.
   */
  lemma ParseWellFormed(
    year: string, month: string, day: string,
    hour: string, minute: string, second: string, fraction: string,
    sign: char, offset: string)
    requires IsDigits(year) && IsDigits(month) && IsDigits(day)
    requires IsDigits(hour) && IsDigits(minute) && IsDigits(second) && IsDigits(fraction)
    requires sign in ZoneSep && NoneOf(offset, DateTimeSep + ZoneSep)
    ensures ParseTimeString(IsoDateTime(year, month, day, hour, minute, second, fraction, sign, offset))
      == Ok([DigitsValue(year), DigitsValue(month), DigitsValue(day), 0,
             DigitsValue(hour), DigitsValue(minute), DigitsValue(second), 0])
  {
    var localTime := hour + ":" + minute + ":" + (second + "." + fraction);
    var date := year + "-" + month + "-" + day;
    WellFormedDate(year, month, day);
    LocalTimeHasNoSign(hour, minute, second, fraction);
    ParseReachesLocal(date, localTime, sign, offset);
    ParseIntDigits(year);
    ParseIntDigits(month);
    ParseIntDigits(day);
    ParseIntDigits(hour);
    ParseIntDigits(minute);
    ParseIntDigits(second);
    ParseIntDigits(fraction);
    DigitsHaveNoSeparator(hour);
    DigitsHaveNoSeparator(minute);
    DigitsHaveNoSeparator(second);
    DigitsHaveNoSeparator(fraction);
    ParseLocalValues(year, month, day, hour, minute, second, fraction,
      DigitsValue(year), DigitsValue(month), DigitsValue(day),
      DigitsValue(hour), DigitsValue(minute), DigitsValue(second));
  }

  /** A date of three digit runs cuts into them at `-`, and holds no `T`. */
  lemma WellFormedDate(year: string, month: string, day: string)
    requires IsDigits(year) && IsDigits(month) && IsDigits(day)
    ensures Split(year + "-" + month + "-" + day, DateSep) == [year, month, day]
    ensures NoneOf(year + "-" + month + "-" + day, DateTimeSep)
  {
    SplitThree(year, '-', month, '-', day, DateSep);
  }

  /** A local time of four digit runs holds no `T`, `+` or `-`. */
  lemma LocalTimeHasNoSign(hour: string, minute: string, second: string, fraction: string)
    requires IsDigits(hour) && IsDigits(minute) && IsDigits(second) && IsDigits(fraction)
    ensures NoneOf(hour + ":" + minute + ":" + (second + "." + fraction), DateTimeSep + ZoneSep)
  {
    var t := hour + ":" + minute + ":" + (second + "." + fraction);
    forall i | 0 <= i < |t| ensures t[i] !in DateTimeSep + ZoneSep {
      if i < |hour| {
        assert t[i] == hour[i];
      } else if i == |hour| {
      } else if i < |hour| + 1 + |minute| {
        assert t[i] == minute[i - |hour| - 1];
      } else if i == |hour| + 1 + |minute| {
      } else if i < |hour| + 2 + |minute| + |second| {
        assert t[i] == second[i - |hour| - 2 - |minute|];
      } else if i == |hour| + 2 + |minute| + |second| {
      } else {
        assert t[i] == fraction[i - |hour| - 3 - |minute| - |second|];
      }
    }
  }

  /** A run of digits holds none of the separators of the local time. */
  lemma DigitsHaveNoSeparator(s: string)
    requires IsDigits(s)
    ensures NoneOf(s, TimeSep) && NoneOf(s, TimeSep + FractionSep)
  {
    forall i | 0 <= i < |s| ensures s[i] !in TimeSep + FractionSep {
      assert IsDigit(s[i]);
    }
  }

  // ---------------------------------------------------------------------
  // The replies of the world-time service, worked through

  /** A reply without a UTC offset, `Y-M-DTh:m:s`, is refused at the offset split. */
  lemma ParseRejectsMissingOffset(
    year: string, month: string, day: string, hour: string, minute: string, second: string)
    requires IsDigits(year) && IsDigits(month) && IsDigits(day)
    requires IsDigits(hour) && IsDigits(minute) && IsDigits(second)
    ensures ParseTimeString((year + "-" + month + "-" + day) + "T" + (hour + ":" + minute + ":" + second))
      == Err(WrongFieldCount(TimeAndZone, 2, 1))
  {
    var date := year + "-" + month + "-" + day;
    var localTime := hour + ":" + minute + ":" + second;
    SplitThree(year, '-', month, '-', day, DateSep);
    assert NoneOf(date, DateTimeSep) && NoneOf(localTime, DateTimeSep);
    assert NoneOf(localTime, ZoneSep);
    CountOfZero(localTime, ZoneSep);
    ParseRejectsOffsetSigns(date, localTime);
  }

  /** A reply without `T`, such as a bare date, is refused at the first unpacking. */
  lemma ParseRejectsMissingT(s: string)
    requires NoneOf(s, DateTimeSep)
    ensures ParseTimeString(s) == Err(WrongFieldCount(DateAndTime, 2, 1))
  {
    CountOfZero(s, DateTimeSep);
  }

  /** The year of the documented reply, read digit by digit. */
  lemma ExampleYear()
    ensures IsDigits("2020") && DigitsValue("2020") == 2020
  {
    TwoDigits('2', '0');
    DigitsValueAppend("20", '2');
    DigitsValueAppend("202", '0');
    assert "20" == ['2', '0'] && "202" == "20" + ['2'] && "2020" == "202" + ['0'];
  }

  /** The month and day of the documented reply. */
  lemma ExampleMonthDay()
    ensures IsDigits("07") && DigitsValue("07") == 7
    ensures IsDigits("04") && DigitsValue("04") == 4
  {
    TwoDigits('0', '7');
    TwoDigits('0', '4');
    assert "07" == ['0', '7'] && "04" == ['0', '4'];
  }

  /** The hour, minute and second of the documented reply. */
  lemma ExampleTimeFields()
    ensures IsDigits("02") && DigitsValue("02") == 2
    ensures IsDigits("01") && DigitsValue("01") == 1
    ensures IsDigits("46") && DigitsValue("46") == 46
  {
    TwoDigits('0', '2');
    TwoDigits('0', '1');
    TwoDigits('4', '6');
    assert "02" == ['0', '2'] && "01" == ['0', '1'] && "46" == ['4', '6'];
  }

  /** The documented reply `2020-07-04T02:01:46.283707-04:00` gives `(2020, 7, 4, 0, 2, 1, 46, 0)`. */
  lemma ParseExample()
    ensures ParseTimeString("2020-07-04T02:01:46.283707-04:00") == Ok([2020, 7, 4, 0, 2, 1, 46, 0])
  {
    var reply := IsoDateTime("2020", "07", "04", "02", "01", "46", "283707", '-', "04:00");
    assert "2020-07-04T02:01:46.283707-04:00" == reply;
    ExampleYear();
    ExampleMonthDay();
    ExampleTimeFields();
    assert IsDigits("283707");
    assert NoneOf("04:00", DateTimeSep + ZoneSep);
    ParseWellFormed("2020", "07", "04", "02", "01", "46", "283707", '-', "04:00");
  }

  /** A date alone, `2020-07-04`, is refused at the first unpacking. */
  lemma ParseExampleNoTime()
    ensures ParseTimeString("2020-07-04") == Err(WrongFieldCount(DateAndTime, 2, 1))
  {
    assert "2020-07-04" == "2020" + "-" + "07" + "-" + "04";
    ParseRejectsMissingT("2020-07-04");
  }

  /** `2020-07-04T02:01:46`, without a UTC offset, is refused at the offset split. */
  lemma ParseExampleNoOffset()
    ensures ParseTimeString("2020-07-04T02:01:46") == Err(WrongFieldCount(TimeAndZone, 2, 1))
  {
    assert "2020-07-04T02:01:46" == ("2020" + "-" + "07" + "-" + "04") + "T" + ("02" + ":" + "01" + ":" + "46");
    ParseRejectsMissingOffset("2020", "07", "04", "02", "01", "46");
  }
}
