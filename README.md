# ESP32 network clock, modelled in Dafny

The firmware (`clock.py`, MicroPython on an ESP32 with a 128x32 SSD1306
screen) does four things:

- It asks a world-time web service for the local time in the selected
  timezone.
- It reads the reply's ISO 8601 `datetime` string into the 8-tuple the
  real-time clock takes, `(year, month, day, weekday, hour, minute, second,
  subsecond)`, and sets the clock.
- Once a second, it formats the clock's tuple as `D/M/Y` and `H:M:S` and
  draws four lines on the screen: the city, the date, the time and the
  free memory.
- A button press advances the timezone through a fixed list, wrapping round
  after the last one.

This project models the logic of that loop:

- the parser (`parse_time_string`), in `time_parser.dfy`;
- the timezone selection (`switch_timezone` and `fetch_current_timezone`
  over `SUPPORTED_TIMEZONES` and `CURRENT_TIMEZONE_IDX`), in `timezone.dfy`;
- the formatting and drawing (`format_rtc_time`, `prep_display_data` and
  `print_data`), in `display.dfy`.

It also proves what the firmware relies on. `strings.dfy` models the Python
string operations the code uses:

- `str.split`;
- the regex split on `[+-]`;
- `int()`;
- `"{}".format` of an integer;
- the one-character `ure.sub`.

`wrappers.dfy` holds the `Option` and `Result` types. A Python exception is
an `Err` value.

Modelling choices:

- The RTC tuple is a `seq<int>`, so the slicing on clock.py:72 is written
  as it is.
- A mutable global becomes the field of a class:
  - `CURRENT_TIMEZONE_IDX` is `Timezone.TimezoneSelection.index`.
  - The screen is `Display.Screen`. It records the calls made on the
    driver (`fill`, `text`, `show`) as a sequence, so that `print_data` is
    a method with a loop whose effect is stated against the function
    `PrintTrace`.

Facts about clock.py that the model keeps:

- **Field mapping.** The parsed tuple is `(Y, M, D, 0, h, m, s, 0)`
  (clock.py:71-72), and `format_rtc_time` reads the seconds back from
  index 6 (clock.py:84). The comment at clock.py:80 gives the layout
  `(year, month, mday, hour, minute, second, weekday, yearday)`; the code
  does not follow it, and the model follows the code. The reply documented
  at clock.py:64 parses to `(2020, 7, 4, 0, 2, 1, 46, 0)`.
- **No range check.** Parsed fields are never range-checked or clamped. A
  month of `13` parses to 13.
- **Only `datetime` is read.** The parser reads the `datetime` string of
  the reply and nothing else (clock.py:62). `UNIX_EPOCH_DIFF` (clock.py:15)
  is declared but never used.

## Model

| member | source | states |
|---|---|---|
| Strings.Split | clock.py:65-70 | cutting at every separator gives one more piece than there are separators, empty pieces kept |
| Strings.SplitPiecesHaveNoSeparator | clock.py:65-70 | no piece of a split holds a separator |
| Strings.SplitJoin | clock.py:65-70 | splitting pieces joined with a separator none of them holds gives the pieces back |
| Strings.JoinSplit | clock.py:65-70 | joining the pieces of a split with the separator gives the original string back |
| Strings.ParseIntDigits | clock.py:71 | `int()` of a run of decimal digits is its value, leading zeros allowed |
| Strings.ParseIntNeedsDigit | clock.py:71 | `int()` refuses a text without a digit (empty, blank, a bare sign) |
| Strings.ParseIntWithoutMinus | clock.py:71 | `int()` of a text without `-` is never negative |
| Strings.NatToString | clock.py:83-84 | `"{}"` of a natural is a digit string whose value is the number, with no leading zero, and zero is the single digit `0` |
| Strings.IntToStringRoundTrip | clock.py:83-84 | `int()` reads back any integer `"{}"` formats, negative ones included |
| Strings.Replace | clock.py:90 | the substitution keeps the length and changes exactly the target characters into the replacement |
| TimeParser.IntField | clock.py:71 | one `int()` call succeeds exactly when the text is an integer, then returns its value, and otherwise raises for that text |
| TimeParser.ParseTimeResponse | clock.py:60-62 | a reply without `datetime` raises the missing-key error; otherwise only that string is parsed |
| TimeParser.ParseTimeString | clock.py:60-72 | a successful parse is an 8-tuple with weekday and subsecond 0; a string without exactly one `T` raises the unpacking error with the number of pieces found |
| TimeParser.ParseLocal | clock.py:69-72 | a successful parse of the local time completes an 8-tuple with index 3 and index 7 zero |
| TimeParser.ParsedFieldsNonNegative | clock.py:65-71 | no field of a successful parse is negative |
| TimeParser.LocalTimeSplits | clock.py:69-70 | `h:m:s.f` cuts into hour, minute and seconds text, and the seconds text into seconds and fraction |
| TimeParser.ParseLocalValues | clock.py:69-72 | when the seven numeric texts are integers, the tuple is year, month, day, 0, hour, minute, second, 0 and the microseconds are dropped |
| TimeParser.ParseReachesLocal | clock.py:65-68 | after the cut at `T` and at the offset sign, only the date and the local time reach the rest of the parser |
| TimeParser.ParseIgnoresOffset | clock.py:65-68 | two replies that differ only in the offset's sign or text parse to the same result |
| TimeParser.ParseRejectsDateDashes | clock.py:66 | a date without exactly two `-` raises the date unpacking error |
| TimeParser.ParseRejectsOffsetSigns | clock.py:67-68 | a time part without exactly one `+` or `-` raises the offset unpacking error |
| TimeParser.ParseRejectsTimeColons | clock.py:69 | a local time without exactly two `:` raises the time unpacking error |
| TimeParser.ParseRejectsSecondsDots | clock.py:70 | a seconds field without exactly one `.` raises the seconds unpacking error |
| TimeParser.ParseLocalNeedsIntegers | clock.py:71 | with the separators right, the parse succeeds exactly when all seven numeric texts are integers |
| TimeParser.ParseRejectsBadFraction | clock.py:71 | microseconds that are not a number raise, although they are discarded |
| TimeParser.ParseWellFormed | clock.py:63-72 | a well-formed `Y-M-DTh:m:s.f±offset` parses to the digits' values at indices 0-2 and 4-6 and zeros at 3 and 7, with no range check |
| TimeParser.ParseRejectsMissingOffset | clock.py:67-68 | a well-formed reply without a UTC offset raises the offset unpacking error |
| TimeParser.ParseRejectsMissingT | clock.py:65 | a text without `T` raises the first unpacking error with one piece found |
| TimeParser.ExampleYear | clock.py:64 | the year of the documented reply reads as 2020 |
| TimeParser.ExampleMonthDay | clock.py:64 | the month and day of the documented reply read as 7 and 4, leading zeros dropped |
| TimeParser.ExampleTimeFields | clock.py:64 | the time fields of the documented reply read as 2, 1 and 46 |
| TimeParser.ParseExample | clock.py:64 | `2020-07-04T02:01:46.283707-04:00` parses to `(2020, 7, 4, 0, 2, 1, 46, 0)` |
| TimeParser.ParseExampleNoTime | clock.py:65 | `2020-07-04` raises at the first unpacking |
| TimeParser.ParseExampleNoOffset | clock.py:67-68 | `2020-07-04T02:01:46` raises at the offset split |
| Timezone.NewYorkSplits | clock.py:18 | `America/New_York` cuts at `/` into region and city |
| Timezone.KolkataSplits | clock.py:18 | `Asia/Kolkata` cuts at `/` into region and city |
| Timezone.RomeSplits | clock.py:18 | `Europe/Rome` cuts at `/` into region and city |
| Timezone.SupportedTimezonesHaveCity | clock.py:18 | every supported zone has exactly one `/`, so a city segment |
| Timezone.NextIndex | clock.py:39-42 | one switch keeps the index in the list, goes up by one short of the last entry, and goes back to 0 from the last entry or beyond |
| Timezone.AdvanceByAdds | clock.py:36-42 | `a` switches and then `b` more are `a + b` switches |
| Timezone.AdvanceByForward | clock.py:42 | short of the end of the list, `k` switches move the index `k` places forward |
| Timezone.WrapsToFirst | clock.py:39-40 | the switch that passes the last zone lands on the first |
| Timezone.FullCycle | clock.py:36-42 | switching once per listed zone returns to the starting index |
| Timezone.TimezoneSelection.constructor | clock.py:19 | the selection starts at index 0 |
| Timezone.TimezoneSelection.Switch | clock.py:36-42 | the new index is the next index after the old one, and it stays valid |
| Timezone.TimezoneSelection.Current | clock.py:44-46 | the current zone is a supported zone, with a city segment |
| Display.FormatRtcTime | clock.py:78-85 | the date and time texts are at least `d/m/y` and `h:m:s` long |
| Display.ReadBackThree | clock.py:83-84 | three integers joined by `/` or `:` cut back into three texts that read as those integers |
| Display.FormatRtcTimeReadsBack | clock.py:81-84 | the date shows day, month and year, and the time shows hour, minute and second, of the tuple, in that order |
| Display.YearShown | clock.py:83 | the year 2020 is formatted as `2020` |
| Display.FormatExample | clock.py:83-84 | the parsed documented reply is shown as `4/7/2020` and `2:1:46` |
| Display.ShowsParsedTime | clock.py:72-84 | a well-formed reply, once parsed and formatted, shows its own day, month, year, hour, minute and second without leading zeros |
| Display.PrepDisplayData | clock.py:87-94 | there are four lines, and the first has the length of the zone's city segment and holds no `_` or `/` |
| Display.PrepDisplayDataLines | clock.py:89-94 | for `region/city`, line 1 is the city with `_` made a space; lines 2-4 are `date: `, `time: ` and `memory: ` followed by the value, and the memory reads back |
| Display.PrepDisplayDataExample | clock.py:90 | `America/New_York` is shown as `New York` above the date, time and memory lines |
| Display.TextCallsPlaceEachDatum | clock.py:99-102 | datum `i` is drawn at `(1, 1 + 8 * i)`, one call per datum, in list order |
| Display.PrintTraceOrder | clock.py:96-103 | one clear first, then one text call per datum at `(1, 1 + 8 * i)`, then one show last, and nothing else |
| Display.Screen.Fill | clock.py:98 | the clear is recorded after the earlier calls |
| Display.Screen.Text | clock.py:101 | the text call is recorded after the earlier calls |
| Display.Screen.Show | clock.py:103 | the flush is recorded after the earlier calls |
| Display.PrintData | clock.py:96-103 | the screen receives exactly the calls `PrintTrace` lists, after whatever it had received before |

## Left out

- Hardware set-up (`init_display`, `init_network`, `initialize_input`, clock.py:23-51) is left out. It is I2C, SSD1306, WLAN and GPIO drivers.
- `world_time_api` (clock.py:55-58) is left out. It is an HTTP request and JSON decode. The parser takes the decoded reply as a map from keys to strings, so a `datetime` value that is not a string is not modelled.
- `set_rtc_time` and the `RTC().datetime()` read (clock.py:74-76, 81) are hardware. `format_rtc_time` takes the tuple as a parameter instead.
- `gc.mem_free()` (clock.py:93) is a runtime call. Its result is the `memFree` parameter.
- `ure` is not modelled as a regular-expression engine. The split on `[+-]` (clock.py:67-68) and the substitution of `_` (clock.py:90) are written as character functions.
- `initialize_clock` and `start_clock` (clock.py:105-133) are left out. They are a busy-wait for the network, sleeps and an unbounded restart loop around foreign calls. Their only decision, a low button pin calling `switch_timezone`, is `TimezoneSelection.Switch`.
- Strings.ParseInt: Python's `int()` also accepts `_` between digits and non-ASCII decimal digits. The model accepts only ASCII whitespace around an optional sign and ASCII digits.
- Display.FormatRtcTime requires an 8-tuple, which is what the RTC always reports. An index error on a shorter tuple is not modelled.
- Display.PrepDisplayData requires a zone with a `/`. The code indexes the second segment unchecked, and every supported zone has one (`SupportedTimezonesHaveCity`).
- The drawing model records the calls made on the screen, not the pixels: font rendering and clipping at the screen's edge are not modelled.
