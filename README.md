# obix.Abstime in Dafny

The oBIX toolkit uses `obix.Abstime` for absolute time values. An Abstime holds an instant: a Java `long` that counts milliseconds since 1 January 1970 UTC. It views that instant through a `TimeZone`, and it caches the civil fields of that view (year, month, day, hour, minute, second, millisecond, weekday and daylight flag) in two packed 32-bit words.

This project models:

- the civil-date arithmetic of the class:
  - the leap-year rule with its 1582 cut-over;
  - month and year lengths and the month check;
  - the day, month and year steppers;
  - the weekday searches;
- the instant as a Dafny class, with its fields, the lazily filled bit cache, `set`, `setTz` and the facets;
- ordering, equality, hashing and the millisecond algebra, using Java's 64-bit wrap-around;
- the text encoder and the hand-written decoder of the `YYYY-MM-DDThh:mm:ss.mmm(Z|±hh:mm)` value form. This is the lexical form of the XML Schema `dateTime` type (section 3.2.7 of XML Schema Part 2).

The project has these modules:

| module | file | contents |
|---|---|---|
| `Wrappers` | `Wrappers.dfy` | `Option`, `Result`, `Outcome` (success, or an error message where the Java throws) |
| `JavaNum` | `JavaNum.dfy` | Java `int`/`long`, their wrap-around, truncating `/` and `%`, and the `long` hash fold over `bv64` |
| `CivilCalendar` | `CivilCalendar.dfy` | leap years, month lengths, the steppers as functions on a civil record, and a day number that serves as the reference for the steppers; the weekday searches as loops |
| `FieldBits` | `FieldBits.dfy` | how `millisToFields` packs the fields into `bits0`/`bits1`, and how the getters unpack them |
| `TextCodec` | `TextCodec.dfy` | the encoder's text as a function, written out by appending methods; the decoder as a positional specification and as the cursor loop that implements it |
| `Obix` | `Abstime.dfy` | class `Abstime`, and the zone services it borrows from the JDK |

The JDK's `GregorianCalendar` and `TimeZone` turn an instant into civil fields and back. The model does not include them. Instead they are the four functions of a `ZoneRules` value that each instance holds:

- `decompose`: an instant in a zone, to its fields;
- `compose`: civil fields in a zone, to an instant;
- `dstOffset`: the total offset in daylight time;
- `zones`: the zone of each id the JDK knows. `GetTimeZone` returns that zone, or GMT for any other id, as `TimeZone.getTimeZone` does.

The weekday searches start from the weekday the calendar reports for the instant (`getWeekday`). The Java then asks the calendar again after every day step. The model asks only once and takes as given that the weekday advances by one, modulo 7, from each day to the next: `k` days after a day with weekday `w`, the weekday is `(w + k) mod 7`.

## Model

| member | source | states |
|---|---|---|
| JavaNum.Wrap32 | src/main/java/obix/Abstime.java:335-338 | the narrowing to `int` agrees with the exact value modulo 2^32 and is the identity on values in `int` range |
| JavaNum.Wrap64 | src/main/java/obix/Abstime.java:376-388 | `long` arithmetic agrees with the exact value modulo 2^64 and is exact when there is no overflow |
| JavaNum.TruncDiv | src/main/java/obix/Abstime.java:732 | Java's `/` rounds toward zero: the remainder takes the dividend's sign and is smaller than the divisor |
| JavaNum.TruncRem | src/main/java/obix/Abstime.java:733 | Java's `%` is the dividend minus divisor times the truncated quotient, and takes the dividend's sign |
| JavaNum.Abs | src/main/java/obix/Abstime.java:732-733 | `Math.abs` gives the value or its negation, never negative |
| JavaNum.Wrap64AddSub | src/main/java/obix/Abstime.java:376-388 | adding `d` to a long and then subtracting `d` restores it, even across overflow |
| JavaNum.Wrap64SubAdd | src/main/java/obix/Abstime.java:376-388 | subtracting `d` and then adding `d` restores it, even across overflow |
| JavaNum.Wrap64AddDifference | src/main/java/obix/Abstime.java:397-400 | adding the wrapped difference `b - a` to `a` gives `b` |
| JavaNum.LongHash | src/main/java/obix/Abstime.java:335-338 | `(int)(x ^ (x >> 32))` with an arithmetic shift is the XOR of the low and high 32-bit halves of `x` |
| CivilCalendar.CheckMonth | src/main/java/obix/Abstime.java:946-950 | fails with "Month must be 1 to 12" exactly when the month is outside 1..12, and otherwise returns the month |
| CivilCalendar.MonthLength | src/main/java/obix/Abstime.java:629-636 | every month of every year has 28 to 31 days |
| CivilCalendar.DaysInMonth | src/main/java/obix/Abstime.java:629-636 | fails exactly for months outside 1..12; February has 29 days exactly in leap years, 28 otherwise; other months take the table value; always 28..31 |
| CivilCalendar.DaysInYear | src/main/java/obix/Abstime.java:642-645 | a year has 365 or 366 days |
| CivilCalendar.LeapYearPeriods | src/main/java/obix/Abstime.java:611-623 | a leap year is a multiple of 4; from 1582 on the rule repeats every 400 years and a century year is leap exactly when it is a multiple of 400; before 1582 it repeats every 4 years |
| CivilCalendar.LeapYearSamples | src/main/java/obix/Abstime.java:611-623 | the Gregorian rule from 1582 (2000 and 1600 are leap years, 1900 and 1583 are not) and the Julian rule before it (1500 and 1300 are leap years) |
| CivilCalendar.MonthLengthCases | src/main/java/obix/Abstime.java:1030-1031 | February follows the leap rule; April, June, September and November have 30 days; the other seven months have 31 |
| CivilCalendar.YearIsTwelveMonths | src/main/java/obix/Abstime.java:629-645 | the twelve month lengths add up to `getDaysInYear`, and December has 31 days |
| CivilCalendar.DayNumberInjective | src/main/java/obix/Abstime.java:629-645 | two valid dates with the same day number are the same date, so the day number is a faithful reference for the steppers |
| CivilCalendar.NextDay | src/main/java/obix/Abstime.java:414-438 | the date `nextDay` builds keeps the month in range and the time of day unchanged |
| CivilCalendar.PrevDay | src/main/java/obix/Abstime.java:443-467 | the date `prevDay` builds keeps the month in range and the time of day unchanged |
| CivilCalendar.NextDayAdvances | src/main/java/obix/Abstime.java:414-438 | `nextDay` moves exactly one day forward, including across month and year ends, and a valid date stays valid |
| CivilCalendar.PrevDayRetreats | src/main/java/obix/Abstime.java:443-467 | `prevDay` moves exactly one day back, including across month and year starts, and a valid date stays valid |
| CivilCalendar.PrevDayUndoesNextDay | src/main/java/obix/Abstime.java:414-467 | `prevDay(nextDay(d)) == d` for every valid date |
| CivilCalendar.NextDayUndoesPrevDay | src/main/java/obix/Abstime.java:414-467 | `nextDay(prevDay(d)) == d` for every valid date |
| CivilCalendar.NextMonth | src/main/java/obix/Abstime.java:477-506 | the date `nextMonth` builds keeps the month in range and the time of day unchanged |
| CivilCalendar.PrevMonth | src/main/java/obix/Abstime.java:516-545 | the date `prevMonth` builds keeps the month in range and the time of day unchanged |
| CivilCalendar.NextMonthSteps | src/main/java/obix/Abstime.java:477-506 | the result is valid and one month later: from December, January of the next year with the same day; from a month's last day, the next month's last day; otherwise the same day capped at the next month's length |
| CivilCalendar.PrevMonthSteps | src/main/java/obix/Abstime.java:516-545 | the mirror image: from January, December of the year before with the same day; from a month's last day, the previous month's last day; otherwise the same day capped |
| CivilCalendar.MonthEndCarrySamples | src/main/java/obix/Abstime.java:477-506 | 31 January moves to 28 February in a common year and to 29 February in a leap year; 28 February 2023 moves to 31 March |
| CivilCalendar.NextYear | src/main/java/obix/Abstime.java:551-556 | `nextYear` keeps the month and the time of day |
| CivilCalendar.PrevYear | src/main/java/obix/Abstime.java:562-567 | `prevYear` keeps the month and the time of day |
| CivilCalendar.NextYearSteps | src/main/java/obix/Abstime.java:551-556 | the year goes up by one and the result is valid; the day is kept, except that 29 February becomes 28 February |
| CivilCalendar.PrevYearSteps | src/main/java/obix/Abstime.java:562-567 | the year goes down by one and the result is valid; the day is kept, except that 29 February becomes 28 February |
| CivilCalendar.YearStepsUndo | src/main/java/obix/Abstime.java:551-567 | away from 29 February, `prevYear` and `nextYear` undo each other |
| CivilCalendar.WeekdayAfter | src/main/java/obix/Abstime.java:574-593 | the weekday `k` days after a day with weekday `w` is in 0..6, and it is `w` again exactly when `k` is a multiple of 7 |
| CivilCalendar.WeekdayStep | src/main/java/obix/Abstime.java:574-593 | one more day step advances that weekday by one modulo 7, and one fewer takes it back by one |
| CivilCalendar.ForwardDaysCount | src/main/java/obix/Abstime.java:574-580 | `n` forward day steps move exactly `n` days, and a valid date stays valid |
| CivilCalendar.BackwardDaysCount | src/main/java/obix/Abstime.java:587-593 | `n` backward day steps move exactly `n` days, and a valid date stays valid |
| CivilCalendar.DaysToNextWeekday | src/main/java/obix/Abstime.java:574-580 | from a day with weekday `w`, the forward search takes 1 to 7 steps, exactly 7 when `w` is the weekday sought, and lands on that weekday |
| CivilCalendar.DaysToPrevWeekday | src/main/java/obix/Abstime.java:587-593 | from a day with weekday `w`, the backward search takes 1 to 7 steps, exactly 7 when `w` is the weekday sought, and lands on that weekday |
| CivilCalendar.NextWeekdayIsFirst | src/main/java/obix/Abstime.java:574-580 | within the search range, a step count lands on the weekday exactly when it is the search's own count, so the search stops at the first such day |
| CivilCalendar.PrevWeekdayIsFirst | src/main/java/obix/Abstime.java:587-593 | the same for the backward search |
| CivilCalendar.NextWeekday | src/main/java/obix/Abstime.java:574-580 | starting from the day's own weekday, the loop makes exactly the search's count of `nextDay` steps, so it ends on the first later day with the weekday |
| CivilCalendar.PrevWeekday | src/main/java/obix/Abstime.java:587-593 | starting from the day's own weekday, the loop makes exactly the search's count of `prevDay` steps, so it ends on the last earlier day with the weekday |
| CivilCalendar.TimeOfDayParts | src/main/java/obix/Abstime.java:218-224 | for fields in their ranges, the time of day is under a day long and `/` and `%` by an hour, a minute and a second read the fields back out of it |
| CivilCalendar.TimeOfDayMillisDetermines | src/main/java/obix/Abstime.java:218-224 | milliseconds into the day lie in 0..86 399 999, and equal counts mean equal hour, minute, second and millisecond |
| FieldBits.Bits0 | src/main/java/obix/Abstime.java:986-992 | the packed `bits0` word: the year in the high 16 bits and the millisecond in the low 16; `UnpackBits0` and `OrFields0` state what it holds |
| FieldBits.Bits1 | src/main/java/obix/Abstime.java:994-1020 | the packed `bits1` word of month, day, hour, minute, second, weekday and daylight bit; `UnpackBits1` and `OrFields1` state what it holds |
| FieldBits.UnpackBits0 | src/main/java/obix/Abstime.java:144-148 | the getter reads back the year's low 16 bits and the millisecond that `millisToFields` wrote into `bits0` |
| FieldBits.UnpackBits1 | src/main/java/obix/Abstime.java:153-211 | for fields in their documented ranges, each getter reads back exactly the month, day, hour, minute, second, weekday and daylight flag written into `bits1` |
| FieldBits.YearWraps | src/main/java/obix/Abstime.java:986-988 | years up to 65535 read back exactly; later years keep only their low 16 bits (year 67506 reads as 1970) |
| FieldBits.SentinelBits0 | src/main/java/obix/Abstime.java:146 | a filled `bits0` is zero exactly when the year's low 16 bits and the millisecond are both zero, so it is nonzero for years 1 to 65535 |
| FieldBits.Bits1NonZero | src/main/java/obix/Abstime.java:994-996 | a filled `bits1` is never zero, because the month is at least 1 |
| FieldBits.OrFields0 | src/main/java/obix/Abstime.java:986-992 | ORing the year and millisecond pieces into an empty `bits0` gives the packed word |
| FieldBits.OrFields1 | src/main/java/obix/Abstime.java:994-1020 | ORing the field pieces and the daylight bit into `bits1` gives the packed word, whether `bits1` was empty or already held that word |
| TextCodec.DigitChar | src/main/java/obix/Abstime.java:694-747 | a decimal digit prints as a digit character |
| TextCodec.DigitValueOfDigitChar | src/main/java/obix/Abstime.java:771-831 | `c - '0'` on a printed digit gives the digit back |
| TextCodec.DecimalText | src/main/java/obix/Abstime.java:698 | `append(int)` of a non-negative value writes one or more digits: one exactly below 10, at most two exactly below 100, at most three below 1000, at most four below 10000 |
| TextCodec.DecimalRoundTrip | src/main/java/obix/Abstime.java:698 | reading the digits of a printed non-negative value left to right gives the value |
| TextCodec.SignedDecimalRoundTrip | src/main/java/obix/Abstime.java:854-857 | a printed long, minus sign included, reads back as its value |
| TextCodec.JavaLiteral | src/main/java/obix/Abstime.java:854-857 | the literal ends in `L` and starts with `-` exactly for a negative instant |
| TextCodec.JavaLiteralRoundTrip | src/main/java/obix/Abstime.java:854-857 | the literal ends in `L`, and the numeral before it reads back as the instant |
| TextCodec.Pad2 | src/main/java/obix/Abstime.java:701-718 | a two-digit field is all digits, at least two of them, and exactly two when the value is at most 99 |
| TextCodec.Pad3 | src/main/java/obix/Abstime.java:720-723 | the millisecond field is all digits, at least three of them, and exactly three when the value is at most 999 |
| TextCodec.StampText | src/main/java/obix/Abstime.java:694-724 | the date and time text is at least 20 characters long; for a four-digit year and in-range fields it is 23 characters with the separators where the decoder checks them and the fraction point at index 19 |
| TextCodec.AppendPad2 | src/main/java/obix/Abstime.java:701-718 | appends a `'0'` before values below 10, then the value |
| TextCodec.AppendPad3 | src/main/java/obix/Abstime.java:720-723 | appends `'0'`s before values below 100 and below 10, then the value |
| TextCodec.WriteStamp | src/main/java/obix/Abstime.java:694-724 | the appends produce year, `-`, month, `-`, day, `T`, hour, `:`, minute, `:`, second, `.`, millisecond, with two-digit and three-digit padding and an unpadded year |
| TextCodec.AppendZone | src/main/java/obix/Abstime.java:726-744 | appends the zone suffix: `Z` for offset 0, else the sign and two-digit \|hours\| and \|minutes\| from truncating `/` and `%` |
| TextCodec.ZoneText | src/main/java/obix/Abstime.java:726-744 | the suffix is `Z` exactly when the offset is zero; otherwise it starts with `-` for negative offsets and `+` for positive ones, and ends in `:` and two minute digits |
| TextCodec.DateTimeText | src/main/java/obix/Abstime.java:694-747 | the encoded text is at least 21 characters long and ends in `Z` exactly when the offset is zero |
| TextCodec.Pad2Reads | src/main/java/obix/Abstime.java:701-718 | a padded field below 100 is two digits that read back as the value |
| TextCodec.Pad3Reads | src/main/java/obix/Abstime.java:720-723 | a padded millisecond below 1000 is three digits that read back as the value |
| TextCodec.YearReads | src/main/java/obix/Abstime.java:698 | a year in 1000..9999 prints as four digits that read back as the year |
| TextCodec.DigitRun | src/main/java/obix/Abstime.java:809-810 | the fraction's digit run lies within the text, is all digits, and is followed by a non-digit or the end |
| TextCodec.ZoneRoundTrip | src/main/java/obix/Abstime.java:726-744 | for \|offset\| under 100 hours, the decoder reads the encoder's suffix as the offset truncated toward zero to whole minutes |
| TextCodec.WholeMinuteOffset | src/main/java/obix/Abstime.java:732-733 | truncation to whole minutes leaves an offset that is a whole number of minutes unchanged |
| TextCodec.ZoneOffset | src/main/java/obix/Abstime.java:813-835 | `Z` reads as offset 0; any other character than `Z`, `+` or `-` is rejected, as is a lone sign; an accepted signed offset has its hours followed by `:` whenever anything follows them, and `:` is followed by two minute characters |
| TextCodec.ParseDateTime | src/main/java/obix/Abstime.java:765-849 | the decoder accepts exactly when the separators are in place, a zone character follows the seconds or the fraction, and that suffix is a valid offset; after the seconds there is always a fraction point or a zone character |
| TextCodec.DateTimeRoundTrip | src/main/java/obix/Abstime.java:694-849 | for years 1000..9999, two-digit fields, milliseconds below 1000 and \|offset\| under 100 hours, decoding the encoded text recovers every field and the offset truncated to whole minutes |
| TextCodec.ParseRejectSamples | src/main/java/obix/Abstime.java:776-845 | a wrong separator, a missing zone, a fraction that runs to the end, and a zone character other than `Z`, `+` or `-` each make the decoder throw |
| TextCodec.ZoneOffsetSample | src/main/java/obix/Abstime.java:813-832 | `-05:30` is −19 800 000 ms; a single hour digit with nothing after it, as in `+5`, is accepted |
| TextCodec.ParseFractionSample | src/main/java/obix/Abstime.java:801-811 | fraction digits after the third are skipped, and the offset after them is read |
| TextCodec.ParseTrailingTextSample | src/main/java/obix/Abstime.java:813-832 | text after a `Z` suffix is ignored |
| TextCodec.ParseShortZoneSample | src/main/java/obix/Abstime.java:821-835 | an offset of one hour digit at the end of the text is read as whole hours |
| TextCodec.ParseLetterSample | src/main/java/obix/Abstime.java:771-774 | characters are not checked to be digits: the letter O counts as 31, so `2O24` reads as year 5124 |
| TextCodec.ScanFraction | src/main/java/obix/Abstime.java:801-811 | the fraction loop finds the zone's start and the millisecond value, and fails exactly when the fraction runs to the end of the text |
| TextCodec.ScanZone | src/main/java/obix/Abstime.java:813-832 | the zone scanner gives the offset or the failure the positional specification gives |
| TextCodec.Scan | src/main/java/obix/Abstime.java:765-832 | the index scanner gives exactly the fields, or the failure, of the positional specification |
| Obix.LocalTimeOf | src/main/java/obix/Abstime.java:144-202 | the getters read a non-negative year, a month in 1..12, a day in 1..31, and hour, minute, second and millisecond in range |
| Obix.GetTimeZone | src/main/java/obix/Abstime.java:915 | `TimeZone.getTimeZone` gives the zone of a known id and GMT for any other id, never null |
| Obix.OffsetOf | src/main/java/obix/Abstime.java:254-261 | the offset `getTimeZoneOffset` reports; `Obix.Abstime.GetTimeZoneOffset` states it |
| Obix.EncodedText | src/main/java/obix/Abstime.java:694-747 | the text `encodeVal` writes; `Obix.Abstime.EncodeVal` and `Obix.EncodeDecodeRoundTrip` state it |
| Obix.DecodedMillis | src/main/java/obix/Abstime.java:763-849 | the instant `decodeVal` stores; `Obix.Abstime.DecodeVal` and `Obix.EncodeDecodeRoundTrip` state it |
| Obix.EncodeDecodeRoundTrip | src/main/java/obix/Abstime.java:694-849 | for years 1000..9999 and whole-minute offsets under 100 hours, decoding the text that `encodeVal` writes gives back the instant, given that the calendar composes its own fields back into the instant |
| Obix.CompareMirrors | src/main/java/obix/Abstime.java:307-329 | `compareTo` is antisymmetric, and `a.isBefore(b)` holds exactly when `b.isAfter(a)` does |
| Obix.EqualInstantsAgree | src/main/java/obix/Abstime.java:307-348 | values equal by `valEquals` compare as 0 and hash alike, whatever their zones |
| Obix.Abstime.constructor | src/main/java/obix/Abstime.java:49-52 | the instance holds the instant and zone, the cache is empty, and `tz` is the zone's id |
| Obix.Abstime.WithZone | src/main/java/obix/Abstime.java:57-60 | the copy keeps the instant in the new zone, with an empty cache |
| Obix.Abstime.FromCivil | src/main/java/obix/Abstime.java:73-76 | fails with the month message exactly when the month is outside 1..12; otherwise a new instance holds the calendar's instant for those fields in the zone |
| Obix.Abstime.Set | src/main/java/obix/Abstime.java:662-669 | `set` stores the instant and zone, clears both cache words, and sets `tz` to the zone's id |
| Obix.Abstime.MillisToFields | src/main/java/obix/Abstime.java:979-1021 | afterwards both cache words hold the packed fields of the current instant and zone |
| Obix.Abstime.Fill | src/main/java/obix/Abstime.java:146 | the sentinel test leaves the cache filled, whether or not it was filled before |
| Obix.Abstime.GetYear | src/main/java/obix/Abstime.java:144-148 | the cache is filled, and the year is the calendar's year of the instant in its zone, to 16 bits |
| Obix.Abstime.GetMonth | src/main/java/obix/Abstime.java:153-157 | the cache is filled, and the month is the calendar's month (1..12) |
| Obix.Abstime.GetDay | src/main/java/obix/Abstime.java:162-166 | the cache is filled, and the day is the calendar's day of the month |
| Obix.Abstime.GetHour | src/main/java/obix/Abstime.java:171-175 | the cache is filled, and the hour is the calendar's hour of the day |
| Obix.Abstime.GetMinute | src/main/java/obix/Abstime.java:180-184 | the cache is filled, and the minute is the calendar's minute |
| Obix.Abstime.GetSecond | src/main/java/obix/Abstime.java:189-193 | the cache is filled, and the second is the calendar's second |
| Obix.Abstime.GetMillisecond | src/main/java/obix/Abstime.java:198-202 | the cache is filled, and the millisecond is the calendar's millisecond |
| Obix.Abstime.GetWeekday | src/main/java/obix/Abstime.java:207-211 | the cache is filled, and the weekday is the calendar's, in 0..6 |
| Obix.Abstime.InDaylightTime | src/main/java/obix/Abstime.java:267-271 | the cache is filled, and the result is the calendar's daylight flag |
| Obix.Abstime.GetTimeZoneOffset | src/main/java/obix/Abstime.java:254-261 | the offset is the zone's standard offset outside daylight time and the calendar's total offset inside it |
| Obix.Abstime.ReadLocalTime | src/main/java/obix/Abstime.java:414-418 | the getters the steppers call give the civil view of the instant |
| Obix.Abstime.GetTimeOfDayMillis | src/main/java/obix/Abstime.java:218-224 | milliseconds since local midnight, from the cached fields, in 0..86 399 999 |
| Obix.Abstime.InZone | src/main/java/obix/Abstime.java:277-294 | `toLocalTime`/`toUtcTime` return the receiver when the zone already matches, and otherwise a new copy of the instant in the target zone |
| Obix.Abstime.SetTz | src/main/java/obix/Abstime.java:908-931 | null changes nothing; any other id replaces `tz` and the zone, which is GMT for an id the JDK does not know; the instant is kept; the cache is kept when the zone is equal and cleared when it differs |
| Obix.UnknownIdBecomesGmt | src/main/java/obix/Abstime.java:908-931 | `setTz` with an unknown id does not take the warning path: the instance moves to GMT, keeps the unknown id as `tz` and keeps its instant |
| Obix.Abstime.SetTzChecked | src/main/java/obix/Abstime.java:908-931 | `setTz` as its warning path intends: null or an unknown id changes nothing; a known id behaves as in `SetTz` |
| Obix.Abstime.SetMin | src/main/java/obix/Abstime.java:874-877 | stores the min facet |
| Obix.Abstime.SetMax | src/main/java/obix/Abstime.java:890-893 | stores the max facet |
| Obix.Abstime.CompareTo | src/main/java/obix/Abstime.java:307-313 | −1, 0 or 1 exactly as this instant is earlier than, equal to or later than the other; the zones play no part |
| Obix.Abstime.IsBefore | src/main/java/obix/Abstime.java:318-321 | true exactly when this instant is earlier than `x` |
| Obix.Abstime.IsAfter | src/main/java/obix/Abstime.java:326-329 | true exactly when this instant is later than `x` |
| Obix.Abstime.HashCode | src/main/java/obix/Abstime.java:335-338 | the low and high 32-bit halves of the instant XORed together, from the instant alone |
| Obix.Abstime.ValEquals | src/main/java/obix/Abstime.java:343-348 | true exactly when the other value is an Abstime with the same instant, whatever the zones |
| Obix.Abstime.DateEquals | src/main/java/obix/Abstime.java:353-358 | true exactly when year, month and day agree, each in its own instance's zone |
| Obix.Abstime.TimeEquals | src/main/java/obix/Abstime.java:363-366 | true exactly when hour, minute, second and millisecond agree, each in its own zone |
| Obix.Abstime.Add | src/main/java/obix/Abstime.java:376-379 | a new instance in the same zone at the instant moved forward with `long` wrap-around; subtracting the amount restores the instant |
| Obix.Abstime.Subtract | src/main/java/obix/Abstime.java:385-388 | a new instance in the same zone at the instant moved back with `long` wrap-around; adding the amount restores the instant |
| Obix.Abstime.Delta | src/main/java/obix/Abstime.java:397-400 | adding the delta to this instant gives `t2`; without overflow it is positive exactly when `t2` is later and negative exactly when `t2` is earlier |
| Obix.Abstime.Millis2000 | src/main/java/obix/Abstime.java:135-139 | adding the 1970-to-2000 offset back gives the instant; without overflow it is the instant minus 946 684 800 000 |
| Obix.Abstime.TimeOfDay | src/main/java/obix/Abstime.java:406-409 | a new instance in the same zone, at the calendar's instant for this date at the given time of day |
| Obix.Abstime.NextDay | src/main/java/obix/Abstime.java:414-438 | a new instance in the same zone, at the calendar's instant for the date `nextDay` computes |
| Obix.Abstime.PrevDay | src/main/java/obix/Abstime.java:443-467 | a new instance in the same zone, at the calendar's instant for the date `prevDay` computes |
| Obix.Abstime.NextMonth | src/main/java/obix/Abstime.java:477-506 | a new instance in the same zone, at the calendar's instant for the date `nextMonth` computes |
| Obix.Abstime.PrevMonth | src/main/java/obix/Abstime.java:516-545 | a new instance in the same zone, at the calendar's instant for the date `prevMonth` computes |
| Obix.Abstime.NextYear | src/main/java/obix/Abstime.java:551-556 | a new instance in the same zone, at the calendar's instant for the date `nextYear` computes |
| Obix.Abstime.PrevYear | src/main/java/obix/Abstime.java:562-567 | a new instance in the same zone, at the calendar's instant for the date `prevYear` computes |
| Obix.Abstime.NextWeekday | src/main/java/obix/Abstime.java:574-580 | a new instance in the same zone at the calendar's instant for the day 1 to 7 days on whose weekday, counted from the instant's own `getWeekday`, is the one sought; a week on when today already has it |
| Obix.Abstime.PrevWeekday | src/main/java/obix/Abstime.java:587-593 | a new instance in the same zone at the calendar's instant for the day 1 to 7 days back whose weekday, counted from the instant's own `getWeekday`, is the one sought; a week back when today already has it |
| Obix.Abstime.IsLeapDay | src/main/java/obix/Abstime.java:602-605 | true exactly on 29 February |
| Obix.Abstime.EncodeJava | src/main/java/obix/Abstime.java:854-857 | the literal ends in `L`, and its numeral reads back as the instant |
| Obix.Abstime.EncodeVal | src/main/java/obix/Abstime.java:694-747 | the text is the padded civil fields of the instant in its zone, then the zone suffix of the current offset |
| Obix.Abstime.DecodeVal | src/main/java/obix/Abstime.java:763-849 | fails with "Invalid abstime: " + the text, changing nothing, exactly when the scanner rejects it; otherwise stores the calendar's instant for the scanned fields at the scanned offset and keeps the receiver's own zone |
| Obix.Abstime.Parse | src/main/java/obix/Abstime.java:752-758 | a new instance in the default zone holding the decoded instant, or the decoder's failure message |

## Left out

- The JDK calendar and zones (`GregorianCalendar`, `TimeZone`, `SimpleTimeZone`, `Date`) are not modelled. Conversions between instants and fields, the daylight test and the daylight offset are the functions of `ZoneRules`. So the model proves nothing about which instant a civil date denotes, or about the calendar's lenient normalisation of out-of-range fields.
- Obix.EncodeDecodeRoundTrip: the round trip assumes that the calendar composes the fields it reports back into the same instant, at the offset in force. The JDK calendar is not part of this model, so this cannot be proved here.
- CivilCalendar.WeekdayAfter: the weekday searches read the calendar's weekday once, at the start, and count on from it. The Java reads `getWeekday` again after every step. The two agree when the calendar's weekday advances by one modulo 7 from each day to the next, which the model assumes.
- Obix.Abstime.NextWeekday and Obix.Abstime.PrevWeekday require a weekday in 0..6. For any other value the Java loops forever.
- Obix.Abstime.NextWeekday and Obix.Abstime.PrevWeekday apply the day steps to the civil record and compose the instant once at the end. The Java composes and decomposes an intermediate instant at every step, and that agrees only when the calendar reports back the fields it was given.
- Null time zones and null arguments are not modelled. `set` with a null zone keeps the old `tz` in the Java, and other paths raise a NullPointerException.
- Zone equality (`TimeZone.equals`) is value equality of the zone's id and standard offset.
- `Reltime` is not modelled: `add`, `subtract` and `delta` take and return its millisecond count as a `long`.
- The overloaded constructors are not modelled separately. Those with the default zone or zero fields are `constructor`/`FromCivil` with the zone and the fields passed in.
- The process-wide `defaultTimeZone` and `utcTimeZone` are not modelled, because they are read from the running JVM. They are parameters: `InZone` covers `toLocalTime` and `toUtcTime`, and `Parse` takes the default zone.
- `format()` is not modelled. It depends on `SimpleDateFormat`.
- The members inherited from `Val` (names, `isNull`) are not modelled.
- `getElement` and `getBinCode` are not modelled. `BinObix.ABSTIME` is not part of this model.
- The plain field reads are not modelled as separate members: `getMillis`, `get`, `getTimeZone`, `getTz`, `getMin` and `getMax` are the class's fields.
- Obix.Abstime.SetTz: the null test on the result of `getTimeZone`, and the message it prints, are not modelled. `getTimeZone` never returns null, so that path is never taken (see Findings).
- TextCodec.ParseDateTime, TextCodec.Scan and Obix.Abstime.DecodeVal index a Dafny string, which is a sequence of Unicode scalar values. Java's `toCharArray` gives UTF-16 code units. Text with characters outside the Basic Multilingual Plane, or with lone surrogates, is therefore indexed differently; for such text the model does not state what the Java decoder does.
- Obix.Abstime.MillisToFields: the Java ORs each field into the word as a separate statement. The model ORs all of a word's pieces in one expression, which gives the same bits.
- src/main/java/obix/asm/AttributeInfo.java is not modelled. It is class-file assembler tooling over a constant pool and a buffer that are not part of this model.

The code differs from the `dateTime` lexical form of XML Schema in the first, second, third and fifth items below, and from its own javadoc in the fourth. The model follows the code:

- The decoder does not check that digits are digits. It checks the separators, the zone sign and the length.
- Text after the zone suffix is ignored.
- The decoded value keeps the receiver's zone, and the parsed offset affects only the instant.
- The javadoc of `isBefore` ("the specified time is before this time") reverses what the code tests: `isBefore(x)` is true when this instant is earlier than `x`.
- The year is written unpadded, so text round trips hold only for years 1000 to 9999.

## Findings

| source | as written | input that shows it | evidently intended | confidence | as-written member | corrected member |
|---|---|---|---|---|---|---|
| src/main/java/obix/Abstime.java:908-931 | `setTz` tests the zone from `getTimeZone` for null and, on null, warns and changes nothing; `getTimeZone` never returns null and gives GMT for an unknown id | `setTz("No/Such_Zone")` on an instance in a non-GMT zone: the instance moves to GMT, its cache is cleared, and `tz` becomes `No/Such_Zone` | an id without a zone is reported and ignored | not executed | Obix.UnknownIdBecomesGmt | Obix.Abstime.SetTzChecked |
