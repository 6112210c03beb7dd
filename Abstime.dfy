// obix.Abstime: an absolute instant (milliseconds since 1 January 1970 UTC)
// seen through a time zone, with the civil fields of that view cached in two
// packed 32-bit words.
//
// The JDK's GregorianCalendar and TimeZone, which turn an instant into civil
// fields and back, are not part of this model: they enter as the functions of
// a `ZoneRules` value that every instant carries.

module Obix {
  import opened Wrappers
  import opened JavaNum
  import opened FieldBits
  import opened TextCodec
  import Cal = CivilCalendar

  /**
   * A time zone. Java compares zones with `equals`, which here is value
   * equality: the zone's id and its standard offset from UTC in milliseconds.
   */
  datatype Zone = Zone(id: string, rawOffset: Int32)

  /**
   * The calendar services the Java code borrows from the JDK:
   *  - decompose: the calendar fields of an instant in a zone, daylight flag included;
   *  - compose: the instant of a civil date and time in a zone (lenient: fields
   *    out of range roll over into the next larger field);
   *  - dstOffset: ZONE_OFFSET + DST_OFFSET of an instant in a zone;
   *  - zones: the zone for each id the JDK understands, None for any other id.
   */
  datatype ZoneRules = ZoneRules(decompose: (Int64, Zone) -> CalendarFields,
                                 compose: (Cal.Civil, Zone) -> Int64,
                                 dstOffset: (Int64, Zone) -> Int32,
                                 zones: string -> Option<Zone>)

  /** The zone the JDK falls back to for an id it does not understand. */
  const GMT: Zone := Zone("GMT", 0)

  /**
   * `TimeZone.getTimeZone(id)`: the zone of a known id, and GMT for any
   * other. It never returns null.
   */
  function GetTimeZone(rules: ZoneRules, id: string): (z: Zone)
    ensures rules.zones(id).Some? ==> z == rules.zones(id).value
    ensures rules.zones(id).None? ==> z == GMT
  {
    match rules.zones(id)
    case Some(zone) => zone
    case None => GMT
  }

  /** Milliseconds from the Java epoch (1970) to the oBIX epoch (1 January 2000 UTC). */
  const JAVA_2000: Int64 := 946_684_800_000

  /** The `SimpleTimeZone(offset, "Offset")` the decoder builds from a parsed offset. */
  function OffsetZone(offset: Int32): Zone
  {
    Zone("Offset", offset)
  }

  /** The civil view the getters give of cached fields: the year as its low 16 bits. */
  function LocalTimeOf(f: CalendarFields): (c: Cal.Civil)
    ensures 0 <= c.year && 1 <= c.month <= 12 && 1 <= c.day <= 31
    ensures 0 <= c.hour <= 23 && 0 <= c.minute <= 59 && 0 <= c.second <= 59 && 0 <= c.millisecond <= 999
  {
    Cal.Civil((f.year & 0xFFFF) as int, f.month as int, f.day as int, f.hour as int,
              f.minute as int, f.second as int, f.millisecond as int)
  }

  /** `getTimeZoneOffset`: the standard offset, or the calendar's total offset in daylight time. */
  function OffsetOf(rules: ZoneRules, millis: Int64, zone: Zone): Int32
  {
    if rules.decompose(millis, zone).daylight then rules.dstOffset(millis, zone) else zone.rawOffset
  }

  /** The text `encodeVal` produces for an instant in a zone. */
  function EncodedText(rules: ZoneRules, millis: Int64, zone: Zone): string
  {
    var c := LocalTimeOf(rules.decompose(millis, zone));
    DateTimeText(c.year, c.month, c.day, c.hour, c.minute, c.second, c.millisecond, OffsetOf(rules, millis, zone))
  }

  /**
   * The instant `decodeVal` stores for a text, or None where it throws: the
   * scanned fields composed in a fixed-offset zone of the scanned offset.
   */
  function DecodedMillis(rules: ZoneRules, val: string): Option<Int64>
  {
    match ParseDateTime(val)
    case None => None
    case Some(p) =>
      Some(rules.compose(Cal.Civil(p.year, p.month, p.day, p.hour, p.minute, p.second, p.millisecond),
                         OffsetZone(p.offset)))
  }

  /** The message of the exception `decodeVal` throws. */
  function InvalidMessage(val: string): string
  {
    "Invalid abstime: " + val
  }

  /**
   * Decoding the text `encodeVal` writes gives back the instant, for years
   * 1000 to 9999 and whole-minute offsets under 100 hours, provided the
   * calendar composes the wall-clock fields it reported, at the offset in
   * force, back into the same instant.
   */
  lemma EncodeDecodeRoundTrip(rules: ZoneRules, millis: Int64, zone: Zone)
    requires 1000 <= LocalTimeOf(rules.decompose(millis, zone)).year <= 9999
    requires OffsetOf(rules, millis, zone) % 60_000 == 0
    requires -360_000_000 < OffsetOf(rules, millis, zone) < 360_000_000
    requires rules.compose(LocalTimeOf(rules.decompose(millis, zone)), OffsetZone(OffsetOf(rules, millis, zone))) == millis
    ensures DecodedMillis(rules, EncodedText(rules, millis, zone)) == Some(millis)
  {
    var c := LocalTimeOf(rules.decompose(millis, zone));
    var offset := OffsetOf(rules, millis, zone);
    DateTimeRoundTrip(c.year, c.month, c.day, c.hour, c.minute, c.second, c.millisecond, offset);
    WholeMinuteOffset(offset);
  }

  /** Ordering is antisymmetric, and `isBefore` and `isAfter` are mirror images. */
  lemma CompareMirrors(a: Abstime, b: Abstime)
    ensures a.CompareTo(b) == -b.CompareTo(a)
    ensures a.IsBefore(b) <==> b.IsAfter(a)
  {
  }

  /** Instances equal by `valEquals` compare as equal and hash alike, whatever their zones. */
  lemma EqualInstantsAgree(a: Abstime, b: Abstime)
    requires a.ValEquals(b)
    ensures a.CompareTo(b) == 0 && a.HashCode() == b.HashCode()
  {
  }

  /**
   * `setTz` with an id the JDK does not understand does not take the warning
   * path: the instance silently moves to GMT and keeps the unknown id as its
   * `tz` facet.
   */
  method UnknownIdBecomesGmt(t: Abstime, id: string)
    requires t.Valid() && t.rules.zones(id).None?
    modifies t`timeZone, t`bits0, t`bits1, t`tz
    ensures t.timeZone == GMT && t.tz == id && t.millis == old(t.millis)
    ensures old(t.timeZone) != GMT ==> t.bits0 == 0 && t.bits1 == 0
  {
    t.SetTz(Some(id));
  }

  class Abstime {
    const rules: ZoneRules
    var millis: Int64
    var timeZone: Zone
    var bits0: bv32
    var bits1: bv32
    var tz: string
    var min: Abstime?
    var max: Abstime?

    /** The calendar fields of this instant in its zone. */
    function Fields(): CalendarFields
      reads this`millis, this`timeZone
    {
      rules.decompose(millis, timeZone)
    }

    function LocalTime(): Cal.Civil
      reads this`millis, this`timeZone
    {
      LocalTimeOf(Fields())
    }

    function CurrentOffset(): Int32
      reads this`millis, this`timeZone
    {
      OffsetOf(rules, millis, timeZone)
    }

    /** The cache holds the packed fields of the current instant and zone. */
    predicate Filled()
      reads this`millis, this`timeZone, this`bits0, this`bits1
    {
      bits0 == Bits0(Fields()) && bits1 == Bits1(Fields())
    }

    /** The cache is either empty (both words zero) or filled. */
    predicate Valid()
      reads this`millis, this`timeZone, this`bits0, this`bits1
    {
      (bits0 == 0 && bits1 == 0) || Filled()
    }

    // -------------------------------------------------------------------------
    // Construction and assignment
    // -------------------------------------------------------------------------

    /** `Abstime(long millis, TimeZone timeZone)`, through `set`. */
    constructor (rules: ZoneRules, millis: Int64, timeZone: Zone)
      ensures this.rules == rules && this.millis == millis && this.timeZone == timeZone
      ensures bits0 == 0 && bits1 == 0 && tz == timeZone.id && min == null && max == null
      ensures Valid()
    {
      this.rules := rules;
      this.millis := millis;
      this.timeZone := timeZone;
      this.bits0 := 0;
      this.bits1 := 0;
      this.tz := timeZone.id;
      this.min := null;
      this.max := null;
    }

    /** `Abstime(Abstime t, TimeZone timeZone)`: the same instant in another zone. */
    constructor WithZone(t: Abstime, timeZone: Zone)
      ensures rules == t.rules && millis == t.millis && this.timeZone == timeZone
      ensures bits0 == 0 && bits1 == 0 && tz == timeZone.id && min == null && max == null
      ensures Valid()
    {
      this.rules := t.rules;
      this.millis := t.millis;
      this.timeZone := timeZone;
      this.bits0 := 0;
      this.bits1 := 0;
      this.tz := timeZone.id;
      this.min := null;
      this.max := null;
    }

    /**
     * `Abstime(year, month, day, hour, min, sec, millis, timeZone)` and its
     * shorter overloads (missing fields are zero): `toMillis` checks the
     * month, then the calendar composes the instant.
     */
    static method FromCivil(rules: ZoneRules, c: Cal.Civil, timeZone: Zone) returns (r: Result<Abstime, string>)
      ensures r.Failure? <==> !(1 <= c.month <= 12)
      ensures r.Failure? ==> r.error == Cal.MonthRangeMessage
      ensures r.Success? ==> fresh(r.value) && r.value.rules == rules && r.value.timeZone == timeZone
      ensures r.Success? ==> r.value.millis == rules.compose(c, timeZone) && r.value.Valid()
    {
      var checked := Cal.CheckMonth(c.month);
      if checked.Failure? {
        return Failure(checked.error);
      }
      var t := new Abstime(rules, rules.compose(c, timeZone), timeZone);
      return Success(t);
    }

    /** `set`: a new instant and zone, an empty cache, and the zone's id as the `tz` facet. */
    method Set(millis: Int64, timeZone: Zone)
      modifies this`millis, this`timeZone, this`bits0, this`bits1, this`tz
      ensures this.millis == millis && this.timeZone == timeZone
      ensures bits0 == 0 && bits1 == 0 && tz == timeZone.id
      ensures Valid()
    {
      this.millis := millis;
      this.timeZone := timeZone;
      bits1 := 0;
      bits0 := bits1;
      tz := timeZone.id;
    }

    // -------------------------------------------------------------------------
    // The field cache
    // -------------------------------------------------------------------------

    /** `millisToFields`: ORs each field, shifted into place, into the cache words. */
    method MillisToFields()
      requires Valid() && bits0 == 0
      modifies this`bits0, this`bits1
      ensures Filled()
    {
      var f := Fields();
      bits0 := OrFields0(bits0, f);
      bits1 := OrFields1(bits1, f);
    }

    /** The sentinel test every getter makes before reading the cache. */
    method Fill()
      requires Valid()
      modifies this`bits0, this`bits1
      ensures Filled()
    {
      if bits0 == 0 {
        MillisToFields();
      }
    }

    method GetYear() returns (year: int)
      requires Valid()
      modifies this`bits0, this`bits1
      ensures Filled() && year == LocalTime().year
    {
      Fill();
      UnpackBits0(Fields());
      year := YearOf(bits0) as int;
    }

    method GetMonth() returns (month: int)
      requires Valid()
      modifies this`bits0, this`bits1
      ensures Filled() && month == LocalTime().month
    {
      Fill();
      UnpackBits1(Fields());
      month := MonthOf(bits1) as int;
    }

    method GetDay() returns (day: int)
      requires Valid()
      modifies this`bits0, this`bits1
      ensures Filled() && day == LocalTime().day
    {
      Fill();
      UnpackBits1(Fields());
      day := DayOf(bits1) as int;
    }

    method GetHour() returns (hour: int)
      requires Valid()
      modifies this`bits0, this`bits1
      ensures Filled() && hour == LocalTime().hour
    {
      Fill();
      UnpackBits1(Fields());
      hour := HourOf(bits1) as int;
    }

    method GetMinute() returns (minute: int)
      requires Valid()
      modifies this`bits0, this`bits1
      ensures Filled() && minute == LocalTime().minute
    {
      Fill();
      UnpackBits1(Fields());
      minute := MinuteOf(bits1) as int;
    }

    method GetSecond() returns (second: int)
      requires Valid()
      modifies this`bits0, this`bits1
      ensures Filled() && second == LocalTime().second
    {
      Fill();
      UnpackBits1(Fields());
      second := SecondOf(bits1) as int;
    }

    method GetMillisecond() returns (millisecond: int)
      requires Valid()
      modifies this`bits0, this`bits1
      ensures Filled() && millisecond == LocalTime().millisecond
    {
      Fill();
      UnpackBits0(Fields());
      millisecond := MillisecondOf(bits0) as int;
    }

    /** The weekday the calendar reports, Sunday as 0. */
    method GetWeekday() returns (weekday: int)
      requires Valid()
      modifies this`bits0, this`bits1
      ensures Filled() && weekday == Fields().weekday as int && 0 <= weekday <= 6
    {
      Fill();
      UnpackBits1(Fields());
      weekday := WeekdayOf(bits1) as int;
    }

    method InDaylightTime() returns (b: bool)
      requires Valid()
      modifies this`bits0, this`bits1
      ensures Filled() && b == Fields().daylight
    {
      Fill();
      UnpackBits1(Fields());
      b := DaylightOf(bits1);
    }

    /** `getTimeZoneOffset`: the standard offset outside daylight time, the calendar's total offset in it. */
    method GetTimeZoneOffset() returns (offset: Int32)
      requires Valid()
      modifies this`bits0, this`bits1
      ensures Filled() && offset == CurrentOffset()
      ensures !Fields().daylight ==> offset == timeZone.rawOffset
    {
      var daylight := InDaylightTime();
      if !daylight {
        return timeZone.rawOffset;
      }
      offset := rules.dstOffset(millis, timeZone);
    }

    /** The seven getters the steppers call, gathered into the civil record they build. */
    method ReadLocalTime() returns (d: Cal.Civil)
      requires Valid()
      modifies this`bits0, this`bits1
      ensures Filled() && d == LocalTime()
    {
      var year := GetYear();
      var month := GetMonth();
      var day := GetDay();
      var hour := GetHour();
      var minute := GetMinute();
      var second := GetSecond();
      var millisecond := GetMillisecond();
      d := Cal.Civil(year, month, day, hour, minute, second, millisecond);
    }

    /** `getTimeOfDayMillis`: milliseconds since local midnight. */
    method GetTimeOfDayMillis() returns (r: int)
      requires Valid()
      modifies this`bits0, this`bits1
      ensures Filled()
      ensures r == Cal.TimeOfDayMillis(LocalTime().hour, LocalTime().minute, LocalTime().second, LocalTime().millisecond)
      ensures 0 <= r < 86_400_000
    {
      var hour := GetHour();
      var minute := GetMinute();
      var second := GetSecond();
      var millisecond := GetMillisecond();
      Cal.TimeOfDayMillisDetermines(hour, minute, second, millisecond, hour, minute, second, millisecond);
      r := hour * 60 * 60 * 1000 + minute * 60 * 1000 + second * 1000 + millisecond;
    }

    // -------------------------------------------------------------------------
    // Zones
    // -------------------------------------------------------------------------

    /**
     * `toLocalTime` and `toUtcTime`, with the target zone as a parameter:
     * this instance when it is already in that zone, otherwise a copy of the
     * instant in it.
     */
    method InZone(zone: Zone) returns (t: Abstime)
      requires Valid()
      ensures t.millis == millis && t.timeZone == zone && t.rules == rules && t.Valid()
      ensures timeZone == zone ==> t == this
      ensures timeZone != zone ==> fresh(t)
    {
      if timeZone == zone {
        return this;
      }
      t := new Abstime.WithZone(this, zone);
    }

    /**
     * `setTz`: nothing happens without a name; otherwise the facet and the
     * zone are replaced, and the cache is emptied only if the zone changes.
     * The instant is never touched. The Java tests the zone it gets for null
     * and then warns and returns, but `getTimeZone` never gives null: an id
     * it does not understand yields GMT, so that test is never taken and is
     * left out here.
     */
    method SetTz(name: Option<string>)
      requires Valid()
      modifies this`timeZone, this`bits0, this`bits1, this`tz
      ensures Valid()
      ensures name.None? ==>
                timeZone == old(timeZone) && tz == old(tz) && bits0 == old(bits0) && bits1 == old(bits1)
      ensures name.Some? ==> timeZone == GetTimeZone(rules, name.value) && tz == name.value
      ensures name.Some? && GetTimeZone(rules, name.value) == old(timeZone) ==>
                bits0 == old(bits0) && bits1 == old(bits1)
      ensures name.Some? && GetTimeZone(rules, name.value) != old(timeZone) ==> bits0 == 0 && bits1 == 0
    {
      if name.None? {
        return;
      }
      var newTz := GetTimeZone(rules, name.value);
      if newTz != timeZone {
        bits1 := 0;
        bits0 := bits1;
      }
      tz := name.value;
      timeZone := newTz;
    }

    /**
     * `setTz` as its warning path intends it: an id with no zone is reported
     * and ignored, so it changes nothing; a known id behaves as in `SetTz`.
     */
    method SetTzChecked(name: Option<string>)
      requires Valid()
      modifies this`timeZone, this`bits0, this`bits1, this`tz
      ensures Valid()
      ensures name.None? || rules.zones(name.value).None? ==>
                timeZone == old(timeZone) && tz == old(tz) && bits0 == old(bits0) && bits1 == old(bits1)
      ensures name.Some? && rules.zones(name.value).Some? ==>
                timeZone == rules.zones(name.value).value && tz == name.value
      ensures name.Some? && rules.zones(name.value) == Some(old(timeZone)) ==>
                bits0 == old(bits0) && bits1 == old(bits1)
      ensures name.Some? && rules.zones(name.value).Some? && rules.zones(name.value) != Some(old(timeZone)) ==>
                bits0 == 0 && bits1 == 0
    {
      if name.None? || rules.zones(name.value).None? {
        return;
      }
      SetTz(name);
    }

    /** `setMin`: the min facet. */
    method SetMin(min: Abstime?)
      modifies this`min
      ensures this.min == min
    {
      this.min := min;
    }

    /** `setMax`: the max facet. */
    method SetMax(max: Abstime?)
      modifies this`max
      ensures this.max == max
    {
      this.max := max;
    }

    // -------------------------------------------------------------------------
    // Comparison, equality and hashing: the instant only, never the zone
    // -------------------------------------------------------------------------

    /** `compareTo`: -1, 0 or 1 as this instant is earlier than, equal to or later than the other. */
    function CompareTo(that: Abstime): (r: int)
      reads this`millis, that`millis
      ensures r == -1 || r == 0 || r == 1
      ensures r < 0 <==> millis < that.millis
      ensures r == 0 <==> millis == that.millis
      ensures r > 0 <==> millis > that.millis
    {
      if millis < that.millis then -1
      else if millis == that.millis then 0
      else 1
    }

    /** `isBefore`: true when this instant is earlier than `x`. */
    function IsBefore(x: Abstime): (b: bool)
      reads this`millis, x`millis
      ensures b <==> millis < x.millis
    {
      CompareTo(x) < 0
    }

    /** `isAfter`: true when this instant is later than `x`. */
    function IsAfter(x: Abstime): (b: bool)
      reads this`millis, x`millis
      ensures b <==> millis > x.millis
    {
      CompareTo(x) > 0
    }

    /** `hashCode`: the two 32-bit halves of the instant XORed together. */
    function HashCode(): (h: Int32)
      reads this`millis
      ensures h == Wrap32(((LongBits(millis) & 0xFFFF_FFFF) ^ (LongBits(millis) >> 32)) as int)
    {
      LongHash(millis)
    }

    /** `valEquals`: the same instant, whatever the zones; null stands for a value of another type. */
    function ValEquals(that: Abstime?): (b: bool)
      reads this, that
      ensures b <==> that != null && that.millis == millis
    {
      if that != null then that.millis == millis else false
    }

    /** `dateEquals`: the same year, month and day, each in its own instance's zone. */
    method DateEquals(that: Abstime) returns (b: bool)
      requires Valid() && that.Valid()
      modifies this`bits0, this`bits1, that`bits0, that`bits1
      ensures Valid() && that.Valid()
      ensures b <==> that.LocalTime().year == LocalTime().year && that.LocalTime().month == LocalTime().month
                     && that.LocalTime().day == LocalTime().day
    {
      var y1 := that.GetYear();
      var y2 := GetYear();
      if y1 != y2 {
        return false;
      }
      var m1 := that.GetMonth();
      var m2 := GetMonth();
      if m1 != m2 {
        return false;
      }
      var d1 := that.GetDay();
      var d2 := GetDay();
      b := d1 == d2;
    }

    /** `timeEquals`: the same time of day, which means the same hour, minute, second and millisecond. */
    method TimeEquals(that: Abstime) returns (b: bool)
      requires Valid() && that.Valid()
      modifies this`bits0, this`bits1, that`bits0, that`bits1
      ensures Valid() && that.Valid()
      ensures b <==> that.LocalTime().hour == LocalTime().hour && that.LocalTime().minute == LocalTime().minute
                     && that.LocalTime().second == LocalTime().second
                     && that.LocalTime().millisecond == LocalTime().millisecond
    {
      ghost var a := that.LocalTime();
      ghost var c := LocalTime();
      Cal.TimeOfDayMillisDetermines(a.hour, a.minute, a.second, a.millisecond, c.hour, c.minute, c.second, c.millisecond);
      var t1 := that.GetTimeOfDayMillis();
      var t2 := GetTimeOfDayMillis();
      b := t1 == t2;
    }

    // -------------------------------------------------------------------------
    // Algebra. A relative time (obix.Reltime) is its millisecond count.
    // -------------------------------------------------------------------------

    /** `add`: the instant moved by `rel` milliseconds (long arithmetic), in the same zone. */
    method Add(rel: Int64) returns (t: Abstime)
      ensures fresh(t) && t.rules == rules && t.timeZone == timeZone && t.Valid()
      ensures t.millis == Wrap64(millis + rel)
      ensures Wrap64(t.millis - rel) == millis
    {
      Wrap64AddSub(millis, rel);
      t := new Abstime(rules, Wrap64(millis + rel), timeZone);
    }

    /** `subtract`: the instant moved back by `rel` milliseconds, in the same zone. */
    method Subtract(rel: Int64) returns (t: Abstime)
      ensures fresh(t) && t.rules == rules && t.timeZone == timeZone && t.Valid()
      ensures t.millis == Wrap64(millis - rel)
      ensures Wrap64(t.millis + rel) == millis
    {
      Wrap64SubAdd(millis, rel);
      t := new Abstime(rules, Wrap64(millis - rel), timeZone);
    }

    /**
     * `delta`: the milliseconds from this instant to `t2`; adding them to
     * this instant gives `t2`, and without overflow the sign says which one
     * is later.
     */
    function Delta(t2: Abstime): (r: Int64)
      reads this`millis, t2`millis
      ensures Wrap64(millis + r) == t2.millis
      ensures -0x8000_0000_0000_0000 <= t2.millis - millis < 0x8000_0000_0000_0000 ==>
                (r > 0 <==> IsBefore(t2)) && (r < 0 <==> IsAfter(t2)) && (r == 0 <==> CompareTo(t2) == 0)
    {
      Wrap64AddDifference(millis, t2.millis);
      Wrap64(t2.millis - millis)
    }

    /** `getMillis2000`: the instant counted from the oBIX epoch; adding the epoch back restores it. */
    function Millis2000(): (r: Int64)
      reads this`millis
      ensures Wrap64(r + JAVA_2000) == millis
      ensures millis >= -0x8000_0000_0000_0000 + JAVA_2000 ==> r == millis - JAVA_2000
    {
      Wrap64AddSub(millis, -JAVA_2000);
      Wrap64(millis - JAVA_2000)
    }

    // -------------------------------------------------------------------------
    // Steppers. Each reads the civil fields through the getters, moves the
    // date, and builds a new instant in the same zone.
    // -------------------------------------------------------------------------

    /** `timeOfDay`: the same date at another time of day. */
    method TimeOfDay(hour: int, minute: int, second: int, millisecond: int) returns (t: Abstime)
      requires Valid()
      modifies this`bits0, this`bits1
      ensures Filled() && fresh(t) && t.rules == rules && t.timeZone == timeZone && t.Valid()
      ensures t.millis == rules.compose(LocalTime().(hour := hour, minute := minute, second := second,
                                                      millisecond := millisecond), timeZone)
    {
      var year := GetYear();
      var month := GetMonth();
      var day := GetDay();
      var d := Cal.Civil(year, month, day, hour, minute, second, millisecond);
      t := new Abstime(rules, rules.compose(d, timeZone), timeZone);
    }

    method NextDay() returns (t: Abstime)
      requires Valid()
      modifies this`bits0, this`bits1
      ensures Filled() && fresh(t) && t.rules == rules && t.timeZone == timeZone && t.Valid()
      ensures t.millis == rules.compose(Cal.NextDay(LocalTime()), timeZone)
    {
      var d := ReadLocalTime();
      t := new Abstime(rules, rules.compose(Cal.NextDay(d), timeZone), timeZone);
    }

    method PrevDay() returns (t: Abstime)
      requires Valid()
      modifies this`bits0, this`bits1
      ensures Filled() && fresh(t) && t.rules == rules && t.timeZone == timeZone && t.Valid()
      ensures t.millis == rules.compose(Cal.PrevDay(LocalTime()), timeZone)
    {
      var d := ReadLocalTime();
      t := new Abstime(rules, rules.compose(Cal.PrevDay(d), timeZone), timeZone);
    }

    method NextMonth() returns (t: Abstime)
      requires Valid()
      modifies this`bits0, this`bits1
      ensures Filled() && fresh(t) && t.rules == rules && t.timeZone == timeZone && t.Valid()
      ensures t.millis == rules.compose(Cal.NextMonth(LocalTime()), timeZone)
    {
      var d := ReadLocalTime();
      t := new Abstime(rules, rules.compose(Cal.NextMonth(d), timeZone), timeZone);
    }

    method PrevMonth() returns (t: Abstime)
      requires Valid()
      modifies this`bits0, this`bits1
      ensures Filled() && fresh(t) && t.rules == rules && t.timeZone == timeZone && t.Valid()
      ensures t.millis == rules.compose(Cal.PrevMonth(LocalTime()), timeZone)
    {
      var d := ReadLocalTime();
      t := new Abstime(rules, rules.compose(Cal.PrevMonth(d), timeZone), timeZone);
    }

    method NextYear() returns (t: Abstime)
      requires Valid()
      modifies this`bits0, this`bits1
      ensures Filled() && fresh(t) && t.rules == rules && t.timeZone == timeZone && t.Valid()
      ensures t.millis == rules.compose(Cal.NextYear(LocalTime()), timeZone)
    {
      var d := ReadLocalTime();
      t := new Abstime(rules, rules.compose(Cal.NextYear(d), timeZone), timeZone);
    }

    method PrevYear() returns (t: Abstime)
      requires Valid()
      modifies this`bits0, this`bits1
      ensures Filled() && fresh(t) && t.rules == rules && t.timeZone == timeZone && t.Valid()
      ensures t.millis == rules.compose(Cal.PrevYear(LocalTime()), timeZone)
    {
      var d := ReadLocalTime();
      t := new Abstime(rules, rules.compose(Cal.PrevYear(d), timeZone), timeZone);
    }

    /**
     * `nextWeekday`: the first later day with the given weekday, at the same
     * time of day; a week ahead when today has that weekday. The days are
     * counted from today's calendar weekday, one weekday per day.
     */
    method NextWeekday(weekday: int) returns (t: Abstime)
      requires Valid() && 0 <= weekday <= 6
      modifies this`bits0, this`bits1
      ensures Filled() && fresh(t) && t.rules == rules && t.timeZone == timeZone && t.Valid()
      ensures var n := Cal.DaysToNextWeekday(Fields().weekday as int, weekday);
        var target := Cal.ForwardDays(LocalTime(), n);
        && t.millis == rules.compose(target, timeZone)
        && Cal.DayNumber(target) == Cal.DayNumber(LocalTime()) + n
        && Cal.WeekdayAfter(Fields().weekday as int, n) == weekday
    {
      var d := ReadLocalTime();
      var wd0 := GetWeekday();
      var target := Cal.NextWeekday(d, wd0, weekday);
      Cal.ForwardDaysCount(d, Cal.DaysToNextWeekday(wd0, weekday));
      t := new Abstime(rules, rules.compose(target, timeZone), timeZone);
    }

    /** `prevWeekday`: the last earlier day with the given weekday, a week back when today has it. */
    method PrevWeekday(weekday: int) returns (t: Abstime)
      requires Valid() && 0 <= weekday <= 6
      modifies this`bits0, this`bits1
      ensures Filled() && fresh(t) && t.rules == rules && t.timeZone == timeZone && t.Valid()
      ensures var n := Cal.DaysToPrevWeekday(Fields().weekday as int, weekday);
        var target := Cal.BackwardDays(LocalTime(), n);
        && t.millis == rules.compose(target, timeZone)
        && Cal.DayNumber(target) == Cal.DayNumber(LocalTime()) - n
        && Cal.WeekdayAfter(Fields().weekday as int, -(n as int)) == weekday
    {
      var d := ReadLocalTime();
      var wd0 := GetWeekday();
      var target := Cal.PrevWeekday(d, wd0, weekday);
      Cal.BackwardDaysCount(d, Cal.DaysToPrevWeekday(wd0, weekday));
      t := new Abstime(rules, rules.compose(target, timeZone), timeZone);
    }

    /** `isLeapDay`: today is February 29. */
    method IsLeapDay() returns (b: bool)
      requires Valid()
      modifies this`bits0, this`bits1
      ensures Filled() && b == Cal.IsLeapDay(LocalTime())
    {
      var month := GetMonth();
      if month != 2 {
        return false;
      }
      var day := GetDay();
      b := day == 29;
    }

    // -------------------------------------------------------------------------
    // Text
    // -------------------------------------------------------------------------

    /** `encodeJava`: a Java long literal that reads back as the instant. */
    function EncodeJava(): (s: string)
      reads this`millis
      ensures |s| >= 2 && s[|s| - 1] == 'L' && SignedDecimalValue(s[..|s| - 1]) == millis
    {
      JavaLiteralRoundTrip(millis);
      JavaLiteral(millis)
    }

    /**
     * `encodeVal`: the civil fields in this instance's zone, zero-padded
     * except the year, then `Z` or the zone's current offset as a sign,
     * hours and minutes.
     */
    method EncodeVal() returns (s: string)
      requires Valid()
      modifies this`bits0, this`bits1
      ensures Filled() && s == EncodedText(rules, millis, timeZone)
    {
      var d := ReadLocalTime();
      s := WriteStamp(d.year, d.month, d.day, d.hour, d.minute, d.second, d.millisecond);
      var offset := GetTimeZoneOffset();
      s := AppendZone(s, offset);
      assert s == DateTimeText(d.year, d.month, d.day, d.hour, d.minute, d.second, d.millisecond, offset);
    }

    /**
     * `decodeVal`: scans the text and stores the instant it names, keeping
     * this instance's zone; on a malformed text it throws and changes nothing.
     */
    method DecodeVal(val: string) returns (r: Outcome<string>)
      modifies this`millis, this`timeZone, this`bits0, this`bits1, this`tz
      ensures r.Pass? <==> DecodedMillis(rules, val).Some?
      ensures r.Fail? ==> r.error == InvalidMessage(val)
      ensures r.Fail? ==> millis == old(millis) && timeZone == old(timeZone) && tz == old(tz)
                          && bits0 == old(bits0) && bits1 == old(bits1)
      ensures r.Pass? ==> millis == DecodedMillis(rules, val).value && timeZone == old(timeZone)
                          && tz == old(timeZone).id && Valid()
    {
      var scanned := Scan(val);
      if scanned.None? {
        return Fail(InvalidMessage(val));
      }
      var p := scanned.value;
      var instant := rules.compose(Cal.Civil(p.year, p.month, p.day, p.hour, p.minute, p.second, p.millisecond),
                                   OffsetZone(p.offset));
      Set(instant, timeZone);
      return Pass;
    }

    /** `parse`: decodes into a new instance at instant 0 in the default zone. */
    static method Parse(rules: ZoneRules, defaultZone: Zone, val: string) returns (r: Result<Abstime, string>)
      ensures r.Failure? <==> DecodedMillis(rules, val).None?
      ensures r.Failure? ==> r.error == InvalidMessage(val)
      ensures r.Success? ==> fresh(r.value) && r.value.rules == rules && r.value.timeZone == defaultZone
                             && r.value.millis == DecodedMillis(rules, val).value && r.value.Valid()
    {
      var a := new Abstime(rules, 0, defaultZone);
      var outcome := a.DecodeVal(val);
      if outcome.Fail? {
        return Failure(outcome.error);
      }
      return Success(a);
    }
  }
}
