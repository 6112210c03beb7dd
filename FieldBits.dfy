// The two 32-bit words in which obix.Abstime caches the calendar fields of
// its instant, and the shifts and masks its getters use to read them back.
//
//   bits0: year in bits 16-31, millisecond in bits 0-15
//   bits1: daylight flag in bit 29, month 25-28, day 20-24, hour 15-19,
//          minute 9-14, second 3-8, weekday 0-2
//
// Java's `>>` on an int is arithmetic, but every getter masks the shifted
// word down to the field's width, so the logical shift of `bv32` reads the
// same bits.

module FieldBits {

  /**
   * The calendar fields as `millisToFields` receives them from the JDK
   * calendar, one Java int each: the year, the month counted from 1, and the
   * weekday counted from Sunday as 0.
   */
  datatype Fields = Fields(year: bv32, month: bv32, day: bv32,
                           hour: bv32, minute: bv32, second: bv32,
                           millisecond: bv32, weekday: bv32, daylight: bool)

  /** The documented ranges of the fields (the year is positive as a Java int). */
  predicate InRange(f: Fields)
  {
    && 1 <= f.year < 0x8000_0000
    && 1 <= f.month <= 12
    && 1 <= f.day <= 31
    && f.hour <= 23
    && f.minute <= 59
    && f.second <= 59
    && f.millisecond <= 999
    && f.weekday <= 6
  }

  type CalendarFields = f: Fields | InRange(f) witness Fields(1970, 1, 1, 0, 0, 0, 0, 4, false)

  // The pieces `millisToFields` ORs into the words, one per field.

  function YearPiece(x: bv32): bv32 { (x & 0xFFFF) << 16 }
  function MillisecondPiece(x: bv32): bv32 { x & 0xFFFF }
  function MonthPiece(x: bv32): bv32 { (x & 0x0F) << 25 }
  function DayPiece(x: bv32): bv32 { (x & 0x1F) << 20 }
  function HourPiece(x: bv32): bv32 { (x & 0x1F) << 15 }
  function MinutePiece(x: bv32): bv32 { (x & 0x3F) << 9 }
  function SecondPiece(x: bv32): bv32 { (x & 0x3F) << 3 }
  function WeekdayPiece(x: bv32): bv32 { x & 0x07 }
  const DaylightPiece: bv32 := 1 << 29

  /** `bits0` once the cache is filled. */
  function Bits0(f: Fields): bv32
  {
    YearPiece(f.year) | MillisecondPiece(f.millisecond)
  }

  /** `bits1` once the cache is filled. */
  function Bits1(f: Fields): bv32
  {
    MonthPiece(f.month) | DayPiece(f.day) | HourPiece(f.hour) | MinutePiece(f.minute)
    | SecondPiece(f.second) | WeekdayPiece(f.weekday) | (if f.daylight then DaylightPiece else 0)
  }

  // The reads of the getters.

  function YearOf(b0: bv32): bv32 { (b0 >> 16) & 0xFFFF }
  function MillisecondOf(b0: bv32): bv32 { b0 & 0xFFFF }
  function MonthOf(b1: bv32): bv32 { (b1 >> 25) & 0x0F }
  function DayOf(b1: bv32): bv32 { (b1 >> 20) & 0x1F }
  function HourOf(b1: bv32): bv32 { (b1 >> 15) & 0x1F }
  function MinuteOf(b1: bv32): bv32 { (b1 >> 9) & 0x3F }
  function SecondOf(b1: bv32): bv32 { (b1 >> 3) & 0x3F }
  function WeekdayOf(b1: bv32): bv32 { b1 & 0x07 }
  predicate DaylightOf(b1: bv32) { (b1 >> 29) & 0x01 != 0 }

  /**
   * Reading back the packed words gives every field exactly, except the year,
   * of which only the low 16 bits survive.
   */
  lemma UnpackBits0(f: Fields)
    requires InRange(f)
    ensures YearOf(Bits0(f)) == f.year & 0xFFFF
    ensures MillisecondOf(Bits0(f)) == f.millisecond
  {
  }

  lemma UnpackBits1(f: Fields)
    requires InRange(f)
    ensures MonthOf(Bits1(f)) == f.month
    ensures DayOf(Bits1(f)) == f.day
    ensures HourOf(Bits1(f)) == f.hour
    ensures MinuteOf(Bits1(f)) == f.minute
    ensures SecondOf(Bits1(f)) == f.second
    ensures WeekdayOf(Bits1(f)) == f.weekday
    ensures DaylightOf(Bits1(f)) == f.daylight
  {
  }

  /** The year bits hold years up to 65535 exactly; later years wrap around. */
  lemma YearWraps(f: Fields)
    requires InRange(f)
    ensures f.year <= 0xFFFF ==> YearOf(Bits0(f)) == f.year
    ensures f.year == 0x1_07B2 ==> YearOf(Bits0(f)) == 1970
  {
    UnpackBits0(f);
  }

  /**
   * The cache is empty exactly when `bits0` is zero, so the sentinel misses
   * only when the year's low 16 bits and the millisecond are both zero; it
   * never misses for the years 1 to 65535.
   */
  lemma SentinelBits0(f: Fields)
    requires InRange(f)
    ensures Bits0(f) == 0 <==> f.year & 0xFFFF == 0 && f.millisecond == 0
    ensures f.year <= 0xFFFF ==> Bits0(f) != 0
  {
    UnpackBits0(f);
  }

  /** `bits1` is never zero once filled, since the month is at least 1. */
  lemma Bits1NonZero(f: Fields)
    requires InRange(f)
    ensures Bits1(f) != 0
  {
    UnpackBits1(f);
  }

  /** ORing pieces into an empty word, or into the word they already make up, gives that word. */
  lemma OrChain(x: bv32, a: bv32, b: bv32, c: bv32, d: bv32, e: bv32, g: bv32, h: bv32)
    requires x == 0 || x == a | b | c | d | e | g | h
    ensures x | a | b | c | d | e | g | h == a | b | c | d | e | g | h
  {
  }

  /**
   * `millisToFields` ORs the pieces into `bits0` one after the other: from
   * an empty word that makes the packed word.
   */
  lemma FillBits0(x: bv32, f: Fields)
    requires x == 0
    ensures x | YearPiece(f.year) | MillisecondPiece(f.millisecond) == Bits0(f)
  {
  }

  /**
   * The same for `bits1`, which may already hold the packed word when the
   * sentinel missed: filling it again leaves it unchanged.
   */
  lemma FillBits1(x: bv32, f: Fields)
    requires x == 0 || x == Bits1(f)
    ensures var w := x | MonthPiece(f.month) | DayPiece(f.day) | HourPiece(f.hour) | MinutePiece(f.minute)
                     | SecondPiece(f.second) | WeekdayPiece(f.weekday);
      (f.daylight ==> w | DaylightPiece == Bits1(f)) && (!f.daylight ==> w == Bits1(f))
  {
    OrChain(x, MonthPiece(f.month), DayPiece(f.day), HourPiece(f.hour), MinutePiece(f.minute),
            SecondPiece(f.second), WeekdayPiece(f.weekday), if f.daylight then DaylightPiece else 0);
  }

  /** The ORs `millisToFields` makes into `bits0`: the year, then the millisecond. */
  method OrFields0(x: bv32, f: Fields) returns (r: bv32)
    requires x == 0
    ensures r == Bits0(f)
  {
    FillBits0(x, f);
    r := x | YearPiece(f.year) | MillisecondPiece(f.millisecond);
  }

  /**
   * The ORs `millisToFields` makes into `bits1`: month, day, hour, minute,
   * second and weekday, then the daylight bit in daylight time only.
   */
  method OrFields1(x: bv32, f: Fields) returns (r: bv32)
    requires x == 0 || x == Bits1(f)
    ensures r == Bits1(f)
  {
    FillBits1(x, f);
    r := x | MonthPiece(f.month) | DayPiece(f.day) | HourPiece(f.hour) | MinutePiece(f.minute)
          | SecondPiece(f.second) | WeekdayPiece(f.weekday);
    if f.daylight {
      r := r | DaylightPiece;
    }
  }
}
