// The text form of an abstime value, `YYYY-MM-DDThh:mm:ss.mmm` followed by
// `Z` or a signed `hh:mm` offset: the encoder's output as a function, the
// decoder's index scanner as a positional specification and as the cursor
// loop that implements it.
//
// The decoder is lenient in the way the Java is: it applies `c - '0'` to
// whatever character stands where a digit is expected and checks only the
// separators, the zone sign and the length of the input.

module TextCodec {
  import opened Wrappers
  import opened JavaNum

  // ---------------------------------------------------------------------------
  // Digits and decimal numerals
  // ---------------------------------------------------------------------------

  predicate IsDigit(ch: char)
  {
    '0' <= ch <= '9'
  }

  function DigitChar(n: int): (ch: char)
    requires 0 <= n <= 9
    ensures IsDigit(ch)
  {
    ('0' as int + n) as char
  }

  /** Java's `c - '0'` on a char: defined for every character. */
  function DigitValue(ch: char): int
  {
    ch as int - '0' as int
  }

  lemma DigitValueOfDigitChar(n: int)
    requires 0 <= n <= 9
    ensures DigitValue(DigitChar(n)) == n
  {
  }

  /** `StringBuffer.append(int)` for a value that is not negative. */
  function DecimalText(n: nat): (s: string)
    ensures |s| >= 1
    ensures forall i :: 0 <= i < |s| ==> IsDigit(s[i])
    ensures n < 10 <==> |s| == 1
    ensures n < 100 <==> |s| <= 2
    ensures n < 1000 <==> |s| <= 3
    ensures n < 10000 <==> |s| <= 4
  {
    if n < 10 then [DigitChar(n)] else DecimalText(n / 10) + [DigitChar(n % 10)]
  }

  /** The value of a numeral read left to right, as the decoder reads digits. */
  function DecimalValue(s: string): int
  {
    if |s| == 0 then 0 else DecimalValue(s[..|s| - 1]) * 10 + DigitValue(s[|s| - 1])
  }

  lemma {:induction false} DecimalRoundTrip(n: nat)
    ensures DecimalValue(DecimalText(n)) == n
  {
    var s := DecimalText(n);
    if n >= 10 {
      DecimalRoundTrip(n / 10);
      assert s[..|s| - 1] == DecimalText(n / 10);
      DigitValueOfDigitChar(n % 10);
    } else {
      DigitValueOfDigitChar(n);
    }
  }

  /** `String.valueOf(long)`: a minus sign before the magnitude. */
  function SignedDecimalText(x: int): (s: string)
  {
    if x < 0 then "-" + DecimalText(-x) else DecimalText(x)
  }

  function SignedDecimalValue(s: string): int
  {
    if |s| > 0 && s[0] == '-' then -DecimalValue(s[1..]) else DecimalValue(s)
  }

  lemma SignedDecimalRoundTrip(x: int)
    ensures SignedDecimalValue(SignedDecimalText(x)) == x
  {
    if x < 0 {
      DecimalRoundTrip(-x);
      assert SignedDecimalText(x)[1..] == DecimalText(-x);
    } else {
      DecimalRoundTrip(x);
    }
  }

  /** `encodeJava`: the millisecond count as a Java long literal. */
  function JavaLiteral(millis: Int64): (s: string)
    ensures |s| >= 2 && s[|s| - 1] == 'L'
    ensures s[0] == '-' <==> millis < 0
  {
    SignedDecimalText(millis) + "L"
  }

  /** The literal ends in `L` and the numeral before it reads back as the value. */
  lemma JavaLiteralRoundTrip(millis: Int64)
    ensures var s := JavaLiteral(millis);
      |s| >= 2 && s[|s| - 1] == 'L' && SignedDecimalValue(s[..|s| - 1]) == millis
  {
    var s := JavaLiteral(millis);
    assert s[..|s| - 1] == SignedDecimalText(millis);
    SignedDecimalRoundTrip(millis);
  }

  // ---------------------------------------------------------------------------
  // Encoding
  // ---------------------------------------------------------------------------

  /** A `'0'` before values below 10. */
  function Pad2(n: nat): (s: string)
    ensures |s| >= 2 && forall i :: 0 <= i < |s| ==> IsDigit(s[i])
    ensures n <= 99 <==> |s| == 2
  {
    (if n < 10 then "0" else "") + DecimalText(n)
  }

  /** `'0'`s before values below 100 and below 10. */
  function Pad3(n: nat): (s: string)
    ensures |s| >= 3 && forall i :: 0 <= i < |s| ==> IsDigit(s[i])
    ensures n <= 999 <==> |s| == 3
  {
    (if n < 10 then "0" else "") + (if n < 100 then "0" else "") + DecimalText(n)
  }

  /**
   * The zone suffix: `Z` for a zero offset, otherwise the sign and the hours
   * and minutes of the offset, taken with Java's truncating `/` and `%`.
   */
  function ZoneText(offset: Int32): (s: string)
    ensures s == "Z" <==> offset == 0
    ensures offset != 0 ==> |s| >= 6 && s[0] == (if offset < 0 then '-' else '+')
    ensures offset != 0 ==> s[|s| - 3] == ':' && IsDigit(s[|s| - 2]) && IsDigit(s[|s| - 1])
  {
    if offset == 0 then "Z"
    else
      var hours := Abs(TruncDiv(offset, 3_600_000));
      var minutes := Abs(TruncDiv(TruncRem(offset, 3_600_000), 60_000));
      [if offset < 0 then '-' else '+'] + Pad2(hours) + ":" + Pad2(minutes)
  }

  /** The date and time of day as `encodeVal` writes them; the year is not padded. */
  function StampText(year: nat, month: nat, day: nat, hour: nat, minute: nat, second: nat,
                     millisecond: nat): (s: string)
    ensures |s| >= 20
    ensures (&& 1000 <= year <= 9999 && month <= 99 && day <= 99 && hour <= 99 && minute <= 99
             && second <= 99 && millisecond <= 999) ==> |s| == 23 && SeparatorsOk(s) && s[19] == '.'
  {
    DecimalText(year) + "-" + Pad2(month) + "-" + Pad2(day) + "T" + Pad2(hour) + ":"
    + Pad2(minute) + ":" + Pad2(second) + "." + Pad3(millisecond)
  }

  /** The append pattern of `encodeVal` for two-digit fields: a `'0'` first below 10. */
  method AppendPad2(s: string, n: nat) returns (t: string)
    ensures t == s + Pad2(n)
  {
    t := s;
    if n < 10 {
      t := t + "0";
    }
    t := t + DecimalText(n);
  }

  /** The append pattern of `encodeVal` for the milliseconds: `'0'`s below 10 and below 100. */
  method AppendPad3(s: string, n: nat) returns (t: string)
    ensures t == s + Pad3(n)
  {
    t := s;
    if n < 10 {
      t := t + "0";
    }
    if n < 100 {
      t := t + "0";
    }
    t := t + DecimalText(n);
  }

  /** The date and time of day as `encodeVal` appends them, field by field. */
  method WriteStamp(year: nat, month: nat, day: nat, hour: nat, minute: nat, second: nat,
                    millisecond: nat) returns (s: string)
    ensures s == StampText(year, month, day, hour, minute, second, millisecond)
  {
    s := DecimalText(year) + "-";
    s := AppendPad2(s, month);
    s := s + "-";
    s := AppendPad2(s, day);
    s := s + "T";
    s := AppendPad2(s, hour);
    s := s + ":";
    s := AppendPad2(s, minute);
    s := s + ":";
    s := AppendPad2(s, second);
    s := s + ".";
    s := AppendPad3(s, millisecond);
  }

  /** The zone suffix as `encodeVal` appends it, with Java's truncating `/` and `%`. */
  method AppendZone(s: string, offset: Int32) returns (t: string)
    ensures t == s + ZoneText(offset)
  {
    if offset == 0 {
      return s + "Z";
    }
    var hrOff := Abs(TruncDiv(offset, 1000 * 60 * 60));
    var minOff := Abs(TruncDiv(TruncRem(offset, 1000 * 60 * 60), 1000 * 60));
    assert hrOff == Abs(TruncDiv(offset, 3_600_000)) && minOff == Abs(TruncDiv(TruncRem(offset, 3_600_000), 60_000));
    ghost var zone := [if offset < 0 then '-' else '+'] + Pad2(hrOff) + ":" + Pad2(minOff);
    assert ZoneText(offset) == zone;
    if offset < 0 {
      t := s + "-";
    } else {
      t := s + "+";
    }
    t := AppendPad2(t, hrOff);
    t := t + ":";
    t := AppendPad2(t, minOff);
    assert t == s + zone;
  }

  /** The text `encodeVal` produces. */
  function DateTimeText(year: nat, month: nat, day: nat, hour: nat, minute: nat, second: nat,
                        millisecond: nat, offset: Int32): (s: string)
    ensures |s| >= 21
    ensures s[|s| - 1] == 'Z' <==> offset == 0
  {
    StampText(year, month, day, hour, minute, second, millisecond) + ZoneText(offset)
  }

  lemma {:induction false} TwoDigitText(n: nat)
    requires n <= 99
    ensures Pad2(n) == [DigitChar(n / 10), DigitChar(n % 10)]
  {
    if n >= 10 {
      assert DecimalText(n / 10) == [DigitChar(n / 10)];
    }
  }

  lemma {:induction false} ThreeDigitText(n: nat)
    requires n <= 999
    ensures Pad3(n) == [DigitChar(n / 100), DigitChar(n / 10 % 10), DigitChar(n % 10)]
  {
    if n >= 100 {
      assert DecimalText(n / 100) == [DigitChar(n / 100)];
      assert DecimalText(n / 10) == [DigitChar(n / 100), DigitChar(n / 10 % 10)];
    } else if n >= 10 {
      assert DecimalText(n / 10) == [DigitChar(n / 10)];
    }
  }

  lemma {:induction false} FourDigitText(n: nat)
    requires 1000 <= n <= 9999
    ensures DecimalText(n) == [DigitChar(n / 1000), DigitChar(n / 100 % 10), DigitChar(n / 10 % 10), DigitChar(n % 10)]
  {
    assert DecimalText(n / 1000) == [DigitChar(n / 1000)];
    assert DecimalText(n / 100) == [DigitChar(n / 1000), DigitChar(n / 100 % 10)];
    assert DecimalText(n / 10) == [DigitChar(n / 1000), DigitChar(n / 100 % 10), DigitChar(n / 10 % 10)];
  }

  // ---------------------------------------------------------------------------
  // Decoding
  // ---------------------------------------------------------------------------

  /** The fields the scanner reads, before the calendar combines them. */
  datatype Scanned = Scanned(year: int, month: int, day: int, hour: int, minute: int,
                             second: int, millisecond: int, offset: Int32)

  function TwoDigitValue(c: string, i: nat): int
    requires i + 1 < |c|
  {
    DigitValue(c[i]) * 10 + DigitValue(c[i + 1])
  }

  /** Index 4, 7, 10, 13 and 16 hold the separators and there is a character at 19. */
  predicate SeparatorsOk(c: string)
  {
    |c| >= 20 && c[4] == '-' && c[7] == '-' && c[10] == 'T' && c[13] == ':' && c[16] == ':'
  }

  /** The number of digits in the run starting at index `i`. */
  function DigitRun(c: string, i: int): (n: nat)
    ensures n > 0 ==> 0 <= i && i + n <= |c|
    ensures forall k :: i <= k < i + n ==> IsDigit(c[k])
    ensures 0 <= i + n < |c| ==> !IsDigit(c[i + n])
    decreases |c| - i
  {
    if 0 <= i < |c| && IsDigit(c[i]) then 1 + DigitRun(c, i + 1) else 0
  }

  /** Where the zone suffix starts: after the seconds, or after the fraction's digits. */
  function ZoneStart(c: string): nat
    requires |c| >= 20
  {
    if c[19] == '.' then 21 + DigitRun(c, 21) else 19
  }

  /**
   * The milliseconds of a fraction: the first character after the point
   * (whatever it is) counts hundreds, and up to two following digits count
   * tens and units. Further digits are skipped.
   */
  function FractionMillis(c: string): int
    requires |c| >= 20 && c[19] == '.' && ZoneStart(c) < |c|
  {
    DigitValue(c[20]) * 100
    + if IsDigit(c[21]) then DigitValue(c[21]) * 10 + (if IsDigit(c[22]) then DigitValue(c[22]) else 0)
      else 0
  }

  /**
   * The offset in a zone suffix: `Z`, or a sign, one or two hour characters
   * (two unless the second is `:` or the text ends), and, if anything
   * follows, `:` and two minute characters. Text after that is ignored.
   */
  function ZoneOffset(s: string): (r: Option<Int32>)
    requires |s| >= 1
    ensures s[0] == 'Z' ==> r == Some(0)
    ensures s[0] != 'Z' && s[0] != '+' && s[0] != '-' ==> r.None?
    ensures |s| == 1 ==> (r.Some? <==> s[0] == 'Z')
    ensures r.Some? && s[0] != 'Z' && |s| >= 4 ==> s[2] == ':' || s[3] == ':'
    ensures r.Some? && s[0] != 'Z' && |s| >= 3 && s[2] == ':' ==> |s| >= 5
  {
    if s[0] == 'Z' then Some(0)
    else if s[0] != '+' && s[0] != '-' then None
    else if |s| < 2 then None
    else
      var twoDigits := |s| > 2 && s[2] != ':';
      var hours := if twoDigits then TwoDigitValue(s, 1) else DigitValue(s[1]);
      var j := if twoDigits then 3 else 2;
      if j < |s| && (s[j] != ':' || |s| <= j + 2) then None
      else
        var minutes := if j < |s| then TwoDigitValue(s, j + 1) else 0;
        // Java's int products and sum wrap, which is the wrap of the exact sum
        var offset: Int32 := Wrap32(hours * 3_600_000 + minutes * 60_000);
        var signed: Int32 := if s[0] == '-' then Wrap32(-(offset as int)) else offset;
        Some(signed)
  }

  /** What `decodeVal` reads from its argument, or None where it throws. */
  function ParseDateTime(c: string): (r: Option<Scanned>)
    ensures r.Some? <==> SeparatorsOk(c) && ZoneStart(c) < |c| && ZoneOffset(c[ZoneStart(c)..]).Some?
    ensures r.Some? ==> c[19] == '.' || c[19] == 'Z' || c[19] == '+' || c[19] == '-'
  {
    if !SeparatorsOk(c) || ZoneStart(c) >= |c| then None
    else match ZoneOffset(c[ZoneStart(c)..])
      case None => None
      case Some(offset) =>
        var year := DigitValue(c[0]) * 1000 + DigitValue(c[1]) * 100 + TwoDigitValue(c, 2);
        var millisecond := if c[19] == '.' then FractionMillis(c) else 0;
        Some(Scanned(year, TwoDigitValue(c, 5), TwoDigitValue(c, 8), TwoDigitValue(c, 11),
                     TwoDigitValue(c, 14), TwoDigitValue(c, 17), millisecond, offset))
  }

  // ---------------------------------------------------------------------------
  // Round trip
  // ---------------------------------------------------------------------------

  /** An offset truncated toward zero to whole minutes. */
  function WholeMinutes(offset: int): int
  {
    60_000 * TruncDiv(offset, 60_000)
  }

  lemma {:induction false} HoursAndMinutes(a: nat)
    ensures (a / 3_600_000) * 3_600_000 + ((a % 3_600_000) / 60_000) * 60_000 == (a / 60_000) * 60_000
    ensures (a % 3_600_000) / 60_000 <= 59
  {
    var q := a / 3_600_000;
    var r := a % 3_600_000;
    var m := r / 60_000;
    var t := r % 60_000;
    assert a == 60_000 * (60 * q + m) + t;
    assert a / 60_000 == 60 * q + m;
  }

  lemma FourDigitValue(n: nat)
    requires 1000 <= n <= 9999
    ensures (n / 1000) * 1000 + (n / 100 % 10) * 100 + (n / 10 % 10) * 10 + n % 10 == n
  {
    assert n / 10 == (n / 100) * 10 + n / 10 % 10;
    assert n / 100 == (n / 1000) * 10 + n / 100 % 10;
  }

  lemma ThreeDigitValue(n: nat)
    requires n <= 999
    ensures (n / 100) * 100 + (n / 10 % 10) * 10 + n % 10 == n
  {
    assert n / 10 == (n / 100) * 10 + n / 10 % 10;
  }

  /** A sign, two hour digits, `:` and two minute digits decode to the signed offset. */
  lemma {:induction false} ZonePieces(sign: char, hh: string, mm: string, hours: int, minutes: int)
    requires sign == '+' || sign == '-'
    requires |hh| == 2 && hh[1] != ':' && TwoDigitValue(hh, 0) == hours && |mm| == 2 && TwoDigitValue(mm, 0) == minutes
    requires 0 <= hours * 3_600_000 + minutes * 60_000 < 0x8000_0000
    ensures ZoneOffset([sign] + hh + ":" + mm)
         == Some(if sign == '-' then -(hours * 3_600_000 + minutes * 60_000) else hours * 3_600_000 + minutes * 60_000)
  {
    var s := [sign] + hh + ":" + mm;
    assert s[1] == hh[0] && s[2] == hh[1] && s[3] == ':' && s[4] == mm[0] && s[5] == mm[1];
  }

  /**
   * Decoding an encoded zone suffix gives back the offset truncated to whole
   * minutes, for offsets under 100 hours; the suffix never starts with a digit.
   */
  lemma {:induction false} ZoneRoundTrip(offset: Int32)
    requires -360_000_000 < offset < 360_000_000
    ensures |ZoneText(offset)| >= 1 && !IsDigit(ZoneText(offset)[0])
    ensures ZoneOffset(ZoneText(offset)) == Some(WholeMinutes(offset))
  {
    if offset != 0 {
      var a: nat := Abs(offset);
      var hours := Abs(TruncDiv(offset, 3_600_000));
      var minutes := Abs(TruncDiv(TruncRem(offset, 3_600_000), 60_000));
      assert hours == a / 3_600_000 && minutes == (a % 3_600_000) / 60_000;
      HoursAndMinutes(a);
      Pad2Reads(hours);
      Pad2Reads(minutes);
      ZonePieces(if offset < 0 then '-' else '+', Pad2(hours), Pad2(minutes), hours, minutes);
      assert WholeMinutes(offset) == if offset < 0 then -((a / 60_000) * 60_000) else (a / 60_000) * 60_000;
    }
  }


  /** An offset in whole minutes survives the round trip unchanged. */
  lemma WholeMinuteOffset(offset: int)
    requires offset % 60_000 == 0
    ensures WholeMinutes(offset) == offset
  {
    if offset < 0 {
      assert (-offset) % 60_000 == 0;
    }
  }

  /** A padded two-digit field reads back as its value. */
  lemma {:induction false} Pad2Reads(n: nat)
    requires n <= 99
    ensures |Pad2(n)| == 2 && IsDigit(Pad2(n)[0]) && IsDigit(Pad2(n)[1]) && TwoDigitValue(Pad2(n), 0) == n
  {
    TwoDigitText(n);
  }

  /** A padded three-digit field reads back as its value. */
  lemma {:induction false} Pad3Reads(n: nat)
    requires n <= 999
    ensures var p := Pad3(n);
      |p| == 3 && IsDigit(p[1]) && IsDigit(p[2]) && DigitValue(p[0]) * 100 + TwoDigitValue(p, 1) == n
  {
    ThreeDigitText(n);
    ThreeDigitValue(n);
  }

  /** A four-digit year reads back as its value. */
  lemma {:induction false} YearReads(n: nat)
    requires 1000 <= n <= 9999
    ensures var t := DecimalText(n);
      |t| == 4 && DigitValue(t[0]) * 1000 + DigitValue(t[1]) * 100 + TwoDigitValue(t, 2) == n
  {
    FourDigitText(n);
    FourDigitValue(n);
  }

  /** Where each piece of the date and time lands in the encoder's text. */
  lemma StampLayout(y: string, mo: string, d: string, h: string, mi: string, s: string, f: string)
    requires |y| == 4 && |mo| == 2 && |d| == 2 && |h| == 2 && |mi| == 2 && |s| == 2 && |f| == 3
    ensures var t := y + "-" + mo + "-" + d + "T" + h + ":" + mi + ":" + s + "." + f;
      && |t| == 23 && t[0] == y[0] && t[1] == y[1] && t[2] == y[2] && t[3] == y[3] && t[4] == '-'
      && t[5] == mo[0] && t[6] == mo[1] && t[7] == '-' && t[8] == d[0] && t[9] == d[1] && t[10] == 'T'
      && t[11] == h[0] && t[12] == h[1] && t[13] == ':' && t[14] == mi[0] && t[15] == mi[1] && t[16] == ':'
      && t[17] == s[0] && t[18] == s[1] && t[19] == '.' && t[20] == f[0] && t[21] == f[1] && t[22] == f[2]
  {
  }

  /**
   * A 23-character date and time with a three-digit fraction, followed by a
   * zone suffix that does not start with a digit, decodes field by field.
   */
  lemma {:induction false} ParseStampAndZone(h: string, z: string)
    requires |h| == 23 && h[4] == '-' && h[7] == '-' && h[10] == 'T' && h[13] == ':' && h[16] == ':'
    requires h[19] == '.' && IsDigit(h[21]) && IsDigit(h[22])
    requires |z| >= 1 && !IsDigit(z[0])
    ensures ParseDateTime(h + z)
         == match ZoneOffset(z)
            case None => None
            case Some(offset) =>
              Some(Scanned(DigitValue(h[0]) * 1000 + DigitValue(h[1]) * 100 + TwoDigitValue(h, 2),
                           TwoDigitValue(h, 5), TwoDigitValue(h, 8), TwoDigitValue(h, 11), TwoDigitValue(h, 14),
                           TwoDigitValue(h, 17), DigitValue(h[20]) * 100 + TwoDigitValue(h, 21), offset))
  {
    var c := h + z;
    assert DigitRun(c, 23) == 0;
    assert DigitRun(c, 21) == 2;
    assert c[23..] == z;
  }

  /** Pieces that read back as the given values decode to those values. */
  lemma {:induction false} ParsePieces(y: string, mo: string, d: string, h: string, mi: string, s: string, f: string,
                                       z: string, year: int, month: int, day: int, hour: int, minute: int,
                                       second: int, millisecond: int, offset: Int32)
    requires |y| == 4 && DigitValue(y[0]) * 1000 + DigitValue(y[1]) * 100 + TwoDigitValue(y, 2) == year
    requires |mo| == 2 && TwoDigitValue(mo, 0) == month && |d| == 2 && TwoDigitValue(d, 0) == day
    requires |h| == 2 && TwoDigitValue(h, 0) == hour && |mi| == 2 && TwoDigitValue(mi, 0) == minute
    requires |s| == 2 && TwoDigitValue(s, 0) == second
    requires |f| == 3 && IsDigit(f[1]) && IsDigit(f[2]) && DigitValue(f[0]) * 100 + TwoDigitValue(f, 1) == millisecond
    requires |z| >= 1 && !IsDigit(z[0]) && ZoneOffset(z) == Some(offset)
    ensures ParseDateTime(y + "-" + mo + "-" + d + "T" + h + ":" + mi + ":" + s + "." + f + z)
         == Some(Scanned(year, month, day, hour, minute, second, millisecond, offset))
  {
    StampLayout(y, mo, d, h, mi, s, f);
    var t := y + "-" + mo + "-" + d + "T" + h + ":" + mi + ":" + s + "." + f;
    ParseStampAndZone(t, z);
  }

  /**
   * Decoding the encoder's text gives back every field, and the offset to
   * the minute, for four-digit years, fields of at most two digits, and
   * offsets under 100 hours.
   */
  lemma {:induction false} DateTimeRoundTrip(year: nat, month: nat, day: nat, hour: nat, minute: nat,
                                             second: nat, millisecond: nat, offset: Int32)
    requires 1000 <= year <= 9999 && month <= 99 && day <= 99 && hour <= 99 && minute <= 99 && second <= 99
    requires millisecond <= 999 && -360_000_000 < offset < 360_000_000
    ensures ParseDateTime(DateTimeText(year, month, day, hour, minute, second, millisecond, offset))
         == Some(Scanned(year, month, day, hour, minute, second, millisecond, WholeMinutes(offset)))
  {
    YearReads(year);
    Pad2Reads(month);
    Pad2Reads(day);
    Pad2Reads(hour);
    Pad2Reads(minute);
    Pad2Reads(second);
    Pad3Reads(millisecond);
    ZoneRoundTrip(offset);
    ParsePieces(DecimalText(year), Pad2(month), Pad2(day), Pad2(hour), Pad2(minute), Pad2(second), Pad3(millisecond),
                ZoneText(offset), year, month, day, hour, minute, second, millisecond, WholeMinutes(offset));
  }




  /** A wrong separator, a missing zone, a fraction running to the end, an unknown zone character. */
  lemma ParseRejectSamples()
    ensures ParseDateTime("2024-02-30X00:00:00Z") == None
    ensures ParseDateTime("2024-01-02T03:04:05") == None
    ensures ParseDateTime("2024-01-02T03:04:05.5") == None
    ensures ParseDateTime("2024-01-02T03:04:05Q") == None
  {
  }

  /** Negative offsets: a sign, two hour digits, a colon and two minute digits. */
  lemma ZoneOffsetSample()
    ensures ZoneOffset("-05:30") == Some(-19_800_000)
    ensures ZoneOffset("+5") == Some(18_000_000)
  {
  }

  const FractionSampleText: string := "2024-01-02T03:04:05.1234-05:30"

  /** A run of `n` digits ended by a non-digit. */
  lemma {:induction false} DigitRunOf(c: string, i: nat, n: nat)
    requires i + n < |c| && !IsDigit(c[i + n])
    requires forall k :: i <= k < i + n ==> IsDigit(c[k])
    ensures DigitRun(c, i) == n
    decreases n
  {
    if n > 0 {
      DigitRunOf(c, i + 1, n - 1);
    }
  }

  /** The sample has its separators in place and a fraction point at 19. */
  lemma FractionSampleSeparators()
    ensures SeparatorsOk(FractionSampleText) && FractionSampleText[19] == '.'
  {
  }

  /** The fraction of the sample runs from index 20 to the sign at 24. */
  lemma FractionSampleZoneStart()
    ensures SeparatorsOk(FractionSampleText) && FractionSampleText[19] == '.'
    ensures ZoneStart(FractionSampleText) == 24
  {
    var c := FractionSampleText;
    FractionSampleSeparators();
    assert IsDigit(c[21]) && IsDigit(c[22]) && IsDigit(c[23]) && !IsDigit(c[24]);
    DigitRunOf(c, 21, 3);
  }

  /** Where the scanner finds the zone of the sample, and its milliseconds. */
  lemma FractionSampleScan()
    ensures SeparatorsOk(FractionSampleText) && FractionSampleText[19] == '.' && ZoneStart(FractionSampleText) == 24
    ensures FractionMillis(FractionSampleText) == 123 && FractionSampleText[24..] == "-05:30"
  {
    FractionSampleZoneStart();
    assert FractionSampleText[24..] == "-05:30";
  }

  /** Fraction digits past the third are skipped. */
  lemma ParseFractionSample()
    ensures ParseDateTime(FractionSampleText) == Some(Scanned(2024, 1, 2, 3, 4, 5, 123, -19_800_000))
  {
    FractionSampleScan();
    ZoneOffsetSample();
  }

  /** Text after the zone suffix is ignored. */
  lemma ParseTrailingTextSample()
    ensures ParseDateTime("2024-01-02T03:04:05Zjunk") == Some(Scanned(2024, 1, 2, 3, 4, 5, 0, 0))
  {
    var c := "2024-01-02T03:04:05Zjunk";
    assert SeparatorsOk(c) && c[19] == 'Z';
  }

  /** One hour digit is enough when nothing follows it. */
  lemma ParseShortZoneSample()
    ensures ParseDateTime("2024-01-02T03:04:05+5") == Some(Scanned(2024, 1, 2, 3, 4, 5, 0, 18_000_000))
  {
    var c := "2024-01-02T03:04:05+5";
    assert SeparatorsOk(c) && c[19] == '+' && c[19..] == "+5";
    ZoneOffsetSample();
  }

  /** Characters are not checked to be digits: the letter O reads as 31. */
  lemma ParseLetterSample()
    ensures ParseDateTime("2O24-01-02T03:04:05Z") == Some(Scanned(5124, 1, 2, 3, 4, 5, 0, 0))
  {
    var c := "2O24-01-02T03:04:05Z";
    assert SeparatorsOk(c) && c[19] == 'Z' && DigitValue(c[1]) == 31;
  }

  // ---------------------------------------------------------------------------
  // The scanner
  // ---------------------------------------------------------------------------

  /**
   * The fraction after the point at index 19: the milliseconds and the index
   * of the zone character, or None where the Java reads past the end.
   */
  method ScanFraction(c: string) returns (r: Option<int>, i: nat)
    requires |c| >= 20 && c[19] == '.'
    ensures r.None? <==> ZoneStart(c) >= |c|
    ensures r.Some? ==> r.value == FractionMillis(c) && i == ZoneStart(c)
  {
    i := 20;
    if i + 1 >= |c| {
      return None, i;
    }
    var millisecond := DigitValue(c[i]) * 100;
    i := i + 1;
    if IsDigit(c[i]) {
      millisecond := millisecond + DigitValue(c[i]) * 10;
      i := i + 1;
      if i >= |c| {
        return None, i;
      }
    }
    if IsDigit(c[i]) {
      millisecond := millisecond + DigitValue(c[i]);
      i := i + 1;
    }
    // skip any further fractional digits
    while i < |c| && IsDigit(c[i])
      invariant 21 <= i <= |c| && i + DigitRun(c, i) == ZoneStart(c)
      decreases |c| - i
    {
      i := i + 1;
    }
    if i >= |c| {
      return None, i;
    }
    r := Some(millisecond);
  }

  /** The zone suffix starting at index `i`, or None where the Java throws. */
  method ScanZone(c: string, i: nat) returns (r: Option<Int32>)
    requires i < |c|
    ensures r == ZoneOffset(c[i..])
  {
    ghost var s := c[i..];
    var sign := c[i];
    var k := i + 1;
    if sign == 'Z' {
      return Some(0);
    }
    if sign != '+' && sign != '-' {
      return None;
    }
    if k >= |c| {
      return None;
    }
    var hours := DigitValue(c[k]);
    k := k + 1;
    if k < |c| && c[k] != ':' {
      hours := hours * 10 + DigitValue(c[k]);
      k := k + 1;
    }
    assert hours == if |s| > 2 && s[2] != ':' then TwoDigitValue(s, 1) else DigitValue(s[1]);
    var minutes := 0;
    if k < |c| {
      if c[k] != ':' {
        return None;
      }
      k := k + 1;
      if k + 1 >= |c| {
        return None;
      }
      minutes := 10 * DigitValue(c[k]) + DigitValue(c[k + 1]);
      k := k + 2;
    }
    var offset: Int32 := Wrap32(hours * 3_600_000 + minutes * 60_000);
    if sign == '-' {
      offset := Wrap32(-(offset as int));
    }
    r := Some(offset);
  }

  /**
   * `decodeVal`'s scan: a cursor walks the fixed positions, checks each
   * separator, skips any digits after the first three of a fraction, then
   * reads the zone. Every read past the end is a failure, as the caught
   * ArrayIndexOutOfBoundsException is in the Java.
   */
  method Scan(c: string) returns (r: Option<Scanned>)
    ensures r == ParseDateTime(c)
  {
    if |c| < 20 {
      return None;
    }
    var i := 0;
    var year := DigitValue(c[i]) * 1000 + DigitValue(c[i + 1]) * 100 + DigitValue(c[i + 2]) * 10 + DigitValue(c[i + 3]);
    i := i + 4;
    if c[i] != '-' {
      return None;
    }
    i := i + 1;
    var month := DigitValue(c[i]) * 10 + DigitValue(c[i + 1]);
    i := i + 2;
    if c[i] != '-' {
      return None;
    }
    i := i + 1;
    var day := DigitValue(c[i]) * 10 + DigitValue(c[i + 1]);
    i := i + 2;
    if c[i] != 'T' {
      return None;
    }
    i := i + 1;
    var hour := DigitValue(c[i]) * 10 + DigitValue(c[i + 1]);
    i := i + 2;
    if c[i] != ':' {
      return None;
    }
    i := i + 1;
    var minute := DigitValue(c[i]) * 10 + DigitValue(c[i + 1]);
    i := i + 2;
    if c[i] != ':' {
      return None;
    }
    i := i + 1;
    var second := DigitValue(c[i]) * 10 + DigitValue(c[i + 1]);
    i := i + 2;
    assert i == 19;

    var millisecond := 0;
    if c[i] == '.' {
      var fraction;
      fraction, i := ScanFraction(c);
      if fraction.None? {
        return None;
      }
      millisecond := fraction.value;
    }
    var zone := ScanZone(c, i);
    if zone.None? {
      return None;
    }
    var offset := zone.value;
    r := Some(Scanned(year, month, day, hour, minute, second, millisecond, offset));
  }
}
