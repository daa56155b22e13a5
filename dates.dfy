/** The date encoders `DateYYMM` and `DateYYMMDD`. */
module Dates {
  import opened Errors
  import opened Strings
  import opened Checksum

  /** What the encoders read from a JavaScript `Date`: `getFullYear()`,
      `getMonth() + 1` and `getDate()`. */
  datatype CalendarDate = CalendarDate(year: int, month: nat, day: nat)

  /** A date a valid `Date` object can report: month 1..12, day 1..31. */
  predicate IsCalendarDate(d: CalendarDate)
  {
    1 <= d.month <= 12 && 1 <= d.day <= 31
  }

  /** A year whose `toString().slice(-2)` has two digits: not in -9..9. */
  predicate HasTwoDigitYear(d: CalendarDate)
  {
    d.year <= -10 || 10 <= d.year
  }

  function Abs(n: int): nat
  {
    if n < 0 then -n else n
  }

  /** A `DateYYMM`: the year suffix and the zero-padded month, as strings. */
  datatype DateYYMM = DateYYMM(year: string, month: string)

  /** A `DateYYMMDD`: a `DateYYMM` extended with the zero-padded day. */
  datatype DateYYMMDD = DateYYMMDD(yymm: DateYYMM, day: string)

  /** The `DateYYMM` constructor: `getFullYear().toString().slice(-2)` and
      `(getMonth() + 1).toString().padStart(2, '0')`. */
  function NewDateYYMM(date: CalendarDate): DateYYMM
  {
    DateYYMM(SliceLast(IntToString(date.year), 2), PadStart(NatToString(date.month), 2))
  }

  /** `DateYYMM.toString`. */
  function YYMMString(v: DateYYMM): string
  {
    v.year + v.month
  }

  /** The `DateYYMMDD` constructor: the `DateYYMM` fields and
      `getDate().toString().padStart(2, '0')`. */
  function NewDateYYMMDD(date: CalendarDate): DateYYMMDD
  {
    DateYYMMDD(NewDateYYMM(date), PadStart(NatToString(date.day), 2))
  }

  /** `DateYYMMDD.toString`: the inherited `toString` followed by the day. */
  function YYMMDDString(v: DateYYMMDD): string
  {
    YYMMString(v.yymm) + v.day
  }

  /** `DateYYMMDD.checkDigit`: the check digit of its own six characters. */
  method DateCheckDigit(v: DateYYMMDD) returns (r: Result<nat>)
    ensures r == CheckDigitOf(YYMMDDString(v))
  {
    r := CheckDigit(YYMMDDString(v));
  }

  /** The year suffix is the last two decimal digits of the year, without
      its sign, when the year has at least two digits. */
  lemma YearSuffix(year: int)
    requires year <= -10 || 10 <= year
    ensures SliceLast(IntToString(year), 2) == TwoDigits(Abs(year) % 100)
  {
    var s := NatToString(Abs(year));
    LastTwoDigits(Abs(year));
    if year < 0 {
      assert |s| >= 2;
      assert ("-" + s)[|"-" + s| - 2..] == s[|s| - 2..];
    }
  }

  /** For a one-digit year the suffix is that one digit, and for years
      -9..-1 it is a minus sign and one digit. */
  lemma ShortYearSuffix(year: int)
    requires -9 <= year <= 9
    ensures 0 <= year ==> SliceLast(IntToString(year), 2) == [DigitChar(year)]
    ensures year < 0 ==> SliceLast(IntToString(year), 2) == "-" + [DigitChar(-year)]
  {
  }

  /** For a valid date with a two-digit year, `DateYYMM` is the four
      decimal digits YYMM, year taken modulo 100, month zero-padded. */
  lemma YYMMShape(date: CalendarDate)
    requires IsCalendarDate(date) && HasTwoDigitYear(date)
    ensures YYMMString(NewDateYYMM(date)) == TwoDigits(Abs(date.year) % 100) + TwoDigits(date.month)
    ensures |YYMMString(NewDateYYMM(date))| == 4
    ensures AllDecimal(YYMMString(NewDateYYMM(date)))
  {
    YearSuffix(date.year);
    PadTwoDigits(date.month);
    AllDecimalConcat(TwoDigits(Abs(date.year) % 100), TwoDigits(date.month));
  }

  /** For a valid date with a two-digit year, `DateYYMMDD` is YYMMDD: six
      decimal digits, the day zero-padded after the `DateYYMM` part. */
  lemma YYMMDDShape(date: CalendarDate)
    requires IsCalendarDate(date) && HasTwoDigitYear(date)
    ensures YYMMDDString(NewDateYYMMDD(date)) ==
              TwoDigits(Abs(date.year) % 100) + TwoDigits(date.month) + TwoDigits(date.day)
    ensures |YYMMDDString(NewDateYYMMDD(date))| == 6
    ensures AllDecimal(YYMMDDString(NewDateYYMMDD(date)))
  {
    YYMMShape(date);
    PadTwoDigits(date.day);
    AllDecimalConcat(YYMMString(NewDateYYMM(date)), TwoDigits(date.day));
  }

  /** For a year 0..9 the year part is that single digit, so `DateYYMM`
      has three characters. */
  lemma OneDigitYearYYMM(date: CalendarDate)
    requires IsCalendarDate(date) && 0 <= date.year <= 9
    ensures YYMMString(NewDateYYMM(date)) == [DigitChar(date.year)] + TwoDigits(date.month)
    ensures AllDecimal(YYMMString(NewDateYYMM(date)))
  {
    ShortYearSuffix(date.year);
    PadTwoDigits(date.month);
    AllDecimalConcat([DigitChar(date.year)], TwoDigits(date.month));
  }

  /** For a year 0..9 `DateYYMMDD` is that digit, the month and the day:
      five characters. */
  lemma OneDigitYearShape(date: CalendarDate)
    requires IsCalendarDate(date) && 0 <= date.year <= 9
    ensures YYMMDDString(NewDateYYMMDD(date)) == [DigitChar(date.year)] + TwoDigits(date.month) + TwoDigits(date.day)
    ensures AllDecimal(YYMMString(NewDateYYMM(date)))
    ensures AllDecimal(YYMMDDString(NewDateYYMMDD(date)))
  {
    var yymm := YYMMString(NewDateYYMM(date));
    OneDigitYearYYMM(date);
    PadTwoDigits(date.day);
    assert YYMMDDString(NewDateYYMMDD(date)) == yymm + TwoDigits(date.day);
    AllDecimalConcat(yymm, TwoDigits(date.day));
  }

  /** A year -9..-1, whose `toString().slice(-2)` is a minus sign and one digit. */
  predicate HasNegativeOneDigitYear(d: CalendarDate)
  {
    -9 <= d.year <= -1
  }

  /** For a year -9..-1 both encodings start with a minus sign. */
  lemma NegativeYearEncoding(date: CalendarDate)
    requires IsCalendarDate(date) && HasNegativeOneDigitYear(date)
    ensures YYMMString(NewDateYYMM(date))[0] == '-'
    ensures YYMMDDString(NewDateYYMMDD(date))[0] == '-'
  {
    ShortYearSuffix(date.year);
    var v := NewDateYYMM(date);
    assert v.year[0] == '-';
    assert YYMMString(v)[0] == v.year[0];
    assert YYMMDDString(NewDateYYMMDD(date))[0] == YYMMString(v)[0];
  }

  /** For every other year both encodings are decimal digits only. */
  lemma DecimalEncoding(date: CalendarDate)
    requires IsCalendarDate(date) && !HasNegativeOneDigitYear(date)
    ensures AllDecimal(YYMMString(NewDateYYMM(date)))
    ensures AllDecimal(YYMMDDString(NewDateYYMMDD(date)))
  {
    if HasTwoDigitYear(date) {
      YYMMShape(date);
      YYMMDDShape(date);
    } else {
      OneDigitYearShape(date);
    }
  }

  /** `DateYYMMDD.checkDigit` throws exactly for the years -9..-1, and
      then on the minus sign. */
  lemma DateCheckDigitFails(date: CalendarDate)
    requires IsCalendarDate(date)
    ensures CheckDigitOf(YYMMDDString(NewDateYYMMDD(date))).Err? <==> HasNegativeOneDigitYear(date)
    ensures CheckDigitOf(YYMMDDString(NewDateYYMMDD(date))).Err? ==>
              CheckDigitOf(YYMMDDString(NewDateYYMMDD(date))).error == InvalidCharacter(DigitField, "-")
  {
    var s := YYMMDDString(NewDateYYMMDD(date));
    if HasNegativeOneDigitYear(date) {
      NegativeYearEncoding(date);
      CheckDigitStopsAt(s, 0);
    } else {
      DecimalEncoding(date);
      DecimalAreCheckable(s);
      CheckDigitFails(s);
    }
  }

  /** Decimal characters are valid `Digit` characters and not the filler. */
  lemma DecimalAreCheckable(s: string)
    requires AllDecimal(s)
    ensures Checkable(s)
  {
  }
}
