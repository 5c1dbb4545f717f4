/**
 * Birth-date handling of src/utils/date.ts: the JavaScript `Date` arithmetic it
 * relies on, the minimum birth date (today minus 18 years minus one day), the
 * API format `YYYY-MM-DD`, and the parsing and validation of `DD.MM.YYYY`.
 *
 * A `Date` here is a local calendar day with a 1-based month. The clock is a
 * parameter `today`. The time of day is not represented: `getMinimumBirthDate`
 * keeps the current time while `new Date(y, m, d)` is midnight, so the source's
 * comparison `birthDate > minDate` holds exactly when the birth day is a later
 * calendar day than the minimum day, which is what `Before` says.
 */
module Dates {
  import opened Wrappers
  import opened Text

  datatype Date = Date(year: int, month: int, day: int)

  /** The proleptic Gregorian leap-year rule. */
  predicate IsLeapYear(y: int) {
    y % 4 == 0 && (y % 100 != 0 || y % 400 == 0)
  }

  function DaysInMonth(y: int, m: int): (n: int)
    requires 1 <= m <= 12
    ensures 28 <= n <= 31
    ensures n == 29 <==> m == 2 && IsLeapYear(y)
  {
    if m == 2 then (if IsLeapYear(y) then 29 else 28)
    else if m == 4 || m == 6 || m == 9 || m == 11 then 30
    else 31
  }

  /** A day that exists in the Gregorian calendar. */
  predicate IsValid(d: Date) {
    1 <= d.month <= 12 && 1 <= d.day <= DaysInMonth(d.year, d.month)
  }

  /** `a` is an earlier calendar day than `b`. */
  predicate Before(a: Date, b: Date) {
    || a.year < b.year
    || (a.year == b.year && (a.month < b.month || (a.month == b.month && a.day < b.day)))
  }

  predicate NotAfter(a: Date, b: Date) {
    !Before(b, a)
  }

  /**
   * How a `Date` absorbs a day of the month outside 1..length: day 0 is the
   * last day of the previous month, day 32 of January is the 1st of February.
   */
  function CarryDays(y: int, m: int, d: int): (r: Date)
    requires 1 <= m <= 12
    ensures IsValid(r)
    ensures 1 <= d <= DaysInMonth(y, m) ==> r == Date(y, m, d)
    decreases if d < 1 then 1 - d else 0, if d < 1 then 0 else d
  {
    if d < 1 then
      var py := if m == 1 then y - 1 else y;
      var pm := if m == 1 then 12 else m - 1;
      CarryDays(py, pm, d + DaysInMonth(py, pm))
    else if d > DaysInMonth(y, m) then
      var ny := if m == 12 then y + 1 else y;
      var nm := if m == 12 then 1 else m + 1;
      CarryDays(ny, nm, d - DaysInMonth(y, m))
    else Date(y, m, d)
  }

  /** The calendar day after a real day. */
  function NextDay(d: Date): (r: Date)
    requires IsValid(d)
    ensures IsValid(r) && Before(d, r)
    ensures forall b :: Before(d, b) && Before(b, r) ==> !IsValid(b)
  {
    if d.day < DaysInMonth(d.year, d.month) then Date(d.year, d.month, d.day + 1)
    else if d.month < 12 then Date(d.year, d.month + 1, 1)
    else Date(d.year + 1, 1, 1)
  }

  /**
   * Day number `d + 1` of a month lands on the day after day number `d`, so
   * together with the in-range case this fixes the day any overflowing or
   * underflowing day number denotes.
   */
  lemma {:induction false} CarryDaysNext(y: int, m: int, d: int)
    requires 1 <= m <= 12
    ensures CarryDays(y, m, d + 1) == NextDay(CarryDays(y, m, d))
    decreases if d < 1 then 1 - d else 0, if d < 1 then 0 else d
  {
    if d < 0 {
      var py := if m == 1 then y - 1 else y;
      var pm := if m == 1 then 12 else m - 1;
      CarryDaysNext(py, pm, d + DaysInMonth(py, pm));
    } else if d == 0 {
      var py := if m == 1 then y - 1 else y;
      var pm := if m == 1 then 12 else m - 1;
      assert CarryDays(y, m, 0) == Date(py, pm, DaysInMonth(py, pm));
    } else if d > DaysInMonth(y, m) {
      var ny := if m == 12 then y + 1 else y;
      var nm := if m == 12 then 1 else m + 1;
      CarryDaysNext(ny, nm, d - DaysInMonth(y, m));
    } else if d == DaysInMonth(y, m) {
      var ny := if m == 12 then y + 1 else y;
      var nm := if m == 12 then 1 else m + 1;
      assert CarryDays(y, m, d + 1) == CarryDays(ny, nm, 1);
    }
  }

  /**
   * A day number past the end of the month, by no more than the next month's
   * length, lands in the next month.
   */
  lemma CarryIntoNextMonth(y: int, m: int, d: int)
    requires 1 <= m <= 12
    requires DaysInMonth(y, m) < d <= DaysInMonth(y, m) + DaysInMonth(if m == 12 then y + 1 else y, if m == 12 then 1 else m + 1)
    ensures CarryDays(y, m, d) == Date(if m == 12 then y + 1 else y, if m == 12 then 1 else m + 1, d - DaysInMonth(y, m))
  {
    var ny := if m == 12 then y + 1 else y;
    var nm := if m == 12 then 1 else m + 1;
    assert CarryDays(ny, nm, d - DaysInMonth(y, m)) == Date(ny, nm, d - DaysInMonth(y, m));
  }

  /**
   * The day a `Date` holds after being given a full year, a 0-based month
   * index and a day of the month (as `setFullYear` / `setDate` do): month
   * indexes outside 0..11 carry into the year, then days carry into months.
   */
  function MakeDate(y: int, monthIndex: int, day: int): (r: Date)
    ensures IsValid(r)
  {
    if 0 <= monthIndex < 12 then CarryDays(y, monthIndex + 1, day)
    else CarryDays(y + monthIndex / 12, monthIndex % 12 + 1, day)
  }

  /** The `Date` constructor reads a year from 0 to 99 as 1900 to 1999. */
  function ConstructorYear(y: int): int {
    if 0 <= y <= 99 then 1900 + y else y
  }

  /** `new Date(year, monthIndex, day)`. */
  function NewDate(year: int, monthIndex: int, day: int): (r: Date)
    ensures IsValid(r)
  {
    MakeDate(ConstructorYear(year), monthIndex, day)
  }

  lemma MakeDateOfValid(d: Date)
    requires IsValid(d)
    ensures MakeDate(d.year, d.month - 1, d.day) == d
  {
  }

  /** `getMinimumBirthDate()`: `setFullYear(year - 18)`, then `setDate(date - 1)`. */
  function MinimumBirthDate(today: Date): (r: Date)
    requires IsValid(today)
    ensures IsValid(r)
  {
    var shifted := MakeDate(today.year - 18, today.month - 1, today.day);
    MakeDate(shifted.year, shifted.month - 1, shifted.day - 1)
  }

  /** Today's month and day, 18 years back (not a real day when today is 29 February). */
  function Anniversary(today: Date): Date {
    Date(today.year - 18, today.month, today.day)
  }

  /**
   * The minimum birth date is the last real day before the 18th anniversary:
   * it is earlier, and every real day earlier than the anniversary is not
   * later than it.
   */
  lemma MinimumBirthDateIsDayBefore(today: Date)
    requires IsValid(today)
    ensures Before(MinimumBirthDate(today), Anniversary(today))
    ensures forall b :: IsValid(b) && Before(b, Anniversary(today)) ==> NotAfter(b, MinimumBirthDate(today))
    ensures MinimumBirthDate(today).year >= today.year - 19
  {
    var y, m, d := today.year - 18, today.month, today.day;
    MinimumBirthDateValue(today);
    if d <= DaysInMonth(y, m) && d == 1 {
      var py := if m == 1 then y - 1 else y;
      var pm := if m == 1 then 12 else m - 1;
      assert MinimumBirthDate(today) == Date(py, pm, DaysInMonth(py, pm));
    }
  }

  /**
   * The minimum birth date case by case: the day before the anniversary, the
   * last day of the previous month when the anniversary is a 1st, and
   * 28 February when the anniversary is a 29 February that does not exist.
   */
  lemma MinimumBirthDateValue(today: Date)
    requires IsValid(today)
    ensures var y, m, d := today.year - 18, today.month, today.day;
      MinimumBirthDate(today) ==
        if d > DaysInMonth(y, m) then Date(y, 2, 28)
        else if d > 1 then Date(y, m, d - 1)
        else if m == 1 then Date(y - 1, 12, 31)
        else Date(y, m - 1, DaysInMonth(y, m - 1))
  {
    var y, m, d := today.year - 18, today.month, today.day;
    if d <= DaysInMonth(y, m) {
      MinimumOnRealAnniversary(today);
      if d == 1 {
        LastDayOfPreviousMonth(y, m);
      } else {
        assert CarryDays(y, m, d - 1) == Date(y, m, d - 1);
      }
    } else {
      MinimumOnMissingAnniversary(today);
      LastDayOfPreviousMonth(y, 3);
    }
  }

  /** When the anniversary is a real day, the minimum is the day before it, carried. */
  lemma MinimumOnRealAnniversary(today: Date)
    requires IsValid(today) && today.day <= DaysInMonth(today.year - 18, today.month)
    ensures MinimumBirthDate(today) == CarryDays(today.year - 18, today.month, today.day - 1)
  {
    var y, m, d := today.year - 18, today.month, today.day;
    assert MakeDate(y, m - 1, d) == Date(y, m, d);
  }

  /** When the anniversary is a 29 February that does not exist, the minimum is the day before 1 March. */
  lemma MinimumOnMissingAnniversary(today: Date)
    requires IsValid(today) && today.day > DaysInMonth(today.year - 18, today.month)
    ensures MinimumBirthDate(today) == CarryDays(today.year - 18, 3, 0)
  {
    var y, m, d := today.year - 18, today.month, today.day;
    MissingLeapDay(y);
    assert MakeDate(y, m - 1, d) == Date(y, 3, 1);
  }

  /** Day 0 of a month is the last day of the month before. */
  lemma LastDayOfPreviousMonth(y: int, m: int)
    requires 1 <= m <= 12
    ensures CarryDays(y, m, 0) == if m == 1 then Date(y - 1, 12, 31) else Date(y, m - 1, DaysInMonth(y, m - 1))
  {
    var py := if m == 1 then y - 1 else y;
    var pm := if m == 1 then 12 else m - 1;
    assert CarryDays(py, pm, DaysInMonth(py, pm)) == Date(py, pm, DaysInMonth(py, pm));
  }

  /** In a common year, 29 February carries to 1 March. */
  lemma MissingLeapDay(y: int)
    requires !IsLeapYear(y)
    ensures CarryDays(y, 2, 29) == Date(y, 3, 1)
  {
    assert CarryDays(y, 3, 1) == Date(y, 3, 1);
  }

  /** For a real day, being no later than the minimum means being born before the 18th anniversary. */
  lemma AgeRule(today: Date, b: Date)
    requires IsValid(today) && IsValid(b)
    ensures NotAfter(b, MinimumBirthDate(today)) <==> Before(b, Anniversary(today))
  {
    MinimumBirthDateIsDayBefore(today);
  }

  lemma {:induction false} CarryDaysYearBound(y: int, m: int, d: int)
    requires 1 <= m <= 12 && d >= 0
    ensures CarryDays(y, m, d).year >= (if d >= 1 then y else y - 1)
    decreases d
  {
    if d == 0 {
      var py := if m == 1 then y - 1 else y;
      var pm := if m == 1 then 12 else m - 1;
      assert CarryDays(py, pm, DaysInMonth(py, pm)) == Date(py, pm, DaysInMonth(py, pm));
    } else if d > DaysInMonth(y, m) {
      var ny := if m == 12 then y + 1 else y;
      var nm := if m == 12 then 1 else m + 1;
      CarryDaysYearBound(ny, nm, d - DaysInMonth(y, m));
    }
  }

  /**
   * `new Date(y, m - 1, d)` gives back exactly `y`, `m` and `d` for the digit
   * groups of `DD.MM.YYYY` iff the day is real and the year is at least 100
   * (years 0000 to 0099 come back as 1900 to 1999).
   */
  lemma RoundTripExact(y: int, m: int, d: int)
    requires 0 <= y <= 9999 && 0 <= m <= 99 && 0 <= d <= 99
    ensures NewDate(y, m - 1, d) == Date(y, m, d) <==> IsValid(Date(y, m, d)) && y >= 100
  {
    var r := NewDate(y, m - 1, d);
    if IsValid(Date(y, m, d)) && y >= 100 {
      MakeDateOfValid(Date(y, m, d));
    }
    if y <= 99 {
      var cy := ConstructorYear(y);
      assert (m - 1) / 12 >= -1;
      CarryDaysYearBound(cy + (m - 1) / 12, (m - 1) % 12 + 1, d);
      assert r.year >= cy - 2 > y;
    }
  }

  /** `/^(\d{2})\.(\d{2})\.(\d{4})$/` */
  predicate MatchesDatePattern(s: string) {
    |s| == 10 && AllDigits(s[0..2]) && s[2] == '.' && AllDigits(s[3..5]) && s[5] == '.' && AllDigits(s[6..10])
  }

  /** The numbers of the three digit groups of a `DD.MM.YYYY` text. */
  function TypedDate(s: string): (d: Date)
    requires MatchesDatePattern(s)
    ensures 0 <= d.year <= 9999 && 0 <= d.month <= 99 && 0 <= d.day <= 99
  {
    Digits2Bound(s[0..2]);
    Digits2Bound(s[3..5]);
    Digits4Bound(s[6..10]);
    Date(DigitsValue(s[6..10]), DigitsValue(s[3..5]), DigitsValue(s[0..2]))
  }

  lemma Digits2Bound(s: string)
    requires |s| == 2 && AllDigits(s)
    ensures DigitsValue(s) <= 99
  {
    assert s[..1][..0] == [];
    assert DigitsValue(s[..1]) == DigitValue(s[0]);
  }

  lemma Digits4Bound(s: string)
    requires |s| == 4 && AllDigits(s)
    ensures DigitsValue(s) <= 9999
  {
    var s1, s2, s3 := s[..1], s[..2], s[..3];
    assert s1[..0] == [] && s2[..1] == s1 && s3[..2] == s2;
    assert DigitsValue(s1) <= 9;
    assert DigitsValue(s2) <= 99;
    assert DigitsValue(s3) <= 999;
  }

  datatype DateError =
    | BadFormat        // "Неверный формат даты..."
    | NonExistentDate  // "Указана несуществующая дата"
    | UnderAge         // "Клиент должен быть старше 18 лет"

  /** The existence check: the `Date` built from the groups gives the groups back. */
  predicate PassesRoundTrip(s: string)
    requires MatchesDatePattern(s)
  {
    var t := TypedDate(s);
    NewDate(t.year, t.month - 1, t.day) == t
  }

  /** `convertDate`: `DD.MM.YYYY` to `YYYY-MM-DD`, or the error it throws. */
  function ConvertDate(s: string): (r: Result<string, DateError>)
    ensures r.Success? ==> |r.value| == 10 && r.value[4] == '-' && r.value[7] == '-'
    ensures r.Success? ==> |s| == 10 && r.value[0..4] == s[6..10] && r.value[5..7] == s[3..5] && r.value[8..10] == s[0..2]
  {
    if !MatchesDatePattern(s) then Failure(BadFormat)
    else if !PassesRoundTrip(s) then Failure(NonExistentDate)
    else Success(s[6..10] + "-" + s[3..5] + "-" + s[0..2])
  }

  /** `convertDate` accepts exactly the well-formed texts of real days in years 0100 to 9999. */
  lemma ConvertDateAccepts(s: string)
    ensures ConvertDate(s).Success? <==>
      MatchesDatePattern(s) && IsValid(TypedDate(s)) && TypedDate(s).year >= 100
    ensures !MatchesDatePattern(s) ==> ConvertDate(s) == Failure(BadFormat)
  {
    if MatchesDatePattern(s) {
      var t := TypedDate(s);
      RoundTripExact(t.year, t.month, t.day);
    }
  }

  /**
   * `validateBirthDate`: format, then existence, then age; the error names the
   * first check that fails. It returns `true` when it does not throw.
   */
  function ValidateBirthDate(s: string, today: Date): (r: Result<bool, DateError>)
    requires IsValid(today)
    ensures r.Success? ==> r.value && ConvertDate(s).Success?
    ensures r.Failure? && r.error != UnderAge ==> ConvertDate(s) == Failure(r.error)
  {
    if !MatchesDatePattern(s) then Failure(BadFormat)
    else if !PassesRoundTrip(s) then Failure(NonExistentDate)
    else
      var t := TypedDate(s);
      if Before(MinimumBirthDate(today), NewDate(t.year, t.month - 1, t.day)) then Failure(UnderAge)
      else Success(true)
  }

  /** `validateBirthDate` accepts exactly the real days born before the 18th anniversary. */
  lemma ValidateBirthDateAccepts(s: string, today: Date)
    requires IsValid(today)
    ensures ValidateBirthDate(s, today).Success? <==>
      && MatchesDatePattern(s)
      && IsValid(TypedDate(s)) && TypedDate(s).year >= 100
      && Before(TypedDate(s), Anniversary(today))
  {
    if MatchesDatePattern(s) {
      var t := TypedDate(s);
      RoundTripExact(t.year, t.month, t.day);
      if IsValid(t) {
        AgeRule(today, t);
      }
    }
  }

  /** `formatDateForApi`: the year as `String(year)`, then the 1-based month and the day padded to two digits. */
  function FormatDateForApi(d: Date): string
    requires IsValid(d)
  {
    IntString(d.year) + "-" + PadStart2(NatString(d.month)) + "-" + PadStart2(NatString(d.day))
  }

  /** For a year of four digits the API date is exactly `YYYY-MM-DD`. */
  lemma FormatDateForApiDigits(d: Date)
    requires IsValid(d) && 1000 <= d.year <= 9999
    ensures FormatDateForApi(d) == Digits4(d.year) + "-" + Digits2(d.month) + "-" + Digits2(d.day)
    ensures |FormatDateForApi(d)| == 10
  {
    FourDigitNatString(d.year);
    PaddedIsTwoDigits(d.month);
    PaddedIsTwoDigits(d.day);
  }

  /** `getCurrentDateForApi()`. */
  function CurrentDateForApi(today: Date): string
    requires IsValid(today)
  {
    FormatDateForApi(today)
  }

  /** The birth date stored when the operator skips the question. */
  function DefaultBirthDate(today: Date): string
    requires IsValid(today)
  {
    FormatDateForApi(MinimumBirthDate(today))
  }

  /** How an operator types a day: `DD.MM.YYYY`. */
  function TypedText(d: Date): (s: string)
    requires IsValid(d) && 0 <= d.year <= 9999
    ensures MatchesDatePattern(s)
  {
    var s := Digits2(d.day) + "." + Digits2(d.month) + "." + Digits4(d.year);
    assert s[0..2] == Digits2(d.day) && s[3..5] == Digits2(d.month) && s[6..10] == Digits4(d.year);
    s
  }

  lemma TypedTextReadsBack(d: Date)
    requires IsValid(d) && 0 <= d.year <= 9999
    ensures TypedDate(TypedText(d)) == d
  {
    var s := TypedText(d);
    assert s[0..2] == Digits2(d.day) && s[3..5] == Digits2(d.month) && s[6..10] == Digits4(d.year);
    Digits2Value(d.day);
    Digits2Value(d.month);
    Digits4Value(d.year);
  }

  /**
   * For a real day in years 1000 to 9999, typing it gives the same API text as
   * formatting it, so the typed and the formatted paths agree.
   */
  lemma TypedAndFormattedAgree(d: Date)
    requires IsValid(d) && 1000 <= d.year <= 9999
    ensures ConvertDate(TypedText(d)) == Success(FormatDateForApi(d))
  {
    var s := TypedText(d);
    TypedTextReadsBack(d);
    ConvertDateAccepts(s);
    FormatDateForApiDigits(d);
    assert s[0..2] == Digits2(d.day) && s[3..5] == Digits2(d.month) && s[6..10] == Digits4(d.year);
  }

  /**
   * Skipping the question and typing the minimum birth date lead to the same
   * stored value, and the typed minimum passes validation.
   */
  lemma SkipMatchesTypedMinimum(today: Date)
    requires IsValid(today) && 1019 <= today.year <= 10017
    ensures var m := MinimumBirthDate(today);
      1000 <= m.year <= 9999
      && ValidateBirthDate(TypedText(m), today).Success?
      && ConvertDate(TypedText(m)) == Success(DefaultBirthDate(today))
  {
    var m := MinimumBirthDate(today);
    MinimumBirthDateIsDayBefore(today);
    TypedAndFormattedAgree(m);
    TypedTextReadsBack(m);
    var s := TypedText(m);
    assert TypedDate(s) == m;
    ValidateBirthDateAccepts(s, today);
  }

  /** A leap day in a year divisible by 400 exists. */
  lemma LeapDayAccepted()
    ensures ConvertDate("29.02.2000") == Success("2000-02-29")
  {
    var d, s := Date(2000, 2, 29), "29.02.2000";
    assert TypedText(d) == s;
    TypedTextReadsBack(d);
    ConvertDateAccepts(s);
    assert s[6..10] + "-" + s[3..5] + "-" + s[0..2] == "2000-02-29";
  }

  /** The 30th of February does not exist. */
  lemma ThirtiethOfFebruaryRejected()
    ensures ConvertDate("30.02.2000") == Failure(NonExistentDate)
  {
    assert Digits2(30) == "30" && Digits2(2) == "02" && Digits4(2000) == "2000";
    ExistenceRejects("30.02.2000", 30, 2, 2000);
  }

  /** 1900 is not a leap year. */
  lemma LeapDay1900Rejected()
    ensures ConvertDate("29.02.1900") == Failure(NonExistentDate)
  {
    assert Digits2(29) == "29" && Digits2(2) == "02" && Digits4(1900) == "1900";
    ExistenceRejects("29.02.1900", 29, 2, 1900);
  }

  /** A year below 0100 does not survive the `Date` constructor. */
  lemma EarlyYearRejected()
    ensures ConvertDate("01.01.0050") == Failure(NonExistentDate)
  {
    assert Digits2(1) == "01" && Digits4(50) == "0050";
    ExistenceRejects("01.01.0050", 1, 1, 50);
  }

  lemma ExistenceRejects(s: string, d: nat, m: nat, y: nat)
    requires d < 100 && m < 100 && y < 10000
    requires s == Digits2(d) + "." + Digits2(m) + "." + Digits4(y)
    requires !IsValid(Date(y, m, d)) || y < 100
    ensures ConvertDate(s) == Failure(NonExistentDate)
  {
    assert s[0..2] == Digits2(d) && s[3..5] == Digits2(m) && s[6..10] == Digits4(y);
    Digits2Value(d);
    Digits2Value(m);
    Digits4Value(y);
    ConvertDateAccepts(s);
  }
}
