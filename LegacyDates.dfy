/**
 * The older copy of the date helpers in utils.ts. Its `getMinimumBirthDate`,
 * `formatDateForApi` and `convertDate` are the same code as in
 * src/utils/date.ts and are the `Dates` definitions; its `validateBirthDate`
 * differs: it checks the format and the age but never the existence of the
 * day, so a text such as `31.02.2000` is compared as the day the `Date`
 * constructor carries it to.
 */
module LegacyDates {
  import opened Wrappers
  import Dates
  import Text

  /** `validateBirthDate` of utils.ts: format, then age, with no existence check. */
  function ValidateBirthDate(s: string, today: Dates.Date): (r: Result<bool, Dates.DateError>)
    requires Dates.IsValid(today)
    ensures r.Success? ==> r.value
    ensures r.Failure? ==> r.error != Dates.NonExistentDate
    ensures r == Failure(Dates.BadFormat) <==> !Dates.MatchesDatePattern(s)
    ensures Dates.MatchesDatePattern(s) ==>
      var t := Dates.TypedDate(s);
      (r.Success? <==> Dates.NotAfter(Dates.NewDate(t.year, t.month - 1, t.day), Dates.MinimumBirthDate(today)))
  {
    if !Dates.MatchesDatePattern(s) then Failure(Dates.BadFormat)
    else
      var t := Dates.TypedDate(s);
      if Dates.Before(Dates.MinimumBirthDate(today), Dates.NewDate(t.year, t.month - 1, t.day)) then
        Failure(Dates.UnderAge)
      else Success(true)
  }

  /**
   * On texts naming a real day in a year from 0100, the two versions give the
   * same answer; they can only differ on days that do not exist.
   */
  lemma AgreeOnRealDays(s: string, today: Dates.Date)
    requires Dates.IsValid(today)
    requires Dates.MatchesDatePattern(s)
    requires Dates.IsValid(Dates.TypedDate(s)) && Dates.TypedDate(s).year >= 100
    ensures ValidateBirthDate(s, today) == Dates.ValidateBirthDate(s, today)
  {
    var t := Dates.TypedDate(s);
    Dates.RoundTripExact(t.year, t.month, t.day);
  }

  /** Everything the corrected validation accepts, the legacy one accepts too. */
  lemma LegacyAcceptsMore(s: string, today: Dates.Date)
    requires Dates.IsValid(today)
    ensures Dates.ValidateBirthDate(s, today).Success? ==> ValidateBirthDate(s, today).Success?
  {
    if Dates.ValidateBirthDate(s, today).Success? {
      Dates.ValidateBirthDateAccepts(s, today);
      AgreeOnRealDays(s, today);
    }
  }

  /**
   * A typed day past the end of its month, by no more than the next month's
   * length, is judged as that day of the next month by the legacy version,
   * while the corrected version rejects it as a day that does not exist.
   */
  lemma OverflowJudgedInNextMonth(s: string, today: Dates.Date)
    requires Dates.IsValid(today) && Dates.MatchesDatePattern(s)
    requires var t := Dates.TypedDate(s);
      && 1 <= t.month <= 12 && t.year >= 100
      && Dates.DaysInMonth(t.year, t.month) < t.day
      && t.day <= Dates.DaysInMonth(t.year, t.month)
                  + Dates.DaysInMonth(if t.month == 12 then t.year + 1 else t.year, if t.month == 12 then 1 else t.month + 1)
    ensures var t := Dates.TypedDate(s);
      var next := Dates.Date(if t.month == 12 then t.year + 1 else t.year, if t.month == 12 then 1 else t.month + 1,
                             t.day - Dates.DaysInMonth(t.year, t.month));
      && Dates.IsValid(next)
      && (ValidateBirthDate(s, today).Success? <==> Dates.NotAfter(next, Dates.MinimumBirthDate(today)))
    ensures Dates.ValidateBirthDate(s, today) == Failure(Dates.NonExistentDate)
  {
    var t := Dates.TypedDate(s);
    Dates.CarryIntoNextMonth(t.year, t.month, t.day);
    assert Dates.NewDate(t.year, t.month - 1, t.day) == Dates.CarryDays(t.year, t.month, t.day);
    Dates.ConvertDateAccepts(s);
  }

  /**
   * The 31st of February 2000 is carried to the 2nd of March 2000 and accepted
   * as an adult's birthday by the legacy version; the corrected version
   * rejects it as a day that does not exist.
   */
  lemma AcceptsNonExistentDay()
    ensures Dates.NewDate(2000, 1, 31) == Dates.Date(2000, 3, 2)
    ensures ValidateBirthDate("31.02.2000", Dates.Date(2026, 10, 15)) == Success(true)
    ensures Dates.ValidateBirthDate("31.02.2000", Dates.Date(2026, 10, 15)) == Failure(Dates.NonExistentDate)
  {
    var s := "31.02.2000";
    var today := Dates.Date(2026, 10, 15);
    assert Dates.CarryDays(2000, 3, 2) == Dates.Date(2000, 3, 2);
    assert Dates.CarryDays(2000, 2, 31) == Dates.Date(2000, 3, 2);
    assert Text.Digits2(31) == "31" && Text.Digits2(2) == "02" && Text.Digits4(2000) == "2000";
    assert s == Text.Digits2(31) + "." + Text.Digits2(2) + "." + Text.Digits4(2000);
    assert s[0..2] == Text.Digits2(31) && s[3..5] == Text.Digits2(2) && s[6..10] == Text.Digits4(2000);
    Text.Digits2Value(31);
    Text.Digits2Value(2);
    Text.Digits4Value(2000);
    assert Dates.TypedDate(s) == Dates.Date(2000, 2, 31);
    Dates.MinimumBirthDateIsDayBefore(today);
    assert Dates.IsValid(Dates.Date(2000, 3, 2));
    Dates.ExistenceRejects(s, 31, 2, 2000);
  }
}
