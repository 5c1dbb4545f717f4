/**
 * The phone normaliser `validateAndFormatPhone` (src/utils/phone.ts): keep only
 * ASCII digits and `+`, then accept one of four shapes and rewrite it to the
 * canonical 11 digits beginning with `7`.
 */
module Phone {
  import opened Wrappers
  import opened Text

  /** The `{ isValid, formattedPhone }` object the function returns. */
  datatype Validation = Validation(isValid: bool, formattedPhone: Option<string>)

  /** `phone.replace(/[^\d+]/g, '')`. */
  function Clean(s: string): (r: string)
    ensures |r| <= |s|
    ensures forall i :: 0 <= i < |r| ==> IsDigit(r[i]) || r[i] == '+'
  {
    if s == [] then []
    else (if IsDigit(s[0]) || s[0] == '+' then [s[0]] else []) + Clean(s[1..])
  }

  /** `/^\d{10}$/` */
  predicate IsTenDigits(c: string) {
    |c| == 10 && AllDigits(c)
  }

  /** `/^\+7\d{10}$/` */
  predicate IsPlusSeven(c: string) {
    |c| == 12 && c[0] == '+' && c[1] == '7' && AllDigits(c[2..])
  }

  /** `/^7\d{10}$/` */
  predicate IsSevenLed(c: string) {
    |c| == 11 && c[0] == '7' && AllDigits(c[1..])
  }

  /** `/^8\d{10}$/` */
  predicate IsEightLed(c: string) {
    |c| == 11 && c[0] == '8' && AllDigits(c[1..])
  }

  /** The canonical form: exactly 11 ASCII digits, the first one `7`. */
  predicate IsCanonical(p: string) {
    |p| == 11 && p[0] == '7' && AllDigits(p)
  }

  /** The four-way shape test on the cleaned text; `None` is the rejecting `else`. */
  function Format(c: string): (r: Option<string>)
    ensures r.Some? ==> IsCanonical(r.value)
    ensures r.Some? <==> IsTenDigits(c) || IsPlusSeven(c) || IsSevenLed(c) || IsEightLed(c)
  {
    if IsTenDigits(c) then Some("7" + c)
    else if IsPlusSeven(c) then Some(c[1..])
    else if IsSevenLed(c) then Some(c)
    else if IsEightLed(c) then Some("7" + c[1..])
    else None
  }

  function ValidateAndFormatPhone(phone: string): (v: Validation)
    ensures v.isValid <==> v.formattedPhone.Some?
    ensures v.formattedPhone.Some? ==> IsCanonical(v.formattedPhone.value)
    ensures phone == "" ==> v == Validation(false, None)
  {
    if phone == "" then Validation(false, None)
    else match Format(Clean(phone))
      case Some(p) => Validation(true, Some(p))
      case None => Validation(false, None)
  }

  /** The normalised number, for callers that already know the text is valid. */
  function Normalised(phone: string): (p: string)
    requires ValidateAndFormatPhone(phone).isValid
    ensures IsCanonical(p)
  {
    ValidateAndFormatPhone(phone).formattedPhone.value
  }

  lemma {:induction false} CleanAppend(a: string, b: string)
    ensures Clean(a + b) == Clean(a) + Clean(b)
  {
    if a != [] {
      assert (a + b)[1..] == a[1..] + b;
      CleanAppend(a[1..], b);
    } else {
      assert a + b == b;
    }
  }

  lemma {:induction false} CleanKeeps(s: string)
    requires forall i :: 0 <= i < |s| ==> IsDigit(s[i]) || s[i] == '+'
    ensures Clean(s) == s
  {
    if s != [] {
      CleanKeeps(s[1..]);
    }
  }

  lemma {:induction false} CleanDrops(s: string)
    requires forall i :: 0 <= i < |s| ==> !IsDigit(s[i]) && s[i] != '+'
    ensures Clean(s) == ""
  {
    if s != [] {
      CleanDrops(s[1..]);
    }
  }

  /**
   * Only digits and `+` influence the outcome: inserting any text that holds
   * neither leaves the result unchanged.
   */
  lemma InsertingNoise(a: string, noise: string, b: string)
    requires forall i :: 0 <= i < |noise| ==> !IsDigit(noise[i]) && noise[i] != '+'
    ensures ValidateAndFormatPhone(a + noise + b) == ValidateAndFormatPhone(a + b)
  {
    CleanAppend(a + noise, b);
    CleanAppend(a, noise);
    CleanAppend(a, b);
    CleanDrops(noise);
    assert Clean(a + noise + b) == Clean(a) + Clean(b) == Clean(a + b);
    if a + b == "" {
      NothingLeftRejected(a + noise + b);
    } else {
      assert |a + noise + b| >= |a + b| > 0;
      SameCleanSameResult(a + noise + b, a + b);
    }
  }

  /** Two non-empty texts that clean to the same characters get the same result. */
  lemma SameCleanSameResult(p: string, q: string)
    requires p != "" && q != "" && Clean(p) == Clean(q)
    ensures ValidateAndFormatPhone(p) == ValidateAndFormatPhone(q)
  {
  }

  /** A text with no digit and no `+` in it is rejected. */
  lemma NothingLeftRejected(p: string)
    requires Clean(p) == ""
    ensures ValidateAndFormatPhone(p) == Validation(false, None)
  {
    assert Format("") == None;
  }

  /** For ten digits `d`, the inputs `d`, `+7d`, `7d` and `8d` all give `7d`. */
  lemma FourShapesAgree(d: string)
    requires IsTenDigits(d)
    ensures ValidateAndFormatPhone(d) == Validation(true, Some("7" + d))
    ensures ValidateAndFormatPhone("+7" + d) == Validation(true, Some("7" + d))
    ensures ValidateAndFormatPhone("7" + d) == Validation(true, Some("7" + d))
    ensures ValidateAndFormatPhone("8" + d) == Validation(true, Some("7" + d))
  {
    CleanKeeps(d);
    CleanKeeps("+7" + d);
    CleanKeeps("7" + d);
    CleanKeeps("8" + d);
    assert ("+7" + d)[1..] == "7" + d;
    assert ("+7" + d)[2..] == d;
    assert ("7" + d)[1..] == d;
    assert ("8" + d)[1..] == d;
  }

  /** Validating an already formatted number returns it unchanged. */
  lemma Idempotent(phone: string)
    requires ValidateAndFormatPhone(phone).isValid
    ensures ValidateAndFormatPhone(Normalised(phone)) == Validation(true, Some(Normalised(phone)))
  {
    var p := Normalised(phone);
    CleanKeeps(p);
    assert p[1..] == p[1..];
  }

  /** Every cleaned shape other than the four is rejected, with no partial result. */
  lemma OtherShapesRejected(phone: string)
    requires !(IsTenDigits(Clean(phone)) || IsPlusSeven(Clean(phone))
               || IsSevenLed(Clean(phone)) || IsEightLed(Clean(phone)))
    ensures ValidateAndFormatPhone(phone) == Validation(false, None)
  {
  }

  /** Lengths other than 10, 11 and 12 after cleaning, and a `+` anywhere but first, are rejected. */
  lemma {:induction false} MalformedRejected(phone: string)
    requires var c := Clean(phone);
             || (|c| != 10 && |c| != 11 && |c| != 12)
             || (exists i :: 1 <= i < |c| && c[i] == '+')
             || (|c| == 11 && c[0] != '7' && c[0] != '8')
             || (|c| == 12 && (c[0] != '+' || c[1] != '7'))
    ensures !ValidateAndFormatPhone(phone).isValid
  {
    var c := Clean(phone);
    if exists i :: 1 <= i < |c| && c[i] == '+' {
      var i :| 1 <= i < |c| && c[i] == '+';
      assert !IsTenDigits(c) && !IsSevenLed(c) && !IsEightLed(c);
      if |c| == 12 && i >= 2 {
        assert c[2..][i - 2] == '+';
      }
    }
  }
}
