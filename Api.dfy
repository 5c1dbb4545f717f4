/**
 * The CRM client logic of src/api/index.ts that is not transport: how
 * `registerUser` turns a response into success or one of three errors, and
 * how `calculateOperations` counts a manager's operations in a bonus list.
 * The HTTP call itself is an input: the response it returned, or the message
 * of the error it threw.
 */
module Api {
  import opened Wrappers
  import opened Text
  import opened Sorting

  /** The body of a registration response; `validation` is `details.validation`. */
  datatype RegisterResponse = RegisterResponse(
    status: string,
    message: Option<string>,
    validation: Option<map<string, seq<string>>>)

  /** The errors `registerUser` throws. */
  datatype RegisterError =
    | PromoCodeError(message: string)
    | ValidationError(message: string, details: map<string, seq<string>>)
    | OtherError(message: string)

  const DefaultRegisterError: string := "Неизвестная ошибка регистрации"
  const PromoCodeField: string := "promoCode"

  /** `data.message || default`: an absent or empty message falls back to the default. */
  function ErrorMessage(response: RegisterResponse): (m: string)
    ensures m != ""
    ensures response.message.Some? && response.message.value != "" ==> m == response.message.value
  {
    match response.message
    case Some(text) => if text != "" then text else DefaultRegisterError
    case None => DefaultRegisterError
  }

  /**
   * `registerUser` after the request: a transport failure propagates; a
   * response with status `"error"` throws; any other response is returned.
   */
  function RegisterUser(post: Result<RegisterResponse, string>): (r: Result<RegisterResponse, RegisterError>)
    ensures r.Success? <==> post.Success? && post.value.status != "error"
    ensures r.Success? ==> r.value == post.value
    ensures post.Failure? ==> r == Failure(OtherError(post.error))
    ensures r.Failure? && r.error.ValidationError? ==>
      post.Success? && post.value.validation == Some(r.error.details)
      && PromoCodeField !in r.error.details
  {
    match post
    case Failure(e) => Failure(OtherError(e))
    case Success(data) =>
      if data.status == "error" then
        var errorMessage := ErrorMessage(data);
        match data.validation
        case Some(details) =>
          if PromoCodeField in details then Failure(PromoCodeError(Join(details[PromoCodeField], ", ")))
          else Failure(ValidationError(errorMessage, details))
        case None => Failure(OtherError(errorMessage))
      else Success(data)
  }

  /** How an error response is classified, case by case. */
  lemma ErrorResponseClassified(data: RegisterResponse)
    requires data.status == "error"
    ensures data.validation.Some? && PromoCodeField in data.validation.value ==>
      RegisterUser(Success(data)) == Failure(PromoCodeError(Join(data.validation.value[PromoCodeField], ", ")))
    ensures data.validation.Some? && PromoCodeField !in data.validation.value ==>
      RegisterUser(Success(data)) == Failure(ValidationError(ErrorMessage(data), data.validation.value))
    ensures data.validation.None? ==> RegisterUser(Success(data)) == Failure(OtherError(ErrorMessage(data)))
  {
  }

  /** `Number(text)` compared with zero; `NaN` compares false with everything. */
  datatype Sign = Negative | Zero | Positive | NotANumber

  /** One bonus-list entry; the date is its timestamp. */
  datatype Bonus = Bonus(idBonus: int, value: string, orderPrice: string, date: int)

  datatype OperationsResult = OperationsResult(totalOperations: int, registrations: int, usages: int)

  function BonusKey(b: Bonus): Key {
    Key(b.date, b.idBonus)
  }

  /** The copy of the list sorted by date, then by numeric id. */
  function SortBonuses(list: seq<Bonus>): (r: seq<Bonus>)
    ensures SortedBy(r, BonusKey)
    ensures multiset(r) == multiset(list)
  {
    SortBy(list, BonusKey)
  }

  /** The value of the welcome write-off, and the order price of an entry with no order. */
  const WelcomeValue: string := "-100"
  const NoOrderPrice: string := "0.00"

  /** A welcome bonus of exactly `-100` with no order, followed by a credit. */
  predicate RegistrationPair(current: Bonus, next: Bonus, num: string -> Sign) {
    current.value == WelcomeValue && current.orderPrice == NoOrderPrice && num(next.value) == Positive
  }

  /** A write-off with no order followed by a credit for a paid order. */
  predicate UsagePair(current: Bonus, next: Bonus, num: string -> Sign) {
    && num(current.value) == Negative && current.orderPrice == NoOrderPrice
    && num(next.value) == Positive && num(next.orderPrice) == Positive
  }

  /** A credit for a paid order on its own. */
  predicate SingleCredit(current: Bonus, num: string -> Sign) {
    num(current.value) == Positive && num(current.orderPrice) == Positive
  }

  function Plus(a: OperationsResult, b: OperationsResult): OperationsResult {
    OperationsResult(a.totalOperations + b.totalOperations, a.registrations + b.registrations, a.usages + b.usages)
  }

  const OneRegistration := OperationsResult(1, 1, 0)
  const OneUsage := OperationsResult(1, 0, 1)
  const NoOperations := OperationsResult(0, 0, 0)

  /**
   * The counts of the scan from position `i` of the sorted list on. At each
   * position a registration pair is tried first, then a usage pair, then a
   * single credit; a pair consumes two entries, anything else one.
   */
  function CountFrom(s: seq<Bonus>, i: nat, num: string -> Sign): OperationsResult
    requires i <= |s|
    decreases |s| - i
  {
    if i == |s| then NoOperations
    else if i + 1 < |s| && RegistrationPair(s[i], s[i + 1], num) then Plus(OneRegistration, CountFrom(s, i + 2, num))
    else if i + 1 < |s| && UsagePair(s[i], s[i + 1], num) then Plus(OneUsage, CountFrom(s, i + 2, num))
    else if SingleCredit(s[i], num) then Plus(OneUsage, CountFrom(s, i + 1, num))
    else CountFrom(s, i + 1, num)
  }

  /**
   * Every counted operation is one registration or one usage; a registration
   * consumes two entries and a usage at least one, so no entry is counted twice.
   */
  lemma {:induction false} CountFromBounds(s: seq<Bonus>, i: nat, num: string -> Sign)
    requires i <= |s|
    ensures CountFrom(s, i, num).totalOperations == CountFrom(s, i, num).registrations + CountFrom(s, i, num).usages
    ensures 0 <= CountFrom(s, i, num).registrations && 0 <= CountFrom(s, i, num).usages
    ensures 2 * CountFrom(s, i, num).registrations + CountFrom(s, i, num).usages <= |s| - i
    decreases |s| - i
  {
    if i == |s| {
    } else if i + 1 < |s| && RegistrationPair(s[i], s[i + 1], num) {
      CountFromBounds(s, i + 2, num);
      assert CountFrom(s, i, num) == Plus(OneRegistration, CountFrom(s, i + 2, num));
    } else if i + 1 < |s| && UsagePair(s[i], s[i + 1], num) {
      CountFromBounds(s, i + 2, num);
      assert CountFrom(s, i, num) == Plus(OneUsage, CountFrom(s, i + 2, num));
    } else if SingleCredit(s[i], num) {
      CountFromBounds(s, i + 1, num);
      assert CountFrom(s, i, num) == Plus(OneUsage, CountFrom(s, i + 1, num));
    } else {
      CountFromBounds(s, i + 1, num);
      assert CountFrom(s, i, num) == CountFrom(s, i + 1, num);
    }
  }

  /** A list with no credit in it counts no operation. */
  lemma {:induction false} NoCreditsNoOperations(s: seq<Bonus>, i: nat, num: string -> Sign)
    requires i <= |s|
    requires forall j :: 0 <= j < |s| ==> num(s[j].value) != Positive
    ensures CountFrom(s, i, num) == NoOperations
    decreases |s| - i
  {
    if i < |s| {
      NoCreditsNoOperations(s, i + 1, num);
    }
  }

  /** The counters of the loop, after the first `i` entries, plus what the rest counts give the whole count. */
  ghost predicate Scanned(s: seq<Bonus>, i: nat, num: string -> Sign, total: int, registrations: int, usages: int)
    requires i <= |s|
  {
    && total + CountFrom(s, i, num).totalOperations == CountFrom(s, 0, num).totalOperations
    && registrations + CountFrom(s, i, num).registrations == CountFrom(s, 0, num).registrations
    && usages + CountFrom(s, i, num).usages == CountFrom(s, 0, num).usages
  }

  /** Counting a registration pair and skipping both entries keeps the counters right. */
  lemma RegistrationStep(s: seq<Bonus>, i: nat, num: string -> Sign, total: int, registrations: int, usages: int)
    requires i + 1 < |s| && RegistrationPair(s[i], s[i + 1], num)
    requires Scanned(s, i, num, total, registrations, usages)
    ensures Scanned(s, i + 2, num, total + 1, registrations + 1, usages)
  {
    assert CountFrom(s, i, num) == Plus(OneRegistration, CountFrom(s, i + 2, num));
  }

  /** Counting a usage pair that is not a registration pair and skipping both entries keeps the counters right. */
  lemma UsagePairStep(s: seq<Bonus>, i: nat, num: string -> Sign, total: int, registrations: int, usages: int)
    requires i + 1 < |s| && !RegistrationPair(s[i], s[i + 1], num) && UsagePair(s[i], s[i + 1], num)
    requires Scanned(s, i, num, total, registrations, usages)
    ensures Scanned(s, i + 2, num, total + 1, registrations, usages + 1)
  {
    assert CountFrom(s, i, num) == Plus(OneUsage, CountFrom(s, i + 2, num));
  }

  /** Where no pair starts, a single credit counts one usage and anything else nothing. */
  lemma SingleStep(s: seq<Bonus>, i: nat, num: string -> Sign, total: int, registrations: int, usages: int)
    requires i < |s| && Scanned(s, i, num, total, registrations, usages)
    requires !(i + 1 < |s| && RegistrationPair(s[i], s[i + 1], num))
    requires !(i + 1 < |s| && UsagePair(s[i], s[i + 1], num))
    ensures SingleCredit(s[i], num) ==> Scanned(s, i + 1, num, total + 1, registrations, usages + 1)
    ensures !SingleCredit(s[i], num) ==> Scanned(s, i + 1, num, total, registrations, usages)
  {
  }

  /** `calculateOperations` on the fetched list. */
  method CalculateOperations(bonusList: seq<Bonus>, num: string -> Sign) returns (r: OperationsResult)
    ensures r == CountFrom(SortBonuses(bonusList), 0, num)
    ensures r.totalOperations == r.registrations + r.usages
    ensures r.totalOperations <= |bonusList| && 2 * r.registrations <= |bonusList|
  {
    var sorted := SortBonuses(bonusList);
    assert |sorted| == |multiset(sorted)| == |bonusList|;
    var totalOperations, registrations, usages := 0, 0, 0;
    var i := 0;
    while i < |sorted|
      invariant 0 <= i <= |sorted|
      invariant Scanned(sorted, i, num, totalOperations, registrations, usages)
      decreases |sorted| - i
    {
      var current := sorted[i];
      var next: Option<Bonus> := if i < |sorted| - 1 then Some(sorted[i + 1]) else None;
      if next.Some? && RegistrationPair(current, next.value, num) {
        RegistrationStep(sorted, i, num, totalOperations, registrations, usages);
        registrations := registrations + 1;
        totalOperations := totalOperations + 1;
        i := i + 2;
      } else if next.Some? && UsagePair(current, next.value, num) {
        UsagePairStep(sorted, i, num, totalOperations, registrations, usages);
        usages := usages + 1;
        totalOperations := totalOperations + 1;
        i := i + 2;
      } else if SingleCredit(current, num) {
        SingleStep(sorted, i, num, totalOperations, registrations, usages);
        usages := usages + 1;
        totalOperations := totalOperations + 1;
        i := i + 1;
      } else {
        SingleStep(sorted, i, num, totalOperations, registrations, usages);
        i := i + 1;
      }
    }
    r := OperationsResult(totalOperations, registrations, usages);
    CountFromBounds(sorted, 0, num);
  }
}
