/**
 * The registration dialog of src/conversations/registration.ts. The dialog is
 * driven by three inputs: the updates the operator sends while it waits
 * (`events`), what each `registerUser` call gives back (`registers`), and what
 * each card lookup after a successful registration finds (`lookups`). It
 * returns how it ended, the drafts it submitted, and the lookups and pauses it
 * made afterwards. When the updates run out while the dialog is waiting, it is
 * reported as suspended at that step.
 */
module Registration {
  import opened Wrappers
  import Phone
  import Dates
  import Telegram
  import Api
  import UserService

  /** An update the dialog waits for: a text message, or a button press with its data. */
  datatype Event =
    | Message(text: string, entities: Option<seq<Telegram.Entity>>)
    | Callback(data: string)

  /** `response.message && isCommand(response.message)`. */
  predicate IsCancel(e: Event) {
    e.Message? && Telegram.IsCommand(e.entities)
  }

  /** `response.callbackQuery?.data === CALLBACK_DATA.SKIP`. */
  predicate IsSkip(e: Event) {
    e.Callback? && e.data == Telegram.SkipData
  }

  /** `response.message?.text` is a non-empty string. */
  predicate HasText(e: Event) {
    e.Message? && e.text != ""
  }

  /** What one call to `registerUser` gives back. */
  type RegisterOutcome = Result<Api.RegisterResponse, Api.RegisterError>

  /** The arguments of one `registerUser` call. */
  datatype Draft = Draft(phone: string, firstName: string, lastName: string, bDate: string, promoCode: string)

  datatype Step = FirstNameStep | LastNameStep | PromoStep | BirthDateStep | PromoRetryStep

  /** How the dialog ended. */
  datatype Exit =
    | NoPhoneText                // the starting message had no text
    | InvalidPhone               // its text is not a phone number
    | NoChat                     // the update has no chat id
    | Cancelled(at: Step)        // a command was sent at a question
    | Suspended(at: Step)        // still waiting for an answer at this step
    | AttemptsExhausted          // no registration after the last attempt
    | Registered(cardShown: bool)

  /** The dialog's return value, `None` while it is still waiting. */
  function Outcome(exit: Exit): (r: Option<bool>)
    ensures r == Some(true) <==> exit.Registered?
    ensures r.None? <==> exit.Suspended?
  {
    match exit
    case Registered(_) => Some(true)
    case Suspended(_) => None
    case _ => Some(false)
  }

  /**
   * The answer to a name question: `None` cancels, a skip clears the field, a
   * text sets it verbatim, and any other answer leaves it empty.
   */
  function NameAnswer(e: Event): (r: Option<string>)
    ensures r.None? <==> IsCancel(e)
    ensures IsSkip(e) ==> r == Some("")
    ensures !IsCancel(e) && HasText(e) ==> r == Some(e.text)
    ensures !IsCancel(e) && !IsSkip(e) && !HasText(e) ==> r == Some("")
  {
    if IsCancel(e) then None
    else if IsSkip(e) then Some("")
    else if HasText(e) then Some(e.text)
    else Some("")
  }

  /** What a waiting loop ended with. */
  datatype Answer = Got(value: string) | Cancel | NoMoreEvents

  /** An answer that ends the promo-code question. */
  predicate SettlesPromo(e: Event) {
    IsCancel(e) || IsSkip(e) || HasText(e)
  }

  /** A waiting loop stopped at the first settling event from `k0` on, or ran out of events. */
  predicate StoppedAtFirst(events: seq<Event>, k0: nat, k: nat, done: bool, settles: Event -> bool) {
    && k0 <= k <= |events|
    && (if done then k0 < k && settles(events[k - 1]) else k == |events|)
    && forall j :: k0 <= j < (if done then k - 1 else k) ==> !settles(events[j])
  }

  /** The first position from `k0` on whose event settles the question, or `|events|` when none does. */
  function NextSettled(events: seq<Event>, k0: nat, settles: Event -> bool): (r: nat)
    requires k0 <= |events|
    ensures k0 <= r <= |events|
    ensures r < |events| ==> settles(events[r])
    ensures forall j :: k0 <= j < r ==> !settles(events[j])
    decreases |events| - k0
  {
    if k0 == |events| then k0
    else if settles(events[k0]) then k0
    else NextSettled(events, k0 + 1, settles)
  }

  /** A waiting loop stops right after the first settling event, or reads every event when there is none. */
  lemma FirstSettled(events: seq<Event>, k0: nat, k: nat, done: bool, settles: Event -> bool)
    requires StoppedAtFirst(events, k0, k, done, settles)
    ensures done ==> k - 1 == NextSettled(events, k0, settles)
    ensures !done ==> NextSettled(events, k0, settles) == |events|
  {
  }

  /**
   * The promo-code loop: a command cancels, a skip gives "", a text gives
   * itself, anything else is answered with a new prompt.
   */
  method AwaitPromoCode(events: seq<Event>, k0: nat) returns (a: Answer, k: nat)
    requires k0 <= |events|
    ensures StoppedAtFirst(events, k0, k, !a.NoMoreEvents?, SettlesPromo)
    ensures a.Cancel? <==> !a.NoMoreEvents? && IsCancel(events[k - 1])
    ensures a.Got? ==> a.value == if IsSkip(events[k - 1]) then "" else events[k - 1].text
  {
    k := k0;
    while k < |events|
      invariant k0 <= k <= |events|
      invariant forall j :: k0 <= j < k ==> !SettlesPromo(events[j])
    {
      var e := events[k];
      k := k + 1;
      if e.Message? && Telegram.IsCommand(e.entities) {
        return Cancel, k;
      }
      if e.Callback? && e.data == Telegram.SkipData {
        return Got(""), k;
      } else if e.Message? && e.text != "" {
        return Got(e.text), k;
      }
    }
    return NoMoreEvents, k;
  }

  /** A birth date the dialog accepts. */
  predicate AcceptedDate(text: string, today: Dates.Date)
    requires Dates.IsValid(today)
  {
    Dates.ValidateBirthDate(text, today).Success?
  }

  /** An answer that ends the birth-date question. */
  predicate SettlesDate(e: Event, today: Dates.Date)
    requires Dates.IsValid(today)
  {
    IsCancel(e) || IsSkip(e) || (HasText(e) && AcceptedDate(e.text, today))
  }

  /** `SettlesDate` for the given day, as a function value. */
  function DateSettler(today: Dates.Date): Event -> bool
    requires Dates.IsValid(today)
  {
    e => SettlesDate(e, today)
  }

  /**
   * The birth-date loop: a command cancels, a skip gives the default (the
   * minimum birth date), a text that passes validation gives its conversion;
   * an invalid text or any other answer is answered with a new prompt.
   */
  method AwaitBirthDate(events: seq<Event>, k0: nat, today: Dates.Date) returns (a: Answer, k: nat)
    requires k0 <= |events| && Dates.IsValid(today)
    ensures StoppedAtFirst(events, k0, k, !a.NoMoreEvents?, DateSettler(today))
    ensures a.Cancel? <==> !a.NoMoreEvents? && IsCancel(events[k - 1])
    ensures a.Got? && IsSkip(events[k - 1]) ==> a.value == Dates.DefaultBirthDate(today)
    ensures a.Got? && !IsSkip(events[k - 1]) ==>
      HasText(events[k - 1]) && AcceptedDate(events[k - 1].text, today)
      && Dates.ConvertDate(events[k - 1].text) == Success(a.value)
  {
    k := k0;
    while k < |events|
      invariant k0 <= k <= |events|
      invariant forall j :: k0 <= j < k ==> !SettlesDate(events[j], today)
    {
      var e := events[k];
      k := k + 1;
      if e.Message? && Telegram.IsCommand(e.entities) {
        return Cancel, k;
      }
      if e.Callback? && e.data == Telegram.SkipData {
        return Got(Dates.FormatDateForApi(Dates.MinimumBirthDate(today))), k;
      } else if e.Message? && e.text != "" {
        var check := Dates.ValidateBirthDate(e.text, today);
        if check.Success? {
          var bDate := Dates.ConvertDate(e.text).value;
          return Got(bDate), k;
        }
      }
    }
    return NoMoreEvents, k;
  }

  /** The inner `sendUserInfo` of the dialog: no error reply, and the main menu after the card. */
  function CardShown(phone: string, lookup: UserService.Lookup): (shown: bool)
    ensures shown == UserService.SendUserInfo(phone, lookup).ok
  {
    Phone.ValidateAndFormatPhone(phone).isValid && UserService.Hit(lookup)
  }

  /** One lookup of the loop, on a phone that is already valid: the card is shown exactly on a hit. */
  method ShowCard(phone: string, lookup: UserService.Lookup) returns (shown: bool)
    requires Phone.ValidateAndFormatPhone(phone).isValid
    ensures shown <==> UserService.Hit(lookup)
  {
    shown := CardShown(phone, lookup);
  }

  const MaxLookups: int := 5
  const LookupDelay: int := 1000

  /** The card lookups after a successful registration: up to five, a pause between two, stopping at the first hit. */
  method PollForCard(phone: string, lookups: seq<UserService.Lookup>) returns (found: bool, calls: seq<UserService.Call>)
    requires |lookups| >= MaxLookups && Phone.ValidateAndFormatPhone(phone).isValid
    ensures var h := UserService.FirstHit(lookups, MaxLookups);
      && (found <==> h < MaxLookups)
      && calls == UserService.AttemptsTrace(phone, if found then h + 1 else MaxLookups, LookupDelay)
  {
    found, calls := PollLoop(phone, MaxLookups, LookupDelay, lookups);
  }

  /** The polling loop, for any number of lookups and any pause. */
  method PollLoop(phone: string, maxRetries: nat, delay: int, lookups: seq<UserService.Lookup>)
    returns (found: bool, calls: seq<UserService.Call>)
    requires |lookups| >= maxRetries && Phone.ValidateAndFormatPhone(phone).isValid
    ensures var h := UserService.FirstHit(lookups, maxRetries);
      && (found <==> h < maxRetries)
      && calls == UserService.AttemptsTrace(phone, if found then h + 1 else maxRetries, delay)
  {
    var retryCount := 0;
    var userFound := false;
    calls := [];
    while retryCount < maxRetries && !userFound
      invariant 0 <= retryCount <= maxRetries
      invariant UserService.FirstHit(lookups, retryCount) == retryCount
      invariant userFound ==> retryCount < maxRetries && UserService.Hit(lookups[retryCount])
      invariant userFound ==> calls == UserService.AttemptsTrace(phone, retryCount + 1, delay)
      invariant !userFound ==> calls == UserService.AttemptsTrace(phone, retryCount, delay)
                                        + (if 0 < retryCount < maxRetries then [UserService.Wait(delay)] else [])
      decreases maxRetries - retryCount, if userFound then 0 else 1
    {
      UserService.TraceNextSearch(phone, retryCount, delay);
      calls := calls + [UserService.Search(phone)];
      userFound := ShowCard(phone, lookups[retryCount]);
      if !userFound {
        retryCount := retryCount + 1;
        if retryCount < maxRetries {
          calls := calls + [UserService.Wait(delay)];
        }
      }
    }
    UserService.FirstHitIs(lookups, maxRetries, retryCount);
    found := userFound;
  }

  const MaxRegistrationAttempts: int := 3

  /** An error after which the dialog asks for another promo code. */
  predicate AsksForPromo(o: RegisterOutcome) {
    o.Failure? && (o.error.PromoCodeError? || (o.error.ValidationError? && Api.PromoCodeField in o.error.details))
  }

  /** The promo code after the answer to the repeated question; a command counts as text here. */
  function PromoAfter(e: Event, promo: string): (r: string)
    ensures IsSkip(e) ==> r == ""
    ensures HasText(e) ==> r == e.text
    ensures !IsSkip(e) && !HasText(e) ==> r == promo
  {
    if IsSkip(e) then "" else if HasText(e) then e.text else promo
  }

  /**
   * For outcomes produced by `registerUser`, only a promo-code error asks
   * again: it already turns a validation failure on the promo code into one,
   * so the validation branch that checks for that field never asks.
   */
  lemma ClassifiedOutcomeAsks(post: Result<Api.RegisterResponse, string>)
    ensures AsksForPromo(Api.RegisterUser(post)) <==>
      post.Success? && post.value.status == "error"
      && post.value.validation.Some? && Api.PromoCodeField in post.value.validation.value
    ensures AsksForPromo(Api.RegisterUser(post)) ==> Api.RegisterUser(post).error.PromoCodeError?
  {
    if post.Success? && post.value.status == "error" {
      Api.ErrorResponseClassified(post.value);
    }
  }

  /** A command sent as the new promo code is taken as the code, while at a name question it cancels. */
  lemma CommandTakenAsPromoCode(promo: string)
    ensures var e := Message("/cancel", Some([Telegram.Entity(Telegram.BotCommand)]));
      NameAnswer(e).None? && PromoAfter(e, promo) == "/cancel"
  {
    var e := Message("/cancel", Some([Telegram.Entity(Telegram.BotCommand)]));
    assert Telegram.Entity(Telegram.BotCommand) in e.entities.value;
  }

  /** How many of the first `n` attempts asked for another promo code. */
  function Asks(registers: seq<RegisterOutcome>, n: nat): (c: nat)
    requires n <= |registers|
    ensures c <= n
  {
    if n == 0 then 0
    else Asks(registers, n - 1) + (if AsksForPromo(registers[n - 1]) then 1 else 0)
  }

  /** Asking for a new promo code: one event read, or none left. */
  method AwaitNewPromo(events: seq<Event>, k0: nat, promo: string) returns (answered: bool, newPromo: string, k: nat)
    requires k0 <= |events|
    ensures answered <==> k0 < |events|
    ensures answered ==> k == k0 + 1 && newPromo == PromoAfter(events[k0], promo)
    ensures !answered ==> k == k0 && newPromo == promo
  {
    if k0 == |events| {
      return false, promo, k0;
    }
    var e := events[k0];
    newPromo := promo;
    if e.Callback? && e.data == Telegram.SkipData {
      newPromo := "";
    } else if e.Message? && e.text != "" {
      newPromo := e.text;
    }
    return true, newPromo, k0 + 1;
  }

  /**
   * The handling of a failed attempt: after a promo-code error one answer
   * gives the next promo code, or the dialog waits for it; after any other
   * error the dialog gives up once the attempts are used up.
   */
  method AfterFailure(outcome: RegisterOutcome, attempts: int, events: seq<Event>, k0: nat, promo: string)
    returns (stop: Option<Exit>, newPromo: string, k: nat)
    requires outcome.Failure? && k0 <= |events|
    ensures AsksForPromo(outcome) && k0 < |events| ==> stop.None? && newPromo == PromoAfter(events[k0], promo) && k == k0 + 1
    ensures AsksForPromo(outcome) && k0 == |events| ==> stop == Some(Suspended(PromoRetryStep)) && k == k0
    ensures !AsksForPromo(outcome) ==>
      newPromo == promo && k == k0 && stop == if attempts >= MaxRegistrationAttempts then Some(AttemptsExhausted) else None
  {
    stop, newPromo, k := None, promo, k0;
    if AsksForPromo(outcome) {
      var answered;
      answered, newPromo, k := AwaitNewPromo(events, k0, promo);
      if !answered {
        stop := Some(Suspended(PromoRetryStep));
      }
    } else if attempts >= MaxRegistrationAttempts {
      stop := Some(AttemptsExhausted);
    }
  }

  /** The promo code of attempt `j + 1` follows from attempt `j` and the answer to the question in between. */
  predicate PromoFollows(prev: string, next: string, registers: seq<RegisterOutcome>, events: seq<Event>, k0: nat, j: nat)
    requires j < |registers|
  {
    if AsksForPromo(registers[j]) then
      k0 + Asks(registers, j) < |events|
      && next == PromoAfter(events[k0 + Asks(registers, j)], prev)
    else next == prev
  }

  /** The promo code chosen after failure `j`, read from the update at `k`, follows the previous one. */
  lemma FollowsAfterFailure(prev: string, next: string, registers: seq<RegisterOutcome>, events: seq<Event>, k0: nat, j: nat, k: nat)
    requires j < |registers| && k == k0 + Asks(registers, j)
    requires AsksForPromo(registers[j]) ==> k < |events| && next == PromoAfter(events[k], prev)
    requires !AsksForPromo(registers[j]) ==> next == prev
    ensures PromoFollows(prev, next, registers, events, k0, j)
  {
  }

  /**
   * The drafts submitted so far: each is the original draft with some promo
   * code, the first one unchanged; every attempt but the last failed; and each
   * promo code follows from the one before it.
   */
  ghost predicate Submitted(submitted: seq<Draft>, draft: Draft, registers: seq<RegisterOutcome>, events: seq<Event>, k0: nat) {
    && |submitted| <= |registers|
    && (submitted != [] ==> submitted[0] == draft)
    && (forall j :: 0 <= j < |submitted| ==> submitted[j] == draft.(promoCode := submitted[j].promoCode))
    && (forall j :: 0 <= j < |submitted| - 1 ==> registers[j].Failure?)
    && (forall j :: 0 <= j < |submitted| - 1 ==>
          PromoFollows(submitted[j].promoCode, submitted[j + 1].promoCode, registers, events, k0, j))
  }

  /** Submitting the draft again with the promo code that follows from the last failure extends the history. */
  lemma SubmittedSnoc(submitted: seq<Draft>, promo: string, draft: Draft, registers: seq<RegisterOutcome>, events: seq<Event>, k0: nat)
    requires Submitted(submitted, draft, registers, events, k0) && |submitted| < |registers|
    requires submitted == [] ==> promo == draft.promoCode
    requires submitted != [] ==>
      registers[|submitted| - 1].Failure?
      && PromoFollows(submitted[|submitted| - 1].promoCode, promo, registers, events, k0, |submitted| - 1)
    ensures Submitted(submitted + [draft.(promoCode := promo)], draft, registers, events, k0)
  {
    var next := submitted + [draft.(promoCode := promo)];
    forall j | 0 <= j < |next| - 1
      ensures registers[j].Failure?
      ensures PromoFollows(next[j].promoCode, next[j + 1].promoCode, registers, events, k0, j)
    {
      assert next[j] == submitted[j];
    }
  }

  /** The card lookups made after a successful registration, and whether the card was shown. */
  ghost predicate CardPolls(cardShown: bool, polls: seq<UserService.Call>, phone: string, lookups: seq<UserService.Lookup>)
    requires |lookups| >= MaxLookups
  {
    var h := UserService.FirstHit(lookups, MaxLookups);
    && (cardShown <==> h < MaxLookups)
    && polls == UserService.AttemptsTrace(phone, if cardShown then h + 1 else MaxLookups, LookupDelay)
  }

  /**
   * How a submission that started reading updates at `k0` can end: at most
   * three calls with the history `Submitted` describes; registered exactly when
   * the last call succeeded, and then the card lookups of the poll; given up
   * only after three calls, the last one failed; waiting only after a
   * promo-code failure when no update was left to answer it.
   */
  ghost predicate Submission(exit: Exit, submitted: seq<Draft>, polls: seq<UserService.Call>, draft: Draft,
                             registers: seq<RegisterOutcome>, events: seq<Event>, k0: nat, lookups: seq<UserService.Lookup>)
    requires |registers| >= MaxRegistrationAttempts && |lookups| >= MaxLookups
  {
    && 1 <= |submitted| <= MaxRegistrationAttempts
    && Submitted(submitted, draft, registers, events, k0)
    && (exit.Registered? || exit.AttemptsExhausted? || exit == Suspended(PromoRetryStep))
    && (exit.Registered? <==> registers[|submitted| - 1].Success?)
    && (exit.Registered? ==> CardPolls(exit.cardShown, polls, draft.phone, lookups))
    && (!exit.Registered? ==> polls == [])
    && (exit.AttemptsExhausted? ==> |submitted| == MaxRegistrationAttempts && registers[|submitted| - 1].Failure?)
    && (exit.Suspended? ==>
          AsksForPromo(registers[|submitted| - 1]) && k0 + Asks(registers, |submitted| - 1) == |events|)
  }

  /**
   * The submission: the attempts, then, after a successful one, the search
   * for the new card. The search runs inside the success branch of the loop
   * just before the loop ends, so it is taken here after the loop.
   */
  method Submit(draft: Draft, events: seq<Event>, k0: nat, registers: seq<RegisterOutcome>,
                lookups: seq<UserService.Lookup>)
    returns (exit: Exit, submitted: seq<Draft>, polls: seq<UserService.Call>, k: nat)
    requires k0 <= |events| && |registers| >= MaxRegistrationAttempts && |lookups| >= MaxLookups
    requires Phone.ValidateAndFormatPhone(draft.phone).isValid
    ensures Submission(exit, submitted, polls, draft, registers, events, k0, lookups)
    ensures exit.Suspended? ==> k == |events|
    ensures !exit.Suspended? ==> k == k0 + Asks(registers, |submitted|)
    ensures k0 <= k <= |events|
  {
    var stop;
    stop, submitted, k := Attempts(draft, events, k0, registers);
    if stop.Some? {
      return stop.value, submitted, [], k;
    }
    var cardShown;
    cardShown, polls := PollForCard(draft.phone, lookups);
    exit := Registered(cardShown);
  }

  /**
   * The loop of up to three `registerUser` calls. Every attempt counts,
   * promo-code failures included. After a promo-code failure one answer
   * decides the next promo code; after any other failure on the last attempt
   * the dialog gives up. `stop` is `None` when an attempt succeeded.
   */
  method Attempts(draft: Draft, events: seq<Event>, k0: nat, registers: seq<RegisterOutcome>)
    returns (stop: Option<Exit>, submitted: seq<Draft>, k: nat)
    requires k0 <= |events| && |registers| >= MaxRegistrationAttempts
    ensures 1 <= |submitted| <= MaxRegistrationAttempts
    ensures Submitted(submitted, draft, registers, events, k0)
    ensures stop.None? <==> registers[|submitted| - 1].Success?
    ensures stop.Some? ==> stop.value == AttemptsExhausted || stop.value == Suspended(PromoRetryStep)
    ensures stop == Some(AttemptsExhausted) ==> |submitted| == MaxRegistrationAttempts
    ensures stop == Some(Suspended(PromoRetryStep)) ==>
      && AsksForPromo(registers[|submitted| - 1])
      && k0 + Asks(registers, |submitted| - 1) == |events| && k == |events|
    ensures stop != Some(Suspended(PromoRetryStep)) ==> k == k0 + Asks(registers, |submitted|)
    ensures k0 <= k <= |events|
  {
    var promoCode := draft.promoCode;
    var registrationSuccess := false;
    var registrationAttempts := 0;
    submitted, k := [], k0;
    while !registrationSuccess && registrationAttempts < MaxRegistrationAttempts
      invariant 0 <= registrationAttempts <= MaxRegistrationAttempts && |submitted| == registrationAttempts
      invariant registrationSuccess ==> registrationAttempts >= 1 && registers[registrationAttempts - 1].Success?
      invariant Submitted(submitted, draft, registers, events, k0)
      invariant registrationAttempts == 0 ==> promoCode == draft.promoCode
      invariant !registrationSuccess && registrationAttempts > 0 ==>
        registers[registrationAttempts - 1].Failure?
        && PromoFollows(submitted[registrationAttempts - 1].promoCode, promoCode, registers, events, k0, registrationAttempts - 1)
      invariant k == k0 + Asks(registers, registrationAttempts) && k <= |events|
      decreases MaxRegistrationAttempts - registrationAttempts
    {
      registrationAttempts := registrationAttempts + 1;
      var attempt := draft.(promoCode := promoCode);
      SubmittedSnoc(submitted, promoCode, draft, registers, events, k0);
      submitted := submitted + [attempt];
      var outcome := registers[registrationAttempts - 1];
      assert Asks(registers, registrationAttempts) == Asks(registers, registrationAttempts - 1) + (if AsksForPromo(outcome) then 1 else 0);
      if outcome.Success? {
        registrationSuccess := true;
      } else {
        ghost var previous, asked := promoCode, k;
        stop, promoCode, k := AfterFailure(outcome, registrationAttempts, events, k, promoCode);
        if stop.Some? {
          return;
        }
        FollowsAfterFailure(previous, promoCode, registers, events, k0, registrationAttempts - 1, asked);
      }
    }
    stop := if registrationSuccess then None else Some(AttemptsExhausted);
  }

  /** The answers to the four questions. */
  datatype Answers = Answers(firstName: string, lastName: string, promoCode: string, bDate: string)

  /** Where the questions ended: stopped with an exit, or answered after reading the first `k` updates. */
  datatype Asked = Stopped(exit: Exit) | Answered(answers: Answers, k: nat)

  /** The promo code an answer that settles the question gives: "" for a skip, else its text. */
  function PromoValue(e: Event): string
    requires SettlesPromo(e) && !IsCancel(e)
  {
    if IsSkip(e) then "" else e.text
  }

  /** The birth date an answer that settles the question gives: the default for a skip, else the conversion of its text. */
  function DateValue(e: Event, today: Dates.Date): (r: string)
    requires Dates.IsValid(today) && SettlesDate(e, today) && !IsCancel(e)
    ensures !IsSkip(e) ==> HasText(e) && Dates.ConvertDate(e.text) == Success(r)
  {
    if IsSkip(e) then Dates.DefaultBirthDate(today) else Dates.ConvertDate(e.text).value
  }

  /**
   * The four questions, read off the updates: each name question takes the
   * next update; the promo-code question is settled by the first command,
   * skip or text after them, and the birth-date question by the first
   * command, skip or valid date after that. A command cancels at the
   * question it answers; running out of updates leaves the dialog waiting.
   */
  function Questions(events: seq<Event>, today: Dates.Date): (r: Asked)
    requires Dates.IsValid(today)
    ensures r.Stopped? ==> (r.exit.Cancelled? || r.exit.Suspended?) && r.exit.at != PromoRetryStep
    ensures r.Answered? ==> 4 <= r.k <= |events|
  {
    if |events| == 0 then Stopped(Suspended(FirstNameStep))
    else if IsCancel(events[0]) then Stopped(Cancelled(FirstNameStep))
    else if |events| == 1 then Stopped(Suspended(LastNameStep))
    else if IsCancel(events[1]) then Stopped(Cancelled(LastNameStep))
    else PromoOnwards(events, today, NameAnswer(events[0]).value, NameAnswer(events[1]).value)
  }

  /** The promo-code and birth-date questions, once both names are known. */
  function PromoOnwards(events: seq<Event>, today: Dates.Date, firstName: string, lastName: string): (r: Asked)
    requires Dates.IsValid(today) && 2 <= |events|
    ensures r.Stopped? ==> (r.exit.Cancelled? || r.exit.Suspended?) && r.exit.at in {PromoStep, BirthDateStep}
    ensures r.Answered? ==> 4 <= r.k <= |events|
  {
    var p := NextSettled(events, 2, SettlesPromo);
    if p == |events| then Stopped(Suspended(PromoStep))
    else if IsCancel(events[p]) then Stopped(Cancelled(PromoStep))
    else BirthDateOnwards(events, today, firstName, lastName, PromoValue(events[p]), p + 1)
  }

  /** The birth-date question, asked from update `k0` on once the other three are answered. */
  function BirthDateOnwards(events: seq<Event>, today: Dates.Date, firstName: string, lastName: string,
                            promoCode: string, k0: nat): (r: Asked)
    requires Dates.IsValid(today) && k0 <= |events|
    ensures r.Stopped? ==> r.exit == Suspended(BirthDateStep) || r.exit == Cancelled(BirthDateStep)
    ensures r.Answered? ==> k0 < r.k <= |events|
  {
    var q := NextSettled(events, k0, DateSettler(today));
    if q == |events| then Stopped(Suspended(BirthDateStep))
    else if IsCancel(events[q]) then Stopped(Cancelled(BirthDateStep))
    else Answered(Answers(firstName, lastName, promoCode, DateValue(events[q], today)), q + 1)
  }

  /**
   * The four questions in order: first name, last name, promo code, birth
   * date. `stop` is where the dialog ended instead, if it did.
   */
  method AskQuestions(events: seq<Event>, today: Dates.Date) returns (stop: Option<Exit>, answers: Answers, k: nat)
    requires Dates.IsValid(today)
    ensures stop.Some? ==> Questions(events, today) == Stopped(stop.value)
    ensures stop.None? ==> Questions(events, today) == Answered(answers, k)
  {
    var firstName, lastName := "", "";
    answers := Answers(firstName, lastName, "", Dates.FormatDateForApi(Dates.MinimumBirthDate(today)));
    k := 0;

    if |events| < 1 {
      return Some(Suspended(FirstNameStep)), answers, k;
    }
    var firstNameResponse := events[0];
    if firstNameResponse.Message? && Telegram.IsCommand(firstNameResponse.entities) {
      return Some(Cancelled(FirstNameStep)), answers, k;
    }
    if firstNameResponse.Callback? && firstNameResponse.data == Telegram.SkipData {
      firstName := "";
    } else if firstNameResponse.Message? && firstNameResponse.text != "" {
      firstName := firstNameResponse.text;
    }

    if |events| < 2 {
      return Some(Suspended(LastNameStep)), answers, k;
    }
    var lastNameResponse := events[1];
    if lastNameResponse.Message? && Telegram.IsCommand(lastNameResponse.entities) {
      return Some(Cancelled(LastNameStep)), answers, k;
    }
    if lastNameResponse.Callback? && lastNameResponse.data == Telegram.SkipData {
      lastName := "";
    } else if lastNameResponse.Message? && lastNameResponse.text != "" {
      lastName := lastNameResponse.text;
    }

    assert NameAnswer(events[0]) == Some(firstName) && NameAnswer(events[1]) == Some(lastName);
    stop, answers, k := AskPromoOnwards(events, today, firstName, lastName);
  }

  /** The promo-code question, then the birth-date question. */
  method AskPromoOnwards(events: seq<Event>, today: Dates.Date, firstName: string, lastName: string)
    returns (stop: Option<Exit>, answers: Answers, k: nat)
    requires Dates.IsValid(today) && 2 <= |events|
    ensures stop.Some? ==> PromoOnwards(events, today, firstName, lastName) == Stopped(stop.value)
    ensures stop.None? ==> PromoOnwards(events, today, firstName, lastName) == Answered(answers, k)
  {
    answers := Answers(firstName, lastName, "", Dates.FormatDateForApi(Dates.MinimumBirthDate(today)));
    var promoAnswer;
    promoAnswer, k := AwaitPromoCode(events, 2);
    FirstSettled(events, 2, k, !promoAnswer.NoMoreEvents?, SettlesPromo);
    match promoAnswer {
      case Cancel => return Some(Cancelled(PromoStep)), answers, k;
      case NoMoreEvents => return Some(Suspended(PromoStep)), answers, k;
      case Got(promoCode) =>
        assert promoCode == PromoValue(events[k - 1]);
        stop, answers, k := AskBirthDate(events, today, firstName, lastName, promoCode, k);
    }
  }

  /** The birth-date question, asked from update `k0` on. */
  method AskBirthDate(events: seq<Event>, today: Dates.Date, firstName: string, lastName: string,
                      promoCode: string, k0: nat)
    returns (stop: Option<Exit>, answers: Answers, k: nat)
    requires Dates.IsValid(today) && k0 <= |events|
    ensures stop.Some? ==> BirthDateOnwards(events, today, firstName, lastName, promoCode, k0) == Stopped(stop.value)
    ensures stop.None? ==> BirthDateOnwards(events, today, firstName, lastName, promoCode, k0) == Answered(answers, k)
  {
    answers := Answers(firstName, lastName, promoCode, Dates.FormatDateForApi(Dates.MinimumBirthDate(today)));
    var dateAnswer;
    dateAnswer, k := AwaitBirthDate(events, k0, today);
    FirstSettled(events, k0, k, !dateAnswer.NoMoreEvents?, DateSettler(today));
    match dateAnswer {
      case Cancel => return Some(Cancelled(BirthDateStep)), answers, k;
      case NoMoreEvents => return Some(Suspended(BirthDateStep)), answers, k;
      case Got(bDate) =>
        assert bDate == DateValue(events[k - 1], today);
        return None, Answers(firstName, lastName, promoCode, bDate), k;
    }
  }

  /** The draft the dialog submits first: the normalised phone and the four answers. */
  function DialogDraft(phone: string, a: Answers): (d: Draft)
    ensures d.phone == phone && d.promoCode == a.promoCode && d.bDate == a.bDate
    ensures d.firstName == a.firstName && d.lastName == a.lastName
  {
    Draft(phone, a.firstName, a.lastName, a.bDate, a.promoCode)
  }

  /**
   * How the dialog ends once the phone and the chat have been checked: as the
   * questions stopped, with nothing submitted; or with the submission of the
   * draft of the answers, reading updates from where the questions stopped.
   */
  ghost predicate DialogEnds(inputText: string, today: Dates.Date, events: seq<Event>, registers: seq<RegisterOutcome>,
                             lookups: seq<UserService.Lookup>, exit: Exit, submitted: seq<Draft>, polls: seq<UserService.Call>)
    requires Dates.IsValid(today) && |registers| >= MaxRegistrationAttempts && |lookups| >= MaxLookups
    requires Phone.ValidateAndFormatPhone(inputText).isValid
  {
    match Questions(events, today)
    case Stopped(e) => exit == e && submitted == [] && polls == []
    case Answered(a, k) =>
      Submission(exit, submitted, polls, DialogDraft(Phone.Normalised(inputText), a), registers, events, k, lookups)
  }

  /**
   * `registration`: checks the starting message and the chat, asks the four
   * questions in order, then submits.
   */
  method Run(inputText: Option<string>, chatId: Option<int>, today: Dates.Date, events: seq<Event>,
             registers: seq<RegisterOutcome>, lookups: seq<UserService.Lookup>)
    returns (exit: Exit, submitted: seq<Draft>, polls: seq<UserService.Call>)
    requires Dates.IsValid(today) && |registers| >= MaxRegistrationAttempts && |lookups| >= MaxLookups
    ensures inputText.None? || inputText == Some("") ==> exit == NoPhoneText
    ensures inputText.Some? && inputText.value != "" && !Phone.ValidateAndFormatPhone(inputText.value).isValid ==>
      exit == InvalidPhone
    ensures inputText.Some? && Phone.ValidateAndFormatPhone(inputText.value).isValid && (chatId.None? || chatId == Some(0)) ==>
      exit == NoChat
    ensures exit in {NoPhoneText, InvalidPhone, NoChat} ==> submitted == [] && polls == []
    ensures inputText.Some? && Phone.ValidateAndFormatPhone(inputText.value).isValid && chatId.Some? && chatId != Some(0) ==>
      DialogEnds(inputText.value, today, events, registers, lookups, exit, submitted, polls)
  {
    if inputText.None? || inputText.value == "" {
      return NoPhoneText, [], [];
    }
    var phoneValidation := Phone.ValidateAndFormatPhone(inputText.value);
    if !phoneValidation.isValid {
      return InvalidPhone, [], [];
    }
    if chatId.None? || chatId.value == 0 {
      return NoChat, [], [];
    }
    exit, submitted, polls := Converse(inputText.value, today, events, registers, lookups);
  }

  /** The dialog once the phone and the chat have been checked: the questions, then the submission. */
  method Converse(inputText: string, today: Dates.Date, events: seq<Event>,
                  registers: seq<RegisterOutcome>, lookups: seq<UserService.Lookup>)
    returns (exit: Exit, submitted: seq<Draft>, polls: seq<UserService.Call>)
    requires Dates.IsValid(today) && |registers| >= MaxRegistrationAttempts && |lookups| >= MaxLookups
    requires Phone.ValidateAndFormatPhone(inputText).isValid
    ensures exit !in {NoPhoneText, InvalidPhone, NoChat}
    ensures DialogEnds(inputText, today, events, registers, lookups, exit, submitted, polls)
  {
    var phone := Phone.ValidateAndFormatPhone(inputText).formattedPhone.value;
    var stop, answers, k := AskQuestions(events, today);
    if stop.Some? {
      return stop.value, [], [];
    }
    Phone.Idempotent(inputText);
    var draft := DialogDraft(phone, answers);
    var k2;
    exit, submitted, polls, k2 := Submit(draft, events, k, registers, lookups);
  }

  /**
   * What finished questions mean: neither name question was cancelled and
   * the names are their answers; the promo code comes from the first command,
   * skip or text after them (a skip gives ""); the birth date comes from the
   * update just before `k`, the first command, skip or valid date after the
   * promo code, and is the default for a skip or the conversion of a typed
   * date that passed validation.
   */
  lemma AnsweredDialog(events: seq<Event>, today: Dates.Date)
    requires Dates.IsValid(today) && Questions(events, today).Answered?
    ensures var r := Questions(events, today);
      && !IsCancel(events[0]) && !IsCancel(events[1])
      && r.answers.firstName == NameAnswer(events[0]).value
      && r.answers.lastName == NameAnswer(events[1]).value
      && exists p ::
        && 2 <= p < r.k - 1
        && (forall j :: 2 <= j < p ==> !SettlesPromo(events[j]))
        && SettlesPromo(events[p]) && !IsCancel(events[p])
        && r.answers.promoCode == (if IsSkip(events[p]) then "" else events[p].text)
        && (forall j :: p < j < r.k - 1 ==> !SettlesDate(events[j], today))
  {
    var r := Questions(events, today);
    var first, last := NameAnswer(events[0]).value, NameAnswer(events[1]).value;
    assert r == PromoOnwards(events, today, first, last);
    var p := NextSettled(events, 2, SettlesPromo);
    assert r == BirthDateOnwards(events, today, first, last, PromoValue(events[p]), p + 1);
    var q := NextSettled(events, p + 1, DateSettler(today));
    assert r.k == q + 1 && r.answers.promoCode == PromoValue(events[p]);
  }

  /** The birth date of finished questions: the default for a skip, else a typed date that passed validation, converted. */
  lemma AnsweredBirthDate(events: seq<Event>, today: Dates.Date)
    requires Dates.IsValid(today) && Questions(events, today).Answered?
    ensures var r := Questions(events, today); var e := events[r.k - 1];
      && SettlesDate(e, today) && !IsCancel(e)
      && (IsSkip(e) ==> r.answers.bDate == Dates.DefaultBirthDate(today))
      && (!IsSkip(e) ==> HasText(e) && AcceptedDate(e.text, today) && Dates.ConvertDate(e.text) == Success(r.answers.bDate))
  {
    var r := Questions(events, today);
    var p := NextSettled(events, 2, SettlesPromo);
    var q := NextSettled(events, p + 1, DateSettler(today));
    assert r.k == q + 1 && r.answers.bDate == DateValue(events[q], today);
  }

  /** Skipping every question gives empty names, no promo code and the default birth date, after four updates. */
  lemma SkipEverything(today: Dates.Date)
    requires Dates.IsValid(today)
    ensures var skip := Callback(Telegram.SkipData);
      Questions([skip, skip, skip, skip], today) == Answered(Answers("", "", "", Dates.DefaultBirthDate(today)), 4)
  {
    var skip := Callback(Telegram.SkipData);
    var events := [skip, skip, skip, skip];
    assert NextSettled(events, 2, SettlesPromo) == 2;
    assert NextSettled(events, 3, DateSettler(today)) == 3;
  }

  /** A promo code typed at its question is the one the answers carry. */
  lemma TypedPromoKept(today: Dates.Date, first: string, last: string, promo: string)
    requires Dates.IsValid(today) && first != "" && last != "" && promo != ""
    ensures var skip := Callback(Telegram.SkipData);
      Questions([Message(first, None), Message(last, None), Message(promo, None), skip], today)
        == Answered(Answers(first, last, promo, Dates.DefaultBirthDate(today)), 4)
  {
    var skip := Callback(Telegram.SkipData);
    var events := [Message(first, None), Message(last, None), Message(promo, None), skip];
    assert NextSettled(events, 2, SettlesPromo) == 2;
    assert NextSettled(events, 3, DateSettler(today)) == 3;
  }

  /** When the first call succeeds, the submission registered the first draft and made no other call. */
  lemma FirstCallRegisters(exit: Exit, submitted: seq<Draft>, polls: seq<UserService.Call>, draft: Draft,
                           registers: seq<RegisterOutcome>, events: seq<Event>, k0: nat, lookups: seq<UserService.Lookup>)
    requires |registers| >= MaxRegistrationAttempts && |lookups| >= MaxLookups
    requires Submission(exit, submitted, polls, draft, registers, events, k0, lookups)
    requires registers[0].Success?
    ensures exit.Registered? && submitted == [draft]
  {
  }

  /**
   * A customer who skips every question and whose first call succeeds is
   * registered with one call: the normalised phone, empty names, no promo
   * code and the default birth date.
   */
  lemma SkipEverythingRegisters(inputText: string, today: Dates.Date, registers: seq<RegisterOutcome>,
                                lookups: seq<UserService.Lookup>, exit: Exit, submitted: seq<Draft>, polls: seq<UserService.Call>)
    requires Dates.IsValid(today) && |registers| >= MaxRegistrationAttempts && |lookups| >= MaxLookups
    requires Phone.ValidateAndFormatPhone(inputText).isValid && registers[0].Success?
    requires var skip := Callback(Telegram.SkipData);
      DialogEnds(inputText, today, [skip, skip, skip, skip], registers, lookups, exit, submitted, polls)
    ensures exit.Registered?
    ensures submitted == [Draft(Phone.Normalised(inputText), "", "", Dates.DefaultBirthDate(today), "")]
  {
    var skip := Callback(Telegram.SkipData);
    var events := [skip, skip, skip, skip];
    SkipEverything(today);
    var draft := DialogDraft(Phone.Normalised(inputText), Answers("", "", "", Dates.DefaultBirthDate(today)));
    FirstCallRegisters(exit, submitted, polls, draft, registers, events, 4, lookups);
  }
}
