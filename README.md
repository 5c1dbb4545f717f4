# vaparscannerbot core, modelled in Dafny

vaparscannerbot is a Telegram bot that finds loyalty-card customers in a CRM by phone number, and registers a customer the CRM does not know yet. This project models the bot's logic in Dafny. The CRM, the chat and the clock are inputs to the model.

- **Phone numbers** (`Phone`). `validateAndFormatPhone` turns any of four accepted shapes into the canonical 11 digits beginning with `7`.
- **Dates** (`Dates`). Birth dates are typed as `DD.MM.YYYY`. The model checks that the day exists and that the customer is at least 18, then converts the text to the API's `YYYY-MM-DD`.
  - The JavaScript `Date` constructor is modelled explicitly. A year 0..99 means 1900 + year, and days and months overflow into the next month or year.
  - The older copy of these helpers in `utils.ts` repeats `getMinimumBirthDate`, `formatDateForApi` and `convertDate` unchanged (utils.ts:1-35), so the `Dates` members model both copies. Its `validateBirthDate` differs and is `LegacyDates`.
- **Telegram helpers** (`Telegram`). MarkdownV2 escaping, the `bot_command` test, and the callback data of the buttons.
- **Registration dialog** (`Registration`). The dialog asks four questions and submits up to three times. After a successful registration it looks the card up up to five times. Its inputs are:
  - the updates the operator sends;
  - what each `registerUser` call gives back;
  - what each card lookup finds.
- **CRM client logic** (`Api`). How a registration response is classified, and how `calculateOperations` counts registrations and usages in a sorted bonus list. `Sorting` is the ordering it relies on.
- **Customer lookup** (`UserService`). `sendUserInfo` and the bounded retry loop `searchUserWithRetry`.
- **Manager statistics** (`Analytics`). The ranking, the name filter, and the default manager kept in the chat session.
- **`.env` loader** (`Env`). The environment is a map that `LoadEnv` updates line by line.
- **Log-level filter** (`Logger`).
- **Shared helpers** (`Text`, `Wrappers`). Digits, JavaScript's `trim`, `split` and `join`, and `Option`/`Result`.

`Date` carries a calendar day. `today` is a parameter wherever the source reads the clock.

## Model

| member | source | states |
|---|---|---|
| Phone.Clean | src/utils/phone.ts:24 | The cleaned text holds only ASCII digits and `+`, and is never longer than the input |
| Phone.CleanAppend | src/utils/phone.ts:24 | The global replace works character by character: cleaning `a + b` gives cleaned `a` followed by cleaned `b` |
| Phone.Format | src/utils/phone.ts:29-55 | A number comes out exactly when the cleaned text has one of the four shapes, and every number that comes out is canonical |
| Phone.ValidateAndFormatPhone | src/utils/phone.ts:12-61 | `isValid` holds iff a formatted phone is returned; that phone is 11 ASCII digits beginning with `7`; empty input gives `(false, null)` |
| Phone.Normalised | src/utils/phone.ts:57-60 | The formatted phone of valid text is canonical |
| Phone.InsertingNoise | src/utils/phone.ts:24 | Inserting text with no digit and no `+` anywhere in the input leaves the whole result unchanged |
| Phone.FourShapesAgree | src/utils/phone.ts:30-48 | For ten digits `d`, the inputs `d`, `+7d`, `7d` and `8d` all give `(true, 7d)` |
| Phone.Idempotent | src/utils/phone.ts:40-42 | Validating a formatted phone returns it unchanged |
| Phone.OtherShapesRejected | src/utils/phone.ts:49-55 | Any cleaned text outside the four shapes gives `(false, null)` |
| Phone.MalformedRejected | src/utils/phone.ts:29-55 | Cleaned lengths other than 10, 11 and 12, a `+` after the first position, 11 digits not led by 7 or 8, and 12 characters not led by `+7` are all rejected |
| Text.Trim | src/utils/env.ts:31 | `trim()` leaves no JavaScript whitespace at either end and never lengthens; `Text.TrimSlice` shows it removes only whitespace |
| Text.TrimOfTrimmed | src/utils/env.ts:38 | Trimming a trimmed string changes nothing |
| Text.TrimSlice | src/utils/env.ts:31 | `trim()` returns a contiguous slice of its input, and everything cut off on either side is whitespace |
| Text.TrimStartDrops | src/utils/env.ts:31 | Trimming the start drops a prefix made only of whitespace |
| Text.TrimEndDrops | src/utils/env.ts:31 | Trimming the end drops a suffix made only of whitespace |
| Text.IndexOfFirst | src/utils/env.ts:34 | The search finds nothing iff the character does not occur, and a found position is its first occurrence |
| Text.NatString | src/utils/date.ts:22-24 | `String(n)` is a non-empty digit string whose value is `n`; it is one digit iff `n < 10` |
| Text.PadStart2 | src/utils/date.ts:22-23 | `padStart(2, '0')` leaves strings of length 2 or more alone and left-pads shorter ones to length 2, keeping them as the suffix |
| Text.PaddedIsTwoDigits | src/utils/date.ts:22-23 | For 1 ≤ n < 100, the padded `String(n)` is the two-digit form of `n` |
| Text.FourDigitNatString | src/utils/date.ts:24 | A year from 1000 to 9999 prints as its four digits |
| Dates.DaysInMonth | src/utils/date.ts:44-52 | A Gregorian month has 28 to 31 days, and 29 exactly for February of a leap year |
| Dates.CarryDays | src/utils/date.ts:45 | Carrying a day number over or under the month always lands on a real day, and a day that exists in the month is kept as it is |
| Dates.NextDay | src/utils/date.ts:45 | The day after a real day is a real day later than it, with no real day in between |
| Dates.CarryDaysNext | src/utils/date.ts:45 | Adding one to the day number moves the carried date to the next real day, so the constructor counts days like a calendar |
| Dates.CarryIntoNextMonth | src/utils/date.ts:45 | A day number past the end of the month, by at most the length of the next month, lands on that many days into the next month |
| Dates.NewDate | src/utils/date.ts:45 | `new Date(year, monthIndex, day)` always denotes a real day |
| Dates.MakeDateOfValid | src/utils/date.ts:45 | The components of a real day give that same day back |
| Dates.MinimumBirthDate | src/utils/date.ts:9-14 | Going back 18 years and then one day gives a real day |
| Dates.MinimumBirthDateValue | src/utils/date.ts:9-14 | The minimum birth date, case by case: the day before the date 18 years back; 28 February when that date is a 29 February that does not exist; the last day of the previous month or year on a 1st |
| Dates.LastDayOfPreviousMonth | src/utils/date.ts:12 | Day 0 of a month is the last day of the month before it, 31 December of the previous year for January |
| Dates.MissingLeapDay | src/utils/date.ts:11 | 29 February of a common year carries to 1 March |
| Dates.MinimumBirthDateIsDayBefore | src/utils/date.ts:9-14 | The minimum birth date lies before the 18th anniversary of a birth today, and every real day before that anniversary is no later than it |
| Dates.AgeRule | src/utils/date.ts:83-89 | A real birth day passes the age comparison iff it lies strictly before the 18th anniversary of today |
| Dates.RoundTripExact | src/utils/date.ts:44-52 | The existence round trip succeeds iff the typed day exists and the year is at least 100 |
| Dates.TypedDate | src/utils/date.ts:35-42 | The captured groups read as a day and a month from 0 to 99 and a year from 0 to 9999 |
| Dates.ConvertDate | src/utils/date.ts:34-55 | On success the output is `YYYY-MM-DD`, built from the very digit groups of the input |
| Dates.ConvertDateAccepts | src/utils/date.ts:35-52 | Success iff the text matches the pattern, the day exists and the year is at least 100; text not matching the pattern gives the format error |
| Dates.ValidateBirthDate | src/utils/date.ts:63-92 | Checks run in the order format, existence, age. Success means `convertDate` succeeds on the same text, and any other failure than the age failure is the error `convertDate` raises |
| Dates.ValidateBirthDateAccepts | src/utils/date.ts:63-92 | Success iff the text matches the pattern, names a real day in a year from 100 on, and that day lies before the 18th anniversary of today |
| Dates.FormatDateForApiDigits | src/utils/date.ts:21-26 | For years 1000-9999 the output is four year digits, the 1-based month and the day padded to two digits, joined by `-` |
| Dates.TypedAndFormattedAgree | src/utils/date.ts:21-55 | Converting the typed text of a real day gives what `formatDateForApi` writes for that day |
| Dates.TypedTextReadsBack | src/utils/date.ts:35-45 | Reading back the typed text of a day gives the same day |
| Dates.SkipMatchesTypedMinimum | src/conversations/registration.ts:144-157 | Skipping the birth-date question and typing the minimum birth date store the same value, and the typed minimum passes validation |
| Dates.LeapDayAccepted | src/utils/date.ts:44-54 | `29.02.2000` converts to `2000-02-29` |
| Dates.ThirtiethOfFebruaryRejected | src/utils/date.ts:44-52 | `30.02.2000` is a non-existent date |
| Dates.LeapDay1900Rejected | src/utils/date.ts:44-52 | `29.02.1900` is a non-existent date |
| Dates.EarlyYearRejected | src/utils/date.ts:44-52 | `01.01.0050` is a non-existent date, because the constructor reads the year as 1950 |
| Dates.ExistenceRejects | src/utils/date.ts:44-52 | Well-formed text for a day that does not exist, or for a year below 100, is rejected as non-existent |
| LegacyDates.ValidateBirthDate | utils.ts:37-54 | Never reports a non-existent date. It fails with the format error iff the pattern does not match; on matching text it succeeds iff the day the constructor builds from the typed numbers, carried over if need be, is no later than the minimum birth date; success is `true` |
| LegacyDates.AgreeOnRealDays | utils.ts:37-54 | On real days in years from 100 on, the legacy and the current validation give the same answer |
| LegacyDates.LegacyAcceptsMore | utils.ts:37-54 | Everything the current validation accepts, the legacy one accepts too |
| LegacyDates.AcceptsNonExistentDay | utils.ts:46-51 | `31.02.2000` is carried to 2 March 2000 and accepted by the legacy validation; the current one rejects it as non-existent |
| LegacyDates.OverflowJudgedInNextMonth | utils.ts:37-54 | A typed day past the end of its month is judged as the matching day of the next month: the legacy validation accepts it iff that day is old enough, while the current one rejects it as non-existent |
| Telegram.EscapeMarkdown | src/utils/telegram.ts:48-50 | The output is as long as the input plus its number of special characters; it is empty iff the input is; it never starts with a special character |
| Telegram.UnescapeEscape | src/utils/telegram.ts:49 | Dropping the backslash before each special character gives the input back |
| Telegram.EscapeAppend | src/utils/telegram.ts:49 | Escaping distributes over concatenation |
| Telegram.EscapePlain | src/utils/telegram.ts:48-50 | Text without special characters, backslashes included, is copied unchanged |
| Telegram.AnyCommand | src/utils/telegram.ts:58 | True iff some entity has type `bot_command` |
| Telegram.IsCommand | src/utils/telegram.ts:57-59 | True iff an entity list is present and holds a `bot_command` entity; an absent list gives false |
| Telegram.CommandIgnoresOrder | src/utils/telegram.ts:58 | Reordering the entities does not change the answer |
| Telegram.CommandIgnoresOtherKinds | src/utils/telegram.ts:58 | Adding an entity of another type does not change the answer |
| Registration.Outcome | src/conversations/registration.ts:396-401 | The dialog returns true exactly when it registered the customer; it has no result only while it is still waiting |
| Registration.NameAnswer | src/conversations/registration.ts:50-87 | At a name question: a command cancels, a skip gives "", a text gives itself, and any other update gives "" |
| Registration.AwaitPromoCode | src/conversations/registration.ts:90-127 | The loop stops at the first command, skip or text. A command cancels, a skip gives "", a text gives itself, and every update before it re-prompts |
| Registration.AwaitBirthDate | src/conversations/registration.ts:130-180 | The loop stops at the first command, skip or valid text. A skip gives the minimum birth date, a valid text gives its conversion, and invalid texts and other updates before it re-prompt |
| Registration.CardShown | src/conversations/registration.ts:188-234 | The dialog's own `sendUserInfo` succeeds exactly when the service's `sendUserInfo` does |
| Registration.PollForCard | src/conversations/registration.ts:259-275 | At most five lookups for the phone, stopping at the first hit, with a 1000 ms pause only between two lookups; found iff one of the five hits |
| Registration.PollLoop | src/conversations/registration.ts:259-275 | The lookup loop for any bound: found iff one of the first `maxRetries` lookups hits, the lookups made stop at the first hit, and a pause separates two lookups |
| Registration.ShowCard | src/conversations/registration.ts:266 | One lookup for a valid phone shows the card exactly on a hit |
| Registration.PromoAfter | src/conversations/registration.ts:296-307 | After a promo-code failure, a skip clears the code, any text replaces it and anything else keeps it |
| Registration.CommandTakenAsPromoCode | src/conversations/registration.ts:303-304 | A command cancels at a name question but becomes the new promo code after a promo-code failure |
| Registration.ClassifiedOutcomeAsks | src/api/index.ts:122-145 | For responses classified by `registerUser`, whose details are string arrays, a new promo code is asked for iff the validation details name `promoCode`, and then the error is a `PromoCodeError` |
| Registration.AwaitNewPromo | src/conversations/registration.ts:294-312 | Asking for a new promo code reads exactly one update when there is one, and applies it |
| Registration.AfterFailure | src/conversations/registration.ts:284-394 | After a promo-code failure one update decides the next promo code, or the dialog waits when there is none; after any other failure the code is kept and the dialog gives up once three attempts are used |
| Registration.FollowsAfterFailure | src/conversations/registration.ts:288-312 | The promo code chosen after a failure is the one the next attempt must carry |
| Registration.SubmittedSnoc | src/conversations/registration.ts:236-252 | Submitting the draft again with the promo code that follows from the last failure extends a valid history of submissions |
| Registration.Submit | src/conversations/registration.ts:236-394 | The submission predicate: at most three `registerUser` calls, the first with the dialog's draft and later ones differing only in the promo code; every call before the last failed; each promo code follows from the previous one and the update read after that failure; registered iff the last call succeeded, and then the lookups and whether the card was shown are those of the five-lookup poll; given up only after three failed calls; waiting only after a promo-code failure when the updates ran out exactly there |
| Registration.Attempts | src/conversations/registration.ts:236-394 | The `registerUser` loop alone: at most three calls with the history `Submitted` describes; it stops without a result exactly when the last call succeeded; it waits only after a promo-code failure, when the updates the earlier failures consumed leave none; it gives up only after three calls |
| Registration.AskQuestions | src/conversations/registration.ts:44-180 | The dialog's questions end exactly as `Questions` says: the same stop, or the same four answers after the same number of updates |
| Registration.NextSettled | src/conversations/registration.ts:90-180 | The first update from a position on that settles a waiting question, or the end when none does |
| Registration.FirstSettled | src/conversations/registration.ts:90-180 | A waiting loop that stops after a settling update stopped after the first one; one that reads everything found none |
| Registration.DateValue | src/conversations/registration.ts:144-175 | A settling birth-date answer that is not a skip is a text whose conversion gives the stored date |
| Registration.Questions | src/conversations/registration.ts:44-180 | The four questions read off the updates. A stop is a cancel or a wait at one of the four questions, never at the promo retry; finished questions have read at least four updates |
| Registration.PromoOnwards | src/conversations/registration.ts:90-180 | After the names, the dialog stops only at the promo-code or birth-date question |
| Registration.BirthDateOnwards | src/conversations/registration.ts:130-180 | The birth-date question stops only by a cancel or a wait at that question, and an answer is read after its start |
| Registration.AskPromoOnwards | src/conversations/registration.ts:90-180 | The promo-code and birth-date questions end as `PromoOnwards` says |
| Registration.AskBirthDate | src/conversations/registration.ts:130-180 | The birth-date question ends as `BirthDateOnwards` says |
| Registration.AnsweredDialog | src/conversations/registration.ts:44-127 | Finished questions: neither name question was cancelled and the names are their answers; the promo code comes from the first command, skip or text after them, a skip giving ""; no valid birth date comes between it and the last update read |
| Registration.AnsweredBirthDate | src/conversations/registration.ts:130-180 | The last update read by finished questions settles the birth date: a skip gives the default, and anything else is a typed date that passed validation whose conversion is the stored date |
| Registration.SkipEverything | src/conversations/registration.ts:44-180 | Four skips give empty names, an empty promo code and the default birth date |
| Registration.TypedPromoKept | src/conversations/registration.ts:90-127 | A promo code typed at its question is the one the answers carry |
| Registration.FirstCallRegisters | src/conversations/registration.ts:236-394 | When the first call succeeds, the submission is registered with that one call |
| Registration.SkipEverythingRegisters | src/conversations/registration.ts:17-394 | A customer who skips every question and whose first call succeeds is registered with one call carrying the normalised phone, empty names, no promo code and the default birth date |
| Registration.Converse | src/conversations/registration.ts:44-401 | For a valid phone: stopped questions end the dialog there with no call; finished questions lead to the submission of the draft of their answers, reading updates from where the questions stopped |
| Registration.Run | src/conversations/registration.ts:17-401 | Missing text, an invalid phone or a missing chat ends the dialog before any question or CRM call; otherwise it ends as `Converse` does for the phone text |
| Api.ErrorMessage | src/api/index.ts:118 | The message is never empty, and a non-empty response message is used as it is |
| Api.RegisterUser | src/api/index.ts:93-151 | Success iff the call succeeded and the status is not `"error"`, with the response unchanged; a failed call propagates its error; a `ValidationError` carries the full validation details, which never name `promoCode` (details are string arrays here, so a named `promoCode` is always truthy) |
| Api.ErrorResponseClassified | src/api/index.ts:117-147 | For an error response: details naming `promoCode` give a `PromoCodeError` with their messages joined by `", "`; other details give a `ValidationError` with the message and the details; no details give a plain error with the message, or with the default text when it is absent or empty |
| Sorting.Insert | src/api/index.ts:200-206 | Inserting adds exactly that element, and the result starts with either the new element or the old first one |
| Sorting.InsertSorted | src/api/index.ts:200-206 | Inserting into a sorted list keeps it sorted |
| Sorting.SortBy | src/api/index.ts:200-206 | The result is ascending by key and a permutation of the input |
| Sorting.WithKeyAppend | src/services/analytics.service.ts:56-60 | Picking the elements of one key distributes over concatenation |
| Sorting.InsertStable | src/services/analytics.service.ts:56-60 | Inserting into a sorted list places the new element after every element with the same key |
| Sorting.SortByStable | src/services/analytics.service.ts:56-60 | The sort is stable, as `Array.prototype.sort` is: for every key, the elements with that key keep their input order |
| Api.SortBonuses | src/api/index.ts:200-206 | Bonuses are scanned in ascending order of date, then of numeric id, and none is lost or added |
| Api.CountFromBounds | src/api/index.ts:208-249 | The total is registrations plus usages, and twice the registrations plus the usages never exceeds the entries scanned, so no entry counts twice |
| Api.RegistrationStep | src/api/index.ts:217-228 | Counting a registration pair and skipping both entries keeps the three counters equal to the whole count minus what the rest of the list counts |
| Api.UsagePairStep | src/api/index.ts:230-241 | The same for a usage pair, which is tried only when no registration pair starts at the entry |
| Api.SingleStep | src/api/index.ts:242-249 | Where no pair starts, a single credit adds one usage and any other entry adds nothing |
| Api.NoCreditsNoOperations | src/api/index.ts:212-249 | A list with no positive value counts no operation |
| Api.CalculateOperations | src/api/index.ts:196-257 | The loop computes the scan of the sorted list. The total is registrations plus usages, the total is at most the number of entries, and twice the registrations is at most that number |
| UserService.SendUserInfo | src/services/user.service.ts:20-66 | An invalid phone gives false, no search and the format reply; otherwise the search is for the normalised phone, the result is true iff it answered with at least one record and the card reply went through, and then the card of the first record is the only reply; a failed search gives the error reply |
| UserService.OnlyFirstRecordUsed | src/services/user.service.ts:42-57 | Records after the first one never change the outcome or the reply |
| UserService.NormalisedPhoneSameResult | src/services/user.service.ts:33-35 | Passing the normalised phone instead of the raw text gives the same result |
| UserService.FirstHit | src/services/user.service.ts:93-112 | The index of the first lookup that succeeds, or `n` when none of the first `n` does |
| UserService.TraceCounts | src/services/user.service.ts:108-111 | `k` attempts make `k` searches and `k - 1` pauses |
| UserService.SearchUserWithRetry | src/services/user.service.ts:76-116 | An invalid phone gives no search; otherwise at most `maxRetries` searches for the normalised phone, stopping at the first hit, with pauses only between searches; found iff one of them hits; no search when `maxRetries ≤ 0` |
| UserService.RetryLoop | src/services/user.service.ts:93-112 | On a valid phone: found iff one of the first `maxRetries` lookups hits, searching stops at the first hit, and pauses fall only between searches |
| UserService.TraceNextSearch | src/services/user.service.ts:95-111 | The next search extends the trace after the pause that follows every search but the last |
| UserService.FirstHitIs | src/services/user.service.ts:93-101 | The first hit is the lookup after a run of misses |
| Analytics.Filter | src/services/analytics.service.ts:81-84 | A manager is kept iff its lowered name contains the query, and each kept manager occurs as often as in the input |
| Analytics.FilterManagers | src/services/analytics.service.ts:73-85 | A blank query returns the list unchanged. Otherwise it keeps exactly the managers whose lowered name contains the trimmed, lowered query, each as often as in the input |
| Analytics.FilterIsSubsequence | src/services/analytics.service.ts:82 | The filter keeps the managers it keeps in their original order |
| Analytics.FilterManagersKeepsOrder | src/services/analytics.service.ts:73-85 | The result of `filterManagers` is always an order-preserving subsequence of its input |
| Analytics.GetManagersStats | src/services/analytics.service.ts:19-65 | A failed manager fetch gives no list. Otherwise there is one entry per manager and no other, ordered from most to fewest registrations plus usages, and the managers with equal totals stay in the order they were fetched |
| Analytics.RankingStable | src/services/analytics.service.ts:56-60 | Ranking by total keeps the entries of each total in their order |
| Analytics.TiedRankingIsFetchOrder | src/services/analytics.service.ts:56-60 | Entries that all have the same total are ranked in the order they came |
| Analytics.TiesKeepFetchOrder | src/services/analytics.service.ts:30-60 | Two managers whose statistics both failed tie at zero and are listed in fetch order |
| Analytics.FailedStatsListedAsZero | src/services/analytics.service.ts:30-53 | A manager whose bonus list could not be fetched is listed with all-zero statistics |
| Analytics.FindIndex | src/services/analytics.service.ts:111 | The position of the first manager with the id, or none iff no manager has it |
| Analytics.FindManager | src/services/analytics.service.ts:111 | The first manager in the list with the id, or none iff no manager has it |
| Analytics.Session.SaveDefaultManager | src/services/analytics.service.ts:92-95 | The session's default becomes the given name |
| Analytics.Session.SaveDefaultManagerById | src/services/analytics.service.ts:103-125 | True iff the list was fetched and holds a manager with the id, and then the first such manager's name is stored; otherwise the session keeps its old default |
| Analytics.SaveThenGet | src/services/analytics.service.ts:103-134 | After a save by id, `getDefaultManager` returns the found manager's name, or the previous default when the save failed |
| Env.Split | src/utils/env.ts:27 | `split` yields at least one part |
| Env.SplitJoin | src/utils/env.ts:27 | No part holds the separator, and joining the parts with it gives the text back |
| Env.ParseLine | src/utils/env.ts:31-38 | A line that sets something stores its key and value trimmed |
| Env.ParseTrimmedAt | src/utils/env.ts:32-38 | A trimmed line whose first `=` is at `i` sets the trimmed text on each side, unless either side is empty |
| Env.SplitAtFirst | src/utils/env.ts:34-35 | Splitting at a separator and joining the other parts back with it cuts the text at the separator's first occurrence: the head is the text before it, the joined rest the text after it |
| Env.ParsedPartsNonEmpty | src/utils/env.ts:37-38 | A line that sets something sets a non-empty key to a non-empty value, even after trimming |
| Env.ParseLineAtFirstEquals | src/utils/env.ts:31-37 | Blank and `#` lines set nothing; the key is the trimmed text before the first `=` and the value the trimmed rest, further `=` included; a line with no `=`, an empty key or an empty value sets nothing |
| Env.UnsetKeysUnchanged | src/utils/env.ts:30-41 | A key no line sets keeps its previous value, or stays absent |
| Env.LastLineWins | src/utils/env.ts:30-41 | The last line that sets a key decides its value |
| Env.OnlyParsedKeysAppear | src/utils/env.ts:30-41 | A new key appears only if some line sets it |
| Env.ParseLinesAt | src/utils/env.ts:30-31 | Entry `i` is what line `i` asks for |
| Env.ApplyAllSnoc | src/utils/env.ts:30-41 | Applying one more line after the others changes the environment by that line alone |
| Env.Environment.LoadLine | src/utils/env.ts:31-38 | A line that sets a variable sets it; any other line changes nothing |
| Env.Environment.LoadEnv | src/utils/env.ts:11-53 | A missing file changes nothing; otherwise the environment is the old one with every line applied in file order |
| Logger.Rank | src/utils/logger.ts:23-28 | The four levels rank 0 to 3 |
| Logger.ConfiguredRank | src/utils/logger.ts:23-30 | Only the four level names have a rank |
| Logger.Log | src/utils/logger.ts:76-117 | A logger method writes exactly one line when `shouldLog` holds for its level, and nothing otherwise |
| Logger.RanksOrdered | src/utils/logger.ts:23-28 | debug < info < warn < error |
| Logger.Monotonic | src/utils/logger.ts:30 | If a level is emitted, every higher level is emitted too |
| Logger.ErrorsAlwaysEmitted | src/utils/logger.ts:27-30 | Errors are emitted under every recognised configured level |
| Logger.UnknownConfigSilences | src/utils/logger.ts:30 | An unrecognised configured level silences everything |
| Logger.ThresholdExact | src/utils/logger.ts:20-31 | A configured level lets through exactly the levels of at least its rank |


## Left out

- The HTTP transport: `post`, `searchByPhone`, `getManagers` and `getBonusList`. Their results are inputs. A CRM call that throws is a `Failure` or `LookupFailed`.
- The clock. `today` is a parameter and keeps its value for the whole dialog. Time of day is not modelled: the age comparison is done on calendar days. A birth date at local midnight is later than the minimum date exactly when its day is later.
- `setTimeout`. Only the pauses are recorded, with their length.
- Chat replies and keyboards. The dialog assumes every reply goes through, except the card reply of a lookup, whose delivery is part of the lookup input. A reply that throws inside the submission loop would count as a failed attempt in the source; this is not modelled.
- The text of the replies, except the card reply and the two fixed `sendUserInfo` replies.
- `waitFor` failing. The `catch` that then clears the promo code is not modelled. A dialog that runs out of updates is reported as suspended instead.
- `parseFloat(avgBill).toFixed(2)`. The average bill arrives already formatted, or as `None` for `null` or `""`.
- `Number(...)` on bonus values and order prices. An abstract sign function stands in for it, and `NaN` is a sign of its own.
- `Number(id_bonus)` in the bonus comparator (src/api/index.ts:203). `id_bonus` is a string, and the model takes it as its exact integer value. This loses two cases. A non-numeric id makes the comparator return `NaN`, which the sort reads as a tie. Ids above 2^53 can compare equal although they differ.
- The bonus date string's conversion to a timestamp. The date is an integer key.
- In-place sorting of arrays. `getManagersStats` and `calculateOperations` sort copies in the source as well, so the model sorts sequences.
- The Unicode semantics of `toLowerCase`. The lowering is a per-character function parameter.
- The manager and bonus fetches run concurrently in `getManagersStats`, through `Promise.all`. The model takes their results in list order.
- Validation details whose values are not string arrays. A `promoCode` entry holding a string or another non-empty value still gives a `PromoCodeError`, but its message is not the joined array. A `promoCode` entry that is falsy (`null`, `""`, `0`) fails the truthiness test at src/api/index.ts:126: the source then throws a `ValidationError` whose details do hold the key, and the dialog asks for a new code. The model cannot express such a value, so `Api.RegisterUser` never produces that error.
- `Deno.env.set` failures in `loadEnv`. Every error of `Deno.stat` (src/utils/env.ts:16-22) or of reading the file ends `loadEnv` with the environment unchanged, which is the model's missing file.
- The console and file writes of the logger. A written line is the level and the message.
- The configuration getters, `validateEnvVars`, the bot bootstrapping, dispatch and middleware, the older dialog in `bot.ts`, and the Fuse search in the inline-query handler. They are wiring around the modelled code.
- `Registration.AwaitPromoCode`, `Registration.AwaitBirthDate`: the prompts between answers are not part of the model. Only the updates read and the values kept are.

## Findings

| source | as written | input that shows it | evidently intended | confidence | as-written member | corrected member |
|---|---|---|---|---|---|---|
| utils.ts:37-54 | The legacy `validateBirthDate` checks the format and the age but not that the day exists. The `Date` constructor carries an impossible day into the next month. | `31.02.2000` with today 15 October 2026 is accepted as 2 March 2000 | Reject it as a non-existent date, as src/utils/date.ts:73-81 does | not executed | LegacyDates.AcceptsNonExistentDay | Dates.ValidateBirthDateAccepts |

Other observations about the source, which the model follows as written:

- Every submission counts as an attempt, promo-code failures included. When the third attempt fails on the promo code, the dialog still asks for a new code, then gives up without using it.
- After a promo-code failure, the new code is not checked for a command. A command typed there becomes the promo code.
- `registerUser` turns every validation failure whose `promoCode` entry is a string array into a `PromoCodeError`. The `ValidationError` branch that waits for a new promo code (src/conversations/registration.ts:354-372) is therefore reached only when that entry is falsy (`null`, `""`, which the model's details cannot hold), or by errors built elsewhere. The model keeps that branch, and `Registration.ClassifiedOutcomeAsks` states the fact for string-array details.
