/**
 * The customer lookup of src/services/user.service.ts: `sendUserInfo` (one
 * lookup and one reply) and `searchUserWithRetry` (a bounded series of them).
 * The CRM search and the chat reply are inputs: each lookup is the answer the
 * search gave, together with whether the reply carrying the card went through.
 */
module UserService {
  import opened Wrappers
  import Phone
  import Telegram

  /**
   * One customer record as the reply shows it: `balance` is `String(balance)`
   * and `avgBill` the two-decimal text of the average bill, `None` when the
   * CRM sent `null` or an empty string.
   */
  datatype UserRecord = UserRecord(cardNum: string, name: string, balance: string, avgBill: Option<string>)

  /** What one search produced. */
  datatype Lookup =
    | Answered(users: seq<UserRecord>, replyDelivered: bool)
    | LookupFailed

  /** A call to the outside world: a CRM search, or a pause between searches. */
  datatype Call = Search(phone: string) | Wait(ms: int)

  const InvalidPhoneReply: string :=
    "Неверный формат номера телефона. Допустимые форматы: 9999999999, +79999999999, 79999999999, 89999999999"
  const LookupErrorReply: string := "Произошла ошибка при получении информации о пользователе"

  function AvgBillText(avgBill: Option<string>): string {
    match avgBill
    case Some(text) => text
    case None => "N/A"
  }

  /** The MarkdownV2 card message; every field is escaped. */
  function CardReply(u: UserRecord): string {
    "Номер Карты: `" + Telegram.EscapeMarkdown(u.cardNum) + "`\n\\(копируется нажатием\\)\nИмя: "
      + Telegram.EscapeMarkdown(u.name) + "\nБаланс: " + Telegram.EscapeMarkdown(u.balance)
      + "\nСредний чек: " + Telegram.EscapeMarkdown(AvgBillText(u.avgBill))
  }

  /** The result of `sendUserInfo`, the phone it searched for, and the replies it sent. */
  datatype SendResult = SendResult(ok: bool, searched: Option<string>, replies: seq<string>)

  /** `sendUserInfo`. */
  function SendUserInfo(phone: string, lookup: Lookup): (r: SendResult)
    ensures !Phone.ValidateAndFormatPhone(phone).isValid ==> r == SendResult(false, None, [InvalidPhoneReply])
    ensures Phone.ValidateAndFormatPhone(phone).isValid ==> r.searched == Some(Phone.Normalised(phone))
    ensures r.ok <==> Phone.ValidateAndFormatPhone(phone).isValid
                      && lookup.Answered? && |lookup.users| > 0 && lookup.replyDelivered
    ensures r.ok ==> r.replies == [CardReply(lookup.users[0])]
    ensures Phone.ValidateAndFormatPhone(phone).isValid && lookup.LookupFailed? ==> r.replies == [LookupErrorReply]
  {
    var validation := Phone.ValidateAndFormatPhone(phone);
    if !validation.isValid then SendResult(false, None, [InvalidPhoneReply])
    else
      var validPhone := validation.formattedPhone.value;
      match lookup
      case LookupFailed => SendResult(false, Some(validPhone), [LookupErrorReply])
      case Answered(users, delivered) =>
        if |users| == 0 then SendResult(false, Some(validPhone), [])
        else if delivered then SendResult(true, Some(validPhone), [CardReply(users[0])])
        else SendResult(false, Some(validPhone), [CardReply(users[0]), LookupErrorReply])
  }

  /** Only the first record matters. */
  lemma OnlyFirstRecordUsed(phone: string, u: UserRecord, rest1: seq<UserRecord>, rest2: seq<UserRecord>, delivered: bool)
    ensures SendUserInfo(phone, Answered([u] + rest1, delivered)) == SendUserInfo(phone, Answered([u] + rest2, delivered))
  {
  }

  /** Passing the normalised phone instead of the raw text changes nothing. */
  lemma NormalisedPhoneSameResult(phone: string, lookup: Lookup)
    requires Phone.ValidateAndFormatPhone(phone).isValid
    ensures SendUserInfo(Phone.Normalised(phone), lookup) == SendUserInfo(phone, lookup)
  {
    Phone.Idempotent(phone);
  }

  /** A search that finds the customer and delivers the card: what `sendUserInfo` reports as success for a valid phone. */
  predicate Hit(lookup: Lookup) {
    lookup.Answered? && |lookup.users| > 0 && lookup.replyDelivered
  }

  /** The index of the first hit among the first `n` lookups, or `n` when there is none. */
  function FirstHit(lookups: seq<Lookup>, n: nat): (h: nat)
    requires n <= |lookups|
    ensures h <= n
    ensures h < n ==> Hit(lookups[h])
    ensures forall k :: 0 <= k < h ==> !Hit(lookups[k])
  {
    if n == 0 then 0
    else
      var h := FirstHit(lookups, n - 1);
      if h < n - 1 then h
      else if Hit(lookups[n - 1]) then n - 1
      else n
  }

  /** `k` searches for `phone`, with one pause between each two of them. */
  function AttemptsTrace(phone: string, k: nat, delay: int): seq<Call> {
    if k == 0 then []
    else if k == 1 then [Search(phone)]
    else AttemptsTrace(phone, k - 1, delay) + [Wait(delay), Search(phone)]
  }

  function CountSearches(calls: seq<Call>): nat {
    if calls == [] then 0
    else CountSearches(calls[..|calls| - 1]) + (if calls[|calls| - 1].Search? then 1 else 0)
  }

  function CountWaits(calls: seq<Call>): nat {
    if calls == [] then 0
    else CountWaits(calls[..|calls| - 1]) + (if calls[|calls| - 1].Wait? then 1 else 0)
  }

  lemma {:induction false} CountsAppend(a: seq<Call>, b: seq<Call>)
    ensures CountSearches(a + b) == CountSearches(a) + CountSearches(b)
    ensures CountWaits(a + b) == CountWaits(a) + CountWaits(b)
    decreases |b|
  {
    if b == [] {
      assert a + b == a;
    } else {
      assert (a + b)[..|a + b| - 1] == a + b[..|b| - 1];
      CountsAppend(a, b[..|b| - 1]);
    }
  }

  /** Attempts make `k` searches and wait only between them: `k - 1` pauses. */
  lemma {:induction false} TraceCounts(phone: string, k: nat, delay: int)
    ensures CountSearches(AttemptsTrace(phone, k, delay)) == k
    ensures CountWaits(AttemptsTrace(phone, k, delay)) == if k == 0 then 0 else k - 1
  {
    if k > 1 {
      TraceCounts(phone, k - 1, delay);
      var pair := [Wait(delay), Search(phone)];
      CountsAppend(AttemptsTrace(phone, k - 1, delay), pair);
      assert pair[..1] == [Wait(delay)] && [Wait(delay)][..0] == [];
      assert CountSearches([Wait(delay)]) == 0 && CountWaits([Wait(delay)]) == 1;
      assert CountSearches(pair) == 1 && CountWaits(pair) == 1;
    } else if k == 1 {
      assert [Search(phone)][..0] == [];
      assert CountSearches([Search(phone)]) == 1 && CountWaits([Search(phone)]) == 0;
    }
  }

  /**
   * `searchUserWithRetry`: with an invalid phone nothing is searched; otherwise
   * up to `maxRetries` searches for the normalised phone, stopping at the first
   * hit, with a pause between consecutive searches.
   */
  method SearchUserWithRetry(phone: string, maxRetries: int, retryDelay: int, lookups: seq<Lookup>)
    returns (found: bool, calls: seq<Call>)
    requires maxRetries <= |lookups|
    ensures !Phone.ValidateAndFormatPhone(phone).isValid ==> !found && calls == []
    ensures Phone.ValidateAndFormatPhone(phone).isValid ==>
      var n := if maxRetries > 0 then maxRetries else 0;
      var h := FirstHit(lookups, n);
      && (found <==> h < n)
      && calls == AttemptsTrace(Phone.Normalised(phone), if found then h + 1 else n, retryDelay)
  {
    var validation := Phone.ValidateAndFormatPhone(phone);
    if !validation.isValid {
      return false, [];
    }
    var validPhone := validation.formattedPhone.value;
    assert validPhone == Phone.Normalised(phone);
    Phone.Idempotent(phone);
    ghost var n := if maxRetries > 0 then maxRetries else 0;
    found, calls := RetryLoop(validPhone, maxRetries, retryDelay, lookups);
  }

  /** The loop of `searchUserWithRetry`, on a phone that is already valid. */
  method RetryLoop(validPhone: string, maxRetries: int, retryDelay: int, lookups: seq<Lookup>)
    returns (found: bool, calls: seq<Call>)
    requires maxRetries <= |lookups|
    requires Phone.ValidateAndFormatPhone(validPhone).isValid
    ensures var n := if maxRetries > 0 then maxRetries else 0;
      var h := FirstHit(lookups, n);
      && (found <==> h < n)
      && calls == AttemptsTrace(validPhone, if found then h + 1 else n, retryDelay)
  {
    ghost var n := if maxRetries > 0 then maxRetries else 0;
    var retryCount := 0;
    calls := [];
    while retryCount < maxRetries
      invariant 0 <= retryCount <= n
      invariant FirstHit(lookups, retryCount) == retryCount
      invariant calls == AttemptsTrace(validPhone, retryCount, retryDelay)
                         + (if 0 < retryCount < maxRetries then [Wait(retryDelay)] else [])
    {
      TraceNextSearch(validPhone, retryCount, retryDelay);
      calls := calls + [Search(validPhone)];
      var success := Attempt(validPhone, lookups[retryCount]);
      if success {
        FirstHitIs(lookups, n, retryCount);
        return true, calls;
      }
      retryCount := retryCount + 1;
      if retryCount < maxRetries {
        calls := calls + [Wait(retryDelay)];
      }
    }
    FirstHitIs(lookups, n, n);
    assert calls == AttemptsTrace(validPhone, n, retryDelay);
    return false, calls;
  }

  /** The next search extends a trace of `k` searches, after the pause that follows every search but the last. */
  lemma TraceNextSearch(phone: string, k: nat, delay: int)
    ensures AttemptsTrace(phone, k, delay) + (if k > 0 then [Wait(delay)] else []) + [Search(phone)]
            == AttemptsTrace(phone, k + 1, delay)
  {
  }

  /** One attempt of the loop: `sendUserInfo` on a phone that is already valid succeeds exactly on a hit. */
  method Attempt(validPhone: string, lookup: Lookup) returns (success: bool)
    requires Phone.ValidateAndFormatPhone(validPhone).isValid
    ensures success <==> Hit(lookup)
  {
    success := SendUserInfo(validPhone, lookup).ok;
  }

  /** The first hit is the one after a run of misses. */
  lemma {:induction false} FirstHitIs(lookups: seq<Lookup>, n: nat, h: nat)
    requires h <= n <= |lookups|
    requires h < n ==> Hit(lookups[h])
    requires forall k :: 0 <= k < h ==> !Hit(lookups[k])
    ensures FirstHit(lookups, n) == h
  {
  }
}
