/**
 * The Telegram helpers of src/utils/telegram.ts: the callback data the
 * keyboards send, MarkdownV2 escaping, and the test for a bot command.
 */
module Telegram {
  import opened Wrappers

  /** `CALLBACK_DATA`: the data of the inline buttons. */
  const FindClientData: string := "find_client"
  const CalcConversionData: string := "calc_conversion"
  const SkipData: string := "skip"
  const SaveDefaultManagerData: string := "save_default_manager"

  /** The 18 characters that MarkdownV2 requires to be escaped. */
  const SpecialChars: string := "_*[]()~`>#+-=|{}.!"

  predicate IsSpecial(c: char) {
    c in SpecialChars
  }

  /** The number of characters of `s` that need escaping. */
  function CountSpecial(s: string): nat {
    if s == [] then 0 else (if IsSpecial(s[0]) then 1 else 0) + CountSpecial(s[1..])
  }

  /** `escapeMarkdown`: a backslash before every special character, everything else copied. */
  function EscapeMarkdown(s: string): (r: string)
    ensures |r| == |s| + CountSpecial(s)
    ensures r == [] <==> s == []
    ensures r != [] ==> !IsSpecial(r[0])
  {
    if s == [] then []
    else (if IsSpecial(s[0]) then ['\\', s[0]] else [s[0]]) + EscapeMarkdown(s[1..])
  }

  /** Drops the backslash in front of each special character. */
  function Unescape(r: string): string
    decreases |r|
  {
    if r == [] then []
    else if |r| >= 2 && r[0] == '\\' && IsSpecial(r[1]) then [r[1]] + Unescape(r[2..])
    else [r[0]] + Unescape(r[1..])
  }

  /** Removing the inserted backslashes gives the input back, so escaping loses nothing. */
  lemma {:induction false} UnescapeEscape(s: string)
    ensures Unescape(EscapeMarkdown(s)) == s
  {
    if s != [] {
      var rest := EscapeMarkdown(s[1..]);
      UnescapeEscape(s[1..]);
      if IsSpecial(s[0]) {
        assert EscapeMarkdown(s) == ['\\', s[0]] + rest;
        assert (['\\', s[0]] + rest)[2..] == rest;
      } else {
        assert EscapeMarkdown(s) == [s[0]] + rest;
        assert ([s[0]] + rest)[1..] == rest;
        if s[0] == '\\' && rest != [] {
          assert !IsSpecial(rest[0]);
        }
      }
    }
  }

  /** Escaping is done character by character: it distributes over concatenation. */
  lemma {:induction false} EscapeAppend(a: string, b: string)
    ensures EscapeMarkdown(a + b) == EscapeMarkdown(a) + EscapeMarkdown(b)
  {
    if a == [] {
      assert a + b == b;
    } else {
      assert (a + b)[1..] == a[1..] + b;
      EscapeAppend(a[1..], b);
    }
  }

  /** Text without special characters is left as it is. */
  lemma {:induction false} EscapePlain(s: string)
    requires forall i :: 0 <= i < |s| ==> !IsSpecial(s[i])
    ensures EscapeMarkdown(s) == s
  {
    if s != [] {
      EscapePlain(s[1..]);
    }
  }

  /** A message entity; only its `type` matters here. */
  datatype Entity = Entity(kind: string)

  const BotCommand: string := "bot_command"

  /** `entities.some(e => e.type === "bot_command")`. */
  function AnyCommand(es: seq<Entity>): (b: bool)
    ensures b <==> exists i :: 0 <= i < |es| && es[i].kind == BotCommand
  {
    if es == [] then false
    else es[0].kind == BotCommand || AnyCommand(es[1..])
  }

  /** `isCommand`: an absent entity list is not a command. */
  function IsCommand(entities: Option<seq<Entity>>): (b: bool)
    ensures b <==> entities.Some? && Entity(BotCommand) in entities.value
    ensures entities.None? ==> !b
  {
    match entities
    case None => false
    case Some(es) => AnyCommand(es)
  }

  /** The order of the entities does not matter. */
  lemma CommandIgnoresOrder(a: seq<Entity>, b: seq<Entity>)
    requires multiset(a) == multiset(b)
    ensures IsCommand(Some(a)) == IsCommand(Some(b))
  {
    assert Entity(BotCommand) in a <==> Entity(BotCommand) in multiset(a);
    assert Entity(BotCommand) in b <==> Entity(BotCommand) in multiset(b);
  }

  /** Entities of any other type do not matter. */
  lemma CommandIgnoresOtherKinds(a: seq<Entity>, e: Entity, b: seq<Entity>)
    requires e.kind != BotCommand
    ensures IsCommand(Some(a + [e] + b)) == IsCommand(Some(a + b))
  {
    assert forall x :: x in a + [e] + b <==> x in a || x == e || x in b;
    assert forall x :: x in a + b <==> x in a || x in b;
  }
}
