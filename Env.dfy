/**
 * The `.env` loader of src/utils/env.ts. The process environment is a map the
 * loader updates line by line; the file is its text, or `None` when the file
 * does not exist.
 */
module Env {
  import opened Wrappers
  import opened Text

  /** `s.split(sep)` for a one-character separator. */
  function Split(s: string, sep: char): (parts: seq<string>)
    ensures |parts| >= 1
    decreases |s|
  {
    match IndexOf(s, sep)
    case None => [s]
    case Some(i) => [s[..i]] + Split(s[i + 1..], sep)
  }

  /** No part holds the separator, and joining the parts with it gives the text back. */
  lemma {:induction false} SplitJoin(s: string, sep: char)
    ensures forall k :: 0 <= k < |Split(s, sep)| ==> sep !in Split(s, sep)[k]
    ensures Join(Split(s, sep), [sep]) == s
    decreases |s|
  {
    IndexOfFirst(s, sep);
    match IndexOf(s, sep)
    case None =>
    case Some(i) =>
      var rest := Split(s[i + 1..], sep);
      SplitJoin(s[i + 1..], sep);
      var parts := [s[..i]] + rest;
      assert Split(s, sep) == parts;
      assert parts[1..] == rest;
      assert s == s[..i] + [sep] + s[i + 1..];
  }

  /**
   * One line: trimmed; blank and `#` lines are skipped; the key is the text
   * before the first `=` and the value the remaining parts joined again with
   * `=`; when both are non-empty they are stored trimmed.
   */
  function ParseLine(line: string): (r: Option<(string, string)>)
    ensures r.Some? ==> IsTrimmed(r.value.0) && IsTrimmed(r.value.1)
  {
    ParseTrimmed(Trim(line))
  }

  /** The part of the line's handling after `trim()`. */
  function ParseTrimmed(t: string): (r: Option<(string, string)>)
    ensures r.Some? ==> IsTrimmed(r.value.0) && IsTrimmed(r.value.1)
  {
    if t == [] || t[0] == '#' then None
    else
      var parts := Split(t, '=');
      var key := parts[0];
      var value := Join(parts[1..], "=");
      if key != [] && value != [] then Some((Trim(key), Trim(value)))
      else None
  }

  /** Splitting at a separator found first at `i`: the head is the text before it, the rest joins back to the text after it. */
  lemma SplitAtFirst(s: string, sep: char, i: nat)
    requires IndexOf(s, sep) == Some(i)
    ensures Split(s, sep)[0] == s[..i]
    ensures Join(Split(s, sep)[1..], [sep]) == s[i + 1..]
  {
    var rest := Split(s[i + 1..], sep);
    SplitJoin(s[i + 1..], sep);
    assert Split(s, sep) == [s[..i]] + rest;
    assert ([s[..i]] + rest)[1..] == rest;
  }

  /**
   * The line read directly: the split happens at the first `=`, the value
   * keeps any further `=`, and a line with no `=`, an empty key or an empty
   * value sets nothing.
   */
  lemma ParseLineAtFirstEquals(line: string)
    ensures var t := Trim(line);
      ParseLine(line) ==
        if t == [] || t[0] == '#' then None
        else match IndexOf(t, '=')
          case None => None
          case Some(i) =>
            if i == 0 || i + 1 == |t| then None
            else Some((Trim(t[..i]), Trim(t[i + 1..])))
  {
    var t := Trim(line);
    if t != [] && t[0] != '#' {
      match IndexOf(t, '=')
      case None =>
        assert Split(t, '=') == [t];
      case Some(i) =>
        ParseTrimmedAt(t, i);
    }
  }

  /** A trimmed line whose first `=` is at `i` sets the trimmed text around it, unless either side is empty. */
  lemma ParseTrimmedAt(t: string, i: nat)
    requires t != [] && t[0] != '#' && IndexOf(t, '=') == Some(i)
    ensures ParseTrimmed(t) == if i == 0 || i + 1 == |t| then None else Some((Trim(t[..i]), Trim(t[i + 1..])))
  {
    SplitAtFirst(t, '=', i);
    var parts := Split(t, '=');
    assert "=" == ['='];
    assert parts[0] == t[..i];
    assert Join(parts[1..], "=") == t[i + 1..];
    assert i == 0 <==> t[..i] == [];
    assert i + 1 == |t| <==> t[i + 1..] == [];
  }

  /** A line that sets a variable sets a non-empty name to a non-empty value. */
  lemma ParsedPartsNonEmpty(line: string)
    ensures ParseLine(line).Some? ==> ParseLine(line).value.0 != [] && ParseLine(line).value.1 != []
  {
    ParseLineAtFirstEquals(line);
    var t := Trim(line);
    if t != [] && t[0] != '#' {
      match IndexOf(t, '=')
      case None =>
      case Some(i) =>
        if i != 0 && i + 1 != |t| {
          TrimmedEnds(t, i);
        }
    }
  }

  /** Inside a trimmed line, a non-empty key or value also survives trimming. */
  lemma TrimmedEnds(t: string, i: nat)
    requires IsTrimmed(t) && 0 < i && i + 1 < |t|
    ensures Trim(t[..i]) != [] && Trim(t[i + 1..]) != []
  {
    TrimKeepsNonWhitespace(t[..i], 0);
    TrimKeepsNonWhitespace(t[i + 1..], |t| - i - 2);
  }

  lemma TrimKeepsNonWhitespace(s: string, k: nat)
    requires k < |s| && !IsJsWhitespace(s[k])
    ensures Trim(s) != []
  {
    var a := TrimStart(s);
    StartKeeps(s, k);
    assert a != [];
    EndKeeps(a);
  }

  lemma {:induction false} StartKeeps(s: string, k: nat)
    requires k < |s| && !IsJsWhitespace(s[k])
    ensures TrimStart(s) != []
    decreases |s|
  {
    if IsJsWhitespace(s[0]) {
      assert k >= 1;
      StartKeeps(s[1..], k - 1);
    }
  }

  lemma EndKeeps(a: string)
    requires a != [] && !IsJsWhitespace(a[0])
    ensures TrimEnd(a) != []
  {
    if IsJsWhitespace(a[|a| - 1]) {
      EndKeepsPrefix(a[..|a| - 1], a[0]);
    }
  }

  lemma {:induction false} EndKeepsPrefix(p: string, c: char)
    requires p != [] && p[0] == c && !IsJsWhitespace(c)
    ensures TrimEnd(p) != []
    decreases |p|
  {
    if IsJsWhitespace(p[|p| - 1]) {
      assert |p| >= 2;
      EndKeepsPrefix(p[..|p| - 1], c);
    }
  }

  /** What each line of the file asks for, in file order. */
  function ParseLines(lines: seq<string>): (entries: seq<Option<(string, string)>>)
    ensures |entries| == |lines|
  {
    if lines == [] then [] else ParseLines(lines[..|lines| - 1]) + [ParseLine(lines[|lines| - 1])]
  }

  /** Entry `i` is what line `i` asks for. */
  lemma {:induction false} ParseLinesAt(lines: seq<string>, i: nat)
    requires i < |lines|
    ensures ParseLines(lines)[i] == ParseLine(lines[i])
  {
    if i < |lines| - 1 {
      ParseLinesAt(lines[..|lines| - 1], i);
    }
  }

  /** The entry sets `key`. */
  predicate SetsKey(e: Option<(string, string)>, key: string) {
    e.Some? && e.value.0 == key
  }

  /** `Deno.env.set` for one entry. */
  function Apply(env: map<string, string>, e: Option<(string, string)>): map<string, string> {
    match e
    case None => env
    case Some((k, v)) => env[k := v]
  }

  /** The environment after applying `entries` in order to `env`. */
  function ApplyAll(env: map<string, string>, entries: seq<Option<(string, string)>>): map<string, string>
    decreases |entries|
  {
    if entries == [] then env
    else Apply(ApplyAll(env, entries[..|entries| - 1]), entries[|entries| - 1])
  }

  /** Applying one more entry after a sequence of entries. */
  lemma ApplyAllSnoc(env: map<string, string>, entries: seq<Option<(string, string)>>, e: Option<(string, string)>)
    ensures ApplyAll(env, entries + [e]) == Apply(ApplyAll(env, entries), e)
  {
    assert (entries + [e])[..|entries|] == entries;
  }

  /** A key no line sets keeps its previous value, or stays absent. */
  lemma {:induction false} UnsetKeysUnchanged(env: map<string, string>, entries: seq<Option<(string, string)>>, key: string)
    requires forall j :: 0 <= j < |entries| ==> !SetsKey(entries[j], key)
    ensures key in ApplyAll(env, entries) <==> key in env
    ensures key in env ==> ApplyAll(env, entries)[key] == env[key]
    decreases |entries|
  {
    if entries != [] {
      UnsetKeysUnchanged(env, entries[..|entries| - 1], key);
    }
  }

  /** The last line that sets a key decides its value. */
  lemma {:induction false} LastLineWins(env: map<string, string>, entries: seq<Option<(string, string)>>, key: string, j: nat)
    requires j < |entries| && SetsKey(entries[j], key)
    requires forall j' :: j < j' < |entries| ==> !SetsKey(entries[j'], key)
    ensures key in ApplyAll(env, entries)
    ensures ApplyAll(env, entries)[key] == entries[j].value.1
    decreases |entries|
  {
    if j < |entries| - 1 {
      LastLineWins(env, entries[..|entries| - 1], key, j);
    }
  }

  /** Only keys some line sets can appear. */
  lemma {:induction false} OnlyParsedKeysAppear(env: map<string, string>, entries: seq<Option<(string, string)>>, key: string)
    requires key in ApplyAll(env, entries) && key !in env
    ensures exists j :: 0 <= j < |entries| && SetsKey(entries[j], key)
    decreases |entries|
  {
    var init := entries[..|entries| - 1];
    if !SetsKey(entries[|entries| - 1], key) {
      OnlyParsedKeysAppear(env, init, key);
      var j :| 0 <= j < |init| && SetsKey(init[j], key);
      assert entries[j] == init[j];
    }
  }

  /** The process environment. */
  class Environment {
    var vars: map<string, string>

    constructor (initial: map<string, string>)
      ensures vars == initial
    {
      vars := initial;
    }

    /** One line of the file: a line that sets a variable sets it, any other line changes nothing. */
    method LoadLine(line: string)
      modifies this
      ensures vars == Apply(old(vars), ParseLine(line))
    {
      var entry := ParseLine(line);
      vars := Apply(vars, entry);
    }

    /** `loadEnv`: a missing file changes nothing; otherwise each line is applied in order. */
    method LoadEnv(file: Option<string>)
      modifies this
      ensures file.None? ==> vars == old(vars)
      ensures file.Some? ==> vars == ApplyAll(old(vars), ParseLines(Split(file.value, '\n')))
    {
      if file.None? {
        return;
      }
      var lines := Split(file.value, '\n');
      for i := 0 to |lines|
        invariant vars == ApplyAll(old(vars), ParseLines(lines[..i]))
      {
        assert lines[..i + 1][..i] == lines[..i];
        ApplyAllSnoc(old(vars), ParseLines(lines[..i]), ParseLine(lines[i]));
        LoadLine(lines[i]);
      }
      assert lines[..|lines|] == lines;
    }
  }
}
