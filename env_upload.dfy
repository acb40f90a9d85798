/**
 The `.env` upload route (app/api/env/upload/route.ts): a line-oriented
 `KEY=VALUE` parser, extraction of the three sender keys, the merge into
 the override store and the `missing` report.
 */
module EnvUpload {
  import opened JsText
  import opened Records
  import opened EnvStore

  /** What one line contributes: its key and value, or nothing when the line
      is blank, a `#` comment, has no `=`, or has an empty key. */
  function EntryOf(line: string): (r: Option<(string, string)>)
    ensures var t := Trim(line); (t == "" || t[0] == '#' || '=' !in t) ==> r.None?
    ensures r.Some? ==> r.value.0 != "" && '=' !in r.value.0
  {
    var t := Trim(line);
    if t == "" || t[0] == '#' then None
    else
      var eq := IndexOf(t, '=');
      if eq < 0 then None
      else
        var key := Trim(t[..eq]);
        if key == "" then None else Some((key, Trim(t[eq + 1..])))
  }

  /** `eq` is the first `=` of `t`. */
  predicate SplitsAt(t: string, eq: int) {
    0 <= eq < |t| && t[eq] == '=' && '=' !in t[..eq]
  }

  /** A line contributes exactly when its trimmed text is neither empty nor a
      comment and has a non-blank key before its first `=`; the key is then
      the trimmed text before that `=` and the value the trimmed text after. */
  lemma EntryOfSplitsAtFirstEquals(line: string)
    ensures var t := Trim(line);
            EntryOf(line).Some? <==>
              t != "" && t[0] != '#' && exists eq :: SplitsAt(t, eq) && Trim(t[..eq]) != ""
    ensures var t := Trim(line);
            EntryOf(line).Some? ==>
              exists eq :: SplitsAt(t, eq) && EntryOf(line).value == (Trim(t[..eq]), Trim(t[eq + 1..]))
  {
    var t := Trim(line);
    var eq := IndexOf(t, '=');
    forall e | SplitsAt(t, e) ensures e == eq {
      IndexOfAt(t, '=', e);
    }
    if eq >= 0 {
      assert SplitsAt(t, eq);
    }
  }

  /** A key as a `.env` file writes it. */
  predicate IsEnvKey(k: string) {
    k != "" && '=' !in k && k[0] != '#' && !IsSpace(k[0]) && !IsSpace(k[|k| - 1])
  }

  /** A value with no surrounding white space (what the parser produces). */
  predicate IsTrimmed(v: string) {
    v == [] || (!IsSpace(v[0]) && !IsSpace(v[|v| - 1]))
  }

  /** Writing `KEY=VALUE` and parsing it back gives the key and the value,
      whatever `=` signs or quotes the value holds (quotes are not stripped). */
  lemma EntryRoundTrip(k: string, v: string)
    requires IsEnvKey(k) && IsTrimmed(v)
    ensures EntryOf(k + "=" + v) == Some((k, v))
  {
    var line := k + "=" + v;
    assert line[0] == k[0];
    assert line[|line| - 1] == if v == [] then '=' else v[|v| - 1];
    TrimNoop(line);
    assert Trim(line) == line;
    assert line[..|k|] == k && line[|k|] == '=';
    IndexOfAt(line, '=', |k|);
    assert line[|k| + 1..] == v;
    TrimNoop(k);
    TrimNoop(v);
  }

  /** What each line contributes, in order. */
  function Entries(lines: seq<string>): (r: seq<Option<(string, string)>>)
    ensures |r| == |lines| && forall i :: 0 <= i < |lines| ==> r[i] == EntryOf(lines[i])
  {
    seq(|lines|, i requires 0 <= i < |lines| => EntryOf(lines[i]))
  }

  predicate Defines(entry: Option<(string, string)>, key: string) {
    entry.Some? && entry.value.0 == key
  }

  /** The value that the last entry defining `key` gives it: later lines win. */
  function LastValue(entries: seq<Option<(string, string)>>, key: string): Option<string> {
    if entries == [] then None
    else if Defines(entries[|entries| - 1], key) then Some(entries[|entries| - 1].value.1)
    else LastValue(entries[..|entries| - 1], key)
  }

  /** Appending an entry: it wins when it defines the key. */
  lemma LastValueSnoc(entries: seq<Option<(string, string)>>, entry: Option<(string, string)>, key: string)
    ensures LastValue(entries + [entry], key) ==
              if Defines(entry, key) then Some(entry.value.1) else LastValue(entries, key)
  {
    assert (entries + [entry])[..|entries|] == entries;
  }

  /** `LastValue` is absent exactly when no entry defines the key. */
  lemma {:induction false} LastValueAbsent(entries: seq<Option<(string, string)>>, key: string)
    ensures LastValue(entries, key).None? <==> forall i :: 0 <= i < |entries| ==> !Defines(entries[i], key)
  {
    if entries != [] {
      var init := entries[..|entries| - 1];
      LastValueAbsent(init, key);
      assert forall i :: 0 <= i < |init| ==> init[i] == entries[i];
    }
  }

  /** `LastValue` is the value of a defining entry that no later entry overrides. */
  lemma {:induction false} LastValueIsLastEntry(entries: seq<Option<(string, string)>>, key: string)
    requires LastValue(entries, key).Some?
    ensures exists i :: 0 <= i < |entries| && entries[i] == Some((key, LastValue(entries, key).value))
                        && forall j :: i < j < |entries| ==> !Defines(entries[j], key)
  {
    var last := |entries| - 1;
    if Defines(entries[last], key) {
      assert entries[last] == Some((key, LastValue(entries, key).value));
    } else {
      var init := entries[..last];
      LastValueIsLastEntry(init, key);
      var i :| 0 <= i < |init| && init[i] == Some((key, LastValue(init, key).value))
               && forall j :: i < j < |init| ==> !Defines(init[j], key);
      assert entries[i] == init[i];
      forall j | i < j < |entries| ensures !Defines(entries[j], key) {
        if j < last { assert entries[j] == init[j]; }
      }
    }
  }

  /** `out` holds, for every key some entry defines, the last value given to it. */
  ghost predicate Reflects(out: map<string, string>, entries: seq<Option<(string, string)>>) {
    && (forall k :: k in out <==> LastValue(entries, k).Some?)
    && (forall k :: k in out ==> out[k] == LastValue(entries, k).value)
  }

  lemma ReflectsSnoc(out: map<string, string>, entries: seq<Option<(string, string)>>, entry: Option<(string, string)>)
    requires Reflects(out, entries)
    ensures Reflects(if entry.Some? then out[entry.value.0 := entry.value.1] else out, entries + [entry])
  {
    forall k {
      LastValueSnoc(entries, entry, k);
    }
  }

  method ParseEnv(text: string) returns (out: map<string, string>)
    ensures Reflects(out, Entries(SplitLines(text)))
  {
    var lines := SplitLines(text);
    ghost var entries := Entries(lines);
    out := map[];
    var i := 0;
    while i < |lines|
      invariant 0 <= i <= |lines|
      invariant Reflects(out, entries[..i])
    {
      var entry := EntryOf(lines[i]);
      ReflectsStep(out, entries, i, entry);
      if entry.Some? {
        out := out[entry.value.0 := entry.value.1];
      }
      i := i + 1;
    }
    assert entries[..i] == entries;
  }

  lemma ReflectsStep(out: map<string, string>, entries: seq<Option<(string, string)>>, i: nat, entry: Option<(string, string)>)
    requires i < |entries| && entry == entries[i]
    requires Reflects(out, entries[..i])
    ensures Reflects(if entry.Some? then out[entry.value.0 := entry.value.1] else out, entries[..i + 1])
  {
    assert entries[..i + 1] == entries[..i] + [entry];
    ReflectsSnoc(out, entries[..i], entry);
  }

  /** `KEYS.forEach(k => { if (parsed[k]) extracted[k] = parsed[k]; })` */
  method ExtractKnown(parsed: map<string, string>) returns (extracted: map<string, string>)
    ensures IsSenderEnv(extracted)
    ensures forall k :: k in extracted <==> k in Keys && Truthy(Lookup(parsed, k))
    ensures forall k :: k in extracted ==> k in parsed && extracted[k] == parsed[k]
  {
    extracted := map[];
    for i := 0 to |Keys|
      invariant forall k :: k in extracted <==> k in Keys[..i] && Truthy(Lookup(parsed, k))
      invariant forall k :: k in extracted ==> k in parsed && extracted[k] == parsed[k]
    {
      var k := Keys[i];
      if Truthy(Lookup(parsed, k)) {
        extracted := extracted[k := parsed[k]];
      }
    }
    assert Keys[..|Keys|] == Keys;
  }

  /** The sender values a `.env` text supplies (the result of extraction). */
  function KnownValues(lines: seq<string>): (m: map<string, string>)
    ensures IsSenderEnv(m)
  {
    map k | k in Keys && Truthy(LastValue(Entries(lines), k)) :: LastValue(Entries(lines), k).value
  }

  function MissingFrom(keys: seq<string>, extracted: map<string, string>): seq<string> {
    if keys == [] then []
    else (if Truthy(Lookup(extracted, keys[0])) then [] else [keys[0]]) + MissingFrom(keys[1..], extracted)
  }

  /** The filter keeps exactly the keys without a non-empty value. */
  lemma {:induction false} MissingFromMembers(keys: seq<string>, extracted: map<string, string>)
    ensures forall k :: k in MissingFrom(keys, extracted) <==> k in keys && !Truthy(Lookup(extracted, k))
  {
    if keys != [] {
      MissingFromMembers(keys[1..], extracted);
      assert keys == [keys[0]] + keys[1..];
    }
  }

  /** `KEYS.filter(k => !extracted[k])` */
  function Missing(extracted: map<string, string>): (r: seq<string>)
    ensures forall k :: k in r <==> k in Keys && !Truthy(Lookup(extracted, k))
  {
    MissingFromMembers(Keys, extracted);
    MissingFrom(Keys, extracted)
  }

  predicate Absent(extracted: map<string, string>, k: string) {
    !Truthy(Lookup(extracted, k))
  }

  /** Filtering a three-key list keeps the absent keys in list order. */
  lemma MissingFromThree(a: string, b: string, c: string, extracted: map<string, string>)
    ensures MissingFrom([a, b, c], extracted) ==
              (if Absent(extracted, a) then [a] else [])
              + (if Absent(extracted, b) then [b] else [])
              + (if Absent(extracted, c) then [c] else [])
  {
    var sa := if Absent(extracted, a) then [a] else [];
    var sb := if Absent(extracted, b) then [b] else [];
    var sc := if Absent(extracted, c) then [c] else [];
    assert [c][1..] == [];
    assert MissingFrom([c], extracted) == sc + [];
    assert [b, c][1..] == [c];
    assert MissingFrom([b, c], extracted) == sb + sc;
    assert [a, b, c][1..] == [b, c];
    assert MissingFrom([a, b, c], extracted) == sa + (sb + sc);
    assert sa + (sb + sc) == sa + sb + sc;
  }

  /** The missing keys come in `KEYS` order. */
  lemma MissingInKeyOrder(extracted: map<string, string>)
    ensures Missing(extracted) ==
              (if Absent(extracted, SenderEmail) then [SenderEmail] else [])
              + (if Absent(extracted, SenderAppPassword) then [SenderAppPassword] else [])
              + (if Absent(extracted, SenderName) then [SenderName] else [])
  {
    MissingFromThree(SenderEmail, SenderAppPassword, SenderName, extracted);
  }

  /** The request body: unreadable (neither form data nor JSON), or the env
      text it carries (`""` when the file or the `envText` field is absent). */
  datatype UploadBody = Unreadable | Supplied(envText: string)

  datatype UploadResponse =
    | UploadError(status: nat, error: string)
    | Uploaded(ok: bool, stored: map<string, string>, missing: seq<string>)

  /** `POST /api/env/upload` */
  method Upload(store: OverrideStore, body: UploadBody) returns (resp: UploadResponse)
    requires store.Valid()
    modifies store
    ensures store.Valid()
    ensures body.Unreadable? ==>
              resp == UploadError(400, "Invalid upload body") && store.values == old(store.values)
    ensures body.Supplied? && Trim(body.envText) == "" ==>
              resp == UploadError(400, "No env content provided") && store.values == old(store.values)
    ensures body.Supplied? && Trim(body.envText) != "" ==>
              && resp.Uploaded?
              && resp.stored == KnownValues(SplitLines(body.envText))
              && resp.missing == Missing(resp.stored)
              && (resp.ok <==> resp.missing == [])
              && store.values == old(store.values) + resp.stored
  {
    if body.Unreadable? {
      return UploadError(400, "Invalid upload body");
    }
    var envText := body.envText;
    if Trim(envText) == "" {
      return UploadError(400, "No env content provided");
    }
    var parsed := ParseEnv(envText);
    var extracted := ExtractKnown(parsed);
    ExtractionIsKnownValues(parsed, extracted, SplitLines(envText));
    store.Set(extracted);
    var missing := Missing(extracted);
    resp := Uploaded(|missing| == 0, extracted, missing);
  }

  lemma ExtractionIsKnownValues(parsed: map<string, string>, extracted: map<string, string>, lines: seq<string>)
    requires Reflects(parsed, Entries(lines))
    requires forall k :: k in extracted <==> k in Keys && Truthy(Lookup(parsed, k))
    requires forall k :: k in extracted ==> k in parsed && extracted[k] == parsed[k]
    ensures extracted == KnownValues(lines)
  {
    var m := KnownValues(lines);
    assert forall k :: k in extracted <==> k in m;
    assert forall k :: k in m ==> extracted[k] == m[k];
  }

  /** Blank text is exactly text made only of white space. */
  lemma BlankUploadIsWhitespace(text: string)
    ensures Trim(text) == "" <==> AllSpace(text)
  {
    TrimBlank(text);
  }

  /** An upload reports ok exactly when it supplied all three keys with
      non-empty values; the store then holds exactly those values. */
  lemma UploadOkMeansComplete(lines: seq<string>)
    ensures Missing(KnownValues(lines)) == [] <==>
              forall k :: k in Keys ==> Truthy(LastValue(Entries(lines), k))
  {
    var m := KnownValues(lines);
    if Missing(m) == [] {
      forall k | k in Keys ensures Truthy(LastValue(Entries(lines), k)) {
        assert k !in Missing(m);
      }
    } else {
      var k := Missing(m)[0];
      assert k in Missing(m);
    }
  }
}
