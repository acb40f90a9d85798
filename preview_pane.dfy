/**
 The preview panel (app/components/ui/PreviewPane.tsx): the per-row
 preview rendering, the recipient list, the template-variable scanner and
 the check of used variables against the known columns, the request body
 the send button posts, and the sending/cool-down state that gates the
 button.
 */
module PreviewPane {
  import opened Records
  import opened JsText
  import opened CsvUploader
  import SendStream

  /** The note put in front of the raw template when rendering throws. */
  function RenderErrorNote(msg: string): string {
    "<!-- Render error: " + msg + " -->\n"
  }

  /** `renderRow(row)`: the raw template without a mapping; otherwise the
      template rendered against the row's columns with the `name` and
      `recipient` aliases, and when rendering throws, the raw template
      behind a note that carries the message. It never fails. */
  function RenderRow(template: string, mapping: Option<Mapping>, row: Row, engine: Engine): (r: string)
    ensures mapping.None? ==> r == template
    ensures mapping.Some? && engine(template, AliasedContext(row, mapping.value)).Ok? ==>
              r == engine(template, AliasedContext(row, mapping.value)).value
    ensures mapping.Some? && engine(template, AliasedContext(row, mapping.value)).Err? ==>
              r == RenderErrorNote(engine(template, AliasedContext(row, mapping.value)).message) + template
  {
    if mapping.None? then template
    else
      match engine(template, AliasedContext(row, mapping.value))
      case Ok(text) => text
      case Err(msg) => RenderErrorNote(msg) + template
  }

  /** The preview shows the body the server sends whenever the template
      renders; when it throws, the preview shows the server's fallback
      (the raw template) behind the error note, so the two always differ
      then. */
  lemma PreviewMatchesSentBody(template: string, subject: Option<string>, mapping: Mapping, row: Row, engine: Engine)
    ensures var sent := SendStream.RenderTemplate(template, subject, row, mapping, engine).body;
            var shown := RenderRow(template, Some(mapping), row, engine);
            && (engine(template, AliasedContext(row, mapping)).Ok? ==> shown == sent)
            && (engine(template, AliasedContext(row, mapping)).Err? ==> EndsWith(shown, sent) && shown != sent)
  {
    var ctx := AliasedContext(row, mapping);
    if engine(template, ctx).Err? {
      var note := RenderErrorNote(engine(template, ctx).message);
      var shown := note + template;
      assert shown[|shown| - |template|..] == template;
      assert |shown| > |template|;
    }
  }

  /** `recipients`: nothing without a CSV and a mapping; otherwise the
      non-empty recipient values, in row order. */
  function Recipients(csv: Option<ParsedCsv>, mapping: Option<Mapping>): (r: seq<string>)
    ensures csv.None? || mapping.None? ==> r == []
    ensures csv.Some? && mapping.Some? ==>
              var rows := Eligible(csv.value.rows, mapping.value);
              |r| == |rows| && forall i :: 0 <= i < |r| ==> r[i] != "" && Some(r[i]) == RecipientValue(rows[i], mapping.value)
  {
    if csv.None? || mapping.None? then []
    else
      var rows := Eligible(csv.value.rows, mapping.value);
      seq(|rows|, i requires 0 <= i < |rows| => RecipientValue(rows[i], mapping.value).value)
  }

  /** `availableVars`: the headers, then the two aliases when a mapping
      exists, each once, in that order. */
  function AvailableVars(csv: Option<ParsedCsv>, mapping: Option<Mapping>): (r: seq<string>)
    ensures Distinct(r)
    ensures forall v :: v in r <==>
              (csv.Some? && v in csv.value.headers) || (mapping.Some? && (v == "name" || v == "recipient"))
  {
    var fromHeaders := if csv.Some? then Dedup(csv.value.headers) else [];
    if mapping.Some? then SetAdd(SetAdd(fromHeaders, "name"), "recipient") else fromHeaders
  }

  /** The first character of a captured variable: `[a-zA-Z_]`. */
  predicate IsIdentStart(c: char) {
    IsAsciiLetter(c) || c == '_'
  }

  /** The characters after it: `[\w\.]`. */
  predicate IsIdentChar(c: char) {
    IsWordChar(c) || c == '.'
  }

  predicate IsIdentifier(v: string) {
    |v| > 0 && IsIdentStart(v[0]) && forall k :: 1 <= k < |v| ==> IsIdentChar(v[k])
  }

  /** The end of the run of whitespace that starts at `i` (`\s*`). */
  function SkipSpaces(t: string, i: nat): (j: nat)
    requires i <= |t|
    ensures i <= j <= |t| && (forall k :: i <= k < j ==> IsSpace(t[k])) && (j == |t| || !IsSpace(t[j]))
    decreases |t| - i
  {
    if i == |t| || !IsSpace(t[i]) then i else SkipSpaces(t, i + 1)
  }

  /** The end of the run of identifier characters that starts at `i`
      (`[\w\.]*`). */
  function SkipIdentChars(t: string, i: nat): (j: nat)
    requires i <= |t|
    ensures i <= j <= |t| && (forall k :: i <= k < j ==> IsIdentChar(t[k])) && (j == |t| || !IsIdentChar(t[j]))
    decreases |t| - i
  {
    if i == |t| || !IsIdentChar(t[i]) then i else SkipIdentChars(t, i + 1)
  }

  /** One match of the pattern: the captured variable and the position
      just past the closing braces. */
  datatype Occurrence = Occurrence(name: string, end: nat)

  /** `/\{\{\s*([a-zA-Z_][\w\.]*)\s*\}\}/` tried at position `i`. Each
      repetition in the pattern is followed by something it cannot match,
      so backtracking never helps: every repetition takes all it can. */
  function MatchAt(t: string, i: nat): (m: Option<Occurrence>)
    requires i < |t|
    ensures m.Some? ==> i + 5 <= m.value.end <= |t| && IsIdentifier(m.value.name)
  {
    if i + 2 > |t| || t[i] != '{' || t[i + 1] != '{' then None
    else
      var a := SkipSpaces(t, i + 2);
      if a == |t| || !IsIdentStart(t[a]) then None
      else
        var b := SkipIdentChars(t, a + 1);
        var c := SkipSpaces(t, b);
        if c + 2 <= |t| && t[c] == '}' && t[c + 1] == '}' then Some(Occurrence(t[a..b], c + 2))
        else None
  }

  /** `{{`, whitespace, the identifier `t[a..b]`, whitespace and `}}`,
      starting at `i`, the closing braces at `c`. */
  predicate Placeholder(t: string, i: nat, a: nat, b: nat, c: nat) {
    && i + 2 <= a < b <= c && c + 2 <= |t|
    && t[i] == '{' && t[i + 1] == '{'
    && (forall k :: i + 2 <= k < a ==> IsSpace(t[k]))
    && IsIdentifier(t[a..b])
    && (forall k :: b <= k < c ==> IsSpace(t[k]))
    && t[c] == '}' && t[c + 1] == '}'
  }

  /** Soundness of the matcher: a match at `i` is `{{`, whitespace, the
      captured identifier, whitespace and `}}`, and ends past the braces. */
  lemma MatchIsPlaceholder(t: string, i: nat)
    requires i < |t| && MatchAt(t, i).Some?
    ensures exists a: nat, b: nat, c: nat :: Placeholder(t, i, a, b, c) && MatchAt(t, i).value == Occurrence(t[a..b], c + 2)
  {
    var a := SkipSpaces(t, i + 2);
    var b := SkipIdentChars(t, a + 1);
    var c := SkipSpaces(t, b);
    IdentifierSpan(t, a, b);
    assert Placeholder(t, i, a, b, c);
  }

  /** An identifier start followed by identifier characters is an identifier. */
  lemma IdentifierSpan(t: string, a: nat, b: nat)
    requires a < b <= |t| && IsIdentStart(t[a]) && forall k :: a + 1 <= k < b ==> IsIdentChar(t[k])
    ensures IsIdentifier(t[a..b])
  {
    var v := t[a..b];
    assert v[0] == t[a];
    assert forall k :: 1 <= k < |v| ==> v[k] == t[a + k];
  }

  lemma {:induction false} SkipSpacesStops(t: string, i: nat, e: nat)
    requires i <= e <= |t| && (forall k :: i <= k < e ==> IsSpace(t[k])) && (e == |t| || !IsSpace(t[e]))
    ensures SkipSpaces(t, i) == e
    decreases e - i
  {
    if i < e {
      SkipSpacesStops(t, i + 1, e);
    }
  }

  lemma {:induction false} SkipIdentCharsStops(t: string, i: nat, e: nat)
    requires i <= e <= |t| && (forall k :: i <= k < e ==> IsIdentChar(t[k])) && (e == |t| || !IsIdentChar(t[e]))
    ensures SkipIdentChars(t, i) == e
    decreases e - i
  {
    if i < e {
      SkipIdentCharsStops(t, i + 1, e);
    }
  }

  /** The characters of an identifier found at `a..b` of a text. */
  lemma IdentifierAt(t: string, a: nat, b: nat)
    requires a < b <= |t| && IsIdentifier(t[a..b])
    ensures IsIdentStart(t[a]) && forall k :: a + 1 <= k < b ==> IsIdentChar(t[k])
  {
    assert t[a] == t[a..b][0];
    forall k | a + 1 <= k < b ensures IsIdentChar(t[k]) {
      assert t[k] == t[a..b][k - a];
    }
  }

  /** The matcher at `i` once the ends of its three runs are known. */
  lemma MatchAtRuns(t: string, i: nat, a: nat, b: nat, c: nat)
    requires i + 2 <= a < b <= c && c + 2 <= |t|
    requires t[i] == '{' && t[i + 1] == '{' && t[c] == '}' && t[c + 1] == '}'
    requires SkipSpaces(t, i + 2) == a && IsIdentStart(t[a])
    requires SkipIdentChars(t, a + 1) == b && SkipSpaces(t, b) == c
    ensures MatchAt(t, i) == Some(Occurrence(t[a..b], c + 2))
  {
  }

  /** Completeness of the matcher: `{{`, whitespace, an identifier,
      whitespace and `}}` starting at `i` is a match there, capturing the
      identifier. */
  lemma MatchesPlaceholder(t: string, i: nat, a: nat, b: nat, c: nat)
    requires Placeholder(t, i, a, b, c)
    ensures MatchAt(t, i) == Some(Occurrence(t[a..b], c + 2))
  {
    IdentifierAt(t, a, b);
    SkipSpacesStops(t, i + 2, a);
    assert !IsIdentChar(t[b]) by {
      if b < c {
        assert IsSpace(t[b]);
      }
    }
    SkipIdentCharsStops(t, a + 1, b);
    SkipSpacesStops(t, b, c);
    MatchAtRuns(t, i, a, b, c);
  }

  /** Soundness of the matcher's scan: no match starts inside another. */
  lemma NoMatchInside(t: string, i: nat, j: nat)
    requires i < |t| && MatchAt(t, i).Some? && i < j < MatchAt(t, i).value.end
    ensures MatchAt(t, j).None?
  {
    var a := SkipSpaces(t, i + 2);
    var b := SkipIdentChars(t, a + 1);
    var c := SkipSpaces(t, b);
    assert t[a] != '{';
    if j == i + 1 {
      assert t[j + 1] != '{';
    } else {
      assert i + 2 <= j < c + 2;
      assert t[j] != '{';
    }
  }

  /** The variables the global regular expression captures from position
      `i` on, in order, repeats included: a match resumes the search at
      its end, a miss moves it on by one. */
  function Captures(t: string, i: nat): (vs: seq<string>)
    requires i <= |t|
    ensures forall v :: v in vs ==> IsIdentifier(v)
    decreases |t| - i
  {
    if i == |t| then []
    else
      match MatchAt(t, i)
      case Some(o) => [o.name] + Captures(t, o.end)
      case None => Captures(t, i + 1)
  }

  /** A match of the pattern, anywhere from `i` on, captures `v`. */
  predicate OccursFrom(t: string, i: nat, v: string) {
    exists j :: i <= j < |t| && MatchAt(t, j).Some? && MatchAt(t, j).value.name == v
  }

  /** Every capture comes from a placeholder at or after `i`. */
  lemma {:induction false} CapturedOccurs(t: string, i: nat, v: string)
    requires i <= |t| && v in Captures(t, i)
    ensures OccursFrom(t, i, v)
    decreases |t| - i
  {
    match MatchAt(t, i)
    case Some(o) =>
      if v != o.name {
        CapturedOccurs(t, o.end, v);
      }
    case None =>
      CapturedOccurs(t, i + 1, v);
  }

  /** The scan misses nothing: the placeholder at `j` is captured by a
      scan that starts at or before it. */
  lemma {:induction false} OccurrenceCaptured(t: string, i: nat, j: nat)
    requires i <= j < |t| && MatchAt(t, j).Some?
    ensures MatchAt(t, j).value.name in Captures(t, i)
    decreases |t| - i
  {
    if i < j {
      match MatchAt(t, i)
      case Some(o) =>
        if j < o.end {
          NoMatchInside(t, i, j);
        } else {
          OccurrenceCaptured(t, o.end, j);
        }
      case None =>
        OccurrenceCaptured(t, i + 1, j);
    }
  }

  /** A variable is captured exactly when some placeholder at or after
      `i` names it. */
  lemma CapturesOccurrences(t: string, i: nat, v: string)
    requires i <= |t|
    ensures v in Captures(t, i) <==> OccursFrom(t, i, v)
  {
    if v in Captures(t, i) {
      CapturedOccurs(t, i, v);
    }
    if OccursFrom(t, i, v) {
      var j :| i <= j < |t| && MatchAt(t, j).Some? && MatchAt(t, j).value.name == v;
      OccurrenceCaptured(t, i, j);
    }
  }

  /** `usedSubjectVars` / `usedBodyVars`: the captured variables, each
      once, in order of first occurrence. */
  function UsedVars(t: string): (r: seq<string>)
    ensures Distinct(r)
    ensures forall v :: v in r ==> IsIdentifier(v)
  {
    Dedup(Captures(t, 0))
  }

  /** The scanner's promise: a variable is reported exactly when a
      `{{ ident }}` placeholder in the text names it. */
  lemma UsedVarsAreThePlaceholders(t: string, v: string)
    ensures v in UsedVars(t) <==> OccursFrom(t, 0, v)
    ensures v in UsedVars(t) <==> exists i: nat, a: nat, b: nat, c: nat :: Placeholder(t, i, a, b, c) && t[a..b] == v
  {
    CapturesOccurrences(t, 0, v);
    if OccursFrom(t, 0, v) {
      var j :| 0 <= j < |t| && MatchAt(t, j).Some? && MatchAt(t, j).value.name == v;
      MatchIsPlaceholder(t, j);
      var a: nat, b: nat, c: nat :| Placeholder(t, j, a, b, c) && MatchAt(t, j).value == Occurrence(t[a..b], c + 2);
      assert t[a..b] == v;
    }
    if exists i: nat, a: nat, b: nat, c: nat :: Placeholder(t, i, a, b, c) && t[a..b] == v {
      var i: nat, a: nat, b: nat, c: nat :| Placeholder(t, i, a, b, c) && t[a..b] == v;
      MatchesPlaceholder(t, i, a, b, c);
    }
  }

  /** Each reported variable appears once, in the order of its first
      capture. */
  lemma UsedVarsInFirstOccurrenceOrder(t: string)
    ensures var cs := Captures(t, 0);
            forall i, j :: 0 <= i < j < |UsedVars(t)| ==> FirstIndex(cs, UsedVars(t)[i]) < FirstIndex(cs, UsedVars(t)[j])
  {
    DedupFirstOccurrence(Captures(t, 0));
  }

  /** The `while (re.exec(...))` loop adding each capture to a set. Each
      iteration either finds the pattern at the search position, adds its
      capture and resumes at the match's end, or moves the search on by
      one position. */
  method ScanVars(t: string) returns (vars: seq<string>)
    ensures vars == UsedVars(t)
  {
    vars := [];
    var lastIndex := 0;
    while lastIndex < |t|
      invariant lastIndex <= |t|
      invariant SetAddAll(vars, Captures(t, lastIndex)) == UsedVars(t)
      decreases |t| - lastIndex
    {
      var m := MatchAt(t, lastIndex);
      if m.Some? {
        vars := SetAdd(vars, m.value.name);
        lastIndex := m.value.end;
      } else {
        lastIndex := lastIndex + 1;
      }
    }
  }

  /** A placeholder with whitespace inside the braces is found. */
  lemma ScanExample()
    ensures UsedVars("{{ name }}") == ["name"]
  {
    var t := "{{ name }}";
    assert t[3..7] == "name";
    MatchesPlaceholder(t, 0, 3, 7, 8);
    assert Captures(t, 10) == [];
  }

  /** `allUsed`: the variables used in the subject or the body, each once. */
  function AllUsed(subjectTemplate: string, template: string): (r: seq<string>)
    ensures Distinct(r)
    ensures forall v :: v in r <==> v in UsedVars(subjectTemplate) || v in UsedVars(template)
  {
    Dedup(UsedVars(subjectTemplate) + UsedVars(template))
  }

  /** `used.filter(v => !known.includes(v))` */
  function Unknown(used: seq<string>, known: seq<string>): (r: seq<string>)
    ensures forall v :: v in r <==> v in used && v !in known
    ensures Distinct(used) ==> Distinct(r)
  {
    if used == [] then []
    else
      var rest := Unknown(used[1..], known);
      assert forall v :: v in used <==> v == used[0] || v in used[1..];
      if used[0] in known then rest else [used[0]] + rest
  }

  /** `invalidUsed` */
  function InvalidUsed(csv: Option<ParsedCsv>, mapping: Option<Mapping>, subjectTemplate: string, template: string)
    : (r: seq<string>)
    ensures Distinct(r)
  {
    Unknown(AllUsed(subjectTemplate, template), AvailableVars(csv, mapping))
  }

  /** A variable is flagged exactly when the subject or the body uses it
      and it is neither a header nor, once a mapping exists, one of the
      two aliases. */
  lemma InvalidUsedIsUnknownVariables(csv: Option<ParsedCsv>, mapping: Option<Mapping>,
                                      subjectTemplate: string, template: string, v: string)
    ensures v in InvalidUsed(csv, mapping, subjectTemplate, template) <==>
              (OccursFrom(subjectTemplate, 0, v) || OccursFrom(template, 0, v))
              && !(csv.Some? && v in csv.value.headers)
              && !(mapping.Some? && (v == "name" || v == "recipient"))
  {
    UsedVarsAreThePlaceholders(subjectTemplate, v);
    UsedVarsAreThePlaceholders(template, v);
  }

  /** `ready` */
  predicate Ready(csv: Option<ParsedCsv>, mapping: Option<Mapping>, template: string) {
    csv.Some? && mapping.Some? && Trim(template) != ""
  }

  /** `subjectTemplate?.trim() || undefined` */
  function SentSubject(subjectTemplate: string): (r: Option<string>)
    ensures r.None? <==> AllSpace(subjectTemplate)
    ensures r.Some? ==> r.value == Trim(subjectTemplate) && r.value != ""
  {
    TrimBlank(subjectTemplate);
    var s := Trim(subjectTemplate);
    if s == "" then None else Some(s)
  }

  /** The body `doSendEmails` posts, or nothing when the panel is not
      ready: only the rows with a recipient value, the mapping, the
      template and the trimmed subject template (left out when blank). */
  function SendRequest(csv: Option<ParsedCsv>, mapping: Option<Mapping>, template: string, subjectTemplate: string)
    : (r: Option<SendStream.RequestBody>)
    ensures r.Some? <==> Ready(csv, mapping, template)
    ensures r.Some? ==>
              && r.value.Json?
              && r.value.rows == Some(Eligible(csv.value.rows, mapping.value))
              && r.value.mapping == mapping
              && r.value.template == Some(template)
              && r.value.subjectTemplate == SentSubject(subjectTemplate)
  {
    if !Ready(csv, mapping, template) then None
    else Some(SendStream.Json(Some(Eligible(csv.value.rows, mapping.value)), mapping, Some(template), SentSubject(subjectTemplate)))
  }

  /** The dispatch validation accepts what the panel posts, as the payload
      of the eligible rows. */
  lemma SendRequestValidates(csv: Option<ParsedCsv>, mapping: Option<Mapping>, template: string, subjectTemplate: string)
    requires Ready(csv, mapping, template)
    ensures SendStream.Validate(SendRequest(csv, mapping, template, subjectTemplate).value) ==
              Ok(SendStream.Payload(Eligible(csv.value.rows, mapping.value), mapping.value, template, SentSubject(subjectTemplate)))
  {
    assert template != "";
  }

  /** The messages dispatched for already-filtered rows go to those rows'
      recipients, one each, in order. */
  lemma AttemptsFollowFilteredRows(p: SendStream.Payload, creds: SendStream.Credentials, engine: Engine)
    requires Eligible(p.rows, p.mapping) == p.rows
    ensures var ms := SendStream.Attempts(p, creds, engine);
            |ms| == |p.rows| && forall i :: 0 <= i < |ms| ==> Some(ms[i].to) == RecipientValue(p.rows[i], p.mapping)
  {
    SendStream.AttemptsAddressed(p, creds, engine);
  }

  /** What the panel posts the dispatch validation accepts, and the
      messages dispatched for it go to the listed recipients, one each, in
      the order listed. */
  lemma SentToTheListedRecipients(csv: Option<ParsedCsv>, mapping: Option<Mapping>, template: string, subjectTemplate: string,
                                  creds: SendStream.Credentials, engine: Engine)
    requires Ready(csv, mapping, template)
    ensures var body := SendRequest(csv, mapping, template, subjectTemplate).value;
            var v := SendStream.Validate(body);
            && v.Ok?
            && var ms := SendStream.Attempts(v.value, creds, engine);
            var listed := Recipients(csv, mapping);
            |ms| == |listed| && forall i :: 0 <= i < |ms| ==> ms[i].to == listed[i]
  {
    var m := mapping.value;
    var rows := Eligible(csv.value.rows, m);
    var p := SendStream.Payload(rows, m, template, SentSubject(subjectTemplate));
    SendRequestValidates(csv, mapping, template, subjectTemplate);
    EligibleIdempotent(csv.value.rows, m);
    AttemptsFollowFilteredRows(p, creds, engine);
  }

  /** How long the send button stays disabled after an attempt. */
  const CooldownSeconds: nat := 5

  /** The updater the one-second interval applies. */
  function Tick(s: nat): (r: nat)
    ensures s > 0 ==> r == s - 1
    ensures s == 0 ==> r == 0
  {
    if s > 0 then s - 1 else 0
  }

  /** The cool-down after `k` ticks. */
  function AfterTicks(s: nat, k: nat): nat
    decreases k
  {
    if k == 0 then s else AfterTicks(Tick(s), k - 1)
  }

  /** Each tick takes one second off, down to zero and no further. */
  lemma {:induction false} AfterTicksCountsDown(s: nat, k: nat)
    ensures AfterTicks(s, k) == if s >= k then s - k else 0
    decreases k
  {
    if k > 0 {
      AfterTicksCountsDown(Tick(s), k - 1);
    }
  }

  /** After an attempt the button stays disabled for exactly five ticks. */
  lemma CooldownLastsFiveTicks(k: nat)
    ensures k < CooldownSeconds ==> AfterTicks(CooldownSeconds, k) > 0
    ensures k >= CooldownSeconds ==> AfterTicks(CooldownSeconds, k) == 0
  {
    AfterTicksCountsDown(CooldownSeconds, k);
  }

  /** The sending flag and the cool-down counter. */
  class SendControls {
    var sending: bool
    var cooldown: nat

    constructor()
      ensures !sending && cooldown == 0
    {
      sending := false;
      cooldown := 0;
    }

    /** The send button is enabled: ready, sender configuration not known
        to be missing, not sending, not cooling down. */
    predicate Enabled(ready: bool, envOk: Option<bool>)
      reads this
    {
      ready && envOk != Some(false) && !sending && cooldown == 0
    }

    /** One tick of the interval. */
    method TickSecond()
      modifies this
      ensures cooldown == Tick(old(cooldown)) && sending == old(sending)
    {
      cooldown := if cooldown > 0 then cooldown - 1 else 0;
    }

    /** `doSendEmails`: nothing unless ready; otherwise the body is posted
        and, however the request ends, sending stops and the cool-down
        restarts. */
    method Send(csv: Option<ParsedCsv>, mapping: Option<Mapping>, template: string, subjectTemplate: string)
      returns (posted: Option<SendStream.RequestBody>)
      modifies this
      ensures posted == SendRequest(csv, mapping, template, subjectTemplate)
      ensures posted.None? ==> sending == old(sending) && cooldown == old(cooldown)
      ensures posted.Some? ==> !sending && cooldown == CooldownSeconds
    {
      posted := SendRequest(csv, mapping, template, subjectTemplate);
      if posted.None? {
        return;
      }
      sending := true;
      sending := false;
      cooldown := CooldownSeconds;
    }

    /** The send button's click handler (the confirmation dialog of the
        branded sender variants aside): nothing while sending or cooling
        down, else `doSendEmails`. */
    method Click(csv: Option<ParsedCsv>, mapping: Option<Mapping>, template: string, subjectTemplate: string)
      returns (posted: Option<SendStream.RequestBody>)
      modifies this
      ensures old(sending) || old(cooldown) > 0 ==>
                posted == None && sending == old(sending) && cooldown == old(cooldown)
      ensures !old(sending) && old(cooldown) == 0 ==>
                posted == SendRequest(csv, mapping, template, subjectTemplate)
                && (posted.Some? ==> !sending && cooldown == CooldownSeconds)
      ensures posted.None? ==> sending == old(sending) && cooldown == old(cooldown)
    {
      if !Ready(csv, mapping, template) || sending || cooldown > 0 {
        posted := None;
        return;
      }
      posted := Send(csv, mapping, template, subjectTemplate);
    }
  }
}
