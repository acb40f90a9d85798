/**
 The CSV upload panel (app/components/ui/CsvUploader.tsx): guessing which
 columns hold the recipient, the name and the subject, merging those
 guesses into the mapping already chosen, and the panel's own state
 (`csv`, `mapping`, `error`) as the parse callbacks, the column selectors
 and the reset button change it. The CSV parser itself is not modelled:
 its header fields and data rows are inputs.
 */
module CsvUploader {
  import opened Records
  import opened JsText

  /** `ParsedCsv` */
  datatype ParsedCsv = ParsedCsv(headers: seq<string>, rows: seq<Row>, rowCount: nat)

  /** The alternatives of `/^(email|e-mail|recipient|to|address)$/i`. */
  const RecipientHeaders: seq<string> := ["email", "e-mail", "recipient", "to", "address"]

  /** The alternatives of `/^(subject|title|headline|topic)$/i`. */
  const SubjectHeaders: seq<string> := ["subject", "title", "headline", "topic"]

  predicate IsRecipientHeader(h: string) {
    LowerAscii(h) in RecipientHeaders
  }

  predicate IsSubjectHeader(h: string) {
    LowerAscii(h) in SubjectHeaders
  }

  /** The class `[_\s-]`. */
  predicate IsNameSeparator(c: char) {
    c == '_' || c == '-' || IsSpace(c)
  }

  /** `prefix[_\s-]?name`, over already lower-cased text. */
  predicate PrefixedName(l: string, prefix: string) {
    l == prefix + "name"
    || (|l| == |prefix| + 5 && l[..|prefix|] == prefix && IsNameSeparator(l[|prefix|]) && l[|prefix| + 1..] == "name")
  }

  /** `/^(name|full[_\s-]?name|first[_\s-]?name)$/i` */
  predicate IsNameHeader(h: string) {
    var l := LowerAscii(h);
    l == "name" || PrefixedName(l, "full") || PrefixedName(l, "first")
  }

  /** `headers.find(p) || headers[0] || ""`: the first header that
      satisfies `p` unless that header is "" (falsy), else the first
      header, else "". */
  function FirstOrLeading(headers: seq<string>, p: string -> bool): (r: string)
    ensures (exists k :: 0 <= k < |headers| && p(headers[k])) ==>
              exists k :: 0 <= k < |headers| && p(headers[k]) && (forall m :: 0 <= m < k ==> !p(headers[m]))
                          && r == (if headers[k] != "" then headers[k] else headers[0])
    ensures (forall k :: 0 <= k < |headers| ==> !p(headers[k])) ==> r == (if headers == [] then "" else headers[0])
    ensures headers != [] ==> r in headers
  {
    var found := FindIndex(headers, p);
    var leading := if headers == [] then "" else headers[0];
    if found.Some? && headers[found.value] != "" then headers[found.value]
    else leading
  }

  /** `guessRecipient` */
  function GuessRecipient(headers: seq<string>): string {
    FirstOrLeading(headers, IsRecipientHeader)
  }

  /** `guessName` */
  function GuessName(headers: seq<string>): string {
    FirstOrLeading(headers, IsNameHeader)
  }

  /** `guessSubject`: the first subject-like header, or null. */
  function GuessSubject(headers: seq<string>): (r: Option<string>)
    ensures r.Some? <==> exists k :: 0 <= k < |headers| && IsSubjectHeader(headers[k])
    ensures r.Some? ==> exists k :: 0 <= k < |headers| && r.value == headers[k] && IsSubjectHeader(r.value)
                          && forall m :: 0 <= m < k ==> !IsSubjectHeader(headers[m])
  {
    var found := FindIndex(headers, IsSubjectHeader);
    if found.Some? then Some(headers[found.value]) else None
  }

  /** No pattern accepts the empty header, so a guess that found a match
      is never the empty string. */
  lemma PatternsRejectEmpty()
    ensures !IsRecipientHeader("") && !IsNameHeader("") && !IsSubjectHeader("")
  {
    assert LowerAscii("") == "";
  }

  /** "E-Mail" is a recipient column; "Name" and "id" are not. */
  lemma RecipientPatternExamples()
    ensures IsRecipientHeader("E-Mail") && !IsRecipientHeader("Name") && !IsRecipientHeader("id")
  {
    assert LowerAscii("E-Mail") == "e-mail";
    assert LowerAscii("Name") == "name";
    assert LowerAscii("id") == "id";
  }

  /** "Full Name" and "first_name" are name columns; "Email" and "id" are not. */
  lemma NamePatternExamples()
    ensures IsNameHeader("Full Name") && IsNameHeader("first_name")
    ensures !IsNameHeader("Email") && !IsNameHeader("id")
  {
    FullNameExample();
    FirstNameExample();
    assert LowerAscii("Email") == "email";
    assert LowerAscii("id") == "id";
  }

  lemma FullNameExample()
    ensures IsNameHeader("Full Name")
  {
    var l := LowerAscii("Full Name");
    assert l == "full name";
    assert l[..4] == "full" && l[5..] == "name";
  }

  lemma FirstNameExample()
    ensures IsNameHeader("first_name")
  {
    var f := LowerAscii("first_name");
    assert f == "first_name";
    assert f[..5] == "first" && f[6..] == "name";
  }

  /** Neither "id" nor "Name" is a subject column. */
  lemma SubjectPatternExamples()
    ensures !IsSubjectHeader("id") && !IsSubjectHeader("Name")
  {
    assert LowerAscii("id") == "id";
    assert LowerAscii("Name") == "name";
  }

  /** The guesses on small header lists: the first matching column wins,
      without a match the first header is the guess, and there is no
      subject guess. */
  lemma GuessExamples()
    ensures GuessRecipient(["Name", "E-Mail"]) == "E-Mail"
    ensures GuessName(["Email", "Full Name"]) == "Full Name"
    ensures GuessName(["id", "first_name"]) == "first_name"
    ensures GuessRecipient(["id", "Name"]) == "id"
    ensures GuessSubject(["id", "Name"]) == None
  {
    RecipientPatternExamples();
    NamePatternExamples();
    SubjectPatternExamples();
  }

  /** `(results.data || []).filter(Boolean)`: the falsy entries are dropped. */
  function Compact(data: seq<Option<Row>>): (rows: seq<Row>)
    ensures |rows| <= |data|
    ensures forall r :: r in rows <==> Some(r) in data
    ensures (forall k :: 0 <= k < |data| ==> data[k].Some?) ==>
              |rows| == |data| && forall k :: 0 <= k < |data| ==> rows[k] == data[k].value
  {
    if data == [] then []
    else
      var rest := Compact(data[1..]);
      assert forall r :: Some(r) in data <==> Some(r) == data[0] || Some(r) in data[1..];
      if data[0].Some? then [data[0].value] + rest else rest
  }

  /** The filter distributes over concatenation, and keeps a present row
      and drops a falsy one: together these fix the order and the number
      of the rows kept, hence `rowCount`. */
  lemma {:induction false} CompactAppend(a: seq<Option<Row>>, b: seq<Option<Row>>)
    ensures Compact(a + b) == Compact(a) + Compact(b)
    ensures forall r :: Compact([Some(r)]) == [r]
    ensures Compact([None]) == []
  {
    if a != [] {
      assert (a + b)[1..] == a[1..] + b;
      CompactAppend(a[1..], b);
    } else {
      assert a + b == b;
    }
  }

  /** The mapping after a successful parse: a non-empty recipient or name
      column already chosen is kept and an empty one is guessed; a subject
      column already chosen is kept unless it is null. */
  function MergeMapping(current: Option<Mapping>, headers: seq<string>): (m: Mapping)
    ensures current.Some? && Truthy(current.value.recipient) ==> m.recipient == current.value.recipient
    ensures !(current.Some? && Truthy(current.value.recipient)) ==> m.recipient == Some(GuessRecipient(headers))
    ensures current.Some? && Truthy(current.value.name) ==> m.name == current.value.name
    ensures !(current.Some? && Truthy(current.value.name)) ==> m.name == Some(GuessName(headers))
    ensures current.Some? && current.value.subject.Some? ==> m.subject == current.value.subject
    ensures !(current.Some? && current.value.subject.Some?) ==> m.subject == GuessSubject(headers)
  {
    var recipient := if current.Some? && Truthy(current.value.recipient) then current.value.recipient
                     else Some(GuessRecipient(headers));
    var name := if current.Some? && Truthy(current.value.name) then current.value.name
                else Some(GuessName(headers));
    var subject := if current.Some? && current.value.subject.Some? then current.value.subject
                   else GuessSubject(headers);
    Mapping(recipient, name, subject)
  }

  /** Parsing the same headers again leaves the mapping as it is. */
  lemma MergeIdempotent(current: Option<Mapping>, headers: seq<string>)
    ensures MergeMapping(Some(MergeMapping(current, headers)), headers) == MergeMapping(current, headers)
  {
  }

  /** With no mapping chosen yet, every column the merged mapping names is
      one of the headers. */
  lemma FreshMappingNamesHeaders(headers: seq<string>)
    requires headers != []
    ensures var m := MergeMapping(None, headers);
            m.recipient.value in headers && m.name.value in headers
            && (m.subject.Some? ==> m.subject.value in headers)
  {
  }

  /** The keys of `CsvMapping`. */
  datatype MappingKey = RecipientKey | NameKey | SubjectKey

  function Field(m: Mapping, key: MappingKey): Option<string> {
    match key
    case RecipientKey => m.recipient
    case NameKey => m.name
    case SubjectKey => m.subject
  }

  /** The mapping `onChangeSelect` starts from when none is chosen. */
  const BlankMapping := Mapping(Some(""), Some(""), None)

  /** `{ ...(mapping || blank), [key]: value || null }`: the chosen key
      changes, to null for the empty value, and no other key does. */
  function Select(current: Option<Mapping>, key: MappingKey, value: string): (m: Mapping)
    ensures Field(m, key) == (if value == "" then None else Some(value))
    ensures var base := if current.Some? then current.value else BlankMapping;
            forall other :: other != key ==> Field(m, other) == Field(base, other)
  {
    var base := if current.Some? then current.value else BlankMapping;
    var v := if value == "" then None else Some(value);
    match key
    case RecipientKey => base.(recipient := v)
    case NameKey => base.(name := v)
    case SubjectKey => base.(subject := v)
  }

  /** The last choice for a key is the one that counts. */
  lemma SelectLastWins(current: Option<Mapping>, key: MappingKey, first: string, second: string)
    ensures Select(Some(Select(current, key, first)), key, second) == Select(current, key, second)
  {
  }

  /** What the parser hands back: header fields and data rows (a falsy
      entry is `None`), or an error whose `message`, if any, is given. */
  datatype ParseOutcome = Parsed(fields: seq<string>, data: seq<Option<Row>>) | ParseFailed(message: Option<string>)

  const NoHeadersError := "No headers found. Ensure the first row contains column names."
  const ParseFailedError := "Failed to parse CSV"

  /** The argument of one `onParsed` call. */
  datatype Selection = Selection(csv: ParsedCsv, mapping: Mapping)

  /** The panel's state. */
  class Uploader {
    var csv: Option<ParsedCsv>
    var mapping: Option<Mapping>
    var error: Option<string>

    constructor(currentMapping: Option<Mapping>)
      ensures csv == None && mapping == currentMapping && error == None
    {
      csv := None;
      mapping := currentMapping;
      error := None;
    }

    /** `handleFile` with the parser's outcome; `emitted` is the
        `onParsed` call it makes, if any. A parse without headers reports
        an error and keeps the previous CSV and mapping. */
    method HandleFile(outcome: ParseOutcome) returns (emitted: Option<Selection>)
      modifies this
      ensures outcome.ParseFailed? ==>
                csv == old(csv) && mapping == old(mapping) && emitted == None
                && error == Some(if Truthy(outcome.message) then outcome.message.value else ParseFailedError)
      ensures outcome.Parsed? && outcome.fields == [] ==>
                csv == old(csv) && mapping == old(mapping) && emitted == None && error == Some(NoHeadersError)
      ensures outcome.Parsed? && outcome.fields != [] ==>
                var rows := Compact(outcome.data);
                && csv == Some(ParsedCsv(outcome.fields, rows, |rows|))
                && mapping == Some(MergeMapping(old(mapping), outcome.fields))
                && error == None
                && emitted == Some(Selection(csv.value, mapping.value))
    {
      error := None;
      emitted := None;
      match outcome {
        case ParseFailed(message) =>
          error := Some(if Truthy(message) then message.value else ParseFailedError);
        case Parsed(fields, data) =>
          var rows := Compact(data);
          var headers := fields;
          if |headers| == 0 {
            error := Some(NoHeadersError);
            return;
          }
          var parsed := ParsedCsv(headers, rows, |rows|);
          csv := Some(parsed);
          var next := MergeMapping(mapping, headers);
          mapping := Some(next);
          emitted := Some(Selection(parsed, next));
      }
    }

    /** `onChangeSelect`: nothing without a CSV; otherwise the chosen key
        is set and the new mapping is emitted with the current CSV. */
    method ChangeSelect(key: MappingKey, value: string) returns (emitted: Option<Selection>)
      modifies this
      ensures csv == old(csv) && error == old(error)
      ensures old(csv).None? ==> mapping == old(mapping) && emitted == None
      ensures old(csv).Some? ==>
                mapping == Some(Select(old(mapping), key, value))
                && emitted == Some(Selection(csv.value, mapping.value))
    {
      emitted := None;
      if csv.None? {
        return;
      }
      var next := Select(mapping, key, value);
      mapping := Some(next);
      emitted := Some(Selection(csv.value, next));
    }

    /** The Reset button. */
    method Reset()
      modifies this
      ensures csv == None && mapping == None && error == None
    {
      csv := None;
      mapping := None;
      error := None;
    }
  }
}
