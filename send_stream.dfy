/**
 The streaming dispatch route (app/api/send/stream/route.ts): request
 validation, sender credential resolution, the eligible-row filter, the
 per-row render with its subject precedence and raw-template fallback, one
 transport attempt per eligible row, and the `start`, `item`…, `done` event
 sequence the route writes to its response stream.

 The template engine and the mail transport are foreign code: the engine is
 a function from template and context to text or an exception message, and
 the transport a function from the attempt's index and the message to a
 delivery or a failure.
 */
module SendStream {
  import opened Records
  import opened EnvStore
  import EnvUpload

  /** What `req.json()` yields. `NotJson` is a body the JSON parser rejects.
      A field that is absent (or, for `rows`, not an array) is `None`. */
  datatype RequestBody =
    | NotJson
    | Json(rows: Option<seq<Row>>, mapping: Option<Mapping>, template: Option<string>, subjectTemplate: Option<string>)

  datatype Payload = Payload(rows: seq<Row>, mapping: Mapping, template: string, subjectTemplate: Option<string>)

  /** The guard at the top of `POST`: a body that is not JSON, or that lacks
      an array of rows, a mapping or a non-empty template, is rejected with
      status 400 and the stream is never opened. */
  function Validate(body: RequestBody): (r: Result<Payload>)
    ensures r.Err? <==>
              body.NotJson? || body.rows.None? || body.mapping.None? || !Truthy(body.template)
    ensures body.NotJson? ==> r == Err("Invalid JSON")
    ensures body.Json? && r.Err? ==> r == Err("Missing required fields")
    ensures r.Ok? ==>
              && r.value.rows == body.rows.value
              && r.value.mapping == body.mapping.value
              && r.value.template == body.template.value != ""
              && r.value.subjectTemplate == body.subjectTemplate
  {
    match body
    case NotJson => Err("Invalid JSON")
    case Json(rows, mapping, template, subjectTemplate) =>
      if rows.None? || mapping.None? || !Truthy(template) then Err("Missing required fields")
      else Ok(Payload(rows.value, mapping.value, template.value, subjectTemplate))
  }

  datatype Credentials = Credentials(email: string, password: string, name: string)

  /** `preferred || fallback` */
  function Either(preferred: Option<string>, fallback: Option<string>): Option<string> {
    if Truthy(preferred) then preferred else fallback
  }

  /** The sender credentials: each field of the override wins over the
      process environment when it is non-empty; the display name falls back
      to the sender address. Without an address or a password the route
      answers 500. */
  function Resolve(override: map<string, string>, env: map<string, string>): (r: Result<Credentials>)
    ensures r.Ok? <==>
              && (Truthy(Lookup(override, SenderEmail)) || Truthy(Lookup(env, SenderEmail)))
              && (Truthy(Lookup(override, SenderAppPassword)) || Truthy(Lookup(env, SenderAppPassword)))
    ensures r.Err? ==> r.message == "Sender env vars missing"
    ensures r.Ok? ==> r.value.email != "" && r.value.password != "" && r.value.name != ""
    ensures r.Ok? ==>
              && r.value.email == (if Truthy(Lookup(override, SenderEmail)) then override else env)[SenderEmail]
              && r.value.password == (if Truthy(Lookup(override, SenderAppPassword)) then override else env)[SenderAppPassword]
    ensures r.Ok? && Truthy(Lookup(override, SenderName)) ==> r.value.name == override[SenderName]
    ensures r.Ok? && !Truthy(Lookup(override, SenderName)) && Truthy(Lookup(env, SenderName)) ==>
              r.value.name == env[SenderName]
    ensures r.Ok? && !Truthy(Lookup(override, SenderName)) && !Truthy(Lookup(env, SenderName)) ==>
              r.value.name == r.value.email
  {
    var email := Either(Lookup(override, SenderEmail), Lookup(env, SenderEmail));
    var password := Either(Lookup(override, SenderAppPassword), Lookup(env, SenderAppPassword));
    var name := Either(Either(Lookup(override, SenderName), Lookup(env, SenderName)), email);
    if !Truthy(email) || !Truthy(password) then Err("Sender env vars missing")
    else Ok(Credentials(email.value, password.value, name.value))
  }

  /** When the override holds all three fields, the environment plays no part. */
  lemma CompleteOverrideWins(override: map<string, string>, env: map<string, string>)
    requires forall k :: k in Keys ==> Truthy(Lookup(override, k))
    ensures var r := Resolve(override, env);
            && r.Ok?
            && Lookup(override, SenderEmail) == Some(r.value.email)
            && Lookup(override, SenderAppPassword) == Some(r.value.password)
            && Lookup(override, SenderName) == Some(r.value.name)
  {
    assert SenderEmail in Keys && SenderAppPassword in Keys && SenderName in Keys;
  }

  /** An upload that reports `ok` leaves a store from which every later run
      resolves exactly the uploaded credentials, whatever the environment. */
  lemma CompleteUploadResolves(before: map<string, string>, lines: seq<string>, env: map<string, string>)
    requires EnvUpload.Missing(EnvUpload.KnownValues(lines)) == []
    ensures var stored := EnvUpload.KnownValues(lines);
            var r := Resolve(before + stored, env);
            && r.Ok?
            && Lookup(stored, SenderEmail) == Some(r.value.email)
            && Lookup(stored, SenderAppPassword) == Some(r.value.password)
            && Lookup(stored, SenderName) == Some(r.value.name)
  {
    var stored := EnvUpload.KnownValues(lines);
    forall k | k in Keys ensures Truthy(Lookup(before + stored, k)) && (before + stored)[k] == stored[k] {
      assert k !in EnvUpload.Missing(stored);
    }
    CompleteOverrideWins(before + stored, env);
  }

  /** A try/catch around one render: the text, or the raw template when the
      engine throws. */
  function RenderOr(engine: Engine, template: string, ctx: Context): string {
    match engine(template, ctx)
    case Ok(text) => text
    case Err(_) => template
  }

  /** `row[mapping.subject]` when `mapping.subject` is set and non-empty. */
  function SubjectColumnValue(row: Row, mapping: Mapping): Option<string> {
    if Truthy(mapping.subject) then Lookup(row, mapping.subject.value) else None
  }

  datatype Rendered = Rendered(body: string, subject: string)

  /** `renderTemplate(html, subject, row, mapping)`. The body is the rendered
      template, or the raw template when rendering throws. The subject is,
      in order of precedence: the rendered subject template when one is
      given (its raw text when rendering throws), the row's subject column
      when it is mapped and non-empty, and otherwise "". */
  function RenderTemplate(html: string, subject: Option<string>, row: Row, mapping: Mapping, engine: Engine): (r: Rendered)
    ensures var ctx := AliasedContext(row, mapping);
            && (engine(html, ctx).Ok? ==> r.body == engine(html, ctx).value)
            && (engine(html, ctx).Err? ==> r.body == html)
            && (Truthy(subject) && engine(subject.value, ctx).Ok? ==> r.subject == engine(subject.value, ctx).value)
            && (Truthy(subject) && engine(subject.value, ctx).Err? ==> r.subject == subject.value)
    ensures !Truthy(subject) && Truthy(SubjectColumnValue(row, mapping)) ==>
              r.subject == SubjectColumnValue(row, mapping).value
    ensures !Truthy(subject) && !Truthy(SubjectColumnValue(row, mapping)) ==> r.subject == ""
  {
    var ctx := AliasedContext(row, mapping);
    var body := RenderOr(engine, html, ctx);
    var subj :=
      if Truthy(subject) then Some(RenderOr(engine, subject.value, ctx))
      else if Truthy(SubjectColumnValue(row, mapping)) then SubjectColumnValue(row, mapping)
      else subject;
    Rendered(body, if Truthy(subj) then subj.value else "")
  }

  /** Rendering a row depends on the row's columns only through the mapped
      aliases and the columns the template can see: two rows with the same
      aliased context and the same subject column render alike. */
  lemma RenderDependsOnContext(html: string, subject: Option<string>, row1: Row, row2: Row, mapping: Mapping, engine: Engine)
    requires AliasedContext(row1, mapping) == AliasedContext(row2, mapping)
    requires SubjectColumnValue(row1, mapping) == SubjectColumnValue(row2, mapping)
    ensures RenderTemplate(html, subject, row1, mapping, engine) == RenderTemplate(html, subject, row2, mapping, engine)
  {
  }

  datatype Message = Message(from: string, to: string, subject: string, html: string)

  /** `${SENDER_NAME} <${SENDER_EMAIL}>` */
  function FromHeader(creds: Credentials): string {
    creds.name + " <" + creds.email + ">"
  }

  /** What `sendMail` does: resolves with an info object whose `messageId`
      may be undefined, or throws with a message that may be undefined. */
  datatype Delivery = Delivered(messageId: Option<string>) | Undelivered(error: Option<string>)

  /** The transport, given the position of the attempt in the run. */
  type Transport = (nat, Message) -> Delivery

  datatype Event =
    | Start(total: nat)
    | Item(index: nat, to: string, subject: string, outcome: Delivery)
    | Done(sent: nat, failed: nat)

  /** The message sent for one eligible row. */
  function MessageFor(p: Payload, creds: Credentials, row: Row, engine: Engine): (m: Message)
    requires IsEligible(row, p.mapping)
    ensures m.to == RecipientValue(row, p.mapping).value != ""
    ensures m.from == FromHeader(creds)
  {
    var rendered := RenderTemplate(p.template, p.subjectTemplate, row, p.mapping, engine);
    Message(FromHeader(creds), RecipientValue(row, p.mapping).value, rendered.subject, rendered.body)
  }

  /** The messages handed to the transport in one run: one per eligible row,
      in row order. */
  function Attempts(p: Payload, creds: Credentials, engine: Engine): (ms: seq<Message>)
    ensures |ms| == |Eligible(p.rows, p.mapping)|
  {
    var rows := Eligible(p.rows, p.mapping);
    seq(|rows|, i requires 0 <= i < |rows| => MessageFor(p, creds, rows[i], engine))
  }

  /** Each attempt goes from the sender to the recipient of its eligible
      row. */
  lemma AttemptsAddressed(p: Payload, creds: Credentials, engine: Engine)
    ensures var ms := Attempts(p, creds, engine);
            forall i :: 0 <= i < |ms| ==>
              Some(ms[i].to) == RecipientValue(Eligible(p.rows, p.mapping)[i], p.mapping) && ms[i].from == FromHeader(creds)
  {
  }

  /** What the transport answers to each attempt. */
  function Outcomes(ms: seq<Message>, transport: Transport): (ds: seq<Delivery>)
    ensures |ds| == |ms|
  {
    seq(|ms|, i requires 0 <= i < |ms| => transport(i, ms[i]))
  }

  function SentCount(ds: seq<Delivery>): nat {
    if ds == [] then 0
    else SentCount(ds[..|ds| - 1]) + (if ds[|ds| - 1].Delivered? then 1 else 0)
  }

  function FailedCount(ds: seq<Delivery>): nat {
    if ds == [] then 0
    else FailedCount(ds[..|ds| - 1]) + (if ds[|ds| - 1].Undelivered? then 1 else 0)
  }

  /** Every attempt is counted exactly once, as sent or as failed. */
  lemma {:induction false} CountsAddUp(ds: seq<Delivery>)
    ensures SentCount(ds) + FailedCount(ds) == |ds|
  {
    if ds != [] {
      CountsAddUp(ds[..|ds| - 1]);
    }
  }

  /** One `item` event per attempt, with its position as index. */
  function ItemsOf(ms: seq<Message>, ds: seq<Delivery>): (items: seq<Event>)
    requires |ms| == |ds|
    ensures |items| == |ms|
  {
    seq(|ms|, i requires 0 <= i < |ms| => Item(i, ms[i].to, ms[i].subject, ds[i]))
  }

  /** The events written for the given attempts and answers. */
  function EventsOf(ms: seq<Message>, ds: seq<Delivery>): seq<Event>
    requires |ms| == |ds|
  {
    [Start(|ms|)] + ItemsOf(ms, ds) + [Done(SentCount(ds), FailedCount(ds))]
  }

  /** The events a run writes, in order. */
  function StreamOf(p: Payload, creds: Credentials, engine: Engine, transport: Transport): seq<Event> {
    var ms := Attempts(p, creds, engine);
    EventsOf(ms, Outcomes(ms, transport))
  }

  /** The `start` callback of the response stream: one pass over the
      eligible rows, one attempt each, one event each, with running counts. */
  method RunStream(p: Payload, creds: Credentials, engine: Engine, transport: Transport)
    returns (events: seq<Event>, attempts: seq<Message>)
    ensures attempts == Attempts(p, creds, engine)
    ensures events == StreamOf(p, creds, engine, transport)
  {
    var filtered := Eligible(p.rows, p.mapping);
    ghost var ms := Attempts(p, creds, engine);
    ghost var ds := Outcomes(ms, transport);
    var index, sent, failed := 0, 0, 0;
    events := [Start(|filtered|)];
    attempts := [];
    for k := 0 to |filtered|
      invariant index == k
      invariant attempts == ms[..k]
      invariant sent == SentCount(ds[..k]) && failed == FailedCount(ds[..k])
      invariant events == [Start(|filtered|)] + ItemsOf(ms, ds)[..k]
    {
      var r := filtered[k];
      var current := index;
      index := index + 1;
      var rendered := RenderTemplate(p.template, p.subjectTemplate, r, p.mapping, engine);
      var to := RecipientValue(r, p.mapping).value;
      var message := Message(FromHeader(creds), to, rendered.subject, rendered.body);
      AttemptAt(p, creds, engine, transport, k);
      var delivery := transport(current, message);
      RunStep(ms, ds, k, message, delivery, events, attempts, sent, failed, |filtered|);
      attempts := attempts + [message];
      if delivery.Delivered? {
        sent := sent + 1;
        events := events + [Item(current, to, rendered.subject, delivery)];
      } else {
        failed := failed + 1;
        events := events + [Item(current, to, rendered.subject, delivery)];
      }
    }
    assert ms[..|filtered|] == ms && ds[..|filtered|] == ds;
    assert ItemsOf(ms, ds)[..|filtered|] == ItemsOf(ms, ds);
    events := events + [Done(sent, failed)];
  }

  /** The message and the answer of attempt `k`. */
  lemma AttemptAt(p: Payload, creds: Credentials, engine: Engine, transport: Transport, k: nat)
    requires k < |Eligible(p.rows, p.mapping)|
    ensures var row := Eligible(p.rows, p.mapping)[k];
            var rendered := RenderTemplate(p.template, p.subjectTemplate, row, p.mapping, engine);
            var m := Message(FromHeader(creds), RecipientValue(row, p.mapping).value, rendered.subject, rendered.body);
            && Attempts(p, creds, engine)[k] == m
            && Outcomes(Attempts(p, creds, engine), transport)[k] == transport(k, m)
  {
  }

  /** One pass of the loop keeps its invariants. */
  lemma RunStep(ms: seq<Message>, ds: seq<Delivery>, k: nat, message: Message, delivery: Delivery,
                events: seq<Event>, attempts: seq<Message>, sent: nat, failed: nat, n: nat)
    requires |ms| == |ds| && k < |ms| && message == ms[k] && delivery == ds[k]
    requires events == [Start(n)] + ItemsOf(ms, ds)[..k]
    requires attempts == ms[..k]
    requires sent == SentCount(ds[..k]) && failed == FailedCount(ds[..k])
    ensures events + [Item(k, message.to, message.subject, delivery)] == [Start(n)] + ItemsOf(ms, ds)[..k + 1]
    ensures attempts + [message] == ms[..k + 1]
    ensures sent + (if delivery.Delivered? then 1 else 0) == SentCount(ds[..k + 1])
    ensures failed + (if delivery.Undelivered? then 1 else 0) == FailedCount(ds[..k + 1])
  {
    EventStep(ms, ds, k, events, attempts, n);
    CountStep(ds, k);
  }

  lemma EventStep(ms: seq<Message>, ds: seq<Delivery>, k: nat, events: seq<Event>, attempts: seq<Message>, n: nat)
    requires |ms| == |ds| && k < |ms|
    requires events == [Start(n)] + ItemsOf(ms, ds)[..k]
    requires attempts == ms[..k]
    ensures events + [Item(k, ms[k].to, ms[k].subject, ds[k])] == [Start(n)] + ItemsOf(ms, ds)[..k + 1]
    ensures attempts + [ms[k]] == ms[..k + 1]
  {
    assert ItemsOf(ms, ds)[..k + 1] == ItemsOf(ms, ds)[..k] + [ItemsOf(ms, ds)[k]];
    assert ms[..k + 1] == ms[..k] + [ms[k]];
  }

  lemma CountStep(ds: seq<Delivery>, k: nat)
    requires k < |ds|
    ensures SentCount(ds[..k + 1]) == SentCount(ds[..k]) + (if ds[k].Delivered? then 1 else 0)
    ensures FailedCount(ds[..k + 1]) == FailedCount(ds[..k]) + (if ds[k].Undelivered? then 1 else 0)
  {
    assert ds[..k + 1][..k] == ds[..k];
  }

  datatype Response = Failure(status: nat, error: string) | EventStream(events: seq<Event>)

  /** `POST /api/send/stream`. The override is read once, before anything
      is sent: a run sees one snapshot of the store. */
  method Post(body: RequestBody, store: OverrideStore, env: map<string, string>, engine: Engine, transport: Transport)
    returns (resp: Response, attempts: seq<Message>)
    ensures Validate(body).Err? ==> resp == Failure(400, Validate(body).message) && attempts == []
    ensures Validate(body).Ok? && Resolve(store.values, env).Err? ==>
              resp == Failure(500, "Sender env vars missing") && attempts == []
    ensures Validate(body).Ok? && Resolve(store.values, env).Ok? ==>
              && resp == EventStream(StreamOf(Validate(body).value, Resolve(store.values, env).value, engine, transport))
              && attempts == Attempts(Validate(body).value, Resolve(store.values, env).value, engine)
  {
    var payload := Validate(body);
    if payload.Err? {
      return Failure(400, payload.message), [];
    }
    var override := store.Get();
    var creds := Resolve(override, env);
    if creds.Err? {
      return Failure(500, creds.message), [];
    }
    var events;
    events, attempts := RunStream(payload.value, creds.value, engine, transport);
    resp := EventStream(events);
  }

  /** Item events between a `start` and a `done`, one per attempt. */
  lemma EventsShape(ms: seq<Message>, ds: seq<Delivery>)
    requires |ms| == |ds|
    ensures var s := EventsOf(ms, ds);
            && |s| == |ms| + 2
            && s[0] == Start(|ms|)
            && s[|s| - 1] == Done(SentCount(ds), FailedCount(ds))
            && (forall i :: 0 < i < |s| ==> !s[i].Start?)
            && (forall i :: 0 <= i < |s| - 1 ==> !s[i].Done?)
            && (forall i :: 0 <= i < |ms| ==> s[i + 1] == Item(i, ms[i].to, ms[i].subject, ds[i]))
  {
  }

  /** The order of a run: one `start` carrying the number of eligible rows,
      then one `item` per attempt with indexes 0 to n-1 in row order, each
      naming that attempt's recipient and subject and reporting what the
      transport answered to it, then one `done`; no other `start` or `done`
      appears. */
  lemma StreamShape(p: Payload, creds: Credentials, engine: Engine, transport: Transport)
    ensures var s := StreamOf(p, creds, engine, transport);
            var ms := Attempts(p, creds, engine);
            && |ms| == |Eligible(p.rows, p.mapping)|
            && |s| == |ms| + 2
            && s[0] == Start(|ms|)
            && s[|s| - 1].Done?
            && (forall i :: 0 < i < |s| ==> !s[i].Start?)
            && (forall i :: 0 <= i < |s| - 1 ==> !s[i].Done?)
            && (forall i :: 0 <= i < |ms| ==> s[i + 1] == Item(i, ms[i].to, ms[i].subject, transport(i, ms[i])))
  {
    var ms := Attempts(p, creds, engine);
    var ds := Outcomes(ms, transport);
    EventsShape(ms, ds);
  }

  predicate IsSentItem(e: Event) {
    e.Item? && e.outcome.Delivered?
  }

  predicate IsErrorItem(e: Event) {
    e.Item? && e.outcome.Undelivered?
  }

  /** How many events of a stream are `item` events with status "sent". */
  function SentItems(es: seq<Event>): nat {
    if es == [] then 0 else SentItems(es[..|es| - 1]) + (if IsSentItem(es[|es| - 1]) then 1 else 0)
  }

  /** How many events of a stream are `item` events with status "error". */
  function ErrorItems(es: seq<Event>): nat {
    if es == [] then 0 else ErrorItems(es[..|es| - 1]) + (if IsErrorItem(es[|es| - 1]) then 1 else 0)
  }

  lemma {:induction false} ItemCountsAppend(a: seq<Event>, b: seq<Event>)
    ensures SentItems(a + b) == SentItems(a) + SentItems(b)
    ensures ErrorItems(a + b) == ErrorItems(a) + ErrorItems(b)
    decreases |b|
  {
    if b == [] {
      assert a + b == a;
    } else {
      var b' := b[..|b| - 1];
      assert (a + b)[..|a + b| - 1] == a + b';
      ItemCountsAppend(a, b');
    }
  }

  lemma {:induction false} ItemCountsMatch(ms: seq<Message>, ds: seq<Delivery>)
    requires |ms| == |ds|
    ensures SentItems(ItemsOf(ms, ds)) == SentCount(ds)
    ensures ErrorItems(ItemsOf(ms, ds)) == FailedCount(ds)
  {
    if ds != [] {
      var n := |ds| - 1;
      assert ItemsOf(ms, ds)[..n] == ItemsOf(ms[..n], ds[..n]);
      ItemCountsMatch(ms[..n], ds[..n]);
    }
  }

  /** The `done` event counts the stream's own items: `sent` is the number
      of items with status "sent", `failed` the number with status "error",
      and together they equal `total`. */
  lemma DoneCountsItems(p: Payload, creds: Credentials, engine: Engine, transport: Transport)
    ensures var s := StreamOf(p, creds, engine, transport);
            && s[|s| - 1] == Done(SentItems(s), ErrorItems(s))
            && s[|s| - 1].sent + s[|s| - 1].failed == s[0].total
  {
    var ms := Attempts(p, creds, engine);
    EventsCounts(ms, Outcomes(ms, transport));
  }

  /** The closing counts of any run are those of its own items. */
  lemma EventsCounts(ms: seq<Message>, ds: seq<Delivery>)
    requires |ms| == |ds|
    ensures var s := EventsOf(ms, ds);
            && s[|s| - 1] == Done(SentItems(s), ErrorItems(s))
            && s[|s| - 1].sent + s[|s| - 1].failed == s[0].total
  {
    var items := ItemsOf(ms, ds);
    ItemCountsMatch(ms, ds);
    ItemCountsAppend([Start(|ms|)], items);
    ItemCountsAppend([Start(|ms|)] + items, [Done(SentCount(ds), FailedCount(ds))]);
    assert SentItems([Start(|ms|)]) == 0 && ErrorItems([Start(|ms|)]) == 0;
    assert SentItems([Done(SentCount(ds), FailedCount(ds))]) == 0;
    assert ErrorItems([Done(SentCount(ds), FailedCount(ds))]) == 0;
    CountsAddUp(ds);
  }

  /** A failure is confined to its own row: two transports that answer
      alike except at attempt `j` give streams of the same length that
      agree on every event but item `j` and the closing counts, and item
      `j` still names the same recipient and subject. */
  lemma FailureIsolation(p: Payload, creds: Credentials, engine: Engine, t1: Transport, t2: Transport, j: nat)
    requires forall i: nat, m: Message :: i != j ==> t1(i, m) == t2(i, m)
    ensures var s1 := StreamOf(p, creds, engine, t1);
            var s2 := StreamOf(p, creds, engine, t2);
            && |s1| == |s2|
            && (forall k :: 0 <= k < |s1| - 1 && k != j + 1 ==> s1[k] == s2[k])
            && (j + 1 < |s1| - 1 ==>
                  s1[j + 1].index == s2[j + 1].index && s1[j + 1].to == s2[j + 1].to
                  && s1[j + 1].subject == s2[j + 1].subject)
  {
  }

  /** The rows of the first worked example: the second row has an empty
      recipient. */
  function ExampleRows(): seq<Row> {
    [ map["recipient" := "a@x.com", "name" := "A"],
      map["recipient" := "", "name" := "B"],
      map["recipient" := "c@x.com", "name" := "C"] ]
  }

  /** Only the first and third rows of the example are dispatched. */
  lemma ExampleEligible()
    ensures Eligible(ExampleRows(), Mapping(Some("recipient"), Some("name"), None)) ==
              [ExampleRows()[0], ExampleRows()[2]]
  {
    var mapping := Mapping(Some("recipient"), Some("name"), None);
    var rows := ExampleRows();
    assert rows[1..][1..] == [rows[2]];
    assert !IsEligible(rows[1], mapping);
  }

  /** The second worked example: three eligible rows, and the transport
      throws on the second one only. */
  lemma ExampleSecondFails(engine: Engine)
    ensures var rows := [map["to" := "a@x.com"], map["to" := "b@x.com"], map["to" := "c@x.com"]];
            var p := Payload(rows, Mapping(Some("to"), None, None), "Hi", None);
            var transport: Transport := (i, m) => if i == 1 then Undelivered(Some("refused")) else Delivered(None);
            var s := StreamOf(p, Credentials("me@x.com", "pw", "Me"), engine, transport);
            && |s| == 5
            && s[0] == Start(3)
            && IsSentItem(s[1]) && s[1].index == 0
            && IsErrorItem(s[2]) && s[2].index == 1 && s[2].outcome.error == Some("refused")
            && IsSentItem(s[3]) && s[3].index == 2
            && s[4] == Done(2, 1)
  {
    var rows := [map["to" := "a@x.com"], map["to" := "b@x.com"], map["to" := "c@x.com"]];
    var mapping := Mapping(Some("to"), None, None);
    ExampleAllEligible();
    var p := Payload(rows, mapping, "Hi", None);
    var transport: Transport := (i, m) => if i == 1 then Undelivered(Some("refused")) else Delivered(None);
    var ms := Attempts(p, Credentials("me@x.com", "pw", "Me"), engine);
    SecondRefused(ms, transport);
  }

  lemma ExampleAllEligible()
    ensures var rows := [map["to" := "a@x.com"], map["to" := "b@x.com"], map["to" := "c@x.com"]];
            Eligible(rows, Mapping(Some("to"), None, None)) == rows
  {
    var rows := [map["to" := "a@x.com"], map["to" := "b@x.com"], map["to" := "c@x.com"]];
    assert rows[1..][1..][1..] == [];
  }

  /** The events for three attempts of which the transport refuses the
      second. */
  lemma SecondRefused(ms: seq<Message>, transport: Transport)
    requires |ms| == 3
    requires forall m :: transport(0, m) == Delivered(None) && transport(1, m) == Undelivered(Some("refused"))
                         && transport(2, m) == Delivered(None)
    ensures var s := EventsOf(ms, Outcomes(ms, transport));
            && |s| == 5
            && s[0] == Start(3)
            && IsSentItem(s[1]) && s[1].index == 0
            && IsErrorItem(s[2]) && s[2].index == 1 && s[2].outcome.error == Some("refused")
            && IsSentItem(s[3]) && s[3].index == 2
            && s[4] == Done(2, 1)
  {
    var ds := Outcomes(ms, transport);
    assert ds == [Delivered(None), Undelivered(Some("refused")), Delivered(None)];
    CountThree(ds);
    EventsShape(ms, ds);
  }

  lemma CountThree(ds: seq<Delivery>)
    requires ds == [Delivered(None), Undelivered(Some("refused")), Delivered(None)]
    ensures SentCount(ds) == 2 && FailedCount(ds) == 1
  {
    var d1, d2 := [Delivered(None)], [Delivered(None), Undelivered(Some("refused"))];
    assert ds[..|ds| - 1] == d2 && d2[..|d2| - 1] == d1 && d1[..|d1| - 1] == [];
    assert SentCount(d1) == 1 && FailedCount(d1) == 0;
    assert SentCount(d2) == 1 && FailedCount(d2) == 1;
  }
}
