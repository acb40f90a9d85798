/**
 The wire form of the dispatch events (app/api/send/stream/route.ts, the
 `enqueue` helper): each event becomes the text `JSON.stringify` produces for
 it, followed by one line feed. `JSON.stringify` escapes a line feed inside a
 string, as section 7 of RFC 8259 requires, so an encoded event never
 contains one and splitting the stream on line feeds gives the events back.
 The decoder here is the reference that shows it.
 */
module Ndjson {
  import opened Records
  import opened JsText
  import opened SendStream

  function Digit(d: nat): (c: char)
    requires d < 10
    ensures IsDigit(c)
  {
    ('0' as int + d) as char
  }

  /** A lower-case hexadecimal digit, as `JSON.stringify` writes them. */
  function HexDigit(d: nat): char
    requires d < 16
  {
    if d < 10 then Digit(d) else ('a' as int + d - 10) as char
  }

  function HexValue(c: char): (r: Option<nat>)
    ensures r.Some? ==> r.value < 16
  {
    if '0' <= c <= '9' then Some(c as int - '0' as int)
    else if 'a' <= c <= 'f' then Some(c as int - 'a' as int + 10)
    else if 'A' <= c <= 'F' then Some(c as int - 'A' as int + 10)
    else None
  }

  lemma HexDigitValue(d: nat)
    requires d < 16
    ensures HexValue(HexDigit(d)) == Some(d)
  {
  }

  /** How `JSON.stringify` writes one character inside a string: the quote
      and the backslash escaped, the five control characters with a short
      form escaped by it, the other control characters as `\u00xx`, and
      everything else as itself. */
  function EscapeChar(c: char): (r: string)
    ensures '\n' !in r
  {
    if c == '"' then "\\\""
    else if c == '\\' then "\\\\"
    else if c == '\U{8}' then "\\b"
    else if c == '\U{C}' then "\\f"
    else if c == '\n' then "\\n"
    else if c == '\r' then "\\r"
    else if c == '\t' then "\\t"
    else if c < ' ' then "\\u00" + [HexDigit(c as int / 16), HexDigit(c as int % 16)]
    else [c]
  }

  function Escape(s: string): (r: string)
    ensures '\n' !in r
  {
    if s == [] then [] else EscapeChar(s[0]) + Escape(s[1..])
  }

  /** `JSON.stringify(s)` for a string. */
  function Quote(s: string): (r: string)
    ensures '\n' !in r
  {
    "\"" + Escape(s) + "\""
  }

  /** `JSON.stringify(n)` for a non-negative integer. */
  function NatText(n: nat): (r: string)
    ensures |r| >= 1 && '\n' !in r
    ensures forall i :: 0 <= i < |r| ==> IsDigit(r[i])
  {
    if n < 10 then [Digit(n)] else NatText(n / 10) + [Digit(n % 10)]
  }

  /** The values the route's objects hold: strings and counts. */
  datatype Json = JStr(str: string) | JNat(num: nat)

  function ValueText(v: Json): (r: string)
    ensures '\n' !in r
  {
    match v
    case JStr(str) => Quote(str)
    case JNat(num) => NatText(num)
  }

  /** The text after `{` of `JSON.stringify` of an object with these
      members, in this order. */
  function MembersText(members: seq<(string, Json)>): (r: string)
    ensures '\n' !in r
  {
    if members == [] then "}"
    else
      Quote(members[0].0) + (":" + (ValueText(members[0].1) +
        (if |members| == 1 then "}" else "," + MembersText(members[1..]))))
  }

  function ObjectText(members: seq<(string, Json)>): (r: string)
    ensures '\n' !in r
  {
    "{" + MembersText(members)
  }

  /** A property whose value may be `undefined`: `JSON.stringify` leaves it out. */
  function OptionalMember(key: string, value: Option<string>): seq<(string, Json)> {
    if value.Some? then [(key, JStr(value.value))] else []
  }

  /** The object the route enqueues for an event, with its properties in
      the order its object literal lists them. */
  function MembersOf(e: Event): seq<(string, Json)> {
    match e
    case Start(total) => [("type", JStr("start")), ("total", JNat(total))]
    case Item(index, to, subject, Delivered(messageId)) =>
      [("type", JStr("item")), ("index", JNat(index)), ("to", JStr(to)), ("status", JStr("sent"))]
      + OptionalMember("messageId", messageId) + [("subject", JStr(subject))]
    case Item(index, to, subject, Undelivered(error)) =>
      [("type", JStr("item")), ("index", JNat(index)), ("to", JStr(to)), ("status", JStr("error"))]
      + OptionalMember("error", error) + [("subject", JStr(subject))]
    case Done(sent, failed) => [("type", JStr("done")), ("sent", JNat(sent)), ("failed", JNat(failed))]
  }

  /** `JSON.stringify(obj)` for the object of an event. */
  function EncodeEvent(e: Event): (line: string)
    ensures '\n' !in line
  {
    ObjectText(MembersOf(e))
  }

  function Lines(es: seq<Event>): (lines: seq<string>)
    ensures |lines| == |es|
    ensures forall i :: 0 <= i < |lines| ==> '\n' !in lines[i]
  {
    MapSeq(es, EncodeEvent)
  }

  /** Each line followed by a line feed. */
  function Framed(lines: seq<string>): string {
    if lines == [] then "" else lines[0] + "\n" + Framed(lines[1..])
  }

  /** The bytes of the response stream: `JSON.stringify(obj) + "\n"` for
      each event in turn. */
  function Frame(es: seq<Event>): string {
    Framed(Lines(es))
  }

  // ---- The reference decoder ----

  function Expect(lit: string, s: string): (r: Option<string>)
    ensures r.Some? ==> |r.value| == |s| - |lit|
  {
    if StartsWith(s, lit) then Some(s[|lit|..]) else None
  }

  function LeadingDigits(s: string): (k: nat)
    ensures k <= |s|
    ensures forall i :: 0 <= i < k ==> IsDigit(s[i])
    ensures k < |s| ==> !IsDigit(s[k])
  {
    if s != [] && IsDigit(s[0]) then 1 + LeadingDigits(s[1..]) else 0
  }

  function DigitsValue(d: string): nat {
    if d == [] then 0
    else
      var c := d[|d| - 1];
      DigitsValue(d[..|d| - 1]) * 10 + (if IsDigit(c) then c as int - '0' as int else 0)
  }

  /** A JSON number made of digits, and the text after it. */
  function ParseNat(s: string): (r: Option<(nat, string)>)
    ensures r.Some? ==> |r.value.1| < |s|
  {
    var k := LeadingDigits(s);
    if k == 0 then None else Some((DigitsValue(s[..k]), s[k..]))
  }

  /** The character an escape sequence stands for and how many characters
      after the backslash it takes. */
  function Unescape(s: string): (r: Option<(char, nat)>)
    ensures r.Some? ==> 1 <= r.value.1 <= |s|
  {
    if s == [] then None
    else if s[0] == '"' then Some(('"', 1))
    else if s[0] == '\\' then Some(('\\', 1))
    else if s[0] == '/' then Some(('/', 1))
    else if s[0] == 'b' then Some(('\U{8}', 1))
    else if s[0] == 'f' then Some(('\U{C}', 1))
    else if s[0] == 'n' then Some(('\n', 1))
    else if s[0] == 'r' then Some(('\r', 1))
    else if s[0] == 't' then Some(('\t', 1))
    else if s[0] == 'u' && |s| >= 5 then
      var h0 :- HexValue(s[1]);
      var h1 :- HexValue(s[2]);
      var h2 :- HexValue(s[3]);
      var h3 :- HexValue(s[4]);
      var code := ((h0 * 16 + h1) * 16 + h2) * 16 + h3;
      if 0xD800 <= code < 0xE000 then None else Some((code as char, 5))
    else None
  }

  /** The contents of a JSON string up to its closing quote, and the text
      after that quote. */
  function ParseStringBody(s: string): (r: Option<(string, string)>)
    ensures r.Some? ==> |r.value.1| < |s|
    decreases |s|
  {
    if s == [] then None
    else if s[0] == '"' then Some(([], s[1..]))
    else if s[0] == '\\' then
      var esc :- Unescape(s[1..]);
      var more :- ParseStringBody(s[1 + esc.1..]);
      Some(([esc.0] + more.0, more.1))
    else if s[0] < ' ' then None
    else
      var more :- ParseStringBody(s[1..]);
      Some(([s[0]] + more.0, more.1))
  }

  function ParseString(s: string): (r: Option<(string, string)>)
    ensures r.Some? ==> |r.value.1| < |s|
  {
    if s != [] && s[0] == '"' then ParseStringBody(s[1..]) else None
  }

  function ParseValue(s: string): (r: Option<(Json, string)>)
    ensures r.Some? ==> |r.value.1| < |s|
  {
    if s != [] && s[0] == '"' then
      var str :- ParseString(s);
      Some((JStr(str.0), str.1))
    else
      var num :- ParseNat(s);
      Some((JNat(num.0), num.1))
  }

  /** `"key":value` members separated by commas up to the closing brace,
      and the text after that brace. */
  function ParseMembers(s: string): Option<(seq<(string, Json)>, string)>
    decreases |s|
  {
    var key :- ParseString(s);
    var r :- Expect(":", key.1);
    var value :- ParseValue(r);
    if StartsWith(value.1, "}") then Some(([(key.0, value.0)], value.1[1..]))
    else
      var r2 :- Expect(",", value.1);
      var more :- ParseMembers(r2);
      Some(([(key.0, value.0)] + more.0, more.1))
  }

  function ParseObject(s: string): Option<(seq<(string, Json)>, string)> {
    var r :- Expect("{", s);
    if StartsWith(r, "}") then Some(([], r[1..])) else ParseMembers(r)
  }

  /** The event an object describes, when it has one of the four shapes. */
  function EventOf(members: seq<(string, Json)>): Option<Event> {
    var n := |members|;
    if n == 2 && members[0] == ("type", JStr("start")) && members[1].0 == "total" && members[1].1.JNat? then
      Some(Start(members[1].1.num))
    else if n == 3 && members[0] == ("type", JStr("done")) && members[1].0 == "sent" && members[1].1.JNat?
            && members[2].0 == "failed" && members[2].1.JNat? then
      Some(Done(members[1].1.num, members[2].1.num))
    else if (n == 5 || n == 6) && members[0] == ("type", JStr("item"))
            && members[1].0 == "index" && members[1].1.JNat?
            && members[2].0 == "to" && members[2].1.JStr?
            && (members[3] == ("status", JStr("sent")) || members[3] == ("status", JStr("error")))
            && members[n - 1].0 == "subject" && members[n - 1].1.JStr? then
      var sent := members[3] == ("status", JStr("sent"));
      if n == 6 && (members[4].0 != (if sent then "messageId" else "error") || !members[4].1.JStr?) then None
      else
        var extra := if n == 6 then Some(members[4].1.str) else None;
        Some(Item(members[1].1.num, members[2].1.str, members[n - 1].1.str,
                  if sent then Delivered(extra) else Undelivered(extra)))
    else None
  }

  /** One line of the stream back to the event it encodes. */
  function DecodeEvent(line: string): Option<Event> {
    var obj :- ParseObject(line);
    if obj.1 != "" then None else EventOf(obj.0)
  }

  function DecodeLines(lines: seq<string>): Option<seq<Event>> {
    if lines == [] then Some([])
    else
      var e :- DecodeEvent(lines[0]);
      var rest :- DecodeLines(lines[1..]);
      Some([e] + rest)
  }

  /** A consumer's reading of the stream: split on line feeds; the text
      after the last line feed must be empty, and every line before it
      must decode. */
  function DecodeStream(text: string): Option<seq<Event>> {
    var pieces := Split(text, '\n');
    if pieces[|pieces| - 1] != "" then None else DecodeLines(pieces[..|pieces| - 1])
  }

  // ---- Round trips ----

  lemma ExpectLit(lit: string, rest: string)
    ensures Expect(lit, lit + rest) == Some(rest)
  {
    assert (lit + rest)[..|lit|] == lit;
    assert (lit + rest)[|lit|..] == rest;
  }

  lemma {:induction false} DigitsValueOfNatText(n: nat)
    ensures DigitsValue(NatText(n)) == n
  {
    if n >= 10 {
      var t := NatText(n / 10);
      assert (t + [Digit(n % 10)])[..|t|] == t;
      DigitsValueOfNatText(n / 10);
    }
  }

  /** A number is read back whole when a non-digit follows it. */
  lemma ParseNatText(n: nat, rest: string)
    requires rest != [] && !IsDigit(rest[0])
    ensures ParseNat(NatText(n) + rest) == Some((n, rest))
  {
    var t := NatText(n);
    var s := t + rest;
    assert s[|t|] == rest[0];
    assert LeadingDigits(s) == |t|;
    assert s[..|t|] == t && s[|t|..] == rest;
    DigitsValueOfNatText(n);
  }

  /** Reading back one escaped character. */
  lemma EscapeCharStep(c: char, tail: string, body: string, rest: string)
    requires ParseStringBody(tail) == Some((body, rest))
    ensures ParseStringBody(EscapeChar(c) + tail) == Some(([c] + body, rest))
  {
    var s := EscapeChar(c) + tail;
    if c == '"' || c == '\\' || c == '\U{8}' || c == '\U{C}' || c == '\n' || c == '\r' || c == '\t' {
      assert s[1..][0] == s[1] && s[1 + 1..] == tail;
      EscapedStep(s, c, 1, tail, body, rest);
    } else if c < ' ' {
      HexEscapeStep(c, tail);
      EscapedStep(s, c, 5, tail, body, rest);
    } else {
      assert s[1..] == tail;
    }
  }

  /** A backslash sequence standing for `c` and taking `k` characters
      after the backslash, followed by the rest of the string body. */
  lemma EscapedStep(s: string, c: char, k: nat, tail: string, body: string, rest: string)
    requires |s| > k && s[0] == '\\' && Unescape(s[1..]) == Some((c, k)) && s[1 + k..] == tail
    requires ParseStringBody(tail) == Some((body, rest))
    ensures ParseStringBody(s) == Some(([c] + body, rest))
  {
  }

  lemma HexEscapeStep(c: char, tail: string)
    requires c < ' ' && c != '\U{8}' && c != '\U{C}' && c != '\n' && c != '\r' && c != '\t'
    ensures var s := EscapeChar(c) + tail;
            |s| > 5 && s[0] == '\\' && Unescape(s[1..]) == Some((c, 5)) && s[1 + 5..] == tail
  {
    var s := EscapeChar(c) + tail;
    var hi, lo := c as int / 16, c as int % 16;
    HexDigitValue(hi);
    HexDigitValue(lo);
    assert s[1..][1..5] == ['0', '0', HexDigit(hi), HexDigit(lo)];
    assert s[1 + 5..] == tail;
  }

  lemma {:induction false} EscapeRoundTrip(x: string, rest: string)
    ensures ParseStringBody(Escape(x) + "\"" + rest) == Some((x, rest))
  {
    if x == [] {
      assert Escape(x) + "\"" + rest == "\"" + rest;
      assert ("\"" + rest)[1..] == rest;
    } else {
      EscapeRoundTrip(x[1..], rest);
      var tail := Escape(x[1..]) + "\"" + rest;
      ConcatAssoc(EscapeChar(x[0]), Escape(x[1..]), "\"", rest);
      EscapeCharStep(x[0], tail, x[1..], rest);
      assert [x[0]] + x[1..] == x;
    }
  }

  lemma ConcatAssoc<T>(a: seq<T>, b: seq<T>, c: seq<T>, d: seq<T>)
    ensures a + b + c + d == a + (b + c + d)
  {
  }

  /** `JSON.parse` inverts `JSON.stringify` on strings. */
  lemma QuoteRoundTrip(x: string, rest: string)
    ensures ParseString(Quote(x) + rest) == Some((x, rest))
  {
    var body := Escape(x) + "\"" + rest;
    ConcatAssoc("\"", Escape(x), "\"", rest);
    assert ("\"" + body)[1..] == body;
    EscapeRoundTrip(x, rest);
  }

  lemma ValueRoundTrip(v: Json, rest: string)
    requires rest != [] && !IsDigit(rest[0])
    ensures ParseValue(ValueText(v) + rest) == Some((v, rest))
  {
    match v
    case JStr(str) =>
      QuoteRoundTrip(str, rest);
    case JNat(num) =>
      ParseNatText(num, rest);
      assert NatText(num)[0] != '"';
  }

  /** Reading one member and what follows it. */
  lemma MemberThen(key: string, value: Json, after: string)
    requires after != [] && !IsDigit(after[0])
    ensures var s := Quote(key) + (":" + (ValueText(value) + after));
            && ParseString(s) == Some((key, ":" + (ValueText(value) + after)))
            && Expect(":", ":" + (ValueText(value) + after)) == Some(ValueText(value) + after)
            && ParseValue(ValueText(value) + after) == Some((value, after))
  {
    QuoteRoundTrip(key, ":" + (ValueText(value) + after));
    ExpectLit(":", ValueText(value) + after);
    ValueRoundTrip(value, after);
  }

  lemma LastMember(key: string, value: Json)
    ensures ParseMembers(Quote(key) + (":" + (ValueText(value) + "}"))) == Some(([(key, value)], ""))
  {
    MemberThen(key, value, "}");
    assert StartsWith("}", "}") && "}"[1..] == "";
  }

  lemma NextMember(key: string, value: Json, tail: string, more: seq<(string, Json)>)
    requires ParseMembers(tail) == Some((more, ""))
    ensures ParseMembers(Quote(key) + (":" + (ValueText(value) + ("," + tail)))) == Some(([(key, value)] + more, ""))
  {
    MemberThen(key, value, "," + tail);
    assert !StartsWith("," + tail, "}");
    ExpectLit(",", tail);
  }

  lemma {:induction false} MembersRoundTrip(members: seq<(string, Json)>)
    requires members != []
    ensures ParseMembers(MembersText(members)) == Some((members, ""))
  {
    var key, value, rest := members[0].0, members[0].1, members[1..];
    if |members| == 1 {
      LastMember(key, value);
      assert [members[0]] == members;
    } else {
      var tail := MembersText(rest);
      assert MembersText(members) == Quote(key) + (":" + (ValueText(value) + ("," + tail)));
      MembersRoundTrip(rest);
      NextMember(key, value, tail, rest);
      assert [(key, value)] + rest == members;
    }
  }

  lemma ObjectRoundTrip(members: seq<(string, Json)>)
    requires members != []
    ensures ParseObject(ObjectText(members)) == Some((members, ""))
  {
    ExpectLit("{", MembersText(members));
    MembersTextOpens(members);
    MembersRoundTrip(members);
  }

  lemma MembersTextOpens(members: seq<(string, Json)>)
    requires members != []
    ensures !StartsWith(MembersText(members), "}")
  {
    var q := Quote(members[0].0);
    assert q[0] == '"';
    assert MembersText(members)[0] == q[0];
  }

  /** The member list of an event describes that event. */
  lemma EventOfMembers(e: Event)
    ensures MembersOf(e) != [] && EventOf(MembersOf(e)) == Some(e)
  {
    match e
    case Start(_) =>
    case Done(_, _) =>
    case Item(index, to, subject, outcome) =>
      var extra := if outcome.Delivered? then "messageId" else "error";
      var value := if outcome.Delivered? then outcome.messageId else outcome.error;
      var members := MembersOf(e);
      assert |members| == 5 + |OptionalMember(extra, value)|;
      assert members[|members| - 1] == ("subject", JStr(subject));
  }

  /** Every event reads back as itself. */
  lemma EventRoundTrip(e: Event)
    ensures DecodeEvent(EncodeEvent(e)) == Some(e)
  {
    EventOfMembers(e);
    ObjectRoundTrip(MembersOf(e));
  }

  lemma {:induction false} FramedIsJoin(lines: seq<string>)
    ensures Framed(lines) == Join(lines + [""], '\n')
  {
    if lines != [] {
      FramedIsJoin(lines[1..]);
      var pieces := lines + [""];
      assert pieces[0] == lines[0];
      assert pieces[1..] == lines[1..] + [""];
    }
  }

  lemma {:induction false} DecodeAll(lines: seq<string>, es: seq<Event>)
    requires |lines| == |es|
    requires forall i :: 0 <= i < |lines| ==> DecodeEvent(lines[i]) == Some(es[i])
    ensures DecodeLines(lines) == Some(es)
  {
    if es != [] {
      DecodeAll(lines[1..], es[1..]);
      assert [es[0]] + es[1..] == es;
    }
  }

  /** Splitting the stream on line feeds and parsing each line gives back
      exactly the events that were written, in order. */
  lemma DecodeFrame(es: seq<Event>)
    ensures DecodeStream(Frame(es)) == Some(es)
  {
    var lines := Lines(es);
    FramedIsJoin(lines);
    var pieces := lines + [""];
    SplitJoin(pieces, '\n');
    assert pieces[..|pieces| - 1] == lines;
    forall i | 0 <= i < |lines| ensures DecodeEvent(lines[i]) == Some(es[i]) {
      EventRoundTrip(es[i]);
    }
    DecodeAll(lines, es);
  }

  lemma {:induction false} FramedAppend(a: seq<string>, b: seq<string>)
    ensures Framed(a + b) == Framed(a) + Framed(b)
  {
    if a == [] {
      assert a + b == b;
    } else {
      assert (a + b)[0] == a[0] && (a + b)[1..] == a[1..] + b;
      FramedAppend(a[1..], b);
    }
  }

  /** The stream is written event by event: what has been written after
      some events is the framing of those events, so a reader of a prefix
      already holds every event completed so far. */
  lemma FrameAppend(a: seq<Event>, b: seq<Event>)
    ensures Frame(a + b) == Frame(a) + Frame(b)
  {
    MapSeqAppend(a, b, EncodeEvent);
    FramedAppend(Lines(a), Lines(b));
  }


  /** The body of a dispatch response reads back as the run's events. */
  lemma RunDecodes(p: Payload, creds: Credentials, engine: Engine, transport: Transport)
    ensures DecodeStream(Frame(StreamOf(p, creds, engine, transport))) == Some(StreamOf(p, creds, engine, transport))
  {
    DecodeFrame(StreamOf(p, creds, engine, transport));
  }
}
