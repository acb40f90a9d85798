/**
 Values shared by the client components and the server routes: CSV rows,
 the column mapping, the render context with its `name`/`recipient`
 aliases, the template engine as an opaque function that may throw, and
 the "eligible row" filter (a row whose mapped recipient value is truthy).
 */
module Records {

  datatype Option<+T> = None | Some(value: T) {
    predicate IsFailure() { None? }

    function PropagateFailure<U>(): Option<U>
      requires None?
    {
      None
    }

    function Extract(): T
      requires Some?
    {
      value
    }
  }

  /** A value or the message of the exception that was thrown instead. */
  datatype Result<+T> = Ok(value: T) | Err(message: string)

  /** One CSV record: column name to cell text. A column the record lacks is
      `undefined` in JavaScript. */
  type Row = map<string, string>

  /** The column mapping. `None` is JavaScript `null`: the mapping editor
      stores `null` when a selection is cleared. */
  datatype Mapping = Mapping(recipient: Option<string>, name: Option<string>, subject: Option<string>)

  /** The property name a mapping field selects: indexing an object with
      `null` looks up the property "null". */
  function KeyOf(field: Option<string>): string {
    match field
    case Some(k) => k
    case None => "null"
  }

  /** `row[key]`, with `None` for `undefined`. */
  function Lookup(row: Row, key: string): Option<string> {
    if key in row then Some(row[key]) else None
  }

  /** JavaScript truthiness of a string that may be `undefined`. */
  predicate Truthy(v: Option<string>) {
    v.Some? && v.value != ""
  }

  function RecipientValue(row: Row, mapping: Mapping): Option<string> {
    Lookup(row, KeyOf(mapping.recipient))
  }

  function NameValue(row: Row, mapping: Mapping): Option<string> {
    Lookup(row, KeyOf(mapping.name))
  }

  /** `r[mapping.recipient]` is truthy. */
  predicate IsEligible(row: Row, mapping: Mapping) {
    Truthy(RecipientValue(row, mapping))
  }

  /** `rows.filter(r => r[mapping.recipient])` */
  function Eligible(rows: seq<Row>, mapping: Mapping): (r: seq<Row>)
    ensures |r| <= |rows|
    ensures forall i :: 0 <= i < |r| ==> IsEligible(r[i], mapping) && r[i] in rows
    ensures forall row :: row in rows && IsEligible(row, mapping) ==> row in r
  {
    if rows == [] then []
    else if IsEligible(rows[0], mapping) then [rows[0]] + Eligible(rows[1..], mapping)
    else Eligible(rows[1..], mapping)
  }

  /** The filter keeps order: it distributes over concatenation, so the
      eligible rows of a table are those of its first part followed by
      those of the rest. */
  lemma {:induction false} EligibleAppend(a: seq<Row>, b: seq<Row>, mapping: Mapping)
    ensures Eligible(a + b, mapping) == Eligible(a, mapping) + Eligible(b, mapping)
  {
    if a == [] {
      assert a + b == b;
    } else {
      assert (a + b)[0] == a[0] && (a + b)[1..] == a[1..] + b;
      EligibleAppend(a[1..], b, mapping);
    }
  }

  /** Filtering rows that are already filtered keeps them all: the server
      dispatches every row the client sends it. */
  lemma {:induction false} EligibleIdempotent(rows: seq<Row>, mapping: Mapping)
    ensures Eligible(Eligible(rows, mapping), mapping) == Eligible(rows, mapping)
  {
    if rows != [] {
      EligibleIdempotent(rows[1..], mapping);
    }
  }

  /** What a template sees: every column of the row, `undefined` allowed. */
  type Context = map<string, Option<string>>

  /** `{ ...row, name: row[mapping.name], recipient: row[mapping.recipient] }` */
  function AliasedContext(row: Row, mapping: Mapping): (ctx: Context)
    ensures "name" in ctx && ctx["name"] == NameValue(row, mapping)
    ensures "recipient" in ctx && ctx["recipient"] == RecipientValue(row, mapping)
    ensures forall k :: k != "name" && k != "recipient" ==>
              (k in ctx <==> k in row) && (k in row ==> ctx[k] == Some(row[k]))
  {
    var columns := map k | k in row :: Some(row[k]);
    columns["name" := NameValue(row, mapping)]["recipient" := RecipientValue(row, mapping)]
  }

  /** The template engine (`nunjucks.renderString`): rendering a template
      against a context either yields text or throws with a message. */
  type Engine = (string, Context) -> Result<string>
}
