/**
 The main page (app/page.tsx): the JSON export of the rendered emails,
 the gating of the tabs and their tooltips, and the page state the upload
 panel and the template library change.
 */
module HomePage {
  import opened Records
  import opened JsText
  import opened CsvUploader
  import PreviewPane
  import SendStream

  /** `RenderedEmail`; `None` is an omitted property. */
  datatype RenderedEmail = RenderedEmail(to: string, name: Option<string>, subject: Option<string>, html: string)

  /** `String(v)`: an absent column reads as "undefined". */
  function Stringify(v: Option<string>): string {
    if v.Some? then v.value else "undefined"
  }

  /** The subject of one exported email: the subject template rendered
      against the aliased row when it has non-whitespace content (a render
      that throws is not caught); otherwise the mapped subject column
      as a string, even when empty or absent; otherwise no subject. */
  function ExportSubject(subjectTemplate: string, mapping: Mapping, row: Row, engine: Engine): (r: Result<Option<string>>)
    ensures var out := engine(subjectTemplate, AliasedContext(row, mapping));
            Trim(subjectTemplate) != "" ==>
              (out.Ok? ==> r == Ok(Some(out.value))) && (out.Err? ==> r == Err(out.message))
    ensures Trim(subjectTemplate) == "" && Truthy(mapping.subject) ==>
              r == Ok(Some(Stringify(Lookup(row, mapping.subject.value))))
    ensures Trim(subjectTemplate) == "" && !Truthy(mapping.subject) ==> r == Ok(None)
  {
    if Trim(subjectTemplate) != "" then
      match engine(subjectTemplate, AliasedContext(row, mapping))
      case Ok(text) => Ok(Some(text))
      case Err(msg) => Err(msg)
    else if Truthy(mapping.subject) then Ok(Some(Stringify(Lookup(row, mapping.subject.value))))
    else Ok(None)
  }

  /** One exported email, given its subject. */
  function Entry(row: Row, mapping: Mapping, subject: Option<string>, htmlRender: Row -> string): (e: RenderedEmail)
    requires IsEligible(row, mapping)
    ensures Some(e.to) == RecipientValue(row, mapping)
    ensures e.name.Some? <==> Truthy(NameValue(row, mapping))
    ensures e.name.Some? ==> e.name == NameValue(row, mapping)
    ensures e.html == htmlRender(row) && e.subject == subject
  {
    var name := NameValue(row, mapping);
    RenderedEmail(RecipientValue(row, mapping).value, if Truthy(name) then name else None, subject, htmlRender(row))
  }

  /** `onExportJson(htmlRender)`: nothing without a CSV and a mapping
      (`None`); otherwise the payload, or the error of the first subject
      render that throws, which abandons the export. */
  function Export(csv: Option<ParsedCsv>, mapping: Option<Mapping>, subjectTemplate: string, engine: Engine,
                  htmlRender: Row -> string)
    : (r: Option<Result<seq<RenderedEmail>>>)
    ensures r.None? <==> csv.None? || mapping.None?
    ensures r.Some? ==>
              var rows := Eligible(csv.value.rows, mapping.value);
              (r.value.Ok? <==> forall i :: 0 <= i < |rows| ==> ExportSubject(subjectTemplate, mapping.value, rows[i], engine).Ok?)
    ensures r.Some? && r.value.Ok? ==>
              var rows := Eligible(csv.value.rows, mapping.value);
              var payload := r.value.value;
              var listed := PreviewPane.Recipients(csv, mapping);
              && |payload| == |rows| == |listed|
              && forall i :: 0 <= i < |payload| ==>
                   && payload[i].to == listed[i]
                   && (payload[i].name.Some? <==> Truthy(NameValue(rows[i], mapping.value)))
                   && (payload[i].name.Some? ==> payload[i].name == NameValue(rows[i], mapping.value))
                   && payload[i].html == htmlRender(rows[i])
                   && Ok(payload[i].subject) == ExportSubject(subjectTemplate, mapping.value, rows[i], engine)
  {
    if csv.None? || mapping.None? then None
    else
      var m := mapping.value;
      var rows := Eligible(csv.value.rows, m);
      match MapOrThrow(rows, row => ExportSubject(subjectTemplate, m, row, engine))
      case Err(msg) => Some(Err(msg))
      case Ok(subjects) => Some(Ok(Entries(rows, m, subjects, htmlRender)))
  }

  /** The exported emails of the eligible rows, given their subjects. */
  function Entries(rows: seq<Row>, mapping: Mapping, subjects: seq<Option<string>>, htmlRender: Row -> string)
    : (es: seq<RenderedEmail>)
    requires |subjects| == |rows| && forall i :: 0 <= i < |rows| ==> IsEligible(rows[i], mapping)
    ensures |es| == |rows|
    ensures forall i :: 0 <= i < |es| ==>
              && Some(es[i].to) == RecipientValue(rows[i], mapping)
              && (es[i].name.Some? <==> Truthy(NameValue(rows[i], mapping)))
              && (es[i].name.Some? ==> es[i].name == NameValue(rows[i], mapping))
              && es[i].html == htmlRender(rows[i])
              && es[i].subject == subjects[i]
  {
    seq(|rows|, i requires 0 <= i < |rows| => Entry(rows[i], mapping, subjects[i], htmlRender))
  }

  /** The preview panel hands its own `renderRow` to the export, so each
      exported body is exactly what the preview shows for that row. */
  lemma ExportedBodiesAreThePreview(csv: Option<ParsedCsv>, mapping: Option<Mapping>, template: string,
                                    subjectTemplate: string, engine: Engine, i: nat)
    requires csv.Some? && mapping.Some?
    requires var r := Export(csv, mapping, subjectTemplate, engine, row => PreviewPane.RenderRow(template, mapping, row, engine));
             r.value.Ok? && i < |r.value.value|
    ensures var r := Export(csv, mapping, subjectTemplate, engine, row => PreviewPane.RenderRow(template, mapping, row, engine));
            r.value.value[i].html == PreviewPane.RenderRow(template, mapping, Eligible(csv.value.rows, mapping.value)[i], engine)
  {
  }

  /** Where the export and the dispatch disagree on the subject: with a
      blank subject template and a mapped subject column the row lacks,
      the export writes "undefined" while the sent email has an empty
      subject. */
  lemma MissingSubjectColumnDiverges(html: string, row: Row, mapping: Mapping, engine: Engine)
    requires Truthy(mapping.subject) && mapping.subject.value !in row
    ensures ExportSubject("", mapping, row, engine) == Ok(Some("undefined"))
    ensures SendStream.RenderTemplate(html, None, row, mapping, engine).subject == ""
  {
    assert Trim("") == "";
  }

  /** ... while the dispatch sends that row with the raw subject template
      as its subject. */
  lemma ThrowingSubjectIsSentRaw(row: Row, mapping: Mapping, subjectTemplate: string, html: string, engine: Engine)
    requires Trim(subjectTemplate) != ""
    requires engine(subjectTemplate, AliasedContext(row, mapping)).Err?
    ensures SendStream.RenderTemplate(html, Some(subjectTemplate), row, mapping, engine).subject == subjectTemplate
  {
  }

  /** `isDisabled(id)`: the template tab needs a CSV; the preview tab
      needs a CSV, a mapping and a template chosen with "Use this
      template"; every other tab is always open. */
  function IsDisabled(id: string, hasCsv: bool, hasMapping: bool, hasSelectedTemplate: bool): (r: bool)
    ensures id == "template" ==> (r <==> !hasCsv)
    ensures id == "preview" ==> (r <==> !hasCsv || !hasMapping || !hasSelectedTemplate)
    ensures id != "template" && id != "preview" ==> !r
  {
    if id == "template" then !hasCsv
    else if id == "preview" then !hasCsv || !hasMapping || !hasSelectedTemplate
    else false
  }

  /** `getDisabledTitle(id)`: why a tab is closed, the missing CSV or
      mapping before the missing template choice. */
  function DisabledTitle(id: string, hasCsv: bool, hasMapping: bool, hasSelectedTemplate: bool): Option<string> {
    if id == "template" && !hasCsv then Some("Upload a CSV first to configure the template.")
    else if id == "preview" && (!hasCsv || !hasMapping) then Some("Upload CSV and set column mapping first.")
    else if id == "preview" && !hasSelectedTemplate then Some("Choose a template and click \"Use this template\" first.")
    else None
  }

  /** A tab shows a reason exactly when it is closed. */
  lemma TitledIffDisabled(id: string, hasCsv: bool, hasMapping: bool, hasSelectedTemplate: bool)
    ensures (DisabledTitle(id, hasCsv, hasMapping, hasSelectedTemplate).Some?
             <==> IsDisabled(id, hasCsv, hasMapping, hasSelectedTemplate))
  {
  }

  /** The template the page starts with. */
  const InitialTemplate: string :=
    "<html>\n  <body>\n    <p>Hello {{ name }},</p>\n    <p>This is a sample template. Replace me!</p>\n  </body>\n</html>"

  /** The page's state. */
  class Page {
    var csv: Option<ParsedCsv>
    var mapping: Option<Mapping>
    var template: string
    var subjectTemplate: string
    var hasSelectedTemplate: bool

    constructor()
      ensures csv == None && mapping == None && !hasSelectedTemplate
      ensures template == InitialTemplate && subjectTemplate == "{{ subject }}"
    {
      csv := None;
      mapping := None;
      template := InitialTemplate;
      subjectTemplate := "{{ subject }}";
      hasSelectedTemplate := false;
    }

    /** The upload panel's `onParsed`: the new CSV and mapping, and the
        template choice must be made again, which closes the preview tab. */
    method OnParsed(selection: Selection)
      modifies this
      ensures csv == Some(selection.csv) && mapping == Some(selection.mapping) && !hasSelectedTemplate
      ensures template == old(template) && subjectTemplate == old(subjectTemplate)
      ensures TabDisabled("preview") && !TabDisabled("template")
    {
      csv := Some(selection.csv);
      mapping := Some(selection.mapping);
      hasSelectedTemplate := false;
    }

    /** The template library's `onUseTemplate`, which opens the preview
        tab once a CSV and a mapping exist. */
    method OnUseTemplate(html: string)
      modifies this
      ensures template == html && hasSelectedTemplate
      ensures csv == old(csv) && mapping == old(mapping) && subjectTemplate == old(subjectTemplate)
      ensures csv.Some? && mapping.Some? ==> !TabDisabled("preview")
    {
      template := html;
      hasSelectedTemplate := true;
    }

    predicate TabDisabled(id: string)
      reads this
    {
      IsDisabled(id, csv.Some?, mapping.Some?, hasSelectedTemplate)
    }
  }
}
