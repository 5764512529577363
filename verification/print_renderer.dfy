/** The printed report: a header with the report number, then one titled
    block per schema section holding one cell per field, in schema order. */
module PrintRenderer {
  import opened FormValues
  import opened FormSchema
  import opened PrintField

  /** A grid cell of the print: the field it shows (the React key), whether
      it spans the full width, and the rendered field. */
  datatype GridCell = GridCell(key: string, fullWidth: bool, cell: Cell)

  datatype PrintedSection = PrintedSection(title: string, cells: seq<GridCell>)

  datatype PrintedReport = PrintedReport(reportNumber: Printed, sections: seq<PrintedSection>)

  /** The header as written: `formData.reportNumber || '—'`. No field of the
      schema is called `reportNumber`. */
  function ReportHeaderAsWritten(formData: FormData): Printed
  {
    var v := Get(formData, "reportNumber");
    if Truthy(v) then Raw(v) else EmDash
  }

  /** The report's identifier lives under `reportId`, so the header as
      written shows the placeholder for a report that has an id. */
  lemma HeaderMissesReportId()
    ensures ReportHeaderAsWritten(map["reportId" := Str("R-1")]) == EmDash
    ensures "reportNumber" !in SchemaNames
  {
  }

  /** The header reading the schema's own identifier field. */
  function ReportHeader(formData: FormData): (r: Printed)
    ensures Truthy(Get(formData, "reportId")) ==> r == Raw(Get(formData, "reportId"))
    ensures !Truthy(Get(formData, "reportId")) ==> r == EmDash
  {
    var v := Get(formData, "reportId");
    if Truthy(v) then Raw(v) else EmDash
  }

  /** The header shows the identifier of any report that has one, and the
      identifier is a field of the schema. */
  lemma HeaderShowsReportId(id: string)
    requires id != ""
    ensures ReportHeader(map["reportId" := Str(id)]) == Raw(Str(id))
    ensures "reportId" in SchemaNames
  {
  }

  /** One field's grid cell: label, stored value and type are handed on, and
      `isUnavailable` is not. */
  function PrintGridCell(field: FieldDef, formData: FormData): GridCell
  {
    GridCell(field.name, field.fullWidth,
      PrintFieldCell(field.labelText, Get(formData, field.name), field.ftype, false))
  }

  function PrintCells(fields: seq<FieldDef>, formData: FormData): (r: seq<GridCell>)
    ensures |r| == |fields|
    ensures forall k | 0 <= k < |fields| :: r[k] == PrintGridCell(fields[k], formData)
  {
    if fields == [] then [] else [PrintGridCell(fields[0], formData)] + PrintCells(fields[1..], formData)
  }

  function PrintSections(sections: seq<Section>, formData: FormData): (r: seq<PrintedSection>)
    ensures |r| == |sections|
    ensures forall k | 0 <= k < |sections| ::
      r[k] == PrintedSection(sections[k].title, PrintCells(sections[k].fields, formData))
  {
    if sections == [] then []
    else [PrintedSection(sections[0].title, PrintCells(sections[0].fields, formData))]
         + PrintSections(sections[1..], formData)
  }

  /** `PrintRenderer({ schema, formData })` as written, with the header
      read from `reportNumber`; the footer's timestamp is not part of the
      model. */
  function PrintReport(schema: Schema, formData: FormData): PrintedReport
  {
    PrintedReport(ReportHeaderAsWritten(formData), PrintSections(schema.sections, formData))
  }

  /** The same report with the corrected header, which reads `reportId`. */
  function CorrectedPrintReport(schema: Schema, formData: FormData): PrintedReport
  {
    PrintedReport(ReportHeader(formData), PrintSections(schema.sections, formData))
  }

  /** The correction touches the header only: both reports print the same
      blocks, and for a report with an identifier and no `reportNumber`
      entry the header as written shows the placeholder where the corrected
      one shows the identifier. */
  lemma CorrectionOnlyInHeader(schema: Schema, formData: FormData)
    ensures CorrectedPrintReport(schema, formData).sections == PrintReport(schema, formData).sections
    ensures "reportNumber" !in formData && Truthy(Get(formData, "reportId")) ==>
      && PrintReport(schema, formData).reportNumber == EmDash
      && CorrectedPrintReport(schema, formData).reportNumber == Raw(Get(formData, "reportId"))
  {
  }

  /** All grid cells of a report, section after section. */
  function AllCells(sections: seq<PrintedSection>): seq<GridCell>
  {
    if sections == [] then [] else sections[0].cells + AllCells(sections[1..])
  }

  lemma {:induction false} PrintCellsAppend(a: seq<FieldDef>, b: seq<FieldDef>, formData: FormData)
    ensures PrintCells(a + b, formData) == PrintCells(a, formData) + PrintCells(b, formData)
    decreases |a|
  {
    if a == [] {
      assert a + b == b;
    } else {
      assert (a + b)[1..] == a[1..] + b;
      PrintCellsAppend(a[1..], b, formData);
    }
  }

  lemma {:induction false} CellsOfSections(sections: seq<Section>, formData: FormData)
    ensures AllCells(PrintSections(sections, formData)) == PrintCells(Flatten(sections), formData)
    decreases |sections|
  {
    if sections != [] {
      CellsOfSections(sections[1..], formData);
      assert PrintSections(sections, formData)[1..] == PrintSections(sections[1..], formData);
      PrintCellsAppend(sections[0].fields, Flatten(sections[1..]), formData);
    }
  }

  /** The print holds exactly one cell per schema field, in section order
      and then field order, nothing filtered out by `printable`; each cell
      shows the field's own label without "(NA)", its stored value by its
      type, and spans the full width exactly for a full-width field. */
  lemma PrintedCells(schema: Schema, formData: FormData)
    ensures var cells, fields := AllCells(PrintReport(schema, formData).sections), AllFields(schema);
      && |cells| == |fields|
      && forall k | 0 <= k < |fields| ::
           && cells[k].key == fields[k].name
           && cells[k].fullWidth == fields[k].fullWidth
           && cells[k].cell.labelLine == fields[k].labelText
           && !cells[k].cell.unavailableStyle
           && cells[k].cell.value == RenderValue(Get(formData, fields[k].name), fields[k].ftype, false)
  {
    CellsOfSections(schema.sections, formData);
  }

  /** Each printed block carries its section's `title` (not `printTitle`). */
  lemma PrintedTitles(schema: Schema, formData: FormData)
    ensures var ps := PrintReport(schema, formData).sections;
      |ps| == |schema.sections| && forall k | 0 <= k < |ps| :: ps[k].title == schema.sections[k].title
  {
  }

  /** The print is never told which fields are unavailable, so a filled
      field shows its value, never the placeholder, even when it is marked
      unavailable on screen. */
  lemma UnavailableStillPrinted(schema: Schema, formData: FormData, k: nat)
    requires k < |AllFields(schema)|
    requires Truthy(Get(formData, AllFields(schema)[k].name)) && Get(formData, AllFields(schema)[k].name) != List([])
    ensures var cells := AllCells(PrintReport(schema, formData).sections);
      k < |cells| && cells[k].cell.value != EmDash
  {
    PrintedCells(schema, formData);
    EmDashIff(Get(formData, AllFields(schema)[k].name), AllFields(schema)[k].ftype, false);
  }
}
