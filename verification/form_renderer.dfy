/** The on-screen form: each schema field becomes a control whose shared
    props are derived from the form data, the touched and error maps, the
    unavailable list and the report status; sections and fields are laid
    out in schema order. */
module FormRenderer {
  import opened FormValues
  import opened FormSchema
  import opened FormValidation
  import PrintRenderer

  /** `commonProps`, less the `onChange`/`onBlur` callbacks;
      `toggleTarget` is the name the availability toggle is called with. */
  datatype CommonProps = CommonProps(
    name: string,
    value: Value,
    labelText: string,
    requiredByPatient: bool,
    showError: bool,
    errorMessage: Option<string>,
    disabled: bool,
    isUnavailable: bool,
    toggleTarget: string,
    isEmpty: bool,
    isCompleted: bool)

  /** The element `renderField` returns, by field type. */
  datatype Control =
    | TextControl(props: CommonProps, maxLength: Option<nat>, placeholder: string)
    | TextAreaControl(props: CommonProps, maxLength: Option<nat>, placeholder: string, rows: Option<nat>)
    | NumberControl(props: CommonProps, min: Option<int>, max: Option<int>, placeholder: string)
    | DateControl(props: CommonProps)
    | TimeControl(props: CommonProps)
    | RadioControl(props: CommonProps, options: seq<Choice>)
    | CheckboxControl(props: CommonProps, options: seq<Choice>)
    | SignatureControl(props: CommonProps)
    | ReadonlyView(caption: string, shown: Value)
    | NoControl

  /** `fieldValue || (field.type === "checkbox" ? [] : "")` */
  function ControlValue(value: Value, ftype: FieldType): (r: Value)
    ensures r != Undefined
    ensures IsEmpty(r) == IsEmpty(value)
    ensures ftype == Checkbox && !value.Str? ==> r.List?
    ensures Truthy(value) ==> r == value
    ensures !Truthy(value) ==> r == (if ftype == Checkbox then List([]) else Str(""))
  {
    if Truthy(value) then value else if ftype == Checkbox then List([]) else Str("")
  }

  /** `touched[name] && !!errors[name]` */
  predicate ShowError(touched: map<string, bool>, errors: map<string, string>, name: string)
  {
    name in touched && touched[name] && name in errors && errors[name] != ""
  }

  function Props(field: FieldDef, formData: FormData, touched: map<string, bool>, errors: map<string, string>,
                 unavailable: seq<string>, status: string): CommonProps
  {
    var isUnavailable := field.name in unavailable;
    var fieldValue := Get(formData, field.name);
    CommonProps(
      field.name,
      ControlValue(fieldValue, field.ftype),
      field.labelText,
      field.requiredByPatient,
      ShowError(touched, errors, field.name),
      if field.name in errors then Some(errors[field.name]) else None,
      field.ftype == Readonly || isUnavailable,
      isUnavailable,
      field.name,
      IsEmpty(fieldValue),
      status == "completed")
  }

  /** The derived props: disabled exactly for a read-only or unavailable
      field; the error shown exactly for a touched field with an error;
      `isEmpty` the negation of the completion rule for an available field;
      `isCompleted` exactly for status "completed"; and the toggle bound to
      the field's own name. */
  lemma PropsSpec(field: FieldDef, formData: FormData, touched: map<string, bool>, errors: map<string, string>,
                  unavailable: seq<string>, status: string)
    ensures var p := Props(field, formData, touched, errors, unavailable, status);
      && p.name == field.name && p.toggleTarget == field.name
      && (p.disabled <==> field.ftype == Readonly || field.name in unavailable)
      && (p.showError <==> field.name in touched && touched[field.name]
                           && field.name in errors && errors[field.name] != "")
      && (IsCompleted(formData, unavailable, field.name) <==> p.isUnavailable || !p.isEmpty)
      && (p.isCompleted <==> status == "completed")
      && IsEmpty(p.value) == p.isEmpty
  {
  }

  /** With the status left at its default "in progress", no field is in the
      completed state. */
  lemma DefaultStatus(field: FieldDef, formData: FormData, touched: map<string, bool>, errors: map<string, string>,
                      unavailable: seq<string>)
    ensures !Props(field, formData, touched, errors, unavailable, "in progress").isCompleted
  {
  }

  /** An error entry stored by `validate` is shown once the field is
      touched. */
  lemma StoredErrorShown(schema: Schema, formData: FormData, custom: CustomCheck, touched: map<string, bool>,
                         field: FieldDef, unavailable: seq<string>, status: string)
    requires field.name in ErrorMap(schema, formData, custom)
    requires field.name in touched && touched[field.name]
    ensures Props(field, formData, touched, ErrorMap(schema, formData, custom), unavailable, status).showError
  {
  }

  /** `renderField(field)` */
  function RenderField(field: FieldDef, formData: FormData, touched: map<string, bool>, errors: map<string, string>,
                       unavailable: seq<string>, status: string): Control
  {
    var p := Props(field, formData, touched, errors, unavailable, status);
    match field.ftype
    case Text => TextControl(p, field.maxLength, field.placeholder)
    case TextArea => TextAreaControl(p, field.maxLength, field.placeholder, field.rows)
    case Number => NumberControl(p, field.min, field.max, field.placeholder)
    case Date => DateControl(p)
    case Time => TimeControl(p)
    case Radio => RadioControl(p, field.options)
    case Checkbox => CheckboxControl(p, field.options)
    case Signature => SignatureControl(p)
    case Readonly =>
      var v := Get(formData, field.name);
      ReadonlyView(field.labelText, if Truthy(v) then v else Str("\U{2014}"))
    case Unknown(_) => NoControl
  }

  /** A read-only field shows its value or "—", and a field of unknown type
      renders nothing; every other type gets its own control carrying the
      field's props and its options. */
  lemma RenderFieldSpec(field: FieldDef, formData: FormData, touched: map<string, bool>, errors: map<string, string>,
                        unavailable: seq<string>, status: string)
    ensures var c := RenderField(field, formData, touched, errors, unavailable, status);
      && (field.ftype.Unknown? <==> c == NoControl)
      && (field.ftype == Readonly ==>
            c.ReadonlyView? && c.caption == field.labelText
            && (Truthy(Get(formData, field.name)) ==> c.shown == Get(formData, field.name))
            && (!Truthy(Get(formData, field.name)) ==> c.shown == Str("\U{2014}")))
      && (!field.ftype.Unknown? && field.ftype != Readonly ==>
            !c.ReadonlyView? && c != NoControl
            && c.props == Props(field, formData, touched, errors, unavailable, status))
      && ((field.ftype == Radio || field.ftype == Checkbox) ==> c.options == field.options)
  {
  }

  /** A grid cell of the form: the field's key, whether it spans the full
      row, and its control. */
  datatype GridCell = GridCell(key: string, fullWidth: bool, control: Control)

  datatype RenderedSection = RenderedSection(title: string, cells: seq<GridCell>)

  function RenderCells(fields: seq<FieldDef>, formData: FormData, touched: map<string, bool>,
                       errors: map<string, string>, unavailable: seq<string>, status: string): (r: seq<GridCell>)
    ensures |r| == |fields|
  {
    if fields == [] then []
    else [GridCell(fields[0].name, fields[0].fullWidth,
                   RenderField(fields[0], formData, touched, errors, unavailable, status))]
         + RenderCells(fields[1..], formData, touched, errors, unavailable, status)
  }

  /** `FormRenderer(...)`: one titled section per schema section. */
  function Render(schema: Schema, formData: FormData, touched: map<string, bool>, errors: map<string, string>,
                  unavailable: seq<string>, status: string): seq<RenderedSection>
  {
    RenderSections(schema.sections, formData, touched, errors, unavailable, status)
  }

  function RenderSections(sections: seq<Section>, formData: FormData, touched: map<string, bool>,
                          errors: map<string, string>, unavailable: seq<string>, status: string)
    : (r: seq<RenderedSection>)
    ensures |r| == |sections|
    ensures forall k | 0 <= k < |sections| ::
      r[k] == RenderedSection(sections[k].title,
                              RenderCells(sections[k].fields, formData, touched, errors, unavailable, status))
  {
    if sections == [] then []
    else [RenderedSection(sections[0].title,
                          RenderCells(sections[0].fields, formData, touched, errors, unavailable, status))]
         + RenderSections(sections[1..], formData, touched, errors, unavailable, status)
  }

  function AllCells(sections: seq<RenderedSection>): seq<GridCell>
  {
    if sections == [] then [] else sections[0].cells + AllCells(sections[1..])
  }

  lemma {:induction false} RenderCellsAppend(a: seq<FieldDef>, b: seq<FieldDef>, formData: FormData,
                                            touched: map<string, bool>, errors: map<string, string>,
                                            unavailable: seq<string>, status: string)
    ensures RenderCells(a + b, formData, touched, errors, unavailable, status)
            == RenderCells(a, formData, touched, errors, unavailable, status)
               + RenderCells(b, formData, touched, errors, unavailable, status)
    decreases |a|
  {
    if a == [] {
      assert a + b == b;
    } else {
      assert (a + b)[1..] == a[1..] + b;
      RenderCellsAppend(a[1..], b, formData, touched, errors, unavailable, status);
    }
  }

  lemma {:induction false} CellsOfSections(sections: seq<Section>, formData: FormData, touched: map<string, bool>,
                                          errors: map<string, string>, unavailable: seq<string>, status: string)
    ensures AllCells(RenderSections(sections, formData, touched, errors, unavailable, status))
            == RenderCells(Flatten(sections), formData, touched, errors, unavailable, status)
    decreases |sections|
  {
    if sections != [] {
      CellsOfSections(sections[1..], formData, touched, errors, unavailable, status);
      assert RenderSections(sections, formData, touched, errors, unavailable, status)[1..]
             == RenderSections(sections[1..], formData, touched, errors, unavailable, status);
      RenderCellsAppend(sections[0].fields, Flatten(sections[1..]), formData, touched, errors, unavailable, status);
    }
  }

  lemma {:induction false} RenderCellsAt(fields: seq<FieldDef>, formData: FormData, touched: map<string, bool>,
                                        errors: map<string, string>, unavailable: seq<string>, status: string, k: nat)
    requires k < |fields|
    ensures RenderCells(fields, formData, touched, errors, unavailable, status)[k]
            == GridCell(fields[k].name, fields[k].fullWidth,
                        RenderField(fields[k], formData, touched, errors, unavailable, status))
    decreases k
  {
    if k > 0 {
      RenderCellsAt(fields[1..], formData, touched, errors, unavailable, status, k - 1);
    }
  }

  /** The form lays out one cell per schema field, in section order and then
      field order, each keyed by its field, spanning the row exactly for a
      full-width field and holding that field's control. */
  lemma RenderedCells(schema: Schema, formData: FormData, touched: map<string, bool>, errors: map<string, string>,
                      unavailable: seq<string>, status: string)
    ensures var cells, fields := AllCells(Render(schema, formData, touched, errors, unavailable, status)), AllFields(schema);
      && |cells| == |fields|
      && forall k | 0 <= k < |fields| ::
           && cells[k].key == fields[k].name
           && cells[k].fullWidth == fields[k].fullWidth
           && cells[k].control == RenderField(fields[k], formData, touched, errors, unavailable, status)
  {
    CellsOfSections(schema.sections, formData, touched, errors, unavailable, status);
    forall k | 0 <= k < |AllFields(schema)|
      ensures RenderCells(AllFields(schema), formData, touched, errors, unavailable, status)[k]
              == GridCell(AllFields(schema)[k].name, AllFields(schema)[k].fullWidth,
                          RenderField(AllFields(schema)[k], formData, touched, errors, unavailable, status))
    {
      RenderCellsAt(AllFields(schema), formData, touched, errors, unavailable, status, k);
    }
  }

  /** The screen form and the print view lay out the same cells in the same
      order: cell for cell the same field key and the same full-width
      span. */
  lemma ScreenMatchesPrint(schema: Schema, formData: FormData, touched: map<string, bool>,
                           errors: map<string, string>, unavailable: seq<string>, status: string)
    ensures var screen := AllCells(Render(schema, formData, touched, errors, unavailable, status));
            var printed := PrintRenderer.AllCells(PrintRenderer.PrintReport(schema, formData).sections);
      && |screen| == |printed|
      && forall k | 0 <= k < |screen| :: screen[k].key == printed[k].key && screen[k].fullWidth == printed[k].fullWidth
  {
    RenderedCells(schema, formData, touched, errors, unavailable, status);
    PrintRenderer.PrintedCells(schema, formData);
  }

  /** Each on-screen section carries its schema section's `title`, the
      same title the printed block carries, and holds the cells of that
      section's own fields. */
  lemma RenderedTitles(schema: Schema, formData: FormData, touched: map<string, bool>,
                       errors: map<string, string>, unavailable: seq<string>, status: string)
    ensures var screen := Render(schema, formData, touched, errors, unavailable, status);
            var printed := PrintRenderer.PrintReport(schema, formData).sections;
      && |screen| == |schema.sections| == |printed|
      && forall k | 0 <= k < |screen| ::
           && screen[k].title == schema.sections[k].title == printed[k].title
           && |screen[k].cells| == |schema.sections[k].fields|
           && forall i | 0 <= i < |screen[k].cells| :: screen[k].cells[i].key == schema.sections[k].fields[i].name
  {
    var screen := Render(schema, formData, touched, errors, unavailable, status);
    forall k, i | 0 <= k < |screen| && 0 <= i < |screen[k].cells|
      ensures screen[k].cells[i].key == schema.sections[k].fields[i].name
    {
      RenderCellsAt(schema.sections[k].fields, formData, touched, errors, unavailable, status, i);
    }
  }
}
