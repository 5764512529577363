/** One cell of the printed report: its label, with an "(NA)" suffix for an
    unavailable field, and its value as the print shows it. */
module PrintField {
  import opened FormValues
  import opened FormSchema

  /** What the value slot of a printed cell shows. */
  datatype Printed =
    | EmDash                 // the "—" placeholder
    | Joined(text: string)   // a checkbox array, joined with ", "
    | Image(src: Value)      // a signature, as an image whose source is the value
    | TextBlock(body: Value) // a text area, in a block keeping line breaks
    | Raw(shown: Value)      // any other value, as stored

  /** `renderValue()` */
  function RenderValue(value: Value, ftype: FieldType, isUnavailable: bool): Printed
  {
    if isUnavailable then EmDash
    else if !Truthy(value) || (value.List? && |value.items| == 0) then EmDash
    else
      match ftype
      case Checkbox => if value.List? then Joined(Join(value.items, ", ")) else Raw(value)
      case Signature => Image(value)
      case TextArea => TextBlock(value)
      case _ => Raw(value)
  }

  /** The placeholder appears exactly for an unavailable field, a falsy
      value or an empty array; whatever the type, nothing else prints it. */
  lemma EmDashIff(value: Value, ftype: FieldType, isUnavailable: bool)
    ensures RenderValue(value, ftype, isUnavailable) == EmDash
            <==> isUnavailable || !Truthy(value) || value == List([])
  {
  }

  /** An available, non-empty value prints by type: a checkbox array as its
      stored values joined by ", " (not the option labels), a signature as
      an image of the value, a text area as a block, any other type as is. */
  lemma PrintsByType(value: Value, ftype: FieldType)
    requires Truthy(value) && value != List([])
    ensures ftype == Checkbox && value.List? ==> RenderValue(value, ftype, false) == Joined(Join(value.items, ", "))
    ensures ftype == Signature ==> RenderValue(value, ftype, false) == Image(value)
    ensures ftype == TextArea ==> RenderValue(value, ftype, false) == TextBlock(value)
    ensures ftype != Checkbox && ftype != Signature && ftype != TextArea ==> RenderValue(value, ftype, false) == Raw(value)
  {
  }

  /** Ticking one more box adds ", " and its value at the end of the
      printed list: the print follows the stored order. */
  lemma JoinedOrder(items: seq<string>, x: string)
    requires items != []
    ensures RenderValue(List(items + [x]), Checkbox, false)
            == Joined(Join(items, ", ") + ", " + x)
  {
    JoinSnoc(items, x, ", ");
  }

  /** The print does not trim: a whitespace-only text prints as itself, even
      though completion counts it as empty. */
  lemma BlankTextPrints()
    ensures IsEmpty(Str(" ")) && RenderValue(Str(" "), Text, false) == Raw(Str(" "))
  {
    IsEmptyIff(Str(" "));
  }

  /** The label line, with " (NA)" appended for an unavailable field. */
  function PrintLabel(labelText: string, isUnavailable: bool): (r: string)
    ensures |r| == |labelText| + (if isUnavailable then 5 else 0)
    ensures r[..|labelText|] == labelText
    ensures isUnavailable ==> r[|labelText|..] == " (NA)"
  {
    labelText + (if isUnavailable then " (NA)" else "")
  }

  /** The rendered cell: label line, whether the label takes the
      unavailable style, and the value slot. */
  datatype Cell = Cell(labelLine: string, unavailableStyle: bool, value: Printed)

  /** `PrintField({ label, value, type, isUnavailable })` */
  function PrintFieldCell(labelText: string, value: Value, ftype: FieldType, isUnavailable: bool): (c: Cell)
    ensures c.unavailableStyle == isUnavailable
    ensures isUnavailable ==> c.value == EmDash && c.labelLine == labelText + " (NA)"
    ensures !isUnavailable ==> c.labelLine == labelText
  {
    Cell(PrintLabel(labelText, isUnavailable), isUnavailable, RenderValue(value, ftype, isUnavailable))
  }
}
