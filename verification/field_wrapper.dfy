/** The wrapper around every form control: the highlight of an empty field
    on a completed report, and the clickable label with its struck-through
    state, tooltip and required star. */
module FieldWrapper {

  /** The label element: its text, whether it is struck through and grey,
      its tooltip, and whether the red star follows it. */
  datatype LabelView = LabelView(text: string, struckThrough: bool, tooltip: string, star: bool)

  datatype Wrapper = Wrapper(highlight: bool, labelView: seq<LabelView>)

  const MarkAvailable := "Click to mark as available"
  const MarkUnavailable := "Click to mark as unavailable"

  /** `FieldWrapper({ label, required, isUnavailable, isEmpty, isCompleted })`;
      `labelView` is empty when no label element is produced. */
  function Wrap(labelText: string, required: bool, isUnavailable: bool, isEmpty: bool, isCompleted: bool): Wrapper
  {
    var shouldHighlight := isCompleted && isEmpty && !isUnavailable;
    Wrapper(shouldHighlight,
      if labelText == "" then []
      else [LabelView(labelText, isUnavailable,
                      if isUnavailable then MarkAvailable else MarkUnavailable,
                      required && !isUnavailable)])
  }

  /** The highlight marks exactly the empty, available fields of a report
      whose status is completed; being patient-required plays no part. */
  lemma HighlightIff(labelText: string, required: bool, isUnavailable: bool, isEmpty: bool, isCompleted: bool)
    ensures Wrap(labelText, required, isUnavailable, isEmpty, isCompleted).highlight
            <==> isCompleted && isEmpty && !isUnavailable
    ensures Wrap(labelText, true, isUnavailable, isEmpty, isCompleted).highlight
            == Wrap(labelText, false, isUnavailable, isEmpty, isCompleted).highlight
  {
  }

  /** A non-empty label yields one label element: struck through exactly
      when the field is unavailable, offering the opposite availability in
      its tooltip, starred exactly when required and available. An empty
      label yields no element. */
  lemma LabelState(labelText: string, required: bool, isUnavailable: bool, isEmpty: bool, isCompleted: bool)
    ensures var w := Wrap(labelText, required, isUnavailable, isEmpty, isCompleted);
      && (labelText == "" <==> w.labelView == [])
      && (labelText != "" ==>
            && |w.labelView| == 1
            && w.labelView[0].text == labelText
            && w.labelView[0].struckThrough == isUnavailable
            && (w.labelView[0].tooltip == MarkAvailable <==> isUnavailable)
            && (w.labelView[0].tooltip == MarkUnavailable <==> !isUnavailable)
            && (w.labelView[0].star <==> required && !isUnavailable))
  {
  }

  /** Marking a field unavailable removes its star and its highlight. */
  lemma UnavailableQuiet(labelText: string, required: bool, isEmpty: bool, isCompleted: bool)
    ensures !Wrap(labelText, required, true, isEmpty, isCompleted).highlight
    ensures forall v | v in Wrap(labelText, required, true, isEmpty, isCompleted).labelView :: !v.star
  {
  }
}
