/**
 * What `DroppableFormArea` (imports/ui/FormBuilder.js) shows for the current list of
 * placed fields: an empty-state placeholder, one labelled control per field, and a
 * submit button. Only the decisions are modelled, not markup or styling.
 */
module Render {
  import opened Wrappers
  import opened Fields

  /** The form control shown for one field; each carries the field's `required` attribute. */
  datatype Control =
    | InputControl(inputType: string, required: bool)
    | TextareaControl(required: bool)
    | SelectControl(required: bool, options: seq<string>)

  /** One rendered field: its React key, its label text, whether the red `*` marker is shown, and its control. */
  datatype FieldView = FieldView(key: nat, caption: string, requiredMarker: bool, control: Control)

  /** The drop area: whether the "Drag elements here..." placeholder is shown, the fields, whether the submit button is shown. */
  datatype AreaView = AreaView(placeholder: bool, items: seq<FieldView>, submitButton: bool)

  /**
   * The control chosen by comparing the field's type string: `"textarea"` gives a
   * textarea, `"select"` a dropdown listing the options in order, any other type an
   * `<input>` whose HTML type is the type string.
   */
  function ControlFor(f: Field): (c: Control)
    requires HasOptionsIfSelect(f)
    ensures c.required == f.required
    ensures c.TextareaControl? <==> f.kind == Textarea
    ensures c.SelectControl? <==> f.kind == Select
    ensures c.SelectControl? ==> c.options == f.options.value
    ensures c.InputControl? ==> c.inputType == TypeName(f.kind) && c.inputType != "textarea" && c.inputType != "select"
  {
    var name := TypeName(f.kind);
    if name == "textarea" then TextareaControl(f.required)
    else if name == "select" then SelectControl(f.required, f.options.value)
    else InputControl(name, f.required)
  }

  /** One field as shown: keyed by its id, labelled by its label, marked when required. */
  function RenderField(f: Field): (v: FieldView)
    requires HasOptionsIfSelect(f)
    ensures v.key == f.id && v.caption == f.labelText
    ensures v.requiredMarker <==> f.required
    ensures v.control == ControlFor(f)
  {
    FieldView(f.id, f.labelText, f.required, ControlFor(f))
  }

  /** `fields.map(...)`: one view per field, in list order. */
  function RenderItems(fields: seq<Field>): (vs: seq<FieldView>)
    requires AllHaveOptionsIfSelect(fields)
    ensures |vs| == |fields|
    ensures forall i :: 0 <= i < |fields| ==> vs[i] == RenderField(fields[i])
  {
    if fields == [] then [] else [RenderField(fields[0])] + RenderItems(fields[1..])
  }

  /** The whole drop area for the current list of fields. */
  function RenderArea(fields: seq<Field>): (v: AreaView)
    requires AllHaveOptionsIfSelect(fields)
    ensures v.placeholder <==> fields == []
    ensures v.submitButton <==> fields != []
    ensures v.items == RenderItems(fields)
  {
    AreaView(|fields| == 0, RenderItems(fields), |fields| > 0)
  }

  /** Exactly one of the placeholder and the submit button is shown, and the placeholder exactly when no field is listed. */
  lemma PlaceholderXorSubmit(fields: seq<Field>)
    requires AllHaveOptionsIfSelect(fields)
    ensures RenderArea(fields).placeholder != RenderArea(fields).submitButton
    ensures RenderArea(fields).placeholder <==> RenderArea(fields).items == []
  {
  }

  /** Each listed field shows the required marker, and marks its control required, exactly when the field is required. */
  lemma RequiredMarkerShown(fields: seq<Field>, i: nat)
    requires AllHaveOptionsIfSelect(fields)
    requires i < |fields|
    ensures RenderArea(fields).items[i].requiredMarker <==> fields[i].required
    ensures RenderArea(fields).items[i].control.required == fields[i].required
  {
  }

  /** A dropdown lists exactly its options, in order. */
  lemma SelectListsOptions(fields: seq<Field>, i: nat)
    requires AllHaveOptionsIfSelect(fields)
    requires i < |fields| && fields[i].kind == Select
    ensures RenderArea(fields).items[i].control == SelectControl(fields[i].required, fields[i].options.value)
  {
  }

  /** Distinct field ids give distinct React keys, in the same order as the fields. */
  lemma KeysDistinct(fields: seq<Field>)
    requires AllHaveOptionsIfSelect(fields)
    requires DistinctIds(fields)
    ensures forall i, j :: 0 <= i < j < |fields| ==> RenderArea(fields).items[i].key != RenderArea(fields).items[j].key
  {
  }

  /**
   * Appending a field (what a successful drop does) leaves the views of the earlier
   * fields as they were and shows the new field last; the placeholder is gone and the
   * submit button shown.
   */
  lemma RenderAfterAppend(fields: seq<Field>, f: Field)
    requires AllHaveOptionsIfSelect(fields) && HasOptionsIfSelect(f)
    ensures AllHaveOptionsIfSelect(fields + [f])
    ensures RenderArea(fields + [f]).items == RenderArea(fields).items + [RenderField(f)]
    ensures !RenderArea(fields + [f]).placeholder && RenderArea(fields + [f]).submitButton
  {
    var all := fields + [f];
    assert forall i :: 0 <= i < |fields| ==> all[i] == fields[i];
    assert all[|fields|] == f;
  }
}
