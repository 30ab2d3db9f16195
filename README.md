# Contact-form builder: the placement step

A model of the form builder in `imports/ui/FormBuilder.js`. The user drags a field
template from a palette (text, email, textarea, date, dropdown) onto a drop area. A
label dialog, a "required?" confirmation and, for a dropdown, an options dialog follow.
The new field is then appended to the form, and the form is shown as a live preview.

The model has five modules:

- `Wrappers` (`Wrappers.dfy`): `Option`, the value of a dialog that may be cancelled.
- `Strings` (`Strings.dfy`): the JavaScript built-ins used on the options answer.
  `Split` is `split(",")` and `Trim` is `trim()`. `Join` is the reference inverse of `Split`.
- `Fields` (`Fields.dfy`): the field types, the palette `availableFields` (`Catalog`),
  the field built by `handleDrop` (`NewField`) and the option parsing (`ParseOptions`).
- `Render` (`Render.dfy`): what `DroppableFormArea` decides for the current list.
  That is the placeholder, one view per field with its required marker and control,
  and the submit button.
- `Builder` (`Builder.dfy`): the component's state as a class `FormBuilder`. It holds
  the field list `fields: seq<Field>` and an id counter. `HandleDrop` checks the label,
  builds the field step by step, assigns the options of a dropdown and appends.

Modelling choices:

- The dialogs are parameters of `HandleDrop`. `labelAnswer` and `optionsAnswer` are
  `Option<string>`, where `None` is a cancelled `prompt`. `confirmRequired` is the
  answer to `window.confirm`.
- JavaScript truthiness of a dialog answer is `Truthy`: `null` and `""` are falsy.
  A label of only spaces is therefore accepted, as in the code.
- `uuidv4()` is the counter `nextId`, handed out by `FreshId`. Ids are then distinct
  by construction, and `Valid()` keeps that as an invariant.
- The field `type` is the closed datatype `FieldType`. `TypeName` gives the string the
  code stores, and the renderer still decides by comparing that string.
- The field named `label` in the code is `labelText` here, because `label` is a
  Dafny keyword.
- The label is whatever the label dialog returns. The template's label is only the
  dialog's pre-filled text, so it is not a fallback.
- The id is drawn before the options dialog is shown (line 75), not after it.
- The component asks the required question and shows the required marker.

## Model

| member | source | states |
|---|---|---|
| `Strings.TrimStart` | imports/ui/FormBuilder.js:80 | dropping leading whitespace never lengthens the input, and the result does not start with whitespace |
| `Strings.TrimStartSuffix` | imports/ui/FormBuilder.js:80 | what `TrimStart` keeps is a suffix of the input, and all it cuts off is whitespace |
| `Strings.TrimEnd` | imports/ui/FormBuilder.js:80 | dropping trailing whitespace never lengthens the input, and the result does not end with whitespace |
| `Strings.TrimEndPrefix` | imports/ui/FormBuilder.js:80 | what `TrimEnd` keeps is a prefix of the input, and all it cuts off is whitespace |
| `Strings.Trim` | imports/ui/FormBuilder.js:80 | `trim()` is never longer than its input and neither starts nor ends with whitespace, where whitespace (`IsWhitespace`) is ECMAScript's WhiteSpace and LineTerminator characters |
| `Strings.TrimUnique` | imports/ui/FormBuilder.js:80 | whitespace, then a core without surrounding whitespace, then whitespace: `trim` returns exactly that core |
| `Strings.TrimSlice` | imports/ui/FormBuilder.js:80 | `trim(s)` is a contiguous piece of `s`, with only whitespace cut off before and after it |
| `Strings.TrimOfTrimmed` | imports/ui/FormBuilder.js:80 | a string without whitespace at either end is unchanged by `trim` |
| `Strings.TrimIdempotent` | imports/ui/FormBuilder.js:80 | trimming a trimmed string changes nothing |
| `Strings.Split` | imports/ui/FormBuilder.js:80 | `split(",")` gives at least one piece (`""` gives `[""]`), and no piece contains the separator |
| `Strings.SplitCount` | imports/ui/FormBuilder.js:80 | there is exactly one piece more than there are separators in the input |
| `Strings.JoinSplit` | imports/ui/FormBuilder.js:80 | joining the pieces with the separator gives back the input, so splitting loses and reorders nothing |
| `Strings.SplitJoin` | imports/ui/FormBuilder.js:80 | joining separator-free pieces and splitting again gives back those pieces, empty ones included |
| `Fields.TypeNameInjective` | imports/ui/FormBuilder.js:48-57 | two type strings (`TypeName`, the strings stored at lines 87-91) are equal iff the types are, so the renderer's string tests tell the kinds apart |
| `Fields.CatalogKinds` | imports/ui/FormBuilder.js:86-92 | the palette `availableFields` (`Catalog`) has five templates, text, email, textarea, date and select, in that order, each type once |
| `Fields.CatalogOptions` | imports/ui/FormBuilder.js:86-92 | in the palette (`Catalog`), exactly the select template carries options, and they are "Option 1", "Option 2", "Option 3" |
| `Fields.ParseOptions` | imports/ui/FormBuilder.js:80 | a cancelled or empty answer (not `Truthy`, as `optionsInput ?` tests) gives `[]`; otherwise one option per comma-separated piece, in order, each the trimmed piece |
| `Fields.ParseOptionsCount` | imports/ui/FormBuilder.js:80 | a non-empty answer gives one option more than it has commas |
| `Fields.ParsedOptionsClean` | imports/ui/FormBuilder.js:80 | no parsed option contains a comma or has whitespace at either end |
| `Fields.ParseOptionsJoin` | imports/ui/FormBuilder.js:80 | when no piece has surrounding whitespace, the options joined with commas give back the answer |
| `Fields.ParseOptionsOfPieces` | imports/ui/FormBuilder.js:80 | comma-free pieces joined by commas parse to those pieces, each trimmed, in the same number and order |
| `Fields.ParseOptionsStripsPadding` | imports/ui/FormBuilder.js:80 | any whitespace typed around each option is dropped, and the options come out as typed, in order, empty ones kept |
| `Fields.ParseOptionsExample` | imports/ui/FormBuilder.js:80 | `"A, B ,C"` parses to `["A", "B", "C"]` |
| `Fields.ParseOptionsKeepsEmpty` | imports/ui/FormBuilder.js:80 | `"A,,B"` parses to `["A", "", "B"]`: empty pieces are not dropped |
| `Fields.DefaultAnswerLayout` | imports/ui/FormBuilder.js:79-91 | the options dialog's pre-filled text is the select template's default options joined by commas, with a space before the second and third |
| `Fields.ParseOptionsDefaultAnswer` | imports/ui/FormBuilder.js:79-80 | accepting the dialog's pre-filled answer gives the select template's default options |
| `Fields.NewField` | imports/ui/FormBuilder.js:75-81 | the new field keeps the template's type and takes the given label, required flag and id; a select gets the parsed options, any other type keeps the template's options |
| `Fields.NonSelectIgnoresOptionsAnswer` | imports/ui/FormBuilder.js:78-81 | for a non-select template the options answer has no effect, since that dialog is not shown |
| `Fields.CatalogFieldOptions` | imports/ui/FormBuilder.js:75-92 | a field placed from the palette carries options iff it is a select |
| `Render.ControlFor` | imports/ui/FormBuilder.js:48-58 | `"textarea"` gives a textarea and `"select"` a choice control listing the options in order; every other type gives an input of that type, never "textarea" or "select"; each control is marked required iff the field is |
| `Render.RenderField` | imports/ui/FormBuilder.js:43-58 | a field's view is keyed by its id and labelled by its label, and shows the required marker iff the field is required |
| `Render.RenderItems` | imports/ui/FormBuilder.js:43-60 | one view per field, in list order |
| `Render.RenderArea` | imports/ui/FormBuilder.js:42-61 | the placeholder is shown iff the list is empty and the submit button iff it is non-empty |
| `Render.PlaceholderXorSubmit` | imports/ui/FormBuilder.js:42-61 | exactly one of the placeholder and the submit button is shown; the placeholder iff no field is listed |
| `Render.RequiredMarkerShown` | imports/ui/FormBuilder.js:45-57 | each listed field shows the marker, and its control is required, iff the field is required |
| `Render.SelectListsOptions` | imports/ui/FormBuilder.js:50-55 | a select field's control lists exactly its options, in order |
| `Render.KeysDistinct` | imports/ui/FormBuilder.js:43-44 | distinct field ids give distinct React keys |
| `Render.RenderAfterAppend` | imports/ui/FormBuilder.js:42-61 | after an append, the earlier views are unchanged, the new field is shown last, the placeholder is gone and the submit button is shown |
| `Builder.FormBuilder.constructor` | imports/ui/FormBuilder.js:67 | the form starts with no fields, in a valid state |
| `Builder.FormBuilder.FreshId` | imports/ui/FormBuilder.js:75 | the id source hands out an id it has not handed out before and moves on |
| `Builder.FormBuilder.HandleDrop` | imports/ui/FormBuilder.js:69-84 | a cancelled or empty label (not `Truthy`, the `!label` test at line 71) leaves the fields and the id source unchanged. Otherwise exactly the new field (type from the template, label, required flag, fresh id, options) is appended last, and earlier fields are unchanged and in order. Distinct ids, non-empty labels and options on every select are preserved |

## Left out

- React state scheduling (`useState`, `setFields` with an updater) and re-rendering. `HandleDrop` assigns the new list directly.
- Drag and drop through react-dnd (`useDrag`, `useDrop`, monitors) and the dragging/hover visual states (lines 7-34). This is a foreign library and presentation only. The drop handler is modelled as a direct call of `HandleDrop` with the dropped template.
- The palette's rendering of `DraggableField` (each template's label in a box, lines 16-24, 94-111). This is presentation only.
- The dialogs `prompt` and `window.confirm`. These are I/O and become parameters, including their pre-filled texts. In the code the confirmation is asked only after a label is accepted; the model takes its answer as a parameter and ignores it on abort.
- `uuidv4()`. This is a foreign source of randomness, replaced by the counter `nextId`.
- Strings are sequences of Unicode scalar values, not UTF-16 code units. Splitting on `,` and trimming only involve characters of the Basic Multilingual Plane, so results agree.
- The whitespace that `trim` removes is listed as ECMAScript's WhiteSpace and LineTerminator characters, with the "Zs" space separators of current Unicode. A later Unicode version could add to that category.
- CSS classes, styles and layout, and the `required` HTML attribute's effect on browser validation. The submit button has no handler.
- `client/main.jsx` and `imports/ui/App.jsx`: application start-up and provider wiring, with no logic.
