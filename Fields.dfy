/**
 * The field templates of the palette and the fields placed on the form
 * (imports/ui/FormBuilder.js): the catalog `availableFields`, the construction of
 * `newField` in `handleDrop`, and the parsing of a dropdown's option list.
 */
module Fields {
  import opened Wrappers
  import opened Strings

  /** The `type` of a field; the catalog offers exactly these five. */
  datatype FieldType = Text | Email | Textarea | Date | Select

  /** The string the component stores in `type`, which is also the HTML input type used when rendering. */
  function TypeName(t: FieldType): (name: string)
  {
    match t
    case Text => "text"
    case Email => "email"
    case Textarea => "textarea"
    case Date => "date"
    case Select => "select"
  }

  /** A palette entry: `{ type, label, options? }`. */
  datatype Template = Template(kind: FieldType, labelText: string, options: Option<seq<string>>)

  /** A placed field: the template's properties, overridden by `label`, `required`, `id` and, for a dropdown, `options`. */
  datatype Field = Field(kind: FieldType, labelText: string, required: bool, id: nat, options: Option<seq<string>>)

  /** The default option list of the dropdown template. */
  const DefaultOptions: seq<string> := ["Option 1", "Option 2", "Option 3"]

  /** The answer the options dialog is pre-filled with. */
  const DefaultOptionsAnswer: string := "Option 1, Option 2, Option 3"

  /** `availableFields`: the palette, in display order. */
  function Catalog(): (templates: seq<Template>)
  {
    [ Template(Text, "Text Input", None),
      Template(Email, "Email Input", None),
      Template(Textarea, "Textarea", None),
      Template(Date, "Date Input", None),
      Template(Select, "Dropdown", Some(DefaultOptions)) ]
  }

  /** JavaScript truthiness of a dialog's answer: `null` (cancelled) and `""` are falsy. */
  predicate Truthy(answer: Option<string>)
  {
    answer.Some? && answer.value != []
  }

  /**
   * `optionsInput ? optionsInput.split(",").map(opt => opt.trim()) : []`: a cancelled or
   * empty answer gives no options; otherwise one option per comma-separated piece,
   * trimmed, in order, empty pieces kept.
   */
  function ParseOptions(answer: Option<string>): (opts: seq<string>)
    ensures !Truthy(answer) ==> opts == []
    ensures Truthy(answer) ==>
      |opts| == |Split(answer.value, ',')| &&
      forall i :: 0 <= i < |opts| ==> opts[i] == Trim(Split(answer.value, ',')[i])
  {
    if !Truthy(answer) then []
    else
      var pieces := Split(answer.value, ',');
      seq(|pieces|, i requires 0 <= i < |pieces| => Trim(pieces[i]))
  }

  /**
   * The field `handleDrop` appends for a confirmed `label`: `{ ...template, label,
   * required, id }`, whose `options` a dropdown then replaces by the parsed answer to
   * the options dialog.
   */
  function NewField(template: Template, labelText: string, required: bool, id: nat, optionsAnswer: Option<string>): (f: Field)
    ensures f.kind == template.kind && f.labelText == labelText && f.required == required && f.id == id
    ensures template.kind == Select ==> f.options == Some(ParseOptions(optionsAnswer))
    ensures template.kind != Select ==> f.options == template.options
  {
    var f := Field(template.kind, labelText, required, id, template.options);
    if template.kind == Select then f.(options := Some(ParseOptions(optionsAnswer))) else f
  }

  /** A dropdown field always carries its option list (rendering reads it unconditionally). */
  predicate HasOptionsIfSelect(f: Field)
  {
    f.kind == Select ==> f.options.Some?
  }

  /** Every dropdown in `fields` carries its option list. */
  predicate AllHaveOptionsIfSelect(fields: seq<Field>)
  {
    forall i :: 0 <= i < |fields| ==> HasOptionsIfSelect(fields[i])
  }

  /** Only dropdowns in `fields` carry an option list (true of every field placed from the palette). */
  predicate OptionsOnlyOnSelect(fields: seq<Field>)
  {
    forall i :: 0 <= i < |fields| ==> (fields[i].options.Some? <==> fields[i].kind == Select)
  }

  /** The ids of `fields` are pairwise distinct. */
  predicate DistinctIds(fields: seq<Field>)
  {
    forall i, j :: 0 <= i < j < |fields| ==> fields[i].id != fields[j].id
  }

  /** Every id in `fields` was drawn before the id source reached `next`. */
  predicate IdsBelow(fields: seq<Field>, next: nat)
  {
    forall i :: 0 <= i < |fields| ==> fields[i].id < next
  }

  // ---- Properties of the catalog ----

  /** The palette has five entries, one per field type, in the order text, email, textarea, date, select. */
  lemma CatalogKinds()
    ensures |Catalog()| == 5
    ensures Catalog()[0].kind == Text && Catalog()[1].kind == Email && Catalog()[2].kind == Textarea
    ensures Catalog()[3].kind == Date && Catalog()[4].kind == Select
    ensures forall i, j :: 0 <= i < j < |Catalog()| ==> Catalog()[i].kind != Catalog()[j].kind
  {
  }

  /** Only the dropdown template carries options, and they are the three default ones. */
  lemma CatalogOptions()
    ensures forall t :: t in Catalog() ==> (t.options.Some? <==> t.kind == Select)
    ensures forall t :: t in Catalog() && t.kind == Select ==> t.options == Some(DefaultOptions)
  {
  }

  /** The type strings are distinct, so the renderer's string comparisons on `type` tell the kinds apart. */
  lemma TypeNameInjective(s: FieldType, t: FieldType)
    ensures TypeName(s) == TypeName(t) <==> s == t
  {
  }

  /** A field placed from a palette entry carries options exactly when it is a dropdown. */
  lemma CatalogFieldOptions(template: Template, labelText: string, required: bool, id: nat, optionsAnswer: Option<string>)
    requires template in Catalog()
    ensures var f := NewField(template, labelText, required, id, optionsAnswer);
      HasOptionsIfSelect(f) && (f.options.Some? <==> f.kind == Select)
  {
    CatalogOptions();
  }

  /** Outside a dropdown the answer to the options dialog plays no part: that dialog is not shown. */
  lemma NonSelectIgnoresOptionsAnswer(template: Template, labelText: string, required: bool, id: nat, a: Option<string>, b: Option<string>)
    requires template.kind != Select
    ensures NewField(template, labelText, required, id, a) == NewField(template, labelText, required, id, b)
  {
  }

  // ---- Properties of option parsing ----

  /** A non-empty answer gives one option more than it has commas. */
  lemma {:induction false} ParseOptionsCount(answer: string)
    requires answer != []
    ensures |ParseOptions(Some(answer))| == multiset(answer)[','] + 1
  {
    SplitCount(answer, ',');
  }

  /** Parsed options contain no comma and have no surrounding whitespace. */
  lemma {:induction false} ParsedOptionsClean(answer: Option<string>)
    ensures forall i :: 0 <= i < |ParseOptions(answer)| ==>
      ',' !in ParseOptions(answer)[i] && Trimmed(ParseOptions(answer)[i])
  {
    var opts := ParseOptions(answer);
    if Truthy(answer) {
      var pieces := Split(answer.value, ',');
      forall i | 0 <= i < |opts| ensures ',' !in opts[i] {
        TrimSlice(pieces[i]);
        var lo := |pieces[i]| - |TrimStart(pieces[i])|;
        assert opts[i] == pieces[i][lo..lo + |opts[i]|];
        assert forall k :: 0 <= k < |opts[i]| ==> opts[i][k] == pieces[i][lo + k];
      }
    }
  }

  /**
   * When no piece of the answer has whitespace around it, the parsed options joined
   * with commas give back the answer.
   */
  lemma {:induction false} ParseOptionsJoin(answer: string)
    requires answer != []
    requires forall p :: p in Split(answer, ',') ==> Trimmed(p)
    ensures |ParseOptions(Some(answer))| >= 1
    ensures Join(ParseOptions(Some(answer)), ',') == answer
  {
    var pieces := Split(answer, ',');
    var opts := ParseOptions(Some(answer));
    forall i | 0 <= i < |pieces| ensures opts[i] == pieces[i] {
      assert pieces[i] in pieces;
      assert [] + pieces[i] + [] == pieces[i];
      TrimUnique([], pieces[i], []);
    }
    assert opts == pieces;
    JoinSplit(answer, ',');
  }

  /** Options typed as separator-free pieces joined by commas parse to those pieces, each trimmed. */
  lemma {:induction false} ParseOptionsOfPieces(pieces: seq<string>)
    requires |pieces| >= 1
    requires forall i :: 0 <= i < |pieces| ==> ',' !in pieces[i]
    requires Join(pieces, ',') != []
    ensures |ParseOptions(Some(Join(pieces, ',')))| == |pieces|
    ensures forall i :: 0 <= i < |pieces| ==> ParseOptions(Some(Join(pieces, ',')))[i] == Trim(pieces[i])
  {
    SplitJoin(pieces, ',');
  }

  /** Each piece with its own whitespace before and after it. */
  function Padded(before: seq<string>, pieces: seq<string>, after: seq<string>): seq<string>
    requires |before| == |pieces| == |after|
  {
    seq(|pieces|, i requires 0 <= i < |pieces| => before[i] + pieces[i] + after[i])
  }

  /**
   * Whatever whitespace the user types around each option is dropped, and the options
   * come out as typed, in order, empty ones included.
   */
  lemma {:induction false} ParseOptionsStripsPadding(before: seq<string>, pieces: seq<string>, after: seq<string>)
    requires |pieces| >= 1 && |before| == |pieces| == |after|
    requires forall i :: 0 <= i < |pieces| ==> AllWhitespace(before[i]) && AllWhitespace(after[i])
    requires forall i :: 0 <= i < |pieces| ==> ',' !in pieces[i] && Trimmed(pieces[i])
    requires Join(Padded(before, pieces, after), ',') != []
    ensures ParseOptions(Some(Join(Padded(before, pieces, after), ','))) == pieces
  {
    var padded := Padded(before, pieces, after);
    forall i | 0 <= i < |pieces| ensures ',' !in padded[i] && Trim(padded[i]) == pieces[i] {
      TrimUnique(before[i], pieces[i], after[i]);
      assert !IsWhitespace(',');
      assert forall k :: 0 <= k < |before[i]| ==> before[i][k] != ',';
      assert forall k :: 0 <= k < |after[i]| ==> after[i][k] != ',';
    }
    ParseOptionsOfPieces(padded);
  }

  /**
   * Worked example: whitespace around the options is removed and their order kept.
   * The answer is a parameter fixed by `requires` rather than a literal in the
   * `ensures`, where a literal string makes the solver unfold `Split` eagerly.
   */
  lemma {:induction false} ParseOptionsExample(answer: string)
    requires answer == "A, B ,C"
    ensures ParseOptions(Some(answer)) == ["A", "B", "C"]
  {
    var before, pieces, after := ["", " ", ""], ["A", "B", "C"], ["", " ", ""];
    assert Join(Padded(before, pieces, after), ',') == answer by {
      assert "" + "A" + "" == "A" && " " + "B" + " " == " B " && "" + "C" + "" == "C";
      var padded := Padded(before, pieces, after);
      assert padded == [padded[0], padded[1], padded[2]];
      assert padded == ["A", " B ", "C"];
      assert Join(["A", " B ", "C"], ',') == answer;
    }
    ParseOptionsStripsPadding(before, pieces, after);
  }

  /**
   * Worked example: empty pieces are kept as empty options.
   * The answer is a parameter fixed by `requires` rather than a literal in the
   * `ensures`, where a literal string makes the solver unfold `Split` eagerly.
   */
  lemma {:induction false} ParseOptionsKeepsEmpty(answer: string)
    requires answer == "A,,B"
    ensures ParseOptions(Some(answer)) == ["A", "", "B"]
  {
    var none, pieces := ["", "", ""], ["A", "", "B"];
    assert Join(Padded(none, pieces, none), ',') == answer by {
      assert "" + "A" + "" == "A" && "" + "" + "" == "" && "" + "B" + "" == "B";
      var padded := Padded(none, pieces, none);
      assert padded == [padded[0], padded[1], padded[2]];
      assert padded == pieces;
      assert Join(pieces, ',') == answer;
    }
    ParseOptionsStripsPadding(none, pieces, none);
  }

  /** The options dialog's pre-filled answer is the default options, with a space before the second and third. */
  lemma {:induction false} DefaultAnswerLayout()
    ensures Join(Padded(["", " ", " "], DefaultOptions, ["", "", ""]), ',') == DefaultOptionsAnswer
  {
    var padded := ["Option 1", " Option 2", " Option 3"];
    assert Padded(["", " ", " "], DefaultOptions, ["", "", ""]) == padded by {
      assert "" + "Option 1" + "" == "Option 1";
      assert " " + "Option 2" + "" == " Option 2";
      assert " " + "Option 3" + "" == " Option 3";
    }
  }

  /**
   * Accepting the options dialog's pre-filled answer gives the dropdown template's default options.
   * The answer is a parameter fixed by `requires` rather than a literal in the
   * `ensures`, where a literal string makes the solver unfold `Split` eagerly.
   */
  lemma {:induction false} ParseOptionsDefaultAnswer(answer: string)
    requires answer == DefaultOptionsAnswer
    ensures ParseOptions(Some(answer)) == DefaultOptions
  {
    DefaultAnswerLayout();
    ParseOptionsStripsPadding(["", " ", " "], DefaultOptions, ["", "", ""]);
  }
}
