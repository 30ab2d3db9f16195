/**
 * The `FormBuilder` component (imports/ui/FormBuilder.js): the list of placed fields
 * it holds in state, and `handleDrop`, which runs when a palette entry is dropped on
 * the form. The three browser dialogs become parameters, and the `uuidv4()` id source
 * becomes a counter owned by the builder.
 */
module Builder {
  import opened Wrappers
  import opened Fields

  class FormBuilder {
    /** The placed fields, in display order. */
    var fields: seq<Field>
    /** The next id the id source hands out; every id handed out so far is below it. */
    var nextId: nat

    /**
     * What every reachable state satisfies: ids come from the id source and are pairwise
     * distinct, every label is non-empty, and every dropdown has its option list.
     */
    ghost predicate Valid()
      reads this
    {
      IdsBelow(fields, nextId) &&
      DistinctIds(fields) &&
      AllHaveOptionsIfSelect(fields) &&
      forall i :: 0 <= i < |fields| ==> fields[i].labelText != []
    }

    /** `useState([])`: the form starts with no fields. */
    constructor ()
      ensures Valid()
      ensures fields == [] && nextId == 0
    {
      fields := [];
      nextId := 0;
    }

    /** `uuidv4()`: an id never handed out before. */
    method FreshId() returns (id: nat)
      modifies this`nextId
      ensures id == old(nextId) && nextId == old(nextId) + 1
    {
      id := nextId;
      nextId := nextId + 1;
    }

    /**
     * `handleDrop(template)`. `labelAnswer` is what the label dialog returns (`None` when
     * cancelled), `confirmRequired` the answer to "Is this field required?", and
     * `optionsAnswer` what the options dialog returns, consulted only for a dropdown.
     * A cancelled or empty label aborts: nothing changes and no id is used. Otherwise
     * exactly one new field is appended after the existing ones.
     */
    method HandleDrop(template: Template, labelAnswer: Option<string>, confirmRequired: bool, optionsAnswer: Option<string>)
      requires Valid()
      modifies this
      ensures Valid()
      ensures !Truthy(labelAnswer) ==> fields == old(fields) && nextId == old(nextId)
      ensures Truthy(labelAnswer) ==>
        fields == old(fields) + [NewField(template, labelAnswer.value, confirmRequired, old(nextId), optionsAnswer)] &&
        nextId == old(nextId) + 1
      ensures template in Catalog() && OptionsOnlyOnSelect(old(fields)) ==> OptionsOnlyOnSelect(fields)
    {
      if !Truthy(labelAnswer) {
        return;
      }
      var labelText := labelAnswer.value;
      var isRequired := confirmRequired;
      var id := FreshId();
      var newField := Field(template.kind, labelText, isRequired, id, template.options);
      if template.kind == Select {
        newField := newField.(options := Some(ParseOptions(optionsAnswer)));
      }
      if template in Catalog() {
        CatalogFieldOptions(template, labelText, isRequired, id, optionsAnswer);
      }
      fields := fields + [newField];
    }
  }
}
