/** src/multiselect_field.rs: `MultiselectField<T>`, a field filled by the
    multiple-choice widget. */
module MultiselectFields {
  import opened Wrappers
  import opened Values
  import opened Terminal
  import opened Fields

  class MultiselectField {
    const prompt: string
    const ty: Ty
    const options: seq<(Value, string)>
    const limit: Option<nat>
    var value: seq<Value>

    /** The option values and the chosen values are of the field's type. */
    predicate Valid()
      reads this
    {
      (forall i :: 0 <= i < |options| ==> HasType(options[i].0, ty)) &&
      (forall i :: 0 <= i < |value| ==> HasType(value[i], ty))
    }

    /** The struct literal of `FormBuilder::add_multiselect`: nothing
        chosen, the limit kept as given. */
    constructor(prompt: string, ty: Ty, options: seq<(Value, string)>, limit: Option<nat>)
      requires forall i :: 0 <= i < |options| ==> HasType(options[i].0, ty)
      ensures this.prompt == prompt && this.ty == ty && this.options == options && this.limit == limit
      ensures value == [] && Valid()
    {
      this.prompt := prompt;
      this.ty := ty;
      this.options := options;
      this.limit := limit;
      value := [];
    }

    /** `FieldTrait::fill`: the committed selection replaces the whole
        value; a read error is returned before anything is stored. */
    method Fill(input: seq<Input>) returns (r: Filled)
      requires |options| > 0
      requires Valid()
      modifies this
      ensures var s := MultiFrom(options, limit, 0, AllOff(|options|), input);
        if s.result.Ok? then r == Done(s.rest) && value == s.result.value
        else r == Failed(s.result.error, s.rest) && value == old(value)
      ensures Valid()
    {
      var s := ReadMultiselect(options, limit, input);
      if s.result.Err? {
        return Failed(s.result.error, s.rest);
      }
      MultiFromCommitsChosen(options, limit, 0, AllOff(|options|), input);
      ChosenValuesTyped(options, ty, limit, s.result.value);
      value := s.result.value;
      return Done(s.rest);
    }

    /** `FieldTrait::get_value`: the `Debug` rendering of the list of chosen
        values; it never fails, and renders "[]" before a `fill`. */
    function Display(c: Codec): (r: Result<string>)
      reads this
      ensures r.Ok? && r.value == DebugList(c, value)
    {
      Ok(DebugList(c, value))
    }
  }

  /** A committed selection holds values of the options' type. */
  lemma ChosenValuesTyped(options: seq<(Value, string)>, ty: Ty, limit: Option<nat>, chosen: seq<Value>)
    requires forall i :: 0 <= i < |options| ==> HasType(options[i].0, ty)
    requires exists t :: |t| == |options| && Within(t, limit) && Chosen(options, t) == chosen
    ensures forall k :: 0 <= k < |chosen| ==> HasType(chosen[k], ty)
  {
    var t :| |t| == |options| && Within(t, limit) && Chosen(options, t) == chosen;
    forall k | 0 <= k < |chosen|
      ensures HasType(chosen[k], ty)
    {
      ChosenFromToggledOptions(options, t, k);
    }
  }
}
