/** src/select_field.rs: `SelectField<T>`, a field filled by the
    single-choice widget. */
module SelectFields {
  import opened Wrappers
  import opened Values
  import opened Terminal
  import opened Fields

  class SelectField {
    const prompt: string
    const ty: Ty
    const options: seq<(Value, string)>
    var value: Option<Value>

    /** The option values and the slot are of the field's type. */
    predicate Valid()
      reads this
    {
      (forall i :: 0 <= i < |options| ==> HasType(options[i].0, ty)) &&
      (value.Some? ==> HasType(value.value, ty))
    }

    /** The struct literal of `FormBuilder::add_select`: no value yet. */
    constructor(prompt: string, ty: Ty, options: seq<(Value, string)>)
      requires forall i :: 0 <= i < |options| ==> HasType(options[i].0, ty)
      ensures this.prompt == prompt && this.ty == ty && this.options == options
      ensures value.None? && Valid()
    {
      this.prompt := prompt;
      this.ty := ty;
      this.options := options;
      value := None;
    }

    /** `FieldTrait::fill`: the slot takes the committed option's value; a
        read error is returned before anything is stored. */
    method Fill(input: seq<Input>) returns (r: Filled)
      requires |options| > 0
      requires Valid()
      modifies this
      ensures var s := SelectFrom(options, 0, input);
        if s.result.Ok? then r == Done(s.rest) && value == Some(s.result.value)
        else r == Failed(s.result.error, s.rest) && value == old(value)
      ensures Valid()
    {
      var s := ReadSelect(options, input);
      if s.result.Err? {
        return Failed(s.result.error, s.rest);
      }
      value := Some(s.result.value);
      return Done(s.rest);
    }

    /** `FieldTrait::get_value`: the `Debug` rendering of the chosen value,
        or the no-value error before a successful `fill`. */
    function Display(c: Codec): (r: Result<string>)
      reads this
      ensures r.Ok? <==> value.Some?
      ensures r.Ok? ==> r.value == Debug(c, value.value)
      ensures r.Err? ==> r.error == NoValue
    {
      if value.Some? then Ok(Debug(c, value.value)) else Err(NoValue)
    }
  }
}
