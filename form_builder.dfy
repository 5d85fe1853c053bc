/** src/form_builder.rs: the builder that numbers the fields in the order
    they are added. */
module FormBuilders {
  import opened Wrappers
  import opened Validation
  import opened Values
  import opened Fields
  import opened SelectFields
  import opened MultiselectFields
  import opened Forms

  /** The values of a map keyed `0 .. n - 1`, in key order (a `BTreeMap`'s
      iteration order). */
  function InOrder<X>(m: map<nat, X>, n: nat): (r: seq<X>)
    requires forall k :: 0 <= k < n ==> k in m
    ensures |r| == n && forall k :: 0 <= k < n ==> r[k] == m[k]
  {
    if n == 0 then [] else InOrder(m, n - 1) + [m[n - 1]]
  }

  class FormBuilder {
    var fields: map<nat, (string, FieldRef)>
    var counter: nat

    function Objects(): set<object>
      reads this
    {
      set k | k in fields :: Obj(fields[k].1)
    }

    /** The keys are exactly `0 .. counter - 1`, and each key boxes a field
        of its own that holds values of its type. */
    predicate Valid()
      reads this, Objects()
    {
      (forall k :: k in fields ==> k < counter) &&
      (forall k :: 0 <= k < counter ==> k in fields) &&
      (forall k, l :: k in fields && l in fields && k != l ==> Obj(fields[k].1) != Obj(fields[l].1)) &&
      (forall k :: k in fields ==> FieldValid(fields[k].1))
    }

    /** `FormBuilder::new`: no fields, and the counter at 0. */
    constructor()
      ensures fields == map[] && counter == 0 && Valid()
    {
      fields := map[];
      counter := 0;
    }

    /** The step every `add_*` call shares: the boxed field goes into the
        map under the current counter, which then moves on by one. */
    method Insert(name: string, f: FieldRef)
      requires Valid() && FieldValid(f) && Obj(f) !in Objects()
      modifies this
      ensures Valid() && counter == old(counter) + 1
      ensures fields == old(fields)[old(counter) := (name, f)]
    {
      fields := fields[counter := (name, f)];
      counter := counter + 1;
    }

    /** `FormBuilder::add_field::<T>` for `T = ty`: a new empty text field
        under the current counter, which then moves on by one. */
    method AddField(name: string, prompt: string, ty: Ty, validator: Option<Validator>)
      requires Valid()
      modifies this
      ensures Valid() && counter == old(counter) + 1
      ensures fields == old(fields)[old(counter) := fields[old(counter)]]
      ensures var (n, f) := fields[old(counter)];
        n == name && f.Text? && fresh(f.text) &&
        f.text.prompt == prompt && f.text.ty == ty && f.text.validator == validator && f.text.value.None?
    {
      var field := new Field(prompt, ty, validator);
      Insert(name, Text(field));
    }

    /** `FormBuilder::add_select::<T>` for `T = ty`: a new select field,
        with nothing chosen, under the current counter. */
    method AddSelect(name: string, prompt: string, ty: Ty, options: seq<(Value, string)>)
      requires Valid()
      requires forall i :: 0 <= i < |options| ==> HasType(options[i].0, ty)
      modifies this
      ensures Valid() && counter == old(counter) + 1
      ensures fields == old(fields)[old(counter) := fields[old(counter)]]
      ensures var (n, f) := fields[old(counter)];
        n == name && f.Select? && fresh(f.select) &&
        f.select.prompt == prompt && f.select.ty == ty && f.select.options == options && f.select.value.None?
    {
      var field := new SelectField(prompt, ty, options);
      Insert(name, Select(field));
    }

    /** `FormBuilder::add_multiselect::<T>` for `T = ty`: a new multiselect
        field, with an empty selection and the limit as given, under the
        current counter. */
    method AddMultiselect(name: string, prompt: string, ty: Ty, options: seq<(Value, string)>, limit: Option<nat>)
      requires Valid()
      requires forall i :: 0 <= i < |options| ==> HasType(options[i].0, ty)
      modifies this
      ensures Valid() && counter == old(counter) + 1
      ensures fields == old(fields)[old(counter) := fields[old(counter)]]
      ensures var (n, f) := fields[old(counter)];
        n == name && f.Multi? && fresh(f.multi) &&
        f.multi.prompt == prompt && f.multi.ty == ty && f.multi.options == options &&
        f.multi.limit == limit && f.multi.value == []
    {
      var field := new MultiselectField(prompt, ty, options, limit);
      Insert(name, Multi(field));
    }

    /** `FormBuilder::build`: the form holds the fields in key order, one
        entry per `add_*` call. */
    method Build() returns (form: Form)
      requires Valid()
      ensures fresh(form) && form.entries == InOrder(fields, counter)
      ensures |form.entries| == counter && form.Valid()
    {
      form := new Form(InOrder(fields, counter));
    }
  }

  /** The names of a form's entries, in order. */
  function Names(entries: seq<(string, FieldRef)>): (r: seq<string>)
    ensures |r| == |entries| && forall k :: 0 <= k < |entries| ==> r[k] == entries[k].0
  {
    if |entries| == 0 then [] else [entries[0].0] + Names(entries[1..])
  }

  /** Two fields added under the same name are two entries; lookup by name
      finds the first. */
  method DuplicateNames(ty: Ty) returns (form: Form)
    ensures Names(form.entries) == ["name", "name"]
    ensures form.Find("name") == Some(0) && form.Valid()
  {
    var builder := new FormBuilder();
    builder.AddField("name", "Enter your name:", ty, None);
    builder.AddField("name", "Enter your name again:", ty, None);
    form := builder.Build();
    assert form.entries[0].0 == "name" && form.entries[1].0 == "name";
  }
}
