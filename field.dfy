/** src/field.rs: the text field `Field<T>` and what every field's `fill`
    reports. */
module Fields {
  import opened Wrappers
  import opened Strings
  import opened Validation
  import opened Values
  import opened Terminal

  /** The error of a `get_value` on a field that holds nothing. */
  const NoValue: string := "Field has no value"

  /** What a field's `fill` did to the input: it returned `Ok(())` and left
      `rest` unread, it returned `Err(error)`, or it never returns. */
  datatype Filled = Done(rest: seq<Input>) | Failed(error: string, rest: seq<Input>) | Hangs

  /** `s.parse::<T>()` for the field's type, as the parser handed to
      `read_input`. */
  function Parser(c: Codec, ty: Ty): string -> Result<Value> {
    (s: string) => Parse(c, ty, s)
  }

  /** What `Field::fill` ends with: the value it stores, or no end. */
  datatype Entry = Entered(value: Value, rest: seq<Input>) | Stuck

  /** `Field::fill`: `read_input` is called again after every error it
      returns, a failed read and a failed parse alike, until it yields a
      value. At the end of input every call returns the same error (or
      `read_input` itself spins), so the field never gets a value. A stored
      value is the parse of a trimmed line that the validator accepted. */
  function TextFill(c: Codec, ty: Ty, validator: Option<Validator>, input: seq<Input>): (r: Entry)
    ensures r.Entered? ==> HasType(r.value, ty)
    ensures r.Entered? ==>
      exists text :: Trimmed(text) && Accepts(validator, text) && Parse(c, ty, text) == Ok(r.value)
    ensures r.Entered? ==> IsSuffix(r.rest, input) && (|input| > 0 ==> |r.rest| < |input|)
    decreases |input|
  {
    var p := ReadInputFrom(validator, Parser(c, ty), input);
    if p.Spins? then Stuck
    else if Returned(p).Ok? then
      assert Parse(c, ty, p.text) == Ok(Returned(p).value);
      Entered(Returned(p).value, p.rest)
    else if |input| == 0 then Stuck
    else
      var r := TextFill(c, ty, validator, p.rest);
      if r.Stuck? then r
      else
        SuffixTrans(r.rest, p.rest, input);
        r
  }

  /** `Field<T>`: a prompt, an optional validator and a value slot. */
  class Field {
    const prompt: string
    const ty: Ty
    const validator: Option<Validator>
    var value: Option<Value>

    /** The slot holds a value of the field's type (Rust's typing). */
    predicate Valid()
      reads this
    {
      value.Some? ==> HasType(value.value, ty)
    }

    /** The struct literal of `FormBuilder::add_field`: no value yet. */
    constructor(prompt: string, ty: Ty, validator: Option<Validator>)
      ensures this.prompt == prompt && this.ty == ty && this.validator == validator
      ensures value.None? && Valid()
    {
      this.prompt := prompt;
      this.ty := ty;
      this.validator := validator;
      value := None;
    }

    /** `FieldTrait::fill`: the retry loop around `read_input`. It never
        returns an error; once it returns, the slot holds the value. */
    method Fill(c: Codec, input: seq<Input>) returns (r: Filled)
      requires Valid()
      modifies this
      ensures var e := TextFill(c, ty, validator, input);
        if e.Entered? then r == Done(e.rest) && value == Some(e.value)
        else r == Hangs && value == old(value)
      ensures Valid()
    {
      var rest := input;
      while true
        invariant TextFill(c, ty, validator, rest) == TextFill(c, ty, validator, input)
        invariant value == old(value)
        decreases |rest|
      {
        var p := ReadInput(validator, Parser(c, ty), rest);
        if p.Spins? {
          return Hangs;
        }
        var result := Returned(p);
        if result.Ok? {
          value := Some(result.value);
          return Done(p.rest);
        }
        if |rest| == 0 {
          return Hangs;
        }
        rest := p.rest;
      }
    }

    /** `FieldTrait::get_value`: the `Debug` rendering of the value, or the
        no-value error. */
    function Display(c: Codec): (r: Result<string>)
      reads this
      ensures r.Ok? <==> value.Some?
      ensures r.Ok? ==> r.value == Debug(c, value.value)
      ensures r.Err? ==> r.error == NoValue
    {
      if value.Some? then Ok(Debug(c, value.value)) else Err(NoValue)
    }

    /** `Field::get_value`: the value itself, or the no-value error. */
    function Get(): (r: Result<Value>)
      reads this
      ensures r.Ok? <==> value.Some?
      ensures r.Ok? ==> r.value == value.value
      ensures Valid() && r.Ok? ==> HasType(r.value, ty)
      ensures r.Err? ==> r.error == NoValue
    {
      if value.Some? then Ok(value.value) else Err(NoValue)
    }
  }

  /** At the end of input a field whose type cannot parse "" is never
      filled, whatever its validator: `Field::fill` swallows the parse
      error and asks again forever. */
  lemma EndOfInputHangs(c: Codec, ty: Ty, validator: Option<Validator>, input: seq<Input>)
    requires |input| == 0 && Parse(c, ty, "").Err?
    ensures TextFill(c, ty, validator, input).Stuck?
  {
    ReadInputAtEnd(validator, Parser(c, ty), input);
  }

  /** The field's fill is decided by what the first `read_input` returns:
      two inputs on which it returns the same end the same way (the first
      input is not empty, so a retry on it goes on with the rest). */
  lemma TextFillSameRead(c: Codec, ty: Ty, validator: Option<Validator>, x: seq<Input>, y: seq<Input>)
    requires |x| > 0
    requires ReadInputFrom(validator, Parser(c, ty), x) == ReadInputFrom(validator, Parser(c, ty), y)
    ensures TextFill(c, ty, validator, x) == TextFill(c, ty, validator, y)
  {
    var q := ReadInputFrom(validator, Parser(c, ty), y);
    if |y| == 0 && !q.Spins? {
      assert q.rest == y;
    }
  }

  /** A parse error, or a failed read, is swallowed: the field asks again
      and keeps what the input after it gives. */
  lemma TextFillRetries(c: Codec, ty: Ty, validator: Option<Validator>, input: seq<Input>)
    requires |input| > 0
    requires !ReadInputFrom(validator, Parser(c, ty), input).Spins?
    requires Returned(ReadInputFrom(validator, Parser(c, ty), input)).Err?
    ensures TextFill(c, ty, validator, input)
      == TextFill(c, ty, validator, ReadInputFrom(validator, Parser(c, ty), input).rest)
  {
  }

  /** A line the validator rejects is skipped: the field keeps the next
      accepted line. */
  lemma {:induction false} RejectedLineSkipped(c: Codec, ty: Ty, validator: Option<Validator>, line: string, rest: seq<Input>)
    requires forall i :: 0 <= i < |line| ==> line[i] != '\n' && line[i] as int < 256
    requires !Accepts(validator, Trim(line))
    ensures TextFill(c, ty, validator, Bytes(line + "\n") + rest) == TextFill(c, ty, validator, rest)
  {
    ReadInputSkipsRejected(validator, Parser(c, ty), line, rest);
    TextFillSameRead(c, ty, validator, Bytes(line + "\n") + rest, rest);
  }

  /** An accepted line that parses is the field's value, and the input
      after it is left unread. */
  lemma {:induction false} TextFillTakesParsed(c: Codec, ty: Ty, validator: Option<Validator>, line: string, rest: seq<Input>)
    requires forall i :: 0 <= i < |line| ==> line[i] != '\n' && line[i] as int < 256
    requires Accepts(validator, Trim(line)) && Parse(c, ty, Trim(line)).Ok?
    ensures TextFill(c, ty, validator, Bytes(line + "\n") + rest) == Entered(Parse(c, ty, Trim(line)).value, rest)
  {
    ReadInputTakesAccepted(validator, Parser(c, ty), line, rest);
  }

  /** An accepted line that does not parse is swallowed by the retry loop:
      the field asks again and keeps what the input after the line gives. */
  lemma {:induction false} TextFillSkipsUnparsable(c: Codec, ty: Ty, validator: Option<Validator>, line: string, rest: seq<Input>)
    requires forall i :: 0 <= i < |line| ==> line[i] != '\n' && line[i] as int < 256
    requires Accepts(validator, Trim(line)) && Parse(c, ty, Trim(line)).Err?
    ensures TextFill(c, ty, validator, Bytes(line + "\n") + rest) == TextFill(c, ty, validator, rest)
  {
    var input := Bytes(line + "\n") + rest;
    ReadInputTakesAccepted(validator, Parser(c, ty), line, rest);
    TextFillRetries(c, ty, validator, input);
  }
}
