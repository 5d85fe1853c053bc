/** src/validation.rs: the validator chain and the predicates that do not
    depend on regular expressions. */
module Validation {
  import opened Wrappers
  import opened Strings

  /** Message returned by a failing rule that carries no message of its own. */
  const DefaultMessage: string := "Invalid input, please try again."

  /** One `(fn(&str) -> bool, Option<&'static str>)` pair. */
  datatype Rule = Rule(check: string -> bool, message: Option<string>)

  /** The error text a failing rule produces. */
  function MessageOf(rule: Rule): string {
    match rule.message
    case Some(m) => m
    case None => DefaultMessage
  }

  /** Rule `i` is the first rule, in list order, that rejects `input`. */
  ghost predicate FirstFailure(rules: seq<Rule>, input: string, i: int) {
    && 0 <= i < |rules|
    && !rules[i].check(input)
    && forall j :: 0 <= j < i ==> rules[j].check(input)
  }

  /** `Validator { validations }`. */
  datatype Validator = Validator(validations: seq<Rule>) {

    /** `Validator::validate`: run the rules in order and stop at the first
        that rejects the input. The result is `Ok` exactly when every rule
        accepts; otherwise it is the message of the first rule that rejects. */
    function Validate(input: string): (r: Result<()>)
      ensures r.Ok? <==> forall i :: 0 <= i < |validations| ==> validations[i].check(input)
      ensures r.Err? ==> exists i :: FirstFailure(validations, input, i) && r.error == MessageOf(validations[i])
    {
      Check(validations, input)
    }
  }

  /** The loop of `Validator::validate` over the remaining rules. */
  function Check(rules: seq<Rule>, input: string): (r: Result<()>)
    ensures r.Ok? <==> forall i :: 0 <= i < |rules| ==> rules[i].check(input)
    ensures r.Err? ==> exists i :: FirstFailure(rules, input, i) && r.error == MessageOf(rules[i])
  {
    if |rules| == 0 then Ok(())
    else if !rules[0].check(input) then
      assert FirstFailure(rules, input, 0);
      Err(MessageOf(rules[0]))
    else
      var r := Check(rules[1..], input);
      if r.Err? then
        assert exists i :: FirstFailure(rules, input, i) && r.error == MessageOf(rules[i]) by {
          var i :| FirstFailure(rules[1..], input, i) && r.error == MessageOf(rules[1..][i]);
          assert FirstFailure(rules, input, i + 1);
        }
        r
      else
        assert forall i :: 1 <= i < |rules| ==> rules[i] == rules[1..][i - 1];
        r
  }

  /** The first failing rule decides the outcome: whatever follows it in the
      list (even rules that would fail, or be costly) has no influence, which
      is what the early `return` of the loop guarantees. */
  lemma {:induction false} ShortCircuit(rules: seq<Rule>, input: string, i: nat, later: seq<Rule>)
    requires FirstFailure(rules, input, i)
    ensures Check(rules[..i + 1] + later, input) == Check(rules, input) == Err(MessageOf(rules[i]))
  {
    if i == 0 {
      assert (rules[..1] + later)[0] == rules[0];
    } else {
      assert (rules[..i + 1] + later)[0] == rules[0];
      assert (rules[..i + 1] + later)[1..] == rules[1..][..i] + later;
      assert FirstFailure(rules[1..], input, i - 1) by {
        forall j | 0 <= j < i - 1 ensures rules[1..][j].check(input) {
          assert rules[1..][j] == rules[j + 1];
        }
      }
      ShortCircuit(rules[1..], input, i - 1, later);
    }
  }

  /** `ValidationMethods::validate_name`: no character is numeric; in
      particular a name holds no ASCII digit. */
  function ValidateName(name: string): (r: bool)
    ensures r <==> forall i :: 0 <= i < |name| ==> !IsNumeric(name[i])
    ensures r ==> forall i :: 0 <= i < |name| ==> !('0' <= name[i] <= '9')
  {
    !exists i :: 0 <= i < |name| && IsNumeric(name[i])
  }

  /** `ValidationMethods::not_empty`: the same test as a minimum length
      of one. */
  function NotEmpty(value: string): (r: bool)
    ensures r <==> MinLength(value, 1)
  {
    Utf8LenBounds(value);
    |value| != 0
  }

  /** `ValidationMethods::min_length`: compares the byte length
      (`str::len`), so every string with at least `minLength` characters
      passes, and none with fewer than a quarter of that. */
  function MinLength(value: string, minLength: nat): (r: bool)
    ensures |value| >= minLength ==> r
    ensures r ==> 4 * |value| >= minLength
  {
    Utf8LenBounds(value);
    Utf8Len(value) >= minLength
  }

  /** `ValidationMethods::max_length`: compares the byte length
      (`str::len`), so a string that passes has at most `maxLength`
      characters, and every string of at most a quarter of that passes. */
  function MaxLength(value: string, maxLength: nat): (r: bool)
    ensures r ==> |value| <= maxLength
    ensures 4 * |value| <= maxLength ==> r
  {
    Utf8LenBounds(value);
    Utf8Len(value) <= maxLength
  }

  /** `ValidationMethods::is_alpha`: every character is alphabetic. Such a
      text is also a valid name and has nothing to trim. */
  function IsAlpha(value: string): (r: bool)
    ensures r ==> ValidateName(value)
    ensures r ==> Trimmed(value)
  {
    forall i :: 0 <= i < |value| ==> IsAlphabetic(value[i])
  }

  /** On ASCII input the byte length the bounds compare is the character
      count, so the bounds are inclusive character bounds there; beyond ASCII
      a character can use up to four bytes of the bound. */
  lemma LengthBoundsOnAscii(value: string, bound: nat)
    requires forall i :: 0 <= i < |value| ==> value[i] as int < 0x80
    ensures MinLength(value, bound) <==> |value| >= bound
    ensures MaxLength(value, bound) <==> |value| <= bound
  {
    Utf8LenBounds(value);
  }

  /** The cases the crate's own unit tests check. */
  lemma PredicateExamples()
    ensures ValidateName("John") && !ValidateName("John123")
    ensures NotEmpty("non-empty") && !NotEmpty("")
    ensures MinLength("hello", 3) && !MinLength("hi", 3)
    ensures MaxLength("hello", 10) && !MaxLength("hello world", 10)
    ensures IsAlpha("hello") && !IsAlpha("hello123") && IsAlpha("")
  {
    assert IsNumeric("John123"[4]);
    assert !IsAlphabetic("hello123"[5]);
    var hello := "hello";
    forall i | 0 <= i < |hello| ensures IsAlphabetic(hello[i]) {
      assert hello[i] in {'h', 'e', 'l', 'o'};
    }
  }
}
