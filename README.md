# form-builder in Dafny

A model of the Rust crate `form-builder`. The crate lets a terminal program
declare a form: text fields read with a prompt and an optional validator,
single-choice select fields, and multiple-choice multiselect fields driven by
the arrow, Space and Enter keys. The program then fills the form from
standard input and reads the typed values back by field name.

The model covers:

- the validator chain and its predicates that use neither a regular expression nor a standard-library number parser (`src/validation.rs`);
- the crate's `Optional<T>` (`src/optional.rs`);
- the three input routines and the key table (`src/input.rs`);
- the three field kinds (`src/field.rs`, `src/select_field.rs`,
  `src/multiselect_field.rs`);
- the form (`src/form.rs`);
- the builder (`src/form_builder.rs`).

How the source is represented:

- **Standard input** is one explicit stream, `seq<Input>`. Each element is a
  byte, or a failure reported by the operating system. Every read returns
  what it produced together with the input it left unread.
- **Loops that never end** are outcomes in the model:
  - `Spins`: `read_input` at end of input with a validator that rejects the
    empty line;
  - `Hangs` / `Stuck`: a text field's `fill`, which retries forever.
- **Rust's type parameter `T`** becomes a type tag `Ty`, and its values
  become `Value`.
  - The `FromStr`, `Debug` and `Default` implementations of the base types
    are parameters, gathered in a `Codec`.
  - `Optional<T>` is built in, as `src/optional.rs` defines it.
- **Fields** are classes. Their configuration is held in `const` fields and
  their value in a `var`.
- **The form** is a class whose entries are the builder's map values in key
  order. The builder keeps the map and the counter themselves.
- **The widget loops** (`read_select`, `read_multiselect`, `read_input`,
  `Field::fill`, `Form::fill`) are methods with loops. Each is proved equal
  to a recursive function, and the properties are proved about that function.

Where the code and the crate's own documentation disagree, the model follows
the code, with one exception listed last:

- `Field::fill` swallows every error of `read_input`, including a failed
  read, and asks again. It never returns an error (src/field.rs:54-64).
- `get_value` on a multiselect field parses the `Debug` rendering of the whole
  list as one `T` (src/form.rs:63-66). It does not return an element of the
  list.
- `get_value_vec` on a multiselect field that was never filled reads the
  rendering "[]" as the single piece "". The result is the parse of "" as a
  one-element list, not an empty list.
- The exception: the select branches of `get_value` and `get_value_vec`
  parse the `Debug` text of the chosen value (src/form.rs:59-62, 103-107).
  This is a finding (see below). The code as written is modelled by
  `Forms.SelectReadBackAsWritten`. `Forms.Form.GetValue` and
  `Forms.Form.GetValueVec` return the chosen value itself, as evidently
  intended.

## Model

| member | source | states |
|---|---|---|
| Validation.Validator.Validate | src/validation.rs:245-254 | Ok exactly when every rule accepts the input; otherwise the error is the message of the first rule, in list order, that rejects it (the default message when that rule has none) |
| Validation.Check | src/validation.rs:246-253 | the loop over the rules: Ok iff all pass, and an Err carries the first failing rule's message |
| Validation.ShortCircuit | src/validation.rs:247-251 | rules after the first failing one have no influence on the outcome: replacing them by any other rules gives the same error |
| Validation.ValidateName | src/validation.rs:16-18 | a name passes exactly when none of its characters is numeric; a passing name holds no ASCII digit |
| Validation.NotEmpty | src/validation.rs:43-45 | `not_empty` agrees with `min_length` of 1 |
| Validation.MinLength | src/validation.rs:57-59 | every string with at least `min_length` characters passes, and none with fewer than a quarter of that, since the byte length is compared |
| Validation.MaxLength | src/validation.rs:71-73 | a passing string has at most `max_length` characters, and every string of at most a quarter of that passes, since the byte length is compared |
| Validation.IsAlpha | src/validation.rs:84-86 | an all-alphabetic text also passes `validate_name` and has no whitespace at either end |
| Validation.LengthBoundsOnAscii | src/validation.rs:57-73 | `min_length` and `max_length` compare the byte length; on ASCII text this is the character count, so both bounds are inclusive character bounds there |
| Validation.PredicateExamples | src/validation.rs:261-297 | `validate_name`, `not_empty`, `min_length`, `max_length` and `is_alpha` give the results the crate's unit tests expect |
| Strings.Utf8Width | src/validation.rs:57-59 | the byte width `str::len` counts for a character is between 1 and 4, and is 1 exactly for ASCII |
| Strings.Utf8LenBounds | src/validation.rs:57-59 | a string's byte length lies between its character count and four times it, and equals the character count on ASCII |
| Strings.Trim | src/input.rs:40 | `str::trim` leaves no whitespace at either end and never lengthens its input |
| Strings.TrimIsMiddle | src/input.rs:40 | what `trim` leaves is a contiguous stretch of the input, and every character dropped before or after it is whitespace |
| Strings.TrimOfTrimmed | src/input.rs:40 | a text with no whitespace at either end trims to itself |
| Strings.TrimIdempotent | src/input.rs:40 | trimming twice is trimming once |
| Strings.TrimDropsNewline | src/input.rs:36-40 | the line feed `read_line` keeps does not change the trimmed text |
| Strings.TrimStart | src/form.rs:110 | the result is a suffix of the input that does not start with a matching character, and every character dropped matches |
| Strings.TrimEnd | src/form.rs:110 | the result is a prefix of the input that does not end with a matching character, and every character dropped matches |
| Strings.TrimMatches | src/form.rs:110-113 | `trim_matches` leaves no matching character at either end and never lengthens its input |
| Strings.TrimMatchesIsMiddle | src/form.rs:110-113 | what `trim_matches` leaves is a contiguous stretch of the input, and every character dropped before or after it matches |
| Strings.Split | src/form.rs:111-112 | `split(',')` yields at least one piece, no piece contains the separator, and joining the pieces with it gives the input back |
| Strings.SplitJoin | src/form.rs:111-112 | splitting a join of separator-free pieces gives the pieces back |
| Strings.JoinCommaSpace | src/form.rs:111-113 | a list joined with ", " is its pieces, all but the first with a leading space, joined with ",": what `split(',')` sees before the spaces are trimmed |
| Optional.FromStr | src/optional.rs:28-34 | the empty string parses to `None`; any other text is parsed as `T`, with `Some` of the value on success and the parser's error passed on otherwise |
| Optional.Default | src/optional.rs:39-41 | the default is `None` |
| Optional.DefaultIsEmptyParse | src/optional.rs:28-41 | the default is what the empty string parses to, whatever the parser of `T` |
| Optional.Eq | src/optional.rs:51-57 | the hand-written `eq` holds exactly when the two values are equal |
| Optional.Fmt | src/optional.rs:70-75 | a present value is shown with `T`'s `Display`, an absent one as "None" (its partner is `FmtFromStr`) |
| Optional.FmtFromStr | src/optional.rs:28-75 | formatting then parsing gives a present value back when `T`'s own text round-trips and is not empty; `None` never comes back, because "None" is handed to `T`'s parser |
| Optional.Add | src/optional.rs:91-97 | two present values give their sum; when one side is absent the other side is the result |
| Optional.Sub | src/optional.rs:114-120 | two present values give their difference; when one side is absent the other side is the result, unchanged |
| Optional.Mul | src/optional.rs:137-143 | two present values give their product; when one side is absent the other side is the result |
| Optional.Div | src/optional.rs:160-166 | two present values give their quotient rounded toward zero; when one side is absent the other side is the result, unchanged |
| Optional.TruncDiv | src/optional.rs:162 | Rust's integer `/`: the remainder is smaller than the divisor in magnitude and has the sign of the dividend (or is zero) |
| Optional.NoneIsIdentity | src/optional.rs:91-97 | `None` is a unit on both sides of every operation |
| Optional.CombineAssociative | src/optional.rs:91-143 | the lifted operation is associative whenever the underlying one is |
| Optional.CombineCommutative | src/optional.rs:91-143 | the lifted operation is commutative whenever the underlying one is |
| Optional.AddIsCommutativeMonoid | src/optional.rs:91-97 | `add` on `Optional<int>` is associative and commutative, with `None` as unit |
| Optional.MulIsCommutativeMonoid | src/optional.rs:137-143 | `mul` on `Optional<int>` is associative and commutative, with `None` as unit |
| Optional.NoneOnTheLeft | src/optional.rs:114-166 | `None - Some(b)` and `None / Some(b)` are `Some(b)`, not the negation or the reciprocal: `None` is not a zero |
| Optional.ArithmeticExamples | src/optional.rs:194-237 | the four operations give the results the crate's unit tests expect, with division rounding toward zero |
| Values.Parse | src/input.rs:49 | a successful `parse::<T>()` yields a value of type `T`; an `Optional` type parses through `Optional::from_str` |
| Values.Debug | src/field.rs:81-86 | a base value renders with its type's `Debug`; an absent `Optional` renders as "None" and a present one as "Some(" … ")", never the empty string |
| Values.DebugList | src/multiselect_field.rs:53 | a list renders between "[" and "]", as "[]" when empty and as the element's rendering in brackets for one element |
| Values.DebugEach | src/multiselect_field.rs:53 | there is one piece per element, and each piece is that element's `Debug` text, in order; that `DebugList` joins these pieces comes from its definition |
| Values.Default | src/form.rs:55-58 | `T::default()` is a value of type `T` |
| Values.OptionalNoneDoesNotRoundTrip | src/optional.rs:28-34 | the derived `Debug` text of an absent `Optional` never parses back to it |
| Values.OptionalOfIsNew | src/form.rs:52-54 | no type is the `Optional` of itself, so the first two downcasts of `get_value` never both apply |
| Terminal.KeyOf | src/input.rs:243-249 | bytes 65, 66, 10 and 32 are exactly Up, Down, Enter and Space; every other byte is Other |
| Terminal.ReadKey | src/input.rs:233-249 | exactly one element of input is taken; a byte gives its key, and end of input or a failed read gives "Failed to read from stdin" |
| Terminal.ReadLine | src/input.rs:36-39 | at end of input the line is empty and nothing is consumed; otherwise the line is taken from the front of the input, something is consumed, and no line feed comes before the line's last character |
| Terminal.ReadLineContent | src/input.rs:36-39 | a line read is exactly the bytes consumed, as characters, and ends with a line feed unless the input ran out |
| Terminal.ReadLineFault | src/input.rs:36-39 | a failed read consumed bytes that are no line feed and then the failure, whose text is the error |
| Terminal.ReadLineOfBytes | src/input.rs:36-39 | a typed line is read up to and including its line feed, and what follows is left unread |
| Terminal.Move | src/input.rs:91-100 | the cursor stays within the options; Up stops at the first option, Down stops at the last, and other keys leave it in place |
| Terminal.SelectFrom | src/input.rs:75-107 | a committed value is one of the options, the only error is the failed read, and the rest is unread input; Enter commits the option under the cursor and consumes one byte |
| Terminal.SelectStep | src/input.rs:90-106 | a key other than Enter moves the cursor as `Move` says and reading goes on |
| Terminal.ReadSelect | src/input.rs:68-108 | the loop starts on the first option and does what `SelectFrom` describes |
| Terminal.CountOn | src/input.rs:170 | the count of toggles that are on is at most the number of toggles |
| Terminal.Chosen | src/input.rs:176-181 | the committed list has as many values as there are toggles on; that they are the toggled options' values in option order comes from its definition and `ChosenFromToggledOptions` |
| Terminal.ChosenFromToggledOptions | src/input.rs:176-181 | every committed value is the value of an option that is toggled on |
| Terminal.CountOnUpdate | src/input.rs:166-174 | turning one toggle on or off changes the count by exactly one |
| Terminal.Toggle | src/input.rs:166-174 | Space changes only the toggle under the cursor; an option that is on is always turned off; one that is off is turned on exactly when there is no limit or fewer toggles than the limit are on, so a selection within the limit stays within it |
| Terminal.MultiFrom | src/input.rs:138-190 | a committed selection is not empty and has at most `limit` values; the only error is the failed read |
| Terminal.MultiStep | src/input.rs:158-189 | Enter with something chosen commits it; Space toggles the option under the cursor; any other key, and Enter with nothing chosen, moves the cursor as `Move` says |
| Terminal.MultiFromCommitsChosen | src/input.rs:176-186 | a committed selection is the values of the options whose toggles are on, in option order, for some toggles within the limit |
| Terminal.ToggleAt | src/input.rs:165-174 | Space switches the toggle under the cursor off, or on only while fewer than `limit` toggles are on, in place in the toggle array |
| Terminal.AllOff | src/input.rs:135-136 | the starting state has every toggle off and a count of zero |
| Terminal.ReadMultiselect | src/input.rs:126-191 | the loop over the toggle array starts on the first option with nothing chosen and does what `MultiFrom` describes |
| Terminal.EnterWithNothingChosen | src/input.rs:175-187 | Enter with nothing toggled does not commit; the widget goes on reading keys |
| Terminal.ArrowEscapeSequence | src/input.rs:243-249 | the escape sequence of an arrow key moves the cursor like the bare letter A or B, because ESC and '[' are Other |
| Terminal.LimitExample | src/input.rs:166-187 | with options a, b, c and limit 2, toggling all three commits only a and b |
| Terminal.ReadInputFrom | src/input.rs:30-50 | a returned text is a trimmed line the validator accepts, and the result is that text's parse; a failed read gives an error starting "Failed to read line: "; away from a spin the rest of the input is a suffix, shorter when input was left (partners: `ReadInputTakesAccepted`, `ReadInputSkipsRejected`) |
| Terminal.SpinsOnlyOnRejectedEmpty | src/input.rs:30-47 | the loop spins only when the validator rejects "", and at end of input it spins exactly then |
| Terminal.ReadInputAtEnd | src/input.rs:36-49 | at end of input the loop accepts the empty line `read_line` yields there or spins on it |
| Terminal.ReadInputSkipsRejected | src/input.rs:42-46 | a line the validator rejects is passed over: the loop goes on as if the input started after it |
| Terminal.ReadInputTakesAccepted | src/input.rs:36-49 | a line whose trimmed text the validator accepts ends the loop with that text and its parse, leaving the input after the line unread |
| Terminal.NameRulesVerdicts | src/form_builder.rs:176-181 | the name rules of the crate's tests (no digit, not empty) reject "John123" and accept "John" |
| Terminal.NamePromptExample | src/input.rs:30-49 | with those rules, typing "John123" and then "John" returns "John" and its parse, leaving the rest of the input unread |
| Terminal.ReadInput | src/input.rs:23-51 | the prompt loop does what `ReadInputFrom` describes |
| Fields.TextFill | src/field.rs:54-64 | a stored value has the field's type and is the parse of a trimmed line the validator accepted (partners: `TextFillTakesParsed`, `TextFillSkipsUnparsable`, `RejectedLineSkipped`) |
| Fields.Field.constructor | src/form_builder.rs:56-60 | a new text field keeps its prompt, type and validator and holds no value |
| Fields.Field.Fill | src/field.rs:54-64 | the retry loop stores the value `TextFill` finds and never reports an error; if there is no such value, the field is left as it was |
| Fields.Field.Display | src/field.rs:81-86 | the `Debug` text of the value, or "Field has no value" exactly when there is none |
| Fields.Field.Get | src/field.rs:100-105 | the value itself, of the field's type, or "Field has no value" exactly when there is none |
| Fields.EndOfInputHangs | src/field.rs:54-64 | at end of input, a field whose type cannot parse "" is never filled |
| Fields.RejectedLineSkipped | src/input.rs:42-46 | a line the validator rejects is skipped, and the field keeps what the following input gives |
| Fields.TextFillSameRead | src/field.rs:54-64 | the fill is decided by what the first `read_input` returns: two inputs on which it returns the same end the same way |
| Fields.TextFillRetries | src/field.rs:56-62 | a parse error or a failed read is swallowed and the field asks again on the rest of the input |
| Fields.TextFillTakesParsed | src/field.rs:56-60 | an accepted line that parses becomes the field's value, and the input after it is left unread |
| Fields.TextFillSkipsUnparsable | src/field.rs:56-62 | an accepted line that does not parse is swallowed, and the field keeps what the following input gives |
| SelectFields.SelectField.constructor | src/form_builder.rs:95-99 | a new select field keeps its prompt, type and options and has nothing chosen |
| SelectFields.SelectField.Fill | src/select_field.rs:28-32 | the field takes the committed option's value; on a read error the error is returned and the field is left as it was |
| SelectFields.SelectField.Display | src/select_field.rs:49-55 | the `Debug` text of the chosen value, or "Field has no value" exactly when there is none |
| MultiselectFields.MultiselectField.constructor | src/form_builder.rs:141-146 | a new multiselect field keeps its prompt, type, options and limit and has an empty selection |
| MultiselectFields.MultiselectField.Fill | src/multiselect_field.rs:30-34 | the committed selection replaces the whole value; on a read error the error is returned and the field is left as it was |
| MultiselectFields.MultiselectField.Display | src/multiselect_field.rs:51-54 | always Ok: the list rendering of the selection, "[]" when it is empty |
| MultiselectFields.ChosenValuesTyped | src/multiselect_field.rs:30-34 | a committed selection holds values of the options' type |
| Forms.FillOne | src/form.rs:24 | one field's `fill`: on success the field holds a value of its type, one of its options, or a non-empty selection within the limit; on failure it is untouched; only a widget can fail, and only a text field can hang |
| Forms.FillFrom | src/form.rs:22-27 | fields are filled in key order on the input the previous one left; on success every field holds a value; otherwise the fields before the stopping one hold values and the rest are unchanged |
| Forms.FillField | src/form.rs:24 | the dispatch on the field's kind changes only that field and does what `FillOne` describes |
| Forms.Form.constructor | src/form_builder.rs:158-162 | the form holds the given entries |
| Forms.FillFromStep | src/form.rs:22-27 | one field's fill either ends the run with its own outcome or leaves the rest of the run to go on from the next field on what it left of the input |
| Forms.Form.Fill | src/form.rs:22-27 | the loop over the fields does what `FillFrom` describes and keeps every field valid |
| Forms.Form.FillEntry | src/form.rs:23-24 | filling entry `i` changes that entry's slot only, as `FillOne` describes, and every other field keeps its value |
| Forms.FirstNamed | src/form.rs:44-48 | the result is the first entry with that name, or none when no entry has it (`Form.Find` applies it to the form's entries) |
| Forms.Unwrap | src/form.rs:55-58 | a present `Optional` gives its value and an absent one gives `T::default()`; the result has type `T` |
| Forms.Form.GetValue | src/form.rs:39-70 | an unknown name gives "Field 'name' not found"; a field of another type gives "Field 'name' has incorrect type"; a text field gives its value, an `Optional<T>` field its unwrapped value, a select field its chosen value (corrected, see Findings), a multiselect field the parse of its list rendering; an unfilled text or select field gives "Field has no value"; every Ok value has type `T` |
| Forms.Form.GetValueVec | src/form.rs:82-119 | an unknown name and a field of another type give the same errors as `get_value`; a text, optional or select field gives exactly `get_value`'s result as a one-element list, or `get_value`'s error, "Field has no value" when it is unfilled; a multiselect field gives the parsed pieces of its list rendering, whose error is the first bad piece's (where `get_value` parses the whole rendering); every element has type `T` |
| Forms.ParseEach | src/form.rs:111-115 | Ok holds the parse of every piece, in order; Err is the error of the first piece that fails |
| Forms.ParseList | src/form.rs:109-115 | every element of a parsed list has type `T` |
| Forms.SelectReadBackAsWritten | src/form.rs:59-62 | the select read-back as the source writes it gives the chosen value back exactly when its `Debug` text parses back to it |
| Forms.SelectReadBackQuotesStrings | src/form.rs:59-62 | for a `String` select field holding "M", the read-back as written is the quoted text "\"M\"", not "M" |
| Forms.ListBodyUnbracketed | src/form.rs:109-110 | trimming the brackets off a rendered list of listable values leaves the renderings joined by ",", each after the first with a leading space |
| Forms.SpacedPiecesParse | src/form.rs:111-113 | each of those pieces holds no comma and parses back to its value once quotes and spaces are trimmed |
| Forms.MultiselectRoundTrip | src/form.rs:108-115 | `get_value_vec` gives a filled multiselect field's values back when each value's rendering is not empty, has no bracket at either end and no comma, and parses back once quotes and spaces are trimmed |
| Forms.UnfilledMultiselectList | src/form.rs:108-115 | on an unfilled multiselect field, `get_value_vec` gives the parse of "" as a one-element list, not an empty list |
| FormBuilders.InOrder | src/form_builder.rs:158-162 | the entries are the map's values in key order, one per key below the counter |
| FormBuilders.FormBuilder.constructor | src/form_builder.rs:25-30 | no fields, and the counter at 0 |
| FormBuilders.FormBuilder.Insert | src/form_builder.rs:52-63 | the entry goes under the current counter, nothing else in the map changes, and the counter moves on by one |
| FormBuilders.FormBuilder.AddField | src/form_builder.rs:47-65 | a fresh, empty text field with the given name, prompt, type and validator goes under the current counter; nothing else in the map changes, and the counter moves on by one |
| FormBuilders.FormBuilder.AddSelect | src/form_builder.rs:82-104 | a fresh select field with the given options and nothing chosen goes under the current counter; nothing else changes, and the counter moves on by one |
| FormBuilders.FormBuilder.AddMultiselect | src/form_builder.rs:122-151 | a fresh multiselect field with the given options and limit and an empty selection goes under the current counter; nothing else changes, and the counter moves on by one |
| FormBuilders.FormBuilder.Build | src/form_builder.rs:158-162 | the form holds one entry per `add_*` call, in the order of the calls, and every field in it is distinct and valid |
| FormBuilders.DuplicateNames | src/form_builder.rs:47-65 | two fields added under one name are two entries, and lookup by that name finds the first |

## Left out

- The regular-expression validators (`validate_email`, `is_date`, `is_time`, `is_url`, `is_phone_number`, `is_postal_code`, `is_credit_card`, `is_uuid`) are left out, because they depend on the `regex` crate. `Validator::new` is the `Validator` constructor.
- `is_integer` and `is_float` are left out, because they only wrap the standard library's `i32` and `f64` parsers (src/validation.rs:97-99, 110-112), which the model does not reproduce.
- Optional.Eq: compares with Dafny's equality on `T`, which is an equivalence; the source uses `T`'s `PartialEq` (src/optional.rs:51-57), which for floats is not reflexive, so `Some(NaN) == Some(NaN)` is false there and true in the model.
- Switching the terminal into raw mode and back (`tcgetattr`/`tcsetattr` in `read_key_raw`) is left out, because it is a foreign call. The model assumes standard input is a terminal that accepts the attribute changes. Two consequences are not captured: the attributes are not restored when the read fails (src/input.rs:234-236), and the restore OR-s the flags back rather than restoring the saved attributes (src/input.rs:238).
- Output is left out: prompts, option lists, validation messages, `clear_screen`, and the error returned when flushing stdout fails. Prompts are stored but never shown.
- UTF-8 decoding of input lines is left out: each input byte becomes one character. This is exact for ASCII. Whitespace is the full Unicode White_Space set; the numeric and alphabetic classes are exact below U+0100 only, and treat every character from U+0100 on as neither.
- The `FromStr`, `Debug` and `Default` of the base types are parameters (`Codec`) rather than Rust's implementations. Likewise the `Debug` text of a parse error is whatever the parser reports.
- `Box<dyn FieldTrait>` and the `as_any` downcasts are replaced by the `FieldRef` datatype and type tags. `Ty` equality stands for a successful downcast.
- Optional.Add: it and `Sub`, `Mul` and `Div` are modelled on `Optional<int>` only, the instance the crate's tests use, without i32 overflow.
- Optional.Div requires a non-zero divisor when both values are present, because Rust panics there.
- Integer widths are not modelled: the builder's `u32` counter, the `usize` limit and byte lengths are unbounded.
- Terminal.ReadSelect and Terminal.ReadMultiselect require at least one option, and so do SelectFields.SelectField.Fill and MultiselectFields.MultiselectField.Fill. Forms.FillOne, Forms.Form.Fill and Forms.Form.FillEntry carry the same requirement for every select and multiselect field of the form. The widgets with no options are not modelled. There the source behaves as follows:
  - `read_select` panics on Enter, because `options[0]` is out of bounds, and on Down in a debug build, because `options.len() - 1` underflows;
  - `read_multiselect` panics on Space, because the toggle vector is empty, and on Down in a debug build; Enter never commits, because nothing can be chosen;
  - in both, a failed read or the end of input still returns "Failed to read from stdin" (src/input.rs:221-250).
- The loops that never end in the source are outcomes in the model: `Spins`, `Hangs` and `Stuck`. The model does not describe what happens after them.
- `src/main.rs` (the example program) and `src/lib.rs` (module declarations) are not part of this model.

## Findings

| source | as written | input that shows it | evidently intended | confidence | as-written member | corrected member |
|---|---|---|---|---|---|---|
| src/form.rs:59-62, 103-107 | a select field's value is read back by parsing the `Debug` text of the chosen option | a select field of `String` options where the user commits the option "M", read with `get_value::<String>`: `Debug` renders "\"M\"" and `String::from_str` keeps the quotes | the chosen option's value, "M" | not executed | Forms.SelectReadBackAsWritten, Forms.SelectReadBackQuotesStrings | Forms.Form.GetValue, Forms.Form.GetValueVec |
