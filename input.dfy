/** src/input.rs: the key table of `read_key_raw`, the two selection
    widgets and the `read_input` prompt loop. Standard input is an explicit
    stream of bytes that the operations consume from the front; keys and
    lines are read from the same stream, as both read `io::stdin()`. */
module Terminal {
  import opened Wrappers
  import opened Strings
  import opened Validation

  type byte = b: int | 0 <= b < 256

  /** One element of standard input: a byte, or a failure the operating
      system reports at that point (its `Debug` text). */
  datatype Input = Byte(b: byte) | Fault(detail: string)

  /** What a read produced and the input that is left after it. */
  datatype Reading<T> = Reading(result: Result<T>, rest: seq<Input>)

  /** `rest` is what remains of `input` after reading a prefix of it. */
  predicate IsSuffix(rest: seq<Input>, input: seq<Input>) {
    |rest| <= |input| && rest == input[|input| - |rest|..]
  }

  /** Reading is transitive: what is left after two reads is a suffix of
      the input to the first. */
  lemma SuffixTrans(rest: seq<Input>, mid: seq<Input>, input: seq<Input>)
    requires IsSuffix(rest, mid) && IsSuffix(mid, input)
    ensures IsSuffix(rest, input)
  {
    assert input[|input| - |mid|..][|mid| - |rest|..] == input[|input| - |rest|..];
  }

  /** `enum Key`. */
  datatype Key = Up | Down | Enter | Space | Other

  /** The byte table at the end of `read_key_raw`. */
  function KeyOf(b: byte): (k: Key)
    ensures k == Up <==> b == 65
    ensures k == Down <==> b == 66
    ensures k == Enter <==> b == 10
    ensures k == Space <==> b == 32
  {
    match b
    case 65 => Up
    case 66 => Down
    case 10 => Enter
    case 32 => Space
    case _ => Other
  }

  const ReadFailed: string := "Failed to read from stdin"

  /** `read_key_raw` without its terminal mode switching: one byte is taken
      from the input and classified; a failed read, and the end of input
      (`read_exact` cannot fill its buffer), give the read error. */
  function ReadKey(input: seq<Input>): (r: Reading<Key>)
    ensures |input| == 0 ==> r == Reading(Err(ReadFailed), [])
    ensures |input| > 0 ==> r.rest == input[1..]
    ensures r.result.Ok? <==> |input| > 0 && input[0].Byte?
    ensures r.result.Ok? ==> r.result.value == KeyOf(input[0].b)
    ensures r.result.Err? ==> r.result.error == ReadFailed
  {
    if |input| == 0 then Reading(Err(ReadFailed), [])
    else match input[0]
      case Byte(b) => Reading(Ok(KeyOf(b)), input[1..])
      case Fault(_) => Reading(Err(ReadFailed), input[1..])
  }

  /** `BufRead::read_line`: the bytes up to and including the first line
      feed, or to the end of input; at the end of input it yields "" and
      consumes nothing. Bytes are read as the characters with those codes. */
  function ReadLine(input: seq<Input>): (r: Reading<string>)
    ensures |input| == 0 ==> r == Reading(Ok(""), [])
    ensures IsSuffix(r.rest, input) && (|input| > 0 ==> |r.rest| < |input|)
    ensures r.result.Ok? ==> forall j :: 0 <= j < |r.result.value| - 1 ==> r.result.value[j] != '\n'
    decreases |input|
  {
    if |input| == 0 then Reading(Ok(""), [])
    else match input[0]
      case Fault(d) => Reading(Err(d), input[1..])
      case Byte(b) =>
        if b == 10 then Reading(Ok("\n"), input[1..])
        else
          var tail := ReadLine(input[1..]);
          match tail.result
          case Ok(line) =>
            Reading(Ok([b as char] + line), tail.rest)
          case Err(_) => tail
  }

  /** What a successful `read_line` consumed: the line is exactly the bytes
      taken, as characters, and ends with the line feed unless the input
      ran out. */
  lemma {:induction false} ReadLineContent(input: seq<Input>)
    ensures var r := ReadLine(input); var n := |input| - |r.rest|;
      r.result.Ok? ==> (|r.result.value| == n
        && (forall j :: 0 <= j < n ==> input[j].Byte? && input[j].b as char == r.result.value[j])
        && (|r.rest| > 0 ==> n > 0 && r.result.value[n - 1] == '\n'))
    decreases |input|
  {
    if |input| > 0 && input[0].Byte? && input[0].b != 10 {
      ReadLineContent(input[1..]);
      var tail := ReadLine(input[1..]);
      forall j | 1 <= j < |input| - |tail.rest| ensures input[j] == input[1..][j - 1] { }
    }
  }

  /** What a failed `read_line` consumed: bytes that are no line feed and
      then the failure, whose text is the error. */
  lemma {:induction false} ReadLineFault(input: seq<Input>)
    ensures var r := ReadLine(input); var n := |input| - |r.rest|;
      r.result.Err? ==> (0 < n && input[n - 1] == Fault(r.result.error)
        && (forall j :: 0 <= j < n - 1 ==> input[j].Byte? && input[j].b != 10))
    decreases |input|
  {
    if |input| > 0 && input[0].Byte? && input[0].b != 10 {
      ReadLineFault(input[1..]);
      var tail := ReadLine(input[1..]);
      forall j | 1 <= j < |input| - |tail.rest| ensures input[j] == input[1..][j - 1] { }
    }
  }

  /** The bytes of a string whose characters all fit in a byte. */
  function Bytes(s: string): (r: seq<Input>)
    requires forall i :: 0 <= i < |s| ==> s[i] as int < 256
    ensures |r| == |s| && forall i :: 0 <= i < |s| ==> r[i] == Byte(s[i] as int)
  {
    if |s| == 0 then [] else [Byte(s[0] as int)] + Bytes(s[1..])
  }

  /** A typed line is read up to and including its line feed, and the
      input after it is left unread. */
  lemma {:induction false} ReadLineOfBytes(line: string, rest: seq<Input>)
    requires forall i :: 0 <= i < |line| ==> line[i] != '\n' && line[i] as int < 256
    ensures ReadLine(Bytes(line + "\n") + rest) == Reading(Ok(line + "\n"), rest)
  {
    var input := Bytes(line + "\n") + rest;
    if |line| == 0 {
      assert line + "\n" == "\n";
      assert input[0] == Byte(10) && input[1..] == rest;
    } else {
      assert input[0] == Byte(line[0] as int);
      assert (line + "\n")[1..] == line[1..] + "\n";
      assert input[1..] == Bytes(line[1..] + "\n") + rest;
      ReadLineOfBytes(line[1..], rest);
      assert [line[0]] + (line[1..] + "\n") == line + "\n";
    }
  }

  /** The cursor step shared by both widgets: Up stops at 0, Down stops at
      the last option, every other key leaves the cursor where it is. */
  function Move(n: nat, cursor: nat, k: Key): (c: nat)
    requires cursor < n
    ensures c < n
    ensures k == Up ==> c == if cursor == 0 then 0 else cursor - 1
    ensures k == Down ==> c == if cursor == n - 1 then cursor else cursor + 1
    ensures k != Up && k != Down ==> c == cursor
  {
    match k
    case Up => if cursor > 0 then cursor - 1 else cursor
    case Down => if cursor < n - 1 then cursor + 1 else cursor
    case _ => cursor
  }

  /** `read_select` from a given cursor: keys are read until Enter commits
      the option under the cursor or a read fails. A committed value is
      always one of the options' values. */
  function SelectFrom<T>(options: seq<(T, string)>, cursor: nat, input: seq<Input>): (r: Reading<T>)
    requires cursor < |options|
    ensures r.result.Ok? ==> exists i :: 0 <= i < |options| && options[i].0 == r.result.value
    ensures r.result.Err? ==> r.result.error == ReadFailed
    ensures IsSuffix(r.rest, input)
    ensures |input| > 0 && input[0] == Byte(10) ==> r == Reading(Ok(options[cursor].0), input[1..])
    decreases |input|
  {
    var key := ReadKey(input);
    match key.result
    case Err(e) => Reading(Err(e), key.rest)
    case Ok(Enter) => Reading(Ok(options[cursor].0), key.rest)
    case Ok(k) =>
      var r := SelectFrom(options, Move(|options|, cursor, k), key.rest);
      SuffixTrans(r.rest, key.rest, input);
      r
  }

  /** One key that is not Enter moves the cursor and reading goes on. */
  lemma SelectStep<T>(options: seq<(T, string)>, cursor: nat, input: seq<Input>)
    requires cursor < |options|
    requires ReadKey(input).result.Ok? && ReadKey(input).result.value != Enter
    ensures SelectFrom(options, cursor, input)
      == SelectFrom(options, Move(|options|, cursor, ReadKey(input).result.value), ReadKey(input).rest)
  {
  }

  /** `read_select`: the cursor starts on the first option. The options
      must not be empty: `options.len() - 1` underflows on Down and
      `options[0]` is out of bounds on Enter. */
  method ReadSelect<T>(options: seq<(T, string)>, input: seq<Input>) returns (r: Reading<T>)
    requires |options| > 0
    ensures r == SelectFrom(options, 0, input)
  {
    var selected := 0;
    var rest := input;
    while true
      invariant selected < |options|
      invariant SelectFrom(options, selected, rest) == SelectFrom(options, 0, input)
      decreases |rest|
    {
      var key := ReadKey(rest);
      if key.result.Err? {
        return Reading(Err(key.result.error), key.rest);
      }
      if key.result.value != Enter {
        SelectStep(options, selected, rest);
      }
      match key.result.value {
        case Up =>
          if selected > 0 {
            selected := selected - 1;
          }
        case Down =>
          if selected < |options| - 1 {
            selected := selected + 1;
          }
        case Enter =>
          return Reading(Ok(options[selected].0), key.rest);
        case _ =>
      }
      rest := key.rest;
    }
  }

  /** Number of toggles that are on (`iter().filter(|&&x| x).count()`). */
  function CountOn(toggles: seq<bool>): (n: nat)
    ensures n <= |toggles|
  {
    if |toggles| == 0 then 0 else (if toggles[0] then 1 else 0) + CountOn(toggles[1..])
  }

  /** The toggles respect the selection limit, if there is one. */
  predicate Within(toggles: seq<bool>, limit: Option<nat>) {
    limit.None? || CountOn(toggles) <= limit.value
  }

  /** The values of the options whose toggle is on, in option order (the
      `enumerate().filter().map().collect()` of the Enter branch). */
  function Chosen<T>(options: seq<(T, string)>, toggles: seq<bool>): (r: seq<T>)
    requires |toggles| == |options|
    ensures |r| == CountOn(toggles)
  {
    if |options| == 0 then []
    else (if toggles[0] then [options[0].0] else []) + Chosen(options[1..], toggles[1..])
  }

  /** Every chosen value is the value of an option whose toggle is on. */
  lemma {:induction false} ChosenFromToggledOptions<T>(options: seq<(T, string)>, toggles: seq<bool>, k: nat)
    requires |toggles| == |options| && k < |Chosen(options, toggles)|
    ensures exists i :: 0 <= i < |options| && toggles[i] && options[i].0 == Chosen(options, toggles)[k]
  {
    if toggles[0] && k == 0 {
      assert options[0].0 == Chosen(options, toggles)[0];
    } else {
      var k' := if toggles[0] then k - 1 else k;
      ChosenFromToggledOptions(options[1..], toggles[1..], k');
      var i :| 0 <= i < |options[1..]| && toggles[1..][i] && options[1..][i].0 == Chosen(options[1..], toggles[1..])[k'];
      assert toggles[i + 1] && options[i + 1].0 == Chosen(options, toggles)[k];
    }
  }

  /** Turning toggle `i` off or on changes the count by exactly one. */
  lemma {:induction false} CountOnUpdate(toggles: seq<bool>, i: nat, on: bool)
    requires i < |toggles|
    ensures CountOn(toggles[i := on]) ==
      CountOn(toggles) - (if toggles[i] then 1 else 0) + (if on then 1 else 0)
  {
    if i > 0 {
      assert toggles[i := on][1..] == toggles[1..][i - 1 := on];
      CountOnUpdate(toggles[1..], i - 1, on);
    } else {
      assert toggles[i := on][1..] == toggles[1..];
    }
  }

  /** The Space branch of `read_multiselect`: an option that is on is always
      turned off; one that is off is turned on only while the count is
      below the limit. The limit is never exceeded, and only toggle `i`
      can change. */
  function Toggle(toggles: seq<bool>, i: nat, limit: Option<nat>): (r: seq<bool>)
    requires i < |toggles|
    ensures |r| == |toggles| && forall j :: 0 <= j < |r| && j != i ==> r[j] == toggles[j]
    ensures Within(toggles, limit) ==> Within(r, limit)
    ensures toggles[i] ==> !r[i]
    ensures !toggles[i] ==> (r[i] <==> limit.None? || CountOn(toggles) < limit.value)
  {
    if toggles[i] then
      CountOnUpdate(toggles, i, false);
      toggles[i := false]
    else if limit.None? || CountOn(toggles) < limit.value then
      CountOnUpdate(toggles, i, true);
      toggles[i := true]
    else toggles
  }

  /** `read_multiselect` from a given state: Up and Down move the cursor,
      Space toggles the option under it, Enter commits the chosen values
      when there is at least one and is ignored otherwise. A committed
      selection is never empty, respects the limit, and is the values of
      some toggles in option order. */
  function MultiFrom<T>(options: seq<(T, string)>, limit: Option<nat>, cursor: nat, toggles: seq<bool>, input: seq<Input>): (r: Reading<seq<T>>)
    requires cursor < |options| && |toggles| == |options| && Within(toggles, limit)
    ensures r.result.Ok? ==> |r.result.value| > 0
    ensures r.result.Ok? && limit.Some? ==> |r.result.value| <= limit.value
    ensures r.result.Err? ==> r.result.error == ReadFailed
    ensures IsSuffix(r.rest, input)
    decreases |input|
  {
    var key := ReadKey(input);
    match key.result
    case Err(e) => Reading(Err(e), key.rest)
    case Ok(k) =>
      if k == Enter && |Chosen(options, toggles)| > 0 then
        Reading(Ok(Chosen(options, toggles)), key.rest)
      else if k == Space then
        var r := MultiFrom(options, limit, cursor, Toggle(toggles, cursor, limit), key.rest);
        SuffixTrans(r.rest, key.rest, input);
        r
      else
        var r := MultiFrom(options, limit, Move(|options|, cursor, k), toggles, key.rest);
        SuffixTrans(r.rest, key.rest, input);
        r
  }

  /** One key read by the multiselect widget: Enter with something chosen
      commits, Space toggles, any other key moves the cursor. */
  lemma MultiStep<T>(options: seq<(T, string)>, limit: Option<nat>, cursor: nat, toggles: seq<bool>, input: seq<Input>)
    requires cursor < |options| && |toggles| == |options| && Within(toggles, limit)
    requires ReadKey(input).result.Ok?
    ensures var k := ReadKey(input).result.value;
      k == Enter && |Chosen(options, toggles)| > 0 ==>
        MultiFrom(options, limit, cursor, toggles, input) == Reading(Ok(Chosen(options, toggles)), ReadKey(input).rest)
    ensures ReadKey(input).result.value == Space ==>
      MultiFrom(options, limit, cursor, toggles, input)
      == MultiFrom(options, limit, cursor, Toggle(toggles, cursor, limit), ReadKey(input).rest)
    ensures var k := ReadKey(input).result.value;
      k != Space && !(k == Enter && |Chosen(options, toggles)| > 0) ==>
        MultiFrom(options, limit, cursor, toggles, input)
        == MultiFrom(options, limit, Move(|options|, cursor, k), toggles, ReadKey(input).rest)
  {
  }

  /** A committed selection is the values of some toggles that respect the
      limit, in option order. */
  lemma {:induction false} MultiFromCommitsChosen<T>(options: seq<(T, string)>, limit: Option<nat>, cursor: nat, toggles: seq<bool>, input: seq<Input>)
    requires cursor < |options| && |toggles| == |options| && Within(toggles, limit)
    ensures var r := MultiFrom(options, limit, cursor, toggles, input);
      r.result.Ok? ==> exists t :: |t| == |options| && Within(t, limit) && Chosen(options, t) == r.result.value
    decreases |input|
  {
    var key := ReadKey(input);
    if key.result.Ok? {
      var k := key.result.value;
      if k == Enter && |Chosen(options, toggles)| > 0 {
        assert Chosen(options, toggles) == MultiFrom(options, limit, cursor, toggles, input).result.value;
      } else if k == Space {
        MultiFromCommitsChosen(options, limit, cursor, Toggle(toggles, cursor, limit), key.rest);
      } else {
        MultiFromCommitsChosen(options, limit, Move(|options|, cursor, k), toggles, key.rest);
      }
    }
  }

  /** All toggles off: the state `read_multiselect` starts from. */
  function AllOff(n: nat): (t: seq<bool>)
    ensures |t| == n && CountOn(t) == 0
    ensures forall i :: 0 <= i < n ==> !t[i]
  {
    if n == 0 then [] else [false] + AllOff(n - 1)
  }

  /** The Space branch of `read_multiselect`, on the toggles array in
      place: switch the toggle under the cursor off, or on if the limit
      leaves room. */
  method ToggleAt(selectedOptions: array<bool>, selected: nat, limit: Option<nat>)
    requires selected < selectedOptions.Length
    modifies selectedOptions
    ensures selectedOptions[..] == Toggle(old(selectedOptions[..]), selected, limit)
  {
    if selectedOptions[selected] {
      selectedOptions[selected] := false;
    } else if limit.None? || CountOn(selectedOptions[..]) < limit.value {
      selectedOptions[selected] := true;
    }
  }

  /** `read_multiselect`: the cursor starts on the first option with every
      toggle off, and the toggles live in an array updated in place. The
      options must not be empty: Down underflows `options.len() - 1` and
      Space indexes `selected_options[0]`. */
  method ReadMultiselect<T>(options: seq<(T, string)>, limit: Option<nat>, input: seq<Input>) returns (r: Reading<seq<T>>)
    requires |options| > 0
    ensures r == MultiFrom(options, limit, 0, AllOff(|options|), input)
  {
    var selected := 0;
    var selectedOptions := new bool[|options|](_ => false);
    ghost var goal := MultiFrom(options, limit, 0, AllOff(|options|), input);
    ghost var toggles := AllOff(|options|);
    assert selectedOptions[..] == toggles;
    var rest := input;
    while true
      invariant selected < |options| && selectedOptions.Length == |options|
      invariant selectedOptions[..] == toggles && Within(toggles, limit)
      invariant MultiFrom(options, limit, selected, toggles, rest) == goal
      decreases |rest|
    {
      var key := ReadKey(rest);
      if key.result.Err? {
        return Reading(Err(key.result.error), key.rest);
      }
      match key.result.value {
        case Up =>
          MultiStep(options, limit, selected, toggles, rest);
          if selected > 0 {
            selected := selected - 1;
          }
        case Down =>
          MultiStep(options, limit, selected, toggles, rest);
          if selected < |options| - 1 {
            selected := selected + 1;
          }
        case Space =>
          MultiStep(options, limit, selected, toggles, rest);
          ToggleAt(selectedOptions, selected, limit);
          toggles := Toggle(toggles, selected, limit);
        case Enter =>
          var selectedKeys := Chosen(options, selectedOptions[..]);
          MultiStep(options, limit, selected, toggles, rest);
          if |selectedKeys| > 0 {
            return Reading(Ok(selectedKeys), key.rest);
          }
        case Other =>
          MultiStep(options, limit, selected, toggles, rest);
      }
      rest := key.rest;
    }
  }

  /** Enter with nothing toggled does not commit: the widget carries on
      reading keys from the same state. */
  lemma EnterWithNothingChosen<T>(options: seq<(T, string)>, limit: Option<nat>, cursor: nat, toggles: seq<bool>, rest: seq<Input>)
    requires cursor < |options| && |toggles| == |options| && Within(toggles, limit)
    requires CountOn(toggles) == 0
    ensures MultiFrom(options, limit, cursor, toggles, [Byte(10)] + rest)
         == MultiFrom(options, limit, cursor, toggles, rest)
  {
    assert ([Byte(10)] + rest)[1..] == rest;
  }

  /** An arrow key sends ESC '[' 'A' (or 'B'); ESC and '[' classify as Other
      and leave the widget unchanged, so the sequence acts as a bare Up (or
      Down). The letters 'A' and 'B' typed on their own move the cursor too. */
  lemma ArrowEscapeSequence<T>(options: seq<(T, string)>, cursor: nat, letter: byte, rest: seq<Input>)
    requires cursor < |options|
    requires letter == 65 || letter == 66
    ensures SelectFrom(options, cursor, [Byte(27), Byte(91), Byte(letter)] + rest)
         == SelectFrom(options, cursor, [Byte(letter)] + rest)
  {
    var s := [Byte(27), Byte(91), Byte(letter)] + rest;
    assert s[1..] == [Byte(91), Byte(letter)] + rest;
    assert s[1..][1..] == [Byte(letter)] + rest;
  }

  /** Options a, b, c with limit 2: toggling a and b and then trying c
      commits exactly [a, b]. */
  lemma LimitExample()
    ensures var keys := [Byte(32), Byte(66), Byte(32), Byte(66), Byte(32), Byte(10)];
      MultiFrom([("a", "A"), ("b", "B"), ("c", "C")], Some(2), 0, AllOff(3), keys).result == Ok(["a", "b"])
  {
    var options := [("a", "A"), ("b", "B"), ("c", "C")];
    var keys := [Byte(32), Byte(66), Byte(32), Byte(66), Byte(32), Byte(10)];
    var t0 := AllOff(3);
    assert t0 == [false, false, false];
    var t1 := Toggle(t0, 0, Some(2));
    assert t1 == [true, false, false];
    var t2 := Toggle(t1, 1, Some(2));
    assert CountOn(t1) == 1;
    assert t2 == [true, true, false];
    assert CountOn(t2) == 2;
    assert Toggle(t2, 2, Some(2)) == t2;
    assert Chosen(options, t2) == ["a", "b"];
    assert keys[1..] == [Byte(66), Byte(32), Byte(66), Byte(32), Byte(10)];
    assert keys[2..] == keys[1..][1..];
    assert keys[3..] == keys[2..][1..];
    assert keys[4..] == keys[3..][1..];
    assert keys[5..] == keys[4..][1..];
    assert MultiFrom(options, Some(2), 2, t2, keys[5..]).result == Ok(["a", "b"]);
    assert MultiFrom(options, Some(2), 2, t2, keys[4..]).result == Ok(["a", "b"]);
    assert MultiFrom(options, Some(2), 1, t2, keys[3..]).result == Ok(["a", "b"]);
    assert MultiFrom(options, Some(2), 1, t1, keys[2..]).result == Ok(["a", "b"]);
    assert MultiFrom(options, Some(2), 0, t1, keys[1..]).result == Ok(["a", "b"]);
  }

  const LineFailedPrefix: string := "Failed to read line: "

  /** What `read_input` does with one prompt: the trimmed text the
      validator accepted and its parse, a failed line read, or an endless
      loop. */
  datatype Prompted<T> =
    | Accepted(text: string, parsed: Result<T>, rest: seq<Input>)
    | LineFailed(error: string, rest: seq<Input>)
    | Spins

  /** The `Result` `read_input` returns when it returns. */
  function Returned<T>(p: Prompted<T>): Result<T>
    requires !p.Spins?
  {
    match p
    case Accepted(_, parsed, _) => parsed
    case LineFailed(e, _) => Err(e)
  }

  /** The field's validator, if it has one, accepts `text`. */
  predicate Accepts(validator: Option<Validator>, text: string) {
    validator.None? || validator.value.Validate(text).Ok?
  }

  /** `read_input`: read a line and trim it; while the validator rejects it,
      read the next line; return the parse of the first accepted text, a
      parse error included. At the end of input `read_line` keeps yielding
      "", so a validator that rejects "" makes the loop spin forever
      (`SpinsOnlyOnRejectedEmpty`). */
  function ReadInputFrom<T>(validator: Option<Validator>, parse: string -> Result<T>, input: seq<Input>): (r: Prompted<T>)
    ensures r.Accepted? ==> Accepts(validator, r.text)
    ensures r.Accepted? ==> r.parsed == parse(r.text)
    ensures r.Accepted? ==> Trimmed(r.text)
    ensures r.LineFailed? ==> LineFailedPrefix <= r.error
    ensures !r.Spins? ==> IsSuffix(r.rest, input) && (|input| > 0 ==> |r.rest| < |input|)
    decreases |input|
  {
    var line := ReadLine(input);
    if line.result.Err? then LineFailed(LineFailedPrefix + line.result.error, line.rest)
    else
      var text := Trim(line.result.value);
      if Accepts(validator, text) then Accepted(text, parse(text), line.rest)
      else if |input| == 0 then Spins
      else
        var r := ReadInputFrom(validator, parse, line.rest);
        if r.Spins? then r
        else
          SuffixTrans(r.rest, line.rest, input);
          r
  }

  /** At the end of input the prompt loop either accepts the empty line
      `read_line` yields there or spins on it. */
  lemma ReadInputAtEnd<T>(validator: Option<Validator>, parse: string -> Result<T>, input: seq<Input>)
    requires |input| == 0
    ensures ReadInputFrom(validator, parse, input)
      == if Accepts(validator, "") then Accepted("", parse(""), input) else Spins
  {
    var line := ReadLine(input);
    assert line.result.value == "" && line.rest == input;
    assert |Trim(line.result.value)| == 0;
  }

  /** A typed line the validator rejects is passed over: the prompt loop
      goes on as if the input started after it. */
  lemma {:induction false} ReadInputSkipsRejected<T>(validator: Option<Validator>, parse: string -> Result<T>, line: string, rest: seq<Input>)
    requires forall i :: 0 <= i < |line| ==> line[i] != '\n' && line[i] as int < 256
    requires !Accepts(validator, Trim(line))
    ensures ReadInputFrom(validator, parse, Bytes(line + "\n") + rest) == ReadInputFrom(validator, parse, rest)
  {
    var input := Bytes(line + "\n") + rest;
    ReadLineOfBytes(line, rest);
    TrimDropsNewline(line);
    var read := ReadLine(input);
    assert read.result == Ok(line + "\n") && read.rest == rest;
    assert !Accepts(validator, Trim(read.result.value));
    assert |input| > 0;
  }

  /** A typed line whose trimmed text the validator accepts ends the
      prompt: its text and that text's parse are returned, and the input
      after the line is left unread. */
  lemma {:induction false} ReadInputTakesAccepted<T>(validator: Option<Validator>, parse: string -> Result<T>, line: string, rest: seq<Input>)
    requires forall i :: 0 <= i < |line| ==> line[i] != '\n' && line[i] as int < 256
    requires Accepts(validator, Trim(line))
    ensures ReadInputFrom(validator, parse, Bytes(line + "\n") + rest) == Accepted(Trim(line), parse(Trim(line)), rest)
  {
    var input := Bytes(line + "\n") + rest;
    ReadLineOfBytes(line, rest);
    TrimDropsNewline(line);
    ReadInputOfLine(validator, parse, input);
  }

  /** The name rules of the crate's tests: no digit, and not empty. */
  function NameRules(): (v: Option<Validator>)
    ensures v.Some? && |v.value.validations| == 2
  {
    Some(Validator([Rule(ValidateName, Some("Invalid name")), Rule(NotEmpty, Some("Input cannot be empty"))]))
  }

  /** The name rules reject "John123", which holds digits, and accept
      "John"; neither has anything to trim. */
  lemma NameRulesVerdicts(bad: string, good: string)
    requires bad == "John123" && good == "John"
    ensures !Accepts(NameRules(), Trim(bad)) && Accepts(NameRules(), Trim(good))
    ensures Trim(good) == good
  {
    TrimOfTrimmed(bad);
    TrimOfTrimmed(good);
    var rules := NameRules().value.validations;
    assert IsNumeric(bad[4]);
    assert !rules[0].check(bad);
    assert rules[0].check(good) && rules[1].check(good);
  }

  /** Both names are one-byte characters with no line feed. */
  lemma NameLinesPlain(bad: string, good: string)
    requires bad == "John123" && good == "John"
    ensures forall i :: 0 <= i < |bad| ==> bad[i] != '\n' && bad[i] as int < 256
    ensures forall i :: 0 <= i < |good| ==> good[i] != '\n' && good[i] as int < 256
  {
  }

  /** The name prompt of the crate's tests: "John123" breaks the no-digit
      rule and is asked again, "John" is then accepted. */
  lemma NamePromptExample<T>(parse: string -> Result<T>, bad: string, good: string, rest: seq<Input>)
    requires bad == "John123" && good == "John"
    ensures ReadInputFrom(NameRules(), parse, Bytes(bad + "\n") + (Bytes(good + "\n") + rest))
      == Accepted(good, parse(good), rest)
  {
    NameRulesVerdicts(bad, good);
    NameLinesPlain(bad, good);
    ReadInputSkipsRejected(NameRules(), parse, bad, Bytes(good + "\n") + rest);
    ReadInputTakesAccepted(NameRules(), parse, good, rest);
  }

  /** One step of the prompt loop: a line read whose trimmed text the
      validator accepts ends it. */
  lemma ReadInputOfLine<T>(validator: Option<Validator>, parse: string -> Result<T>, input: seq<Input>)
    requires ReadLine(input).result.Ok? && Accepts(validator, Trim(ReadLine(input).result.value))
    ensures ReadInputFrom(validator, parse, input)
      == Accepted(Trim(ReadLine(input).result.value), parse(Trim(ReadLine(input).result.value)), ReadLine(input).rest)
  {
  }

  /** The prompt loop spins exactly when the input runs out and the
      validator rejects the empty line, which is all `read_line` yields
      from then on. */
  lemma {:induction false} SpinsOnlyOnRejectedEmpty<T>(validator: Option<Validator>, parse: string -> Result<T>, input: seq<Input>)
    ensures ReadInputFrom(validator, parse, input).Spins? ==> validator.Some? && validator.value.Validate("").Err?
    ensures |input| == 0 ==> (ReadInputFrom(validator, parse, input).Spins? <==> !Accepts(validator, ""))
    decreases |input|
  {
    var line := ReadLine(input);
    if |input| == 0 {
      assert |Trim(line.result.value)| == 0;
    }
    if line.result.Ok? && !Accepts(validator, Trim(line.result.value)) && |input| > 0 {
      SpinsOnlyOnRejectedEmpty(validator, parse, line.rest);
    }
  }

  /** `read_input`, as the loop it is. */
  method ReadInput<T>(validator: Option<Validator>, parse: string -> Result<T>, input: seq<Input>) returns (r: Prompted<T>)
    ensures r == ReadInputFrom(validator, parse, input)
  {
    var rest := input;
    while true
      invariant ReadInputFrom(validator, parse, rest) == ReadInputFrom(validator, parse, input)
      decreases |rest|
    {
      var line := ReadLine(rest);
      if line.result.Err? {
        return LineFailed(LineFailedPrefix + line.result.error, line.rest);
      }
      var text := Trim(line.result.value);
      if !Accepts(validator, text) {
        if |rest| == 0 {
          return Spins;
        }
        rest := line.rest;
      } else {
        return Accepted(text, parse(text), line.rest);
      }
    }
  }
}
