/** src/form.rs: the form, an ordered list of named fields, and the typed
    retrieval of their values. */
module Forms {
  import opened Wrappers
  import opened Strings
  import opened Validation
  import opened Values
  import Optional
  import opened Terminal
  import opened Fields
  import opened SelectFields
  import opened MultiselectFields

  /** `Box<dyn FieldTrait>`: which of the three field structs is boxed. */
  datatype FieldRef = Text(text: Field) | Select(select: SelectField) | Multi(multi: MultiselectField)

  function Obj(f: FieldRef): object {
    match f
    case Text(x) => x
    case Select(x) => x
    case Multi(x) => x
  }

  predicate FieldValid(f: FieldRef)
    reads Obj(f)
  {
    match f
    case Text(x) => x.Valid()
    case Select(x) => x.Valid()
    case Multi(x) => x.Valid()
  }

  /** The fixed configuration of a field, which `fill` reads. */
  datatype Kind =
    | TextKind(ty: Ty, validator: Option<Validator>)
    | SelectKind(ty: Ty, options: seq<(Value, string)>)
    | MultiKind(ty: Ty, options: seq<(Value, string)>, limit: Option<nat>)

  function KindOf(f: FieldRef): Kind {
    match f
    case Text(x) => TextKind(x.ty, x.validator)
    case Select(x) => SelectKind(x.ty, x.options)
    case Multi(x) => MultiKind(x.ty, x.options, x.limit)
  }

  /** A field's widget can run: the selection widgets need an option. */
  predicate Ready(k: Kind) {
    k.TextKind? || |k.options| > 0
  }

  /** The value slot of a field. */
  datatype Slot = One(value: Option<Value>) | Many(values: seq<Value>)

  function SlotOf(f: FieldRef): Slot
    reads Obj(f)
  {
    match f
    case Text(x) => One(x.value)
    case Select(x) => One(x.value)
    case Multi(x) => Many(x.value)
  }

  /** What a successful `fill` leaves in a field's slot: a value of the
      field's type, one of the options, or a non-empty selection within the
      limit. */
  predicate Holds(k: Kind, slot: Slot) {
    match k
    case TextKind(ty, _) => slot.One? && slot.value.Some? && HasType(slot.value.value, ty)
    case SelectKind(_, options) =>
      slot.One? && slot.value.Some? && exists i :: 0 <= i < |options| && options[i].0 == slot.value.value
    case MultiKind(_, _, limit) =>
      slot.Many? && |slot.values| > 0 && (limit.Some? ==> |slot.values| <= limit.value)
  }

  /** One field's `fill` on the input: the slot afterwards and the outcome.
      Only a text field can hang, and only a selection widget can fail. */
  function FillOne(c: Codec, k: Kind, slot: Slot, input: seq<Input>): (r: (Slot, Filled))
    requires Ready(k)
    ensures r.1.Done? ==> Holds(k, r.0) && IsSuffix(r.1.rest, input)
    ensures !r.1.Done? ==> r.0 == slot
    ensures r.1.Failed? ==> !k.TextKind? && r.1.error == ReadFailed
    ensures r.1.Hangs? ==> k.TextKind?
  {
    match k
    case TextKind(ty, validator) =>
      var e := TextFill(c, ty, validator, input);
      if e.Entered? then (One(Some(e.value)), Done(e.rest)) else (slot, Hangs)
    case SelectKind(_, options) =>
      var s := SelectFrom(options, 0, input);
      if s.result.Ok? then (One(Some(s.result.value)), Done(s.rest))
      else (slot, Failed(s.result.error, s.rest))
    case MultiKind(_, options, limit) =>
      var s := MultiFrom(options, limit, 0, AllOff(|options|), input);
      if s.result.Ok? then (Many(s.result.value), Done(s.rest))
      else (slot, Failed(s.result.error, s.rest))
  }

  /** The fields `i` to `k - 1` hold what a successful `fill` leaves, and
      the fields from `k` on are as they were. */
  predicate StoppedAt(kinds: seq<Kind>, before: seq<Slot>, after: seq<Slot>, i: nat, k: nat)
    requires |before| == |after| == |kinds| && i <= k <= |kinds|
  {
    (forall j :: i <= j < k ==> Holds(kinds[j], after[j])) &&
    (forall j :: k <= j < |kinds| ==> after[j] == before[j])
  }

  /** `Form::fill` from field `i` on: each field is filled in key order on
      what the previous one left of the input, and the first failure or
      hang ends the run. On success every field holds a value; otherwise
      the fields from the one that stopped on are untouched. */
  function FillFrom(c: Codec, kinds: seq<Kind>, slots: seq<Slot>, i: nat, input: seq<Input>): (r: (seq<Slot>, Filled))
    requires |slots| == |kinds| && i <= |kinds|
    requires forall j :: 0 <= j < |kinds| ==> Ready(kinds[j])
    ensures |r.0| == |slots|
    ensures forall j :: 0 <= j < i ==> r.0[j] == slots[j]
    ensures r.1.Done? ==> StoppedAt(kinds, slots, r.0, i, |kinds|) && IsSuffix(r.1.rest, input)
    ensures !r.1.Done? ==> exists k :: i <= k < |kinds| && StoppedAt(kinds, slots, r.0, i, k)
    decreases |kinds| - i
  {
    if i == |kinds| then (slots, Done(input))
    else
      var step := FillOne(c, kinds[i], slots[i], input);
      if step.1.Done? then
        var r := FillFrom(c, kinds, slots[i := step.0], i + 1, step.1.rest);
        if r.1.Done? then
          SuffixTrans(r.1.rest, step.1.rest, input);
          r
        else
          assert exists k :: i <= k < |kinds| && StoppedAt(kinds, slots, r.0, i, k) by {
            var k :| i + 1 <= k < |kinds| && StoppedAt(kinds, slots[i := step.0], r.0, i + 1, k);
            assert StoppedAt(kinds, slots, r.0, i, k);
          }
          r
      else
        assert StoppedAt(kinds, slots, slots[i := step.0], i, i);
        (slots[i := step.0], step.1)
  }

  /** One step of `FillFrom`: field `i` is filled, and on success the run
      goes on from field `i + 1` on what it left of the input. */
  lemma FillFromStep(c: Codec, kinds: seq<Kind>, slots: seq<Slot>, i: nat, input: seq<Input>,
                     after: seq<Slot>, r: Filled)
    requires |slots| == |kinds| && i < |kinds|
    requires forall j :: 0 <= j < |kinds| ==> Ready(kinds[j])
    requires |after| == |slots| && after == slots[i := after[i]]
    requires FillOne(c, kinds[i], slots[i], input) == (after[i], r)
    ensures r.Done? ==> FillFrom(c, kinds, after, i + 1, r.rest) == FillFrom(c, kinds, slots, i, input)
    ensures !r.Done? ==> FillFrom(c, kinds, slots, i, input) == (after, r)
  {
  }

  function ObjectsOf(entries: seq<(string, FieldRef)>): (r: set<object>)
    ensures forall j :: 0 <= j < |entries| ==> Obj(entries[j].1) in r
  {
    if |entries| == 0 then {}
    else
      var r := {Obj(entries[0].1)} + ObjectsOf(entries[1..]);
      assert forall j :: 1 <= j < |entries| ==> entries[j] == entries[1..][j - 1];
      r
  }

  function KindsOf(entries: seq<(string, FieldRef)>): (r: seq<Kind>)
    ensures |r| == |entries| && forall j :: 0 <= j < |entries| ==> r[j] == KindOf(entries[j].1)
  {
    if |entries| == 0 then [] else [KindOf(entries[0].1)] + KindsOf(entries[1..])
  }

  function SlotsOf(entries: seq<(string, FieldRef)>): (r: seq<Slot>)
    reads ObjectsOf(entries)
    ensures |r| == |entries| && forall j :: 0 <= j < |entries| ==> r[j] == SlotOf(entries[j].1)
  {
    if |entries| == 0 then [] else [SlotOf(entries[0].1)] + SlotsOf(entries[1..])
  }

  /** The position of the first entry called `name`. */
  function FirstNamed(entries: seq<(string, FieldRef)>, name: string): (r: Option<nat>)
    ensures r.Some? ==> r.value < |entries| && entries[r.value].0 == name
    ensures r.Some? ==> forall j :: 0 <= j < r.value ==> entries[j].0 != name
    ensures r.None? ==> forall j :: 0 <= j < |entries| ==> entries[j].0 != name
  {
    if |entries| == 0 then None
    else if entries[0].0 == name then Some(0)
    else
      match FirstNamed(entries[1..], name)
      case None => None
      case Some(i) => Some(i + 1)
  }

  function NotFound(name: string): string {
    "Field '" + name + "' not found"
  }

  function IncorrectType(name: string): string {
    "Field '" + name + "' has incorrect type"
  }

  /** One of the four downcasts succeeds for `T = t`: `Field<T>`,
      `Field<Optional<T>>`, `SelectField<T>` or `MultiselectField<T>`. */
  predicate Matches(f: FieldRef, t: Ty) {
    match f
    case Text(x) => x.ty == t || x.ty == OptionalOf(t)
    case Select(x) => x.ty == t
    case Multi(x) => x.ty == t
  }

  /** The value a `Field<Optional<T>>` gives for `T`: the wrapped value,
      or `T::default()` for `None`. */
  function Unwrap(c: Codec, t: Ty, v: Value): (r: Value)
    requires HasType(v, OptionalOf(t))
    ensures HasType(r, t)
    ensures v.o.Some? ==> r == v.o.value
    ensures v.o.None? ==> r == Default(c, t)
  {
    if v.o.Some? then v.o.value else Default(c, t)
  }

  predicate IsBracket(ch: char) {
    ch == '[' || ch == ']'
  }

  predicate IsQuoteOrSpace(ch: char) {
    ch == '"' || ch == ' '
  }

  /** One piece of the list, its quotes and spaces trimmed, parsed. */
  function ParsePiece(c: Codec, t: Ty, piece: string): Result<Value> {
    Parse(c, t, TrimMatches(piece, IsQuoteOrSpace))
  }

  /** Piece `k` is the first piece whose parse fails, with error `e`. */
  ghost predicate FirstBadPiece(c: Codec, t: Ty, pieces: seq<string>, k: int, e: string) {
    0 <= k < |pieces| && ParsePiece(c, t, pieces[k]) == Err(e) &&
    forall j :: 0 <= j < k ==> ParsePiece(c, t, pieces[j]).Ok?
  }

  /** The parse of every piece, or the first error (`collect` into a
      `Result`). */
  function ParseEach(c: Codec, t: Ty, pieces: seq<string>): (r: Result<seq<Value>>)
    ensures r.Ok? ==> |r.value| == |pieces|
    ensures r.Ok? ==> forall k :: 0 <= k < |pieces| ==> ParsePiece(c, t, pieces[k]) == Ok(r.value[k])
    ensures r.Err? ==> exists k :: FirstBadPiece(c, t, pieces, k, r.error)
  {
    if |pieces| == 0 then Ok([])
    else
      var head := ParsePiece(c, t, pieces[0]);
      if head.Err? then
        assert FirstBadPiece(c, t, pieces, 0, head.error);
        Err(head.error)
      else
        var tail := ParseEach(c, t, pieces[1..]);
        if tail.Err? then
          FirstBadPieceShift(c, t, pieces, tail.error);
          Err(tail.error)
        else
          var f := (p: string) => ParsePiece(c, t, p);
          ParsedCons(f, pieces, head.value, tail.value);
          Ok([head.value] + tail.value)
  }

  /** The results of `f` on the first piece and on the later pieces, put
      together, are its results on all the pieces. */
  lemma ParsedCons<A, B>(f: A -> Result<B>, pieces: seq<A>, first: B, later: seq<B>)
    requires |pieces| > 0 && f(pieces[0]) == Ok(first) && |later| == |pieces| - 1
    requires forall k :: 0 <= k < |later| ==> f(pieces[1..][k]) == Ok(later[k])
    ensures forall k :: 0 <= k < |pieces| ==> f(pieces[k]) == Ok(([first] + later)[k])
  {
    forall k | 0 <= k < |pieces| ensures f(pieces[k]) == Ok(([first] + later)[k]) {
      if k > 0 {
        assert pieces[k] == pieces[1..][k - 1];
        assert ([first] + later)[k] == later[k - 1];
      }
    }
  }

  /** A first failure among the later pieces is the first failure overall
      when the first piece parses. */
  lemma FirstBadPieceShift(c: Codec, t: Ty, pieces: seq<string>, e: string)
    requires |pieces| > 0 && ParsePiece(c, t, pieces[0]).Ok?
    requires exists k :: FirstBadPiece(c, t, pieces[1..], k, e)
    ensures exists k :: FirstBadPiece(c, t, pieces, k, e)
  {
    var k :| FirstBadPiece(c, t, pieces[1..], k, e);
    forall j | 0 <= j < k + 1
      ensures ParsePiece(c, t, pieces[j]).Ok?
    {
      if j > 0 {
        assert pieces[j] == pieces[1..][j - 1];
      }
    }
    assert pieces[k + 1] == pieces[1..][k];
    assert FirstBadPiece(c, t, pieces, k + 1, e);
  }

  /** The multiselect branch of `get_value_vec`: strip the brackets of the
      list's `Debug` text, split it on ',', and parse each piece. */
  function ParseList(c: Codec, t: Ty, s: string): (r: Result<seq<Value>>)
    ensures r.Ok? ==> forall k :: 0 <= k < |r.value| ==> HasType(r.value[k], t)
  {
    var r := ParseEach(c, t, Split(TrimMatches(s, IsBracket), ','));
    assert r.Ok? ==> forall k :: 0 <= k < |r.value| ==> HasType(r.value[k], t) by {
      if r.Ok? {
        var pieces := Split(TrimMatches(s, IsBracket), ',');
        forall k | 0 <= k < |r.value| ensures HasType(r.value[k], t) {
          assert ParsePiece(c, t, pieces[k]) == Ok(r.value[k]);
        }
      }
    }
    r
  }

  /** `field.fill()` through the box: the call dispatches on the field
      struct, which changes only its own slot. */
  method FillField(c: Codec, f: FieldRef, input: seq<Input>) returns (r: Filled)
    requires FieldValid(f) && Ready(KindOf(f))
    modifies Obj(f)
    ensures FieldValid(f)
    ensures FillOne(c, KindOf(f), old(SlotOf(f)), input) == (SlotOf(f), r)
  {
    match f {
      case Text(field) => r := field.Fill(c, input);
      case Select(select) => r := select.Fill(input);
      case Multi(multi) => r := multi.Fill(input);
    }
  }

  /** `Form`: the fields in key order, each under its name. */
  class Form {
    const entries: seq<(string, FieldRef)>

    function Objects(): set<object> {
      ObjectsOf(entries)
    }

    /** Every entry boxes a field of its own, holding values of its type. */
    predicate Valid()
      reads Objects()
    {
      (forall i, j :: 0 <= i < |entries| && 0 <= j < |entries| && i != j ==>
        Obj(entries[i].1) != Obj(entries[j].1)) &&
      (forall i :: 0 <= i < |entries| ==> FieldValid(entries[i].1))
    }

    /** `FormBuilder::build`'s struct literal. */
    constructor(entries: seq<(string, FieldRef)>)
      ensures this.entries == entries
    {
      this.entries := entries;
    }

    function Kinds(): seq<Kind> {
      KindsOf(entries)
    }

    function Slots(): seq<Slot>
      reads Objects()
    {
      SlotsOf(entries)
    }

    /** `Form::fill`: the fields' `fill` in key order, stopping at the
        first error. */
    method Fill(c: Codec, input: seq<Input>) returns (r: Filled)
      requires Valid()
      requires forall j :: 0 <= j < |entries| ==> Ready(KindOf(entries[j].1))
      modifies Objects()
      ensures Valid()
      ensures (Slots(), r) == FillFrom(c, Kinds(), old(Slots()), 0, input)
    {
      ghost var kinds := Kinds();
      ghost var goal := FillFrom(c, kinds, Slots(), 0, input);
      var i := 0;
      var rest := input;
      while i < |entries|
        invariant i <= |entries|
        invariant Valid()
        invariant FillFrom(c, kinds, Slots(), i, rest) == goal
      {
        ghost var before := Slots();
        var step := FillEntry(c, i, rest);
        FillFromStep(c, kinds, before, i, rest, Slots(), step);
        if !step.Done? {
          return step;
        }
        rest := step.rest;
        i := i + 1;
      }
      return Done(rest);
    }

    /** One iteration of `fill`: field `i` is filled, and it is the only
        field whose slot can change. */
    method FillEntry(c: Codec, i: nat, input: seq<Input>) returns (r: Filled)
      requires Valid() && i < |entries| && Ready(KindOf(entries[i].1))
      modifies Obj(entries[i].1)
      ensures Valid()
      ensures Slots() == old(Slots())[i := Slots()[i]]
      ensures FillOne(c, Kinds()[i], old(Slots())[i], input) == (Slots()[i], r)
    {
      ghost var before := Slots();
      label Before:
      r := FillField(c, entries[i].1, input);
      forall j | 0 <= j < |entries| && j != i
        ensures Slots()[j] == before[j] && FieldValid(entries[j].1)
      {
        assert Obj(entries[j].1) != Obj(entries[i].1);
        match entries[j].1 {
          case Text(field) =>
            assert field.value == old@Before(field.value);
            assert before[j] == One(old@Before(field.value));
          case Select(select) =>
            assert select.value == old@Before(select.value);
            assert before[j] == One(old@Before(select.value));
          case Multi(multi) =>
            assert multi.value == old@Before(multi.value);
            assert before[j] == Many(old@Before(multi.value));
        }
        assert Slots()[j] == SlotOf(entries[j].1);
      }
    }

    /** The lookup both getters start with: the position of the first
        field called `name`. */
    function Find(name: string): Option<nat> {
      FirstNamed(entries, name)
    }

    /** `Form::get_value::<T>` for `T = t`: the first field called `name`,
        then the downcasts in order. A multiselect field's value is read
        back by parsing the `Debug` text of the whole list. A select field
        gives its chosen value, where the source parses the value's `Debug`
        text instead (`SelectReadBackAsWritten`). */
    function GetValue(c: Codec, t: Ty, name: string): (r: Result<Value>)
      reads Objects()
      requires Valid()
      ensures Find(name).None? ==> r == Err(NotFound(name))
      ensures Find(name).Some? && !Matches(entries[Find(name).value].1, t) ==> r == Err(IncorrectType(name))
      ensures r.Ok? ==> HasType(r.value, t)
      ensures Find(name).Some? ==> var f := entries[Find(name).value].1;
        (f.Text? && f.text.ty == t ==> r == f.text.Get()) &&
        (f.Text? && f.text.ty == OptionalOf(t) && f.text.value.Some? ==>
          r == Ok(Unwrap(c, t, f.text.value.value))) &&
        (f.Select? && f.select.ty == t && f.select.value.Some? ==> r == Ok(f.select.value.value)) &&
        (f.Multi? && f.multi.ty == t ==> r == Parse(c, t, DebugList(c, f.multi.value))) &&
        ((f.Text? || f.Select?) && Matches(f, t) && SlotOf(f) == One(None) ==> r == Err(NoValue))
    {
      match Find(name)
      case None => Err(NotFound(name))
      case Some(i) =>
        assert FieldValid(entries[i].1);
        match entries[i].1
        case Text(x) =>
          if x.ty == t then
            OptionalOfIsNew(t);
            x.Get()
          else if x.ty == OptionalOf(t) then
            (match x.Get()
             case Ok(v) => Ok(Unwrap(c, t, v))
             case Err(e) => Err(e))
          else Err(IncorrectType(name))
        case Select(x) =>
          if x.ty == t then
            (if x.value.Some? then Ok(x.value.value) else Err(NoValue))
          else Err(IncorrectType(name))
        case Multi(x) =>
          if x.ty == t then Parse(c, t, x.Display(c).value)
          else Err(IncorrectType(name))
    }

    /** `Form::get_value_vec::<T>` for `T = t`: a one-element list for a
        text, optional or select field, the parsed pieces of the rendered
        list for a multiselect field. The select field's value is given as
        in `GetValue`. */
    function GetValueVec(c: Codec, t: Ty, name: string): (r: Result<seq<Value>>)
      reads Objects()
      requires Valid()
      ensures Find(name).None? ==> r == Err(NotFound(name))
      ensures Find(name).Some? && !Matches(entries[Find(name).value].1, t) ==> r == Err(IncorrectType(name))
      ensures r.Ok? ==> forall k :: 0 <= k < |r.value| ==> HasType(r.value[k], t)
      ensures Find(name).Some? ==> var f := entries[Find(name).value].1;
        (!f.Multi? && GetValue(c, t, name).Ok? ==> r == Ok([GetValue(c, t, name).value])) &&
        (!f.Multi? && GetValue(c, t, name).Err? ==> r == Err(GetValue(c, t, name).error)) &&
        ((f.Text? || f.Select?) && Matches(f, t) && SlotOf(f) == One(None) ==> r == Err(NoValue)) &&
        (f.Multi? && f.multi.ty == t ==> r == ParseList(c, t, DebugList(c, f.multi.value)))
    {
      match Find(name)
      case None => Err(NotFound(name))
      case Some(i) =>
        assert FieldValid(entries[i].1);
        match entries[i].1
        case Text(x) =>
          if x.ty == t then
            (match x.Get()
             case Ok(v) => Ok([v])
             case Err(e) => Err(e))
          else if x.ty == OptionalOf(t) then
            (match x.Get()
             case Ok(v) => Ok([Unwrap(c, t, v)])
             case Err(e) => Err(e))
          else Err(IncorrectType(name))
        case Select(x) =>
          if x.ty == t then
            (if x.value.Some? then Ok([x.value.value]) else Err(NoValue))
          else Err(IncorrectType(name))
        case Multi(x) =>
          if x.ty == t then ParseList(c, t, x.Display(c).value)
          else Err(IncorrectType(name))
    }
  }

  /** The select branches of `get_value` and `get_value_vec` as the source
      writes them: the chosen value's `Debug` text is parsed back. This
      gives the value back exactly when its rendering round-trips. */
  function SelectReadBackAsWritten(c: Codec, t: Ty, v: Value): (r: Result<Value>)
    ensures r.Ok? ==> HasType(r.value, t)
    ensures DebugRoundTrips(c, t, v) <==> r == Ok(v)
  {
    Parse(c, t, Debug(c, v))
  }

  /** A `String` option does not round-trip: `Debug` quotes it and
      `String::from_str` keeps the quotes, so the select field holding "M"
      reads back as the three characters "M" in quotes. */
  lemma SelectReadBackQuotesStrings(c: Codec, stringId: nat)
    requires forall x :: c.parse(stringId, x) == Ok(x)
    requires c.debug(stringId, "M") == "\"M\""
    ensures SelectReadBackAsWritten(c, Base(stringId), Atom(stringId, "M")) == Ok(Atom(stringId, "\"M\""))
    ensures SelectReadBackAsWritten(c, Base(stringId), Atom(stringId, "M")) != Ok(Atom(stringId, "M"))
  {
  }

  /** A value whose `Debug` text survives the list round trip of
      `get_value_vec`: not empty, no bracket at either end, no comma, and
      parsing it with its quotes and spaces trimmed gives the value. */
  predicate Listable(c: Codec, t: Ty, v: Value) {
    var d := Debug(c, v);
    |d| > 0 && !IsBracket(d[0]) && !IsBracket(d[|d| - 1]) && ',' !in d && ParsePiece(c, t, d) == Ok(v)
  }

  lemma {:induction false} ParseEachAllOk(c: Codec, t: Ty, pieces: seq<string>, vs: seq<Value>)
    requires |pieces| == |vs|
    requires forall k :: 0 <= k < |pieces| ==> ParsePiece(c, t, pieces[k]) == Ok(vs[k])
    ensures ParseEach(c, t, pieces) == Ok(vs)
  {
    if |pieces| > 0 {
      ParseEachAllOk(c, t, pieces[1..], vs[1..]);
      assert [vs[0]] + vs[1..] == vs;
    }
  }

  /** Stripping the brackets of a list of listable values leaves its
      elements' renderings joined by ",", the later ones with a leading
      space. */
  lemma ListBodyUnbracketed(c: Codec, t: Ty, vs: seq<Value>)
    requires |vs| > 0
    requires forall k :: 0 <= k < |vs| ==> Listable(c, t, vs[k])
    ensures TrimMatches(DebugList(c, vs), IsBracket) == Join(Spaced(DebugEach(c, vs)), ",")
  {
    var ds := DebugEach(c, vs);
    assert Listable(c, t, vs[0]) && Listable(c, t, vs[|vs| - 1]);
    JoinEnds(ds, ", ");
    var j := Join(ds, ", ");
    assert DebugList(c, vs) == ['['] + j + [']'];
    TrimMatchesSurrounded(j, '[', ']', IsBracket);
    JoinCommaSpace(ds);
  }

  /** Each spaced piece of a list of listable values holds no comma and
      parses back to its value. */
  lemma SpacedPiecesParse(c: Codec, t: Ty, vs: seq<Value>)
    requires forall k :: 0 <= k < |vs| ==> Listable(c, t, vs[k])
    ensures var pieces := Spaced(DebugEach(c, vs));
      forall k :: 0 <= k < |pieces| ==> ',' !in pieces[k] && ParsePiece(c, t, pieces[k]) == Ok(vs[k])
  {
    var ds := DebugEach(c, vs);
    var pieces := Spaced(ds);
    forall k | 0 <= k < |pieces|
      ensures ',' !in pieces[k] && ParsePiece(c, t, pieces[k]) == Ok(vs[k])
    {
      assert Listable(c, t, vs[k]);
      if k > 0 {
        TrimMatchesDropsFirst(' ', ds[k], IsQuoteOrSpace);
      }
    }
  }

  /** `get_value_vec` on a filled multiselect field gives its values back
      when each value's rendering is listable. */
  lemma MultiselectRoundTrip(c: Codec, t: Ty, vs: seq<Value>)
    requires |vs| > 0
    requires forall k :: 0 <= k < |vs| ==> Listable(c, t, vs[k])
    ensures ParseList(c, t, DebugList(c, vs)) == Ok(vs)
  {
    ListBodyUnbracketed(c, t, vs);
    SpacedPiecesParse(c, t, vs);
    var pieces := Spaced(DebugEach(c, vs));
    SplitJoin(pieces, ',');
    ParseEachAllOk(c, t, pieces, vs);
  }

  /** Before `fill`, a multiselect field renders "[]", which
      `get_value_vec` reads as the one piece "": the result is the parse
      of "" as a one-element list, not an empty list. */
  lemma UnfilledMultiselectList(c: Codec, t: Ty)
    ensures var p := Parse(c, t, "");
      ParseList(c, t, DebugList(c, [])) == if p.Ok? then Ok([p.value]) else Err(p.error)
  {
    assert DebugList(c, []) == "[]";
    assert "[]"[1..] == "]" && "]"[1..] == "";
    assert TrimStart("[]", IsBracket) == "";
    assert TrimMatches("[]", IsBracket) == "";
    assert Split("", ',') == [""];
    assert TrimMatches("", IsQuoteOrSpace) == "";
    var p := Parse(c, t, "");
    assert ParsePiece(c, t, "") == p;
    if p.Ok? {
      ParseEachAllOk(c, t, [""], [p.value]);
    }
  }
}
