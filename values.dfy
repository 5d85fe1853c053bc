/** The value types the fields are generic over. Rust's type parameter `T`
    becomes a runtime type tag `Ty`, its values become `Value`, and the
    `FromStr`, `Debug` and `Default` implementations of the base types are
    supplied as a `Codec`. `Optional<T>` is built in, with the parser,
    `Debug` rendering and default that src/optional.rs gives it. */
module Values {
  import opened Wrappers
  import Optional
  import opened Strings

  /** A base type (String, u32, bool, ...) named by a number, or the
      crate's `Optional<T>` of a type. */
  datatype Ty = Base(id: nat) | OptionalOf(inner: Ty)

  /** A value of a base type is identified by its type and a datum; an
      `Optional` value wraps another value. */
  datatype Value = Atom(id: nat, datum: string) | Opt(o: Optional.Optional<Value>)

  /** `FromStr` (with the `Debug` text of its error), `Debug` and `Default`
      for each base type. */
  datatype Codec = Codec(
    parse: (nat, string) -> Result<string>,
    debug: (nat, string) -> string,
    zero: nat -> string)

  /** `v` is a value of type `t`. */
  predicate HasType(v: Value, t: Ty) {
    match (v, t)
    case (Atom(id, _), Base(id')) => id == id'
    case (Opt(o), OptionalOf(inner)) => o.None? || HasType(o.value, inner)
    case _ => false
  }

  /** `s.parse::<T>()`; an `Optional` type parses through
      `Optional::from_str`. A successful parse yields a value of the
      requested type. */
  function Parse(c: Codec, t: Ty, s: string): (r: Result<Value>)
    ensures r.Ok? ==> HasType(r.value, t)
    decreases t
  {
    match t
    case Base(id) =>
      (match c.parse(id, s)
       case Ok(d) => Ok(Atom(id, d))
       case Err(e) => Err(e))
    case OptionalOf(inner) =>
      match Optional.FromStr((x: string) => Parse(c, inner, x), s)
      case Ok(o) =>
        assert o.Some? ==> Parse(c, inner, s) == Ok(o.value);
        Ok(Opt(o))
      case Err(e) => Err(e)
  }

  /** `format!("{:?}", v)`; `Optional` uses its derived `Debug`. */
  function Debug(c: Codec, v: Value): (r: string)
    ensures v.Atom? ==> r == c.debug(v.id, v.datum)
    ensures v.Opt? && v.o.None? ==> r == "None"
    ensures v.Opt? && v.o.Some? ==> |r| >= 6 && r[..5] == "Some(" && r[|r| - 1] == ')'
    ensures v.Opt? ==> |r| >= 4
  {
    match v
    case Atom(id, d) => c.debug(id, d)
    case Opt(o) => if o.Some? then "Some(" + Debug(c, o.value) + ")" else "None"
  }

  /** `format!("{:?}", vec)`: the elements' renderings between brackets,
      separated by ", ". */
  function DebugList(c: Codec, vs: seq<Value>): (r: string)
    ensures |r| >= 2 && r[0] == '[' && r[|r| - 1] == ']'
    ensures |vs| == 0 ==> r == "[]"
    ensures |vs| == 1 ==> r == "[" + Debug(c, vs[0]) + "]"
  {
    "[" + Join(DebugEach(c, vs), ", ") + "]"
  }

  /** The `Debug` rendering of each element, in order. */
  function DebugEach(c: Codec, vs: seq<Value>): (r: seq<string>)
    ensures |r| == |vs|
    ensures forall i :: 0 <= i < |vs| ==> r[i] == Debug(c, vs[i])
  {
    if |vs| == 0 then [] else [Debug(c, vs[0])] + DebugEach(c, vs[1..])
  }

  /** `T::default()`; it is a value of type `T`. */
  function Default(c: Codec, t: Ty): (v: Value)
    ensures HasType(v, t)
  {
    match t
    case Base(id) => Atom(id, c.zero(id))
    case OptionalOf(_) => Opt(Optional.Default())
  }

  /** `Debug` then `FromStr` gives `v` back: the round trip a select field
      relies on when its value is read back. */
  ghost predicate DebugRoundTrips(c: Codec, t: Ty, v: Value) {
    Parse(c, t, Debug(c, v)) == Ok(v)
  }

  /** An absent `Optional` value does not round-trip through its derived
      `Debug`: its text "None" is handed to the inner parser, and `None`
      can only come back from the empty string. */
  lemma OptionalNoneDoesNotRoundTrip(c: Codec, inner: Ty)
    ensures !DebugRoundTrips(c, OptionalOf(inner), Opt(Optional.None))
  {
    assert Debug(c, Opt(Optional.None)) == "None";
  }

  /** No type is the `Optional` of itself, so the first two downcasts of
      `get_value` never both apply. */
  lemma {:induction false} OptionalOfIsNew(t: Ty)
    ensures OptionalOf(t) != t
    decreases t
  {
    if t.OptionalOf? {
      OptionalOfIsNew(t.inner);
    }
  }
}
