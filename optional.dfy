/** src/optional.rs: the crate's own `Optional<T>`, whose parser reads the
    empty string as `None` and whose arithmetic lets `None` through. */
module Optional {
  import Wrappers
  type Result<T> = Wrappers.Result<T>

  datatype Optional<+T> = Some(value: T) | None

  /** `Optional::from_str`: the empty string is `None`; anything else is
      handed to the parser of `T`, whose error is passed on unchanged. */
  function FromStr<T>(parse: string -> Result<T>, s: string): (r: Result<Optional<T>>)
    ensures s == "" ==> r == Wrappers.Ok(None)
    ensures s != "" && parse(s).Ok? ==> r == Wrappers.Ok(Some(parse(s).value))
    ensures s != "" && parse(s).Err? ==> r == Wrappers.Err(parse(s).error)
  {
    if s == "" then Wrappers.Ok(None)
    else
      match parse(s)
      case Ok(v) => Wrappers.Ok(Some(v))
      case Err(e) => Wrappers.Err(e)
  }

  /** `Optional::default`: the value the empty string parses to. */
  function Default<T>(): (r: Optional<T>)
    ensures r.None?
  {
    None
  }

  /** The default is what the empty string parses to, whatever the parser
      of `T`. */
  lemma DefaultIsEmptyParse<T>(parse: string -> Result<T>)
    ensures FromStr(parse, "") == Wrappers.Ok(Default())
  {
  }

  /** `PartialEq::eq` for `Optional<T>`: the hand-written match is
      structural equality. */
  function Eq<T(==)>(a: Optional<T>, b: Optional<T>): (r: bool)
    ensures r <==> a == b
  {
    match (a, b)
    case (None, None) => true
    case (Some(x), Some(y)) => x == y
    case _ => false
  }

  /** `Display::fmt`: a present value is shown with the `Display` of `T`,
      an absent one as the word `None`. */
  function Fmt<T>(display: T -> string, o: Optional<T>): (r: string)
    ensures o.Some? ==> r == display(o.value)
    ensures o.None? ==> r == "None"
  {
    match o
    case Some(v) => display(v)
    case None => "None"
  }

  /** Formatting then parsing gives a present value back whenever `T`'s own
      text round-trips and is not empty; an absent value never comes back as
      `None`, because its text "None" is handed to `T`'s parser. */
  lemma FmtFromStr<T>(display: T -> string, parse: string -> Result<T>, o: Optional<T>)
    requires o.Some? ==> display(o.value) != "" && parse(display(o.value)) == Wrappers.Ok(o.value)
    ensures o.Some? ==> FromStr(parse, Fmt(display, o)) == Wrappers.Ok(o)
    ensures o.None? ==> FromStr(parse, Fmt(display, o)) != Wrappers.Ok(None)
  {
  }

  /** The shape shared by `add`, `sub`, `mul` and `div`: two present values
      are combined, a single present value is passed through whichever side
      it is on, and two absent values stay absent. */
  function Combine<T>(op: (T, T) --> T, a: Optional<T>, b: Optional<T>): Optional<T>
    requires a.Some? && b.Some? ==> op.requires(a.value, b.value)
  {
    match (a, b)
    case (Some(x), Some(y)) => Some(op(x, y))
    case (Some(x), None) => Some(x)
    case (None, Some(y)) => Some(y)
    case (None, None) => None
  }

  /** `None` is an identity on both sides of every operation built by `Combine`. */
  lemma NoneIsIdentity<T>(op: (T, T) --> T, a: Optional<T>)
    ensures Combine(op, None, a) == a && Combine(op, a, None) == a
  {
  }

  /** `Combine` inherits associativity from the operation. */
  lemma {:induction false} CombineAssociative<T>(op: (T, T) -> T, a: Optional<T>, b: Optional<T>, c: Optional<T>)
    requires forall x, y, z :: op(op(x, y), z) == op(x, op(y, z))
    ensures Combine(op, Combine(op, a, b), c) == Combine(op, a, Combine(op, b, c))
  {
    if a.Some? && b.Some? && c.Some? {
      assert op(op(a.value, b.value), c.value) == op(a.value, op(b.value, c.value));
    }
  }

  /** `Combine` inherits commutativity from the operation. */
  lemma CombineCommutative<T>(op: (T, T) -> T, a: Optional<T>, b: Optional<T>)
    requires forall x, y :: op(x, y) == op(y, x)
    ensures Combine(op, a, b) == Combine(op, b, a)
  {
  }

  // The operations are modelled on `Optional<int>`, the instance the crate's
  // tests use; i32 overflow is not modelled.

  /** `Add for Optional<T>`. */
  function Add(a: Optional<int>, b: Optional<int>): (r: Optional<int>)
    ensures a.Some? && b.Some? ==> r == Some(a.value + b.value)
    ensures a.None? ==> r == b
    ensures b.None? ==> r == a
  {
    Combine((x: int, y: int) => x + y, a, b)
  }

  /** `Sub for Optional<T>`. */
  function Sub(a: Optional<int>, b: Optional<int>): (r: Optional<int>)
    ensures a.Some? && b.Some? ==> r == Some(a.value - b.value)
    ensures a.None? ==> r == b
    ensures b.None? ==> r == a
  {
    Combine((x: int, y: int) => x - y, a, b)
  }

  /** `Mul for Optional<T>`. */
  function Mul(a: Optional<int>, b: Optional<int>): (r: Optional<int>)
    ensures a.Some? && b.Some? ==> r == Some(a.value * b.value)
    ensures a.None? ==> r == b
    ensures b.None? ==> r == a
  {
    Combine((x: int, y: int) => x * y, a, b)
  }

  /** Rust's integer `/`, which rounds toward zero: the remainder is
      smaller than the divisor in magnitude and takes the sign of the
      dividend. */
  function TruncDiv(x: int, y: int): (q: int)
    requires y != 0
    ensures Abs(x - q * y) < Abs(y)
    ensures x >= 0 ==> x - q * y >= 0
    ensures x < 0 ==> x - q * y <= 0
  {
    var mx, my := Abs(x), Abs(y);
    var mq, m := mx / my, mx % my;
    var q := if (x < 0) == (y < 0) then mq else -mq;
    assert mx == mq * my + m && 0 <= m < my;
    SignedProduct(x, y, mq, q);
    assert x - q * y == if x < 0 then -m else m;
    q
  }

  function Abs(x: int): int {
    if x < 0 then -x else x
  }

  /** The sign bookkeeping of `TruncDiv`: the quotient times the divisor
      has the sign of the dividend. */
  lemma SignedProduct(x: int, y: int, mq: int, q: int)
    requires y != 0 && q == if (x < 0) == (y < 0) then mq else -mq
    ensures q * y == if x < 0 then -(mq * Abs(y)) else mq * Abs(y)
  {
    if y < 0 {
      if x < 0 { assert q * y == mq * -Abs(y); } else { assert q * y == (-mq) * -Abs(y); }
    } else {
      if x < 0 { assert q * y == (-mq) * Abs(y); }
    }
  }

  /** `Div for Optional<T>`; dividing two present values by zero panics in
      Rust, so that case is excluded. */
  function Div(a: Optional<int>, b: Optional<int>): (r: Optional<int>)
    requires a.Some? && b.Some? ==> b.value != 0
    ensures a.Some? && b.Some? ==> r == Some(TruncDiv(a.value, b.value))
    ensures a.None? ==> r == b
    ensures b.None? ==> r == a
  {
    Combine((x: int, y: int) requires y != 0 => TruncDiv(x, y), a, b)
  }

  /** Addition on `Optional<int>` is a commutative monoid with `None` as its
      unit. */
  lemma AddIsCommutativeMonoid(a: Optional<int>, b: Optional<int>, c: Optional<int>)
    ensures Add(a, None) == a && Add(None, a) == a
    ensures Add(a, b) == Add(b, a)
    ensures Add(Add(a, b), c) == Add(a, Add(b, c))
  {
    CombineAssociative((x: int, y: int) => x + y, a, b, c);
  }

  /** Multiplication on `Optional<int>` is a commutative monoid with `None`
      as its unit. */
  lemma MulIsCommutativeMonoid(a: Optional<int>, b: Optional<int>, c: Optional<int>)
    ensures Mul(a, None) == a && Mul(None, a) == a
    ensures Mul(a, b) == Mul(b, a)
    ensures Mul(Mul(a, b), c) == Mul(a, Mul(b, c))
  {
    var op := (x: int, y: int) => x * y;
    forall x: int, y: int, z: int ensures op(op(x, y), z) == op(x, op(y, z)) {
      assert (x * y) * z == x * (y * z);
    }
    CombineAssociative(op, a, b, c);
  }

  /** `None - Some(b)` and `None / Some(b)` give `Some(b)` back unchanged,
      not its negation or reciprocal: `None` is not a zero. */
  lemma NoneOnTheLeft(b: int)
    ensures Sub(None, Some(b)) == Some(b)
    ensures b != 0 ==> Div(None, Some(b)) == Some(b)
    ensures b != 0 ==> Sub(None, Some(b)) != Sub(Some(0), Some(b))
  {
  }

  /** The cases the crate's own unit tests check. */
  lemma ArithmeticExamples()
    ensures Add(Some(2), Some(3)) == Some(5) && Add(Some(2), None) == Some(2)
    ensures Add(None, Some(3)) == Some(3) && Add(None, None) == None
    ensures Sub(Some(5), Some(3)) == Some(2) && Sub(None, Some(3)) == Some(3)
    ensures Mul(Some(2), Some(3)) == Some(6) && Mul(None, Some(3)) == Some(3)
    ensures Div(Some(6), Some(3)) == Some(2) && Div(Some(6), None) == Some(6)
    ensures Div(None, Some(3)) == Some(3) && Div(None, None) == None
    ensures Div(Some(-7), Some(2)) == Some(-3)
  {
  }
}
