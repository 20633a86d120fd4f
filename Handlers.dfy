/** The operator handlers the analyzer builds trees from: for each operator a
    precedence order, a symbol and a calculation. Values are exact reals; the
    power function (`Math.Pow` in the source) is passed in as a parameter. */
module Handlers {

  /** The result of one calculation: a value, or an error message. */
  datatype OperationResult = Ok(value: real) | Err(message: string)

  const DividedByZero: string := "Divided By Zero"

  /** The five binary operator handlers. */
  datatype BinaryHandler = Addition | Multiplication | Division | Modulo | Power

  /** Precedence rank; a higher order binds tighter. */
  function Order(h: BinaryHandler): int
  {
    match h
    case Addition => 0
    case Multiplication => 1
    case Division => 1
    case Modulo => 1
    case Power => 3
  }

  function Symbol(h: BinaryHandler): char
  {
    match h
    case Addition => '+'
    case Multiplication => '*'
    case Division => '/'
    case Modulo => '%'
    case Power => '^'
  }

  function Abs(x: real): real
  {
    if x < 0.0 then -x else x
  }

  predicate IsInteger(x: real)
  {
    x.Floor as real == x
  }

  /** Rounds toward zero, as the floating-point remainder does. */
  function Truncate(x: real): (n: int)
    ensures 0.0 <= x ==> 0 <= n && n as real <= x < n as real + 1.0
    ensures x < 0.0 ==> n <= 0 && n as real - 1.0 < x <= n as real
  {
    if 0.0 <= x then x.Floor else -((-x).Floor)
  }

  /** `r` is the remainder of dividing `a` by `b` with the quotient rounded
      toward zero: `a - r` is an integer multiple of `b`, `r` is smaller than
      `b` in magnitude, and `r` is zero or has the sign of `a`. */
  ghost predicate IsTruncatedRemainder(a: real, b: real, r: real)
    requires b != 0.0
  {
    && IsInteger((a - r) / b)
    && Abs(r) < Abs(b)
    && (r == 0.0 || (0.0 < r <==> 0.0 < a))
  }

  /** The remainder of the floating-point `%` operator, computed exactly. */
  function Remainder(a: real, b: real): (r: real)
    requires b != 0.0
    ensures IsTruncatedRemainder(a, b, r)
  {
    var q := Truncate(a / b);
    RemainderFacts(a, b, q);
    a - q as real * b
  }

  lemma RemainderFacts(a: real, b: real, q: int)
    requires b != 0.0 && q == Truncate(a / b)
    ensures IsTruncatedRemainder(a, b, a - q as real * b)
  {
    var x := a / b;
    var qr := q as real;
    var f := x - qr;
    var r := a - qr * b;
    DivMul(a, b);
    Distribute(x, qr, b);
    assert r == f * b;
    ScaledFraction(f, b);
    if r != 0.0 {
      SignOfProducts(f, x, b);
    }
    IntegerQuotient(a, r, b, q);
    assert Abs(r) < Abs(b);
    assert r == 0.0 || (0.0 < r <==> 0.0 < a);
  }

  lemma IntegerQuotient(a: real, r: real, b: real, q: int)
    requires b != 0.0 && a - r == q as real * b
    ensures IsInteger((a - r) / b)
  {
    MultipleOf(q as real, b);
  }

  lemma DivMul(a: real, b: real)
    requires b != 0.0
    ensures (a / b) * b == a
  {
  }

  lemma MultipleOf(q: real, b: real)
    requires b != 0.0
    ensures (q * b) / b == q
  {
  }

  lemma Distribute(x: real, q: real, b: real)
    ensures (x - q) * b == x * b - q * b
  {
  }

  /** A fraction of `b` strictly between -1 and 1 is smaller than `b`. */
  lemma ScaledFraction(f: real, b: real)
    requires -1.0 < f < 1.0 && b != 0.0
    ensures Abs(f * b) < Abs(b)
  {
    if 0.0 < b {
      assert (1.0 - f) * b > 0.0;
      assert (f + 1.0) * b > 0.0;
    } else {
      assert (1.0 - f) * b < 0.0;
      assert (f + 1.0) * b < 0.0;
    }
  }

  lemma SignOfProducts(f: real, x: real, b: real)
    requires (0.0 < f && 0.0 < x) || (f < 0.0 && x < 0.0)
    requires b != 0.0
    ensures 0.0 < f * b <==> 0.0 < x * b
  {
  }

  /** The calculation each handler performs; division and modulo refuse a zero
      divisor. */
  function Calculate(h: BinaryHandler, a: real, b: real, pow: (real, real) -> real): (r: OperationResult)
    ensures r.Err? <==> (h == Division || h == Modulo) && b == 0.0
    ensures r.Err? ==> r.message == DividedByZero
    ensures h == Division && b != 0.0 ==> r.Ok? && r.value * b == a
    ensures h == Modulo && b != 0.0 ==> r.Ok? && IsTruncatedRemainder(a, b, r.value)
  {
    match h
    case Addition => Ok(a + b)
    case Multiplication => Ok(a * b)
    case Division => if b == 0.0 then Err(DividedByZero) else Ok(a / b)
    case Modulo => if b == 0.0 then Err(DividedByZero) else Ok(Remainder(a, b))
    case Power => Ok(pow(a, b))
  }

  /** `^` ranks above the unary operators, which rank above the multiplicative
      operators, which rank above `+`. */
  lemma PrecedenceRanks()
    ensures Order(Addition) < Order(Multiplication)
    ensures Order(Multiplication) == Order(Division) == Order(Modulo)
    ensures Order(Modulo) < UnaryOperationOrder < Order(Power)
  {
  }

  /** No two handlers share a symbol. */
  lemma SymbolsDistinct(h1: BinaryHandler, h2: BinaryHandler)
    ensures Symbol(h1) == Symbol(h2) ==> h1 == h2
  {
  }

  /** Addition, multiplication and power never fail; addition and
      multiplication do not depend on the order of their operands. */
  lemma TotalOperations(a: real, b: real, pow: (real, real) -> real)
    ensures Calculate(Addition, a, b, pow) == Calculate(Addition, b, a, pow) == Ok(a + b)
    ensures Calculate(Multiplication, a, b, pow) == Calculate(Multiplication, b, a, pow) == Ok(a * b)
    ensures Calculate(Power, a, b, pow) == Ok(pow(a, b))
  {
  }

  /** The one unary operator handler. */
  datatype UnaryHandler = Negate

  /** Every unary operator has this fixed order. */
  const UnaryOperationOrder: int := 2

  function UnarySymbol(h: UnaryHandler): string
  {
    "-"
  }

  function UnaryCalculate(h: UnaryHandler, a: real): (r: OperationResult)
    ensures r.Ok? && r.value + a == 0.0
  {
    Ok(-a)
  }

  /** Negate is written `-`. */
  lemma NegateSymbol(h: UnaryHandler)
    ensures UnarySymbol(h) == "-" && |UnarySymbol(h)| == 1
  {
  }

  /** Negating twice gives back the operand. */
  lemma NegateTwice(a: real)
    ensures UnaryCalculate(Negate, UnaryCalculate(Negate, a).value) == Ok(a)
  {
  }
}
