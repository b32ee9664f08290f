/** The integer arithmetic of the C++ sources where it differs from Dafny's. */
module CArithmetic {

  const INT32_MIN: int := -0x8000_0000
  const INT32_MAX: int := 0x7FFF_FFFF
  const INT64_MIN: int := -0x8000_0000_0000_0000
  const INT64_MAX: int := 0x7FFF_FFFF_FFFF_FFFF

  // C++ division and remainder truncate towards zero.
  function TruncDiv(a: int, b: int): int
    requires b > 0
  {
    if a >= 0 then a / b else -((-a) / b)
  }

  function TruncMod(a: int, b: int): int
    requires b > 0
  {
    if a >= 0 then a % b else -((-a) % b)
  }

  // A quotient and a remainder that fit are the ones division gives.
  lemma DivisionIs(a: int, b: int, quotient: int, remainder: int)
    requires 0 <= remainder < b && a == b * quotient + remainder
    ensures a / b == quotient && a % b == remainder
  {
    DivisionSplits(a, b);
    OneDivision(b, quotient, remainder, a / b, a % b);
  }

  lemma DivisionSplits(a: int, b: int)
    requires b > 0
    ensures a == b * (a / b) + a % b && 0 <= a % b < b
  {
  }

  lemma OneDivision(b: int, q: int, r: int, q': int, r': int)
    requires 0 <= r < b && 0 <= r' < b && b * q + r == b * q' + r'
    ensures q == q' && r == r'
  {
    Distributes(b, q, q');
    Distributes(b, q', q);
    if q > q' {
      TimesAtLeastOne(b, q - q');
    } else if q < q' {
      TimesAtLeastOne(b, q' - q);
    }
  }

  lemma Distributes(b: int, x: int, y: int)
    ensures b * (x - y) == b * x - b * y
  {
  }

  lemma TimesAtLeastOne(b: int, k: int)
    requires b > 0 && k >= 1
    ensures b * k >= b
  {
  }

  // Dividing in two steps is dividing once.
  lemma DivisionNests(a: int, b: int, c: int)
    requires b > 0 && c > 0
    ensures b * c > 0 && a / (b * c) == a / b / c
  {
    var q, r := a / b, a % b;
    var q', r' := q / c, q % c;
    DivisionSplits(a, b);
    DivisionSplits(q, c);
    assert b * (c * q' + r') == (b * c) * q' + b * r';
    assert b * r' + r < b * c by {
      TimesAtLeastOne(b, c - r');
      Distributes(b, c, r');
    }
    assert b * r' >= 0;
    DivisionIs(a, b * c, q', b * r' + r);
  }

  predicate FitsInt32(x: int) {
    INT32_MIN <= x <= INT32_MAX
  }

  predicate FitsInt64(x: int) {
    INT64_MIN <= x <= INT64_MAX
  }

  // The value a two's-complement Int32 product or sum takes.
  function WrapInt32(x: int): int {
    (x + 0x8000_0000) % 0x1_0000_0000 - 0x8000_0000
  }
}
