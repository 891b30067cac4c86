/** Java's integer operators, written out where they differ from Dafny's. */
module JavaInt {

  /** `Math.abs` on an unbounded int (the overflow at Integer.MIN_VALUE is out of reach here). */
  function Abs(a: int): (r: int)
    ensures r >= 0
    ensures r == a || r == -a
  {
    if a < 0 then -a else a
  }

  /** Java's `a / b` on ints: the exact quotient truncated toward zero.
      Dafny's `/` is Euclidean and rounds negative quotients down instead. */
  function Div(a: int, b: int): (q: int)
    requires b != 0
    ensures 0 < b && 0 <= a ==> q * b <= a < q * b + b
    ensures 0 < b && a < 0 ==> q * b - b < a <= q * b
  {
    DivPositive(Abs(a), Abs(b));
    if (a < 0) == (b < 0) then Abs(a) / Abs(b) else -(Abs(a) / Abs(b))
  }

  /** Euclidean division of naturals rounds down. */
  lemma DivPositive(a: int, b: int)
    requires 0 <= a && 0 < b
    ensures (a / b) * b <= a < (a / b) * b + b
  {
  }

  /** Java's `a % b` on ints: the remainder carries the sign of the dividend. */
  function Rem(a: int, b: int): int
    requires b != 0
  {
    if a < 0 then -(Abs(a) % Abs(b)) else Abs(a) % Abs(b)
  }

  /** The reference characterisation of `Div`: the Java Language Specification's identity
      `(a / b) * b + a % b == a`, with a remainder smaller than the divisor in magnitude and
      never of the opposite sign to the dividend, which together pin down truncation toward
      zero. (`Rem` is here only to state it; the app itself uses `/` alone.) */
  lemma DivRem(a: int, b: int)
    requires b != 0
    ensures Div(a, b) * b + Rem(a, b) == a
    ensures Abs(Rem(a, b)) < Abs(b)
    ensures Rem(a, b) == 0 || (Rem(a, b) < 0 <==> a < 0)
  {
    var q, r := Abs(a) / Abs(b), Abs(a) % Abs(b);
    assert Abs(a) == q * Abs(b) + r && 0 <= r < Abs(b);
    if a < 0 && b < 0 {
      assert Div(a, b) == q && Rem(a, b) == -r;
      assert q * b == -(q * Abs(b));
    } else if a < 0 {
      assert Div(a, b) == -q && Rem(a, b) == -r;
      assert -q * b == -(q * Abs(b));
    } else if b < 0 {
      assert Div(a, b) == -q && Rem(a, b) == r;
      assert -q * b == q * Abs(b);
    } else {
      assert Div(a, b) == q && Rem(a, b) == r;
    }
  }

  /** Java's `(int)` cast of a finite floating-point value: truncation toward zero. */
  function Trunc(v: real): (i: int)
    ensures Abs(i) as real <= (if v < 0.0 then -v else v) < Abs(i) as real + 1.0
    ensures i == 0 || (i < 0 <==> v < 0.0)
  {
    if v >= 0.0 then v.Floor else -((-v).Floor)
  }
}
