/** Products of reals, named so that each law is used where it is wanted. */
module Products {
  function Mul(a: real, b: real): real {
    a * b
  }

  lemma MulPositive(a: real, b: real)
    requires a > 0.0 && b > 0.0
    ensures Mul(a, b) > 0.0
  {
  }

  lemma MulNonNegative(a: real, b: real)
    requires a >= 0.0 && b >= 0.0
    ensures Mul(a, b) >= 0.0
  {
  }

  lemma MulNegated(a: real, b: real)
    ensures Mul(-a, -b) == Mul(a, b)
  {
  }

  lemma MulUnits(a: real)
    ensures Mul(0.0, a) == 0.0 && Mul(a, 0.0) == 0.0 && Mul(1.0, a) == a && Mul(a, 1.0) == a
  {
  }

  lemma MulCommutes(a: real, b: real)
    ensures Mul(a, b) == Mul(b, a)
  {
  }

  lemma MulAssociates(a: real, b: real, c: real)
    ensures Mul(Mul(a, b), c) == Mul(a, Mul(b, c))
  {
  }

  lemma MulDistributes(a: real, b: real, c: real)
    ensures Mul(a + b, c) == Mul(a, c) + Mul(b, c)
  {
  }

  lemma DivideMultiply(a: real, b: real)
    requires b != 0.0
    ensures Mul(a / b, b) == a
  {
  }

  function Square(x: real): real {
    Mul(x, x)
  }

  lemma SquarePositive(a: real)
    ensures Square(a) >= 0.0 && (a != 0.0 ==> Square(a) > 0.0)
  {
    hide Mul;
    if a > 0.0 {
      MulPositive(a, a);
    } else if a < 0.0 {
      MulPositive(-a, -a);
      MulNegated(a, a);
    } else {
      MulUnits(a);
    }
  }

  lemma SquareMonotone(a: real, b: real)
    requires 0.0 <= a <= b
    ensures Square(a) <= Square(b)
  {
    hide Mul;
    var d := b - a;
    MulDistributes(a, d, b);
    MulDistributes(a, d, a);
    MulCommutes(a, b);
    MulNonNegative(d, b);
    MulNonNegative(d, a);
  }

  lemma SquareStrict(a: real, b: real)
    requires 0.0 <= a < b
    ensures Square(a) < Square(b)
  {
    hide Mul;
    var d := b - a;
    MulDistributes(a, d, b);
    MulDistributes(a, d, a);
    MulCommutes(a, b);
    MulPositive(d, b);
    MulNonNegative(d, a);
  }

  lemma SquareOfProduct(a: real, f: real)
    ensures Square(Mul(a, f)) == Mul(Square(a), Square(f))
  {
    hide Mul;
    var p := Mul(a, f);
    MulAssociates(a, f, p);
    MulCommutes(f, p);
    MulAssociates(a, f, f);
    MulAssociates(a, a, Mul(f, f));
  }

  lemma CancelFactor(s: real, f: real)
    requires f > 0.0 && Mul(s, f) == f
    ensures s == 1.0
  {
    hide Mul;
    MulUnits(f);
    MulDistributes(s - 1.0, 1.0, f);
    MulDistributes(1.0 - s, s, f);
    if s > 1.0 {
      MulPositive(s - 1.0, f);
    } else if s < 1.0 {
      MulPositive(1.0 - s, f);
    }
  }
}
