/** The virtual joystick's displacement for the direction keys held. */
module SteerVector {
  import opened Products

  datatype Pos = Pos(x: real, y: real)

  datatype Offsets = Offsets(left: real, right: real, up: real, down: real)

  datatype Held = Held(left: bool, right: bool, up: bool, down: bool) {
    predicate Any() {
      left || right || up || down
    }
  }

  // ----- the stick -----

  function Larger(a: real, b: real): real {
    if a < b then b else a
  }

  function MaxOffset(o: Offsets): real {
    Larger(Larger(Larger(o.left, o.right), o.up), o.down)
  }

  /** The sum of the held directions, before normalisation. */
  function Sum(o: Offsets, h: Held): Pos {
    Pos((if h.right then o.right else 0.0) - (if h.left then o.left else 0.0),
        (if h.down then o.down else 0.0) - (if h.up then o.up else 0.0))
  }

  function SquaredLength(v: Pos): real {
    Square(v.x) + Square(v.y)
  }

  /** The vector brought from length len to length m, divided first and multiplied second. */
  function Rescale(v: Pos, len: real, m: real): Pos
    requires len != 0.0
  {
    Pos(Mul(v.x / len, m), Mul(v.y / len, m))
  }

  function Times(v: Pos, k: real): Pos {
    Pos(Mul(v.x, k), Mul(v.y, k))
  }

  /** `root` stands for the library's square root; of a non-zero vector it is never 0, so the second test only guards the division. */
  function Displacement(o: Offsets, h: Held, root: real -> real): Pos {
    var v := Sum(o, h);
    if v.x != 0.0 && v.y != 0.0 then
      var len := root(SquaredLength(v));
      var maxLen := MaxOffset(o);
      if len > maxLen && len != 0.0 then Rescale(v, len, maxLen) else v
    else v
  }

  ghost predicate IsRoot(root: real -> real) {
    forall x: real :: x >= 0.0 ==> root(x) >= 0.0 && Square(root(x)) == x
  }

  predicate NonNegative(o: Offsets) {
    o.left >= 0.0 && o.right >= 0.0 && o.up >= 0.0 && o.down >= 0.0
  }

  /** A vector rescaled from its own length to m has length m. */
  lemma Scaled(v: Pos, len: real, m: real)
    requires len > 0.0 && Square(len) == SquaredLength(v)
    ensures SquaredLength(Rescale(v, len, m)) == Square(m)
  {
    hide Mul, Square;
    var a, b := v.x / len, v.y / len;
    DivideMultiply(v.x, len);
    DivideMultiply(v.y, len);
    SquareOfProduct(a, len);
    SquareOfProduct(b, len);
    SquareOfProduct(a, m);
    SquareOfProduct(b, m);
    SquarePositive(len);
    MulDistributes(Square(a), Square(b), Square(len));
    CancelFactor(Square(a) + Square(b), Square(len));
    MulDistributes(Square(a), Square(b), Square(m));
    MulUnits(Square(m));
  }

  lemma Ratio(x: real, len: real, m: real)
    requires 0.0 <= m < len
    ensures Mul(x / len, m) == Mul(x, m / len) && 0.0 <= m / len < 1.0
    ensures m > 0.0 ==> m / len > 0.0
  {
    hide Mul;
    var q, r := x / len, m / len;
    DivideMultiply(x, len);
    DivideMultiply(m, len);
    MulCommutes(r, len);
    MulAssociates(q, len, r);
    MulUnits(len);
    MulDistributes(-r, r, len);
    MulDistributes(r - 1.0, 1.0, len);
    if r < 0.0 {
      MulPositive(-r, len);
    } else if r >= 1.0 {
      MulNonNegative(r - 1.0, len);
    }
  }

  lemma RescaleShrinks(v: Pos, len: real, m: real)
    requires 0.0 <= m < len
    ensures Rescale(v, len, m) == Times(v, m / len) && 0.0 <= m / len < 1.0
    ensures m > 0.0 ==> m / len > 0.0
  {
    hide Mul;
    Ratio(v.x, len, m);
    Ratio(v.y, len, m);
  }

  lemma TimesOne(v: Pos)
    ensures Times(v, 1.0) == v
  {
  }

  lemma MaxOffsetBounds(o: Offsets)
    requires NonNegative(o)
    ensures var m := MaxOffset(o);
            0.0 <= o.left <= m && 0.0 <= o.right <= m && 0.0 <= o.up <= m && 0.0 <= o.down <= m
  {
  }

  lemma LengthOf(v: Pos, root: real -> real) returns (len: real)
    requires IsRoot(root) && v.x != 0.0
    ensures len == root(SquaredLength(v)) && len > 0.0 && Square(len) == SquaredLength(v)
  {
    hide Mul;
    SquarePositive(v.x);
    SquarePositive(v.y);
    MulUnits(0.0);
    len := root(SquaredLength(v));
  }

  /** Normalisation never turns the stick: the displacement is the plain sum shrunk, if at all, to the largest offset. */
  lemma StickDirection(o: Offsets, h: Held, root: real -> real) returns (k: real)
    requires NonNegative(o) && IsRoot(root)
    ensures 0.0 <= k <= 1.0 && (MaxOffset(o) > 0.0 ==> k > 0.0)
    ensures Displacement(o, h, root) == Times(Sum(o, h), k)
    ensures k < 1.0 ==> SquaredLength(Displacement(o, h, root)) == Square(MaxOffset(o))
    ensures k < 1.0 ==> Sum(o, h).x != 0.0 && Sum(o, h).y != 0.0 && SquaredLength(Sum(o, h)) > Square(MaxOffset(o))
    ensures k == 1.0 && Sum(o, h).x != 0.0 && Sum(o, h).y != 0.0 ==> SquaredLength(Sum(o, h)) <= Square(MaxOffset(o))
  {
    MaxOffsetBounds(o);
    hide MaxOffset, Sum, IsRoot, NonNegative, Square, SquaredLength, Rescale, Times, Mul;
    var v, m := Sum(o, h), MaxOffset(o);
    k := 1.0;
    TimesOne(v);
    if v.x != 0.0 && v.y != 0.0 {
      var len := LengthOf(v, root);
      if len > m {
        k := m / len;
        Scaled(v, len, m);
        RescaleShrinks(v, len, m);
        SquareStrict(m, len);
      } else {
        SquareMonotone(len, m);
      }
    }
  }

  lemma AxisBound(p: real, q: real, m: real)
    requires 0.0 <= p <= m && 0.0 <= q <= m
    ensures Square(p - q) <= Square(m)
  {
    hide Mul;
    if p >= q {
      SquareMonotone(p - q, m);
    } else {
      SquareMonotone(q - p, m);
      MulNegated(q - p, q - p);
      assert -(q - p) == p - q;
    }
  }

  lemma OneAxis(v: Pos)
    requires v.x == 0.0 || v.y == 0.0
    ensures SquaredLength(v) == if v.x == 0.0 then Square(v.y) else Square(v.x)
  {
    hide Mul;
    MulUnits(0.0);
  }

  /** Whatever keys are held, opposed and diagonal ones included, the stick stays within the largest offset. */
  lemma StickBounded(o: Offsets, h: Held, root: real -> real)
    requires NonNegative(o) && IsRoot(root)
    ensures SquaredLength(Displacement(o, h, root)) <= Square(MaxOffset(o))
  {
    var k := StickDirection(o, h, root);
    MaxOffsetBounds(o);
    hide Square, SquaredLength, IsRoot, MaxOffset, NonNegative, Rescale, Times, Mul;
    TimesOne(Sum(o, h));
    var v, m := Sum(o, h), MaxOffset(o);
    if v.x == 0.0 || v.y == 0.0 {
      AxisBound(if h.right then o.right else 0.0, if h.left then o.left else 0.0, m);
      AxisBound(if h.down then o.down else 0.0, if h.up then o.up else 0.0, m);
      OneAxis(v);
    }
  }

  // ----- where the stick goes -----

  /** With one direction held the stick is exactly that offset away, along that direction. */
  lemma OneDirection(o: Offsets, root: real -> real)
    ensures Displacement(o, Held(true, false, false, false), root) == Pos(-o.left, 0.0)
    ensures Displacement(o, Held(false, true, false, false), root) == Pos(o.right, 0.0)
    ensures Displacement(o, Held(false, false, true, false), root) == Pos(0.0, -o.up)
    ensures Displacement(o, Held(false, false, false, true), root) == Pos(0.0, o.down)
  {
  }

  /** Opposed keys leave the difference of their offsets, if the other axis is at rest. */
  lemma OpposedKeys(o: Offsets, h: Held, root: real -> real)
    ensures h.left && h.right && h.up == h.down && (h.up ==> o.up == o.down)
            ==> Displacement(o, h, root) == Pos(o.right - o.left, 0.0)
    ensures h.up && h.down && h.left == h.right && (h.left ==> o.left == o.right)
            ==> Displacement(o, h, root) == Pos(0.0, o.down - o.up)
  {
  }

  /** Minus one, one or nothing, by which of two opposed keys is held alone. */
  function Sign(minus: bool, plus: bool): int {
    if minus == plus then 0 else if plus then 1 else -1
  }

  predicate Towards(v: real, sign: int, far: bool) {
    && (sign == 1 ==> v >= 0.0 && (far ==> v > 0.0))
    && (sign == -1 ==> v <= 0.0 && (far ==> v < 0.0))
  }

  lemma Share(a: real, k: real)
    requires a >= 0.0 && k >= 0.0
    ensures Mul(a, k) >= 0.0 && (a > 0.0 && k > 0.0 ==> Mul(a, k) > 0.0)
    ensures Mul(0.0 - a, k) == -Mul(a, k)
  {
    hide Mul;
    MulNonNegative(a, k);
    MulDistributes(0.0 - a, a, k);
    MulUnits(k);
    if a > 0.0 && k > 0.0 {
      MulPositive(a, k);
    }
  }

  /** On each axis the stick goes to the side of the key held, and really goes there if that key's offset is not zero. */
  lemma StickFollowsKey(o: Offsets, h: Held, root: real -> real)
    requires NonNegative(o) && IsRoot(root)
    ensures var d := Displacement(o, h, root);
            && Towards(d.x, Sign(h.left, h.right), if h.left then o.left > 0.0 else o.right > 0.0)
            && Towards(d.y, Sign(h.up, h.down), if h.up then o.up > 0.0 else o.down > 0.0)
            && (!h.left && !h.right ==> d.x == 0.0) && (!h.up && !h.down ==> d.y == 0.0)
  {
    var k := StickDirection(o, h, root);
    MaxOffsetBounds(o);
    hide Displacement, MaxOffset, IsRoot, Mul, Square;
    Share(o.left, k);
    Share(o.right, k);
    Share(o.up, k);
    Share(o.down, k);
    MulUnits(k);
  }

  /**
   With one key held on each axis the stick goes along the diagonal of the two offsets, all the way if that is
   no longer than the largest offset and exactly as far as that one otherwise.
   */
  lemma Diagonal(o: Offsets, h: Held, root: real -> real) returns (k: real)
    requires NonNegative(o) && IsRoot(root) && h.left != h.right && h.up != h.down
    ensures 0.0 <= k <= 1.0
    ensures var far := Pos(if h.right then o.right else 0.0 - o.left, if h.down then o.down else 0.0 - o.up);
            && Displacement(o, h, root) == Pos(Mul(far.x, k), Mul(far.y, k))
            && (k == 1.0 <==> far.x == 0.0 || far.y == 0.0 || SquaredLength(far) <= Square(MaxOffset(o)))
            && (k < 1.0 ==> SquaredLength(Displacement(o, h, root)) == Square(MaxOffset(o)))
  {
    k := StickDirection(o, h, root);
    hide Displacement, MaxOffset, IsRoot, NonNegative, SquaredLength, Mul, Square;
    assert Sum(o, h) == Pos(if h.right then o.right else 0.0 - o.left, if h.down then o.down else 0.0 - o.up);
  }

  /** The largest offset is one of the four, and none is larger. */
  lemma MaxOffsetIsOne(o: Offsets)
    requires NonNegative(o)
    ensures var m := MaxOffset(o);
            (m == o.left || m == o.right || m == o.up || m == o.down) && o.left <= m && o.right <= m && o.up <= m && o.down <= m
  {
    MaxOffsetBounds(o);
  }
}
