/** Rounding, saturating casts and truncating division as the host language defines them. */
module Numbers {
  /** `f64::round`: to the nearest integer, halves away from zero. */
  function Round(r: real): int {
    if r >= 0.0 then (r + 0.5).Floor else -((0.5 - r).Floor)
  }

  lemma RoundNear(r: real)
    ensures -0.5 <= Round(r) as real - r <= 0.5
  {
  }

  lemma RoundMonotone(a: real, b: real)
    requires a <= b
    ensures Round(a) <= Round(b)
  {
  }

  lemma RoundInt(n: int)
    ensures Round(n as real) == n
  {
  }

  /** Halves go away from zero. */
  lemma RoundTies(n: int)
    requires n >= 0
    ensures Round(n as real + 0.5) == n + 1 && Round(-(n as real) - 0.5) == -n - 1
  {
  }

  const I32_MIN: int := -0x8000_0000
  const I32_MAX: int := 0x7FFF_FFFF
  const U32_MAX: int := 0xFFFF_FFFF

  function Clamp(n: int, lo: int, hi: int): int {
    if n < lo then lo else if n > hi then hi else n
  }

  /** `as i32` of an integral float. */
  function SatI32(n: int): int {
    Clamp(n, I32_MIN, I32_MAX)
  }

  /** `as u32` of an integral float. */
  function SatU32(n: int): nat {
    Clamp(n, 0, U32_MAX)
  }

  /** The 32-bit value an integer wraps around to. */
  function WrapI32(n: int): (r: int)
    ensures I32_MIN <= r <= I32_MAX
    ensures I32_MIN <= n <= I32_MAX ==> r == n
  {
    var m := n % 0x1_0000_0000;
    if m > I32_MAX then m - 0x1_0000_0000 else m
  }

  /** It is the one 32-bit value that differs from the integer by a multiple of 2^32. */
  lemma WrapsModulo(n: int, r: int)
    ensures (n - WrapI32(n)) % 0x1_0000_0000 == 0
    ensures I32_MIN <= r <= I32_MAX && (n - r) % 0x1_0000_0000 == 0 ==> r == WrapI32(n)
  {
  }

  /** Integer division rounding toward zero. */
  function TruncDiv(a: int, b: int): int
    requires b > 0
  {
    if a >= 0 then a / b else -((-a) / b)
  }

  /** The remainder is smaller than the divisor and has the dividend's sign. */
  lemma TruncDivTowardZero(a: int, b: int)
    requires b > 0
    ensures var rest := a - b * TruncDiv(a, b);
            if a >= 0 then 0 <= rest < b else -b < rest <= 0
  {
    assert a < 0 ==> b * -((-a) / b) == -(b * ((-a) / b));
  }

  function Distance(a: real, b: real): real {
    if a < b then b - a else a - b
  }

  /** Rounding and then clamping to 0..n-1 gives a nearest of those integers. */
  lemma NearestInt(q: real, n: int, g: int)
    requires 0 <= g < n
    ensures Distance(q, Clamp(Round(q), 0, n - 1) as real) <= Distance(q, g as real)
  {
    RoundNear(q);
    var r := Round(q);
    hide Round;
    if g < r {
      assert g + 1 <= r;
    } else if r < g {
      assert r + 1 <= g;
    }
  }
}
