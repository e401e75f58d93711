/** JavaScript numeric helpers used by the components, over Dafny's exact `real` and `int`. */
module Numbers {

  /** `Math.round(x)`: the nearest integer, a half rounding up (towards +infinity). */
  function Round(x: real): (r: int)
    ensures r as real - 0.5 <= x < r as real + 0.5
  {
    (x + 0.5).Floor
  }

  lemma RoundMonotone(x: real, y: real)
    requires x <= y
    ensures Round(x) <= Round(y)
  {
  }

  lemma RoundOfInteger(n: int)
    ensures Round(n as real) == n
  {
  }

  /** `Math.min` on two integers: the larger of the lower bounds of both, one of the two. */
  function Min(a: int, b: int): (r: int)
    ensures r <= a && r <= b
    ensures r == a || r == b
  {
    if a <= b then a else b
  }

  /** `Math.max` on two integers: the smaller of the upper bounds of both, one of the two. */
  function Max(a: int, b: int): (r: int)
    ensures r >= a && r >= b
    ensures r == a || r == b
  {
    if a >= b then a else b
  }

  function MinReal(a: real, b: real): real {
    if a <= b then a else b
  }

  function MaxReal(a: real, b: real): real {
    if a >= b then a else b
  }

  /** The remainder of JavaScript's `%` (and Go's) on integers: truncated, so it takes the
      sign of the dividend, unlike Dafny's Euclidean `%`. */
  function TruncRem(a: int, b: int): (r: int)
    requires b > 0
    ensures a >= 0 ==> 0 <= r < b && r == a % b
    ensures a < 0 ==> -b < r <= 0
    ensures a < 0 ==> (if a % b == 0 then r == 0 else r == a % b - b)
  {
    if a >= 0 then a % b
    else
      var q, s := (-a) / b, (-a) % b;
      assert a == (-q) * b - s;
      if s == 0 then ModUnique(a, b, -q, 0); 0
      else ModUnique(a, b, -q - 1, b - s); -s
  }

  lemma {:induction false} MulNonNegative(x: int, y: int)
    requires x >= 0 && y >= 0
    ensures x * y >= 0
    decreases x
  {
    if x > 0 {
      MulNonNegative(x - 1, y);
      assert x * y == (x - 1) * y + y;
    }
  }

  /** A non-zero multiple of a positive `l` is at least `l` in size. */
  lemma MulSign(k: int, l: int)
    requires l > 0
    ensures k >= 1 ==> k * l >= l
    ensures k <= -1 ==> k * l <= -l
  {
    if k >= 1 {
      MulNonNegative(k - 1, l);
      assert k * l == (k - 1) * l + l;
    } else if k <= -1 {
      MulNonNegative(-k - 1, l);
      assert -(k * l) == (-k - 1) * l + l;
    }
  }

  /** A multiple of `l` strictly between `-l` and `l` is zero. */
  lemma MulZero(k: int, l: int)
    requires l > 0 && -l < k * l < l
    ensures k == 0
  {
    MulSign(k, l);
  }

  /** Quotient and remainder are the unique pair with `a == q * l + r` and `0 <= r < l`. */
  lemma ModUnique(a: int, l: int, q: int, r: int)
    requires l > 0 && 0 <= r < l && a == q * l + r
    ensures a / l == q && a % l == r
  {
    var q0, r0 := a / l, a % l;
    assert a == q0 * l + r0;
    assert (q - q0) * l == r0 - r;
    MulZero(q - q0, l);
  }

  /** Adding whole laps does not change the remainder. */
  lemma ModShift(b: int, q: int, l: int)
    requires l > 0
    ensures (q * l + b) % l == b % l
  {
    var p := b / l;
    assert b == p * l + b % l;
    assert q * l + b == (q + p) * l + b % l;
    ModUnique(q * l + b, l, q + p, b % l);
  }
}
