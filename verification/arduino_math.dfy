/** Integer arithmetic of C and of the Arduino core that the car sketch relies on.
    Dafny's `/` on `int` is Euclidean; C's `/` truncates toward zero, so the
    truncating quotient is written out here. */
module ArduinoMath {

  /** C `abs` on an `int` (the `INT_MIN` corner lies outside the unbounded model). */
  function Abs(x: int): (r: int)
    ensures r >= 0
    ensures r == x || r == -x
  {
    if x > 0 then x else -x
  }

  /** C integer division `a / b`: the quotient of the magnitudes, negated when the
      operands have opposite signs (truncation toward zero). */
  function TruncDiv(a: int, b: int): int
    requires b != 0
  {
    if a >= 0 && b > 0 then a / b
    else if a >= 0 then -(a / -b)
    else if b > 0 then -((-a) / b)
    else (-a) / (-b)
  }

  /** The remainder left by C division has the sign of the dividend and is smaller
      than the divisor in magnitude; this pins the quotient down uniquely. */
  lemma TruncDivRemainder(a: int, b: int)
    requires b != 0
    ensures a >= 0 ==> 0 <= a - TruncDiv(a, b) * b < Abs(b)
    ensures a < 0 ==> -Abs(b) < a - TruncDiv(a, b) * b <= 0
  {
    var q := TruncDiv(a, b);
    if a >= 0 && b > 0 {
      assert a == (a / b) * b + a % b;
    } else if a >= 0 {
      var m := a / -b;
      assert a == m * (-b) + a % (-b);
      assert q * b == m * (-b);
    } else if b > 0 {
      var m := (-a) / b;
      assert -a == m * b + (-a) % b;
      assert q * b == -(m * b);
    } else {
      var m := (-a) / (-b);
      assert -a == m * (-b) + (-a) % (-b);
      assert q * b == -(m * (-b));
    }
  }

  /** An exact multiple divides back to its factor, whatever the signs. */
  lemma TruncDivExact(c: int, b: int)
    requires b != 0
    ensures TruncDiv(c * b, b) == c
  {
    var q := TruncDiv(c * b, b);
    TruncDivRemainder(c * b, b);
    var r := c * b - q * b;
    assert r == (c - q) * b;
    if q != c {
      ProductAtLeastDivisor(c - q, b);
      assert false;
    }
  }

  /** A nonzero multiple of `b` is at least `b` in magnitude. */
  lemma ProductAtLeastDivisor(k: int, b: int)
    requires k != 0 && b != 0
    ensures Abs(k * b) >= Abs(b)
  {
    var m, n := Abs(k), Abs(b);
    NatProductAtLeast(m, n);
    if k > 0 && b > 0 {
      assert k * b == m * n;
    } else if k > 0 {
      assert k * b == -(m * n);
    } else if b > 0 {
      assert k * b == -(m * n);
    } else {
      assert k * b == m * n;
    }
  }

  lemma NatProductAtLeast(m: int, n: int)
    requires m >= 1 && n >= 1
    ensures m * n >= n
  {
    assert m * n == n + (m - 1) * n;
  }

  /** Euclidean division by a positive divisor is monotone in the dividend. */
  lemma DivMonotone(x: nat, y: nat, d: nat)
    requires x <= y && d > 0
    ensures x / d <= y / d
  {
    var p, q := x / d, y / d;
    assert p * d <= x && y < q * d + d;
    ProductMonotone(q + 1, p, d);
  }

  /** Multiplying by a natural number keeps the order. */
  lemma ProductMonotone(a: int, b: int, d: nat)
    ensures a <= b ==> a * d <= b * d
  {
    assert b * d == a * d + (b - a) * d;
  }

  /** Arduino `map(x, inMin, inMax, outMin, outMax)`: a linear rescaling computed in
      `long` arithmetic with a truncating division. */
  function Map(x: int, inMin: int, inMax: int, outMin: int, outMax: int): (r: int)
    requires inMax != inMin
    ensures x == inMin ==> r == outMin
    ensures x == inMax ==> r == outMax
  {
    var n := (x - inMin) * (outMax - outMin);
    TruncDivExact(outMax - outMin, inMax - inMin);
    TruncDivExact(0, inMax - inMin);
    assert x == inMax ==> n == (outMax - outMin) * (inMax - inMin);
    assert x == inMin ==> n == 0 * (inMax - inMin);
    TruncDiv(n, inMax - inMin) + outMin
  }
}
