/** Division and rounding of numbers, and the facts about them used here. */
module Arithmetic {
  /** One more than the largest 32-bit word. */
  const U32: nat := 0x1_0000_0000

  /** Integer division of C: the quotient is truncated toward zero. */
  function CDiv(a: int, b: int): int
    requires b > 0
  {
    if a >= 0 then a / b else -((-a) / b)
  }

  /** The remainder has the sign of the dividend and is smaller than the divisor. */
  lemma DivisionTruncates(a: int, b: int)
    requires b > 0
    ensures a >= 0 ==> 0 <= CDiv(a, b) * b <= a < CDiv(a, b) * b + b
    ensures a <= 0 ==> CDiv(a, b) * b - b < a <= CDiv(a, b) * b <= 0
  {
    if a >= 0 {
      DivModOf(a, b);
    } else {
      DivModOf(-a, b);
      assert CDiv(a, b) * b == -((-a) / b * b);
    }
  }

  lemma AtLeastOnce(d: nat, w: nat)
    requires d >= 1
    ensures d * w >= w
  {
    assert d * w == w + (d - 1) * w;
  }

  lemma Quotient(x: nat, w: nat, q: nat, r: nat)
    requires x == q * w + r && r < w
    ensures x / w == q && x % w == r
  {
    var q' := x / w;
    assert x == q' * w + x % w;
    if q < q' {
      assert q' * w == q * w + (q' - q) * w;
      AtLeastOnce(q' - q, w);
    } else if q' < q {
      assert q * w == q' * w + (q - q') * w;
      AtLeastOnce(q - q', w);
    }
  }

  lemma DivModOf(a: nat, d: nat)
    requires d > 0
    ensures a / d >= 0 && a == a / d * d + a % d && 0 <= a % d < d
  {
  }

  lemma ModIgnores(a: nat, k: nat, d: nat)
    requires d > 0
    ensures (a + k * d) % d == a % d
  {
    DivModOf(a, d);
    assert (a / d + k) * d == a / d * d + k * d;
    Quotient(a + k * d, d, a / d + k, a % d);
  }

  lemma Grows(b: nat, q: nat, a: nat)
    requires b <= q
    ensures b * a <= q * a
  {
    assert q * a == b * a + (q - b) * a;
  }

  lemma QuotientBelow(x: nat, a: nat, b: nat)
    requires a > 0 && x < a * b
    ensures 0 <= x / a < b
  {
    DivModOf(x, a);
    if x / a >= b {
      Grows(b, x / a, a);
    }
  }

  lemma QuotientGrows(a: nat, b: nat, w: nat)
    requires w > 0 && a <= b
    ensures a / w <= b / w
  {
    if a / w > b / w {
      assert a / w * w == b / w * w + (a / w - b / w) * w;
      AtLeastOnce(a / w - b / w, w);
    }
  }

  lemma QuotientAdds(a: nat, k: nat, w: nat)
    requires w > 0
    ensures (a + k * w) / w == a / w + k
    ensures (a + k * w) % w == a % w
  {
    assert (a / w + k) * w == (a / w) * w + k * w;
    Quotient(a + k * w, w, a / w + k, a % w);
  }

  function RoundUp(b: nat, w: nat): (r: nat)
    requires w > 0
    ensures b <= r < b + w
  {
    if b % w == 0 then b else b + (w - b % w)
  }

  function CeilDiv(n: nat, w: nat): nat
    requires w > 0
  {
    if n % w != 0 then n / w + 1 else n / w
  }

  lemma RoundUpAligned(b: nat, w: nat)
    requires w > 0
    ensures RoundUp(b, w) % w == 0
  {
    if b % w != 0 {
      assert b + (w - b % w) == (b / w + 1) * w;
      Quotient(b + (w - b % w), w, b / w + 1, 0);
    }
  }

  lemma AlignedOnce(b: nat, w: nat, x: nat, y: nat)
    requires w > 0 && x % w == 0 && y % w == 0 && b <= x < b + w && b <= y < b + w
    ensures x == y
  {
    DivModOf(x, w);
    DivModOf(y, w);
    if x / w < y / w {
      Grows(x / w + 1, y / w, w);
    } else if y / w < x / w {
      Grows(y / w + 1, x / w, w);
    }
  }

  lemma CeilDivCovers(n: nat, w: nat)
    requires w > 0
    ensures n <= CeilDiv(n, w) * w < n + w
    ensures (w * CeilDiv(n, w)) % w == 0 && (w * CeilDiv(n, w)) / w == CeilDiv(n, w)
    ensures CeilDiv(n, w) <= CeilDiv(n, w) * w
    ensures n > 0 ==> CeilDiv(n, w) > 0
  {
    var c := CeilDiv(n, w);
    assert n == n / w * w + n % w;
    assert (n / w + 1) * w == n / w * w + w;
    Quotient(w * c, w, c, 0);
    if c > 0 {
      AtLeastOnce(w, c);
    }
  }
}
