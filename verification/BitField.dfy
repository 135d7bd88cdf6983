/** Extraction of a bit field from the 128-bit CID and CSD registers
    (mmc_core.c; JESD84-B51, sections 7.2 and 7.3).

    Words are numbers below 2^32; the bit operators are spelled out on numbers. */
module BitField {
  import opened Arithmetic

  function Pow2(n: nat): (p: nat)
    ensures p > 0
  {
    if n == 0 then 1 else 2 * Pow2(n - 1)
  }

  type u32 = x: nat | x < 0x1_0000_0000

  /** Bitwise "or" and "and". */
  function Or(a: nat, b: nat): nat {
    if a == 0 then b else if b == 0 then a
    else 2 * Or(a / 2, b / 2) + (if a % 2 == 1 || b % 2 == 1 then 1 else 0)
  }

  function And(a: nat, b: nat): nat {
    if a == 0 || b == 0 then 0
    else 2 * And(a / 2, b / 2) + (if a % 2 == 1 && b % 2 == 1 then 1 else 0)
  }

  function ShiftRight(a: nat, n: nat): nat {
    DivModOf(a, Pow2(n));
    a / Pow2(n)
  }

  /** A shift of a 32-bit word drops what leaves the word. */
  function ShiftLeft(a: nat, n: nat): nat {
    a * Pow2(n) % U32
  }

  /** A register as the host delivers it: four words, the most significant first.
      `before` is whatever word lies in memory in front of them. */
  datatype Response = Response(before: u32, words: seq<u32>) {
    predicate Valid() {
      |words| == 4
    }

    function At(i: int): u32
      requires Valid() && -1 <= i <= 3
    {
      if i == -1 then before else words[i]
    }

    function Register(): nat
      requires Valid()
    {
      ((words[0] * U32 + words[1]) * U32 + words[2]) * U32 + words[3]
    }
  }

  /** A field of 1 to 32 bits inside the register, other than one whole aligned word. */
  predicate IsField(start: nat, size: nat) {
    1 <= size <= 32 && start + size <= 128 && !(size == 32 && start % 32 == 0)
  }

  function UnstuffBits(resp: Response, start: nat, size: nat): nat
    requires resp.Valid() && IsField(start, size)
  {
    var mask := ShiftRight(U32 - 1, 32 - size);
    var off := 3 - start / 32;
    var shft := start % 32;
    var res := ShiftRight(resp.At(off), shft);
    var joined := if size + shft >= 32 then Or(res, ShiftLeft(resp.At(off - 1), 32 - shft)) else res;
    And(joined, mask)
  }

  // ----- Arithmetic of powers of two -----

  lemma {:induction false} Pow2Adds(a: nat, b: nat)
    ensures Pow2(a + b) == Pow2(a) * Pow2(b)
  {
    if a > 0 {
      Pow2Adds(a - 1, b);
      assert Pow2(a) * Pow2(b) == 2 * (Pow2(a - 1) * Pow2(b));
    }
  }

  lemma Pow2Word()
    ensures Pow2(32) == U32
  {
    assert Pow2(8) == 256;
    Pow2Adds(8, 8);
    Pow2Adds(16, 16);
  }

  lemma Pow2Words()
    ensures Pow2(0) == 1 && Pow2(32) == U32
    ensures Pow2(64) == 0x1_0000_0000_0000_0000 && Pow2(96) == 0x1_0000_0000_0000_0000_0000_0000
  {
    Pow2Word();
    Pow2Adds(32, 32);
    Pow2Adds(64, 32);
  }

  // ----- The bit operators on aligned operands -----

  /** "Or" of numbers that share no bit position adds them. */
  lemma {:induction false} OrAdds(a: nat, m: nat, k: nat)
    requires a < Pow2(k)
    ensures Or(a, m * Pow2(k)) == a + m * Pow2(k)
  {
    if k > 0 && a > 0 {
      var b := m * Pow2(k);
      assert b == 2 * (m * Pow2(k - 1));
      OrAdds(a / 2, m, k - 1);
    }
  }

  /** "And" with a mask of low ones takes the remainder. */
  lemma {:induction false} AndTakesLow(q: nat, r: nat, n: nat)
    requires r < Pow2(n)
    ensures And(q * Pow2(n) + r, Pow2(n) - 1) == r
  {
    if n > 0 {
      var a := q * Pow2(n) + r;
      assert a == 2 * (q * Pow2(n - 1) + r / 2) + r % 2;
      AndTakesLow(q, r / 2, n - 1);
      assert a / 2 == q * Pow2(n - 1) + r / 2 && a % 2 == r % 2;
      assert (Pow2(n) - 1) / 2 == Pow2(n - 1) - 1 && (Pow2(n) - 1) % 2 == 1;
    }
  }

  lemma LowOnes(p: nat, q: nat)
    requires p > 0 && q > 0
    ensures (p * q - 1) / q == p - 1
  {
    assert p * q - 1 == (p - 1) * q + (q - 1);
    assert p * q >= q by {
      AtLeastOnce(p, q);
    }
    Quotient(p * q - 1, q, p - 1, q - 1);
  }

  lemma MaskTakesLow(a: nat, size: nat)
    requires 1 <= size <= 32
    ensures And(a, ShiftRight(U32 - 1, 32 - size)) == a % Pow2(size)
  {
    hide Pow2;
    Pow2Word();
    Pow2Adds(size, 32 - size);
    LowOnes(Pow2(size), Pow2(32 - size));
    DivModOf(a, Pow2(size));
    AndTakesLow(a / Pow2(size), a % Pow2(size), size);
  }

  lemma ModScales(y: nat, p: nat, q: nat)
    requires p > 0 && q > 0
    ensures p * q > 0 && y * q % (p * q) == y % p * q
  {
    DivModOf(y, p);
    var d, r := y / p, y % p;
    AtLeastOnce(p, q);
    AtLeastOnce(p - r, q);
    assert y * q == d * (p * q) + r * q;
    assert p * q == r * q + (p - r) * q;
    Quotient(y * q, p * q, d, r * q);
  }

  /** A word shifted left keeps its low bits, moved up. */
  lemma ShiftLeftKeeps(y: u32, s: nat)
    requires s <= 32
    ensures ShiftLeft(y, 32 - s) == y % Pow2(s) * Pow2(32 - s)
  {
    hide Pow2;
    Pow2Word();
    Pow2Adds(s, 32 - s);
    ModScales(y, Pow2(s), Pow2(32 - s));
  }

  // ----- The field as a slice of the register -----

  /** The register around word `n` from its end: lower words, the word, higher words. */
  lemma Around(resp: Response, n: nat) returns (low: nat, high: nat)
    requires resp.Valid() && n <= 3
    ensures low < Pow2(32 * n)
    ensures resp.Register() == low + Pow2(32 * n) * (resp.At(3 - n) + U32 * high)
    ensures n == 3 ==> high == 0
    ensures n < 3 ==> exists rest: nat :: high == resp.At(2 - n) + U32 * rest
  {
    hide Pow2;
    var w := resp.words;
    Pow2Words();
    if n == 0 {
      low, high := 0, (w[0] * U32 + w[1]) * U32 + w[2];
      assert high == w[2] + U32 * (w[0] * U32 + w[1]);
    } else if n == 1 {
      low, high := w[3], w[0] * U32 + w[1];
      assert high == w[1] + U32 * w[0];
    } else if n == 2 {
      low, high := w[2] * U32 + w[3], w[0];
      assert high == w[0] + U32 * 0;
    } else {
      low, high := (w[1] * U32 + w[2]) * U32 + w[3], 0;
    }
  }

  lemma Regroup(low: nat, p: nat, q: nat, r: nat, a: nat, b: nat, high: nat)
    ensures low + p * (q * a + r + a * b * high) == (q + b * high) * (p * a) + (low + p * r)
  {
    assert p * (q * a + r + a * b * high) == p * (q * a) + p * r + p * (a * b * high);
    assert p * (q * a) == q * (p * a);
    assert p * (a * b * high) == b * high * (p * a);
  }

  lemma LowFits(low: nat, p: nat, r: nat, a: nat)
    requires low < p && r < a
    ensures low + p * r < p * a
  {
    assert p * a == p * r + p * (a - r);
    AtLeastOnce(a - r, p);
  }

  /** Dividing by p * a drops what is below, and the low part of the word. */
  lemma DropLow(low: nat, p: nat, x: nat, a: nat, b: nat, high: nat)
    requires low < p && a > 0
    ensures p * a > 0 && (low + p * (x + a * b * high)) / (p * a) == x / a + b * high
  {
    DivModOf(x, a);
    AtLeastOnce(p, a);
    Regroup(low, p, x / a, x % a, a, b, high);
    LowFits(low, p, x % a, a);
    Quotient(low + p * (x + a * b * high), p * a, x / a + b * high, low + p * (x % a));
  }

  /** The two words of a field that crosses, or ends on, a word boundary. */
  lemma Crossing(q: nat, y: nat, a: nat, b: nat, rest: nat, d: nat, e: nat)
    requires a > 0 && d > 0 && a * b == d * e
    ensures (q + b * (y + a * b * rest)) % d == (q + y % a * b) % d
  {
    DivModOf(y, a);
    var joined, k := q + y % a * b, y / a + b * rest;
    assert q + b * (y + a * b * rest) == joined + a * b * k by {
      assert b * (y / a * a + y % a) == a * b * (y / a) + y % a * b;
      assert b * (a * b * rest) == a * b * (b * rest);
      assert a * b * k == a * b * (y / a) + a * b * (b * rest);
    }
    assert d * e * k == e * k * d;
    ModIgnores(joined, e * k, d);
  }

  lemma RegisterQuotient(resp: Response, start: nat) returns (high: nat)
    requires resp.Valid() && start < 128
    ensures resp.Register() / Pow2(start) ==
      resp.At(3 - start / 32) / Pow2(start % 32) + Pow2(32 - start % 32) * high
    ensures start / 32 == 3 ==> high == 0
    ensures start / 32 < 3 ==> exists rest: nat :: high == resp.At(2 - start / 32) + U32 * rest
  {
    hide Pow2;
    var n, s := start / 32, start % 32;
    var low;
    low, high := Around(resp, n);
    Pow2Word();
    Pow2Adds(s, 32 - s);
    Pow2Adds(32 * n, s);
    assert 32 * n + s == start;
    QuotientBy(resp.Register(), low, Pow2(32 * n), resp.At(3 - n), Pow2(s), Pow2(32 - s), high, Pow2(start));
  }

  lemma QuotientBy(r: nat, low: nat, p: nat, x: nat, a: nat, b: nat, high: nat, d: nat)
    requires low < p && a > 0 && a * b == U32 && d == p * a
    requires r == low + p * (x + U32 * high)
    ensures d > 0 && r / d == x / a + b * high
  {
    DropLow(low, p, x, a, b, high);
  }

  /** The field is floor(R / 2^start) mod 2^size of the register R; in particular
      no word in front of the register matters. */
  lemma FieldIsSlice(resp: Response, start: nat, size: nat)
    requires resp.Valid() && IsField(start, size)
    ensures UnstuffBits(resp, start, size) == resp.Register() / Pow2(start) % Pow2(size)
  {
    hide Pow2, Or, And, UnstuffBits;
    var high := RegisterQuotient(resp, start);
    Pow2Word();
    WordQuotient(resp.At(3 - start / 32), start % 32);
    var q := resp.At(3 - start / 32) / Pow2(start % 32);
    if size + start % 32 < 32 {
      PlainBits(resp, start, size, q, high);
    } else {
      JoinedBits(resp, start, size, q, high);
    }
  }

  /** A field inside one word is a slice of that word, the first word holding the
      most significant bits. */
  lemma FieldInWord(resp: Response, start: nat, size: nat)
    requires resp.Valid() && IsField(start, size) && start % 32 + size < 32
    ensures UnstuffBits(resp, start, size) == resp.words[3 - start / 32] / Pow2(start % 32) % Pow2(size)
  {
    hide Pow2, Or, And;
    MaskTakesLow(ShiftRight(resp.words[3 - start / 32], start % 32), size);
  }

  lemma PlainBits(resp: Response, start: nat, size: nat, q: nat, high: nat)
    requires resp.Valid() && IsField(start, size)
    requires var s := start % 32; size + s < 32 && q == resp.At(3 - start / 32) / Pow2(s)
    ensures UnstuffBits(resp, start, size) == (q + Pow2(32 - start % 32) * high) % Pow2(size)
  {
    hide Pow2, Or, And;
    var s := start % 32;
    MaskTakesLow(q, size);
    Pow2Adds(size, 32 - s - size);
    var k := Pow2(32 - s - size) * high;
    assert Pow2(32 - s) * high == k * Pow2(size);
    ModIgnores(q, k, Pow2(size));
  }

  lemma JoinedBits(resp: Response, start: nat, size: nat, q: nat, high: nat)
    requires resp.Valid() && IsField(start, size)
    requires var s := start % 32; size + s >= 32 && q == resp.At(3 - start / 32) / Pow2(s)
    requires start / 32 == 3 ==> high == 0
    requires start / 32 < 3 ==> exists rest: nat :: high == resp.At(2 - start / 32) + U32 * rest
    ensures UnstuffBits(resp, start, size) == (q + Pow2(32 - start % 32) * high) % Pow2(size)
  {
    hide Pow2, Or, And;
    var n, s := start / 32, start % 32;
    var y := resp.At(2 - n);
    var a, b, d := Pow2(s), Pow2(32 - s), Pow2(size);
    Pow2Word();
    Pow2Adds(s, 32 - s);
    Pow2Adds(size, 32 - size);
    WordQuotient(resp.At(3 - n), s);
    ShiftLeftKeeps(y, s);
    OrAdds(q, y % a, 32 - s);
    var joined := q + y % a * b;
    MaskTakesLow(joined, size);
    assert UnstuffBits(resp, start, size) == joined % d;
    if n == 3 {
      ModIgnores(q, y % a, b);
    } else {
      var rest: nat :| high == y + U32 * rest;
      Crossing(q, y, a, b, rest, d, Pow2(32 - size));
    }
  }

  lemma WordQuotient(x: u32, s: nat)
    requires s <= 32
    ensures 0 <= x / Pow2(s) < Pow2(32 - s)
  {
    hide Pow2;
    Pow2Word();
    Pow2Adds(s, 32 - s);
    QuotientBelow(x, Pow2(s), Pow2(32 - s));
  }
}
