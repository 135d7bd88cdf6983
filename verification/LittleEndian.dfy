/** Numbers as little-endian bytes. */
module LittleEndian {
  import opened Arithmetic
  import opened FlatImage
  import opened BitField

  function Digits(value: nat, n: nat): (bytes: seq<byte>)
    ensures |bytes| == n
  {
    if n == 0 then [] else [value % 256] + Digits(value / 256, n - 1)
  }

  /** Bytes joined by shifting and or-ing, the way the decoder does it. */
  function Join3(a: nat, b: nat, c: nat): nat {
    Or(Or(a, b * 0x100), c * 0x1_0000)
  }

  function Join4(a: nat, b: nat, c: nat, d: nat): nat {
    Or(Or(Or(a, b * 0x100), c * 0x1_0000), d * 0x100_0000)
  }

  lemma JoinsAdd(a: nat, b: nat, c: nat, d: nat)
    requires a < 256 && b < 256 && c < 256
    ensures Join3(a, b, c) == a + b * 0x100 + c * 0x1_0000
    ensures Join4(a, b, c, d) == a + b * 0x100 + c * 0x1_0000 + d * 0x100_0000
  {
    hide Or, Pow2;
    assert Pow2(8) == 0x100 && Pow2(16) == 0x1_0000 && Pow2(24) == 0x100_0000 by {
      Pow2Bytes();
    }
    OrAdds(a, b, 8);
    OrAdds(a + b * 0x100, c, 16);
    OrAdds(a + b * 0x100 + c * 0x1_0000, d, 24);
  }

  lemma Pow2Bytes()
    ensures Pow2(8) == 0x100 && Pow2(16) == 0x1_0000 && Pow2(24) == 0x100_0000
  {
    Pow2Adds(8, 8);
    Pow2Adds(16, 8);
  }

  /** Joining the bytes of a number that fits them gives the number. */
  lemma JoinDigits(value: nat)
    ensures var b := Digits(value, 3); value < 0x100_0000 ==> Join3(b[0], b[1], b[2]) == value
    ensures var b := Digits(value, 4); value < U32 ==> Join4(b[0], b[1], b[2], b[3]) == value
  {
    hide Join3, Join4;
    var a := value / 256;
    var b := a / 256;
    var c := b / 256;
    DigitsOf(value, a, b, c);
    JoinsAdd(value % 256, a % 256, b % 256, c % 256);
    JoinsAdd(value % 256, a % 256, b % 256, 0);
  }

  lemma DigitsOf(value: nat, a: nat, b: nat, c: nat)
    requires a == value / 256 && b == a / 256 && c == b / 256
    ensures Digits(value, 3) == [value % 256, a % 256, b % 256]
    ensures Digits(value, 4) == [value % 256, a % 256, b % 256, c % 256]
  {
    assert Digits(c, 1) == [c % 256];
    assert Digits(b, 2) == [b % 256, c % 256];
    assert Digits(b, 1) == [b % 256];
    assert Digits(a, 2) == [a % 256, b % 256];
    assert Digits(a, 3) == [a % 256, b % 256, c % 256];
  }

  lemma DigitsStep(done: seq<byte>, rest: nat, n: nat)
    requires n > 0
    ensures done + Digits(rest, n) == done + [rest % 256] + Digits(rest / 256, n - 1)
    ensures Digits(rest, 0) == []
  {
  }
}
