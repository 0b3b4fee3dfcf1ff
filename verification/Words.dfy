// Machine words as integers: powers of two, the bitwise operators of C on
// unsigned and on two's complement values, and truncating division.
// An arithmetic or logical right shift by n is a division by Pow2(n), which in
// Dafny rounds towards minus infinity, as the shifts of C do here.
module Words {

  type Byte = b: nat | b < 256

  // A stream that arrives in buffers, as a whole.
  function Concat(buffers: seq<seq<Byte>>): seq<Byte>
  {
    if buffers == [] then [] else buffers[0] + Concat(buffers[1..])
  }

  const TWO_16 := 0x1_0000
  const TWO_31 := 0x8000_0000
  const TWO_32 := 0x1_0000_0000

  function Pow2(n: nat): (p: nat)
    ensures p > 0
  {
    if n == 0 then 1 else 2 * Pow2(n - 1)
  }

  lemma {:induction false} Pow2Add(m: nat, n: nat)
    ensures Pow2(m + n) == Pow2(m) * Pow2(n)
  {
    if m > 0 {
      Pow2Add(m - 1, n);
      assert Pow2(m) * Pow2(n) == 2 * (Pow2(m - 1) * Pow2(n));
    }
  }

  lemma {:induction false} Pow2Monotone(m: nat, n: nat)
    requires m <= n
    ensures Pow2(m) <= Pow2(n)
    decreases n - m
  {
    if m < n { Pow2Monotone(m + 1, n); }
  }

  lemma Pow2Values()
    ensures Pow2(0) == 1 && Pow2(1) == 2 && Pow2(2) == 4 && Pow2(3) == 8 && Pow2(4) == 16
    ensures Pow2(5) == 32 && Pow2(6) == 64 && Pow2(7) == 128 && Pow2(8) == 256 && Pow2(9) == 512
    ensures Pow2(10) == 1024 && Pow2(11) == 2048 && Pow2(12) == 4096 && Pow2(13) == 8192
    ensures Pow2(14) == 16384 && Pow2(15) == 32768 && Pow2(16) == TWO_16 && Pow2(32) == TWO_32
  {
    assert Pow2(4) == 16;
    assert Pow2(8) == 256;
    assert Pow2(12) == 4096;
    assert Pow2(16) == TWO_16;
    Pow2Add(16, 16);
  }

  // The operator | on unsigned words.
  function Or(a: nat, b: nat): nat
  {
    if a == 0 && b == 0 then 0
    else 2 * Or(a / 2, b / 2) + (if a % 2 == 1 || b % 2 == 1 then 1 else 0)
  }

  // A word below bit s is simply added to one whose set bits are at s and above.
  lemma {:induction false} OrDisjoint(h: nat, b: nat, s: nat)
    requires b < Pow2(s)
    ensures Or(h * Pow2(s), b) == h * Pow2(s) + b
  {
    var a := h * Pow2(s);
    if s == 0 {
      OrZero(a);
    } else {
      var a' := h * Pow2(s - 1);
      assert a == 2 * a' by { MulAssociates(h, Pow2(s - 1), 2); }
      OrDisjoint(h, b / 2, s - 1);
    }
  }

  lemma {:induction false} OrZero(a: nat)
    ensures Or(a, 0) == a
  {
    if a > 0 { OrZero(a / 2); }
  }

  lemma MultipleOf(k: nat, m: nat)
    requires m > 0
    ensures (m * k) % m == 0 && (m * k) / m == k
  {
    DivUnique(m * k, m, k, 0);
  }

  lemma MulAtLeast(m: int, d: int)
    requires m > 0
    ensures d >= 1 ==> m * d >= m
    ensures d <= -1 ==> m * d <= -m
  {
    assert m * d == m + m * (d - 1);
    assert m * d == -m + m * (d + 1);
  }

  // Quotient and remainder are unique.
  lemma DivUnique(a: int, m: nat, q: int, r: int)
    requires m > 0 && 0 <= r < m && a == m * q + r
    ensures a / m == q && a % m == r
  {
    var d := a / m - q;
    assert m * (a / m) + a % m == a;
    assert m * d == m * (a / m) - m * q;
    MulAtLeast(m, d);
  }

  // The operator ^ on two's complement integers of any width.
  function Xor(a: int, b: int): int
    decreases (if a < 0 then -a else a) + (if b < 0 then -b else b)
  {
    if (a == 0 || a == -1) && (b == 0 || b == -1) then (if a == b then 0 else -1)
    else 2 * Xor(a / 2, b / 2) + (a % 2 + b % 2) % 2
  }

  // Complementing every bit, then subtracting -1, negates: (x ^ -1) - -1 == -x.
  lemma {:induction false} XorAllOnes(a: int)
    ensures Xor(a, -1) == -1 - a && Xor(-1, a) == -1 - a
    decreases if a < 0 then -a else a
  {
    if a != 0 && a != -1 { XorAllOnes(a / 2); }
  }

  lemma {:induction false} XorZero(a: int)
    ensures Xor(a, 0) == a
    decreases if a < 0 then -a else a
  {
    if a != 0 && a != -1 { XorZero(a / 2); }
  }

  // Bit n of the two's complement representation of a.
  function BitOf(a: int, n: nat): int
  {
    (a / Pow2(n)) % 2
  }

  // Bit n of an exclusive or is the sum modulo 2 of the bits n of its operands.
  lemma {:induction false} XorBit(a: int, b: int, n: nat)
    ensures BitOf(Xor(a, b), n) == (BitOf(a, n) + BitOf(b, n)) % 2
    decreases n
  {
    var x := Xor(a, b);
    XorHalf(a, b);
    if n == 0 {
      BitZero(a); BitZero(b); BitZero(x);
    } else {
      HalfBit(a, n); HalfBit(b, n); HalfBit(x, n);
      XorBit(a / 2, b / 2, n - 1);
    }
  }

  lemma BitZero(a: int)
    ensures BitOf(a, 0) == a % 2
  {
    assert Pow2(0) == 1;
  }

  lemma XorHalf(a: int, b: int)
    ensures Xor(a, b) / 2 == Xor(a / 2, b / 2)
    ensures Xor(a, b) % 2 == (a % 2 + b % 2) % 2
  {
  }

  lemma HalfBit(a: int, n: nat)
    requires n > 0
    ensures BitOf(a, n) == BitOf(a / 2, n - 1)
  {
    DivTwice(a, 2, Pow2(n - 1));
  }

  lemma MulPositive(m: nat, n: nat)
    requires m > 0 && n > 0
    ensures m * n > 0
  {
  }

  lemma DivTwice(a: int, m: nat, n: nat)
    requires m > 0 && n > 0
    ensures m * n > 0 && a / (m * n) == (a / m) / n
  {
    MulPositive(m, n);
    var q := a / (m * n);
    var r := a % (m * n);
    assert a == (m * n) * q + r;
    assert (m * n) * q == m * (n * q) by { MulAssociates(m, n, q); }
    var t := r / m;
    assert r == m * t + r % m;
    assert t < n by {
      MulAtLeast(m, t - n);
      assert m * (t - n) == m * t - m * n;
    }
    assert t >= 0 by { MulAtLeast(m, t); }
    assert m * (n * q) + m * t == m * (n * q + t);
    DivUnique(a, m, n * q + t, r % m);
    DivUnique(a / m, n, q, t);
  }

  lemma MulCommutes(a: int, b: int)
    ensures a * b == b * a
  {
  }

  lemma Distribute(h: int, a: int, l: int, b: int)
    ensures (h * a + l) * b == h * (a * b) + l * b
  {
    MulAssociates(h, a, b);
  }

  lemma MulAssociates(a: int, b: int, c: int)
    ensures (a * b) * c == a * (b * c)
  {
  }

  // Division of C: the quotient is rounded towards zero.
  function TruncDiv(a: int, m: nat): int
    requires m > 0
  {
    if a >= 0 then a / m else -((-a) / m)
  }
}
