// The integer IDCT of libmpeg2/idct.c: mpeg2_idct_copy_c and mpeg2_idct_add_c
// with their row pass, column pass, clip table and shortcuts.
module Idct {
  import opened Words
  import opened Cosines

  const W1 := 2841
  const W2 := 2676
  const W3 := 2408
  const W5 := 1609
  const W6 := 1108
  const W7 := 565

  // The C type int: arithmetic on it is checked not to leave 32 bits.
  newtype int32 = x: int | -0x8000_0000 <= x < 0x8000_0000

  predicate Short(x: int)
  {
    -32768 <= x < 32768
  }

  // Conversion to int16_t.
  function ToShort(x: int): (s: int)
    ensures Short(s)
  {
    (x + 32768) % 65536 - 32768
  }

  // ---- One-dimensional transform, with four multiplications a butterfly ----

  datatype Halves = Halves(a0: int, a1: int, a2: int, a3: int, b0: int, b1: int, b2: int, b3: int)

  // x is in the order of the source: coefficients 0, 2, 4, 6, then 1, 3, 5, 7
  // of the transform, as the permuted scan stores them.
  function Transform(x: seq<int>, bias: int): Halves
    requires |x| == 8
  {
    var t0, t1 := 2048 * x[0] + bias + 2048 * x[2], 2048 * x[0] + bias - 2048 * x[2];
    var t2, t3 := W6 * x[3] + W2 * x[1], W6 * x[1] - W2 * x[3];
    var u0, u1 := W7 * x[7] + W1 * x[4], W7 * x[4] - W1 * x[7];
    var u2, u3 := W3 * x[5] + W5 * x[6], W3 * x[6] - W5 * x[5];
    var v0, v1 := u0 - u2, u1 - u3;
    Halves(t0 + t2, t1 + t3, t1 - t3, t0 - t2, u0 + u2, ((v0 + v1) / 256) * 181, ((v0 - v1) / 256) * 181, u1 + u3)
  }

  // The k-th of the eight sums that are shifted right for the results.
  function Sum(h: Halves, k: nat): int
  {
    if k == 0 then h.a0 + h.b0 else if k == 1 then h.a1 + h.b1 else if k == 2 then h.a2 + h.b2
    else if k == 3 then h.a3 + h.b3 else if k == 4 then h.a3 - h.b3 else if k == 5 then h.a2 - h.b2
    else if k == 6 then h.a1 - h.b1 else h.a0 - h.b0
  }

  // 181 / 256 for the square root of one half, with what the shift drops.
  lemma RootOfHalf(v: int)
    ensures 0 <= 181 * v - 256 * ((v / 256) * 181) <= 181 * 255
  {
    assert v == 256 * (v / 256) + v % 256;
  }

  // The halves with their weights multiplied out.
  lemma HalvesOf(x: seq<int>, bias: int)
    requires |x| == 8
    ensures var h := Transform(x, bias);
      && h.a0 == 2048 * x[0] + bias + 2048 * x[2] + (1108 * x[3] + 2676 * x[1])
      && h.a1 == 2048 * x[0] + bias - 2048 * x[2] + (1108 * x[1] - 2676 * x[3])
      && h.a2 == 2048 * x[0] + bias - 2048 * x[2] - (1108 * x[1] - 2676 * x[3])
      && h.a3 == 2048 * x[0] + bias + 2048 * x[2] - (1108 * x[3] + 2676 * x[1])
      && h.b0 == 565 * x[7] + 2841 * x[4] + (2408 * x[5] + 1609 * x[6])
      && h.b1 == (3406 * x[4] - 799 * x[5] - 4017 * x[6] - 2276 * x[7]) / 256 * 181
      && h.b2 == (2276 * x[4] - 4017 * x[5] + 799 * x[6] + 3406 * x[7]) / 256 * 181
      && h.b3 == 565 * x[4] - 2841 * x[7] + (2408 * x[6] - 1609 * x[5])
  {
    var u0, u1 := 565 * x[7] + 2841 * x[4], 565 * x[4] - 2841 * x[7];
    var u2, u3 := 2408 * x[5] + 1609 * x[6], 2408 * x[6] - 1609 * x[5];
    assert u0 - u2 + (u1 - u3) == 3406 * x[4] - 799 * x[5] - 4017 * x[6] - 2276 * x[7];
    assert u0 - u2 - (u1 - u3) == 2276 * x[4] - 4017 * x[5] + 799 * x[6] + 3406 * x[7];
  }

  // The sums are those of the inverse cosine transform.
  lemma TransformIsInverse(x: seq<int>, bias: int, k: nat)
    requires |x| == 8 && k < 8
    ensures IsInverse(x, bias, k, Sum(Transform(x, bias), k))
  {
    hide Transform;
    HalvesOf(x, bias);
    if k % 4 == 0 || k % 4 == 3 {
      hide Slack;
      if k == 0 { Sum0(x); } else if k == 3 { Sum3(x); } else if k == 4 { Sum4(x); } else { Sum7(x); }
      hide CosineSum;
    } else {
      InnerIsInverse(x, bias, k);
    }
  }

  lemma OddBounds(x: seq<int>)
    requires |x| == 8
    ensures -(Abs(x[4]) as int) <= x[4] <= Abs(x[4]) && -(Abs(x[5]) as int) <= x[5] <= Abs(x[5])
    ensures -(Abs(x[6]) as int) <= x[6] <= Abs(x[6]) && -(Abs(x[7]) as int) <= x[7] <= Abs(x[7])
  {
  }

  lemma InnerIsInverse(x: seq<int>, bias: int, k: nat)
    requires |x| == 8 && (k == 1 || k == 2 || k == 5 || k == 6)
    ensures IsInverse(x, bias, k, Sum(Transform(x, bias), k))
  {
    hide Transform, Abs, CosineSum;
    HalvesOf(x, bias);
    OddBounds(x);
    RootOfHalf(3406 * x[4] - 799 * x[5] - 4017 * x[6] - 2276 * x[7]);
    RootOfHalf(2276 * x[4] - 4017 * x[5] + 799 * x[6] + 3406 * x[7]);
    if k == 1 { Sum1(x); } else if k == 2 { Sum2(x); } else if k == 5 { Sum5(x); } else { Sum6(x); }
  }

  predicate Shorts(x: seq<int>)
  {
    forall k | 0 <= k < |x| :: Short(x[k])
  }

  // The row pass without its shortcut; its results are stored as 16-bit values.
  function FullRow(x: seq<int>): (r: seq<int>)
    requires |x| == 8
    ensures |r| == 8 && Shorts(r)
  {
    seq(8, k requires 0 <= k < 8 => ToShort(Sum(Transform(x, 2048), k) / 4096))
  }

  predicate OnlyFirst(x: seq<int>)
    requires |x| == 8
  {
    x[1] == 0 && x[2] == 0 && x[3] == 0 && x[4] == 0 && x[5] == 0 && x[6] == 0 && x[7] == 0
  }

  function Row(x: seq<int>): (r: seq<int>)
    requires |x| == 8
    ensures |r| == 8
  {
    seq(8, k requires 0 <= k < 8 => if OnlyFirst(x) then x[0] / 2 else FullRow(x)[k])
  }

  function Column(x: seq<int>): (r: seq<int>)
    requires |x| == 8
    ensures |r| == 8
  {
    seq(8, k requires 0 <= k < 8 => Sum(Transform(x, 65536), k) / 131072)
  }

  // The shortcut gives what the full row pass gives if and only if the first
  // value is even; a block stores its coefficients times sixteen.
  lemma RowShortcut(x: seq<int>)
    requires |x| == 8 && Shorts(x) && OnlyFirst(x)
    ensures Row(x) == FullRow(x) <==> x[0] % 2 == 0
  {
    var o := (2048 * x[0] + 2048) / 4096;
    assert o == (x[0] + 1) / 2 && Short(x[0]);
    assert Transform(x, 2048)
        == Halves(2048 * x[0] + 2048, 2048 * x[0] + 2048, 2048 * x[0] + 2048, 2048 * x[0] + 2048, 0, 0, 0, 0);
    forall k | 0 <= k < 8 ensures FullRow(x)[k] == o && Row(x)[k] == x[0] / 2 {
      assert ToShort(o) == o;
    }
    assert Row(x)[0] == x[0] / 2 && FullRow(x)[0] == o;
  }

  // Value k of a row: rounded, and kept in sixteen bits.
  ghost predicate IsRow(x: seq<int>, k: nat, v: int)
    requires |x| == 8
  {
    exists u :: Rounded(x, k, 4096, u) && v == ToShort(u)
  }

  lemma RowIsInverse(x: seq<int>, k: nat)
    requires |x| == 8 && Shorts(x) && k < 8
    ensures IsRow(x, k, Row(x)[k])
  {
    if OnlyFirst(x) {
      LoneFirst(x, k);
      assert Short(x[0]) && ToShort(x[0] / 2) == x[0] / 2;
      assert Rounded(x, k, 4096, x[0] / 2);
    } else {
      var t := Sum(Transform(x, 2048), k);
      TransformIsInverse(x, 2048, k);
      ShiftRounds(x, k, 4096, t);
      assert FullRow(x)[k] == ToShort(t / 4096);
    }
  }

  lemma {:induction false} LoneSum(x: seq<int>, k: nat, n: nat)
    requires |x| == 8 && OnlyFirst(x) && 1 <= n <= 8
    ensures CosineSum(x, k, n) == 2048 * x[0]
  {
    hide CosineSum;
    if n == 1 {
      NoWeights(x, k);
      NextWeight(x, k, 1, 2048);
    } else {
      LoneSum(x, k, n - 1);
      var w := Cosine((n - 1) * (2 * k + 1));
      NextWeight(x, k, n, w);
      assert x[Slot(n - 1)] == 0 && w * x[Slot(n - 1)] == 0;
    }
  }

  lemma LoneFirst(x: seq<int>, k: nat)
    requires |x| == 8 && OnlyFirst(x)
    ensures CosineSum(x, k, 8) == 2048 * x[0]
  {
    LoneSum(x, k, 8);
  }

  lemma ColumnIsInverse(x: seq<int>, k: nat)
    requires |x| == 8 && k < 8
    ensures Rounded(x, k, 131072, Column(x)[k])
  {
    var t := Sum(Transform(x, 65536), k);
    TransformIsInverse(x, 65536, k);
    ShiftRounds(x, k, 131072, t);
    assert Column(x)[k] == t / 131072;
  }

  // Sums and differences of the halves that a column shifts right by 17.
  predicate InColumnRange(v: int)
  {
    -501_481_472 <= v < 501_612_544
  }

  lemma OuterSums(x: seq<int>)
    requires |x| == 8 && Shorts(x)
    ensures var h := Transform(x, 65536);
            InColumnRange(h.a0 + h.b0) && InColumnRange(h.a0 - h.b0) &&
            InColumnRange(h.a3 + h.b3) && InColumnRange(h.a3 - h.b3)
  {
    assert forall k | 0 <= k < 8 :: Short(x[k]);
  }

  lemma InnerSums(x: seq<int>)
    requires |x| == 8 && Shorts(x)
    ensures var h := Transform(x, 65536);
            InColumnRange(h.a1 + h.b1) && InColumnRange(h.a1 - h.b1) &&
            InColumnRange(h.a2 + h.b2) && InColumnRange(h.a2 - h.b2)
  {
    var u0, u1 := W7 * x[7] + W1 * x[4], W7 * x[4] - W1 * x[7];
    var u2, u3 := W3 * x[5] + W5 * x[6], W3 * x[6] - W5 * x[5];
    InnerHalf(x[4], x[5], x[6], x[7]);
    var h := Transform(x, 65536);
    assert -243_250_000 <= h.b1 <= 243_250_000 && -243_250_000 <= h.b2 <= 243_250_000;
    assert -258_200_000 <= h.a1 <= 258_274_816 && -258_200_000 <= h.a2 <= 258_274_816;
  }

  lemma InnerHalf(x4: int, x5: int, x6: int, x7: int)
    requires Short(x4) && Short(x5) && Short(x6) && Short(x7)
    ensures var v0, v1 := W7 * x7 + W1 * x4 - (W3 * x5 + W5 * x6), W7 * x4 - W1 * x7 - (W3 * x6 - W5 * x5);
            -344_000_000 <= v0 + v1 <= 344_000_000 && -344_000_000 <= v0 - v1 <= 344_000_000
  {
  }

  // Whatever the sixteen-bit inputs, a column stays in -3826..3826.
  lemma ColumnBound(x: seq<int>)
    requires |x| == 8 && Shorts(x)
    ensures forall k | 0 <= k < 8 :: -3826 <= Column(x)[k] <= 3826
  {
    OuterSums(x);
    InnerSums(x);
    forall k | 0 <= k < 8 ensures -3826 <= Column(x)[k] <= 3826 {
      var t := Sum(Transform(x, 65536), k);
      assert InColumnRange(t);
      assert Column(x)[k] == t / 131072;
    }
  }

  lemma ProductBound(a: int, b: int, m: nat, n: nat)
    requires -(m as int) <= a <= m && -(n as int) <= b <= n
    ensures -(m * n) as int <= a * b <= m * n
  {
    var c: nat, d: nat := if a < 0 then -a else a, if b < 0 then -b else b;
    NatProduct(c, d, m, n);
    SignedProduct(a, b, c, d);
  }

  lemma NatProduct(c: nat, d: nat, m: nat, n: nat)
    requires c <= m && d <= n
    ensures c * d <= m * n
  {
    assert (m - c) * d >= 0;
    assert m * (n - d) >= 0;
  }

  lemma SignedProduct(a: int, b: int, c: nat, d: nat)
    requires (a == c || a == -(c as int)) && (b == d || b == -(d as int))
    ensures -(c * d) as int <= a * b <= c * d
  {
  }

  // The macro BUTTERFLY: three multiplications, with no overflow for 16-bit
  // data and the coefficients in use, for the four of the transform.
  method Butterfly(w0: int32, w1: int32, d0: int32, d1: int32) returns (t0: int32, t1: int32)
    requires 0 <= w0 <= 2841 && 0 <= w1 <= 2841
    requires Short(d0 as int) && Short(d1 as int)
    ensures t0 as int == w0 as int * d0 as int + w1 as int * d1 as int
    ensures t1 as int == w0 as int * d1 as int - w1 as int * d0 as int
  {
    var v0, v1, e0, e1 := w0 as int, w1 as int, d0 as int, d1 as int;
    ProductBound(v0, e0 + e1, 2841, 65536);
    ProductBound(v1 - v0, e1, 2841, 32768);
    ProductBound(v1 + v0, e0, 5682, 32768);
    var tmp := w0 * (d0 + d1);
    t0 := tmp + (w1 - w0) * d1;
    t1 := tmp - (w1 + w0) * d0;
  }

  // ---- Passes over the block, in place ----

  // The arithmetic that idct_row and idct_col share, on 32-bit integers: no
  // intermediate value leaves their range, whatever the sixteen-bit inputs.
  method EvenHalf(x0: int32, x1: int32, x2: int32, x3: int32, bias: int32)
    returns (a0: int32, a1: int32, a2: int32, a3: int32)
    requires Short(x0 as int) && Short(x1 as int) && Short(x2 as int) && Short(x3 as int) && 0 <= bias <= 65536
    ensures a0 as int == 2048 * x0 as int + bias as int + 2048 * x2 as int + (W6 * x3 as int + W2 * x1 as int)
    ensures a1 as int == 2048 * x0 as int + bias as int - 2048 * x2 as int + (W6 * x1 as int - W2 * x3 as int)
    ensures a2 as int == 2048 * x0 as int + bias as int - 2048 * x2 as int - (W6 * x1 as int - W2 * x3 as int)
    ensures a3 as int == 2048 * x0 as int + bias as int + 2048 * x2 as int - (W6 * x3 as int + W2 * x1 as int)
    ensures -258_300_000 <= a0 <= 258_300_000 && -258_300_000 <= a1 <= 258_300_000
    ensures -258_300_000 <= a2 <= 258_300_000 && -258_300_000 <= a3 <= 258_300_000
  {
    var d0, d2 := x0 * 2048 + bias, x2 * 2048;
    var t0, t1 := d0 + d2, d0 - d2;
    var t2, t3 := Butterfly(1108, 2676, x3, x1);
    a0, a1, a2, a3 := t0 + t2, t1 + t3, t1 - t3, t0 - t2;
  }

  method OddHalf(x4: int32, x5: int32, x6: int32, x7: int32) returns (b0: int32, b1: int32, b2: int32, b3: int32)
    requires Short(x4 as int) && Short(x5 as int) && Short(x6 as int) && Short(x7 as int)
    ensures b0 as int == W7 * x7 as int + W1 * x4 as int + (W3 * x5 as int + W5 * x6 as int)
    ensures b3 as int == W7 * x4 as int - W1 * x7 as int + (W3 * x6 as int - W5 * x5 as int)
    ensures var v0, v1 := W7 * x7 as int + W1 * x4 as int - (W3 * x5 as int + W5 * x6 as int),
                          W7 * x4 as int - W1 * x7 as int - (W3 * x6 as int - W5 * x5 as int);
            b1 as int == ((v0 + v1) / 256) * 181 && b2 as int == ((v0 - v1) / 256) * 181
    ensures -243_300_000 <= b0 <= 243_300_000 && -243_300_000 <= b1 <= 243_300_000
    ensures -243_300_000 <= b2 <= 243_300_000 && -243_300_000 <= b3 <= 243_300_000
  {
    InnerHalf(x4 as int, x5 as int, x6 as int, x7 as int);
    var t0, t1 := Butterfly(565, 2841, x7, x4);
    var t2, t3 := Butterfly(2408, 1609, x5, x6);
    b0, b3 := t0 + t2, t1 + t3;
    t0, t1 := t0 - t2, t1 - t3;
    b1 := ((t0 + t1) / 256) * 181;
    b2 := ((t0 - t1) / 256) * 181;
  }

  // The sums that are shifted right are 32-bit values too.
  method Butterflies(x: seq<int>, bias: int32) returns (t: seq<int>)
    requires |x| == 8 && Shorts(x) && 0 <= bias <= 65536
    ensures |t| == 8 && forall k | 0 <= k < 8 :: t[k] == Sum(Transform(x, bias as int), k)
    ensures forall k | 0 <= k < 8 :: IsInverse(x, bias as int, k, t[k])
  {
    hide IsInverse;
    assert forall k | 0 <= k < 8 :: Short(x[k]);
    var a0, a1, a2, a3 := EvenHalf(x[0] as int32, x[1] as int32, x[2] as int32, x[3] as int32, bias);
    var b0, b1, b2, b3 := OddHalf(x[4] as int32, x[5] as int32, x[6] as int32, x[7] as int32);
    assert Transform(x, bias as int)
        == Halves(a0 as int, a1 as int, a2 as int, a3 as int, b0 as int, b1 as int, b2 as int, b3 as int);
    t := [(a0 + b0) as int, (a1 + b1) as int, (a2 + b2) as int, (a3 + b3) as int,
          (a3 - b3) as int, (a2 - b2) as int, (a1 - b1) as int, (a0 - b0) as int];
    SumsAreInverse(x, bias as int);
  }

  lemma SumsAreInverse(x: seq<int>, bias: int)
    requires |x| == 8
    ensures forall k | 0 <= k < 8 :: IsInverse(x, bias, k, Sum(Transform(x, bias), k))
  {
    hide Transform, Sum, IsInverse;
    forall k | 0 <= k < 8
      ensures IsInverse(x, bias, k, Sum(Transform(x, bias), k))
    {
      TransformIsInverse(x, bias, k);
    }
  }

  function SetRow(b: seq<int>, off: nat, r: seq<int>): (c: seq<int>)
    requires off + 8 <= |b| && |r| == 8
    ensures |c| == |b|
  {
    seq(|b|, k requires 0 <= k < |b| => if off <= k < off + 8 then r[k - off] else b[k])
  }

  function SetColumn(b: seq<int>, off: nat, r: seq<int>): (c: seq<int>)
    requires |b| == 64 && off < 8 && |r| == 8
    ensures |c| == 64
  {
    seq(64, k requires 0 <= k < 64 => if k % 8 == off then r[k / 8] else b[k])
  }

  // idct_row on the eight values from off on.
  method IdctRow(block: array<int>, off: nat)
    requires off + 8 <= block.Length && Shorts(block[..])
    modifies block
    ensures block[..] == SetRow(old(block[..]), off, Row(old(block[off..off + 8])))
    ensures Shorts(block[..])
  {
    ghost var was, x := block[..], block[off..off + 8];
    if block[off + 1] == 0 && block[off + 2] == 0 && block[off + 3] == 0 && block[off + 4] == 0
       && block[off + 5] == 0 && block[off + 6] == 0 && block[off + 7] == 0 {
      var tmp := block[off] / 2;
      assert OnlyFirst(x);
      forall k | 0 <= k < 8 ensures Row(x)[k] == tmp { }
      assert Row(x) == [tmp, tmp, tmp, tmp, tmp, tmp, tmp, tmp];
      StoreRow(block, off, [tmp, tmp, tmp, tmp, tmp, tmp, tmp, tmp]);
    } else {
      var t := Butterflies(block[off..off + 8], 2048);
      var r := seq(8, k requires 0 <= k < 8 => ToShort(t[k] / 4096));
      assert !OnlyFirst(x);
      forall k | 0 <= k < 8 ensures Row(x)[k] == r[k] { assert FullRow(x)[k] == ToShort(t[k] / 4096); }
      assert Row(x) == r;
      StoreRow(block, off, r);
    }
    RowShorts(x);
    StillShorts(was, block[..], Row(x), off);
  }

  lemma StillShorts(was: seq<int>, now: seq<int>, r: seq<int>, off: nat)
    requires |was| == |now| && off + 8 <= |was| && |r| == 8 && Shorts(was) && Shorts(r)
    requires forall k | 0 <= k < |now| :: now[k] == if off <= k < off + 8 then r[k - off] else was[k]
    ensures Shorts(now)
  {
    forall k | 0 <= k < |now| ensures Short(now[k]) {
      if off <= k < off + 8 { assert Short(r[k - off]); } else { assert Short(was[k]); }
    }
  }

  method StoreRow(block: array<int>, off: nat, r: seq<int>)
    requires off + 8 <= block.Length && |r| == 8
    modifies block
    ensures block[..] == SetRow(old(block[..]), off, r)
  {
    ghost var b := block[..];
    for i := 0 to 8
      invariant forall k | 0 <= k < block.Length :: block[k] == if off <= k < off + i then r[k - off] else b[k]
    {
      block[off + i] := r[i];
    }
  }

  // idct_col on the column of the block that starts at off.
  method IdctCol(block: array<int>, off: nat)
    requires block.Length == 64 && off < 8 && Shorts(block[..])
    modifies block
    ensures block[..] == SetColumn(old(block[..]), off, Column(old(ColumnOf(block[..], off))))
    ensures Shorts(block[..])
  {
    ghost var was, x := block[..], ColumnOf(block[..], off);
    var t := Butterflies(ColumnOf(block[..], off), 65536);
    var r := seq(8, k requires 0 <= k < 8 => t[k] / 131072);
    assert Column(x) == r;
    StoreColumn(block, off, r);
    ColumnBound(x);
    ColumnStillShorts(was, block[..], Column(x), off);
  }

  lemma ColumnStillShorts(was: seq<int>, now: seq<int>, r: seq<int>, off: nat)
    requires |was| == |now| == 64 && off < 8 && |r| == 8 && Shorts(was)
    requires forall k | 0 <= k < 8 :: -3826 <= r[k] <= 3826
    requires forall k | 0 <= k < 64 :: now[k] == if k % 8 == off then r[k / 8] else was[k]
    ensures Shorts(now)
  {
    forall k | 0 <= k < |now| ensures Short(now[k]) {
      if k % 8 == off { assert -3826 <= r[k / 8] <= 3826; } else { assert Short(was[k]); }
    }
  }

  method StoreColumn(block: array<int>, off: nat, r: seq<int>)
    requires block.Length == 64 && off < 8 && |r| == 8
    modifies block
    ensures block[..] == SetColumn(old(block[..]), off, r)
  {
    block[off], block[off + 8], block[off + 16], block[off + 24] := r[0], r[1], r[2], r[3];
    block[off + 32], block[off + 40], block[off + 48], block[off + 56] := r[4], r[5], r[6], r[7];
    forall k | 0 <= k < 64 ensures block[k] == if k % 8 == off then r[k / 8] else old(block[k]) {
      assert k == 8 * (k / 8) + k % 8;
    }
  }

  // ---- The transform of a block ----

  // The block after the row pass over its first n rows.
  function Rows(b: seq<int>, n: nat): (m: seq<int>)
    requires |b| == 64 && n <= 8
    ensures |m| == 64
  {
    if n == 0 then b else SetRow(Rows(b, n - 1), 8 * (n - 1), Row(b[8 * (n - 1)..8 * n]))
  }

  // The block after the column pass over its first n columns.
  function Columns(m: seq<int>, n: nat): (r: seq<int>)
    requires |m| == 64 && n <= 8
    ensures |r| == 64
  {
    if n == 0 then m else SetColumn(Columns(m, n - 1), n - 1, Column(ColumnOf(m, n - 1)))
  }

  function Transform2(b: seq<int>): (r: seq<int>)
    requires |b| == 64
    ensures |r| == 64
  {
    Columns(Rows(b, 8), 8)
  }

  lemma {:induction false} RowsAt(b: seq<int>, n: nat, r: nat, c: nat)
    requires |b| == 64 && n <= 8 && r < 8 && c < 8
    ensures r >= n ==> Rows(b, n)[8 * r + c] == b[8 * r + c]
    ensures r < n ==> Rows(b, n)[8 * r + c] == Row(b[8 * r..8 * r + 8])[c]
  {
    if n > 0 {
      RowsAt(b, n - 1, r, c);
      RowsStep(b, n - 1);
    }
  }

  lemma RowsStep(b: seq<int>, n: nat)
    requires |b| == 64 && n < 8
    ensures Rows(b, n + 1) == SetRow(Rows(b, n), 8 * n, Row(b[8 * n..8 * n + 8]))
  {
  }

  lemma ColumnsStep(m: seq<int>, n: nat)
    requires |m| == 64 && n < 8
    ensures Columns(m, n + 1) == SetColumn(Columns(m, n), n, Column(ColumnOf(m, n)))
  {
  }

  lemma SetColumnAt(b: seq<int>, off: nat, x: seq<int>, r: nat, c: nat)
    requires |b| == 64 && off < 8 && |x| == 8 && r < 8 && c < 8
    ensures SetColumn(b, off, x)[8 * r + c] == if c == off then x[r] else b[8 * r + c]
  {
    assert (8 * r + c) % 8 == c && (8 * r + c) / 8 == r;
  }

  lemma {:induction false} ColumnsAt(m: seq<int>, n: nat, r: nat, c: nat)
    requires |m| == 64 && n <= 8 && r < 8 && c < 8
    ensures c >= n ==> Columns(m, n)[8 * r + c] == m[8 * r + c]
    ensures c < n ==> Columns(m, n)[8 * r + c] == Column(ColumnOf(m, c))[r]
  {
    if n > 0 {
      ColumnsAt(m, n - 1, r, c);
      ColumnsStep(m, n - 1);
      SetColumnAt(Columns(m, n - 1), n - 1, Column(ColumnOf(m, n - 1)), r, c);
    }
  }

  lemma RowUntouched(b: seq<int>, n: nat)
    requires |b| == 64 && n < 8
    ensures Rows(b, n)[8 * n..8 * n + 8] == b[8 * n..8 * n + 8]
  {
    var x, y := Rows(b, n)[8 * n..8 * n + 8], b[8 * n..8 * n + 8];
    forall k | 0 <= k < 8 ensures x[k] == y[k] { RowsAt(b, n, n, k); }
  }

  lemma ColumnUntouched(m: seq<int>, n: nat)
    requires |m| == 64 && n < 8
    ensures ColumnOf(Columns(m, n), n) == ColumnOf(m, n)
  {
    forall r | 0 <= r < 8 ensures Columns(m, n)[8 * r + n] == m[8 * r + n] { ColumnsAt(m, n, r, n); }
  }

  method RowPass(block: array<int>)
    requires block.Length == 64 && Shorts(block[..])
    modifies block
    ensures block[..] == Rows(old(block[..]), 8) && Shorts(block[..])
  {
    ghost var b := block[..];
    for i := 0 to 8
      invariant Shorts(block[..]) && block[..] == Rows(b, i)
    {
      RowUntouched(b, i);
      RowsStep(b, i);
      IdctRow(block, 8 * i);
    }
  }

  method ColumnPass(block: array<int>)
    requires block.Length == 64 && Shorts(block[..])
    modifies block
    ensures block[..] == Columns(old(block[..]), 8) && Shorts(block[..])
  {
    ghost var m := block[..];
    for i := 0 to 8
      invariant Shorts(block[..]) && block[..] == Columns(m, i)
    {
      ColumnUntouched(m, i);
      ColumnsStep(m, i);
      IdctCol(block, i);
    }
  }

  // Entry (r, k) of m is that of the row pass over b.
  ghost predicate RowPassed(b: seq<int>, m: seq<int>, r: nat, k: nat)
    requires |b| == |m| == 64 && r < 8 && k < 8
  {
    IsRow(RowOf(b, r), k, m[8 * r + k])
  }

  // Entry (k, c) of t is that of the column pass over m.
  predicate ColumnPassed(m: seq<int>, t: seq<int>, c: nat, k: nat)
    requires |m| == |t| == 64 && c < 8 && k < 8
  {
    Rounded(ColumnOf(m, c), k, 131072, t[8 * k + c])
  }

  predicate BothPassed(b: seq<int>, t: seq<int>, i: nat, j: nat)
    requires |b| == |t| == 64 && i < 8 && j < 8
  {
    IsTransform(b, i, j, t[8 * i + j])
  }

  // Both passes, row by row and column by column, in place. The rows that come
  // between are inverse cosine transforms of the rows of the block, kept in
  // sixteen bits, and the columns that come out are those of the columns of
  // that. If the rows fit, each value is that of the two-dimensional transform
  // of the coefficients, as near as rounding allows.
  method TransformInPlace(block: array<int>) returns (ghost m: seq<int>)
    requires block.Length == 64 && Shorts(block[..])
    modifies block
    ensures block[..] == Transform2(old(block[..])) && Shorts(block[..]) && |m| == 64
    ensures forall r, k :: 0 <= r < 8 && 0 <= k < 8 ==> RowPassed(old(block[..]), m, r, k)
    ensures forall c, k :: 0 <= c < 8 && 0 <= k < 8 ==> ColumnPassed(m, block[..], c, k)
    ensures RowsFit(old(block[..])) ==>
      forall i, j :: 0 <= i < 8 && 0 <= j < 8 ==> BothPassed(old(block[..]), block[..], i, j)
  {
    hide RowPassed, ColumnPassed, BothPassed, RowsFit, Shorts;
    ghost var b := block[..];
    RowPass(block);
    m := block[..];
    ColumnPass(block);
    PassesAre(b);
    if RowsFit(b) { TransformIsCosines(b); }
  }

  lemma PassesAre(b: seq<int>)
    requires |b| == 64 && Shorts(b)
    ensures forall r, k :: 0 <= r < 8 && 0 <= k < 8 ==> RowPassed(b, Rows(b, 8), r, k)
    ensures forall c, k :: 0 <= c < 8 && 0 <= k < 8 ==> ColumnPassed(Rows(b, 8), Transform2(b), c, k)
  {
    var m := Rows(b, 8);
    forall r, k | 0 <= r < 8 && 0 <= k < 8
      ensures RowPassed(b, m, r, k)
    {
      RowsAt(b, 8, r, k);
      RowIsInverse(RowOf(b, r), k);
    }
    forall c, k | 0 <= c < 8 && 0 <= k < 8
      ensures ColumnPassed(m, Transform2(b), c, k)
    {
      ColumnsAt(m, 8, k, c);
      ColumnIsInverse(ColumnOf(m, c), k);
    }
  }

  // A row result that fits in sixteen bits is not changed by them.
  lemma RowKept(x: seq<int>, j: nat, v: int)
    requires |x| == 8 && RowFits(x, j) && IsRow(x, j, v)
    ensures Rounded(x, j, 4096, v)
  {
    hide CosineSum, Slack;
    var u :| Rounded(x, j, 4096, u) && v == ToShort(u);
    assert -32768 <= u <= 32767;
  }

  // If the rows fit, the transform is the two-dimensional inverse cosine
  // transform of the coefficients of the block.
  lemma TransformIsCosines(b: seq<int>)
    requires |b| == 64 && Shorts(b) && RowsFit(b)
    ensures forall i, j :: 0 <= i < 8 && 0 <= j < 8 ==> BothPassed(b, Transform2(b), i, j)
  {
    hide Transform2, Rows, IsTransform, Rounded, RowFits, IsRow;
    PassesAre(b);
    forall i, j | 0 <= i < 8 && 0 <= j < 8
      ensures BothPassed(b, Transform2(b), i, j)
    {
      var m := ColumnOf(Rows(b, 8), j);
      forall r | 0 <= r < 8
        ensures Rounded(RowOf(b, r), j, 4096, m[r])
      {
        assert RowPassed(b, Rows(b, 8), r, j) && RowFits(RowOf(b, r), j);
        RowKept(RowOf(b, r), j, m[r]);
      }
      assert ColumnPassed(Rows(b, 8), Transform2(b), j, i);
      TwoPasses(b, i, j, m, Transform2(b)[8 * i + j]);
    }
  }

  lemma {:induction false} RowsShort(b: seq<int>, n: nat)
    requires |b| == 64 && Shorts(b) && n <= 8
    ensures Shorts(Rows(b, n))
  {
    if n > 0 {
      RowsShort(b, n - 1);
      var x := b[8 * (n - 1)..8 * n];
      RowShorts(x);
      StillShorts(Rows(b, n - 1), Rows(b, n), Row(x), 8 * (n - 1));
    }
  }

  lemma RowShorts(x: seq<int>)
    requires |x| == 8 && Shorts(x)
    ensures Shorts(Row(x))
  {
    forall k | 0 <= k < 8 ensures Short(Row(x)[k]) {
      assert Short(x[0]) && Short(FullRow(x)[k]);
    }
  }

  // For any sixteen-bit block, every result lies in -3826..3826.
  lemma TransformBound(b: seq<int>)
    requires |b| == 64 && Shorts(b)
    ensures forall k | 0 <= k < 64 :: -3826 <= Transform2(b)[k] <= 3826
  {
    var m := Rows(b, 8);
    RowsShort(b, 8);
    forall k | 0 <= k < 64 ensures -3826 <= Transform2(b)[k] <= 3826 {
      var r, c := k / 8, k % 8;
      assert 8 * r + c == k;
      ColumnsAt(m, 8, r, c);
      assert Shorts(ColumnOf(m, c));
      ColumnBound(ColumnOf(m, c));
    }
  }

  // ---- Pixels ----

  // The clip table, defined for indices from -3840 on.
  function Clip(i: int): (c: int)
    requires -3840 <= i < 3840 + 256
    ensures 0 <= c <= 255
  {
    if i < 0 then 0 else if i > 255 then 255 else i
  }

  // The nearest pixel value.
  lemma ClipIsNearest(i: int, p: int)
    requires -3840 <= i < 3840 + 256 && 0 <= p <= 255
    ensures Abs(i - Clip(i)) <= Abs(i - p)
  {
  }

  predicate Pixels(d: seq<int>)
  {
    forall k | 0 <= k < |d| :: 0 <= d[k] <= 255
  }

  predicate Bounded(v: seq<int>)
  {
    forall k | 0 <= k < |v| :: -3840 <= v[k] <= 3840
  }

  // n rows of eight pixels from base on, stride apart, lie in the picture.
  predicate Area(size: nat, base: nat, stride: nat, n: nat)
    decreases n
  {
    n == 0 || (base + 8 <= size && Area(size, base + stride, stride, n - 1))
  }

  function PaintEight(d: seq<int>, v: seq<int>, add: bool): (r: seq<int>)
    requires |d| == 8 && Pixels(d) && |v| == 8 && Bounded(v)
    ensures |r| == 8 && Pixels(r)
  {
    seq(8, k requires 0 <= k < 8 && 0 <= d[k] <= 255 && -3840 <= v[k] <= 3840 => Clip(v[k] + (if add then d[k] else 0)))
  }

  // One row of eight pixels replaced by v, or by v added to it, clipped.
  function PaintRow(d: seq<int>, base: nat, v: seq<int>, add: bool): (r: seq<int>)
    requires base + 8 <= |d| && Pixels(d) && |v| == 8 && Bounded(v)
    ensures |r| == |d| && Pixels(r)
  {
    d[..base] + PaintEight(d[base..base + 8], v, add) + d[base + 8..]
  }

  // An area painted with the rows of v, eight values each.
  function Painted(d: seq<int>, base: nat, stride: nat, v: seq<int>, add: bool): (r: seq<int>)
    requires |v| % 8 == 0 && Area(|d|, base, stride, |v| / 8) && Pixels(d) && Bounded(v)
    ensures |r| == |d| && Pixels(r)
    decreases |v|
  {
    if v == [] then d
    else Painted(PaintRow(d, base, v[..8], add), base + stride, stride, v[8..], add)
  }

  // Pixel c of row r of an area, in the picture.
  function At(base: nat, stride: nat, r: nat, c: nat): nat
  {
    base + r * stride + c
  }

  lemma NextAt(base: nat, stride: nat, r: nat, c: nat)
    requires r > 0
    ensures At(base, stride, r, c) == At(base + stride, stride, r - 1, c) >= base + stride
  {
    assert r * stride == (r - 1) * stride + stride;
    assert (r - 1) * stride >= 0;
  }

  lemma PaintRowAt(d: seq<int>, base: nat, v: seq<int>, add: bool, k: nat)
    requires base + 8 <= |d| && Pixels(d) && |v| == 8 && Bounded(v) && k < |d|
    ensures PaintRow(d, base, v, add)[k]
         == if base <= k < base + 8 then
              (assert -3840 <= v[k - base] <= 3840; Clip(v[k - base] + if add then d[k] else 0)) else d[k]
  {
  }

  lemma RowsOfArea(v: seq<int>)
    requires v != [] && |v| % 8 == 0 && Bounded(v)
    ensures |v| >= 8 && |v[8..]| / 8 == |v| / 8 - 1 && Bounded(v[..8]) && Bounded(v[8..])
  {
  }

  // Pixels outside the rows of the area are left as they are.
  lemma {:induction false} PaintedElsewhere(d: seq<int>, base: nat, stride: nat, v: seq<int>, add: bool, k: nat)
    requires |v| % 8 == 0 && Area(|d|, base, stride, |v| / 8) && Pixels(d) && Bounded(v) && k < |d|
    requires forall r, c :: 0 <= r < |v| / 8 && 0 <= c < 8 ==> At(base, stride, r, c) != k
    ensures Painted(d, base, stride, v, add)[k] == d[k]
    decreases |v|
  {
    if v != [] {
      RowsOfArea(v);
      assert At(base, stride, 0, if base <= k < base + 8 then k - base else 0) != k;
      PaintRowAt(d, base, v[..8], add, k);
      var next := base + stride;
      forall r, c | 0 <= r < |v[8..]| / 8 && 0 <= c < 8
        ensures At(next, stride, r, c) != k
      {
        NextAt(base, stride, r + 1, c);
      }
      PaintedElsewhere(PaintRow(d, base, v[..8], add), next, stride, v[8..], add, k);
    }
  }

  // Every pixel of the area is its value, or the sum with its value, clipped.
  lemma {:induction false} PaintedPixel(d: seq<int>, base: nat, stride: nat, v: seq<int>, add: bool, r: nat, c: nat)
    requires |v| % 8 == 0 && Area(|d|, base, stride, |v| / 8) && Pixels(d) && Bounded(v)
    requires stride >= 8 && c < 8 && r < |v| / 8
    ensures At(base, stride, r, c) < |d|
    ensures Painted(d, base, stride, v, add)[At(base, stride, r, c)]
         == (assert -3840 <= v[8 * r + c] <= 3840; Clip(v[8 * r + c] + if add then d[At(base, stride, r, c)] else 0))
    decreases |v|
  {
    RowsOfArea(v);
    var d' := PaintRow(d, base, v[..8], add);
    if r == 0 {
      assert At(base, stride, 0, c) == base + c;
      PaintRowAt(d, base, v[..8], add, base + c);
      var next := base + stride;
      forall r', c' | 0 <= r' < |v[8..]| / 8 && 0 <= c' < 8
        ensures At(next, stride, r', c') != base + c
      {
        NextAt(base, stride, r' + 1, c');
      }
      PaintedElsewhere(d', next, stride, v[8..], add, base + c);
    } else {
      NextAt(base, stride, r, c);
      PaintedPixel(d', base + stride, stride, v[8..], add, r - 1, c);
      PaintRowAt(d, base, v[..8], add, At(base, stride, r, c));
      assert v[8..][8 * (r - 1) + c] == v[8 * r + c];
    }
  }

  method StoreRowOfPixels(dest: array<int>, base: nat, v: seq<int>, add: bool)
    requires base + 8 <= dest.Length && Pixels(dest[..]) && |v| == 8 && Bounded(v)
    modifies dest
    ensures dest[..] == PaintRow(old(dest[..]), base, v, add)
  {
    ghost var d := dest[..];
    ghost var row := PaintEight(d[base..base + 8], v, add);
    for i := 0 to 8
      invariant dest[..base] == d[..base] && dest[base..base + i] == row[..i] && dest[base + i..] == d[base + i..]
    {
      assert d[base..base + 8][i] == dest[base + i] && 0 <= d[base..base + 8][i] <= 255;
      dest[base + i] := Clip(v[i] + (if add then dest[base + i] else 0));
      assert dest[base..base + i + 1] == dest[base..base + i] + [dest[base + i]];
    }
    InThreeParts(dest[..], base);
  }

  lemma InThreeParts(d: seq<int>, base: nat)
    requires base + 8 <= |d|
    ensures d == d[..base] + d[base..base + 8] + d[base + 8..]
  {
  }

  predicate AllZero(b: seq<int>)
  {
    forall k | 0 <= k < |b| :: b[k] == 0
  }

  // The loops of mpeg2_idct_copy_c and mpeg2_idct_add_c that clip the results
  // into the picture and clear the block.
  method PaintAndClear(block: array<int>, dest: array<int>, base: nat, stride: nat, add: bool)
    requires block.Length == 64 && block != dest && Bounded(block[..])
    requires Pixels(dest[..]) && Area(dest.Length, base, stride, 8)
    modifies block, dest
    ensures dest[..] == Painted(old(dest[..]), base, stride, old(block[..]), add)
    ensures AllZero(block[..])
  {
    ghost var v, d := block[..], dest[..];
    var p: nat, i := base, 0;
    assert v[0..] == v;
    while i < 8
      invariant 0 <= i <= 8 && Pixels(dest[..]) && Area(dest.Length, p, stride, 8 - i)
      invariant block[8 * i..] == v[8 * i..] && AllZero(block[..8 * i])
      invariant Painted(dest[..], p, stride, v[8 * i..], add) == Painted(d, base, stride, v, add)
    {
      PaintedStep(dest[..], p, stride, v, i, add);
      PaintOne(block, dest, p, i, add, v);
      p := p + stride;
      i := i + 1;
    }
  }

  lemma PaintedStep(d: seq<int>, p: nat, stride: nat, v: seq<int>, i: nat, add: bool)
    requires |v| == 64 && i < 8 && Area(|d|, p, stride, 8 - i) && Pixels(d) && Bounded(v)
    ensures Bounded(v[8 * i..]) && Bounded(v[8 * i..8 * i + 8]) && Bounded(v[8 * (i + 1)..])
    ensures Painted(d, p, stride, v[8 * i..], add)
         == Painted(PaintRow(d, p, v[8 * i..8 * i + 8], add), p + stride, stride, v[8 * (i + 1)..], add)
  {
    NextRow(v, 8 * i);
    assert 8 * (i + 1) == 8 * i + 8;
  }

  // One turn: a row of the block is painted and cleared.
  method PaintOne(block: array<int>, dest: array<int>, p: nat, i: nat, add: bool, ghost v: seq<int>)
    requires block.Length == 64 && block != dest && i < 8 && p + 8 <= dest.Length && Pixels(dest[..])
    requires |v| == 64 && Bounded(v[8 * i..8 * i + 8]) && block[8 * i..] == v[8 * i..] && AllZero(block[..8 * i])
    modifies block, dest
    ensures block[8 * (i + 1)..] == v[8 * (i + 1)..] && AllZero(block[..8 * (i + 1)])
    ensures dest[..] == PaintRow(old(dest[..]), p, v[8 * i..8 * i + 8], add)
  {
    var row := block[8 * i..8 * i + 8];
    assert row == v[8 * i..8 * i + 8] by {
      assert row == block[8 * i..][..8] && v[8 * i..][..8] == v[8 * i..8 * i + 8];
    }
    assert block[8 * i + 8..] == v[8 * i + 8..] by { assert block[8 * i..][8..] == v[8 * i..][8..]; }
    StoreRowOfPixels(dest, p, row, add);
    ClearRow(block, 8 * i);
  }

  lemma NextRow(v: seq<int>, off: nat)
    requires off + 8 <= |v| && Bounded(v)
    ensures Bounded(v[off..]) && v[off..][..8] == v[off..off + 8] && v[off..][8..] == v[off + 8..]
    ensures Bounded(v[off..off + 8]) && Bounded(v[off + 8..])
  {
  }

  method ClearRow(block: array<int>, off: nat)
    requires off + 8 <= block.Length && AllZero(block[..off])
    modifies block
    ensures AllZero(block[..off + 8]) && block[off + 8..] == old(block[off + 8..])
  {
    for k := 0 to 8
      invariant AllZero(block[..off + k]) && block[off + 8..] == old(block[off + 8..])
    {
      block[off + k] := 0;
    }
  }

  // The picture with the transform of a block painted into an area.
  function Rendered(d: seq<int>, base: nat, stride: nat, b: seq<int>, add: bool): (r: seq<int>)
    requires Area(|d|, base, stride, 8) && Pixels(d) && |b| == 64 && Shorts(b)
    ensures |r| == |d| && Pixels(r)
  {
    TransformBound(b);
    Painted(d, base, stride, Transform2(b), add)
  }

  // Pixel c of row r of it is value (r, c) of the inverse cosine transform of the
  // block, or the sum with that, clipped.
  lemma RenderedPixel(d: seq<int>, base: nat, stride: nat, b: seq<int>, add: bool, r: nat, c: nat) returns (y: int)
    requires Area(|d|, base, stride, 8) && Pixels(d) && |b| == 64 && Shorts(b) && stride >= 8 && r < 8 && c < 8
    ensures At(base, stride, r, c) < |d| && -3840 <= y <= 3840 && (RowsFit(b) ==> IsTransform(b, r, c, y))
    ensures Rendered(d, base, stride, b, add)[At(base, stride, r, c)]
         == Clip(y + if add then d[At(base, stride, r, c)] else 0)
  {
    hide Columns, Rows, IsTransform, RowsFit, Clip, Shorts;
    TransformBound(b);
    y := Transform2(b)[8 * r + c];
    PaintedPixel(d, base, stride, Transform2(b), add, r, c);
    if RowsFit(b) {
      TransformIsCosines(b);
      assert BothPassed(b, Transform2(b), r, c);
    }
  }

  // No other pixel changes.
  lemma RenderedElsewhere(d: seq<int>, base: nat, stride: nat, b: seq<int>, add: bool, p: nat)
    requires Area(|d|, base, stride, 8) && Pixels(d) && |b| == 64 && Shorts(b) && p < |d|
    requires forall r, c :: 0 <= r < 8 && 0 <= c < 8 ==> At(base, stride, r, c) != p
    ensures Rendered(d, base, stride, b, add)[p] == d[p]
  {
    hide Transform2;
    TransformBound(b);
    PaintedElsewhere(d, base, stride, Transform2(b), add, p);
  }

  method IdctCopy(block: array<int>, dest: array<int>, base: nat, stride: nat)
    requires block.Length == 64 && block != dest && Shorts(block[..])
    requires Pixels(dest[..]) && Area(dest.Length, base, stride, 8)
    modifies block, dest
    ensures dest[..] == Rendered(old(dest[..]), base, stride, old(block[..]), false)
    ensures AllZero(block[..])
  {
    TransformBound(block[..]);
    ghost var m := TransformInPlace(block);
    PaintAndClear(block, dest, base, stride, false);
  }

  // The test of mpeg2_idct_add_c: (block[0] & (7 << 4)) == (4 << 4).
  predicate Undecided(dc: int)
  {
    (dc / 16) % 8 == 4
  }

  // A block with a DC coefficient only, as mismatch control leaves it: the last
  // coefficient is one when the DC coefficient is even.
  predicate DcOnly(b: seq<int>)
    requires |b| == 64
  {
    && b[0] % 16 == 0 && (forall k | 1 <= k < 63 :: b[k] == 0)
    && b[63] == if (b[0] / 16) % 2 == 0 then 16 else 0
  }

  function Constant(v: int): (r: seq<int>)
    ensures |r| == 64 && forall k | 0 <= k < 64 :: r[k] == v
  {
    seq(64, k => v)
  }

  // A column with a value at both ends; the last one is a result of the row
  // pass over a row that has only its last coefficient, which is one.
  lemma EndsOfColumn(x: seq<int>, k: nat)
    requires |x| == 8 && k < 8
    requires x[1] == 0 && x[2] == 0 && x[3] == 0 && x[4] == 0 && x[5] == 0 && x[6] == 0
    requires x[7] == 0 || (-11 <= x[7] <= 11 && x[0] % 16 == 0)
    ensures x[7] == 0 || x[0] % 64 != 32 ==> Column(x)[k] == (x[0] + 32) / 64
    ensures x[7] == 2 && x[0] % 64 == 32 && k == 7 ==> Column(x)[k] == (x[0] + 32) / 64 - 1
  {
    var a, e := 2048 * x[0] + 65536, x[7];
    var b1, b2 := (-2276 * e / 256) * 181, (3406 * e / 256) * 181;
    assert Transform(x, 65536) == Halves(a, a, a, a, 565 * e, b1, b2, -2841 * e);
    var t := Sum(Halves(a, a, a, a, 565 * e, b1, b2, -2841 * e), k);
    assert Column(x)[k] == t / 131072;
    if e == 0 {
      assert t == a;
      DivUnique(x[0] + 32, 64, (x[0] + 32) / 64, (x[0] + 32) % 64);
      DivUnique(a, 131072, (x[0] + 32) / 64, 2048 * ((x[0] + 32) % 64));
    } else {
      RippleBound(e);
      NearMultiple(x[0] / 16, t - a);
    }
  }

  lemma RippleBound(e: int)
    requires -11 <= e <= 11
    ensures -32768 < 565 * e < 32768 && -32768 < 2841 * e < 32768
    ensures -32768 < (-2276 * e / 256) * 181 < 32768 && -32768 < (3406 * e / 256) * 181 < 32768
  {
    assert -98 <= -2276 * e / 256 <= 97;
    assert -147 <= 3406 * e / 256 <= 146;
  }

  lemma NearMultiple(z: int, e: int)
    requires -32768 < e < 32768
    ensures (16 * z) % 64 == 32 <==> z % 4 == 2
    ensures z % 4 != 2 ==> (32768 * z + 65536 + e) / 131072 == (16 * z + 32) / 64
    ensures z % 4 == 2 && e < 0 ==> (32768 * z + 65536 + e) / 131072 == (16 * z + 32) / 64 - 1
  {
    var q, r := (z + 2) / 4, (z + 2) % 4;
    assert z + 2 == 4 * q + r;
    DivUnique(16 * z, 64, (z - z % 4) / 4, 16 * (z % 4));
    DivUnique(16 * z + 32, 64, q, 16 * r);
    if r != 0 || e >= 0 {
      DivUnique(32768 * z + 65536 + e, 131072, q, 32768 * r + e);
    } else {
      DivUnique(32768 * z + 65536 + e, 131072, q - 1, 131072 + e);
    }
  }

  function Ripple(c: nat): (r: int)
    ensures -11 <= r <= 11 && r != 0 && (c == 0 ==> r == 2)
  {
    if c == 0 then 2 else if c == 1 then -6 else if c == 2 then 9 else if c == 3 then -11
    else if c == 4 then 11 else if c == 5 then -9 else if c == 6 then 6 else -2
  }

  // The row pass over a row with only its last coefficient.
  lemma LastRow(c: nat)
    requires c < 8
    ensures Row([0, 0, 0, 0, 0, 0, 0, 16])[c] == Ripple(c)
  {
    var x := [0, 0, 0, 0, 0, 0, 0, 16];
    var h := Transform(x, 2048);
    assert h == Halves(2048, 2048, 2048, 2048, 9040, -25883, 38372, -45456);
    assert !OnlyFirst(x) && x[7] == 16;
    assert FullRow(x)[c] == ToShort(Sum(h, c) / 4096);
    assert Sum(h, c) / 4096 == Ripple(c);
  }

  // The row pass over a DC-only block: its first row is constant, its last row
  // is zero or that of LastRow, the others are zero.
  lemma RowsOfDc(b: seq<int>, r: nat, c: nat)
    requires |b| == 64 && DcOnly(b) && r < 8 && c < 8
    ensures Rows(b, 8)[8 * r + c]
         == if r == 0 then b[0] / 2 else if r == 7 && b[63] != 0 then Ripple(c) else 0
  {
    RowsAt(b, 8, r, c);
    var x := b[8 * r..8 * r + 8];
    if r == 7 && b[63] != 0 {
      assert forall k | 0 <= k < 8 :: x[k] == b[56 + k];
      assert x == [0, 0, 0, 0, 0, 0, 0, 16];
      LastRow(c);
    } else {
      DcRow(b, r, x);
      assert Row(x)[c] == x[0] / 2;
    }
  }

  lemma DcRow(b: seq<int>, r: nat, x: seq<int>)
    requires |b| == 64 && DcOnly(b) && r < 8 && x == b[8 * r..8 * r + 8] && (r < 7 || b[63] == 0)
    ensures OnlyFirst(x) && x[0] == if r == 0 then b[0] else 0
  {
    forall k | 0 <= k < 8 ensures x[k] == if 8 * r + k == 0 then b[0] else 0 {
      assert x[k] == b[8 * r + k];
    }
  }

  lemma ColumnEntry(b: seq<int>, c: nat, r: nat)
    requires |b| == 64 && DcOnly(b) && c < 8 && r < 8
    ensures ColumnOf(Rows(b, 8), c)[r] == if r == 0 then b[0] / 2 else if r == 7 && b[63] != 0 then Ripple(c) else 0
  {
    RowsOfDc(b, r, c);
  }

  lemma ColumnInput(b: seq<int>, c: nat, x: seq<int>)
    requires |b| == 64 && DcOnly(b) && c < 8 && x == ColumnOf(Rows(b, 8), c)
    ensures x[0] == b[0] / 2 && x[7] == (if b[63] != 0 then Ripple(c) else 0)
    ensures x[1] == 0 && x[2] == 0 && x[3] == 0 && x[4] == 0 && x[5] == 0 && x[6] == 0
  {
    ColumnEntry(b, c, 0); ColumnEntry(b, c, 1); ColumnEntry(b, c, 2); ColumnEntry(b, c, 3);
    ColumnEntry(b, c, 4); ColumnEntry(b, c, 5); ColumnEntry(b, c, 6); ColumnEntry(b, c, 7);
  }

  lemma ColumnOfEnds(m: seq<int>, r: nat, c: nat)
    requires |m| == 64 && r < 8 && c < 8
    requires var x := ColumnOf(m, c);
             && x[1] == 0 && x[2] == 0 && x[3] == 0 && x[4] == 0 && x[5] == 0 && x[6] == 0
             && (x[7] == 0 || (-11 <= x[7] <= 11 && x[0] % 16 == 0))
    ensures var x := ColumnOf(m, c);
            && (x[7] == 0 || x[0] % 64 != 32 ==> Columns(m, 8)[8 * r + c] == (x[0] + 32) / 64)
            && (x[7] == 2 && x[0] % 64 == 32 && r == 7 ==> Columns(m, 8)[8 * r + c] == (x[0] + 32) / 64 - 1)
  {
    ColumnsAt(m, 8, r, c);
    EndsOfColumn(ColumnOf(m, c), r);
  }

  lemma ColumnOfDc(b: seq<int>, r: nat, c: nat)
    requires |b| == 64 && DcOnly(b) && r < 8 && c < 8
    ensures !Undecided(b[0]) ==> Transform2(b)[8 * r + c] == (b[0] + 64) / 128
    ensures Undecided(b[0]) && r == 7 && c == 0 ==> Transform2(b)[8 * r + c] == (b[0] + 64) / 128 - 1
  {
    ColumnInput(b, c, ColumnOf(Rows(b, 8), c));
    HalfOfDc(b[0]);
    ColumnOfEnds(Rows(b, 8), r, c);
  }

  lemma HalfOfDc(dc: int)
    requires dc % 16 == 0
    ensures (dc / 2 + 32) / 64 == (dc + 64) / 128
    ensures (dc / 16) % 2 == 0 ==> (dc / 2) % 16 == 0
    ensures Undecided(dc) <==> (dc / 2) % 64 == 32
    ensures Undecided(dc) ==> (dc / 16) % 2 == 0
  {
    var z, r := dc / 128, dc % 128 / 16;
    assert dc == 128 * z + 16 * r;
    HalfParts(z, r);
  }

  lemma HalfParts(z: int, r: int)
    requires 0 <= r < 8
    ensures (128 * z + 16 * r) / 2 == 64 * z + 8 * r && (128 * z + 16 * r) / 16 == 8 * z + r
    ensures (64 * z + 8 * r + 32) / 64 == (128 * z + 16 * r + 64) / 128
    ensures (64 * z + 8 * r) % 64 == 8 * r && (8 * z + r) % 8 == r && (8 * z + r) % 2 == r % 2
    ensures r % 2 == 0 ==> (64 * z + 8 * r) % 16 == 0
  {
    var up := if r >= 4 then 1 else 0;
    DivUnique(128 * z + 16 * r, 2, 64 * z + 8 * r, 0);
    DivUnique(128 * z + 16 * r, 16, 8 * z + r, 0);
    DivUnique(64 * z + 8 * r + 32, 64, z + up, 8 * r + 32 - 64 * up);
    DivUnique(128 * z + 16 * r + 64, 128, z + up, 16 * r + 64 - 128 * up);
    DivUnique(64 * z + 8 * r, 64, z, 8 * r);
    DivUnique(8 * z + r, 8, z, r);
    DivUnique(8 * z + r, 2, 4 * z + r / 2, r % 2);
    if r % 2 == 0 { DivUnique(64 * z + 8 * r, 16, 4 * z + r / 2, 0); }
  }

  // The shortcut for a DC coefficient alone gives what the full transform gives
  // if and only if the test lets it be taken.
  lemma DcShortcut(b: seq<int>)
    requires |b| == 64 && DcOnly(b)
    ensures Transform2(b) == Constant((b[0] + 64) / 128) <==> !Undecided(b[0])
  {
    forall k | 0 <= k < 64
      ensures !Undecided(b[0]) ==> Transform2(b)[k] == (b[0] + 64) / 128
    {
      ColumnOfDc(b, k / 8, k % 8);
    }
    ColumnOfDc(b, 7, 0);
    assert 8 * 7 + 0 == 56;
    if Undecided(b[0]) {
      assert Transform2(b)[56] != Constant((b[0] + 64) / 128)[56];
    }
  }

  // mpeg2_idct_add_c. The block is left clear after the full transform, or if
  // only its first and last entries were set.
  method IdctAdd(last: int, block: array<int>, dest: array<int>, base: nat, stride: nat)
    requires block.Length == 64 && block != dest && Shorts(block[..])
    requires Pixels(dest[..]) && Area(dest.Length, base, stride, 8)
    modifies block, dest
    ensures last != 129 || Undecided(old(block[0])) || DcOnly(old(block[..])) ==>
              dest[..] == Rendered(old(dest[..]), base, stride, old(block[..]), true)
    ensures last != 129 || Undecided(old(block[0])) ==> AllZero(block[..])
    ensures last == 129 && !Undecided(old(block[0])) ==> block[..] == old(block[..])[0 := 0][63 := 0]
  {
    ghost var b := block[..];
    assert Short(b[0]);
    TransformBound(b);
    if last != 129 || Undecided(block[0]) {
      ghost var m := TransformInPlace(block);
      PaintAndClear(block, dest, base, stride, true);
    } else {
      var dc := (block[0] + 64) / 128;
      if DcOnly(b) { DcShortcut(b); }
      AddConstant(dest, base, stride, dc);
      block[0], block[63] := 0, 0;
    }
  }

  method AddConstant(dest: array<int>, base: nat, stride: nat, dc: int)
    requires -256 <= dc <= 256 && Pixels(dest[..]) && Area(dest.Length, base, stride, 8)
    modifies dest
    ensures dest[..] == Painted(old(dest[..]), base, stride, Constant(dc), true)
  {
    ghost var v, d := Constant(dc), dest[..];
    var p: nat, i := base, 0;
    while i < 8
      invariant 0 <= i <= 8 && Pixels(dest[..]) && Area(dest.Length, p, stride, 8 - i)
      invariant Painted(dest[..], p, stride, v[8 * i..], true) == Painted(d, base, stride, v, true)
    {
      var row := [dc, dc, dc, dc, dc, dc, dc, dc];
      NextRow(v, 8 * i);
      assert row == v[8 * i..8 * i + 8];
      StoreRowOfPixels(dest, p, row, true);
      p := p + stride;
      i := i + 1;
    }
  }
}
