// The inverse cosine transform of eight values that libmpeg2/idct.c computes: its
// weights are cosines, scaled and rounded, and its results are sums of cosines.
module Cosines {
  import opened Words
  import Scans

  // 2048 times the square root of two times cos(m * pi / 16), rounded, by the
  // symmetries of the cosine. The coefficient of the constant has that divided by
  // the square root of two.
  function Cosine(m: int): (c: int)
    ensures -2841 <= c <= 2841
  {
    var n := m % 32;
    if n <= 8 then Quarter(n) else if n <= 16 then -Quarter(16 - n)
    else if n <= 24 then -Quarter(n - 16) else Quarter(32 - n)
  }

  function Quarter(n: nat): (c: int)
    requires n <= 8
    ensures 0 <= c <= 2841
  {
    if n == 0 then 2048 else if n == 1 then 2841 else if n == 2 then 2676 else if n == 3 then 2408
    else if n == 4 then 2048 else if n == 5 then 1609 else if n == 6 then 1108 else if n == 7 then 565 else 0
  }

  // h[n] is cos(n * pi / 16): the half-angle formula, from cos(pi / 2) on.
  predicate AreCosines(h: seq<real>)
  {
    && |h| == 9 && h[8] == 0.0 && (forall n :: 0 <= n < 8 ==> h[n] >= 0.0)
    && 2.0 * h[4] * h[4] == 1.0 + h[8]
    && 2.0 * h[2] * h[2] == 1.0 + h[4] && 2.0 * h[6] * h[6] == 1.0 - h[4]
    && 2.0 * h[1] * h[1] == 1.0 + h[2] && 2.0 * h[7] * h[7] == 1.0 - h[2]
    && 2.0 * h[3] * h[3] == 1.0 + h[6] && 2.0 * h[5] * h[5] == 1.0 - h[6]
  }

  lemma LessSquare(a: real, b: real)
    requires 0.0 <= a < b
    ensures a * a < b * b
  {
    assert (b - a) * b > 0.0 && a * (b - a) >= 0.0;
    assert (b - a) * b == b * b - a * b && a * (b - a) == a * b - a * a;
  }

  lemma RootBetween(q: real, lo: real, hi: real)
    requires q >= 0.0 && lo >= 0.0 && hi >= 0.0 && lo * lo <= q * q <= hi * hi
    ensures lo <= q <= hi
  {
    if q < lo { LessSquare(q, lo); }
    if q > hi { LessSquare(hi, q); }
  }

  lemma SquareOfProduct(a: real, b: real)
    ensures (a * b) * (a * b) == (a * a) * (b * b)
  {
    var c := a * b;
    assert c * c == a * (b * c) && b * c == a * (b * b);
  }

  // A weight between two bounds, from the square of its cosine.
  lemma WeightBetween(h: real, root: real, s: real, lo: real, hi: real)
    requires h >= 0.0 && root >= 0.0 && root * root == 2.0 && 2.0 * h * h == s && lo >= 0.0 && hi >= 0.0
    requires lo * lo <= 4194304.0 * s <= hi * hi
    ensures lo <= 2048.0 * root * h <= hi
  {
    var q := 2048.0 * root * h;
    SquareOfProduct(root, h);
    assert q * q == 4194304.0 * ((root * h) * (root * h));
    RootBetween(q, lo, hi);
  }

  lemma CosineBounds(h: seq<real>)
    requires AreCosines(h)
    ensures 0.7071 <= h[4] <= 0.70711 && 0.92387 <= h[2] <= 0.92389 && 0.38267 <= h[6] <= 0.38269
  {
    RootBetween(h[4], 0.7071, 0.70711);
    RootBetween(h[2], 0.92387, 0.92389);
    RootBetween(h[6], 0.38267, 0.38269);
  }

  // Every weight is the integer nearest to its scaled cosine.
  lemma WeightsAreCosines(h: seq<real>, root: real, n: nat)
    requires AreCosines(h) && root >= 0.0 && root * root == 2.0 && 1 <= n <= 7
    ensures -0.5 <= Cosine(n) as real - 2048.0 * root * h[n] <= 0.5
  {
    CosineBounds(h);
    if n == 1 { WeightBetween(h[1], root, 1.0 + h[2], 2840.5, 2841.5); }
    else if n == 2 { WeightBetween(h[2], root, 1.0 + h[4], 2675.5, 2676.5); }
    else if n == 3 { WeightBetween(h[3], root, 1.0 + h[6], 2407.5, 2408.5); }
    else if n == 4 { WeightBetween(h[4], root, 1.0, 2047.5, 2048.5); }
    else if n == 5 { WeightBetween(h[5], root, 1.0 - h[6], 1608.5, 1609.5); }
    else if n == 6 { WeightBetween(h[6], root, 1.0 - h[4], 1107.5, 1108.5); }
    else { WeightBetween(h[7], root, 1.0 - h[2], 564.5, 565.5); }
  }

  // ---- Sums of cosines ----

  // Where coefficient n is: 0, 2, 4, 6 come first, then 1, 3, 5, 7.
  function Slot(n: nat): (s: nat)
    requires n < 8
    ensures s < 8
  {
    n / 2 + n % 2 * 4
  }

  // Value k of the inverse transform, of the first n coefficients.
  function CosineSum(x: seq<int>, k: nat, n: nat): int
    requires |x| == 8 && n <= 8
  {
    if n == 0 then 0 else CosineSum(x, k, n - 1) + Cosine((n - 1) * (2 * k + 1)) * x[Slot(n - 1)]
  }

  function Abs(v: int): nat
  {
    if v < 0 then -v else v
  }

  function Size(x: seq<int>): nat
    requires |x| == 8
  {
    Abs(x[0]) + Abs(x[1]) + Abs(x[2]) + Abs(x[3]) + Abs(x[4]) + Abs(x[5]) + Abs(x[6]) + Abs(x[7])
  }

  // What the rounding of 181 / 256 to the square root of one half can do, in
  // units of 1 / 256.
  function Slack(x: seq<int>): (e: int)
    requires |x| == 8
    ensures e >= 0
  {
    219 * (Abs(x[4]) + Abs(x[5]) + Abs(x[6]) + Abs(x[7])) + 181 * 255
  }

  // t is value k of the inverse transform of x, plus bias: exactly for the first
  // and last two and the middle two values, up to the slack for the others.
  predicate IsInverse(x: seq<int>, bias: int, k: nat, t: int)
    requires |x| == 8
  {
    var e := t - bias - CosineSum(x, k, 8);
    if k % 4 == 0 || k % 4 == 3 then e == 0 else -Slack(x) <= 256 * e <= Slack(x)
  }

  // u is that value divided by scale and rounded.
  predicate Rounded(x: seq<int>, k: nat, scale: nat, u: int)
    requires |x| == 8
  {
    -(128 * scale + Slack(x)) <= 256 * (scale * u - CosineSum(x, k, 8)) <= 128 * scale + Slack(x)
  }

  lemma Quarters()
    ensures Quarter(0) == 2048 && Quarter(1) == 2841 && Quarter(2) == 2676 && Quarter(3) == 2408 && Quarter(4) == 2048
    ensures Quarter(5) == 1609 && Quarter(6) == 1108 && Quarter(7) == 565
  {
  }

  lemma NoWeights(x: seq<int>, k: nat)
    requires |x| == 8
    ensures CosineSum(x, k, 0) == 0
  {
  }

  // One more coefficient, where its weight is known.
  lemma NextWeight(x: seq<int>, k: nat, n: nat, w: int)
    requires |x| == 8 && 1 <= n <= 8 && Cosine((n - 1) * (2 * k + 1)) == w
    ensures CosineSum(x, k, n) == CosineSum(x, k, n - 1) + w * x[Slot(n - 1)]
  {
  }

  lemma Sum0(x: seq<int>)
    requires |x| == 8
    ensures CosineSum(x, 0, 8)
         == 2048 * x[0] + 2841 * x[4] + 2676 * x[1] + 2408 * x[5] + 2048 * x[2] + 1609 * x[6] + 1108 * x[3] + 565 * x[7]
  {
    Quarters();
    hide CosineSum, Quarter;
    NoWeights(x, 0);
    NextWeight(x, 0, 1, 2048);
    NextWeight(x, 0, 2, 2841);
    NextWeight(x, 0, 3, 2676);
    NextWeight(x, 0, 4, 2408);
    NextWeight(x, 0, 5, 2048);
    NextWeight(x, 0, 6, 1609);
    NextWeight(x, 0, 7, 1108);
    NextWeight(x, 0, 8, 565);
  }

  lemma Sum1(x: seq<int>)
    requires |x| == 8
    ensures CosineSum(x, 1, 8)
         == 2048 * x[0] + 2408 * x[4] + 1108 * x[1] - 565 * x[5] - 2048 * x[2] - 2841 * x[6] - 2676 * x[3] - 1609 * x[7]
  {
    Quarters();
    hide CosineSum, Quarter;
    NoWeights(x, 1);
    NextWeight(x, 1, 1, 2048);
    NextWeight(x, 1, 2, 2408);
    NextWeight(x, 1, 3, 1108);
    NextWeight(x, 1, 4, -565);
    NextWeight(x, 1, 5, -2048);
    NextWeight(x, 1, 6, -2841);
    NextWeight(x, 1, 7, -2676);
    NextWeight(x, 1, 8, -1609);
  }

  lemma Sum2(x: seq<int>)
    requires |x| == 8
    ensures CosineSum(x, 2, 8)
         == 2048 * x[0] + 1609 * x[4] - 1108 * x[1] - 2841 * x[5] - 2048 * x[2] + 565 * x[6] + 2676 * x[3] + 2408 * x[7]
  {
    Quarters();
    hide CosineSum, Quarter;
    NoWeights(x, 2);
    NextWeight(x, 2, 1, 2048);
    NextWeight(x, 2, 2, 1609);
    NextWeight(x, 2, 3, -1108);
    NextWeight(x, 2, 4, -2841);
    NextWeight(x, 2, 5, -2048);
    NextWeight(x, 2, 6, 565);
    NextWeight(x, 2, 7, 2676);
    NextWeight(x, 2, 8, 2408);
  }

  lemma Sum3(x: seq<int>)
    requires |x| == 8
    ensures CosineSum(x, 3, 8)
         == 2048 * x[0] + 565 * x[4] - 2676 * x[1] - 1609 * x[5] + 2048 * x[2] + 2408 * x[6] - 1108 * x[3] - 2841 * x[7]
  {
    Quarters();
    hide CosineSum, Quarter;
    NoWeights(x, 3);
    NextWeight(x, 3, 1, 2048);
    NextWeight(x, 3, 2, 565);
    NextWeight(x, 3, 3, -2676);
    NextWeight(x, 3, 4, -1609);
    NextWeight(x, 3, 5, 2048);
    NextWeight(x, 3, 6, 2408);
    NextWeight(x, 3, 7, -1108);
    NextWeight(x, 3, 8, -2841);
  }

  lemma Sum4(x: seq<int>)
    requires |x| == 8
    ensures CosineSum(x, 4, 8)
         == 2048 * x[0] - 565 * x[4] - 2676 * x[1] + 1609 * x[5] + 2048 * x[2] - 2408 * x[6] - 1108 * x[3] + 2841 * x[7]
  {
    Quarters();
    hide CosineSum, Quarter;
    NoWeights(x, 4);
    NextWeight(x, 4, 1, 2048);
    NextWeight(x, 4, 2, -565);
    NextWeight(x, 4, 3, -2676);
    NextWeight(x, 4, 4, 1609);
    NextWeight(x, 4, 5, 2048);
    NextWeight(x, 4, 6, -2408);
    NextWeight(x, 4, 7, -1108);
    NextWeight(x, 4, 8, 2841);
  }

  lemma Sum5(x: seq<int>)
    requires |x| == 8
    ensures CosineSum(x, 5, 8)
         == 2048 * x[0] - 1609 * x[4] - 1108 * x[1] + 2841 * x[5] - 2048 * x[2] - 565 * x[6] + 2676 * x[3] - 2408 * x[7]
  {
    Quarters();
    hide CosineSum, Quarter;
    NoWeights(x, 5);
    NextWeight(x, 5, 1, 2048);
    NextWeight(x, 5, 2, -1609);
    NextWeight(x, 5, 3, -1108);
    NextWeight(x, 5, 4, 2841);
    NextWeight(x, 5, 5, -2048);
    NextWeight(x, 5, 6, -565);
    NextWeight(x, 5, 7, 2676);
    NextWeight(x, 5, 8, -2408);
  }

  lemma Sum6(x: seq<int>)
    requires |x| == 8
    ensures CosineSum(x, 6, 8)
         == 2048 * x[0] - 2408 * x[4] + 1108 * x[1] + 565 * x[5] - 2048 * x[2] + 2841 * x[6] - 2676 * x[3] + 1609 * x[7]
  {
    Quarters();
    hide CosineSum, Quarter;
    NoWeights(x, 6);
    NextWeight(x, 6, 1, 2048);
    NextWeight(x, 6, 2, -2408);
    NextWeight(x, 6, 3, 1108);
    NextWeight(x, 6, 4, 565);
    NextWeight(x, 6, 5, -2048);
    NextWeight(x, 6, 6, 2841);
    NextWeight(x, 6, 7, -2676);
    NextWeight(x, 6, 8, 1609);
  }

  lemma Sum7(x: seq<int>)
    requires |x| == 8
    ensures CosineSum(x, 7, 8)
         == 2048 * x[0] - 2841 * x[4] + 2676 * x[1] - 2408 * x[5] + 2048 * x[2] - 1609 * x[6] + 1108 * x[3] - 565 * x[7]
  {
    Quarters();
    hide CosineSum, Quarter;
    NoWeights(x, 7);
    NextWeight(x, 7, 1, 2048);
    NextWeight(x, 7, 2, -2841);
    NextWeight(x, 7, 3, 2676);
    NextWeight(x, 7, 4, -2408);
    NextWeight(x, 7, 5, 2048);
    NextWeight(x, 7, 6, -1609);
    NextWeight(x, 7, 7, 1108);
    NextWeight(x, 7, 8, -565);
  }

  // A value with the rounding bias, shifted right.
  lemma ShiftRounds(x: seq<int>, k: nat, scale: nat, t: int)
    requires |x| == 8 && scale > 0 && scale % 2 == 0 && IsInverse(x, scale / 2, k, t)
    ensures Rounded(x, k, scale, t / scale)
  {
    hide CosineSum, Slack;
    assert t == scale * (t / scale) + t % scale;
  }

  // ---- Both passes ----

  function RowOf(b: seq<int>, r: nat): (x: seq<int>)
    requires |b| == 64 && r < 8
    ensures |x| == 8
  {
    b[8 * r..8 * r + 8]
  }

  function ColumnOf(b: seq<int>, c: nat): (x: seq<int>)
    requires |b| == 64 && c < 8
    ensures |x| == 8
  {
    seq(8, k requires 0 <= k < 8 => b[8 * k + c])
  }

  // Coefficient u of vertical frequency v, as the rearranged scan stores it.
  function Coefficient(b: seq<int>, v: nat, u: nat): int
    requires |b| == 64 && v < 8 && u < 8
  {
    Scans.RearrangedInjective(8 * v + u, 0);
    b[Scans.Rearranged(8 * v + u)]
  }

  // The first n terms of the sum over horizontal frequencies.
  function Across(b: seq<int>, v: nat, j: nat, n: nat): int
    requires |b| == 64 && v < 8 && n <= 8
  {
    if n == 0 then 0 else Across(b, v, j, n - 1) + Cosine((n - 1) * (2 * j + 1)) * Coefficient(b, v, n - 1)
  }

  // The first n terms of the double sum, over vertical frequencies: value (i, j)
  // of the two-dimensional inverse cosine transform.
  function Down(b: seq<int>, i: nat, j: nat, n: nat): int
    requires |b| == 64 && n <= 8
  {
    if n == 0 then 0 else Down(b, i, j, n - 1) + Cosine((n - 1) * (2 * i + 1)) * Across(b, n - 1, j, 8)
  }

  lemma RearrangedSlots(v: nat, u: nat)
    requires v < 8 && u < 8
    ensures Scans.Rearranged(8 * v + u) == 8 * Slot(v) + Slot(u)
  {
    Scans.RearrangedDigits(u % 2, u / 2, v % 2, v / 2, 8 * v + u);
  }

  lemma {:induction false} AcrossIsRow(b: seq<int>, v: nat, j: nat, n: nat)
    requires |b| == 64 && v < 8 && n <= 8
    ensures Across(b, v, j, n) == CosineSum(RowOf(b, Slot(v)), j, n)
  {
    if n > 0 {
      AcrossIsRow(b, v, j, n - 1);
      RearrangedSlots(v, n - 1);
    }
  }

  // The row transforms at column j, by rows of the block.
  function RowSums(b: seq<int>, j: nat): (x: seq<int>)
    requires |b| == 64
    ensures |x| == 8
  {
    seq(8, r requires 0 <= r < 8 => CosineSum(RowOf(b, r), j, 8))
  }

  lemma {:induction false} DownIsColumn(b: seq<int>, i: nat, j: nat, n: nat)
    requires |b| == 64 && n <= 8
    ensures Down(b, i, j, n) == CosineSum(RowSums(b, j), i, n)
  {
    if n > 0 {
      DownIsColumn(b, i, j, n - 1);
      AcrossIsRow(b, n - 1, j, 8);
    }
  }

  // ---- How far the passes are from the double sum ----

  lemma WeightTimes(c: int, v: int)
    requires -2841 <= c <= 2841
    ensures -2841 * Abs(v) <= c * v <= 2841 * Abs(v)
  {
    assert (2841 - c) * Abs(v) >= 0 && (2841 + c) * Abs(v) >= 0;
  }

  function SizeTo(x: seq<int>, n: nat): nat
    requires |x| == 8 && n <= 8
  {
    if n == 0 then 0 else SizeTo(x, n - 1) + Abs(x[Slot(n - 1)])
  }

  lemma {:induction false} SumBound(x: seq<int>, k: nat, n: nat)
    requires |x| == 8 && n <= 8
    ensures -2841 * SizeTo(x, n) <= CosineSum(x, k, n) <= 2841 * SizeTo(x, n)
  {
    if n > 0 {
      SumBound(x, k, n - 1);
      WeightTimes(Cosine((n - 1) * (2 * k + 1)), x[Slot(n - 1)]);
    }
  }

  // Sums of cosines are linear.
  lemma {:induction false} SumLinear(x: seq<int>, y: seq<int>, z: seq<int>, a: int, b: int, k: nat, n: nat)
    requires |x| == |y| == |z| == 8 && n <= 8 && forall r :: 0 <= r < 8 ==> a * z[r] == b * x[r] + y[r]
    ensures a * CosineSum(z, k, n) == b * CosineSum(x, k, n) + CosineSum(y, k, n)
  {
    hide Cosine;
    if n > 0 {
      SumLinear(x, y, z, a, b, k, n - 1);
      var (c, r) := (Cosine((n - 1) * (2 * k + 1)), Slot(n - 1));
      TermLinear(c, x[r], y[r], z[r], a, b);
      Spread(a, CosineSum(z, k, n - 1), c * z[r]);
      Spread(b, CosineSum(x, k, n - 1), c * x[r]);
    }
  }

  lemma Spread(a: int, s: int, t: int)
    ensures a * (s + t) == a * s + a * t
  {
  }

  lemma TermLinear(c: int, x: int, y: int, z: int, a: int, b: int)
    requires a * z == b * x + y
    ensures a * (c * z) == b * (c * x) + c * y
  {
    assert a * (c * z) == c * (a * z) && c * (b * x + y) == c * (b * x) + c * y && c * (b * x) == b * (c * x);
  }

  lemma SizeIs(x: seq<int>)
    requires |x| == 8
    ensures SizeTo(x, 8) == Size(x) && Slack(x) <= 219 * Size(x) + 181 * 255
  {
    hide Abs;
    NoSize(x);
    NextSize(x, 1); NextSize(x, 2); NextSize(x, 3); NextSize(x, 4);
    NextSize(x, 5); NextSize(x, 6); NextSize(x, 7); NextSize(x, 8);
    hide SizeTo;
  }

  lemma NoSize(x: seq<int>)
    requires |x| == 8
    ensures SizeTo(x, 0) == 0
  {
  }

  lemma NextSize(x: seq<int>, n: nat)
    requires |x| == 8 && 1 <= n <= 8
    ensures SizeTo(x, n) == SizeTo(x, n - 1) + Abs(x[Slot(n - 1)])
  {
  }

  function RowSizes(b: seq<int>): (x: seq<int>)
    requires |b| == 64
    ensures |x| == 8
  {
    seq(8, r requires 0 <= r < 8 => Size(RowOf(b, r)))
  }

  // The sum of the magnitudes of a block.
  function BlockSize(b: seq<int>): nat
    requires |b| == 64
  {
    Size(RowSizes(b))
  }

  // Sixteen bits hold the results of the row pass.
  ghost predicate RowsFit(b: seq<int>)
    requires |b| == 64
  {
    forall r, j :: 0 <= r < 8 && 0 <= j < 8 ==> RowFits(RowOf(b, r), j)
  }

  predicate RowFits(x: seq<int>, j: nat)
    requires |x| == 8
  {
    256 * Abs(CosineSum(x, j, 8)) + 128 * 4096 + Slack(x) <= 256 * 4096 * 32767
  }

  // The scale of both passes, 4096 * 131072, in units of 1 / 256.
  const SCALE: int := 137_438_953_472

  // Less than 0.6 of the scale for a small block, and little more for others.
  function Error(size: nat): int
  {
    4096 * (16_823_371 + 219 * (size + 8)) + 2841 * (8 * 570_443 + 219 * size)
  }

  // y is value (i, j) of the two-dimensional inverse cosine transform of b.
  predicate IsTransform(b: seq<int>, i: nat, j: nat, y: int)
    requires |b| == 64
  {
    -Error(BlockSize(b)) <= SCALE * y - 256 * Down(b, i, j, 8) <= Error(BlockSize(b))
  }

  // A result of the row pass: how far it is from the sum, and how large.
  lemma RowError(x: seq<int>, j: nat, u: int)
    requires |x| == 8 && Rounded(x, j, 4096, u)
    ensures Abs(1048576 * u - 256 * CosineSum(x, j, 8)) <= 570_443 + 219 * Size(x)
    ensures Abs(u) <= Size(x) + 1
  {
    SumBound(x, j, 8);
    SizeIs(x);
    hide CosineSum, Slack, Size, SizeTo;
  }

  // The same for all the rows.
  lemma RowErrors(b: seq<int>, j: nat, m: seq<int>, d: seq<int>)
    requires |b| == 64 && |m| == |d| == 8
    requires forall r :: 0 <= r < 8 ==>
      Rounded(RowOf(b, r), j, 4096, m[r]) && d[r] == 1048576 * m[r] - 256 * RowSums(b, j)[r]
    ensures Size(d) <= 8 * 570_443 + 219 * BlockSize(b) && Size(m) <= BlockSize(b) + 8
  {
    var a := RowSizes(b);
    forall r | 0 <= r < 8
      ensures Abs(d[r]) <= 570_443 + 219 * a[r] && Abs(m[r]) <= a[r] + 1 && a[r] >= 0
    {
      RowError(RowOf(b, r), j, m[r]);
    }
    hide RowSums, RowSizes, Rounded;
    assert a[0] >= 0 && a[1] >= 0 && a[2] >= 0 && a[3] >= 0 && a[4] >= 0 && a[5] >= 0 && a[6] >= 0 && a[7] >= 0;
    assert Size(a) == a[0] + a[1] + a[2] + a[3] + a[4] + a[5] + a[6] + a[7];
  }

  // A column of row results, transformed and rounded.
  lemma TwoPasses(b: seq<int>, i: nat, j: nat, m: seq<int>, y: int)
    requires |b| == 64 && |m| == 8 && Rounded(m, i, 131072, y)
    requires forall r :: 0 <= r < 8 ==> Rounded(RowOf(b, r), j, 4096, m[r])
    ensures IsTransform(b, i, j, y)
  {
    assert -(128 * 131072 + Slack(m)) <= 256 * (131072 * y - CosineSum(m, i, 8)) <= 128 * 131072 + Slack(m);
    hide Rounded;
    var sums := RowSums(b, j);
    var d := seq(8, r requires 0 <= r < 8 => 1048576 * m[r] - 256 * sums[r]);
    RowErrors(b, j, m, d);
    SumLinear(sums, d, m, 1048576, 256, i, 8);
    SumBound(d, i, 8);
    SizeIs(d);
    SizeIs(m);
    DownIsColumn(b, i, j, 8);
    hide RowSums, CosineSum, Slack, Size, SizeTo, Down, BlockSize;
  }
}
