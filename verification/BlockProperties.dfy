// What the block decoders promise: dequantisation and saturation by sections
// 7.4.2.3 and 7.4.3 of ISO/IEC 13818-2, mismatch control by section 7.4.4, and
// the round trip from run/level lists to coefficients.
module BlockProperties {
  import opened Words
  import opened BitReader
  import opened BlockDecoder

  // ---- Dequantisation ----

  function Sign(x: int): int
  {
    if x > 0 then 1 else if x < 0 then -1 else 0
  }

  // Inverse quantisation and saturation of a level; q is the product of the
  // weighting matrix entry and the quantiser scale.
  function Reconstructed(kind: Kind, level: int, q: nat): (f: int)
    ensures -2048 <= f <= 2047
  {
    var f := TruncDiv((2 * level + (if kind.NonIntra? then Sign(level) else 0)) * q, 32);
    if f > 2047 then 2047 else if f < -2048 then -2048 else f
  }

  lemma NegateProduct(a: int, q: nat)
    requires a >= 0
    ensures (-a) * q == -(a * q) && a * q >= 0
  {
  }

  // A level of the table is stored as sixteen times its reconstruction.
  lemma TableDequantised(cfg: Config, level: nat, q: nat, negative: bool)
    requires level > 0
    ensures cfg.TableValue(level, q, negative)
         == 16 * Reconstructed(cfg.kind, if negative then -(level as int) else level, q)
  {
    var l: int := level;
    if cfg.kind.NonIntra? {
      NegateProduct(2 * l + 1, q);
    } else {
      MulAssociates(2, l, q);
      NegateProduct(2 * l, q);
    }
  }

  // So is the level of an escape code.
  lemma EscapeDequantised(cfg: Config, level: int, q: nat)
    requires level != 0
    ensures cfg.EscapeValue(level, q) == 16 * Reconstructed(cfg.kind, level, q)
  {
    if !cfg.kind.NonIntra? {
      MulAssociates(2, level, q);
    }
  }

  // ---- Mismatch control ----

  // Sum of the coefficients; a block stores them times sixteen.
  function SumCoef(d: seq<int>): int
  {
    if d == [] then 0 else SumCoef(d[..|d| - 1]) + d[|d| - 1] / 16
  }

  lemma {:induction false} SumUpdate(d: seq<int>, j: nat, v: int)
    requires j < |d|
    ensures SumCoef(d[j := v]) == SumCoef(d) - d[j] / 16 + v / 16
  {
    var n := |d| - 1;
    if j == n {
      assert d[j := v][..n] == d[..n];
    } else {
      assert d[j := v][..n] == d[..n][j := v];
      SumUpdate(d[..n], j, v);
    }
  }

  // Section 7.4.4: if the sum of the coefficients is even, the last one is
  // moved to its even or odd neighbour.
  function MismatchControl(d: seq<int>): (r: seq<int>)
    requires |d| == 64
  {
    if SumCoef(d) % 2 == 1 then d
    else if (d[63] / 16) % 2 == 1 then d[63 := d[63] - 16]
    else d[63 := d[63] + 16]
  }

  lemma XorSixteen(v: int)
    requires v % 16 == 0
    ensures Xor(v, 16) == if (v / 16) % 2 == 1 then v - 16 else v + 16
  {
    var u := v / 16;
    XorOne(u);
    assert v == 16 * u;
    assert Xor(2 * u, 2) == 2 * Xor(u, 1);
    assert Xor(4 * u, 4) == 2 * Xor(2 * u, 2);
    assert Xor(8 * u, 8) == 2 * Xor(4 * u, 4);
    assert Xor(16 * u, 16) == 2 * Xor(8 * u, 8);
  }

  lemma XorOne(u: int)
    ensures Xor(u, 1) == if u % 2 == 1 then u - 1 else u + 1
  {
    XorZero(u / 2);
  }

  // What the loop keeps after position i: the positions after i are still
  // zero, all values are multiples of sixteen in the range of int16_t, and bit
  // 4 of m is set when the sum of the coefficients is even.
  ghost predicate Inv(cfg: Config, i: int, d: seq<int>, m: int)
  {
    && cfg.Valid() && -1 <= i < 64 && |d| == 64
    && (forall k | i < k < 64 :: d[cfg.scan[k]] == 0)
    && (forall k | 0 <= k < 64 :: d[k] % 16 == 0 && -32768 <= d[k] <= 32752)
    && BitOf(m, 4) == (1 + SumCoef(d)) % 2
  }

  lemma BitFour(v: int)
    ensures BitOf(v, 4) == (v / 16) % 2
  {
    Pow2Values();
  }

  lemma {:induction false} SumZero(d: seq<int>)
    requires forall k | 0 <= k < |d| :: d[k] == 0
    ensures SumCoef(d) == 0
  {
    if d != [] { SumZero(d[..|d| - 1]); }
  }

  // The invariant holds when a decoder starts on a block that is zero but for
  // the DC coefficient of an intra block.
  lemma InvStart(cfg: Config, d: seq<int>)
    requires cfg.Valid() && |d| == 64
    requires forall k | 1 <= k < 64 :: d[k] == 0
    requires if cfg.kind.NonIntra? then d[0] == 0 else d[0] % 16 == 0 && -32768 <= d[0] <= 32752
    ensures Inv(cfg, cfg.Start(), d, if cfg.kind.NonIntra? then -1 else -1 - d[0])
  {
    var z := d[0 := 0];
    SumZero(z);
    SumUpdate(z, 0, d[0]);
    assert z[0 := d[0]] == d;
    BitFour(-1);
    BitFour(-1 - d[0]);
    forall k | cfg.Start() < k < 64 ensures d[cfg.scan[k]] == 0 {
      if k > 0 { assert cfg.scan[k] != cfg.scan[0]; }
    }
  }

  lemma StoreKeepsInv(cfg: Config, i: int, d: seq<int>, m: int, at: int, v: int)
    requires Inv(cfg, i, d, m) && i < at < 64
    requires v % 16 == 0 && -32768 <= v <= 32752
    ensures Inv(cfg, at, d[cfg.scan[at] := v], Xor(m, v))
  {
    var j := cfg.scan[at];
    ParityUpdate(d, m, j, v);
  }

  lemma ParityUpdate(d: seq<int>, m: int, j: nat, v: int)
    requires j < |d| && d[j] == 0 && v % 16 == 0
    requires BitOf(m, 4) == (1 + SumCoef(d)) % 2
    ensures BitOf(Xor(m, v), 4) == (1 + SumCoef(d[j := v])) % 2
  {
    SumUpdate(d, j, v);
    XorBit(m, v, 4);
    BitFour(v);
  }

  // dest[63] ^= mismatch & 16 with bit 4 of mismatch set or not.
  lemma ToggleLast(v: int, b: int)
    requires v % 16 == 0 && (b == 0 || b == 1)
    ensures Xor(v, 16 * b) == if b == 0 then v else if (v / 16) % 2 == 1 then v - 16 else v + 16
  {
    if b == 0 { XorZero(v); } else { XorSixteen(v); }
  }

  lemma StopCorrects(cfg: Config, i: int, d: seq<int>, m: int)
    requires Inv(cfg, i, d, m)
    ensures d[63 := Xor(d[63], 16 * BitOf(m, 4))] == MismatchControl(d)
    ensures SumCoef(MismatchControl(d)) % 2 == 1
    ensures forall k | 0 <= k < 64 :: MismatchControl(d)[k] % 16 == 0 && -32768 <= MismatchControl(d)[k] <= 32752
  {
    hide Xor, BitOf, SumCoef, Config.Valid;
    ToggleLast(d[63], BitOf(m, 4));
    MismatchMakesOdd(d);
    if SumCoef(d) % 2 == 1 {
      assert d[63 := d[63]] == d;
    } else {
      assert MismatchControl(d) == d[63 := Xor(d[63], 16)];
    }
  }

  lemma MismatchMakesOdd(d: seq<int>)
    requires |d| == 64
    ensures SumCoef(MismatchControl(d)) % 2 == 1
  {
    SumUpdate(d, 63, MismatchControl(d)[63]);
    assert d[63 := MismatchControl(d)[63]] == MismatchControl(d);
  }

  // Every coefficient read from here on lies after the one before it.
  predicate Forward(cfg: Config, s: seq<Bit>, p: nat, i: int, first: bool)
    requires cfg.Valid() && -1 <= i < 64
    decreases if p < |s| then |s| - p else 0
  {
    match cfg.StepAt(s, p, i, first)
    case Coef(at, val, next) => at > i && Forward(cfg, s, next, at, false)
    case Stop(at, next) => true
  }

  // The position moves back only where a code of the 8-bit table that is not
  // the escape runs past position 63 and is handled as an escape all the same.
  lemma BackwardsIsOverrun(cfg: Config, s: seq<Bit>, p: nat, i: int, first: bool)
    requires cfg.Valid() && -1 <= i < 64
    ensures var st := cfg.StepAt(s, p, i, first);
            var w := Bits(s, p, 16);
            st.Coef? && st.at <= i ==>
              w < TWO_16 && cfg.InTable8(w) && cfg.Lookup(w, first).run <= 64 && i + cfg.Lookup(w, first).run >= 64
  {
    Pow2Values();
  }

  // For any bits in which the position never moves back, the sum of the
  // decoded coefficients is odd on exit, as section 7.4.4 requires.
  lemma {:induction false} SumIsOdd(cfg: Config, s: seq<Bit>, p: nat, i: int, first: bool, d: seq<int>, m: int)
    requires Inv(cfg, i, d, m) && Forward(cfg, s, p, i, first)
    ensures var out := cfg.Decode(s, p, i, first, d, m);
            && |out.dest| == 64
            && SumCoef(out.dest) % 2 == 1
            && (forall k | 0 <= k < 64 :: out.dest[k] % 16 == 0 && -32768 <= out.dest[k] <= 32752)
    decreases if p < |s| then |s| - p else 0
  {
    var st := cfg.StepAt(s, p, i, first);
    if st.Coef? {
      StoreKeepsInv(cfg, i, d, m, st.at, st.val);
      SumIsOdd(cfg, s, st.next, st.at, false, d[cfg.scan[st.at] := st.val], Xor(m, st.val));
    } else {
      StopCorrects(cfg, i, d, m);
    }
  }
}
