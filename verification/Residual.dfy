// slice_intra_DCT and slice_non_intra_DCT of libmpeg2/slice.c: a block is
// decoded, transformed, stored in the picture or added to it, and cleared.
module Residual {
  import opened Words
  import opened BitReader
  import opened BlockDecoder
  import opened BlockProperties
  import opened Idct
  import opened BlockRoundTrip
  import DcCoefficient

  predicate MultiplesOf16(d: seq<int>)
  {
    forall k | 0 <= k < |d| :: d[k] % 16 == 0 && -32768 <= d[k] <= 32752
  }

  // For any bits at all, what is decoded fits in 16 bits.
  lemma {:induction false} DecodeShorts(cfg: Config, s: seq<Bit>, p: nat, i: int, first: bool, d: seq<int>, m: int)
    requires cfg.Valid() && -1 <= i < 64 && |d| == 64 && MultiplesOf16(d)
    ensures |cfg.Decode(s, p, i, first, d, m).dest| == 64 && MultiplesOf16(cfg.Decode(s, p, i, first, d, m).dest)
    decreases if p < |s| then |s| - p else 0
  {
    var st := cfg.StepAt(s, p, i, first);
    if st.Coef? {
      var d', m' := d[cfg.scan[st.at] := st.val], Xor(m, st.val);
      StoreMultiple(d, cfg.scan[st.at], st.val);
      DecodeShorts(cfg, s, st.next, st.at, false, d', m');
      assert cfg.Decode(s, p, i, first, d, m) == cfg.Decode(s, st.next, st.at, false, d', m');
    } else {
      ToggleMultiple(d, BitOf(m, 4));
    }
  }

  lemma ToggleMultiple(d: seq<int>, b: int)
    requires MultiplesOf16(d) && |d| == 64 && (b == 0 || b == 1)
    ensures MultiplesOf16(d[63 := Xor(d[63], 16 * b)])
  {
    ToggleLast(d[63], b);
    ToggleRange(d[63] / 16);
    StoreMultiple(d, 63, Xor(d[63], 16 * b));
  }

  lemma ToggleRange(u: int)
    requires -2048 <= u <= 2047
    ensures (16 * u - 16) % 16 == 0 && (16 * u + 16) % 16 == 0
    ensures u % 2 == 1 ==> -32768 <= 16 * u - 16 <= 32752
    ensures u % 2 == 0 ==> -32768 <= 16 * u + 16 <= 32752
  {
  }

  lemma StoreMultiple(d: seq<int>, j: nat, v: int)
    requires MultiplesOf16(d) && j < |d| && v % 16 == 0 && -32768 <= v <= 32752
    ensures MultiplesOf16(d[j := v])
  {
  }

  lemma MultiplesAreShorts(d: seq<int>)
    requires MultiplesOf16(d)
    ensures Shorts(d)
  {
  }

  // Only positions of the scan up to i may be set.
  ghost predicate SetUpTo(cfg: Config, i: int, d: seq<int>)
    requires cfg.Valid() && -1 <= i < 64 && |d| == 64
  {
    forall j | 0 <= j < 64 && d[j] != 0 :: exists k :: 0 <= k <= i && cfg.scan[k] == j
  }

  // The position counter 129 is returned by a non-intra block only when the
  // last coefficient was the first position.
  lemma StopAt129(cfg: Config, s: seq<Bit>, p: nat, i: int, first: bool)
    requires cfg.Valid() && cfg.kind.NonIntra? && -1 <= i < 64
    ensures var st := cfg.StepAt(s, p, i, first); st.Stop? && st.at == 129 ==> i == 0
  {
    Pow2Values();
    var w := Bits(s, p, 16);
    assert Pow2(16) == TWO_16 && Bits(s, p + 6, 6) < 64;
    Table8Runs(cfg, w, first);
  }

  lemma Table8Runs(cfg: Config, w: nat, first: bool)
    requires w < TWO_16 && cfg.kind.NonIntra?
    ensures cfg.InTable8(w) ==> cfg.Lookup(w, first).run <= 65
  {
  }

  lemma StoreKeepsSetUpTo(cfg: Config, i: int, d: seq<int>, at: int, v: int)
    requires cfg.Valid() && -1 <= i < at < 64 && |d| == 64 && SetUpTo(cfg, i, d)
    ensures SetUpTo(cfg, at, d[cfg.scan[at] := v])
  {
    var e := d[cfg.scan[at] := v];
    forall j | 0 <= j < 64 && e[j] != 0 ensures exists k :: 0 <= k <= at && cfg.scan[k] == j {
      if j == cfg.scan[at] {
        assert 0 <= at <= at && cfg.scan[at] == j;
      } else {
        assert d[j] != 0;
        var k :| 0 <= k <= i && cfg.scan[k] == j;
        assert 0 <= k <= at && cfg.scan[k] == j;
      }
    }
  }

  // Mismatch control on a block with a DC coefficient alone.
  lemma MismatchOfDc(d: seq<int>)
    requires |d| == 64 && MultiplesOf16(d) && forall k | 1 <= k < 64 :: d[k] == 0
    ensures DcOnly(MismatchControl(d))
  {
    var z := d[0 := 0];
    SumZero(z);
    SumUpdate(z, 0, d[0]);
    assert z[0 := d[0]] == d;
  }

  lemma OnlyDcSet(cfg: Config, d: seq<int>)
    requires cfg.Valid() && |d| == 64 && SetUpTo(cfg, 0, d)
    ensures forall k | 1 <= k < 64 :: d[k] == 0
  {
    forall k | 1 <= k < 64 ensures d[k] == 0 {
      if d[k] != 0 { assert false; }
    }
  }

  // When a non-intra block returns 129, it holds a DC coefficient alone, as
  // mismatch control leaves it, provided that the position never moved back.
  lemma {:induction false} LastIsDcOnly(cfg: Config, s: seq<Bit>, p: nat, i: int, first: bool, d: seq<int>, m: int)
    requires Inv(cfg, i, d, m) && SetUpTo(cfg, i, d) && cfg.kind.NonIntra? && Forward(cfg, s, p, i, first)
    ensures var out := cfg.Decode(s, p, i, first, d, m);
            |out.dest| == 64 && (out.last == 129 ==> DcOnly(out.dest))
    decreases if p < |s| then |s| - p else 0
  {
    var st := cfg.StepAt(s, p, i, first);
    if st.Coef? {
      StoreKeepsInv(cfg, i, d, m, st.at, st.val);
      StoreKeepsSetUpTo(cfg, i, d, st.at, st.val);
      LastIsDcOnly(cfg, s, st.next, st.at, false, d[cfg.scan[st.at] := st.val], Xor(m, st.val));
    } else {
      StopCorrects(cfg, i, d, m);
      StopAt129(cfg, s, p, i, first);
      if st.at == 129 {
        OnlyDcSet(cfg, d);
        MismatchOfDc(d);
      }
    }
  }

  // What a block decoder finds at position p when the block is clear.
  function Decoded(cfg: Config, s: seq<Bit>, p: nat): (out: Outcome)
    requires cfg.Valid() && cfg.kind.NonIntra?
    ensures |out.dest| == 64 && MultiplesOf16(out.dest)
  {
    var zero := seq(64, k => 0);
    DecodeShorts(cfg, s, p, -1, true, zero, -1);
    cfg.Decode(s, p, -1, true, zero, -1)
  }

  lemma DecodedDc(cfg: Config, s: seq<Bit>, p: nat)
    requires cfg.Valid() && cfg.kind.NonIntra? && Forward(cfg, s, p, -1, true)
    ensures Decoded(cfg, s, p).last == 129 ==> DcOnly(Decoded(cfg, s, p).dest)
  {
    var zero := seq(64, k => 0);
    InvStart(cfg, zero);
    LastIsDcOnly(cfg, s, p, -1, true, zero, -1);
  }

  // The shortcut is taken.
  predicate Shortcut(last: int, dc: int)
  {
    last == 129 && !Undecided(dc)
  }

  // slice_non_intra_DCT. The block is clear again exactly when the shortcut is
  // not taken or the block has nothing between its first and last entries. The
  // picture then holds the sum with the transform of the decoded block, unless
  // a code that ran past position 63 moved the position back before the
  // shortcut was taken. Where the position never moves back, the block is clear.
  method SliceNonIntraDct(r: BitReader, block: array<int>, cfg: Config, dest: array<int>, base: nat, stride: nat)
    requires r.Valid() && r.Pos() >= 0 && cfg.Valid() && cfg.kind.NonIntra?
    requires block.Length == 64 && AllZero(block[..]) && block != dest
    requires Pixels(dest[..]) && Area(dest.Length, base, stride, 8)
    modifies r, block, dest
    ensures r.Valid()
    ensures var out := old(Decoded(cfg, r.stream, r.Pos()));
            && r.Pos() == out.pos
            && (AllZero(block[..]) <==> !Shortcut(out.last, out.dest[0]) || AllZero(out.dest[1..63]))
            && (Forward(cfg, r.stream, old(r.Pos()), -1, true) || !Shortcut(out.last, out.dest[0]) ==>
                  && AllZero(block[..])
                  && dest[..] == (MultiplesAreShorts(out.dest); Rendered(old(dest[..]), base, stride, out.dest, true)))
    ensures forall list :: ListWritten(cfg, r.stream, old(r.Pos()), list) ==>
      && r.Pos() == old(r.Pos()) + |Encode(NonIntra, StandardBook(NonIntra), true, list)| && AllZero(block[..])
      && Shorts(ListValues(cfg, list))
      && dest[..] == Rendered(old(dest[..]), base, stride, ListValues(cfg, list), true)
  {
    ghost var out := Decoded(cfg, r.stream, r.Pos());
    ghost var forward := Forward(cfg, r.stream, r.Pos(), -1, true) || DcOnly(out.dest);
    if Forward(cfg, r.stream, r.Pos(), -1, true) { DecodedDc(cfg, r.stream, r.Pos()); }
    ListDecoded(cfg, r.stream, r.Pos());
    assert block[..] == seq(64, k => 0);
    var last := GetBlock(r, block, cfg);
    assert Outcome(block[..], last, r.Pos()) == out;
    MultiplesAreShorts(out.dest);
    IdctAdd(last, block, dest, base, stride);
    if Shortcut(last, out.dest[0]) {
      EndsCleared(out.dest, block[..]);
      if forward { assert DcOnly(out.dest); }
    }
  }

  // A list of runs and levels is written at p.
  predicate ListWritten(cfg: Config, s: seq<Bit>, p: nat, list: seq<RunLevel>)
  {
    && cfg.Valid() && cfg.kind.NonIntra? && list != [] && AllEncodable(StandardBook(NonIntra), true, list)
    && LastAt(list, -1) < 64 && HasAt(s, p, Encode(NonIntra, StandardBook(NonIntra), true, list))
  }

  // Its levels reconstructed from scan position 0 on, with mismatch control.
  function ListValues(cfg: Config, list: seq<RunLevel>): (d: seq<int>)
    requires cfg.Valid() && LastAt(list, -1) < 64
    ensures |d| == 64
  {
    MismatchControl(Place(cfg, list, -1, Constant(0)))
  }

  // A list that is written is decoded, and no bit more is read. A lone DC
  // coefficient is all that there is when 129 is returned.
  lemma ListDecoded(cfg: Config, s: seq<Bit>, p: nat)
    requires cfg.Valid() && cfg.kind.NonIntra?
    ensures forall list :: ListWritten(cfg, s, p, list) ==>
      var out := Decoded(cfg, s, p);
      && out.dest == ListValues(cfg, list) && (out.last == 129 ==> DcOnly(out.dest))
      && out.pos == p + |Encode(NonIntra, StandardBook(NonIntra), true, list)|
  {
    forall list | ListWritten(cfg, s, p, list)
      ensures var out := Decoded(cfg, s, p);
        && out.dest == ListValues(cfg, list) && (out.last == 129 ==> DcOnly(out.dest))
        && out.pos == p + |Encode(NonIntra, StandardBook(NonIntra), true, list)|
    {
      hide HasAt, Encode, MismatchControl;
      assert Constant(0) == seq(64, k => 0);
      RoundTrip(cfg, list, s, p, Constant(0));
      if LastAt(list, -1) == 0 { LoneLevel(cfg, list); }
    }
  }

  lemma LoneLevel(cfg: Config, list: seq<RunLevel>)
    requires cfg.Valid() && list != [] && LastAt(list, -1) == 0
    ensures DcOnly(ListValues(cfg, list))
  {
    assert LastAt(list[1..], list[0].run) >= list[0].run + |list[1..]|;
    assert list[1..] == [] && list[0].run == 0;
    var d := Constant(0)[cfg.scan[0] := Stored(cfg, list[0].level, 0)];
    assert Place(cfg, list, -1, Constant(0)) == Place(cfg, list[1..], 0, d) == d;
    MismatchOfDc(d);
  }

  lemma EndsCleared(d: seq<int>, b: seq<int>)
    requires |d| == 64 && b == d[0 := 0][63 := 0]
    ensures AllZero(b) <==> AllZero(d[1..63])
    ensures DcOnly(d) ==> AllZero(b)
  {
    assert forall k | 0 <= k < 62 :: d[1..63][k] == b[k + 1];
    assert forall k | 1 <= k < 63 :: b[k] == d[1..63][k - 1];
  }

  // The block of an intra block before its coefficients are read.
  function DcBlock(dc: int): (b: seq<int>)
    ensures |b| == 64
  {
    seq(64, k => if k == 0 then dc else 0)
  }

  // The next DC predictor: the predictor plus the coded difference shifted by
  // intra_dc_precision, kept in 16 bits.
  function NextPred(s: seq<Bit>, p: nat, pred: int, luma: bool, precision: nat): (r: int)
    requires 4 <= precision && pred % 16 == 0
    ensures r % 16 == 0 && -32768 <= r <= 32752
  {
    PredictorMultiple(pred, DcCoefficient.DiffAt(s, p, luma).0, precision);
    ToShort(pred + DcCoefficient.DiffAt(s, p, luma).0 * Pow2(precision))
  }

  // What an intra block holds that is decoded with the given DC coefficient.
  function DecodedIntra(cfg: Config, s: seq<Bit>, p: nat, dc: int): (out: Outcome)
    requires cfg.Valid() && !cfg.kind.NonIntra? && dc % 16 == 0 && -32768 <= dc <= 32752
    ensures |out.dest| == 64 && Shorts(out.dest)
  {
    DecodeShorts(cfg, s, p, 0, true, DcBlock(dc), -1 - dc);
    MultiplesAreShorts(cfg.Decode(s, p, 0, true, DcBlock(dc), -1 - dc).dest);
    cfg.Decode(s, p, 0, true, DcBlock(dc), -1 - dc)
  }

  // ---- Written intra blocks ----

  // The DC level of an intra block, before it is scaled, and its other levels.
  datatype IntraBlock = IntraBlock(dc: nat, list: seq<RunLevel>)

  // A block after one of DC level q: levels have 15 - precision bits.
  predicate Codable(cfg: Config, precision: nat, q: nat, b: IntraBlock)
  {
    && 4 <= precision <= 7 && q < Pow2(15 - precision) && b.dc < Pow2(15 - precision)
    && !cfg.kind.NonIntra? && AllEncodable(StandardBook(cfg.kind), true, b.list) && LastAt(b.list, 0) < 64
  }

  lemma DcSize(precision: nat, diff: int)
    requires 4 <= precision && precision <= 7 && Magnitude(diff) < Pow2(15 - precision)
    ensures var size := DcCoefficient.SizeOf(Magnitude(diff)); size <= 11 && DcCoefficient.HasSize(diff, size)
  {
    DcCoefficient.SizeOfFits(diff, Magnitude(diff));
    Pow2Monotone(15 - precision, 11);
    DcCoefficient.SizeOfBound(Magnitude(diff), 11);
  }

  // The difference of the DC levels, with its size by Table B.12 or B.13.
  function DcBits(luma: bool, precision: nat, diff: int): seq<Bit>
    requires 4 <= precision <= 7 && Magnitude(diff) < Pow2(15 - precision)
  {
    DcSize(precision, diff);
    var size := DcCoefficient.SizeOf(Magnitude(diff));
    DcCoefficient.EncodeDiff(diff, size, DcCoefficient.SizeCode(size, luma))
  }

  function IntraBits(cfg: Config, luma: bool, precision: nat, q: nat, b: IntraBlock): seq<Bit>
    requires Codable(cfg, precision, q, b)
  {
    DcBits(luma, precision, b.dc - q) + Encode(cfg.kind, StandardBook(cfg.kind), true, b.list)
  }

  // What the block holds: the DC level scaled by 2^precision, the other levels
  // reconstructed from scan position 1 on, and mismatch control.
  function IntraValues(cfg: Config, precision: nat, b: IntraBlock): (d: seq<int>)
    requires cfg.Valid() && LastAt(b.list, 0) < 64
    ensures |d| == 64
  {
    MismatchControl(Place(cfg, b.list, 0, seq(64, (k: nat) => if k == 0 then b.dc * Pow2(precision) else 0)))
  }

  // The predictor is DC level q, scaled, and b is written at p after it.
  predicate IsWritten(cfg: Config, s: seq<Bit>, p: nat, luma: bool, precision: nat, pred: int, q: nat, b: IntraBlock)
  {
    cfg.Valid() && Codable(cfg, precision, q, b) && pred == q * Pow2(precision)
    && HasAt(s, p, IntraBits(cfg, luma, precision, q, b))
  }

  lemma LevelScaled(precision: nat, q: nat)
    requires 4 <= precision <= 7 && q < Pow2(15 - precision)
    ensures q * Pow2(precision) % 16 == 0 && 0 <= q * Pow2(precision) <= 32752
  {
    Pow2Values();
    if precision == 4 { } else if precision == 5 { } else if precision == 6 { } else { }
  }

  // The predictor at the start of a slice is half the range of DC levels.
  lemma ResetLevel(precision: nat)
    requires 4 <= precision <= 7
    ensures Pow2(14 - precision) * Pow2(precision) == 16384
  {
    Pow2Add(14 - precision, precision);
    Pow2Values();
    Pow2Add(8, 6);
  }

  // The DC level that is written is decoded, scaled (section 7.2.1).
  lemma DcRoundTrip(s: seq<Bit>, p: nat, luma: bool, precision: nat, q: nat, dc: nat)
    requires 4 <= precision <= 7 && q < Pow2(15 - precision) && dc < Pow2(15 - precision)
    requires HasAt(s, p, DcBits(luma, precision, dc - q))
    ensures q * Pow2(precision) % 16 == 0
    ensures NextPred(s, p, q * Pow2(precision), luma, precision) == dc * Pow2(precision)
    ensures DcCoefficient.DiffAt(s, p, luma).1 == p + |DcBits(luma, precision, dc - q)|
  {
    hide DcCoefficient.DiffAt, Pow2, ToShort, HasAt, DcBits;
    LevelScaled(precision, q);
    DcRead(s, p, luma, precision, dc - q);
    LevelAfter(precision, q, dc);
  }

  lemma LevelAfter(precision: nat, q: nat, dc: nat)
    requires 4 <= precision <= 7 && dc < Pow2(15 - precision)
    ensures ToShort(q * Pow2(precision) + (dc - q) * Pow2(precision)) == dc * Pow2(precision)
  {
    LevelScaled(precision, dc);
    hide Pow2;
    assert q * Pow2(precision) + (dc - q) * Pow2(precision) == dc * Pow2(precision);
  }

  lemma DcRead(s: seq<Bit>, p: nat, luma: bool, precision: nat, diff: int)
    requires 4 <= precision <= 7 && Magnitude(diff) < Pow2(15 - precision)
    requires HasAt(s, p, DcBits(luma, precision, diff))
    ensures DcCoefficient.DiffAt(s, p, luma) == (diff, p + |DcBits(luma, precision, diff)|)
  {
    hide DcCoefficient.DiffAt, DcCoefficient.EncodeDiff, DcCoefficient.SizeCode, HasAt, Pow2;
    DcSize(precision, diff);
    var size := DcCoefficient.SizeOf(Magnitude(diff));
    DcCoefficient.DiffRoundTrip(s, p, diff, size, luma, DcCoefficient.SizeCode(size, luma));
  }

  // A written intra block is decoded to its values, and no bit more is read.
  lemma IntraRoundTrip(cfg: Config, s: seq<Bit>, p: nat, luma: bool, precision: nat, q: nat, b: IntraBlock)
    requires cfg.Valid() && Codable(cfg, precision, q, b) && HasAt(s, p, IntraBits(cfg, luma, precision, q, b))
    ensures q * Pow2(precision) % 16 == 0
    ensures var pred := NextPred(s, p, q * Pow2(precision), luma, precision);
            var out := DecodedIntra(cfg, s, DcCoefficient.DiffAt(s, p, luma).1, pred);
            && pred == b.dc * Pow2(precision) && out.dest == IntraValues(cfg, precision, b)
            && out.pos == p + |IntraBits(cfg, luma, precision, q, b)|
  {
    hide NextPred, HasAt, DcBits, Encode, Place, MismatchControl, DcCoefficient.DiffAt, Pow2;
    HasAtSplit(s, p, DcBits(luma, precision, b.dc - q), Encode(cfg.kind, StandardBook(cfg.kind), true, b.list));
    DcRoundTrip(s, p, luma, precision, q, b.dc);
    LevelScaled(precision, b.dc);
    AfterDc(cfg, s, p + |DcBits(luma, precision, b.dc - q)|, precision, b);
  }

  lemma AfterDc(cfg: Config, s: seq<Bit>, p: nat, precision: nat, b: IntraBlock)
    requires cfg.Valid() && Codable(cfg, precision, 0, b)
    requires HasAt(s, p, Encode(cfg.kind, StandardBook(cfg.kind), true, b.list))
    ensures b.dc * Pow2(precision) % 16 == 0 && 0 <= b.dc * Pow2(precision) <= 32752
    ensures var out := DecodedIntra(cfg, s, p, b.dc * Pow2(precision));
      out.dest == IntraValues(cfg, precision, b)
      && out.pos == p + |Encode(cfg.kind, StandardBook(cfg.kind), true, b.list)|
  {
    hide HasAt, Encode, Place, MismatchControl, Pow2;
    LevelScaled(precision, b.dc);
    var d := DcBlock(b.dc * Pow2(precision));
    assert d == seq(64, (k: nat) => if k == 0 then b.dc * Pow2(precision) else 0);
    RoundTrip(cfg, b.list, s, p, d);
  }

  lemma WrittenDecoded(cfg: Config, s: seq<Bit>, p: nat, luma: bool, precision: nat, pred: int)
    requires cfg.Valid() && !cfg.kind.NonIntra? && 4 <= precision && pred % 16 == 0
    ensures var newPred := NextPred(s, p, pred, luma, precision);
            var out := DecodedIntra(cfg, s, DcCoefficient.DiffAt(s, p, luma).1, newPred);
            forall q: nat, b: IntraBlock :: IsWritten(cfg, s, p, luma, precision, pred, q, b) ==>
              && newPred == b.dc * Pow2(precision) && out.dest == IntraValues(cfg, precision, b)
              && out.pos == p + |IntraBits(cfg, luma, precision, q, b)|
  {
    forall q: nat, b: IntraBlock | IsWritten(cfg, s, p, luma, precision, pred, q, b)
      ensures var newPred := NextPred(s, p, pred, luma, precision);
              var out := DecodedIntra(cfg, s, DcCoefficient.DiffAt(s, p, luma).1, newPred);
              && newPred == b.dc * Pow2(precision) && out.dest == IntraValues(cfg, precision, b)
              && out.pos == p + |IntraBits(cfg, luma, precision, q, b)|
    {
      hide NextPred, DecodedIntra, IntraValues, IntraBits, DcCoefficient.DiffAt;
      IntraRoundTrip(cfg, s, p, luma, precision, q, b);
    }
  }

  method ReadDc(r: BitReader, pred: int, luma: bool, precision: nat) returns (newPred: int)
    requires r.Valid() && r.Pos() >= 0 && 4 <= precision <= 7 && pred % 16 == 0
    modifies r
    ensures r.Valid() && r.Pos() >= 0 && r.Pos() == DcCoefficient.DiffAt(r.stream, old(r.Pos()), luma).1
    ensures newPred == NextPred(r.stream, old(r.Pos()), pred, luma, precision)
  {
    r.NeedBits();
    var diff := DcCoefficient.GetDiff(r, luma);
    newPred := ToShort(pred + diff * Pow2(precision));
  }

  // The coefficients of an intra block, read into the clear block.
  method ReadIntraBlock(r: BitReader, block: array<int>, cfg: Config, pred: int, luma: bool, precision: nat)
    returns (newPred: int)
    requires r.Valid() && r.Pos() >= 0 && cfg.Valid() && !cfg.kind.NonIntra?
    requires 4 <= precision <= 7 && Short(pred) && pred % 16 == 0
    requires block.Length == 64 && AllZero(block[..])
    modifies r, block
    ensures r.Valid() && newPred == NextPred(r.stream, old(r.Pos()), pred, luma, precision)
    ensures var p := DcCoefficient.DiffAt(r.stream, old(r.Pos()), luma).1;
            var out := DecodedIntra(cfg, r.stream, p, newPred);
            r.Pos() == out.pos && block[..] == out.dest
  {
    hide Bits, Window, NextPred;
    newPred := ReadDc(r, pred, luma, precision);
    block[0] := newPred;
    assert block[..] == DcBlock(newPred);
    ghost var out := DecodedIntra(cfg, r.stream, r.Pos(), newPred);
    var last := GetBlock(r, block, cfg);
    assert Outcome(block[..], last, r.Pos()) == out;
  }

  // slice_intra_DCT: the transform of the decoded block replaces the pixels and
  // the block is clear again.
  method SliceIntraDct(r: BitReader, block: array<int>, cfg: Config, pred: int, luma: bool, precision: nat,
                       dest: array<int>, base: nat, stride: nat) returns (newPred: int)
    requires r.Valid() && r.Pos() >= 0 && cfg.Valid() && !cfg.kind.NonIntra?
    requires 4 <= precision <= 7 && Short(pred) && pred % 16 == 0
    requires block.Length == 64 && AllZero(block[..]) && block != dest
    requires Pixels(dest[..]) && Area(dest.Length, base, stride, 8)
    modifies r, block, dest
    ensures r.Valid() && AllZero(block[..])
    ensures newPred == NextPred(r.stream, old(r.Pos()), pred, luma, precision)
    ensures var p := DcCoefficient.DiffAt(r.stream, old(r.Pos()), luma).1;
            var out := DecodedIntra(cfg, r.stream, p, newPred);
            r.Pos() == out.pos && dest[..] == Rendered(old(dest[..]), base, stride, out.dest, false)
    ensures forall q: nat, b: IntraBlock :: IsWritten(cfg, r.stream, old(r.Pos()), luma, precision, pred, q, b) ==>
      && newPred == b.dc * Pow2(precision)
      && r.Pos() == old(r.Pos()) + |IntraBits(cfg, luma, precision, q, b)|
      && Shorts(IntraValues(cfg, precision, b))
      && dest[..] == Rendered(old(dest[..]), base, stride, IntraValues(cfg, precision, b), false)
  {
    hide NextPred, DecodedIntra, IntraValues, IntraBits, IsWritten, DcCoefficient.DiffAt, Rendered, Bits, Window;
    ghost var p := r.Pos();
    newPred := ReadIntraBlock(r, block, cfg, pred, luma, precision);
    IdctCopy(block, dest, base, stride);
    WrittenDecoded(cfg, r.stream, p, luma, precision, pred);
  }

  // Blocks of one component that are written one after another, the first at p.
  predicate AllWritten(cfg: Config, s: seq<Bit>, p: nat, luma: bool, precision: nat, pred: int, q: nat,
                       bs: seq<IntraBlock>)
    decreases |bs|
  {
    bs == [] ||
    (IsWritten(cfg, s, p, luma, precision, pred, q, bs[0]) &&
     AllWritten(cfg, s, p + |IntraBits(cfg, luma, precision, q, bs[0])|, luma, precision, bs[0].dc * Pow2(precision),
                bs[0].dc, bs[1..]))
  }

  // The picture with the transforms of blocks painted at bases.
  ghost predicate AllRendered(cfg: Config, precision: nat, bs: seq<IntraBlock>, d: seq<int>, bases: seq<nat>,
                              stride: nat, d': seq<int>)
    requires cfg.Valid() && |bs| == |bases|
    decreases |bs|
  {
    if bs == [] then d' == d
    else
      && LastAt(bs[0].list, 0) < 64 && Shorts(IntraValues(cfg, precision, bs[0]))
      && Pixels(d) && Area(|d|, bases[0], stride, 8)
      && AllRendered(cfg, precision, bs[1..], Rendered(d, bases[0], stride, IntraValues(cfg, precision, bs[0]), false),
                     bases[1..], stride, d')
  }

  // slice_intra_DCT on the first of some blocks that are written one after
  // another: the others come after it.
  method NextIntra(r: BitReader, block: array<int>, cfg: Config, pred: int, precision: nat,
                   dest: array<int>, base: nat, stride: nat, ghost q: nat, ghost bs: seq<IntraBlock>)
    returns (newPred: int)
    requires r.Valid() && r.Pos() >= 0 && cfg.Valid() && !cfg.kind.NonIntra?
    requires 4 <= precision <= 7 && Short(pred) && pred % 16 == 0 && bs != []
    requires block.Length == 64 && AllZero(block[..]) && block != dest
    requires Pixels(dest[..]) && Area(dest.Length, base, stride, 8)
    modifies r, block, dest
    ensures r.Valid() && r.Pos() >= 0 && AllZero(block[..]) && Pixels(dest[..])
    ensures Short(newPred) && newPred % 16 == 0
    ensures AllWritten(cfg, r.stream, old(r.Pos()), true, precision, pred, q, bs) ==>
      && newPred == bs[0].dc * Pow2(precision)
      && AllWritten(cfg, r.stream, r.Pos(), true, precision, newPred, bs[0].dc, bs[1..])
      && LastAt(bs[0].list, 0) < 64 && Shorts(IntraValues(cfg, precision, bs[0]))
      && dest[..] == Rendered(old(dest[..]), base, stride, IntraValues(cfg, precision, bs[0]), false)
  {
    hide NextPred, DecodedIntra, IntraValues, IntraBits, DcCoefficient.DiffAt, Rendered, Bits, Window, HasAt;
    newPred := SliceIntraDct(r, block, cfg, pred, true, precision, dest, base, stride);
  }

  // The luma blocks of an intra macroblock, each predicted from the one before.
  // If the blocks of bs are what is written, they are decoded and painted, and
  // the predictor is the last DC level, scaled.
  method IntraLuma(r: BitReader, block: array<int>, cfg: Config, pred: int, precision: nat,
                   dest: array<int>, base: nat, stride: nat, offset: nat, ghost q: nat, ghost bs: seq<IntraBlock>)
    returns (newPred: int)
    requires r.Valid() && r.Pos() >= 0 && cfg.Valid() && !cfg.kind.NonIntra?
    requires 4 <= precision <= 7 && Short(pred) && pred % 16 == 0 && |bs| == 4
    requires block.Length == 64 && AllZero(block[..]) && block != dest && Pixels(dest[..])
    requires Area(dest.Length, base, stride, 8) && Area(dest.Length, base + 8, stride, 8)
    requires Area(dest.Length, base + offset, stride, 8) && Area(dest.Length, base + offset + 8, stride, 8)
    modifies r, block, dest
    ensures r.Valid() && AllZero(block[..])
    ensures AllWritten(cfg, r.stream, old(r.Pos()), true, precision, pred, q, bs) ==>
      && newPred == bs[3].dc * Pow2(precision)
      && AllRendered(cfg, precision, bs, old(dest[..]), [base, base + 8, base + offset, base + offset + 8], stride,
                     dest[..])
  {
    hide AllWritten, IntraValues, Rendered, Bits, Window, Pixels, Area, Short, Pow2, Shorts;
    ghost var bases := [base, base + 8, base + offset, base + offset + 8];
    assert bases[1..] == [base + 8, base + offset, base + offset + 8];
    assert bases[1..][1..] == [base + offset, base + offset + 8] && bases[1..][1..][1..] == [base + offset + 8];
    ghost var p, d0, cs, ds, es := r.Pos(), dest[..], bs[1..], bs[1..][1..], bs[1..][1..][1..];
    newPred := NextIntra(r, block, cfg, pred, precision, dest, base, stride, q, bs);
    ghost var d1 := dest[..];
    newPred := NextIntra(r, block, cfg, newPred, precision, dest, base + 8, stride, bs[0].dc, cs);
    ghost var d2 := dest[..];
    newPred := NextIntra(r, block, cfg, newPred, precision, dest, base + offset, stride, bs[1].dc, ds);
    ghost var d3 := dest[..];
    newPred := NextIntra(r, block, cfg, newPred, precision, dest, base + offset + 8, stride, bs[2].dc, es);
    if AllWritten(cfg, r.stream, p, true, precision, pred, q, bs) {
      assert es[1..] == [];
      assert AllRendered(cfg, precision, es, d3, bases[1..][1..][1..], stride, dest[..]);
      assert AllRendered(cfg, precision, ds, d2, bases[1..][1..], stride, dest[..]);
      assert AllRendered(cfg, precision, cs, d1, bases[1..], stride, dest[..]);
    }
  }

  lemma PredictorMultiple(pred: int, diff: int, precision: nat)
    requires 4 <= precision && pred % 16 == 0
    ensures ToShort(pred + diff * Pow2(precision)) % 16 == 0
    ensures -32768 <= ToShort(pred + diff * Pow2(precision)) <= 32752
  {
    Pow2Add(4, precision - 4);
    Pow2Values();
    var q := diff * Pow2(precision - 4);
    assert diff * Pow2(precision) == 16 * q by { MulAssociates(diff, Pow2(precision - 4), 16); }
    ShortMultiple(pred / 16 + q);
  }

  lemma ShortMultiple(u: int)
    ensures ToShort(16 * u) % 16 == 0 && -32768 <= ToShort(16 * u) <= 32752
  {
    var q, t := (16 * u + 32768) / 65536, (16 * u + 32768) % 65536;
    assert t == 16 * (u + 2048 - 4096 * q);
  }
}
