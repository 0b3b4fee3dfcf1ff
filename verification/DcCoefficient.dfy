// The DC difference of intra blocks: get_luma_dc_dct_diff and
// get_chroma_dc_dct_diff of libmpeg2/slice.c against section 7.2.1 of
// ISO/IEC 13818-2 and its Tables B.12 and B.13.
module DcCoefficient {
  import opened Words
  import opened BitReader
  import opened BlockRoundTrip

  datatype DcTab = DcTab(size: nat, len: nat)

  // DC_lum_5, indexed by the first 5 bits.
  function Lum5(i: nat): (e: DcTab)
    requires i < 31
    ensures e.size <= 6 && 2 <= e.len <= 5 && (e.size == 0 ==> e.len == 3)
  {
    if i < 8 then DcTab(1, 2) else if i < 16 then DcTab(2, 2) else if i < 20 then DcTab(0, 3) else
    if i < 24 then DcTab(3, 3) else if i < 28 then DcTab(4, 3) else if i < 30 then DcTab(5, 4) else DcTab(6, 5)
  }

  // DC_chrom_5, indexed by the first 5 bits.
  function Chrom5(i: nat): (e: DcTab)
    requires i < 31
    ensures e.size <= 5 && 2 <= e.len <= 5 && (e.size == 0 ==> e.len == 2)
  {
    if i < 8 then DcTab(0, 2) else if i < 16 then DcTab(1, 2) else if i < 24 then DcTab(2, 2) else
    if i < 28 then DcTab(3, 3) else if i < 30 then DcTab(4, 4) else DcTab(5, 5)
  }

  // DC_long, indexed by the first 9 bits less 0x1e0, or 10 bits less 0x3e0.
  function Long(i: nat): (e: DcTab)
    requires i < 32
    ensures 6 <= e.size <= 11 && 5 <= e.len <= 9
  {
    if i < 16 then DcTab(6, 5) else if i < 24 then DcTab(7, 6) else if i < 28 then DcTab(8, 7) else
    if i < 30 then DcTab(9, 8) else if i < 31 then DcTab(10, 9) else DcTab(11, 9)
  }

  // The size that the next 16 bits tell, and the number of bits that tell it.
  function Lookup(w: nat, luma: bool): (e: DcTab)
    requires w < TWO_16
    ensures e.size <= 11 && e.len <= 10
  {
    if luma then
      if w < 0xf800 then Lum5(w / 2048) else Long(w / 128 - 0x1e0)
    else
      if w < 0xf800 then Chrom5(w / 2048) else var e := Long(w / 64 - 0x3e0); DcTab(e.size, e.len + 1)
  }

  // Section 7.2.1: a differential of the given size.
  function Differential(v: nat, size: nat): int
  {
    if size == 0 then 0
    else if v >= Pow2(size - 1) then v else v + 1 - 2 * Pow2(size - 1)
  }

  // The difference that is coded at position p of the stream.
  function DiffAt(s: seq<Bit>, p: nat, luma: bool): (r: (int, nat))
  {
    assert Pow2(16) == TWO_16 by { Pow2Values(); }
    var e := Lookup(Bits(s, p, 16), luma);
    (Differential(Bits(s, p + e.len, e.size), e.size), p + e.len + e.size)
  }

  // UBITS (bit_buf, size) - UBITS (SBITS (~bit_buf, 1), size).
  method TakeDifferential(r: BitReader, size: nat) returns (diff: int)
    requires r.Valid() && r.Pos() >= 0 && 1 <= size <= 11 && r.bits + size <= 16
    modifies r
    ensures r.Valid() && r.bits == old(r.bits) + size && r.Pos() == old(r.Pos()) + size
    ensures diff == Differential(Bits(r.stream, old(r.Pos()), size), size)
  {
    var v := r.UBits(size);
    var ones := if r.UBits(1) == 1 then 0 else Pow2(size) - 1;
    FirstBitIsHalf(r.stream, r.Pos(), size);
    diff := v - ones;
    r.DumpBits(size);
  }

  lemma FirstBitIsHalf(s: seq<Bit>, p: nat, n: nat)
    requires n >= 1
    ensures Bits(s, p, 1) == 1 <==> Bits(s, p, n) >= Pow2(n - 1)
  {
    BitsPrefix(s, p, n, 1);
    assert Pow2(n) == 2 * Pow2(n - 1);
    HalfQuotient(Bits(s, p, n), Pow2(n - 1));
  }

  lemma HalfQuotient(v: nat, h: nat)
    requires v < 2 * h
    ensures v / h == if v >= h then 1 else 0
  {
    DivUnique(v, h, if v >= h then 1 else 0, if v >= h then v - h else v);
  }

  // The size of the difference; for the longer codes the window is refilled.
  method TakeSize(r: BitReader, luma: bool) returns (size: nat)
    requires r.Valid() && r.bits <= 0 && r.Pos() >= 0
    modifies r
    ensures r.Valid() && size <= 11 && r.bits + size <= 16 && r.Pos() >= old(r.Pos())
    ensures Bits(r.stream, old(r.Pos()), 16) < TWO_16
    ensures Lookup(Bits(r.stream, old(r.Pos()), 16), luma) == DcTab(size, r.Pos() - old(r.Pos()))
  {
    Peeks(r.stream, r.Pos());
    var w := r.UBits(16);
    var e;
    if w < 0xf800 {
      e := if luma then Lum5(r.UBits(5)) else Chrom5(r.UBits(5));
      r.DumpBits(e.len);
    } else if luma {
      e := Long(r.UBits(9) - 0x1e0);
      r.DumpBits(e.len);
      r.NeedBits();
    } else {
      e := Long(r.UBits(10) - 0x3e0);
      r.DumpBits(e.len + 1);
      r.NeedBits();
    }
    size := e.size;
  }

  // Both functions of slice.c, before the shift by intra_dc_precision.
  method GetDiff(r: BitReader, luma: bool) returns (diff: int)
    requires r.Valid() && r.bits <= 0 && r.Pos() >= 0
    modifies r
    ensures r.Valid() && r.Pos() >= 0 && (diff, r.Pos()) == DiffAt(r.stream, old(r.Pos()), luma)
  {
    var size := TakeSize(r, luma);
    diff := 0;
    if size > 0 {
      diff := TakeDifferential(r, size);
    }
  }

  lemma Peeks(s: seq<Bit>, p: nat)
    ensures var w := Bits(s, p, 16);
            w < TWO_16 && Bits(s, p, 5) == w / 2048 && Bits(s, p, 9) == w / 128 && Bits(s, p, 10) == w / 64
  {
    BitsPrefix(s, p, 16, 5);
    BitsPrefix(s, p, 16, 9);
    BitsPrefix(s, p, 16, 10);
    Pow2Values();
  }

  // ---- Round trip ----

  // Tables B.12 and B.13: the code word of a size.
  function SizeCode(size: nat, luma: bool): (c: (nat, nat))
    requires size <= 11
  {
    if luma then
      if size == 0 then (4, 3) else if size == 1 then (0, 2) else if size == 2 then (1, 2) else if size == 3 then (5, 3)
      else if size == 4 then (6, 3) else if size == 5 then (0xe, 4) else if size == 6 then (0x1e, 5)
      else if size == 7 then (0x3e, 6) else if size == 8 then (0x7e, 7) else if size == 9 then (0xfe, 8)
      else if size == 10 then (0x1fe, 9) else (0x1ff, 9)
    else
      if size == 0 then (0, 2) else if size == 1 then (1, 2) else if size == 2 then (2, 2) else if size == 3 then (6, 3)
      else if size == 4 then (0xe, 4) else if size == 5 then (0x1e, 5) else if size == 6 then (0x3e, 6)
      else if size == 7 then (0x7e, 7) else if size == 8 then (0xfe, 8) else if size == 9 then (0x1fe, 9)
      else if size == 10 then (0x3fe, 10) else (0x3ff, 10)
  }

  // A difference of the given size: its magnitude has just that many digits.
  predicate HasSize(diff: int, size: nat)
  {
    if size == 0 then diff == 0
    else Pow2(size - 1) <= Magnitude(diff) < Pow2(size)
  }

  // The number of digits of a magnitude.
  function SizeOf(m: nat): nat
  {
    if m == 0 then 0 else 1 + SizeOf(m / 2)
  }

  lemma {:induction false} SizeOfFits(diff: int, m: nat)
    requires m == Magnitude(diff)
    ensures HasSize(diff, SizeOf(m))
    decreases m
  {
    if m != 0 {
      SizeOfFits(m / 2, m / 2);
      assert m == 2 * (m / 2) + m % 2;
    }
  }

  lemma {:induction false} SizeOfBound(m: nat, n: nat)
    requires m < Pow2(n)
    ensures SizeOf(m) <= n
  {
    if m != 0 {
      assert Pow2(0) == 1;
      SizeOfBound(m / 2, n - 1);
    }
  }

  // A difference after the code word of its size.
  function EncodeDiff(diff: int, size: nat, code: (nat, nat)): seq<Bit>
    requires HasSize(diff, size)
  {
    Digits(code.0, code.1) + Digits(if diff < 0 then diff + Pow2(size) - 1 else diff, size)
  }

  lemma SizeDecodes(s: seq<Bit>, p: nat, size: nat, luma: bool, code: (nat, nat))
    requires size <= 11 && code == SizeCode(size, luma) && HasAt(s, p, Digits(code.0, code.1))
    ensures Bits(s, p, 16) < TWO_16 && Lookup(Bits(s, p, 16), luma) == DcTab(size, code.1)
  {
    SizeWidth(size, luma);
    ReadDigits(s, p, code.0, code.1);
    BitsSplit(s, p, code.1, 16 - code.1);
    SizeLookup(size, luma, Bits(s, p, 16), Bits(s, p + code.1, 16 - code.1));
  }

  lemma SizeWidth(size: nat, luma: bool)
    requires size <= 11
    ensures var (v, n) := SizeCode(size, luma); n <= 10 && v < Pow2(n)
  {
    Pow2Values();
  }

  lemma SizeLookup(size: nat, luma: bool, w: nat, rest: nat)
    requires size <= 11
    requires var (v, n) := SizeCode(size, luma); n <= 10 && rest < Pow2(16 - n) && w == v * Pow2(16 - n) + rest
    ensures w < TWO_16 && Lookup(w, luma) == DcTab(size, SizeCode(size, luma).1)
  {
    Pow2Values();
    if luma { SizeLookupLuma(size, w, rest); } else { SizeLookupChroma(size, w, rest); }
  }

  lemma SizeLookupLuma(size: nat, w: nat, rest: nat)
    requires size <= 11
    requires var (v, n) := SizeCode(size, true); n <= 10 && rest < Pow2(16 - n) && w == v * Pow2(16 - n) + rest
    ensures w < TWO_16 && Lookup(w, true) == DcTab(size, SizeCode(size, true).1)
  {
    Pow2Values();
    if size <= 3 { } else if size <= 6 { } else if size <= 9 { } else { }
  }

  lemma SizeLookupChroma(size: nat, w: nat, rest: nat)
    requires size <= 11
    requires var (v, n) := SizeCode(size, false); n <= 10 && rest < Pow2(16 - n) && w == v * Pow2(16 - n) + rest
    ensures w < TWO_16 && Lookup(w, false) == DcTab(size, SizeCode(size, false).1)
  {
    Pow2Values();
    if size <= 3 { } else if size <= 6 { } else if size <= 9 { } else { }
  }

  // The digits of a difference give it back.
  lemma DigitsOfDiff(s: seq<Bit>, p: nat, diff: int, size: nat, d: nat)
    requires HasSize(diff, size) && d == (if diff < 0 then diff + Pow2(size) - 1 else diff)
    requires HasAt(s, p, Digits(d, size))
    ensures Differential(Bits(s, p, size), size) == diff
  {
    assert size > 0 ==> Pow2(size) == 2 * Pow2(size - 1);
    ReadDigits(s, p, d, size);
  }

  lemma ReadDiff(s: seq<Bit>, p: nat, diff: int, size: nat, luma: bool, n: nat, d: nat)
    requires HasSize(diff, size) && d == (if diff < 0 then diff + Pow2(size) - 1 else diff)
    requires HasAt(s, p + n, Digits(d, size))
    requires Bits(s, p, 16) < TWO_16 && Lookup(Bits(s, p, 16), luma) == DcTab(size, n)
    ensures DiffAt(s, p, luma) == (diff, p + n + size)
  {
    DigitsOfDiff(s, p + n, diff, size, d);
    DiffByLookup(s, p, luma, size, n);
  }

  lemma SplitDiff(s: seq<Bit>, p: nat, diff: int, size: nat, code: (nat, nat), d: nat)
    requires HasSize(diff, size) && HasAt(s, p, EncodeDiff(diff, size, code))
    requires d == if diff < 0 then diff + Pow2(size) - 1 else diff
    ensures HasAt(s, p, Digits(code.0, code.1)) && HasAt(s, p + code.1, Digits(d, size))
    ensures |EncodeDiff(diff, size, code)| == code.1 + size
  {
    HasAtSplit(s, p, Digits(code.0, code.1), Digits(d, size));
  }

  lemma ReadWritten(s: seq<Bit>, p: nat, diff: int, size: nat, luma: bool, code: (nat, nat))
    requires HasSize(diff, size) && HasAt(s, p, EncodeDiff(diff, size, code))
    requires HasAt(s, p, Digits(code.0, code.1)) ==>
               Bits(s, p, 16) < TWO_16 && Lookup(Bits(s, p, 16), luma) == DcTab(size, code.1)
    ensures DiffAt(s, p, luma) == (diff, p + |EncodeDiff(diff, size, code)|)
  {
    hide DiffAt, Lookup, Bits, Digits;
    var d: nat := if diff < 0 then diff + Pow2(size) - 1 else diff;
    SplitDiff(s, p, diff, size, code, d);
    ReadDiff(s, p, diff, size, luma, code.1, d);
  }

  // Every difference that is written is read back, and no bit more.
  lemma DiffRoundTrip(s: seq<Bit>, p: nat, diff: int, size: nat, luma: bool, code: (nat, nat))
    requires size <= 11 && HasSize(diff, size) && code == SizeCode(size, luma)
    requires HasAt(s, p, EncodeDiff(diff, size, code))
    ensures DiffAt(s, p, luma) == (diff, p + |EncodeDiff(diff, size, code)|)
  {
    if HasAt(s, p, Digits(code.0, code.1)) {
      SizeDecodes(s, p, size, luma, code);
    }
    ReadWritten(s, p, diff, size, luma, code);
  }

  lemma DiffByLookup(s: seq<Bit>, p: nat, luma: bool, size: nat, n: nat)
    requires Bits(s, p, 16) < TWO_16 && Lookup(Bits(s, p, 16), luma) == DcTab(size, n)
    ensures DiffAt(s, p, luma) == (Differential(Bits(s, p + n, size), size), p + n + size)
  {
  }
}
