// The clean-block property of slice_non_intra_DCT fails for streams in which a
// code runs past position 63 and moves the position back: a concrete stream.
module Overrun {
  import opened Words
  import opened BitReader
  import opened DctTables
  import opened BlockDecoder
  import opened BlockProperties
  import opened Idct
  import opened Residual
  import opened Scans

  // Blocks of a slice with quantiser scale 2 and a flat matrix of 16.
  function FlatConfig(): (cfg: Config)
    ensures cfg.Valid() && cfg.kind.NonIntra? && cfg.scan == Table(false)
    ensures forall j :: 0 <= j < 64 ==> cfg.quant[j] == 32
  {
    TableIsScan(false);
    Config(NonIntra, Table(false), seq(64, k => 32))
  }

  // Level 1 at position 62 as an escape; the code for run 1, level 2, which
  // runs to position 64, with bits after it that read as a run of 0 and level 1
  // when it is taken for an escape; end of block.
  predicate IsOverrun(bytes: seq<Byte>)
  {
    && |bytes| == 7 && bytes[0] == 0x07 && bytes[1] == 0xe0 && bytes[2] == 0x01
    && bytes[3] == 0x18 && bytes[4] == 0x00 && bytes[5] == 0x01 && bytes[6] == 0x80
  }

  // Bytes that read as an escape for the given run and level, from an escape
  // code or from the code for run 1, level 2.
  lemma EscapeBits(bytes: seq<Byte>, i: nat, a: Byte, b: Byte, c: Byte)
    requires i + 3 <= |bytes| && bytes[i] == a && bytes[i + 1] == b && bytes[i + 2] == c
    ensures var s := StreamOf(bytes);
      && Bits(s, 8 * i, 16) == 256 * a + b
      && Bits(s, 8 * i + 6, 6) == (256 * a + b) / 16 % 64 && Bits(s, 8 * i + 12, 12) == (256 * b + c) % 4096
  {
    hide Bits;
    var (s, p) := (StreamOf(bytes), 8 * i);
    Pow2Values();
    BitsWord(bytes, i);
    BitsWord(bytes, i + 1);
    BitsPrefix(s, p, 16, 12);
    BitsSplit(s, p, 6, 6);
    BitsSplit(s, p + 8, 4, 12);
    DivUnique(Bits(s, p, 12), 64, Bits(s, p, 6), Bits(s, p + 6, 6));
    DivUnique(Bits(s, p + 8, 16), 4096, Bits(s, p + 8, 4), Bits(s, p + 12, 12));
  }

  // What the decoder reads of the bytes.
  ghost predicate Spells(s: seq<Bit>)
  {
    && Bits(s, 0, 16) == 0x07e0 && Bits(s, 6, 6) == 62 && Bits(s, 12, 12) == 1
    && Bits(s, 24, 16) == 0x1800 && Bits(s, 30, 6) == 0 && Bits(s, 36, 12) == 1 && Bits(s, 48, 16) == 0x8000
  }

  lemma TheBytes(bytes: seq<Byte>)
    requires IsOverrun(bytes)
    ensures Spells(StreamOf(bytes))
  {
    hide StreamOf, Bits;
    EscapeBits(bytes, 0, 0x07, 0xe0, 0x01);
    EscapeBits(bytes, 3, 0x18, 0x00, 0x01);
    BitsWord(bytes, 6);
  }

  lemma EscapeOfOne(cfg: Config)
    requires cfg.kind.NonIntra?
    ensures cfg.EscapeValue(Signed(1, 12), 32) == 48
  {
    Pow2Values();
  }

  lemma FirstStep(cfg: Config, s: seq<Bit>)
    requires cfg.Valid() && cfg.kind.NonIntra? && cfg.quant[cfg.scan[62]] == 32 && Spells(s)
    ensures cfg.StepAt(s, 0, -1, true) == Coef(62, 48, 24)
  {
    EscapeOfOne(cfg);
    assert cfg.Lookup(0x07e0, true) == DctTab(65, 0, 12) && cfg.InTable8(0x07e0);
    assert cfg.StepFrom(s, 0, -1, DctTab(65, 0, 12), 12, true) == Coef(62, 48, 24);
  }

  // The code for run 1, level 2 after position 62 leads back to position 0.
  lemma BackToZero(cfg: Config, s: seq<Bit>)
    requires cfg.Valid() && cfg.kind.NonIntra? && cfg.quant[0] == 32 && Spells(s)
    ensures cfg.StepAt(s, 24, 62, false) == Coef(0, 48, 48)
  {
    EscapeOfOne(cfg);
    assert cfg.Lookup(0x1800, false) == DctTab(2, 2, 6) && cfg.InTable8(0x1800);
    assert cfg.StepFrom(s, 24, 62, DctTab(2, 2, 6), 6, true) == Coef(0, 48, 48);
  }

  lemma EndStep(cfg: Config, s: seq<Bit>)
    requires cfg.Valid() && cfg.kind.NonIntra? && Spells(s)
    ensures cfg.StepAt(s, 48, 0, false) == Stop(129, 50)
  {
    assert cfg.Lookup(0x8000, false) == DctTab(129, 0, 2) && !cfg.InTable8(0x8000);
    assert cfg.StepFrom(s, 48, 0, DctTab(129, 0, 2), 2, false) == Stop(129, 50);
  }

  lemma OutcomeOfSteps(cfg: Config, s: seq<Bit>, j: nat)
    requires cfg.Valid() && cfg.kind.NonIntra? && j == cfg.scan[62] && 0 < j < 63
    requires cfg.StepAt(s, 0, -1, true) == Coef(62, 48, 24) && cfg.StepAt(s, 24, 62, false) == Coef(0, 48, 48)
    requires cfg.StepAt(s, 48, 0, false) == Stop(129, 50)
    ensures var out := Decoded(cfg, s, 0); out.last == 129 && out.dest[0] == 48 && out.dest[j] == 48
    ensures !Forward(cfg, s, 0, -1, true)
  {
    var zero := seq(64, k => 0);
    var d1 := zero[j := 48];
    var d2 := d1[0 := 48];
    var m1 := Xor(-1, 48);
    assert cfg.Decode(s, 0, -1, true, zero, -1) == cfg.Decode(s, 24, 62, false, d1, m1);
    assert cfg.Decode(s, 24, 62, false, d1, m1) == cfg.Decode(s, 48, 0, false, d2, Xor(m1, 48));
    assert Forward(cfg, s, 0, -1, true) == Forward(cfg, s, 24, 62, false);
  }

  lemma DirtyIn(cfg: Config, s: seq<Bit>)
    requires cfg == FlatConfig() && Spells(s)
    ensures var out := Decoded(cfg, s, 0); out.last == 129 && out.dest[0] == 48 && out.dest[59] == 48
    ensures !Forward(cfg, s, 0, -1, true)
  {
    PositionOf62();
    FirstStep(cfg, s);
    BackToZero(cfg, s);
    EndStep(cfg, s);
    OutcomeOfSteps(cfg, s, 59);
  }

  lemma PositionOf62()
    ensures Table(false)[62] == 59
  {
    assert ScanNorm(62) == 62;
    RearrangedDigits(0, 3, 1, 3, 62);
  }

  // In the bytes above the block returns 129 with its DC coefficient set, so
  // that the shortcut clears only its first and last entries, and entry 59 is
  // left set. The position moves back in it.
  lemma OverrunLeavesBlockDirty(cfg: Config, bytes: seq<Byte>)
    requires cfg == FlatConfig() && IsOverrun(bytes)
    ensures var s := StreamOf(bytes); var out := Decoded(cfg, s, 0);
      && !Forward(cfg, s, 0, -1, true)
      && Shortcut(out.last, out.dest[0]) && !AllZero(out.dest[1..63])
  {
    TheBytes(bytes);
    DirtyIn(cfg, StreamOf(bytes));
    assert Decoded(cfg, StreamOf(bytes), 0).dest[1..63][58] == 48;
  }

  // The decoder on these bytes: slice_non_intra_DCT starts with a clear block
  // and does not leave one.
  method DecodeOverrun(bytes: seq<Byte>) returns (block: array<int>)
    requires IsOverrun(bytes)
    ensures block.Length == 64 && !AllZero(block[..])
  {
    hide Decoded, Forward, StreamOf, Rendered;
    var cfg := FlatConfig();
    OverrunLeavesBlockDirty(cfg, bytes);
    var r := new BitReader(bytes);
    block := new int[64](i => 0);
    var dest := new int[64](i => 0);
    SliceNonIntraDct(r, block, cfg, dest, 0, 8);
  }
}
