// The block decoders of libmpeg2/slice.c: get_intra_block_B14,
// get_intra_block_B15 and get_non_intra_block, with dequantisation, saturation
// and mismatch control. The three differ in the code table, the position
// before the first coefficient and the dequantisation formula.
module BlockDecoder {
  import opened Words
  import opened BitReader
  import opened DctTables

  datatype Kind = IntraB14 | IntraB15 | NonIntra

  datatype Config = Config(kind: Kind, scan: seq<nat>, quant: seq<nat>) {
    // scan is a permutation of the 64 positions that starts at position 0, as
    // both scan tables do.
    predicate Valid() {
      && |scan| == 64 && |quant| == 64
      && (forall k | 0 <= k < 64 :: scan[k] < 64)
      && (forall k, l | 0 <= k < l < 64 :: scan[k] != scan[l])
      && scan[0] == 0
    }

    // Position before the first coefficient that the block decoder reads.
    function Start(): int {
      if kind.NonIntra? then -1 else 0
    }

    function Lookup(w: nat, first: bool): (e: DctTab)
      requires w < TWO_16
      ensures 1 <= e.run && (e.run <= 65 || e.run == 129) && e.len <= 15
    {
      match kind
      case IntraB14 => B14Lookup(w, false)
      case IntraB15 => B15Lookup(w)
      case NonIntra => B14Lookup(w, first)
    }

    // Look-up through the 8-bit table, whose entries may be the escape code.
    predicate InTable8(w: nat) {
      w >= 0x400 && (kind.IntraB15? || w < 0x2800)
    }

    // Dequantised value of a level from the table.
    function TableValue(level: nat, q: nat, negative: bool): (v: int)
      ensures v % 16 == 0 && -32768 <= v <= 32752
    {
      var mag := if kind.NonIntra? then ((2 * level + 1) * q) / 32 else (level * q) / 16;
      Saturate(if negative then -mag else mag)
    }

    // Dequantised value of a signed level from an escape code.
    function EscapeValue(level: int, q: nat): (v: int)
      ensures v % 16 == 0 && -32768 <= v <= 32752
    {
      if kind.NonIntra? then
        Saturate(TruncDiv((2 * (level + (if level < 0 then -1 else 0)) + 1) * q, 32))
      else
        Saturate(TruncDiv(level * q, 16))
    }

    // One turn of the loop at stream position p, after position i, when the
    // code there is n bits long and looked up as e.
    function StepFrom(s: seq<Bit>, p: nat, i: int, e: DctTab, n: nat, inTable8: bool): (r: Step)
      requires Valid() && -1 <= i < 64 && e.run >= 1
      ensures r.Coef? ==> 0 <= r.at < 64 && r.next > p && i + e.run < 128
      ensures r.Coef? ==> r.val % 16 == 0 && -32768 <= r.val <= 32752
    {
      assert Pow2(6) == 64 by { Pow2Values(); }
      var i1 := i + e.run;
      var i2 := i1 + Bits(s, p + 6, 6) - 64;
      if i1 < 64 then
        Coef(i1, TableValue(e.level, quant[scan[i1]], BitAt(s, p + n) == 1), p + n + 1)
      else if inTable8 && i2 < 64 then
        Coef(i2, EscapeValue(Signed(Bits(s, p + 12, 12), 12), quant[scan[i2]]), p + 24)
      else
        Stop(if inTable8 then i2 else i1, p + n)
    }

    // One turn of the loop at stream position p, after position i.
    function StepAt(s: seq<Bit>, p: nat, i: int, first: bool): (r: Step)
      requires Valid() && -1 <= i < 64
      ensures r.Coef? ==> 0 <= r.at < 64 && r.next > p && p < |s|
      ensures r.Coef? ==> r.val % 16 == 0 && -32768 <= r.val <= 32752
    {
      BitsAfterEnd(s, p, 16);
      assert Pow2(16) == TWO_16 by { Pow2Values(); }
      var w := Bits(s, p, 16);
      var e := Lookup(w, first);
      StepFrom(s, p, i, e, CodeLength(w, e), InTable8(w))
    }

    // Bit-serial reading of a block: the coefficients from position p on are
    // stored in dest, m collects the exclusive or for mismatch control.
    function Decode(s: seq<Bit>, p: nat, i: int, first: bool, dest: seq<int>, m: int): Outcome
      requires Valid() && -1 <= i < 64 && |dest| == 64
      decreases if p < |s| then |s| - p else 0
    {
      match StepAt(s, p, i, first)
      case Coef(at, val, next) => Decode(s, next, at, false, dest[scan[at] := val], Xor(m, val))
      case Stop(at, next) => Outcome(dest[63 := Xor(dest[63], 16 * BitOf(m, 4))], at, next)
    }
  }

  datatype Step = Coef(at: int, val: int, next: nat) | Stop(at: int, next: nat)

  datatype Outcome = Outcome(dest: seq<int>, last: int, pos: nat)

  // SATURATE: sixteen times val, clipped to -2048..2047 before scaling.
  function Saturate(val: int): (v: int)
    ensures v % 16 == 0 && -32768 <= v <= 32752
  {
    if -2048 <= val <= 2047 then 16 * val else if val < 0 then -32768 else 32752
  }

  // The macro SATURATE on a C int.
  method SaturateMacro(v: int) returns (val: int)
    ensures val == Saturate(v)
  {
    val := v * 16;
    if !(-32768 <= val < 32768) {
      XorSaturated();
      val := Xor(if val < 0 then -1 else 0, 2047) * 16;
    }
  }

  lemma XorSaturated()
    ensures Xor(0, 2047) == 2047 && Xor(-1, 2047) == -2048
  {
    XorZero(2047);
    XorComm(0, 2047);
    XorAllOnes(2047);
  }

  lemma {:induction false} XorComm(a: int, b: int)
    ensures Xor(a, b) == Xor(b, a)
    decreases (if a < 0 then -a else a) + (if b < 0 then -b else b)
  {
    if !((a == 0 || a == -1) && (b == 0 || b == -1)) { XorComm(a / 2, b / 2); }
  }

  // (val ^ sign) - sign, with sign 0 or -1, negates val when sign is -1.
  lemma ConditionalNegate(val: int, sign: int)
    requires sign == 0 || sign == -1
    ensures Xor(val, sign) - sign == if sign == 0 then val else -val
  {
    XorZero(val);
    XorAllOnes(val);
  }

  // The first bits of a stream position as parts of its next 16 bits.
  lemma PeekLengths(s: seq<Bit>, p: nat)
    ensures var w := Bits(s, p, 16);
            w < TWO_16 && Bits(s, p, 5) == w / 2048 && Bits(s, p, 8) == w / 256 && Bits(s, p, 10) == w / 64
            && Bits(s, p, 13) == w / 8 && Bits(s, p, 15) == w / 2
  {
    BitsPrefix(s, p, 16, 5);
    BitsPrefix(s, p, 16, 8);
    BitsPrefix(s, p, 16, 10);
    BitsPrefix(s, p, 16, 13);
    BitsPrefix(s, p, 16, 15);
    Pow2Values();
  }

  // Reads the next code of the table, for any bits; codes of sixteen bits leave
  // the window at once. Every index into a table is in range.
  method ReadCode(r: BitReader, cfg: Config, first: bool) returns (e: DctTab, inTable8: bool)
    requires r.Valid() && r.bits <= 0 && r.Pos() >= 0
    modifies r
    ensures r.Valid() && r.bits <= 0
    ensures var w := Bits(r.stream, old(r.Pos()), 16);
            && w < TWO_16 && e == cfg.Lookup(w, first) && inTable8 == cfg.InTable8(w)
            && r.Pos() == old(r.Pos()) + CodeLength(w, e) - e.len
  {
    hide Bits, Window, B14DC5, B14AC5, B15Tab8, B14Tab8, B15Tab10, B14Tab10;
    PeekLengths(r.stream, r.Pos());
    var w := r.UBits(16);
    inTable8 := false;
    if !cfg.kind.IntraB15? && w >= 0x2800 {
      e := if cfg.kind.NonIntra? && first then B14DC5(r.UBits(5) - 5) else B14AC5(r.UBits(5) - 5);
    } else if w >= 0x400 {
      e := if cfg.kind.IntraB15? then B15Tab8(r.UBits(8) - 4) else B14Tab8(r.UBits(8) - 4);
      inTable8 := true;
    } else if w >= 0x200 {
      e := if cfg.kind.IntraB15? then B15Tab10(r.UBits(10) - 8) else B14Tab10(r.UBits(10) - 8);
    } else {
      e := ReadLongCode(r);
    }
  }

  method ReadLongCode(r: BitReader) returns (e: DctTab)
    requires r.Valid() && r.bits <= 0 && r.Pos() >= 0 && Bits(r.stream, r.Pos(), 16) < 0x200
    modifies r
    ensures r.Valid() && r.bits <= 0 && e.len <= 15
    ensures var w := Bits(r.stream, old(r.Pos()), 16);
            e == LongLookup(w) && r.Pos() == old(r.Pos()) + CodeLength(w, e) - e.len
  {
    PeekLengths(r.stream, r.Pos());
    var w := r.UBits(16);
    if w >= 0x80 {
      e := Tab13(r.UBits(13) - 16);
    } else if w >= 0x20 {
      e := Tab15(r.UBits(15) - 16);
    } else {
      e := Tab16(r.UBits(16));
      r.SkipWord();
    }
  }

  // The label normal_code: a level of the table with the sign bit after its code.
  method TableCoefficient(r: BitReader, cfg: Config, i: nat, e: DctTab) returns (j: nat, val: int)
    requires r.Valid() && r.bits <= 0 && r.Pos() >= 0 && cfg.Valid() && i < 64 && e.len <= 15
    modifies r
    ensures r.Valid() && r.bits <= 0 && r.Pos() == old(r.Pos()) + e.len + 1
    ensures j == cfg.scan[i]
    ensures val == cfg.TableValue(e.level, cfg.quant[j], BitAt(r.stream, old(r.Pos()) + e.len) == 1)
  {
    j := cfg.scan[i];
    r.DumpBits(e.len);
    val := if cfg.kind.NonIntra? then ((2 * e.level + 1) * cfg.quant[j]) / 32 else (e.level * cfg.quant[j]) / 16;
    var sign := r.SBits(1);
    SignBit(r.stream, r.Pos());
    ConditionalNegate(val, sign);
    val := Xor(val, sign) - sign;
    val := SaturateMacro(val);
    r.DumpBits(1);
    r.NeedBits();
  }

  lemma SignOfTwelve(s: seq<Bit>, p: nat)
    ensures Signed(Bits(s, p, 1), 1) == if Signed(Bits(s, p, 12), 12) < 0 then -1 else 0
  {
    BitsPrefix(s, p, 12, 1);
    Pow2Values();
  }

  // The escape code: six bits of code, six of run, twelve of signed level.
  method EscapeCoefficient(r: BitReader, cfg: Config, i: nat) returns (j: nat, val: int)
    requires r.Valid() && r.bits <= 0 && r.Pos() >= 0 && cfg.Valid() && i < 64
    modifies r
    ensures r.Valid() && r.bits <= 0 && r.Pos() == old(r.Pos()) + 24
    ensures j == cfg.scan[i]
    ensures val == cfg.EscapeValue(Signed(Bits(r.stream, old(r.Pos()) + 12, 12), 12), cfg.quant[j])
  {
    hide Bits, Window;
    j := cfg.scan[i];
    r.DumpBits(12);
    r.NeedBits();
    var level := r.SBits(12);
    SignOfTwelve(r.stream, r.Pos());
    if cfg.kind.NonIntra? {
      val := 2 * (level + r.SBits(1)) + 1;
      val := TruncDiv(val * cfg.quant[j], 32);
    } else {
      val := TruncDiv(level * cfg.quant[j], 16);
    }
    val := SaturateMacro(val);
    r.DumpBits(12);
    r.NeedBits();
  }

  // One turn of the loop of the decoders after position i0.
  method Turn(r: BitReader, cfg: Config, i0: int, first: bool) returns (stop: bool, i: int, j: nat, val: int, e: DctTab)
    requires r.Valid() && r.bits <= 0 && r.Pos() >= 0 && cfg.Valid() && -1 <= i0 < 64
    modifies r
    ensures r.Valid() && r.bits <= 0 && e.len <= 15
    ensures cfg.StepAt(r.stream, old(r.Pos()), i0, first)
         == if stop then Stop(i, r.Pos() + e.len) else Coef(i, val, r.Pos())
    ensures !stop ==> 0 <= i < 64 && j == cfg.scan[i]
  {
    hide Bits, Window;
    ghost var p := r.Pos();
    var runBits := r.UBitsAfter(6, 6);
    var inTable8;
    e, inTable8 := ReadCode(r, cfg, first);
    ghost var st := cfg.StepFrom(r.stream, p, i0, e, r.Pos() + e.len - p, inTable8);
    assert cfg.StepAt(r.stream, p, i0, first) == st;
    i, j, val, stop := i0 + e.run, 0, 0, false;
    if i < 64 {
      j, val := TableCoefficient(r, cfg, i, e);
    } else {
      if inTable8 { i := i + runBits - 64; }
      if !inTable8 || i >= 64 {     // end of block, or illegal
        return true, i, j, val, e;
      }
      j, val := EscapeCoefficient(r, cfg, i);
    }
  }

  // The decoders on the 32-bit window. The block may hold the DC coefficient
  // of an intra block; the coefficients that are read are stored in it and the
  // position counter after the last code is returned.
  method GetBlock(r: BitReader, dest: array<int>, cfg: Config) returns (last: int)
    requires r.Valid() && r.Pos() >= 0 && cfg.Valid() && dest.Length == 64
    modifies r, dest
    ensures r.Valid()
    ensures Outcome(dest[..], last, r.Pos())
         == if cfg.kind.NonIntra? then cfg.Decode(r.stream, old(r.Pos()), -1, true, old(dest[..]), -1)
            else cfg.Decode(r.stream, old(r.Pos()), 0, true, old(dest[..]), -1 - old(dest[0]))
  {
    hide Bits, Window;
    var i := cfg.Start();
    var mismatch := if cfg.kind.NonIntra? then -1 else -1 - dest[0];
    ghost var m0, d0, p0 := mismatch, dest[..], r.Pos();
    var first := true;
    r.NeedBits();
    while true
      invariant r.Valid() && r.bits <= 0 && r.Pos() >= 0
      invariant -1 <= i < 64
      invariant cfg.Decode(r.stream, r.Pos(), i, first, dest[..], mismatch)
             == cfg.Decode(r.stream, p0, cfg.Start(), true, d0, m0)
      decreases if r.Pos() < |r.stream| then |r.stream| - r.Pos() else 0
    {
      var stop, at, j, val, e := Turn(r, cfg, i, first);
      i := at;
      if stop {
        dest[63] := Xor(dest[63], 16 * BitOf(mismatch, 4));
        r.DumpBits(e.len);
        return i;
      }
      dest[j] := val;
      mismatch := Xor(mismatch, val);
      first := false;
    }
  }
}
