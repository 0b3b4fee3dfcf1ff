// Quantiser matrices of libmpeg2/header.c: which matrix is in force (section
// 6.3.11 of ISO/IEC 13818-2), and the tables of prescaled matrices that slices
// use, which are filled when first needed and shared by luma and chroma.
module Quantiser {
  import opened Words
  import opened BitReader
  import opened Wrappers
  import opened DisplayOrder
  import opened Scans

  type Matrix = seq<nat>

  const INTRA := 0
  const NON_INTRA := 1

  predicate IsMatrix(m: Matrix)
  {
    |m| == 64 && forall j :: 0 <= j < 64 ==> m[j] < 256
  }

  // What the decoder starts with; no stream may load it.
  function Zero(): (m: Matrix)
    ensures IsMatrix(m)
  {
    seq(64, (i: nat) => 0)
  }

  // ---- The matrices in force ----

  // A load of matrices: those of loads that are Some replace the ones of the
  // same number, and a luma matrix is also used for chroma unless a chroma
  // matrix follows it. 0 and 1 are luma intra and non-intra, 2 and 3 chroma.
  function InForceAfter(inForce: seq<Matrix>, loads: seq<Option<Matrix>>): (r: seq<Matrix>)
    requires |inForce| == 4 && |loads| == 4
    ensures |r| == 4
  {
    var luma := (i: nat) requires i < 2 => if loads[i].Some? then loads[i].value else inForce[i];
    var chroma := (i: nat) requires i < 2 =>
      if loads[i + 2].Some? then loads[i + 2].value else if loads[i].Some? then loads[i].value else inForce[i + 2];
    [luma(0), luma(1), chroma(0), chroma(1)]
  }

  // ---- quantiser_scale (Table 7-6) ----

  const NON_LINEAR_SCALE: seq<nat> := [
    0, 1, 2, 3, 4, 5, 6, 7,
    8, 10, 12, 14, 16, 18, 20, 22,
    24, 28, 32, 36, 40, 44, 48, 52,
    56, 64, 72, 80, 88, 96, 104, 112]

  function Scale(qScaleType: int, code: nat): nat
    requires code < 32
  {
    if qScaleType != 0 then NON_LINEAR_SCALE[code] else 2 * code
  }

  // quantiser_scale by Table 7-6, in closed form.
  predicate IsQuantiserScale(qScaleType: int, code: nat, scale: int)
  {
    if qScaleType == 0 then scale == 2 * code
    else
      && (code <= 8 ==> scale == code) && (8 <= code <= 16 ==> scale == 8 + 2 * (code - 8))
      && (16 <= code <= 24 ==> scale == 24 + 4 * (code - 16)) && (24 <= code ==> scale == 56 + 8 * (code - 24))
  }

  lemma ScaleIsTable(qScaleType: int, code: nat)
    requires code < 32
    ensures IsQuantiserScale(qScaleType, code, Scale(qScaleType, code))
  {
  }

  // The step of the non-linear scale doubles every eight codes, from the
  // second eight on.
  lemma NonLinearSteps(code: nat)
    requires 0 < code < 32
    ensures NON_LINEAR_SCALE[code] - NON_LINEAR_SCALE[code - 1]
         == if code <= 8 then 1 else if code <= 16 then 2 else if code <= 24 then 4 else 8
  {
  }

  // The values of a prescaled table fit in 16 bits.
  lemma ProductFits(qScaleType: int, code: nat, w: nat)
    requires code < 32 && w < 256
    ensures Scale(qScaleType, code) * w < TWO_16
  {
    assert Scale(qScaleType, code) <= 112;
    assert Scale(qScaleType, code) * w <= 112 * w;
  }

  // ---- Reading matrices ----

  // (buffer[j] << shift) | (buffer[j + 1] >> (8 - shift)), as a byte
  function MatrixByte(buffer: seq<Byte>, j: nat, shift: nat): (b: nat)
    requires shift <= 8
    ensures b < 256
  {
    Or(ByteAt(buffer, j) * Pow2(shift), ByteAt(buffer, j + 1) / Pow2(8 - shift)) % 256
  }

  lemma StraddleValue(a: Byte, b: Byte, shift: nat, hi: nat, lo: nat)
    requires 5 <= shift <= 8
    requires lo < Pow2(16 - shift) && 256 * a + b == hi * Pow2(16 - shift) + lo
    ensures b / Pow2(8 - shift) < Pow2(shift)
    ensures (a * Pow2(shift) + b / Pow2(8 - shift)) % 256 == lo / Pow2(8 - shift)
  {
    Pow2Values();
    if shift == 5 {
      DivUnique(a * 32 + b / 8, 256, hi, lo / 8);
    } else if shift == 6 {
      DivUnique(a * 64 + b / 4, 256, hi, lo / 4);
    } else if shift == 7 {
      DivUnique(a * 128 + b / 2, 256, hi, lo / 2);
    } else {
      DivUnique(a * 256 + b, 256, a, b);
    }
  }

  lemma StraddledBits(buffer: seq<Byte>, j: nat, shift: nat)
    requires 5 <= shift <= 8
    ensures ByteAt(buffer, j + 1) / Pow2(8 - shift) < Pow2(shift)
    ensures (ByteAt(buffer, j) * Pow2(shift) + ByteAt(buffer, j + 1) / Pow2(8 - shift)) % 256
         == Bits(StreamOf(buffer), 8 * j + shift, 8)
  {
    hide Bits, Pow2;
    var (s, p) := (StreamOf(buffer), 8 * j);
    BitsWord(buffer, j);
    BitsSplit(s, p, shift, 16 - shift);
    var (hi, lo) := (Bits(s, p, shift), Bits(s, p + shift, 16 - shift));
    BitsPrefix(s, p + shift, 16 - shift, 8);
    StraddleValue(ByteAt(buffer, j), ByteAt(buffer, j + 1), shift, hi, lo);
  }

  // The byte so put together is eight bits of the stream, not aligned.
  lemma MatrixByteIs(buffer: seq<Byte>, j: nat, shift: nat)
    requires 5 <= shift <= 8
    ensures MatrixByte(buffer, j, shift) == Bits(StreamOf(buffer), 8 * j + shift, 8)
  {
    StraddledBits(buffer, j, shift);
    OrDisjoint(ByteAt(buffer, j), ByteAt(buffer, j + 1) / Pow2(8 - shift), shift);
  }

  // m is the matrix in the 512 bits at p, which come in zigzag order.
  predicate Loaded(m: Matrix, s: seq<Bit>, p: nat)
  {
    |m| == 64 && forall j :: 0 <= j < 64 ==> Table(false)[j] < 64 && m[Table(false)[j]] == Bits(s, p + 8 * j, 8)
  }

  // default_intra_quantizer_matrix, in zigzag order
  function DefaultIntra(k: nat): (v: nat)
    ensures 8 <= v < 256
  {
    if k < 1 then 8 else if k < 3 then 16 else if k < 4 then 19 else if k < 5 then 16 else if k < 6 then 19
    else if k < 12 then 22 else if k < 13 then 26 else if k < 14 then 24 else if k < 15 then 26
    else if k < 18 then 27 else if k < 22 then 26 else if k < 25 then 27 else if k < 28 then 29
    else if k < 31 then 34 else if k < 34 then 29 else if k < 36 then 27 else if k < 38 then 29
    else if k < 40 then 32 else if k < 42 then 34 else if k < 43 then 37 else if k < 44 then 38
    else if k < 45 then 37 else if k < 47 then 35 else if k < 48 then 34 else if k < 49 then 35
    else if k < 51 then 38 else if k < 54 then 40 else if k < 56 then 48 else if k < 58 then 46
    else if k < 60 then 56 else if k < 61 then 58 else if k < 63 then 69 else 83
  }

  function Defaults(): (v: seq<nat>)
    ensures IsMatrix(v)
  {
    seq(64, (k: nat) => DefaultIntra(k))
  }

  // The default matrix for intra blocks, row by row (section 6.3.11).
  function DefaultEntry(j: nat): nat
  {
    match j
    case 0 => 8 case 1 => 16 case 2 => 19 case 3 => 22 case 4 => 26 case 5 => 27 case 6 => 29 case 7 => 34
    case 8 => 16 case 9 => 16 case 10 => 22 case 11 => 24 case 12 => 27 case 13 => 29 case 14 => 34 case 15 => 37
    case 16 => 19 case 17 => 22 case 18 => 26 case 19 => 27 case 20 => 29 case 21 => 34 case 22 => 34 case 23 => 38
    case 24 => 22 case 25 => 22 case 26 => 26 case 27 => 27 case 28 => 29 case 29 => 34 case 30 => 37 case 31 => 40
    case 32 => 22 case 33 => 26 case 34 => 27 case 35 => 29 case 36 => 32 case 37 => 35 case 38 => 40 case 39 => 48
    case 40 => 26 case 41 => 27 case 42 => 29 case 43 => 32 case 44 => 35 case 45 => 40 case 46 => 48 case 47 => 58
    case 48 => 26 case 49 => 27 case 50 => 29 case 51 => 34 case 52 => 38 case 53 => 46 case 54 => 56 case 55 => 69
    case 56 => 27 case 57 => 29 case 58 => 35 case 59 => 38 case 60 => 46 case 61 => 56 case 62 => 69 case 63 => 83
    case _ => 0
  }

  lemma DefaultInZigzag(j: nat)
    requires j < 64
    ensures DefaultIntra(PlaceNorm(j)) == DefaultEntry(j)
  {
  }

  // A matrix loaded with the defaults has entry j of that where the transform
  // has coefficient j.
  lemma DefaultMatrix(m: Matrix, j: nat)
    requires InZigzag(m, Defaults()) && j < 64
    ensures Rearranged(j) < 64 && m[Rearranged(j)] == DefaultEntry(j)
  {
    var k := PlaceNorm(j);
    PlaceInScan(j);
    ScanOfPlace(j);
    DefaultInZigzag(j);
    RearrangedInjective(j, 0);
    assert Table(false)[k] == Rearranged(j) && m[Table(false)[k]] == Defaults()[k];
  }

  function Sixteens(): (v: seq<nat>)
    ensures IsMatrix(v)
  {
    seq(64, (i: nat) => 16)
  }

  // m has the values of v in zigzag order.
  predicate InZigzag(m: Matrix, v: seq<nat>)
  {
    |m| == |v| == 64 && forall j :: 0 <= j < 64 ==> Table(false)[j] < 64 && m[Table(false)[j]] == v[j]
  }

  predicate PutTo(m: Matrix, scan: seq<nat>, v: seq<nat>, n: nat)
    requires IsScan(scan) && n <= 64 == |v|
  {
    IsMatrix(m) && forall i :: 0 <= i < n ==> m[scan[i]] == v[i]
  }

  // The loops over the scan order.
  method PutInZigzag(v: seq<nat>) returns (m: Matrix)
    requires IsMatrix(v)
    ensures IsMatrix(m) && InZigzag(m, v)
  {
    TableIsScan(false);
    var scan := Table(false);
    m := seq(64, (i: nat) => 0);
    for j := 0 to 64
      invariant PutTo(m, scan, v, j)
    {
      m := m[scan[j] := v[j]];
    }
  }

  // The defaults are matrices that a stream may use.
  lemma DefaultsNotZero(m: Matrix)
    requires InZigzag(m, Defaults()) || InZigzag(m, Sixteens())
    ensures m != Zero()
  {
    assert m[Table(false)[0]] >= 8;
  }

  function MatrixBytes(buffer: seq<Byte>, at: nat, shift: nat): (v: seq<nat>)
    requires shift <= 8
    ensures |v| == 64 && forall j :: 0 <= j < 64 ==> v[j] == MatrixByte(buffer, at + j, shift)
  {
    seq<nat>(64, j requires 0 <= j < 64 => MatrixByte(buffer, at + j, shift))
  }

  // The loops that read a matrix of the stream.
  method LoadMatrix(buffer: seq<Byte>, at: nat, shift: nat) returns (m: Matrix)
    requires 5 <= shift <= 8
    ensures IsMatrix(m) && Loaded(m, StreamOf(buffer), 8 * at + shift)
  {
    var v := MatrixBytes(buffer, at, shift);
    forall j | 0 <= j < 64
      ensures v[j] < 256 && v[j] == Bits(StreamOf(buffer), 8 * at + shift + 8 * j, 8)
    {
      MatrixByteIs(buffer, at + j, shift);
      assert 8 * (at + j) + shift == 8 * at + shift + 8 * j;
    }
    m := PutInZigzag(v);
  }

  // The matrix that a sequence header has at bit p, after its flag, if the flag
  // is set, or else the default.
  ghost predicate FromHeader(s: seq<Bit>, p: nat, m: Matrix, default: seq<nat>)
  {
    if BitAt(s, p) == 1 then Loaded(m, s, p + 1) else InZigzag(m, default)
  }

  // The syntax of quant_matrix_extension (section 6.2.3.2): for each matrix
  // from i on, at bit p, a flag and the matrix if the flag is set.
  predicate Syntax(s: seq<Bit>, p: nat, i: nat, loads: seq<Option<Matrix>>)
    requires |loads| == 4
    decreases 4 - i
  {
    if i >= 4 then true
    else if BitAt(s, p) == 1 then
      loads[i].Some? && Loaded(loads[i].value, s, p + 1) && Syntax(s, p + 513, i + 1, loads)
    else loads[i] == None && Syntax(s, p + 1, i + 1, loads)
  }

  // One flag and matrix, from bit p to bit next.
  predicate SyntaxOne(s: seq<Bit>, p: nat, next: nat, load: Option<Matrix>)
  {
    if BitAt(s, p) == 1 then load.Some? && Loaded(load.value, s, p + 1) && next == p + 513
    else load == None && next == p + 1
  }

  lemma SyntaxOfParts(s: seq<Bit>, starts: seq<nat>, loads: seq<Option<Matrix>>, i: nat)
    requires |starts| == 5 && |loads| == 4 && i <= 4
    requires forall k :: 0 <= k < 4 ==> SyntaxOne(s, starts[k], starts[k + 1], loads[k])
    ensures Syntax(s, starts[i], i, loads)
    decreases 4 - i
  {
    if i < 4 {
      assert SyntaxOne(s, starts[i], starts[i + 1], loads[i]);
      SyntaxOfParts(s, starts, loads, i + 1);
    }
  }

  lemma ByteOfBits(buffer: seq<Byte>, at: nat)
    ensures var s := StreamOf(buffer); var p := 8 * at;
      ByteAt(buffer, at) == 128 * BitAt(s, p) + 64 * BitAt(s, p + 1) + 32 * BitAt(s, p + 2) + 16 * BitAt(s, p + 3)
                          + 8 * BitAt(s, p + 4) + 4 * BitAt(s, p + 5) + 2 * BitAt(s, p + 6) + BitAt(s, p + 7)
  {
    BitsOfByte(buffer, at);
    BitsOfEight(StreamOf(buffer), 8 * at);
  }

  // buffer[0] & (8 >> i) is bit 4 + i.
  lemma FlagIs(buffer: seq<Byte>, at: nat, i: nat)
    requires i < 4
    ensures ByteAt(buffer, at) / Pow2(3 - i) % 2 == BitAt(StreamOf(buffer), 8 * at + 4 + i)
  {
    Pow2Values();
    hide Pow2, StreamOf, BitAt, ByteAt;
    ByteOfBits(buffer, at);
    var (s, p) := (StreamOf(buffer), 8 * at);
    EighthsOf(ByteAt(buffer, at), BitAt(s, p), BitAt(s, p + 1), BitAt(s, p + 2), BitAt(s, p + 3), BitAt(s, p + 4),
      BitAt(s, p + 5), BitAt(s, p + 6), BitAt(s, p + 7));
  }

  lemma EighthsOf(b: nat, b0: Bit, b1: Bit, b2: Bit, b3: Bit, b4: Bit, b5: Bit, b6: Bit, b7: Bit)
    requires b == 128 * b0 + 64 * b1 + 32 * b2 + 16 * b3 + 8 * b4 + 4 * b5 + 2 * b6 + b7
    ensures b / 8 % 2 == b4 && b / 4 % 2 == b5 && b / 2 % 2 == b6 && b % 2 == b7
  {
    assert b / 8 == 16 * b0 + 8 * b1 + 4 * b2 + 2 * b3 + b4;
    assert b / 4 == 32 * b0 + 16 * b1 + 8 * b2 + 4 * b3 + 2 * b4 + b5;
    assert b / 2 == 64 * b0 + 32 * b1 + 16 * b2 + 8 * b3 + 4 * b4 + 2 * b5 + b6;
  }

  // The bits of the last byte before the matrices.
  lemma LastBits(buffer: seq<Byte>, at: nat)
    ensures ByteAt(buffer, at) / 2 % 2 == BitAt(StreamOf(buffer), 8 * at + 6)
    ensures ByteAt(buffer, at) % 2 == BitAt(StreamOf(buffer), 8 * at + 7)
  {
    ByteOfBits(buffer, at);
    var (s, p) := (StreamOf(buffer), 8 * at);
    EighthsOf(ByteAt(buffer, at), BitAt(s, p), BitAt(s, p + 1), BitAt(s, p + 2), BitAt(s, p + 3), BitAt(s, p + 4),
      BitAt(s, p + 5), BitAt(s, p + 6), BitAt(s, p + 7));
  }

  method ReadIntra(buffer: seq<Byte>) returns (m: Matrix, at: nat)
    ensures IsMatrix(m) && FromHeader(StreamOf(buffer), 62, m, Defaults())
    ensures at == if BitAt(StreamOf(buffer), 62) == 1 then 71 else 7
  {
    LastBits(buffer, 7);
    if ByteAt(buffer, 7) / 2 % 2 == 1 {
      m := LoadMatrix(buffer, 7, 7);
      at := 71;
    } else {
      m := PutInZigzag(Defaults());
      at := 7;
    }
  }

  method ReadNonIntra(buffer: seq<Byte>, at: nat) returns (m: Matrix)
    ensures IsMatrix(m) && FromHeader(StreamOf(buffer), 8 * at + 7, m, Sixteens())
  {
    LastBits(buffer, at);
    if ByteAt(buffer, at) % 2 == 1 {
      m := LoadMatrix(buffer, at, 8);
    } else {
      m := PutInZigzag(Sixteens());
    }
  }

  class Quantisers {
    // prescale[idx, code, j]: quantizer_prescale
    const prescale: array3<nat>
    var newMatrix: seq<Matrix>
    var matrix: seq<Matrix>
    var scaled: seq<int>
    var copyMatrix: seq<bool>
    // which of the tables chroma_quantizer points to
    var chromaQuantizer: seq<nat>
    // a sequence header has been finalized
    ghost var started: bool
    ghost var inForce: seq<Matrix>

    // The loads that wait to be copied.
    ghost function Pending(): (r: seq<Option<Matrix>>)
      requires |newMatrix| == 4 && |copyMatrix| == 4
      reads this
      ensures |r| == 4
    {
      seq(4, (i: nat) requires 0 <= i < 4 reads this requires |newMatrix| == 4 && |copyMatrix| == 4 =>
        if copyMatrix[i] then Some(newMatrix[i]) else None)
    }

    // Table idx belongs to matrix idx, unless it is marked or was never loaded.
    ghost predicate InStep(idx: nat)
      requires idx < 4 && Tables()
      reads this`matrix, this`scaled, prescale
    {
      matrix[idx] == Zero() || scaled[idx] == -1 || Filled(idx, scaled[idx])
    }

    ghost predicate Filled(idx: nat, qScaleType: int)
      requires idx < 4 && Tables()
      reads this`matrix, this`scaled, prescale
    {
      forall code :: 0 <= code < 32 ==> RowFilled(idx, code, Scale(qScaleType, code))
    }

    ghost predicate RowFilled(idx: nat, code: nat, scale: nat)
      requires idx < 4 && code < 32 && Tables()
      reads this`matrix, this`scaled, prescale
    {
      forall j :: 0 <= j < 64 ==> prescale[idx, code, j] == scale * matrix[idx][j]
    }

    ghost predicate Tables()
      reads this`matrix, this`scaled
    {
      && prescale.Length0 == 4 && prescale.Length1 == 32 && prescale.Length2 == 64
      && |matrix| == 4 && |scaled| == 4
      && (forall i :: 0 <= i < 4 ==> IsMatrix(matrix[i]))
    }

    ghost predicate Shape()
      reads this
    {
      && Tables() && |newMatrix| == 4 && |copyMatrix| == 4 && |chromaQuantizer| == 2 && |inForce| == 4
      && (forall i :: 0 <= i < 4 ==> copyMatrix[i] ==> IsMatrix(newMatrix[i]) && newMatrix[i] != Zero())
    }

    ghost predicate Valid()
      reads this, prescale
    {
      && Shape() && (forall idx :: 0 <= idx < 4 ==> InStep(idx))
      && (started ==> Agrees(0) && Agrees(1))
    }

    // Luma matrix i, and the chroma matrix that goes with it, are those in force.
    ghost predicate Agrees(i: nat)
      requires i < 2 && Shape()
      reads this
    {
      && matrix[i] == inForce[i] && matrix[i] != Zero()
      && (chromaQuantizer[i] == i || chromaQuantizer[i] == i + 2)
      && matrix[chromaQuantizer[i]] == inForce[i + 2] && matrix[chromaQuantizer[i]] != Zero()
    }

    // Nothing is known of scaled and of the tables at first.
    constructor (scaled: seq<int>)
      requires |scaled| == 4
      ensures Valid() && !started && fresh(prescale)
    {
      prescale := new nat[4, 32, 64];
      newMatrix := seq(4, (i: nat) => Zero());
      matrix := seq(4, (i: nat) => Zero());
      this.scaled := scaled;
      copyMatrix := [false, false, false, false];
      chromaQuantizer := [0, 0];
      started := false;
      inForce := [Zero(), Zero(), Zero(), Zero()];
    }

    // copy_matrix
    method CopyMatrix(idx: nat)
      requires Shape() && (forall k :: 0 <= k < 4 ==> InStep(k)) && idx < 4 && copyMatrix[idx]
      modifies this`matrix, this`scaled
      ensures Shape() && (forall k :: 0 <= k < 4 ==> InStep(k))
      ensures matrix == old(matrix)[idx := newMatrix[idx]]
    {
      if matrix[idx] != newMatrix[idx] {
        matrix := matrix[idx := newMatrix[idx]];
        scaled := scaled[idx := -1];
        forall k | 0 <= k < 4
          ensures InStep(k)
        {
          if k != idx { Unchanged(k); }
        }
      }
    }

    // A matrix, its mark and its table are as they were.
    twostate lemma Unchanged(k: nat)
      requires k < 4 && old(Tables()) && Tables() && old(InStep(k))
      requires matrix[k] == old(matrix[k]) && scaled[k] == old(scaled[k]) && unchanged(prescale)
      ensures InStep(k)
    {
      if matrix[k] != Zero() && scaled[k] != -1 {
        forall code | 0 <= code < 32
          ensures RowFilled(k, code, Scale(scaled[k], code))
        {
          assert old(RowFilled(k, code, Scale(scaled[k], code)));
        }
      }
    }

    // One turn of finalize_matrix.
    method FinalizeOne(i: nat)
      requires Shape() && (forall k :: 0 <= k < 4 ==> InStep(k)) && i < 2
      requires copyMatrix[i] || Agrees(i)
      modifies this`matrix, this`scaled, this`chromaQuantizer, this`inForce
      ensures Shape() && (forall k :: 0 <= k < 4 ==> InStep(k)) && Agrees(i)
      ensures var after := old(InForceAfter(inForce, Pending()));
        inForce == old(inForce)[i := after[i]][i + 2 := after[i + 2]]
      ensures matrix[1 - i] == old(matrix[1 - i]) && matrix[3 - i] == old(matrix[3 - i])
      ensures chromaQuantizer[1 - i] == old(chromaQuantizer[1 - i])
    {
      hide IsMatrix, Filled;
      ghost var after := InForceAfter(inForce, Pending());
      if copyMatrix[i] {
        CopyMatrix(i);
      }
      if copyMatrix[i + 2] && matrix[i] != newMatrix[i + 2] {
        CopyMatrix(i + 2);
        chromaQuantizer := chromaQuantizer[i := i + 2];
      } else if copyMatrix[i] || copyMatrix[i + 2] {
        chromaQuantizer := chromaQuantizer[i := i];
      }
      inForce := inForce[i := after[i]][i + 2 := after[i + 2]];
    }

    method FinalizeMatrix()
      requires Valid() && (started || (copyMatrix[0] && copyMatrix[1]))
      modifies this`matrix, this`scaled, this`chromaQuantizer, this`inForce, this`started
      ensures Valid() && started && inForce == InForceAfter(old(inForce), old(Pending()))
    {
      ghost var loads := Pending();
      FinalizeOne(0);
      FinalizeOne(1);
      started := true;
      assert inForce == InForceAfter(old(inForce), loads);
    }

    // The inner loop of prescale: one scaled matrix.
    method FillRow(idx: nat, code: nat, scale: nat)
      requires Tables() && idx < 4 && code < 32
      modifies prescale
      ensures RowFilled(idx, code, scale)
      ensures forall a, b, c :: 0 <= a < 4 && 0 <= b < 32 && 0 <= c < 64 && (a != idx || b != code) ==>
        prescale[a, b, c] == old(prescale[a, b, c])
    {
      for j := 0 to 64
        invariant forall c :: 0 <= c < j ==> prescale[idx, code, c] == scale * matrix[idx][c]
        invariant forall a, b, c :: 0 <= a < 4 && 0 <= b < 32 && 0 <= c < 64 && (a != idx || b != code) ==>
          prescale[a, b, c] == old(prescale[a, b, c])
      {
        prescale[idx, code, j] := scale * matrix[idx][j];
      }
    }

    method Prescale(idx: nat, qScaleType: int)
      requires Tables() && idx < 4 && InStep(idx) && matrix[idx] != Zero() && qScaleType != -1
      modifies this`scaled, prescale
      ensures scaled == old(scaled)[idx := qScaleType] && Filled(idx, qScaleType)
      ensures forall a, b, c :: 0 <= a < 4 && a != idx && 0 <= b < 32 && 0 <= c < 64 ==>
        prescale[a, b, c] == old(prescale[a, b, c])
    {
      if scaled[idx] != qScaleType {
        scaled := scaled[idx := qScaleType];
        for i := 0 to 32
          invariant matrix == old(matrix) && scaled == old(scaled)[idx := qScaleType]
          invariant forall code :: 0 <= code < i ==> RowFilled(idx, code, Scale(qScaleType, code))
          invariant forall a, b, c :: 0 <= a < 4 && a != idx && 0 <= b < 32 && 0 <= c < 64 ==>
            prescale[a, b, c] == old(prescale[a, b, c])
        {
          FillRow(idx, i, Scale(qScaleType, i));
        }
      }
    }

    // The table that chroma uses for matrix i, if it is not that of luma.
    method PrescaleChroma(i: nat, qScaleType: int)
      requires Valid() && started && i < 2 && qScaleType != -1 && Filled(i, qScaleType)
      modifies this`scaled, prescale
      ensures Valid() && Filled(i, qScaleType) && Filled(chromaQuantizer[i], qScaleType)
      ensures forall k :: 0 <= k < 4 && k != i + 2 && old(Filled(k, qScaleType)) ==> Filled(k, qScaleType)
    {
      if chromaQuantizer[i] == i + 2 {
        Prescale(i + 2, qScaleType);
        assert forall k :: 0 <= k < 4 && k != i + 2 && old(InStep(k)) ==> InStep(k);
      }
    }

    method PrescaleLuma(i: nat, qScaleType: int)
      requires Valid() && started && i < 2 && qScaleType != -1
      modifies this`scaled, prescale
      ensures Valid() && Filled(i, qScaleType)
      ensures forall k :: 0 <= k < 4 && k != i && old(Filled(k, qScaleType)) ==> Filled(k, qScaleType)
    {
      Prescale(i, qScaleType);
      assert forall k :: 0 <= k < 4 && k != i && old(InStep(k)) ==> InStep(k);
    }

    // The tables that pictures of this type use are those of the matrices in
    // force.
    ghost predicate Ready(qScaleType: int, coding: Coding)
      requires Shape()
      reads this, prescale
    {
      && (coding != D ==> chromaQuantizer[0] < 4 && Filled(0, qScaleType) && Filled(chromaQuantizer[0], qScaleType))
      && (coding == P || coding == B ==>
          chromaQuantizer[1] < 4 && Filled(1, qScaleType) && Filled(chromaQuantizer[1], qScaleType))
    }

    // The part of mpeg2_header_slice_start that fills the tables.
    method SliceStart(qScaleType: int, coding: Coding)
      requires Valid() && started && (qScaleType == 0 || qScaleType == 16)
      modifies this`scaled, prescale
      ensures Valid() && Ready(qScaleType, coding)
    {
      if coding != D {
        PrescaleLuma(0, qScaleType);
        PrescaleChroma(0, qScaleType);
        if coding != I {
          PrescaleLuma(1, qScaleType);
          PrescaleChroma(1, qScaleType);
        }
      }
    }

    // get_quantizer_scale: the rows, one of each of four tables, that blocks of
    // a slice use. Intra luma, non-intra luma, intra chroma, non-intra chroma.
    method GetQuantizerScale(code: nat, ghost qScaleType: int, ghost coding: Coding)
      returns (tables: seq<nat>, ghost scale: nat)
      requires Valid() && started && Ready(qScaleType, coding) && code < 32
      ensures |tables| == 4 && (forall k :: 0 <= k < 4 ==> tables[k] < 4)
      ensures IsQuantiserScale(qScaleType, code, scale)
      ensures forall j :: 0 <= j < 64 && coding != D ==>
        && prescale[tables[0], code, j] == scale * inForce[0][j]
        && prescale[tables[2], code, j] == scale * inForce[2][j]
      ensures forall j :: 0 <= j < 64 && (coding == P || coding == B) ==>
        && prescale[tables[1], code, j] == scale * inForce[1][j]
        && prescale[tables[3], code, j] == scale * inForce[3][j]
    {
      scale := Scale(qScaleType, code);
      ScaleIsTable(qScaleType, code);
      tables := [0, 1, chromaQuantizer[0], chromaQuantizer[1]];
      assert coding != D ==>
        RowFilled(0, code, Scale(qScaleType, code)) && RowFilled(tables[2], code, Scale(qScaleType, code));
      assert coding == P || coding == B ==>
        RowFilled(1, code, Scale(qScaleType, code)) && RowFilled(tables[3], code, Scale(qScaleType, code));
    }

    // mpeg2_header_sequence: both luma matrices, read from the header (section
    // 6.2.2.1, at bits 62 and 63 or 575) or the defaults.
    method HeaderSequence(buffer: seq<Byte>) returns (ghost intra: Matrix, ghost nonIntra: Matrix)
      requires Valid()
      modifies this`newMatrix, this`copyMatrix
      ensures var s := StreamOf(buffer);
        && FromHeader(s, 62, intra, Defaults())
        && FromHeader(s, if BitAt(s, 62) == 1 then 575 else 63, nonIntra, Sixteens())
      ensures |newMatrix| == 4 && |copyMatrix| == 4 && Pending() == [Some(intra), Some(nonIntra), None, None]
      ensures intra != Zero() && nonIntra != Zero() ==> Valid()
      ensures BitAt(StreamOf(buffer), 62) == 0 ==> intra != Zero()
    {
      var m0, at := ReadIntra(buffer);
      var m1 := ReadNonIntra(buffer, at);
      copyMatrix := [true, true, false, false];
      newMatrix := newMatrix[INTRA := m0][NON_INTRA := m1];
      intra, nonIntra := m0, m1;
      if BitAt(StreamOf(buffer), 62) == 0 { DefaultsNotZero(m0); }
    }

    // mpeg2_header_picture
    method HeaderPicture()
      requires Valid()
      modifies this`copyMatrix
      ensures Valid() && Pending() == [None, None, None, None]
    {
      copyMatrix := [false, false, false, false];
    }

    // quant_matrix_ext
    method QuantMatrixExt(buffer: seq<Byte>) returns (ghost loads: seq<Option<Matrix>>)
      requires Valid()
      modifies this`newMatrix, this`copyMatrix
      ensures |loads| == 4 && Syntax(StreamOf(buffer), 4, 0, loads)
      ensures Tables() && |newMatrix| == 4 && |copyMatrix| == 4
      ensures forall i :: 0 <= i < 4 ==>
        newMatrix[i] == (if loads[i].Some? then loads[i].value else old(newMatrix[i]))
        && copyMatrix[i] == (old(copyMatrix[i]) || loads[i].Some?)
      ensures (forall i :: 0 <= i < 4 && loads[i].Some? ==> loads[i].value != Zero()) ==> Valid()
    {
      hide Loaded, BitAt, StreamOf, ByteAt;
      ghost var s := StreamOf(buffer);
      var at := 0;
      loads := [None, None, None, None];
      ghost var starts := [4];
      for i := 0 to 4
        invariant |newMatrix| == 4 && |copyMatrix| == 4 && |loads| == 4
        invariant forall k :: i <= k < 4 ==> loads[k] == None
        invariant forall k :: 0 <= k < 4 ==>
          newMatrix[k] == (if loads[k].Some? then loads[k].value else old(newMatrix[k]))
          && copyMatrix[k] == (old(copyMatrix[k]) || loads[k].Some?)
          && (loads[k].Some? ==> IsMatrix(loads[k].value))
        invariant |starts| == i + 1 && starts[0] == 4 && starts[i] == 8 * at + 4 + i
        invariant forall k :: 0 <= k < i ==> SyntaxOne(s, starts[k], starts[k + 1], loads[k])
      {
        FlagIs(buffer, at, i);
        if ByteAt(buffer, at) / Pow2(3 - i) % 2 == 1 {
          var m := LoadMatrix(buffer, at, i + 5);
          newMatrix := newMatrix[i := m];
          copyMatrix := copyMatrix[i := true];
          loads := loads[i := Some(m)];
          at := at + 64;
        }
        starts := starts + [8 * at + 4 + i + 1];
      }
      SyntaxOfParts(s, starts, loads, 0);
    }
  }
}
