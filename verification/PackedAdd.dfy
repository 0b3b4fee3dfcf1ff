// The addition of a transformed block to the picture in mpeg2_idct_add_mvi of
// libmpeg2/idct_alpha.c: four pixels at a time, as 16-bit lanes of a word whose
// signs are taken off before the addition and put back after it.
module PackedAdd {
  import opened Words
  import opened Lanes
  import Idct

  // Sixteen-bit values in a word, the first lowest.
  function Pack16(l: seq<nat>): nat
  {
    if l == [] then 0 else l[0] + TWO_16 * Pack16(l[1..])
  }

  predicate Lanes16(l: seq<nat>)
  {
    forall i :: 0 <= i < |l| ==> l[i] < TWO_16
  }

  lemma {:induction false} Sum16(p: seq<nat>, q: seq<nat>, r: seq<nat>)
    requires |p| == |q| == |r| && forall i :: 0 <= i < |p| ==> p[i] == q[i] + r[i]
    ensures Pack16(p) == Pack16(q) + Pack16(r)
  {
    if p != [] { Sum16(p[1..], q[1..], r[1..]); }
  }

  lemma {:induction false} Bitwise16(op: Op, a: seq<nat>, b: seq<nat>, r: seq<nat>)
    requires |a| == |b| == |r| && Lanes16(a) && Lanes16(b)
    requires forall i :: 0 <= i < |a| ==> r[i] == Bitwise(op, a[i], b[i])
    ensures Bitwise(op, Pack16(a), Pack16(b)) == Pack16(r)
  {
    if a != [] {
      Bitwise16(op, a[1..], b[1..], r[1..]);
      assert Pow2(16) == TWO_16 by { Pow2Values(); }
      BitwiseSplit(op, Pack16(a[1..]), Pack16(b[1..]), 16, a[0], b[0]);
    }
  }

  function Unpack16(w: nat, n: nat): (l: seq<nat>)
    ensures |l| == n && Lanes16(l)
  {
    if n == 0 then [] else [w % TWO_16] + Unpack16(w / TWO_16, n - 1)
  }

  lemma {:induction false} UnpackPack16(l: seq<nat>)
    requires Lanes16(l)
    ensures Unpack16(Pack16(l), |l|) == l
  {
    if l != [] {
      UnpackPack16(l[1..]);
      DivUnique(Pack16(l), TWO_16, Pack16(l[1..]), l[0]);
    }
  }

  // ---- One lane ----

  // The lane of a value, and the value of a lane.
  function ToLane(v: int): (x: nat)
    ensures x < TWO_16
  {
    v % TWO_16
  }

  function FromLane(x: nat): int
  {
    if x < 0x8000 then x else x - TWO_16
  }

  // shorts & signmask, and shorts & ~signmask
  lemma SignAndRest(h: nat, m: nat)
    requires h < 2 && m < 0x8000
    ensures Bitwise(AndOp, h * 0x8000 + m, 0x8000) == h * 0x8000 && Bitwise(AndOp, h * 0x8000 + m, 0x7fff) == m
  {
    var n, q := TopBit();
    TopOnly(AndOp, h, m, 1, n, q);
    BitwiseZero(AndOp, m);
    LowMask(h * q + m, n, q);
    DivUnique(h * q + m, q, h, m);
  }

  lemma TopBit() returns (n: nat, q: nat)
    ensures n == 15 && q == Pow2(n) == 0x8000
  {
    Pow2Values();
    n, q := 15, 0x8000;
  }

  // shorts ^ signs
  lemma SignBack(t: nat, h: nat)
    requires t < TWO_16 && h < 2
    ensures Bitwise(XorOp, t, h * 0x8000) == if h == 0 then t else if t < 0x8000 then t + 0x8000 else t - 0x8000
  {
    var n, q := TopBit();
    TopOnly(XorOp, t / q, t % q, h, n, q);
    BitwiseZero(XorOp, t % q);
  }

  // An operator whose second operand has its top bit only.
  lemma TopOnly(op: Op, g: nat, u: nat, h: nat, n: nat, q: nat)
    requires q == Pow2(n) && g < 2 && h < 2 && u < q
    ensures Bitwise(op, g * q + u, h * q) == BitOp(op, g, h) * q + Bitwise(op, u, 0)
  {
    BitwiseSplit(op, g, h, n, u, 0);
    OneBit(op, g, h);
  }

  lemma OneBit(op: Op, g: nat, h: nat)
    requires g < 2 && h < 2
    ensures Bitwise(op, g, h) == BitOp(op, g, h)
  {
    assert Bitwise(op, 0, 0) == 0;
  }

  function SumLane(x: nat, p: nat): nat
  {
    Bitwise(XorOp, Bitwise(AndOp, x, 0x7fff) + p, Bitwise(AndOp, x, 0x8000))
  }

  // A value and a pixel are added in the lane, and no carry leaves it.
  lemma LaneSum(v: int, p: nat)
    requires -3840 <= v <= 3840 && p < 256
    ensures var x := ToLane(v);
      Bitwise(AndOp, x, 0x7fff) + p < TWO_16 && SumLane(x, p) < TWO_16 && FromLane(SumLane(x, p)) == v + p
  {
    var (h, m) := if v < 0 then (1, v + 0x8000) else (0, v);
    assert ToLane(v) == h * 0x8000 + m;
    SignAndRest(h, m);
    SignBack(m + p, h);
  }

  // ---- Words ----

  // The instructions maxsw4 and minsw4: the greater, and the lesser, of every
  // pair of lanes as signed values.
  function Maxsw(a: nat, b: nat, n: nat): nat
  {
    var (x, y) := (Unpack16(a, n), Unpack16(b, n));
    Pack16(seq(n, i requires 0 <= i < n => if FromLane(x[i]) >= FromLane(y[i]) then x[i] else y[i]))
  }

  function Minsw(a: nat, b: nat, n: nat): nat
  {
    var (x, y) := (Unpack16(a, n), Unpack16(b, n));
    Pack16(seq(n, i requires 0 <= i < n => if FromLane(x[i]) <= FromLane(y[i]) then x[i] else y[i]))
  }

  lemma MaxLanes(a: seq<nat>, b: seq<nat>, r: seq<nat>)
    requires |a| == |b| == |r| && Lanes16(a) && Lanes16(b)
    requires forall i :: 0 <= i < |a| ==> r[i] == if FromLane(a[i]) >= FromLane(b[i]) then a[i] else b[i]
    ensures Maxsw(Pack16(a), Pack16(b), |a|) == Pack16(r)
  {
    UnpackPack16(a);
    UnpackPack16(b);
    assert seq(|a|, i requires 0 <= i < |a| => if FromLane(a[i]) >= FromLane(b[i]) then a[i] else b[i]) == r;
  }

  lemma MinLanes(a: seq<nat>, b: seq<nat>, r: seq<nat>)
    requires |a| == |b| == |r| && Lanes16(a) && Lanes16(b)
    requires forall i :: 0 <= i < |a| ==> r[i] == if FromLane(a[i]) <= FromLane(b[i]) then a[i] else b[i]
    ensures Minsw(Pack16(a), Pack16(b), |a|) == Pack16(r)
  {
    UnpackPack16(a);
    UnpackPack16(b);
    assert seq(|a|, i requires 0 <= i < |a| => if FromLane(a[i]) <= FromLane(b[i]) then a[i] else b[i]) == r;
  }

  function Lane(v: seq<int>): (l: seq<nat>)
    ensures |l| == |v| && Lanes16(l)
  {
    seq(|v|, i requires 0 <= i < |v| => ToLane(v[i]))
  }

  function Sums(v: seq<int>, p: seq<nat>): (r: seq<nat>)
    requires |v| == |p|
    ensures |r| == |v|
  {
    seq(|v|, i requires 0 <= i < |v| => SumLane(ToLane(v[i]), p[i]))
  }

  // The operators, passed as values, so that their definitions stay out of the
  // proofs.
  datatype Mvi = Mvi(pack: seq<nat> -> nat, and: (nat, nat) -> nat, xor: (nat, nat) -> nat) {
    ghost predicate Valid()
    {
      && (forall l {:trigger AtLanes(l)} :: AtLanes(l) ==> pack(l) == Pack16(l))
      && (forall a: nat, b: nat {:trigger AtWords(a, b)} :: AtWords(a, b) ==>
          and(a, b) == Bitwise(AndOp, a, b) && xor(a, b) == Bitwise(XorOp, a, b))
    }

    // shorts & mask
    function Signs(shorts: nat, n: nat): nat
    {
      and(shorts, pack(Vec(0x8000, n)))
    }

    function Rest(shorts: nat, n: nat): nat
    {
      and(shorts, pack(Vec(0x7fff, n)))
    }
  }

  lemma AndOf(w: Mvi, a: seq<nat>, b: seq<nat>, r: seq<nat>)
    requires w.Valid() && |a| == |b| == |r| && Lanes16(a) && Lanes16(b)
    requires forall i :: 0 <= i < |a| ==> r[i] == Bitwise(AndOp, a[i], b[i])
    ensures w.and(w.pack(a), w.pack(b)) == w.pack(r)
  {
    assert AtLanes(a) && AtLanes(b) && AtLanes(r) && AtWords(Pack16(a), Pack16(b));
    Bitwise16(AndOp, a, b, r);
  }

  lemma XorOf(w: Mvi, a: seq<nat>, b: seq<nat>, r: seq<nat>)
    requires w.Valid() && |a| == |b| == |r| && Lanes16(a) && Lanes16(b)
    requires forall i :: 0 <= i < |a| ==> r[i] == Bitwise(XorOp, a[i], b[i])
    ensures w.xor(w.pack(a), w.pack(b)) == w.pack(r)
  {
    assert AtLanes(a) && AtLanes(b) && AtLanes(r) && AtWords(Pack16(a), Pack16(b));
    Bitwise16(XorOp, a, b, r);
  }

  lemma PlusOf(w: Mvi, a: seq<nat>, b: seq<nat>, r: seq<nat>)
    requires w.Valid() && |a| == |b| == |r| && forall i :: 0 <= i < |a| ==> r[i] == a[i] + b[i]
    ensures w.pack(r) == w.pack(a) + w.pack(b)
  {
    assert AtLanes(a) && AtLanes(b) && AtLanes(r);
    Sum16(r, a, b);
  }

  lemma SumsInLanes(v: seq<int>, p: seq<nat>)
    requires |v| == |p| && Idct.Bounded(v) && Bytes(p)
    ensures forall i :: 0 <= i < |v| ==> Sums(v, p)[i] < TWO_16 && FromLane(Sums(v, p)[i]) == v[i] + p[i]
    ensures forall i :: 0 <= i < |v| ==> Bitwise(AndOp, Lane(v)[i], 0x7fff) + p[i] < TWO_16
  {
    forall i | 0 <= i < |v|
      ensures Sums(v, p)[i] < TWO_16 && FromLane(Sums(v, p)[i]) == v[i] + p[i]
      ensures Bitwise(AndOp, Lane(v)[i], 0x7fff) + p[i] < TWO_16
    {
      assert -3840 <= v[i] <= 3840;
      LaneSum(v[i], p[i]);
    }
  }

  function And(l: seq<nat>, m: nat): (r: seq<nat>)
    ensures |r| == |l|
  {
    seq(|l|, i requires 0 <= i < |l| => Bitwise(AndOp, l[i], m))
  }

  lemma AndInLanes(l: seq<nat>, m: nat)
    requires Lanes16(l)
    ensures Lanes16(And(l, m))
  {
    forall i | 0 <= i < |l|
      ensures And(l, m)[i] < TWO_16
    {
      AndAtMost(l[i], m);
    }
  }

  lemma MaskOf(w: Mvi, l: seq<nat>, m: nat)
    requires w.Valid() && Lanes16(l) && m < TWO_16
    ensures w.and(w.pack(l), w.pack(Vec(m, |l|))) == w.pack(And(l, m))
  {
    AndOf(w, l, Vec(m, |l|), And(l, m));
  }

  function Plus(l: seq<nat>, p: seq<nat>): (r: seq<nat>)
    requires |l| == |p|
    ensures |r| == |l|
  {
    seq(|l|, i requires 0 <= i < |l| => l[i] + p[i])
  }

  lemma SumsOf(w: Mvi, v: seq<int>, p: seq<nat>)
    requires w.Valid() && |v| == |p| && Idct.Bounded(v) && Bytes(p)
    ensures var (n, shorts) := (|v|, w.pack(Lane(v)));
      w.xor(w.Rest(shorts, n) + w.pack(p), w.Signs(shorts, n)) == w.pack(Sums(v, p))
  {
    var l := Lane(v);
    MaskOf(w, l, 0x8000);
    MaskOf(w, l, 0x7fff);
    PlusOf(w, And(l, 0x7fff), p, Plus(And(l, 0x7fff), p));
    SignedSums(w, v, p);
  }

  lemma SignedSums(w: Mvi, v: seq<int>, p: seq<nat>)
    requires w.Valid() && |v| == |p| && Idct.Bounded(v) && Bytes(p)
    ensures w.xor(w.pack(Plus(And(Lane(v), 0x7fff), p)), w.pack(And(Lane(v), 0x8000))) == w.pack(Sums(v, p))
  {
    SumsInLanes(v, p);
    AndInLanes(Lane(v), 0x8000);
    XorOf(w, Plus(And(Lane(v), 0x7fff), p), And(Lane(v), 0x8000), Sums(v, p));
  }

  function Clipped(v: seq<int>, p: seq<nat>): (r: seq<nat>)
    requires |v| == |p| && Idct.Bounded(v) && Bytes(p)
    ensures |r| == |v| && Bytes(r)
  {
    seq(|v|, i requires 0 <= i < |v| && -3840 <= v[i] <= 3840 && p[i] < 256 => Idct.Clip(v[i] + p[i]) as nat)
  }

  // The clamp, lane by lane.
  lemma Clamped(v: seq<int>, p: seq<nat>, s: seq<nat>)
    requires |v| == |p| == |s| && Idct.Bounded(v) && Bytes(p) && Lanes16(s)
    requires forall i :: 0 <= i < |v| ==> FromLane(s[i]) == v[i] + p[i]
    ensures var n := |v|;
      Minsw(Maxsw(Pack16(s), Pack16(Vec(0, n)), n), Pack16(Vec(0xff, n)), n) == Pack16(Clipped(v, p))
  {
    var n := |v|;
    var m := seq(n, i requires 0 <= i < n => if FromLane(s[i]) >= 0 then s[i] else 0);
    MaxLanes(s, Vec(0, n), m);
    forall i | 0 <= i < n
      ensures Clipped(v, p)[i] == if FromLane(m[i]) <= 0xff then m[i] else 0xff
    {
      assert FromLane(s[i]) == v[i] + p[i] && -3840 <= v[i] <= 3840;
    }
    MinLanes(m, Vec(0xff, n), Clipped(v, p));
  }

  // Coefficients and pixels, a word of each: the sums, clipped, for the picture.
  method AddWord(w: Mvi, v: seq<int>, p: seq<nat>) returns (r: seq<nat>)
    requires w.Valid() && |v| == |p| && Idct.Bounded(v) && Bytes(p)
    ensures r == Clipped(v, p)
  {
    var n := |v|;
    var (shorts, pix) := (w.pack(Lane(v)), w.pack(p));
    SumsOf(w, v, p);
    SumsInLanes(v, p);
    var signs := w.Signs(shorts, n);
    shorts := w.Rest(shorts, n);
    shorts := shorts + pix;
    shorts := w.xor(shorts, signs);
    r := Clamp(w, shorts, n, v, p);
  }

  // maxsw4 (shorts, 0) and minsw4 (shorts, clampmask), stored as bytes
  method Clamp(w: Mvi, shorts: nat, n: nat, ghost v: seq<int>, ghost p: seq<nat>) returns (r: seq<nat>)
    requires w.Valid() && |v| == |p| && Idct.Bounded(v) && Bytes(p) && shorts == w.pack(Sums(v, p)) && n == |v|
    requires forall i :: 0 <= i < |v| ==> Sums(v, p)[i] < TWO_16 && FromLane(Sums(v, p)[i]) == v[i] + p[i]
    ensures r == Clipped(v, p)
  {
    assert AtLanes(Sums(v, p));
    Clamped(v, p, Sums(v, p));
    UnpackPack16(Clipped(v, p));
    r := Unpack16(Minsw(Maxsw(shorts, Pack16(Vec(0, n)), n), Pack16(Vec(0xff, n)), n), n);
  }

  // One row of pixels: two words.
  method AddRow(w: Mvi, v: seq<int>, p: seq<nat>) returns (r: seq<nat>)
    requires w.Valid() && |v| == |p| == 8 && Idct.Bounded(v) && Bytes(p)
    ensures r == Clipped(v, p)
  {
    var low := AddWord(w, v[..4], p[..4]);
    var high := AddWord(w, v[4..], p[4..]);
    r := low + high;
  }

  lemma RowBounded(v: seq<int>, off: nat)
    requires off + 8 <= |v| && Idct.Bounded(v)
    ensures Idct.Bounded(v[off..off + 8])
  {
  }

  // The loop of mpeg2_idct_add_mvi after its two passes: the rows of the picture
  // are those that the scalar addition gives, and the block is clear.
  method AddBlock(w: Mvi, block: array<int>, dest: array<seq<nat>>)
    requires w.Valid() && block.Length == 64 && Idct.Bounded(block[..])
    requires dest.Length == 8 && forall i :: 0 <= i < 8 ==> |dest[i]| == 8 && Bytes(dest[i])
    modifies block, dest
    ensures Idct.AllZero(block[..])
    ensures forall i :: 0 <= i < 8 ==>
      var v := old(block[..])[8 * i..8 * i + 8]; Idct.Bounded(v) && dest[i] == Clipped(v, old(dest[i]))
  {
    ghost var t := block[..];
    var i := 0;
    while i < 8
      invariant 0 <= i <= 8
      invariant block[8 * i..] == t[8 * i..] && Idct.AllZero(block[..8 * i])
      invariant forall k :: i <= k < 8 ==> dest[k] == old(dest[k])
      invariant forall k :: 0 <= k < i ==>
        Idct.Bounded(t[8 * k..8 * k + 8]) && dest[k] == Clipped(t[8 * k..8 * k + 8], old(dest[k]))
    {
      var v := block[8 * i..8 * i + 8];
      assert v == t[8 * i..8 * i + 8] by { assert v == block[8 * i..][..8]; }
      RowBounded(t, 8 * i);
      var row := AddRow(w, v, dest[i]);
      dest[i] := row;
      assert block[8 * i + 8..] == t[8 * i + 8..] by { assert block[8 * i..][8..] == t[8 * i..][8..]; }
      Idct.ClearRow(block, 8 * i);
      i := i + 1;
    }
  }

  // The operators exist: the values that stand for them are those of words.
  lemma Machine() returns (w: Mvi)
    ensures w.Valid()
  {
    w := Mvi((l: seq<nat>) => Pack16(l),
             (a: nat, b: nat) => Bitwise(AndOp, a, b), (a: nat, b: nat) => Bitwise(XorOp, a, b));
  }

  // (uint16_t) (l >> 1), where l is a row that has only its first value, as an
  // unsigned word
  function AlphaHalf(x: int): int
  {
    FromLane(ToLane(x) / 2)
  }

  // The row shortcut of the Alpha transform shifts an unsigned word. It gives
  // what the row pass of the C transform gives if and only if the value is not
  // negative.
  lemma AlphaRowShortcut(x: seq<int>)
    requires |x| == 8 && Idct.Shorts(x) && Idct.OnlyFirst(x)
    ensures (forall k :: 0 <= k < 8 ==> Idct.Row(x)[k] == AlphaHalf(x[0])) <==> x[0] >= 0
  {
    assert Idct.Short(x[0]);
    assert Idct.Row(x)[0] == x[0] / 2;
    forall k | 0 <= k < 8
      ensures Idct.Row(x)[k] == x[0] / 2
    {
    }
  }
}
