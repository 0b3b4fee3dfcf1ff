// Bytes packed in words, as the Alpha kernels of libmpeg2 use them: bitwise
// and arithmetic operators on words against the same on every byte.
module Lanes {
  import opened Words

  // ---- Bitwise operators on unsigned words ----

  datatype Op = AndOp | OrOp | XorOp

  function BitOp(op: Op, a: nat, b: nat): (r: nat)
    ensures r <= 1
  {
    match op
    case AndOp => if a == 1 && b == 1 then 1 else 0
    case OrOp => if a == 1 || b == 1 then 1 else 0
    case XorOp => if a != b then 1 else 0
  }

  function Bitwise(op: Op, a: nat, b: nat): nat
  {
    if a == 0 && b == 0 then 0 else 2 * Bitwise(op, a / 2, b / 2) + BitOp(op, a % 2, b % 2)
  }

  lemma {:induction false} BitwiseOrXor(a: nat, b: nat)
    ensures Bitwise(OrOp, a, b) == Or(a, b) && Bitwise(XorOp, a, b) == Xor(a, b)
  {
    if a != 0 || b != 0 { BitwiseOrXor(a / 2, b / 2); }
  }

  lemma {:induction false} BitwiseCommutes(op: Op, a: nat, b: nat)
    ensures Bitwise(op, a, b) == Bitwise(op, b, a)
  {
    if a != 0 || b != 0 { BitwiseCommutes(op, a / 2, b / 2); }
  }

  // a | b and a + b, by the bits that both have and those that one has.
  lemma {:induction false} Sums(a: nat, b: nat)
    ensures Bitwise(OrOp, a, b) == Bitwise(AndOp, a, b) + Bitwise(XorOp, a, b)
    ensures a + b == 2 * Bitwise(AndOp, a, b) + Bitwise(XorOp, a, b)
  {
    if a != 0 || b != 0 { Sums(a / 2, b / 2); }
  }

  lemma {:induction false} BitwiseZero(op: Op, a: nat)
    ensures Bitwise(op, a, 0) == if op == AndOp then 0 else a
  {
    if a != 0 { BitwiseZero(op, a / 2); }
  }

  // The low n bits and the others do not meet.
  lemma {:induction false} BitwiseSplit(op: Op, x: nat, y: nat, n: nat, a: nat, b: nat)
    requires a < Pow2(n) && b < Pow2(n)
    ensures Bitwise(op, x * Pow2(n) + a, y * Pow2(n) + b) == Bitwise(op, x, y) * Pow2(n) + Bitwise(op, a, b)
    ensures Bitwise(op, a, b) < Pow2(n)
    decreases n
  {
    if n > 0 {
      var q := Pow2(n - 1);
      BitwiseSplit(op, x, y, n - 1, a / 2, b / 2);
      Doubled(x, q, a);
      Doubled(y, q, b);
      assert Bitwise(op, x, y) * Pow2(n) == 2 * (Bitwise(op, x, y) * q) by { MulAssociates(Bitwise(op, x, y), q, 2); }
    }
  }

  lemma Doubled(x: nat, q: nat, a: nat)
    ensures (x * (2 * q) + a) / 2 == x * q + a / 2 && (x * (2 * q) + a) % 2 == a % 2
  {
    MulAssociates(x, q, 2);
    DivUnique(x * (2 * q) + a, 2, x * q + a / 2, a % 2);
  }

  // a & (2^n - 1), and the complement of that
  lemma {:induction false} LowBits(a: nat, n: nat)
    ensures Bitwise(AndOp, a, Pow2(n) - 1) == a % Pow2(n)
    decreases n
  {
    if n == 0 {
      BitwiseZero(AndOp, a);
    } else {
      LowBits(a / 2, n - 1);
      HalfModulo(a, Pow2(n - 1));
    }
  }

  lemma HalfModulo(a: nat, q: nat)
    requires q > 0
    ensures a % (2 * q) == 2 * (a / 2 % q) + a % 2 && (2 * q - 1) / 2 == q - 1 && (2 * q - 1) % 2 == 1
  {
    var (h, r) := (a / 2 / q, a / 2 % q);
    assert a / 2 == q * h + r;
    MulAssociates(2, q, h);
    DivUnique(a, 2 * q, h, 2 * r + a % 2);
  }

  // ---- Lanes ----

  // Bytes in a word, the first lowest.
  function Pack(l: seq<nat>): nat
  {
    if l == [] then 0 else l[0] + 256 * Pack(l[1..])
  }

  predicate Bytes(l: seq<nat>)
  {
    forall i :: 0 <= i < |l| ==> l[i] < 256
  }

  // BYTE_VEC
  function Vec(x: nat, n: nat): (l: seq<nat>)
    ensures |l| == n && forall i :: 0 <= i < n ==> l[i] == x
  {
    seq(n, (i: nat) => x)
  }

  lemma {:induction false} PackSum(p: seq<nat>, q: seq<nat>, r: seq<nat>)
    requires |p| == |q| == |r| && forall i :: 0 <= i < |p| ==> p[i] == q[i] + r[i]
    ensures Pack(p) == Pack(q) + Pack(r)
  {
    if p != [] { PackSum(p[1..], q[1..], r[1..]); }
  }

  lemma {:induction false} PackTimes(p: seq<nat>, k: nat, q: seq<nat>)
    requires |p| == |q| && forall i :: 0 <= i < |p| ==> p[i] == k * q[i]
    ensures Pack(p) == k * Pack(q)
  {
    if p != [] {
      PackTimes(p[1..], k, q[1..]);
      MulAssociates(k, 256, Pack(q[1..]));
    }
  }

  lemma {:induction false} PackBitwise(op: Op, a: seq<nat>, b: seq<nat>, r: seq<nat>)
    requires |a| == |b| == |r| && Bytes(a) && Bytes(b) && forall i :: 0 <= i < |a| ==> r[i] == Bitwise(op, a[i], b[i])
    ensures Bitwise(op, Pack(a), Pack(b)) == Pack(r)
  {
    if a != [] {
      assert Pow2(8) == 256 by { Pow2Values(); }
      hide Bitwise, Pow2;
      PackBitwise(op, a[1..], b[1..], r[1..]);
      BitwiseSplit(op, Pack(a[1..]), Pack(b[1..]), 8, a[0], b[0]);
    }
  }

  lemma {:induction false} PackAppend(l: seq<nat>, b: nat)
    ensures Pack(l + [b]) == Pack(l) + b * Pow2(8 * |l|)
  {
    if l == [] {
      assert l + [b] == [b];
      assert Pack([b]) == b + 256 * Pack([b][1..]);
    } else {
      PackAppend(l[1..], b);
      assert (l + [b])[1..] == l[1..] + [b];
      Pow2Add(8, 8 * |l[1..]|);
      Pow2Values();
      MulAssociates(b, Pow2(8 * |l[1..]|), 256);
    }
  }

  lemma {:induction false} PackBound(l: seq<nat>)
    requires Bytes(l)
    ensures Pack(l) < Pow2(8 * |l|)
  {
    if l != [] {
      PackBound(l[1..]);
      Pow2Add(8, 8 * |l[1..]|);
      Pow2Values();
    }
  }

  // w >> 8 | b << 8 * (n - 1): the lanes one place down, and b at the top.
  lemma ShiftIn(l: seq<nat>, b: nat)
    requires Bytes(l) && l != [] && b < 256
    ensures Bitwise(OrOp, Pack(l) / 256, b * Pow2(8 * (|l| - 1))) == Pack(l[1..] + [b])
  {
    var t := l[1..];
    DivUnique(Pack(l), 256, Pack(t), l[0]);
    PackBound(t);
    BitwiseOrXor(b * Pow2(8 * |t|), Pack(t));
    BitwiseCommutes(OrOp, Pack(t), b * Pow2(8 * |t|));
    OrDisjoint(b, Pack(t), 8 * |t|);
    PackAppend(t, b);
  }

  // ---- Averages ----

  lemma {:induction false} AndAtMost(a: nat, b: nat)
    ensures Bitwise(AndOp, a, b) <= a
  {
    if a != 0 || b != 0 { AndAtMost(a / 2, b / 2); }
  }

  // avg2 of motion_comp_alpha.c, on words of n bytes
  function Avg2(a: nat, b: nat, n: nat): nat
  {
    AndAtMost(Bitwise(XorOp, a, b), Pack(Vec(0xfe, n)));
    Sums(a, b);
    Bitwise(OrOp, a, b) - Bitwise(AndOp, Bitwise(XorOp, a, b), Pack(Vec(0xfe, n))) / 2
  }

  lemma LowMask(a: nat, n: nat, q: nat)
    requires q == Pow2(n)
    ensures Bitwise(AndOp, a, q - 1) == a % q
  {
    LowBits(a, n);
  }

  lemma Mask3(x: nat)
    ensures Bitwise(AndOp, x, 3) == x % 4
  {
    assert Pow2(2) == 4 by { Pow2Values(); }
    LowMask(x, 2, 4);
  }

  lemma MaskFe(x: nat)
    requires x < 256
    ensures Bitwise(AndOp, x, 0xfe) == 2 * (x / 2)
  {
    assert Pow2(7) == 0x80 by { Pow2Values(); }
    var h := x / 2;
    assert Bitwise(AndOp, h, 0x7f) == h by { LowMask(h, 7, 0x80); }
    HighBits(x, 0x7f, 0xfe, h);
  }

  lemma MaskFc(x: nat)
    requires x < 256
    ensures Bitwise(AndOp, x, 0xfc) == 4 * (x / 4)
  {
    assert Pow2(6) == 0x40 by { Pow2Values(); }
    var h := x / 2;
    var q := h / 2;
    assert q == x / 4;
    assert Bitwise(AndOp, q, 0x3f) == q by { LowMask(q, 6, 0x40); }
    HighBits(h, 0x3f, 0x7e, q);
    HighBits(x, 0x7e, 0xfc, h);
  }

  // A mask without its lowest bit.
  lemma HighBits(x: nat, mask: nat, doubled: nat, h: nat)
    requires doubled == 2 * mask && h == x / 2
    ensures Bitwise(AndOp, x, doubled) == 2 * Bitwise(AndOp, h, mask)
  {
  }

  lemma AverageOfSums(a: nat, b: nat)
    ensures Bitwise(OrOp, a, b) - Bitwise(XorOp, a, b) / 2 == (a + b + 1) / 2
    ensures Bitwise(OrOp, a, b) >= Bitwise(XorOp, a, b) / 2
  {
    Sums(a, b);
  }

  // Every byte is rounded up on its own, with nothing carried between bytes.
  lemma Avg2Lanes(a: seq<nat>, b: seq<nat>, r: seq<nat>)
    requires |a| == |b| == |r| && Bytes(a) && Bytes(b)
    requires forall i :: 0 <= i < |a| ==> r[i] == (a[i] + b[i] + 1) / 2
    ensures Avg2(Pack(a), Pack(b), |a|) == Pack(r)
  {
    hide Bitwise, Pack;
    var n := |a|;
    var o := seq(n, i requires 0 <= i < n => Bitwise(OrOp, a[i], b[i]));
    var x := seq(n, i requires 0 <= i < n => Bitwise(XorOp, a[i], b[i]));
    var h := seq(n, i requires 0 <= i < n => x[i] / 2);
    var e := seq(n, i requires 0 <= i < n => 2 * h[i]);
    forall i | 0 <= i < n
      ensures x[i] < 256 && e[i] == Bitwise(AndOp, x[i], 0xfe) && o[i] == r[i] + h[i]
    {
      ByteOp(XorOp, a[i], b[i]);
      MaskFe(x[i]);
      AverageOfSums(a[i], b[i]);
    }
    PackBitwise(OrOp, a, b, o);
    PackBitwise(XorOp, a, b, x);
    PackBitwise(AndOp, x, Vec(0xfe, n), e);
    PackTimes(e, 2, h);
    PackSum(o, r, h);
  }

  lemma ByteOp(op: Op, a: nat, b: nat)
    requires a < 256 && b < 256
    ensures Bitwise(op, a, b) < 256
  {
    Pow2Values();
    BitwiseSplit(op, 0, 0, 8, a, b);
  }

  function Parts(p: seq<nat>): (r: (seq<nat>, seq<nat>))
    ensures |r.0| == |r.1| == |p| && forall i :: 0 <= i < |p| ==> r.0[i] == p[i] / 4 && r.1[i] == p[i] % 4
  {
    (seq(|p|, i requires 0 <= i < |p| => p[i] / 4), seq(|p|, i requires 0 <= i < |p| => p[i] % 4))
  }

  lemma PartsOf(p: seq<nat>)
    requires Bytes(p)
    ensures Bitwise(AndOp, Pack(p), Pack(Vec(0xfc, |p|))) == 4 * Pack(Parts(p).0)
    ensures Bitwise(AndOp, Pack(p), Pack(Vec(3, |p|))) == Pack(Parts(p).1)
  {
    var n := |p|;
    var (h, l) := Parts(p);
    var f := seq(n, i requires 0 <= i < n => 4 * h[i]);
    forall i | 0 <= i < n
      ensures f[i] == Bitwise(AndOp, p[i], 0xfc) && l[i] == Bitwise(AndOp, p[i], 3)
    {
      MaskFc(p[i]);
      Mask3(p[i]);
    }
    PackBitwise(AndOp, p, Vec(0xfc, n), f);
    PackBitwise(AndOp, p, Vec(3, n), l);
    PackTimes(f, 4, h);
  }

  // A shift moves bits of a lane into the one below; the mask removes them.
  lemma {:induction false} ShiftMask(s: seq<nat>, r: seq<nat>)
    requires |s| == |r| && forall i :: 0 <= i < |s| ==> s[i] < 16 && r[i] == s[i] / 4
    ensures Bitwise(AndOp, Pack(s) / 4, Pack(Vec(3, |s|))) == Pack(r)
  {
    if s != [] {
      var v := Vec(3, |s|);
      assert v[1..] == Vec(3, |s| - 1);
      ShiftMask(s[1..], r[1..]);
      ShiftMaskOne(s[0], Pack(s[1..]), Pack(v[1..]));
    }
  }

  lemma ShiftMaskOne(a: nat, rest: nat, mask: nat)
    requires a < 16
    ensures Bitwise(AndOp, (a + 256 * rest) / 4, 3 + 256 * mask) == a / 4 + 256 * Bitwise(AndOp, rest / 4, mask)
  {
    var low := a / 4 + 64 * (rest % 4);
    QuarterSplit(a, rest);
    assert Pow2(8) == 256 by { Pow2Values(); }
    BitwiseSplit(AndOp, rest / 4, mask, 8, low, 3);
    Mask3(low);
    DivUnique(low, 4, 16 * (rest % 4), a / 4);
  }

  lemma QuarterSplit(a: nat, rest: nat)
    requires a < 16
    ensures (a + 256 * rest) / 4 == rest / 4 * 256 + (a / 4 + 64 * (rest % 4)) && a / 4 + 64 * (rest % 4) < 256
  {
  }

  // ---- Bytes out of a word ----

  function Unpack(w: nat, n: nat): (l: seq<nat>)
    ensures |l| == n
  {
    if n == 0 then [] else [w % 256] + Unpack(w / 256, n - 1)
  }

  lemma {:induction false} UnpackPack(l: seq<nat>)
    requires Bytes(l)
    ensures Unpack(Pack(l), |l|) == l
  {
    if l != [] {
      UnpackPack(l[1..]);
      DivUnique(Pack(l), 256, Pack(l[1..]), l[0]);
    }
  }

  function Min(a: nat, b: nat): nat
  {
    if a < b then a else b
  }

  // The instruction minub8: the lesser of every pair of bytes.
  function Minub8(a: nat, b: nat, n: nat): nat
  {
    Pack(seq(n, i requires 0 <= i < n => Min(Unpack(a, n)[i], Unpack(b, n)[i])))
  }

  lemma Minub8Lanes(a: seq<nat>, b: seq<nat>, r: seq<nat>)
    requires |a| == |b| == |r| && Bytes(a) && Bytes(b) && forall i :: 0 <= i < |a| ==> r[i] == Min(a[i], b[i])
    ensures Minub8(Pack(a), Pack(b), |a|) == Pack(r)
  {
    UnpackPack(a);
    UnpackPack(b);
    assert seq(|a|, i requires 0 <= i < |a| => Min(Unpack(Pack(a), |a|)[i], Unpack(Pack(b), |a|)[i])) == r;
  }

  // The four-way average is put together from the high and the low parts of
  // two-way sums. Packing and the operator & are passed as values, so that
  // their definitions stay out of the proofs.
  datatype Alpha = Alpha(
    pack: seq<nat> -> nat, and: (nat, nat) -> nat, avg2: (nat, nat) -> nat,
    shiftIn: (nat, nat) -> nat, minub8: (nat, nat) -> nat)
  {
    // ~BYTE_VEC (0x03), >> 2, of two words
    function High(p: nat, q: nat, n: nat): nat
    {
      and(p, pack(Vec(0xfc, n))) / 4 + and(q, pack(Vec(0xfc, n))) / 4
    }

    // BYTE_VEC (0x03), of two words
    function Low(p: nat, q: nat, n: nat): nat
    {
      and(p, pack(Vec(3, n))) + and(q, pack(Vec(3, n)))
    }

    function Avg4(high: nat, high': nat, low: nat, low': nat, n: nat): nat
    {
      high + high' + and((low + low' + pack(Vec(2, n))) / 4, pack(Vec(3, n)))
    }

    ghost predicate Valid()
    {
      && (forall l {:trigger AtLanes(l)} :: AtLanes(l) ==> pack(l) == Pack(l))
      && (forall a: nat, b: nat {:trigger AtWords(a, b)} :: AtWords(a, b) ==>
          && and(a, b) == Bitwise(AndOp, a, b) && avg2(a, b) == Avg2(a, b, 8)
          && shiftIn(a, b) == Bitwise(OrOp, a / 256, b * Pow2(56))
          && minub8(a, b) == Minub8(a, b, 8))
    }
  }

  predicate AtLanes(l: seq<nat>) { true }

  predicate AtWords(a: nat, b: nat) { true }

  lemma QuarterOf(w: Alpha, p: seq<nat>)
    requires w.Valid() && Bytes(p)
    ensures w.and(w.pack(p), w.pack(Vec(0xfc, |p|))) / 4 == w.pack(Parts(p).0)
  {
    assert AtLanes(p) && AtLanes(Vec(0xfc, |p|)) && AtLanes(Parts(p).0);
    assert AtWords(Pack(p), Pack(Vec(0xfc, |p|)));
    PartsOf(p);
    MultipleOf(Pack(Parts(p).0), 4);
  }

  lemma RemainderOf(w: Alpha, p: seq<nat>)
    requires w.Valid() && Bytes(p)
    ensures w.and(w.pack(p), w.pack(Vec(3, |p|))) == w.pack(Parts(p).1)
  {
    assert AtLanes(p) && AtLanes(Vec(3, |p|)) && AtLanes(Parts(p).1);
    assert AtWords(Pack(p), Pack(Vec(3, |p|)));
    PartsOf(p);
  }

  lemma SumOf(w: Alpha, r: seq<nat>, p: seq<nat>, q: seq<nat>)
    requires w.Valid() && |p| == |q| == |r| && forall i :: 0 <= i < |p| ==> r[i] == p[i] + q[i]
    ensures w.pack(r) == w.pack(p) + w.pack(q)
  {
    assert AtLanes(r) && AtLanes(p) && AtLanes(q);
    PackSum(r, p, q);
  }

  lemma ShiftOf(w: Alpha, s: seq<nat>, r: seq<nat>)
    requires w.Valid() && |s| == |r| && forall i :: 0 <= i < |s| ==> s[i] < 16 && r[i] == s[i] / 4
    ensures w.and(w.pack(s) / 4, w.pack(Vec(3, |s|))) == w.pack(r)
  {
    assert AtLanes(s) && AtLanes(r) && AtLanes(Vec(3, |s|));
    assert AtWords(Pack(s) / 4, Pack(Vec(3, |s|)));
    ShiftMask(s, r);
  }

  lemma AverageOf(w: Alpha, a: seq<nat>, b: seq<nat>, r: seq<nat>)
    requires w.Valid() && |a| == |b| == |r| == 8 && Bytes(a) && Bytes(b)
    requires forall i :: 0 <= i < 8 ==> r[i] == (a[i] + b[i] + 1) / 2
    ensures w.avg2(w.pack(a), w.pack(b)) == w.pack(r)
  {
    assert AtLanes(a) && AtLanes(b) && AtLanes(r);
    assert AtWords(Pack(a), Pack(b));
    Avg2Lanes(a, b, r);
  }

  lemma NextOf(w: Alpha, l: seq<nat>, b: nat)
    requires w.Valid() && |l| == 8 && Bytes(l) && b < 256
    ensures w.shiftIn(w.pack(l), b) == w.pack(l[1..] + [b])
  {
    assert AtLanes(l) && AtLanes(l[1..] + [b]);
    assert AtWords(Pack(l), b);
    ShiftIn(l, b);
  }

  lemma LeastOf(w: Alpha, a: seq<nat>, b: seq<nat>, r: seq<nat>)
    requires w.Valid() && |a| == |b| == |r| == 8 && Bytes(a) && Bytes(b)
    requires forall i :: 0 <= i < 8 ==> r[i] == Min(a[i], b[i])
    ensures w.minub8(w.pack(a), w.pack(b)) == w.pack(r)
  {
    assert AtLanes(a) && AtLanes(b) && AtLanes(r);
    assert AtWords(Pack(a), Pack(b));
    Minub8Lanes(a, b, r);
  }

  // The low byte of a word is its first.
  lemma LowByte(w: Alpha, l: seq<nat>)
    requires w.Valid() && l != [] && Bytes(l)
    ensures w.pack(l) % 256 == l[0]
  {
    assert AtLanes(l);
    DivUnique(Pack(l), 256, Pack(l[1..]), l[0]);
  }

  lemma HighLowLanes(w: Alpha, p: seq<nat>, q: seq<nat>)
    requires w.Valid() && |p| == |q| && Bytes(p) && Bytes(q)
    ensures w.High(w.pack(p), w.pack(q), |p|) == w.pack(PairParts(p, q).0)
    ensures w.Low(w.pack(p), w.pack(q), |p|) == w.pack(PairParts(p, q).1)
  {
    QuarterOf(w, p);
    QuarterOf(w, q);
    RemainderOf(w, p);
    RemainderOf(w, q);
    SumOf(w, PairParts(p, q).0, Parts(p).0, Parts(q).0);
    SumOf(w, PairParts(p, q).1, Parts(p).1, Parts(q).1);
  }

  function PairParts(p: seq<nat>, q: seq<nat>): (r: (seq<nat>, seq<nat>))
    requires |p| == |q|
    ensures |r.0| == |r.1| == |p|
    ensures forall i :: 0 <= i < |p| ==> r.0[i] == p[i] / 4 + q[i] / 4 && r.1[i] == p[i] % 4 + q[i] % 4
  {
    (seq(|p|, i requires 0 <= i < |p| => p[i] / 4 + q[i] / 4), seq(|p|, i requires 0 <= i < |p| => p[i] % 4 + q[i] % 4))
  }

  lemma ThreeSum(w: Alpha, r: seq<nat>, h: seq<nat>, h': seq<nat>, m: seq<nat>)
    requires w.Valid() && |h| == |h'| == |m| == |r| && forall i :: 0 <= i < |h| ==> r[i] == h[i] + h'[i] + m[i]
    ensures w.pack(r) == w.pack(h) + w.pack(h') + w.pack(m)
  {
    var hh := seq(|h|, i requires 0 <= i < |h| => h[i] + h'[i]);
    SumOf(w, hh, h, h');
    SumOf(w, r, hh, m);
  }

  lemma PutTogether(w: Alpha, h: seq<nat>, h': seq<nat>, l: seq<nat>, l': seq<nat>, r: seq<nat>)
    requires w.Valid() && |h| == |h'| == |l| == |l'| == |r|
    requires forall i :: 0 <= i < |h| ==> l[i] <= 6 && l'[i] <= 6 && r[i] == h[i] + h'[i] + (l[i] + l'[i] + 2) / 4
    ensures w.Avg4(w.pack(h), w.pack(h'), w.pack(l), w.pack(l'), |h|) == w.pack(r)
  {
    var n := |h|;
    var s := seq(n, i requires 0 <= i < n => l[i] + l'[i] + 2);
    var m := seq(n, i requires 0 <= i < n => s[i] / 4);
    ThreeSum(w, s, l, l', Vec(2, n));
    ThreeSum(w, r, h, h', m);
    ShiftOf(w, s, m);
  }

  // Every byte of the four-way average is rounded on its own.
  lemma Avg4Lanes(w: Alpha, a: seq<nat>, b: seq<nat>, c: seq<nat>, d: seq<nat>, r: seq<nat>)
    requires w.Valid() && |a| == |b| == |c| == |d| == |r| && Bytes(a) && Bytes(b) && Bytes(c) && Bytes(d)
    requires forall i :: 0 <= i < |a| ==> r[i] == (a[i] + b[i] + c[i] + d[i] + 2) / 4
    ensures var n := |a|;
      var (h, h') := (w.High(w.pack(a), w.pack(b), n), w.High(w.pack(c), w.pack(d), n));
      var (l, l') := (w.Low(w.pack(a), w.pack(b), n), w.Low(w.pack(c), w.pack(d), n));
      w.Avg4(h, h', l, l', n) == w.pack(r)
  {
    HighLowLanes(w, a, b);
    HighLowLanes(w, c, d);
    var (h, l) := PairParts(a, b);
    var (h', l') := PairParts(c, d);
    forall i | 0 <= i < |a|
      ensures r[i] == h[i] + h'[i] + (l[i] + l'[i] + 2) / 4
    {
      Quarters(a[i], b[i], c[i], d[i]);
    }
    PutTogether(w, h, h', l, l', r);
  }

  lemma Quarters(a: nat, b: nat, c: nat, d: nat)
    ensures (a + b + c + d + 2) / 4 == a / 4 + b / 4 + c / 4 + d / 4 + (a % 4 + b % 4 + c % 4 + d % 4 + 2) / 4
  {
    var (w, q) := (a % 4 + b % 4 + c % 4 + d % 4 + 2, a / 4 + b / 4 + c / 4 + d / 4);
    assert a + b + c + d + 2 == 4 * q + w;
  }
}
