// Motion vectors of libmpeg2/slice.c: get_motion_delta, bound_motion_vector and
// the predictors that they update, against section 7.6.3.1 of ISO/IEC 13818-2
// and its Table B.10.
module MotionVectors {
  import opened Words
  import opened BitReader
  import opened BlockRoundTrip

  // ---- The code words of motion_code ----

  datatype MvTab = MvTab(delta: nat, len: nat)

  // MV_4, indexed by the first 4 bits.
  function Mv4(i: nat): (e: MvTab)
    requires i < 8
    ensures e.delta <= 3 && 2 <= e.len <= 6
  {
    if i == 0 then MvTab(3, 6) else if i == 1 then MvTab(2, 4) else if i < 4 then MvTab(1, 3) else MvTab(0, 2)
  }

  // MV_10, indexed by the first 10 bits.
  function Mv10(i: nat): (e: MvTab)
    requires i < 48
    ensures e.delta <= 15 && 7 <= e.len <= 10
  {
    if i < 12 then MvTab(0, 10) else if i < 18 then MvTab(27 - i, 10)
    else if i < 20 then MvTab(9, 9) else if i < 22 then MvTab(8, 9) else if i < 24 then MvTab(7, 9)
    else if i < 32 then MvTab(6, 7) else if i < 40 then MvTab(5, 7) else MvTab(4, 7)
  }

  // What the next 16 bits say when the first is 0.
  function Lookup(w: nat): (e: MvTab)
    requires w < 0x8000
    ensures e.delta <= 15 && 2 <= e.len <= 10
  {
    if w >= 0x0c00 then Mv4(w / 4096) else Mv10(w / 64)
  }

  // delta << f_code, plus one and f_code more bits, with a sign.
  function SignedDelta(delta: nat, negative: bool, residual: nat, f: nat): int
  {
    var magnitude := delta * Pow2(f) + 1 + residual;
    if negative then -(magnitude as int) else magnitude
  }

  // The difference that is coded at position p of the stream.
  function DeltaAt(s: seq<Bit>, p: nat, f: nat): (int, nat)
  {
    var w := Bits(s, p, 16);
    if w >= 0x8000 then (0, p + 1)
    else
      var e := Lookup(w);
      (SignedDelta(e.delta, BitAt(s, p + e.len) == 1, Bits(s, p + e.len + 1, f), f), p + e.len + 1 + f)
  }

  lemma AtMostFifteen(delta: nat, q: nat)
    requires delta <= 15
    ensures 0 <= delta * q <= 15 * q
  {
    MulCommutes(delta, q);
    assert q * (15 - delta) >= 0;
  }

  lemma SignedDeltaBound(delta: nat, negative: bool, residual: nat, f: nat)
    requires delta <= 15 && residual < Pow2(f)
    ensures -16 * Pow2(f) <= SignedDelta(delta, negative, residual, f) <= 16 * Pow2(f)
  {
    hide Pow2;
    AtMostFifteen(delta, Pow2(f));
  }

  lemma DeltaBound(s: seq<Bit>, p: nat, f: nat)
    ensures -16 * Pow2(f) <= DeltaAt(s, p, f).0 <= 16 * Pow2(f)
  {
    var w := Bits(s, p, 16);
    if w < 0x8000 {
      var e := Lookup(w);
      SignedDeltaBound(e.delta, BitAt(s, p + e.len) == 1, Bits(s, p + e.len + 1, f), f);
    }
  }

  lemma Peeks(s: seq<Bit>, p: nat)
    ensures var w := Bits(s, p, 16);
      w < TWO_16 && Bits(s, p, 1) == w / 0x8000 &&
      Bits(s, p, 4) == w / 4096 && Bits(s, p, 6) == w / 1024 && Bits(s, p, 10) == w / 64
  {
    BitsPrefix(s, p, 16, 1);
    BitsPrefix(s, p, 16, 4);
    BitsPrefix(s, p, 16, 6);
    BitsPrefix(s, p, 16, 10);
    Pow2Values();
  }

  // (delta ^ sign) - sign, where sign is 0 or all ones
  lemma Negated(delta: int)
    ensures Xor(delta, -1) - -1 == -delta && Xor(delta, 0) - 0 == delta
  {
    XorAllOnes(delta);
    XorZero(delta);
  }

  // The sign after a code word, as 0 or all ones, as far as it is in the window.
  method TakeSign(r: BitReader, len: nat) returns (sign: int)
    requires r.Valid() && r.Pos() >= 0 && r.bits + len <= 16
    modifies r
    ensures r.Synced() && r.Pos() == old(r.Pos()) + len + 1 && r.bits == old(r.bits) + len + 1 && r.ptr == old(r.ptr)
    ensures sign == -(BitAt(Before(r.stream, 8 * r.ptr), old(r.Pos()) + len) as int)
  {
    r.DumpBits(len);
    r.ValidIsSynced();
    sign := r.TopSign();
    r.Drop(1);
  }

  // The stream has zeros from lo to hi.
  predicate ZeroBetween(s: seq<Bit>, lo: nat, hi: int)
  {
    forall k :: lo <= k < hi ==> BitAt(s, k) == 0
  }

  // Bits that are read from the stream up to end, and zeros, are those of the
  // stream exactly when what comes after end is zero.
  lemma {:induction false} SeenBits(s: seq<Bit>, end: nat, p: nat, n: nat)
    ensures Bits(Before(s, end), p, n) == Bits(s, p, n) <==> ZeroBetween(s, if p < end then end else p, p + n)
  {
    if n > 0 {
      SeenBits(s, end, p, n - 1);
      BitsUnfold(s, p, n);
      BitsUnfold(Before(s, end), p, n);
      SeenBit(s, end, p + n - 1);
    }
  }

  lemma SeenBit(s: seq<Bit>, end: nat, k: nat)
    ensures BitAt(Before(s, end), k) == if k < end then BitAt(s, k) else 0
  {
  }

  // The f_code bits that are added to a difference, as far as they are in the
  // window.
  method TakeResidual(r: BitReader, f: nat) returns (residual: nat)
    requires r.Synced() && f <= 14
    modifies r
    ensures r.Synced() && r.Pos() == old(r.Pos()) + f && r.bits == old(r.bits) + f
    ensures residual == Bits(Before(r.stream, 8 * old(r.ptr)), old(r.Pos()), f) && r.ptr == old(r.ptr)
  {
    residual := if f > 0 then r.Top(f) else 0;
    r.Drop(f);
  }

  // The same, for bits that are all there.
  method TakeBits(r: BitReader, f: nat) returns (v: nat)
    requires r.Valid() && r.Pos() >= 0 && r.bits + f <= 16
    modifies r
    ensures r.Valid() && r.Pos() == old(r.Pos()) + f
    ensures v == Bits(r.stream, old(r.Pos()), f) && r.bits == old(r.bits) + f
  {
    v := if f > 0 then r.UBits(f) else 0;
    r.DumpBits(f);
  }

  // How far a difference may use up the window.
  predicate Used(before: int, after: int, f: nat)
  {
    -15 <= after && (after <= before + 7 + f || after <= before + 11 || after <= f + 1)
  }

  // The entry for the next code word.
  method PeekCode(r: BitReader) returns (short: bool, tab: MvTab)
    requires r.Valid() && r.Pos() >= 0 && r.bits <= 6 && Bits(r.stream, r.Pos(), 16) < 0x8000
    ensures tab == Lookup(Bits(r.stream, r.Pos(), 16)) && (short ==> tab.len <= 6)
    ensures short <==> Bits(r.stream, r.Pos(), 6) >= 3
  {
    Peeks(r.stream, r.Pos());
    short := r.UBits(6) >= 3;
    if short {
      tab := Mv4(r.UBits(4));
    } else {
      tab := Mv10(r.UBits(10));
    }
  }

  // The residual after a code word and a sign. For the longer codes the window
  // is refilled before it.
  method TakeRest(r: BitReader, short: bool, f: nat) returns (residual: nat)
    requires r.Synced() && r.bits <= 17 && f <= 14 && (short ==> r.bits <= 16)
    modifies r
    ensures r.Synced() && r.Pos() == old(r.Pos()) + f && residual < Pow2(f)
    ensures short || f == 0 ==> r.bits == old(r.bits) + f && r.ptr == old(r.ptr)
    ensures !short && f > 0 ==> r.bits == old(r.bits) + f - if old(r.bits) > 0 then 16 else 0
    ensures residual == Bits(r.stream, old(r.Pos()), f)
         <==> !short || ZeroBetween(r.stream, 8 * old(r.ptr), old(r.Pos()) + f)
  {
    if !short && f > 0 {
      r.Refill();
      r.ValidIsSynced();
      residual := TakeBits(r, f);
      r.ValidIsSynced();
    } else {
      SeenBits(r.stream, 8 * r.ptr, r.Pos(), f);
      residual := TakeResidual(r, f);
    }
  }

  // The bits that a difference needs are in the window that ends at end, the
  // window is refilled for them, or they are zero.
  predicate InWindow(s: seq<Bit>, p: nat, f: nat, end: nat)
  {
    ZeroBetween(s, end, DeltaAt(s, p, f).1 - if Bits(s, p, 6) < 3 then f else 0)
  }

  // How far from the difference that is coded the one that is read can be: by
  // what is in a residual, or, of the longer codes, by the sign.
  predicate Near(s: seq<Bit>, p: nat, f: nat, delta: int)
  {
    var d := DeltaAt(s, p, f).0;
    && -16 * Pow2(f) <= delta <= 16 * Pow2(f)
    && if Bits(s, p, 6) < 3 then delta == d || delta == -d else delta - d < Pow2(f) && d - delta < Pow2(f)
  }

  // get_motion_delta. The bits consumed are those of the code; the difference
  // is the one that is coded if and only if the window has them.
  method GetMotionDelta(r: BitReader, f: nat) returns (delta: int)
    requires r.Valid() && r.Pos() >= 0 && r.bits <= 6 && f <= 14
    modifies r
    ensures r.Synced() && Used(old(r.bits), r.bits, f) && r.Pos() == DeltaAt(r.stream, old(r.Pos()), f).1
    ensures delta == DeltaAt(r.stream, old(r.Pos()), f).0 <==> InWindow(r.stream, old(r.Pos()), f, 8 * old(r.ptr))
    ensures Near(r.stream, old(r.Pos()), f, delta)
    ensures Bits(r.stream, old(r.Pos()), 6) >= 3 ==> r.ptr == old(r.ptr)
    ensures Bits(r.stream, old(r.Pos()), 6) < 3 ==> r.bits <= f + 1 || r.bits <= old(r.bits) + 11
  {
    Peeks(r.stream, r.Pos());
    if r.UBits(1) == 1 {
      DeltaOfOne(r.stream, r.Pos(), f);
      r.DumpBits(1);
      r.ValidIsSynced();
      delta := 0;
    } else {
      delta := CodedDelta(r, f);
    }
  }

  lemma DeltaOfOne(s: seq<Bit>, p: nat, f: nat)
    requires Bits(s, p, 16) >= 0x8000
    ensures DeltaAt(s, p, f) == (0, p + 1) && Near(s, p, f, 0)
  {
  }

  // A difference that is not 0.
  method CodedDelta(r: BitReader, f: nat) returns (delta: int)
    requires r.Valid() && r.Pos() >= 0 && r.bits <= 6 && f <= 14 && Bits(r.stream, r.Pos(), 16) < 0x8000
    modifies r
    ensures r.Synced() && Used(old(r.bits), r.bits, f) && r.Pos() == DeltaAt(r.stream, old(r.Pos()), f).1
    ensures delta == DeltaAt(r.stream, old(r.Pos()), f).0 <==> InWindow(r.stream, old(r.Pos()), f, 8 * old(r.ptr))
    ensures Near(r.stream, old(r.Pos()), f, delta)
    ensures Bits(r.stream, old(r.Pos()), 6) >= 3 ==> r.ptr == old(r.ptr)
    ensures Bits(r.stream, old(r.Pos()), 6) < 3 ==> r.bits <= f + 1 || r.bits <= old(r.bits) + 11
  {
    hide DeltaAt, InWindow, Near, Bits, Window, Lookup, Before;
    ghost var p := r.Pos();
    var short, tab := PeekCode(r);
    var sign := TakeSign(r, tab.len);
    var residual := TakeRest(r, short, f);
    delta := PutTogether(tab.delta, residual, sign, f);
    SeenDelta(r.stream, p, 8 * old(r.ptr), tab, sign, residual, f, delta);
  }

  method PutTogether(code: nat, residual: nat, sign: int, f: nat) returns (delta: int)
    requires sign == 0 || sign == -1
    ensures delta == SignedDelta(code, sign == -1, residual, f)
  {
    delta := code * Pow2(f) + 1;
    delta := delta + residual;
    Negated(delta);
    delta := Xor(delta, sign) - sign;
  }

  lemma DeltaOfCode(s: seq<Bit>, p: nat, tab: MvTab, f: nat)
    requires Bits(s, p, 16) < 0x8000 && tab == Lookup(Bits(s, p, 16))
    ensures DeltaAt(s, p, f)
         == (SignedDelta(tab.delta, BitAt(s, p + tab.len) == 1, Bits(s, p + tab.len + 1, f), f), p + tab.len + 1 + f)
  {
  }

  lemma SeenSign(s: seq<Bit>, end: nat, p: nat)
    requires p <= end
    ensures BitAt(Before(s, end), p) == BitAt(s, p) <==> ZeroBetween(s, end, p + 1)
  {
    SeenBit(s, end, p);
  }

  lemma SignedDeltaTells(delta: nat, negative: bool, residual: nat, negative': bool, residual': nat, f: nat)
    requires residual < Pow2(f) && residual' < Pow2(f)
    ensures var (d, d') := (SignedDelta(delta, negative, residual, f), SignedDelta(delta, negative', residual', f));
      && (d == d' <==> negative == negative' && residual == residual')
      && (residual == residual' ==> d == d' || d == -d')
      && (negative == negative' ==> d - d' < Pow2(f) && d' - d < Pow2(f))
  {
    assert delta * Pow2(f) >= 0;
  }

  // A sign that is seen in a window that ends at end, and a residual that is
  // seen there for the shorter codes.
  lemma SeenDelta(s: seq<Bit>, p: nat, end: nat, tab: MvTab, sign: int, residual: nat, f: nat, delta: int)
    requires Bits(s, p, 16) < 0x8000 && tab == Lookup(Bits(s, p, 16)) && residual < Pow2(f)
    requires p + tab.len <= end && (Bits(s, p, 6) >= 3 ==> p + tab.len < end)
    requires sign == -(BitAt(Before(s, end), p + tab.len) as int)
    requires residual == Bits(s, p + tab.len + 1, f) <==> Bits(s, p, 6) < 3 || ZeroBetween(s, end, p + tab.len + 1 + f)
    requires delta == SignedDelta(tab.delta, sign == -1, residual, f)
    ensures DeltaAt(s, p, f).1 == p + tab.len + 1 + f && Near(s, p, f, delta)
    ensures delta == DeltaAt(s, p, f).0 <==> InWindow(s, p, f, end)
  {
    DeltaOfCode(s, p, tab, f);
    SeenSign(s, end, p + tab.len);
    SignedDeltaBound(tab.delta, sign == -1, residual, f);
    SignedDeltaTells(tab.delta, sign == -1, residual, BitAt(s, p + tab.len) == 1, Bits(s, p + tab.len + 1, f), f);
  }

  // ---- Table B.10: every difference in range has a code ----

  // The code word of a motion_code that is not 0, without its sign.
  function CodeWord(k: nat): (c: (nat, nat))
    requires 1 <= k <= 16
    ensures c.1 <= 10
  {
    if k == 1 then (1, 2) else if k == 2 then (1, 3) else if k == 3 then (1, 4) else if k == 4 then (3, 6)
    else if k <= 6 then (10 - k, 7) else if k == 7 then (3, 7)
    else if k <= 10 then (19 - k, 9) else (28 - k, 10)
  }

  // A sign and a residual after the code word of k.
  function Parts(negative: bool, k: nat, residual: nat, f: nat): seq<Bit>
    requires 1 <= k <= 16
  {
    Digits(CodeWord(k).0, CodeWord(k).1) + ([if negative then 1 else 0] + Digits(residual, f))
  }

  lemma CodeRange(m: nat, q: nat) returns (a: nat, r: nat)
    requires q > 0 && m < 16 * q
    ensures a == m / q && r == m % q && a <= 15 && r < q && m == a * q + r
  {
    a, r := m / q, m % q;
    assert m == q * (m / q) + m % q;
    assert q * (m / q) == q * 15 + q * (m / q - 15);
    MulAtLeast(q, m / q - 15);
    MulCommutes(a, q);
  }

  lemma CodeWordLookup(k: nat, w: nat, rest: nat)
    requires 1 <= k <= 16 && rest < Pow2(16 - CodeWord(k).1)
    requires w == CodeWord(k).0 * Pow2(16 - CodeWord(k).1) + rest
    ensures w < 0x8000 && Lookup(w) == MvTab(k - 1, CodeWord(k).1)
  {
    Pow2Values();
    if k <= 4 { } else if k <= 7 { } else if k <= 10 { } else { }
  }

  lemma CodeWordFits(k: nat)
    requires 1 <= k <= 16
    ensures CodeWord(k).0 < Pow2(CodeWord(k).1)
  {
    Pow2Values();
  }

  lemma CodeRead(s: seq<Bit>, p: nat, k: nat)
    requires 1 <= k <= 16 && HasAt(s, p, Digits(CodeWord(k).0, CodeWord(k).1))
    ensures Bits(s, p, 16) < 0x8000 && Lookup(Bits(s, p, 16)) == MvTab(k - 1, CodeWord(k).1)
  {
    var (v, n) := CodeWord(k);
    CodeWordFits(k);
    ReadDigits(s, p, v, n);
    BitsSplit(s, p, n, 16 - n);
    CodeWordLookup(k, Bits(s, p, 16), Bits(s, p + n, 16 - n));
  }

  lemma ZeroRead(s: seq<Bit>, p: nat)
    requires HasAt(s, p, [1])
    ensures Bits(s, p, 16) >= 0x8000
  {
    assert s[p] == s[p..p + 1][0] == 1;
    Peeks(s, p);
    assert Bits(s, p, 1) == 2 * Bits(s, p, 0) + BitAt(s, p);
  }

  lemma DeltaByLookup(s: seq<Bit>, p: nat, d: nat, n: nat, negative: bool, residual: nat, f: nat)
    requires Bits(s, p, 16) < 0x8000 && Lookup(Bits(s, p, 16)) == MvTab(d, n)
    requires BitAt(s, p + n) == (if negative then 1 else 0) && Bits(s, p + n + 1, f) == residual
    ensures DeltaAt(s, p, f) == (SignedDelta(d, negative, residual, f), p + n + 1 + f)
  {
  }

  lemma DeltaRead(s: seq<Bit>, p: nat, d: nat, negative: bool, residual: nat, f: nat, n: nat)
    requires Bits(s, p, 16) < 0x8000 && Lookup(Bits(s, p, 16)) == MvTab(d, n) && residual < Pow2(f)
    requires HasAt(s, p + n, [if negative then 1 else 0]) && HasAt(s, p + n + 1, Digits(residual, f))
    ensures DeltaAt(s, p, f) == (SignedDelta(d, negative, residual, f), p + n + 1 + f)
  {
    BitRead(s, p + n, if negative then 1 else 0);
    ReadDigits(s, p + n + 1, residual, f);
    DeltaByLookup(s, p, d, n, negative, residual, f);
  }

  lemma BitRead(s: seq<Bit>, p: nat, b: Bit)
    requires HasAt(s, p, [b])
    ensures BitAt(s, p) == b
  {
    assert s[p] == s[p..p + 1][0];
  }

  lemma NonZeroRoundTrip(s: seq<Bit>, p: nat, negative: bool, k: nat, residual: nat, f: nat)
    requires 1 <= k <= 16 && residual < Pow2(f) && HasAt(s, p, Parts(negative, k, residual, f))
    ensures DeltaAt(s, p, f) == (SignedDelta(k - 1, negative, residual, f), p + |Parts(negative, k, residual, f)|)
  {
    hide DeltaAt, Lookup, SignedDelta, CodeWord, Bits, Digits, HasAt;
    var (v, n) := CodeWord(k);
    PartsSplit(s, p, Digits(v, n), if negative then 1 else 0, Digits(residual, f));
    CodeRead(s, p, k);
    DeltaRead(s, p, k - 1, negative, residual, f, n);
  }

  lemma PartsSplit(s: seq<Bit>, p: nat, c: seq<Bit>, b: Bit, d: seq<Bit>)
    requires HasAt(s, p, c + ([b] + d))
    ensures HasAt(s, p, c) && HasAt(s, p + |c|, [b]) && HasAt(s, p + |c| + 1, d)
  {
    HasAtSplit(s, p, c, [b] + d);
    HasAtSplit(s, p + |c|, [b], d);
  }

  lemma DeltaValue(delta: int, f: nat, a: nat, r: nat)
    requires delta != 0 && Magnitude(delta) - 1 == a * Pow2(f) + r
    ensures SignedDelta(a, delta < 0, r, f) == delta
  {
  }

  // motion_code and residual of a difference that is not 0.
  function CodeOf(delta: int, f: nat): (nat, nat)
    requires delta != 0
  {
    ((Magnitude(delta) - 1) / Pow2(f) + 1, (Magnitude(delta) - 1) % Pow2(f))
  }

  lemma DeltaHasCode(delta: int, f: nat)
    requires delta != 0 && -16 * Pow2(f) <= delta <= 16 * Pow2(f)
    ensures var (k, r) := CodeOf(delta, f);
      Magnitude(delta) - 1 == (k - 1) * Pow2(f) + r && 1 <= k <= 16 && r < Pow2(f)
  {
    var a, r := CodeRange(Magnitude(delta) - 1, Pow2(f));
  }

  // The bits of a difference.
  function Written(delta: int, f: nat): seq<Bit>
    requires -16 * Pow2(f) <= delta <= 16 * Pow2(f)
  {
    if delta == 0 then [1]
    else
      DeltaHasCode(delta, f);
      var (k, r) := CodeOf(delta, f);
      Parts(delta < 0, k, r, f)
  }

  // What is written for a difference is read back, and no bit more.
  lemma DeltaRoundTrip(s: seq<Bit>, p: nat, delta: int, f: nat)
    requires -16 * Pow2(f) <= delta <= 16 * Pow2(f) && HasAt(s, p, Written(delta, f))
    ensures DeltaAt(s, p, f) == (delta, p + |Written(delta, f)|)
  {
    hide DeltaAt, CodeWord, Digits;
    if delta == 0 {
      ZeroRead(s, p);
      DeltaOfOne(s, p, f);
    } else {
      DeltaHasCode(delta, f);
      var (k, r) := CodeOf(delta, f);
      DeltaValue(delta, f, k - 1, r);
      NonZeroRoundTrip(s, p, delta < 0, k, r, f);
    }
  }

  // ---- bound_motion_vector ----

  // (int32_t) x, for the word that holds x modulo 2^32
  function Int32(x: int): (r: int)
    ensures -TWO_31 <= r < TWO_31
  {
    if x % TWO_32 < TWO_31 then x % TWO_32 else x % TWO_32 - TWO_32
  }

  // ((int32_t) vector << (27 - f_code)) >> (27 - f_code)
  function Bound(vector: int, f: nat): int
    requires f <= 27
  {
    Int32(vector * Pow2(27 - f)) / Pow2(27 - f)
  }

  lemma WrapsTo(vector: int, v: int, k: int, range: int, half: int, q: nat)
    requires range * q == TWO_32 && half * q == TWO_31 && q > 0
    requires -half <= v < half && vector == v + k * range
    ensures Int32(vector * q) / q == v
  {
    Shifted(vector, v, k, range, q);
    Scaled(v, half, q);
    WrapUnique(v * q, k);
    MulCommutes(v, q);
    DivUnique(v * q, q, v, 0);
  }

  // The result is the one vector of the range that is congruent to the
  // argument modulo the size of the range.
  lemma BoundCongruent(vector: int, f: nat, k: int)
    requires f <= 27 && InRange(vector - k * (32 * Pow2(f)), f)
    ensures Bound(vector, f) == vector - k * (32 * Pow2(f))
  {
    RangeTimes(f);
    WrapsTo(vector, vector - k * (32 * Pow2(f)), k, 32 * Pow2(f), 16 * Pow2(f), Pow2(27 - f));
  }

  lemma RangeTimes(f: nat)
    requires f <= 27
    ensures 32 * Pow2(f) * Pow2(27 - f) == TWO_32 && 16 * Pow2(f) * Pow2(27 - f) == TWO_31
  {
    Pow2Add(f, 27 - f);
    Pow2Add(27, 5);
    Pow2Values();
    MulAssociates(32, Pow2(f), Pow2(27 - f));
    MulAssociates(16, Pow2(f), Pow2(27 - f));
  }

  lemma Shifted(x: int, v: int, k: int, range: int, q: int)
    requires x == v + k * range
    ensures x * q == v * q + k * (range * q)
  {
    MulAssociates(k, range, q);
  }

  lemma Scaled(v: int, half: int, q: nat)
    requires -half <= v < half && q > 0
    ensures -(half * q) <= v * q < half * q
  {
    assert (v + half) * q >= 0 && (half - v) * q > 0;
  }

  lemma WrapUnique(v: int, k: int)
    requires -TWO_31 <= v < TWO_31
    ensures Int32(v + k * TWO_32) == v
  {
    if v >= 0 {
      DivUnique(v + k * TWO_32, TWO_32, k, v);
    } else {
      DivUnique(v + k * TWO_32, TWO_32, k - 1, v + TWO_32);
    }
  }

  // The correction of section 7.6.3.1: one step of the range at most.
  function Corrected(vector: int, f: nat): int
  {
    var half := 16 * Pow2(f);
    if vector < -half then vector + 2 * half else if vector > half - 1 then vector - 2 * half else vector
  }

  predicate InRange(vector: int, f: nat)
  {
    -16 * Pow2(f) <= vector < 16 * Pow2(f)
  }

  // For a predictor in range the two are the same, and the sum stays in range.
  lemma BoundIsCorrected(pred: int, delta: int, f: nat)
    requires f <= 27 && InRange(pred, f) && -16 * Pow2(f) <= delta <= 16 * Pow2(f)
    ensures Bound(pred + delta, f) == Corrected(pred + delta, f) && InRange(Bound(pred + delta, f), f)
  {
    var half := 16 * Pow2(f);
    var v := pred + delta;
    BoundCongruent(v, f, if v < -half then -1 else if v > half - 1 then 1 else 0);
  }

  // Whatever the vector, the result is in range and congruent to it.
  lemma BoundAnyVector(vector: int, f: nat) returns (k: int)
    requires f <= 27
    ensures InRange(Bound(vector, f), f) && vector == Bound(vector, f) + k * (32 * Pow2(f))
  {
    var range := 32 * Pow2(f);
    var half := 16 * Pow2(f);
    k := (vector + half) / range;
    assert vector + half == range * k + (vector + half) % range;
    MulCommutes(k, range);
    BoundCongruent(vector, f, k);
  }

  // ---- Predictors ----

  // DMV_2
  function Dmv(i: nat): (e: (int, nat))
    requires i < 4
    ensures -1 <= e.0 <= 1 && 1 <= e.1 <= 2
  {
    if i < 2 then (0, 1) else if i == 2 then (1, 2) else (-1, 2)
  }

  function DmvAt(s: seq<Bit>, p: nat): (int, nat)
  {
    assert Pow2(2) == 4 by { Pow2Values(); }
    var (dmv, len) := Dmv(Bits(s, p, 2));
    (dmv, p + len)
  }

  // A component of a vector, coded at p.
  function ComponentAt(s: seq<Bit>, p: nat, pred: int, f: nat): (int, nat)
    requires f <= 14
  {
    var (delta, next) := DeltaAt(s, p, f);
    (Bound(pred + delta, f), next)
  }

  // For a predictor in range it is that of section 7.6.3.1.
  lemma ComponentIsStandard(s: seq<Bit>, p: nat, pred: int, f: nat)
    requires f <= 14 && InRange(pred, f)
    ensures ComponentAt(s, p, pred, f) == (Corrected(pred + DeltaAt(s, p, f).0, f), DeltaAt(s, p, f).1)
  {
    DeltaBound(s, p, f);
    BoundIsCorrected(pred, DeltaAt(s, p, f).0, f);
  }

  // What get_dmv sees of the stream up to end is what is there exactly when the
  // bits of its code that come after end are zero.
  lemma SeenDmv(s: seq<Bit>, end: nat, p: nat)
    ensures DmvAt(Before(s, end), p) == DmvAt(s, p) <==> ZeroBetween(s, if p < end then end else p, DmvAt(s, p).1)
  {
    SeenBit(s, end, p);
    SeenBit(s, end, p + 1);
    TwoBits(s, p);
    TwoBits(Before(s, end), p);
  }

  lemma DmvLength(s: seq<Bit>, p: nat)
    ensures p + 1 <= DmvAt(s, p).1 <= p + 2
  {
  }

  lemma TwoBits(s: seq<Bit>, p: nat)
    ensures Bits(s, p, 2) == 2 * BitAt(s, p) + BitAt(s, p + 1)
  {
    assert Bits(s, p, 1) == 2 * Bits(s, p, 0) + BitAt(s, p);
  }

  method GetDmv(r: BitReader) returns (dmv: int)
    requires r.Synced()
    modifies r
    ensures r.Synced() && r.ptr == old(r.ptr) && old(r.bits) + 1 <= r.bits <= old(r.bits) + 2
    ensures (dmv, r.Pos()) == DmvAt(Before(r.stream, 8 * r.ptr), old(r.Pos()))
  {
    Pow2Values();
    var (d, len) := Dmv(r.Top(2));
    dmv := d;
    r.Drop(len);
  }

  // A component is what is coded if the difference is; otherwise only if it is
  // the largest, of the other sign.
  predicate Seen(s: seq<Bit>, p: nat, f: nat, end: nat)
  {
    InWindow(s, p, f, end) || (Bits(s, p, 6) < 3 && Magnitude(DeltaAt(s, p, f).0) == 16 * Pow2(f))
  }

  method Component(r: BitReader, pred: int, f: nat) returns (v: int)
    requires r.Valid() && r.Pos() >= 0 && r.bits <= 6 && f <= 14
    modifies r
    ensures r.Synced() && r.Pos() >= 0 && InRange(v, f) && Used(old(r.bits), r.bits, f)
    ensures var (c, next) := ComponentAt(r.stream, old(r.Pos()), pred, f);
      r.Pos() == next && (v == c <==> Seen(r.stream, old(r.Pos()), f, 8 * old(r.ptr)))
    ensures Bits(r.stream, old(r.Pos()), 6) >= 3 ==> r.ptr == old(r.ptr) && r.bits <= old(r.bits) + 7 + f
    ensures Bits(r.stream, old(r.Pos()), 6) < 3 ==> r.bits <= f + 1 || r.bits <= old(r.bits) + 11
  {
    hide DeltaAt, InWindow, Near, Bits, Window, Before, Bound, InRange;
    ghost var p := r.Pos();
    var delta := GetMotionDelta(r, f);
    CodeLength(r.stream, p, f);
    BoundTells(r.stream, p, pred, delta, f);
    v := Bound(pred + delta, f);
  }

  lemma BoundTells(s: seq<Bit>, p: nat, pred: int, delta: int, f: nat)
    requires f <= 14 && Near(s, p, f, delta)
    ensures var d := DeltaAt(s, p, f).0;
      Bound(pred + delta, f) == Bound(pred + d, f)
      <==> delta == d || (Bits(s, p, 6) < 3 && Magnitude(d) == 16 * Pow2(f))
    ensures InRange(Bound(pred + delta, f), f)
  {
    hide DeltaAt, Bits, Bound, InRange, Pow2;
    var d := DeltaAt(s, p, f).0;
    DeltaBound(s, p, f);
    CongruentTells(pred + delta, pred + d, f);
  }

  // Vectors that differ by no more than the size of the range lead to the same
  // one only if they differ by all of it.
  lemma CongruentTells(v: int, w: int, f: nat)
    requires f <= 14 && -32 * Pow2(f) <= v - w <= 32 * Pow2(f)
    ensures InRange(Bound(v, f), f)
    ensures Bound(v, f) == Bound(w, f) <==> v == w || Magnitude(v - w) == 32 * Pow2(f)
  {
    hide Bound, InRange, Pow2;
    var q := 32 * Pow2(f);
    var k := BoundAnyVector(v, f);
    if v - w == q {
      NextCongruent(w, f, 1);
    } else if w - v == q {
      NextCongruent(w, f, -1);
    } else if Bound(v, f) == Bound(w, f) {
      var l := BoundAnyVector(w, f);
      SameMultiple(k, l, q);
    }
  }

  lemma NextCongruent(w: int, f: nat, j: int)
    requires f <= 14
    ensures Bound(w + j * (32 * Pow2(f)), f) == Bound(w, f)
  {
    hide Bound, InRange, Pow2;
    var q := 32 * Pow2(f);
    var l := BoundAnyVector(w, f);
    assert (l + j) * q == l * q + j * q;
    BoundCongruent(w + j * q, f, l + j);
  }

  lemma SameMultiple(k: int, l: int, q: nat)
    requires -(q as int) < k * q - l * q < q
    ensures k == l
  {
    assert (k - l) * q == k * q - l * q;
    if k > l { MulAtLeast(q, k - l); MulCommutes(q, k - l); }
    if k < l { MulAtLeast(q, l - k); assert (l - k) * q == l * q - k * q; MulCommutes(q, l - k); }
  }

  // With room for the longest of the short codes, the bits are in the window.
  lemma RoomForAll(s: seq<Bit>, p: nat, f: nat, bits: int)
    requires bits <= 5 && bits + f <= 9
    ensures InWindow(s, p, f, p + 16 - bits)
  {
    CodeLength(s, p, f);
  }

  lemma CodeLength(s: seq<Bit>, p: nat, f: nat)
    ensures p + 1 <= DeltaAt(s, p, f).1 <= p + f + if Bits(s, p, 6) < 3 then 11 else 7
  {
    Peeks(s, p);
    var w := Bits(s, p, 16);
    if 0x0c00 <= w < 0x8000 { assert Lookup(w).len <= 6; }
  }

  lemma ZeroInRange(f: nat)
    ensures InRange(0, f)
  {
  }

  function VectorAt(s: seq<Bit>, p: nat, predX: int, predY: int, f0: nat, f1: nat): (int, int, nat)
    requires f0 <= 14 && f1 <= 14
  {
    var (x, q) := ComponentAt(s, p, predX, f0);
    var (y, next) := ComponentAt(s, q, predY, f1);
    (x, y, next)
  }

  // Where the window ends after a refill at p that leaves sixteen bits in it: at
  // an even byte.
  function WindowEnd(p: nat): nat
  {
    (p + 31) / 16 * 16
  }

  lemma EndIs(p: nat, end: nat)
    requires end % 16 == 0 && p + 16 <= end <= p + 31
    ensures end == WindowEnd(p)
  {
  }

  // Where the window ends at the vertical component: the horizontal one was read
  // from c to q in a window that ended at end.
  function SecondEnd(s: seq<Bit>, c: nat, q: nat, end: nat): nat
  {
    if Bits(s, c, 6) < 3 then WindowEnd(q) else if q + 16 > end then end + 16 else end
  }

  // The refill between the components.
  method Between(r: BitReader, f: nat, ghost c: nat, ghost end: nat)
    requires r.Synced() && -15 <= r.bits && f <= 14
    requires if Bits(r.stream, c, 6) < 3 then r.bits <= 15 else 8 * r.ptr == end && r.bits <= 8 + f
    modifies r
    ensures r.Valid() && r.Pos() == old(r.Pos()) && r.bits <= (if f > 8 then f - 8 else 0)
    ensures 8 * r.ptr == SecondEnd(r.stream, c, r.Pos(), end)
  {
    hide Bits, Window, Before;
    r.Refill();
    if Bits(r.stream, c, 6) < 3 { EndIs(r.Pos(), 8 * r.ptr); }
    r.ValidIsSynced();
  }

  // The bits before a vector, after a refill.
  method Select(r: BitReader, skip: nat) returns (select: nat)
    requires r.Valid() && r.Pos() >= 0 && skip <= 1
    modifies r
    ensures r.Valid() && r.Pos() == old(r.Pos()) + skip && r.bits <= 1 && 8 * r.ptr == old(r.FedEnd())
    ensures select == Bits(r.stream, old(r.Pos()), skip)
  {
    r.NeedBits();
    select := TakeBits(r, skip);
  }

  // A vector after skip bits, which are a field selection if there is one.
  // The window is refilled only before them and between the components.
  method ReadVector(r: BitReader, skip: nat, predX: int, predY: int, f0: nat, f1: nat)
    returns (select: nat, x: int, y: int, ghost q: nat)
    requires r.Valid() && r.Pos() >= 0 && skip <= 1 && f0 <= 14 && f1 <= 14
    modifies r
    ensures r.Synced() && r.bits <= 27 && (f0 <= 8 && f1 <= 8 ==> r.bits <= 15)
    ensures select == Bits(r.stream, old(r.Pos()), skip) && InRange(x, f0) && InRange(y, f1)
    ensures var c := old(r.Pos()) + skip;
      && q == ComponentAt(r.stream, c, predX, f0).1 && r.Pos() == ComponentAt(r.stream, q, predY, f1).1
      && (x == ComponentAt(r.stream, c, predX, f0).0 <==> Seen(r.stream, c, f0, old(r.FedEnd())))
      && (y == ComponentAt(r.stream, q, predY, f1).0
          <==> Seen(r.stream, q, f1, SecondEnd(r.stream, c, q, old(r.FedEnd()))))
  {
    hide Seen, ComponentAt, SecondEnd, Bits, Window, Before, InRange, BitReader.Valid, BitReader.Synced;
    ghost var c, end := r.Pos() + skip, r.FedEnd();
    select := Select(r, skip);
    x := Component(r, predX, f0);
    q := r.Pos();
    Between(r, f0, c, end);
    y := Component(r, predY, f1);
  }

  // With the f_codes that ISO/IEC 13818-2 allows, 1 to 9, the window has the
  // bits of both components.
  lemma StandardFeeds(s: seq<Bit>, c: nat, q: nat, pred: int, f0: nat, f1: nat, end: nat)
    requires f0 <= 8 && f1 <= 8 && c + 15 <= end && q == ComponentAt(s, c, pred, f0).1
    ensures Seen(s, c, f0, end) && Seen(s, q, f1, SecondEnd(s, c, q, end))
  {
    CodeLength(s, c, f0);
    RoomForAll(s, c, f0, c + 16 - end);
    var second := SecondEnd(s, c, q, end);
    RoomForAll(s, q, f1, q + 16 - second);
  }

  // A vector whose bits are all there.
  method WholeVector(r: BitReader, skip: nat, predX: int, predY: int, f0: nat, f1: nat)
    returns (select: nat, x: int, y: int)
    requires r.Valid() && r.Pos() >= 0 && skip <= 1 && f0 <= 8 && f1 <= 8
    modifies r
    ensures r.Valid() && r.Pos() >= 0 && r.bits <= 15 && select == Bits(r.stream, old(r.Pos()), skip)
    ensures InRange(x, f0) && InRange(y, f1)
    ensures VectorAt(r.stream, old(r.Pos()) + skip, predX, predY, f0, f1) == (x, y, r.Pos())
  {
    hide Seen, ComponentAt, Bits, Window, Before, InRange;
    ghost var q;
    select, x, y, q := ReadVector(r, skip, predX, predY, f0, f1);
    StandardFeeds(r.stream, old(r.Pos()) + skip, q, predX, f0, f1, old(r.FedEnd()));
    r.ValidIsSynced();
  }

  // Two vectors, each after a field selection.
  method ReadPair(r: BitReader, predX0: int, predY0: int, predX1: int, predY1: int, f0: nat, f1: nat)
    returns (select0: nat, x0: int, y0: int, select1: nat, x1: int, y1: int, ghost mid: nat)
    requires r.Valid() && r.Pos() >= 0 && f0 <= 8 && f1 <= 8
    modifies r
    ensures r.Valid() && r.Pos() >= 0 && InRange(x0, f0) && InRange(y0, f1) && InRange(x1, f0) && InRange(y1, f1)
    ensures VectorAt(r.stream, old(r.Pos()) + 1, predX0, predY0, f0, f1) == (x0, y0, mid)
    ensures VectorAt(r.stream, mid + 1, predX1, predY1, f0, f1) == (x1, y1, r.Pos())
    ensures select0 == Bits(r.stream, old(r.Pos()), 1) && select1 == Bits(r.stream, mid, 1)
  {
    hide VectorAt;
    select0, x0, y0 := WholeVector(r, 1, predX0, predY0, f0, f1);
    mid := r.Pos();
    select1, x1, y1 := WholeVector(r, 1, predX1, predY1, f0, f1);
  }

  // A vector of a field in a frame picture: the vertical component is in lines
  // of a field, and not bounded.
  function FieldAt(s: seq<Bit>, p: nat, predX: int, predY: int, f0: nat, f1: nat): (int, int, nat)
    requires f0 <= 14
  {
    var (x, q) := ComponentAt(s, p, predX, f0);
    var (delta, next) := DeltaAt(s, q, f1);
    (x, predY / 2 + delta, next)
  }

  method ReadField(r: BitReader, predX: int, predY: int, f0: nat, f1: nat) returns (select: nat, x: int, y: int)
    requires r.Valid() && r.Pos() >= 0 && f0 <= 8 && f1 <= 8
    modifies r
    ensures r.Valid() && r.Pos() >= 0 && InRange(x, f0) && select == Bits(r.stream, old(r.Pos()), 1)
    ensures FieldAt(r.stream, old(r.Pos()) + 1, predX, predY, f0, f1) == (x, y, r.Pos())
  {
    hide Seen, InWindow, DeltaAt, Near, Bits, Window, Before, InRange, Bound;
    r.NeedBits();
    select := TakeBits(r, 1);
    x := WholeComponent(r, predX, f0);
    r.NeedBits();
    RoomForAll(r.stream, r.Pos(), f1, r.bits);
    var delta := GetMotionDelta(r, f1);
    r.ValidIsSynced();
    y := predY / 2 + delta;
  }

  // A component whose bits are all there.
  method WholeComponent(r: BitReader, pred: int, f: nat) returns (v: int)
    requires r.Valid() && r.Pos() >= 0 && r.bits <= 5 && r.bits + f <= 9 && f <= 8
    modifies r
    ensures r.Valid() && r.Pos() >= 0 && InRange(v, f) && Used(old(r.bits), r.bits, f)
    ensures (v, r.Pos()) == ComponentAt(r.stream, old(r.Pos()), pred, f)
  {
    hide InWindow, ComponentAt, Bits, Window, Before, InRange;
    RoomForAll(r.stream, r.Pos(), f, r.bits);
    v := Component(r, pred, f);
    r.ValidIsSynced();
  }

  // motion_t, for one direction: its f_codes, less one, and its predictors.
  class Motion {
    const f0: nat
    const f1: nat
    var pmv00: int
    var pmv01: int
    var pmv10: int
    var pmv11: int

    // Any f_code from 1 to 15.
    predicate Valid()
      reads this
    {
      f0 <= 14 && f1 <= 14
    }

    // The predictors are in the range that the f_codes give.
    predicate Bounded()
      reads this
    {
      InRange(pmv00, f0) && InRange(pmv10, f0) && InRange(pmv01, f1) && InRange(pmv11, f1)
    }

    constructor (f0: nat, f1: nat)
      requires f0 <= 14 && f1 <= 14
      ensures Valid() && Bounded() && this.f0 == f0 && this.f1 == f1
      ensures pmv00 == 0 && pmv01 == 0 && pmv10 == 0 && pmv11 == 0
    {
      ZeroInRange(f0);
      ZeroInRange(f1);
      this.f0, this.f1 := f0, f1;
      pmv00, pmv01, pmv10, pmv11 := 0, 0, 0, 0;
    }

    // slice_init, motion_zero and intra macroblocks
    method Reset()
      modifies this
      ensures Bounded() && pmv00 == 0 && pmv01 == 0 && pmv10 == 0 && pmv11 == 0
    {
      ZeroInRange(f0);
      ZeroInRange(f1);
      pmv00, pmv01, pmv10, pmv11 := 0, 0, 0, 0;
    }

    // One vector for the macroblock: motion_fr_frame, and motion_fi_field with
    // its field selection. Whatever the predictors were, they are in range then.
    // A component is what is coded if and only if the window has its bits or they
    // are zero, and always with f_codes up to 9.
    method OneVector(r: BitReader, skip: nat) returns (select: nat, ghost q: nat)
      requires Valid() && r.Valid() && r.Pos() >= 0 && skip <= 1
      modifies this, r
      ensures r.Synced() && r.bits <= 27 && select == Bits(r.stream, old(r.Pos()), skip)
      ensures Bounded() && pmv10 == pmv00 && pmv11 == pmv01
      ensures var c := old(r.Pos()) + skip;
        && q == ComponentAt(r.stream, c, old(pmv00), f0).1 && r.Pos() == ComponentAt(r.stream, q, old(pmv01), f1).1
        && (pmv00 == ComponentAt(r.stream, c, old(pmv00), f0).0 <==> Seen(r.stream, c, f0, old(r.FedEnd())))
        && (pmv01 == ComponentAt(r.stream, q, old(pmv01), f1).0
            <==> Seen(r.stream, q, f1, SecondEnd(r.stream, c, q, old(r.FedEnd()))))
      ensures f0 <= 8 && f1 <= 8 ==>
        && r.Valid() && r.bits <= 15
        && VectorAt(r.stream, old(r.Pos()) + skip, old(pmv00), old(pmv01), f0, f1) == (pmv00, pmv01, r.Pos())
    {
      hide Seen, ComponentAt, SecondEnd, Bits, Window, Before, InRange;
      var x, y;
      select, x, y, q := ReadVector(r, skip, pmv00, pmv01, f0, f1);
      if f0 <= 8 && f1 <= 8 {
        StandardFeeds(r.stream, old(r.Pos()) + skip, q, pmv00, f0, f1, old(r.FedEnd()));
        r.ValidIsSynced();
      }
      pmv10, pmv00 := x, x;
      pmv11, pmv01 := y, y;
    }

    // motion_fr_conceal and motion_fi_conceal, with their marker bit
    method Conceal(r: BitReader, skip: nat) returns (ghost q: nat)
      requires Valid() && r.Valid() && r.Pos() >= 0 && skip <= 1
      modifies this, r
      ensures r.Synced() && r.bits <= 28 && Bounded() && pmv10 == pmv00 && pmv11 == pmv01
      ensures var c := old(r.Pos()) + skip;
        && q == ComponentAt(r.stream, c, old(pmv00), f0).1 && r.Pos() == ComponentAt(r.stream, q, old(pmv01), f1).1 + 1
        && (pmv00 == ComponentAt(r.stream, c, old(pmv00), f0).0 <==> Seen(r.stream, c, f0, old(r.FedEnd())))
        && (pmv01 == ComponentAt(r.stream, q, old(pmv01), f1).0
            <==> Seen(r.stream, q, f1, SecondEnd(r.stream, c, q, old(r.FedEnd()))))
      ensures f0 <= 8 && f1 <= 8 ==>
        && r.Valid()
        && VectorAt(r.stream, old(r.Pos()) + skip, old(pmv00), old(pmv01), f0, f1) == (pmv00, pmv01, r.Pos() - 1)
    {
      hide Seen, ComponentAt, SecondEnd, Bits, Window, Before, InRange, VectorAt;
      var select;
      select, q := OneVector(r, skip);
      r.Drop(1);
      r.ValidIsSynced();
    }

    // motion_fi_16x8: a field selection and a vector for each half.
    method TwoVectors(r: BitReader) returns (select0: nat, select1: nat, ghost mid: nat)
      requires f0 <= 8 && f1 <= 8 && r.Valid() && r.Pos() >= 0
      modifies this, r
      ensures Bounded() && r.Valid() && r.Pos() >= 0
      ensures VectorAt(r.stream, old(r.Pos()) + 1, old(pmv00), old(pmv01), f0, f1) == (pmv00, pmv01, mid)
      ensures VectorAt(r.stream, mid + 1, old(pmv10), old(pmv11), f0, f1) == (pmv10, pmv11, r.Pos())
      ensures select0 == Bits(r.stream, old(r.Pos()), 1) && select1 == Bits(r.stream, mid, 1)
    {
      hide VectorAt, Bits, InRange;
      var x0, y0, x1, y1;
      select0, x0, y0, select1, x1, y1, mid := ReadPair(r, pmv00, pmv01, pmv10, pmv11, f0, f1);
      pmv00, pmv01, pmv10, pmv11 := x0, y0, x1, y1;
    }

    // motion_fr_field: a field selection and a vector for each field. The
    // vertical predictors are in lines of the frame, the vectors in lines of a
    // field, and bound_motion_vector is not called for them: a vector is that of
    // section 7.6.3.1 if and only if it is in range.
    method FieldVectors(r: BitReader) returns (select0: nat, y0: int, select1: nat, y1: int, ghost mid: nat)
      requires f0 <= 8 && f1 <= 8 && r.Valid() && r.Pos() >= 0
      modifies this, r
      ensures r.Valid() && r.Pos() >= 0 && InRange(pmv00, f0)
      ensures InRange(pmv10, f0) && pmv01 == 2 * y0 && pmv11 == 2 * y1
      ensures FieldAt(r.stream, old(r.Pos()) + 1, old(pmv00), old(pmv01), f0, f1) == (pmv00, y0, mid)
      ensures FieldAt(r.stream, mid + 1, old(pmv10), old(pmv11), f0, f1) == (pmv10, y1, r.Pos())
      ensures select0 == Bits(r.stream, old(r.Pos()), 1) && select1 == Bits(r.stream, mid, 1)
      ensures (y0 == Corrected(y0, f1) <==> InRange(y0, f1)) && (y1 == Corrected(y1, f1) <==> InRange(y1, f1))
    {
      NotCorrected(f1);
      hide FieldAt, Bits, InRange, Corrected;
      var x0, x1;
      select0, x0, y0 := ReadField(r, pmv00, pmv01, f0, f1);
      mid := r.Pos();
      pmv00, pmv01 := x0, 2 * y0;
      select1, x1, y1 := ReadField(r, pmv10, pmv11, f0, f1);
      pmv10, pmv11 := x1, 2 * y1;
    }

    // motion_fi_dmv: a vector and the two differences of dual prime, of which
    // the second, like the vertical component, is read without a refill. The
    // window is that of the refill before the first. What is read is what is
    // coded if and only if the bits of the codes that come after the end of that
    // window are zero, or the code word is long and brings a refill.
    method DualPrime(r: BitReader) returns (dmvX: int, dmvY: int)
      requires f0 <= 8 && f1 <= 8 && r.Valid() && r.Pos() >= 0
      modifies this, r
      ensures r.Synced() && r.bits <= 19 && (r.bits <= 16 ==> r.Valid())
      ensures Bounded() && pmv10 == pmv00 && pmv11 == pmv01
      ensures var (x, p) := ComponentAt(r.stream, old(r.Pos()), old(pmv00), f0);
        var (dx, p') := DmvAt(r.stream, p);
        var (d, dy, next) := DualAt(r.stream, p', f1);
        && pmv00 == x && dmvX == dx
        && ((pmv01, dmvY, r.Pos()) == (Bound(old(pmv01) + d, f1), dy, next) <==> Fed(r.stream, p', f1, WindowEnd(p)))
    {
      hide DualAt, Fed, Bits, InRange, Bound;
      var x, delta;
      ghost var p';
      x, dmvX, delta, dmvY, p' := ReadDual(r, pmv00, f0, f1);
      DualTells(r.stream, p', pmv01, delta, f1, WindowEnd(ComponentAt(r.stream, old(r.Pos()), old(pmv00), f0).1));
      var y := Bound(pmv01 + delta, f1);
      pmv10, pmv00 := x, x;
      pmv11, pmv01 := y, y;
    }

    // motion_fr_dmv: the same for a frame picture, with a vertical component as
    // in motion_fr_field.
    method FrameDual(r: BitReader) returns (y: int, dmvX: int, dmvY: int)
      requires f0 <= 8 && f1 <= 8 && r.Valid() && r.Pos() >= 0
      modifies this, r
      ensures r.Synced() && r.bits <= 19 && (r.bits <= 16 ==> r.Valid())
      ensures InRange(pmv00, f0) && pmv10 == pmv00 && pmv11 == pmv01 == 2 * y
      ensures var (x, p) := ComponentAt(r.stream, old(r.Pos()), old(pmv00), f0);
        var (dx, p') := DmvAt(r.stream, p);
        var (d, dy, next) := DualAt(r.stream, p', f1);
        && pmv00 == x && dmvX == dx
        && ((y, dmvY, r.Pos()) == (old(pmv01) / 2 + d, dy, next) <==> Fed(r.stream, p', f1, WindowEnd(p)))
    {
      hide DualAt, Fed, Bits, InRange, Bound;
      var x, delta;
      ghost var p';
      x, dmvX, delta, dmvY, p' := ReadDual(r, pmv00, f0, f1);
      y := pmv01 / 2 + delta;
      pmv10, pmv00 := x, x;
      pmv11, pmv01 := 2 * y, 2 * y;
    }
  }

  lemma NotCorrected(f: nat)
    ensures forall y :: y == Corrected(y, f) <==> InRange(y, f)
  {
  }

  method ReadDual(r: BitReader, predX: int, f0: nat, f1: nat)
    returns (x: int, dmvX: int, delta: int, dmvY: int, ghost p': nat)
    requires r.Valid() && r.Pos() >= 0 && f0 <= 8 && f1 <= 8
    modifies r
    ensures r.Synced() && r.bits <= 19 && (r.bits <= 16 ==> r.Valid()) && InRange(x, f0)
    ensures var (c, p) := ComponentAt(r.stream, old(r.Pos()), predX, f0);
      && x == c && (dmvX, p') == DmvAt(r.stream, p) && Near(r.stream, p', f1, delta)
      && ((delta, dmvY, r.Pos()) == DualAt(r.stream, p', f1) <==> Fed(r.stream, p', f1, WindowEnd(p)))
  {
    hide DualAt, Fed, Bits, Window, Before, InRange, ComponentAt, Near;
    r.NeedBits();
    x := WholeComponent(r, predX, f0);
    r.NeedBits();
    ghost var p := r.Pos();
    dmvX := FirstDmv(r);
    p' := r.Pos();
    delta, dmvY := Vertical(r, f1, p);
  }

  // A difference and a dmvector after it.
  function DualAt(s: seq<Bit>, p: nat, f: nat): (int, int, nat)
  {
    var (d, q) := DeltaAt(s, p, f);
    var (dy, next) := DmvAt(s, q);
    (d, dy, next)
  }

  predicate Fed(s: seq<Bit>, p: nat, f: nat, end: nat)
  {
    Bits(s, p, 6) < 3 || ZeroBetween(s, end, DualAt(s, p, f).2)
  }

  method FirstDmv(r: BitReader) returns (dmv: int)
    requires r.Valid() && r.Pos() >= 0 && -15 <= r.bits <= 0
    modifies r
    ensures r.Valid() && r.Pos() >= 0 && r.bits <= 2 && 8 * r.ptr == WindowEnd(old(r.Pos()))
    ensures (dmv, r.Pos()) == DmvAt(r.stream, old(r.Pos()))
  {
    hide Bits, Window, Before, DmvAt;
    r.ValidIsSynced();
    EndIs(r.Pos(), 8 * r.ptr);
    SeenDmv(r.stream, 8 * r.ptr, r.Pos());
    DmvLength(r.stream, r.Pos());
    dmv := GetDmv(r);
    r.ValidIsSynced();
  }

  method Vertical(r: BitReader, f: nat, ghost p: nat) returns (delta: int, dmv: int)
    requires r.Valid() && r.Pos() >= 0 && r.bits <= 2 && 8 * r.ptr == WindowEnd(p) && f <= 8
    modifies r
    ensures r.Synced() && r.bits <= 19 && (r.bits <= 16 ==> r.Valid()) && Near(r.stream, old(r.Pos()), f, delta)
    ensures (delta, dmv, r.Pos()) == DualAt(r.stream, old(r.Pos()), f) <==> Fed(r.stream, old(r.Pos()), f, WindowEnd(p))
  {
    hide DeltaAt, Near, Bits, Window, Before, DmvAt;
    ghost var p' := r.Pos();
    delta := GetMotionDelta(r, f);
    ghost var q := r.Pos();
    SeenDmv(r.stream, 8 * r.ptr, q);
    DmvLength(r.stream, q);
    dmv := GetDmv(r);
    r.ValidIsSynced();
    BothSeen(r.stream, p', q, f, WindowEnd(p), 8 * r.ptr, DmvAt(r.stream, q).1);
  }

  // The largest difference has a long code word, which is always fed here.
  lemma DualTells(s: seq<Bit>, p: nat, pred: int, delta: int, f: nat, end: nat)
    requires f <= 8 && Near(s, p, f, delta)
    ensures InRange(Bound(pred + delta, f), f)
    ensures var d := DualAt(s, p, f).0;
      Fed(s, p, f, end) || (Bound(pred + delta, f) == Bound(pred + d, f) ==> delta == d)
  {
    hide Bound, InRange, Near, Bits;
    BoundTells(s, p, pred, delta, f);
  }

  lemma BothSeen(s: seq<Bit>, p: nat, q: nat, f: nat, end: nat, end': nat, next: nat)
    requires q == DeltaAt(s, p, f).1 && p + 14 <= end && q <= next
    requires if Bits(s, p, 6) < 3 then next <= end' else end' == end
    ensures InWindow(s, p, f, end) && ZeroBetween(s, if q < end' then end' else q, next)
       <==> Bits(s, p, 6) < 3 || ZeroBetween(s, end, next)
  {
    CodeLength(s, p, f);
  }

  // With the f_codes that levels of ISO/IEC 13818-2 allow, the window always has
  // the bits.
  lemma LevelsFeed(s: seq<Bit>, p: nat, f: nat)
    requires f <= 5
    ensures Fed(s, DmvAt(s, p).1, f, WindowEnd(p))
  {
    CodeLength(s, DmvAt(s, p).1, f);
  }

  // ---- What is written is read back ----

  // Table B.11
  function DmvBits(dmv: int): seq<Bit>
    requires -1 <= dmv <= 1
  {
    if dmv == 0 then [0] else if dmv == 1 then [1, 0] else [1, 1]
  }

  lemma DmvRoundTrip(s: seq<Bit>, p: nat, dmv: int)
    requires -1 <= dmv <= 1 && HasAt(s, p, DmvBits(dmv))
    ensures DmvAt(s, p) == (dmv, p + |DmvBits(dmv)|)
  {
    var b := DmvBits(dmv);
    assert b == [b[0]] + b[1..];
    HasAtSplit(s, p, [b[0]], b[1..]);
    BitRead(s, p, b[0]);
    if dmv != 0 { BitRead(s, p + 1, b[1]); }
    TwoBits(s, p);
  }

  // The bits of a component: its difference from the predictor, corrected.
  function Coded(v: int, pred: int, f: nat): seq<Bit>
    requires InRange(v, f) && InRange(pred, f)
  {
    Written(Corrected(v - pred, f), f)
  }

  lemma ComponentRoundTrip(s: seq<Bit>, p: nat, v: int, pred: int, f: nat)
    requires f <= 14 && InRange(v, f) && InRange(pred, f) && HasAt(s, p, Coded(v, pred, f))
    ensures ComponentAt(s, p, pred, f) == (v, p + |Coded(v, pred, f)|)
  {
    hide Written, DeltaAt, Bound, Pow2, HasAt;
    var d := Corrected(v - pred, f);
    DeltaRoundTrip(s, p, d, f);
    BoundCongruent(pred + d, f, if d == v - pred then 0 else if d > v - pred then 1 else -1);
  }

  lemma VectorRoundTrip(s: seq<Bit>, p: nat, x: int, y: int, predX: int, predY: int, f0: nat, f1: nat)
    requires f0 <= 14 && f1 <= 14 && InRange(x, f0) && InRange(predX, f0) && InRange(y, f1) && InRange(predY, f1)
    requires HasAt(s, p, Coded(x, predX, f0) + Coded(y, predY, f1))
    ensures VectorAt(s, p, predX, predY, f0, f1) == (x, y, p + |Coded(x, predX, f0)| + |Coded(y, predY, f1)|)
  {
    hide ComponentAt, Coded, InRange, HasAt;
    HasAtSplit(s, p, Coded(x, predX, f0), Coded(y, predY, f1));
    ComponentRoundTrip(s, p, x, predX, f0);
    ComponentRoundTrip(s, p + |Coded(x, predX, f0)|, y, predY, f1);
  }

  // In a frame picture the vertical component of a field is predicted by half of
  // that of the frame.
  lemma FieldRoundTrip(s: seq<Bit>, p: nat, x: int, y: int, predX: int, predY: int, f0: nat, f1: nat)
    requires f0 <= 14 && InRange(x, f0) && InRange(predX, f0)
    requires -16 * Pow2(f1) <= y - predY / 2 <= 16 * Pow2(f1)
    requires HasAt(s, p, Coded(x, predX, f0) + Written(y - predY / 2, f1))
    ensures FieldAt(s, p, predX, predY, f0, f1) == (x, y, p + |Coded(x, predX, f0)| + |Written(y - predY / 2, f1)|)
  {
    hide ComponentAt, DeltaAt, Written, Coded, InRange, HasAt;
    HasAtSplit(s, p, Coded(x, predX, f0), Written(y - predY / 2, f1));
    ComponentRoundTrip(s, p, x, predX, f0);
    DeltaRoundTrip(s, p + |Coded(x, predX, f0)|, y - predY / 2, f1);
  }

  // The two dmvectors come after the components.
  lemma DualRoundTrip(s: seq<Bit>, p: nat, x: int, predX: int, f0: nat, dx: int, d: int, f1: nat, dy: int)
    requires f0 <= 14 && InRange(x, f0) && InRange(predX, f0) && -1 <= dx <= 1 && -1 <= dy <= 1
    requires -16 * Pow2(f1) <= d <= 16 * Pow2(f1)
    requires HasAt(s, p, Coded(x, predX, f0) + (DmvBits(dx) + (Written(d, f1) + DmvBits(dy))))
    ensures var q := p + |Coded(x, predX, f0)|;
      var p' := q + |DmvBits(dx)|;
      && ComponentAt(s, p, predX, f0) == (x, q) && DmvAt(s, q) == (dx, p')
      && DualAt(s, p', f1) == (d, dy, p' + |Written(d, f1)| + |DmvBits(dy)|)
  {
    hide ComponentAt, DeltaAt, DmvAt, Written, Coded, DmvBits, InRange, HasAt;
    var (c, w) := (Coded(x, predX, f0), Written(d, f1));
    var q := p + |c|;
    var p' := q + |DmvBits(dx)|;
    HasAtSplit(s, p, c, DmvBits(dx) + (w + DmvBits(dy)));
    HasAtSplit(s, q, DmvBits(dx), w + DmvBits(dy));
    HasAtSplit(s, p', w, DmvBits(dy));
    ComponentRoundTrip(s, p, x, predX, f0);
    DmvRoundTrip(s, q, dx);
    DeltaRoundTrip(s, p', d, f1);
    DmvRoundTrip(s, p' + |w|, dy);
  }

  // 0a 00 is a horizontal difference of sixteen bits with an f_code of 9; 83 00
  // is a dmvector of two, a code word of six, a sign and seven of the eight bits
  // of residual. The eighth is in 80, and is set.
  predicate IsStarving(data: seq<Byte>)
  {
    |data| == 5 && data[0] == 0x0a && data[1] == 0 && data[2] == 0x83 && data[3] == 0 && data[4] == 0x80
  }

  // Two bits and six more of sixteen.
  lemma TwoAndSix(s: seq<Bit>, p: nat, w: nat)
    requires Bits(s, p, 16) == w
    ensures Bits(s, p, 2) == w / 16384 && Bits(s, p + 2, 6) == w / 256 % 64
  {
    Pow2Values();
    BitsPrefix(s, p, 16, 2);
    BitsPrefix(s, p, 16, 8);
    BitsSplit(s, p, 2, 6);
    DivUnique(Bits(s, p, 8), 64, Bits(s, p, 2), Bits(s, p + 2, 6));
  }

  lemma FirstBitOfByte(data: seq<Byte>, i: nat)
    ensures BitAt(StreamOf(data), 8 * i) == ByteAt(data, i) / 128
  {
    var (s, p) := (StreamOf(data), 8 * i);
    BitsOfByte(data, i);
    BitsPrefix(s, p, 8, 1);
    assert Bits(s, p, 1) == 2 * Bits(s, p, 0) + BitAt(s, p);
    assert Pow2(7) == 128 by { Pow2Values(); }
  }

  lemma StarvingBits(data: seq<Byte>, s: seq<Bit>)
    requires IsStarving(data) && s == StreamOf(data)
    ensures Bits(s, 0, 16) == 0x0a00 && Bits(s, 16, 2) == 2 && Bits(s, 18, 6) == 3 && BitAt(s, 32) == 1
  {
    BitsWord(data, 0);
    BitsWord(data, 2);
    TwoAndSix(s, 16, 0x8300);
    FirstBitOfByte(data, 4);
  }

  lemma StarvingParse(s: seq<Bit>)
    requires Bits(s, 0, 16) == 0x0a00 && Bits(s, 16, 2) == 2 && Bits(s, 18, 6) == 3
    ensures ComponentAt(s, 0, 0, 8).1 == 16 && DmvAt(s, 16).1 == 18 && DualAt(s, 18, 8).2 >= 33
  {
    assert Lookup(0x0a00) == MvTab(4, 7);
    StarvingVertical(s);
  }

  lemma StarvingVertical(s: seq<Bit>)
    requires Bits(s, 18, 6) == 3
    ensures DeltaAt(s, 18, 8).1 == 33
  {
    Peeks(s, 18);
    assert Bits(s, 18, 16) / 4096 == 0;
  }

  // The decoder on these bytes reads something else than what is coded.
  method StarvedDualPrime(data: seq<Byte>) returns (m: Motion, dmvY: int, pos: int)
    requires IsStarving(data)
    ensures var (d, dy, next) := DualAt(StreamOf(data), 18, 8); (m.pmv01, dmvY, pos) != (Bound(0 + d, 8), dy, next)
  {
    StarvingBits(data, StreamOf(data));
    StarvingParse(StreamOf(data));
    var r := new BitReader(data);
    m := new Motion(8, 8);
    var dmvX;
    dmvX, dmvY := m.DualPrime(r);
    pos := r.Pos();
  }

  // The same with a code word of six bits, a sign and nine of ten bits of
  // residual, for a vertical f_code of 11: the tenth is in 80.
  predicate IsStarvingVector(data: seq<Byte>)
  {
    |data| == 5 && data[0] == 0x0a && data[1] == 0 && data[2] == 0x0c && data[3] == 0 && data[4] == 0x80
  }

  lemma StarvingVectorBits(data: seq<Byte>, s: seq<Bit>)
    requires IsStarvingVector(data) && s == StreamOf(data)
    ensures Bits(s, 0, 16) == 0x0a00 && Bits(s, 16, 16) == 0x0c00 && BitAt(s, 32) == 1
  {
    BitsWord(data, 0);
    BitsWord(data, 2);
    FirstBitOfByte(data, 4);
  }

  lemma StarvingVectorParse(s: seq<Bit>)
    requires Bits(s, 0, 16) == 0x0a00 && Bits(s, 16, 16) == 0x0c00 && BitAt(s, 32) == 1
    ensures ComponentAt(s, 0, 0, 8).1 == 16 && !Seen(s, 16, 10, SecondEnd(s, 0, 16, 32))
  {
    Peeks(s, 0);
    Peeks(s, 16);
    assert Lookup(0x0a00) == MvTab(4, 7) && Lookup(0x0c00) == MvTab(3, 6);
    assert DeltaAt(s, 16, 10).1 == 33;
  }

  // A vertical f_code that the standard does not allow.
  method StarvedVector(data: seq<Byte>) returns (m: Motion)
    requires IsStarvingVector(data)
    ensures ComponentAt(StreamOf(data), 0, 0, 8).1 == 16 && m.pmv01 != ComponentAt(StreamOf(data), 16, 0, 10).0
  {
    StarvingVectorBits(data, StreamOf(data));
    StarvingVectorParse(StreamOf(data));
    hide Seen, SecondEnd, ComponentAt;
    var r := new BitReader(data);
    m := new Motion(8, 10);
    var select, q := m.OneVector(r, 0);
  }

  lemma ScaledDelta(delta: int, f: nat, shift: nat)
    requires -16 * Pow2(f) <= delta <= 16 * Pow2(f)
    ensures -16 * Pow2(f + shift) <= delta * Pow2(shift) <= 16 * Pow2(f + shift)
  {
    var (q, h) := (Pow2(shift), 16 * Pow2(f));
    Pow2Add(f, shift);
    MulAssociates(16, Pow2(f), q);
    ScaledRange(delta, h, q);
  }

  lemma ScaledRange(delta: int, h: nat, q: nat)
    requires -(h as int) <= delta <= h
    ensures -(h * q) as int <= delta * q <= h * q
  {
    assert (h - delta) * q >= 0 && (h + delta) * q >= 0;
  }

  method AddScaled(pred: int, delta: int, f: nat, shift: nat) returns (v: int)
    requires f <= 8 && shift <= 1 && InRange(pred, f + shift) && -16 * Pow2(f) <= delta <= 16 * Pow2(f)
    ensures v == Corrected(pred + delta * Pow2(shift), f + shift) && InRange(v, f + shift)
  {
    var scaled := delta * Pow2(shift);
    ScaledDelta(delta, f, shift);
    BoundIsCorrected(pred, scaled, f + shift);
    v := Bound(pred + scaled, f + shift);
  }

  // motion_t as MPEG-1 uses it: one f_code, less one, for both components, and a
  // shift of one for vectors in full pixels.
  class Mpeg1Motion {
    const f: nat
    const shift: nat
    var pmv00: int
    var pmv01: int

    predicate Valid()
      reads this
    {
      f <= 8 && shift <= 1 && InRange(pmv00, f + shift) && InRange(pmv01, f + shift)
    }

    constructor (f: nat, shift: nat)
      requires f <= 8 && shift <= 1
      ensures Valid() && this.f == f && this.shift == shift
    {
      ZeroInRange(f + shift);
      this.f, this.shift := f, shift;
      pmv00, pmv01 := 0, 0;
    }

    function ComponentAt(s: seq<Bit>, p: nat, pred: int): (int, nat)
    {
      var (delta, next) := DeltaAt(s, p, f);
      (Corrected(pred + delta * Pow2(shift), f + shift), next)
    }

    method ReadComponent(r: BitReader, pred: int) returns (v: int)
      requires r.Valid() && r.Pos() >= 0 && f <= 8 && shift <= 1 && InRange(pred, f + shift)
      modifies r
      ensures r.Valid() && r.Pos() >= 0
      ensures (v, r.Pos()) == ComponentAt(r.stream, old(r.Pos()), pred) && InRange(v, f + shift)
    {
      hide DeltaAt, Corrected, InWindow, Bits, Window;
      r.NeedBits();
      DeltaBound(r.stream, r.Pos(), f);
      RoomForAll(r.stream, r.Pos(), f, r.bits);
      var delta := GetMotionDelta(r, f);
      r.ValidIsSynced();
      v := AddScaled(pred, delta, f, shift);
    }

    // motion_mp1
    method OneVector(r: BitReader)
      requires Valid() && r.Valid() && r.Pos() >= 0
      modifies this, r
      ensures Valid() && r.Valid() && r.Pos() >= 0
      ensures var (x, p) := ComponentAt(r.stream, old(r.Pos()), old(pmv00));
        (pmv00, (pmv01, r.Pos())) == (x, ComponentAt(r.stream, p, old(pmv01)))
    {
      var x := ReadComponent(r, pmv00);
      pmv00 := x;
      var y := ReadComponent(r, pmv01);
      pmv01 := y;
    }
  }

  // A component of a vector in half pixels, or of one in full pixels that is as
  // even as its predictor, is read back.
  lemma Mpeg1RoundTrip(m: Mpeg1Motion, s: seq<Bit>, p: nat, v: int, pred: int, delta: int)
    requires m.f <= 8 && m.shift <= 1 && InRange(v, m.f + m.shift) && InRange(pred, m.f + m.shift)
    requires (if m.shift == 1 then 2 * delta else delta) == Corrected(v - pred, m.f + m.shift)
    requires -16 * Pow2(m.f) <= delta <= 16 * Pow2(m.f) && HasAt(s, p, Written(delta, m.f))
    ensures m.ComponentAt(s, p, pred) == (v, p + |Written(delta, m.f)|)
  {
    hide Written, DeltaAt;
    DeltaRoundTrip(s, p, delta, m.f);
    assert Pow2(0) == 1 && Pow2(1) == 2 by { Pow2Values(); }
  }
}
