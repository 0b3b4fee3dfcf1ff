// macroblock_address_increment, as slice_init and mpeg2_slice of
// libmpeg2/slice.c read it: Table B.1 of ISO/IEC 13818-2, escapes, and the
// stuffing of MPEG-1.
module Increments {
  import opened Words
  import opened Wrappers
  import opened BitReader
  import opened BlockRoundTrip

  // mba: the increment less one.
  datatype MbaTab = MbaTab(mba: nat, len: nat)

  const ESCAPE := 8
  const STUFFING := 15

  // MBA_5, indexed by the first 5 bits less 2.
  function Mba5(i: nat): (e: MbaTab)
    requires i < 30
    ensures e.mba <= 6 && 1 <= e.len <= 5
  {
    if i < 2 then MbaTab(6 - i, 5) else if i < 6 then MbaTab(5 - i / 2, 4)
    else if i < 10 then MbaTab(2, 3) else if i < 14 then MbaTab(1, 3) else MbaTab(0, 1)
  }

  // MBA_11, indexed by the first 11 bits less 24.
  function Mba11(i: nat): (e: MbaTab)
    requires i < 104
    ensures 7 <= e.mba <= 32 && 7 <= e.len <= 11
  {
    if i < 12 then MbaTab(32 - i, 11) else if i < 24 then MbaTab(26 - i / 2, 10)
    else if i < 72 then MbaTab(17 - i / 8, 8) else if i < 88 then MbaTab(8, 7) else MbaTab(7, 7)
  }

  // What the next 11 bits say, unless they are not a code word.
  function Lookup(w: nat): (e: Option<MbaTab>)
    requires w < 2048
    ensures e.Some? ==> e.value.mba <= 32 && e.value.len <= 11
  {
    if w >= 128 then Some(Mba5(w / 64 - 2)) else if w >= 24 then Some(Mba11(w - 24)) else None
  }

  // The end of a slice, or an error, is where there is no code word.
  datatype Found = Increment(n: nat, next: nat) | NoCode

  // The increment that is coded at position p of the stream, less one, after
  // escapes that stand for n.
  function IncrementAt(s: seq<Bit>, p: nat, n: nat): (r: Found)
    decreases if p < |s| then |s| - p else 0
  {
    BitsAfterEnd(s, p, 11);
    assert Pow2(11) == 2048 by { Pow2Values(); }
    var w := Bits(s, p, 11);
    var e := Lookup(w);
    if e.Some? then Increment(n + e.value.mba, p + e.value.len)
    else if w == ESCAPE then IncrementAt(s, p + 11, n + 33)
    else if w == STUFFING then IncrementAt(s, p + 11, n)
    else NoCode
  }

  lemma Peeks(s: seq<Bit>, p: nat)
    ensures Bits(s, p, 11) < 2048 && Bits(s, p, 5) == Bits(s, p, 11) / 64
  {
    BitsPrefix(s, p, 11, 5);
    Pow2Values();
  }

  // The loop of mpeg2_slice, after a coded macroblock.
  method GetIncrement(r: BitReader) returns (found: bool, inc: nat)
    requires r.Valid() && r.Pos() >= 0
    modifies r
    ensures r.Valid() && r.Pos() >= 0
    ensures match IncrementAt(r.stream, old(r.Pos()), 0)
      case Increment(n, next) => found && inc == n && r.Pos() == next
      case NoCode => !found
  {
    hide Bits, Mba5, Mba11;
    found, inc := true, 0;
    ghost var p := r.Pos();
    r.NeedBits();
    while true
      invariant r.Valid() && r.bits <= 0 && r.Pos() >= 0
      invariant found && IncrementAt(r.stream, r.Pos(), inc) == IncrementAt(r.stream, p, 0)
      decreases if r.Pos() < |r.stream| then |r.stream| - r.Pos() else 0
    {
      Peeks(r.stream, r.Pos());
      BitsAfterEnd(r.stream, r.Pos(), 11);
      var w := r.UBits(11);
      if w >= 24 {
        var tab := if w >= 128 then Mba5(r.UBits(5) - 2) else Mba11(r.UBits(11) - 24);
        inc := inc + tab.mba;
        r.DumpBits(tab.len);
        return;
      }
      if w != ESCAPE && w != STUFFING {
        found := false;
        return;
      }
      if w == ESCAPE { inc := inc + 33; }
      r.DumpBits(11);
      r.NeedBits();
    }
  }

  // ---- The start of a slice ----

  // The window at p with k bits in it, of which the first is zero or has been
  // cleared.
  function Cleared(s: seq<Bit>, p: nat, k: nat): nat
    requires 1 <= k <= 32
  {
    Bits(s, p + 1, k - 1) * Pow2(32 - k)
  }

  // It is half of the window that starts with the next bit.
  lemma ClearedHalf(s: seq<Bit>, p: nat, k: nat)
    requires 1 <= k <= 32
    ensures Window(s, p + 1, k - 1) == 2 * Cleared(s, p, k) && Cleared(s, p, k) < TWO_31
  {
    assert Pow2(32 - (k - 1)) == 2 * Pow2(32 - k);
    MulAssociates(Bits(s, p + 1, k - 1), Pow2(32 - k), 2);
    WindowBound(s, p + 1, k - 1);
  }

  lemma FirstBitZero(s: seq<Bit>, p: nat, k: nat)
    requires 1 <= k <= 32 && Window(s, p, k) < TWO_31
    ensures Cleared(s, p, k) == Window(s, p, k) && BitAt(s, p) == 0
  {
    WindowSplit(s, p, k, 1);
    assert Pow2(31) == TWO_31 by { Pow2Values(); Pow2Add(15, 16); }
    assert Bits(s, p, 1) == 2 * Bits(s, p, 0) + BitAt(s, p);
    hide Bits, Pow2, BitAt;
    var b := Bits(s, p, 1);
    assert b == 1 ==> b * Pow2(31) == TWO_31;
  }

  // UBITS (bit_buf, n): what follows the first bit.
  lemma ClearedPeek(s: seq<Bit>, p: nat, k: nat, n: nat)
    requires 1 <= n <= k <= 32
    ensures Cleared(s, p, k) / Pow2(32 - n) == Bits(s, p + 1, n - 1)
  {
    ClearedHalf(s, p, k);
    WindowPeek(s, p + 1, k - 1, n - 1);
    assert Pow2(32 - (n - 1)) == 2 * Pow2(32 - n);
    DivTwice(Window(s, p + 1, k - 1), 2, Pow2(32 - n));
  }

  // The parts of the window that eleven more bits, and the others, take.
  lemma ClearedParts(s: seq<Bit>, p: nat, k: nat)
    requires 12 <= k <= 32
    ensures Cleared(s, p, k) == Bits(s, p + 1, 11) * 0x10_0000 + Bits(s, p + 12, k - 12) * Pow2(32 - k)
    ensures Bits(s, p + 12, k - 12) * Pow2(32 - k) < 0x10_0000
    ensures Cleared(s, p + 11, k - 11) == 2048 * (Bits(s, p + 12, k - 12) * Pow2(32 - k))
  {
    assert Pow2(20) == 0x10_0000 by { Pow2Add(10, 10); Pow2Values(); }
    assert Pow2(11) == 2048 by { Pow2Values(); }
    Pow2Add(k - 12, 32 - k);
    BitsSplit(s, p + 1, 11, k - 12);
    ScaledSum(Bits(s, p + 1, 11), Bits(s, p + 12, k - 12), Pow2(k - 12), Pow2(32 - k), Pow2(20));
    Pow2Add(32 - k, 11);
    MulAssociates(Bits(s, p + 12, k - 12), Pow2(32 - k), 2048);
  }

  // DUMPBITS (bit_buf, bits, 11) of an escape, whose last bit is zero, and after
  // bit_buf &= 0xfffff, which clears the last bit of stuffing.
  lemma ClearedDump(s: seq<Bit>, p: nat, k: nat)
    requires 12 <= k <= 32
    ensures Bits(s, p + 1, 11) % 2 == 0 ==> (Cleared(s, p, k) * 2048) % TWO_32 == Cleared(s, p + 11, k - 11)
    ensures ((Cleared(s, p, k) % 0x10_0000) * 2048) % TWO_32 == Cleared(s, p + 11, k - 11)
  {
    var (h, low) := (Bits(s, p + 1, 11), Bits(s, p + 12, k - 12) * Pow2(32 - k));
    ClearedParts(s, p, k);
    DivUnique(Cleared(s, p, k), 0x10_0000, h, low);
    DivUnique(low * 2048, TWO_32, 0, low * 2048);
    if h % 2 == 0 {
      DivUnique(Cleared(s, p, k) * 2048, TWO_32, h / 2, low * 2048);
    }
  }

  lemma RefillSum(h: nat, word: nat, k: nat)
    requires 1 <= k <= 16 && word < TWO_16
    ensures Or(h * Pow2(32 - k), (word * Pow2(16 - k)) % TWO_32) == (h * TWO_16 + word) * Pow2(16 - k)
  {
    hide Or;
    var a := Pow2(16 - k);
    assert Pow2(16) == TWO_16 by { Pow2Values(); }
    assert Pow2(32 - k) == TWO_16 * a by { Pow2Add(16, 16 - k); }
    Distribute(h, TWO_16, word, a);
    ScaledBound(word, TWO_16, a);
    LowWord(word * a, 32 - k);
    OrDisjoint(h, word * a, 32 - k);
  }

  // GETWORD into such a window.
  lemma ClearedRefill(s: seq<Bit>, p: nat, k: nat, word: nat)
    requires 1 <= k <= 16 && word == Bits(s, p + k, 16)
    ensures Or(Cleared(s, p, k), (word * Pow2(16 - k)) % TWO_32) == Cleared(s, p, k + 16)
  {
    assert Pow2(16) == TWO_16 by { Pow2Values(); }
    hide Bits, Pow2, Or;
    var (h, a) := (Bits(s, p + 1, k - 1), Bits(s, p + 1, k + 15));
    assert Cleared(s, p, k) == h * Pow2(32 - k) && Cleared(s, p, k + 16) == a * Pow2(16 - k);
    assert a == h * TWO_16 + word by { BitsSplit(s, p + 1, k - 1, 16); }
    hide Cleared;
    RefillSum(h, word, k);
  }

  // The reader with such a window.
  ghost predicate FirstCleared(r: BitReader)
    reads r
  {
    && -16 <= r.bits <= 15 && r.Pos() >= 0 && r.ptr >= 4 && r.ptr % 2 == 0 && r.stream == StreamOf(r.data)
    && r.buf == Cleared(r.stream, r.Pos(), 16 - r.bits)
  }

  // DUMPBITS (bit_buf, bits, 11)
  method DumpCode(r: BitReader, stuffing: bool)
    requires FirstCleared(r) && r.bits <= 0 && (!stuffing ==> Bits(r.stream, r.Pos() + 1, 11) % 2 == 0)
    modifies r
    ensures FirstCleared(r) && r.Pos() == old(r.Pos()) + 11
  {
    ClearedDump(r.stream, r.Pos(), 16 - r.bits);
    if stuffing { r.buf := r.buf % 0x10_0000; }
    r.buf := (r.buf * 2048) % TWO_32;
    r.bits := r.bits + 11;
  }

  // NEEDBITS
  method NeedCode(r: BitReader)
    requires FirstCleared(r)
    modifies r
    ensures FirstCleared(r) && r.bits <= 0 && r.Pos() == old(r.Pos())
  {
    if r.bits > 0 {
      ghost var p := r.Pos();
      var shift, word := r.bits, r.NextWord();
      NextWordBits(r);
      ClearedRefill(r.stream, p, 16 - shift, word);
      r.buf := Or(r.buf, (word * Pow2(shift)) % TWO_32);
      r.ptr := r.ptr + 2;
      r.bits := r.bits - 16;
      assert r.Pos() == p && 16 - r.bits == 16 - shift + 16;
    }
  }

  lemma NextWordBits(r: BitReader)
    requires r.stream == StreamOf(r.data)
    ensures r.NextWord() == Bits(r.stream, 8 * r.ptr, 16)
  {
    BitsWord(r.data, r.ptr);
  }

  // The last DUMPBITS: the code and the bit before it.
  method TakeCode(r: BitReader, len: nat)
    requires FirstCleared(r) && r.bits + len + 1 <= 16
    modifies r
    ensures r.Valid() && r.Pos() == old(r.Pos()) + len + 1
  {
    var k := 16 - r.bits;
    ClearedHalf(r.stream, r.Pos(), k);
    WindowDump(r.stream, r.Pos() + 1, k - 1, len);
    assert Pow2(len + 1) == 2 * Pow2(len);
    MulAssociates(r.buf, 2, Pow2(len));
    MulCommutes(r.buf, 2);
    r.buf := (r.buf * Pow2(len + 1)) % TWO_32;
    r.bits := r.bits + len + 1;
  }

  // The comparisons of bit_buf and the two look-ups.
  method PeekCode(r: BitReader) returns (tab: Option<MbaTab>, escape: bool, stuffing: bool)
    requires FirstCleared(r) && r.bits <= 0
    ensures var w := Bits(r.stream, r.Pos() + 1, 11);
      w < 2048 && tab == Lookup(w) && (tab.None? ==> escape == (w == ESCAPE) && stuffing == (w == STUFFING))
  {
    hide Bits, Mba5, Mba11, Cleared, Pow2;
    escape, stuffing := false, false;
    Peeks(r.stream, r.Pos() + 1);
    ClearedPeek(r.stream, r.Pos(), 16 - r.bits, 12);
    ClearedPeek(r.stream, r.Pos(), 16 - r.bits, 6);
    Shifts(r.buf);
    ghost var w := Bits(r.stream, r.Pos() + 1, 11);
    assert r.buf / Pow2(20) == w && r.buf / Pow2(26) == w / 64;
    if r.buf >= 0x0800_0000 {
      tab := Some(Mba5(r.buf / Pow2(26) - 2));
    } else if r.buf >= 0x0180_0000 {
      tab := Some(Mba11(r.buf / Pow2(20) - 24));
    } else {
      tab := None;
      escape, stuffing := r.buf / Pow2(20) == ESCAPE, r.buf / Pow2(20) == STUFFING;
    }
  }

  lemma Shifts(buf: nat)
    ensures buf / Pow2(20) == buf / 0x10_0000 && buf / Pow2(26) == buf / 0x400_0000
    ensures buf >= 0x0800_0000 <==> buf / 0x10_0000 >= 128
    ensures buf >= 0x0180_0000 <==> buf / 0x10_0000 >= 24
  {
    Pow2Values();
    Pow2Add(10, 10);
    Pow2Add(13, 13);
  }

  // The loop of slice_init. The bit before the code is still in the window, and
  // it is zero: the last extra_bit_slice, at which the loop before this one
  // ends, the last bit of an escape, or the last bit of stuffing, cleared.
  method GetFirstIncrement(r: BitReader) returns (found: bool, inc: nat)
    requires r.Valid() && r.Pos() >= 0 && r.bits <= 0 && r.buf < TWO_31
    modifies r
    ensures match IncrementAt(r.stream, old(r.Pos()) + 1, 0)
      case Increment(n, next) => found && inc == n && r.Valid() && r.Pos() == next
      case NoCode => !found
  {
    hide Cleared, Bits, Mba5, Mba11;
    found, inc := true, 0;
    ghost var p := r.Pos();
    FirstBitZero(r.stream, p, 16 - r.bits);
    while true
      invariant FirstCleared(r) && r.bits <= 0
      invariant found && IncrementAt(r.stream, r.Pos() + 1, inc) == IncrementAt(r.stream, p + 1, 0)
      decreases if r.Pos() + 1 < |r.stream| then |r.stream| - r.Pos() else 0
    {
      BitsAfterEnd(r.stream, r.Pos() + 1, 11);
      var tab, escape, stuffing := PeekCode(r);
      if tab.Some? {
        inc := inc + tab.value.mba;
        TakeCode(r, tab.value.len);
        return;
      }
      if !escape && !stuffing {
        found := false;
        return;
      }
      if escape { inc := inc + 33; }
      DumpCode(r, stuffing);
      NeedCode(r);
    }
  }

  // ---- Round trip ----

  // Table B.1: the code word of an increment, less one, of at most 33.
  function CodeWord(n: nat): (c: (nat, nat))
    requires n <= 32
    ensures 1 <= c.1 <= 11
  {
    if n == 0 then (1, 1) else if n <= 2 then (4 - n, 3) else if n <= 4 then (6 - n, 4) else if n <= 6 then (8 - n, 5)
    else if n <= 8 then (14 - n, 7) else if n <= 14 then (20 - n, 8) else if n <= 20 then (38 - n, 10) else (56 - n, 11)
  }

  // macroblock_escape and macroblock_stuffing
  function SpecialCode(escape: bool): seq<Bit>
  {
    if escape then [0, 0, 0, 0, 0, 0, 0, 1, 0, 0, 0] else [0, 0, 0, 0, 0, 0, 0, 1, 1, 1, 1]
  }

  // Escapes and stuffing, in any order, and a code word.
  function EncodeAfter(special: seq<bool>, n: nat): seq<Bit>
    requires n <= 32
  {
    if special == [] then Digits(CodeWord(n).0, CodeWord(n).1)
    else SpecialCode(special[0]) + EncodeAfter(special[1..], n)
  }

  // An increment of any size, with an escape for every 33.
  function Encode(n: nat): seq<Bit>
  {
    if n <= 32 then Digits(CodeWord(n).0, CodeWord(n).1) else SpecialCode(true) + Encode(n - 33)
  }

  lemma CodeWordFits(n: nat)
    requires n <= 32
    ensures CodeWord(n).0 < Pow2(CodeWord(n).1)
  {
    Pow2Values();
  }

  lemma CodeWordLookup(n: nat, w: nat, rest: nat)
    requires n <= 32 && rest < Pow2(11 - CodeWord(n).1) && w == CodeWord(n).0 * Pow2(11 - CodeWord(n).1) + rest
    ensures w < 2048 && Lookup(w) == Some(MbaTab(n, CodeWord(n).1))
  {
    Pow2Values();
    hide Pow2;
    if n <= 2 { } else if n <= 6 { } else if n <= 8 { } else if n <= 14 { } else if n <= 20 { } else { }
  }

  lemma CodeRead(s: seq<Bit>, p: nat, n: nat, k: nat)
    requires n <= 32 && HasAt(s, p, Digits(CodeWord(n).0, CodeWord(n).1))
    ensures IncrementAt(s, p, k) == Increment(k + n, p + CodeWord(n).1)
  {
    var (v, len) := CodeWord(n);
    CodeWordFits(n);
    ReadDigits(s, p, v, len);
    BitsSplit(s, p, len, 11 - len);
    CodeWordLookup(n, Bits(s, p, 11), Bits(s, p + len, 11 - len));
  }

  lemma SpecialDigits(escape: bool)
    ensures Digits(if escape then 8 else 15, 11) == SpecialCode(escape)
  {
    DigitsOfOne();
    if escape {
      assert Digits(2, 9) == Digits(1, 8) + [0];
      assert Digits(4, 10) == Digits(2, 9) + [0];
      assert Digits(8, 11) == Digits(4, 10) + [0];
    } else {
      assert Digits(3, 9) == Digits(1, 8) + [1];
      assert Digits(7, 10) == Digits(3, 9) + [1];
      assert Digits(15, 11) == Digits(7, 10) + [1];
    }
  }

  lemma DigitsOfOne()
    ensures Digits(1, 8) == [0, 0, 0, 0, 0, 0, 0, 1]
  {
    assert Digits(0, 1) == [0];
    assert Digits(0, 2) == Digits(0, 1) + [0];
    assert Digits(0, 3) == Digits(0, 2) + [0];
    assert Digits(0, 4) == Digits(0, 3) + [0];
    assert Digits(0, 5) == Digits(0, 4) + [0];
    assert Digits(0, 6) == Digits(0, 5) + [0];
    assert Digits(0, 7) == Digits(0, 6) + [0];
    assert Digits(1, 8) == Digits(0, 7) + [1];
  }

  // An escape stands for 33, stuffing for nothing.
  lemma SpecialRead(s: seq<Bit>, p: nat, k: nat, escape: bool)
    requires HasAt(s, p, SpecialCode(escape))
    ensures IncrementAt(s, p, k) == IncrementAt(s, p + 11, if escape then k + 33 else k)
  {
    var v := if escape then 8 else 15;
    assert Bits(s, p, 11) == v by {
      Pow2Values();
      SpecialDigits(escape);
      ReadDigits(s, p, v, 11);
    }
  }

  function Escapes(special: seq<bool>): nat
  {
    if special == [] then 0 else (if special[0] then 1 else 0) + Escapes(special[1..])
  }

  // Escapes and stuffing are read in any order, up to the code word and no
  // further.
  lemma {:induction false} StuffedRoundTrip(s: seq<Bit>, p: nat, special: seq<bool>, n: nat, k: nat)
    requires n <= 32 && HasAt(s, p, EncodeAfter(special, n))
    ensures IncrementAt(s, p, k) == Increment(k + 33 * Escapes(special) + n, p + |EncodeAfter(special, n)|)
    decreases |special|
  {
    hide HasAt, IncrementAt, SpecialCode;
    if special == [] {
      CodeRead(s, p, n, k);
    } else {
      HasAtSplit(s, p, SpecialCode(special[0]), EncodeAfter(special[1..], n));
      SpecialRead(s, p, k, special[0]);
      assert |SpecialCode(special[0])| == 11 by { SpecialDigits(special[0]); }
      StuffedRoundTrip(s, p + 11, special[1..], n, if special[0] then k + 33 else k);
    }
  }

  // An increment that is written is read back, and no bit more.
  lemma {:induction false} IncrementRoundTrip(s: seq<Bit>, p: nat, n: nat, k: nat)
    requires HasAt(s, p, Encode(n))
    ensures IncrementAt(s, p, k) == Increment(k + n, p + |Encode(n)|)
    decreases n
  {
    if n <= 32 {
      CodeRead(s, p, n, k);
    } else {
      HasAtSplit(s, p, SpecialCode(true), Encode(n - 33));
      SpecialRead(s, p, k, true);
      IncrementRoundTrip(s, p + 11, n - 33, k + 33);
    }
  }
}
