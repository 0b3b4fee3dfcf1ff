// The bit reader of libmpeg2/vlc.h: a 32-bit window that is refilled 16 bits
// at a time, against a bit-serial reading of the same bytes.
module BitReader {
  import opened Words

  type Bit = b: nat | b < 2

  // The bits of a byte string, most significant bit of each byte first.
  function StreamOf(bytes: seq<Byte>): (s: seq<Bit>)
    ensures |s| == 8 * |bytes|
  {
    if bytes == [] then []
    else
      var b := bytes[0];
      [b / 128, b / 64 % 2, b / 32 % 2, b / 16 % 2, b / 8 % 2, b / 4 % 2, b / 2 % 2, b % 2] + StreamOf(bytes[1..])
  }

  // After the end of the buffer, bytes and bits are taken to be zero.
  function ByteAt(bytes: seq<Byte>, i: nat): Byte
  {
    if i < |bytes| then bytes[i] else 0
  }

  function BitAt(s: seq<Bit>, p: nat): Bit
  {
    if p < |s| then s[p] else 0
  }

  // The n bits that start at position p, read as a number.
  function Bits(s: seq<Bit>, p: nat, n: nat): (v: nat)
    ensures v < Pow2(n)
  {
    if n == 0 then 0 else 2 * Bits(s, p, n - 1) + BitAt(s, p + n - 1)
  }

  lemma {:induction false} BitsSplit(s: seq<Bit>, p: nat, m: nat, n: nat)
    ensures Bits(s, p, m + n) == Bits(s, p, m) * Pow2(n) + Bits(s, p + m, n)
  {
    var h := Bits(s, p, m);
    if n == 0 {
      assert Pow2(0) == 1 && Bits(s, p + m, 0) == 0;
    } else {
      BitsSplit(s, p, m, n - 1);
      BitsUnfold(s, p, m + n);
      BitsUnfold(s, p + m, n);
      assert m + n - 1 == m + (n - 1) && p + (m + n) - 1 == (p + m) + n - 1;
      MulAssociates(h, Pow2(n - 1), 2);
    }
  }

  lemma BitsUnfold(s: seq<Bit>, p: nat, n: nat)
    requires n > 0
    ensures Bits(s, p, n) == 2 * Bits(s, p, n - 1) + BitAt(s, p + n - 1)
  {
  }

  lemma {:induction false} BitsOfByte(bytes: seq<Byte>, i: nat)
    ensures Bits(StreamOf(bytes), 8 * i, 8) == ByteAt(bytes, i)
  {
    var s := StreamOf(bytes);
    if i >= |bytes| {
      BitsPastEnd(s, 8 * i, 8);
    } else {
      StreamOfByte(bytes, i);
      BitsOfEight(s, 8 * i);
      BinaryOfByte(bytes[i]);
      SliceOfEight(s, 8 * i);
    }
  }

  lemma SliceOfEight(s: seq<Bit>, p: nat)
    requires p + 8 <= |s|
    ensures s[p..p + 8] == [BitAt(s, p), BitAt(s, p + 1), BitAt(s, p + 2), BitAt(s, p + 3),
                            BitAt(s, p + 4), BitAt(s, p + 5), BitAt(s, p + 6), BitAt(s, p + 7)]
  {
  }

  lemma BinaryOfByte(b: Byte)
    ensures b == 128 * (b / 128) + 64 * (b / 64 % 2) + 32 * (b / 32 % 2) + 16 * (b / 16 % 2)
                 + 8 * (b / 8 % 2) + 4 * (b / 4 % 2) + 2 * (b / 2 % 2) + b % 2
  {
    assert b / 2 / 2 == b / 4 && b / 4 / 2 == b / 8 && b / 8 / 2 == b / 16;
    assert b / 16 / 2 == b / 32 && b / 32 / 2 == b / 64 && b / 64 / 2 == b / 128;
  }

  lemma BitsOfEight(s: seq<Bit>, p: nat)
    ensures Bits(s, p, 8) == 128 * BitAt(s, p) + 64 * BitAt(s, p + 1) + 32 * BitAt(s, p + 2) + 16 * BitAt(s, p + 3)
                           + 8 * BitAt(s, p + 4) + 4 * BitAt(s, p + 5) + 2 * BitAt(s, p + 6) + BitAt(s, p + 7)
  {
    assert Bits(s, p, 2) == 2 * BitAt(s, p) + BitAt(s, p + 1) by { assert Bits(s, p, 1) == BitAt(s, p); }
    assert Bits(s, p, 4) == 4 * Bits(s, p, 2) + 2 * BitAt(s, p + 2) + BitAt(s, p + 3);
    assert Bits(s, p, 6) == 4 * Bits(s, p, 4) + 2 * BitAt(s, p + 4) + BitAt(s, p + 5);
    assert Bits(s, p, 8) == 4 * Bits(s, p, 6) + 2 * BitAt(s, p + 6) + BitAt(s, p + 7);
  }

  lemma {:induction false} StreamOfByte(bytes: seq<Byte>, i: nat)
    requires i < |bytes|
    ensures var b := bytes[i];
            StreamOf(bytes)[8 * i..8 * i + 8]
            == [b / 128, b / 64 % 2, b / 32 % 2, b / 16 % 2, b / 8 % 2, b / 4 % 2, b / 2 % 2, b % 2]
  {
    var b := bytes[0];
    var first := [b / 128, b / 64 % 2, b / 32 % 2, b / 16 % 2, b / 8 % 2, b / 4 % 2, b / 2 % 2, b % 2];
    var rest := StreamOf(bytes[1..]);
    assert StreamOf(bytes) == first + rest;
    if i > 0 {
      StreamOfByte(bytes[1..], i - 1);
      assert (first + rest)[8 * i..8 * i + 8] == rest[8 * (i - 1)..8 * (i - 1) + 8];
    }
  }

  // Past the end of the data only zero bits are read.
  lemma {:induction false} BitsPastEnd(s: seq<Bit>, p: nat, n: nat)
    requires p >= |s|
    ensures Bits(s, p, n) == 0
  {
    if n > 0 {
      BitsPastEnd(s, p, n - 1);
    }
  }

  lemma BitsAfterEnd(s: seq<Bit>, p: nat, n: nat)
    ensures p >= |s| ==> Bits(s, p, n) == 0
  {
    if p >= |s| { BitsPastEnd(s, p, n); }
  }

  // The first n of m bits.
  lemma BitsPrefix(s: seq<Bit>, p: nat, m: nat, n: nat)
    requires n <= m
    ensures Bits(s, p, m) / Pow2(m - n) == Bits(s, p, n)
  {
    BitsSplit(s, p, n, m - n);
    DivLow(Bits(s, p, n), Pow2(m - n), Bits(s, p + n, m - n));
  }

  // The k bits from p on at the top of a 32-bit word, zeros below them.
  function Window(s: seq<Bit>, p: nat, k: nat): nat
    requires k <= 32
  {
    Bits(s, p, k) * Pow2(32 - k)
  }

  lemma WindowBound(s: seq<Bit>, p: nat, k: nat)
    requires k <= 32
    ensures Window(s, p, k) < TWO_32
  {
    Pow2Values();
    Pow2Add(k, 32 - k);
    ScaledBound(Bits(s, p, k), Pow2(k), Pow2(32 - k));
  }

  lemma ScaledBound(v: nat, m: nat, s: nat)
    requires v < m && s > 0
    ensures v * s + s <= m * s
  {
    MulAtLeast(s, m - v);
    assert s * (m - v) == m * s - v * s;
  }

  lemma WindowSplit(s: seq<Bit>, p: nat, k: nat, n: nat)
    requires n <= k <= 32
    ensures Window(s, p, k) == Bits(s, p, n) * Pow2(32 - n) + Bits(s, p + n, k - n) * Pow2(32 - k)
    ensures Bits(s, p + n, k - n) * Pow2(32 - k) < Pow2(32 - n)
  {
    BitsSplit(s, p, n, k - n);
    Pow2Add(k - n, 32 - k);
    ScaledSum(Bits(s, p, n), Bits(s, p + n, k - n), Pow2(k - n), Pow2(32 - k), Pow2(32 - n));
  }

  lemma ScaledSum(h: nat, l: nat, a: nat, b: nat, ab: nat)
    requires l < a && b > 0 && ab == a * b
    ensures (h * a + l) * b == h * ab + l * b && l * b < ab
  {
    Distribute(h, a, l, b);
    ScaledBound(l, a, b);
  }

  // Shifting a window right leaves its first n bits.
  lemma WindowPeek(s: seq<Bit>, p: nat, k: nat, n: nat)
    requires n <= k <= 32
    ensures Window(s, p, k) / Pow2(32 - n) == Bits(s, p, n)
  {
    WindowSplit(s, p, k, n);
    DivLow(Bits(s, p, n), Pow2(32 - n), Bits(s, p + n, k - n) * Pow2(32 - k));
  }

  lemma DivLow(v: nat, q: nat, low: nat)
    requires low < q
    ensures (v * q + low) / q == v
  {
    MulCommutes(v, q);
    DivUnique(v * q + low, q, v, low);
  }

  // Shifting a window left drops its first n bits.
  lemma WindowDump(s: seq<Bit>, p: nat, k: nat, n: nat)
    requires n <= k <= 32
    ensures (Window(s, p, k) * Pow2(n)) % TWO_32 == Window(s, p + n, k - n)
  {
    var h, w, rest := Bits(s, p, n), Window(s, p, k), Window(s, p + n, k - n);
    assert w * Pow2(n) == TWO_32 * h + rest by { WindowShift(s, p, k, n); }
    assert rest < TWO_32 by { WindowBound(s, p + n, k - n); }
    DivUnique(w * Pow2(n), TWO_32, h, rest);
  }

  lemma ShiftSum(h: int, q: int, l: int, m: int)
    requires q * m == TWO_32
    ensures (h * q + l) * m == TWO_32 * h + l * m
  {
    Distribute(h, q, l, m);
  }

  lemma WindowShift(s: seq<Bit>, p: nat, k: nat, n: nat)
    requires n <= k <= 32
    ensures Window(s, p, k) * Pow2(n) == TWO_32 * Bits(s, p, n) + Window(s, p + n, k - n)
  {
    var l := Bits(s, p + n, k - n);
    var lt := l * Pow2(32 - k);
    WindowSplit(s, p, k, n);
    Pow2Split32(n);
    ShiftSum(Bits(s, p, n), Pow2(32 - n), lt, Pow2(n));
    ShiftLow(l, k, n);
  }

  lemma Pow2Split32(n: nat)
    requires n <= 32
    ensures Pow2(32 - n) * Pow2(n) == TWO_32
  {
    Pow2Add(32 - n, n);
    Pow2Values();
  }

  lemma ShiftLow(l: nat, k: nat, n: nat)
    requires n <= k <= 32
    ensures (l * Pow2(32 - k)) * Pow2(n) == l * Pow2(32 - (k - n))
  {
    Pow2Add(32 - k, n);
    assert 32 - k + n == 32 - (k - n);
    MulAssociates(l, Pow2(32 - k), Pow2(n));
  }

  // Two bytes are sixteen bits.
  lemma BitsWord(bytes: seq<Byte>, i: nat)
    ensures Bits(StreamOf(bytes), 8 * i, 16) == 256 * ByteAt(bytes, i) + ByteAt(bytes, i + 1) < TWO_16
  {
    var s := StreamOf(bytes);
    BitsOfByte(bytes, i);
    BitsOfByte(bytes, i + 1);
    assert 8 * (i + 1) == 8 * i + 8;
    BitsSplit(s, 8 * i, 8, 8);
    assert Pow2(8) == 256 by { Pow2Values(); }
  }

  // Sixteen more bits, shifted left, fit below the 16 - shift that are left.
  lemma WindowRefill(s: seq<Bit>, p: nat, shift: nat, word: nat)
    requires shift <= 16 && word == Bits(s, p + 16 - shift, 16)
    ensures Or(Window(s, p, 16 - shift), (word * Pow2(shift)) % TWO_32) == Window(s, p, 32 - shift)
  {
    hide Bits, Pow2, Or;
    var k := 16 - shift;
    WindowExtend(s, p, k, word);
    LowWord(word * Pow2(shift), 32 - k);
    OrDisjoint(Bits(s, p, k), word * Pow2(shift), 32 - k);
  }

  lemma LowWord(v: nat, n: nat)
    requires n <= 32 && v < Pow2(n)
    ensures v % TWO_32 == v
  {
    Pow2Monotone(n, 32);
    Pow2Values();
  }

  lemma WindowExtend(s: seq<Bit>, p: nat, k: nat, word: nat)
    requires k <= 16 && word == Bits(s, p + k, 16)
    ensures word * Pow2(16 - k) < Pow2(32 - k)
    ensures Window(s, p, k + 16) == Window(s, p, k) + word * Pow2(16 - k)
  {
    var h, a := Bits(s, p, k), Pow2(16 - k);
    assert Pow2(16) == TWO_16 by { Pow2Values(); }
    assert Pow2(32 - k) == TWO_16 * a by { Pow2Add(16, 16 - k); }
    assert Bits(s, p, k + 16) == h * TWO_16 + word by { BitsSplit(s, p, k, 16); }
    assert 32 - (k + 16) == 16 - k;
    Distribute(h, TWO_16, word, a);
    ScaledBound(word, TWO_16, a);
  }

  lemma FirstWindow(bytes: seq<Byte>)
    ensures Window(StreamOf(bytes), 0, 32)
         == 0x1_0000 * (256 * ByteAt(bytes, 0) + ByteAt(bytes, 1)) + (256 * ByteAt(bytes, 2) + ByteAt(bytes, 3))
  {
    var s := StreamOf(bytes);
    BitsWord(bytes, 0);
    BitsWord(bytes, 2);
    assert Bits(s, 0, 32) == Bits(s, 0, 16) * TWO_16 + Bits(s, 16, 16) by { BitsSplit(s, 0, 16, 16); Pow2Values(); }
    MulCommutes(Bits(s, 0, 16), TWO_16);
    assert Window(s, 0, 32) == Bits(s, 0, 32) * Pow2(0);
  }

  // The stream up to a position, and zeros.
  function Before(s: seq<Bit>, end: nat): seq<Bit>
  {
    if end <= |s| then s[..end] else s
  }

  lemma {:induction false} BeforeSame(s: seq<Bit>, end: nat, p: nat, n: nat)
    requires p + n <= end
    ensures Bits(Before(s, end), p, n) == Bits(s, p, n)
  {
    if n > 0 {
      BeforeSame(s, end, p, n - 1);
      assert BitAt(Before(s, end), p + n - 1) == BitAt(s, p + n - 1);
    }
  }

  lemma WindowIsBefore(s: seq<Bit>, p: nat, k: nat)
    requires k <= 32
    ensures Window(s, p, k) == Bits(Before(s, p + k), p, 32)
  {
    var b := Before(s, p + k);
    BitsSplit(b, p, k, 32 - k);
    BeforeSame(s, p + k, p, k);
    BitsPastEnd(b, p + k, 32 - k);
  }

  lemma DropBits(s: seq<Bit>, p: nat, n: nat)
    requires |s| <= p + 32
    ensures (Bits(s, p, 32) * Pow2(n)) % TWO_32 == Bits(s, p + n, 32)
  {
    BitsSplit(s, p, n, 32);
    BitsSplit(s, p, 32, n);
    BitsPastEnd(s, p + 32, n);
    assert Pow2(32) == TWO_32 by { Pow2Values(); }
    assert n + 32 == 32 + n;
    MulCommutes(Bits(s, p, n), TWO_32);
    DivUnique(Bits(s, p, 32) * Pow2(n), TWO_32, Bits(s, p, n), Bits(s, p + n, 32));
  }

  class BitReader {
    const data: seq<Byte>
    ghost const stream: seq<Bit>
    var buf: nat    // the window: current 32-bit working set
    var bits: int   // used bits in the window, less 16
    var ptr: nat    // next byte to fetch

    // Position in the stream of the first bit of the window.
    function Pos(): int
      reads this
    {
      8 * ptr - 16 + bits
    }

    // The window holds the next 16 - bits bits of the stream and zeros.
    ghost predicate Valid()
      reads this
    {
      && -16 <= bits <= 16
      && ptr >= 4 && ptr % 2 == 0
      && stream == StreamOf(data)
      && buf == Window(stream, Pos(), 16 - bits)
    }

    // The same for any number of used bits: those that are no longer, or not
    // yet, in the window read as zero.
    ghost predicate Synced()
      reads this
    {
      && -16 <= bits && Pos() >= 0
      && ptr >= 4 && ptr % 2 == 0
      && stream == StreamOf(data)
      && buf == Bits(Before(stream, 8 * ptr), Pos(), 32)
    }

    constructor (start: seq<Byte>)
      ensures Valid() && data == start && Pos() == 0 && bits == -16
    {
      data := start;
      stream := StreamOf(start);
      buf := 0x1_0000 * (256 * ByteAt(start, 0) + ByteAt(start, 1)) + (256 * ByteAt(start, 2) + ByteAt(start, 3));
      ptr := 4;
      bits := -16;
      new;
      FirstWindow(start);
    }

    // The two bytes that are fetched next.
    function NextWord(): nat
      reads this
    {
      256 * ByteAt(data, ptr) + ByteAt(data, ptr + 1)
    }

    // Moves a word of 16 bits into the window, shifted left by shift; the window
    // holds 16 - shift bits from p on before, 32 - shift bits after.
    method GetWord(shift: nat, ghost p: nat)
      requires shift <= 16 && p + 16 - shift == 8 * ptr && stream == StreamOf(data)
      requires buf == Window(stream, p, 16 - shift)
      modifies this`buf, this`ptr
      ensures ptr == old(ptr) + 2 && buf == Window(stream, p, 32 - shift)
    {
      BitsWord(data, ptr);
      WindowRefill(stream, p, shift, NextWord());
      buf := Or(buf, (NextWord() * Pow2(shift)) % TWO_32);
      ptr := ptr + 2;
    }

    // Makes sure that at least 16 bits are in the window.
    method NeedBits()
      requires Valid()
      modifies this
      ensures Valid() && Pos() == old(Pos()) && bits <= 0 && bits == old(bits) - if old(bits) > 0 then 16 else 0
    {
      if bits > 0 {
        GetWord(bits, Pos());
        bits := bits - 16;
      }
    }

    // Drops sixteen bits and fetches sixteen more.
    method SkipWord()
      requires Valid() && bits <= 0
      modifies this
      ensures Valid() && bits == old(bits) && Pos() == old(Pos()) + 16
    {
      WindowDump(stream, Pos(), 16 - bits, 16);
      Pow2Values();
      buf := (buf * TWO_16) % TWO_32;
      GetWord(bits + 16, Pos() + 16);
    }

    // Removes num valid bits from the window.
    method DumpBits(num: nat)
      requires Valid() && bits + num <= 16
      modifies this
      ensures Valid() && bits == old(bits) + num && ptr == old(ptr) && Pos() == old(Pos()) + num
    {
      WindowDump(stream, Pos(), 16 - bits, num);
      buf := (buf * Pow2(num)) % TWO_32;
      bits := bits + num;
    }

    // DUMPBITS of bits that need not be in the window.
    method Drop(num: nat)
      requires Synced()
      modifies this`buf, this`bits
      ensures Synced() && bits == old(bits) + num && Pos() == old(Pos()) + num
    {
      DropBits(Before(stream, 8 * ptr), Pos(), num);
      buf := (buf * Pow2(num)) % TWO_32;
      bits := bits + num;
    }

    // UBITS of bits that need not be in the window.
    function Top(num: nat): (v: nat)
      requires Synced() && 1 <= num <= 32
      reads this
      ensures v == Bits(Before(stream, 8 * ptr), Pos(), num)
    {
      BitsPrefix(Before(stream, 8 * ptr), Pos(), 32, num);
      buf / Pow2(32 - num)
    }

    // SBITS of one bit that need not be in the window.
    function TopSign(): (v: int)
      requires Synced()
      reads this
      ensures v == -(BitAt(Before(stream, 8 * ptr), Pos()) as int)
    {
      SignOfTop(Before(stream, 8 * ptr), Pos());
      (if buf < TWO_31 then buf else buf - TWO_32) / TWO_31
    }

    // Where the window ends after NEEDBITS.
    function FedEnd(): nat
      reads this
    {
      8 * ptr + if bits > 0 then 16 else 0
    }

    // NEEDBITS of a window that may be used up. A count of 32 or more would not
    // be one that C shifts by.
    method Refill()
      requires Synced() && bits < 32
      modifies this
      ensures Synced() && Pos() == old(Pos()) && bits == old(bits) - (if old(bits) > 0 then 16 else 0)
      ensures 8 * ptr == old(FedEnd())
    {
      hide Bits, Or, Window, Before;
      if bits <= 16 {
        ValidIsSynced();
        NeedBits();
        ValidIsSynced();
      } else {
        LateRefill();
      }
    }

    method LateRefill()
      requires Synced() && 16 < bits < 32
      modifies this
      ensures Synced() && Pos() == old(Pos()) && bits == old(bits) - 16 && ptr == old(ptr) + 2
    {
      hide Bits, Or, Pow2;
      ghost var p := Pos();
      BitsPastEnd(Before(stream, 8 * ptr), p, 32);
      BitsWord(data, ptr);
      LateWord(stream, 8 * ptr, bits - 16, NextWord());
      buf := Or(buf, (NextWord() * Pow2(bits)) % TWO_32);
      ptr, bits := ptr + 2, bits - 16;
      assert 8 * (ptr - 2) + 16 == 8 * ptr && 8 * (ptr - 2) + bits == p;
    }

    lemma ValidIsSynced()
      requires Pos() >= 0
      ensures Valid() <==> Synced() && bits <= 16
    {
      if -16 <= bits <= 16 { WindowIsBefore(stream, Pos(), 16 - bits); }
    }

    // The next num bits, zero extended.
    function UBits(num: nat): (v: nat)
      requires Valid() && 1 <= num <= 16 - bits
      reads this
      ensures v == Bits(stream, Pos(), num)
    {
      WindowPeek(stream, Pos(), 16 - bits, num);
      buf / Pow2(32 - num)
    }

    // UBITS (bit_buf << skip, num): num bits after the next skip bits.
    function UBitsAfter(skip: nat, num: nat): (v: nat)
      requires Valid() && 1 <= num && skip + num <= 16 - bits
      reads this
      ensures v == Bits(stream, Pos() + skip, num)
    {
      WindowDump(stream, Pos(), 16 - bits, skip);
      WindowPeek(stream, Pos() + skip, 16 - bits - skip, num);
      (buf * Pow2(skip) % TWO_32) / Pow2(32 - num)
    }

    // The next num bits, sign extended.
    function SBits(num: nat): (v: int)
      requires Valid() && 1 <= num <= 16 - bits
      reads this
      ensures v == Signed(Bits(stream, Pos(), num), num)
    {
      WindowPeek(stream, Pos(), 16 - bits, num);
      WindowPeek(stream, Pos(), 16 - bits, 1);
      SignOfWindow(stream, Pos(), 16 - bits, num);
      (if buf < TWO_31 then buf else buf - TWO_32) / Pow2(32 - num)
    }
  }

  lemma SignOfTop(s: seq<Bit>, p: nat)
    ensures var w := Bits(s, p, 32); (if w < TWO_31 then w else w - TWO_32) / TWO_31 == -(BitAt(s, p) as int)
  {
    BitsPrefix(s, p, 32, 1);
    assert Bits(s, p, 1) == 2 * Bits(s, p, 0) + BitAt(s, p);
    assert Pow2(31) == TWO_31 && Pow2(32) == TWO_32 by { Pow2Values(); }
  }

  // A word fetched when n bits of it have been used already.
  lemma LateWord(s: seq<Bit>, p: nat, n: nat, word: nat)
    requires word == Bits(s, p, 16)
    ensures Or(0, (word * Pow2(n + 16)) % TWO_32) == Bits(Before(s, p + 16), p + n, 32)
  {
    var w := (word * Pow2(n + 16)) % TWO_32;
    assert Pow2(32) == TWO_32 && Pow2(16) == TWO_16 by { Pow2Values(); }
    OrDisjoint(0, w, 32);
    WindowIsBefore(s, p, 16);
    DropBits(Before(s, p + 16), p, n);
    Pow2Add(16, n);
    MulAssociates(word, TWO_16, Pow2(n));
    assert 16 + n == n + 16;
  }

  // A number of n bits read as two's complement.
  function Signed(v: nat, n: nat): int
    requires n > 0
  {
    if v < Pow2(n - 1) then v else v - Pow2(n)
  }

  // One bit, sign extended: 0 or all ones.
  lemma SignBit(s: seq<Bit>, p: nat)
    ensures Signed(Bits(s, p, 1), 1) == -(BitAt(s, p) as int)
  {
    assert Bits(s, p, 1) == 2 * Bits(s, p, 0) + BitAt(s, p + 1 - 1);
    assert Pow2(0) == 1 && Pow2(1) == 2;
  }

  // The arithmetic right shift of the window as a signed 32-bit word.
  lemma SignOfWindow(s: seq<Bit>, p: nat, k: nat, n: nat)
    requires 1 <= n <= k <= 32
    ensures var w := Window(s, p, k);
            (if w < TWO_31 then w else w - TWO_32) / Pow2(32 - n) == Signed(Bits(s, p, n), n)
  {
    hide Bits;
    var q, v, half := Pow2(32 - n), Bits(s, p, n), Pow2(n - 1);
    WindowSplit(s, p, k, n);
    HalfWord(n);
    assert Pow2(n) == 2 * half;
    SignedShift(v, half, q, Bits(s, p + n, k - n) * Pow2(32 - k));
  }

  lemma HalfWord(n: nat)
    requires 1 <= n <= 32
    ensures Pow2(n - 1) * Pow2(32 - n) == TWO_31
  {
    Pow2Add(n - 1, 32 - n);
    Pow2Add(31, 1);
    Pow2Values();
  }

  lemma SignedShift(v: nat, half: nat, q: nat, low: nat)
    requires half * q == TWO_31 && low < q && v < 2 * half
    ensures var w := v * q + low;
            (if w < TWO_31 then w else w - TWO_32) / q == if v < half then v else v - 2 * half
  {
    MulCommutes(v, q);
    if v < half {
      ScaledBound(v, half, q);
      DivLow(v, q, low);
    } else {
      NotBelow(v, half, q);
      MulAssociates(2, half, q);
      DivUniqueBelow(v * q + low, q, v, low, 2 * half);
    }
  }

  lemma NotBelow(v: int, half: int, q: nat)
    requires v >= half
    ensures v * q >= half * q
  {
    assert (v - half) * q >= 0;
  }

  lemma DivUniqueBelow(w: int, s: nat, v: int, r: int, m: int)
    requires s > 0 && 0 <= r < s && w == s * v + r
    ensures (w - m * s) / s == v - m
  {
    Distribute(v, 1, -m, s);
    MulCommutes(v, s);
    MulCommutes(v - m, s);
    DivUnique(w - m * s, s, v - m, r);
  }

}
