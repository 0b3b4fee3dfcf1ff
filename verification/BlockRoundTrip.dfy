// Writing a block with the code words of ISO/IEC 13818-2 and decoding it.
module BlockRoundTrip {
  import opened Words
  import opened Wrappers
  import opened BitReader
  import opened DctTables
  import opened BlockDecoder
  import opened BlockProperties

  // A run of zeros and the level after it; escape asks for the escape form.
  datatype RunLevel = RunLevel(run: nat, level: int, escape: bool)

  // The n digits of v in base two.
  function Digits(v: nat, n: nat): (d: seq<Bit>)
    ensures |d| == n
  {
    if n == 0 then [] else Digits(v / 2, n - 1) + [v % 2]
  }

  // The stream has the given bits at position p.
  predicate HasAt(s: seq<Bit>, p: nat, d: seq<Bit>)
  {
    p + |d| <= |s| && s[p..p + |d|] == d
  }

  lemma HasAtSplit(s: seq<Bit>, p: nat, d: seq<Bit>, e: seq<Bit>)
    requires HasAt(s, p, d + e)
    ensures HasAt(s, p, d) && HasAt(s, p + |d|, e)
  {
    assert s[p..p + |d|] == s[p..p + |d + e|][..|d|] == d;
    assert s[p + |d|..p + |d| + |e|] == s[p..p + |d + e|][|d|..] == e;
  }

  lemma {:induction false} ReadDigits(s: seq<Bit>, p: nat, v: nat, n: nat)
    requires HasAt(s, p, Digits(v, n)) && v < Pow2(n)
    ensures Bits(s, p, n) == v
  {
    if n > 0 {
      HasAtSplit(s, p, Digits(v / 2, n - 1), [v % 2]);
      ReadDigits(s, p, v / 2, n - 1);
      assert s[p + n - 1..p + n] == [v % 2];
      assert BitAt(s, p + n - 1) == v % 2;
    }
  }

  function Magnitude(x: int): nat
  {
    if x < 0 then -x else x
  }

  // The code word for a run and a level, where there is one. The first
  // coefficient of a non-intra block has a one-bit code for run 0, level 1.
  function CodeFor(kind: Kind, first: bool, run: nat, level: nat): (c: Option<Code>)
    ensures c.Some? ==> FitsWidth(c.value) && level > 0
  {
    match kind
    case IntraB14 => B14Code(run, level)
    case IntraB15 => B15Code(run, level)
    case NonIntra => if first && (run, level) == (0, 1) then Some(Code(1, 1)) else B14Code(run, level)
  }

  // A code book gives the code word of a run and level, if there is one; the
  // first argument tells the first coefficient of a block.
  type Book = (bool, nat, nat) -> Option<Code>

  function StandardBook(kind: Kind): Book
  {
    (first: bool, run: nat, level: nat) => CodeFor(kind, first, run, level)
  }

  predicate Encodable(book: Book, first: bool, rl: RunLevel)
  {
    && rl.run < 64 && rl.level != 0 && -2048 <= rl.level <= 2047
    && (rl.escape || book(first, rl.run, Magnitude(rl.level)).Some?)
  }

  function EncodeOne(book: Book, first: bool, rl: RunLevel): seq<Bit>
    requires Encodable(book, first, rl)
  {
    if rl.escape then
      Digits(1, 6) + (Digits(rl.run, 6) + Digits(if rl.level < 0 then rl.level + 4096 else rl.level, 12))
    else
      var c := book(first, rl.run, Magnitude(rl.level)).value;
      Digits(c.value, c.len) + [if rl.level < 0 then 1 else 0]
  }

  function EndOfBlock(kind: Kind): seq<Bit>
  {
    if kind.IntraB15? then [0, 1, 1, 0] else [1, 0]
  }

  predicate AllEncodable(book: Book, first: bool, list: seq<RunLevel>)
  {
    list == [] || (Encodable(book, first, list[0]) && AllEncodable(book, false, list[1..]))
  }

  function Encode(kind: Kind, book: Book, first: bool, list: seq<RunLevel>): seq<Bit>
    requires AllEncodable(book, first, list)
  {
    if list == [] then EndOfBlock(kind)
    else EncodeOne(book, first, list[0]) + Encode(kind, book, false, list[1..])
  }

  // Position of the last coefficient of a list that starts after position i.
  function LastAt(list: seq<RunLevel>, i: int): (e: int)
    ensures e >= i + |list|
  {
    if list == [] then i else LastAt(list[1..], i + list[0].run + 1)
  }

  // The value stored for a level at scan position at.
  function Stored(cfg: Config, level: int, at: nat): (v: int)
    requires cfg.Valid() && at < 64
    ensures v % 16 == 0 && -32768 <= v <= 32752
  {
    16 * Reconstructed(cfg.kind, level, cfg.quant[cfg.scan[at]])
  }

  // The block with every level of the list reconstructed at its scan position.
  function Place(cfg: Config, list: seq<RunLevel>, i: int, d: seq<int>): (r: seq<int>)
    requires cfg.Valid() && -1 <= i && LastAt(list, i) < 64 && |d| == 64
    ensures |r| == 64
  {
    if list == [] then d
    else
      var at := i + list[0].run + 1;
      assert LastAt(list, i) >= at;
      Place(cfg, list[1..], at, d[cfg.scan[at] := Stored(cfg, list[0].level, at)])
  }

  // The quantised level at scan position k: runs of zeros, each with a level
  // after it, as section 7.2.2 fills QFS[k]; i is the position before the list.
  function LevelAt(list: seq<RunLevel>, i: int, k: int): int
  {
    if list == [] then 0
    else
      var at := i + list[0].run + 1;
      if k < at then 0 else if k == at then list[0].level else LevelAt(list[1..], at, k)
  }

  // Place reconstructs the level of each scan position and leaves the rest.
  lemma {:induction false} PlaceAt(cfg: Config, list: seq<RunLevel>, i: int, d: seq<int>, k: nat)
    requires cfg.Valid() && -1 <= i && LastAt(list, i) < 64 && |d| == 64 && k < 64
    requires forall n | 0 <= n < |list| :: list[n].level != 0
    ensures var j := cfg.scan[k];
            Place(cfg, list, i, d)[j]
            == if LevelAt(list, i, k) == 0 then d[j] else Stored(cfg, LevelAt(list, i, k), k)
  {
    if list != [] {
      var at := i + list[0].run + 1;
      PlaceAt(cfg, list[1..], at, d[cfg.scan[at] := Stored(cfg, list[0].level, at)], k);
      LevelBefore(list[1..], at, k);
    }
  }

  lemma LevelBefore(list: seq<RunLevel>, i: int, k: int)
    ensures k <= i ==> LevelAt(list, i, k) == 0
  {
  }

  // ---- Decoding what was written ----

  lemma SpanIsPow2(n: nat)
    requires 1 <= n <= 16
    ensures Span(n) == Pow2(16 - n)
  {
    Pow2Values();
  }

  // Bits that spell a code word make the next 16 bits start with it.
  lemma ReadCodeWord(s: seq<Bit>, p: nat, c: Code)
    requires 1 <= c.len <= 16 && c.value < Pow2(c.len) && HasAt(s, p, Digits(c.value, c.len))
    ensures Bits(s, p, 16) < TWO_16 && StartsWith(Bits(s, p, 16), c)
  {
    ReadDigits(s, p, c.value, c.len);
    BitsSplit(s, p, c.len, 16 - c.len);
    SpanIsPow2(c.len);
    assert Pow2(16) == TWO_16 by { Pow2Values(); }
    Distribute(c.value, 1, 1, Span(c.len));
  }

  lemma WidthIsPow2(c: Code)
    requires FitsWidth(c)
    ensures c.value < Pow2(c.len)
  {
    Pow2Values();
  }

  lemma LongCodeDecodes(run: nat, level: nat, w: nat)
    requires w < TWO_16 && LongCode(run, level).Some? && StartsWith(w, LongCode(run, level).value)
    ensures w < 0x200 && Decodes(w, LongCode(run, level).value, run, level, LongLookup(w))
  {
    if Code13(run, level).Some? {
      Code13Decodes(run, level, w);
    } else if Code15(run, level).Some? {
      Code15Decodes(run, level, w);
    } else {
      Code16Decodes(run, level, w);
    }
  }

  // Every code word of the tables is looked up as its run and level.
  lemma CodeDecodes(cfg: Config, first: bool, run: nat, level: nat, w: nat)
    requires w < TWO_16 && CodeFor(cfg.kind, first, run, level).Some?
    requires StartsWith(w, CodeFor(cfg.kind, first, run, level).value)
    ensures Decodes(w, CodeFor(cfg.kind, first, run, level).value, run, level, cfg.Lookup(w, first))
  {
    if cfg.kind.IntraB15? {
      if B15Code8(run, level).Some? {
        B15Code8Decodes(run, level, w);
      } else if B15Code10(run, level).Some? {
        B15Code10Decodes(run, level, w);
      } else {
        LongCodeDecodes(run, level, w);
      }
    } else if cfg.kind.NonIntra? && first && (run, level) == (0, 1) {
      assert w >= 0x8000;
    } else if B14Short(run, level).Some? {
      B14ShortDecodes(run, level, w);
    } else if B14Code8(run, level).Some? {
      B14Code8Decodes(run, level, w);
    } else if B14Code10(run, level).Some? {
      B14Code10Decodes(run, level, w);
    } else {
      LongCodeDecodes(run, level, w);
    }
  }

  // The decoder's tables read the code word c as the given run and level.
  ghost predicate ReadAs(cfg: Config, first: bool, run: nat, level: nat, c: Code)
  {
    forall w: nat {:trigger StartsWith(w, c)} | w < TWO_16 && StartsWith(w, c) ::
      Decodes(w, c, run, level, cfg.Lookup(w, first))
  }

  // An entry of a code book that a proof looks at.
  predicate Entry(first: bool, run: nat, level: nat)
  {
    true
  }

  ghost predicate ValidBook(cfg: Config, book: Book)
  {
    forall first, run, level {:trigger Entry(first, run, level)} ::
      Entry(first, run, level) && book(first, run, level).Some? ==>
      level > 0 && FitsWidth(book(first, run, level).value) &&
      ReadAs(cfg, first, run, level, book(first, run, level).value)
  }

  // The tables of libmpeg2 decode every code word of Tables B.14 and B.15.
  lemma StandardBookValid(cfg: Config)
    ensures ValidBook(cfg, StandardBook(cfg.kind))
  {
    var book := StandardBook(cfg.kind);
    forall first, run, level | book(first, run, level).Some?
      ensures level > 0 && FitsWidth(book(first, run, level).value)
      ensures ReadAs(cfg, first, run, level, book(first, run, level).value)
    {
      CodesRead(cfg, first, run, level);
    }
  }

  lemma CodesRead(cfg: Config, first: bool, run: nat, level: nat)
    requires CodeFor(cfg.kind, first, run, level).Some?
    ensures ReadAs(cfg, first, run, level, CodeFor(cfg.kind, first, run, level).value)
  {
    forall w: nat | w < TWO_16 && StartsWith(w, CodeFor(cfg.kind, first, run, level).value)
      ensures Decodes(w, CodeFor(cfg.kind, first, run, level).value, run, level, cfg.Lookup(w, first))
    {
      CodeDecodes(cfg, first, run, level, w);
    }
  }

  // A code of the table whose run stays in the block is one coefficient.
  lemma StepOfCode(cfg: Config, s: seq<Bit>, p: nat, i: int, first: bool, c: Code, run: nat, level: nat)
    requires cfg.Valid() && -1 <= i && i + run + 1 < 64 && Bits(s, p, 16) < TWO_16
    requires Decodes(Bits(s, p, 16), c, run, level, cfg.Lookup(Bits(s, p, 16), first))
    ensures var at := i + run + 1;
            cfg.StepAt(s, p, i, first)
            == Coef(at, cfg.TableValue(level, cfg.quant[cfg.scan[at]], BitAt(s, p + c.len) == 1), p + c.len + 1)
  {
  }

  // A code word and its sign bit.
  lemma ReadSignedCode(s: seq<Bit>, p: nat, c: Code, sign: Bit)
    requires FitsWidth(c) && HasAt(s, p, Digits(c.value, c.len) + [sign])
    ensures Bits(s, p, 16) < TWO_16 && StartsWith(Bits(s, p, 16), c) && BitAt(s, p + c.len) == sign
  {
    WidthIsPow2(c);
    HasAtSplit(s, p, Digits(c.value, c.len), [sign]);
    ReadCodeWord(s, p, c);
    assert s[p + c.len..p + c.len + 1] == [sign];
  }

  // One written level is decoded as one step.
  lemma StepOfOne(cfg: Config, book: Book, s: seq<Bit>, p: nat, i: int, first: bool, rl: RunLevel)
    requires cfg.Valid() && ValidBook(cfg, book)
    requires -1 <= i && i + rl.run + 1 < 64 && Encodable(book, first, rl)
    requires HasAt(s, p, EncodeOne(book, first, rl))
    ensures var at := i + rl.run + 1;
            cfg.StepAt(s, p, i, first)
            == Coef(at, Stored(cfg, rl.level, at), p + |EncodeOne(book, first, rl)|)
  {
    if rl.escape {
      StepOfEscape(cfg, s, p, i, first, rl);
    } else {
      assert Entry(first, rl.run, Magnitude(rl.level));
      StepOfTable(cfg, s, p, i, first, rl, book(first, rl.run, Magnitude(rl.level)).value);
    }
  }

  lemma StepOfTable(cfg: Config, s: seq<Bit>, p: nat, i: int, first: bool, rl: RunLevel, c: Code)
    requires cfg.Valid() && -1 <= i && i + rl.run + 1 < 64 && rl.level != 0
    requires FitsWidth(c) && ReadAs(cfg, first, rl.run, Magnitude(rl.level), c)
    requires HasAt(s, p, Digits(c.value, c.len) + [if rl.level < 0 then 1 else 0])
    ensures var at := i + rl.run + 1;
            cfg.StepAt(s, p, i, first)
            == Coef(at, Stored(cfg, rl.level, at), p + c.len + 1)
  {
    var level := Magnitude(rl.level);
    ReadSignedCode(s, p, c, if rl.level < 0 then 1 else 0);
    StepOfCode(cfg, s, p, i, first, c, rl.run, level);
    TableDequantised(cfg, level, cfg.quant[cfg.scan[i + rl.run + 1]], rl.level < 0);
  }

  lemma StepOfEscape(cfg: Config, s: seq<Bit>, p: nat, i: int, first: bool, rl: RunLevel)
    requires cfg.Valid() && -1 <= i && i + rl.run + 1 < 64
    requires rl.run < 64 && rl.level != 0 && -2048 <= rl.level <= 2047
    requires var l := if rl.level < 0 then rl.level + 4096 else rl.level;
             HasAt(s, p, Digits(1, 6) + (Digits(rl.run, 6) + Digits(l, 12)))
    ensures var at := i + rl.run + 1;
            cfg.StepAt(s, p, i, first)
            == Coef(at, Stored(cfg, rl.level, at), p + 24)
  {
    var l: nat := if rl.level < 0 then rl.level + 4096 else rl.level;
    HasAtSplit(s, p, Digits(1, 6), Digits(rl.run, 6) + Digits(l, 12));
    HasAtSplit(s, p + 6, Digits(rl.run, 6), Digits(l, 12));
    EscapeWord(s, p);
    assert Bits(s, p + 6, 6) == rl.run by { Pow2Values(); ReadDigits(s, p + 6, rl.run, 6); }
    assert Signed(Bits(s, p + 12, 12), 12) == rl.level by { Pow2Values(); ReadDigits(s, p + 12, l, 12); }
    EscapeDequantised(cfg, rl.level, cfg.quant[cfg.scan[i + rl.run + 1]]);
  }

  // The escape code is looked up as a run of 64 and one more.
  lemma EscapeWord(s: seq<Bit>, p: nat)
    requires HasAt(s, p, Digits(1, 6))
    ensures 0x400 <= Bits(s, p, 16) < 0x800
  {
    Pow2Values();
    ReadDigits(s, p, 1, 6);
    BitsSplit(s, p, 6, 10);
  }

  // The end-of-block code stops the loop on the bit after it.
  lemma StepOfEnd(cfg: Config, s: seq<Bit>, p: nat, i: int, first: bool)
    requires cfg.Valid() && -1 <= i < 64 && HasAt(s, p, EndOfBlock(cfg.kind))
    requires (first ==> !cfg.kind.NonIntra?) && (cfg.kind.IntraB15? ==> i >= 0)
    ensures var st := cfg.StepAt(s, p, i, first);
            st.Stop? && st.next == p + |EndOfBlock(cfg.kind)| && (!cfg.kind.IntraB15? ==> st.at == i + 129)
  {
    Pow2Values();
    var e := EndOfBlock(cfg.kind);
    if cfg.kind.IntraB15? {
      assert Digits(6, 4) == e by { assert Digits(6, 1) == [0]; assert Digits(3, 1) == [1]; DigitsOfSix(); }
      ReadDigits(s, p, 6, 4);
      BitsSplit(s, p, 4, 12);
    } else {
      assert Digits(2, 2) == e by { assert Digits(1, 1) == [1] by { assert Digits(0, 0) == []; } }
      ReadDigits(s, p, 2, 2);
      BitsSplit(s, p, 2, 14);
    }
  }

  lemma DigitsOfSix()
    ensures Digits(6, 4) == [0, 1, 1, 0]
  {
    assert Digits(0, 1) == [0];
    assert Digits(1, 2) == [0, 1];
    assert Digits(3, 3) == [0, 1, 1];
  }

  // What a decoder reads: the position and the stored value of a coefficient.
  datatype Read = Read(at: int, val: int)

  // From p on the decoder reads the coefficients of coefs and then stops with
  // the given position counter at the given stream position.
  predicate Reads(cfg: Config, s: seq<Bit>, p: nat, i: int, first: bool, coefs: seq<Read>, end: Step)
    requires cfg.Valid() && -1 <= i < 64
    decreases |coefs|
  {
    var st := cfg.StepAt(s, p, i, first);
    if coefs == [] then st == end
    else st.Coef? && st.at == coefs[0].at && st.val == coefs[0].val &&
         Reads(cfg, s, st.next, st.at, false, coefs[1..], end)
  }

  // The loop of the decoder on the coefficients themselves.
  function Collect(cfg: Config, coefs: seq<Read>, d: seq<int>, m: int): (r: (seq<int>, int))
    requires cfg.Valid() && |d| == 64 && forall n | 0 <= n < |coefs| :: 0 <= coefs[n].at < 64
    ensures |r.0| == 64
  {
    if coefs == [] then (d, m)
    else Collect(cfg, coefs[1..], d[cfg.scan[coefs[0].at] := coefs[0].val], Xor(m, coefs[0].val))
  }

  lemma {:induction false} DecodeReads(cfg: Config, s: seq<Bit>, p: nat, i: int, first: bool, coefs: seq<Read>,
                                       end: Step, d: seq<int>, m: int)
    requires cfg.Valid() && -1 <= i < 64 && |d| == 64 && Reads(cfg, s, p, i, first, coefs, end) && end.Stop?
    requires forall n | 0 <= n < |coefs| :: 0 <= coefs[n].at < 64
    ensures var (d', m') := Collect(cfg, coefs, d, m);
            cfg.Decode(s, p, i, first, d, m) == Outcome(d'[63 := Xor(d'[63], 16 * BitOf(m', 4))], end.at, end.next)
    decreases |coefs|
  {
    if coefs != [] {
      var st := cfg.StepAt(s, p, i, first);
      DecodeReads(cfg, s, st.next, st.at, false, coefs[1..], end, d[cfg.scan[st.at] := st.val], Xor(m, st.val));
    }
  }

  // The coefficients that a list stands for.
  function ReadsOf(cfg: Config, list: seq<RunLevel>, i: int): (r: seq<Read>)
    requires cfg.Valid() && -1 <= i && LastAt(list, i) < 64
    ensures forall n | 0 <= n < |r| :: 0 <= r[n].at < 64
  {
    if list == [] then []
    else
      var at := i + list[0].run + 1;
      assert LastAt(list[1..], at) >= at;
      [Read(at, Stored(cfg, list[0].level, at))] + ReadsOf(cfg, list[1..], at)
  }

  // The list fits after position i.
  predicate Fits(cfg: Config, book: Book, list: seq<RunLevel>, i: int, first: bool)
  {
    cfg.Valid() && -1 <= i && LastAt(list, i) < 64 && AllEncodable(book, first, list)
  }

  // It is also written at p, with end of block.
  ghost predicate Written(cfg: Config, book: Book, list: seq<RunLevel>, s: seq<Bit>, p: nat, i: int, first: bool)
  {
    && Fits(cfg, book, list, i, first) && ValidBook(cfg, book)
    && (list == [] ==> first ==> !cfg.kind.NonIntra?) && (cfg.kind.IntraB15? ==> i >= 0)
    && HasAt(s, p, Encode(cfg.kind, book, first, list))
  }

  // The first level of a written list is read, and the rest is written after it.
  lemma HeadOfList(cfg: Config, book: Book, list: seq<RunLevel>, s: seq<Bit>, p: nat, i: int, first: bool)
    requires Written(cfg, book, list, s, p, i, first) && list != []
    ensures var at, p' := i + list[0].run + 1, p + |EncodeOne(book, first, list[0])|;
            at < 64 && cfg.StepAt(s, p, i, first) == Coef(at, Stored(cfg, list[0].level, at), p')
            && Written(cfg, book, list[1..], s, p', at, false)
            && p + |Encode(cfg.kind, book, first, list)| == p' + |Encode(cfg.kind, book, false, list[1..])|
  {
    hide HasAt, ValidBook, Stored, EncodeOne;
    assert LastAt(list[1..], i + list[0].run + 1) >= i + list[0].run + 1;
    HasAtSplit(s, p, EncodeOne(book, first, list[0]), Encode(cfg.kind, book, false, list[1..]));
    StepOfOne(cfg, book, s, p, i, first, list[0]);
  }

  // What is written is what is read, up to the bit after end of block.
  ghost predicate ReadBack(cfg: Config, book: Book, list: seq<RunLevel>, s: seq<Bit>, p: nat, i: int, first: bool,
                           end: Step)
    requires Fits(cfg, book, list, i, first)
  {
    && Reads(cfg, s, p, i, first, ReadsOf(cfg, list, i), end)
    && end.Stop? && end.next == p + |Encode(cfg.kind, book, first, list)|
    && (!cfg.kind.IntraB15? ==> end.at == LastAt(list, i) + 129)
  }

  lemma EndReads(cfg: Config, book: Book, s: seq<Bit>, p: nat, i: int, first: bool) returns (end: Step)
    requires Written(cfg, book, [], s, p, i, first)
    ensures ReadBack(cfg, book, [], s, p, i, first, end)
  {
    StepOfEnd(cfg, s, p, i, first);
    end := cfg.StepAt(s, p, i, first);
  }

  // The rest of a list, and where it is: what is read of it and the head make
  // up the whole.
  lemma TailOfList(cfg: Config, book: Book, list: seq<RunLevel>, s: seq<Bit>, p: nat, i: int, first: bool)
    returns (rest: seq<RunLevel>, p': nat, at: int)
    requires Written(cfg, book, list, s, p, i, first) && list != []
    ensures |rest| < |list| && Written(cfg, book, rest, s, p', at, false)
    ensures forall end ::
      ReadBack(cfg, book, rest, s, p', at, false, end) ==> ReadBack(cfg, book, list, s, p, i, first, end)
  {
    hide HasAt, ValidBook, Stored, EncodeOne, ReadBack;
    rest, p', at := list[1..], p + |EncodeOne(book, first, list[0])|, i + list[0].run + 1;
    HeadOfList(cfg, book, list, s, p, i, first);
    forall end | ReadBack(cfg, book, rest, s, p', at, false, end)
      ensures ReadBack(cfg, book, list, s, p, i, first, end)
    {
      HeadAndTail(cfg, book, list, s, p, i, first, rest, p', at, end);
    }
  }

  lemma HeadAndTail(cfg: Config, book: Book, list: seq<RunLevel>, s: seq<Bit>, p: nat, i: int, first: bool,
                    rest: seq<RunLevel>, p': nat, at: int, end: Step)
    requires Fits(cfg, book, list, i, first) && list != [] && Fits(cfg, book, rest, at, false)
    requires rest == list[1..] && at == i + list[0].run + 1 < 64 && p' == p + |EncodeOne(book, first, list[0])|
    requires i < 64 && cfg.StepAt(s, p, i, first) == Coef(at, Stored(cfg, list[0].level, at), p')
    requires ReadBack(cfg, book, rest, s, p', at, false, end)
    ensures ReadBack(cfg, book, list, s, p, i, first, end)
  {
    assert ReadsOf(cfg, list, i)[1..] == ReadsOf(cfg, rest, at);
  }

  lemma {:induction false} EncodedReads(cfg: Config, book: Book, list: seq<RunLevel>, s: seq<Bit>, p: nat, i: int,
                                        first: bool)
    returns (end: Step)
    requires Written(cfg, book, list, s, p, i, first)
    ensures ReadBack(cfg, book, list, s, p, i, first, end)
    decreases |list|
  {
    if list == [] {
      end := EndReads(cfg, book, s, p, i, first);
    } else {
      var rest, p', at := TailOfList(cfg, book, list, s, p, i, first);
      end := EncodedReads(cfg, book, rest, s, p', at, false);
    }
  }

  // Collecting the coefficients of a list places them and keeps the invariant.
  lemma {:induction false} CollectPlaces(cfg: Config, list: seq<RunLevel>, i: int, d: seq<int>, m: int)
    requires Inv(cfg, i, d, m) && LastAt(list, i) < 64
    ensures var (d', m') := Collect(cfg, ReadsOf(cfg, list, i), d, m);
            d' == Place(cfg, list, i, d) && Inv(cfg, LastAt(list, i), d', m')
  {
    if list != [] {
      var at := i + list[0].run + 1;
      assert LastAt(list[1..], at) >= at;
      var v := Stored(cfg, list[0].level, at);
      StoreKeepsInv(cfg, i, d, m, at, v);
      CollectPlaces(cfg, list[1..], at, d[cfg.scan[at] := v], Xor(m, v));
      CollectCons(cfg, Read(at, v), ReadsOf(cfg, list[1..], at), d, m);
    }
  }

  lemma CollectCons(cfg: Config, r: Read, coefs: seq<Read>, d: seq<int>, m: int)
    requires cfg.Valid() && |d| == 64 && 0 <= r.at < 64 && forall n | 0 <= n < |coefs| :: 0 <= coefs[n].at < 64
    ensures Collect(cfg, [r] + coefs, d, m) == Collect(cfg, coefs, d[cfg.scan[r.at] := r.val], Xor(m, r.val))
  {
    assert ([r] + coefs)[1..] == coefs;
  }

  // The position before the first coefficient of a list: the DC coefficient of
  // an intra block is not among them.
  function Origin(kind: Kind): (i: int)
    ensures kind.NonIntra? ==> i == -1
    ensures !kind.NonIntra? ==> i == 0
  {
    if kind.NonIntra? then -1 else 0
  }

  // Round trip: whatever run/level list is written at position p of a stream,
  // in code words or escapes, the decoder stores its reconstruction with
  // mismatch control applied and stops on the bit after end of block.
  lemma RoundTrip(cfg: Config, list: seq<RunLevel>, s: seq<Bit>, p: nat, d: seq<int>)
    requires cfg.Valid() && |d| == 64
    requires AllEncodable(StandardBook(cfg.kind), true, list) && LastAt(list, Origin(cfg.kind)) < 64
    requires cfg.kind.NonIntra? ==> list != []
    requires forall k | 1 <= k < 64 :: d[k] == 0
    requires if cfg.kind.NonIntra? then d[0] == 0 else d[0] % 16 == 0 && -32768 <= d[0] <= 32752
    requires HasAt(s, p, Encode(cfg.kind, StandardBook(cfg.kind), true, list))
    ensures var i := Origin(cfg.kind);
            var out := cfg.Decode(s, p, i, true, d, if cfg.kind.NonIntra? then -1 else -1 - d[0]);
            && out.dest == MismatchControl(Place(cfg, list, i, d))
            && out.pos == p + |Encode(cfg.kind, StandardBook(cfg.kind), true, list)|
            && (!cfg.kind.IntraB15? ==> out.last == LastAt(list, i) + 129)
  {
    StandardBookValid(cfg);
    RoundTripOfBook(cfg, StandardBook(cfg.kind), list, s, p, d, if cfg.kind.NonIntra? then -1 else -1 - d[0]);
  }

  lemma RoundTripOfBook(cfg: Config, book: Book, list: seq<RunLevel>, s: seq<Bit>, p: nat, d: seq<int>, m: int)
    requires cfg.Valid() && |d| == 64 && ValidBook(cfg, book)
    requires AllEncodable(book, true, list) && LastAt(list, Origin(cfg.kind)) < 64
    requires cfg.kind.NonIntra? ==> list != []
    requires forall k | 1 <= k < 64 :: d[k] == 0
    requires if cfg.kind.NonIntra? then d[0] == 0 else d[0] % 16 == 0 && -32768 <= d[0] <= 32752
    requires m == if cfg.kind.NonIntra? then -1 else -1 - d[0]
    requires HasAt(s, p, Encode(cfg.kind, book, true, list))
    ensures var i := Origin(cfg.kind);
            var out := cfg.Decode(s, p, i, true, d, m);
            && out.dest == MismatchControl(Place(cfg, list, i, d))
            && out.pos == p + |Encode(cfg.kind, book, true, list)|
            && (!cfg.kind.IntraB15? ==> out.last == LastAt(list, i) + 129)
  {
    var i := Origin(cfg.kind);
    InvStart(cfg, d);
    CollectPlaces(cfg, list, i, d, m);
    var end := EncodedReads(cfg, book, list, s, p, i, true);
    DecodeReads(cfg, s, p, i, true, ReadsOf(cfg, list, i), end, d, m);
    var (d', m') := Collect(cfg, ReadsOf(cfg, list, i), d, m);
    StopCorrects(cfg, LastAt(list, i), d', m');
  }
}
