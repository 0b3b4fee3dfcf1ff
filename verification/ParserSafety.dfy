// What every run of the parser keeps, whatever bytes it is fed: which codes
// reach the header and slice functions, and what their chunks look like.
module ParserSafety {
  import opened Words
  import opened Parser

  // The scanner's register after data, from a register.
  function ShiftAfter(shift: nat, data: seq<Byte>): nat
  {
    if data == [] then shift else NextShift(ShiftAfter(shift, data[..|data| - 1]), data[|data| - 1])
  }

  // The bytes 00 00 01 end at position k.
  predicate PrefixAt(data: seq<Byte>, k: nat)
  {
    3 <= k <= |data| && data[k - 3] == 0 && data[k - 2] == 0 && data[k - 1] == 1
  }

  function Word24(a: int, b: int, c: int): int
  {
    a * 65536 + b * 256 + c
  }

  // The last three bytes, padded with ff at the front.
  function LastThree(data: seq<Byte>): (w: int)
    ensures 0 <= w < 0x100_0000
  {
    var n := |data|;
    if n == 0 then 0xff_ffff
    else if n == 1 then Word24(0xff, 0xff, data[0])
    else if n == 2 then Word24(0xff, data[0], data[1])
    else Word24(data[n - 3], data[n - 2], data[n - 1])
  }

  lemma NextShiftValue(a: int, b: int, c: int, d: Byte)
    requires 0 <= a < 256 && 0 <= b < 256 && 0 <= c < 256
    ensures NextShift(Word24(a, b, c) * 256, d) == Word24(b, c, d) * 256
  {
    assert Pow2(8) == 256 by { Pow2Values(); }
    OrDisjoint(Word24(a, b, c), d, 8);
    DivUnique((Word24(a, b, c) * 256 + d) * 256, TWO_32, a, Word24(b, c, d) * 256);
  }

  // The register holds the last three bytes above a zero byte.
  lemma {:induction false} ShiftAfterValue(data: seq<Byte>)
    ensures ShiftAfter(RESET, data) == LastThree(data) * 256
  {
    var n := |data|;
    if n > 0 {
      var d := data[..n - 1];
      ShiftAfterValue(d);
      if n == 1 { NextShiftValue(0xff, 0xff, 0xff, data[0]); }
      else if n == 2 { NextShiftValue(0xff, 0xff, d[0], data[1]); }
      else if n == 3 { NextShiftValue(0xff, d[0], d[1], data[2]); }
      else { NextShiftValue(d[n - 4], d[n - 3], d[n - 2], data[n - 1]); }
    }
  }

  // The scanner has seen a start-code prefix exactly when 00 00 01 came last.
  lemma ShiftIsPrefix(data: seq<Byte>)
    ensures ShiftAfter(RESET, data) == PREFIX <==> PrefixAt(data, |data|)
  {
    ShiftAfterValue(data);
  }

  predicate FirstPrefixIsLast(chunk: seq<Byte>)
  {
    forall k :: 0 <= k < |chunk| ==> !PrefixAt(chunk, k)
  }

  // A chunk runs up to and including the next 00 00 01.
  predicate Terminated(chunk: seq<Byte>)
  {
    PrefixAt(chunk, |chunk|) && FirstPrefixIsLast(chunk)
  }

  predicate Dispatched(code: nat)
  {
    code == 0 || code == 0xb2 || code == 0xb3 || code == 0xb5 || code == 0xb8
  }

  // Header functions get the five codes they exist for, slice decoding gets
  // slice codes, and both get whole chunks.
  predicate Proper(e: Event)
  {
    match e
    case Returned(_) => true
    case Handled(code, chunk) => Dispatched(code) && Terminated(chunk)
    case Sliced(code, chunk) => 1 <= code < 0xb0 && Terminated(chunk)
  }

  predicate Sound<H>(m: Machine<H>)
  {
    && (m.action == ParseHeader ==> Dispatched(m.code))
    && 1 <= m.firstSlice <= m.firstSlice + m.nbSlices <= 0xb0
    && (!Copying(m) ==> m.chunk == [])
    && (ModeOf(m) == Eager ==> m.shift == RESET)
    && (Copying(m) ==> m.shift == ShiftAfter(RESET, m.chunk) && FirstPrefixIsLast(m.chunk))
  }

  lemma CopyByte<H>(hs: Headers<H>, m: Machine<H>, b: Byte)
    requires Sound(m) && Copying(m) && m.shift != PREFIX
    ensures var r := ByteStep(hs, m, b); r.Go? && r.events == [] && Sound(r.m)
  {
    var d := m.chunk + [b];
    ShiftIsPrefix(m.chunk);
    assert d[..|d| - 1] == m.chunk;
    forall k | 0 <= k < |d|
      ensures !PrefixAt(d, k)
    {
      assert PrefixAt(d, k) == PrefixAt(m.chunk, k);
    }
  }

  lemma HeaderKeepsSound<H>(hs: Headers<H>, m: Machine<H>, b: Byte)
    requires Sound(m) && m.action == ParseHeader && Terminated(m.chunk)
    ensures var r := EndOfHeader(hs, m, b); r.Go? && Sound(r.m) && (forall e <- r.events :: Proper(e))
  {
  }

  lemma EagerKeepsSound<H>(hs: Headers<H>, m: Machine<H>)
    requires Sound(m) && ModeOf(m) == Eager
    ensures var r := EagerStep(hs, m); r.Go? && Sound(r.m) && (forall e <- r.events :: Proper(e))
  {
  }

  lemma StepKeepsSound<H>(hs: Headers<H>, m: Machine<H>, data: seq<Byte>)
    requires Sound(m) && !Idle(m, data)
    ensures var r := Next(hs, m, data);
      (r.Go? ==> Sound(r.m)) && (forall e <- r.events :: Proper(e))
  {
    if ModeOf(m) == Eager {
      EagerKeepsSound(hs, m);
    } else if Stuck(m) || ModeOf(m) == Skip {
    } else if m.shift != PREFIX {
      CopyByte(hs, m, data[0]);
    } else {
      ShiftIsPrefix(m.chunk);
      assert Terminated(m.chunk);
      if m.action == ParseHeader { HeaderKeepsSound(hs, m, data[0]); }
    }
  }

  // Whatever the data of a buffer, every chunk handed over is proper.
  lemma {:induction false} EveryChunkIsProper<H>(hs: Headers<H>, m: Machine<H>, data: seq<Byte>)
    requires Sound(m)
    ensures var r := Run(hs, m, data);
      (r.Go? ==> Sound(r.m)) && (forall e <- r.events :: Proper(e))
    decreases |data|, Rank(m)
  {
    if !Idle(m, data) {
      StepKeepsSound(hs, m, data);
      var st := Next(hs, m, data);
      if st.Go? {
        StepDecreases(hs, m, data);
        EveryChunkIsProper(hs, st.m, Left(m, data));
      }
    }
  }

  predicate Steady<H>(m: Machine<H>)
  {
    m.action != SeekChunk && !m.inLoop
  }

  lemma StepKeepsSteady<H>(hs: Headers<H>, m: Machine<H>, data: seq<Byte>)
    requires Steady(m) && !Idle(m, data)
    ensures var r := Next(hs, m, data);
      (r.Go? ==> Steady(r.m)) || Returned(Invalid) in r.events
  {
  }

  // SeekChunk is stored only together with an error.
  lemma {:induction false} NoErrorKeepsSteady<H>(hs: Headers<H>, m: Machine<H>, data: seq<Byte>)
    requires Steady(m) && Returned(Invalid) !in Run(hs, m, data).events
    ensures var r := Run(hs, m, data); r.Go? ==> Steady(r.m)
    decreases |data|, Rank(m)
  {
    if !Idle(m, data) {
      StepKeepsSteady(hs, m, data);
      var st := Next(hs, m, data);
      if st.Go? {
        StepDecreases(hs, m, data);
        NoErrorKeepsSteady(hs, st.m, Left(m, data));
      }
    }
  }

  // A stream without errors may be cut anywhere.
  lemma {:induction false} NoErrorSplit<H>(hs: Headers<H>, m: Machine<H>, buffers: seq<seq<Byte>>)
    requires Steady(m) && ModeOf(m) != Eager
    requires Returned(Invalid) !in Run(hs, m, Concat(buffers)).events
    ensures RunAll(hs, m, buffers) == Run(hs, m, Concat(buffers))
    decreases |buffers|
  {
    if buffers != [] {
      RunSplit(hs, m, buffers[0], Concat(buffers[1..]));
      var r := Run(hs, m, buffers[0]);
      NoErrorKeepsSteady(hs, m, buffers[0]);
      if r.Go? {
        NoErrorSplit(hs, r.m, buffers[1..]);
      }
    }
  }

  lemma RunByte<H>(hs: Headers<H>, m: Machine<H>, b: Byte, more: seq<Byte>)
    requires ModeOf(m) != Eager && !Stuck(m)
    ensures Run(hs, m, [b] + more) == Then(hs, ByteStep(hs, m, b), more)
  {
    assert ([b] + more)[1..] == more;
  }

  lemma SkipByte<H>(hs: Headers<H>, m: Machine<H>, b: Byte, next: nat, more: seq<Byte>)
    requires ModeOf(m) == Skip && m.shift != PREFIX && next == NextShift(m.shift, b)
    ensures Run(hs, m, [b] + more) == Run(hs, m.(shift := next), more)
  {
    RunByte(hs, m, b, more);
    PrependNothing(Run(hs, m.(shift := next), more));
  }

  lemma CopyOne<H>(hs: Headers<H>, m: Machine<H>, b: Byte, next: nat, more: seq<Byte>)
    requires ModeOf(m) == CopySlice && m.shift != PREFIX && next == NextShift(m.shift, b) && !Full(m)
    ensures Run(hs, m, [b] + more) == Run(hs, m.(shift := next, chunk := m.chunk + [b]), more)
  {
    RunByte(hs, m, b, more);
    PrependNothing(Run(hs, m.(shift := next, chunk := m.chunk + [b]), more));
  }

  lemma OneMore(c: seq<Byte>, d: seq<Byte>)
    requires d != []
    ensures (c + [d[0]]) + d[1..] == c + d && ShiftAfter(RESET, c + [d[0]]) == NextShift(ShiftAfter(RESET, c), d[0])
    ensures Terminated(c + d) ==> ShiftAfter(RESET, c) != PREFIX
  {
    assert (c + [d[0]])[..|c|] == c;
    ShiftIsPrefix(c);
    assert PrefixAt(c + d, |c|) == PrefixAt(c, |c|);
  }

  // A slice of which d is still to come does not go unnoticed.
  lemma {:induction false} SliceSeen<H>(hs: Headers<H>, m: Machine<H>, d: seq<Byte>)
    requires ModeOf(m) == CopySlice && m.shift == ShiftAfter(RESET, m.chunk) && Terminated(m.chunk + d)
    ensures Run(hs, m, d + [1]).events != []
    decreases |d|
  {
    if d == [] {
      assert m.chunk + d == m.chunk;
      ShiftIsPrefix(m.chunk);
    } else if !Stuck(m) {
      OneMore(m.chunk, d);
      var n := m.(shift := NextShift(m.shift, d[0]), chunk := m.chunk + [d[0]]);
      assert d + [1] == [d[0]] + (d[1..] + [1]);
      CopyOne(hs, m, d[0], n.shift, d[1..] + [1]);
      SliceSeen(hs, n, d[1..]);
    }
  }

  // Nothing is seen of it by a call that starts in its middle, after c.
  lemma {:induction false} SliceSkipped<H>(hs: Headers<H>, m: Machine<H>, c: seq<Byte>, d: seq<Byte>)
    requires m.action == SeekChunk && !m.inLoop && m.shift == ShiftAfter(RESET, c) && Terminated(c + d)
    ensures Run(hs, m, d + [1]).events == []
    decreases |d|
  {
    if d == [] {
      assert c + d == c && (d + [1])[1..] == [];
      ShiftIsPrefix(c);
    } else {
      OneMore(c, d);
      assert d + [1] == [d[0]] + (d[1..] + [1]);
      SkipByte(hs, m, d[0], NextShift(m.shift, d[0]), d[1..] + [1]);
      SliceSkipped(hs, m.(shift := NextShift(m.shift, d[0])), c + [d[0]], d[1..]);
    }
  }

  lemma Completed(c: seq<Byte>) returns (d: seq<Byte>)
    requires FirstPrefixIsLast(c)
    ensures Terminated(c + d)
  {
    d := if PrefixAt(c, |c|) then [] else [0, 0, 1];
    assert c + [] == c;
    forall k | 0 <= k < |c + d|
      ensures !PrefixAt(c + d, k)
    {
      if k <= |c| { assert PrefixAt(c + d, k) == PrefixAt(c, k); }
    }
  }

  // A return for want of data goes unnoticed, whatever comes next, exactly when
  // no slice is being copied with SeekChunk stored. That happens only after an
  // error: after an unknown code, say, which leaves SeekChunk stored.
  lemma CutHarmlessExactly<H>(hs: Headers<H>, m: Machine<H>)
    requires Sound(m) && Tidy(m) && ModeOf(m) != Eager
    ensures (forall data :: Alike(Run(hs, m, data), Run(hs, Boundary(m), data))) <==> !Losing(m)
  {
    if Losing(m) {
      var d := Completed(m.chunk);
      SliceSeen(hs, m, d);
      SliceSkipped(hs, Boundary(m), m.chunk, d);
      assert !Alike(Run(hs, m, d + [1]), Run(hs, Boundary(m), d + [1]));
    } else {
      forall data
        ensures Alike(Run(hs, m, data), Run(hs, Boundary(m), data))
      {
        CutHarmless(hs, m, data);
      }
    }
  }

  // ---- Bytes that a cut leaves in the chunk buffer ----

  // A return for want of data leaves bytes of a slice in the chunk buffer that
  // the next call does not expect there.
  predicate Dirty<H>(m: Machine<H>)
  {
    Losing(m) && m.chunk != []
  }

  // The next call starts from a sound machine exactly when it does not.
  lemma SoundBoundary<H>(m: Machine<H>)
    requires Sound(m) && Tidy(m) && ModeOf(m) != Eager
    ensures Sound(Boundary(m)) <==> !Dirty(m)
    ensures Tidy(Boundary(m)) && ModeOf(Boundary(m)) != Eager
  {
  }

  // No buffer but the last leaves such bytes.
  predicate CleanCuts<H>(hs: Headers<H>, m: Machine<H>, buffers: seq<seq<Byte>>)
    decreases |buffers|
  {
    |buffers| > 1 && Run(hs, m, buffers[0]).Go? ==>
      var n := Run(hs, m, buffers[0]).m;
      !Dirty(n) && CleanCuts(hs, Boundary(n), buffers[1..])
  }

  // Then every chunk is proper, also where a slice is lost.
  lemma {:induction false} BuffersProper<H>(hs: Headers<H>, m: Machine<H>, buffers: seq<seq<Byte>>)
    requires Sound(m) && Tidy(m) && ModeOf(m) != Eager && CleanCuts(hs, m, buffers)
    ensures forall e <- RunAll(hs, m, buffers).events :: Proper(e)
    decreases |buffers|
  {
    if buffers != [] {
      EveryChunkIsProper(hs, m, buffers[0]);
      RunTidy(hs, m, buffers[0]);
      var r := Run(hs, m, buffers[0]);
      if r.Go? && |buffers| > 1 {
        SoundBoundary(r.m);
        BuffersProper(hs, Boundary(r.m), buffers[1..]);
      }
    }
  }

  // Harmless cuts leave none.
  lemma {:induction false} HarmlessClean<H>(hs: Headers<H>, m: Machine<H>, buffers: seq<seq<Byte>>)
    requires HarmlessCuts(hs, m, buffers)
    ensures CleanCuts(hs, m, buffers)
    decreases |buffers|
  {
    if |buffers| > 1 && Run(hs, m, buffers[0]).Go? {
      HarmlessClean(hs, Boundary(Run(hs, m, buffers[0]).m), buffers[1..]);
    }
  }

  // With cuts that change nothing, handlers see proper chunks and the events
  // of the whole.
  lemma HarmlessProper<H>(hs: Headers<H>, m: Machine<H>, buffers: seq<seq<Byte>>)
    requires Sound(m) && Tidy(m) && ModeOf(m) != Eager && HarmlessCuts(hs, m, buffers)
    ensures RunAll(hs, m, buffers).events == Run(hs, m, Concat(buffers)).events
    ensures forall e <- RunAll(hs, m, buffers).events :: Proper(e)
  {
    BufferSplitInvariance(hs, m, buffers);
    HarmlessClean(hs, m, buffers);
    BuffersProper(hs, m, buffers);
  }

  // Room for d in the chunk buffer, and for the code after it.
  predicate Fits<H>(m: Machine<H>, d: seq<Byte>)
  {
    |m.user| + |m.chunk| + |d| < BUFFER_SIZE
  }

  // The scanner's register after d, which has no start-code prefix before its
  // end.
  function ShiftPast(shift: nat, d: seq<Byte>): nat
    decreases |d|
  {
    if d == [] then shift else ShiftPast(NextShift(shift, d[0]), d[1..])
  }

  predicate Quiet(shift: nat, d: seq<Byte>)
    decreases |d|
  {
    d == [] || (shift != PREFIX && Quiet(NextShift(shift, d[0]), d[1..]))
  }

  lemma {:induction false} QuietRest(c: seq<Byte>, d: seq<Byte>)
    requires FirstPrefixIsLast(c + d)
    ensures Quiet(ShiftAfter(RESET, c), d) && ShiftPast(ShiftAfter(RESET, c), d) == ShiftAfter(RESET, c + d)
    decreases |d|
  {
    if d == [] {
      assert c + d == c;
    } else {
      NotYet(c, d);
      OneMore(c, d);
      QuietRest(c + [d[0]], d[1..]);
    }
  }

  function AfterCopying<H>(m: Machine<H>, d: seq<Byte>): Machine<H>
  {
    m.(shift := ShiftPast(m.shift, d), chunk := m.chunk + d)
  }

  lemma CopyFirst<H>(hs: Headers<H>, m: Machine<H>, d: seq<Byte>, more: seq<Byte>)
    requires Copying(m) && |m.user| + |m.chunk| + |d| <= BUFFER_SIZE && d != [] && m.shift != PREFIX
    ensures Run(hs, m, d + more) == Run(hs, AfterCopying(m, [d[0]]), d[1..] + more)
    ensures AfterCopying(AfterCopying(m, [d[0]]), d[1..]) == AfterCopying(m, d)
    ensures AfterCopying(m, [d[0]]).shift == NextShift(m.shift, d[0])
  {
    var b := [d[0]];
    assert b[1..] == [] && ShiftPast(m.shift, b) == ShiftPast(NextShift(m.shift, d[0]), b[1..]);
    assert d + more == b + (d[1..] + more);
    RunByte(hs, m, d[0], d[1..] + more);
    PrependNothing(Run(hs, AfterCopying(m, b), d[1..] + more));
    assert (m.chunk + b) + d[1..] == m.chunk + d;
  }

  // Copying the rest of a chunk.
  lemma {:induction false} CopyRest<H>(hs: Headers<H>, m: Machine<H>, d: seq<Byte>, more: seq<Byte>)
    requires Copying(m) && |m.user| + |m.chunk| + |d| <= BUFFER_SIZE && Quiet(m.shift, d)
    ensures Run(hs, m, d + more) == Run(hs, AfterCopying(m, d), more)
    decreases |d|
  {
    if d == [] {
      assert m.chunk + d == m.chunk && d + more == more;
    } else {
      CopyFirst(hs, m, d, more);
      var n := AfterCopying(m, [d[0]]);
      CopyRest(hs, n, d[1..], more);
    }
  }

  lemma NotYet(c: seq<Byte>, d: seq<Byte>)
    requires FirstPrefixIsLast(c + d) && d != []
    ensures ShiftAfter(RESET, c) != PREFIX
  {
    ShiftIsPrefix(c);
    assert PrefixAt(c + d, |c|) == PrefixAt(c, |c|);
  }

  // Skipping up to a start code of which c has been seen.
  lemma {:induction false} SkipRest<H>(hs: Headers<H>, m: Machine<H>, c: seq<Byte>, d: seq<Byte>, b: Byte,
                                       more: seq<Byte>)
    requires ModeOf(m) == Skip && m.shift == ShiftAfter(RESET, c) && Terminated(c + d)
    ensures Run(hs, m, d + ([b] + more)) == Run(hs, Skipped(m, b), more)
    decreases |d|
  {
    if d == [] {
      assert c + d == c && d + ([b] + more) == [b] + more;
      ShiftIsPrefix(c);
      RunByte(hs, m, b, more);
      PrependNothing(Run(hs, Skipped(m, b), more));
    } else {
      NotYet(c, d);
      OneMore(c, d);
      assert d + ([b] + more) == [d[0]] + (d[1..] + ([b] + more));
      SkipByte(hs, m, d[0], NextShift(m.shift, d[0]), d[1..] + ([b] + more));
      SkipRest(hs, m.(shift := NextShift(m.shift, d[0])), c + [d[0]], d[1..], b, more);
    }
  }

  // The rest of a slice of which c has been seen, with what is in the chunk
  // buffer already.
  lemma SliceRest<H>(hs: Headers<H>, m: Machine<H>, c: seq<Byte>, d: seq<Byte>, b: Byte, more: seq<Byte>)
    requires ModeOf(m) == CopySlice && Fits(m, d) && m.shift == ShiftAfter(RESET, c) && Terminated(c + d)
    ensures Run(hs, m, d + ([b] + more))
         == Prepend([Sliced(m.code, m.chunk + d)], Run(hs, AfterSlice(hs, m, m.chunk + d, b), more))
  {
    QuietRest(c, d);
    CopyRest(hs, m, d, [b] + more);
    ShiftIsPrefix(c + d);
    RunByte(hs, m.(shift := PREFIX, chunk := m.chunk + d), b, more);
  }

  // The code after a header.
  lemma HeaderEnds<H>(hs: Headers<H>, m: Machine<H>, b: Byte, more: seq<Byte>)
    requires m.action == ParseHeader && m.shift == PREFIX && !Full(m)
    ensures var s := EndOfHeader(hs, m, b); s.Go? && Run(hs, m, [b] + more) == Prepend(s.events, Run(hs, s.m, more))
  {
    RunByte(hs, m, b, more);
  }

  // A whole header, and the code after it.
  lemma WholeHeader<H>(hs: Headers<H>, m: Machine<H>, d: seq<Byte>, b: Byte, more: seq<Byte>)
    requires m.action == ParseHeader && m.chunk == [] && m.shift == RESET && Terminated(d) && Fits(m, d)
    ensures var s := EndOfHeader(hs, m.(shift := PREFIX, chunk := d), b);
      s.Go? && Run(hs, m, d + ([b] + more)) == Prepend(s.events, Run(hs, s.m, more))
  {
    var c: seq<Byte> := [];
    assert c + d == d && ShiftAfter(RESET, c) == RESET && m.chunk + d == d;
    hide Quiet, ShiftAfter, ShiftPast, EndOfHeader;
    QuietRest(c, d);
    ShiftIsPrefix(d);
    CopyRest(hs, m, d, [b] + more);
    HeaderEnds(hs, m.(shift := PREFIX, chunk := d), b, more);
  }

  // A part of a run: from m, data leads to n with e seen on the way.
  ghost predicate Leads<H>(hs: Headers<H>, m: Machine<H>, data: seq<Byte>, e: seq<Event>, n: Machine<H>,
                           rest: seq<Byte>)
  {
    Run(hs, m, data) == Prepend(e, Run(hs, n, rest))
  }

  lemma LeadsOn<H>(hs: Headers<H>, m: Machine<H>, data: seq<Byte>, e: seq<Event>, n: Machine<H>, rest: seq<Byte>,
                   f: seq<Event>, k: Machine<H>, last: seq<Byte>)
    requires Leads(hs, m, data, e, n, rest) && Leads(hs, n, rest, f, k, last)
    ensures Leads(hs, m, data, e + f, k, last)
  {
    PrependTwice(e, f, Run(hs, k, last));
  }

  lemma LeadsEager<H>(hs: Headers<H>, m: Machine<H>, data: seq<Byte>)
    requires ModeOf(m) == Eager
    ensures var s := EagerStep(hs, m); s.Go? && Leads(hs, m, data, s.events, s.m, data)
  {
  }

  // A whole header, of code m.code, and the code after it.
  lemma LeadsHeader<H>(hs: Headers<H>, m: Machine<H>, d: seq<Byte>, b: Byte, more: seq<Byte>)
    requires m.action == ParseHeader && m.chunk == [] && m.shift == RESET && Terminated(d) && Fits(m, d)
    ensures var s := EndOfHeader(hs, m.(shift := PREFIX, chunk := d), b);
      s.Go? && Leads(hs, m, d + ([b] + more), s.events, s.m, more)
  {
    WholeHeader(hs, m, d, b, more);
  }

  // A whole slice, of code m.code, and the code after it.
  lemma LeadsSlice<H>(hs: Headers<H>, m: Machine<H>, d: seq<Byte>, b: Byte, more: seq<Byte>)
    requires ModeOf(m) == CopySlice && m.chunk == [] && m.shift == RESET && Terminated(d) && Fits(m, d)
    ensures Leads(hs, m, d + ([b] + more), [Sliced(m.code, d)], AfterSlice(hs, m, d, b), more)
  {
    var c: seq<Byte> := [];
    assert c + d == d;
    SliceRest(hs, m, c, d, b, more);
  }

  // A start code while skipping.
  lemma LeadsSkip<H>(hs: Headers<H>, m: Machine<H>, d: seq<Byte>, b: Byte, more: seq<Byte>)
    requires ModeOf(m) == Skip && m.shift == RESET && Terminated(d)
    ensures Leads(hs, m, d + ([b] + more), [], Skipped(m, b), more)
  {
    var c: seq<Byte> := [];
    assert c + d == d;
    SkipRest(hs, m, c, d, b, more);
    PrependNothing(Run(hs, Skipped(m, b), more));
  }

  // A cut in slice n.code, after which d ends that slice and e is the next one,
  // b. The slice n.code is not decoded, and what it left in the chunk buffer
  // goes before e: slice b gets its own bytes alone exactly when the cut left
  // none.
  lemma NextSliceAfterCut<H>(hs: Headers<H>, n: Machine<H>, d: seq<Byte>, b: Byte, e: seq<Byte>, b': Byte,
                             more: seq<Byte>)
    requires Sound(n) && Losing(n) && Terminated(n.chunk + d) && Terminated(e)
    requires 0 <= b - n.firstSlice < n.nbSlices && Fits(n, d) && Fits(n, e)
    ensures var data := d + ([b] + (e + ([b'] + more)));
      var (whole, cut) := (Run(hs, n, data).events, Run(hs, Boundary(n), data).events);
      && |whole| >= 2 && whole[0] == Sliced(n.code, n.chunk + d) && whole[1] == Sliced(b, e)
      && |cut| >= 1 && cut[0] == Sliced(b, n.chunk + e)
      && (cut[0] == whole[1] <==> !Dirty(n))
  {
    hide Quiet, ShiftPast, FirstPrefixIsLast, Terminated;
    var rest := e + ([b'] + more);
    SliceRest(hs, n, n.chunk, d, b, rest);
    FreshSlice(hs, AfterSlice(hs, n, n.chunk + d, b), e, b', more);
    SkipRest(hs, Boundary(n), n.chunk, d, b, rest);
    FreshSlice(hs, Skipped(Boundary(n), b), e, b', more);
    assert [] + e == e;
    assert n.chunk + e == e <==> n.chunk == [];
  }

  // A slice of which nothing has been seen.
  lemma FreshSlice<H>(hs: Headers<H>, m: Machine<H>, e: seq<Byte>, b: Byte, more: seq<Byte>)
    requires ModeOf(m) == CopySlice && Fits(m, e) && m.shift == RESET && Terminated(e)
    ensures var seen := Run(hs, m, e + ([b] + more)).events; |seen| >= 1 && seen[0] == Sliced(m.code, m.chunk + e)
  {
    hide Quiet, ShiftPast, FirstPrefixIsLast, Terminated;
    assert [] + e == e;
    SliceRest(hs, m, [], e, b, more);
  }

  // Any other code: the bytes stay in the chunk buffer unless a header or the
  // end of the sequence comes.
  lemma CodeAfterCut<H>(hs: Headers<H>, n: Machine<H>, d: seq<Byte>, b: Byte)
    requires Sound(n) && Losing(n) && Terminated(n.chunk + d)
    ensures var r := Run(hs, Boundary(n), d + [b]);
      r.Go? && r.m.chunk == if b == 0 || b == 0xb3 || b == 0xb7 || b == 0xb8 then [] else n.chunk
  {
    var m := Skipped(Boundary(n), b);
    assert d + [b] == d + ([b] + []);
    SkipRest(hs, Boundary(n), n.chunk, d, b, []);
    CodeSettles(hs, m, []);
  }

  lemma CodeSettles<H>(hs: Headers<H>, m: Machine<H>, none: seq<Byte>)
    requires m.action == SeekChunk && m.inLoop && 1 <= m.firstSlice <= m.firstSlice + m.nbSlices <= 0xb0 && none == []
    ensures var r := Run(hs, m, none);
      r.Go? && r.m.chunk == if m.code == 0 || m.code == 0xb3 || m.code == 0xb7 || m.code == 0xb8 then [] else m.chunk
  {
    if ModeOf(m) == Eager {
      var r := EagerStep(hs, m);
      assert Run(hs, m, none) == Prepend(r.events, Run(hs, r.m, none));
      if r.m.action == SeekHeader { HeaderSettles(hs, r.m, none); }
    }
  }

  lemma HeaderSettles<H>(hs: Headers<H>, m: Machine<H>, none: seq<Byte>)
    requires m.action == SeekHeader && !m.inLoop && m.chunk == [] && none == []
    ensures var r := Run(hs, m, none); r.Go? && r.m.chunk == []
    decreases m.known
  {
    if ModeOf(m) == Eager {
      var r := EagerStep(hs, m);
      assert Run(hs, m, none) == Prepend(r.events, Run(hs, r.m, none));
      if r.m.action == SeekSequence {
        var t := EagerStep(hs, r.m);
        assert Run(hs, r.m, none) == Prepend(t.events, Run(hs, t.m, none));
        HeaderSettles(hs, t.m, none);
      }
    }
  }
}
