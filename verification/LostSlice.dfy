// Split invariance fails at a real input: from a reset decoder, two buffers in
// which a cut loses a slice and puts what had been copied of it in front of the
// next one.
module LostSlice {
  import opened Words
  import opened Parser
  import opened ParserSafety
  import opened HeaderStates

  // Headers without errors, of frame pictures that are not B pictures.
  function Plain(): (r: Reading)
  {
    Reading((code: nat, chunk: seq<Byte>) => false, (chunk: seq<Byte>) => false, (chunk: seq<Byte>) => 2,
            (h: Slots, user: seq<Byte>) => Fresh)
  }

  ghost predicate IsPlain(r: Reading)
  {
    (forall code, chunk :: !r.bad(code, chunk)) && forall h, user :: r.repeat(h, user) == Fresh
  }

  // What matters of a machine that decodes all slices of a known sequence.
  predicate Known(m: Machine<Slots>)
  {
    m.known && m.firstSlice == 1 && m.nbSlices == 0xaf && m.user == [] && m.chunk == [] && m.shift == RESET
  }

  // ---- A sequence header, a picture header, a slice and an unknown code ----

  lemma SequenceHeader(r: Reading, prefix: seq<Byte>, header: seq<Byte>, more: seq<Byte>) returns (n: Machine<Slots>)
    requires IsPlain(r) && Terminated(prefix) && Terminated(header) && |header| < BUFFER_SIZE
    ensures Leads(HeadersOf(r), Start(), prefix + ([0xb3] + (header + ([0] + more))),
                  [Handled(0xb3, header), Returned(Sequence)], n, more)
    ensures Known(n) && n.action == ParseHeader && n.code == 0 && !n.inLoop && n.h.state == Sequence
  {
    hide Leads;
    var data := header + ([0] + more);
    LeadsSkip(HeadersOf(r), Start(), prefix, 0xb3, data);
    var m := Skipped(Start(), 0xb3);
    LeadsEager(HeadersOf(r), m, data);
    var k := EagerStep(HeadersOf(r), m).m;
    LeadsOn(HeadersOf(r), Start(), prefix + ([0xb3] + data), [], m, data, [], k, data);
    LeadsHeader(HeadersOf(r), k, header, 0, more);
    var e := EndOfHeader(HeadersOf(r), k.(shift := PREFIX, chunk := header), 0);
    n := e.m;
    var none: seq<Event> := [];
    LeadsOn(HeadersOf(r), Start(), prefix + ([0xb3] + data), none + none, k, data, e.events, n, more);
    assert none + none + e.events == e.events == [Handled(0xb3, header), Returned(Sequence)];
  }

  lemma PictureHeader(r: Reading, m: Machine<Slots>, header: seq<Byte>, more: seq<Byte>) returns (n: Machine<Slots>)
    requires IsPlain(r) && Terminated(header) && |header| < BUFFER_SIZE
    requires Known(m) && m.action == ParseHeader && m.code == 0 && !m.inLoop && m.h.state == Sequence
    ensures Leads(HeadersOf(r), m, header + ([1] + more), [Handled(0, header), Returned(Picture)], n, more)
    ensures Known(n) && n.action == NoAction && n.code == 1 && !n.inLoop && n.h.state == Slice
  {
    LeadsHeader(HeadersOf(r), m, header, 1, more);
    var e := EndOfHeader(HeadersOf(r), m.(shift := PREFIX, chunk := header), 1);
    LeadsEager(HeadersOf(r), e.m, more);
    n := EagerStep(HeadersOf(r), e.m).m;
    LeadsOn(HeadersOf(r), m, header + ([1] + more), e.events, e.m, more, [], n, more);
    assert e.events + [] == e.events == [Handled(0, header), Returned(Picture)];
  }

  // The unknown code leaves SeekChunk stored; then slice 2 starts.
  lemma UnknownCode(r: Reading, m: Machine<Slots>, slice: seq<Byte>, prefix: seq<Byte>, more: seq<Byte>)
    returns (n: Machine<Slots>)
    requires Terminated(slice) && Terminated(prefix) && |slice| < BUFFER_SIZE
    requires Known(m) && m.action == NoAction && m.code == 1 && !m.inLoop
    ensures Leads(HeadersOf(r), m, slice + ([0xb4] + (prefix + ([2] + more))),
                  [Sliced(1, slice), Returned(Invalid)], n, more)
    ensures Known(n) && n.action == SeekChunk && n.code == 2 && n.inLoop
  {
    var data := prefix + ([2] + more);
    var c: seq<Byte> := [];
    assert c + slice == slice;
    SliceRest(HeadersOf(r), m, c, slice, 0xb4, data);
    var k := AfterSlice(HeadersOf(r), m, slice, 0xb4);
    LeadsEager(HeadersOf(r), k, data);
    var l := EagerStep(HeadersOf(r), k).m;
    LeadsOn(HeadersOf(r), m, slice + ([0xb4] + data), [Sliced(1, slice)], k, data, [Returned(Invalid)], l, data);
    LeadsSkip(HeadersOf(r), l, prefix, 2, more);
    n := Skipped(l, 2);
    var e := [Sliced(1, slice)] + [Returned(Invalid)];
    LeadsOn(HeadersOf(r), m, slice + ([0xb4] + data), e, l, data, [], n, more);
    assert e + [] == e == [Sliced(1, slice), Returned(Invalid)];
  }

  datatype Stream = Stream(prefix: seq<Byte>, sequence: seq<Byte>, picture: seq<Byte>, slice: seq<Byte>) {
    predicate Valid()
    {
      && Terminated(prefix) && Terminated(sequence) && Terminated(picture) && Terminated(slice)
      && |sequence| < BUFFER_SIZE && |picture| < BUFFER_SIZE && |slice| < BUFFER_SIZE
    }

    // Up to the code of slice 2, and what follows.
    function Then(more: seq<Byte>): seq<Byte>
    {
      prefix + ([0xb3] + (sequence + ([0] + (picture + ([1] + (slice + ([0xb4] + (prefix + ([2] + more)))))))))
    }
  }

  // From the reset decoder to slice 2, with SeekChunk stored.
  lemma ToSlice(r: Reading, s: Stream, more: seq<Byte>) returns (e: seq<Event>, n: Machine<Slots>)
    requires IsPlain(r) && s.Valid()
    ensures Leads(HeadersOf(r), Start(), s.Then(more), e, n, more)
    ensures Known(n) && n.action == SeekChunk && n.code == 2 && n.inLoop && |e| == 6
  {
    var last := s.prefix + ([2] + more);
    var slices := s.slice + ([0xb4] + last);
    var pictures := s.picture + ([1] + slices);
    var a := SequenceHeader(r, s.prefix, s.sequence, pictures);
    var b := PictureHeader(r, a, s.picture, slices);
    n := UnknownCode(r, b, s.slice, s.prefix, more);
    var (e1, e2, e3) := ([Handled(0xb3, s.sequence), Returned(Sequence)], [Handled(0, s.picture), Returned(Picture)],
                         [Sliced(1, s.slice), Returned(Invalid)]);
    LeadsOn(HeadersOf(r), Start(), s.Then(more), e1, a, pictures, e2, b, slices);
    LeadsOn(HeadersOf(r), Start(), s.Then(more), e1 + e2, b, slices, e3, n, more);
    e := e1 + e2 + e3;
  }

  // ---- The cut ----

  // A buffer that ends in slice 2 leaves the machine in a state that loses it.
  lemma LosingReached(r: Reading, s: Stream, part: seq<Byte>) returns (e: seq<Event>, n: Machine<Slots>)
    requires IsPlain(r) && s.Valid() && FirstPrefixIsLast(part) && |part| < BUFFER_SIZE
    ensures Run(HeadersOf(r), Start(), s.Then(part)) == Go(n, e) && |e| == 6
    ensures Losing(n) && n.chunk == part && n.code == 2 && n.user == [] && n.firstSlice == 1 && n.nbSlices == 0xaf
    ensures Sound(n) && Tidy(n) && ModeOf(n) != Eager
  {
    var m;
    e, m := ToSlice(r, s, part);
    var c: seq<Byte> := [];
    assert c + part == part && part + [] == part;
    QuietRest(c, part);
    CopyRest(HeadersOf(r), m, part, []);
    n := AfterCopying(m, part);
    assert Run(HeadersOf(r), n, []) == Go(n, []);
    assert e + [] == e;
  }

  lemma TwoBuffers(r: Reading, m: Machine<Slots>, a: seq<Byte>, b: seq<Byte>)
    requires Run(HeadersOf(r), m, a).Go?
    ensures Concat([a, b]) == a + b
    ensures RunAll(HeadersOf(r), m, [a, b]).events
         == Run(HeadersOf(r), m, a).events + Run(HeadersOf(r), Boundary(Run(HeadersOf(r), m, a).m), b).events
  {
    var rest := [a, b][1..];
    assert rest == [b] && rest[1..] == [];
    assert Concat(rest) == b + Concat(rest[1..]) == b;
    var n := Boundary(Run(HeadersOf(r), m, a).m);
    var t := Run(HeadersOf(r), n, b);
    assert RunAll(HeadersOf(r), n, rest).events == t.events + [] == t.events;
  }

  // Slice 2 is cut after part; the second buffer has the end of it, d, and all
  // of slice 3. Uncut, both slices are decoded. Cut, slice 2 is not, and slice 3
  // has part in front.
  lemma CutInSlice(r: Reading, s: Stream, part: seq<Byte>, d: seq<Byte>, e: seq<Byte>, b: Byte)
    requires IsPlain(r) && s.Valid() && Terminated(part + d) && Terminated(e) && d != [] && part != []
    requires |part| + |d| < BUFFER_SIZE && |part| + |e| < BUFFER_SIZE
    ensures var (first, second) := (s.Then(part), d + ([3] + (e + ([b] + []))));
      var whole := Run(HeadersOf(r), Start(), Concat([first, second])).events;
      var cut := RunAll(HeadersOf(r), Start(), [first, second]).events;
      && |whole| >= 8 && whole[6] == Sliced(2, part + d) && whole[7] == Sliced(3, e)
      && |cut| >= 7 && cut[6] == Sliced(3, part + e) && cut[6] != whole[6]
  {
    var (first, second) := (s.Then(part), d + ([3] + (e + ([b] + []))));
    PrefixesOf(part, d);
    var seen, n := LosingReached(r, s, part);
    TwoBuffers(r, Start(), first, second);
    RunSplit(HeadersOf(r), Start(), first, second);
    NextSliceAfterCut(HeadersOf(r), n, d, 3, e, b, []);
  }

  lemma PrefixesOf(c: seq<Byte>, d: seq<Byte>)
    requires FirstPrefixIsLast(c + d) && d != []
    ensures FirstPrefixIsLast(c)
  {
    forall k | 0 <= k < |c|
      ensures !PrefixAt(c, k)
    {
      assert PrefixAt(c + d, k) == PrefixAt(c, k);
    }
  }

  // ---- Concrete bytes ----

  lemma SequenceBytes() returns (d: seq<Byte>)
    ensures d == [0x01, 0, 0x10, 0x11, 0xff, 0xff, 0xe0, 0x18, 0, 0, 1] && Terminated(d)
  {
    d := [0x01, 0, 0x10, 0x11, 0xff, 0xff, 0xe0, 0x18, 0, 0, 1];
  }

  lemma PictureBytes() returns (d: seq<Byte>)
    ensures d == [0, 0x08, 0xff, 0xf8, 0, 0, 1] && Terminated(d)
  {
    d := [0, 0x08, 0xff, 0xf8, 0, 0, 1];
  }

  lemma SliceBytes(a: Byte, b: Byte) returns (d: seq<Byte>)
    requires a > 1 && b > 1
    ensures d == [a, b, 0, 0, 1] && Terminated(d)
  {
    d := [a, b, 0, 0, 1];
  }

  lemma PrefixBytes() returns (d: seq<Byte>)
    ensures d == [0, 0, 1] && Terminated(d)
  {
    d := [0, 0, 1];
  }

  // The cut falls after 13 00 00 of slice 2; slice 3 starts with 01. What is
  // handed over as slice 3 has a start code inside.
  lemma StaleChunk(part: seq<Byte>, d: seq<Byte>, e: seq<Byte>)
    requires part == [0x13, 0, 0] && d == [5, 0, 0, 1] && e == [1, 7, 0, 0, 1]
    ensures Terminated(part + d) && Terminated(e) && !Proper(Sliced(3, part + e))
  {
    assert part + d == [0x13, 0, 0, 5, 0, 0, 1];
    assert part + e == [0x13, 0, 0, 1, 7, 0, 0, 1];
    assert PrefixAt(part + e, 4);
  }

  // From the reset decoder: a stream of a sequence header, a picture header and
  // three slices, with an unknown code after the first, in two buffers. The
  // events are not those of the whole, slice 2 is not decoded, and the chunk of
  // slice 3 is not proper.
  lemma StreamLosesSlice() returns (first: seq<Byte>, second: seq<Byte>)
    ensures var (hs, m) := (HeadersOf(Plain()), Start());
      var (whole, cut) := (Run(hs, m, Concat([first, second])).events, RunAll(hs, m, [first, second]).events);
      && Sound(m) && Run(hs, m, first).Go? && Dirty(Run(hs, m, first).m)
      && whole != cut && (forall e <- whole :: Proper(e)) && (exists e <- cut :: !Proper(e))
  {
    var r := Plain();
    var prefix := PrefixBytes();
    var sequence := SequenceBytes();
    var picture := PictureBytes();
    var slice := SliceBytes(0x0b, 0xfc);
    var s := Stream(prefix, sequence, picture, slice);
    var part: seq<Byte>, d: seq<Byte>, e: seq<Byte> := [0x13, 0, 0], [5, 0, 0, 1], [1, 7, 0, 0, 1];
    StaleChunk(part, d, e);
    first, second := s.Then(part), d + ([3] + (e + ([4] + [])));
    CutInSlice(r, s, part, d, e, 4);
    PrefixesOf(part, d);
    var seen, n := LosingReached(r, s, part);
    EveryChunkIsProper(HeadersOf(r), Start(), Concat([first, second]));
    var cut := RunAll(HeadersOf(r), Start(), [first, second]).events;
    assert cut[6] in cut && !Proper(cut[6]);
  }
}
