// Streams with an error in them: what mpeg2_parse returns at the error, what it
// skips, and where it goes on.
module FaultyStreams {
  import opened Words
  import opened Parser
  import opened ParserSafety
  import opened LegalStreams

  // The codes that may come after a header, by the state that it led to.
  predicate Legal(state: State, b: Byte)
  {
    match state
    case Sequence => b == 0 || b == 0xb2 || b == 0xb5 || b == 0xb8
    case Gop => b == 0 || b == 0xb2
    case Picture => b == 1 || b == 0xb2 || b == 0xb5
    case Picture2nd => b == 1 || b == 0xb2 || b == 0xb5
    case _ => false
  }

  // Code b has come, and the header of a sequence, a group or a picture is
  // sought, or only that of a sequence before there was one.
  predicate Seeking<H>(m: Machine<H>, b: Byte)
  {
    m.action == SeekHeader && !m.inLoop && m.user == [] && Clear(m) && m.code == b
  }

  // The header function reports an error on the last of these.
  predicate Reports<H>(hs: Headers<H>, h: H, code: Byte, chunk: seq<Byte>, extras: seq<Coded>, states: set<State>)
    decreases |extras|
  {
    var (h', error) := hs.process(h, code, chunk);
    if extras == [] then error
    else !error && hs.stateOf(h') in states && Reports(hs, h', extras[0].code, extras[0].chunk, extras[1..], states)
  }

  // A code that is not legal after the header and extras of a unit, or an error
  // in the last of them.
  predicate Broken<H>(hs: Headers<H>, h: H, u: Unit, b: Byte)
  {
    || (HeadAccepted(hs, h, u) && !Legal(hs.stateOf(Headed(hs, h, u.Code(), u.chunk, u.extras)), b))
    || Reports(hs, h, u.Code(), u.chunk, u.extras,
               if u.SequenceHeader? then {Sequence} else if u.GroupHeader? then {Gop} else {Picture, Picture2nd})
  }

  lemma ErrorAlone<H>(hs: Headers<H>, m: Machine<H>, chunk: seq<Byte>, b: Byte, more: seq<Byte>)
    returns (n: Machine<H>)
    requires m.action == ParseHeader && !m.inLoop && Clear(m) && m.code < 256 && Terminated(chunk)
    requires |m.user| + |chunk| < BUFFER_SIZE && hs.process(m.h, m.code, chunk).1
    ensures Seeking(n, b) && n.known == m.known && n.h == Headed(hs, m.h, m.code, chunk, [])
    ensures Leads(hs, m, chunk + ([b] + more), [Handled(m.code, chunk), Returned(Invalid)], n, more)
  {
    hide Leads, Terminated, Process, Transition;
    n := Restart(Processed(hs, m, chunk, [], b));
    ProcessedAlone(hs, m, chunk, b);
    LeadsHeader(hs, m, chunk, b, more);
    assert [Handled(m.code, chunk)] + [Returned(Invalid)] == [Handled(m.code, chunk), Returned(Invalid)];
  }

  lemma {:induction false} ErrorRuns<H>(hs: Headers<H>, m: Machine<H>, chunk: seq<Byte>, extras: seq<Coded>, b: Byte,
                                        more: seq<Byte>, states: set<State>) returns (n: Machine<H>)
    requires m.action == ParseHeader && !m.inLoop && Clear(m) && m.code < 256 && Terminated(chunk)
    requires |m.user| + |chunk| + Total(extras) < BUFFER_SIZE
    requires forall e <- extras :: Terminated(e.chunk) && (e.code == 0xb2 || (e.code == 0xb5 && Gop !in states))
    requires states <= {Sequence, Gop, Picture, Picture2nd} && Reports(hs, m.h, m.code, chunk, extras, states)
    ensures Seeking(n, b) && n.known == m.known && n.h == Headed(hs, m.h, m.code, chunk, extras)
    ensures Leads(hs, m, chunk + (AllBytes(extras) + ([b] + more)),
                  HandledAll(m.code, chunk, extras) + [Returned(Invalid)], n, more)
    decreases |extras|
  {
    hide Leads, Terminated, Transition;
    if extras == [] {
      n := ErrorAlone(hs, m, chunk, b, more);
      assert AllBytes(extras) + ([b] + more) == [b] + more;
      assert HandledAll(m.code, chunk, extras) + [Returned(Invalid)] == [Handled(m.code, chunk), Returned(Invalid)];
    } else {
      var e := extras[0];
      var rest := e.chunk + (AllBytes(extras[1..]) + ([b] + more));
      FirstExtra(extras, b, more);
      hide AllBytes, HandledAll;
      var k := BeforeExtra(hs, m, chunk, e.code, rest);
      UserSize(m.code, chunk);
      n := ErrorRuns(hs, k, e.chunk, extras[1..], b, more, states);
      var tail := HandledAll(e.code, e.chunk, extras[1..]) + [Returned(Invalid)];
      LeadsOn(hs, m, chunk + ([e.code] + rest), [Handled(m.code, chunk)], k, rest, tail, n, more);
      FirstHandled(m.code, chunk, extras, [Returned(Invalid)]);
    }
  }

  // The header and the extras are handed over, STATE_INVALID is returned once,
  // and nothing is finalized.
  lemma HeaderFault<H>(hs: Headers<H>, m: Machine<H>, u: Unit, b: Byte, more: seq<Byte>) returns (n: Machine<H>)
    requires Parsing(m, u.Code()) && u.WellFormed() && Broken(hs, m.h, u, b)
    ensures Seeking(n, b) && n.known == m.known && n.h == Headed(hs, m.h, u.Code(), u.chunk, u.extras)
    ensures Leads(hs, m, u.chunk + (AllBytes(u.extras) + ([b] + more)),
                  HandledAll(u.Code(), u.chunk, u.extras) + [Returned(Invalid)], n, more)
  {
    hide Leads, Terminated;
    var states := if u.SequenceHeader? then {Sequence} else if u.GroupHeader? then {Gop} else {Picture, Picture2nd};
    if HeadAccepted(hs, m.h, u) && !Legal(hs.stateOf(Headed(hs, m.h, u.Code(), u.chunk, u.extras)), b) {
      HeaderRuns(hs, m, u.chunk, u.extras, b, more, states);
      n := Restart(Processed(hs, m, u.chunk, u.extras, b));
    } else {
      n := ErrorRuns(hs, m, u.chunk, u.extras, b, more, states);
    }
  }

  // A picture after whose slices a code comes that ends a frame, where only a
  // field has been decoded.
  lemma FieldMissing<H>(hs: Headers<H>, m: Machine<H>, u: Unit, b: Byte, more: seq<Byte>) returns (n: Machine<H>)
    requires u.APicture? && Parsing(m, 0) && u.WellFormed() && HeadAccepted(hs, m.h, u)
    requires (b == 0xb3 || b == 0xb7 || b == 0xb8) && hs.stateOf(Last(hs, m.h, u)) != Slice
    ensures Seeking(n, b) && n.known && n.h == Last(hs, m.h, u)
    ensures Leads(hs, m, u.Bytes() + ([b] + more), PictureEvents(hs, m.h, u) + [Returned(Invalid)], n, more)
  {
    hide Leads, Last, PictureEvents;
    var k := PictureSlices(hs, m, u, b, more);
    LeadsEager(hs, k, more);
    n := EagerStep(hs, k).m;
    LeadsOn(hs, m, u.Bytes() + ([b] + more), PictureEvents(hs, m.h, u), k, more, [Returned(Invalid)], n, more);
  }

  // A code among the slices that no picture ends with: STATE_INVALID is returned,
  // and the next start code is sought. If it ends the picture, its state is
  // returned as well.
  lemma StrayCode<H>(hs: Headers<H>, m: Machine<H>, u: Unit, b: Byte, chunk: seq<Byte>, c: Byte, more: seq<Byte>)
    returns (n: Machine<H>)
    requires u.APicture? && Parsing(m, 0) && u.WellFormed() && Accepts(hs, m.h, u, c) && Terminated(chunk)
    requires b >= 0xb0 && b != 0xb3 && b != 0xb7 && b != 0xb8 && u.MayPrecede(c)
    ensures Follows(n, c) && n.h == Last(hs, m.h, u)
    ensures Leads(hs, m, u.Bytes() + ([b] + (chunk + ([c] + more))),
                  PictureEvents(hs, m.h, u) + [Returned(Invalid)] + [Returned(hs.stateOf(Last(hs, m.h, u)))], n, more)
  {
    hide Leads, Last, PictureEvents, HeadAccepted, Terminated;
    var rest := chunk + ([c] + more);
    var data := u.Bytes() + ([b] + rest);
    var k := PictureSlices(hs, m, u, b, rest);
    LeadsEager(hs, k, rest);
    var l := EagerStep(hs, k).m;
    var e := PictureEvents(hs, m.h, u);
    LeadsOn(hs, m, data, e, k, rest, [Returned(Invalid)], l, rest);
    LeadsSkip(hs, l, chunk, c, more);
    var s := Skipped(l, c);
    LeadsOn(hs, m, data, e + [Returned(Invalid)], l, rest, [], s, more);
    n := StrayEnds(hs, s, c, more);
    LeadsOn(hs, m, data, e + [Returned(Invalid)] + [], s, more, [Returned(hs.stateOf(s.h))], n, more);
    assert e + [Returned(Invalid)] + [] == e + [Returned(Invalid)];
  }

  lemma StrayEnds<H>(hs: Headers<H>, m: Machine<H>, c: Byte, more: seq<Byte>) returns (n: Machine<H>)
    requires m.action == SeekChunk && m.inLoop && m.known && m.user == [] && Clear(m) && m.code == c
    requires (c == 0 || c == 0xb3 || c == 0xb7 || c == 0xb8) && (c != 0 ==> hs.stateOf(m.h) == Slice)
    ensures Follows(n, c) && n.h == m.h && Leads(hs, m, more, [Returned(hs.stateOf(m.h))], n, more)
  {
    LeadsEager(hs, m, more);
    var k := EagerStep(hs, m).m;
    n := k;
    if c != 0xb7 {
      Found(hs, k, more);
      n := k.(action := ParseHeader);
      LeadsOn(hs, m, more, [Returned(hs.stateOf(m.h))], k, more, [], n, more);
      assert [Returned(hs.stateOf(m.h))] + [] == [Returned(hs.stateOf(m.h))];
    }
  }

  // ---- Chunks that are too long ----

  lemma LeadsFull<H>(hs: Headers<H>, m: Machine<H>, c: seq<Byte>, e: seq<Byte>, b: Byte, more: seq<Byte>)
    requires m.action == ParseHeader && Full(m) && m.shift == ShiftAfter(RESET, c) && Terminated(c + e)
    ensures Leads(hs, m, e + ([b] + more), [Returned(Invalid)], Skipped(Restart(m), b), more)
  {
    hide Terminated, ShiftAfter;
    var (n, data) := (Restart(m).(code := 0xb4), e + ([b] + more));
    assert data != [];
    assert Leads(hs, m, data, [Returned(Invalid)], n, data);
    hide Run;
    SkipRest(hs, n, c, e, b, more);
  }

  // A header that the chunk buffer has no room for: it is not handed over,
  // STATE_INVALID is returned once, and the start code at its end is found.
  lemma HeaderTooLong<H>(hs: Headers<H>, m: Machine<H>, d: seq<Byte>, b: Byte, more: seq<Byte>) returns (n: Machine<H>)
    requires m.action == ParseHeader && !m.inLoop && Clear(m) && Terminated(d)
    requires |m.user| < BUFFER_SIZE <= |m.user| + |d|
    ensures Seeking(n, b) && n.known == m.known && n.h == m.h
    ensures Leads(hs, m, d + ([b] + more), [Returned(Invalid)], n, more)
  {
    hide Run, Quiet, ShiftPast, ShiftAfter, Terminated;
    var room := BUFFER_SIZE - |m.user|;
    var (c, e) := (d[..room], d[room..]);
    assert c + e == d;
    assert d + ([b] + more) == c + (e + ([b] + more));
    PartQuiet(c, e);
    CopyRest(hs, m, c, e + ([b] + more));
    assert |m.chunk + c| == room;
    LeadsFull(hs, AfterCopying(m, c), c, e, b, more);
    n := Skipped(Restart(AfterCopying(m, c)), b);
  }

  lemma PartQuiet(c: seq<Byte>, e: seq<Byte>)
    requires Terminated(c + e)
    ensures Quiet(RESET, c) && ShiftPast(RESET, c) == ShiftAfter(RESET, c)
  {
    var none: seq<Byte> := [];
    assert none + c == c && ShiftAfter(RESET, none) == RESET;
    forall k | 0 <= k < |c|
      ensures !PrefixAt(c, k)
    {
      assert PrefixAt(c + e, k) == PrefixAt(c, k);
    }
    QuietRest(none, c);
  }

  // A slice that it has no room for ends the run.
  lemma SliceTooLong<H>(hs: Headers<H>, m: Machine<H>, d: seq<Byte>, b: Byte, more: seq<Byte>)
    requires Slicing(m) && 1 <= m.code < 0xb0 && Terminated(d) && |d| >= BUFFER_SIZE
    ensures Run(hs, m, d + ([b] + more)) == Fail([Returned(Invalid)])
  {
    var (c, e) := (d[..BUFFER_SIZE], d[BUFFER_SIZE..]);
    assert c + e == d;
    var rest := e + ([b] + more);
    assert d + ([b] + more) == c + rest;
    PartQuiet(c, e);
    CopyRest(hs, m, c, rest);
    assert Stuck(AfterCopying(m, c)) && rest != [];
  }

  // ---- Going on ----

  // None of these is the header that is sought.
  predicate Passed(known: bool, list: seq<Coded>)
  {
    forall e <- list ::
      Terminated(e.chunk) && e.code != 0xb3 && (known ==> e.code != 0 && e.code != 0xb7 && e.code != 0xb8)
  }

  // The bytes after the code of the first of them, up to code c.
  function PassedBytes(list: seq<Coded>, c: Byte): seq<Byte>
  {
    if list == [] then [] else list[0].chunk + (AllBytes(list[1..]) + [c])
  }

  lemma {:induction false} PassesBy<H>(hs: Headers<H>, m: Machine<H>, list: seq<Coded>, c: Byte, more: seq<Byte>)
    requires Passed(m.known, list) && Seeking(m, if list == [] then c else list[0].code)
    ensures Leads(hs, m, PassedBytes(list, c) + more, [], m.(code := c), more)
    decreases |list|
  {
    hide Leads, Terminated;
    if list == [] {
      assert PassedBytes(list, c) + more == more;
      Nowhere(hs, m, more);
    } else {
      var (e, rest) := (list[0], list[1..]);
      var b := if rest == [] then c else rest[0].code;
      assert rest == [] ==> AllBytes(rest) == [];
      assert PassedBytes(list, c) + more == e.chunk + ([b] + (PassedBytes(rest, c) + more));
      LeadsSkip(hs, m, e.chunk, b, PassedBytes(rest, c) + more);
      PassesBy(hs, m.(code := b), rest, c, more);
      LeadsOn(hs, m, PassedBytes(list, c) + more, [], m.(code := b), PassedBytes(rest, c) + more, [], m.(code := c),
              more);
      var none: seq<Event> := [];
      assert none + none == none;
    }
  }

  lemma Nowhere<H>(hs: Headers<H>, m: Machine<H>, data: seq<Byte>)
    ensures Leads(hs, m, data, [], m, data)
  {
    PrependNothing(Run(hs, m, data));
  }

  // The code that comes first of what follows an error.
  function FirstCode(list: seq<Coded>, units: seq<Unit>): Byte
    requires units != []
  {
    if list == [] then units[0].Code() else list[0].code
  }

  // Its bytes, after that code.
  function LaterBytes(list: seq<Coded>, units: seq<Unit>, more: seq<Byte>): seq<Byte>
    requires units != []
  {
    PassedBytes(list, units[0].Code()) + (SequenceBytes(units) + more)
  }

  // After an error everything is skipped up to the next header of a sequence, a
  // group or a picture, and from there on the units up to the end code give what
  // they give in a stream without errors.
  lemma Resumes<H>(hs: Headers<H>, m: Machine<H>, list: seq<Coded>, units: seq<Unit>, more: seq<Byte>)
    returns (n: Machine<H>)
    requires Passed(m.known, list) && Ordered(units) && (m.known || units[0].SequenceHeader?)
    requires Seeking(m, FirstCode(list, units)) && AllAccepted(hs, m.h, units)
    ensures Resting(n) && n.h == hs.reset(hs.headerEnd(AllLast(hs, m.h, units)))
    ensures Leads(hs, m, LaterBytes(list, units, more), AllEvents(hs, m.h, units) + [Returned(End)], n, more)
  {
    hide Leads, Terminated, AllAccepted, AllEvents, AllLast, SequenceBytes;
    var c := units[0].Code();
    var rest := SequenceBytes(units) + more;
    var data := PassedBytes(list, c) + rest;
    PassesBy(hs, m, list, c, rest);
    var k := m.(code := c);
    Found(hs, k, rest);
    var l := k.(action := ParseHeader);
    LeadsOn(hs, m, data, [], k, rest, [], l, rest);
    var o := UnitsRun(hs, l, units, more);
    var e := AllEvents(hs, m.h, units);
    LeadsOn(hs, m, data, [] + [], l, rest, e, o, more);
    n := EndRuns(hs, o, more);
    LeadsOn(hs, m, data, [] + [] + e, o, more, [Returned(End)], n, more);
    assert [] + [] + e + [Returned(End)] == e + [Returned(End)];
  }

  // A header that is broken, whatever comes up to the next one, and the rest of
  // the sequence: one STATE_INVALID, and no other loss.
  lemma Recovers<H>(hs: Headers<H>, m: Machine<H>, u: Unit, list: seq<Coded>, units: seq<Unit>, more: seq<Byte>)
    returns (n: Machine<H>)
    requires Parsing(m, u.Code()) && u.WellFormed() && Passed(m.known, list) && Ordered(units)
    requires (m.known || units[0].SequenceHeader?) && Broken(hs, m.h, u, FirstCode(list, units))
    requires AllAccepted(hs, Headed(hs, m.h, u.Code(), u.chunk, u.extras), units)
    ensures Resting(n)
    ensures Leads(hs, m, u.chunk + (AllBytes(u.extras) + ([FirstCode(list, units)] + LaterBytes(list, units, more))),
                  HandledAll(u.Code(), u.chunk, u.extras) + [Returned(Invalid)]
                  + (AllEvents(hs, Headed(hs, m.h, u.Code(), u.chunk, u.extras), units) + [Returned(End)]), n, more)
  {
    hide Leads, Terminated, AllAccepted, AllEvents, AllLast, SequenceBytes, Broken, Headed;
    var (b, rest) := (FirstCode(list, units), LaterBytes(list, units, more));
    var k := HeaderFault(hs, m, u, b, rest);
    n := Resumes(hs, k, list, units, more);
    LeadsOn(hs, m, u.chunk + (AllBytes(u.extras) + ([b] + rest)),
            HandledAll(u.Code(), u.chunk, u.extras) + [Returned(Invalid)], k, rest,
            AllEvents(hs, k.h, units) + [Returned(End)], n, more);
  }
}
