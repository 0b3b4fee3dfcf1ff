// Streams without errors under the header states of libmpeg2/header.c: the
// states that are returned, written out, and a decoder that is given such a
// stream in any pieces.
module LegalHeaders {
  import opened Words
  import opened Parser
  import opened ParserSafety
  import opened Decoder
  import opened LegalStreams
  import HeaderStates

  type Slots = HeaderStates.Slots

  // No header function reports an error.
  ghost predicate Errorless(r: HeaderStates.Reading)
  {
    forall code, chunk :: !r.bad(code, chunk)
  }

  // The state that a header function leaves.
  function StateOf(h: Slots, code: Byte): State
  {
    if code == 0xb3 then Sequence
    else if code == 0xb8 then Gop
    else if code == 0 then if h.state == Slice1st then Picture2nd else Picture
    else h.state
  }

  lemma OneHeader(r: HeaderStates.Reading, h: Slots, code: Byte, chunk: seq<Byte>)
    requires Errorless(r)
    ensures var (n, error) := HeaderStates.HeadersOf(r).process(h, code, chunk);
      !error && n.state == StateOf(h, code) && (code == 0 ==> n.newNbFields == 2)
  {
  }

  lemma {:induction false} HeadedState(r: HeaderStates.Reading, h: Slots, code: Byte, chunk: seq<Byte>,
                                       extras: seq<Coded>, states: set<State>)
    requires Errorless(r) && StateOf(h, code) in states && forall e <- extras :: e.code == 0xb2 || e.code == 0xb5
    ensures var hs := HeaderStates.HeadersOf(r);
      Headed(hs, h, code, chunk, extras).state == StateOf(h, code) && Accepted(hs, h, code, chunk, extras, states)
    decreases |extras|
  {
    var hs := HeaderStates.HeadersOf(r);
    OneHeader(r, h, code, chunk);
    if extras != [] {
      HeadedState(r, hs.process(h, code, chunk).0, extras[0].code, extras[0].chunk, extras[1..], states);
    }
  }

  // The second field of a frame comes.
  predicate Second(h: Slots)
  {
    h.state == Slice1st
  }

  // The picture completes a frame: it is a second field, or a frame picture by
  // its header and extensions.
  predicate Completes(r: HeaderStates.Reading, h: Slots, u: Unit)
  {
    Second(h) || Headed(HeaderStates.HeadersOf(r), h, 0, u.chunk, u.extras).newNbFields > 1
  }

  function RepeatEvents(repeat: HeaderStates.Repeat): seq<Event>
  {
    match repeat
    case Fresh => [Returned(Sequence)]
    case Repeated => [Returned(SequenceRepeated)]
    case Modified => [Returned(SequenceModified)]
    case Restarted => [Returned(InvalidEnd), Returned(Sequence)]
  }

  // What a unit shows: its header and extras, the state that they lead to, and
  // the slices with the state at their end.
  function UnitEvents(r: HeaderStates.Reading, h: Slots, u: Unit): seq<Event>
  {
    HandledAll(u.Code(), u.chunk, u.extras)
    + match u
      case SequenceHeader(_, _) =>
        RepeatEvents(r.repeat(Headed(HeaderStates.HeadersOf(r), h, 0xb3, u.chunk, u.extras),
                              UserData(0xb3, u.chunk, u.extras)))
      case GroupHeader(_, _) => [Returned(Gop)]
      case APicture(_, _, first, slices) =>
        [Returned(if Second(h) then Picture2nd else Picture)] + SlicedAll([Coded(1, first)] + slices)
        + [Returned(if Completes(r, h, u) then Slice else Slice1st)]
  }

  lemma {:induction false} SlicesKeep(r: HeaderStates.Reading, h: Slots, slices: seq<Coded>)
    ensures LegalStreams.Decoded(HeaderStates.HeadersOf(r), h, slices) == h
  {
    if slices != [] { SlicesKeep(r, h, slices[1..]); }
  }

  // The events are these, and the unit is accepted unless a first field is not
  // followed by a picture.
  lemma UnitEventsAre(r: HeaderStates.Reading, h: Slots, u: Unit, b: Byte)
    requires Errorless(r) && u.WellFormed()
    ensures var hs := HeaderStates.HeadersOf(r);
      && Events(hs, h, u) == UnitEvents(r, h, u)
      && (Accepts(hs, h, u, b) <==> (u.APicture? && b != 0 ==> Completes(r, h, u)))
  {
    var hs := HeaderStates.HeadersOf(r);
    var states := if u.SequenceHeader? then {Sequence} else if u.GroupHeader? then {Gop} else {Picture, Picture2nd};
    HeadedState(r, h, u.Code(), u.chunk, u.extras, states);
    if u.APicture? {
      SlicesKeep(r, hs.slice(hs.sliceStart(Ended(hs, h, u)), 1, u.first), u.slices);
      var (p, sliced, l) := ([Returned(hs.stateOf(Ended(hs, h, u)))], SlicedAll([Coded(1, u.first)] + u.slices),
                             [Returned(hs.stateOf(Last(hs, h, u)))]);
      assert p + (sliced + l) == p + sliced + l;
    }
  }

  // Fields come in pairs: only a picture comes after a first field.
  predicate Paired(r: HeaderStates.Reading, h: Slots, units: seq<Unit>)
    decreases |units|
  {
    units == [] ||
    ((units[0].APicture? && NextCode(units) != 0 ==> Completes(r, h, units[0])) &&
     Paired(r, Last(HeaderStates.HeadersOf(r), h, units[0]), units[1..]))
  }

  function SequenceEvents(r: HeaderStates.Reading, h: Slots, units: seq<Unit>): seq<Event>
    decreases |units|
  {
    if units == [] then []
    else UnitEvents(r, h, units[0]) + SequenceEvents(r, Last(HeaderStates.HeadersOf(r), h, units[0]), units[1..])
  }

  lemma {:induction false} SequenceEventsAre(r: HeaderStates.Reading, h: Slots, units: seq<Unit>)
    requires Errorless(r) && Ordered(units) && Paired(r, h, units)
    ensures var hs := HeaderStates.HeadersOf(r);
      AllAccepted(hs, h, units) && AllEvents(hs, h, units) == SequenceEvents(r, h, units)
    decreases |units|
  {
    var hs := HeaderStates.HeadersOf(r);
    hide Last, Events, Accepts, UnitEvents;
    UnitEventsAre(r, h, units[0], NextCode(units));
    if |units| > 1 {
      SequenceEventsAre(r, Last(hs, h, units[0]), units[1..]);
    } else {
      assert units[1..] == [];
    }
  }

  // A file of sequences, each decoded from the state that the end code before it
  // leaves.
  predicate FilePaired(r: HeaderStates.Reading, h: Slots, file: seq<Coding>)
    decreases |file|
  {
    file == [] || (Paired(r, h, file[0].units) && FilePaired(r, AfterEnd(r, h, file[0].units), file[1..]))
  }

  function AfterEnd(r: HeaderStates.Reading, h: Slots, units: seq<Unit>): Slots
  {
    var hs := HeaderStates.HeadersOf(r);
    hs.reset(hs.headerEnd(AllLast(hs, h, units)))
  }

  function ShownEvents(r: HeaderStates.Reading, h: Slots, file: seq<Coding>): seq<Event>
    decreases |file|
  {
    if file == [] then []
    else
      SequenceEvents(r, h, file[0].units) + [Returned(End)] + ShownEvents(r, AfterEnd(r, h, file[0].units), file[1..])
  }

  lemma {:induction false} ShownEventsAre(r: HeaderStates.Reading, h: Slots, file: seq<Coding>)
    requires Errorless(r) && AllWellFormed(file) && FilePaired(r, h, file)
    ensures var hs := HeaderStates.HeadersOf(r);
      FileAccepted(hs, h, file) && FileEvents(hs, h, file) == ShownEvents(r, h, file)
    decreases |file|
  {
    if file != [] {
      hide AllLast, AllEvents, SequenceEvents, AllAccepted, Paired;
      assert file[0].WellFormed();
      SequenceEventsAre(r, h, file[0].units);
      ShownEventsAre(r, AfterEnd(r, h, file[0].units), file[1..]);
    }
  }

  // STATE_INVALID is not among them.
  lemma {:induction false} HandledOnly(code: Byte, chunk: seq<Byte>, extras: seq<Coded>)
    ensures Returned(Invalid) !in HandledAll(code, chunk, extras)
    decreases |extras|
  {
    if extras != [] { HandledOnly(extras[0].code, extras[0].chunk, extras[1..]); }
  }

  lemma {:induction false} SlicedOnly(slices: seq<Coded>)
    ensures Returned(Invalid) !in SlicedAll(slices)
  {
    if slices != [] { SlicedOnly(slices[1..]); }
  }

  lemma UnitValid(r: HeaderStates.Reading, h: Slots, u: Unit)
    ensures Returned(Invalid) !in UnitEvents(r, h, u)
  {
    hide HandledAll, SlicedAll, Completes;
    HandledOnly(u.Code(), u.chunk, u.extras);
    if u.APicture? { SlicedOnly([Coded(1, u.first)] + u.slices); }
  }

  lemma {:induction false} SequenceValid(r: HeaderStates.Reading, h: Slots, units: seq<Unit>)
    ensures Returned(Invalid) !in SequenceEvents(r, h, units)
    decreases |units|
  {
    if units != [] {
      hide UnitEvents, Last;
      UnitValid(r, h, units[0]);
      SequenceValid(r, Last(HeaderStates.HeadersOf(r), h, units[0]), units[1..]);
    }
  }

  lemma {:induction false} FileValid(r: HeaderStates.Reading, h: Slots, file: seq<Coding>)
    ensures Returned(Invalid) !in ShownEvents(r, h, file)
    decreases |file|
  {
    if file != [] {
      hide SequenceEvents, AfterEnd;
      SequenceValid(r, h, file[0].units);
      FileValid(r, AfterEnd(r, h, file[0].units), file[1..]);
    }
  }

  // From the reset decoder, whatever the pieces in which the file comes.
  lemma LegalFile(r: HeaderStates.Reading, file: seq<Coding>, buffers: seq<seq<Byte>>)
    requires Errorless(r) && AllWellFormed(file) && FilePaired(r, HeaderStates.Start().h, file)
    requires Concat(buffers) == FileBytes(file)
    ensures var o := RunAll(HeaderStates.HeadersOf(r), HeaderStates.Start(), buffers);
      o.Go? && o.events == ShownEvents(r, HeaderStates.Start().h, file) && Returned(Invalid) !in o.events
  {
    hide FileEvents, ShownEvents, FilePaired, FileAccepted;
    var (hs, m) := (HeaderStates.HeadersOf(r), HeaderStates.Start());
    ShownEventsAre(r, m.h, file);
    FileValid(r, m.h, file);
    FileRuns(hs, m, file);
    NoErrorSplit(hs, m, buffers);
  }

  // The decoder on such a file.
  method DecodeLegal(r: HeaderStates.Reading, ghost file: seq<Coding>, buffers: seq<seq<Byte>>)
    returns (d: Mpeg2Dec<Slots>)
    requires Errorless(r) && AllWellFormed(file) && FilePaired(r, HeaderStates.Start().h, file)
    requires Concat(buffers) == FileBytes(file)
    ensures d.seen == ShownEvents(r, HeaderStates.Start().h, file) && Returned(Invalid) !in d.seen
  {
    hide ShownEvents, FilePaired;
    LegalFile(r, file, buffers);
    d := new Mpeg2Dec<Slots>(HeaderStates.HeadersOf(r), HeaderStates.Start().h);
    d.Decode(buffers);
    assert [] + RunAll(HeaderStates.HeadersOf(r), HeaderStates.Start(), buffers).events == d.seen;
  }
}
