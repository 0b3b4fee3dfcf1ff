// Streams without errors, and what mpeg2_parse returns on them: every state and
// every chunk, in order, and the calls that the handlers get.
module LegalStreams {
  import opened Words
  import opened Parser
  import opened ParserSafety

  // A chunk after its start code.
  datatype Coded = Coded(code: Byte, chunk: seq<Byte>)

  // What a sequence is made of: sequence headers and group headers, with the
  // extensions and user data after them, and pictures, with those and with
  // slices, of which the first has code 1. Chunks end with the 00 00 01 of the
  // next start code.
  datatype Unit =
    | SequenceHeader(chunk: seq<Byte>, extras: seq<Coded>)
    | GroupHeader(chunk: seq<Byte>, extras: seq<Coded>)
    | APicture(chunk: seq<Byte>, extras: seq<Coded>, first: seq<Byte>, slices: seq<Coded>)
  {
    function Code(): Byte
    {
      if SequenceHeader? then 0xb3 else if GroupHeader? then 0xb8 else 0
    }

    // Extensions do not come after a group header.
    predicate WellFormed()
    {
      && Terminated(chunk) && |chunk| + Total(extras) < BUFFER_SIZE
      && (forall e <- extras :: (e.code == 0xb2 || (e.code == 0xb5 && !GroupHeader?)) && Terminated(e.chunk))
      && (APicture? ==> Terminated(first) && |first| < BUFFER_SIZE && AllSlices(slices))
    }

    // The codes that may follow.
    predicate MayPrecede(b: Byte)
    {
      match this
      case SequenceHeader(_, _) => b == 0 || b == 0xb8
      case GroupHeader(_, _) => b == 0
      case APicture(_, _, _, _) => b == 0 || b == 0xb3 || b == 0xb7 || b == 0xb8
    }

    // The unit, after its code.
    function Bytes(): seq<Byte>
    {
      chunk + (AllBytes(extras) + if APicture? then [1] + (first + AllBytes(slices)) else [])
    }
  }

  function Total(list: seq<Coded>): nat
  {
    if list == [] then 0 else |list[0].chunk| + Total(list[1..])
  }

  predicate AllSlices(slices: seq<Coded>)
  {
    forall s <- slices :: 1 <= s.code < 0xb0 && Terminated(s.chunk) && |s.chunk| < BUFFER_SIZE
  }

  function AllBytes(list: seq<Coded>): seq<Byte>
  {
    if list == [] then [] else [list[0].code] + (list[0].chunk + AllBytes(list[1..]))
  }

  // ---- What the handlers get ----

  // The header function for a header, then for its extras.
  function Headed<H>(hs: Headers<H>, h: H, code: Byte, chunk: seq<Byte>, extras: seq<Coded>): H
    decreases |extras|
  {
    var h' := hs.process(h, code, chunk).0;
    if extras == [] then h' else Headed(hs, h', extras[0].code, extras[0].chunk, extras[1..])
  }

  // None of them reports an error, and each leaves a state in which the next
  // code is legal.
  predicate Accepted<H>(hs: Headers<H>, h: H, code: Byte, chunk: seq<Byte>, extras: seq<Coded>, states: set<State>)
    decreases |extras|
  {
    var (h', error) := hs.process(h, code, chunk);
    && !error && hs.stateOf(h') in states
    && (extras != [] ==> Accepted(hs, h', extras[0].code, extras[0].chunk, extras[1..], states))
  }

  // User data is kept, with the prefixes after it, for the function that ends
  // the header.
  function UserData(code: Byte, chunk: seq<Byte>, extras: seq<Coded>): seq<Byte>
    decreases |extras|
  {
    (if code == 0xb2 then chunk else [])
    + if extras == [] then [] else UserData(extras[0].code, extras[0].chunk, extras[1..])
  }

  function Decoded<H>(hs: Headers<H>, h: H, slices: seq<Coded>): H
  {
    if slices == [] then h else Decoded(hs, hs.slice(h, slices[0].code, slices[0].chunk), slices[1..])
  }

  // The handlers' state when the header of a unit has ended, and when the next
  // unit starts.
  function Ended<H>(hs: Headers<H>, h: H, u: Unit): H
  {
    var (headed, user) := (Headed(hs, h, u.Code(), u.chunk, u.extras), UserData(u.Code(), u.chunk, u.extras));
    match u
    case SequenceHeader(_, _) => hs.finalizeSequence(headed, user).0
    case GroupHeader(_, _) => hs.finalizeGop(headed, user)
    case APicture(_, _, _, _) => hs.finalizePicture(headed, user)
  }

  // The sequence header is that of another sequence, and decoding starts again.
  predicate Restarts<H>(hs: Headers<H>, h: H, u: Unit)
  {
    u.SequenceHeader?
    && hs.finalizeSequence(Headed(hs, h, u.Code(), u.chunk, u.extras), UserData(u.Code(), u.chunk, u.extras)).1
  }

  function Last<H>(hs: Headers<H>, h: H, u: Unit): H
  {
    var e := Ended(hs, h, u);
    if u.APicture? then Decoded(hs, hs.slice(hs.sliceStart(e), 1, u.first), u.slices)
    else if Restarts(hs, h, u) then hs.invalidEnd(e, [])
    else e
  }

  // The handlers accept the header of a unit and its extras.
  predicate HeadAccepted<H>(hs: Headers<H>, h: H, u: Unit)
  {
    Accepted(hs, h, u.Code(), u.chunk, u.extras,
             if u.SequenceHeader? then {Sequence} else if u.GroupHeader? then {Gop} else {Picture, Picture2nd})
  }

  // They accept the unit, before code b: at the end of a picture the state is
  // that of a whole frame, unless another picture follows.
  predicate Accepts<H>(hs: Headers<H>, h: H, u: Unit, b: Byte)
  {
    && HeadAccepted(hs, h, u)
    && (u.APicture? && b != 0 ==> hs.stateOf(Last(hs, h, u)) == Slice)
  }

  // ---- What is seen ----

  function HandledAll(code: Byte, chunk: seq<Byte>, extras: seq<Coded>): seq<Event>
    decreases |extras|
  {
    [Handled(code, chunk)] + if extras == [] then [] else HandledAll(extras[0].code, extras[0].chunk, extras[1..])
  }

  function SlicedAll(slices: seq<Coded>): seq<Event>
  {
    if slices == [] then [] else [Sliced(slices[0].code, slices[0].chunk)] + SlicedAll(slices[1..])
  }

  // The chunks of the unit and the states that are returned: when its header has
  // ended, after a restart, and when its slices have.
  function Events<H>(hs: Headers<H>, h: H, u: Unit): seq<Event>
  {
    HandledAll(u.Code(), u.chunk, u.extras) + ([Returned(hs.stateOf(Ended(hs, h, u)))]
    + if u.APicture? then SlicedAll([Coded(1, u.first)] + u.slices) + [Returned(hs.stateOf(Last(hs, h, u)))]
      else if Restarts(hs, h, u) then [Returned(Sequence)]
      else [])
  }

  // The chunks of a picture, up to the code after its slices.
  function PictureEvents<H>(hs: Headers<H>, h: H, u: Unit): seq<Event>
    requires u.APicture?
  {
    HandledAll(0, u.chunk, u.extras)
    + ([Returned(hs.stateOf(Ended(hs, h, u)))] + SlicedAll([Coded(1, u.first)] + u.slices))
  }

  // ---- Headers ----

  // A header of the given code is about to be copied.
  predicate Parsing<H>(m: Machine<H>, code: Byte)
  {
    && m.action == ParseHeader && !m.inLoop && m.code == code && (code != 0xb3 ==> m.known)
    && m.user == [] && Clear(m)
  }

  // No slices are left out, and no chunk is in progress.
  predicate Clear<H>(m: Machine<H>)
  {
    m.firstSlice == 1 && m.nbSlices == 0xaf && m.chunk == [] && m.shift == RESET
  }

  // The machine when a header and its extras have been processed, and the next
  // code is b.
  function Processed<H>(hs: Headers<H>, m: Machine<H>, chunk: seq<Byte>, extras: seq<Coded>, b: Byte): Machine<H>
    requires 0 <= m.code < 256
  {
    m.(code := b, h := Headed(hs, m.h, m.code, chunk, extras), user := m.user + UserData(m.code, chunk, extras))
  }

  lemma ProcessedAlone<H>(hs: Headers<H>, m: Machine<H>, chunk: seq<Byte>, b: Byte)
    requires m.code < 256 && m.chunk == [] && m.shift == RESET
    ensures Process(hs, m.(shift := PREFIX, chunk := chunk), b)
         == (Processed(hs, m, chunk, [], b), hs.process(m.h, m.code, chunk).1)
  {
    var none: seq<Byte> := [];
    assert m.user + none == m.user && chunk + none == chunk && none + none == none;
  }

  // A header or an extra, before another extra.
  lemma BeforeExtra<H>(hs: Headers<H>, m: Machine<H>, chunk: seq<Byte>, b: Byte, more: seq<Byte>)
    returns (n: Machine<H>)
    requires m.action == ParseHeader && Clear(m) && m.code < 256
    requires Terminated(chunk) && |m.user| + |chunk| < BUFFER_SIZE
    requires var (h, error) := hs.process(m.h, m.code, chunk);
      && !error && (b == 0xb2 || b == 0xb5)
      && hs.stateOf(h) in if b == 0xb2 then {Sequence, Gop, Picture, Picture2nd} else {Sequence, Picture, Picture2nd}
    ensures n == Processed(hs, m, chunk, [], b)
    ensures Leads(hs, m, chunk + ([b] + more), [Handled(m.code, chunk)], n, more)
  {
    hide Leads, Terminated, Process;
    n := Processed(hs, m, chunk, [], b);
    ProcessedAlone(hs, m, chunk, b);
    assert Transition(hs, n) == Go(n, []);
    LeadsHeader(hs, m, chunk, b, more);
    assert [Handled(m.code, chunk)] + [] == [Handled(m.code, chunk)];
  }

  // Any code but that of an extra: what the switch makes of it.
  lemma BeforeOther<H>(hs: Headers<H>, m: Machine<H>, chunk: seq<Byte>, b: Byte, more: seq<Byte>)
    requires m.action == ParseHeader && Clear(m) && m.code < 256
    requires Terminated(chunk) && |m.user| + |chunk| < BUFFER_SIZE
    requires !hs.process(m.h, m.code, chunk).1
    ensures var t := Transition(hs, Processed(hs, m, chunk, [], b));
      t.Go? && Leads(hs, m, chunk + ([b] + more), [Handled(m.code, chunk)] + t.events, t.m, more)
  {
    hide Leads, Terminated, Process;
    ProcessedAlone(hs, m, chunk, b);
    LeadsHeader(hs, m, chunk, b, more);
  }

  // The parts of what has been processed.
  lemma ProcessedOn<H>(hs: Headers<H>, m: Machine<H>, chunk: seq<Byte>, extras: seq<Coded>, b: Byte)
    requires m.code < 256 && extras != []
    ensures var e := extras[0];
      Processed(hs, Processed(hs, m, chunk, [], e.code), e.chunk, extras[1..], b) == Processed(hs, m, chunk, extras, b)
  {
    var (e, none) := (extras[0], []);
    var (user, rest) := (if m.code == 0xb2 then chunk else none, UserData(e.code, e.chunk, extras[1..]));
    assert UserData(m.code, chunk, extras) == user + rest;
    assert UserData(m.code, chunk, []) == user + none == user;
    assert (m.user + user) + rest == m.user + (user + rest);
  }

  // The first of the extras.
  lemma FirstExtra(extras: seq<Coded>, b: Byte, more: seq<Byte>)
    requires extras != []
    ensures var e := extras[0];
      AllBytes(extras) + ([b] + more) == [e.code] + (e.chunk + (AllBytes(extras[1..]) + ([b] + more)))
  {
  }

  lemma FirstHandled(code: Byte, chunk: seq<Byte>, extras: seq<Coded>, more: seq<Event>)
    requires extras != []
    ensures HandledAll(code, chunk, extras) + more
         == [Handled(code, chunk)] + (HandledAll(extras[0].code, extras[0].chunk, extras[1..]) + more)
  {
  }

  // A header and its extras, before any other code: what the switch makes of it.
  lemma {:induction false} HeaderRuns<H>(hs: Headers<H>, m: Machine<H>, chunk: seq<Byte>, extras: seq<Coded>, b: Byte,
                                         more: seq<Byte>, states: set<State>)
    requires m.action == ParseHeader && Clear(m) && m.code < 256 && Terminated(chunk)
    requires |m.user| + |chunk| + Total(extras) < BUFFER_SIZE
    requires forall e <- extras :: Terminated(e.chunk) && (e.code == 0xb2 || (e.code == 0xb5 && Gop !in states))
    requires states <= {Sequence, Gop, Picture, Picture2nd} && Accepted(hs, m.h, m.code, chunk, extras, states)
    ensures var t := Transition(hs, Processed(hs, m, chunk, extras, b));
      && t.Go?
      && Leads(hs, m, chunk + (AllBytes(extras) + ([b] + more)), HandledAll(m.code, chunk, extras) + t.events, t.m,
               more)
    decreases |extras|
  {
    hide Leads, Terminated, Transition;
    if extras == [] {
      BeforeOther(hs, m, chunk, b, more);
      assert AllBytes(extras) + ([b] + more) == [b] + more;
      assert HandledAll(m.code, chunk, []) == [Handled(m.code, chunk)] + [] == [Handled(m.code, chunk)];
    } else {
      var e := extras[0];
      var rest := e.chunk + (AllBytes(extras[1..]) + ([b] + more));
      FirstExtra(extras, b, more);
      hide AllBytes, HandledAll;
      var n := BeforeExtra(hs, m, chunk, e.code, rest);
      ProcessedOn(hs, m, chunk, extras, b);
      UserSize(m.code, chunk);
      HeaderRuns(hs, n, e.chunk, extras[1..], b, more, states);
      var t := Transition(hs, Processed(hs, n, e.chunk, extras[1..], b));
      var tail := HandledAll(e.code, e.chunk, extras[1..]);
      LeadsOn(hs, m, chunk + ([e.code] + rest), [Handled(m.code, chunk)], n, rest, tail + t.events, t.m, more);
      FirstHandled(m.code, chunk, extras, t.events);
    }
  }

  lemma UserSize(code: Byte, chunk: seq<Byte>)
    ensures |UserData(code, chunk, [])| <= |chunk|
  {
  }

  // ---- Slices ----

  // Slices are about to be copied, the next of code m.code.
  predicate Slicing<H>(m: Machine<H>)
  {
    m.action == NoAction && !m.inLoop && m.known && m.user == [] && Clear(m)
  }

  // Slices, the first of code m.code, and the code after them.
  lemma {:induction false} SlicesRun<H>(hs: Headers<H>, m: Machine<H>, first: seq<Byte>, slices: seq<Coded>, b: Byte,
                                        more: seq<Byte>) returns (n: Machine<H>)
    requires Slicing(m) && 1 <= m.code < 0xb0 && Terminated(first) && |first| < BUFFER_SIZE && AllSlices(slices)
    ensures n == m.(code := b, h := Decoded(hs, hs.slice(m.h, m.code, first), slices))
    ensures Leads(hs, m, first + (AllBytes(slices) + ([b] + more)), SlicedAll([Coded(m.code, first)] + slices), n, more)
    decreases |slices|
  {
    hide Leads, Terminated;
    assert ([Coded(m.code, first)] + slices)[1..] == slices;
    if slices == [] {
      LeadsSlice(hs, m, first, b, more);
      n := AfterSlice(hs, m, first, b);
      assert AllBytes(slices) + ([b] + more) == [b] + more;
      assert [Sliced(m.code, first)] + [] == [Sliced(m.code, first)];
    } else {
      var s := slices[0];
      var rest := s.chunk + (AllBytes(slices[1..]) + ([b] + more));
      assert AllBytes(slices) + ([b] + more) == [s.code] + rest;
      LeadsSlice(hs, m, first, s.code, rest);
      var k := AfterSlice(hs, m, first, s.code);
      n := SlicesRun(hs, k, s.chunk, slices[1..], b, more);
      assert slices == [Coded(s.code, s.chunk)] + slices[1..];
      LeadsOn(hs, m, first + ([s.code] + rest), [Sliced(m.code, first)], k, rest, SlicedAll(slices), n, more);
    }
  }

  // ---- Units ----

  // A sequence, a group or a picture follows, or the end code has come.
  predicate Follows<H>(m: Machine<H>, b: Byte)
  {
    && m.known && m.user == [] && Clear(m) && m.code == b && !m.inLoop
    && m.action == if b == 0xb7 then SeekHeader else ParseHeader
  }

  // The start of a header that is sought.
  lemma Found<H>(hs: Headers<H>, m: Machine<H>, data: seq<Byte>)
    requires m.action == SeekHeader && HeaderCode(m) && m.code != 0xb7 && !m.inLoop && m.user == [] && m.chunk == []
    ensures Leads(hs, m, data, [], m.(action := ParseHeader), data)
  {
    LeadsEager(hs, m, data);
  }

  // A sequence header that is not followed by another sequence.
  lemma SequenceEnds<H>(hs: Headers<H>, m: Machine<H>, u: Unit, b: Byte, more: seq<Byte>, t: Outcome<H>)
    returns (n: Machine<H>, e: seq<Event>)
    requires u.SequenceHeader? && u.MayPrecede(b) && Parsing(m, 0xb3) && Accepts(hs, m.h, u, b)
    requires t == Transition(hs, Processed(hs, m, u.chunk, u.extras, b))
    ensures t.Go? && t.events + e == [Returned(hs.stateOf(Ended(hs, m.h, u)))]
                                     + if Restarts(hs, m.h, u) then [Returned(Sequence)] else []
    ensures Follows(n, b) && n.h == Last(hs, m.h, u) && Leads(hs, t.m, more, e, n, more)
  {
    StateOfHeaded(hs, m.h, 0xb3, u.chunk, u.extras, {Sequence});
    var none: seq<Byte> := [];
    assert none + UserData(0xb3, u.chunk, u.extras) == UserData(0xb3, u.chunk, u.extras);
    if Restarts(hs, m.h, u) {
      LeadsEager(hs, t.m, more);
      var k := EagerStep(hs, t.m).m;
      Found(hs, k, more);
      n := k.(action := ParseHeader);
      e := [Returned(Sequence)];
      LeadsOn(hs, t.m, more, [Returned(Sequence)], k, more, [], n, more);
      assert e + [] == e;
    } else {
      n, e := t.m, [];
      PrependNothing(Run(hs, n, more));
    }
  }

  lemma {:induction false} StateOfHeaded<H>(hs: Headers<H>, h: H, code: Byte, chunk: seq<Byte>, extras: seq<Coded>,
                                            states: set<State>)
    requires Accepted(hs, h, code, chunk, extras, states)
    ensures hs.stateOf(Headed(hs, h, code, chunk, extras)) in states
    decreases |extras|
  {
    if extras != [] {
      StateOfHeaded(hs, hs.process(h, code, chunk).0, extras[0].code, extras[0].chunk, extras[1..], states);
    }
  }

  lemma GroupEnds<H>(hs: Headers<H>, m: Machine<H>, u: Unit, b: Byte, t: Outcome<H>)
    requires u.GroupHeader? && u.MayPrecede(b) && Parsing(m, 0xb8) && Accepts(hs, m.h, u, b)
    requires t == Transition(hs, Processed(hs, m, u.chunk, u.extras, b))
    ensures t.Go? && t.events == [Returned(hs.stateOf(Ended(hs, m.h, u)))]
    ensures t.Go? ==> Follows(t.m, b) && t.m.h == Last(hs, m.h, u)
  {
    StateOfHeaded(hs, m.h, 0xb8, u.chunk, u.extras, {Gop});
    var none: seq<Byte> := [];
    assert none + UserData(0xb8, u.chunk, u.extras) == UserData(0xb8, u.chunk, u.extras);
  }

  // The header of a picture ends at its first slice.
  lemma PictureEnds<H>(hs: Headers<H>, m: Machine<H>, u: Unit, more: seq<Byte>, t: Outcome<H>)
    returns (n: Machine<H>)
    requires u.APicture? && Parsing(m, 0) && HeadAccepted(hs, m.h, u)
    requires t == Transition(hs, Processed(hs, m, u.chunk, u.extras, 1))
    ensures t.Go? && t.events == [Returned(hs.stateOf(Ended(hs, m.h, u)))]
    ensures Slicing(n) && n.code == 1 && n.h == hs.sliceStart(Ended(hs, m.h, u)) && Leads(hs, t.m, more, [], n, more)
  {
    StateOfHeaded(hs, m.h, 0, u.chunk, u.extras, {Picture, Picture2nd});
    var none: seq<Byte> := [];
    assert none + UserData(0, u.chunk, u.extras) == UserData(0, u.chunk, u.extras);
    LeadsEager(hs, t.m, more);
    n := EagerStep(hs, t.m).m;
  }

  // The end of the slices.
  lemma SlicesEnd<H>(hs: Headers<H>, m: Machine<H>, b: Byte, more: seq<Byte>) returns (n: Machine<H>)
    requires Slicing(m) && m.code == b && (b == 0 || b == 0xb3 || b == 0xb7 || b == 0xb8)
    requires b != 0 ==> hs.stateOf(m.h) == Slice
    ensures Follows(n, b) && n.h == m.h && Leads(hs, m, more, [Returned(hs.stateOf(m.h))], n, more)
  {
    LeadsEager(hs, m, more);
    var k := EagerStep(hs, m).m;
    n := k;
    var e := [Returned(hs.stateOf(m.h))];
    if b != 0xb7 {
      Found(hs, k, more);
      n := k.(action := ParseHeader);
      LeadsOn(hs, m, more, e, k, more, [], n, more);
      assert e + [] == e;
    }
  }

  // A unit and the code after it.
  lemma UnitRuns<H>(hs: Headers<H>, m: Machine<H>, u: Unit, b: Byte, more: seq<Byte>) returns (n: Machine<H>)
    requires Parsing(m, u.Code()) && u.WellFormed() && u.MayPrecede(b) && Accepts(hs, m.h, u, b)
    ensures Follows(n, b) && n.h == Last(hs, m.h, u)
    ensures Leads(hs, m, u.Bytes() + ([b] + more), Events(hs, m.h, u), n, more)
  {
    if u.APicture? {
      n := PictureRuns(hs, m, u, b, more);
    } else {
      n := HeaderUnitRuns(hs, m, u, b, more);
    }
  }

  lemma HeaderUnitRuns<H>(hs: Headers<H>, m: Machine<H>, u: Unit, b: Byte, more: seq<Byte>) returns (n: Machine<H>)
    requires !u.APicture? && Parsing(m, u.Code()) && u.WellFormed() && u.MayPrecede(b) && Accepts(hs, m.h, u, b)
    ensures Follows(n, b) && n.h == Last(hs, m.h, u)
    ensures Leads(hs, m, u.Bytes() + ([b] + more), Events(hs, m.h, u), n, more)
  {
    hide Leads, Terminated, Transition, Processed, Ended, Last, Restarts;
    var data := u.Bytes() + ([b] + more);
    assert data == u.chunk + (AllBytes(u.extras) + ([b] + more)) by {
      assert AllBytes(u.extras) + [] == AllBytes(u.extras);
    }
    HeaderRuns(hs, m, u.chunk, u.extras, b, more, if u.SequenceHeader? then {Sequence} else {Gop});
    var t := Transition(hs, Processed(hs, m, u.chunk, u.extras, b));
    var handled := HandledAll(u.Code(), u.chunk, u.extras);
    if u.SequenceHeader? {
      var e;
      n, e := SequenceEnds(hs, m, u, b, more, t);
      LeadsOn(hs, m, data, handled + t.events, t.m, more, e, n, more);
      assert (handled + t.events) + e == handled + (t.events + e);
    } else {
      GroupEnds(hs, m, u, b, t);
      n := t.m;
      assert !Restarts(hs, m.h, u) by { NoRestart(hs, m.h, u); }
      assert t.events + [] == t.events;
    }
  }

  lemma NoRestart<H>(hs: Headers<H>, h: H, u: Unit)
    requires !u.SequenceHeader?
    ensures !Restarts(hs, h, u)
  {
  }

  // The slices of a picture, and the code after them.
  lemma PictureSlices<H>(hs: Headers<H>, m: Machine<H>, u: Unit, b: Byte, more: seq<Byte>) returns (n: Machine<H>)
    requires u.APicture? && Parsing(m, 0) && u.WellFormed() && HeadAccepted(hs, m.h, u)
    ensures Slicing(n) && n.code == b && n.h == Last(hs, m.h, u)
    ensures Leads(hs, m, u.Bytes() + ([b] + more), PictureEvents(hs, m.h, u), n, more)
  {
    hide Leads, Terminated, Transition, Processed, Ended;
    var rest := u.first + (AllBytes(u.slices) + ([b] + more));
    var data := u.Bytes() + ([b] + more);
    assert data == u.chunk + (AllBytes(u.extras) + ([1] + rest));
    HeaderRuns(hs, m, u.chunk, u.extras, 1, rest, {Picture, Picture2nd});
    var t := Transition(hs, Processed(hs, m, u.chunk, u.extras, 1));
    var handled := HandledAll(0, u.chunk, u.extras);
    var k := PictureEnds(hs, m, u, rest, t);
    LeadsOn(hs, m, data, handled + t.events, t.m, rest, [], k, rest);
    n := SlicesRun(hs, k, u.first, u.slices, b, more);
    var sliced := SlicedAll([Coded(1, u.first)] + u.slices);
    LeadsOn(hs, m, data, handled + t.events + [], k, rest, sliced, n, more);
    assert handled + t.events + [] + sliced == handled + (t.events + sliced);
  }

  lemma PictureRuns<H>(hs: Headers<H>, m: Machine<H>, u: Unit, b: Byte, more: seq<Byte>) returns (n: Machine<H>)
    requires u.APicture? && Parsing(m, 0) && u.WellFormed() && u.MayPrecede(b) && Accepts(hs, m.h, u, b)
    ensures Follows(n, b) && n.h == Last(hs, m.h, u)
    ensures Leads(hs, m, u.Bytes() + ([b] + more), Events(hs, m.h, u), n, more)
  {
    hide Leads, HeadAccepted;
    var l := PictureSlices(hs, m, u, b, more);
    n := SlicesEnd(hs, l, b, more);
    var (e, p, last) := (HandledAll(0, u.chunk, u.extras), [Returned(hs.stateOf(Ended(hs, m.h, u)))],
                         [Returned(hs.stateOf(l.h))]);
    var sliced := SlicedAll([Coded(1, u.first)] + u.slices);
    LeadsOn(hs, m, u.Bytes() + ([b] + more), PictureEvents(hs, m.h, u), l, more, last, n, more);
    assert e + (p + sliced) + last == e + (p + (sliced + last));
  }

  // ---- Sequences ----

  // Each unit may precede the next, and the last one the end code.
  predicate Ordered(units: seq<Unit>)
  {
    && units != [] && units[0].WellFormed() && units[0].MayPrecede(if |units| == 1 then 0xb7 else units[1].Code())
    && (|units| > 1 ==> Ordered(units[1..]))
  }

  function NextCode(units: seq<Unit>): Byte
    requires units != []
  {
    if |units| == 1 then 0xb7 else units[1].Code()
  }

  // The bytes after the code of the first unit, up to the end code.
  function SequenceBytes(units: seq<Unit>): seq<Byte>
    requires units != []
  {
    units[0].Bytes() + ([NextCode(units)] + if |units| == 1 then [] else SequenceBytes(units[1..]))
  }

  predicate AllAccepted<H>(hs: Headers<H>, h: H, units: seq<Unit>)
    requires units != []
  {
    && Accepts(hs, h, units[0], NextCode(units))
    && (|units| > 1 ==> AllAccepted(hs, Last(hs, h, units[0]), units[1..]))
  }

  function AllEvents<H>(hs: Headers<H>, h: H, units: seq<Unit>): seq<Event>
  {
    if units == [] then [] else Events(hs, h, units[0]) + AllEvents(hs, Last(hs, h, units[0]), units[1..])
  }

  function AllLast<H>(hs: Headers<H>, h: H, units: seq<Unit>): H
  {
    if units == [] then h else AllLast(hs, Last(hs, h, units[0]), units[1..])
  }

  lemma {:induction false} UnitsRun<H>(hs: Headers<H>, m: Machine<H>, units: seq<Unit>, more: seq<Byte>)
    returns (n: Machine<H>)
    requires Ordered(units) && Parsing(m, units[0].Code()) && AllAccepted(hs, m.h, units)
    ensures Follows(n, 0xb7) && n.h == AllLast(hs, m.h, units)
    ensures Leads(hs, m, SequenceBytes(units) + more, AllEvents(hs, m.h, units), n, more)
    decreases |units|
  {
    hide Leads, Terminated, Accepts, Events, Last;
    var (u, b) := (units[0], NextCode(units));
    if |units| == 1 {
      n := UnitRuns(hs, m, u, b, more);
      assert SequenceBytes(units) + more == u.Bytes() + ([b] + more);
      assert units[1..] == [];
      assert Events(hs, m.h, u) + [] == Events(hs, m.h, u);
    } else {
      var rest := SequenceBytes(units[1..]) + more;
      assert SequenceBytes(units) + more == u.Bytes() + ([b] + rest);
      var k := UnitRuns(hs, m, u, b, rest);
      n := UnitsRun(hs, k, units[1..], more);
      LeadsOn(hs, m, u.Bytes() + ([b] + rest), Events(hs, m.h, u), k, rest, AllEvents(hs, k.h, units[1..]), n, more);
    }
  }

  // Before a sequence: nothing but the code of a sequence header is looked for.
  predicate Resting<H>(m: Machine<H>)
  {
    m.action == SeekHeader && !m.known && m.code != 0xb3 && !m.inLoop && m.user == [] && Clear(m)
  }

  // The end code.
  lemma EndRuns<H>(hs: Headers<H>, m: Machine<H>, more: seq<Byte>) returns (n: Machine<H>)
    requires Follows(m, 0xb7)
    ensures Resting(n) && n.h == hs.reset(hs.headerEnd(m.h)) && Leads(hs, m, more, [Returned(End)], n, more)
  {
    LeadsEager(hs, m, more);
    var k := EagerStep(hs, m).m;
    LeadsEager(hs, k, more);
    n := EagerStep(hs, k).m;
    LeadsOn(hs, m, more, [Returned(End)], k, more, [], n, more);
    assert [Returned(End)] + [] == [Returned(End)];
  }

  // A sequence: what comes before its first start code, and its units.
  datatype Coding = Coding(prefix: seq<Byte>, units: seq<Unit>) {
    predicate WellFormed()
    {
      Terminated(prefix) && Ordered(units) && units[0].SequenceHeader?
    }

    function Bytes(): seq<Byte>
      requires units != []
    {
      prefix + ([0xb3] + SequenceBytes(units))
    }
  }

  // A sequence from its prefix to its end code: what is seen of it, and the
  // calls of the handlers that their state has gone through.
  lemma SequenceRuns<H>(hs: Headers<H>, m: Machine<H>, c: Coding, more: seq<Byte>) returns (n: Machine<H>)
    requires Resting(m) && c.WellFormed() && AllAccepted(hs, m.h, c.units)
    ensures Resting(n) && n.h == hs.reset(hs.headerEnd(AllLast(hs, m.h, c.units)))
    ensures Leads(hs, m, c.Bytes() + more, AllEvents(hs, m.h, c.units) + [Returned(End)], n, more)
  {
    hide Leads, Terminated, AllAccepted, AllEvents, AllLast, SequenceBytes;
    var data := SequenceBytes(c.units) + more;
    assert c.Bytes() + more == c.prefix + ([0xb3] + data);
    LeadsSkip(hs, m, c.prefix, 0xb3, data);
    var k := Skipped(m, 0xb3);
    Found(hs, k, data);
    var l := k.(action := ParseHeader);
    LeadsOn(hs, m, c.Bytes() + more, [], k, data, [], l, data);
    var o := UnitsRun(hs, l, c.units, more);
    var e := AllEvents(hs, m.h, c.units);
    LeadsOn(hs, m, c.Bytes() + more, [] + [], l, data, e, o, more);
    n := EndRuns(hs, o, more);
    LeadsOn(hs, m, c.Bytes() + more, [] + [] + e, o, more, [Returned(End)], n, more);
    assert [] + [] + e + [Returned(End)] == e + [Returned(End)];
  }

  // ---- Any number of sequences ----

  predicate AllWellFormed(file: seq<Coding>)
  {
    forall i :: 0 <= i < |file| ==> file[i].WellFormed()
  }

  function FileBytes(file: seq<Coding>): seq<Byte>
    requires AllWellFormed(file)
  {
    if file == [] then [] else file[0].Bytes() + FileBytes(file[1..])
  }

  predicate FileAccepted<H>(hs: Headers<H>, h: H, file: seq<Coding>)
    requires AllWellFormed(file)
  {
    file == [] ||
    (AllAccepted(hs, h, file[0].units) &&
     FileAccepted(hs, hs.reset(hs.headerEnd(AllLast(hs, h, file[0].units))), file[1..]))
  }

  function FileEvents<H>(hs: Headers<H>, h: H, file: seq<Coding>): seq<Event>
  {
    if file == [] then []
    else
      AllEvents(hs, h, file[0].units) + [Returned(End)]
      + FileEvents(hs, hs.reset(hs.headerEnd(AllLast(hs, h, file[0].units))), file[1..])
  }

  lemma {:induction false} FileRuns<H>(hs: Headers<H>, m: Machine<H>, file: seq<Coding>)
    requires Resting(m) && AllWellFormed(file) && FileAccepted(hs, m.h, file)
    ensures var r := Run(hs, m, FileBytes(file)); r.Go? && r.events == FileEvents(hs, m.h, file)
    decreases |file|
  {
    if file != [] {
      hide AllEvents, AllLast, AllAccepted;
      var (c, rest) := (file[0], FileBytes(file[1..]));
      var n := SequenceRuns(hs, m, c, rest);
      FileRuns(hs, n, file[1..]);
    }
  }
}
