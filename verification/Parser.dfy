// The resumable parser of libmpeg2/decode.c: start-code scanner, chunk copier
// and the state machine driven by the stored action. Headers are interpreted by
// functions that stand for libmpeg2/header.c and libmpeg2/slice.c.
module Parser {
  import opened Words

  const BUFFER_SIZE: nat := 1194 * 1024

  datatype State = Buffer | Sequence | SequenceRepeated | Gop | Picture | Slice1st | Picture2nd | Slice | End | Invalid
                 | InvalidEnd | SequenceModified

  // The stored action; NoAction is the null pointer.
  datatype Action = NoAction | SeekChunk | SeekHeader | ParseHeader | SliceStart | SeekSequence | InvalidEndAction

  // The functions of header.c and slice.c, over a state of their own. Those
  // that end a header are given the user data that came before.
  datatype Headers<!H> = Headers(
    stateOf: H -> State,
    process: (H, nat, seq<Byte>) -> (H, bool),
    finalizeSequence: (H, seq<Byte>) -> (H, bool),
    finalizeGop: (H, seq<Byte>) -> H,
    finalizePicture: (H, seq<Byte>) -> H,
    sliceStart: H -> H,
    slice: (H, nat, seq<Byte>) -> H,
    headerEnd: H -> H,
    invalidEnd: (H, seq<Byte>) -> H,
    reset: H -> H
  )

  // What an application or a handler sees of a run, other than requests for
  // more data.
  datatype Event = Returned(state: State) | Handled(code: nat, chunk: seq<Byte>) | Sliced(code: nat, chunk: seq<Byte>)

  // known: a sequence header has been accepted. inLoop: with SeekChunk stored,
  // the call in progress is past the stored action. user and chunk are the two
  // parts of the chunk buffer, user data collected so far and the chunk that is
  // being copied.
  datatype Machine<H> = Machine(
    action: Action, inLoop: bool, code: nat, shift: nat, known: bool, firstSlice: nat, nbSlices: nat,
    user: seq<Byte>, chunk: seq<Byte>, h: H)

  // ---- The start-code scanner ----

  const RESET: nat := 0xffff_ff00
  const PREFIX: nat := 0x0000_0100

  // shift = (shift | byte) << 8
  function NextShift(shift: nat, b: Byte): nat
  {
    (Or(shift, b) * 256) % TWO_32
  }

  // ---- The state machine, byte by byte ----

  datatype Mode = Skip | CopyHeader | CopySlice | Eager

  predicate Decodes<H>(m: Machine<H>)
  {
    0 <= m.code - m.firstSlice < m.nbSlices
  }

  predicate HeaderCode<H>(m: Machine<H>)
  {
    m.code == 0xb3 || ((m.code == 0xb7 || m.code == 0xb8 || m.code == 0) && m.known)
  }

  // What the machine does next: it waits for a byte to skip or to copy, or it
  // has something to do before it needs one.
  function ModeOf<H>(m: Machine<H>): Mode
  {
    match m.action
    case NoAction => LoopMode(m)
    case SeekChunk => if m.inLoop then LoopMode(m) else Skip
    case SeekHeader => if HeaderCode(m) then Eager else Skip
    case ParseHeader => CopyHeader
    case _ => Eager
  }

  function LoopMode<H>(m: Machine<H>): Mode
  {
    if Decodes(m) then CopySlice else if 1 <= m.code < 0xb0 then Skip else Eager
  }

  predicate Copying<H>(m: Machine<H>)
  {
    ModeOf(m) == CopyHeader || ModeOf(m) == CopySlice
  }

  // Fail: a slice chunk does not fit in the chunk buffer.
  datatype Outcome<H> = Go(m: Machine<H>, events: seq<Event>) | Fail(events: seq<Event>)

  function Prepend<H>(e: seq<Event>, r: Outcome<H>): Outcome<H>
  {
    match r
    case Go(m, f) => Go(m, e + f)
    case Fail(f) => Fail(e + f)
  }

  function Restart<H>(m: Machine<H>): Machine<H>
  {
    m.(action := SeekHeader, inLoop := false, user := [], chunk := [])
  }

  // The end of a picture: a code that is not a slice.
  function LeaveLoop<H>(hs: Headers<H>, m: Machine<H>): Outcome<H>
  {
    if m.code == 0 then Go(Restart(m), [Returned(hs.stateOf(m.h))])
    else if m.code == 0xb3 || m.code == 0xb7 || m.code == 0xb8 then
      Go(Restart(m), [Returned(if hs.stateOf(m.h) == Slice then Slice else Invalid)])
    else Go(m.(action := SeekChunk, inLoop := false), [Returned(Invalid)])
  }

  // A step that needs no byte.
  function EagerStep<H>(hs: Headers<H>, m: Machine<H>): Outcome<H>
    requires ModeOf(m) == Eager
  {
    match m.action
    case NoAction => LeaveLoop(hs, m)
    case SeekChunk => LeaveLoop(hs, m)
    case SeekHeader =>
      if m.code == 0xb7 then
        Go(m.(action := SeekSequence, user := [], chunk := [], h := hs.headerEnd(m.h)), [Returned(End)])
      else Go(m.(action := ParseHeader, user := [], chunk := []), [])
    case SliceStart => Go(m.(action := NoAction, h := hs.sliceStart(m.h)), [])
    case SeekSequence =>
      Go(Restart(m).(known := false, firstSlice := 1, nbSlices := 0xaf, h := hs.reset(m.h)), [])
    case InvalidEndAction =>
      Go(Restart(m).(known := true, firstSlice := 1, nbSlices := 0xaf, h := hs.invalidEnd(m.h, m.user)),
         [Returned(Sequence)])
  }

  predicate Full<H>(m: Machine<H>)
  {
    |m.user| + |m.chunk| >= BUFFER_SIZE
  }

  // Steps that need no byte, or find the chunk buffer full, cannot go on for ever.
  function Rank<H>(m: Machine<H>): nat
  {
    match m.action
    case SliceStart => 6
    case NoAction => 5
    case SeekChunk => if m.inLoop then 5 else 0
    case InvalidEndAction => 5
    case SeekHeader => if m.known then 4 else 2
    case SeekSequence => 3
    case ParseHeader => if Full(m) then 5 else 0
  }

  // The switch on the code that follows a header and the state it led to.
  function Transition<H>(hs: Headers<H>, m: Machine<H>): Outcome<H>
  {
    var b := m.code;
    var st := hs.stateOf(m.h);
    if (b == 0 || b == 0xb8) && st == Sequence then
      var (h, restart) := hs.finalizeSequence(m.h, m.user);
      Go(m.(h := h, known := true, action := if restart then InvalidEndAction else ParseHeader, user := []),
         [Returned(hs.stateOf(h))])
    else if b == 0 && st == Gop then
      var h := hs.finalizeGop(m.h, m.user);
      Go(m.(h := h, user := []), [Returned(hs.stateOf(h))])
    else if b == 1 && (st == Picture || st == Picture2nd) then
      var h := hs.finalizePicture(m.h, m.user);
      Go(m.(h := h, action := SliceStart, user := []), [Returned(hs.stateOf(h))])
    else if (b == 0xb2 && (st == Sequence || st == Gop || st == Picture || st == Picture2nd))
         || (b == 0xb5 && (st == Sequence || st == Picture || st == Picture2nd)) then
      Go(m, [])
    else Go(Restart(m), [Returned(Invalid)])
  }

  // A header chunk is complete and b is the next start code: the header
  // function is called, and it may report an error.
  function Process<H>(hs: Headers<H>, m: Machine<H>, b: Byte): (Machine<H>, bool)
  {
    var (h, error) := hs.process(m.h, m.code, m.chunk);
    var user := if m.code == 0xb2 then m.user + m.chunk else m.user;
    (m.(code := b, shift := RESET, h := h, user := user, chunk := []), error)
  }

  function EndOfHeader<H>(hs: Headers<H>, m: Machine<H>, b: Byte): Outcome<H>
  {
    var (n, error) := Process(hs, m, b);
    Prepend([Handled(m.code, m.chunk)], if error then Go(Restart(n), [Returned(Invalid)]) else Transition(hs, n))
  }

  // The start code b has been found while skipping.
  function Skipped<H>(m: Machine<H>, b: Byte): Machine<H>
  {
    m.(code := b, shift := RESET, inLoop := m.action == SeekChunk)
  }

  // A slice chunk is complete, and b is the code after it.
  function AfterSlice<H>(hs: Headers<H>, m: Machine<H>, chunk: seq<Byte>, b: Byte): Machine<H>
  {
    m.(code := b, shift := RESET, chunk := [], h := hs.slice(m.h, m.code, chunk))
  }

  // The next byte, when the machine waits for one and has room for it.
  function ByteStep<H>(hs: Headers<H>, m: Machine<H>, b: Byte): Outcome<H>
    requires ModeOf(m) != Eager
  {
    if m.shift != PREFIX then
      Go(m.(shift := NextShift(m.shift, b), chunk := if ModeOf(m) == Skip then m.chunk else m.chunk + [b]), [])
    else
      match ModeOf(m)
      case Skip => Go(Skipped(m, b), [])
      case CopyHeader => EndOfHeader(hs, m, b)
      case _ => Go(AfterSlice(hs, m, m.chunk, b), [Sliced(m.code, m.chunk)])
  }

  // There is a byte but no room for it.
  function FullStep<H>(m: Machine<H>): Outcome<H>
  {
    if m.action == ParseHeader then Go(Restart(m).(code := 0xb4), [Returned(Invalid)]) else Fail([Returned(Invalid)])
  }

  predicate Stuck<H>(m: Machine<H>)
  {
    Copying(m) && Full(m)
  }

  predicate Idle<H>(m: Machine<H>, data: seq<Byte>)
  {
    ModeOf(m) != Eager && data == []
  }

  function Next<H>(hs: Headers<H>, m: Machine<H>, data: seq<Byte>): Outcome<H>
    requires !Idle(m, data)
  {
    if ModeOf(m) == Eager then EagerStep(hs, m) else if Stuck(m) then FullStep(m) else ByteStep(hs, m, data[0])
  }

  function Left<H>(m: Machine<H>, data: seq<Byte>): seq<Byte>
    requires !Idle(m, data)
  {
    if ModeOf(m) == Eager || Stuck(m) then data else data[1..]
  }

  lemma StepDecreases<H>(hs: Headers<H>, m: Machine<H>, data: seq<Byte>)
    requires !Idle(m, data) && Next(hs, m, data).Go?
    ensures var n := Next(hs, m, data).m;
      |Left(m, data)| < |data| || (Left(m, data) == data && Rank(n) < Rank(m))
  {
  }

  // The run of the machine over data: where it stands when it has no more
  // bytes and nothing left to do, and what was seen.
  function Run<H>(hs: Headers<H>, m: Machine<H>, data: seq<Byte>): (r: Outcome<H>)
    ensures r.Go? ==> ModeOf(r.m) != Eager
    decreases |data|, Rank(m)
  {
    if Idle(m, data) then Go(m, [])
    else
      match Next(hs, m, data)
      case Go(n, e) =>
        StepDecreases(hs, m, data);
        Prepend(e, Run(hs, n, Left(m, data)))
      case Fail(e) => Fail(e)
  }

  // What happens to the machine when mpeg2_parse returns for want of data: the
  // stored action is all that the next call knows.
  function Boundary<H>(m: Machine<H>): Machine<H>
  {
    m.(inLoop := false)
  }

  // A run over buffers, handed over one at a time.
  function RunAll<H>(hs: Headers<H>, m: Machine<H>, buffers: seq<seq<Byte>>): Outcome<H>
    decreases |buffers|
  {
    if buffers == [] then Go(m, [])
    else
      match Run(hs, m, buffers[0])
      case Go(n, e) => Prepend(e, RunAll(hs, Boundary(n), buffers[1..]))
      case Fail(e) => Fail(e)
  }

  // A slice is being copied while SeekChunk is stored.
  predicate Losing<H>(m: Machine<H>)
  {
    m.action == SeekChunk && m.inLoop && Decodes(m)
  }

  // No buffer but the last ends in such a slice.
  predicate HarmlessCuts<H>(hs: Headers<H>, m: Machine<H>, buffers: seq<seq<Byte>>)
    decreases |buffers|
  {
    |buffers| > 1 && Run(hs, m, buffers[0]).Go? ==>
      var n := Run(hs, m, buffers[0]).m;
      !Losing(n) && HarmlessCuts(hs, Boundary(n), buffers[1..])
  }

  // The same has been seen, and the next call goes on from the same state.
  ghost predicate Alike<H>(r: Outcome<H>, s: Outcome<H>)
  {
    r.events == s.events && r.Go? == s.Go? && (r.Go? ==> Boundary(r.m) == Boundary(s.m))
  }

  function Then<H>(hs: Headers<H>, r: Outcome<H>, data: seq<Byte>): Outcome<H>
  {
    match r
    case Go(n, e) => Prepend(e, Run(hs, n, data))
    case Fail(e) => Fail(e)
  }

  lemma PrependTwice<H>(e: seq<Event>, f: seq<Event>, r: Outcome<H>)
    ensures Prepend(e, Prepend(f, r)) == Prepend(e + f, r)
  {
    assert e + (f + r.events) == (e + f) + r.events;
  }

  lemma PrependNothing<H>(r: Outcome<H>)
    ensures Prepend([], r) == r
  {
    assert [] + r.events == r.events;
  }

  lemma ThenPrepend<H>(hs: Headers<H>, e: seq<Event>, r: Outcome<H>, b: seq<Byte>)
    ensures Then(hs, Prepend(e, r), b) == Prepend(e, Then(hs, r, b))
  {
    if r.Go? { PrependTwice(e, r.events, Run(hs, r.m, b)); }
  }

  // Cutting the data in two changes nothing.
  lemma {:induction false} RunSplit<H>(hs: Headers<H>, m: Machine<H>, a: seq<Byte>, b: seq<Byte>)
    ensures Run(hs, m, a + b) == Then(hs, Run(hs, m, a), b)
    decreases |a|, Rank(m)
  {
    if Idle(m, a) {
      assert a + b == b;
      PrependNothing(Run(hs, m, b));
    } else {
      assert a != [] ==> (a + b)[0] == a[0] && (a + b)[1..] == a[1..] + b;
      var st := Next(hs, m, a);
      assert Next(hs, m, a + b) == st && Left(m, a + b) == Left(m, a) + b;
      if st.Go? {
        StepDecreases(hs, m, a);
        RunSplit(hs, st.m, Left(m, a), b);
        ThenPrepend(hs, st.events, Run(hs, st.m, Left(m, a)), b);
      }
    }
  }

  // Whether the call in progress is past the stored action matters to SeekChunk only.
  predicate Tidy<H>(m: Machine<H>)
  {
    m.inLoop ==> m.action == SeekChunk
  }

  lemma {:induction false} RunTidy<H>(hs: Headers<H>, m: Machine<H>, data: seq<Byte>)
    requires Tidy(m)
    ensures var r := Run(hs, m, data); r.Go? ==> Tidy(r.m)
    decreases |data|, Rank(m)
  {
    if !Idle(m, data) && Next(hs, m, data).Go? {
      StepDecreases(hs, m, data);
      RunTidy(hs, Next(hs, m, data).m, Left(m, data));
    }
  }

  // A return for want of data is not noticed, unless a slice is lost.
  lemma {:induction false} CutHarmless<H>(hs: Headers<H>, m: Machine<H>, data: seq<Byte>)
    requires ModeOf(m) != Eager && Tidy(m) && !Losing(m)
    ensures Alike(Run(hs, m, data), Run(hs, Boundary(m), data))
    decreases |data|
  {
    if m.inLoop && data != [] && m.shift != PREFIX {
      CutHarmless(hs, m.(shift := NextShift(m.shift, data[0])), data[1..]);
    }
  }

  // However the data is cut, the same states are returned and the same chunks
  // reach every handler as from the whole, provided that the cuts are harmless.
  lemma {:induction false} BufferSplitInvariance<H>(hs: Headers<H>, m: Machine<H>, buffers: seq<seq<Byte>>)
    requires ModeOf(m) != Eager && Tidy(m) && HarmlessCuts(hs, m, buffers)
    ensures Alike(RunAll(hs, m, buffers), Run(hs, m, Concat(buffers)))
    decreases |buffers|
  {
    if buffers != [] {
      var r, rest := Run(hs, m, buffers[0]), Concat(buffers[1..]);
      RunSplit(hs, m, buffers[0], rest);
      if r.Go? && |buffers| > 1 {
        RunTidy(hs, m, buffers[0]);
        BufferSplitInvariance(hs, Boundary(r.m), buffers[1..]);
        CutHarmless(hs, r.m, rest);
      }
    }
  }
}
