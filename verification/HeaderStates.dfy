// The part of the header functions of libmpeg2/header.c that the state machine
// depends on, run under the parser: on every input the picture pointer stays in
// its array, and only extensions that have a parser are dispatched.
module HeaderStates {
  import opened Words
  import opened Parser

  datatype Repeat = Fresh | Repeated | Modified | Restarted

  // What the functions read in their chunks and elsewhere.
  datatype Reading = Reading(
    bad: (nat, seq<Byte>) -> bool,
    isB: seq<Byte> -> bool,
    nbFields: seq<Byte> -> nat,
    repeat: (Slots, seq<Byte>) -> Repeat)

  // picture: the slot of mpeg2dec->picture. ext: the extensions that
  // mpeg2dec->ext_state allows. dispatched: those whose parser was called.
  // seconds: how many second fields were finalized since the last first field.
  datatype Slots = Slots(
    state: State, picture: int, typeB: bool, newB: bool, newNbFields: nat,
    ext: set<nat>, dispatched: seq<nat>, seconds: nat)

  const SEQ_EXT := 1
  const SEQ_DISPLAY_EXT := 2
  const QUANT_MATRIX_EXT := 3
  const COPYRIGHT_EXT := 4
  const PIC_DISPLAY_EXT := 7
  const PIC_CODING_EXT := 8

  // The non-null entries of the table in mpeg2_header_extension.
  const PARSERS: set<nat> := {SEQ_EXT, SEQ_DISPLAY_EXT, QUANT_MATRIX_EXT, COPYRIGHT_EXT,
                              PIC_DISPLAY_EXT, PIC_CODING_EXT}

  function Extension(r: Reading, h: Slots, chunk: seq<Byte>): (Slots, bool)
  {
    var ext := if chunk == [] then 0 else chunk[0] / 16;
    if ext !in h.ext then (h, false)
    else
      var n := h.(ext := h.ext - {ext}, dispatched := h.dispatched + [ext]);
      if r.bad(0xb5, chunk) then (n, true)
      else if ext == SEQ_EXT then (n.(ext := {SEQ_DISPLAY_EXT}), false)
      else if ext == PIC_CODING_EXT then
        (n.(newNbFields := r.nbFields(chunk), ext := {PIC_DISPLAY_EXT, COPYRIGHT_EXT, QUANT_MATRIX_EXT}), false)
      else (n, false)
  }

  function Process(r: Reading, h: Slots, code: nat, chunk: seq<Byte>): (Slots, bool)
  {
    if code == 0 then
      (h.(state := if h.state != Slice1st then Picture else Picture2nd, newB := r.isB(chunk), newNbFields := 2,
          ext := {PIC_CODING_EXT}), false)
    else if code == 0xb5 then Extension(r, h, chunk)
    else if code == 0xb3 then
      if r.bad(code, chunk) then (h, true) else (h.(state := Sequence, ext := {SEQ_EXT}), false)
    else if code == 0xb8 then
      if r.bad(code, chunk) then (h, true) else (h.(state := Gop), false)
    else (h, false)
  }

  function FinalizeSequence(r: Reading, h: Slots, user: seq<Byte>): (Slots, bool)
  {
    match r.repeat(h, user)
    case Fresh => (h, false)
    case Repeated => (h.(state := SequenceRepeated), false)
    case Modified => (h.(state := SequenceModified), false)
    case Restarted => (h.(state := InvalidEnd), true)
  }

  function FinalizePicture(h: Slots): Slots
  {
    if h.state == Picture then h.(picture := if h.typeB != (h.picture < 2) then 2 else 0, typeB := h.newB, seconds := 0)
    else h.(picture := h.picture + 1, typeB := h.newB, seconds := h.seconds + 1)
  }

  function SliceStart(h: Slots): Slots
  {
    h.(state := if h.newNbFields > 1 || h.state == Picture2nd then Slice else Slice1st)
  }

  function HeadersOf(r: Reading): Headers<Slots>
  {
    Headers(
      (h: Slots) => h.state,
      (h: Slots, code: nat, chunk: seq<Byte>) => Process(r, h, code, chunk),
      (h: Slots, user: seq<Byte>) => FinalizeSequence(r, h, user),
      (h: Slots, user: seq<Byte>) => h,
      (h: Slots, user: seq<Byte>) => FinalizePicture(h),
      (h: Slots) => SliceStart(h),
      (h: Slots, code: nat, chunk: seq<Byte>) => h,
      (h: Slots) => h,
      (h: Slots, user: seq<Byte>) => h.(state := Sequence, picture := 0, typeB := false),
      (h: Slots) => h.(picture := 0, typeB := false))
  }

  predicate Dispatches(h: Slots)
  {
    h.ext <= PARSERS && forall e <- h.dispatched :: e in PARSERS
  }

  // At most one second field is finalized for each first, and one is due, or
  // being read, only while there has been none and the pointer is at a first.
  predicate InSlots(m: Machine<Slots>)
  {
    var h := m.h;
    && 0 <= h.picture < 4 && h.seconds <= 1
    && (m.action == Action.SliceStart ==>
        (h.state == Picture && h.picture % 2 == 0 && h.seconds == 0) ||
        (h.state == Picture2nd && h.picture % 2 == 1 && h.seconds == 1))
    && (m.action != Action.SliceStart && (h.state == Slice1st || h.state == Picture2nd) ==>
        h.picture % 2 == 0 && h.seconds == 0)
  }

  predicate Safe(m: Machine<Slots>)
  {
    InSlots(m) && Dispatches(m.h)
  }

  // mpeg2_reset and mpeg2_header_state_init
  function Start(): Machine<Slots>
  {
    Machine(SeekHeader, false, 0xb4, RESET, false, 1, 0xaf, [], [],
            Slots(Invalid, 0, false, false, 0, {}, [], 0))
  }

  lemma ExtensionSafe(r: Reading, h: Slots, chunk: seq<Byte>)
    requires Dispatches(h)
    ensures Dispatches(Extension(r, h, chunk).0)
  {
  }

  predicate SafeHeader(h: Slots)
  {
    && Dispatches(h) && 0 <= h.picture < 4 && h.seconds <= 1
    && (h.state == Slice1st || h.state == Picture2nd ==> h.picture % 2 == 0 && h.seconds == 0)
  }

  lemma ProcessSafe(r: Reading, h: Slots, code: nat, chunk: seq<Byte>)
    requires SafeHeader(h)
    ensures SafeHeader(Process(r, h, code, chunk).0)
  {
    ExtensionSafe(r, h, chunk);
  }

  lemma SequenceSafe(r: Reading, m: Machine<Slots>, h: Slots, action: Action)
    requires SafeHeader(m.h) && m.action == ParseHeader && m.h.state == Sequence
    requires h == FinalizeSequence(r, m.h, m.user).0 && (action == ParseHeader || action == InvalidEndAction)
    ensures Safe(m.(h := h, known := true, action := action, user := []))
  {
  }

  lemma PictureSafe(m: Machine<Slots>)
    requires SafeHeader(m.h) && (m.h.state == Picture || m.h.state == Picture2nd)
    requires m.h.state == Picture2nd ==> m.h.picture % 2 == 0 && m.h.seconds == 0
    ensures Safe(m.(h := FinalizePicture(m.h), action := Action.SliceStart, user := []))
  {
  }

  lemma TransitionSafe(r: Reading, m: Machine<Slots>)
    requires SafeHeader(m.h) && m.action == Action.ParseHeader
    ensures var o := Transition(HeadersOf(r), m); o.Go? && Safe(o.m)
  {
    var hs := HeadersOf(r);
    var (b, st) := (m.code, m.h.state);
    assert hs.stateOf(m.h) == st;
    if (b == 0 || b == 0xb8) && st == Sequence {
      var (h, restart) := FinalizeSequence(r, m.h, m.user);
      assert hs.finalizeSequence(m.h, m.user) == (h, restart);
      SequenceSafe(r, m, h, if restart then InvalidEndAction else ParseHeader);
    } else if b == 1 && (st == Picture || st == Picture2nd) {
      assert hs.finalizePicture(m.h, m.user) == FinalizePicture(m.h);
      PictureSafe(m);
    } else if b == 0 && st == Gop {
      assert hs.finalizeGop(m.h, m.user) == m.h;
    }
  }

  lemma HeaderSafe(r: Reading, m: Machine<Slots>, b: Byte)
    requires Safe(m) && m.action == Action.ParseHeader
    ensures var o := EndOfHeader(HeadersOf(r), m, b); o.Go? && Safe(o.m)
  {
    ProcessSafe(r, m.h, m.code, m.chunk);
    var (n, error) := Parser.Process(HeadersOf(r), m, b);
    assert n.h == Process(r, m.h, m.code, m.chunk).0;
    if !error { TransitionSafe(r, n); }
  }

  lemma StepSafe(r: Reading, m: Machine<Slots>, data: seq<Byte>)
    requires Safe(m) && !Idle(m, data)
    ensures var o := Next(HeadersOf(r), m, data); o.Go? ==> Safe(o.m)
  {
    if ModeOf(m) == CopyHeader && !Stuck(m) && m.shift == PREFIX { HeaderSafe(r, m, data[0]); }
  }

  // Whatever the bytes, the pointer stays in its array, no second field is
  // finalized twice for a first, and no extension without a parser is called.
  lemma {:induction false} RunSafe(r: Reading, m: Machine<Slots>, data: seq<Byte>)
    requires Safe(m)
    ensures var o := Run(HeadersOf(r), m, data);
      o.Go? ==> Safe(o.m) && 0 <= o.m.h.picture < 4 && o.m.h.seconds <= 1 && Dispatches(o.m.h)
    decreases |data|, Rank(m)
  {
    if !Idle(m, data) {
      var hs := HeadersOf(r);
      StepSafe(r, m, data);
      var st := Next(hs, m, data);
      if st.Go? {
        StepDecreases(hs, m, data);
        RunSafe(r, st.m, Left(m, data));
      }
    }
  }

  lemma {:induction false} BuffersSafe(r: Reading, m: Machine<Slots>, buffers: seq<seq<Byte>>)
    requires Safe(m)
    ensures var o := RunAll(HeadersOf(r), m, buffers); o.Go? ==> Safe(o.m)
    decreases |buffers|
  {
    if buffers != [] {
      RunSafe(r, m, buffers[0]);
      var o := Run(HeadersOf(r), m, buffers[0]);
      if o.Go? { BuffersSafe(r, Boundary(o.m), buffers[1..]); }
    }
  }

  // So from the reset decoder, whatever the buffers.
  lemma DecoderSafe(r: Reading, buffers: seq<seq<Byte>>)
    ensures var o := RunAll(HeadersOf(r), Start(), buffers);
      o.Go? ==> Safe(o.m) && 0 <= o.m.h.picture < 4 && o.m.h.seconds <= 1 && Dispatches(o.m.h)
  {
    BuffersSafe(r, Start(), buffers);
  }
}
