// The functions of libmpeg2/decode.c on the decoder object itself: the scanner
// loops over the current buffer, the copier into the chunk buffer, and the
// parser that they serve. Each is proved to carry on the run of Parser.
module Decoder {
  import opened Words
  import opened Parser

  // A return value: STATE_BUFFER, the internal no-return value, or a state for
  // the application.
  datatype Reply = NeedData | NoReturn | Reached(state: State)

  // ---- What a scanner loop finds ----

  datatype Scanned = Scanned(at: nat, shift: nat)

  // Scanning data[i..n]: where a scanner stops, either at the byte after a
  // start-code prefix or at the end, and what its register holds there.
  function Scan(shift: nat, data: seq<Byte>, i: nat, n: nat): (r: Scanned)
    requires i <= n <= |data|
    ensures i <= r.at <= n && (r.at < n ==> r.shift == PREFIX)
    decreases n - i
  {
    if i == n || shift == PREFIX then Scanned(i, shift) else Scan(NextShift(shift, data[i]), data, i + 1, n)
  }

  // ---- The run as a value ----
  //
  // The methods below speak of the run through a function value, so that its
  // definition stays out of their proofs.

  type RunFn<!H> = (Machine<H>, seq<Byte>) -> Outcome<H>

  predicate At<H>(m: Machine<H>, data: seq<Byte>) { true }

  ghost predicate IsRun<H(!new)>(hs: Headers<H>, run: RunFn<H>)
  {
    forall m, data {:trigger At(m, data)} :: At(m, data) ==> run(m, data) == Run(hs, m, data)
  }

  lemma Unfold<H(!new)>(hs: Headers<H>, run: RunFn<H>, m: Machine<H>, data: seq<Byte>)
    requires IsRun(hs, run) && !Idle(m, data)
    ensures var r := Next(hs, m, data);
      && (r.Go? ==> run(m, data) == Prepend(r.events, run(r.m, Left(m, data))))
      && (r.Fail? ==> run(m, data) == r)
  {
    assert At(m, data);
    var r := Next(hs, m, data);
    if r.Go? { assert At(r.m, Left(m, data)); }
  }

  // One byte is skipped or copied, and nothing is seen.
  lemma QuietByte<H(!new)>(hs: Headers<H>, run: RunFn<H>, m: Machine<H>, data: seq<Byte>, i: nat, n: Machine<H>)
    requires IsRun(hs, run) && i < |data| && ModeOf(m) != Eager && !Stuck(m)
    requires ByteStep(hs, m, data[i]) == Go(n, [])
    ensures run(m, data[i..]) == run(n, data[i + 1..])
  {
    assert data[i..][1..] == data[i + 1..];
    Unfold(hs, run, m, data[i..]);
    PrependNothing(run(n, data[i + 1..]));
  }

  // Skipping bytes up to the next start code, or all of them.
  lemma {:induction false} SkipRuns<H(!new)>(hs: Headers<H>, run: RunFn<H>, m: Machine<H>, data: seq<Byte>, i: nat)
    requires IsRun(hs, run) && ModeOf(m) == Skip && i <= |data|
    ensures var r := Scan(m.shift, data, i, |data|);
      && run(m, data[i..]) == run(m.(shift := r.shift), data[r.at..])
      && (r.at < |data| ==> run(m, data[i..]) == run(Skipped(m, data[r.at]), data[r.at + 1..]))
    decreases |data| - i
  {
    if i == |data| {
    } else if m.shift == PREFIX {
      QuietByte(hs, run, m, data, i, Skipped(m, data[i]));
    } else {
      var n := m.(shift := NextShift(m.shift, data[i]));
      QuietByte(hs, run, m, data, i, n);
      SkipRuns(hs, run, n, data, i + 1);
    }
  }

  function Copied<H>(m: Machine<H>, shift: nat, bytes: seq<Byte>): Machine<H>
  {
    m.(shift := shift, chunk := m.chunk + bytes)
  }

  lemma CopiedTwice<H>(m: Machine<H>, s: nat, t: nat, data: seq<Byte>, i: nat, k: nat)
    requires i < k <= |data|
    ensures Copied(Copied(m, s, [data[i]]), t, data[i + 1..k]) == Copied(m, t, data[i..k])
  {
    assert [data[i]] + data[i + 1..k] == data[i..k];
    assert (m.chunk + [data[i]]) + data[i + 1..k] == m.chunk + data[i..k];
  }

  // Copying data[i..n], for which there is room, up to the byte after a
  // start-code prefix or to the end.
  lemma {:induction false} CopyRuns<H(!new)>(hs: Headers<H>, run: RunFn<H>, m: Machine<H>, data: seq<Byte>, i: nat,
                                             n: nat)
    requires IsRun(hs, run)
    requires Copying(m) && i <= n <= |data| && |m.user| + |m.chunk| + (n - i) <= BUFFER_SIZE
    ensures var r := Scan(m.shift, data, i, n);
      run(m, data[i..]) == run(Copied(m, r.shift, data[i..r.at]), data[r.at..])
    decreases n - i
  {
    if i == n || m.shift == PREFIX {
      assert Copied(m, m.shift, data[i..i]) == m;
    } else {
      var next := Copied(m, NextShift(m.shift, data[i]), [data[i]]);
      QuietByte(hs, run, m, data, i, next);
      CopyRuns(hs, run, next, data, i + 1, n);
      var r := Scan(next.shift, data, i + 1, n);
      CopiedTwice(m, next.shift, r.shift, data, i, r.at);
    }
  }

  lemma SeenMore<H>(seen: seq<Event>, more: seq<Event>, r: Outcome<H>)
    ensures Prepend(seen, Prepend(more, r)) == Prepend(seen + more, r)
  {
    PrependTwice(seen, more, r);
  }

  // A slice chunk is complete and k is where the next code is.
  lemma SliceRuns<H(!new)>(hs: Headers<H>, run: RunFn<H>, seen: seq<Event>, m: Machine<H>, data: seq<Byte>, k: nat)
    requires IsRun(hs, run) && ModeOf(m) == CopySlice && m.shift == PREFIX && !Full(m) && k < |data|
    ensures Prepend(seen, run(m, data[k..]))
         == Prepend(seen + [Sliced(m.code, m.chunk)], run(AfterSlice(hs, m, m.chunk, data[k]), data[k + 1..]))
  {
    assert data[k..][1..] == data[k + 1..];
    Unfold(hs, run, m, data[k..]);
    SeenMore(seen, [Sliced(m.code, m.chunk)], run(AfterSlice(hs, m, m.chunk, data[k]), data[k + 1..]));
  }

  // A step without scanning, with what it adds to what has been seen.
  lemma EagerRuns<H(!new)>(hs: Headers<H>, run: RunFn<H>, seen: seq<Event>, m: Machine<H>, data: seq<Byte>)
    requires IsRun(hs, run) && ModeOf(m) == Eager
    ensures var r := EagerStep(hs, m); r.Go? && Prepend(seen, run(m, data)) == Prepend(seen + r.events, run(r.m, data))
  {
    Unfold(hs, run, m, data);
    SeenMore(seen, EagerStep(hs, m).events, run(EagerStep(hs, m).m, data));
  }

  // Steps that need no byte cannot be taken for ever.
  predicate Progress<H>(m: Machine<H>, i: nat, n: Machine<H>, j: nat)
  {
    j > i || (j == i && Rank(n) < Rank(m))
  }

  // A header chunk is complete and k is where the next code is. The header
  // function is called, the switch follows, and next is where they lead.
  lemma HeaderRuns<H(!new)>(
      hs: Headers<H>, run: RunFn<H>, seen: seq<Event>, m: Machine<H>, data: seq<Byte>, k: nat,
      more: seq<Event>, next: Machine<H>)
    requires IsRun(hs, run) && m.action == ParseHeader && m.shift == PREFIX && !Full(m) && k < |data|
    requires var (n, error) := Process(hs, m, data[k]);
      if error then next == Restart(n) && more == [Returned(Invalid)] else Transition(hs, n) == Go(next, more)
    ensures Prepend(seen, run(m, data[k..]))
         == Prepend(seen + [Handled(m.code, m.chunk)] + more, run(next, data[k + 1..]))
  {
    assert data[k..][1..] == data[k + 1..];
    Unfold(hs, run, m, data[k..]);
    var handled := [Handled(m.code, m.chunk)];
    SeenMore(seen, handled + more, run(next, data[k + 1..]));
    assert seen + (handled + more) == seen + handled + more;
  }

  function Return(r: Reply): seq<Event>
  {
    if r.Reached? then [Returned(r.state)] else []
  }

  // after extends before by handler and slice calls, and then by what r returns.
  predicate Extends(before: seq<Event>, after: seq<Event>, r: Reply)
  {
    && |before| + |Return(r)| <= |after| && before <= after
    && (forall k :: |before| <= k < |after| - |Return(r)| ==> !after[k].Returned?)
    && (r.Reached? ==> after[|after| - 1] == Returned(r.state))
  }

  lemma ExtendsOn(a: seq<Event>, b: seq<Event>, c: seq<Event>, r: Reply)
    requires Extends(a, b, NoReturn) && Extends(b, c, r)
    ensures Extends(a, c, r)
  {
  }

  lemma ExtendsHandled(a: seq<Event>, e: Event, r: Reply)
    requires e.Handled?
    ensures Extends(a, a + [e] + Return(r), r)
  {
  }

  // At the end of a buffer the run has nothing more to do.
  lemma RunEnds<H(!new)>(hs: Headers<H>, run: RunFn<H>, seen: seq<Event>, m: Machine<H>, data: seq<Byte>)
    requires IsRun(hs, run) && ModeOf(m) != Eager && data == []
    ensures Prepend(seen, run(m, data)) == Go(m, seen)
  {
    assert At(m, data);
    assert seen + [] == seen;
  }

  lemma OneMore(data: seq<Byte>, i: nat, k: nat)
    requires i <= k < |data|
    ensures data[i..k + 1] == data[i..k] + [data[k]]
  {
  }

  // Outcomes of filling the chunk buffer.
  datatype Got = Complete | Starved | Overflow

  class Mpeg2Dec<H(!new)> {
    const hs: Headers<H>
    // buf_start and buf_end
    var buf: seq<Byte>
    var bufStart: nat
    var bytesSinceTag: nat
    var action: Action
    var code: nat
    var shift: nat
    const chunkBuffer: array<Byte>
    var chunkStart: nat
    var chunkPtr: nat
    // sequence.width is not (unsigned)-1
    var known: bool
    var firstDecodeSlice: nat
    var nbDecodeSlices: nat
    var h: H

    // The run, the state that it has reached, and what has been seen.
    ghost const run: RunFn<H>
    ghost var m: Machine<H>
    ghost var overflowed: bool
    ghost var seen: seq<Event>

    predicate InBounds()
      reads this
    {
      && bufStart <= |buf|
      && chunkBuffer.Length == BUFFER_SIZE + 4
      && chunkStart <= chunkPtr <= BUFFER_SIZE
    }

    // What the fields say of the machine; what is in the chunk buffer matters to
    // the actions that use it.
    ghost function View(): Machine<H>
      requires InBounds()
      reads this, chunkBuffer
    {
      var idle := action.SeekHeader?;
      Machine(action, m.inLoop, code, shift, known, firstDecodeSlice, nbDecodeSlices,
              if idle then [] else chunkBuffer[..chunkStart], if idle then [] else chunkBuffer[chunkStart..chunkPtr], h)
    }

    ghost predicate Valid()
      reads this, chunkBuffer
    {
      InBounds() && m == View()
    }

    function Rest(): seq<Byte>
      requires InBounds()
      reads this
    {
      buf[bufStart..]
    }

    // All that has been seen and will be seen of the current buffer.
    ghost function Whole(): Outcome<H>
      requires InBounds()
      reads this
    {
      if overflowed then Fail(seen) else Prepend(seen, run(m, Rest()))
    }

    constructor (hs: Headers<H>, h: H)
      ensures Valid() && IsRun(hs, run) && fresh(chunkBuffer) && this.hs == hs
      ensures buf == [] && bytesSinceTag == 0 && seen == [] && !overflowed
      ensures m == Machine(Action.SeekHeader, false, 0xb4, RESET, false, 1, 0xaf, [], [], h)
    {
      this.hs := hs;
      run := (m: Machine<H>, data: seq<Byte>) => Run(hs, m, data);
      this.h := h;
      chunkBuffer := new Byte[BUFFER_SIZE + 4];
      buf, bufStart, bytesSinceTag := [], 0, 0;
      action, code, shift := Action.SeekHeader, 0xb4, RESET;
      chunkStart, chunkPtr := 0, 0;
      known, firstDecodeSlice, nbDecodeSlices := false, 1, 0xaf;
      overflowed, seen := false, [];
      m := Machine(Action.SeekHeader, false, 0xb4, RESET, false, 1, 0xaf, [], [], h);
    }

    method SkipChunk(bytes: nat) returns (skipped: nat)
      requires InBounds() && bytes == |buf| - bufStart
      modifies this`bufStart, this`shift
      ensures InBounds()
      ensures var r := Scan(old(shift), buf, old(bufStart), |buf|);
        if r.at < |buf| then skipped == r.at + 1 - old(bufStart) && bufStart == r.at + 1 && shift == RESET
        else skipped == 0 && bufStart == |buf| && shift == r.shift
    {
      if bytes == 0 { return 0; }
      var current := bufStart;
      var reg := shift;
      var limit := current + bytes;
      while current < limit
        invariant bufStart == old(bufStart) && shift == old(shift)
        invariant bufStart <= current <= limit
        invariant Scan(reg, buf, current, limit) == Scan(shift, buf, bufStart, limit)
      {
        var byte := buf[current];
        current := current + 1;
        if reg == PREFIX {
          shift := RESET;
          skipped := current - bufStart;
          bufStart := current;
          return;
        }
        reg := NextShift(reg, byte);
      }
      shift := reg;
      bufStart := current;
      return 0;
    }

    method StoreByte(ptr: nat, byte: Byte)
      requires chunkStart <= ptr < chunkBuffer.Length
      modifies chunkBuffer
      ensures chunkBuffer[..chunkStart] == old(chunkBuffer[..chunkStart])
      ensures chunkBuffer[chunkStart..ptr + 1] == old(chunkBuffer[chunkStart..ptr]) + [byte]
    {
      chunkBuffer[ptr] := byte;
    }

    method CopyChunk(bytes: nat) returns (copied: nat, ghost at: nat)
      requires InBounds() && bytes <= |buf| - bufStart && chunkPtr + bytes <= BUFFER_SIZE
      modifies this`bufStart, this`shift, this`chunkPtr, chunkBuffer
      ensures InBounds() && chunkBuffer[..chunkStart] == old(chunkBuffer[..chunkStart]) && old(bufStart) <= at <= |buf|
      ensures Scan(old(shift), buf, old(bufStart), old(bufStart) + bytes)
           == Scanned(at, if copied == 0 then shift else PREFIX)
      ensures chunkBuffer[chunkStart..old(chunkPtr) + (at - old(bufStart))]
           == old(chunkBuffer[chunkStart..chunkPtr]) + buf[old(bufStart)..at]
      ensures chunkPtr == old(chunkPtr) + copied
      ensures if copied == 0 then bufStart == old(bufStart) + bytes == at
              else bufStart == old(bufStart) + copied == at + 1 <= old(bufStart) + bytes && shift == RESET
    {
      if bytes == 0 { return 0, bufStart; }
      var limit := bufStart + bytes;
      var current, reg := CopyBytes(limit);
      at := current;
      if current < limit {
        shift := RESET;
        copied := current + 1 - bufStart;
        chunkPtr := chunkPtr + copied;
        bufStart := current + 1;
      } else {
        shift := reg;
        bufStart := current;
        copied := 0;
      }
    }

    // The loop: bytes are copied up to the one after a start-code prefix.
    method CopyBytes(limit: nat) returns (current: nat, reg: nat)
      requires InBounds() && bufStart <= limit <= |buf| && chunkPtr + (limit - bufStart) <= BUFFER_SIZE
      modifies chunkBuffer
      ensures Scanned(current, reg) == Scan(shift, buf, bufStart, limit)
      ensures chunkBuffer[..chunkStart] == old(chunkBuffer[..chunkStart])
      ensures chunkBuffer[chunkStart..chunkPtr + (current - bufStart)]
           == old(chunkBuffer[chunkStart..chunkPtr]) + buf[bufStart..current]
    {
      current, reg := bufStart, shift;
      var ptr := chunkPtr;
      while current < limit && reg != PREFIX
        invariant bufStart <= current <= limit && ptr == chunkPtr + (current - bufStart)
        invariant chunkBuffer[..chunkStart] == old(chunkBuffer[..chunkStart])
        invariant chunkBuffer[chunkStart..ptr] == old(chunkBuffer[chunkStart..chunkPtr]) + buf[bufStart..current]
        invariant Scan(reg, buf, current, limit) == Scan(shift, buf, bufStart, limit)
      {
        var byte := buf[current];
        reg := NextShift(reg, byte);
        OneMore(buf, bufStart, current);
        StoreByte(ptr, byte);
        current, ptr := current + 1, ptr + 1;
      }
    }

    method SeekChunk() returns (r: Reply)
      requires Valid() && IsRun(hs, run) && !overflowed && ModeOf(m) == Skip
      modifies this`bufStart, this`shift, this`bytesSinceTag, this`code, this`m
      ensures Valid() && bytesSinceTag - bufStart == old(bytesSinceTag - bufStart)
      ensures Whole() == old(Whole())
      ensures r == NeedData || r == NoReturn
      ensures r == NeedData ==> bufStart == |buf| && m == old(m).(shift := shift)
      ensures bufStart >= old(bufStart)
      ensures r == NoReturn ==> bufStart > old(bufStart) && 0 <= code < 256 && m == Skipped(old(m), code)
    {
      var size := |buf| - bufStart;
      var skipped := SkipMore(size);
      bytesSinceTag := bytesSinceTag + if skipped == 0 then size else skipped;
      if skipped == 0 { return NeedData; }
      code := buf[bufStart - 1];
      m := Skipped(m, code);
      return NoReturn;
    }

    // SkipChunk as a part of the run.
    method SkipMore(bytes: nat) returns (skipped: nat)
      requires Valid() && IsRun(hs, run) && ModeOf(m) == Skip && bytes == |buf| - bufStart
      modifies this`bufStart, this`shift, this`m
      ensures InBounds() && bufStart == old(bufStart) + if skipped == 0 then bytes else skipped
      ensures skipped == 0 ==>
        && Valid() && bufStart == |buf| && m == old(m).(shift := shift) && old(run(m, Rest())) == run(m, Rest())
      ensures skipped > 0 ==>
        shift == RESET && m == old(m) && old(run(m, Rest())) == run(Skipped(m, buf[bufStart - 1]), Rest())
    {
      SkipRuns(hs, run, m, buf, bufStart);
      skipped := SkipChunk(bytes);
      if skipped == 0 { m := m.(shift := shift); }
    }

    // The fields that the scanners do not touch are as m says.
    ghost predicate Steady()
      reads this
    {
      m == Machine(action, m.inLoop, code, m.shift, known, firstDecodeSlice, nbDecodeSlices, m.user, m.chunk, h)
    }

    // m has a whole chunk, and the code after it is at bufStart - 1.
    ghost predicate Gathered()
      reads this, chunkBuffer
    {
      && InBounds() && 0 < bufStart && chunkStart < chunkPtr
      && !Full(m) && m.shift == PREFIX && shift == RESET
      && m.user == chunkBuffer[..chunkStart] && m.chunk == chunkBuffer[chunkStart..chunkPtr - 1]
    }

    // CopyChunk as a part of the run, which is then at buf[at..]. Copied bytes
    // that do not complete the chunk are past chunkPtr.
    method CopyMore(bytes: nat) returns (copied: nat, ghost at: nat)
      requires Valid() && IsRun(hs, run) && Copying(m)
      requires bytes <= |buf| - bufStart && chunkPtr + bytes <= BUFFER_SIZE
      modifies this`bufStart, this`shift, this`chunkPtr, this`m, chunkBuffer
      ensures InBounds() && m == old(m).(shift := m.shift, chunk := m.chunk) && Copying(m)
      ensures old(bufStart) <= at <= bufStart <= old(bufStart) + bytes && old(run(m, Rest())) == run(m, buf[at..])
      ensures m.user == chunkBuffer[..chunkStart]
      ensures m.chunk == chunkBuffer[chunkStart..old(chunkPtr) + (at - old(bufStart))]
      ensures copied == 0 ==>
        && bufStart == old(bufStart) + bytes == at && chunkPtr == old(chunkPtr) && m.shift == shift
      ensures copied > 0 ==>
        && bufStart == old(bufStart) + copied == at + 1 && chunkPtr == old(chunkPtr) + copied
        && m.shift == PREFIX && shift == RESET
    {
      ghost var start := bufStart;
      CopyRuns(hs, run, m, buf, start, start + bytes);
      copied, at := CopyChunk(bytes);
      m := Copied(m, if copied == 0 then shift else PREFIX, buf[start..at]);
    }

    // The part that mpeg2_parse and mpeg2_parse_header share: copy up to the
    // next start code, as far as the buffer and the chunk buffer allow.
    method Gather() returns (got: Got)
      requires Valid() && IsRun(hs, run) && Copying(m)
      modifies this`bufStart, this`shift, this`bytesSinceTag, this`chunkPtr, this`m, chunkBuffer
      ensures bufStart <= |buf| && bytesSinceTag - bufStart == old(bytesSinceTag - bufStart)
      ensures m == old(m).(shift := m.shift, chunk := m.chunk)
      ensures var at := if got == Complete then bufStart - 1 else bufStart;
        0 <= at && old(run(m, Rest())) == run(m, buf[at..])
      ensures match got
        case Starved => Valid() && bufStart == |buf| >= old(bufStart)
        case Overflow =>
          && InBounds() && m.shift == shift && bufStart >= old(bufStart) && (bufStart == old(bufStart) ==> Full(old(m)))
          && Stuck(m) && bufStart < |buf|
        case Complete => bufStart > old(bufStart) && Gathered()
    {
      hide IsRun, Copying;
      if |buf| - bufStart <= BUFFER_SIZE - chunkPtr {
        got := GatherBuffer();
      } else {
        got := GatherChunk();
      }
    }

    // There is room for the rest of the buffer.
    method GatherBuffer() returns (got: Got)
      requires Valid() && IsRun(hs, run) && Copying(m) && |buf| - bufStart <= BUFFER_SIZE - chunkPtr
      modifies this`bufStart, this`shift, this`bytesSinceTag, this`chunkPtr, this`m, chunkBuffer
      ensures bufStart <= |buf| && bytesSinceTag - bufStart == old(bytesSinceTag - bufStart)
      ensures m == old(m).(shift := m.shift, chunk := m.chunk)
      ensures got == Starved || got == Complete
      ensures got == Starved ==> Valid() && bufStart == |buf| && old(run(m, Rest())) == run(m, Rest())
      ensures got == Complete ==>
        bufStart > old(bufStart) && Gathered() && old(run(m, Rest())) == run(m, buf[bufStart - 1..])
    {
      assert !m.action.SeekHeader?;
      hide IsRun, Copying;
      var sizeBuffer := |buf| - bufStart;
      ghost var at;
      var copied;
      copied, at := CopyMore(sizeBuffer);
      if copied == 0 {
        Count(sizeBuffer);
        return Starved;
      }
      bytesSinceTag := bytesSinceTag + copied;
      return Complete;
    }

    // The bytes that CopyChunk has copied to the end of the buffer become a part
    // of the chunk.
    method Count(size: nat)
      requires InBounds() && Steady() && !m.action.SeekHeader? && m.shift == shift && chunkPtr + size <= BUFFER_SIZE
      requires m.user == chunkBuffer[..chunkStart] && m.chunk == chunkBuffer[chunkStart..chunkPtr + size]
      modifies this`bytesSinceTag, this`chunkPtr
      ensures Valid() && bytesSinceTag == old(bytesSinceTag) + size
    {
      bytesSinceTag := bytesSinceTag + size;
      chunkPtr := chunkPtr + size;
    }

    // There is not.
    method GatherChunk() returns (got: Got)
      requires Valid() && IsRun(hs, run) && Copying(m) && |buf| - bufStart > BUFFER_SIZE - chunkPtr
      modifies this`bufStart, this`shift, this`bytesSinceTag, this`chunkPtr, this`m, chunkBuffer
      ensures InBounds() && bytesSinceTag - bufStart == old(bytesSinceTag - bufStart)
      ensures m == old(m).(shift := m.shift, chunk := m.chunk)
      ensures got == Overflow || got == Complete
      ensures got == Overflow ==>
        && m.shift == shift && bufStart >= old(bufStart) && (bufStart == old(bufStart) ==> Full(old(m)))
        && Stuck(m) && bufStart < |buf| && old(run(m, Rest())) == run(m, Rest())
      ensures got == Complete ==>
        bufStart > old(bufStart) && Gathered() && old(run(m, Rest())) == run(m, buf[bufStart - 1..])
    {
      assert !m.action.SeekHeader?;
      hide IsRun, Copying;
      var sizeChunk := BUFFER_SIZE - chunkPtr;
      ghost var at;
      var copied;
      copied, at := CopyMore(sizeChunk);
      if copied == 0 {
        bytesSinceTag := bytesSinceTag + sizeChunk;
        return Overflow;
      }
      bytesSinceTag := bytesSinceTag + copied;
      return Complete;
    }

    // One turn of the inner loop of mpeg2_parse.
    method OneSlice() returns (r: Reply)
      requires Valid() && IsRun(hs, run) && !overflowed && ModeOf(m) == CopySlice
      modifies this`bufStart, this`shift, this`bytesSinceTag, this`chunkPtr, this`code, this`action, this`h, chunkBuffer
      modifies this`overflowed, this`seen, this`m
      ensures InBounds() && bytesSinceTag - bufStart == old(bytesSinceTag - bufStart)
      ensures Whole() == old(Whole())
      ensures Extends(old(seen), seen, r) && bufStart >= old(bufStart)
      ensures match r
        case NeedData =>
          && Valid() && !overflowed && bufStart == |buf| && ModeOf(m) == CopySlice
          && m.action == old(m).action && m.inLoop == old(m).inLoop
        case Reached(s) => overflowed && s == Invalid
        case NoReturn =>
          Valid() && !overflowed && bufStart > old(bufStart) && m.action == old(m).action && m.inLoop == old(m).inLoop
    {
      var got := Gather();
      if got == Starved {
        return NeedData;
      }
      if got == Overflow {
        Unfold(hs, run, m, Rest());
        action := Action.SeekChunk;
        overflowed, seen := true, seen + [Returned(Invalid)];
        return Reached(Invalid);
      }
      DecodeSlice();
      return NoReturn;
    }

    method DecodeSlice()
      requires Gathered() && IsRun(hs, run) && ModeOf(m) == CopySlice && Steady()
      modifies this`h, this`seen, this`code, this`chunkPtr, this`m
      ensures Valid() && m.action == old(m).action && m.inLoop == old(m).inLoop
      ensures seen == old(seen) + [Sliced(old(m.code), old(m.chunk))]
      ensures Prepend(old(seen), old(run(m, buf[bufStart - 1..]))) == Prepend(seen, run(m, Rest()))
    {
      SliceRuns(hs, run, seen, m, buf, bufStart - 1);
      CallSlice();
    }

    // The slice function is called on a complete chunk.
    method CallSlice()
      requires Gathered() && Steady() && ModeOf(m) == CopySlice
      modifies this`h, this`seen, this`code, this`chunkPtr, this`m
      ensures Valid() && m == AfterSlice(hs, old(m), old(m.chunk), buf[bufStart - 1])
      ensures seen == old(seen) + [Sliced(old(m.code), old(m.chunk))]
    {
      var chunk := chunkBuffer[chunkStart..chunkPtr - 1];
      h := hs.slice(h, code, chunk);
      seen := seen + [Sliced(code, chunk)];
      code := buf[bufStart - 1];
      chunkPtr := chunkStart;
      m := AfterSlice(hs, m, m.chunk, code);
    }

    // The switch of mpeg2_parse_header: a state to return, or one more header.
    method Transit() returns (r: Reply)
      requires Valid() && m.chunk == [] && m.action.ParseHeader?
      modifies this`h, this`known, this`action, this`chunkStart, this`chunkPtr, this`m
      ensures Valid() && Transition(hs, old(m)) == Go(m, Return(r))
      ensures r == NoReturn ==> m == old(m)
      ensures r != NeedData
    {
      var state := hs.stateOf(h);
      if (code == 0 || code == 0xb8) && state == Sequence {
        r := EndSequence();
      } else if code == 0 && state == Gop {
        r := EndGop();
      } else if code == 1 && (state == Picture || state == Picture2nd) {
        r := EndPicture();
      } else if (code == 0xb2 && (state == Sequence || state == Gop || state == Picture || state == Picture2nd))
             || (code == 0xb5 && (state == Sequence || state == Picture || state == Picture2nd)) {
        r := NoReturn;
      } else {
        action := Action.SeekHeader;
        m := Restart(m);
        r := Reached(Invalid);
      }
    }

    method EndSequence() returns (r: Reply)
      requires Valid() && m.chunk == [] && m.action.ParseHeader?
      requires (code == 0 || code == 0xb8) && hs.stateOf(h) == Sequence
      modifies this`h, this`known, this`action, this`chunkStart, this`chunkPtr, this`m
      ensures Valid() && Transition(hs, old(m)) == Go(m, Return(r)) && r.Reached?
    {
      var (h', restart) := hs.finalizeSequence(h, chunkBuffer[..chunkStart]);
      h, known := h', true;
      if restart { action := Action.InvalidEndAction; }
      chunkStart, chunkPtr := 0, 0;
      m := m.(h := h, known := true, action := action, user := []);
      r := Reached(hs.stateOf(h));
    }

    method EndGop() returns (r: Reply)
      requires Valid() && m.chunk == [] && m.action.ParseHeader? && code == 0 && hs.stateOf(h) == Gop
      modifies this`h, this`chunkStart, this`chunkPtr, this`m
      ensures Valid() && Transition(hs, old(m)) == Go(m, Return(r)) && r.Reached?
    {
      h := hs.finalizeGop(h, chunkBuffer[..chunkStart]);
      chunkStart, chunkPtr := 0, 0;
      m := m.(h := h, user := []);
      r := Reached(hs.stateOf(h));
    }

    method EndPicture() returns (r: Reply)
      requires Valid() && m.chunk == [] && m.action.ParseHeader? && code == 1
      requires hs.stateOf(h) == Picture || hs.stateOf(h) == Picture2nd
      modifies this`h, this`action, this`chunkStart, this`chunkPtr, this`m
      ensures Valid() && Transition(hs, old(m)) == Go(m, Return(r)) && r.Reached?
    {
      h := hs.finalizePicture(h, chunkBuffer[..chunkStart]);
      action := Action.SliceStart;
      chunkStart, chunkPtr := 0, 0;
      m := m.(h := h, action := action, user := []);
      r := Reached(hs.stateOf(h));
    }

    // The header function is called on a complete chunk.
    method CallHeader() returns (error: bool)
      requires Gathered() && Steady() && m.action.ParseHeader?
      modifies this`h, this`chunkStart, this`chunkPtr, this`code, this`m
      ensures Valid() && (m, error) == Process(hs, old(m), buf[bufStart - 1])
    {
      var (h', e) := hs.process(h, code, chunkBuffer[chunkStart..chunkPtr - 1]);
      h, error := h', e;
      EndChunk();
      m := Process(hs, m, code).0;
    }

    // User data stays in the chunk buffer.
    method EndChunk()
      requires Gathered()
      modifies this`chunkStart, this`chunkPtr, this`code
      ensures InBounds() && chunkPtr == chunkStart && code == buf[bufStart - 1] && shift == old(shift)
      ensures chunkBuffer[..chunkStart] == m.user + if old(code) == 0xb2 then m.chunk else []
    {
      if code == 0xb2 { chunkStart := chunkPtr - 1; }
      code := buf[bufStart - 1];
      chunkPtr := chunkStart;
    }

    // One turn of the loop of mpeg2_parse_header, once a chunk is complete.
    method FinishHeader() returns (r: Reply)
      requires Gathered() && Steady() && IsRun(hs, run) && m.action.ParseHeader?
      modifies this`h, this`known, this`action, this`chunkStart, this`chunkPtr, this`code, this`m, this`seen
      ensures Valid() && r != NeedData && (r == NoReturn ==> m.action.ParseHeader?) && (m.inLoop ==> old(m.inLoop))
      ensures Prepend(old(seen), old(run(m, buf[bufStart - 1..]))) == Prepend(seen, run(m, Rest()))
      ensures seen == old(seen) + [Handled(old(m.code), old(m.chunk))] + Return(r) && Extends(old(seen), seen, r)
    {
      hide IsRun, Extends;
      ghost var handled := Handled(m.code, m.chunk);
      r := SwitchOnCode();
      ExtendsHandled(seen, handled, r);
      HeaderRuns(hs, run, seen, old(m), buf, bufStart - 1, Return(r), m);
      seen := seen + [handled] + Return(r);
    }

    method SwitchOnCode() returns (r: Reply)
      requires Gathered() && Steady() && m.action.ParseHeader?
      modifies this`h, this`known, this`action, this`chunkStart, this`chunkPtr, this`code, this`m
      ensures Valid() && r != NeedData && (r == NoReturn ==> m.action.ParseHeader?) && (m.inLoop ==> old(m.inLoop))
      ensures var (n, error) := Process(hs, old(m), buf[bufStart - 1]);
        if error then m == Restart(n) && r == Reached(Invalid) else Transition(hs, n) == Go(m, Return(r))
    {
      var error := CallHeader();
      if error {
        action := Action.SeekHeader;
        m := Restart(m);
        r := Reached(Invalid);
      } else {
        r := Transit();
      }
    }

    // The chunk buffer is full without a start code.
    method DropHeader()
      requires InBounds() && IsRun(hs, run) && m.action.ParseHeader? && Stuck(m) && bufStart < |buf|
      requires Steady() && m.shift == shift
      modifies this`code, this`action, this`m, this`seen
      ensures Valid() && m == FullStep(old(m)).m
      ensures seen == old(seen) + [Returned(Invalid)] && Extends(old(seen), seen, Reached(Invalid))
      ensures Full(old(m)) ==> Rank(m) < Rank(old(m))
      ensures Prepend(old(seen), old(run(m, Rest()))) == Prepend(seen, run(m, Rest()))
    {
      Unfold(hs, run, m, Rest());
      SeenMore(seen, [Returned(Invalid)], run(FullStep(m).m, Rest()));
      code := 0xb4;
      action := Action.SeekHeader;
      m := FullStep(m).m;
      seen := seen + [Returned(Invalid)];
    }

    method ParseHeader() returns (r: Reply)
      requires Valid() && IsRun(hs, run) && !overflowed && m.action.ParseHeader?
      modifies this`h, this`known, this`action, this`chunkStart, this`chunkPtr, this`code, this`m, this`seen
      modifies this`bufStart, this`shift, this`bytesSinceTag, chunkBuffer
      ensures Valid() && bytesSinceTag - bufStart == old(bytesSinceTag - bufStart)
      ensures Whole() == old(Whole())
      ensures r != NoReturn && Extends(old(seen), seen, r) && bufStart >= old(bufStart)
      ensures r == NeedData ==> bufStart == |buf| && ModeOf(m) != Eager
      ensures r.Reached? ==> Progress(old(m), old(bufStart), m, bufStart) && (m.inLoop ==> old(m.inLoop))
    {
      r := NoReturn;
      assert Extends(old(seen), seen, r);
      hide Extends, IsRun, Rank;
      while r == NoReturn
        invariant Valid() && Whole() == old(Whole()) && (m.inLoop ==> old(m.inLoop)) && Extends(old(seen), seen, r)
        invariant bytesSinceTag - bufStart == old(bytesSinceTag - bufStart)
        invariant bufStart >= old(bufStart) && (r == NoReturn ==> m.action.ParseHeader?)
        invariant r == NoReturn && bufStart == old(bufStart) ==> m == old(m)
        invariant r == NeedData ==> bufStart == |buf| && ModeOf(m) != Eager
        invariant r.Reached? ==> Progress(old(m), old(bufStart), m, bufStart)
        decreases r == NoReturn, |buf| - bufStart
      {
        ghost var was := seen;
        r := OneHeader();
        ExtendsOn(old(seen), was, seen, r);
      }
    }

    // One turn of the loop of mpeg2_parse_header.
    method OneHeader() returns (r: Reply)
      requires Valid() && IsRun(hs, run) && !overflowed && m.action.ParseHeader?
      modifies this`h, this`known, this`action, this`chunkStart, this`chunkPtr, this`code, this`m, this`seen
      modifies this`bufStart, this`shift, this`bytesSinceTag, chunkBuffer
      ensures Valid() && bytesSinceTag - bufStart == old(bytesSinceTag - bufStart) && Whole() == old(Whole())
      ensures Extends(old(seen), seen, r) && (m.inLoop ==> old(m.inLoop))
      ensures r == NeedData ==> bufStart == |buf| && ModeOf(m) != Eager
      ensures r == NoReturn ==> bufStart > old(bufStart) && m.action.ParseHeader?
      ensures r.Reached? ==> Progress(old(m), old(bufStart), m, bufStart)
    {
      assert Extends(seen, seen, NeedData);
      hide IsRun, LoopMode, Extends, Rank;
      var got := Gather();
      if got == Starved {
        r := NeedData;
      } else if got == Overflow {
        DropHeader();
        r := Reached(Invalid);
      } else {
        r := FinishHeader();
      }
    }

    method SeekHeader() returns (r: Reply)
      requires Valid() && IsRun(hs, run) && !overflowed && m.action.SeekHeader?
      modifies this`h, this`known, this`action, this`chunkStart, this`chunkPtr, this`code, this`m, this`seen
      modifies this`bufStart, this`shift, this`bytesSinceTag, chunkBuffer
      ensures Valid() && bytesSinceTag - bufStart == old(bytesSinceTag - bufStart)
      ensures Whole() == old(Whole())
      ensures r != NoReturn && Extends(old(seen), seen, r)
      ensures r == NeedData ==> bufStart == |buf| && ModeOf(m) != Eager
      ensures r.Reached? ==> Progress(old(m), old(bufStart), m, bufStart) && (m.inLoop ==> old(m.inLoop))
    {
      r := NoReturn;
      while r == NoReturn && !(code == 0xb3 || ((code == 0xb7 || code == 0xb8 || code == 0) && known))
        invariant Valid() && m.action.SeekHeader? && Whole() == old(Whole()) && seen == old(seen)
        invariant m.inLoop ==> old(m.inLoop)
        invariant bytesSinceTag - bufStart == old(bytesSinceTag - bufStart) && (r == NeedData || r == NoReturn)
        invariant bufStart >= old(bufStart) && (r == NoReturn && bufStart == old(bufStart) ==> m == old(m))
        invariant r == NeedData ==> bufStart == |buf| && ModeOf(m) != Eager
        decreases r == NoReturn, |buf| - bufStart
      {
        r := SeekChunk();
      }
      if r == NoReturn { r := HeaderOrEnd(); }
    }

    // From the code of a header on.
    method HeaderOrEnd() returns (r: Reply)
      requires Valid() && IsRun(hs, run) && !overflowed && m.action.SeekHeader? && ModeOf(m) == Eager
      modifies this`h, this`known, this`action, this`chunkStart, this`chunkPtr, this`code, this`m, this`seen
      modifies this`bufStart, this`shift, this`bytesSinceTag, chunkBuffer
      ensures Valid() && bytesSinceTag - bufStart == old(bytesSinceTag - bufStart) && bufStart >= old(bufStart)
      ensures Whole() == old(Whole())
      ensures r != NoReturn && Extends(old(seen), seen, r)
      ensures r == NeedData ==> bufStart == |buf| && ModeOf(m) != Eager
      ensures r.Reached? ==> Progress(old(m), old(bufStart), m, bufStart) && (m.inLoop ==> old(m.inLoop))
    {
      var ended := StartHeader();
      if ended {
        r := Reached(End);
      } else {
        r := ParseHeader();
      }
    }

    // A header code has been found: an end code ends the sequence.
    method StartHeader() returns (ended: bool)
      requires Valid() && IsRun(hs, run) && m.action.SeekHeader? && ModeOf(m) == Eager
      modifies this`h, this`action, this`chunkStart, this`chunkPtr, this`m, this`seen
      ensures Valid() && m == EagerStep(hs, old(m)).m
      ensures m.action == if ended then Action.SeekSequence else Action.ParseHeader
      ensures seen == old(seen) + Return(if ended then Reached(End) else NoReturn)
      ensures Prepend(old(seen), old(run(m, Rest()))) == Prepend(seen, run(m, Rest()))
    {
      EagerRuns(hs, run, seen, m, Rest());
      m := EagerStep(hs, m).m;
      chunkStart, chunkPtr := 0, 0;
      ended := code == 0xb7;
      if ended {
        h := hs.headerEnd(h);
        action := Action.SeekSequence;
      } else {
        action := Action.ParseHeader;
      }
      seen := seen + Return(if ended then Reached(End) else NoReturn);
    }

    // The end of the loop of mpeg2_parse: what follows the last slice.
    method LeaveLoop() returns (r: Reply)
      requires Valid() && IsRun(hs, run) && InPicture() && ModeOf(m) == Eager
      modifies this`action, this`m, this`seen
      ensures Valid() && r.Reached? && m == EagerStep(hs, old(m)).m && !m.action.NoAction?
      ensures seen == old(seen) + Return(r) && Extends(old(seen), seen, r)
      ensures Prepend(old(seen), old(run(m, Rest()))) == Prepend(seen, run(m, Rest()))
    {
      EagerRuns(hs, run, seen, m, Rest());
      m := EagerStep(hs, m).m;
      action := Action.SeekHeader;
      if code == 0x00 {
        r := Reached(hs.stateOf(h));
      } else if code == 0xb3 || code == 0xb7 || code == 0xb8 {
        r := Reached(if hs.stateOf(h) == Slice then Slice else Invalid);
      } else {
        action := Action.SeekChunk;
        r := Reached(Invalid);
      }
      seen := seen + Return(r);
    }

    // mpeg2_parse is past the stored action.
    ghost predicate InPicture()
      reads this`m
    {
      m.action.NoAction? || (m.action.SeekChunk? && m.inLoop)
    }

    // The loop over the slices.
    method Slices() returns (r: Reply)
      requires Valid() && IsRun(hs, run) && !overflowed && InPicture()
      modifies this`bufStart, this`shift, this`bytesSinceTag, this`chunkPtr, this`code, this`action, this`h, chunkBuffer
      modifies this`overflowed, this`seen, this`m
      ensures InBounds() && Whole() == old(Whole()) && Extends(old(seen), seen, r) && r.Reached? == overflowed
      ensures !overflowed ==> Valid() && InPicture()
      ensures bytesSinceTag - bufStart == old(bytesSinceTag - bufStart) && bufStart >= old(bufStart)
      ensures r == NoReturn ==> !(0 <= code - firstDecodeSlice < nbDecodeSlices || 1 <= code < 0xb0)
      ensures r == NoReturn && bufStart == old(bufStart) ==> m == old(m)
      ensures r == NeedData ==> bufStart == |buf| && ModeOf(m) != Eager
    {
      r := NoReturn;
      assert Extends(old(seen), seen, r);
      hide Extends, IsRun, Rank;
      while r == NoReturn && (0 <= code - firstDecodeSlice < nbDecodeSlices || 1 <= code < 0xb0)
        invariant InBounds() && Whole() == old(Whole()) && Extends(old(seen), seen, r) && r.Reached? == overflowed
        invariant !overflowed ==> Valid() && InPicture()
        invariant bytesSinceTag - bufStart == old(bytesSinceTag - bufStart) && bufStart >= old(bufStart)
        invariant r == NoReturn && bufStart == old(bufStart) ==> m == old(m)
        invariant r == NeedData ==> bufStart == |buf| && ModeOf(m) != Eager
        decreases r == NoReturn, |buf| - bufStart
      {
        ghost var was := seen;
        r := OneCode();
        ExtendsOn(old(seen), was, seen, r);
      }
    }

    // The loop of mpeg2_parse over the slices of a picture.
    method PictureLoop() returns (r: Reply)
      requires Valid() && IsRun(hs, run) && !overflowed && InPicture()
      modifies this`bufStart, this`shift, this`bytesSinceTag, this`chunkPtr, this`code, this`action, this`h, chunkBuffer
      modifies this`overflowed, this`seen, this`m
      ensures InBounds() && bytesSinceTag - bufStart == old(bytesSinceTag - bufStart)
      ensures Whole() == old(Whole())
      ensures r != NoReturn && Extends(old(seen), seen, r)
      ensures !overflowed ==> Valid()
      ensures r == NeedData ==> !overflowed && bufStart == |buf| && ModeOf(m) != Eager
      ensures r.Reached? && !overflowed ==> Progress(old(m), old(bufStart), m, bufStart) && !m.inLoop
    {
      hide Extends, IsRun;
      r := Slices();
      if r == NoReturn {
        ghost var was := seen;
        r := LeaveLoop();
        ExtendsOn(old(seen), was, seen, r);
      }
    }

    // One turn of that loop: a slice is decoded, or skipped.
    method OneCode() returns (r: Reply)
      requires Valid() && IsRun(hs, run) && !overflowed && InPicture() && ModeOf(m) != Eager
      modifies this`bufStart, this`shift, this`bytesSinceTag, this`chunkPtr, this`code, this`action, this`h, chunkBuffer
      modifies this`overflowed, this`seen, this`m
      ensures InBounds() && bytesSinceTag - bufStart == old(bytesSinceTag - bufStart) && bufStart >= old(bufStart)
      ensures Whole() == old(Whole()) && Extends(old(seen), seen, r) && r.Reached? == overflowed
      ensures !overflowed ==> Valid() && InPicture()
      ensures r == NeedData ==> bufStart == |buf| && ModeOf(m) != Eager
      ensures r == NoReturn ==> bufStart > old(bufStart)
    {
      if 0 <= code - firstDecodeSlice < nbDecodeSlices {
        r := OneSlice();
      } else {
        r := SeekChunk();
      }
    }

    // mpeg2_header_slice_start
    method SliceStart()
      requires Valid() && IsRun(hs, run) && m.action.SliceStart?
      modifies this`h, this`action, this`m
      ensures Valid() && m.action.NoAction?
      ensures Prepend(seen, old(run(m, Rest()))) == Prepend(seen, run(m, Rest()))
    {
      EagerRuns(hs, run, seen, m, Rest());
      assert seen + [] == seen;
      h := hs.sliceStart(h);
      action := Action.NoAction;
      m := m.(action := action, h := h);
    }

    // seek_sequence, up to its call of mpeg2_seek_header
    method ResetSequence()
      requires Valid() && IsRun(hs, run) && m.action.SeekSequence?
      modifies this`h, this`action, this`known, this`firstDecodeSlice, this`nbDecodeSlices, this`m
      ensures Valid() && m.action.SeekHeader? && !m.known && !m.inLoop
      ensures Prepend(seen, old(run(m, Rest()))) == Prepend(seen, run(m, Rest()))
    {
      EagerRuns(hs, run, seen, m, Rest());
      assert seen + [] == seen;
      Begin(hs.reset(h), false);
    }

    // The decoder is set to look for the next header, and to decode all slices.
    method Begin(h': H, known': bool)
      requires Valid()
      modifies this`h, this`action, this`known, this`firstDecodeSlice, this`nbDecodeSlices, this`m
      ensures Valid() && m == Restart(old(m)).(known := known', firstSlice := 1, nbSlices := 0xaf, h := h')
    {
      h := h';
      known, firstDecodeSlice, nbDecodeSlices := known', 1, 0xaf;
      action := Action.SeekHeader;
      m := Restart(m).(known := known', firstSlice := 1, nbSlices := 0xaf, h := h');
    }

    // invalid_end_action
    method InvalidEnd()
      requires Valid() && IsRun(hs, run) && m.action.InvalidEndAction?
      modifies this`h, this`action, this`known, this`firstDecodeSlice, this`nbDecodeSlices, this`m, this`seen
      ensures Valid() && m.action.SeekHeader? && !m.inLoop && seen == old(seen) + [Returned(Sequence)]
      ensures Prepend(old(seen), old(run(m, Rest()))) == Prepend(seen, run(m, Rest()))
    {
      EagerRuns(hs, run, seen, m, Rest());
      Begin(hs.invalidEnd(h, chunkBuffer[..chunkStart]), true);
      seen := seen + [Returned(Sequence)];
    }

    // The call of the stored action.
    method Act() returns (r: Reply)
      requires Valid() && IsRun(hs, run) && !overflowed && !m.inLoop && !m.action.NoAction?
      modifies this`h, this`known, this`action, this`chunkStart, this`chunkPtr, this`code, this`m, this`seen
      modifies this`bufStart, this`shift, this`bytesSinceTag, this`firstDecodeSlice, this`nbDecodeSlices, chunkBuffer
      ensures Valid() && bytesSinceTag - bufStart == old(bytesSinceTag - bufStart)
      ensures Whole() == old(Whole())
      ensures Extends(old(seen), seen, r)
      ensures r == NeedData ==> bufStart == |buf| && ModeOf(m) != Eager
      ensures r != NeedData ==> Progress(old(m), old(bufStart), m, bufStart)
      ensures r == NoReturn ==> InPicture()
      ensures r.Reached? ==> !m.inLoop
    {
      if action.SeekChunk? {
        r := SeekChunk();
      } else if action.SeekHeader? {
        r := SeekHeader();
      } else if action.ParseHeader? {
        r := ParseHeader();
      } else if action.SliceStart? {
        SliceStart();
        r := NoReturn;
      } else if action.SeekSequence? {
        ResetSequence();
        r := SeekHeader();
      } else {
        InvalidEnd();
        r := Reached(Sequence);
      }
    }

    // mpeg2_parse: the run goes on from the stored action, and ends in a state
    // for the application or with nothing left in the buffer.
    method Parse() returns (r: Reply)
      requires Valid() && IsRun(hs, run) && !overflowed
      modifies this, chunkBuffer
      ensures InBounds() && buf == old(buf) && bytesSinceTag - bufStart == old(bytesSinceTag - bufStart)
      ensures Whole() == Prepend(old(seen), old(run(Boundary(m), Rest())))
      ensures r != NoReturn && Extends(old(seen), seen, r)
      ensures !overflowed ==> Valid()
      ensures r == NeedData ==> !overflowed && bufStart == |buf| && ModeOf(m) != Eager
      ensures r.Reached? && !overflowed ==> Progress(old(Boundary(m)), old(bufStart), m, bufStart) && !m.inLoop
    {
      m := Boundary(m);
      if !action.NoAction? {
        r := Act();
        if r != NoReturn { return; }
      }
      r := PictureLoop();
    }

    // The use that an application makes of the decoder for one buffer:
    // mpeg2_buffer, and mpeg2_parse until it asks for more. No slice chunk may
    // be too long for the chunk buffer.
    method Feed(buffer: seq<Byte>)
      requires Valid() && IsRun(hs, run) && !overflowed && !m.inLoop && Run(hs, m, buffer).Go?
      modifies this, chunkBuffer
      ensures Valid() && !overflowed && bytesSinceTag == old(bytesSinceTag) + |buffer|
      ensures Prepend(old(seen), Run(hs, old(m), buffer)) == Go(m, seen)
    {
      assert At(m, buffer);
      buf, bufStart := buffer, 0;
      assert Rest() == buffer;
      ghost var whole := Whole();
      var r := NoReturn;
      while r != NeedData
        invariant Valid() && !overflowed && buf == buffer
        invariant bytesSinceTag - bufStart == old(bytesSinceTag)
        invariant Whole() == whole && (r != NeedData ==> !m.inLoop)
        invariant r == NeedData ==> bufStart == |buf| && ModeOf(m) != Eager
        decreases r != NeedData, |buf| - bufStart, Rank(m)
      {
        r := Parse();
      }
      RunEnds(hs, run, seen, m, Rest());
    }

    // A stream that arrives in buffers.
    method Decode(buffers: seq<seq<Byte>>)
      requires Valid() && IsRun(hs, run) && !overflowed && !m.inLoop && RunAll(hs, m, buffers).Go?
      modifies this, chunkBuffer
      ensures Valid() && !overflowed && Prepend(old(seen), RunAll(hs, old(m), buffers)) == Go(m, seen)
    {
      ghost var whole := Prepend(seen, RunAll(hs, m, buffers));
      var i := 0;
      assert buffers[0..] == buffers;
      while i < |buffers|
        invariant i <= |buffers| && Valid() && !overflowed && !m.inLoop
        invariant RunAll(hs, m, buffers[i..]).Go? && whole == Prepend(seen, RunAll(hs, m, buffers[i..]))
      {
        assert buffers[i..][0] == buffers[i] && buffers[i..][1..] == buffers[i + 1..];
        ghost var was := seen;
        ghost var r := Run(hs, m, buffers[i]);
        Feed(buffers[i]);
        m := Boundary(m);
        PrependTwice(was, r.events, RunAll(hs, m, buffers[i + 1..]));
        i := i + 1;
      }
      assert seen + [] == seen;
    }
  }
}
