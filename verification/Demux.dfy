// The program-stream demultiplexer of src/extract_mpeg2.c, byte by byte: what
// its headers mean, and what every run over a stream writes.
module Demux {
  import opened Words

  // What follows a complete header: payload to write, then data to skip. A
  // count that is not positive stands for nothing.
  datatype Action = Resync | End | Then(payload: int, skip: int)

  // Need: the header is longer than what there is of it.
  datatype Parsed = Need | Complete(len: nat, action: Action)

  const HEAD_SIZE: nat := 264

  function SkipTable(nibble: nat): nat
  {
    if nibble == 2 then 4 else if nibble == 3 then 9 else 0
  }

  // The stuffing bytes of an MPEG-1 packet header: the length with the first
  // byte that is not stuffing, or Need.
  function Stuffing(h: seq<Byte>, len: nat): (r: Parsed)
    requires 1 <= len <= |h|
    ensures r.Complete? ==> len <= r.len <= |h|
    decreases |h| - len
  {
    if h[len - 1] != 0xff then Complete(len, Resync)
    else if |h| < len + 1 then Need
    else if len + 1 > 23 then Complete(len + 1, Resync)
    else Stuffing(h, len + 1)
  }

  function Word16(hi: int, lo: int): int
  {
    256 * hi + lo
  }

  function PayloadOf(h: seq<Byte>, len: nat): int
    requires |h| >= 6
  {
    6 + Word16(h[4], h[5]) - len
  }

  function ParseMpeg1(h: seq<Byte>): Parsed
    requires |h| >= 7
  {
    match Stuffing(h, 7)
    case Need => Need
    case Complete(n, _) =>
      var n' := if h[n - 1] / 64 == 1 then n + 2 else n;
      if |h| < n' then Need else EndMpeg1(h, n')
  }

  // The number of bytes after the n that are there depends on the last of them.
  function EndMpeg1(h: seq<Byte>, n: nat): Parsed
    requires 7 <= n <= |h|
  {
    var len := n + SkipTable(h[n - 1] / 16);
    if |h| < len then Need else Complete(len, Then(PayloadOf(h, len), 0))
  }

  function ParsePack(h: seq<Byte>): Parsed
    requires |h| >= 4
  {
    if |h| < 5 then Need
    else if h[4] / 64 == 1 then
      if |h| < 14 then Need
      else
        var len := 14 + h[13] % 8;
        if |h| < len then Need else Complete(len, Then(0, 0))
    else if h[4] / 16 == 2 then
      if |h| < 12 then Need else Complete(12, Then(0, 0))
    else Complete(5, Then(0, 0))
  }

  function ParsePacket(h: seq<Byte>): Parsed
    requires |h| >= 4
  {
    if |h| < 7 then Need
    else if h[6] / 64 == 2 then
      if |h| < 9 then Need
      else
        var len: nat := 9 + (h[8] as nat);
        if |h| < len then Need else Complete(len, Then(PayloadOf(h, len), 0))
    else ParseMpeg1(h)
  }

  // The header that starts h, in a stream of which track is wanted.
  function Parse(track: nat, h: seq<Byte>): Parsed
  {
    if |h| < 4 then Need
    else if h[0] != 0 || h[1] != 0 || h[2] != 1 then Complete(4, Resync)
    else if h[3] == 0xb9 then Complete(4, End)
    else if h[3] == 0xba then ParsePack(h)
    else if h[3] == track then ParsePacket(h)
    else if h[3] < 0xb9 then Complete(4, Then(0, 0))
    else if |h| < 6 then Need
    else Complete(6, Then(0, Word16(h[4], h[5])))
  }

  // ---- A header is what its own bytes say ----

  lemma {:induction false} StuffingPrefix(h: seq<Byte>, n: nat, k: nat)
    requires 1 <= n <= k <= |h|
    ensures match Stuffing(h, n)
      case Need => Stuffing(h[..k], n) == Need
      case Complete(len, _) =>
        n <= len <= |h| && (len == n || len <= 24 || len == n + 1)
        && Stuffing(h[..k], n) == if k < len then Need else Stuffing(h, n)
    decreases 24 - n
  {
    if h[n - 1] == 0xff && n + 1 <= 23 && n + 1 <= |h| {
      StuffingPrefix(h, n + 1, if k > n then k else n + 1);
    }
  }

  lemma Mpeg1Prefix(h: seq<Byte>, k: nat)
    requires 7 <= k <= |h|
    ensures match ParseMpeg1(h)
      case Need => ParseMpeg1(h[..k]) == Need
      case Complete(len, _) =>
        7 <= len <= HEAD_SIZE && len <= |h| && ParseMpeg1(h[..k]) == if k < len then Need else ParseMpeg1(h)
  {
    StuffingPrefix(h, 7, k);
  }

  lemma ParsePrefix(track: nat, h: seq<Byte>, k: nat)
    requires k <= |h|
    ensures match Parse(track, h)
      case Need => Parse(track, h[..k]) == Need
      case Complete(len, _) =>
        4 <= len <= HEAD_SIZE && len <= |h| && Parse(track, h[..k]) == if k < len then Need else Parse(track, h)
  {
    if k >= 7 { Mpeg1Prefix(h, k); }
    if |h| >= 7 { Mpeg1Prefix(h, |h|); }
  }

  // ---- The demultiplexer, byte by byte ----

  datatype State = Header(h: seq<Byte>) | Data(n: nat) | Skip(n: nat) | Ended

  // With no payload and nothing to skip the next header starts.
  function Between(payload: int, skip: int): (s: State)
    ensures s.Data? || s.Skip? ==> s.n > 0
  {
    if payload > 0 then Data(payload) else if skip > 0 then Skip(skip) else Header([])
  }

  // Where the demultiplexer stands after a header that is complete.
  function After(h: seq<Byte>, p: Parsed): State
    requires p.Complete? && p.len == |h| >= 1
  {
    match p.action
    case Resync => Header(h[1..])
    case End => Ended
    case Then(payload, skip) => Between(payload, skip)
  }

  // One byte: the state after it, and whether it is written.
  function Step(track: nat, s: State, b: Byte): (State, bool)
  {
    match s
    case Data(n) => (Between(n - 1, 0), true)
    case Skip(n) => (Between(0, n - 1), false)
    case Header(h) =>
      var p := Parse(track, h + [b]);
      (if p.Complete? && p.len == |h| + 1 then After(h + [b], p) else Header(h + [b]), false)
    case Ended => (Ended, false)
  }

  // A stream, or a piece of it: the state after it, and what is written.
  function Run(track: nat, s: State, data: seq<Byte>): (State, seq<Byte>)
    decreases |data|
  {
    if data == [] then (s, [])
    else
      var (next, write) := Step(track, s, data[0]);
      var (last, out) := Run(track, next, data[1..]);
      (last, if write then [data[0]] + out else out)
  }

  function RunAll(track: nat, s: State, buffers: seq<seq<Byte>>): (State, seq<Byte>)
    decreases |buffers|
  {
    if buffers == [] then (s, [])
    else
      var (next, out) := Run(track, s, buffers[0]);
      var (last, more) := RunAll(track, next, buffers[1..]);
      (last, out + more)
  }

  lemma {:induction false} RunSplit(track: nat, s: State, a: seq<Byte>, b: seq<Byte>)
    ensures var (mid, out) := Run(track, s, a);
      Run(track, s, a + b) == (Run(track, mid, b).0, out + Run(track, mid, b).1)
    decreases |a|
  {
    if a == [] {
      assert a + b == b;
      assert [] + Run(track, s, b).1 == Run(track, s, b).1;
    } else {
      assert (a + b)[0] == a[0] && (a + b)[1..] == a[1..] + b;
      var next := Step(track, s, a[0]).0;
      RunSplit(track, next, a[1..], b);
      var (mid, out) := Run(track, next, a[1..]);
      assert [a[0]] + (out + Run(track, mid, b).1) == ([a[0]] + out) + Run(track, mid, b).1;
    }
  }

  // Cutting the stream into buffers anywhere, inside headers and start codes
  // too, gives the same payload and the same pending state.
  lemma {:induction false} SplitInvariance(track: nat, s: State, buffers: seq<seq<Byte>>)
    ensures RunAll(track, s, buffers) == Run(track, s, Concat(buffers))
    decreases |buffers|
  {
    if buffers != [] {
      SplitInvariance(track, Run(track, s, buffers[0]).0, buffers[1..]);
      RunSplit(track, s, buffers[0], Concat(buffers[1..]));
    }
  }

  // A header in progress asks for more, and there is room for it.
  predicate Sound(track: nat, s: State)
  {
    match s
    case Header(h) => Parse(track, h) == Need && |h| < HEAD_SIZE
    case Data(n) => n > 0
    case Skip(n) => n > 0
    case Ended => true
  }

  lemma {:induction false} StuffingEnds(h: seq<Byte>, n: nat)
    requires 1 <= n <= 23 && 24 <= |h|
    ensures Stuffing(h, n).Complete? && Stuffing(h, n).len <= 24
    decreases 24 - n
  {
    if h[n - 1] == 0xff && n + 1 <= 23 { StuffingEnds(h, n + 1); }
  }

  // The longest header is that of an MPEG-2 packet.
  lemma HeaderEnds(track: nat, h: seq<Byte>)
    requires |h| >= HEAD_SIZE
    ensures Parse(track, h).Complete?
  {
    StuffingEnds(h, 7);
  }

  // One more byte completes a header or leaves it incomplete.
  lemma OneMore(track: nat, h: seq<Byte>, b: Byte)
    requires Parse(track, h) == Need
    ensures var p := Parse(track, h + [b]);
      && (p.Complete? ==> 4 <= p.len == |h| + 1)
      && (p == Need ==> |h| + 1 < HEAD_SIZE)
  {
    ParsePrefix(track, h + [b], |h|);
    assert (h + [b])[..|h|] == h;
    if |h| + 1 >= HEAD_SIZE { HeaderEnds(track, h + [b]); }
  }

  lemma StepSound(track: nat, s: State, b: Byte)
    requires Sound(track, s)
    ensures Sound(track, Step(track, s, b).0)
  {
    if s.Header? { OneMore(track, s.h, b); }
  }

  // The saved header never outgrows its buffer.
  lemma {:induction false} RunSound(track: nat, s: State, data: seq<Byte>)
    requires Sound(track, s)
    ensures Sound(track, Run(track, s, data).0)
    decreases |data|
  {
    if data != [] {
      StepSound(track, s, data[0]);
      RunSound(track, Step(track, s, data[0]).0, data[1..]);
    }
  }

  // ---- Headers, payload and skipped data as wholes ----

  lemma {:induction false} RunIncomplete(track: nat, h: seq<Byte>, data: seq<Byte>)
    requires Parse(track, h) == Need && Parse(track, h + data) == Need
    ensures Run(track, Header(h), data) == (Header(h + data), [])
    decreases |data|
  {
    if data == [] {
      assert h + data == h;
    } else {
      var n := h + [data[0]];
      assert h + data == n + data[1..] && (h + data)[..|n|] == n;
      ParsePrefix(track, h + data, |n|);
      OneMore(track, h, data[0]);
      RunIncomplete(track, n, data[1..]);
    }
  }

  lemma HeaderByte(track: nat, h: seq<Byte>, data: seq<Byte>)
    requires Parse(track, h) == Need && Parse(track, h + data).Complete?
    ensures data != [] && Parse(track, h + data).len > |h|
    ensures var n := h + [data[0]]; var p := Parse(track, h + data);
      && h + data == n + data[1..]
      && Parse(track, n) == if p.len == |n| then p else Need
  {
    var w := h + data;
    ParsePrefix(track, w, |h|);
    assert w[..|h|] == h;
    var n := h + [data[0]];
    assert w == n + data[1..] && w[..|n|] == n;
    ParsePrefix(track, w, |n|);
  }

  // A header of which h is already there is completed by data.
  lemma {:induction false} RunHeader(track: nat, h: seq<Byte>, data: seq<Byte>, p: Parsed)
    requires Parse(track, h) == Need && Parse(track, h + data) == p && p.Complete?
    ensures |h| < p.len <= |h + data|
    ensures Run(track, Header(h), data) == Run(track, After((h + data)[..p.len], p), data[p.len - |h|..])
    decreases |data|
  {
    ParsePrefix(track, h + data, 0);
    HeaderByte(track, h, data);
    var n := h + [data[0]];
    if p.len > |n| {
      RunHeader(track, n, data[1..], p);
      assert data[1..][p.len - |n|..] == data[p.len - |h|..];
    } else {
      assert (h + data)[..p.len] == n;
    }
  }

  lemma RunOne(track: nat, s: State, data: seq<Byte>)
    requires data != []
    ensures var (next, write) := Step(track, s, data[0]);
      Run(track, s, data)
      == (Run(track, next, data[1..]).0, (if write then [data[0]] else []) + Run(track, next, data[1..]).1)
  {
    var out := Run(track, Step(track, s, data[0]).0, data[1..]).1;
    assert [] + out == out;
  }

  // Payload that goes on past the data.
  lemma {:induction false} RunDataShort(track: nat, n: nat, data: seq<Byte>)
    requires n > 0 && |data| <= n
    ensures Run(track, Data(n), data) == (Between(n - |data|, 0), data)
    decreases |data|
  {
    if data != [] {
      RunOne(track, Data(n), data);
      if n > 1 {
        RunDataShort(track, n - 1, data[1..]);
      } else {
        assert data[1..] == [];
      }
      assert [data[0]] + data[1..] == data;
    }
  }

  // Payload that ends in the data.
  lemma RunDataLong(track: nat, n: nat, data: seq<Byte>)
    requires 0 < n <= |data|
    ensures Run(track, Data(n), data)
         == (Run(track, Header([]), data[n..]).0, data[..n] + Run(track, Header([]), data[n..]).1)
  {
    RunDataShort(track, n, data[..n]);
    RunSplit(track, Data(n), data[..n], data[n..]);
    assert data[..n] + data[n..] == data;
  }

  lemma {:induction false} RunSkipShort(track: nat, n: nat, data: seq<Byte>)
    requires n > 0 && |data| <= n
    ensures Run(track, Skip(n), data) == (Between(0, n - |data|), [])
    decreases |data|
  {
    if data != [] {
      if n > 1 {
        RunSkipShort(track, n - 1, data[1..]);
      } else {
        assert data[1..] == [];
      }
    }
  }

  lemma RunSkipLong(track: nat, n: nat, data: seq<Byte>)
    requires 0 < n <= |data|
    ensures Run(track, Skip(n), data) == Run(track, Header([]), data[n..])
  {
    RunSkipShort(track, n, data[..n]);
    RunSplit(track, Skip(n), data[..n], data[n..]);
    assert data[..n] + data[n..] == data;
    assert [] + Run(track, Header([]), data[n..]).1 == Run(track, Header([]), data[n..]).1;
  }

  // Moving on by one byte when three or fewer do not start a header.
  lemma RunResync(track: nat, h: seq<Byte>, data: seq<Byte>)
    requires |h| <= 3
    ensures Run(track, Header(h), data) == Run(track, Header([]), h + data)
    decreases |h|
  {
    if h == [] {
      assert h + data == data;
    } else {
      var init := h[..|h| - 1];
      var last := h[|h| - 1];
      RunResync(track, init, [last] + data);
      assert init + ([last] + data) == h + data && init + [last] == h;
      assert ([last] + data)[1..] == data;
    }
  }

  lemma {:induction false} RunEnded(track: nat, data: seq<Byte>)
    ensures Run(track, Ended, data) == (Ended, [])
    decreases |data|
  {
    if data != [] { RunEnded(track, data[1..]); }
  }

  // A part of a run: from s at data to s' at rest, with out written on the way.
  predicate Leads(track: nat, s: State, data: seq<Byte>, out: seq<Byte>, s': State, rest: seq<Byte>)
  {
    Run(track, s, data) == (Run(track, s', rest).0, out + Run(track, s', rest).1)
  }

  lemma LeadsNowhere(track: nat, s: State, data: seq<Byte>)
    ensures Leads(track, s, data, [], s, data)
  {
    assert [] + Run(track, s, data).1 == Run(track, s, data).1;
  }

  lemma LeadsOn(track: nat, s: State, data: seq<Byte>, out: seq<Byte>, t: State, mid: seq<Byte>, more: seq<Byte>,
                u: State, rest: seq<Byte>)
    requires Leads(track, s, data, out, t, mid) && Leads(track, t, mid, more, u, rest)
    ensures Leads(track, s, data, out + more, u, rest)
  {
    assert out + (more + Run(track, u, rest).1) == (out + more) + Run(track, u, rest).1;
  }

  lemma LeadsQuietly(track: nat, s: State, data: seq<Byte>, t: State, rest: seq<Byte>)
    requires Run(track, s, data) == Run(track, t, rest)
    ensures Leads(track, s, data, [], t, rest)
  {
    assert [] + Run(track, t, rest).1 == Run(track, t, rest).1;
  }

  // What follows a header when there is more data than that.
  lemma LeadsPast(track: nat, payload: int, skip: int, data: seq<Byte>)
    requires payload <= 0 || skip <= 0
    requires payload <= |data| && skip <= |data|
    ensures var n := if payload > 0 then payload else if skip > 0 then skip else 0;
      Leads(track, Between(payload, skip), data, if payload > 0 then data[..payload] else [], Header([]), data[n..])
  {
    if payload > 0 {
      RunDataLong(track, payload, data);
    } else if skip > 0 {
      RunSkipLong(track, skip, data);
      LeadsQuietly(track, Between(payload, skip), data, Header([]), data[skip..]);
    } else {
      LeadsNowhere(track, Header([]), data);
    }
  }

  // What follows a header when the data ends in it.
  lemma LeadsInto(track: nat, payload: int, skip: int, data: seq<Byte>)
    requires payload <= 0 || skip <= 0
    requires payload > |data| || (payload <= 0 && skip > |data|)
    ensures Leads(track, Between(payload, skip), data, if payload > 0 then data else [],
      Between(payload - |data|, if payload > 0 then 0 else skip - |data|), [])
  {
    if payload > 0 { RunDataShort(track, payload, data); } else { RunSkipShort(track, skip, data); }
    assert data + [] == data;
    var e: seq<Byte> := [];
    assert e + e == e;
  }

  // A header of which h is there already leads to what it says.
  lemma LeadsHeader(track: nat, h: seq<Byte>, data: seq<Byte>, p: Parsed)
    requires Parse(track, h) == Need && Parse(track, h + data) == p
    ensures p == Need ==> Leads(track, Header(h), data, [], Header(h + data), [])
    ensures p.Complete? ==> |h| < p.len <= |h + data|
    ensures p.Complete? && p.action == Resync ==>
      Leads(track, Header(h), data, [], Header((h + data)[1..p.len]), data[p.len - |h|..])
    ensures p.Complete? && p.action == End ==> Leads(track, Header(h), data, [], Ended, [])
    ensures p.Complete? && p.action.Then? ==>
      Leads(track, Header(h), data, [], Between(p.action.payload, p.action.skip), data[p.len - |h|..])
  {
    if p == Need {
      RunIncomplete(track, h, data);
      var e: seq<Byte> := [];
      assert e + e == e;
    } else {
      RunHeader(track, h, data, p);
      var w := h + data;
      var rest := data[p.len - |h|..];
      assert w[..p.len][1..] == w[1..p.len];
      LeadsQuietly(track, Header(h), data, After(w[..p.len], p), rest);
      if p.action == End {
        RunEnded(track, rest);
        RunEnded(track, []);
      }
    }
  }

  // At the start of data, when that is no header: one byte on.
  lemma LeadsByte(track: nat, data: seq<Byte>)
    requires Parse(track, data) == Complete(4, Resync)
    ensures Leads(track, Header([]), data, [], Header([]), data[1..])
  {
    var h: seq<Byte> := [];
    assert h + data == data;
    LeadsHeader(track, h, data, Complete(4, Resync));
    RunResync(track, data[1..4], data[4..]);
    assert data[1..4] + data[4..] == data[1..];
  }

  // Whether a header can have a payload and other data, both.
  lemma OneKind(track: nat, h: seq<Byte>)
    ensures var p := Parse(track, h);
      p.Complete? && p.action.Then? ==> p.action.payload <= 0 || p.action.skip <= 0
    ensures var p := Parse(track, h); p.Complete? && p.action == Resync ==> p.len == 4 <= |h|
  {
  }

  lemma {:induction false} AllEnded(track: nat, buffers: seq<seq<Byte>>)
    ensures RunAll(track, Ended, buffers) == (Ended, [])
    decreases |buffers|
  {
    if buffers != [] {
      RunEnded(track, buffers[0]);
      AllEnded(track, buffers[1..]);
      var e: seq<Byte> := [];
      assert e + e == e;
    }
  }
}
