// Program streams as a multiplexer writes them, and what the demultiplexer of
// src/extract_mpeg2.c makes of them: the payloads of the track, and no more.
module Mux {
  import opened Words
  import opened Demux
  import opened Demuxer

  // The time stamps of an MPEG-1 packet header: none, a presentation time
  // stamp, or that and a decoding time stamp (section 2.4.3.3 of ISO/IEC
  // 11172-1). The first byte is 0x0f, 0x2_ or 0x3_.
  datatype Stamps = NoStamps | Pts(first: Byte, rest: seq<Byte>) | PtsDts(first: Byte, rest: seq<Byte>) {
    predicate Valid()
    {
      match this
      case NoStamps => true
      case Pts(first, rest) => first / 16 == 2 && |rest| == 4
      case PtsDts(first, rest) => first / 16 == 3 && |rest| == 9
    }

    function Bytes(): seq<Byte>
    {
      match this
      case NoStamps => [0x0f]
      case Pts(first, rest) => [first] + rest
      case PtsDts(first, rest) => [first] + rest
    }
  }

  // What a program stream is made of: pack headers of MPEG-2, with stuffing, and
  // of MPEG-1; packets of the track with a header of MPEG-2, after two bytes of
  // flags, or of MPEG-1, with stuffing and the size of the decoder's buffer; and
  // packets of other streams.
  datatype Unit =
    | Pack2(clock: seq<Byte>, stuffing: seq<Byte>)
    | Pack1(clock: seq<Byte>)
    | Packet2(flags: Byte, more: Byte, header: seq<Byte>, payload: seq<Byte>)
    | Packet1(ones: nat, buffer: seq<Byte>, stamps: Stamps, payload: seq<Byte>)
    | Other(id: Byte, data: seq<Byte>)
  {
    predicate Valid(track: nat)
    {
      match this
      case Pack2(clock, stuffing) => |clock| == 9 && clock[0] / 64 == 1 && |stuffing| < 8
      case Pack1(clock) => |clock| == 8 && clock[0] / 16 == 2
      case Packet2(flags, _, header, payload) =>
        flags / 64 == 2 && |header| < 256 && 3 + |header| + |payload| < 0x1_0000
      case Packet1(ones, buffer, stamps, payload) =>
        && ones <= 16 && (buffer == [] || (|buffer| == 2 && buffer[0] / 64 == 1)) && stamps.Valid()
        && ones + |buffer| + |stamps.Bytes()| + |payload| < 0x1_0000
      case Other(id, data) => id >= 0xbb && id != track && |data| < 0x1_0000
    }

    // The unit up to its payload; the length of a packet counts what comes
    // after it.
    function Head(track: Byte): seq<Byte>
      requires Valid(track)
    {
      match this
      case Pack2(clock, stuffing) => [0, 0, 1, 0xba] + clock + [0xf8 + |stuffing|] + stuffing
      case Pack1(clock) => [0, 0, 1, 0xba] + clock
      case Packet2(flags, more, header, payload) =>
        [0, 0, 1, track] + Length(3 + |header| + |payload|) + [flags, more, |header|] + header
      case Packet1(ones, buffer, stamps, payload) =>
        [0, 0, 1, track] + Length(ones + |buffer| + |stamps.Bytes()| + |payload|) + Ones(ones)
        + (buffer + stamps.Bytes())
      case Other(id, data) => [0, 0, 1, id] + Length(|data|)
    }

    // What comes after the header, and the part of it that is the track's.
    function Rest(): seq<Byte>
    {
      match this
      case Packet2(_, _, _, payload) => payload
      case Packet1(_, _, _, payload) => payload
      case Other(_, data) => data
      case _ => []
    }

    function Payload(): seq<Byte>
    {
      if Other? then [] else Rest()
    }
  }

  // Sixteen bits, the higher byte first.
  function Length(n: nat): seq<Byte>
    requires n < 0x1_0000
  {
    [n / 256, n % 256]
  }

  function Ones(n: nat): (s: seq<Byte>)
    ensures |s| == n && forall k :: 0 <= k < n ==> s[k] == 0xff
  {
    seq(n, (k: nat) => 0xff)
  }

  predicate AllValid(track: nat, units: seq<Unit>)
  {
    forall u <- units :: u.Valid(track)
  }

  function Stream(track: Byte, units: seq<Unit>): seq<Byte>
    requires AllValid(track, units)
  {
    if units == [] then []
    else units[0].Head(track) + (units[0].Rest() + Stream(track, units[1..]))
  }

  function Payloads(units: seq<Unit>): seq<Byte>
  {
    if units == [] then [] else units[0].Payload() + Payloads(units[1..])
  }

  // ---- The header of a unit ----

  lemma WordOf(n: nat)
    requires n < 0x1_0000
    ensures Word16(Length(n)[0], Length(n)[1]) == n
  {
    assert n == 256 * (n / 256) + n % 256;
  }

  lemma ParsePack2(track: Byte, u: Unit)
    requires u.Pack2? && u.Valid(track)
    ensures Parse(track, u.Head(track)) == Complete(|u.Head(track)|, Then(0, 0))
  {
    var h := u.Head(track);
    assert h[0] == 0 && h[1] == 0 && h[2] == 1 && h[3] == 0xba && h[4] == u.clock[0];
    assert h[13] == 0xf8 + |u.stuffing| && (0xf8 + |u.stuffing|) % 8 == |u.stuffing|;
  }

  lemma ParsePack1(track: Byte, u: Unit)
    requires u.Pack1? && u.Valid(track)
    ensures Parse(track, u.Head(track)) == Complete(|u.Head(track)|, Then(0, 0))
  {
    var h := u.Head(track);
    assert h[0] == 0 && h[1] == 0 && h[2] == 1 && h[3] == 0xba && h[4] == u.clock[0];
    assert h[4] / 64 == 0;
  }

  lemma ParsePacket2(track: Byte, u: Unit)
    requires u.Packet2? && u.Valid(track) && 0xe0 <= track <= 0xef
    ensures Parse(track, u.Head(track)) == Complete(|u.Head(track)|, Then(|u.payload|, 0))
  {
    var h := u.Head(track);
    var n := 3 + |u.header| + |u.payload|;
    WordOf(n);
    assert h[0] == 0 && h[1] == 0 && h[2] == 1 && h[3] == track && h[4] == Length(n)[0] && h[5] == Length(n)[1];
    assert h[6] == u.flags && h[8] == |u.header|;
  }

  lemma ParseOther(track: Byte, u: Unit)
    requires u.Other? && u.Valid(track)
    ensures Parse(track, u.Head(track)) == Complete(|u.Head(track)|, Then(0, |u.data|))
  {
    var h := u.Head(track);
    WordOf(|u.data|);
    assert h[0] == 0 && h[1] == 0 && h[2] == 1 && h[3] == u.id;
  }

  // Stuffing bytes are passed over.
  lemma {:induction false} PastStuffing(h: seq<Byte>, len: nat, n: nat)
    requires 7 <= len <= n + 1 <= |h| && n <= 22
    requires (forall k :: len - 1 <= k < n ==> h[k] == 0xff) && h[n] != 0xff
    ensures Stuffing(h, len) == Complete(n + 1, Resync)
    decreases n + 1 - len
  {
    if len <= n { PastStuffing(h, len + 1, n); }
  }

  // The header of an MPEG-1 packet, where its stuffing ends at n and its time
  // stamps start at t.
  lemma ParsePacket1(track: Byte, u: Unit)
    requires u.Packet1? && u.Valid(track) && 0xe0 <= track <= 0xef
    ensures Parse(track, u.Head(track)) == Complete(|u.Head(track)|, Then(|u.payload|, 0))
  {
    var h := u.Head(track);
    var (n, b, st) := (6 + u.ones, u.buffer, u.stamps.Bytes());
    var len := u.ones + |b| + |st| + |u.payload|;
    WordOf(len);
    assert h[0] == 0 && h[1] == 0 && h[2] == 1 && h[3] == track && h[4] == Length(len)[0] && h[5] == Length(len)[1];
    assert forall k :: 6 <= k < n ==> h[k] == 0xff;
    assert h[n] == (b + st)[0] && h[n + |b|] == st[0];
    StampBytes(u.stamps);
    assert h[6] / 64 != 2;
    PastStuffing(h, 7, n);
    assert ParseMpeg1(h) == EndMpeg1(h, n + |b| + 1);
  }

  lemma StampBytes(st: Stamps)
    requires st.Valid()
    ensures var b := st.Bytes(); b[0] < 0x40 && |b| == 1 + SkipTable(b[0] / 16)
  {
  }

  lemma ParseUnit(track: Byte, u: Unit)
    requires u.Valid(track) && 0xe0 <= track <= 0xef
    ensures Parse(track, u.Head(track))
         == Complete(|u.Head(track)|, Then(|u.Payload()|, if u.Other? then |u.data| else 0))
  {
    match u
    case Pack2(_, _) => ParsePack2(track, u);
    case Pack1(_) => ParsePack1(track, u);
    case Packet2(_, _, _, _) => ParsePacket2(track, u);
    case Packet1(_, _, _, _) => ParsePacket1(track, u);
    case Other(_, _) => ParseOther(track, u);
  }

  // ---- A unit, and a stream of them ----

  lemma UnitLeads(track: Byte, u: Unit, more: seq<Byte>)
    requires u.Valid(track) && 0xe0 <= track <= 0xef
    ensures Leads(track, Header([]), u.Head(track) + (u.Rest() + more), u.Payload(), Header([]), more)
  {
    assert Parse(track, []) == Need;
    hide Leads, Parse, Unit.Head, Run;
    var (head, rest) := (u.Head(track), u.Rest() + more);
    var data := head + rest;
    ParseUnit(track, u);
    ParsePrefix(track, data, |head|);
    assert data[..|head|] == head && [] + data == data && data[|head|..] == rest;
    LeadsHeader(track, [], data, Parse(track, data));
    var skip := if u.Other? then |u.data| else 0;
    LeadsPast(track, |u.Payload()|, skip, rest);
    assert rest[|u.Rest()|..] == more && rest[..|u.Rest()|] == u.Rest();
    LeadsOn(track, Header([]), data, [], Between(|u.Payload()|, skip), rest, u.Payload(), Header([]), more);
    assert [] + u.Payload() == u.Payload();
  }

  // Whatever the units, the demultiplexer writes the payloads of the track, in
  // order, and stands between headers at the end of the stream.
  lemma {:induction false} MuxRoundTrip(track: Byte, units: seq<Unit>)
    requires AllValid(track, units) && 0xe0 <= track <= 0xef
    ensures Run(track, Header([]), Stream(track, units)) == (Header([]), Payloads(units))
  {
    if units != [] {
      UnitLeads(track, units[0], Stream(track, units[1..]));
      MuxRoundTrip(track, units[1..]);
    }
  }

  // So it does from a stream that is read in pieces, and it stops at the end
  // code, whatever comes after that.
  lemma EndedRoundTrip(track: Byte, units: seq<Unit>, more: seq<Byte>, pieces: seq<seq<Byte>>)
    requires AllValid(track, units) && 0xe0 <= track <= 0xef
    requires Concat(pieces) == Stream(track, units) + ([0, 0, 1, 0xb9] + more)
    ensures RunAll(track, Header([]), pieces) == (Ended, Payloads(units))
  {
    var end := [0, 0, 1, 0xb9] + more;
    SplitInvariance(track, Header([]), pieces);
    RunSplit(track, Header([]), Stream(track, units), end);
    MuxRoundTrip(track, units);
    assert [] + end == end;
    LeadsHeader(track, [], end, Complete(4, Demux.Action.End));
    RunEnded(track, []);
    assert [] + Run(track, Ended, []).1 == [];
    assert Payloads(units) + [] == Payloads(units);
  }

  // The program on a file, read in pieces: a stream of units, with an end code
  // or not.
  method Extract(track: Byte, ghost units: seq<Unit>, ended: bool, pieces: seq<seq<Byte>>) returns (d: PsDemuxer)
    requires AllValid(track, units) && 0xe0 <= track <= 0xef
    requires Concat(pieces) == Stream(track, units) + if ended then [0, 0, 1, 0xb9] else []
    ensures d.output == Payloads(units)
  {
    d := new PsDemuxer(track);
    d.PsLoop(pieces);
    if ended {
      assert Stream(track, units) + [0, 0, 1, 0xb9] == Stream(track, units) + ([0, 0, 1, 0xb9] + []);
      EndedRoundTrip(track, units, [], pieces);
      SplitInvariance(track, Header([]), pieces);
    } else {
      assert Stream(track, units) + [] == Stream(track, units);
      MuxRoundTrip(track, units);
    }
    assert [] + Payloads(units) == Payloads(units);
  }
}
