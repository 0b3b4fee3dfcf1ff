// The function demux of src/extract_mpeg2.c in program-stream mode, with the
// state that it keeps between calls, proved to carry on the run of Demux.
module Demuxer {
  import opened Words
  import opened Demux

  datatype Kind = HeaderKind | DataKind | SkipKind

  class PsDemuxer {
    const track: nat
    var state: Kind
    var stateBytes: nat
    const headBuf: array<Byte>
    // what has been written to stdout
    var output: seq<Byte>

    predicate Shape()
      reads this
    {
      headBuf.Length == HEAD_SIZE && (state == HeaderKind ==> stateBytes < HEAD_SIZE)
    }

    ghost function View(): State
      requires Shape()
      reads this, headBuf
    {
      match state
      case HeaderKind => Header(headBuf[..stateBytes])
      case DataKind => Between(stateBytes, 0)
      case SkipKind => Between(0, stateBytes)
    }

    ghost predicate Valid()
      reads this, headBuf
    {
      Shape() && Sound(track, View())
    }

    constructor (track: nat)
      ensures Valid() && fresh(headBuf) && View() == Header([]) && output == [] && this.track == track
    {
      this.track := track;
      state, stateBytes := SkipKind, 0;
      headBuf := new Byte[HEAD_SIZE];
      output := [];
    }

    // w is the header in progress and what follows it. It starts in headBuf,
    // which has bytes of it, or else at data[pos].
    ghost predicate Holds(data: seq<Byte>, pos: nat, inHead: bool, bytes: nat, w: seq<Byte>)
      reads headBuf
    {
      && pos <= |data| && headBuf.Length == HEAD_SIZE
      && (if inHead then bytes <= HEAD_SIZE && w == headBuf[..bytes] + data[pos..]
          else bytes == |data| - pos && w == data[pos..])
    }

    // header[i]
    function At(data: seq<Byte>, pos: nat, inHead: bool, bytes: nat, ghost w: seq<Byte>, i: nat): (b: Byte)
      requires Holds(data, pos, inHead, bytes, w) && i < bytes
      reads headBuf
      ensures i < |w| && b == w[i]
    {
      if inHead then headBuf[i] else data[pos + i]
    }

    // NEEDBYTES took what a header of len bytes needs.
    predicate Moved(pos: nat, inHead: bool, bytes: nat, pos': nat, bytes': nat, len: nat)
    {
      if inHead then bytes' == (if bytes < len then len else bytes) && pos' - pos == bytes' - bytes
      else bytes' == bytes && pos' == pos
    }

    // All that there is of the header has been saved.
    ghost predicate Saved(w: seq<Byte>)
      reads this, headBuf
    {
      Shape() && View() == Header(w)
    }

    // NEEDBYTES: the header has x bytes, or all that there is of it is saved.
    method NeedBytes(x: nat, data: seq<Byte>, pos: nat, inHead: bool, bytes: nat, ghost w: seq<Byte>)
      returns (ok: bool, pos': nat, bytes': nat)
      requires Holds(data, pos, inHead, bytes, w) && x <= HEAD_SIZE
      modifies this`state, this`stateBytes, headBuf
      ensures ok == (|w| >= x)
      ensures if ok then
        Holds(data, pos', inHead, bytes', w) && bytes' >= x && Moved(pos, inHead, bytes, pos', bytes', x)
              else Saved(w)
    {
      ok, pos', bytes' := true, pos, bytes;
      if x > bytes {
        var missing := x - bytes;
        if inHead {
          if missing <= |data| - pos {
            Copy(bytes, data[pos..pos + missing]);
            assert data[pos..] == data[pos..pos + missing] + data[pos + missing..];
            pos' := pos + missing;
            bytes' := x;
          } else {
            Copy(bytes, data[pos..]);
            stateBytes := bytes + (|data| - pos);
            state := HeaderKind;
            ok := false;
          }
        } else {
          Copy(0, data[pos..]);
          state := HeaderKind;
          stateBytes := bytes;
          ok := false;
        }
      }
    }

    // memcpy into the saved header
    method Copy(at: nat, s: seq<Byte>)
      requires headBuf.Length == HEAD_SIZE && at + |s| <= HEAD_SIZE
      modifies headBuf
      ensures headBuf[..at + |s|] == old(headBuf[..at]) + s
    {
      for i := 0 to |s|
        invariant headBuf[..at + i] == old(headBuf[..at]) + s[..i]
      {
        headBuf[at + i] := s[i];
      }
    }

    // A header of which p is said is complete and still there, or it is saved.
    ghost predicate Read(data: seq<Byte>, pos: nat, inHead: bool, bytes: nat, w: seq<Byte>, p: Parsed, pos': nat,
                         bytes': nat)
      reads this, headBuf
    {
      if p.Complete? then
        Holds(data, pos', inHead, bytes', w) && p.len <= bytes' && p.len <= |w| &&
        Moved(pos, inHead, bytes, pos', bytes', p.len)
      else Saved(w)
    }

    // The stuffing bytes of an MPEG-1 packet header.
    method SkipStuffing(data: seq<Byte>, pos: nat, inHead: bool, bytes: nat, ghost w: seq<Byte>)
      returns (ok: bool, pos': nat, bytes': nat, len: nat)
      requires Holds(data, pos, inHead, bytes, w) && 7 <= bytes && 7 <= |w|
      modifies this`state, this`stateBytes, headBuf
      ensures if ok then
          && Holds(data, pos', inHead, bytes', w) && Moved(pos, inHead, bytes, pos', bytes', len)
          && 7 <= len <= 24 && len <= bytes' && Stuffing(w, 7) == Complete(len, Resync)
        else Saved(w) && Stuffing(w, 7) == Need
    {
      ok, pos', bytes', len := true, pos, bytes, 7;
      while At(data, pos', inHead, bytes', w, len - 1) == 0xff
        invariant Holds(data, pos', inHead, bytes', w) && Moved(pos, inHead, bytes, pos', bytes', len)
        invariant 7 <= len <= 23 && len <= bytes' && len <= |w|
        invariant Stuffing(w, 7) == Stuffing(w, len)
        decreases 24 - len
      {
        len := len + 1;
        ok, pos', bytes' := NeedBytes(len, data, pos', inHead, bytes', w);
        if !ok { return; }
        if len > 23 { break; }
      }
    }

    // The last bytes of an MPEG-1 packet header.
    method ReadTable(data: seq<Byte>, pos: nat, inHead: bool, bytes: nat, ghost w: seq<Byte>, n: nat)
      returns (pos': nat, bytes': nat, p: Parsed)
      requires Holds(data, pos, inHead, bytes, w) && 7 <= n <= bytes && n <= 26 && n <= |w|
      modifies this`state, this`stateBytes, headBuf
      ensures p == EndMpeg1(w, n) && (p.Complete? ==> n <= p.len)
      ensures Read(data, pos, inHead, bytes, w, p, pos', bytes')
    {
      var len := n + SkipTable(At(data, pos, inHead, bytes, w, n - 1) / 16);
      var ok;
      ok, pos', bytes' := NeedBytes(len, data, pos, inHead, bytes, w);
      if !ok { return pos', bytes', Need; }
      var size := Word16(At(data, pos', inHead, bytes', w, 4), At(data, pos', inHead, bytes', w, 5));
      p := Complete(len, Then(6 + size - len, 0));
    }

    method ReadMpeg1(data: seq<Byte>, pos: nat, inHead: bool, bytes: nat, ghost w: seq<Byte>)
      returns (pos': nat, bytes': nat, p: Parsed)
      requires Holds(data, pos, inHead, bytes, w) && 7 <= bytes && 7 <= |w|
      modifies this`state, this`stateBytes, headBuf
      ensures p == ParseMpeg1(w) && (p.Complete? ==> 7 <= p.len)
      ensures Read(data, pos, inHead, bytes, w, p, pos', bytes')
    {
      hide Stuffing, EndMpeg1;
      var ok, n;
      ok, pos', bytes', n := SkipStuffing(data, pos, inHead, bytes, w);
      if !ok { return pos', bytes', Need; }
      if At(data, pos', inHead, bytes', w, n - 1) / 64 == 1 {
        n := n + 2;
        ok, pos', bytes' := NeedBytes(n, data, pos', inHead, bytes', w);
        if !ok { return pos', bytes', Need; }
      }
      pos', bytes', p := ReadTable(data, pos', inHead, bytes', w, n);
    }

    method ReadPacket(data: seq<Byte>, pos: nat, inHead: bool, bytes: nat, ghost w: seq<Byte>)
      returns (pos': nat, bytes': nat, p: Parsed)
      requires Holds(data, pos, inHead, bytes, w) && 4 <= bytes && 4 <= |w|
      modifies this`state, this`stateBytes, headBuf
      ensures p == ParsePacket(w) && (p.Complete? ==> 4 <= p.len)
      ensures Read(data, pos, inHead, bytes, w, p, pos', bytes')
    {
      var ok;
      ok, pos', bytes' := NeedBytes(7, data, pos, inHead, bytes, w);
      if !ok { return pos', bytes', Need; }
      if At(data, pos', inHead, bytes', w, 6) / 64 == 2 {
        ok, pos', bytes' := NeedBytes(9, data, pos', inHead, bytes', w);
        if !ok { return pos', bytes', Need; }
        var len: nat := 9 + (At(data, pos', inHead, bytes', w, 8) as nat);
        ok, pos', bytes' := NeedBytes(len, data, pos', inHead, bytes', w);
        if !ok { return pos', bytes', Need; }
        var size := Word16(At(data, pos', inHead, bytes', w, 4), At(data, pos', inHead, bytes', w, 5));
        p := Complete(len, Then(6 + size - len, 0));
      } else {
        pos', bytes', p := ReadMpeg1(data, pos', inHead, bytes', w);
      }
    }

    method ReadPack(data: seq<Byte>, pos: nat, inHead: bool, bytes: nat, ghost w: seq<Byte>)
      returns (pos': nat, bytes': nat, p: Parsed)
      requires Holds(data, pos, inHead, bytes, w) && 4 <= bytes && 4 <= |w|
      modifies this`state, this`stateBytes, headBuf
      ensures p == ParsePack(w) && (p.Complete? ==> 4 <= p.len)
      ensures Read(data, pos, inHead, bytes, w, p, pos', bytes')
    {
      var ok;
      ok, pos', bytes' := NeedBytes(5, data, pos, inHead, bytes, w);
      if !ok { return pos', bytes', Need; }
      if At(data, pos', inHead, bytes', w, 4) / 64 == 1 {
        ok, pos', bytes' := NeedBytes(14, data, pos', inHead, bytes', w);
        if !ok { return pos', bytes', Need; }
        var len := 14 + At(data, pos', inHead, bytes', w, 13) % 8;
        ok, pos', bytes' := NeedBytes(len, data, pos', inHead, bytes', w);
        if !ok { return pos', bytes', Need; }
        p := Complete(len, Then(0, 0));
      } else if At(data, pos', inHead, bytes', w, 4) / 16 == 2 {
        ok, pos', bytes' := NeedBytes(12, data, pos', inHead, bytes', w);
        if !ok { return pos', bytes', Need; }
        p := Complete(12, Then(0, 0));
      } else {
        p := Complete(5, Then(0, 0));
      }
    }

    // From continue_header on.
    method ReadHeader(data: seq<Byte>, pos: nat, inHead: bool, bytes: nat, ghost w: seq<Byte>)
      returns (pos': nat, bytes': nat, p: Parsed)
      requires Holds(data, pos, inHead, bytes, w)
      modifies this`state, this`stateBytes, headBuf
      ensures p == Parse(track, w)
      ensures Read(data, pos, inHead, bytes, w, p, pos', bytes')
    {
      var ok;
      ok, pos', bytes' := NeedBytes(4, data, pos, inHead, bytes, w);
      if !ok { return pos', bytes', Need; }
      if At(data, pos', inHead, bytes', w, 0) != 0 || At(data, pos', inHead, bytes', w, 1) != 0
         || At(data, pos', inHead, bytes', w, 2) != 1 {
        return pos', bytes', Complete(4, Resync);
      }
      var code := At(data, pos', inHead, bytes', w, 3);
      if code == 0xb9 {
        p := Complete(4, End);
      } else if code == 0xba {
        pos', bytes', p := ReadPack(data, pos', inHead, bytes', w);
      } else if code == track {
        pos', bytes', p := ReadPacket(data, pos', inHead, bytes', w);
      } else if code < 0xb9 {
        p := Complete(4, Then(0, 0));
      } else {
        ok, pos', bytes' := NeedBytes(6, data, pos', inHead, bytes', w);
        if !ok { return pos', bytes', Need; }
        var size := Word16(At(data, pos', inHead, bytes', w, 4), At(data, pos', inHead, bytes', w, 5));
        p := Complete(6, Then(0, size));
      }
    }

    // Payload and other data after a header, as far as the buffer goes.
    method Follow(data: seq<Byte>, pos: nat, payload: int, skip: int) returns (done: bool, pos': nat)
      requires pos <= |data| && (payload <= 0 || skip <= 0) && headBuf.Length == HEAD_SIZE
      modifies this`state, this`stateBytes, this`output
      ensures pos <= pos' <= |data|
      ensures old(output) <= output
      ensures done ==> Valid() && Leads(track, Between(payload, skip), data[pos..], output[old(|output|)..], View(), [])
      ensures !done ==>
        Leads(track, Between(payload, skip), data[pos..], output[old(|output|)..], Header([]), data[pos'..])
    {
      ghost var rest := data[pos..];
      if payload > |data| - pos {
        LeadsInto(track, payload, skip, rest);
        output := output + data[pos..];
        assert output[old(|output|)..] == rest;
        state, stateBytes := DataKind, payload - (|data| - pos);
        return true, |data|;
      } else if payload > 0 {
        LeadsPast(track, payload, skip, rest);
        output := output + data[pos..pos + payload];
        assert output[old(|output|)..] == rest[..payload] && rest[payload..] == data[pos + payload..];
        return false, pos + payload;
      } else if skip > |data| - pos {
        LeadsInto(track, payload, skip, rest);
        assert output[old(|output|)..] == [];
        state, stateBytes := SkipKind, skip - (|data| - pos);
        return true, |data|;
      } else {
        LeadsPast(track, payload, skip, rest);
        var n := if skip > 0 then skip else 0;
        assert output[old(|output|)..] == [] && rest[n..] == data[pos + n..];
        return false, pos + n;
      }
    }

    predicate Cursor(data: seq<Byte>, pos: nat, inHead: bool, bytes: nat)
    {
      pos <= |data| && headBuf.Length == HEAD_SIZE && if inHead then bytes <= HEAD_SIZE else bytes == |data| - pos
    }

    // The header in progress, as a state.
    ghost function Current(inHead: bool, bytes: nat): State
      requires headBuf.Length == HEAD_SIZE && (inHead ==> bytes <= HEAD_SIZE)
      reads headBuf
    {
      Header(if inHead then headBuf[..bytes] else [])
    }

    // header[0] = header[1]; header[1] = header[2]; header[2] = header[3]
    method ShiftHead()
      requires headBuf.Length == HEAD_SIZE
      modifies headBuf
      ensures headBuf[..3] == old(headBuf[1..4])
    {
      headBuf[0] := headBuf[1];
      headBuf[1] := headBuf[2];
      headBuf[2] := headBuf[3];
    }

    // No header here: the next one is looked for a byte further on.
    method MoveOn(data: seq<Byte>, ghost start: nat, ghost h: seq<Byte>, pos: nat, inHead: bool, bytes: nat)
      returns (pos': nat, bytes': nat)
      requires start <= pos <= |data| && Holds(data, pos, inHead, bytes, h + data[start..])
      requires Parse(track, h) == Need && Parse(track, h + data[start..]) == Complete(4, Resync)
      requires if inHead then bytes == 4 && pos == start + 4 - |h| else h == [] && pos == start
      modifies headBuf
      ensures Cursor(data, pos', inHead, bytes') && pos' > start && (inHead ==> Parse(track, headBuf[..bytes']) == Need)
      ensures Leads(track, Header(h), data[start..], [], Current(inHead, bytes'), data[pos'..])
    {
      if !inHead {
        LeadsByte(track, data[start..]);
        assert data[start..][1..] == data[start + 1..];
        pos' := pos + 1;
        bytes' := |data| - pos';
      } else {
        ghost var w := h + data[start..];
        LeadsHeader(track, h, data[start..], Complete(4, Resync));
        assert headBuf[1..4] == w[1..4];
        ShiftHead();
        pos', bytes' := pos, 3;
        assert data[start..][4 - |h|..] == data[pos'..];
      }
    }

    // One turn of the main loop.
    method OneHeader(data: seq<Byte>, pos: nat, inHead: bool, bytes: nat)
      returns (done: bool, ended: bool, pos': nat, inHead': bool, bytes': nat)
      requires Cursor(data, pos, inHead, bytes) && (inHead ==> Parse(track, headBuf[..bytes]) == Need)
      modifies this`state, this`stateBytes, this`output, headBuf
      ensures old(output) <= output
      ensures done && ended ==>
        Leads(track, old(Current(inHead, bytes)), data[pos..], output[old(|output|)..], Ended, [])
      ensures done && !ended ==>
        Valid() && Leads(track, old(Current(inHead, bytes)), data[pos..], output[old(|output|)..], View(), [])
      ensures !done ==>
        && !ended && Cursor(data, pos', inHead', bytes') && pos' > pos
        && (inHead' ==> Parse(track, headBuf[..bytes']) == Need)
        && Leads(track, old(Current(inHead, bytes)), data[pos..], output[old(|output|)..],
                 Current(inHead', bytes'), data[pos'..])
    {
      hide Leads;
      ghost var h := if inHead then headBuf[..bytes] else [];
      ghost var w := h + data[pos..];
      assert Holds(data, pos, inHead, bytes, w);
      done, ended, inHead' := false, false, inHead;
      var p;
      pos', bytes', p := ReadHeader(data, pos, inHead, bytes, w);
      ghost var none: seq<Byte> := [];
      assert output[old(|output|)..] == none;
      if p == Need {
        LeadsHeader(track, h, data[pos..], p);
        return true, false, pos', inHead', bytes';
      }
      ParsePrefix(track, w, |h|);
      assert w[..|h|] == h;
      match p.action {
        case Resync =>
          pos', bytes' := MoveOn(data, pos, h, pos', inHead, bytes');
        case End =>
          LeadsHeader(track, h, data[pos..], p);
          done, ended := true, true;
        case Then(_, _) =>
          if !inHead { pos' := pos + p.len; }
          done, pos' := FollowHeader(data, pos, h, pos', p);
          inHead', bytes' := false, |data| - pos';
      }
    }

    method FollowHeader(data: seq<Byte>, ghost start: nat, ghost h: seq<Byte>, pos: nat, p: Parsed)
      returns (done: bool, pos': nat)
      requires start <= pos <= |data| && headBuf.Length == HEAD_SIZE
      requires Parse(track, h) == Need && Parse(track, h + data[start..]) == p && p.Complete? && p.action.Then?
      requires pos == start + p.len - |h|
      modifies this`state, this`stateBytes, this`output
      ensures pos <= pos' <= |data| && old(output) <= output
      ensures done ==> Valid() && Leads(track, Header(h), data[start..], output[old(|output|)..], View(), [])
      ensures !done ==> Leads(track, Header(h), data[start..], output[old(|output|)..], Header([]), data[pos'..])
    {
      LeadsHeader(track, h, data[start..], p);
      OneKind(track, h + data[start..]);
      assert data[start..][p.len - |h|..] == data[pos..];
      var payload, skip := p.action.payload, p.action.skip;
      done, pos' := Follow(data, pos, payload, skip);
      ghost var out := output[old(|output|)..];
      assert [] + out == out;
      if done {
        LeadsOn(track, Header(h), data[start..], [], Between(payload, skip), data[pos..], out, View(), []);
      } else {
        LeadsOn(track, Header(h), data[start..], [], Between(payload, skip), data[pos..],
                out, Header([]), data[pos'..]);
      }
    }

    // What is left of the payload or other data at the start of a call.
    method Resume(data: seq<Byte>) returns (done: bool, pos: nat, inHead: bool, bytes: nat)
      requires Valid()
      modifies this`stateBytes, this`output
      ensures old(output) <= output
      ensures done ==> Valid() && Leads(track, old(View()), data, output[old(|output|)..], View(), [])
      ensures !done ==>
        && Cursor(data, pos, inHead, bytes) && (inHead ==> Parse(track, headBuf[..bytes]) == Need)
        && Leads(track, old(View()), data, output[old(|output|)..], Current(inHead, bytes), data[pos..])
    {
      done, pos, inHead := false, 0, false;
      assert data[0..] == data;
      match state {
        case HeaderKind =>
          LeadsNowhere(track, View(), data);
          assert output[old(|output|)..] == [];
          if stateBytes > 0 {
            return false, 0, true, stateBytes;
          }
        case DataKind =>
          if stateBytes > |data| {
            LeadsInto(track, stateBytes, 0, data);
            output := output + data;
            assert output[old(|output|)..] == data;
            stateBytes := stateBytes - |data|;
            return true, 0, false, 0;
          }
          LeadsPast(track, stateBytes, 0, data);
          output := output + data[..stateBytes];
          assert output[old(|output|)..] == data[..stateBytes];
          pos := stateBytes;
        case SkipKind =>
          assert output[old(|output|)..] == [];
          if stateBytes > |data| {
            LeadsInto(track, 0, stateBytes, data);
            stateBytes := stateBytes - |data|;
            return true, 0, false, 0;
          }
          LeadsPast(track, 0, stateBytes, data);
          pos := stateBytes;
      }
      bytes := |data| - pos;
    }

    // demux: what it writes, and what it stores, is what the run writes and
    // where the run stands. It returns 1 at the program end code.
    method Demux(data: seq<Byte>) returns (ended: bool)
      requires Valid()
      modifies this, headBuf
      ensures var (s, out) := Run(track, old(View()), data);
        output == old(output) + out && ended == s.Ended? && (!ended ==> Valid() && s == View())
    {
      ghost var start := View();
      var done, pos, inHead, bytes := Resume(data);
      ended := false;
      while !done
        invariant old(output) <= output
        invariant !done ==>
          !ended && Cursor(data, pos, inHead, bytes) && (inHead ==> Parse(track, headBuf[..bytes]) == Need)
        invariant !done ==> Leads(track, start, data, output[old(|output|)..], Current(inHead, bytes), data[pos..])
        invariant done && !ended ==> Valid() && Leads(track, start, data, output[old(|output|)..], View(), [])
        invariant done && ended ==> Leads(track, start, data, output[old(|output|)..], Ended, [])
        decreases !done, |data| - pos
      {
        ghost var s, rest, written := Current(inHead, bytes), data[pos..], output;
        done, ended, pos, inHead, bytes := OneHeader(data, pos, inHead, bytes);
        assert output[old(|output|)..] == written[old(|output|)..] + output[|written|..];
        if done {
          LeadsOn(track, start, data, written[old(|output|)..], s, rest, output[|written|..],
                  if ended then Ended else View(), []);
        } else {
          LeadsOn(track, start, data, written[old(|output|)..], s, rest, output[|written|..],
                  Current(inHead, bytes), data[pos..]);
        }
      }
      assert output == old(output) + output[old(|output|)..];
      assert output[old(|output|)..] + [] == output[old(|output|)..];
    }

    // ps_loop over the pieces in which a file is read.
    method PsLoop(buffers: seq<seq<Byte>>)
      requires Valid()
      modifies this, headBuf
      ensures output == old(output) + Run(track, old(View()), Concat(buffers)).1
    {
      ghost var start := View();
      SplitInvariance(track, start, buffers);
      assert buffers[0..] == buffers;
      ghost var written: seq<Byte> := [];
      var i := 0;
      assert written + RunAll(track, start, buffers).1 == RunAll(track, start, buffers).1;
      while i < |buffers|
        invariant i <= |buffers| && Valid() && output == old(output) + written
        invariant RunAll(track, start, buffers).1 == written + RunAll(track, View(), buffers[i..]).1
      {
        assert buffers[i..][0] == buffers[i] && buffers[i..][1..] == buffers[i + 1..];
        ghost var (s, out) := Run(track, View(), buffers[i]);
        var ended := Demux(buffers[i]);
        ghost var more := RunAll(track, s, buffers[i + 1..]).1;
        assert written + (out + more) == (written + out) + more;
        assert output == old(output) + (written + out);
        if ended {
          AllEnded(track, buffers[i + 1..]);
          return;
        }
        written := written + out;
        i := i + 1;
      }
    }
  }
}
