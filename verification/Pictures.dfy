// Picture and frame-buffer management of libmpeg2/header.c: the rotation over
// three frame buffers, the pair of picture slots, and the two buffers that
// take the place of the rotation when frames are converted.
module Pictures {
  import opened Wrappers
  import opened DisplayOrder
  import opened Parser

  // Where a frame is decoded to or predicted from: a frame buffer of the
  // rotation, or one of the decoder's own buffers on the conversion path.
  datatype Store = Fbuf(i: nat) | Yuv(i: nat)

  // The pointers of mpeg2_info_t; pictures are numbers of slots.
  datatype Info = Info(
    currentPicture: Option<nat>, currentPicture2nd: Option<nat>,
    displayPicture: Option<nat>, displayPicture2nd: Option<nat>,
    currentFbuf: Option<nat>, displayFbuf: Option<nat>, discardFbuf: Option<nat>)

  const NO_INFO := Info(None, None, None, None, None, None, None)

  predicate Distinct(fbuf: seq<Option<nat>>)
  {
    && |fbuf| == 3 && (forall k :: 0 <= k < 3 ==> fbuf[k].Some? && fbuf[k].value < 3)
    && fbuf[0] != fbuf[1] && fbuf[0] != fbuf[2] && fbuf[1] != fbuf[2]
  }

  class PictureManager {
    const lowDelay: bool
    const convert: bool
    var codingType: Coding
    var secondField: bool
    var state: State
    var newPicture: Pic
    var picture: nat
    var pictures: seq<Pic>
    var fbuf: seq<Option<nat>>
    var first: bool
    var info: Info
    var yuvIndex: nat

    // Frames decoded and shown; the frame in progress; what has been decoded
    // into each buffer.
    ghost var done: seq<Frame>
    ghost var shown: seq<Frame>
    ghost var current: Frame
    ghost var held: seq<Option<Frame>>
    ghost var yuv: seq<Option<Frame>>

    ghost predicate InRange()
      reads this`picture, this`pictures, this`fbuf, this`held
    {
      picture < 4 && |pictures| == 4 && Distinct(fbuf) && |held| == 3
    }

    // The latest two reference frames are r and s, on the conversion path.
    ghost predicate YuvHold(r: Option<Frame>, s: Option<Frame>)
      reads this`yuvIndex, this`yuv
    {
      yuvIndex < 2 && |yuv| == 3 && yuv[yuvIndex] == r && yuv[1 - yuvIndex] == s
    }

    // Slots s and s + 1 hold the headers of frame f.
    ghost predicate SlotsHold(s: nat, f: Option<Frame>)
      requires |pictures| == 4 && s <= 2
      reads this`pictures
    {
      f.Some? ==>
        && pictures[s] == f.value.first
        && (pictures[s].nbFields == 1 ==> f.value.second == Some(pictures[s + 1]))
        && (pictures[s].nbFields != 1 ==> f.value.second == None)
    }

    ghost function HeldBy(b: Option<nat>): Option<Frame>
      reads this`held
    {
      if b.Some? && b.value < |held| then held[b.value] else None
    }

    // What the application has been shown so far.
    ghost function Due(): seq<Frame>
      reads this`done
    {
      if lowDelay then done else Shown(done)
    }

    // Between two frames. The newest reference frame is where the last picture
    // is unless that is a B picture.
    ghost predicate Valid()
      reads this
    {
      var b := if codingType == B then 1 else 0;
      && InRange() && state != Slice1st
      && (!lowDelay ==> first == (Newest(done) == None))
      && (convert ==> YuvHold(Newest(done), Older(done)))
      && HeldBy(fbuf[b]) == Newest(done) && HeldBy(fbuf[b + 1]) == Older(done)
      && SlotsHold(if (picture < 2) != (b == 1) then 0 else 2, Newest(done))
      && shown == Due()
      && (done != [] && !lowDelay && !convert ==> info.discardFbuf == fbuf[if b == 1 then 0 else 2])
    }

    // The first of the pair of slots that the current frame uses.
    function Base(): nat
      reads this`picture
    {
      if picture < 2 then 0 else 2
    }

    // A picture of the current frame is finalized: the frame has a buffer of
    // its own, and the reference frames are where prediction expects them.
    ghost predicate Opened()
      reads this`picture, this`pictures, this`fbuf, this`held, this`first, this`done, this`current, this`shown
      reads this`codingType
    {
      && Ongoing() && picture == Base() + (if current.second.Some? then 1 else 0)
      && HeldBy(fbuf[1]) == Newest(done) && HeldBy(fbuf[2]) == Older(done)
      && SlotsHold(2 - Base(), Newest(done))
      && pictures[Base()] == current.first && (current.second.Some? ==> pictures[picture] == current.second.value)
      && (codingType == B) == IsB(current)
      && (current.second.Some? ==> current.first.nbFields == 1)
    }

    ghost predicate Ongoing()
      reads this`picture, this`pictures, this`fbuf, this`held, this`first, this`done, this`current, this`shown
    {
      && InRange()
      && (!lowDelay ==> first == (Newest(done) == None && IsB(current)))
      && shown == Due()
    }

    // What the conversion path holds while the frame is decoded.
    ghost predicate YuvReady()
      reads this`yuvIndex, this`yuv, this`done, this`current
    {
      convert ==>
        yuvIndex < 2 && |yuv| == 3 && yuv[yuvIndex] == Newest(done) &&
        (IsB(current) ==> yuv[1 - yuvIndex] == Older(done))
    }

    // What to show when the current frame is complete.
    ghost predicate Planned()
      requires InRange()
      reads this`picture, this`pictures, this`fbuf, this`held, this`info, this`current, this`done
    {
      if lowDelay || IsB(current) then
        && info.displayPicture == Some(Base()) && info.displayFbuf == fbuf[0]
        && info.displayPicture2nd == if current.second.Some? then Some(picture) else None
      else if Newest(done) == None then
        info.displayPicture == None && info.displayPicture2nd == None && info.displayFbuf == None
      else
        && info.displayPicture == Some(2 - Base()) && info.displayFbuf == fbuf[1]
        && info.displayPicture2nd == if pictures[2 - Base()].nbFields == 1 then Some(3 - Base()) else None
    }

    constructor (lowDelay: bool, convert: bool)
      ensures Valid() && done == [] && shown == [] && this.lowDelay == lowDelay && this.convert == convert
    {
      this.lowDelay, this.convert := lowDelay, convert;
      codingType, secondField, state := I, false, Invalid;
      newPicture := Pic(I, 2, 0);
      current := Frame(Pic(I, 2, 0), None);
      picture, pictures := 0, [Pic(I, 2, 0), Pic(I, 2, 0), Pic(I, 2, 0), Pic(I, 2, 0)];
      fbuf := [Some(0), Some(1), Some(2)];
      first, info, yuvIndex := true, NO_INFO, 0;
      done, shown := [], [];
      held, yuv := [None, None, None], [None, None, None];
    }

    // mpeg2_header_picture, as far as the state goes
    method HeaderPicture(header: Pic)
      modifies this`state, this`newPicture
      ensures newPicture == header
      ensures state == if old(state) != Slice1st then Picture else Picture2nd
    {
      state := if state != Slice1st then Picture else Picture2nd;
      newPicture := header;
    }

    // mpeg2_set_fbuf: the buffer that is neither of the reference frames.
    method SetFbuf(bType: bool)
      requires |fbuf| == 3 && fbuf[1].Some? && fbuf[2].Some? && fbuf[1] != fbuf[2]
      requires fbuf[1].value < 3 && fbuf[2].value < 3
      modifies this`fbuf, this`info
      ensures Distinct(fbuf) && fbuf[1] == old(fbuf[1]) && fbuf[2] == old(fbuf[2])
      ensures info == old(info).(
        currentFbuf := fbuf[0],
        displayFbuf := if bType || lowDelay then fbuf[0] else old(info.displayFbuf),
        discardFbuf := if bType || (lowDelay && convert) then fbuf[0] else old(info.discardFbuf))
    {
      var i := 0;
      while i < 3
        invariant 0 <= i <= 2 && fbuf == old(fbuf) && info == old(info)
        invariant i >= 1 ==> fbuf[1] == Some(0) || fbuf[2] == Some(0)
        invariant i >= 2 ==> fbuf[1] == Some(1) || fbuf[2] == Some(1)
      {
        if fbuf[1] != Some(i) && fbuf[2] != Some(i) {
          fbuf := fbuf[0 := Some(i)];
          info := info.(currentFbuf := fbuf[0]);
          if bType || lowDelay {
            if bType || convert {
              info := info.(discardFbuf := fbuf[0]);
            }
            info := info.(displayFbuf := fbuf[0]);
          }
          return;
        }
        i := i + 1;
      }
    }

    // The slot and the references of the current frame are in place; the buffer
    // is not chosen yet.
    ghost predicate Taken(other: nat)
      reads this`picture, this`pictures, this`fbuf, this`held, this`first, this`done, this`current, this`shown
      reads this`codingType
      reads this`yuvIndex, this`yuv
    {
      && (convert ==> YuvHold(Newest(done), Older(done)))
      && picture + other == 2 && picture != 1 && |pictures| == 4 && pictures[picture] == current.first && |held| == 3
      && SlotsHold(other, Newest(done)) && current.second == None && (codingType == B) == IsB(current)
      && |fbuf| == 3 && fbuf[1].Some? && fbuf[2].Some? && fbuf[1] != fbuf[2] && fbuf[1].value < 3 && fbuf[2].value < 3
      && HeldBy(fbuf[1]) == Newest(done) && HeldBy(fbuf[2]) == Older(done)
      && (!lowDelay ==> first == (Newest(done) == None)) && shown == Due()
    }

    // mpeg2_header_picture_finalize on a picture that opens a frame, first part:
    // the slot that does not hold the newest reference frame is taken, and the
    // buffers are rotated after a reference frame.
    method Rotate() returns (other: nat)
      requires Valid()
      modifies this`picture, this`pictures, this`fbuf, this`codingType, this`secondField, this`current
      ensures Taken(other) && current == Frame(newPicture, None) && !secondField
      ensures var discarded := info.discardFbuf; done != [] && !lowDelay && !convert ==>
        discarded.Some? && discarded.value < 3 && discarded != fbuf[1] && discarded != fbuf[2]
    {
      var oldTypeB := codingType == B;
      other := NextSlot(oldTypeB);
      codingType := newPicture.coding;
      secondField := false;
      current := Frame(newPicture, None);
      if !oldTypeB {
        fbuf := fbuf[2 := fbuf[1]];
        fbuf := fbuf[1 := fbuf[0]];
      }
      fbuf := fbuf[0 := None];
    }

    // The slot for the next frame, and the one before it.
    method NextSlot(oldTypeB: bool) returns (other: nat)
      requires |pictures| == 4
      modifies this`picture, this`pictures
      ensures picture + other == 2 && other == (if oldTypeB != old(picture < 2) then 0 else 2)
      ensures pictures == old(pictures)[picture := newPicture]
    {
      var pic;
      pic, other := 0, 0;
      if oldTypeB != (picture < 2) { pic := 2; } else { other := 2; }
      picture := pic;
      pictures := pictures[pic := newPicture];
    }

    // The second part: what to show when the frame is complete, and what will
    // not be needed any more.
    method Plan(other: nat)
      requires |fbuf| == 3 && |pictures| == 4 && other <= 2
      modifies this`first, this`info
      ensures first == (old(first) && (codingType == B || lowDelay))
      ensures info == NO_INFO.(
        currentPicture := Some(picture),
        displayPicture :=
          if codingType == B || lowDelay then Some(picture) else if old(first) then None else Some(other),
        displayPicture2nd :=
          if codingType != B && !lowDelay && !old(first) && pictures[other].nbFields == 1 then Some(other + 1)
          else None,
        displayFbuf := if codingType != B && !lowDelay && !old(first) then fbuf[1] else None,
        discardFbuf :=
          if codingType == B || (lowDelay && convert) then None else fbuf[if lowDelay || convert then 1 else 2])
    {
      info := NO_INFO.(currentPicture := Some(picture), displayPicture := Some(picture));
      if codingType != B {
        if !lowDelay {
          if first {
            info := info.(displayPicture := None);
            first := false;
          } else {
            info := info.(displayPicture := Some(other));
            if pictures[other].nbFields == 1 {
              info := info.(displayPicture2nd := Some(other + 1));
            }
            info := info.(displayFbuf := fbuf[1]);
          }
        }
        var n := (if lowDelay then 0 else 1) + if convert then 0 else 1;
        if n != 0 {
          info := info.(discardFbuf := fbuf[n]);
        }
      }
    }

    // mpeg2_header_picture_finalize on a picture that opens a frame. The
    // buffer that is taken is the one that was given up last.
    method FinalizeFirst()
      requires Valid() && state == Picture
      modifies this`codingType, this`secondField, this`picture, this`pictures, this`fbuf, this`first, this`info
      modifies this`current
      ensures Opened() && Planned() && YuvReady() && current == Frame(newPicture, None) && !secondField
      ensures info.currentPicture == Some(picture) && info.currentPicture2nd == None && info.currentFbuf == fbuf[0]
      ensures !lowDelay && !convert ==> info.discardFbuf == fbuf[if IsB(current) then 0 else 2]
      ensures old(done) != [] && !lowDelay && !convert ==> fbuf[0] == old(info.discardFbuf)
    {
      var other := Rotate();
      Describe(other);
    }

    method Describe(other: nat)
      requires Taken(other)
      modifies this`fbuf, this`first, this`info
      ensures Opened() && Planned() && YuvReady() && fbuf[1] == old(fbuf[1]) && fbuf[2] == old(fbuf[2])
      ensures info.currentPicture == Some(picture) && info.currentPicture2nd == None && info.currentFbuf == fbuf[0]
      ensures !lowDelay && !convert ==> info.discardFbuf == fbuf[if IsB(current) then 0 else 2]
    {
      Plan(other);
      SetFbuf(codingType == B);
    }

    // mpeg2_header_picture_finalize on the second field of a frame
    method FinalizeSecond()
      requires Opened() && Planned() && YuvReady() && state == Picture2nd && current.second == None
      requires current.first.nbFields == 1 && newPicture.nbFields == 1 && (newPicture.coding == B) == IsB(current)
      modifies this`codingType, this`secondField, this`picture, this`pictures, this`info, this`current
      ensures Opened() && Planned() && YuvReady() && current == old(current).(second := Some(newPicture)) && secondField
      ensures info.currentPicture2nd == Some(picture) && info.discardFbuf == old(info.discardFbuf)
    {
      TakeSecond();
      info := info.(currentPicture2nd := Some(picture));
      if lowDelay || codingType == B {
        info := info.(displayPicture2nd := Some(picture));
      }
    }

    // The second field takes the slot after the first.
    method TakeSecond()
      requires Opened() && YuvReady() && current.second == None
      requires current.first.nbFields == 1 && (newPicture.coding == B) == IsB(current)
      modifies this`codingType, this`secondField, this`picture, this`pictures, this`current
      ensures Opened() && YuvReady() && current == old(current).(second := Some(newPicture)) && secondField
      ensures picture == old(picture) + 1 && Base() == old(Base())
      ensures pictures == old(pictures)[picture := newPicture] && (codingType == B) == IsB(current)
    {
      codingType := newPicture.coding;
      secondField := true;
      picture := picture + 1;
      pictures := pictures[picture := newPicture];
      current := current.(second := Some(newPicture));
    }

    // What is in a store.
    ghost function Content(s: Store): Option<Frame>
      reads this`held, this`yuv
    {
      match s
      case Fbuf(i) => HeldBy(Some(i))
      case Yuv(i) => if i < |yuv| then yuv[i] else None
    }

    predicate Complete(f: Frame)
    {
      f.first.nbFields > 1 || f.second.Some?
    }

    // The slices of the last picture of the frame have been decoded.
    ghost predicate Decoded()
      reads this
    {
      && Opened() && Planned() && HeldBy(fbuf[0]) == Some(current)
      && state == (if Complete(current) then Slice else Slice1st)
      && (!Complete(current) ==> YuvReady())
      && (Complete(current) && convert ==> YuvHold(Newest(done + [current]), Older(done + [current])))
    }

    // The current picture is decoded into fbuf[0].
    method Fill()
      requires Opened() && Planned() && current.first.nbFields >= 1
      requires current.second.Some? ==> state == Picture2nd && current.second.value.nbFields == 1
      requires current.second.None? ==> state == Picture
      modifies this`state, this`held
      ensures Opened() && Planned() && HeldBy(fbuf[0]) == Some(current)
      ensures state == (if Complete(current) then Slice else Slice1st)
    {
      state := if pictures[picture].nbFields > 1 || state == Picture2nd then Slice else Slice1st;
      held := held[fbuf[0].value := Some(current)];
    }

    // The two buffers of the conversion path.
    method Convert() returns (dest: Store, forward: Store, backward: Store)
      requires convert && YuvReady() && (codingType == B) == IsB(current)
      requires state == (if Complete(current) then Slice else Slice1st)
      modifies this`yuvIndex, this`yuv
      ensures if Complete(current) then YuvHold(Newest(done + [current]), Older(done + [current])) else YuvReady()
      ensures Content(dest) == Some(current)
      ensures IsB(current) ==> Content(forward) == Older(done) && Content(backward) == Newest(done)
      ensures !IsB(current) ==> Content(forward) == Newest(done)
    {
      LastOf(done, current);
      if codingType == B {
        dest, forward, backward := Yuv(2), Yuv(1 - yuvIndex), Yuv(yuvIndex);
        yuv := yuv[2 := Some(current)];
      } else {
        dest, forward, backward := Yuv(1 - yuvIndex), Yuv(yuvIndex), Yuv(yuvIndex);
        yuv := yuv[1 - yuvIndex := Some(current)];
        if state == Slice {
          yuvIndex := 1 - yuvIndex;
        }
      }
    }

    // mpeg2_header_slice_start: the buffer that the picture is decoded into and
    // the two that it is predicted from. Decoding fills the first of them.
    method SliceStart() returns (dest: Store, forward: Store, backward: Store)
      requires Opened() && Planned() && YuvReady() && current.first.nbFields >= 1
      requires current.second.Some? ==> state == Picture2nd && current.second.value.nbFields == 1
      requires current.second.None? ==> state == Picture
      modifies this`state, this`yuvIndex, this`held, this`yuv
      ensures Decoded() && Content(dest) == Some(current)
      ensures IsB(current) ==> Content(forward) == Older(done) && Content(backward) == Newest(done)
      ensures !IsB(current) ==> Content(forward) == Newest(done)
    {
      Fill();
      if convert {
        dest, forward, backward := Convert();
      } else {
        var b := if codingType == B then 1 else 0;
        dest, forward, backward := Fbuf(fbuf[0].value), Fbuf(fbuf[b + 1].value), Fbuf(fbuf[b].value);
      }
    }

    // The frame that display_picture and display_picture_2nd describe.
    ghost function Described(): Frame
      requires |pictures| == 4 && info.displayPicture.Some? && info.displayPicture.value < 4
      requires info.displayPicture2nd.Some? ==> info.displayPicture2nd.value < 4
      reads this
    {
      Frame(pictures[info.displayPicture.value],
            if info.displayPicture2nd.Some? then Some(pictures[info.displayPicture2nd.value]) else None)
    }

    // The application at STATE_SLICE and STATE_END: display_fbuf is shown,
    // under the description that display_picture gives.
    method Show()
      requires |pictures| == 4
      requires info.displayFbuf.Some? ==> info.displayPicture.Some? && info.displayPicture.value < 4
      requires info.displayPicture2nd.Some? ==> info.displayPicture2nd.value < 4
      requires info.displayFbuf.Some? ==> HeldBy(info.displayFbuf) == Some(Described())
      modifies this`shown
      ensures shown == old(shown) + if info.displayFbuf.Some? then [Described()] else []
    {
      shown := shown + if info.displayFbuf.Some? then [Described()] else [];
    }

    // The description and the buffer are of the same frame, and that is the one
    // whose turn it is.
    lemma ShowsPlanned()
      requires Decoded() && Complete(current)
      requires current.first.nbFields != 1 ==> current.second == None
      ensures info.displayPicture.Some? ==> info.displayPicture.value < 4
      ensures info.displayPicture2nd.Some? ==> info.displayPicture2nd.value < 4
      ensures info.displayFbuf.Some? == (lowDelay || IsB(current) || Newest(done).Some?)
      ensures info.displayFbuf.Some? ==>
        && info.displayPicture.Some? && HeldBy(info.displayFbuf) == Some(Described())
        && Described() == if lowDelay || IsB(current) then current else Newest(done).value
    {
    }

    // A frame whose pictures are all decoded is shown or lets another be shown.
    method Finish()
      requires Decoded() && Complete(current)
      requires current.first.nbFields != 1 ==> current.second == None
      requires !lowDelay && !convert ==> info.discardFbuf == fbuf[if IsB(current) then 0 else 2]
      modifies this`shown, this`done
      ensures Valid() && done == old(done) + [current]
    {
      LastOf(done, current);
      ShowsPlanned();
      ghost var due := Due();
      Show();
      done := done + [current];
      assert shown == Due();
    }

    // The calls for one frame, as the stream has it: a frame picture, or two
    // field pictures of which both or neither are B pictures.
    method DecodeFrame(f: Frame)
      requires Valid() && Coded(f)
      modifies this
      ensures Valid() && done == old(done) + [f]
    {
      DecodeFirst(f.first);
      if f.second.Some? {
        DecodeSecond(f.second.value);
      }
      Finish();
    }

    method DecodeFirst(header: Pic)
      requires Valid() && header.nbFields >= 1
      modifies this
      ensures Decoded() && current == Frame(header, None) && done == old(done)
      ensures !lowDelay && !convert ==> info.discardFbuf == fbuf[if IsB(current) then 0 else 2]
    {
      HeaderPicture(header);
      FinalizeFirst();
      var dest, forward, backward := SliceStart();
    }

    method DecodeSecond(header: Pic)
      requires Decoded() && !Complete(current) && current.first.nbFields == 1
      requires header.nbFields == 1 && (header.coding == B) == IsB(current)
      modifies this
      ensures Decoded() && current == Frame(old(current.first), Some(header)) && done == old(done)
      ensures info.discardFbuf == old(info.discardFbuf) && fbuf == old(fbuf)
    {
      HeaderPicture(header);
      FinalizeSecond();
      var dest, forward, backward := SliceStart();
    }

    // mpeg2_header_end
    method HeaderEnd()
      requires Valid()
      modifies this`info
      ensures info == NO_INFO.(displayPicture := info.displayPicture, displayPicture2nd := info.displayPicture2nd,
        displayFbuf := info.displayFbuf, discardFbuf := info.discardFbuf)
      ensures lowDelay ==> info.displayPicture == None && info.displayPicture2nd == None && info.displayFbuf == None
      ensures !lowDelay ==>
        && info.displayPicture.Some? && info.displayFbuf.Some? && info.displayPicture.value < 4
        && (info.displayPicture2nd.Some? ==> info.displayPicture2nd.value < 4)
        && HeldBy(info.displayFbuf) == Newest(done)
        && (HeldBy(info.displayFbuf).Some? <==> exists f <- done :: !IsB(f))
        && (Newest(done).Some? ==> Described() == Newest(done).value)
      ensures convert ==> info.discardFbuf == None
      ensures !convert ==>
        info.discardFbuf.Some? && HeldBy(info.discardFbuf) == if lowDelay then Newest(done) else Older(done)
    {
      var b := if codingType == B then 1 else 0;
      var pic := 0;
      if (picture >= 2) != (b == 1) { pic := 2; }
      info := NO_INFO;
      if !lowDelay {
        info := info.(displayPicture := Some(pic));
        if pictures[pic].nbFields == 1 { info := info.(displayPicture2nd := Some(pic + 1)); }
        info := info.(displayFbuf := fbuf[b]);
        if !convert { info := info.(discardFbuf := fbuf[b + 1]); }
      } else if !convert {
        info := info.(discardFbuf := fbuf[b]);
      }
      NoNewest(done);
    }

    // A whole sequence, from a reset to its end code.
    method DecodeSequence(frames: seq<Frame>)
      requires Valid() && done == [] && shown == []
      requires forall f <- frames :: Coded(f)
      requires lowDelay || Newest(frames).Some?
      modifies this
      ensures shown == if lowDelay then frames else ShownAtEnd(frames)
    {
      var i := 0;
      while i < |frames|
        invariant i <= |frames| && Valid() && done == frames[..i]
      {
        DecodeFrame(frames[i]);
        i := i + 1;
      }
      assert frames[..i] == frames;
      End();
    }

    // The end code of a sequence that has a reference frame.
    method End()
      requires Valid() && (lowDelay || Newest(done).Some?)
      modifies this`info, this`shown
      ensures shown == if lowDelay then done else ShownAtEnd(done)
    {
      HeaderEnd();
      Show();
    }
  }

  // A sequence that ends before its first picture: the buffer that is shown
  // holds nothing.
  method EmptySequence() returns (p: PictureManager)
    ensures p.info.displayFbuf.Some? && p.HeldBy(p.info.displayFbuf) == None
  {
    p := new PictureManager(false, false);
    p.HeaderEnd();
  }

  // Frames that an error-free stream has.
  predicate Coded(f: Frame)
  {
    && f.first.nbFields >= 1
    && (f.first.nbFields == 1 <==> f.second.Some?)
    && (f.second.Some? ==> f.second.value.nbFields == 1 && (f.second.value.coding == B) == IsB(f))
  }

  // Frames in display order, reordered for the stream by an encoder, are shown
  // in display order by the decoder.
  method ShowSequence(display: seq<Frame>) returns (p: PictureManager)
    requires forall f <- display :: Coded(f)
    requires display != [] && !IsB(display[|display| - 1])
    ensures p.shown == display
  {
    var coded := CodedOrder(display);
    CodedOrderKeeps(display);
    SameElements(coded, display);
    assert display[|display| - 1] in display;
    NoNewest(coded);
    Reordering(display);
    p := new PictureManager(false, false);
    p.DecodeSequence(coded);
  }
}
