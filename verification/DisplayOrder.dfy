// The order in which decoded frames are shown (section 6.1.1.11 of ISO/IEC
// 13818-2): a B frame at once, a reference frame when the next one is decoded
// or at the end of the sequence.
module DisplayOrder {
  import opened Wrappers

  datatype Coding = I | P | B | D

  // A picture header: id tells pictures apart, nbFields is 1 for a field.
  datatype Pic = Pic(coding: Coding, nbFields: nat, id: int)

  // A coded frame: one frame picture, or the two field pictures of a frame.
  datatype Frame = Frame(first: Pic, second: Option<Pic>)

  predicate IsB(f: Frame)
  {
    f.first.coding == B
  }

  // The latest reference frame.
  function Newest(frames: seq<Frame>): Option<Frame>
  {
    if frames == [] then None
    else
      var (before, f) := (frames[..|frames| - 1], frames[|frames| - 1]);
      if IsB(f) then Newest(before) else Some(f)
  }

  // The reference frame before the latest one.
  function Older(frames: seq<Frame>): Option<Frame>
  {
    if frames == [] then None
    else
      var (before, f) := (frames[..|frames| - 1], frames[|frames| - 1]);
      if IsB(f) then Older(before) else Newest(before)
  }

  function AsSeq<T>(o: Option<T>): seq<T>
  {
    if o.Some? then [o.value] else []
  }

  // What has been shown when frames have been decoded.
  function Shown(frames: seq<Frame>): seq<Frame>
  {
    if frames == [] then []
    else
      var (before, f) := (frames[..|frames| - 1], frames[|frames| - 1]);
      Shown(before) + if IsB(f) then [f] else AsSeq(Newest(before))
  }

  // What has been shown after the end of the sequence.
  function ShownAtEnd(frames: seq<Frame>): seq<Frame>
  {
    Shown(frames) + AsSeq(Newest(frames))
  }

  lemma LastOf(frames: seq<Frame>, f: Frame)
    ensures Newest(frames + [f]) == if IsB(f) then Newest(frames) else Some(f)
    ensures Older(frames + [f]) == if IsB(f) then Older(frames) else Newest(frames)
    ensures Shown(frames + [f]) == Shown(frames) + if IsB(f) then [f] else AsSeq(Newest(frames))
  {
    assert (frames + [f])[..|frames|] == frames;
  }

  // ---- Every frame is shown exactly once ----

  lemma {:induction false} ShownOnce(frames: seq<Frame>)
    ensures multiset(ShownAtEnd(frames)) == multiset(frames)
  {
    if frames != [] {
      var (before, f) := (frames[..|frames| - 1], frames[|frames| - 1]);
      ShownOnce(before);
      assert frames == before + [f];
    }
  }

  // ---- Coded order and display order ----

  // How many B frames stand at the front of display order.
  function Lead(display: seq<Frame>): (n: nat)
    ensures n <= |display| && (n < |display| ==> !IsB(display[n]))
    ensures forall k :: 0 <= k < n ==> IsB(display[k])
  {
    if display == [] || !IsB(display[0]) then 0 else 1 + Lead(display[1..])
  }

  // The order of the bitstream: a reference frame comes before the B frames
  // that are shown before it.
  function CodedOrder(display: seq<Frame>): seq<Frame>
  {
    var n := Lead(display);
    if n == |display| then display
    else [display[n]] + display[..n] + CodedOrder(display[n + 1..])
  }

  lemma {:induction false} BFramesShownAtOnce(frames: seq<Frame>, bs: seq<Frame>)
    requires forall k :: 0 <= k < |bs| ==> IsB(bs[k])
    ensures Shown(frames + bs) == Shown(frames) + bs && Newest(frames + bs) == Newest(frames)
  {
    if bs == [] {
      assert frames + bs == frames;
    } else {
      var (init, b) := (bs[..|bs| - 1], bs[|bs| - 1]);
      BFramesShownAtOnce(frames, init);
      assert frames + bs == (frames + init) + [b];
      LastOf(frames + init, b);
      assert bs == init + [b];
    }
  }

  lemma Regroup(a: seq<Frame>, b: seq<Frame>, c: seq<Frame>)
    ensures a + (b + c) == (a + b) + c
  {
  }

  // A reference frame followed by B frames.
  lemma GroupShown(frames: seq<Frame>, r: Frame, bs: seq<Frame>)
    requires !IsB(r) && forall k :: 0 <= k < |bs| ==> IsB(bs[k])
    ensures ShownAtEnd(frames + ([r] + bs)) == ShownAtEnd(frames) + (bs + [r])
  {
    LastOf(frames, r);
    BFramesShownAtOnce(frames + [r], bs);
    Regroup(frames, [r], bs);
    Regroup(ShownAtEnd(frames), bs, [r]);
  }

  lemma SplitAt(display: seq<Frame>, n: nat)
    requires n < |display|
    ensures display == (display[..n] + [display[n]]) + display[n + 1..]
  {
  }

  // Display order that ends in a reference frame, coded after other frames
  // and decoded, comes out in display order.
  lemma {:induction false} CodedOrderShown(frames: seq<Frame>, display: seq<Frame>)
    requires display != [] ==> !IsB(display[|display| - 1])
    ensures ShownAtEnd(frames + CodedOrder(display)) == ShownAtEnd(frames) + display
    decreases |display|
  {
    var n := Lead(display);
    if n == |display| {
      assert display == [];
      assert frames + [] == frames;
    } else {
      var (bs, r, rest) := (display[..n], display[n], display[n + 1..]);
      GroupShown(frames, r, bs);
      CodedOrderShown(frames + ([r] + bs), rest);
      Regroup(frames, [r] + bs, CodedOrder(rest));
      Regroup(ShownAtEnd(frames), bs + [r], rest);
      SplitAt(display, n);
    }
  }

  // Decoding undoes the reordering that the encoder did.
  lemma Reordering(display: seq<Frame>)
    requires display != [] ==> !IsB(display[|display| - 1])
    ensures ShownAtEnd(CodedOrder(display)) == display
  {
    CodedOrderShown([], display);
    assert [] + CodedOrder(display) == CodedOrder(display);
  }

  // Reordering loses no frame and adds none.
  lemma CodedOrderKeeps(display: seq<Frame>)
    requires display != [] ==> !IsB(display[|display| - 1])
    ensures multiset(CodedOrder(display)) == multiset(display)
  {
    Reordering(display);
    ShownOnce(CodedOrder(display));
  }

  lemma {:induction false} NoNewest(frames: seq<Frame>)
    ensures Newest(frames) == None <==> forall f <- frames :: IsB(f)
  {
    if frames != [] {
      var (before, f) := (frames[..|frames| - 1], frames[|frames| - 1]);
      NoNewest(before);
      assert frames == before + [f];
    }
  }

  lemma SameElements(a: seq<Frame>, b: seq<Frame>)
    requires multiset(a) == multiset(b)
    ensures forall f :: f in a <==> f in b
  {
    forall f
      ensures f in a <==> f in b
    {
      assert f in a <==> f in multiset(a);
      assert f in b <==> f in multiset(b);
    }
  }
}
