// Picture tags: mpeg2_tag_picture and the bytes_since_tag counter of
// libmpeg2/decode.c, and the part of mpeg2_header_picture in libmpeg2/header.c
// that gives a tag to a picture.
module Tags {
  import opened Wrappers

  // A tag, and how many bytes of the stream had been consumed when it was set.
  datatype Tagged = Tagged(tag: int, at: nat)

  // How many of the tags were set at or before a position.
  function SetBy(tags: seq<Tagged>, position: int): (n: nat)
    ensures n <= |tags|
  {
    if tags == [] then 0
    else if tags[|tags| - 1].at <= position then |tags|
    else SetBy(tags[..|tags| - 1], position)
  }

  lemma {:induction false} SetByIsLatest(tags: seq<Tagged>, position: int, n: nat)
    requires n <= |tags| && (n > 0 ==> tags[n - 1].at <= position)
    requires forall k :: n <= k < |tags| ==> tags[k].at > position
    ensures SetBy(tags, position) == n
  {
    if n < |tags| {
      SetByIsLatest(tags[..|tags| - 1], position, n);
    }
  }

  lemma LastIsLater(tags: seq<Tagged>, position: int)
    requires tags != [] && tags[|tags| - 1].at > position
    ensures SetBy(tags, position) < |tags|
  {
  }

  // The tags whose positions follow one another.
  predicate InOrder(tags: seq<Tagged>, now: nat)
  {
    && (forall k :: 0 <= k < |tags| ==> tags[k].at <= now)
    && (forall k, l :: 0 <= k < l < |tags| ==> tags[k].at <= tags[l].at)
  }

  class Tagger {
    var tagCurrent: int
    var tagPrevious: int
    var numTags: nat
    var bytesSinceTag: int
    // Bytes consumed, all the tags set, and how many of them have been given
    // to a picture or passed over for a later one.
    ghost var now: nat
    ghost var tags: seq<Tagged>
    ghost var used: nat

    ghost predicate Valid()
      reads this
    {
      && InOrder(tags, now) && used + numTags == |tags|
      && (numTags >= 1 ==> tagCurrent == tags[|tags| - 1].tag && bytesSinceTag == now - tags[|tags| - 1].at)
      && (numTags >= 2 ==> tagPrevious == tags[|tags| - 2].tag)
    }

    // mpeg2_reset
    constructor ()
      ensures Valid() && now == 0 && tags == [] && used == 0
    {
      tagCurrent, tagPrevious, numTags, bytesSinceTag := 0, 0, 0, 0;
      now, tags, used := 0, [], 0;
    }

    // Bytes of a buffer are consumed, however many at a time.
    method Consume(n: nat)
      requires Valid()
      modifies this`bytesSinceTag, this`now
      ensures Valid() && now == old(now) + n
    {
      bytesSinceTag := bytesSinceTag + n;
      now := now + n;
    }

    // mpeg2_tag_picture
    method TagPicture(tag: int)
      requires Valid()
      modifies this
      ensures Valid() && tags == old(tags) + [Tagged(tag, now)] && now == old(now) && used == old(used)
    {
      tagPrevious := tagCurrent;
      tagCurrent := tag;
      numTags := numTags + 1;
      bytesSinceTag := 0;
      tags := tags + [Tagged(tag, now)];
    }

    // At most one tag, of those after the first before, was set after a position.
    ghost predicate OneAfter(position: int, before: nat)
      reads this`tags
    {
      |tags| >= before + 2 ==> tags[|tags| - 2].at <= position
    }

    // A picture header whose chunk, with the code after it, has size bytes: its
    // start code came four bytes before. The picture gets the latest tag set by
    // then, if that is still left, and the tags up to it are used up. That is
    // so exactly when at most one tag was set since the start code; otherwise
    // it gets one that came too late.
    method HeaderPicture(size: nat) returns (tag: Option<int>)
      requires Valid() && size + 4 <= now
      modifies this`numTags, this`used
      ensures Valid()
      ensures var start := now - (size + 4); var n := SetBy(tags, start);
        if OneAfter(start, old(used)) then
          if n > old(used) then tag == Some(tags[n - 1].tag) && used == n else tag == None && used == old(used)
        else |tags| >= 2 && tag == Some(tags[|tags| - 2].tag) && tags[|tags| - 2].at > start
      ensures if tag.Some? then old(used) < used && tag.value == tags[used - 1].tag else used == old(used)
    {
      hide SetBy;
      ghost var start := now - (size + 4);
      tag := None;
      if numTags > 0 {
        if bytesSinceTag >= size + 4 {
          SetByIsLatest(tags, start, |tags|);
          numTags := 0;
          tag := Some(tagCurrent);
          used := |tags|;
        } else if numTags > 1 {
          if tags[|tags| - 2].at <= start { SetByIsLatest(tags, start, |tags| - 1); }
          numTags := 1;
          tag := Some(tagPrevious);
          used := |tags| - 1;
        } else {
          LastIsLater(tags, start);
        }
      }
    }

    // Any course of events. The tags that pictures get, in the order of the
    // pictures, are tags that were set, in the order in which they were: none
    // reaches two pictures.
    method Run(ops: seq<Op>) returns (given: seq<int>, ghost from: seq<nat>)
      requires Valid() && Sized(ops, now) && used == 0
      modifies this
      ensures Valid() && |given| == |from| && Increasing(from)
      ensures forall k :: 0 <= k < |from| ==> from[k] < |tags| && given[k] == tags[from[k]].tag
    {
      given, from := [], [];
      assert ops[0..] == ops;
      for i := 0 to |ops|
        invariant Valid() && Sized(ops[i..], now) && |given| == |from| && Increasing(from)
        invariant forall k :: 0 <= k < |from| ==> from[k] < used && given[k] == tags[from[k]].tag
      {
        assert ops[i..][0] == ops[i] && ops[i..][1..] == ops[i + 1..];
        match ops[i] {
          case Bytes(n) => Consume(n);
          case Tag(tag) => TagPicture(tag);
          case Header(size) =>
            var tag := HeaderPicture(size);
            if tag.Some? { given, from := given + [tag.value], from + [used - 1]; }
        }
      }
    }
  }

  // What happens to the decoder: bytes are consumed, the application sets a
  // tag, or a picture header has been read.
  datatype Op = Bytes(n: nat) | Tag(tag: int) | Header(size: nat)

  // A header and the start codes around it are bytes that have been consumed.
  predicate Sized(ops: seq<Op>, now: nat)
  {
    ops == [] ||
    match ops[0]
    case Bytes(n) => Sized(ops[1..], now + n)
    case Tag(_) => Sized(ops[1..], now)
    case Header(size) => size + 4 <= now && Sized(ops[1..], now)
  }

  // Two tags after a start code: the picture gets the first of them, although
  // none was set before its start code.
  method LateTag() returns (t: Tagger, tag: Option<int>)
    ensures t.Valid() && SetBy(t.tags, t.now - 12) == 0 && tag == Some(1)
  {
    hide SetBy, InOrder;
    t := new Tagger();
    t.Consume(4);
    t.TagPicture(1);
    t.TagPicture(2);
    t.Consume(8);
    assert t.tags == [Tagged(1, 4), Tagged(2, 4)];
    assert !t.OneAfter(0, 0);
    tag := t.HeaderPicture(8);
    SetByIsLatest(t.tags, 0, 0);
  }

  predicate Increasing(s: seq<nat>)
  {
    forall k, l :: 0 <= k < l < |s| ==> s[k] < s[l]
  }
}
