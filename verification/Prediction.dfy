// Where motion compensation reads: the macros MOTION_*, MOTION_FIELD_*,
// MOTION_DMV_* and MOTION_ZERO_* of libmpeg2/slice.c for 4:2:0 and 4:2:2, with
// the limits that mpeg2_init_fbuf sets, and the wrap-around of their unsigned
// arithmetic.
module Prediction {
  import opened Words

  // A block that a prediction function reads: rows of cols bytes, the first at
  // address start of the plane and each stride bytes after the one before.
  datatype Read = Read(start: int, stride: int, rows: nat, cols: nat)

  function U32(x: int): (r: nat)
    ensures r < TWO_32
  {
    x % TWO_32
  }

  function Signed32(x: nat): int
    requires x < TWO_32
  {
    if x < TWO_31 then x else x - TWO_32
  }

  // A plane of height lines of width bytes, stride bytes apart.
  datatype Plane = Plane(width: nat, height: nat, stride: nat) {
    // r is the block of rows by cols pixels, step lines apart, at column x2 / 2
    // from line on, with a column more if x2 is odd and a row more if y2 is, and
    // it lies in the plane.
    predicate Holds(r: Read, x2: int, y2: int, line: int, step: nat, rows: nat, cols: nat)
    {
      && r.start == line * stride + x2 / 2
      && r.stride == step * stride
      && r.rows == rows + y2 % 2 && r.cols == cols + x2 % 2
      && 0 <= x2 && x2 / 2 + r.cols <= width
      && 0 <= line && line + (r.rows - 1) * step < height
    }
  }

  function Clamp(x: int, hi: int): (r: int)
    ensures 0 <= hi ==> 0 <= r <= hi && (r == x || (r == 0 && x < 0) || (r == hi && x > hi))
  {
    if x < 0 then 0 else if x > hi then hi else x
  }

  // The state that the macros use. Sizes are those of the frame or the field.
  datatype Decoder = Decoder(offset: int, vOffset: int, width: int, height: int, stride: int, uvStride: int) {
    predicate Valid()
    {
      && 16 <= width <= stride && width % 16 == 0 && 16 <= height && height % 16 == 0
      && 0 <= offset <= width - 16 && offset % 16 == 0 && 0 <= vOffset <= height - 16 && vOffset % 16 == 0
      && stride % 2 == 0 && uvStride == stride / 2
      && width < 0x1000_0000 && height < 0x1000_0000 && stride < 0x1000_0000 && stride * height < TWO_31
    }

    function Luma(): Plane
      requires Valid()
    {
      Plane(width, height, stride)
    }

    // Both chroma planes; their lines are a half of luma's in 4:2:0.
    function Chroma(format420: bool): Plane
      requires Valid()
    {
      Plane(width / 2, if format420 then height / 2 else height, uvStride)
    }
  }

  // ---- mpeg2_init_fbuf ----

  datatype Structure = TopField | BottomField | FramePicture

  datatype Frame = Current | Forward | Backward

  // A frame, or one field of it: where its planes start in those of the frame.
  datatype Ref = Ref(frame: Frame, y: int, uv: int)

  // dest: what is decoded to. forward and backward: the frame in a frame
  // picture, else ref2, the top and the bottom field.
  datatype Setup = Setup(
    dest: Ref, forward: seq<Ref>, backward: seq<Ref>, stride: int, uvStride: int, sliceStride: int, sliceUvStride: int,
    limitX: int, limitY16: int, limitY8: int, limitY: int)

  function Field(frame: Frame, k: nat, stride: nat): Ref
  {
    Ref(frame, k * stride, k * (stride / 2))
  }

  // The fields of a second field picture that is not a B picture: the field of
  // the other parity is the first field of the same frame (section 7.6.2.1 of
  // ISO/IEC 13818-2).
  method InitFbuf(structure: Structure, secondField: bool, bPicture: bool, stride: nat, width: nat, height: nat,
                  format420: bool)
    returns (s: Setup)
    requires stride % 2 == 0 && height % 2 == 0
    ensures s.dest == if structure == BottomField then Ref(Current, stride, stride / 2) else Ref(Current, 0, 0)
    ensures structure == FramePicture ==>
      && s.stride == stride && s.forward == [Field(Forward, 0, stride)] && s.backward == [Field(Backward, 0, stride)]
    ensures structure != FramePicture ==>
      && s.stride == 2 * stride && |s.forward| == |s.backward| == 2
      && forall k :: 0 <= k < 2 ==>
        && s.forward[k]
           == Field(if secondField && !bPicture && k == (if structure == BottomField then 0 else 1) then Current
                    else Forward, k, stride)
        && s.backward[k] == Field(Backward, k, stride)
    ensures var h := if structure == FramePicture then height else height / 2;
      && s.uvStride == s.stride / 2 && s.sliceStride == 16 * s.stride
      && s.sliceUvStride == (if format420 then 8 else 16) * s.uvStride && s.limitX == 2 * width - 32
      && s.limitY16 == 2 * h - 32 && s.limitY8 == 2 * h - 16 && s.limitY == h - 16
  {
    var st: int, h: int := stride, height;
    var bottom := structure == BottomField;
    var offset := if bottom then stride else 0;
    var dest := Ref(Current, offset, offset / 2);
    var f0, b0 := Ref(Forward, offset, offset / 2), Ref(Backward, offset, offset / 2);
    var forward, backward := [f0], [b0];
    if structure != FramePicture {
      offset := stride - offset;
      var f1 := Ref(if secondField && !bPicture then Current else Forward, offset, offset / 2);
      var b1 := Ref(Backward, offset, offset / 2);
      forward := if bottom then [f1, f0] else [f0, f1];
      backward := if bottom then [b1, b0] else [b0, b1];
      st := 2 * st;
      h := h / 2;
    }
    s := Setup(dest, forward, backward, st, st / 2, 16 * st, 16 * st / (if format420 then 4 else 2), 2 * width - 32,
               2 * h - 32, 2 * h - 16, h - 16);
  }

  // A block of field k of a plane, where it is in the plane: on every second
  // line.
  lemma FieldInPlane(p: Plane, k: nat, r: Read, x2: int, y2: int, line: int, step: nat, rows: nat, cols: nat)
    requires k < 2 && p.height % 2 == 0 && rows > 0
    requires Plane(p.width, p.height / 2, 2 * p.stride).Holds(r, x2, y2, line, step, rows, cols)
    ensures p.Holds(r.(start := r.start + k * p.stride), x2, y2, 2 * line + k, 2 * step, rows, cols)
  {
    assert line * (2 * p.stride) + k * p.stride == (2 * line + k) * p.stride;
    assert step * (2 * p.stride) == (2 * step) * p.stride;
    assert (r.rows - 1) * (2 * step) == 2 * ((r.rows - 1) * step);
  }

  lemma FieldPlanes(d: Decoder, frame: Decoder, format420: bool)
    requires d.Valid() && frame.Valid()
    requires d.width == frame.width && 2 * d.height == frame.height && d.stride == 2 * frame.stride
    ensures var (p, q) := (frame.Luma(), frame.Chroma(format420));
      && d.Luma() == Plane(p.width, p.height / 2, 2 * p.stride) && p.height % 2 == 0
      && d.Chroma(format420) == Plane(q.width, q.height / 2, 2 * q.stride) && q.height % 2 == 0
      && q.stride == frame.stride / 2
  {
    SixteenIsEven(d.height);
    SixteenIsEven(frame.height);
  }

  // What a prediction of a field picture reads, in luma and in chroma, lies in
  // the planes of the frame that the field is taken from.
  lemma FieldInFrame(d: Decoder, frame: Decoder, k: nat, format420: bool, luma: Read, chroma: Read,
                     x: int, v: int, line: int, step: nat, rows: nat, cx: int, cv: int, cline: int, crows: nat)
    requires d.Valid() && frame.Valid() && k < 2 && rows > 0 && crows > 0
    requires d.width == frame.width && 2 * d.height == frame.height && d.stride == 2 * frame.stride
    requires d.Luma().Holds(luma, x, v, line, step, rows, 16)
    requires d.Chroma(format420).Holds(chroma, cx, cv, cline, step, crows, 8)
    ensures var f := Field(Forward, k, frame.stride);
      && frame.Luma().Holds(luma.(start := luma.start + f.y), x, v, 2 * line + k, 2 * step, rows, 16)
      && frame.Chroma(format420).Holds(chroma.(start := chroma.start + f.uv), cx, cv, 2 * cline + k, 2 * step, crows, 8)
  {
    FieldPlanes(d, frame, format420);
    FieldInPlane(frame.Luma(), k, luma, x, v, line, step, rows, 16);
    FieldInPlane(frame.Chroma(format420), k, chroma, cx, cv, cline, step, crows, 8);
  }

  // Vectors that leave room for the sums.
  predicate Fits(v: int)
  {
    -0x1000_0000 < v < 0x1000_0000
  }

  // The comparison of unsigned positions against a limit tells both ends: the
  // position is clamped, and the vector is changed to fit.
  method ClampPosition(at: int, motion: int, limit: int) returns (pos: nat, motion': int)
    requires 0 <= at < 0x4000_0000 && 0 <= limit < 0x4000_0000 && Fits(motion)
    ensures pos == Clamp(at + motion, limit) && motion' == pos - at
  {
    pos, motion' := U32(at + motion), motion;
    if pos > limit {
      pos := if Signed32(pos) < 0 then 0 else limit;
      motion' := pos - at;
    }
  }

  // motion / 2, towards zero
  function Half(v: int): int
  {
    if v >= 0 then v / 2 else -(-v / 2)
  }

  lemma HalfBounds(motion: int)
    ensures motion >= 0 ==> 2 * Half(motion) <= motion <= 2 * Half(motion) + 1
    ensures motion < 0 ==> 2 * Half(motion) - 1 <= motion <= 2 * Half(motion)
  {
  }

  lemma EvenPlus(at: int, h: int)
    requires at % 2 == 0
    ensures (at + h) % 2 == h % 2
  {
  }

  // A chroma position in half pixels, for a luma position in half pixels and
  // the clamped vector that led to it.
  lemma ChromaPosition(at: int, motion: int, limit: int)
    requires 0 <= at <= limit && at % 2 == 0 && 0 <= at + at + motion <= 2 * limit
    ensures 0 <= at + Half(motion) <= limit && (at + Half(motion)) % 2 == Half(motion) % 2
  {
    HalfBounds(motion);
    EvenPlus(at, Half(motion));
  }

  // The first half position from which n more pixels, and one more if the
  // position is odd, still end at size.
  lemma EndsInside(x2: int, n: nat, size: nat)
    requires 0 <= x2 <= 2 * size - 2 * n
    ensures x2 / 2 + n + x2 % 2 <= size
  {
  }

  // Addresses below 2^31 are not changed by unsigned arithmetic.
  lemma Address(line: int, col: int, p: Plane)
    requires 0 <= line < p.height && 0 <= col < p.stride && p.stride * p.height < TWO_31
    ensures 0 <= line * p.stride + col < TWO_31 && U32(line * p.stride + col) == line * p.stride + col
  {
    assert line * p.stride <= (p.height - 1) * p.stride;
  }

  // A block at a half-pixel position of a plane.
  lemma BlockHolds(p: Plane, x2: int, y2: int, rows: nat, cols: nat, r: Read)
    requires 0 <= x2 <= 2 * p.width - 2 * cols && 0 <= y2 <= 2 * p.height - 2 * rows && rows > 0
    requires r == Read(y2 / 2 * p.stride + x2 / 2, p.stride, rows + y2 % 2, cols + x2 % 2)
    ensures p.Holds(r, x2, y2, y2 / 2, 1, rows, cols)
  {
    EndsInside(x2, cols, p.width);
    EndsInside(y2, rows, p.height);
  }

  lemma Chroma420Plane(d: Decoder)
    requires d.Valid()
    ensures var p := d.Chroma(true);
      2 * p.width == d.width && 2 * p.height == d.height && p.width <= p.stride && p.stride * p.height < TWO_31
  {
    var p := d.Chroma(true);
    assert p.stride * p.height <= d.stride * p.height;
    assert d.stride * p.height <= d.stride * d.height;
  }

  lemma LineOf(cv: int, n: nat, height: nat)
    requires 0 <= cv <= 2 * height - 2 * n && n > 0
    ensures 0 <= cv / 2 < height
  {
  }

  lemma Chroma420Holds(p: Plane, n: int, half: nat, cx: int, cv: int, hx: int, hy: int, rows: nat, r: Read)
    requires p.width <= p.stride && p.stride * p.height < TWO_31 && rows > 0 && half <= 4
    requires -0x4000_0000 <= n < 0x4000_0000 && cv / 2 == n / 2 + half
    requires 0 <= cx <= 2 * p.width - 16 && 0 <= cv <= 2 * p.height - 2 * rows && cx % 2 == hx % 2 && cv % 2 == hy % 2
    requires r == Read(U32(cx / 2 + U32(U32(U32(n) / 2 + half) * p.stride)), p.stride, rows + hy % 2, 8 + hx % 2)
    ensures p.Holds(r, cx, cv, cv / 2, 1, rows, 8) <==> n >= 0 || p.stride % 2 == 0
  {
    LineOf(cv, rows, p.height);
    LineOf(cx, 8, p.width);
    ChromaAddress(n, half, cx / 2, p);
    if n >= 0 || p.stride % 2 == 0 { BlockHolds(p, cx, cv, rows, 8, r); }
  }

  lemma Chroma420Inside(p: Plane, offset: int, v: int, y: nat, rows: nat, mx: int, my: int, r: Read)
    requires p.width <= p.stride && p.stride * p.height < TWO_31 && rows > 0 && (y == 0 || y == 8)
    requires 0 <= v < 0x1000_0000 && offset % 2 == 0 && v % 2 == 0 && offset >= 0 && p.height < 0x1000_0000
    requires offset <= 2 * p.width - 16 && v + y <= 2 * p.height - 2 * rows
    requires 0 <= 2 * offset + mx <= 2 * (2 * p.width - 16) && 0 <= 2 * (v + y) + my <= 2 * (2 * p.height - 2 * rows)
    requires r == Read(U32((offset + Half(mx)) / 2 + U32(U32(U32(v + Half(my)) / 2 + y / 2) * p.stride)), p.stride,
                       rows + Half(my) % 2, 8 + Half(mx) % 2)
    ensures var (cx, cv) := (offset + Half(mx), v + y + Half(my));
      p.Holds(r, cx, cv, cv / 2, 1, rows, 8) <==> v + Half(my) >= 0 || p.stride % 2 == 0
  {
    hide Half, U32, Plane.Holds;
    EvenPlus(v, y);
    ChromaPosition(offset, mx, 2 * p.width - 16);
    ChromaPosition(v + y, my, 2 * p.height - 2 * rows);
    RowOfHalf(v + Half(my), y);
    Chroma420Holds(p, v + Half(my), y / 2, offset + Half(mx), v + y + Half(my), Half(mx), Half(my), rows, r);
  }

  lemma SixteenIsEven(n: int)
    requires n % 16 == 0
    ensures n % 2 == 0 && n == 2 * (n / 2) && n / 2 % 2 == 0
  {
    DivUnique(n, 2, 8 * (n / 16), 0);
    DivUnique(n / 2, 2, 4 * (n / 16), 0);
  }

  // Where a chroma block is read for a clamped luma vector.
  method Chroma420(d: Decoder, mx: int, my: int, size: nat, y: nat) returns (chroma: Read)
    requires d.Valid() && ((size == 16 && y == 0) || (size == 8 && (y == 0 || y == 8)))
    requires 0 <= 2 * d.offset + mx <= 2 * d.width - 32 && 0 <= 2 * (d.vOffset + y) + my <= 2 * d.height - 2 * size
    ensures var (cx, cv) := (d.offset + Half(mx), d.vOffset + y + Half(my));
      d.Chroma(true).Holds(chroma, cx, cv, cv / 2, 1, size / 2, 8) <==> d.vOffset + Half(my) >= 0 || d.uvStride % 2 == 0
  {
    var motionX, motionY := Half(mx), Half(my);
    var row := U32(U32(d.vOffset + motionY) / 2 + y / 2);
    var rows := size / 2;
    chroma := Read(U32((d.offset + motionX) / 2 + U32(row * d.uvStride)), d.uvStride,
                   rows + motionY % 2, 8 + motionX % 2);
    Chroma420Plane(d);
    SixteenIsEven(d.offset);
    SixteenIsEven(d.vOffset);
    Chroma420Inside(d.Chroma(true), d.offset, d.vOffset, y, rows, mx, my, chroma);
  }

  lemma RowOfHalf(n: int, y: nat)
    requires y == 0 || y == 8
    ensures n / 2 + y / 2 == (n + y) / 2
  {
  }

  // MOTION_420 on a macroblock (size 16, y 0) or on either half of one (size 8,
  // y 0 or 8). The rows and columns that it reads are those of the clamped
  // vector, and of its half for chroma. With an odd chroma stride that is not
  // so for the lower half, where the row is computed from a negative number if
  // the block starts above line 7.5 of the plane.
  method Motion420(d: Decoder, motionX: int, motionY: int, size: nat, y: nat) returns (luma: Read, chroma: Read)
    requires d.Valid() && Fits(motionX) && Fits(motionY)
    requires (size == 16 && y == 0) || (size == 8 && (y == 0 || y == 8))
    ensures var x := Clamp(2 * d.offset + motionX, 2 * d.width - 32);
      var v := Clamp(2 * d.vOffset + 2 * y + motionY, 2 * d.height - 2 * size);
      var (cx, cv) := (d.offset + Half(x - 2 * d.offset), d.vOffset + y + Half(v - 2 * (d.vOffset + y)));
      && d.Luma().Holds(luma, x, v, v / 2, 1, size, 16)
      && (d.Chroma(true).Holds(chroma, cx, cv, cv / 2, 1, size / 2, 8) <==> v >= 2 * y - 1 || d.uvStride % 2 == 0)
  {
    var posX, mx := ClampPosition(2 * d.offset, motionX, 2 * d.width - 32);
    var posY, my := ClampPosition(2 * d.vOffset + 2 * y, motionY, 2 * d.height - 2 * size);
    luma := Read(posX / 2 + posY / 2 * d.stride, d.stride, size + posY % 2, 16 + posX % 2);
    BlockHolds(d.Luma(), posX, posY, size, 16, luma);
    chroma := Chroma420(d, mx, my, size, y);
    HalfBounds(my);
  }

  // The chroma row may be computed from a negative number, which the unsigned
  // shift turns into one with the top bit set. An even stride takes that bit
  // away again; with an odd one the address is 2^31 bytes away.
  lemma ChromaAddress(n: int, half: nat, col: int, p: Plane)
    requires -0x4000_0000 <= n < 0x4000_0000 && half <= 4 && 0 <= n / 2 + half < p.height && 0 <= col < p.stride
    requires p.stride * p.height < TWO_31
    ensures U32(col + U32(U32(U32(n) / 2 + half) * p.stride))
         == (n / 2 + half) * p.stride + col + if n >= 0 || p.stride % 2 == 0 then 0 else TWO_31
  {
    var r := n / 2 + half;
    Address(r, col, p);
    Address(r, 0, p);
    ChromaRow(n, half);
    if n < 0 {
      TopBitTimes(r, p.stride);
    }
  }

  lemma ChromaRow(n: int, half: nat)
    requires -0x4000_0000 <= n < 0x4000_0000 && half <= 4 && 0 <= n / 2 + half
    ensures U32(U32(n) / 2 + half) == n / 2 + half + if n < 0 then TWO_31 else 0
  {
    if n < 0 { TopBit(n); }
  }

  lemma TopBit(n: int)
    requires -0x4000_0000 <= n < 0
    ensures U32(n) / 2 == TWO_31 + n / 2
  {
    assert U32(n) == n + TWO_32;
  }

  lemma TopBitTimes(r: nat, stride: nat)
    requires r * stride < TWO_31
    ensures U32((TWO_31 + r) * stride) == r * stride + if stride % 2 == 0 then 0 else TWO_31
  {
    var (k, rest) := (stride / 2, r * stride + if stride % 2 == 0 then 0 else TWO_31);
    assert (TWO_31 + r) * stride == TWO_32 * k + rest;
    DivUnique((TWO_31 + r) * stride, TWO_32, k, rest);
  }

  // A field of lines of 17 bytes, in a frame whose stride was set to that.
  function OddStride(): Decoder
  {
    Decoder(0, 0, 16, 16, 34, 17)
  }

  // The lower half of a macroblock of it, moved up to the first line: chroma is
  // not read where luma is.
  method OddChroma() returns (luma: Read, chroma: Read)
    ensures var d := OddStride();
      d.Valid() && d.Luma().Holds(luma, 0, 0, 0, 1, 8, 16) && !d.Chroma(true).Holds(chroma, 0, 0, 0, 1, 4, 8)
  {
    luma, chroma := Motion420(OddStride(), 0, -16, 8, 8);
  }

  // ---- Field prediction in frames ----

  // & ~1 and | 1
  function EvenLine(v: int, odd: bool): (line: int)
    ensures line / 2 == v / 2 && line % 2 == if odd then 1 else 0
  {
    v - v % 2 + if odd then 1 else 0
  }

  // A block of one field of a plane, at a half-pixel position of that field.
  lemma FieldHolds(p: Plane, x2: int, y2: int, odd: bool, rows: nat, cols: nat, r: Read)
    requires 0 <= x2 <= 2 * p.width - 2 * cols && 0 <= y2 <= p.height - 2 * rows && p.height % 2 == 0 && rows > 0
    requires r == Read(EvenLine(y2, odd) * p.stride + x2 / 2, 2 * p.stride, rows + y2 % 2, cols + x2 % 2)
    ensures p.Holds(r, x2, y2, EvenLine(y2, odd), 2, rows, cols)
  {
    EndsInside(x2, cols, p.width);
  }

  lemma EvenLineSum(v: int, h: int, odd: bool)
    requires v % 2 == 0
    ensures v + EvenLine(h, odd) == EvenLine(v + h, odd) && (v + h) % 2 == h % 2
  {
    EvenPlus(v, h);
  }

  // The field macros: src_field and op choose the field.
  method FieldLuma(d: Decoder, posX: nat, posY: nat, odd: bool) returns (luma: Read)
    requires d.Valid() && posX <= 2 * d.width - 32 && posY <= d.height - 16
    ensures d.Luma().Holds(luma, posX, posY, EvenLine(posY, odd), 2, 8, 16)
  {
    luma := Read(posX / 2 + EvenLine(posY, odd) * d.stride, 2 * d.stride, 8 + posY % 2, 16 + posX % 2);
    SixteenIsEven(d.height);
    FieldHolds(d.Luma(), posX, posY, odd, 8, 16, luma);
  }

  lemma FieldChromaInside(p: Plane, offset: int, v: int, odd: bool, mx: int, my: int, r: Read)
    requires p.width <= p.stride && p.stride * p.height < TWO_31 && p.height % 2 == 0 && p.height < 0x1000_0000
    requires offset % 2 == 0 && v % 2 == 0 && 0 <= offset <= 2 * p.width - 16 && 0 <= v <= p.height - 8
    requires 0 <= 2 * offset + mx <= 2 * (2 * p.width - 16) && 0 <= 2 * v + my <= 2 * (p.height - 8)
    requires r == Read(U32((offset + Half(mx)) / 2 + U32(U32(v + EvenLine(Half(my), odd)) * p.stride)), 2 * p.stride,
                       4 + Half(my) % 2, 8 + Half(mx) % 2)
    ensures var (cx, cv) := (offset + Half(mx), v + Half(my)); p.Holds(r, cx, cv, EvenLine(cv, odd), 2, 4, 8)
  {
    hide Half, EvenLine, U32, Plane.Holds;
    ChromaPosition(offset, mx, 2 * p.width - 16);
    ChromaPosition(v, my, p.height - 8);
    EvenLineSum(v, Half(my), odd);
    FieldChromaHolds(p, offset + Half(mx), v + Half(my), Half(mx), Half(my), odd, r);
  }

  lemma FieldLine(y2: int, odd: bool, rows: nat, height: nat)
    requires 0 <= y2 <= height - 2 * rows && rows > 0
    ensures 0 <= EvenLine(y2, odd) < height
  {
  }

  lemma WrappedAddress(line: int, col: int, p: Plane)
    requires 0 <= line < p.height && 0 <= col < p.stride && p.stride * p.height < TWO_31 && p.height < 0x1000_0000
    ensures U32(col + U32(U32(line) * p.stride)) == line * p.stride + col
  {
    Address(line, col, p);
    Address(line, 0, p);
  }

  lemma FieldChromaHolds(p: Plane, cx: int, cv: int, hx: int, hy: int, odd: bool, r: Read)
    requires p.width <= p.stride && p.stride * p.height < TWO_31 && p.height % 2 == 0 && p.height < 0x1000_0000
    requires 0 <= cx <= 2 * p.width - 16 && 0 <= cv <= p.height - 8 && cx % 2 == hx % 2 && cv % 2 == hy % 2
    requires r == Read(U32(cx / 2 + U32(U32(EvenLine(cv, odd)) * p.stride)), 2 * p.stride, 4 + hy % 2, 8 + hx % 2)
    ensures p.Holds(r, cx, cv, EvenLine(cv, odd), 2, 4, 8)
  {
    LineOf(cx, 8, p.width);
    FieldLine(cv, odd, 4, p.height);
    WrappedAddress(EvenLine(cv, odd), cx / 2, p);
    FieldHolds(p, cx, cv, odd, 4, 8, r);
  }

  method FieldChroma420(d: Decoder, mx: int, my: int, odd: bool) returns (chroma: Read)
    requires d.Valid() && 0 <= 2 * d.offset + mx <= 2 * d.width - 32 && 0 <= d.vOffset + my <= d.height - 16
    ensures var (cx, cv) := (d.offset + Half(mx), d.vOffset / 2 + Half(my));
      d.Chroma(true).Holds(chroma, cx, cv, EvenLine(cv, odd), 2, 4, 8)
  {
    var motionX, motionY := Half(mx), Half(my);
    var line := U32(d.vOffset / 2 + EvenLine(motionY, odd));
    chroma := Read(U32((d.offset + motionX) / 2 + U32(line * d.uvStride)), 2 * d.uvStride,
                   4 + motionY % 2, 8 + motionX % 2);
    Chroma420Plane(d);
    SixteenIsEven(d.offset);
    SixteenIsEven(d.vOffset);
    SixteenIsEven(d.height);
    FieldChromaInside(d.Chroma(true), d.offset, d.vOffset / 2, odd, mx, my, chroma);
  }

  // MOTION_FIELD_420; odd stands for op and src_field together.
  method MotionField420(d: Decoder, motionX: int, motionY: int, odd: bool) returns (luma: Read, chroma: Read)
    requires d.Valid() && Fits(motionX) && Fits(motionY)
    ensures var x := Clamp(2 * d.offset + motionX, 2 * d.width - 32);
      var v := Clamp(d.vOffset + motionY, d.height - 16);
      var (cx, cv) := (d.offset + Half(x - 2 * d.offset), d.vOffset / 2 + Half(v - d.vOffset));
      && d.Luma().Holds(luma, x, v, EvenLine(v, odd), 2, 8, 16)
      && d.Chroma(true).Holds(chroma, cx, cv, EvenLine(cv, odd), 2, 4, 8)
  {
    var posX, mx := ClampPosition(2 * d.offset, motionX, 2 * d.width - 32);
    var posY, my := ClampPosition(d.vOffset, motionY, d.height - 16);
    luma := FieldLuma(d, posX, posY, odd);
    chroma := FieldChroma420(d, mx, my, odd);
  }

  // The line below.
  function Below(r: Read, stride: int): Read
  {
    r.(start := r.start + stride)
  }

  lemma BelowHolds(p: Plane, r: Read, x2: int, y2: int, rows: nat, cols: nat)
    requires p.Holds(r, x2, y2, EvenLine(y2, false), 2, rows, cols) && p.height % 2 == 0
    ensures p.Holds(Below(r, p.stride), x2, y2, EvenLine(y2, true), 2, rows, cols)
  {
    assert (EvenLine(y2, false) + 1) * p.stride == EvenLine(y2, false) * p.stride + p.stride;
  }

  // Both fields of luma.
  method DmvLuma(d: Decoder, posX: nat, posY: nat) returns (luma: Read, luma2: Read)
    requires d.Valid() && posX <= 2 * d.width - 32 && posY <= d.height - 16
    ensures d.Luma().Holds(luma, posX, posY, EvenLine(posY, false), 2, 8, 16)
    ensures d.Luma().Holds(luma2, posX, posY, EvenLine(posY, true), 2, 8, 16)
  {
    luma := FieldLuma(d, posX, posY, false);
    luma2 := Below(luma, d.stride);
    SixteenIsEven(d.height);
    BelowHolds(d.Luma(), luma, posX, posY, 8, 16);
  }

  // Both fields of chroma.
  method DmvChroma(d: Decoder, mx: int, my: int) returns (chroma: Read, chroma2: Read)
    requires d.Valid() && 0 <= 2 * d.offset + mx <= 2 * d.width - 32 && 0 <= d.vOffset + my <= d.height - 16
    ensures var (cx, cv) := (d.offset + Half(mx), d.vOffset / 2 + Half(my));
      && d.Chroma(true).Holds(chroma, cx, cv, EvenLine(cv, false), 2, 4, 8)
      && d.Chroma(true).Holds(chroma2, cx, cv, EvenLine(cv, true), 2, 4, 8)
  {
    chroma := FieldChroma420(d, mx, my, false);
    chroma2 := Below(chroma, d.uvStride);
    SixteenIsEven(d.height);
    BelowHolds(d.Chroma(true), chroma, d.offset + Half(mx), d.vOffset / 2 + Half(my), 4, 8);
  }

  // MOTION_DMV_420: both fields, each from its own.
  method MotionDmv420(d: Decoder, motionX: int, motionY: int)
    returns (luma: Read, luma2: Read, chroma: Read, chroma2: Read)
    requires d.Valid() && Fits(motionX) && Fits(motionY)
    ensures var x := Clamp(2 * d.offset + motionX, 2 * d.width - 32);
      var v := Clamp(d.vOffset + motionY, d.height - 16);
      var (cx, cv) := (d.offset + Half(x - 2 * d.offset), d.vOffset / 2 + Half(v - d.vOffset));
      && d.Luma().Holds(luma, x, v, EvenLine(v, false), 2, 8, 16)
      && d.Luma().Holds(luma2, x, v, EvenLine(v, true), 2, 8, 16)
      && d.Chroma(true).Holds(chroma, cx, cv, EvenLine(cv, false), 2, 4, 8)
      && d.Chroma(true).Holds(chroma2, cx, cv, EvenLine(cv, true), 2, 4, 8)
  {
    hide EvenLine, Half, Plane.Holds, Decoder.Chroma, Decoder.Luma;
    var posX, mx := ClampPosition(2 * d.offset, motionX, 2 * d.width - 32);
    var posY, my := ClampPosition(d.vOffset, motionY, d.height - 16);
    luma, luma2 := DmvLuma(d, posX, posY);
    chroma, chroma2 := DmvChroma(d, mx, my);
  }

  // MOTION_ZERO_420
  method MotionZero420(d: Decoder) returns (luma: Read, chroma: Read)
    requires d.Valid()
    ensures d.Luma().Holds(luma, 2 * d.offset, 2 * d.vOffset, d.vOffset, 1, 16, 16)
    ensures d.Chroma(true).Holds(chroma, d.offset, d.vOffset, d.vOffset / 2, 1, 8, 8)
  {
    luma := Read(d.offset + d.vOffset * d.stride, d.stride, 16, 16);
    chroma := Read(d.offset / 2 + d.vOffset / 2 * d.uvStride, d.uvStride, 8, 8);
    BlockHolds(d.Luma(), 2 * d.offset, 2 * d.vOffset, 16, 16, luma);
    Chroma420Plane(d);
    SixteenIsEven(d.offset);
    SixteenIsEven(d.vOffset);
    BlockHolds(d.Chroma(true), d.offset, d.vOffset, 8, 8, chroma);
  }

  // ---- 4:2:2 ----

  // motion_x & (motion_x < 0)
  function Adjust(mx: int): int
  {
    if mx < 0 then mx % 2 else 0
  }

  // Half a luma address is a chroma address: the same line, and the column of
  // the halved vector.
  lemma HalfAddress(line: int, stride: int, offset: int, mx: int, x: int)
    requires stride % 2 == 0 && x == 2 * offset + mx
    ensures (line * stride + x / 2 + Adjust(mx)) / 2 == line * (stride / 2) + (offset + Half(mx)) / 2
  {
    assert x / 2 + Adjust(mx) == offset + Half(mx);
    var k := stride / 2;
    assert line * stride == 2 * (line * k);
    HalfSum(line * k, offset + Half(mx));
  }

  lemma HalfSum(a: int, c: int)
    ensures (2 * a + c) / 2 == a + c / 2
  {
  }

  lemma Chroma422Plane(d: Decoder)
    requires d.Valid()
    ensures var p := d.Chroma(false); 2 * p.width == d.width && p.height == d.height && 2 * p.stride == d.stride
  {
    SixteenIsEven(d.width);
  }

  // Chroma blocks of 4:2:2 in a frame or in one field of a frame.
  method Chroma422(d: Decoder, luma: Read, mx: int, ghost posY: int, ghost line: int, ghost step: nat)
    returns (chroma: Read)
    requires d.Valid() && 0 <= 2 * d.offset + mx <= 2 * d.width - 32
    requires luma.rows > posY % 2 && d.Luma().Holds(luma, 2 * d.offset + mx, posY, line, step, luma.rows - posY % 2, 16)
    ensures d.Chroma(false).Holds(chroma, d.offset + Half(mx), posY, line, step, luma.rows - posY % 2, 8)
  {
    hide Half, U32, Adjust;
    var motionX := Half(mx);
    chroma := Read(U32(U32(luma.start) + Adjust(mx)) / 2, luma.stride / 2, luma.rows, 8 + motionX % 2);
    Chroma422Plane(d);
    SixteenIsEven(d.offset);
    ChromaPosition(d.offset, mx, d.width - 16);
    EndsInside(d.offset + motionX, 8, d.width / 2);
    HalfAddress(line, d.stride, d.offset, mx, 2 * d.offset + mx);
    Chroma422Address(d, luma, mx, posY, line, step);
    assert step * d.stride == 2 * (step * d.uvStride);
  }

  lemma Chroma422Address(d: Decoder, luma: Read, mx: int, posY: int, line: int, step: nat)
    requires d.Valid() && luma.rows > posY % 2
    requires d.Luma().Holds(luma, 2 * d.offset + mx, posY, line, step, luma.rows - posY % 2, 16)
    ensures U32(U32(luma.start) + Adjust(mx)) == luma.start + Adjust(mx)
  {
    hide U32, Adjust;
    var x := 2 * d.offset + mx;
    FirstLine(line, luma.rows - 1, step, d.height);
    Address(line, x / 2, d.Luma());
    AdjustedAddress(luma.start, mx);
  }

  lemma AdjustedAddress(start: int, mx: int)
    requires 0 <= start < TWO_31
    ensures U32(U32(start) + Adjust(mx)) == start + Adjust(mx)
  {
  }

  lemma FirstLine(line: int, n: nat, step: nat, height: int)
    requires line + n * step < height
    ensures line < height
  {
  }

  // MOTION_422
  method Motion422(d: Decoder, motionX: int, motionY: int, size: nat, y: nat) returns (luma: Read, chroma: Read)
    requires d.Valid() && Fits(motionX) && Fits(motionY)
    requires (size == 16 && y == 0) || (size == 8 && (y == 0 || y == 8))
    ensures var x := Clamp(2 * d.offset + motionX, 2 * d.width - 32);
      var v := Clamp(2 * d.vOffset + 2 * y + motionY, 2 * d.height - 2 * size);
      && d.Luma().Holds(luma, x, v, v / 2, 1, size, 16)
      && d.Chroma(false).Holds(chroma, d.offset + Half(x - 2 * d.offset), v, v / 2, 1, size, 8)
  {
    var posX, mx := ClampPosition(2 * d.offset, motionX, 2 * d.width - 32);
    var posY, my := ClampPosition(2 * d.vOffset + 2 * y, motionY, 2 * d.height - 2 * size);
    luma := Read(posX / 2 + posY / 2 * d.stride, d.stride, size + posY % 2, 16 + posX % 2);
    BlockHolds(d.Luma(), posX, posY, size, 16, luma);
    chroma := Chroma422(d, luma, mx, posY, posY / 2, 1);
  }

  // MOTION_FIELD_422
  method MotionField422(d: Decoder, motionX: int, motionY: int, odd: bool) returns (luma: Read, chroma: Read)
    requires d.Valid() && Fits(motionX) && Fits(motionY)
    ensures var x := Clamp(2 * d.offset + motionX, 2 * d.width - 32);
      var v := Clamp(d.vOffset + motionY, d.height - 16);
      && d.Luma().Holds(luma, x, v, EvenLine(v, odd), 2, 8, 16)
      && d.Chroma(false).Holds(chroma, d.offset + Half(x - 2 * d.offset), v, EvenLine(v, odd), 2, 8, 8)
  {
    var posX, mx := ClampPosition(2 * d.offset, motionX, 2 * d.width - 32);
    var posY, my := ClampPosition(d.vOffset, motionY, d.height - 16);
    luma := FieldLuma(d, posX, posY, odd);
    chroma := Chroma422(d, luma, mx, posY, EvenLine(posY, odd), 2);
  }

  // MOTION_DMV_422
  method MotionDmv422(d: Decoder, motionX: int, motionY: int)
    returns (luma: Read, luma2: Read, chroma: Read, chroma2: Read)
    requires d.Valid() && Fits(motionX) && Fits(motionY)
    ensures var x := Clamp(2 * d.offset + motionX, 2 * d.width - 32);
      var v := Clamp(d.vOffset + motionY, d.height - 16);
      var cx := d.offset + Half(x - 2 * d.offset);
      && d.Luma().Holds(luma, x, v, EvenLine(v, false), 2, 8, 16)
      && d.Luma().Holds(luma2, x, v, EvenLine(v, true), 2, 8, 16)
      && d.Chroma(false).Holds(chroma, cx, v, EvenLine(v, false), 2, 8, 8)
      && d.Chroma(false).Holds(chroma2, cx, v, EvenLine(v, true), 2, 8, 8)
  {
    hide EvenLine, Half;
    luma, chroma := MotionField422(d, motionX, motionY, false);
    luma2 := Below(luma, d.stride);
    chroma2 := Below(chroma, d.uvStride);
    SixteenIsEven(d.height);
    ghost var x := Clamp(2 * d.offset + motionX, 2 * d.width - 32);
    ghost var v := Clamp(d.vOffset + motionY, d.height - 16);
    BelowHolds(d.Luma(), luma, x, v, 8, 16);
    BelowHolds(d.Chroma(false), chroma, d.offset + Half(x - 2 * d.offset), v, 8, 8);
  }

  // MOTION_ZERO_422
  method MotionZero422(d: Decoder) returns (luma: Read, chroma: Read)
    requires d.Valid()
    ensures d.Luma().Holds(luma, 2 * d.offset, 2 * d.vOffset, d.vOffset, 1, 16, 16)
    ensures d.Chroma(false).Holds(chroma, d.offset, 2 * d.vOffset, d.vOffset, 1, 16, 8)
  {
    luma := Read(d.offset + d.vOffset * d.stride, d.stride, 16, 16);
    BlockHolds(d.Luma(), 2 * d.offset, 2 * d.vOffset, 16, 16, luma);
    chroma := Chroma422(d, luma, 0, 2 * d.vOffset, d.vOffset, 1);
  }
}
