// The walk over macroblocks in libmpeg2/slice.c: where a slice starts, the
// macro NEXT_MACROBLOCK, and coded and skipped macroblocks. Addresses count
// macroblocks in raster order, as section 6.3.16 of ISO/IEC 13818-2 does.
module Walk {
  import opened Words

  // A macroblock that is decoded or predicted: its address, whether it is
  // coded, and the position and destinations that the decoder has for it.
  datatype Visit = Visit(address: nat, coded: bool, offset: int, vOffset: int, dest: int, uvDest: int)

  // The coded macroblock at an address, then for each increment that many
  // skipped ones and a coded one.
  function Plan(first: nat, increments: seq<nat>): (p: seq<(nat, bool)>)
    ensures |p| == 1 + |increments| + Total(increments)
    ensures p[0].1 && forall k :: 0 <= k < |p| ==> p[k].0 == first + k
    decreases |increments|
  {
    if increments == [] then [(first, true)]
    else [(first, true)] + Skipped(first + 1, increments[0]) + Plan(first + 1 + increments[0], increments[1..])
  }

  function Skipped(first: nat, n: nat): (p: seq<(nat, bool)>)
    ensures |p| == n && forall k :: 0 <= k < n ==> p[k] == (first + k, false)
  {
    seq(n, (k: nat) => (first + k, false))
  }

  function Total(increments: seq<nat>): nat
  {
    if increments == [] then 0 else increments[0] + Total(increments[1..])
  }

  lemma Times(d: int, n: nat)
    requires d >= 0
    ensures d * n >= 0
  {
  }

  lemma DifferenceTimes(a: int, b: int, c: int, n: int)
    ensures (a - b - c) * n == a * n - b * n - c * n
  {
  }

  lemma NextRow(row: int, n: int, stride: int, uvStride: int)
    ensures (row + 1) * n == row * n + n && (row + 1) * stride == row * stride + stride
    ensures (row + 1) * uvStride == row * uvStride + uvStride
  {
  }

  // A row and a column of n make an address, and only one does.
  lemma RasterUnique(row: nat, col: nat, n: nat)
    requires col < n
    ensures (row * n + col) / n == row && (row * n + col) % n == col
  {
    DivUnique(row * n + col, n, row, col);
  }

  // The address is in the picture exactly when the row is.
  lemma InPicture(row: int, col: int, n: nat, rows: nat)
    requires 0 <= col < n
    ensures row * n + col < n * rows <==> row < rows
  {
    MulCommutes(n, rows);
    if row < rows {
      Times(rows - 1 - row, n);
      DifferenceTimes(rows, 1, row, n);
    } else {
      Times(row - rows, n);
      DifferenceTimes(row, 0, rows, n);
    }
  }

  lemma NextAddress(address: nat, n: nat)
    requires n > 0
    ensures var (row, col) := (address / n, address % n);
      && address == row * n + col
      && (if col + 1 < n then (address + 1) / n == row && (address + 1) % n == col + 1
          else (address + 1) / n == row + 1 && (address + 1) % n == 0)
  {
    var (row, col) := (address / n, address % n);
    MulCommutes(row, n);
    assert address == n * (address / n) + address % n;
    if col + 1 < n {
      DivUnique(address + 1, n, row, col + 1);
    } else {
      NextRow(row, n, 0, 0);
      MulCommutes(row + 1, n);
      DivUnique(address + 1, n, row + 1, 0);
    }
  }

  class Walker {
    const width: int
    const height: int
    // slice_stride and slice_uv_stride
    const stride: int
    const uvStride: int
    // dest follows the rows, unless conversion is on in a B picture
    const moves: bool
    var offset: int
    var vOffset: int
    var dest: int
    var uvDest: int

    predicate Shape()
    {
      16 <= width && width % 16 == 0 && 16 <= height && height % 16 == 0
    }

    function Columns(): (n: nat)
      requires Shape()
      ensures n > 0 && 16 * n == width
    {
      width / 16
    }

    function Rows(): (n: nat)
      requires Shape()
      ensures n > 0 && 16 * n == height
    {
      height / 16
    }

    // Column col and row row of macroblocks.
    ghost predicate At(col: int, row: int)
      reads this
    {
      && offset == 16 * col && vOffset == 16 * row
      && dest == (if moves then row * stride else 0) && uvDest == if moves then row * uvStride else 0
    }

    constructor (width: int, height: int, stride: int, uvStride: int, moves: bool)
      requires 16 <= width && width % 16 == 0 && 16 <= height && height % 16 == 0
      ensures Shape() && this.width == width && this.height == height
      ensures this.stride == stride && this.uvStride == uvStride
      ensures this.moves == moves
    {
      this.width, this.height, this.stride, this.uvStride, this.moves := width, height, stride, uvStride, moves;
      offset, vOffset, dest, uvDest := 0, 0, 0, 0;
    }

    // slice_init: code is the vertical position, increment the address
    // increment less one, with its escapes.
    method Start(code: nat, increment: nat) returns (ok: bool)
      requires Shape() && code >= 1
      modifies this
      ensures var first := (code - 1) * Columns() + increment;
        && ok == (first < Columns() * Rows())
        && At(first % Columns(), first / Columns())
    {
      vOffset := (code - 1) * 16;
      dest := if moves then (code - 1) * stride else 0;
      uvDest := if moves then (code - 1) * uvStride else 0;
      offset := increment * 16;
      ghost var row, col := code - 1, increment as int;
      while offset - width >= 0
        invariant row >= 0 && col >= 0 && At(col, row)
        invariant row * Columns() + col == (code - 1) * Columns() + increment
        decreases offset
      {
        offset := offset - width;
        if moves {
          dest := dest + stride;
          uvDest := uvDest + uvStride;
        }
        vOffset := vOffset + 16;
        NextRow(row, Columns(), stride, uvStride);
        row, col := row + 1, col - Columns();
      }
      RasterUnique(row, col, Columns());
      InPicture(row, col, Columns(), Rows());
      return vOffset <= height - 16;
    }

    ghost predicate AtAddress(address: nat)
      requires Shape()
      reads this
    {
      At(address % Columns(), address / Columns())
    }

    // NEXT_MACROBLOCK: to the next address, if that is in the picture.
    method Next(ghost address: nat) returns (ok: bool)
      requires Shape() && address < Columns() * Rows() && AtAddress(address)
      modifies this
      ensures ok == (address + 1 < Columns() * Rows()) && (ok ==> AtAddress(address + 1))
    {
      ghost var n, col, row := Columns(), address % Columns(), address / Columns();
      NextAddress(address, n);
      InPicture(row, col, n, Rows());
      offset := offset + 16;
      if offset == width {
        if moves {
          dest := dest + stride;
          uvDest := uvDest + uvStride;
        }
        NextRow(row, n, stride, uvStride);
        vOffset := vOffset + 16;
        InPicture(row + 1, 0, n, Rows());
        if vOffset > height - 16 { return false; }
        offset := 0;
      } else {
        InPicture(row, col + 1, n, Rows());
      }
      return true;
    }

    method Here(ghost address: nat, coded: bool) returns (v: Visit)
      requires Shape() && address < Columns() * Rows() && AtAddress(address)
      ensures v.address == address && v.coded == coded
      ensures v.offset == offset && v.vOffset == vOffset && v.dest == dest && v.uvDest == uvDest
    {
      v := Visit(vOffset / 16 * Columns() + offset / 16, coded, offset, vOffset, dest, uvDest);
      NextAddress(address, Columns());
    }
  }

  // The k-th macroblock of a slice from address first on.
  predicate Good(w: Walker, v: Visit, first: nat, k: nat)
    requires w.Shape()
  {
    var n := w.Columns();
    var (row, col) := ((first + k) / n, (first + k) % n);
    && v.address == first + k < n * w.Rows()
    && v.offset == 16 * col && v.vOffset == 16 * row
    && v.dest == (if w.moves then row * w.stride else 0) && v.uvDest == if w.moves then row * w.uvStride else 0
  }

  predicate Visited(w: Walker, visits: seq<Visit>, first: nat, p: seq<(nat, bool)>)
    requires w.Shape()
  {
    |visits| <= |p| && forall k :: 0 <= k < |visits| ==> Good(w, visits[k], first, k) && visits[k].coded == p[k].1
  }

  // The walker is at the last of its visits.
  ghost predicate Walks(w: Walker, visits: seq<Visit>, first: nat, p: seq<(nat, bool)>)
    requires w.Shape() && |visits| >= 1
    reads w
  {
    Visited(w, visits, first, p) && first + |visits| - 1 < w.Columns() * w.Rows() && w.AtAddress(first + |visits| - 1)
  }

  lemma PlanStep(address: nat, increments: seq<nat>, i: nat, p: seq<(nat, bool)>, at: nat)
    requires i < |increments| && at < |p| && Plan(address, increments[i..]) == p[at..]
    ensures at + 1 + increments[i] < |p|
    ensures forall k :: at < k <= at + increments[i] ==> !p[k].1
    ensures p[at + 1 + increments[i]].1
    ensures Plan(address + 1 + increments[i], increments[i + 1..]) == p[at + 1 + increments[i]..]
  {
    var rest := increments[i..];
    assert rest[0] == increments[i] && rest[1..] == increments[i + 1..];
    var s := Skipped(address + 1, increments[i]);
    var q := Plan(address + 1 + increments[i], increments[i + 1..]);
    assert p[at..] == [(address, true)] + s + q;
    forall k | at < k <= at + increments[i]
      ensures p[k] == s[k - at - 1]
    {
      assert p[k] == p[at..][k - at];
    }
    assert p[at + 1 + increments[i]..] == p[at..][1 + increments[i]..] == q;
    assert p[at + 1 + increments[i]] == q[0] && q[0] == (address + 1 + increments[i], true);
  }

  // The walker has moved on from its last visit, to an address in the picture.
  ghost predicate Ahead(w: Walker, visits: seq<Visit>, first: nat, p: seq<(nat, bool)>)
    requires w.Shape()
    reads w
  {
    && Visited(w, visits, first, p) && |visits| < |p|
    && first + |visits| < w.Columns() * w.Rows() && w.AtAddress(first + |visits|)
  }

  // One more visit.
  method Visiting(w: Walker, visits: seq<Visit>, coded: bool, ghost first: nat, ghost p: seq<(nat, bool)>)
    returns (r: seq<Visit>)
    requires w.Shape() && Ahead(w, visits, first, p) && p[|visits|].1 == coded
    ensures |r| == |visits| + 1 && Walks(w, r, first, p)
  {
    var v := w.Here(first + |visits|, coded);
    r := visits + [v];
  }

  // Skipped macroblocks.
  method Skip(w: Walker, visits: seq<Visit>, incr: nat, ghost first: nat, ghost p: seq<(nat, bool)>)
    returns (ok: bool, r: seq<Visit>)
    requires w.Shape() && Ahead(w, visits, first, p) && |visits| + incr < |p|
    requires forall k :: |visits| <= k < |visits| + incr ==> !p[k].1
    modifies w
    ensures if ok then |r| == |visits| + incr && Ahead(w, r, first, p)
            else Visited(w, r, first, p) && first + |r| == w.Columns() * w.Rows()
  {
    r := visits;
    var j := 0;
    while j < incr
      invariant j <= incr && |r| == |visits| + j && Ahead(w, r, first, p)
    {
      r := Visiting(w, r, false, first, p);
      ok := w.Next(first + |r| - 1);
      if !ok { return; }
      j := j + 1;
    }
    ok := true;
  }

  // Line l of the row-th of rows groups of lines, of pitch bytes each.
  lemma LineInside(row: nat, rows: nat, lines: nat, pitch: nat, l: nat)
    requires row < rows && l < lines
    ensures row * (lines * pitch) + l * pitch == (row * lines + l) * pitch
    ensures row * lines + l < rows * lines && (row * lines + l) * pitch + pitch <= rows * lines * pitch
  {
    MulAssociates(row, lines, pitch);
    assert row * lines * pitch + l * pitch == (row * lines + l) * pitch;
    InPicture(row, l, lines, rows);
    MulCommutes(rows, lines);
    Times(rows * lines - 1 - (row * lines + l), pitch);
    DifferenceTimes(rows * lines, 1, row * lines + l, pitch);
  }

  // The first line that a macroblock is written to. Without moves every row of
  // macroblocks goes to the first, from where it is converted.
  function Line(w: Walker, v: Visit): int
  {
    if w.moves then v.vOffset else 0
  }

  // Pixel c of line l of a visited macroblock lies in the picture, where lines
  // of macroblocks are sixteen lines of pitch bytes.
  lemma WritesInside(w: Walker, v: Visit, first: nat, k: nat, pitch: nat, l: nat, c: nat)
    requires w.Shape() && Good(w, v, first, k) && w.stride == 16 * pitch && w.width <= pitch && l < 16 && c < 16
    ensures v.offset + c < w.width && v.vOffset + l < w.height
    ensures v.dest + l * pitch + v.offset + c == (Line(w, v) + l) * pitch + (v.offset + c) < w.height * pitch
  {
    var n := w.Columns();
    var (row, col) := ((first + k) / n, (first + k) % n);
    NextAddress(first + k, n);
    InPicture(row, col, n, w.Rows());
    LineInside(if w.moves then row else 0, w.Rows(), 16, pitch, l);
  }

  lemma ChromaColumn(n: nat, col: nat, c: nat)
    requires col < n && c < 8
    ensures 16 * col / 2 + c < 16 * n / 2
  {
  }

  lemma ChromaLine(w: Walker, v: Visit, row: nat, lines: nat, pitch: nat, l: nat)
    requires w.Shape() && row < w.Rows() && l < lines && w.uvStride == lines * pitch
    requires v.vOffset == 16 * row && v.uvDest == if w.moves then row * w.uvStride else 0
    ensures var (y, height) := (Line(w, v) / 16 * lines + l, w.height / 16 * lines);
      y < height && v.uvDest + l * pitch == y * pitch && y * pitch + pitch <= height * pitch
  {
    var base := if w.moves then row else 0;
    assert Line(w, v) / 16 == base && w.height / 16 == w.Rows();
    LineInside(base, w.Rows(), lines, pitch, l);
  }

  // So in either chroma plane: a macroblock has lines lines of eight pixels
  // there, eight in 4:2:0 and sixteen in 4:2:2.
  lemma ChromaInside(w: Walker, v: Visit, first: nat, k: nat, pitch: nat, lines: nat, l: nat, c: nat)
    requires w.Shape() && Good(w, v, first, k) && w.uvStride == lines * pitch && w.width / 2 <= pitch
    requires (lines == 8 || lines == 16) && l < lines && c < 8
    ensures var (x, y, height) := (v.offset / 2 + c, Line(w, v) / 16 * lines + l, w.height / 16 * lines);
      && x < w.width / 2 && y < height
      && v.uvDest + l * pitch + v.offset / 2 + c == y * pitch + x < height * pitch
  {
    var n := w.Columns();
    var (row, col) := ((first + k) / n, (first + k) % n);
    NextAddress(first + k, n);
    InPicture(row, col, n, w.Rows());
    ChromaColumn(n, col, c);
    ChromaLine(w, v, row, lines, pitch, l);
  }

  // After n visits, the increments from i on are still to come.
  predicate Follows(first: nat, increments: seq<nat>, i: nat, p: seq<(nat, bool)>, n: nat)
    requires i <= |increments|
  {
    1 <= n <= |p| && Plan(first + n - 1, increments[i..]) == p[n - 1..]
  }

  lemma LeftOfPlan(first: nat, increments: seq<nat>, i: nat, p: seq<(nat, bool)>, n: nat)
    requires i <= |increments| && Follows(first, increments, i, p, n)
    ensures if i == |increments| then |p| == n else |p| > n + increments[i]
  {
    if i == |increments| {
      assert increments[i..] == [];
    } else {
      PlanStep(first + n - 1, increments, i, p, n - 1);
    }
  }

  // Skipped macroblocks and a coded one.
  method Increment(w: Walker, visits: seq<Visit>, increments: seq<nat>, i: nat, ghost first: nat,
                   ghost p: seq<(nat, bool)>)
    returns (ok: bool, r: seq<Visit>)
    requires w.Shape() && Ahead(w, visits, first, p) && i < |increments| && Follows(first, increments, i, p, |visits|)
    modifies w
    ensures if ok then |r| >= 1 && Walks(w, r, first, p) && Follows(first, increments, i + 1, p, |r|)
            else Visited(w, r, first, p) && first + |r| == w.Columns() * w.Rows()
  {
    PlanStep(first + |visits| - 1, increments, i, p, |visits| - 1);
    ok, r := Skip(w, visits, increments[i], first, p);
    if ok { r := Visiting(w, r, true, first, p); }
  }

  // A slice that starts at code with the given increments, as long as it stays
  // in the picture: which macroblocks are visited, and where each is written.
  method Slice(w: Walker, code: nat, start: nat, increments: seq<nat>) returns (visits: seq<Visit>, ghost first: nat)
    requires w.Shape() && code >= 1
    modifies w
    ensures first == (code - 1) * w.Columns() + start
    ensures var p := Plan(first, increments); var room := w.Columns() * w.Rows() - first;
      |visits| == (if room <= 0 then 0 else if room < |p| then room else |p|) && Visited(w, visits, first, p)
  {
    first := (code - 1) * w.Columns() + start;
    visits := [];
    var ok := w.Start(code, start);
    if !ok { return; }
    ghost var p := Plan(first, increments);
    visits := Visiting(w, visits, true, first, p);
    assert increments[0..] == increments && p[0..] == p;
    var i := 0;
    while true
      invariant i <= |increments| && |visits| >= 1 && Walks(w, visits, first, p)
      invariant Follows(first, increments, i, p, |visits|)
      decreases |increments| - i
    {
      ok := w.Next(first + |visits| - 1);
      LeftOfPlan(first, increments, i, p, |visits|);
      if !ok || i == |increments| { return; }
      ok, visits := Increment(w, visits, increments, i, first, p);
      if !ok { return; }
      i := i + 1;
    }
  }
}
