// The motion compensation kernels of libmpeg2/motion_comp_alpha.c, eight
// pixels in a word, and the packed addition of libmpeg2/idct_alpha.c, against
// the scalar predictors of libmpeg2/motion_comp.c and clipped addition.
module Packed {
  import opened Lanes
  import Idct
  import Words

  // Which neighbours are averaged: none, to the right, below, or both.
  datatype Half = O | X | Y | XY

  type Row = seq<nat>

  // The rows and columns that a prediction of h rows of n pixels needs, and no
  // more.
  predicate Covers(half: Half, src: seq<Row>, h: nat, n: nat)
  {
    && |src| == h + (if half == Y || half == XY then 1 else 0)
    && forall i :: 0 <= i < |src| ==> |src[i]| == n + (if half == X || half == XY then 1 else 0) && Bytes(src[i])
  }

  // predict_o, predict_x, predict_y and predict_xy of motion_comp.c
  function Predict(half: Half, src: seq<Row>, i: nat, k: nat): nat
    requires i + (if half == Y || half == XY then 1 else 0) < |src|
    requires forall r <- src :: k + (if half == X || half == XY then 1 else 0) < |r|
  {
    match half
    case O => src[i][k]
    case X => (src[i][k] + src[i][k + 1] + 1) / 2
    case Y => (src[i][k] + src[i + 1][k] + 1) / 2
    case XY => (src[i][k] + src[i][k + 1] + src[i + 1][k] + src[i + 1][k + 1] + 2) / 4
  }

  function Predicted(half: Half, src: seq<Row>, h: nat, n: nat, i: nat): (r: Row)
    requires Covers(half, src, h, n) && i < h
    ensures |r| == n
  {
    seq(n, k requires 0 <= k < n => Predict(half, src, i, k))
  }

  // put or avg
  function Stored(avg: bool, p: Row, d: Row): (r: Row)
    requires |p| == |d|
    ensures |r| == |p|
  {
    if avg then seq(|p|, k requires 0 <= k < |p| => (p[k] + d[k] + 1) / 2) else p
  }

  // MC_FUNC of motion_comp.c
  method McFunc(half: Half, avg: bool, src: seq<Row>, n: nat, dest: array<Row>)
    requires Covers(half, src, dest.Length, n) && forall i :: 0 <= i < dest.Length ==> |dest[i]| == n
    modifies dest
    ensures forall i :: 0 <= i < dest.Length ==>
      dest[i] == Stored(avg, Predicted(half, src, dest.Length, n, i), old(dest[i]))
  {
    for i := 0 to dest.Length
      invariant forall j :: 0 <= j < i ==> dest[j] == Stored(avg, Predicted(half, src, dest.Length, n, j), old(dest[j]))
      invariant forall j :: i <= j < dest.Length ==> dest[j] == old(dest[j])
    {
      var row: Row := [];
      for k := 0 to n
        invariant |row| == k
        invariant forall c :: 0 <= c < k ==> row[c] == Stored(avg, Predicted(half, src, dest.Length, n, i), dest[i])[c]
      {
        var p := Predict(half, src, i, k);
        row := row + [if avg then (p + dest[i][k] + 1) / 2 else p];
      }
      dest[i] := row;
    }
  }

  // ---- Rows of words ----

  // LOAD and LOAD16: the words of a row, one for 8 pixels and two for 16.
  function Load(w: Alpha, row: Row, words: nat): (p: seq<nat>)
    requires |row| >= 8 * words
    ensures |p| == words
  {
    seq(words, j requires 0 <= j < words => w.pack(row[8 * j..8 * j + 8]))
  }

  // The words of the row one pixel further on.
  function Next(w: Alpha, p: seq<nat>, last: nat): (q: seq<nat>)
    ensures |q| == |p|
  {
    seq(|p|, j requires 0 <= j < |p| => w.shiftIn(p[j], if j + 1 < |p| then p[j + 1] % 256 else last))
  }

  function Averages(w: Alpha, p: seq<nat>, q: seq<nat>): (r: seq<nat>)
    requires |p| == |q|
  {
    seq<nat>(|p|, j requires 0 <= j < |p| => w.avg2(p[j], q[j]))
  }

  lemma AverageRows(w: Alpha, a: Row, b: Row, r: Row, words: nat)
    requires w.Valid() && |a| == |b| == |r| == 8 * words && Bytes(a) && Bytes(b)
    requires forall k :: 0 <= k < |a| ==> r[k] == (a[k] + b[k] + 1) / 2
    ensures Averages(w, Load(w, a, words), Load(w, b, words)) == Load(w, r, words)
  {
    forall j | 0 <= j < words
      ensures w.avg2(w.pack(a[8 * j..8 * j + 8]), w.pack(b[8 * j..8 * j + 8])) == w.pack(r[8 * j..8 * j + 8])
    {
      AverageOf(w, a[8 * j..8 * j + 8], b[8 * j..8 * j + 8], r[8 * j..8 * j + 8]);
    }
  }

  lemma OneOn(row: Row, a: nat)
    requires a + 9 <= |row|
    ensures row[a..a + 8][1..] + [row[a + 8]] == row[1..][a..a + 8]
  {
    var (l, r) := (row[a..a + 8][1..] + [row[a + 8]], row[1..][a..a + 8]);
    assert |l| == |r| == 8;
    forall k | 0 <= k < 8
      ensures l[k] == r[k]
    {
      assert r[k] == row[1..][a + k] == row[a + k + 1];
    }
  }

  lemma NextWord(w: Alpha, row: Row, words: nat, j: nat)
    requires w.Valid() && |row| == 8 * words + 1 && Bytes(row) && j < words
    ensures w.shiftIn(Load(w, row, words)[j],
                      if j + 1 < words then Load(w, row, words)[j + 1] % 256 else row[8 * words])
         == w.pack(row[1..][8 * j..8 * j + 8])
  {
    if j + 1 < words { LowByte(w, row[8 * (j + 1)..8 * (j + 1) + 8]); }
    NextOf(w, row[8 * j..8 * j + 8], row[8 * j + 8]);
    OneOn(row, 8 * j);
  }

  lemma NextRow(w: Alpha, row: Row, words: nat)
    requires w.Valid() && |row| == 8 * words + 1 && Bytes(row)
    ensures Next(w, Load(w, row, words), row[8 * words]) == Load(w, row[1..], words)
  {
    forall j | 0 <= j < words
      ensures Next(w, Load(w, row, words), row[8 * words])[j] == Load(w, row[1..], words)[j]
    {
      NextWord(w, row, words, j);
    }
  }

  // ---- The kernels ----

  // STORE: as it is, or averaged with what is there.
  function Store(w: Alpha, avg: bool, p: seq<nat>, d: seq<nat>): seq<nat>
    requires |p| == |d|
  {
    if avg then seq<nat>(|p|, j requires 0 <= j < |p| => w.avg2(p[j], d[j])) else p
  }

  lemma StoreRows(w: Alpha, avg: bool, p: Row, d: Row, words: nat)
    requires w.Valid() && |p| == |d| == 8 * words && Bytes(p) && Bytes(d)
    ensures Store(w, avg, Load(w, p, words), Load(w, d, words)) == Load(w, Stored(avg, p, d), words)
  {
    if avg {
      AverageRows(w, p, d, Stored(avg, p, d), words);
      assert Store(w, avg, Load(w, p, words), Load(w, d, words)) == Averages(w, Load(w, p, words), Load(w, d, words));
    }
  }

  // The block before: rows of words that hold the rows of pixels d.
  ghost predicate Holds(w: Alpha, block: seq<seq<nat>>, d: seq<Row>, words: nat)
  {
    |block| == |d| && forall i :: 0 <= i < |d| ==>
      |d[i]| == 8 * words && Bytes(d[i]) && block[i] == Load(w, d[i], words)
  }

  // The block after: the first n rows are the scalar result.
  ghost predicate Done(w: Alpha, half: Half, avg: bool, src: seq<Row>, d: seq<Row>, words: nat, block: seq<seq<nat>>,
                       n: nat)
    requires Covers(half, src, |d|, 8 * words) && forall i :: 0 <= i < |d| ==> |d[i]| == 8 * words
  {
    && |block| == |d| && n <= |d|
    && (forall i :: 0 <= i < n ==>
         block[i] == Load(w, Stored(avg, Predicted(half, src, |d|, 8 * words, i), d[i]), words))
    && (forall i :: n <= i < |d| ==> block[i] == Load(w, d[i], words))
  }

  // OP8_Y2 and OP16_Y2. The last turn loads the row that it has once more, so
  // no row after it is read.
  method OpY2(w: Alpha, avg: bool, src: seq<Row>, words: nat, block: array<seq<nat>>, ghost d: seq<Row>)
    requires w.Valid() && block.Length >= 1 && Holds(w, block[..], d, words) && Covers(Y, src, block.Length, 8 * words)
    modifies block
    ensures Done(w, Y, avg, src, d, words, block[..], |d|)
  {
    var h, lineSize, pixels, at := block.Length, 1, 0, 0;
    var p0 := Load(w, src[pixels], words);
    pixels := pixels + lineSize;
    var p1 := Load(w, src[pixels], words);
    while h > 0
      invariant h + at == block.Length && lineSize == 1
      invariant h > 0 ==> pixels == at + 1 && p0 == Load(w, src[at], words) && p1 == Load(w, src[at + 1], words)
      invariant Done(w, Y, avg, src, d, words, block[..], at)
      decreases h
    {
      var av := Averages(w, p0, p1);
      AverageRows(w, src[at], src[at + 1], Predicted(Y, src, block.Length, 8 * words, at), words);
      StoreRows(w, avg, Predicted(Y, src, block.Length, 8 * words, at), d[at], words);
      h := h - 1;
      if h == 0 { lineSize := 0; }
      pixels := pixels + lineSize;
      p0 := p1;
      p1 := Load(w, src[pixels], words);
      block[at] := Store(w, avg, av, block[at]);
      at := at + 1;
      if h == 0 { break; }
    }
  }

  // OP8 and OP16
  method Op(w: Alpha, avg: bool, src: seq<Row>, words: nat, block: array<seq<nat>>, ghost d: seq<Row>)
    requires w.Valid() && block.Length >= 1 && Holds(w, block[..], d, words) && Covers(O, src, block.Length, 8 * words)
    modifies block
    ensures Done(w, O, avg, src, d, words, block[..], |d|)
  {
    var at := 0;
    while at < block.Length
      invariant at <= block.Length && Done(w, O, avg, src, d, words, block[..], at)
    {
      assert Predicted(O, src, block.Length, 8 * words, at) == src[at];
      StoreRows(w, avg, src[at], d[at], words);
      block[at] := Store(w, avg, Load(w, src[at], words), block[at]);
      at := at + 1;
    }
  }

  // OP8_X2 and OP16_X2
  method OpX2(w: Alpha, avg: bool, src: seq<Row>, words: nat, block: array<seq<nat>>, ghost d: seq<Row>)
    requires w.Valid() && block.Length >= 1 && Holds(w, block[..], d, words) && Covers(X, src, block.Length, 8 * words)
    modifies block
    ensures Done(w, X, avg, src, d, words, block[..], |d|)
  {
    var at := 0;
    while at < block.Length
      invariant at <= block.Length && Done(w, X, avg, src, d, words, block[..], at)
    {
      var p0 := Load(w, src[at], words);
      var p1 := Next(w, p0, src[at][8 * words]);
      PredictedX(w, src, block.Length, words, at);
      StoreRows(w, avg, Predicted(X, src, block.Length, 8 * words, at), d[at], words);
      block[at] := Store(w, avg, Averages(w, p0, p1), block[at]);
      at := at + 1;
    }
  }

  lemma PredictedX(w: Alpha, src: seq<Row>, h: nat, words: nat, i: nat)
    requires w.Valid() && Covers(X, src, h, 8 * words) && i < h
    ensures Averages(w, Load(w, src[i], words), Next(w, Load(w, src[i], words), src[i][8 * words]))
         == Load(w, Predicted(X, src, h, 8 * words, i), words)
  {
    var n := 8 * words;
    NextRow(w, src[i], words);
    AverageRows(w, src[i][..n], src[i][1..], Predicted(X, src, h, n, i), words);
    LoadPrefix(w, src[i], words);
  }

  lemma LoadPrefix(w: Alpha, row: Row, words: nat)
    requires |row| >= 8 * words
    ensures Load(w, row[..8 * words], words) == Load(w, row, words)
  {
    forall j | 0 <= j < words
      ensures row[..8 * words][8 * j..8 * j + 8] == row[8 * j..8 * j + 8]
    {
    }
  }

  // High and low parts of the sums of a row and the row one pixel on.
  function Highs(w: Alpha, p: seq<nat>, q: seq<nat>): (r: seq<nat>)
    requires |p| == |q|
    ensures |r| == |p|
  {
    seq(|p|, j requires 0 <= j < |p| => w.High(p[j], q[j], 8))
  }

  function Lows(w: Alpha, p: seq<nat>, q: seq<nat>): (r: seq<nat>)
    requires |p| == |q|
    ensures |r| == |p|
  {
    seq(|p|, j requires 0 <= j < |p| => w.Low(p[j], q[j], 8))
  }

  function FourAverages(w: Alpha, h: seq<nat>, h': seq<nat>, l: seq<nat>, l': seq<nat>): seq<nat>
    requires |h| == |h'| == |l| == |l'|
  {
    seq(|h|, j requires 0 <= j < |h| => w.Avg4(h[j], h'[j], l[j], l'[j], 8))
  }

  lemma FourWord(w: Alpha, a: Row, b: Row, c: Row, d: Row, r: Row, words: nat, j: nat)
    requires w.Valid() && |a| == |b| == |c| == |d| == |r| == 8 * words
    requires Bytes(a) && Bytes(b) && Bytes(c) && Bytes(d) && j < words
    requires forall k :: 0 <= k < |a| ==> r[k] == (a[k] + b[k] + c[k] + d[k] + 2) / 4
    ensures var (p, q, p', q') := (Load(w, a, words), Load(w, b, words), Load(w, c, words), Load(w, d, words));
      FourAverages(w, Highs(w, p, q), Highs(w, p', q'), Lows(w, p, q), Lows(w, p', q'))[j] == Load(w, r, words)[j]
  {
    var (lo, hi) := (8 * j, 8 * j + 8);
    Avg4Lanes(w, a[lo..hi], b[lo..hi], c[lo..hi], d[lo..hi], r[lo..hi]);
  }

  lemma FourRows(w: Alpha, a: Row, b: Row, c: Row, d: Row, r: Row, words: nat)
    requires w.Valid() && |a| == |b| == |c| == |d| == |r| == 8 * words && Bytes(a) && Bytes(b) && Bytes(c) && Bytes(d)
    requires forall k :: 0 <= k < |a| ==> r[k] == (a[k] + b[k] + c[k] + d[k] + 2) / 4
    ensures var (p, q, p', q') := (Load(w, a, words), Load(w, b, words), Load(w, c, words), Load(w, d, words));
      FourAverages(w, Highs(w, p, q), Highs(w, p', q'), Lows(w, p, q), Lows(w, p', q')) == Load(w, r, words)
  {
    var (p, q, p', q') := (Load(w, a, words), Load(w, b, words), Load(w, c, words), Load(w, d, words));
    forall j | 0 <= j < words
      ensures FourAverages(w, Highs(w, p, q), Highs(w, p', q'), Lows(w, p, q), Lows(w, p', q'))[j]
           == Load(w, r, words)[j]
    {
      FourWord(w, a, b, c, d, r, words, j);
    }
  }

  // The parts of the sums of row i.
  method Parts(w: Alpha, row: Row, words: nat) returns (h: seq<nat>, l: seq<nat>)
    requires w.Valid() && |row| == 8 * words + 1 && Bytes(row)
    ensures var (p, q) := (Load(w, row[..8 * words], words), Load(w, row[1..], words));
      h == Highs(w, p, q) && l == Lows(w, p, q)
  {
    var p1 := Load(w, row, words);
    var p2 := Next(w, p1, row[8 * words]);
    LoadPrefix(w, row, words);
    NextRow(w, row, words);
    h, l := Highs(w, p1, p2), Lows(w, p1, p2);
  }

  // OP8_XY2 and OP16_XY2
  method OpXY2(w: Alpha, avg: bool, src: seq<Row>, words: nat, block: array<seq<nat>>, ghost d: seq<Row>)
    requires w.Valid() && block.Length >= 1 && Holds(w, block[..], d, words) && Covers(XY, src, block.Length, 8 * words)
    modifies block
    ensures Done(w, XY, avg, src, d, words, block[..], |d|)
  {
    var pixels, at := 0, 0;
    ghost var n := 8 * words;
    var ph, pl := Parts(w, src[pixels], words);
    while at < block.Length
      invariant at <= block.Length && pixels == at
      invariant var (p, q) := (Load(w, src[at][..n], words), Load(w, src[at][1..], words));
        ph == Highs(w, p, q) && pl == Lows(w, p, q)
      invariant Done(w, XY, avg, src, d, words, block[..], at)
    {
      pixels := pixels + 1;
      var nph, npl := Parts(w, src[pixels], words);
      FourRows(w, src[at][..n], src[at][1..], src[at + 1][..n], src[at + 1][1..],
               Predicted(XY, src, block.Length, n, at), words);
      StoreRows(w, avg, Predicted(XY, src, block.Length, n, at), d[at], words);
      block[at] := Store(w, avg, FourAverages(w, ph, nph, pl, npl), block[at]);
      at := at + 1;
      pl := npl;
      ph := nph;
    }
  }

  // ---- The packed addition of a constant ----

  // p += minub8 (DCs, ~p), or p -= minub8 (DCs, p)
  lemma RaisedOf(w: Alpha, p: seq<nat>, c: nat, m: seq<nat>, r: seq<nat>)
    requires w.Valid() && |p| == |m| == |r| == 8 && Bytes(p) && c <= 255
    requires forall i :: 0 <= i < 8 ==> m[i] == 255 - p[i] && r[i] == if p[i] + c > 255 then 255 else p[i] + c
    ensures w.pack(m) == w.pack(Vec(255, 8)) - w.pack(p)
    ensures w.pack(p) + w.minub8(w.pack(Vec(c, 8)), w.pack(m)) == w.pack(r)
  {
    SumOf(w, Vec(255, 8), m, p);
    var least := seq(8, i requires 0 <= i < 8 => Min(c, m[i]));
    LeastOf(w, Vec(c, 8), m, least);
    SumOf(w, r, p, least);
  }

  lemma LoweredOf(w: Alpha, p: seq<nat>, c: nat, r: seq<nat>)
    requires w.Valid() && |p| == |r| == 8 && Bytes(p) && c <= 255
    requires forall i :: 0 <= i < 8 ==> r[i] == if p[i] < c then 0 else p[i] - c
    ensures w.pack(p) - w.minub8(w.pack(Vec(c, 8)), w.pack(p)) == w.pack(r)
  {
    var least := seq(8, i requires 0 <= i < 8 => Min(c, p[i]));
    LeastOf(w, Vec(c, 8), p, least);
    SumOf(w, p, r, least);
  }

  // What mpeg2_idct_add_c makes of a row of pixels in its branch for blocks
  // with a DC coefficient only.
  function Clipped(p: seq<nat>, dc: int): (r: seq<nat>)
    requires Bytes(p) && -3840 <= dc < 3840
    ensures |r| == |p|
  {
    seq(|p|, i requires 0 <= i < |p| => Idct.Clip(dc + p[i]) as nat)
  }

  // The branch of mpeg2_idct_add_mvi for such blocks.
  method AddDc(w: Alpha, dc: int, dest: array<nat>, ghost d: seq<Row>)
    requires w.Valid() && -3840 <= dc < 3840 && dest.Length == 8 == |d|
    requires forall i :: 0 <= i < 8 ==> |d[i]| == 8 && Bytes(d[i]) && dest[i] == w.pack(d[i])
    modifies dest
    ensures forall i :: 0 <= i < 8 ==> dest[i] == w.pack(Clipped(d[i], dc))
  {
    var i := 0;
    while i < 8
      invariant 0 <= i <= 8
      invariant forall k :: 0 <= k < i ==> dest[k] == w.pack(Clipped(d[k], dc))
      invariant forall k :: i <= k < 8 ==> dest[k] == w.pack(d[k])
    {
      if dc > 0 {
        var c := if dc <= 255 then dc else 255;
        ghost var m := seq(8, k requires 0 <= k < 8 => 255 - d[i][k]);
        RaisedOf(w, d[i], c, m, Clipped(d[i], dc));
        var complement := w.pack(Vec(255, 8)) - dest[i];
        dest[i] := dest[i] + w.minub8(w.pack(Vec(c, 8)), complement);
      } else {
        var c := if -dc <= 255 then -dc else 255;
        LoweredOf(w, d[i], c, Clipped(d[i], dc));
        dest[i] := dest[i] - w.minub8(w.pack(Vec(c, 8)), dest[i]);
      }
      i := i + 1;
    }
  }

  // The operators exist: the values that stand for them are those of words.
  lemma Machine() returns (w: Alpha)
    ensures w.Valid()
  {
    w := Alpha(
      (l: seq<nat>) => Pack(l), (a: nat, b: nat) => Bitwise(AndOp, a, b), (a: nat, b: nat) => Avg2(a, b, 8),
      (a: nat, b: nat) => Bitwise(OrOp, a / 256, b * Words.Pow2(56)), (a: nat, b: nat) => Minub8(a, b, 8));
  }
}
