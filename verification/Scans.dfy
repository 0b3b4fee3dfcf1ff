// The two scan orders of libmpeg2/header.c, as libmpeg2/idct.c rearranges them
// for the row and column order of its transform.
module Scans {
  // mpeg2_scan_norm
  function ScanNorm(k: nat): nat
  {
    match k
    case 0 => 0 case 1 => 1 case 2 => 8 case 3 => 16 case 4 => 9 case 5 => 2 case 6 => 3 case 7 => 10
    case 8 => 17 case 9 => 24 case 10 => 32 case 11 => 25 case 12 => 18 case 13 => 11 case 14 => 4 case 15 => 5
    case 16 => 12 case 17 => 19 case 18 => 26 case 19 => 33 case 20 => 40 case 21 => 48 case 22 => 41 case 23 => 34
    case 24 => 27 case 25 => 20 case 26 => 13 case 27 => 6 case 28 => 7 case 29 => 14 case 30 => 21 case 31 => 28
    case 32 => 35 case 33 => 42 case 34 => 49 case 35 => 56 case 36 => 57 case 37 => 50 case 38 => 43 case 39 => 36
    case 40 => 29 case 41 => 22 case 42 => 15 case 43 => 23 case 44 => 30 case 45 => 37 case 46 => 44 case 47 => 51
    case 48 => 58 case 49 => 59 case 50 => 52 case 51 => 45 case 52 => 38 case 53 => 31 case 54 => 39 case 55 => 46
    case 56 => 53 case 57 => 60 case 58 => 61 case 59 => 54 case 60 => 47 case 61 => 55 case 62 => 62 case 63 => 63
    case _ => 0
  }

  // Where the zig-zag scan visits a position.
  function PlaceNorm(k: nat): nat
  {
    match k
    case 0 => 0 case 1 => 1 case 2 => 5 case 3 => 6 case 4 => 14 case 5 => 15 case 6 => 27 case 7 => 28
    case 8 => 2 case 9 => 4 case 10 => 7 case 11 => 13 case 12 => 16 case 13 => 26 case 14 => 29 case 15 => 42
    case 16 => 3 case 17 => 8 case 18 => 12 case 19 => 17 case 20 => 25 case 21 => 30 case 22 => 41 case 23 => 43
    case 24 => 9 case 25 => 11 case 26 => 18 case 27 => 24 case 28 => 31 case 29 => 40 case 30 => 44 case 31 => 53
    case 32 => 10 case 33 => 19 case 34 => 23 case 35 => 32 case 36 => 39 case 37 => 45 case 38 => 52 case 39 => 54
    case 40 => 20 case 41 => 22 case 42 => 33 case 43 => 38 case 44 => 46 case 45 => 51 case 46 => 55 case 47 => 60
    case 48 => 21 case 49 => 34 case 50 => 37 case 51 => 47 case 52 => 50 case 53 => 56 case 54 => 59 case 55 => 61
    case 56 => 35 case 57 => 36 case 58 => 48 case 59 => 49 case 60 => 57 case 61 => 58 case 62 => 62 case 63 => 63
    case _ => 0
  }

  // mpeg2_scan_alt
  function ScanAlt(k: nat): nat
  {
    match k
    case 0 => 0 case 1 => 8 case 2 => 16 case 3 => 24 case 4 => 1 case 5 => 9 case 6 => 2 case 7 => 10
    case 8 => 17 case 9 => 25 case 10 => 32 case 11 => 40 case 12 => 48 case 13 => 56 case 14 => 57 case 15 => 49
    case 16 => 41 case 17 => 33 case 18 => 26 case 19 => 18 case 20 => 3 case 21 => 11 case 22 => 4 case 23 => 12
    case 24 => 19 case 25 => 27 case 26 => 34 case 27 => 42 case 28 => 50 case 29 => 58 case 30 => 35 case 31 => 43
    case 32 => 51 case 33 => 59 case 34 => 20 case 35 => 28 case 36 => 5 case 37 => 13 case 38 => 6 case 39 => 14
    case 40 => 21 case 41 => 29 case 42 => 36 case 43 => 44 case 44 => 52 case 45 => 60 case 46 => 37 case 47 => 45
    case 48 => 53 case 49 => 61 case 50 => 22 case 51 => 30 case 52 => 7 case 53 => 15 case 54 => 23 case 55 => 31
    case 56 => 38 case 57 => 46 case 58 => 54 case 59 => 62 case 60 => 39 case 61 => 47 case 62 => 55 case 63 => 63
    case _ => 0
  }

  // Where the alternate scan visits a position.
  function PlaceAlt(k: nat): nat
  {
    match k
    case 0 => 0 case 1 => 4 case 2 => 6 case 3 => 20 case 4 => 22 case 5 => 36 case 6 => 38 case 7 => 52
    case 8 => 1 case 9 => 5 case 10 => 7 case 11 => 21 case 12 => 23 case 13 => 37 case 14 => 39 case 15 => 53
    case 16 => 2 case 17 => 8 case 18 => 19 case 19 => 24 case 20 => 34 case 21 => 40 case 22 => 50 case 23 => 54
    case 24 => 3 case 25 => 9 case 26 => 18 case 27 => 25 case 28 => 35 case 29 => 41 case 30 => 51 case 31 => 55
    case 32 => 10 case 33 => 17 case 34 => 26 case 35 => 30 case 36 => 42 case 37 => 46 case 38 => 56 case 39 => 60
    case 40 => 11 case 41 => 16 case 42 => 27 case 43 => 31 case 44 => 43 case 45 => 47 case 46 => 57 case 47 => 61
    case 48 => 12 case 49 => 15 case 50 => 28 case 51 => 32 case 52 => 44 case 53 => 48 case 54 => 58 case 55 => 62
    case 56 => 13 case 57 => 14 case 58 => 29 case 59 => 33 case 60 => 45 case 61 => 49 case 62 => 59 case 63 => 63
    case _ => 0
  }

  // The zig-zag runs along the anti-diagonals, up those with an even sum of row
  // and column and down the others, and turns at the edges (Figure 7-2 of ISO/IEC
  // 13818-2).
  function ZigZagNext(j: nat): nat
    requires j < 63
  {
    var (row, col) := (j / 8, j % 8);
    if (row + col) % 2 == 0 then
      if col == 7 then j + 8 else if row == 0 then j + 1 else j - 7
    else
      if row == 7 then j + 1 else if col == 0 then j + 8 else j + 7
  }

  lemma ZigZag(k: nat)
    requires k < 63
    ensures ScanNorm(0) == 0 && ScanNorm(k) < 63 && ScanNorm(k + 1) == ZigZagNext(ScanNorm(k))
  {
  }

  // The alternate scan runs down a column by one position, but up the lower parts
  // of the second and third columns, until it jumps to another column (Figure 7-3).
  function AltNext(j: nat): nat
    requires j < 63
  {
    match j
    case 24 => 1 case 9 => 2 case 10 => 17 case 25 => 32 case 56 => 57 case 33 => 26 case 18 => 3 case 11 => 4
    case 12 => 19 case 27 => 34 case 58 => 35 case 59 => 20 case 28 => 5 case 13 => 6 case 14 => 21 case 29 => 36
    case 60 => 37 case 61 => 22 case 30 => 7 case 15 => 23 case 31 => 38 case 62 => 39
    case 57 => 49 case 49 => 41 case 41 => 33 case 26 => 18
    case _ => j + 8
  }

  lemma AltRuns(k: nat)
    requires k < 63
    ensures ScanAlt(0) == 0 && ScanAlt(k) < 63 && ScanAlt(k + 1) == AltNext(ScanAlt(k))
  {
  }

  // ((j & 0x36) >> 1) | ((j & 0x09) << 2), on the six bits of j
  function Rearranged(j: nat): (r: nat)
  {
    j / 2 % 4 + j % 2 * 4 + j / 16 % 4 * 8 + j / 8 % 2 * 32
  }

  lemma RearrangedDigits(a: nat, b: nat, c: nat, d: nat, j: nat)
    requires a < 2 && b < 4 && c < 2 && d < 4 && j == a + 2 * b + 8 * c + 16 * d
    ensures Rearranged(j) == b + 4 * a + 8 * d + 32 * c
  {
    assert j % 2 == a && j / 2 == b + 4 * (c + 2 * d);
    assert j / 8 == c + 2 * d && j / 16 == d;
  }

  lemma DigitsOf(j: nat) returns (a: nat, b: nat, c: nat, d: nat)
    requires j < 64
    ensures a < 2 && b < 4 && c < 2 && d < 4 && j == a + 2 * b + 8 * c + 16 * d
  {
    a, d := j % 2, j / 16;
    c := j % 16 / 8;
    b := j % 8 / 2;
  }

  lemma ReadDigits(a: nat, b: nat, c: nat, d: nat, r: nat)
    requires a < 2 && b < 4 && c < 2 && d < 4 && r == b + 4 * a + 8 * d + 32 * c
    ensures r < 64 && r % 4 == b && r / 4 % 2 == a && r / 8 % 4 == d && r / 32 == c
  {
    assert r / 4 == a + 2 * (d + 4 * c) && r / 8 == d + 4 * c;
  }

  lemma RearrangedInjective(j: nat, k: nat)
    requires j < 64 && k < 64
    ensures Rearranged(j) < 64 && (Rearranged(j) == Rearranged(k) ==> j == k)
  {
    var a, b, c, d := DigitsOf(j);
    RearrangedDigits(a, b, c, d, j);
    ReadDigits(a, b, c, d, Rearranged(j));
    var a', b', c', d' := DigitsOf(k);
    RearrangedDigits(a', b', c', d', k);
    ReadDigits(a', b', c', d', Rearranged(k));
  }

  // A scan order starts at position 0, ends at position 63 and visits every
  // position once.
  predicate IsScan(scan: seq<nat>)
  {
    && |scan| == 64 && scan[0] == 0 && scan[63] == 63
    && (forall k :: 0 <= k < 64 ==> scan[k] < 64)
    && (forall k, l :: 0 <= k < l < 64 ==> scan[k] != scan[l])
  }

  // What is left in mpeg2_scan_norm and mpeg2_scan_alt by mpeg2_idct_init.
  function Table(alternate: bool): (scan: seq<nat>)
    ensures |scan| == 64
  {
    seq(64, (k: nat) => Rearranged(if alternate then ScanAlt(k) else ScanNorm(k)))
  }

  lemma ScanNormPlace(k: nat)
    requires k < 64
    ensures ScanNorm(k) < 64 && PlaceNorm(ScanNorm(k)) == k
  {
  }

  lemma PlaceInScan(j: nat)
    requires j < 64
    ensures PlaceNorm(j) < 64
  {
  }

  lemma ScanOfPlace(j: nat)
    requires j < 64
    ensures ScanNorm(PlaceNorm(j)) == j
  {
  }

  lemma ScanAltPlace(k: nat)
    requires k < 64
    ensures ScanAlt(k) < 64 && PlaceAlt(ScanAlt(k)) == k
  {
  }

  // Both tables are scan orders.
  lemma TableIsScan(alternate: bool)
    ensures IsScan(Table(alternate))
  {
    var scan := Table(alternate);
    forall k | 0 <= k < 64
      ensures scan[k] < 64
    {
      TableAt(alternate, k, k);
    }
    forall k, l | 0 <= k < l < 64
      ensures scan[k] != scan[l]
    {
      TableAt(alternate, k, l);
    }
    TableEnds(alternate);
  }

  lemma TableAt(alternate: bool, k: nat, l: nat)
    requires k < 64 && l < 64
    ensures Table(alternate)[k] < 64 && (k != l ==> Table(alternate)[k] != Table(alternate)[l])
  {
    if alternate {
      ScanAltPlace(k);
      ScanAltPlace(l);
      RearrangedInjective(ScanAlt(k), ScanAlt(l));
    } else {
      ScanNormPlace(k);
      ScanNormPlace(l);
      RearrangedInjective(ScanNorm(k), ScanNorm(l));
    }
  }

  lemma TableEnds(alternate: bool)
    ensures Table(alternate)[0] == 0 && Table(alternate)[63] == 63
  {
    assert ScanNorm(0) == 0 && ScanAlt(0) == 0 && ScanNorm(63) == 63 && ScanAlt(63) == 63;
    RearrangedDigits(0, 0, 0, 0, 0);
    RearrangedDigits(1, 3, 1, 3, 63);
  }
}
