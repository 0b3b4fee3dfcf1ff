// The tables of DCT coefficient codes in libmpeg2/vlc.h, and the code words of
// Tables B.14 and B.15 of ISO/IEC 13818-2 that they decode.
module DctTables {
  import opened Words
  import opened Wrappers

  // run: one more than the run of zeros; 65 for the escape, 129 for end of
  // block and for illegal codes. len: length of the code without its sign bit.
  datatype DctTab = DctTab(run: nat, level: nat, len: nat)

  // DCT_B14AC_5, indexed by the first 5 bits less 5.
  function B14AC5(i: nat): (e: DctTab)
    requires i < 27
    ensures 1 <= e.run && (e.run <= 65 || e.run == 129) && e.len <= 15
  {
    if i < 1 then DctTab(1, 3, 5) else if i < 2 then DctTab(5, 1, 5) else if i < 3 then DctTab(4, 1, 5) else
    if i < 5 then DctTab(1, 2, 4) else if i < 7 then DctTab(3, 1, 4) else if i < 11 then DctTab(2, 1, 3) else
    if i < 19 then DctTab(129, 0, 2) else DctTab(1, 1, 2)
  }

  // DCT_B14DC_5, indexed by the first 5 bits less 5.
  function B14DC5(i: nat): (e: DctTab)
    requires i < 27
    ensures 1 <= e.run && (e.run <= 65 || e.run == 129) && e.len <= 15
  {
    if i < 1 then DctTab(1, 3, 5) else if i < 2 then DctTab(5, 1, 5) else if i < 3 then DctTab(4, 1, 5) else
    if i < 5 then DctTab(1, 2, 4) else if i < 7 then DctTab(3, 1, 4) else if i < 11 then DctTab(2, 1, 3) else
    DctTab(1, 1, 1)
  }

  // DCT_B14_8, indexed by the first 8 bits less 4.
  function B14Tab8(i: nat): (e: DctTab)
    requires i < 36
    ensures 1 <= e.run <= 65 && e.len <= 15
  {
    if i < 4 then DctTab(65, 0, 12) else if i < 6 then DctTab(3, 2, 7) else if i < 8 then DctTab(10, 1, 7) else
    if i < 10 then DctTab(1, 4, 7) else if i < 12 then DctTab(9, 1, 7) else if i < 16 then DctTab(8, 1, 6) else
    if i < 20 then DctTab(7, 1, 6) else if i < 24 then DctTab(2, 2, 6) else if i < 28 then DctTab(6, 1, 6) else
    if i < 29 then DctTab(14, 1, 8) else if i < 30 then DctTab(1, 6, 8) else
    if i < 31 then DctTab(13, 1, 8) else if i < 32 then DctTab(12, 1, 8) else
    if i < 33 then DctTab(4, 2, 8) else if i < 34 then DctTab(2, 3, 8) else if i < 35 then DctTab(1, 5, 8) else
    DctTab(11, 1, 8)
  }

  // DCT_B14_10, indexed by the first 10 bits less 8.
  function B14Tab10(i: nat): (e: DctTab)
    requires i < 8
    ensures 1 <= e.run && (e.run <= 65 || e.run == 129) && e.len <= 15
  {
    if i < 1 then DctTab(17, 1, 10) else if i < 2 then DctTab(6, 2, 10) else if i < 3 then DctTab(1, 7, 10) else
    if i < 4 then DctTab(3, 3, 10) else if i < 5 then DctTab(2, 4, 10) else if i < 6 then DctTab(16, 1, 10) else
    if i < 7 then DctTab(15, 1, 10) else DctTab(5, 2, 10)
  }

  // DCT_B15_8, indexed by the first 8 bits less 4.
  function B15Tab8(i: nat): (e: DctTab)
    requires i < 252
    ensures 1 <= e.run && (e.run <= 65 || e.run == 129) && e.len <= 15
  {
    if i < 4 then DctTab(65, 0, 12) else if i < 6 then DctTab(8, 1, 7) else if i < 8 then DctTab(9, 1, 7) else
    if i < 10 then DctTab(7, 1, 7) else if i < 12 then DctTab(3, 2, 7) else if i < 16 then DctTab(1, 7, 6) else
    if i < 20 then DctTab(1, 6, 6) else if i < 24 then DctTab(5, 1, 6) else if i < 28 then DctTab(6, 1, 6) else
    if i < 29 then DctTab(2, 5, 8) else if i < 30 then DctTab(12, 1, 8) else
    if i < 31 then DctTab(1, 11, 8) else if i < 32 then DctTab(1, 10, 8) else
    if i < 33 then DctTab(14, 1, 8) else if i < 34 then DctTab(13, 1, 8) else
    if i < 35 then DctTab(4, 2, 8) else if i < 36 then DctTab(2, 4, 8) else if i < 44 then DctTab(3, 1, 5) else
    if i < 52 then DctTab(2, 2, 5) else if i < 60 then DctTab(4, 1, 5) else if i < 92 then DctTab(2, 1, 3) else
    if i < 108 then DctTab(129, 0, 4) else if i < 124 then DctTab(1, 3, 4) else
    if i < 188 then DctTab(1, 1, 2) else if i < 220 then DctTab(1, 2, 3) else
    if i < 228 then DctTab(1, 4, 5) else if i < 236 then DctTab(1, 5, 5) else
    if i < 238 then DctTab(10, 1, 7) else if i < 240 then DctTab(2, 3, 7) else
    if i < 242 then DctTab(11, 1, 7) else if i < 244 then DctTab(1, 8, 7) else
    if i < 246 then DctTab(1, 9, 7) else if i < 247 then DctTab(1, 12, 8) else
    if i < 248 then DctTab(1, 13, 8) else if i < 249 then DctTab(3, 3, 8) else
    if i < 250 then DctTab(5, 2, 8) else if i < 251 then DctTab(1, 14, 8) else DctTab(1, 15, 8)
  }

  // DCT_B15_10, indexed by the first 10 bits less 8.
  function B15Tab10(i: nat): (e: DctTab)
    requires i < 8
    ensures 1 <= e.run && (e.run <= 65 || e.run == 129) && e.len <= 15
  {
    if i < 2 then DctTab(6, 2, 9) else if i < 4 then DctTab(15, 1, 9) else if i < 5 then DctTab(3, 4, 10) else
    if i < 6 then DctTab(17, 1, 10) else DctTab(16, 1, 9)
  }

  // DCT_13, indexed by the first 13 bits less 16.
  function Tab13(i: nat): (e: DctTab)
    requires i < 48
    ensures 1 <= e.run && (e.run <= 65 || e.run == 129) && e.len <= 15
  {
    if i < 1 then DctTab(11, 2, 13) else if i < 2 then DctTab(10, 2, 13) else
    if i < 3 then DctTab(6, 3, 13) else if i < 4 then DctTab(4, 4, 13) else if i < 5 then DctTab(3, 5, 13) else
    if i < 6 then DctTab(2, 7, 13) else if i < 7 then DctTab(2, 6, 13) else if i < 8 then DctTab(1, 15, 13) else
    if i < 9 then DctTab(1, 14, 13) else if i < 10 then DctTab(1, 13, 13) else
    if i < 11 then DctTab(1, 12, 13) else if i < 12 then DctTab(27, 1, 13) else
    if i < 13 then DctTab(26, 1, 13) else if i < 14 then DctTab(25, 1, 13) else
    if i < 15 then DctTab(24, 1, 13) else if i < 16 then DctTab(23, 1, 13) else
    if i < 18 then DctTab(1, 11, 12) else if i < 20 then DctTab(9, 2, 12) else
    if i < 22 then DctTab(5, 3, 12) else if i < 24 then DctTab(1, 10, 12) else
    if i < 26 then DctTab(3, 4, 12) else if i < 28 then DctTab(8, 2, 12) else
    if i < 30 then DctTab(22, 1, 12) else if i < 32 then DctTab(21, 1, 12) else
    if i < 34 then DctTab(1, 9, 12) else if i < 36 then DctTab(20, 1, 12) else
    if i < 38 then DctTab(19, 1, 12) else if i < 40 then DctTab(2, 5, 12) else
    if i < 42 then DctTab(4, 3, 12) else if i < 44 then DctTab(1, 8, 12) else
    if i < 46 then DctTab(7, 2, 12) else DctTab(18, 1, 12)
  }

  // DCT_15, indexed by the first 15 bits less 16.
  function Tab15(i: nat): (e: DctTab)
    requires i < 48
    ensures 1 <= e.run && (e.run <= 65 || e.run == 129) && e.len <= 15
  {
    if i < 1 then DctTab(1, 40, 15) else if i < 2 then DctTab(1, 39, 15) else
    if i < 3 then DctTab(1, 38, 15) else if i < 4 then DctTab(1, 37, 15) else
    if i < 5 then DctTab(1, 36, 15) else if i < 6 then DctTab(1, 35, 15) else
    if i < 7 then DctTab(1, 34, 15) else if i < 8 then DctTab(1, 33, 15) else
    if i < 9 then DctTab(1, 32, 15) else if i < 10 then DctTab(2, 14, 15) else
    if i < 11 then DctTab(2, 13, 15) else if i < 12 then DctTab(2, 12, 15) else
    if i < 13 then DctTab(2, 11, 15) else if i < 14 then DctTab(2, 10, 15) else
    if i < 15 then DctTab(2, 9, 15) else if i < 16 then DctTab(2, 8, 15) else
    if i < 18 then DctTab(1, 31, 14) else if i < 20 then DctTab(1, 30, 14) else
    if i < 22 then DctTab(1, 29, 14) else if i < 24 then DctTab(1, 28, 14) else
    if i < 26 then DctTab(1, 27, 14) else if i < 28 then DctTab(1, 26, 14) else
    if i < 30 then DctTab(1, 25, 14) else if i < 32 then DctTab(1, 24, 14) else
    if i < 34 then DctTab(1, 23, 14) else if i < 36 then DctTab(1, 22, 14) else
    if i < 38 then DctTab(1, 21, 14) else if i < 40 then DctTab(1, 20, 14) else
    if i < 42 then DctTab(1, 19, 14) else if i < 44 then DctTab(1, 18, 14) else
    if i < 46 then DctTab(1, 17, 14) else DctTab(1, 16, 14)
  }

  // DCT_16, indexed by the first 16 bits less 0.
  function Tab16(i: nat): (e: DctTab)
    requires i < 32
    ensures 1 <= e.run && (e.run <= 65 || e.run == 129) && e.len <= 15
  {
    if i < 16 then DctTab(129, 0, 0) else if i < 17 then DctTab(2, 18, 0) else
    if i < 18 then DctTab(2, 17, 0) else if i < 19 then DctTab(2, 16, 0) else
    if i < 20 then DctTab(2, 15, 0) else if i < 21 then DctTab(7, 3, 0) else
    if i < 22 then DctTab(17, 2, 0) else if i < 23 then DctTab(16, 2, 0) else
    if i < 24 then DctTab(15, 2, 0) else if i < 25 then DctTab(14, 2, 0) else
    if i < 26 then DctTab(13, 2, 0) else if i < 27 then DctTab(12, 2, 0) else
    if i < 28 then DctTab(32, 1, 0) else if i < 29 then DctTab(31, 1, 0) else
    if i < 30 then DctTab(30, 1, 0) else if i < 31 then DctTab(29, 1, 0) else DctTab(28, 1, 0)
  }

  // ---- Code words of the standard, without the sign bit, by length ----

  datatype Code = Code(len: nat, value: nat)

  // Number of 16-bit words that start with the same len bits.
  function Span(len: nat): nat
  {
    if len <= 8 then
      (if len == 1 then 0x8000 else if len == 2 then 0x4000 else if len == 3 then 0x2000 else if len == 4 then 0x1000
       else if len == 5 then 0x800 else if len == 6 then 0x400 else if len == 7 then 0x200 else 0x100)
    else
      (if len == 9 then 0x80 else if len == 10 then 0x40 else if len == 11 then 0x20 else if len == 12 then 0x10
       else if len == 13 then 8 else if len == 14 then 4 else if len == 15 then 2 else 1)
  }

  predicate FitsWidth(c: Code)
  {
    1 <= c.len <= 16 && c.value < TWO_16 / Span(c.len)
  }

  function B14Short(run: nat, level: nat): (c: Option<Code>)
    ensures c.Some? ==> FitsWidth(c.value) && level > 0
  {
    match (run, level)
    case (0, 1) => Some(Code(2, 0x3)) case (0, 2) => Some(Code(4, 0x4)) case (0, 3) => Some(Code(5, 0x5))
    case (1, 1) => Some(Code(3, 0x3)) case (2, 1) => Some(Code(4, 0x5)) case (3, 1) => Some(Code(5, 0x7))
    case (4, 1) => Some(Code(5, 0x6))
    case _ => None
  }

  function B14Code8(run: nat, level: nat): (c: Option<Code>)
    ensures c.Some? ==> FitsWidth(c.value) && level > 0
  {
    match (run, level)
    case (0, 4) => Some(Code(7, 0x6)) case (0, 5) => Some(Code(8, 0x26)) case (0, 6) => Some(Code(8, 0x21))
    case (1, 2) => Some(Code(6, 0x6)) case (1, 3) => Some(Code(8, 0x25)) case (2, 2) => Some(Code(7, 0x4))
    case (3, 2) => Some(Code(8, 0x24)) case (5, 1) => Some(Code(6, 0x7)) case (6, 1) => Some(Code(6, 0x5))
    case (7, 1) => Some(Code(6, 0x4)) case (8, 1) => Some(Code(7, 0x7)) case (9, 1) => Some(Code(7, 0x5))
    case (10, 1) => Some(Code(8, 0x27)) case (11, 1) => Some(Code(8, 0x23)) case (12, 1) => Some(Code(8, 0x22))
    case (13, 1) => Some(Code(8, 0x20))
    case _ => None
  }

  function B14Code10(run: nat, level: nat): (c: Option<Code>)
    ensures c.Some? ==> FitsWidth(c.value) && level > 0
  {
    match (run, level)
    case (0, 7) => Some(Code(10, 0xa)) case (1, 4) => Some(Code(10, 0xc)) case (2, 3) => Some(Code(10, 0xb))
    case (4, 2) => Some(Code(10, 0xf)) case (5, 2) => Some(Code(10, 0x9)) case (14, 1) => Some(Code(10, 0xe))
    case (15, 1) => Some(Code(10, 0xd)) case (16, 1) => Some(Code(10, 0x8))
    case _ => None
  }

  function B15Code8(run: nat, level: nat): (c: Option<Code>)
    ensures c.Some? ==> FitsWidth(c.value) && level > 0
  {
    match (run, level)
    case (0, 1) => Some(Code(2, 0x2)) case (0, 2) => Some(Code(3, 0x6)) case (0, 3) => Some(Code(4, 0x7))
    case (0, 4) => Some(Code(5, 0x1c)) case (0, 5) => Some(Code(5, 0x1d)) case (0, 6) => Some(Code(6, 0x5))
    case (0, 7) => Some(Code(6, 0x4)) case (0, 8) => Some(Code(7, 0x7b)) case (0, 9) => Some(Code(7, 0x7c))
    case (0, 10) => Some(Code(8, 0x23)) case (0, 11) => Some(Code(8, 0x22)) case (0, 12) => Some(Code(8, 0xfa))
    case (0, 13) => Some(Code(8, 0xfb)) case (0, 14) => Some(Code(8, 0xfe)) case (0, 15) => Some(Code(8, 0xff))
    case (1, 1) => Some(Code(3, 0x2)) case (1, 2) => Some(Code(5, 0x6)) case (1, 3) => Some(Code(7, 0x79))
    case (1, 4) => Some(Code(8, 0x27)) case (1, 5) => Some(Code(8, 0x20)) case (2, 1) => Some(Code(5, 0x5))
    case (2, 2) => Some(Code(7, 0x7)) case (2, 3) => Some(Code(8, 0xfc)) case (3, 1) => Some(Code(5, 0x7))
    case (3, 2) => Some(Code(8, 0x26)) case (4, 1) => Some(Code(6, 0x6)) case (4, 2) => Some(Code(8, 0xfd))
    case (5, 1) => Some(Code(6, 0x7)) case (6, 1) => Some(Code(7, 0x6)) case (7, 1) => Some(Code(7, 0x4))
    case (8, 1) => Some(Code(7, 0x5)) case (9, 1) => Some(Code(7, 0x78)) case (10, 1) => Some(Code(7, 0x7a))
    case (11, 1) => Some(Code(8, 0x21)) case (12, 1) => Some(Code(8, 0x25)) case (13, 1) => Some(Code(8, 0x24))
    case _ => None
  }

  function B15Code10(run: nat, level: nat): (c: Option<Code>)
    ensures c.Some? ==> FitsWidth(c.value) && level > 0
  {
    match (run, level)
    case (2, 4) => Some(Code(10, 0xc)) case (5, 2) => Some(Code(9, 0x4)) case (14, 1) => Some(Code(9, 0x5))
    case (15, 1) => Some(Code(9, 0x7)) case (16, 1) => Some(Code(10, 0xd))
    case _ => None
  }

  function Code13(run: nat, level: nat): (c: Option<Code>)
    ensures c.Some? ==> FitsWidth(c.value) && level > 0
  {
    match (run, level)
    case (0, 8) => Some(Code(12, 0x1d)) case (0, 9) => Some(Code(12, 0x18)) case (0, 10) => Some(Code(12, 0x13))
    case (0, 11) => Some(Code(12, 0x10)) case (0, 12) => Some(Code(13, 0x1a))
    case (0, 13) => Some(Code(13, 0x19)) case (0, 14) => Some(Code(13, 0x18))
    case (0, 15) => Some(Code(13, 0x17)) case (1, 5) => Some(Code(12, 0x1b)) case (1, 6) => Some(Code(13, 0x16))
    case (1, 7) => Some(Code(13, 0x15)) case (2, 4) => Some(Code(12, 0x14)) case (2, 5) => Some(Code(13, 0x14))
    case (3, 3) => Some(Code(12, 0x1c)) case (3, 4) => Some(Code(13, 0x13)) case (4, 3) => Some(Code(12, 0x12))
    case (5, 3) => Some(Code(13, 0x12)) case (6, 2) => Some(Code(12, 0x1e)) case (7, 2) => Some(Code(12, 0x15))
    case (8, 2) => Some(Code(12, 0x11)) case (9, 2) => Some(Code(13, 0x11)) case (10, 2) => Some(Code(13, 0x10))
    case (17, 1) => Some(Code(12, 0x1f)) case (18, 1) => Some(Code(12, 0x1a))
    case (19, 1) => Some(Code(12, 0x19)) case (20, 1) => Some(Code(12, 0x17))
    case (21, 1) => Some(Code(12, 0x16)) case (22, 1) => Some(Code(13, 0x1f))
    case (23, 1) => Some(Code(13, 0x1e)) case (24, 1) => Some(Code(13, 0x1d))
    case (25, 1) => Some(Code(13, 0x1c)) case (26, 1) => Some(Code(13, 0x1b))
    case _ => None
  }

  function Code15(run: nat, level: nat): (c: Option<Code>)
    ensures c.Some? ==> FitsWidth(c.value) && level > 0
  {
    match (run, level)
    case (0, 16) => Some(Code(14, 0x1f)) case (0, 17) => Some(Code(14, 0x1e))
    case (0, 18) => Some(Code(14, 0x1d)) case (0, 19) => Some(Code(14, 0x1c))
    case (0, 20) => Some(Code(14, 0x1b)) case (0, 21) => Some(Code(14, 0x1a))
    case (0, 22) => Some(Code(14, 0x19)) case (0, 23) => Some(Code(14, 0x18))
    case (0, 24) => Some(Code(14, 0x17)) case (0, 25) => Some(Code(14, 0x16))
    case (0, 26) => Some(Code(14, 0x15)) case (0, 27) => Some(Code(14, 0x14))
    case (0, 28) => Some(Code(14, 0x13)) case (0, 29) => Some(Code(14, 0x12))
    case (0, 30) => Some(Code(14, 0x11)) case (0, 31) => Some(Code(14, 0x10))
    case (0, 32) => Some(Code(15, 0x18)) case (0, 33) => Some(Code(15, 0x17))
    case (0, 34) => Some(Code(15, 0x16)) case (0, 35) => Some(Code(15, 0x15))
    case (0, 36) => Some(Code(15, 0x14)) case (0, 37) => Some(Code(15, 0x13))
    case (0, 38) => Some(Code(15, 0x12)) case (0, 39) => Some(Code(15, 0x11))
    case (0, 40) => Some(Code(15, 0x10)) case (1, 8) => Some(Code(15, 0x1f)) case (1, 9) => Some(Code(15, 0x1e))
    case (1, 10) => Some(Code(15, 0x1d)) case (1, 11) => Some(Code(15, 0x1c))
    case (1, 12) => Some(Code(15, 0x1b)) case (1, 13) => Some(Code(15, 0x1a))
    case (1, 14) => Some(Code(15, 0x19))
    case _ => None
  }

  function Code16(run: nat, level: nat): (c: Option<Code>)
    ensures c.Some? ==> FitsWidth(c.value) && level > 0
  {
    match (run, level)
    case (1, 15) => Some(Code(16, 0x13)) case (1, 16) => Some(Code(16, 0x12))
    case (1, 17) => Some(Code(16, 0x11)) case (1, 18) => Some(Code(16, 0x10))
    case (6, 3) => Some(Code(16, 0x14)) case (11, 2) => Some(Code(16, 0x1a))
    case (12, 2) => Some(Code(16, 0x19)) case (13, 2) => Some(Code(16, 0x18))
    case (14, 2) => Some(Code(16, 0x17)) case (15, 2) => Some(Code(16, 0x16))
    case (16, 2) => Some(Code(16, 0x15)) case (27, 1) => Some(Code(16, 0x1f))
    case (28, 1) => Some(Code(16, 0x1e)) case (29, 1) => Some(Code(16, 0x1d))
    case (30, 1) => Some(Code(16, 0x1c)) case (31, 1) => Some(Code(16, 0x1b))
    case _ => None
  }

  function FirstOf(a: Option<Code>, b: Option<Code>): Option<Code>
  {
    if a.Some? then a else b
  }

  // The codes of more than ten bits, common to both tables.
  function LongCode(run: nat, level: nat): (c: Option<Code>)
    ensures c.Some? ==> FitsWidth(c.value) && level > 0
  {
    FirstOf(Code13(run, level), FirstOf(Code15(run, level), Code16(run, level)))
  }

  function B14Code(run: nat, level: nat): (c: Option<Code>)
    ensures c.Some? ==> FitsWidth(c.value) && level > 0
  {
    FirstOf(B14Short(run, level), FirstOf(B14Code8(run, level), FirstOf(B14Code10(run, level), LongCode(run, level))))
  }

  function B15Code(run: nat, level: nat): (c: Option<Code>)
    ensures c.Some? ==> FitsWidth(c.value) && level > 0
  {
    FirstOf(B15Code8(run, level), FirstOf(B15Code10(run, level), LongCode(run, level)))
  }

  // The 16-bit word w starts with the code word c.
  predicate StartsWith(w: nat, c: Code)
  {
    c.value * Span(c.len) <= w < (c.value + 1) * Span(c.len)
  }

  // ---- Table look-up of the decoder: thresholds on the next 16 bits ----

  function LongLookup(w: nat): (e: DctTab)
    requires w < 0x200
    ensures 1 <= e.run && (e.run <= 65 || e.run == 129) && e.len <= 15
  {
    if w >= 0x80 then Tab13(w / 8 - 16)
    else if w >= 0x20 then Tab15(w / 2 - 16)
    else Tab16(w)
  }

  function B14Lookup(w: nat, first: bool): (e: DctTab)
    requires w < TWO_16
    ensures 1 <= e.run && (e.run <= 65 || e.run == 129) && e.len <= 15
  {
    if w >= 0x2800 then (if first then B14DC5(w / 2048 - 5) else B14AC5(w / 2048 - 5))
    else if w >= 0x400 then B14Tab8(w / 256 - 4)
    else if w >= 0x200 then B14Tab10(w / 64 - 8)
    else LongLookup(w)
  }

  function B15Lookup(w: nat): (e: DctTab)
    requires w < TWO_16
    ensures 1 <= e.run && (e.run <= 65 || e.run == 129) && e.len <= 15
  {
    if w >= 0x400 then B15Tab8(w / 256 - 4)
    else if w >= 0x200 then B15Tab10(w / 64 - 8)
    else LongLookup(w)
  }

  // Bits of the code that a look-up stands for: codes found in Tab16 have
  // already left the window when their entry is used.
  function CodeLength(w: nat, e: DctTab): nat
  {
    if w < 0x20 then 16 else e.len
  }

  predicate Decodes(w: nat, c: Code, run: nat, level: nat, e: DctTab)
  {
    e.run == run + 1 && e.level == level && CodeLength(w, e) == c.len
  }

  lemma B14ShortDecodes(run: nat, level: nat, w: nat)
    requires w < TWO_16 && B14Short(run, level).Some? && StartsWith(w, B14Short(run, level).value)
    ensures Decodes(w, B14Short(run, level).value, run, level, B14Lookup(w, false))
    ensures (run, level) != (0, 1) ==> B14Lookup(w, true) == B14Lookup(w, false)
  {
  }

  lemma B14Code8Decodes(run: nat, level: nat, w: nat)
    requires w < TWO_16 && B14Code8(run, level).Some? && StartsWith(w, B14Code8(run, level).value)
    ensures forall first :: Decodes(w, B14Code8(run, level).value, run, level, B14Lookup(w, first))
  {
  }

  lemma B14Code10Decodes(run: nat, level: nat, w: nat)
    requires w < TWO_16 && B14Code10(run, level).Some? && StartsWith(w, B14Code10(run, level).value)
    ensures forall first :: Decodes(w, B14Code10(run, level).value, run, level, B14Lookup(w, first))
  {
  }

  lemma B15Code8Decodes(run: nat, level: nat, w: nat)
    requires w < TWO_16 && B15Code8(run, level).Some? && StartsWith(w, B15Code8(run, level).value)
    ensures Decodes(w, B15Code8(run, level).value, run, level, B15Lookup(w))
  {
    if run == 0 && level <= 7 {
    } else if run == 0 {
    } else if run <= 4 {
    } else {
    }
  }

  lemma B15Code10Decodes(run: nat, level: nat, w: nat)
    requires w < TWO_16 && B15Code10(run, level).Some? && StartsWith(w, B15Code10(run, level).value)
    ensures Decodes(w, B15Code10(run, level).value, run, level, B15Lookup(w))
  {
  }

  lemma Code13Decodes(run: nat, level: nat, w: nat)
    requires w < TWO_16 && Code13(run, level).Some? && StartsWith(w, Code13(run, level).value)
    ensures w < 0x200 && Decodes(w, Code13(run, level).value, run, level, LongLookup(w))
  {
  }

  lemma Code15Decodes(run: nat, level: nat, w: nat)
    requires w < TWO_16 && Code15(run, level).Some? && StartsWith(w, Code15(run, level).value)
    ensures w < 0x200 && Decodes(w, Code15(run, level).value, run, level, LongLookup(w))
  {
  }

  lemma Code16Decodes(run: nat, level: nat, w: nat)
    requires w < TWO_16 && Code16(run, level).Some? && StartsWith(w, Code16(run, level).value)
    ensures w < 0x200 && Decodes(w, Code16(run, level).value, run, level, LongLookup(w))
  {
  }
}
