// The corruption tool of src/corrupt_mpeg2.c: the list of rules that are active
// is rebuilt only at the bits where it changes, and is nevertheless right at
// every byte.
module Corrupt {
  datatype Kind = Random | Value

  // A restriction to chunks and to bits of a chunk, both ends included.
  datatype Rule = Rule(kind: Kind, chunkStart: int, chunkStop: int, bitStart: int, bitStop: int)

  const NEVER: int := 0x7fff_ffff

  predicate ValidRule(r: Rule)
  {
    0 <= r.chunkStart && 0 <= r.bitStart <= r.bitStop < NEVER
  }

  // ---- Masks, most significant bit first ----

  // 0x80 >> b
  function Single(b: nat): bv8
  {
    match b
    case 0 => 0x80 case 1 => 0x40 case 2 => 0x20 case 3 => 0x10
    case 4 => 0x08 case 5 => 0x04 case 6 => 0x02 case _ => 0x01
  }

  // 0xff >> b
  function From(b: nat): bv8
  {
    match b
    case 0 => 0xff case 1 => 0x7f case 2 => 0x3f case 3 => 0x1f
    case 4 => 0x0f case 5 => 0x07 case 6 => 0x03 case _ => 0x01
  }

  // -1 << (7 - b)
  function UpTo(b: nat): bv8
  {
    match b
    case 0 => 0x80 case 1 => 0xc0 case 2 => 0xe0 case 3 => 0xf0
    case 4 => 0xf8 case 5 => 0xfc case 6 => 0xfe case _ => 0xff
  }

  predicate Has(m: bv8, b: nat)
  {
    m & Single(b) != 0
  }

  lemma FromHas(s: nat, b: nat)
    requires s < 8 && b < 8
    ensures Has(From(s), b) <==> s <= b
  {
  }

  lemma UpToHas(s: nat, b: nat)
    requires s < 8 && b < 8
    ensures Has(UpTo(s), b) <==> b <= s
  {
  }

  lemma AndHas(m: bv8, n: bv8, b: nat)
    ensures Has(m & n, b) <==> Has(m, b) && Has(n, b)
  {
  }

  lemma OrHas(m: bv8, n: bv8, b: nat)
    ensures Has(m | n, b) <==> Has(m, b) || Has(n, b)
  {
  }

  lemma XorAnd(m: bv8, n: bv8, s: bv8)
    ensures (m ^ n) & s == (m & s) ^ (n & s)
    ensures m ^ m == 0 && m ^ 0 == m && 0 ^ m == m
  {
  }

  lemma XorHas(m: bv8, n: bv8, b: nat)
    requires b < 8
    ensures Has(m ^ n, b) <==> Has(m, b) != Has(n, b)
  {
    XorAnd(m, n, Single(b));
    XorAnd(Single(b), 0, 0);
    OneBit(m, b);
    OneBit(n, b);
  }

  lemma NotHas(m: bv8, b: nat)
    ensures Has(!m, b) <==> !Has(m, b)
  {
  }

  // mask selects the bits of the byte at bit that the rule covers.
  predicate Covers(mask: bv8, r: Rule, bit: int)
  {
    forall b :: 0 <= b < 8 ==> (Has(mask, b) <==> r.bitStart <= bit + b <= r.bitStop)
  }

  function BitIf(r: Rule, bit: int, b: nat): bv8
  {
    if r.bitStart <= bit + b <= r.bitStop then Single(b) else 0
  }

  // The one mask that does.
  function MaskOf(r: Rule, bit: int): bv8
  {
    BitIf(r, bit, 0) | BitIf(r, bit, 1) | BitIf(r, bit, 2) | BitIf(r, bit, 3)
    | BitIf(r, bit, 4) | BitIf(r, bit, 5) | BitIf(r, bit, 6) | BitIf(r, bit, 7)
  }

  lemma OneMask(mask: bv8, r: Rule, bit: int)
    requires Covers(mask, r, bit)
    ensures mask == MaskOf(r, bit)
  {
    forall b | 0 <= b < 8
      ensures mask & Single(b) == BitIf(r, bit, b)
    {
      OneBit(mask, b);
    }
    EightBits(mask);
    assert Single(0) == 0x80 && Single(1) == 0x40 && Single(2) == 0x20 && Single(3) == 0x10;
  }

  lemma OneBit(m: bv8, b: nat)
    requires b < 8
    ensures m & Single(b) == if Has(m, b) then Single(b) else 0
  {
  }

  lemma EightBits(m: bv8)
    ensures m == (m & 0x80) | (m & 0x40) | (m & 0x20) | (m & 0x10) | (m & 0x08) | (m & 0x04) | (m & 0x02) | (m & 0x01)
  {
  }

  predicate InChunk(r: Rule, chunk: int)
  {
    r.chunkStart <= chunk <= r.chunkStop
  }

  // Whether the rule covers any bit of the byte.
  predicate Wanted(r: Rule, chunk: int, bit: int)
  {
    InChunk(r, chunk) && r.bitStop >= bit && r.bitStart < bit + 8
  }

  // The wanted rules among the first n, in order.
  function Active(rules: seq<Rule>, chunk: int, bit: int, n: nat): (a: seq<nat>)
    requires n <= |rules|
    ensures forall i <- a :: i < n && Wanted(rules[i], chunk, bit)
  {
    if n == 0 then []
    else if Wanted(rules[n - 1], chunk, bit) then Active(rules, chunk, bit, n - 1) + [n - 1]
    else Active(rules, chunk, bit, n - 1)
  }

  // Nothing about the rule changes for the bytes from bit on, before target.
  predicate Settled(r: Rule, chunk: int, bit: int, target: int)
  {
    InChunk(r, chunk) && r.bitStop >= bit ==>
      if r.bitStart >= bit + 8 then target <= r.bitStart
      else (target <= r.bitStop + 1 && r.bitStart <= bit) || target <= bit + 8
  }

  // Bytes start at multiples of 8, and so do changes.
  predicate Aligned(bit: int)
  {
    bit % 8 == 0
  }

  lemma SettledKeeps(r: Rule, chunk: int, bit: int, target: int, later: int, m: bv8)
    requires Settled(r, chunk, bit, target) && bit <= later && later + 8 <= target && Aligned(bit) && Aligned(later)
    ensures Wanted(r, chunk, later) == Wanted(r, chunk, bit) && Settled(r, chunk, later, target)
    ensures Wanted(r, chunk, bit) && Covers(m, r, bit) ==> Covers(m, r, later)
  {
  }

  lemma {:induction false} ActiveKeeps(rules: seq<Rule>, chunk: int, bit: int, target: int, later: int, n: nat)
    requires n <= |rules| && bit <= later && later + 8 <= target && Aligned(bit) && Aligned(later)
    requires forall i :: 0 <= i < |rules| ==> Settled(rules[i], chunk, bit, target)
    ensures Active(rules, chunk, later, n) == Active(rules, chunk, bit, n)
  {
    if n > 0 {
      ActiveKeeps(rules, chunk, bit, target, later, n - 1);
      SettledKeeps(rules[n - 1], chunk, bit, target, later, 0);
    }
  }

  function Floor8(n: int): int
  {
    n - n % 8
  }

  // The mask that update_corrupt_list gives an active rule.
  function MaskFor(r: Rule, bit: int): bv8
  {
    var m := if r.bitStop >= bit + 7 then 0xff else UpTo(r.bitStop % 8);
    if r.bitStart > bit then m & From(r.bitStart % 8) else m
  }

  lemma MaskCovers(r: Rule, bit: int)
    requires Aligned(bit) && r.bitStop >= bit && r.bitStart < bit + 8
    ensures Covers(MaskFor(r, bit), r, bit)
  {
    forall b | 0 <= b < 8
      ensures Has(MaskFor(r, bit), b) <==> r.bitStart <= bit + b <= r.bitStop
    {
      MaskBit(r, bit, b);
    }
  }

  lemma InByte(x: int, bit: int)
    requires Aligned(bit) && bit <= x < bit + 8
    ensures x % 8 == x - bit
  {
  }

  lemma MaskBit(r: Rule, bit: int, b: nat)
    requires Aligned(bit) && r.bitStop >= bit && r.bitStart < bit + 8 && b < 8
    ensures Has(MaskFor(r, bit), b) <==> r.bitStart <= bit + b <= r.bitStop
  {
    var m := if r.bitStop >= bit + 7 then 0xff else UpTo(r.bitStop % 8);
    assert Has(m, b) <==> bit + b <= r.bitStop by {
      if r.bitStop < bit + 7 {
        InByte(r.bitStop, bit);
        UpToHas(r.bitStop % 8, b);
      } else {
        UpToHas(7, b);
      }
    }
    if r.bitStart > bit {
      InByte(r.bitStart, bit);
      FromHas(r.bitStart % 8, b);
      AndHas(m, From(r.bitStart % 8), b);
    }
  }

  // The target bit after one more rule.
  function NextTarget(r: Rule, chunk: int, bit: int, target: int): int
  {
    if !InChunk(r, chunk) || r.bitStop < bit then target
    else if r.bitStart >= bit + 8 then if r.bitStart <= target then Floor8(r.bitStart) else target
    else
      var t :=
        if r.bitStop >= bit + 7 then (if r.bitStop <= target then Floor8(r.bitStop + 1) else target) else bit + 8;
      if r.bitStart > bit then bit + 8 else t
  }

  predicate Ahead(target: int, bit: int)
  {
    target >= bit + 8 && (Aligned(target) || target == NEVER)
  }

  // The target comes no later than the next change of any rule, old or new.
  lemma SettlesSooner(r: Rule, chunk: int, bit: int, target: int, t: int)
    requires Settled(r, chunk, bit, target) && t <= target
    ensures Settled(r, chunk, bit, t)
  {
  }

  lemma TargetSettles(r: Rule, chunk: int, bit: int, target: int)
    requires Aligned(bit) && Ahead(target, bit) && ValidRule(r) && bit + 8 < NEVER
    ensures var t := NextTarget(r, chunk, bit, target); Ahead(t, bit) && t <= target && Settled(r, chunk, bit, t)
  {
  }

  lemma TargetSettlesAll(rules: seq<Rule>, r: Rule, chunk: int, bit: int, target: int, i: nat)
    requires i < |rules| && r == rules[i] && ValidRule(r) && Aligned(bit) && Ahead(target, bit) && bit + 8 < NEVER
    requires forall k :: 0 <= k < i ==> Settled(rules[k], chunk, bit, target)
    ensures var t := NextTarget(r, chunk, bit, target);
      Ahead(t, bit) && forall k :: 0 <= k <= i ==> Settled(rules[k], chunk, bit, t)
  {
    TargetSettles(r, chunk, bit, target);
    forall k | 0 <= k <= i
      ensures Settled(rules[k], chunk, bit, NextTarget(r, chunk, bit, target))
    {
      if k < i { SettlesSooner(rules[k], chunk, bit, target, NextTarget(r, chunk, bit, target)); }
    }
  }

  class Corrupter {
    const rules: seq<Rule>
    var active: seq<nat>
    const mask: array<bv8>
    var chunk: int
    var bit: int
    var target: int

    // current_bit counts the bits before the byte that is next.
    ghost predicate Valid()
      reads this, mask
    {
      && mask.Length == |rules| && (forall i :: 0 <= i < |rules| ==> ValidRule(rules[i]))
      && Aligned(bit) && 0 <= bit <= target && (Aligned(target) || target == NEVER)
      && (bit < target ==> Exact() && forall i :: 0 <= i < |rules| ==> Settled(rules[i], chunk, bit, target))
    }

    // The active list is what it would be if it were rebuilt for this byte.
    ghost predicate Exact()
      requires mask.Length == |rules|
      reads this, mask
    {
      && active == Active(rules, chunk, bit, |rules|)
      && forall i <- active :: i < |rules| && Covers(mask[i], rules[i], bit)
    }

    constructor (rules: seq<Rule>)
      requires forall i :: 0 <= i < |rules| ==> ValidRule(rules[i])
      ensures Valid() && fresh(mask) && chunk == -1 && bit == 0 && this.rules == rules
    {
      this.rules := rules;
      active := [];
      mask := new bv8[|rules|];
      chunk, bit, target := -1, 0, NEVER;
      NoneActive(rules, -1, 0, |rules|);
    }

    // The list as far as rule n.
    ghost predicate Built(n: nat)
      requires mask.Length == |rules|
      reads this, mask
    {
      && n <= |rules| && active == Active(rules, chunk, bit, n)
      && (forall k <- active :: k < n && Covers(mask[k], rules[k], bit))
      && (forall k :: 0 <= k < n ==> Settled(rules[k], chunk, bit, target))
    }

    // An active rule is put on the list, with its mask.
    method Activate(i: nat)
      requires mask.Length == |rules| && i < |rules| && InChunk(rules[i], chunk)
      requires rules[i].bitStop >= bit && rules[i].bitStart < bit + 8
      modifies this`active, this`target, mask
      ensures active == old(active) + [i] && target == NextTarget(rules[i], chunk, bit, old(target))
      ensures mask[i] == MaskFor(rules[i], bit) && forall k :: 0 <= k < |rules| && k != i ==> mask[k] == old(mask[k])
    {
      var r := rules[i];
      active := active + [i];
      var m: bv8 := 0xff;
      if r.bitStop >= bit + 7 {
        if r.bitStop <= target {
          target := Floor8(r.bitStop + 1);
        }
      } else {
        m := UpTo(r.bitStop % 8);
        target := bit + 8;
      }
      if r.bitStart > bit {
        m := m & From(r.bitStart % 8);
        target := bit + 8;
      }
      mask[i] := m;
    }

    // One turn of the loop of update_corrupt_list.
    method AddRule(i: nat)
      requires mask.Length == |rules| && i < |rules| && ValidRule(rules[i])
      requires Aligned(bit) && 0 <= bit && bit + 8 < NEVER && Ahead(target, bit) && Built(i)
      modifies this`active, this`target, mask
      ensures Ahead(target, bit) && Built(i + 1)
    {
      var r := rules[i];
      TargetSettlesAll(rules, r, chunk, bit, target, i);
      if r.chunkStart <= chunk && r.chunkStop >= chunk && r.bitStop >= bit {
        if r.bitStart >= bit + 8 {
          if r.bitStart <= target {
            target := Floor8(r.bitStart);
          }
        } else {
          Activate(i);
          MaskCovers(r, bit);
        }
      }
    }

    // update_corrupt_list
    method Update()
      requires mask.Length == |rules| && (forall i :: 0 <= i < |rules| ==> ValidRule(rules[i]))
      requires Aligned(bit) && 0 <= bit && bit + 8 < NEVER
      modifies this`active, this`target, mask
      ensures Valid() && Exact() && target >= bit + 8
    {
      active := [];
      target := NEVER;
      for i := 0 to |rules|
        invariant Ahead(target, bit) && Built(i)
      {
        AddRule(i);
      }
    }

    // The part of corrupt that brings the list up to date for the byte at
    // ptr, of which four more are at hand.
    method Advance(ptr: seq<bv8>)
      requires Valid() && |ptr| >= 5 && bit + 16 < NEVER
      modifies this, mask
      ensures Valid() && Exact() && bit + 8 <= target
      ensures if StartCode(ptr) then chunk == ChunkOf(ptr) && bit == 0 else chunk == old(chunk) && bit == old(bit)
    {
      if ptr[0] == 0 && ptr[1] == 0 && ptr[2] == 1 {
        chunk := ChunkOf(ptr);
        bit := 0;
        Update();
      } else if bit == target {
        Update();
      }
    }

    // One byte: what is written in its place, given what randbyte returns for
    // each rule that is active in turn.
    method CorruptByte(ptr: seq<bv8>, random: seq<bv8>) returns (out: bv8)
      requires Valid() && |ptr| >= 5 && bit + 16 < NEVER && |random| >= |rules|
      modifies this, mask
      ensures Valid()
      ensures if StartCode(ptr) then chunk == ChunkOf(ptr) && bit == 8 else chunk == old(chunk) && bit == old(bit) + 8
      ensures out == Corrupted(rules, chunk, bit - 8, random, ptr[0])
    {
      Advance(ptr);
      ActiveLength(rules, chunk, bit, |rules|);
      out := ApplyActive(ptr[0], random);
      Later(bit);
      bit := bit + 8;
    }

    // The loop over the active rules.
    method ApplyActive(x: bv8, random: seq<bv8>) returns (out: bv8)
      requires mask.Length == |rules| && |active| <= |random| && Exact()
      ensures InRange(active, |rules|) && out == Applied(rules, active, bit, random, x, |active|)
    {
      assert InRange(active, |rules|) by { ActiveInRange(rules, chunk, bit, |rules|); }
      out := x;
      var j := 0;
      while j < |active|
        invariant j <= |active| && out == Applied(rules, active, bit, random, x, j)
      {
        var i := active[j];
        assert i in active;
        OneMask(mask[i], rules[i], bit);
        out := Apply(rules[i].kind, out, random[j], mask[i]);
        j := j + 1;
      }
    }

    // What holds for a byte holds for the next one, up to the target.
    lemma Later(at: int)
      requires Valid() && at == bit && Exact() && bit + 8 <= target && bit + 16 < NEVER
      requires forall i :: 0 <= i < |rules| ==> Settled(rules[i], chunk, bit, target)
      ensures at + 8 < target ==> Active(rules, chunk, at + 8, |rules|) == active
      ensures at + 8 < target ==> forall i <- active :: i < |rules| && Covers(mask[i], rules[i], at + 8)
      ensures at + 8 < target ==> forall i :: 0 <= i < |rules| ==> Settled(rules[i], chunk, at + 8, target)
      ensures at + 8 == target || at + 16 <= target
    {
      if at + 8 < target {
        NextByte(at, target);
        ActiveKeeps(rules, chunk, at, target, at + 8, |rules|);
        forall i | 0 <= i < |rules|
          ensures Settled(rules[i], chunk, at + 8, target)
          ensures i in active ==> Covers(mask[i], rules[i], at + 8)
        {
          SettledKeeps(rules[i], chunk, at, target, at + 8, mask[i]);
        }
      }
    }
  }

  lemma NextByte(bit: int, target: int)
    requires Aligned(bit) && bit + 8 < target && (Aligned(target) || target == NEVER) && bit + 16 < NEVER
    ensures bit + 16 <= target
  {
  }

  predicate StartCode(ptr: seq<bv8>)
    requires |ptr| >= 5
  {
    ptr[0] == 0 && ptr[1] == 0 && ptr[2] == 1
  }

  // (ptr[3] << 4) | (ptr[4] >> 4)
  function ChunkOf(ptr: seq<bv8>): (c: int)
    requires |ptr| >= 5
    ensures 16 * c <= 256 * (ptr[3] as int) + (ptr[4] as int) < 16 * (c + 1)
  {
    (ptr[3] as int) * 16 + (ptr[4] as int) / 16
  }

  // Some rule covers this bit of this chunk.
  predicate Covered(rules: seq<Rule>, chunk: int, bit: int)
  {
    exists i :: 0 <= i < |rules| && InChunk(rules[i], chunk) && rules[i].bitStart <= bit <= rules[i].bitStop
  }

  function Apply(kind: Kind, x: bv8, random: bv8, mask: bv8): bv8
  {
    match kind
    case Random => x ^ (random & mask)
    case Value => (x & !mask) | (random & mask)
  }

  predicate InRange(active: seq<nat>, n: nat)
  {
    forall k :: 0 <= k < |active| ==> active[k] < n
  }

  lemma ActiveInRange(rules: seq<Rule>, chunk: int, bit: int, n: nat)
    requires n <= |rules|
    ensures var a := Active(rules, chunk, bit, n);
      InRange(a, |rules|) && forall k :: 0 <= k < |a| ==> Wanted(rules[a[k]], chunk, bit)
  {
    var a := Active(rules, chunk, bit, n);
    assert forall k :: 0 <= k < |a| ==> a[k] in a;
  }

  // The byte x after the first n of the active rules.
  function Applied(rules: seq<Rule>, active: seq<nat>, bit: int, random: seq<bv8>, x: bv8, n: nat): bv8
    requires n <= |active| && |active| <= |random| && InRange(active, |rules|)
  {
    if n == 0 then x
    else
      var r := rules[active[n - 1]];
      Apply(r.kind, Applied(rules, active, bit, random, x, n - 1), random[n - 1], MaskOf(r, bit))
  }

  // The byte x after every rule that wants it, with nothing remembered of the
  // bytes before.
  function Corrupted(rules: seq<Rule>, chunk: int, bit: int, random: seq<bv8>, x: bv8): bv8
    requires |random| >= |rules|
  {
    ActiveLength(rules, chunk, bit, |rules|);
    ActiveInRange(rules, chunk, bit, |rules|);
    Applied(rules, Active(rules, chunk, bit, |rules|), bit, random, x, |Active(rules, chunk, bit, |rules|)|)
  }

  lemma MaskOfCovers(r: Rule, bit: int)
    ensures Covers(MaskOf(r, bit), r, bit)
  {
    forall b | 0 <= b < 8
      ensures Has(MaskOf(r, bit), b) <==> BitIf(r, bit, b) != 0
    {
    }
  }

  lemma RandomBit(x: bv8, random: bv8, mask: bv8, b: nat)
    requires b < 8
    ensures Has(x ^ (random & mask), b) <==> Has(x, b) != (Has(random, b) && Has(mask, b))
  {
    hide Has;
    AndHas(random, mask, b);
    XorHas(x, random & mask, b);
  }

  lemma KeptBit(x: bv8, mask: bv8, b: nat)
    ensures Has(x & !mask, b) <==> Has(x, b) && !Has(mask, b)
  {
    hide Has;
    NotHas(mask, b);
    AndHas(x, !mask, b);
  }

  lemma ValueBit(x: bv8, random: bv8, mask: bv8, b: nat)
    ensures Has((x & !mask) | (random & mask), b) <==> if Has(mask, b) then Has(random, b) else Has(x, b)
  {
    hide Has;
    AndHas(random, mask, b);
    KeptBit(x, mask, b);
    OrHas(x & !mask, random & mask, b);
  }

  // What becomes of a bit: random corruption turns it where the random byte has
  // a bit, and a random value replaces it.
  lemma ApplyBit(kind: Kind, x: bv8, random: bv8, mask: bv8, b: nat)
    requires b < 8
    ensures Has(Apply(kind, x, random, mask), b) <==>
      if !Has(mask, b) then Has(x, b) else if kind == Random then Has(x, b) != Has(random, b) else Has(random, b)
  {
    hide Has;
    RandomBit(x, random, mask, b);
    ValueBit(x, random, mask, b);
  }

  // Bit b of a byte after the first n of the active rules, by itself.
  predicate BitAfter(rules: seq<Rule>, active: seq<nat>, at: int, random: seq<bv8>, v: bool, b: nat, n: nat)
    requires n <= |active| && |active| <= |random| && InRange(active, |rules|)
  {
    if n == 0 then v
    else
      var r := rules[active[n - 1]];
      var w := BitAfter(rules, active, at, random, v, b, n - 1);
      if !(r.bitStart <= at <= r.bitStop) then w
      else if r.kind == Random then w != Has(random[n - 1], b)
      else Has(random[n - 1], b)
  }

  lemma {:induction false} AppliedBit(rules: seq<Rule>, active: seq<nat>, bit: int, random: seq<bv8>, x: bv8, b: nat,
                                      n: nat)
    requires n <= |active| && |active| <= |random| && b < 8 && InRange(active, |rules|)
    ensures Has(Applied(rules, active, bit, random, x, n), b)
       <==> BitAfter(rules, active, bit + b, random, Has(x, b), b, n)
  {
    if n > 0 {
      AppliedBit(rules, active, bit, random, x, b, n - 1);
      var r := rules[active[n - 1]];
      MaskOfCovers(r, bit);
      ApplyBit(r.kind, Applied(rules, active, bit, random, x, n - 1), random[n - 1], MaskOf(r, bit), b);
    }
  }

  // Rules of this chunk that reach into the byte at bit, in their order.
  ghost predicate InForce(rules: seq<Rule>, chunk: int, bit: int, a: seq<nat>, n: nat)
    requires n <= |rules|
  {
    && (forall k, l :: 0 <= k < l < |a| ==> a[k] < a[l])
    && (forall i :: i in a <==>
        0 <= i < n && rules[i].chunkStart <= chunk <= rules[i].chunkStop
        && rules[i].bitStart <= bit + 7 && bit <= rules[i].bitStop)
  }

  lemma {:induction false} ActiveInForce(rules: seq<Rule>, chunk: int, bit: int, n: nat)
    requires n <= |rules|
    ensures InForce(rules, chunk, bit, Active(rules, chunk, bit, n), n)
  {
    if n > 0 {
      ActiveInForce(rules, chunk, bit, n - 1);
      var (a, a') := (Active(rules, chunk, bit, n), Active(rules, chunk, bit, n - 1));
      assert forall k :: 0 <= k < |a'| ==> a'[k] in a';
      assert forall i :: i in a <==> i in a' || (i == n - 1 && Wanted(rules[n - 1], chunk, bit));
    }
  }

  // So every bit of the byte that is written, by the rules that are in force.
  lemma CorruptedBit(rules: seq<Rule>, chunk: int, bit: int, random: seq<bv8>, x: bv8, b: nat) returns (a: seq<nat>)
    requires |random| >= |rules| && b < 8
    ensures InForce(rules, chunk, bit, a, |rules|) && |a| <= |random| && InRange(a, |rules|)
    ensures Has(Corrupted(rules, chunk, bit, random, x), b)
       <==> BitAfter(rules, a, bit + b, random, Has(x, b), b, |a|)
  {
    hide InForce, BitAfter, Has;
    a := Active(rules, chunk, bit, |rules|);
    ActiveInForce(rules, chunk, bit, |rules|);
    ActiveLength(rules, chunk, bit, |rules|);
    ActiveInRange(rules, chunk, bit, |rules|);
    AppliedBit(rules, a, bit, random, x, b, |a|);
  }

  lemma {:induction false} AppliedKeeps(rules: seq<Rule>, chunk: int, active: seq<nat>, bit: int, random: seq<bv8>,
                                        x: bv8, n: nat, b: nat)
    requires n <= |active| && |active| <= |random| && b < 8 && !Covered(rules, chunk, bit + b)
    requires InRange(active, |rules|) && forall k :: 0 <= k < |active| ==> InChunk(rules[active[k]], chunk)
    ensures Has(Applied(rules, active, bit, random, x, n), b) <==> Has(x, b)
  {
    if n > 0 {
      AppliedKeeps(rules, chunk, active, bit, random, x, n - 1, b);
      var i := active[n - 1];
      MaskOfCovers(rules[i], bit);
      ApplyBit(rules[i].kind, Applied(rules, active, bit, random, x, n - 1), random[n - 1], MaskOf(rules[i], bit), b);
    }
  }

  // Bits that no rule covers are left as they are.
  lemma OthersKept(rules: seq<Rule>, chunk: int, bit: int, random: seq<bv8>, x: bv8, b: nat)
    requires |random| >= |rules| && b < 8 && !Covered(rules, chunk, bit + b)
    ensures Has(Corrupted(rules, chunk, bit, random, x), b) <==> Has(x, b)
  {
    var active := Active(rules, chunk, bit, |rules|);
    ActiveLength(rules, chunk, bit, |rules|);
    ActiveInRange(rules, chunk, bit, |rules|);
    AppliedKeeps(rules, chunk, active, bit, random, x, |active|, b);
  }

  lemma {:induction false} ActiveLength(rules: seq<Rule>, chunk: int, bit: int, n: nat)
    requires n <= |rules|
    ensures |Active(rules, chunk, bit, n)| <= n
  {
    if n > 0 { ActiveLength(rules, chunk, bit, n - 1); }
  }

  lemma {:induction false} NoneActive(rules: seq<Rule>, chunk: int, bit: int, n: nat)
    requires n <= |rules| && chunk < 0 && forall i :: 0 <= i < |rules| ==> ValidRule(rules[i])
    ensures Active(rules, chunk, bit, n) == []
  {
    if n > 0 { NoneActive(rules, chunk, bit, n - 1); }
  }
}
