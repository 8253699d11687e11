/**
  Length and distance codes of the encoder (tr_static_init in trees.c) and their agreement
  with the base and extra tables of the decoder (inftrees.c).
 */
module Symbols {
  import opened Bits
  import opened InflateTable

  const LENGTH_CODES: nat := 29
  const D_CODES: nat := 30
  const LITERALS: nat := 256
  const END_BLOCK: nat := 256
  const L_CODES: nat := 286
  const MIN_MATCH: nat := 3
  const MAX_MATCH: nat := 258

  const EXTRA_LBITS: seq<nat> := [
    0, 0, 0, 0, 0, 0, 0, 0, 1, 1, 1, 1, 2, 2, 2, 2, 3, 3, 3, 3, 4, 4, 4, 4, 5, 5, 5, 5, 0]
  const EXTRA_DBITS: seq<nat> := [
    0, 0, 0, 0, 1, 1, 2, 2, 3, 3, 4, 4, 5, 5, 6, 6, 7, 7, 8, 8, 9, 9, 10, 10, 11, 11, 12, 12, 13, 13]

  // Extra bits, and the decoder's base values, by code.
  function LengthBits(c: nat): (n: nat)
    requires c < LENGTH_CODES
    ensures n <= 5
  {
    EXTRA_LBITS[c]
  }

  function DistBits(c: nat): (n: nat)
    requires c < D_CODES
    ensures n <= 13
  {
    EXTRA_DBITS[c]
  }

  // A further bit for every four length codes from 8 on and every two distance codes from 4 on.
  lemma LengthBitsAre(c: nat)
    requires c < LENGTH_CODES
    ensures LengthBits(c) == if c < 8 || c == 28 then 0 else c / 4 - 1
  {
  }

  lemma DistBitsAre(c: nat)
    requires c < D_CODES
    ensures DistBits(c) == if c < 4 then 0 else c / 2 - 1
  {
  }

  function DecodedLength(c: nat): nat
    requires c < LENGTH_CODES
  {
    LBASE[c]
  }

  function DecodedDist(c: nat): nat
    requires c < D_CODES
  {
    DBASE[c]
  }

  // First normalized length (match length - 3) of code c < 28.
  function BaseLength(c: nat): nat
    requires c < LENGTH_CODES
  {
    if c == 0 then 0 else BaseLength(c - 1) + Pow2(LengthBits(c - 1))
  }

  // First normalized distance (distance - 1) of code c.
  function BaseDist(c: nat): nat
    requires c < D_CODES
  {
    if c == 0 then 0 else BaseDist(c - 1) + Pow2(DistBits(c - 1))
  }

  // The code c stands for the normalized length lc.  Length 255 (a match of 258 bytes) has
  // its own code without extra bits.
  predicate IsLengthCode(lc: nat, c: nat) {
    if lc == 255 then c == 28
    else c < 28 && BaseLength(c) <= lc < BaseLength(c) + Pow2(LengthBits(c))
  }

  predicate IsDistCode(d: nat, c: nat) {
    c < D_CODES && BaseDist(c) <= d < BaseDist(c) + Pow2(DistBits(c))
  }

  // Powers of two up to 2^13 by cases.
  function TwoTo(k: nat): nat {
    if k == 0 then 1 else if k == 1 then 2 else if k == 2 then 4 else if k == 3 then 8
    else if k == 4 then 16 else if k == 5 then 32 else if k == 6 then 64 else if k == 7 then 128
    else if k == 8 then 256 else if k == 9 then 512 else if k == 10 then 1024
    else if k == 11 then 2048 else if k == 12 then 4096 else 8192
  }

  lemma TwoToIsPow2(k: nat)
    requires k <= 13
    ensures TwoTo(k) == Pow2(k)
  {
    Pow2Values();
    assert Pow2(4) == 16 && Pow2(5) == 32 && Pow2(6) == 64 && Pow2(9) == 512 && Pow2(10) == 1024;
    assert Pow2(11) == 2048 && Pow2(12) == 4096 && Pow2(13) == 8192;
  }

  lemma LengthStep(c: nat)
    requires 0 < c < 28
    ensures DecodedLength(c) == DecodedLength(c - 1) + TwoTo(LengthBits(c - 1))
  {
  }

  lemma DistStep(c: nat)
    requires 0 < c < D_CODES
    ensures DecodedDist(c) == DecodedDist(c - 1) + TwoTo(DistBits(c - 1))
  {
    if c < 15 {
      NearStep(c);
    } else {
      FarStep(c);
    }
  }

  lemma NearStep(c: nat)
    requires 0 < c < 15
    ensures DecodedDist(c) == DecodedDist(c - 1) + TwoTo(DistBits(c - 1))
  {
  }

  lemma FarStep(c: nat)
    requires 15 <= c < D_CODES
    ensures DecodedDist(c) == DecodedDist(c - 1) + TwoTo(DistBits(c - 1))
  {
  }

  lemma TableEnds()
    ensures DecodedLength(0) == 3 && DecodedLength(27) == 227 && DecodedLength(28) == 258
    ensures LengthBits(27) == 5 && LengthBits(28) == 0
    ensures DecodedDist(0) == 1 && DecodedDist(29) == 24577 && DistBits(29) == 13
  {
  }

  // Encoder and decoder agree on the lengths a code stands for ...
  lemma {:induction false} LengthBase(c: nat)
    requires c < 28
    ensures DecodedLength(c) == BaseLength(c) + MIN_MATCH
  {
    hide DecodedLength, LengthBits;
    if c == 0 {
      TableEnds();
    } else {
      LengthBase(c - 1);
      LengthStep(c);
      TwoToIsPow2(LengthBits(c - 1));
    }
  }

  // ... and on the distances.
  lemma {:induction false} DistBase(c: nat)
    requires c < D_CODES
    ensures DecodedDist(c) == BaseDist(c) + 1
  {
    hide DecodedDist, DistBits;
    if c == 0 {
      TableEnds();
    } else {
      DistBase(c - 1);
      DistStep(c);
      TwoToIsPow2(DistBits(c - 1));
    }
  }

  // The table entries of the decoder carry these values; symbols 286 and 287 and distance
  // symbols 30 and 31 are marked invalid.
  lemma LengthEntry(sym: nat, bits: nat)
    requires 257 <= sym < 288
    ensures sym < 286 ==>
      SymbolEntry(LENS, sym, bits) == Entry(16 + LengthBits(sym - 257), bits, DecodedLength(sym - 257))
    ensures sym >= 286 ==> SymbolEntry(LENS, sym, bits).op in {72, 78}
  {
  }

  lemma DistEntry(sym: nat, bits: nat)
    requires sym < 32
    ensures sym < 30 ==> SymbolEntry(DISTS, sym, bits) == Entry(16 + DistBits(sym), bits, DecodedDist(sym))
    ensures sym >= 30 ==> SymbolEntry(DISTS, sym, bits).op == 64
  {
  }

  // Normalized lengths 0..255 and distances 0..32767 are covered.
  lemma BaseEnds()
    ensures BaseLength(27) == 224 && Pow2(LengthBits(27)) == 32
    ensures BaseDist(29) == 24576 && Pow2(DistBits(29)) == 8192
  {
    hide DecodedLength, DecodedDist, LengthBits, DistBits, Pow2, BaseLength, BaseDist;
    LengthBase(27);
    DistBase(29);
    TableEnds();
    TwoToIsPow2(5);
    TwoToIsPow2(13);
  }

  lemma {:induction false} BaseLengthMono(a: nat, b: nat)
    requires a <= b < LENGTH_CODES
    ensures BaseLength(a) <= BaseLength(b)
    ensures a < b ==> BaseLength(a) + Pow2(LengthBits(a)) <= BaseLength(b)
    decreases b
  {
    hide Pow2, LengthBits;
    if a < b {
      BaseLengthMono(a, b - 1);
    }
  }

  lemma {:induction false} BaseDistMono(a: nat, b: nat)
    requires a <= b < D_CODES
    ensures BaseDist(a) <= BaseDist(b)
    ensures a < b ==> BaseDist(a) + Pow2(DistBits(a)) <= BaseDist(b)
    decreases b
  {
    hide Pow2, DistBits;
    if a < b {
      BaseDistMono(a, b - 1);
    }
  }

  lemma LengthCodeUnique(lc: nat, a: nat, b: nat)
    requires IsLengthCode(lc, a) && IsLengthCode(lc, b)
    ensures a == b
  {
    hide Pow2, LengthBits, BaseLength;
    if lc != 255 && a < b {
      BaseLengthMono(a, b);
    } else if lc != 255 && b < a {
      BaseLengthMono(b, a);
    }
  }

  lemma DistCodeUnique(d: nat, a: nat, b: nat)
    requires IsDistCode(d, a) && IsDistCode(d, b)
    ensures a == b
  {
    hide Pow2, DistBits, BaseDist;
    if a < b {
      BaseDistMono(a, b);
    } else if b < a {
      BaseDistMono(b, a);
    }
  }

  // ---------- the code of a length and of a distance ----------

  function LengthCodeFrom(lc: nat, c: nat): (r: nat)
    requires c < 28 && lc < BaseLength(c) + Pow2(LengthBits(c))
    ensures r < 28 && BaseLength(r) <= lc < BaseLength(r) + Pow2(LengthBits(r))
  {
    if c == 0 || BaseLength(c) <= lc then c else LengthCodeFrom(lc, c - 1)
  }

  function LengthCode(lc: nat): (r: nat)
    requires lc <= 255
    ensures r < LENGTH_CODES && IsLengthCode(lc, r)
  {
    BaseEnds();
    if lc == 255 then 28 else LengthCodeFrom(lc, 27)
  }

  function DistCodeFrom(d: nat, c: nat): (r: nat)
    requires c < D_CODES && d < BaseDist(c) + Pow2(DistBits(c))
    ensures IsDistCode(d, r)
  {
    if c == 0 || BaseDist(c) <= d then c else DistCodeFrom(d, c - 1)
  }

  function DistCode(d: nat): (r: nat)
    requires d < 0x8000
    ensures IsDistCode(d, r)
  {
    BaseEnds();
    DistCodeFrom(d, 29)
  }

  lemma BaseDist16()
    ensures BaseDist(16) == 256
    ensures forall c :: 16 <= c < D_CODES ==> DistBits(c) >= 7
    ensures forall c :: 0 <= c < 16 ==> DistBits(c) <= 7
  {
    hide BaseDist;
    DistBase(16);
  }

  lemma Pow2Over128(n: nat)
    requires n >= 7
    ensures Pow2(n) == 128 * Pow2(n - 7)
  {
    Pow2Add(7, n - 7);
    Pow2Values();
  }

  // The tables that tr_static_init fills.
  class StaticTables {
    const base_length: array<nat>
    const length_code: array<nat>
    const base_dist: array<nat>
    const dist_code: array<nat>

    ghost predicate Valid()
      reads base_length, length_code, base_dist, dist_code
    {
      && base_length.Length == LENGTH_CODES && length_code.Length == 256
      && base_dist.Length == D_CODES && dist_code.Length == 512
      && (forall c :: 0 <= c < 28 ==> base_length[c] == BaseLength(c))
      && base_length[28] == 0
      && (forall lc: nat :: lc < 256 ==> length_code[lc] == LengthCode(lc))
      && (forall c :: 0 <= c < D_CODES ==> base_dist[c] == BaseDist(c))
      && (forall i: nat :: i < 512 ==> DistSlot(i, dist_code[i]))
    }

    // The macro d_code: two lookups in one table.
    method DCode(d: nat) returns (c: nat)
      requires Valid() && d < 0x8000
      ensures c == DistCode(d)
    {
      hide DistCode, LengthCode, BaseLength, BaseDist;
      c := dist_code[if d < 256 then d else 256 + d / 128];
      assert DistSlot(if d < 256 then d else 256 + d / 128, c);
    }

    constructor ()
      ensures Valid()
    {
      hide DistCode, LengthCode, BaseDist, BaseLength, DistSlot;
      base_length, length_code := new nat[LENGTH_CODES](i => 0), new nat[256];
      base_dist, dist_code := new nat[D_CODES], new nat[512];
      new;
      InitLengths(base_length, length_code);
      var near := InitNearDists(base_dist, dist_code);
      InitFarDists(base_dist, dist_code);
    }
  }

  // Entry i of dist_code holds the code of distance i below 256 and otherwise the common
  // code of the 128 distances with the same top bits.
  ghost predicate DistSlot(i: nat, c: nat) {
    forall d: nat :: d < 0x8000 && (if d < 256 then d else 256 + d / 128) == i ==> DistCode(d) == c
  }

  method InitLengths(base: array<nat>, codes: array<nat>)
    requires base.Length == LENGTH_CODES && codes.Length == 256 && base != codes
    modifies base, codes
    ensures forall c :: 0 <= c < 28 ==> base[c] == BaseLength(c)
    ensures base[28] == old(base[28])
    ensures forall lc: nat :: lc < 256 ==> codes[lc] == LengthCode(lc)
  {
    hide LengthCode, BaseLength, LengthBits, Pow2;
    var length: nat := 0;
    BaseZero();
    BaseEnds();
    for code := 0 to LENGTH_CODES - 1
      invariant length == if code < 28 then BaseLength(code) else 256
      invariant forall c :: 0 <= c < code ==> base[c] == BaseLength(c)
      invariant base[28] == old(base[28])
      invariant forall lc: nat :: lc < length && lc < 255 ==> codes[lc] == LengthCode(lc)
    {
      base[code] := length;
      ghost var bases := base[..];
      assert forall c :: 0 <= c <= code ==> bases[c] == BaseLength(c);
      length := FillLength(codes, code, length);
      BaseNext(code);
      assert base[..] == bases;
    }
    codes[length - 1] := 28;
    LengthCodeLast();
  }

  // The lengths of one code; the last length may have a better one.
  method FillLength(codes: array<nat>, code: nat, from: nat) returns (length: nat)
    requires codes.Length == 256 && code < 28 && from == BaseLength(code)
    requires forall lc: nat :: lc < from && lc < 255 ==> codes[lc] == LengthCode(lc)
    modifies codes
    ensures length == from + Pow2(LengthBits(code)) <= 256
    ensures forall lc: nat :: lc < length && lc < 255 ==> codes[lc] == LengthCode(lc)
  {
    hide LengthCode, BaseLength, LengthBits, Pow2;
    BaseEnds();
    BaseNext(code);
    BaseLengthMono(code, 27);
    length := from;
    for n := 0 to Pow2(LengthBits(code))
      invariant length == from + n <= 256
      invariant forall lc: nat :: lc < length && lc < 255 ==> codes[lc] == LengthCode(lc)
    {
      if length < 255 {
        LengthCodeUnique(length, code, LengthCode(length));
      }
      codes[length] := code;
      length := length + 1;
    }
  }

  lemma BaseZero()
    ensures BaseLength(0) == 0 && BaseDist(0) == 0
  {
  }

  lemma BaseNext(c: nat)
    ensures c < 28 ==> BaseLength(c + 1) == BaseLength(c) + Pow2(LengthBits(c))
    ensures c < 29 ==> BaseDist(c + 1) == BaseDist(c) + Pow2(DistBits(c))
  {
  }

  lemma LengthCodeLast()
    ensures LengthCode(255) == 28
  {
  }

  // The codes of distances up to 256, one table entry for each distance.
  method InitNearDists(base: array<nat>, codes: array<nat>) returns (dist: nat)
    requires base.Length == D_CODES && codes.Length == 512 && base != codes
    modifies base, codes
    ensures dist == 256
    ensures forall c :: 0 <= c < 16 ==> base[c] == BaseDist(c)
    ensures forall i: nat :: i < 256 ==> DistSlot(i, codes[i])
  {
    hide DistCode, BaseDist, DistBits, Pow2, IsDistCode, DistSlot;
    dist := 0;
    BaseZero();
    BaseDist16();
    for code := 0 to 16
      invariant dist == BaseDist(code) <= 256
      invariant forall c :: 0 <= c < code ==> base[c] == BaseDist(c)
      invariant forall i: nat :: i < dist ==> DistSlot(i, codes[i])
    {
      base[code] := dist;
      BaseDistMono(code, 16);
      for n := 0 to Pow2(DistBits(code))
        invariant dist == BaseDist(code) + n <= 256
        invariant forall i: nat :: i < dist ==> DistSlot(i, codes[i])
        invariant forall c :: 0 <= c <= code ==> base[c] == BaseDist(c)
      {
        NearSlot(dist, code);
        codes[dist] := code;
        dist := dist + 1;
      }
      BaseNext(code);
    }
  }

  lemma DistCodeIs(d: nat, c: nat)
    requires c < D_CODES && d < 0x8000 && BaseDist(c) <= d < BaseDist(c) + Pow2(DistBits(c))
    ensures DistCode(d) == c
  {
    DistCodeUnique(d, c, DistCode(d));
  }

  lemma NearSlot(d: nat, c: nat)
    requires c < D_CODES && d < 256 && BaseDist(c) <= d < BaseDist(c) + Pow2(DistBits(c))
    ensures DistSlot(d, c)
  {
    hide DistCode, BaseDist, DistBits, Pow2;
    DistCodeIs(d, c);
    assert forall e: nat :: 256 <= e ==> 256 + e / 128 >= 256;
  }

  // A block of 128 distances within the range of code c.
  lemma FarSlot(k: nat, c: nat)
    requires c < D_CODES && 2 <= k < 256
    requires BaseDist(c) <= 128 * k && 128 * k + 128 <= BaseDist(c) + Pow2(DistBits(c))
    ensures DistSlot(256 + k, c)
  {
    hide DistCode, BaseDist, DistBits, Pow2;
    forall d: nat | d < 0x8000 && (if d < 256 then d else 256 + d / 128) == 256 + k
      ensures DistCode(d) == c
    {
      DistCodeIs(d, c);
    }
  }

  // The codes of larger distances, one table entry for each 128 distances.
  method InitFarDists(base: array<nat>, codes: array<nat>)
    requires base.Length == D_CODES && codes.Length == 512 && base != codes
    modifies base, codes
    ensures forall c :: 0 <= c < 16 ==> base[c] == old(base[c])
    ensures forall c :: 16 <= c < D_CODES ==> base[c] == BaseDist(c)
    ensures forall i: nat :: i < 256 ==> codes[i] == old(codes[i])
    ensures forall i: nat :: 256 <= i < 512 ==> DistSlot(i, codes[i])
  {
    hide DistCode, BaseDist, DistBits, Pow2, IsDistCode, DistSlot;
    BaseDist16();
    BaseEnds();
    UnusedSlots(codes[256], codes[257]);
    var dist: nat := 256 / 128;   // counts groups of 128 distances
    for code := 16 to D_CODES
      invariant 128 * dist == if code < D_CODES then BaseDist(code) else 0x8000
      invariant 2 <= dist <= 256
      invariant forall c :: 16 <= c < code ==> base[c] == BaseDist(c)
      invariant forall c :: 0 <= c < 16 ==> base[c] == old(base[c])
      invariant forall i: nat :: i < 256 ==> codes[i] == old(codes[i])
      invariant forall i: nat :: 256 <= i < 256 + dist ==> DistSlot(i, codes[i])
    {
      dist := FarCode(base, codes, code, dist);
    }
  }

  method FarCode(base: array<nat>, codes: array<nat>, code: nat, start: nat) returns (dist: nat)
    requires base.Length == D_CODES && codes.Length == 512 && base != codes
    requires 16 <= code < D_CODES && 2 <= start && 128 * start == BaseDist(code)
    modifies base, codes
    ensures 128 * dist == if code + 1 < D_CODES then BaseDist(code + 1) else 0x8000
    ensures start <= dist <= 256
    ensures base[code] == BaseDist(code) && forall c :: 0 <= c < D_CODES && c != code ==> base[c] == old(base[c])
    ensures forall i: nat :: i < 256 + start ==> codes[i] == old(codes[i])
    ensures forall i: nat :: 256 + start <= i < 256 + dist ==> DistSlot(i, codes[i])
  {
    hide DistCode, BaseDist, DistBits, Pow2, IsDistCode, DistSlot;
    BaseDist16();
    BaseEnds();
    base[code] := 128 * start;
    BaseDistMono(code, 29);
    Pow2Over128(DistBits(code));
    BaseNext(code);
    FillFar(codes, code, start);
    dist := start + Pow2(DistBits(code) - 7);
  }

  method FillFar(codes: array<nat>, code: nat, start: nat)
    requires codes.Length == 512 && code < D_CODES && DistBits(code) >= 7 && 2 <= start
    requires 128 * start == BaseDist(code) && start + Pow2(DistBits(code) - 7) <= 256
    requires Pow2(DistBits(code)) == 128 * Pow2(DistBits(code) - 7)
    modifies codes
    ensures forall i: nat :: i < 256 + start ==> codes[i] == old(codes[i])
    ensures forall i: nat :: 256 + start <= i < 256 + start + Pow2(DistBits(code) - 7) ==> DistSlot(i, codes[i])
  {
    hide DistCode, BaseDist, DistBits, Pow2, IsDistCode, DistSlot;
    for n := 0 to Pow2(DistBits(code) - 7)
      invariant forall i: nat :: i < 256 + start ==> codes[i] == old(codes[i])
      invariant forall i: nat :: 256 + start <= i < 256 + start + n ==> DistSlot(i, codes[i])
    {
      FarSlot(start + n, code);
      codes[256 + (start + n)] := code;
    }
  }

  // Entries 256 and 257 are never used: no distance above 255 has so few top bits.
  lemma UnusedSlots(c: nat, c': nat)
    ensures DistSlot(256, c) && DistSlot(257, c')
  {
  }
}
