/**
  How much compression can expand: under the fixed codes no byte costs more than nine bits,
  and a block is never written in a way that costs much more than that.  This gives the
  conservative bound of deflateBound().
 */
module Expansion {
  import opened Bits
  import opened Canonical
  import opened Symbols
  import opened BitWriter
  import opened Inflater
  import opened Blocks
  import opened FlushBlock

  // The conservative bound of deflateBound(), in bytes, without the wrapper.
  function Bound(n: nat): nat {
    n + (n + 7) / 8 + (n + 63) / 64 + 5
  }

  // ---------- fixed codes ----------

  // The number of bytes a token stands for.
  function Weight(t: Token): nat {
    match t
    case Literal(_) => 1
    case Copy(len, _) => len
  }

  lemma FixedLengths(s: nat)
    requires s < 288
    ensures FixedLit()[s] <= 9 && (256 <= s < 280 ==> FixedLit()[s] == 7) && (s >= 280 ==> FixedLit()[s] == 8)
    ensures s < 32 ==> FixedDist()[s] == 5
  {
  }

  lemma CodeLength(lens: seq<nat>, s: nat)
    requires s < |lens| && 0 < lens[s] <= MAXBITS
    ensures |CodeBits(lens, s)| == lens[s]
  {
    hide CodeOf;
  }

  // Lengths up to ten have a symbol of their own.
  lemma ShortLength(len: nat)
    requires MIN_MATCH <= len <= 10
    ensures LengthSymbol(len) < 280 && |ExtraLength(len)| == 0
  {
    hide LengthBits, BaseLength, DecodedLength, Pow2, LengthCodeFrom;
    var c := LengthCode(len - MIN_MATCH);
    LengthBase(8);
    EighthLength();
    if c >= 8 {
      BaseLengthMono(8, c);
    }
  }

  lemma EighthLength()
    ensures DecodedLength(8) == 11 && forall c :: 0 <= c < 8 ==> LengthBits(c) == 0
  {
  }

  lemma ExtraAtMost(len: nat, dist: nat)
    requires MIN_MATCH <= len <= MAX_MATCH && 1 <= dist <= 0x8000
    ensures |ExtraLength(len)| <= 5 && |ExtraDist(dist)| <= 13
  {
    hide BaseLength, BaseDist, LengthCode, DistCode;
  }

  // No byte costs more than nine bits.
  lemma TokenCost(t: Token)
    requires Codable(FixedLit(), FixedDist(), t)
    ensures |TokenBits(FixedLit(), FixedDist(), t)| <= 9 * Weight(t) && Weight(t) >= 1
  {
    hide FixedLit, FixedDist, CodeBits, ExtraLength, ExtraDist, LengthSymbol, DistCode;
    match t
    case Literal(byte) =>
      FixedLengths(byte);
      CodeLength(FixedLit(), byte);
    case Copy(len, dist) =>
      var s, c := LengthSymbol(len), DistCode(dist - 1);
      FixedLengths(s);
      FixedLengths(c);
      CodeLength(FixedLit(), s);
      CodeLength(FixedDist(), c);
      ExtraAtMost(len, dist);
      if len <= 10 {
        ShortLength(len);
      }
  }

  lemma TokenAdds(out: seq<nat>, t: Token)
    requires Reachable(out, t)
    ensures |Output(out, t)| == |out| + Weight(t)
  {
  }

  lemma {:induction false} FixedCost(out: seq<nat>, ts: seq<Token>)
    requires AllCodable(FixedLit(), FixedDist(), ts) && Expand(out, ts).Some?
    ensures var n := |Expand(out, ts).value| - |out|;
            |ts| <= n && |TokensBits(FixedLit(), FixedDist(), ts)| <= 9 * n + 7
    decreases |ts|
  {
    hide FixedLit, FixedDist, TokenBits, CodeBits, Codable, Output, Weight;
    if ts == [] {
      FixedLengths(END_BLOCK);
      CodeLength(FixedLit(), END_BLOCK);
    } else {
      assert ts[0] in ts;
      TokenCost(ts[0]);
      TokenAdds(out, ts[0]);
      FixedCost(Output(out, ts[0]), ts[1..]);
    }
  }

  // Every token stands for at least one byte.
  lemma {:induction false} TokensFew(out: seq<nat>, ts: seq<Token>)
    requires Expand(out, ts).Some? && forall t :: t in ts ==> TokenOk(t)
    ensures |ts| <= |Expand(out, ts).value| - |out|
    decreases |ts|
  {
    hide Output;
    if ts != [] {
      assert ts[0] in ts && TokenOk(ts[0]);
      TokenAdds(out, ts[0]);
      TokensFew(Output(out, ts[0]), ts[1..]);
    }
  }

  // ---------- blocks ----------

  // How the block was chosen: at level 0 it is stored if its bytes are at hand.
  ghost predicate Decided(block: Block, ts: seq<Token>, level: nat, buf: Option<seq<nat>>, stored: nat, opt: nat,
                          stat: nat, strategy: nat) {
    && (buf.Some? ==> |buf.value| == stored)
    && (block.Stored? ==> buf == Some(block.data))
    && if level > 0 then CostsExact(block, ts, opt, stat) && Chosen(block, buf.Some?, stored, opt, stat, strategy)
       else !block.Dynamic? && (block.Fixed? ==> block.tokens == ts)
  }

  // The length of a block of n bytes at bit position pos.
  ghost predicate Priced(bits: nat, pos: nat, n: nat, level: nat, isStored: bool) {
    if isStored then bits == 35 + |Padding(pos + 3)| + 8 * n && (level > 0 ==> bits <= 9 * n + 27)
    else bits <= 9 * n + 10
  }

  lemma BlockPrice(block: Block, ts: seq<Token>, level: nat, buf: Option<seq<nat>>, stored: nat, opt: nat, stat: nat,
                   strategy: nat, out: seq<nat>, full: seq<nat>, pos: nat, last: bool)
    requires BlockOk(block, out) && BlockOutput(block, out) == full && |full| == |out| + stored
    requires Decided(block, ts, level, buf, stored, opt, stat, strategy)
    requires level > 0 && block.Stored? ==> Expand(out, ts) == Some(full)
    ensures Priced(|BlockBits(block, out, pos, last)|, pos, stored, level, block.Stored?)
  {
    hide FixedLit, FixedDist, AllCodable, TokensBits, TreesBits, BytesBits, Blocks.Expand, Padding;
    if level > 0 {
      BlockCosts(block, ts, opt, stat, out, pos, last);
      FixedCost(out, ts);
      CheapEnough(block, buf.Some?, stored, opt, stat, strategy);
      PaddingShort(pos + 3);
    } else if block.Stored? {
      StoredLength(block.data, out, pos, last);
    } else {
      FixedCost(out, ts);
    }
  }

  lemma StoredLength(data: seq<nat>, out: seq<nat>, pos: nat, last: bool)
    requires BlockOk(Stored(data), out)
    ensures |BlockBits(Stored(data), out, pos, last)| == 35 + |Padding(pos + 3)| + 8 * |data|
  {
    hide Padding, BytesBits;
  }

  lemma PaddingShort(n: nat)
    ensures |Padding(n)| < 8
  {
  }

  // The choice between the kinds of block.
  lemma CheapEnough(block: Block, hasBuf: bool, n: nat, opt: nat, stat: nat, strategy: nat)
    requires Chosen(block, hasBuf, n, opt, stat, strategy) && stat <= 9 * n + 7
    ensures block.Stored? ==> 42 + 8 * n <= 9 * n + 27
    ensures block.Dynamic? ==> opt < stat
  {
  }

  // ---------- the whole stream ----------

  // The blocks written so far, each of at least 127 bytes, stand for m bytes.
  predicate Lean(bits: nat, m: nat) {
    127 * bits <= 1153 * m
  }

  // Before the last block there is always space left.
  lemma LeanBelow(bits: nat, m: nat, n: nat)
    requires Lean(bits, m) && m <= n
    ensures bits < 8 * Bound(n) && Bound(m) <= Bound(n)
  {
  }

  // Another block of at least 127 bytes.
  lemma LeanBlock(pos: nat, m: nat, bits: nat, n: nat, level: nat, isStored: bool)
    requires Lean(pos, m) && Priced(bits, pos, n, level, isStored) && n >= 127
    ensures Lean(pos + bits, m + n)
  {
    PaddingShort(pos + 3);
  }

  // The last block and the padding after it.
  lemma LeanEnd(pos: nat, m: nat, bits: nat, n: nat, level: nat, isStored: bool)
    requires Lean(pos, m) && Priced(bits, pos, n, level, isStored)
    ensures pos + bits + |Padding(pos + bits)| <= 8 * Bound(m + n)
  {
    PaddingShort(pos + bits);
    PaddingShort(pos + 3);
    var k := m + n;
    var a, c := (k + 7) / 8, (k + 63) / 64;
    assert 8 * a >= k && 64 * c >= k && (k >= 1 ==> c >= 1);
    if isStored {
      StoredAligned(pos, bits, n);
      if m == 0 {
        assert pos == 0;
      }
    }
  }

  lemma StoredAligned(pos: nat, bits: nat, n: nat)
    requires bits == 35 + |Padding(pos + 3)| + 8 * n
    ensures |Padding(pos + bits)| == 0 && (pos == 0 ==> |Padding(pos + 3)| == 5)
  {
  }

  // The bound is attained: no data, stored.
  lemma BoundAttained()
    ensures |BlockBits(Stored([]), [], 0, true)| == 8 * Bound(0)
  {
    hide ToBits;
    assert BytesBits([]) == [];
  }
}
