/**
  The token writer of trees.c: compress_block sends buffered tokens with given trees.
 */
module TokenWriter {
  import opened Bits
  import opened Canonical
  import opened Symbols
  import opened GenCodes
  import opened BitWriter
  import opened CodeLengths
  import opened Inflater
  import opened InflaterRuns
  import opened Blocks
  import opened BlockCost

  // ---------- the static tables ----------

  // The codes of a tree, in transmission order.
  ghost predicate Codes(lens: seq<nat>, codes: seq<nat>, n: nat) {
    n <= |codes| && n <= |lens| && forall s :: 0 <= s < n && lens[s] != 0 ==> Coded(lens, s, codes[s])
  }

  ghost predicate LengthTable(length_code: seq<nat>, base_length: seq<nat>) {
    && |length_code| == 256 && |base_length| == LENGTH_CODES
    && (forall lc: nat :: lc < 256 ==> length_code[lc] == LengthCode(lc))
    && (forall c :: 0 <= c < 28 ==> base_length[c] == BaseLength(c))
  }

  ghost predicate DistTable(dist_code: seq<nat>, base_dist: seq<nat>) {
    && |dist_code| == 512 && |base_dist| == D_CODES
    && (forall i: nat :: i < 512 ==> DistSlot(i, dist_code[i]))
    && (forall c :: 0 <= c < D_CODES ==> base_dist[c] == BaseDist(c))
  }

  // What tr_static_init sets up; the static trees are kept as codes and lengths.
  datatype Tables = Tables(length_code: seq<nat>, base_length: seq<nat>, dist_code: seq<nat>, base_dist: seq<nat>,
                           lcodes: seq<nat>, dcodes: seq<nat>)
  {
    ghost predicate Ok() {
      && LengthTable(length_code, base_length)
      && DistTable(dist_code, base_dist)
      && Codes(FixedLit(), lcodes, 288)
      && Codes(FixedDist(), dcodes, D_CODES)
    }
  }

  // A run of equal lengths in the fixed code, counted for FirstCodes.
  method FillLengths(dl: array<nat>, blCount: array<nat>, from: nat, to: nat, len: nat)
    requires dl != blCount && from <= to <= dl.Length && len < blCount.Length
    modifies dl, blCount
    ensures dl[..from] == old(dl[..from]) && dl[from..to] == Times(len, to - from)
    ensures blCount[..] == old(blCount[..])[len := old(blCount[len]) + (to - from)]
  {
    ghost var was: seq<nat>, c: seq<nat> := dl[..], blCount[..];
    for n := from to to
      invariant forall i :: 0 <= i < from ==> dl[i] == was[i]
      invariant forall i :: from <= i < n ==> dl[i] == len
      invariant blCount[..] == c[len := c[len] + (n - from)]
    {
      dl[n] := len;
      blCount[len] := blCount[len] + 1;
    }
    assert dl[..from] == was[..from];
  }

  // The fixed literal/length code words.
  method StaticLitTree() returns (codes: seq<nat>)
    ensures Codes(FixedLit(), codes, 288)
  {
    hide Coded, FixedLit, Count, Oversubscribed;
    var fc, dl := new nat[L_CODES + 2], new nat[L_CODES + 2];
    var blCount := new nat[MAXBITS + 1];
    for bits := 0 to MAXBITS + 1
      invariant forall i :: 0 <= i < bits ==> blCount[i] == 0
    {
      blCount[bits] := 0;
    }
    FillLengths(dl, blCount, 0, 144, 8);
    FillLengths(dl, blCount, 144, 256, 9);
    assert dl[..256] == Times(8, 144) + Times(9, 112) by { assert dl[..256] == dl[..144] + dl[144..256]; }
    FillLengths(dl, blCount, 256, 280, 7);
    assert dl[..280] == Times(8, 144) + Times(9, 112) + Times(7, 24) by {
      assert dl[..280] == dl[..256] + dl[256..280];
    }
    FillLengths(dl, blCount, 280, 288, 8);
    assert dl[..288] == dl[..280] + dl[280..288];
    FixedLitIs(dl[..288]);
    forall l | 1 <= l <= MAXBITS
      ensures blCount[l] == Count(FixedLit(), l)
    {
      FixedCounts(l);
    }
    FixedFits();
    GenCodes.GenCodes(fc, dl, L_CODES + 1, blCount);
    codes := fc[..];
    assert forall n :: 0 <= n < 288 ==> FixedLit()[n] == dl[n];
  }

  lemma FixedLitIs(lens: seq<nat>)
    requires lens == Times(8, 144) + Times(9, 112) + Times(7, 24) + Times(8, 8)
    ensures lens == FixedLit()
  {
  }

  lemma FixedFits()
    ensures LengthsOk(FixedLit()) && LengthsOk(FixedDist()) && !Oversubscribed(FixedLit())
    ensures !Oversubscribed(FixedDist())
  {
    FixedComplete();
    hide Filled;
  }

  // All fixed distance codes have five bits, so the code of a symbol is its number.
  lemma DistCodeword(c: nat)
    requires c < 32
    ensures CodeOf(FixedDist(), c) == c && FixedDist()[c] == 5
  {
    assert FixedDist()[..c] == Times(5, c);
    CountTimes(5, c, 5);
    NoShorterDist(5);
  }

  lemma {:induction false} NoShorterDist(l: nat)
    requires l <= 5
    ensures FirstCode(FixedDist(), l) == 0
  {
    hide FixedDist, Count;
    if l > 0 {
      NoShorterDist(l - 1);
      if l > 1 {
        FixedCounts(l - 1);
      }
    }
  }

  method StaticDistTree() returns (codes: seq<nat>)
    ensures Codes(FixedDist(), codes, D_CODES)
  {
    hide Coded, FixedDist, CodeOf, Rev;
    var fc := new nat[D_CODES];
    for n := 0 to D_CODES
      invariant forall c :: 0 <= c < n ==> Coded(FixedDist(), c, fc[c])
    {
      DistCodeword(n);
      StaticCoded(n);
      fc[n] := BiReverse(n, 5);
    }
    codes := fc[..];
  }

  lemma StaticCoded(c: nat)
    requires c < 32 && CodeOf(FixedDist(), c) == c && FixedDist()[c] == 5
    ensures Coded(FixedDist(), c, Rev(c, 5))
  {
    hide FixedDist, CodeOf, Rev;
    RevIsMsb(c, 5);
  }

  // tr_static_init
  method StaticInit() returns (tables: Tables)
    ensures tables.Ok()
  {
    hide FixedLit, FixedDist, Codes, LengthCode, BaseLength, BaseDist, DistSlot;
    var st := new StaticTables();
    var lcodes := StaticLitTree();
    var dcodes := StaticDistTree();
    tables := Tables(st.length_code[..], st.base_length[..], st.dist_code[..], st.base_dist[..], lcodes, dcodes);
  }

  // d_code
  method DCode(tables: Tables, d: nat) returns (c: nat)
    requires tables.Ok() && d < 0x8000
    ensures c == DistCode(d)
  {
    hide LengthTable, Codes, DistCode, FixedLit, FixedDist;
    c := tables.dist_code[if d < 256 then d else 256 + d / 128];
    assert DistSlot(if d < 256 then d else 256 + d / 128, c);
  }

  // ---------- sending codes ----------

  // send_code
  method SendCode(w: Writer, codes: seq<nat>, ghost lens: seq<nat>, len: nat, s: nat)
    requires w.Valid() && s < |codes| && s < |lens| && len == lens[s] && 0 < lens[s] <= MAXBITS
    requires Coded(lens, s, codes[s])
    modifies w
    ensures w.Valid() && w.Stream() == old(w.Stream()) + CodeBits(lens, s)
  {
    hide CodeOf, Pow2, ToBits, CodeBits, Rev;
    w.SendBits(codes[s], len);
  }

  method SendLength(w: Writer, tables: Tables, codes: seq<nat>, ll: seq<nat>, len: nat)
    requires w.Valid() && tables.Ok() && MIN_MATCH <= len <= MAX_MATCH && LengthsOk(ll)
    requires LengthSymbol(len) < |ll| && ll[LengthSymbol(len)] > 0 && Codes(ll, codes, |ll|)
    modifies w
    ensures w.Valid() && w.Stream() == old(w.Stream()) + (CodeBits(ll, LengthSymbol(len)) + ExtraLength(len))
  {
    hide CodeBits, ToBits, Coded, DistTable, FixedLit, FixedDist, BaseLength, LengthCode, Pow2;
    ghost var before := w.Stream();
    var lc := len - MIN_MATCH;
    var code := tables.length_code[lc];
    SendCode(w, codes, ll, ll[code + LITERALS + 1], code + LITERALS + 1);
    var extra := EXTRA_LBITS[code];
    LengthExtra(lc);
    if extra != 0 {
      lc := lc - tables.base_length[code];
      w.SendBits(lc, extra);
    }
    Assoc(before, CodeBits(ll, LengthSymbol(len)), ExtraLength(len));
    assert before + CodeBits(ll, LengthSymbol(len)) + [] == before + CodeBits(ll, LengthSymbol(len));
  }

  lemma LengthExtra(lc: nat)
    requires lc <= 255
    ensures EXTRA_LBITS[LengthCode(lc)] == 0 ==> ExtraLength(lc + MIN_MATCH) == []
    ensures EXTRA_LBITS[LengthCode(lc)] != 0 ==> LengthCode(lc) < 28 && BaseLength(LengthCode(lc)) <= lc
    ensures EXTRA_LBITS[LengthCode(lc)] != 0 ==> lc - BaseLength(LengthCode(lc)) < Pow2(EXTRA_LBITS[LengthCode(lc)])
    ensures EXTRA_LBITS[LengthCode(lc)] != 0 ==>
      ExtraLength(lc + MIN_MATCH) == ToBits(lc - BaseLength(LengthCode(lc)), EXTRA_LBITS[LengthCode(lc)])
    ensures EXTRA_LBITS[LengthCode(lc)] <= 5
  {
    hide BaseLength, Pow2;
    TableEnds();
  }

  method SendDist(w: Writer, tables: Tables, codes: seq<nat>, dl: seq<nat>, dist: nat)
    requires w.Valid() && tables.Ok() && 1 <= dist <= 0x8000 && LengthsOk(dl)
    requires DistCode(dist - 1) < |dl| && dl[DistCode(dist - 1)] > 0 && DistCode(dist - 1) < |codes|
    requires Coded(dl, DistCode(dist - 1), codes[DistCode(dist - 1)])
    modifies w
    ensures w.Valid() && w.Stream() == old(w.Stream()) + (CodeBits(dl, DistCode(dist - 1)) + ExtraDist(dist))
  {
    hide CodeBits, ToBits, Coded, LengthTable, FixedLit, FixedDist, BaseDist, DistCode, Pow2;
    ghost var before := w.Stream();
    var d := dist - 1;
    var code := DCode(tables, d);
    DistCodeBelow(d);
    SendCode(w, codes, dl, dl[code], code);
    var extra := EXTRA_DBITS[code];
    DistExtra(d);
    if extra != 0 {
      d := d - tables.base_dist[code];
      w.SendBits(d, extra);
    }
    Assoc(before, CodeBits(dl, code), ExtraDist(dist));
    assert before + CodeBits(dl, code) + [] == before + CodeBits(dl, code);
  }

  lemma DistExtra(d: nat)
    requires d < 0x8000
    ensures DistCode(d) < D_CODES && BaseDist(DistCode(d)) <= d < BaseDist(DistCode(d)) + Pow2(EXTRA_DBITS[DistCode(d)])
    ensures ExtraDist(d + 1) == ToBits(d - BaseDist(DistCode(d)), EXTRA_DBITS[DistCode(d)])
    ensures EXTRA_DBITS[DistCode(d)] == 0 ==> ExtraDist(d + 1) == []
    ensures EXTRA_DBITS[DistCode(d)] <= 13
  {
    hide BaseDist;
    DistCodeBelow(d);
  }

  // The codes in use for a block.
  ghost predicate Pair(ll: seq<nat>, dl: seq<nat>, lcodes: seq<nat>, dcodes: seq<nat>) {
    && LengthsOk(ll) && LengthsOk(dl)
    && Codes(ll, lcodes, |ll|)
    && Codes(dl, dcodes, if |dl| < D_CODES then |dl| else D_CODES)
  }

  lemma PairLit(ll: seq<nat>, dl: seq<nat>, lcodes: seq<nat>, dcodes: seq<nat>, s: nat)
    requires Pair(ll, dl, lcodes, dcodes) && s < |ll| && ll[s] > 0
    ensures s < |lcodes| && Coded(ll, s, lcodes[s]) && ll[s] <= MAXBITS
  {
    hide Coded;
  }

  lemma PairDist(ll: seq<nat>, dl: seq<nat>, lcodes: seq<nat>, dcodes: seq<nat>, c: nat)
    requires Pair(ll, dl, lcodes, dcodes) && c < D_CODES && c < |dl| && dl[c] > 0
    ensures c < |dcodes| && Coded(dl, c, dcodes[c])
  {
    hide Coded;
  }

  method SendToken(w: Writer, tables: Tables, ll: seq<nat>, dl: seq<nat>, lcodes: seq<nat>, dcodes: seq<nat>, t: Token)
    requires w.Valid() && tables.Ok() && Pair(ll, dl, lcodes, dcodes) && Codable(ll, dl, t)
    modifies w
    ensures w.Valid() && w.Stream() == old(w.Stream()) + TokenBits(ll, dl, t)
  {
    hide Codes, Coded, CodeBits, DistCode, LengthSymbol, Pair, Codable, TokenBits, ExtraLength, ExtraDist, tables.Ok;
    ghost var before := w.Stream();
    if t.Literal? {
      CodableLiteral(ll, dl, t.byte);
      PairLit(ll, dl, lcodes, dcodes, t.byte);
      SendCode(w, lcodes, ll, ll[t.byte], t.byte);
    } else {
      CodableCopy(ll, dl, t.len, t.dist);
      PairParts(ll, dl, lcodes, dcodes);
      SendLength(w, tables, lcodes, ll, t.len);
      DistCodeBelow(t.dist - 1);
      PairDist(ll, dl, lcodes, dcodes, DistCode(t.dist - 1));
      SendDist(w, tables, dcodes, dl, t.dist);
      TokenBitsCopy(ll, dl, t, before);
    }
  }

  lemma PairParts(ll: seq<nat>, dl: seq<nat>, lcodes: seq<nat>, dcodes: seq<nat>)
    requires Pair(ll, dl, lcodes, dcodes)
    ensures LengthsOk(ll) && LengthsOk(dl) && Codes(ll, lcodes, |ll|)
  {
  }

  lemma TokenBitsCopy(ll: seq<nat>, dl: seq<nat>, t: Token, before: seq<bool>)
    requires Codable(ll, dl, t) && t.Copy?
    ensures MIN_MATCH <= t.len <= MAX_MATCH && 1 <= t.dist <= 0x8000
    ensures LengthSymbol(t.len) < |ll| && DistCode(t.dist - 1) < |dl|
    ensures before + (CodeBits(ll, LengthSymbol(t.len)) + ExtraLength(t.len))
            + (CodeBits(dl, DistCode(t.dist - 1)) + ExtraDist(t.dist))
            == before + TokenBits(ll, dl, t)
  {
    hide CodeBits, ExtraLength, ExtraDist, LengthSymbol, DistCode;
    CodableCopy(ll, dl, t.len, t.dist);
    Assoc(before, CodeBits(ll, LengthSymbol(t.len)) + ExtraLength(t.len), CodeBits(dl, DistCode(t.dist - 1))
          + ExtraDist(t.dist));
  }

  lemma RestCodable(ll: seq<nat>, dl: seq<nat>, ts: seq<Token>, i: nat)
    requires AllCodable(ll, dl, ts) && i <= |ts|
    ensures AllCodable(ll, dl, ts[i..])
    ensures i < |ts| ==> Codable(ll, dl, ts[i]) && AllCodable(ll, dl, ts[i + 1..])
    ensures i < |ts| ==> TokensBits(ll, dl, ts[i..]) == TokenBits(ll, dl, ts[i]) + TokensBits(ll, dl, ts[i + 1..])
  {
    hide Codable, TokenBits;
    if i < |ts| {
      assert ts[i..][1..] == ts[i + 1..] && ts[i..][0] == ts[i];
    }
  }

  lemma EndCodable(ll: seq<nat>, dl: seq<nat>, ts: seq<Token>)
    requires AllCodable(ll, dl, ts)
    ensures END_BLOCK < |ll| && ll[END_BLOCK] > 0 && AllCodable(ll, dl, [])
    ensures TokensBits(ll, dl, []) == CodeBits(ll, END_BLOCK)
  {
    hide Codable;
  }

  /**
    Write all buffered tokens and the end of the block with the code words at hand.
   */
  method CompressBlock(w: Writer, tables: Tables, ll: seq<nat>, dl: seq<nat>, lcodes: seq<nat>, dcodes: seq<nat>,
                       ts: seq<Token>)
    requires w.Valid() && tables.Ok() && Pair(ll, dl, lcodes, dcodes) && AllCodable(ll, dl, ts)
    modifies w
    ensures w.Valid() && w.Stream() == old(w.Stream()) + TokensBits(ll, dl, ts)
  {
    hide Codes, Coded, CodeBits, Pair, Codable, TokenBits, TokensBits, AllCodable, tables.Ok;
    ghost var before := w.Stream();
    ghost var total := TokensBits(ll, dl, ts);
    var lx := 0;
    assert ts[0..] == ts;
    RestCodable(ll, dl, ts, 0);
    while lx < |ts|
      invariant lx <= |ts| && w.Valid() && AllCodable(ll, dl, ts[lx..])
      invariant w.Stream() + TokensBits(ll, dl, ts[lx..]) == before + total
    {
      RestCodable(ll, dl, ts, lx);
      Assoc(w.Stream(), TokenBits(ll, dl, ts[lx]), TokensBits(ll, dl, ts[lx + 1..]));
      SendToken(w, tables, ll, dl, lcodes, dcodes, ts[lx]);
      lx := lx + 1;
    }
    assert ts[lx..] == [];
    EndCodable(ll, dl, ts);
    PairLit(ll, dl, lcodes, dcodes, END_BLOCK);
    SendCode(w, lcodes, ll, ll[END_BLOCK], END_BLOCK);
  }
}
