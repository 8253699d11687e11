/**
  The exact cost of blocks: what _tr_tally and scan_tree count, and how it adds up to the
  number of bits that compress_block and send_tree write.
 */
module BlockCost {
  import opened Bits
  import opened Canonical
  import opened CodeLengths
  import opened Symbols
  import opened HuffmanTree
  import opened Depths
  import opened Blocks

  // ---------- the frequencies that _tr_tally counts ----------

  function LitSymbol(t: Token): nat
    requires TokenOk(t)
  {
    match t
    case Literal(byte) => byte
    case Copy(len, _) => LengthSymbol(len)
  }

  predicate AllOk(ts: seq<Token>) {
    forall t :: t in ts ==> TokenOk(t)
  }

  function Bump(f: seq<nat>, s: nat): (g: seq<nat>)
    ensures |g| == |f|
  {
    if s < |f| then f[s := f[s] + 1] else f
  }

  // Each block has one end-of-block symbol.
  function LitFreqs(ts: seq<Token>): (f: seq<nat>)
    requires AllOk(ts)
    ensures |f| == L_CODES
  {
    if ts == [] then Zeros(L_CODES)[END_BLOCK := 1] else Bump(LitFreqs(ts[1..]), LitSymbol(ts[0]))
  }

  function DistBump(f: seq<nat>, t: Token): (g: seq<nat>)
    requires TokenOk(t)
    ensures |g| == |f|
  {
    match t
    case Literal(_) => f
    case Copy(_, dist) => Bump(f, DistCode(dist - 1))
  }

  function DistFreqs(ts: seq<Token>): (f: seq<nat>)
    requires AllOk(ts)
    ensures |f| == D_CODES
  {
    if ts == [] then Zeros(D_CODES) else DistBump(DistFreqs(ts[1..]), ts[0])
  }

  lemma BumpSwap(f: seq<nat>, a: nat, b: nat)
    ensures Bump(Bump(f, a), b) == Bump(Bump(f, b), a)
  {
  }

  // One more token.
  lemma {:induction false} FreqsTally(ts: seq<Token>, t: Token)
    requires AllOk(ts + [t])
    ensures AllOk(ts) && TokenOk(t)
    ensures LitFreqs(ts + [t]) == Bump(LitFreqs(ts), LitSymbol(t))
    ensures DistFreqs(ts + [t]) == DistBump(DistFreqs(ts), t)
    decreases |ts|
  {
    hide Bump, DistCode, LitSymbol, TokenOk;
    OkParts(ts, t);
    if ts == [] {
      assert (ts + [t])[1..] == [];
    } else {
      assert (ts + [t])[1..] == ts[1..] + [t];
      OkTail(ts + [t]);
      FreqsTally(ts[1..], t);
      BumpSwap(LitFreqs(ts[1..]), LitSymbol(t), LitSymbol(ts[0]));
      DistBumpSwap(DistFreqs(ts[1..]), t, ts[0]);
    }
  }

  lemma OkParts(ts: seq<Token>, t: Token)
    requires AllOk(ts + [t])
    ensures AllOk(ts) && TokenOk(t) && (ts != [] ==> TokenOk(ts[0]))
  {
    assert forall u :: u in ts ==> u in ts + [t];
    assert t in ts + [t];
  }

  lemma OkTail(ts: seq<Token>)
    requires AllOk(ts) && ts != []
    ensures AllOk(ts[1..]) && TokenOk(ts[0])
  {
  }

  lemma DistBumpSwap(f: seq<nat>, t: Token, u: Token)
    requires TokenOk(t) && TokenOk(u)
    ensures DistBump(DistBump(f, t), u) == DistBump(DistBump(f, u), t)
  {
    hide Bump, DistCode;
    if t.Copy? && u.Copy? {
      BumpSwap(f, DistCode(t.dist - 1), DistCode(u.dist - 1));
    }
  }

  // ---------- sums over the symbols ----------

  lemma {:induction false} DotBump(f: seq<nat>, w: seq<nat>, n: nat, s: nat)
    requires n <= |f| && s < |f|
    ensures Dot(Bump(f, s), w, n) == Dot(f, w, n) + if s < n then At(w, s) else 0
  {
    hide Prod;
    if n > 0 {
      DotBump(f, w, n - 1, s);
      if n - 1 == s {
        ProdOneMore(f[s], At(w, s));
      }
    }
  }

  lemma ProdOneMore(a: nat, b: nat)
    ensures Prod(a + 1, b) == Prod(a, b) + b
  {
  }

  lemma {:induction false} DotZeroFreq(f: seq<nat>, w: seq<nat>, n: nat)
    requires forall i :: 0 <= i < n ==> At(f, i) == 0
    ensures Dot(f, w, n) == 0
  {
    if n > 0 {
      DotZeroFreq(f, w, n - 1);
    }
  }

  lemma {:induction false} SumBump(f: seq<nat>, s: nat)
    requires s < |f|
    ensures Sum(Bump(f, s)) == Sum(f) + 1
  {
    SumUpdate(f, s, f[s] + 1);
  }

  // The sums of the frequencies count the tokens.
  lemma {:induction false} FreqSums(ts: seq<Token>)
    requires AllOk(ts)
    ensures Sum(LitFreqs(ts)) == |ts| + 1 && Sum(DistFreqs(ts)) <= |ts|
  {
    hide Sum, Bump, DistCode, LengthSymbol;
    if ts == [] {
      SumZeros(Zeros(L_CODES));
      SumZeros(Zeros(D_CODES));
      SumUpdate(Zeros(L_CODES), END_BLOCK, 1);
    } else {
      OkTail(ts);
      FreqSums(ts[1..]);
      SumBump(LitFreqs(ts[1..]), LitSymbol(ts[0]));
      if ts[0].Copy? {
        DistCodeBelow(ts[0].dist - 1);
        SumBump(DistFreqs(ts[1..]), DistCode(ts[0].dist - 1));
      }
    }
  }

  lemma DistCodeBelow(d: nat)
    requires d < 0x8000
    ensures DistCode(d) < D_CODES
  {
  }

  // ---------- the extra bits of the codes ----------

  function LitExtra(s: nat): nat {
    if 257 <= s < L_CODES then LengthBits(s - 257) else 0
  }

  function LitExtras(): (w: seq<nat>)
    ensures |w| == L_CODES
  {
    seq(L_CODES, s requires 0 <= s < L_CODES => LitExtra(s))
  }

  function DistExtras(): (w: seq<nat>)
    ensures |w| == D_CODES
  {
    seq(D_CODES, c requires 0 <= c < D_CODES => DistBits(c))
  }

  lemma TokenCost(ll: seq<nat>, dl: seq<nat>, t: Token)
    requires Codable(ll, dl, t)
    ensures |TokenBits(ll, dl, t)| == At(ll, LitSymbol(t)) + LitExtra(LitSymbol(t))
            + match t
              case Literal(_) => 0
              case Copy(_, dist) => At(dl, DistCode(dist - 1)) + DistBits(DistCode(dist - 1))
  {
    hide DistCode, CodeOf, BaseLength, BaseDist, Pow2, LengthCode;
    match t
    case Literal(byte) =>
    case Copy(len, dist) =>
      LengthCost(len);
      DistCodeBelow(dist - 1);
  }

  lemma LengthCost(len: nat)
    requires MIN_MATCH <= len <= MAX_MATCH
    ensures |ExtraLength(len)| == LitExtra(LengthSymbol(len))
  {
    hide BaseLength, Pow2, LengthBits;
    TableEnds();
  }

  // ---------- the cost of a block ----------

  function TokensCost(f: seq<nat>, g: seq<nat>, ll: seq<nat>, dl: seq<nat>): nat {
    Dot(f, ll, L_CODES) + Dot(f, LitExtras(), L_CODES) + (Dot(g, dl, D_CODES) + Dot(g, DistExtras(), D_CODES))
  }

  /**
    The bits that compress_block writes are the frequencies times the code lengths and
    extra bits.
   */
  lemma {:induction false} TokensBitsCost(ll: seq<nat>, dl: seq<nat>, ts: seq<Token>)
    requires AllCodable(ll, dl, ts)
    ensures AllOk(ts)
    ensures |TokensBits(ll, dl, ts)| == TokensCost(LitFreqs(ts), DistFreqs(ts), ll, dl)
  {
    hide Bump, DistCode, LengthSymbol, Dot, TokenBits, Codable, LitExtras, DistExtras, LitSymbol;
    AllCodableOk(ll, dl, ts);
    if ts == [] {
      EmptyCost(ll, dl);
    } else {
      var t, rest := ts[0], ts[1..];
      assert t in ts;
      TokensBitsCost(ll, dl, rest);
      OkTail(ts);
      LitSymbolBelow(t);
      TokenCost(ll, dl, t);
      var f, g := LitFreqs(rest), DistFreqs(rest);
      ExtrasAre(LitSymbol(t));
      DotBump(f, ll, L_CODES, LitSymbol(t));
      DotBump(f, LitExtras(), L_CODES, LitSymbol(t));
      if t.Copy? {
        DistCodeBelow(t.dist - 1);
        DistExtrasAre(DistCode(t.dist - 1));
        DotBump(g, dl, D_CODES, DistCode(t.dist - 1));
        DotBump(g, DistExtras(), D_CODES, DistCode(t.dist - 1));
      }
    }
  }

  lemma AllCodableOk(ll: seq<nat>, dl: seq<nat>, ts: seq<Token>)
    requires AllCodable(ll, dl, ts)
    ensures AllOk(ts) && (ts != [] ==> AllCodable(ll, dl, ts[1..]) && Codable(ll, dl, ts[0]) && TokenOk(ts[0]))
  {
    hide DistCode, LengthSymbol;
  }

  lemma LitSymbolBelow(t: Token)
    requires TokenOk(t)
    ensures LitSymbol(t) < L_CODES
  {
    hide LengthCode;
  }

  lemma ExtrasAre(s: nat)
    requires s < L_CODES
    ensures At(LitExtras(), s) == LitExtra(s)
  {
  }

  lemma DistExtrasAre(c: nat)
    requires c < D_CODES
    ensures At(DistExtras(), c) == DistBits(c)
  {
  }

  lemma EmptyCost(ll: seq<nat>, dl: seq<nat>)
    requires AllCodable(ll, dl, [])
    ensures |TokensBits(ll, dl, [])| == TokensCost(LitFreqs([]), DistFreqs([]), ll, dl)
  {
    hide Dot, CodeOf, Bump, LengthBits, DistBits;
    var z: seq<nat> := Zeros(L_CODES);
    DotZeroFreq(z, ll, L_CODES);
    DotZeroFreq(z, LitExtras(), L_CODES);
    DotForcedEnd(z, ll);
    DotForcedEnd(z, LitExtras());
    DotZeroFreq(Zeros(D_CODES), dl, D_CODES);
    DotZeroFreq(Zeros(D_CODES), DistExtras(), D_CODES);
    ExtrasAre(END_BLOCK);
  }

  lemma DotForcedEnd(z: seq<nat>, w: seq<nat>)
    requires z == Zeros(L_CODES)
    ensures Dot(z[END_BLOCK := 1], w, L_CODES) == Dot(z, w, L_CODES) + At(w, END_BLOCK)
  {
    hide Dot;
    DotBump(z, w, L_CODES, END_BLOCK);
    assert z[END_BLOCK := 1] == Bump(z, END_BLOCK);
  }

  // ---------- the cost of the code lengths ----------

  function RunExtra(k: nat): nat {
    if k == REP_3_6 then 2 else if k == REPZ_3_10 then 3 else if k == REPZ_11_138 then 7 else 0
  }

  function RunExtras(): (w: seq<nat>)
    ensures |w| == BL_CODES
  {
    seq(BL_CODES, k requires 0 <= k < BL_CODES => RunExtra(k))
  }

  function RunFreqs(runs: seq<Run>): (f: seq<nat>)
    ensures |f| == BL_CODES
  {
    seq(BL_CODES, k requires 0 <= k < BL_CODES => Frequency(runs, k))
  }

  lemma RunFreqsNext(runs: seq<Run>)
    requires runs != []
    ensures RunFreqs(runs) == Bump(RunFreqs(runs[1..]), CodeLengths.Symbol(runs[0]))
  {
  }

  lemma RunExtraIs(r: Run)
    requires RunOk(r)
    ensures CodeLengths.Symbol(r) < BL_CODES && At(RunExtras(), CodeLengths.Symbol(r)) == ExtraWidth(r)
  {
  }

  /**
    The bits that send_tree writes for some runs are the symbol counts of scan_tree times
    the code lengths and extra bits.
   */
  lemma {:induction false} RunsBitsCost(bl: seq<nat>, runs: seq<Run>)
    requires Sendable(bl, runs)
    ensures |RunsBits(bl, runs)| == Dot(RunFreqs(runs), bl, BL_CODES) + Dot(RunFreqs(runs), RunExtras(), BL_CODES)
  {
    hide Dot, Bump, RunFreqs, RunExtras, CodeOf;
    if runs == [] {
      NoRuns(bl);
      NoRuns(RunExtras());
    } else {
      var r, k := runs[0], CodeLengths.Symbol(runs[0]);
      assert r in runs;
      RunsBitsCost(bl, runs[1..]);
      RunFreqsNext(runs);
      RunExtraIs(r);
      DotBump(RunFreqs(runs[1..]), bl, BL_CODES, k);
      DotBump(RunFreqs(runs[1..]), RunExtras(), BL_CODES, k);
    }
  }

  lemma NoRuns(w: seq<nat>)
    ensures Dot(RunFreqs([]), w, BL_CODES) == 0
  {
    hide Dot;
    DotZeroFreq(RunFreqs([]), w, BL_CODES);
  }
}
