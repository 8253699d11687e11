/**
  The state of the block encoder and its operations: _tr_tally, build_bl_tree,
  send_all_trees, _tr_stored_block and _tr_flush_block of trees.c.
 */
module FlushBlock {
  import opened Bits
  import opened Canonical
  import opened InflateTable
  import opened Symbols
  import opened GenCodes
  import opened BitWriter
  import opened CodeLengths
  import opened Inflater
  import opened InflaterRuns
  import opened HuffmanTree
  import opened Depths
  import opened Leaves
  import opened BuildTree
  import opened Blocks
  import opened BlockCost
  import opened TokenWriter

  const EXTRA_BLBITS: seq<nat> := [0, 0, 0, 0, 0, 0, 0, 0, 0, 0, 0, 0, 0, 0, 0, 0, 2, 3, 7]
  const Z_FIXED: nat := 4

  // static_l_desc, static_d_desc and static_bl_desc
  function LDesc(): Desc {
    Desc(Some(FixedLit()), EXTRA_LBITS, LITERALS + 1, L_CODES, 15)
  }

  function DDesc(): Desc {
    Desc(Some(FixedDist()), EXTRA_DBITS, 0, D_CODES, 15)
  }

  function BLDesc(): Desc {
    Desc(None, EXTRA_BLBITS, 0, BL_CODES, 7)
  }

  lemma DescsOk()
    ensures LDesc().Ok() && DDesc().Ok() && BLDesc().Ok()
    ensures forall x :: 0 <= x < 3 ==> LDesc().Extra(x) == DDesc().Extra(x) == BLDesc().Extra(x) == 0
    ensures LDesc().elems == L_CODES && DDesc().elems == D_CODES && BLDesc().elems == BL_CODES
    ensures LDesc().max_length == 15 && DDesc().max_length == 15 && BLDesc().max_length == 7
  {
    hide FixedLit, FixedDist;
    Pow2Values();
  }

  lemma ExtrasSame()
    ensures LDesc().Extras() == LitExtras() && DDesc().Extras() == DistExtras() && BLDesc().Extras() == RunExtras()
  {
    hide FixedLit, FixedDist;
    forall s: nat | s < L_CODES
      ensures LDesc().Extra(s) == LitExtra(s)
    {
    }
    forall k: nat | k < BL_CODES
      ensures BLDesc().Extra(k) == RunExtra(k)
    {
    }
  }

  lemma {:induction false} DotPlus(f: seq<nat>, a: seq<nat>, b: seq<nat>, c: seq<nat>, n: nat)
    requires forall i :: 0 <= i < n ==> At(c, i) == At(a, i) + At(b, i)
    ensures Dot(f, c, n) == Dot(f, a, n) + Dot(f, b, n)
  {
    if n > 0 {
      DotPlus(f, a, b, c, n - 1);
      ProdSum(At(f, n - 1), At(a, n - 1), At(b, n - 1));
    }
  }

  // The static bit length of a block.
  lemma StaticCost(f: seq<nat>, g: seq<nat>)
    ensures Dot(f, LDesc().Statics(), L_CODES) + Dot(g, DDesc().Statics(), D_CODES)
            == TokensCost(f, g, FixedLit(), FixedDist())
  {
    hide FixedLit, FixedDist, Dot;
    ExtrasSame();
    DotPlus(f, FixedLit(), LDesc().Extras(), LDesc().Statics(), L_CODES);
    DotPlus(g, FixedDist(), DDesc().Extras(), DDesc().Statics(), D_CODES);
  }

  // ---------- trimmed length vectors ----------

  lemma {:induction false} DotTrim(f: seq<nat>, w: seq<nat>, m: nat, n: nat)
    requires m <= |w| && forall i :: m <= i < |w| ==> w[i] == 0
    ensures Dot(f, w[..m], n) == Dot(f, w, n)
  {
    if n > 0 {
      DotTrim(f, w, m, n - 1);
    }
  }

  lemma {:induction false} FirstCodeTrim(lens: seq<nat>, n: nat, l: nat)
    requires n <= |lens| && forall i :: n <= i < |lens| ==> lens[i] == 0
    ensures FirstCode(lens[..n], l) == FirstCode(lens, l)
  {
    if l > 0 {
      FirstCodeTrim(lens, n, l - 1);
      if l > 1 {
        CountTrim(lens, n, l - 1);
      }
    }
  }

  lemma CodedTrim(lens: seq<nat>, n: nat, s: nat, code: nat)
    requires s < n <= |lens| && forall i :: n <= i < |lens| ==> lens[i] == 0
    ensures Coded(lens[..n], s, code) <==> Coded(lens, s, code)
  {
    hide FirstCode, Count, Rev, ToBits;
    FirstCodeTrim(lens, n, lens[s]);
    assert lens[..n][..s] == lens[..s];
  }

  // ---------- the code length code ----------

  lemma {:induction false} RunFreqsSum(runs: seq<Run>)
    requires forall r :: r in runs ==> RunOk(r)
    ensures Sum(RunFreqs(runs)) == |runs|
  {
    hide Sum, Bump;
    if runs == [] {
      SumZeros(RunFreqs(runs));
    } else {
      RunFreqsSum(runs[1..]);
      assert runs[0] in runs;
      RunFreqsNext(runs);
      RunExtraIs(runs[0]);
      SumBump(RunFreqs(runs[1..]), CodeLengths.Symbol(runs[0]));
    }
  }

  lemma {:induction false} OccursInFreqs(runs: seq<Run>, i: nat)
    requires i < |runs|
    ensures Frequency(runs, CodeLengths.Symbol(runs[i])) > 0
  {
    if i > 0 {
      OccursInFreqs(runs[1..], i - 1);
    }
  }

  // Code lengths that cover all symbols of the runs.
  lemma RunsSendable(runs: seq<Run>, freqs: seq<nat>, bl: seq<nat>, depths: seq<nat>, maxCode: nat)
    requires TreeBuilt(RunFreqs(runs), freqs, bl, depths, BLDesc(), maxCode)
    requires forall r :: r in runs ==> RunOk(r)
    ensures |bl| == BL_CODES && Sendable(bl, runs)
  {
    hide Complete, NonZero, Dot, Frequency;
    var f := RunFreqs(runs);
    forall r | r in runs
      ensures RunOk(r) && CodeLengths.Symbol(r) < |bl| && 0 < bl[CodeLengths.Symbol(r)] <= MAXBITS
    {
      var i :| 0 <= i < |runs| && runs[i] == r;
      OccursInFreqs(runs, i);
      RunExtraIs(r);
      assert f[CodeLengths.Symbol(r)] > 0;
    }
  }

  lemma CompleteOk(t: CodeType, lens: seq<nat>)
    requires LengthsOk(lens) && Complete(lens) && |lens| <= MaxCodes(t)
    ensures CodeOk(t, lens)
  {
    hide Filled;
  }

  lemma ThreeBitsPush(cl: seq<nat>, x: nat)
    ensures ThreeBits(cl + [x]) == ThreeBits(cl) + ToBits(x, 3)
  {
    hide ToBits;
    if cl == [] {
      assert [] + [x] == [x] && [x][1..] == [];
      assert ThreeBits([x]) == ToBits(x, 3) + ThreeBits([]);
      assert ToBits(x, 3) + [] == ToBits(x, 3) && [] + ToBits(x, 3) == ToBits(x, 3);
    } else {
      ThreeBitsPush(cl[1..], x);
      assert (cl + [x])[1..] == cl[1..] + [x];
      Assoc(ToBits(cl[0], 3), ThreeBits(cl[1..]), ToBits(x, 3));
    }
  }

  lemma RunsOkBoth(ll: seq<nat>, dl: seq<nat>)
    requires LengthsOk(ll) && LengthsOk(dl)
    ensures forall r :: r in Encode(ll, 0, 0, -1) + Encode(dl, 0, 0, -1) ==> RunOk(r)
    ensures |Encode(ll, 0, 0, -1) + Encode(dl, 0, 0, -1)| <= |ll| + |dl|
  {
    hide Encode;
    EncodeOk(ll, 0, 0, -1);
    EncodeOk(dl, 0, 0, -1);
  }

  lemma CountBoth(a: seq<Run>, c: seq<Run>, f: seq<nat>)
    requires |f| == BL_CODES && forall k :: 0 <= k < BL_CODES ==> f[k] == Frequency(a, k) + Frequency(c, k)
    ensures f == RunFreqs(a + c)
  {
    hide Frequency;
    forall k: nat | k < BL_CODES
      ensures f[k] == Frequency(a + c, k)
    {
      FrequencyConcat(a, c, k);
    }
  }

  // The lengths are those of the tree that build_tree makes for these frequencies, up to the
  // last symbol with a code.
  ghost predicate TreeFor(f: seq<nat>, lens: seq<nat>, desc: Desc) {
    exists freqs, full, depths, m: nat ::
      TreeBuilt(f, freqs, full, depths, desc, m) && |lens| == m + 1 && lens <= full
  }

  lemma TreeForIs(f: seq<nat>, freqs: seq<nat>, full: seq<nat>, depths: seq<nat>, desc: Desc, m: nat)
    requires TreeBuilt(f, freqs, full, depths, desc, m)
    ensures m < |full| && TreeFor(f, full[..m + 1], desc)
  {
    TreeRange(f, freqs, full, depths, desc, m);
    hide TreeBuilt;
    assert full[..m + 1] <= full;
  }

  lemma TreeRange(f: seq<nat>, freqs: seq<nat>, full: seq<nat>, depths: seq<nat>, desc: Desc, m: nat)
    requires TreeBuilt(f, freqs, full, depths, desc, m)
    ensures m < |full|
  {
  }

  // The same for the lengths of all symbols.
  ghost predicate WholeTreeFor(f: seq<nat>, lens: seq<nat>, desc: Desc) {
    exists freqs, depths, m :: TreeBuilt(f, freqs, lens, depths, desc, m)
  }

  // The trees are Huffman trees for the tokens and for the run-length coding of their lengths,
  // and no more code length code lengths are sent than necessary.
  ghost predicate TreesFor(trees: Trees, ts: seq<Token>) {
    && trees.Valid() && AllOk(ts)
    && TreeFor(LitFreqs(ts), trees.ll, LDesc()) && TreeFor(DistFreqs(ts), trees.dl, DDesc())
    && WholeTreeFor(RunFreqs(trees.Runs()), trees.bl, BLDesc()) && trees.bl[OrderAt(trees.ncode - 1)] != 0
  }

  // The trees of a block, as far as they are described by values.
  ghost predicate TreesReady(ll: seq<nat>, dl: seq<nat>, bl: seq<nat>, last: nat) {
    && |bl| == BL_CODES && CodeOk(CODES, bl) && 3 <= last < BL_CODES
    && (forall k :: 0 <= k < BL_CODES ==> bl[k] < 8)
    && (forall i :: last < i < BL_CODES ==> bl[OrderAt(i)] == 0)
    && Sendable(bl, Encode(ll, 0, 0, -1) + Encode(dl, 0, 0, -1))
  }

  // All frequencies are counted, none for the code lengths yet.
  ghost predicate Tallied(lf: seq<nat>, df: seq<nat>, bf: seq<nat>, tokens: seq<Token>) {
    && AllOk(tokens) && |lf| >= L_CODES && |df| >= D_CODES && |bf| >= BL_CODES
    && lf[..L_CODES] == LitFreqs(tokens) && df[..D_CODES] == DistFreqs(tokens) && bf[..BL_CODES] == Zeros(BL_CODES)
  }

  // A code for the symbols of the runs.
  ghost predicate BlTreeFor(bl: seq<nat>, runs: seq<Run>) {
    && |bl| == BL_CODES && CodeOk(CODES, bl) && (forall k :: 0 <= k < BL_CODES ==> bl[k] < 8)
    && Sendable(bl, runs)
  }

  lemma BlTreeFacts(runs: seq<Run>, freqs: seq<nat>, bl: seq<nat>, depths: seq<nat>, m: nat)
    requires TreeBuilt(RunFreqs(runs), freqs, bl, depths, BLDesc(), m) && forall r :: r in runs ==> RunOk(r)
    ensures BlTreeFor(bl, runs) && Sendable(bl, runs) && |bl| == BL_CODES && m < BL_CODES
    ensures forall k :: m < k < BL_CODES ==> bl[k] == 0
  {
    hide Complete, Dot, NonZero, Frequency, Sendable, RunFreqs, Acceptable;
    RunsSendable(runs, freqs, bl, depths, m);
    CompleteOk(CODES, bl);
  }

  lemma NoStatics(f: seq<nat>)
    ensures Dot(f, BLDesc().Statics(), BL_CODES) == 0
  {
    hide Dot;
    DotZeros(f, BLDesc().Statics(), BL_CODES);
  }

  lemma BlCodes(bl: seq<nat>, fc: array<nat>, dl: array<nat>, m: nat)
    requires |bl| == BL_CODES <= dl.Length == fc.Length && dl[..BL_CODES] == bl && m < BL_CODES
    requires forall k :: m < k < BL_CODES ==> bl[k] == 0
    requires forall n :: 0 <= n <= m && dl[n] != 0 ==> Coded(dl[..m + 1], n, fc[n])
    ensures BitLengthTree(bl, fc, dl)
  {
    hide Coded;
    assert dl[..m + 1] == bl[..m + 1];
    forall k: nat | k < BL_CODES && bl[k] != 0
      ensures Coded(bl, k, fc[k])
    {
      assert dl[k] == bl[k];
      CodedTrim(bl, m + 1, k, fc[k]);
    }
  }

  // bl_order
  const BL_ORDER: seq<nat> := [16, 17, 18, 0, 8, 7, 9, 6, 10, 5, 11, 4, 12, 3, 13, 2, 14, 1, 15]

  lemma BlOrder(i: nat)
    requires i < BL_CODES
    ensures |BL_ORDER| == BL_CODES && BL_ORDER[i] == OrderAt(i)
  {
  }

  // Symbols of code lengths come after the first three in the order of sending.
  lemma LengthPlace(k: nat)
    requires 1 <= k <= 15
    ensures PlaceAt(k) >= 4
  {
  }

  lemma {:induction false} ExpandZeros(acc: seq<nat>, runs: seq<Run>)
    requires forall i :: 0 <= i < |acc| ==> acc[i] == 0
    requires forall r :: r in runs ==> !(r.Length? && r.len > 0)
    requires CodeLengths.Expand(acc, runs).Some?
    ensures forall i :: 0 <= i < |CodeLengths.Expand(acc, runs).value| ==> CodeLengths.Expand(acc, runs).value[i] == 0
    decreases |runs|
  {
    if runs != [] {
      assert runs[0] in runs;
      match runs[0]
      case Length(len) => ExpandZeros(acc + [len], runs[1..]);
      case Repeat(count) => ExpandZeros(acc + Times(acc[|acc| - 1], count), runs[1..]);
      case ZerosShort(count) => ExpandZeros(acc + Times(0, count), runs[1..]);
      case ZerosLong(count) => ExpandZeros(acc + Times(0, count), runs[1..]);
    }
  }

  // A length that is not zero makes some length symbol necessary.
  lemma NotAllZeros(ll: seq<nat>, dl: seq<nat>, runs: seq<Run>, i: nat)
    requires i < |ll| && ll[i] != 0 && runs == Encode(ll, 0, 0, -1) + Encode(dl, 0, 0, -1)
    ensures exists r :: r in runs && r.Length? && r.len > 0
  {
    hide Encode, CodeLengths.Expand;
    RoundTrip(ll, dl);
    var s := ll + dl;
    assert s[i] == ll[i];
    if forall r :: r in runs ==> !(r.Length? && r.len > 0) {
      ExpandZeros([], runs);
      assert false;
    }
  }

  lemma SomeLength(ll: seq<nat>, dl: seq<nat>, bl: seq<nat>, runs: seq<Run>, i: nat)
    requires i < |ll| && ll[i] != 0 && runs == Encode(ll, 0, 0, -1) + Encode(dl, 0, 0, -1) && Sendable(bl, runs)
    ensures exists k :: 1 <= k <= 15 && k < |bl| && bl[k] != 0
  {
    hide Encode;
    NotAllZeros(ll, dl, runs, i);
    var r :| r in runs && r.Length? && r.len > 0;
    assert RunOk(r) && bl[CodeLengths.Symbol(r)] > 0;
  }

  lemma BlReady(ll: seq<nat>, dl: seq<nat>, bl: seq<nat>, runs: seq<Run>, last: nat)
    requires runs == Encode(ll, 0, 0, -1) + Encode(dl, 0, 0, -1) && BlTreeFor(bl, runs)
    requires 3 <= last < BL_CODES == |bl| && forall i :: last < i < BL_CODES ==> bl[OrderAt(i)] == 0
    ensures TreesReady(ll, dl, bl, last)
  {
    hide Encode, CodeOk, Sendable, OrderAt;
  }

  // ---------- the trees of the tokens ----------

  // A complete code for all symbols that occur, ending with its last symbol.
  ghost predicate Covers(lens: seq<nat>, f: seq<nat>) {
    && lens != [] && lens[|lens| - 1] != 0 && LengthsOk(lens) && Complete(lens)
    && forall s :: 0 <= s < |f| && f[s] > 0 ==> s < |lens| && lens[s] > 0
  }

  lemma TreeCovers(f: seq<nat>, freqs: seq<nat>, lens: seq<nat>, depths: seq<nat>, desc: Desc, m: nat, w: seq<nat>)
    requires TreeBuilt(f, freqs, lens, depths, desc, m)
    ensures m < |lens| && Covers(lens[..m + 1], f)
    ensures Dot(w, lens[..m + 1], desc.elems) == Dot(w, lens, desc.elems)
  {
    hide Complete, Dot, NonZero;
    DotTrim(w, lens, m + 1, desc.elems);
  }

  lemma CodesOf(lens: seq<nat>, fc: array<nat>, dl: array<nat>, m: nat)
    requires m < dl.Length == fc.Length && lens == dl[..m + 1]
    requires forall n :: 0 <= n <= m && dl[n] != 0 ==> Coded(dl[..m + 1], n, fc[n])
    ensures Codes(lens, fc[..], |lens|)
  {
    hide Coded;
    forall s | 0 <= s < |lens| && lens[s] != 0
      ensures Coded(lens, s, fc[..][s])
    {
      assert dl[s] == lens[s];
    }
  }

  lemma BumpMore(f: seq<nat>, s: nat, x: nat)
    requires s < |f| && x < |f|
    ensures Bump(f, s)[s] > 0 && Bump(f, s)[x] >= f[x]
  {
  }

  lemma {:induction false} LitOccurs(ts: seq<Token>, i: nat)
    requires AllOk(ts) && i < |ts|
    ensures TokenOk(ts[i]) && LitSymbol(ts[i]) < L_CODES && LitFreqs(ts)[LitSymbol(ts[i])] > 0
    decreases i
  {
    hide LitSymbol, Bump, TokenOk;
    OkTail(ts);
    LitSymbolBelow(ts[0]);
    var s := LitSymbol(ts[0]);
    if i > 0 {
      LitOccurs(ts[1..], i - 1);
      assert ts[1..][i - 1] == ts[i];
      BumpMore(LitFreqs(ts[1..]), s, LitSymbol(ts[i]));
    } else {
      BumpMore(LitFreqs(ts[1..]), s, s);
    }
  }

  lemma DistBumpMore(f: seq<nat>, t: Token, x: nat)
    requires TokenOk(t) && x < |f| == D_CODES
    ensures DistBump(f, t)[x] >= f[x]
    ensures t.Copy? ==> DistCode(t.dist - 1) < D_CODES && DistBump(f, t)[DistCode(t.dist - 1)] > 0
  {
    hide DistCode, IsDistCode;
    if t.Copy? {
      DistCodeBelow(t.dist - 1);
    }
  }

  lemma {:induction false} DistOccurs(ts: seq<Token>, i: nat)
    requires AllOk(ts) && i < |ts| && ts[i].Copy?
    ensures TokenOk(ts[i]) && DistCode(ts[i].dist - 1) < D_CODES && DistFreqs(ts)[DistCode(ts[i].dist - 1)] > 0
    decreases i
  {
    hide DistCode, DistBump, IsDistCode;
    OkTail(ts);
    var rest := ts[1..];
    if i > 0 {
      DistOccurs(rest, i - 1);
      assert rest[i - 1] == ts[i];
      DistBumpMore(DistFreqs(rest), ts[0], DistCode(ts[i].dist - 1));
    } else {
      DistBumpMore(DistFreqs(rest), ts[0], 0);
    }
  }

  lemma {:induction false} EndOccurs(ts: seq<Token>)
    requires AllOk(ts)
    ensures LitFreqs(ts)[END_BLOCK] > 0
  {
    hide LitSymbol;
    if ts != [] {
      OkTail(ts);
      EndOccurs(ts[1..]);
    }
  }

  // Codes that cover the frequencies can send the tokens.
  lemma CoversCodable(ll: seq<nat>, dl: seq<nat>, ts: seq<Token>)
    requires AllOk(ts) && Covers(ll, LitFreqs(ts)) && Covers(dl, DistFreqs(ts))
    ensures AllCodable(ll, dl, ts) && 257 <= |ll|
  {
    hide LitFreqs, DistFreqs, Covers, Codable;
    EndOccurs(ts);
    forall t | t in ts
      ensures Codable(ll, dl, t)
    {
      var i :| 0 <= i < |ts| && ts[i] == t;
      TokenCovered(ll, dl, ts, i);
    }
    CoversAt(ll, LitFreqs(ts), END_BLOCK);
  }

  lemma CoversAt(lens: seq<nat>, f: seq<nat>, s: nat)
    requires Covers(lens, f) && s < |f| && f[s] > 0
    ensures s < |lens| && lens[s] > 0
  {
  }

  lemma TokenCovered(ll: seq<nat>, dl: seq<nat>, ts: seq<Token>, i: nat)
    requires AllOk(ts) && Covers(ll, LitFreqs(ts)) && Covers(dl, DistFreqs(ts)) && i < |ts|
    ensures Codable(ll, dl, ts[i])
  {
    hide LitFreqs, DistFreqs, DistCode, LengthSymbol, Covers;
    LitOccurs(ts, i);
    CoversAt(ll, LitFreqs(ts), LitSymbol(ts[i]));
    if ts[i].Copy? {
      DistOccurs(ts, i);
      CoversAt(dl, DistFreqs(ts), DistCode(ts[i].dist - 1));
    }
  }

  lemma FixedCodable(ts: seq<Token>)
    requires AllOk(ts)
    ensures AllCodable(FixedLit(), FixedDist(), ts)
  {
    hide DistCode, LengthSymbol;
    FixedPositive();
    forall t | t in ts
      ensures Codable(FixedLit(), FixedDist(), t)
    {
      hide FixedLit, FixedDist;
      LitSymbolBelow(t);
      if t.Copy? {
        DistCodeBelow(t.dist - 1);
      }
    }
  }

  lemma FixedPositive()
    ensures forall s :: 0 <= s < 288 ==> FixedLit()[s] > 0
    ensures forall c :: 0 <= c < 32 ==> FixedDist()[c] > 0
  {
  }

  // The three trees together can be sent.
  lemma TreesValid(ll: seq<nat>, dl: seq<nat>, bl: seq<nat>, last: nat, ts: seq<Token>)
    requires AllOk(ts) && Covers(ll, LitFreqs(ts)) && Covers(dl, DistFreqs(ts)) && |ll| <= L_CODES && |dl| <= D_CODES
    requires TreesReady(ll, dl, bl, last)
    ensures Trees(ll, dl, bl, last + 1).Valid()
  {
    hide Complete, LengthsOk, Encode, LitFreqs, DistFreqs, Sendable;
    EndOccurs(ts);
    CompleteOk(LENS, ll);
    CompleteOk(DISTS, dl);
  }

  lemma TreesCost(t: Trees)
    requires t.Valid()
    ensures |TreesBits(t)| == 14 + 3 * t.ncode + |RunsBits(t.bl, t.Runs())|
  {
    hide CodeOk, Encode, Sendable, RunsBits;
  }

  lemma JoinTrees(before: seq<bool>, t: Trees, a: seq<Run>, c: seq<Run>)
    requires t.Valid() && t.Runs() == a + c && Sendable(t.bl, a) && Sendable(t.bl, c)
    requires RunsBits(t.bl, a + c) == RunsBits(t.bl, a) + RunsBits(t.bl, c)
    ensures before
      + (ToBits(|t.ll| - 257, 5) + ToBits(|t.dl| - 1, 5) + ToBits(t.ncode - 4, 4)
            + ThreeBits(Blocks.Ordered(t.bl, t.ncode)))
      + RunsBits(t.bl, a) + RunsBits(t.bl, c) == before + TreesBits(t)
  {
    hide ToBits, ThreeBits, RunsBits, Encode, CodeOk, Sendable;
    var head := ToBits(|t.ll| - 257, 5) + ToBits(|t.dl| - 1, 5) + ToBits(t.ncode - 4, 4)
          + ThreeBits(Blocks.Ordered(t.bl, t.ncode));
    Assoc(before, head, RunsBits(t.bl, a));
    Assoc(before, head + RunsBits(t.bl, a), RunsBits(t.bl, c));
    Assoc(head, RunsBits(t.bl, a), RunsBits(t.bl, c));
  }

  lemma NoThree(bl: seq<nat>)
    requires |bl| == BL_CODES
    ensures ThreeBits(Blocks.Ordered(bl, 0)) == []
  {
  }

  lemma OrderedPush(bl: seq<nat>, n: nat)
    requires |bl| == BL_CODES && n < BL_CODES
    ensures ThreeBits(Blocks.Ordered(bl, n + 1)) == ThreeBits(Blocks.Ordered(bl, n)) + ToBits(bl[OrderAt(n)], 3)
  {
    hide ToBits, ThreeBits, OrderAt;
    assert Blocks.Ordered(bl, n + 1) == Blocks.Ordered(bl, n) + [bl[OrderAt(n)]];
    ThreeBitsPush(Blocks.Ordered(bl, n), bl[OrderAt(n)]);
  }

  lemma ThreeBitsFit(x: nat)
    ensures x < 8 ==> x < Pow2(3)
  {
    Pow2Values();
  }

  lemma CountWidths(l: nat, d: nat, n: nat)
    ensures 257 <= l <= 286 ==> l - 257 < Pow2(5)
    ensures 1 <= d <= 30 ==> d - 1 < Pow2(5)
    ensures 4 <= n <= 19 ==> n - 4 < Pow2(4)
  {
    assert Pow2(4) == 16;
    assert Pow2(5) == 32;
  }

  lemma TreesSendable(t: Trees)
    requires t.Valid()
    ensures LengthsOk(t.ll) && LengthsOk(t.dl) && Sendable(t.bl, Encode(t.ll, 0, 0, -1))
    ensures Sendable(t.bl, Encode(t.dl, 0, 0, -1))
    ensures 257 <= |t.ll| <= 286 && 1 <= |t.dl| <= 30 && |t.bl| == BL_CODES && 4 <= t.ncode <= BL_CODES
    ensures forall k :: 0 <= k < BL_CODES ==> t.bl[k] < 8
    ensures t.Runs() == Encode(t.ll, 0, 0, -1) + Encode(t.dl, 0, 0, -1)
  {
    hide Encode, Sendable, Acceptable;
    SendableConcat(t.bl, Encode(t.ll, 0, 0, -1), Encode(t.dl, 0, 0, -1));
  }

  lemma LengthSymbolAt(tables: Tables, lc: nat)
    requires tables.Ok() && lc < 256
    ensures |tables.length_code| == 256 && tables.length_code[lc] + LITERALS + 1 == LengthSymbol(lc + MIN_MATCH)
  {
    hide DistTable, Codes, LengthCode, FixedLit, FixedDist;
  }

  lemma TalliedOk(lf: seq<nat>, df: seq<nat>, bf: seq<nat>, ts: seq<Token>)
    requires Tallied(lf, df, bf, ts)
    ensures AllOk(ts)
  {
  }

  lemma TallyOk(lf: seq<nat>, df: seq<nat>, bf: seq<nat>, ts: seq<Token>, t: Token)
    requires Tallied(lf, df, bf, ts) && TokenOk(t)
    ensures AllOk(ts + [t])
  {
  }

  // The counts after one more token.
  lemma TalliedStep(lf: seq<nat>, df: seq<nat>, bf: seq<nat>, ts: seq<Token>, t: Token, lf2: seq<nat>, df2: seq<nat>)
    requires Tallied(lf, df, bf, ts) && TokenOk(t) && LitSymbol(t) < |lf|
    requires lf2 == lf[LitSymbol(t) := lf[LitSymbol(t)] + 1]
    requires t.Literal? ==> df2 == df
    requires t.Copy? ==> DistCode(t.dist - 1) < |df| && df2 == df[DistCode(t.dist - 1) := df[DistCode(t.dist - 1)] + 1]
    ensures Tallied(lf2, df2, bf, ts + [t])
  {
    hide DistCode, LitSymbol, LitFreqs, DistFreqs, IsDistCode;
    TallyOk(lf, df, bf, ts, t);
    FreqsTally(ts, t);
    LitSymbolBelow(t);
    BumpPrefix(lf, LitSymbol(t), L_CODES);
    if t.Copy? {
      DistCodeBelow(t.dist - 1);
      BumpPrefix(df, DistCode(t.dist - 1), D_CODES);
    }
  }

  lemma BumpPrefix(f: seq<nat>, s: nat, n: nat)
    requires s < n <= |f|
    ensures f[s := f[s] + 1][..n] == Bump(f[..n], s)
  {
  }

  lemma CoversParts(lens: seq<nat>, f: seq<nat>)
    requires Covers(lens, f)
    ensures lens != [] && lens[|lens| - 1] != 0 && LengthsOk(lens)
  {
  }

  lemma PairOf(ll: seq<nat>, dl: seq<nat>, lcodes: seq<nat>, dcodes: seq<nat>)
    requires LengthsOk(ll) && LengthsOk(dl) && Codes(ll, lcodes, |ll|) && Codes(dl, dcodes, |dl|) && |dl| <= D_CODES
    ensures Pair(ll, dl, lcodes, dcodes)
  {
    hide Codes;
  }

  lemma StoredJoin(before: seq<bool>, buf: seq<nat>, last: bool)
    requires |buf| < 0x10000
    requires IsBytes(buf)
    ensures before + HeaderBits(STORED_BLOCK, last) + Padding(|before + HeaderBits(STORED_BLOCK, last)|)
            + (ToBits(|buf|, 16) + ToBits(0xffff - |buf|, 16) + BytesBits(buf))
            == before + BlockBits(Stored(buf), [], |before|, last)
  {
    hide ToBits, Padding, BytesBits;
    var head, pad := HeaderBits(STORED_BLOCK, last), Padding(|before| + 3);
    var rest := ToBits(|buf|, 16) + ToBits(0xffff - |buf|, 16) + BytesBits(buf);
    Assoc(before, head, pad);
    Assoc(before, head + pad, rest);
    Assoc(head, pad, rest);
  }

  lemma DynamicJoin(before: seq<bool>, head: seq<bool>, trees: seq<bool>, rest: seq<bool>)
    ensures before + head + trees + rest == before + (head + (trees + rest))
  {
  }

  lemma FixedPair(tables: Tables)
    requires tables.Ok()
    ensures Pair(FixedLit(), FixedDist(), tables.lcodes, tables.dcodes)
  {
    hide LengthTable, DistTable, Coded;
  }

  // How _tr_flush_block chooses between the kinds of blocks: by their lengths in bytes,
  // rounded as the source rounds them.
  ghost predicate Chosen(block: Block, hasBuf: bool, stored: nat, opt: nat, stat: nat, strategy: nat) {
    var optb, statb := (opt + 3 + 7) / 8, (stat + 3 + 7) / 8;
    var least := if statb <= optb then statb else optb;
    match block
    case Stored(_) => hasBuf && stored + 4 <= least
    case Fixed(_) => !(hasBuf && stored + 4 <= least) && (strategy == Z_FIXED || statb == least)
    case Dynamic(_, _) => !(hasBuf && stored + 4 <= least) && strategy != Z_FIXED && optb < statb
  }

  // Huffman trees for the tokens, with which the block takes opt bits after its header.
  ghost predicate DynamicCost(trees: Trees, ts: seq<Token>, opt: nat) {
    && TreesFor(trees, ts) && AllCodable(trees.ll, trees.dl, ts)
    && opt == |TreesBits(trees)| + |TokensBits(trees.ll, trees.dl, ts)|
  }

  // opt and stat are the lengths of the block with dynamic and with static trees, whatever
  // kind the block is.
  ghost predicate CostsExact(block: Block, ts: seq<Token>, opt: nat, stat: nat) {
    && AllCodable(FixedLit(), FixedDist(), ts) && stat == |TokensBits(FixedLit(), FixedDist(), ts)|
    && (exists trees :: DynamicCost(trees, ts, opt) && (block.Dynamic? ==> block.trees == trees))
    && (!block.Stored? ==> block.tokens == ts)
  }

  // The length of the block in bits.
  lemma BlockCosts(block: Block, ts: seq<Token>, opt: nat, stat: nat, out: seq<nat>, pos: nat, last: bool)
    requires CostsExact(block, ts, opt, stat) && BlockOk(block, out)
    ensures block.Stored? ==> |BlockBits(block, out, pos, last)| == 3 + |Padding(pos + 3)| + 32 + 8 * |block.data|
    ensures block.Fixed? ==> |BlockBits(block, out, pos, last)| == 3 + stat
    ensures block.Dynamic? ==> |BlockBits(block, out, pos, last)| == 3 + opt
  {
    hide FixedLit, FixedDist, AllCodable, TokensBits, TreesBits, BytesBits, Blocks.Expand, TreesFor, Trees.Valid;
  }

  function WholeBytes(bits: nat): nat {
    (bits + 7) / 8
  }

  /**
    No other kind of block would have been shorter, in whole bytes: not with dynamic trees,
    not with the fixed codes, and not stored, which takes four bytes more than the data.
   */
  lemma Cheapest(block: Block, ts: seq<Token>, hasBuf: bool, stored: nat, opt: nat, stat: nat, strategy: nat,
                 out: seq<nat>, pos: nat, last: bool)
    requires CostsExact(block, ts, opt, stat) && Chosen(block, hasBuf, stored, opt, stat, strategy)
    requires BlockOk(block, out) && strategy != Z_FIXED && (block.Stored? ==> |block.data| == stored)
    ensures var length := WholeBytes(|BlockBits(block, out, pos, last)|);
            && (!block.Stored? ==> length <= WholeBytes(3 + opt) && length <= WholeBytes(3 + stat))
            && (!block.Stored? && hasBuf ==> length < stored + 4)
            && (block.Stored? ==> stored + 4 <= WholeBytes(3 + opt) && stored + 4 <= WholeBytes(3 + stat))
  {
    hide FixedLit, FixedDist, AllCodable, TokensBits, TreesBits, Blocks.Expand, CostsExact, BlockBits;
    BlockCosts(block, ts, opt, stat, out, pos, last);
  }

  // The last block is followed by padding.
  function Ending(bits: seq<bool>, pos: nat, last: bool): seq<bool> {
    if last then bits + Padding(pos + |bits|) else bits
  }

  lemma EndingJoin(before: seq<bool>, bits: seq<bool>, last: bool)
    ensures before + Ending(bits, |before|, last) == before + bits + if last then Padding(|before + bits|) else []
  {
    hide Padding;
  }

  lemma StoredFacts(data: seq<nat>, out: seq<nat>, pos: nat, last: bool)
    requires IsBytes(data) && |data| < 0x10000
    ensures BlockOk(Stored(data), out) && BlockOutput(Stored(data), out) == out + data
    ensures BlockBits(Stored(data), [], pos, last) == BlockBits(Stored(data), out, pos, last)
  {
  }

  lemma FixedFacts(ts: seq<Token>, out: seq<nat>)
    requires AllCodable(FixedLit(), FixedDist(), ts) && Blocks.Expand(out, ts).Some?
    ensures BlockOk(Fixed(ts), out)
  {
  }

  lemma DynamicFacts(trees: Trees, ts: seq<Token>, out: seq<nat>)
    requires trees.Valid() && AllCodable(trees.ll, trees.dl, ts) && Blocks.Expand(out, ts).Some?
    ensures BlockOk(Dynamic(trees, ts), out)
  {
  }

  // The choice made by the byte lengths, in terms of the bit lengths.
  lemma ChosenBlock(block: Block, buf: Option<seq<nat>>, storedLen: nat, optLenb: nat, staticLenb: nat, trees: Trees,
                    ts: seq<Token>, out: seq<nat>, full: seq<nat>, opt: nat, stat: nat, strategy: nat, level: nat)
    requires BlockOk(block, out) && (buf.Some? ==> full == out + buf.value)
    requires Blocks.Expand(out, ts) == Some(full) || (buf.Some? && storedLen + 4 <= optLenb)
    requires block == if buf.Some? && storedLen + 4 <= optLenb then Stored(buf.value)
                      else if strategy == Z_FIXED || staticLenb == optLenb then Fixed(ts) else Dynamic(trees, ts)
    requires level > 0 ==> staticLenb == (stat + 10) / 8
    requires level > 0 ==> optLenb == (if staticLenb <= (opt + 10) / 8 then staticLenb else (opt + 10) / 8)
    requires level > 0 ==> DynamicCost(trees, ts, opt) && AllCodable(FixedLit(), FixedDist(), ts)
    requires level > 0 ==> stat == |TokensBits(FixedLit(), FixedDist(), ts)|
    ensures BlockOutput(block, out) == full
    ensures level > 0 ==> CostsExact(block, ts, opt, stat) && Chosen(block, buf.Some?, storedLen, opt, stat, strategy)
  {
    hide FixedLit, FixedDist, AllCodable, TokensBits, TreesBits, Blocks.Expand, trees.Valid, DynamicCost;
  }

  method ClearFreqs(fc: array<nat>, n: nat)
    requires n <= fc.Length
    modifies fc
    ensures fc[..n] == Zeros(n)
  {
    for i := 0 to n
      invariant forall j :: 0 <= j < i ==> fc[j] == 0
    {
      fc[i] := 0;
    }
  }

  class Encoder {
    const tables: Tables
    const w: Writer
    const b: Builder
    const lfc: array<nat>
    const ldl: array<nat>
    const dfc: array<nat>
    const ddl: array<nat>
    const bfc: array<nat>
    const bdl: array<nat>
    const lit_bufsize: nat
    const level: nat
    const strategy: nat
    var tokens: seq<Token>

    // The trees are kept in arrays of their own.
    predicate Shape() {
      && b.Valid() && b.Apart(lfc) && b.Apart(ldl) && b.Apart(dfc) && b.Apart(ddl) && b.Apart(bfc) && b.Apart(bdl)
      && lfc.Length == ldl.Length == HEAP_SIZE && dfc.Length == ddl.Length == 2 * D_CODES + 1
      && bfc.Length == bdl.Length == 2 * BL_CODES + 1
      && lfc != ldl && dfc != ddl && bfc != bdl
      && 2 <= lit_bufsize <= 0x8000
    }

    ghost predicate Valid()
      reads this, w, b, lfc, dfc, bfc
    {
      && Shape() && w.Valid() && tables.Ok() && |tokens| < lit_bufsize
      && Tallied(lfc[..], dfc[..], bfc[..], tokens) && b.opt_len == 0 == b.static_len
    }

    // _tr_init
    constructor (tables: Tables, level: nat, strategy: nat, lit_bufsize: nat)
      requires tables.Ok() && 2 <= lit_bufsize <= 0x8000
      ensures Valid() && w.Stream() == [] && tokens == []
      ensures fresh(w) && fresh(b) && fresh(b.heap) && fresh(b.depth) && fresh(b.bl_count)
      ensures fresh(lfc) && fresh(ldl) && fresh(dfc) && fresh(ddl) && fresh(bfc) && fresh(bdl)
      ensures this.level == level && this.strategy == strategy && this.lit_bufsize == lit_bufsize
    {
      hide tables.Ok, Tallied;
      this.tables, this.level, this.strategy, this.lit_bufsize := tables, level, strategy, lit_bufsize;
      w := new Writer();
      b := new Builder();
      lfc, ldl := new nat[HEAP_SIZE], new nat[HEAP_SIZE];
      dfc, ddl := new nat[2 * D_CODES + 1], new nat[2 * D_CODES + 1];
      bfc, bdl := new nat[2 * BL_CODES + 1], new nat[2 * BL_CODES + 1];
      tokens := [];
      new;
      InitBlock();
    }

    // init_block
    method InitBlock()
      requires Shape()
      modifies lfc, dfc, bfc, b`opt_len, b`static_len, this`tokens
      ensures tokens == [] && Tallied(lfc[..], dfc[..], bfc[..], tokens) && b.opt_len == 0 == b.static_len
    {
      ClearFreqs(lfc, L_CODES);
      ClearFreqs(dfc, D_CODES);
      ClearFreqs(bfc, BL_CODES);
      lfc[END_BLOCK] := 1;
      b.opt_len := 0;
      b.static_len := 0;
      tokens := [];
      assert lfc[..L_CODES] == Zeros(L_CODES)[END_BLOCK := 1];
    }

    // Count the runs of both length vectors.
    method ScanTrees(lmax: nat, dmax: nat)
      requires Shape() && lmax < L_CODES && dmax < D_CODES
      requires LengthsOk(ldl[..lmax + 1]) && LengthsOk(ddl[..dmax + 1]) && bfc[..BL_CODES] == Zeros(BL_CODES)
      modifies ldl, ddl, bfc
      ensures ldl[..lmax + 1] == old(ldl[..lmax + 1]) && ldl[lmax + 1] == 0xffff
      ensures ddl[..dmax + 1] == old(ddl[..dmax + 1]) && ddl[dmax + 1] == 0xffff
      ensures bfc[..BL_CODES] == RunFreqs(Encode(ldl[..lmax + 1], 0, 0, -1) + Encode(ddl[..dmax + 1], 0, 0, -1))
    {
      hide Encode, Frequency, RunFreqs;
      ghost var ll, dl := ldl[..lmax + 1], ddl[..dmax + 1];
      ghost var a, c := Encode(ll, 0, 0, -1), Encode(dl, 0, 0, -1);
      assert forall k :: 0 <= k < BL_CODES ==> bfc[k] == bfc[..BL_CODES][k] == 0;
      ScanTree(ldl, lmax, bfc);
      ScanTree(ddl, dmax, bfc);
      CountBoth(a, c, bfc[..BL_CODES]);
    }

    // A code for the run symbols that occur.
    method MakeBlTree(ghost runs: seq<Run>)
      requires Shape() && bfc[..BL_CODES] == RunFreqs(runs) && |runs| <= L_CODES + D_CODES
      requires forall r :: r in runs ==> RunOk(r)
      modifies bfc, bdl, b.heap, b.depth, b.bl_count, b
      ensures BlTreeFor(bdl[..BL_CODES], runs)
      ensures BitLengthTree(bdl[..BL_CODES], bfc, bdl)
      ensures b.static_len == old(b.static_len)
      ensures Sendable(bdl[..BL_CODES], runs) && WholeTreeFor(RunFreqs(runs), bdl[..BL_CODES], BLDesc())
      ensures b.opt_len == old(b.opt_len) + |RunsBits(bdl[..BL_CODES], runs)|
    {
      hide TreeBuilt, Sum, Dot, Coded, Sendable, RunsBits, BLDesc, RunFreqs, BlTreeFor;
      DescsOk();
      RunFreqsSum(runs);
      var m;
      ghost var freqs, depths;
      m, freqs, depths := b.BuildTree(bfc, bdl, BLDesc());
      ghost var bl := bdl[..BL_CODES];
      BlTreeFacts(runs, freqs, bl, depths, m);
      RunsBitsCost(bl, runs);
      ExtrasSame();
      NoStatics(RunFreqs(runs));
      BlCodes(bl, bfc, bdl, m);
    }

    // The last run symbol in transmission order with a length.
    method LastBlIndex() returns (maxBlIndex: nat)
      requires Shape() && exists k :: 1 <= k <= 15 && bdl[k] != 0
      ensures 3 <= maxBlIndex < BL_CODES && bdl[OrderAt(maxBlIndex)] != 0
      ensures forall i :: maxBlIndex < i < BL_CODES ==> bdl[OrderAt(i)] == 0
    {
      hide OrderAt, PlaceAt;
      ghost var k: nat :| 1 <= k <= 15 && bdl[k] != 0;
      OrderPlace(k);
      OrderPlace(PlaceAt(k));
      LengthPlace(k);
      maxBlIndex := BL_CODES - 1;
      while maxBlIndex >= 3
        invariant 4 <= PlaceAt(k) <= maxBlIndex < BL_CODES
        invariant forall i :: maxBlIndex < i < BL_CODES ==> bdl[OrderAt(i)] == 0
      {
        BlOrder(maxBlIndex);
        if bdl[BL_ORDER[maxBlIndex]] != 0 {
          break;
        }
        maxBlIndex := maxBlIndex - 1;
      }
    }

    /**
      The code for the runs of both length vectors, and how much of it needs to be sent; the
      cost in opt_len now includes everything before the tokens.
     */
    method BuildBlTree(lmax: nat, dmax: nat) returns (maxBlIndex: nat)
      requires Shape() && lmax < L_CODES && dmax < D_CODES && ldl[lmax] != 0
      requires LengthsOk(ldl[..lmax + 1]) && LengthsOk(ddl[..dmax + 1]) && bfc[..BL_CODES] == Zeros(BL_CODES)
      modifies ldl, ddl, bfc, bdl, b.heap, b.depth, b.bl_count, b
      ensures ldl[..lmax + 1] == old(ldl[..lmax + 1]) && ldl[lmax + 1] == 0xffff
      ensures ddl[..dmax + 1] == old(ddl[..dmax + 1]) && ddl[dmax + 1] == 0xffff
      ensures TreesReady(ldl[..lmax + 1], ddl[..dmax + 1], bdl[..BL_CODES], maxBlIndex)
      ensures bdl[OrderAt(maxBlIndex)] != 0 && BitLengthTree(bdl[..BL_CODES], bfc, bdl)
      ensures WholeTreeFor(RunFreqs(Encode(ldl[..lmax + 1], 0, 0, -1) + Encode(ddl[..dmax + 1], 0, 0, -1)),
                           bdl[..BL_CODES], BLDesc())
      ensures b.static_len == old(b.static_len)
      ensures b.opt_len == old(b.opt_len)
        + |RunsBits(bdl[..BL_CODES], Encode(ldl[..lmax + 1], 0, 0, -1) + Encode(ddl[..dmax + 1], 0, 0, -1))|
        + 3 * (maxBlIndex + 1) + 14
    {
      hide Encode, Sendable, RunsBits, BitLengthTree, RunFreqs, BlTreeFor, TreesReady, WholeTreeFor;
      ghost var ll, dl := ldl[..lmax + 1], ddl[..dmax + 1];
      ghost var runs := Encode(ll, 0, 0, -1) + Encode(dl, 0, 0, -1);
      RunsOkBoth(ll, dl);
      ScanTrees(lmax, dmax);
      MakeBlTree(runs);
      ghost var bl := bdl[..BL_CODES];
      assert ll[lmax] != 0;
      SomeLength(ll, dl, bl, runs, lmax);
      assert forall k :: 0 <= k < BL_CODES ==> bl[k] == bdl[k];
      maxBlIndex := LastBlIndex();
      BlReady(ll, dl, bl, runs, maxBlIndex);
      b.opt_len := b.opt_len + 3 * (maxBlIndex + 1) + 5 + 5 + 4;
    }
  
    /**
      Buffer one token and count its symbols.  The result says that the buffer is full.
     */
    method Tally(dist: nat, lc: nat) returns (full: bool)
      requires Valid() && |tokens| + 1 < lit_bufsize
      requires lc < 256 && dist <= 0x8000
      modifies lfc, dfc, this`tokens
      ensures full == (|tokens| == lit_bufsize - 1)
      ensures tokens == old(tokens) + [if dist == 0 then Literal(lc) else Copy(lc + MIN_MATCH, dist)]
      ensures Valid()
    {
      hide tables.Ok, LengthCode, DistCode, IsDistCode, Tallied, LitFreqs, DistFreqs, LengthSymbol, IsLengthCode;
      ghost var lf: seq<nat>, df: seq<nat>, bf: seq<nat>, was := lfc[..], dfc[..], bfc[..], tokens;
      var t := if dist == 0 then Literal(lc) else Copy(lc + MIN_MATCH, dist);
      tokens := tokens + [t];
      TallyOk(lf, df, bf, was, t);
      if dist == 0 {
        lfc[lc] := lfc[lc] + 1;
      } else {
        var d := dist - 1;
        LengthSymbolAt(tables, lc);
        lfc[tables.length_code[lc] + LITERALS + 1] := lfc[tables.length_code[lc] + LITERALS + 1] + 1;
        var c := DCode(tables, d);
        DistCodeBelow(d);
        dfc[c] := dfc[c] + 1;
      }
      full := |tokens| == lit_bufsize - 1;
      TalliedStep(lf, df, bf, was, t, lfc[..], dfc[..]);
    }

    // The three counts, then the code length code lengths in transmission order.
    method SendCounts(lcodes: nat, dcodes: nat, blcodes: nat, ghost bl: seq<nat>)
      requires Shape() && w.Valid() && 257 <= lcodes <= L_CODES && 1 <= dcodes <= D_CODES && 4 <= blcodes <= BL_CODES
      requires bl == bdl[..BL_CODES] && forall k :: 0 <= k < BL_CODES ==> bl[k] < 8
      modifies w
      ensures w.Valid()
      ensures w.Stream() == old(w.Stream())
        + (ToBits(lcodes - 257, 5) + ToBits(dcodes - 1, 5) + ToBits(blcodes - 4, 4)
              + ThreeBits(Blocks.Ordered(bl, blcodes)))
    {
      hide ToBits, ThreeBits, OrderAt;
      ghost var before := w.Stream();
      CountWidths(lcodes, dcodes, blcodes);
      w.SendBits(lcodes - 257, 5);
      w.SendBits(dcodes - 1, 5);
      w.SendBits(blcodes - 4, 4);
      ghost var head := ToBits(lcodes - 257, 5) + ToBits(dcodes - 1, 5) + ToBits(blcodes - 4, 4);
      assert w.Stream() == before + head;
      NoThree(bl);
      assert before + head + [] == before + head;
      for rank := 0 to blcodes
        invariant w.Valid() && w.Stream() == before + head + ThreeBits(Blocks.Ordered(bl, rank))
      {
        OrderedPush(bl, rank);
        assert bl[OrderAt(rank)] == bdl[OrderAt(rank)];
        ThreeBitsFit(bl[OrderAt(rank)]);
        BlOrder(rank);
        w.SendBits(bdl[BL_ORDER[rank]], 3);
        Assoc(before + head, ThreeBits(Blocks.Ordered(bl, rank)), ToBits(bl[OrderAt(rank)], 3));
      }
      Assoc(before, head, ThreeBits(Blocks.Ordered(bl, blcodes)));
    }

    /**
      Everything of a dynamic block between its three header bits and its tokens.
     */
    method SendAllTrees(lmax: nat, dmax: nat, blcodes: nat, ghost trees: Trees)
      requires Shape() && w.Valid() && trees.Valid() && trees.ncode == blcodes
      requires lmax + 1 < ldl.Length && trees.ll == ldl[..lmax + 1] && ldl[lmax + 1] == 0xffff
      requires dmax + 1 < ddl.Length && trees.dl == ddl[..dmax + 1] && ddl[dmax + 1] == 0xffff
      requires trees.bl == bdl[..BL_CODES] && BitLengthTree(trees.bl, bfc, bdl)
      modifies w
      ensures w.Valid() && w.Stream() == old(w.Stream()) + TreesBits(trees)
    {
      hide Encode, Sendable, RunsBits, ToBits, CodeOk, BitLengthTree, ThreeBits, Trees.Valid, TreesBits;
      ghost var before := w.Stream();
      TreesSendable(trees);
      ghost var bl, a, c := trees.bl, Encode(trees.ll, 0, 0, -1), Encode(trees.dl, 0, 0, -1);
      SendCounts(lmax + 1, dmax + 1, blcodes, bl);
      SendTree(w, bl, bfc, bdl, ldl, lmax);
      SendTree(w, bl, bfc, bdl, ddl, dmax);
      RunsBitsConcat(bl, a, c);
      JoinTrees(before, trees, a, c);
    }

    // Construct the literal tree.
    method BuildLitTree(ghost ts: seq<Token>) returns (lmax: nat)
      requires Shape() && AllOk(ts) && lfc[..L_CODES] == LitFreqs(ts) && |ts| <= 0x8000
      modifies lfc, ldl, b.heap, b.depth, b.bl_count, b
      ensures lmax < L_CODES && Covers(ldl[..lmax + 1], LitFreqs(ts)) && Codes(ldl[..lmax + 1], lfc[..], lmax + 1)
      ensures TreeFor(LitFreqs(ts), ldl[..lmax + 1], LDesc())
      ensures b.opt_len == old(b.opt_len) + Dot(LitFreqs(ts), ldl[..lmax + 1], L_CODES)
              + Dot(LitFreqs(ts), LitExtras(), L_CODES)
      ensures b.static_len == old(b.static_len) + Dot(LitFreqs(ts), LDesc().Statics(), L_CODES)
    {
      hide TreeBuilt, Sum, Dot, Coded, LDesc, LitFreqs, Covers, Codes, LitExtras, FixedLit, TreeFor;
      DescsOk();
      ExtrasSame();
      FreqSums(ts);
      ghost var freqs, depths;
      lmax, freqs, depths := b.BuildTree(lfc, ldl, LDesc());
      ghost var lens := ldl[..L_CODES];
      TreeCovers(LitFreqs(ts), freqs, lens, depths, LDesc(), lmax, LitFreqs(ts));
      assert ldl[..lmax + 1] == lens[..lmax + 1];
      TreeForIs(LitFreqs(ts), freqs, lens, depths, LDesc(), lmax);
      CodesOf(ldl[..lmax + 1], lfc, ldl, lmax);
    }

    // Construct the distance tree.
    method BuildDistTree(ghost ts: seq<Token>) returns (dmax: nat)
      requires Shape() && AllOk(ts) && dfc[..D_CODES] == DistFreqs(ts) && |ts| <= 0x8000
      modifies dfc, ddl, b.heap, b.depth, b.bl_count, b
      ensures dmax < D_CODES && Covers(ddl[..dmax + 1], DistFreqs(ts)) && Codes(ddl[..dmax + 1], dfc[..], dmax + 1)
      ensures TreeFor(DistFreqs(ts), ddl[..dmax + 1], DDesc())
      ensures b.opt_len == old(b.opt_len) + Dot(DistFreqs(ts), ddl[..dmax + 1], D_CODES)
              + Dot(DistFreqs(ts), DistExtras(), D_CODES)
      ensures b.static_len == old(b.static_len) + Dot(DistFreqs(ts), DDesc().Statics(), D_CODES)
    {
      hide TreeBuilt, Sum, Dot, Coded, DDesc, DistFreqs, Covers, Codes, DistExtras, FixedDist, LitFreqs, TreeFor;
      DescsOk();
      ExtrasSame();
      FreqSums(ts);
      ghost var freqs, depths;
      dmax, freqs, depths := b.BuildTree(dfc, ddl, DDesc());
      ghost var lens := ddl[..D_CODES];
      TreeCovers(DistFreqs(ts), freqs, lens, depths, DDesc(), dmax, DistFreqs(ts));
      assert ddl[..dmax + 1] == lens[..dmax + 1];
      TreeForIs(DistFreqs(ts), freqs, lens, depths, DDesc(), dmax);
      CodesOf(ddl[..dmax + 1], dfc, ddl, dmax);
    }

    // The trees as far as they can be sent with what the arrays hold.
    ghost predicate Sent(trees: Trees, lmax: nat, dmax: nat, blcodes: nat)
      reads ldl, ddl, bfc, bdl, lfc, dfc
    {
      && Shape() && trees.Valid() && trees.ncode == blcodes
      && lmax + 1 < ldl.Length && trees.ll == ldl[..lmax + 1] && ldl[lmax + 1] == 0xffff
      && dmax + 1 < ddl.Length && trees.dl == ddl[..dmax + 1] && ddl[dmax + 1] == 0xffff
      && trees.bl == bdl[..BL_CODES] && BitLengthTree(trees.bl, bfc, bdl)
      && Pair(trees.ll, trees.dl, lfc[..], dfc[..])
    }

    // Both trees for the tokens, and their exact costs.
    method BuildTwoTrees() returns (lmax: nat, dmax: nat)
      requires Valid()
      modifies lfc, ldl, dfc, ddl, b.heap, b.depth, b.bl_count, b
      ensures lmax < L_CODES && dmax < D_CODES && ldl[lmax] != 0
      ensures Covers(ldl[..lmax + 1], LitFreqs(tokens)) && Covers(ddl[..dmax + 1], DistFreqs(tokens))
      ensures Pair(ldl[..lmax + 1], ddl[..dmax + 1], lfc[..], dfc[..])
      ensures TreeFor(LitFreqs(tokens), ldl[..lmax + 1], LDesc())
      ensures TreeFor(DistFreqs(tokens), ddl[..dmax + 1], DDesc())
      ensures b.opt_len == TokensCost(LitFreqs(tokens), DistFreqs(tokens), ldl[..lmax + 1], ddl[..dmax + 1])
      ensures b.static_len == TokensCost(LitFreqs(tokens), DistFreqs(tokens), FixedLit(), FixedDist())
    {
      hide Dot, Codes, LitFreqs, DistFreqs, LitExtras, DistExtras, FixedLit, FixedDist, Covers, LDesc, DDesc,
           tables.Ok, Pair, TreeFor;
      lmax := BuildLitTree(tokens);
      ghost var ll := ldl[..lmax + 1];
      dmax := BuildDistTree(tokens);
      ghost var dl := ddl[..dmax + 1];
      CoversParts(ll, LitFreqs(tokens));
      CoversParts(dl, DistFreqs(tokens));
      assert |ll| == lmax + 1 && |dl| == dmax + 1 && ll[lmax] == ldl[lmax];
      PairOf(ll, dl, lfc[..], dfc[..]);
      StaticCost(LitFreqs(tokens), DistFreqs(tokens));
    }

    /**
      Build all three trees.  opt_len and static_len become exactly the number of bits that
      the block takes with dynamic and with static trees, without the block header.
     */
    method BuildTrees() returns (lmax: nat, dmax: nat, maxBlIndex: nat, ghost trees: Trees)
      requires Valid()
      modifies lfc, ldl, dfc, ddl, bfc, bdl, b.heap, b.depth, b.bl_count, b
      ensures Sent(trees, lmax, dmax, maxBlIndex + 1) && TreesFor(trees, tokens)
      ensures AllCodable(trees.ll, trees.dl, tokens) && AllCodable(FixedLit(), FixedDist(), tokens)
      ensures b.opt_len == |TreesBits(trees)| + |TokensBits(trees.ll, trees.dl, tokens)|
      ensures b.static_len == |TokensBits(FixedLit(), FixedDist(), tokens)|
    {
      hide LitFreqs, DistFreqs, FixedLit, FixedDist, Covers, Encode, RunsBits, Sendable, BitLengthTree,
           AllCodable, TreesReady, TokensBits, TreesBits, tables.Ok, TokensCost, Pair, Trees.Valid, TreeFor,
           WholeTreeFor, RunFreqs, LDesc, DDesc, BLDesc;
      lmax, dmax := BuildTwoTrees();
      ghost var ll, dl := ldl[..lmax + 1], ddl[..dmax + 1];
      CoversParts(ll, LitFreqs(tokens));
      CoversParts(dl, DistFreqs(tokens));
      FixedCodable(tokens);
      TokensBitsCost(FixedLit(), FixedDist(), tokens);
      CoversCodable(ll, dl, tokens);
      TokensBitsCost(ll, dl, tokens);
      maxBlIndex := BuildBlTree(lmax, dmax);
      trees := Trees(ll, dl, bdl[..BL_CODES], maxBlIndex + 1);
      TreesValid(ll, dl, trees.bl, maxBlIndex, tokens);
      TreesCost(trees);
    }

    method SendHeader(kind: nat, last: bool)
      requires w.Valid() && kind < 3
      modifies w
      ensures w.Valid() && w.Stream() == old(w.Stream()) + HeaderBits(kind, last)
    {
      hide ToBits, Pow2, HeaderBits;
      HeaderValue(kind, last);
      w.SendBits(2 * kind + (if last then 1 else 0), 3);
    }

    // Send a stored block.
    method StoredBlock(buf: seq<nat>, last: bool)
      requires w.Valid() && IsBytes(buf) && |buf| < 0x10000
      modifies w
      ensures w.Valid() && w.bi_valid == 0 && (old(Valid()) ==> Valid())
      ensures w.Stream() == old(w.Stream()) + BlockBits(Stored(buf), [], |old(w.Stream())|, last)
    {
      hide ToBits, Padding, BytesBits, HeaderBits, BlockBits, Tallied, tables.Ok;
      ghost var before := w.Stream();
      SendHeader(STORED_BLOCK, last);
      w.CopyBlock(buf);
      StoredJoin(before, buf, last);
    }

    method FixedBlock(last: bool, ghost out: seq<nat>)
      requires w.Valid() && tables.Ok() && AllCodable(FixedLit(), FixedDist(), tokens)
      requires Blocks.Expand(out, tokens).Some?
      modifies w
      ensures w.Valid()
      ensures w.Stream() == old(w.Stream()) + BlockBits(Fixed(tokens), out, |old(w.Stream())|, last)
    {
      hide FixedLit, FixedDist, HeaderBits, AllCodable, TokensBits, Pair, tables.Ok;
      ghost var before := w.Stream();
      SendHeader(STATIC_TREES, last);
      FixedPair(tables);
      CompressBlock(w, tables, FixedLit(), FixedDist(), tables.lcodes, tables.dcodes, tokens);
      Assoc(before, HeaderBits(STATIC_TREES, last), TokensBits(FixedLit(), FixedDist(), tokens));
    }

    method DynamicBlock(lmax: nat, dmax: nat, maxBlIndex: nat, last: bool, ghost trees: Trees, ghost out: seq<nat>)
      requires Sent(trees, lmax, dmax, maxBlIndex + 1) && w.Valid() && tables.Ok()
      requires AllCodable(trees.ll, trees.dl, tokens) && Blocks.Expand(out, tokens).Some?
      modifies w
      ensures w.Valid()
      ensures w.Stream() == old(w.Stream()) + BlockBits(Dynamic(trees, tokens), out, |old(w.Stream())|, last)
    {
      hide HeaderBits, AllCodable, TokensBits, TreesBits, Pair, tables.Ok, BitLengthTree, trees.Valid;
      ghost var before := w.Stream();
      SendHeader(DYN_TREES, last);
      SendAllTrees(lmax, dmax, maxBlIndex + 1, trees);
      CompressBlock(w, tables, ldl[..lmax + 1], ddl[..dmax + 1], lfc[..], dfc[..], tokens);
      DynamicJoin(before, HeaderBits(DYN_TREES, last), TreesBits(trees), TokensBits(trees.ll, trees.dl, tokens));
    }
  
    // Write the block in the cheapest way.
    method WriteBlock(buf: Option<seq<nat>>, storedLen: nat, last: bool, optLenb: nat, staticLenb: nat,
                      lmax: nat, dmax: nat, maxBlIndex: nat, ghost trees: Trees, ghost out: seq<nat>)
      returns (ghost block: Block)
      requires w.Valid() && tables.Ok() && AllOk(tokens)
      requires buf.Some? ==> IsBytes(buf.value) && |buf.value| == storedLen < 0x10000
      requires Blocks.Expand(out, tokens).Some? || (buf.Some? && storedLen + 4 <= optLenb)
      requires level == 0 ==> storedLen + 4 <= optLenb == staticLenb
      requires level > 0 ==> Sent(trees, lmax, dmax, maxBlIndex + 1) && AllCodable(trees.ll, trees.dl, tokens)
      modifies w
      ensures w.Valid() && BlockOk(block, out)
      ensures w.Stream() == old(w.Stream()) + BlockBits(block, out, |old(w.Stream())|, last)
      ensures block == if buf.Some? && storedLen + 4 <= optLenb then Stored(buf.value)
                       else if strategy == Z_FIXED || staticLenb == optLenb then Fixed(tokens)
                       else Dynamic(trees, tokens)
    {
      hide FixedLit, FixedDist, AllCodable, tables.Ok, BlockBits, BlockOk, Sent;
      if buf.Some? && storedLen + 4 <= optLenb {
        StoredFacts(buf.value, out, |w.Stream()|, last);
        StoredBlock(buf.value, last);
        block := Stored(buf.value);
      } else if strategy == Z_FIXED || staticLenb == optLenb {
        FixedCodable(tokens);
        FixedFacts(tokens, out);
        FixedBlock(last, out);
        block := Fixed(tokens);
      } else {
        assert trees.Valid() by { SentValid(trees, lmax, dmax, maxBlIndex + 1); }
        DynamicFacts(trees, tokens, out);
        DynamicBlock(lmax, dmax, maxBlIndex, last, trees, out);
        block := Dynamic(trees, tokens);
      }
    }

    lemma SentValid(trees: Trees, lmax: nat, dmax: nat, blcodes: nat)
      requires Sent(trees, lmax, dmax, blcodes)
      ensures trees.Valid()
    {
    }

    // _tr_flush_bits: whole bytes go to the pending output.
    method FlushBits()
      requires w.Valid()
      modifies w
      ensures w.Valid() && w.bi_valid <= 7 && w.Stream() == old(w.Stream()) && (old(Valid()) ==> Valid())
      ensures old(w.bi_valid) <= 7 ==> w.bi_valid == old(w.bi_valid) && w.pending == old(w.pending)
    {
      hide Tallied;
      w.BiFlush();
    }

    /**
      Choose the kind of block and write it: the block written stands for what the tokens
      stand for, and its length is exactly the one that the choice was based on.  out is all
      output before the block, full all output with it.  At level 0 the block may consist of
      buf alone, with no tokens for it.
     */
    method FlushBlock(buf: Option<seq<nat>>, storedLen: nat, last: bool, ghost out: seq<nat>, ghost full: seq<nat>)
      returns (ghost block: Block, ghost opt: nat, ghost stat: nat)
      requires Valid() && (Blocks.Expand(out, tokens) == Some(full) || (level == 0 && buf.Some?))
      requires buf.Some? ==> IsBytes(buf.value) && |buf.value| == storedLen < 0x10000 && full == out + buf.value
      modifies w, lfc, ldl, dfc, ddl, bfc, bdl, b.heap, b.depth, b.bl_count, b, this`tokens
      ensures Valid() && tokens == []
      ensures BlockOk(block, out)
      ensures BlockOutput(block, out) == full
      ensures w.Stream() == old(w.Stream())
              + Ending(BlockBits(block, out, |old(w.Stream())|, last), |old(w.Stream())|, last)
      ensures level > 0 ==>
        CostsExact(block, old(tokens), opt, stat) && Chosen(block, buf.Some?, storedLen, opt, stat, strategy)
      ensures level == 0 ==> block == if buf.Some? then Stored(buf.value) else Fixed(old(tokens))
      ensures block.Stored? ==> buf == Some(block.data)
      ensures last ==> w.bi_valid == 0
    {
      hide Tallied, FixedLit, FixedDist, AllCodable, TokensBits, TreesBits, tables.Ok, BlockBits, BlockOk,
           BlockOutput, Chosen, CostsExact,
           Sent, Padding, Trees.Valid, Ending, TreesFor;
      ghost var before, ts := w.Stream(), tokens;
      TalliedOk(lfc[..], dfc[..], bfc[..], tokens);
      ghost var trees: Trees := *;
      var lmax, dmax, maxBlIndex := 0, 0, 0;
      var optLenb: nat, staticLenb: nat := storedLen + 5, storedLen + 5;   // force a stored block
      opt, stat := 0, 0;
      if level > 0 {
        lmax, dmax, maxBlIndex, trees := BuildTrees();
        assert trees.Valid() by { SentValid(trees, lmax, dmax, maxBlIndex + 1); }
        opt, stat := b.opt_len, b.static_len;
        optLenb, staticLenb := (b.opt_len + 3 + 7) / 8, (b.static_len + 3 + 7) / 8;
        if staticLenb <= optLenb {
          optLenb := staticLenb;
        }
      }
      block := WriteBlock(buf, storedLen, last, optLenb, staticLenb, lmax, dmax, maxBlIndex, trees, out);
      ChosenBlock(block, buf, storedLen, optLenb, staticLenb, trees, ts, out, full, opt, stat, strategy, level);
      InitBlock();
      EndingJoin(before, BlockBits(block, out, |before|, last), last);
      if last {
        w.BiWindup();
      }
    }
  
    // _tr_align: an empty fixed block.
    method Align(ghost out: seq<nat>)
      requires w.Valid() && tables.Ok()
      modifies w
      ensures w.Valid() && w.bi_valid <= 7 && (old(Valid()) ==> Valid())
      ensures BlockOk(Fixed([]), out) && BlockOutput(Fixed([]), out) == out
      ensures w.Stream() == old(w.Stream()) + BlockBits(Fixed([]), out, |old(w.Stream())|, false)
    {
      hide FixedLit, FixedDist, HeaderBits, TokensBits, Pair, tables.Ok, CodeBits, Tallied;
      ghost var before := w.Stream();
      SendHeader(STATIC_TREES, false);
      FixedPair(tables);
      FixedCodable([]);
      EndCodable(FixedLit(), FixedDist(), []);
      PairLit(FixedLit(), FixedDist(), tables.lcodes, tables.dcodes, END_BLOCK);
      SendCode(w, tables.lcodes, FixedLit(), FixedLit()[END_BLOCK], END_BLOCK);
      Assoc(before, HeaderBits(STATIC_TREES, false), TokensBits(FixedLit(), FixedDist(), []));
      w.BiFlush();
    }
  }
}
