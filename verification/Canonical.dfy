/**
  The canonical prefix code of section 3.2.2 of RFC 1951, determined by code lengths alone.

  The code space is measured in units of 2^-15: a code c of length l covers the interval
  from Shl(c, 15 - l) up to Shl(c + 1, 15 - l).  Codes are laid out by length and, within a
  length, by symbol, so that code intervals never overlap and a symbol is recognised
  by the interval the next bits of the stream fall in.
 */
module Canonical {
  import opened Bits

  const MAXBITS: nat := 15

  datatype Option<T> = None | Some(value: T)

  predicate LengthsOk(lens: seq<nat>) {
    forall i :: 0 <= i < |lens| ==> lens[i] <= MAXBITS
  }

  // The number of symbols with code length l (bl_count in the RFC).
  function Count(lens: seq<nat>, l: nat): nat {
    multiset(lens)[l]
  }

  // The smallest code of length l: step 2 of the algorithm in the RFC.
  function FirstCode(lens: seq<nat>, l: nat): nat {
    if l == 0 then 0
    else 2 * (FirstCode(lens, l - 1) + if l == 1 then 0 else Count(lens, l - 1))
  }

  // How many symbols before s share its length.
  function Rank(lens: seq<nat>, s: nat): nat
    requires s < |lens|
  {
    Count(lens[..s], lens[s])
  }

  // Step 3 of the algorithm in the RFC: consecutive codes for symbols of one length.
  function CodeOf(lens: seq<nat>, s: nat): nat
    requires s < |lens|
  {
    FirstCode(lens, lens[s]) + Rank(lens, s)
  }

  function CodeBits(lens: seq<nat>, s: nat): seq<bool>
    requires s < |lens|
  {
    MsbBits(CodeOf(lens, s), lens[s])
  }

  // Code space used by all codes of lengths 1..l.
  function Filled(lens: seq<nat>, l: nat): nat
    requires l <= MAXBITS
  {
    if l == 0 then 0 else Filled(lens, l - 1) + Shl(Count(lens, l), MAXBITS - l)
  }

  predicate Oversubscribed(lens: seq<nat>) {
    Filled(lens, MAXBITS) > Pow2(MAXBITS)
  }

  predicate Complete(lens: seq<nat>) {
    Filled(lens, MAXBITS) == Pow2(MAXBITS)
  }

  // Where the interval of symbol s begins.
  function Start(lens: seq<nat>, s: nat): nat
    requires s < |lens| && 0 < lens[s] <= MAXBITS
  {
    Filled(lens, lens[s] - 1) + Shl(Rank(lens, s), MAXBITS - lens[s])
  }

  // The next bits of the stream are the code of symbol s.
  predicate Decodes(lens: seq<nat>, s: nat, bits: seq<bool>) {
    s < |lens| && 0 < lens[s] <= |bits| && bits[..lens[s]] == CodeBits(lens, s)
  }

  // The symbol whose code the stream begins with.
  ghost function DecodeSymbol(lens: seq<nat>, bits: seq<bool>): (r: Option<nat>)
    ensures r.Some? ==> Decodes(lens, r.value, bits)
    ensures r.None? ==> forall s :: !Decodes(lens, s, bits)
  {
    if exists s :: Decodes(lens, s, bits) then
      var s :| Decodes(lens, s, bits);
      Some(s)
    else None
  }

  // ---------- counting ----------

  lemma CountPush(lens: seq<nat>, s: nat, l: nat)
    requires s < |lens|
    ensures Count(lens[..s + 1], l) == Count(lens[..s], l) + if lens[s] == l then 1 else 0
  {
    assert lens[..s + 1] == lens[..s] + [lens[s]];
  }

  lemma CountPrefix(lens: seq<nat>, s: nat, t: nat, l: nat)
    requires s <= t <= |lens|
    ensures Count(lens[..s], l) <= Count(lens[..t], l) <= Count(lens, l)
  {
    assert lens[..t] == lens[..s] + lens[s..t];
    assert lens == lens[..t] + lens[t..];
  }

  lemma RankOrder(lens: seq<nat>, s: nat, t: nat)
    requires s < t < |lens| && lens[s] == lens[t]
    ensures Rank(lens, s) < Rank(lens, t)
  {
    CountPush(lens, s, lens[s]);
    CountPrefix(lens, s + 1, t, lens[s]);
  }

  lemma RankBound(lens: seq<nat>, s: nat)
    requires s < |lens|
    ensures Rank(lens, s) < Count(lens, lens[s])
  {
    CountPush(lens, s, lens[s]);
    CountPrefix(lens, s + 1, s + 1, lens[s]);
  }

  // ---------- the code space ----------

  lemma {:induction false} FilledMono(lens: seq<nat>, k: nat, l: nat)
    requires k <= l <= MAXBITS
    ensures Filled(lens, k) <= Filled(lens, l)
    decreases l
  {
    if k < l {
      FilledMono(lens, k, l - 1);
    }
  }

  lemma {:induction false} FirstCodeFilled(lens: seq<nat>, l: nat)
    requires 1 <= l <= MAXBITS
    ensures Shl(FirstCode(lens, l), MAXBITS - l) == Filled(lens, l - 1)
  {
    var d := MAXBITS - l;
    if l == 1 {
      assert FirstCode(lens, 1) == 2 * FirstCode(lens, 0);
      ShlOne(d);
    } else {
      var f, c := FirstCode(lens, l - 1), Count(lens, l - 1);
      FirstCodeFilled(lens, l - 1);
      ShlShl(f + c, 1, d);
      assert Shl(f + c, 1) == 2 * Shl(f + c, 0);
      ShlAdd(f, c, d + 1);
    }
  }

  // The interval of a symbol is where the RFC's integer code puts it.
  lemma StartIsCode(lens: seq<nat>, s: nat)
    requires s < |lens| && 0 < lens[s] <= MAXBITS
    ensures Shl(CodeOf(lens, s), MAXBITS - lens[s]) == Start(lens, s)
    ensures Shl(CodeOf(lens, s) + 1, MAXBITS - lens[s]) == Start(lens, s) + Pow2(MAXBITS - lens[s])
    ensures Start(lens, s) + Pow2(MAXBITS - lens[s]) <= Filled(lens, lens[s])
  {
    var l := lens[s];
    var d := MAXBITS - l;
    FirstCodeFilled(lens, l);
    ShlAdd(FirstCode(lens, l), Rank(lens, s), d);
    ShlAdd(CodeOf(lens, s), 1, d);
    ShlOne(d);
    RankBound(lens, s);
    ShlAdd(Rank(lens, s), 1, d);
    ShlMono(Rank(lens, s) + 1, Count(lens, l), d);
  }

  lemma ShlCancel(x: nat, y: nat, n: nat)
    requires Shl(x, n) <= Shl(y, n)
    ensures x <= y
  {
    if x > y {
      ShlAdd(y, x - y, n);
      ShlIsMul(x - y, n);
      MulAtLeast(x - y, Pow2(n));
      assert false;
    }
  }

  // Unless the lengths are over-subscribed, every code fits in its length.
  lemma CodeFits(lens: seq<nat>, s: nat)
    requires s < |lens| && 0 < lens[s] <= MAXBITS && !Oversubscribed(lens)
    ensures CodeOf(lens, s) < Pow2(lens[s])
  {
    var l := lens[s];
    StartIsCode(lens, s);
    FilledMono(lens, l, MAXBITS);
    ShlIsMul(Pow2(l), MAXBITS - l);
    Pow2Add(l, MAXBITS - l);
    ShlCancel(CodeOf(lens, s) + 1, Pow2(l), MAXBITS - l);
  }

  // Symbols are laid out by length, then by value.
  lemma StartOrder(lens: seq<nat>, s: nat, t: nat)
    requires s < |lens| && 0 < lens[s] <= MAXBITS
    requires t < |lens| && 0 < lens[t] <= MAXBITS
    requires lens[s] < lens[t] || (lens[s] == lens[t] && s < t)
    ensures Start(lens, s) + Pow2(MAXBITS - lens[s]) <= Start(lens, t)
  {
    StartIsCode(lens, s);
    if lens[s] < lens[t] {
      FilledMono(lens, lens[s], lens[t] - 1);
    } else {
      var d := MAXBITS - lens[s];
      RankOrder(lens, s, t);
      ShlMono(Rank(lens, s) + 1, Rank(lens, t), d);
      ShlAdd(Rank(lens, s), 1, d);
      ShlOne(d);
    }
  }

  // ---------- the layout, as a rule for writing the codes down ----------

  // Codes are given out by length, and by symbol within a length.
  predicate Before(lens: seq<nat>, s: nat, t: nat) {
    s < |lens| && t < |lens| && 0 < lens[s] && (lens[s] < lens[t] || (lens[s] == lens[t] && s < t))
  }

  lemma NoneCounted(ls: seq<nat>, l: nat)
    requires forall i :: 0 <= i < |ls| ==> ls[i] != l
    ensures Count(ls, l) == 0
  {
  }

  lemma {:induction false} UnusedBelow(lens: seq<nat>, l: nat)
    requires l >= 1 && forall i :: 0 <= i < |lens| ==> lens[i] == 0 || lens[i] >= l
    ensures FirstCode(lens, l) == 0
  {
    if l > 1 {
      UnusedBelow(lens, l - 1);
      NoneCounted(lens, l - 1);
    }
  }

  // The first code is all zeros.
  lemma ZeroFirst(lens: seq<nat>, s: nat)
    requires s < |lens| && lens[s] > 0
    requires forall t :: 0 <= t < |lens| && t != s && lens[t] > 0 ==> Before(lens, s, t)
    ensures CodeOf(lens, s) == 0
  {
    UnusedBelow(lens, lens[s]);
    NoneCounted(lens[..s], lens[s]);
  }

  lemma {:induction false} UnusedBetween(lens: seq<nat>, l: nat, m: nat)
    requires 1 <= l < m && forall i :: 0 <= i < |lens| ==> !(l < lens[i] < m)
    ensures FirstCode(lens, m) == Shl(FirstCode(lens, l) + Count(lens, l), m - l)
    decreases m
  {
    var c := FirstCode(lens, l) + Count(lens, l);
    if m == l + 1 {
      assert Shl(c, 1) == 2 * Shl(c, 0);
    } else {
      UnusedBetween(lens, l, m - 1);
      NoneCounted(lens, m - 1);
      assert Shl(c, m - l) == 2 * Shl(c, m - 1 - l);
    }
  }

  // Every other code is its predecessor plus one, with zeros appended up to its length.
  lemma CodeAfter(lens: seq<nat>, s: nat, t: nat)
    requires Before(lens, s, t)
    requires forall u :: 0 <= u < |lens| ==> !(Before(lens, s, u) && Before(lens, u, t))
    ensures CodeOf(lens, t) == Shl(CodeOf(lens, s) + 1, lens[t] - lens[s])
  {
    var l := lens[s];
    forall i | 0 <= i < |lens|
      ensures !(l < lens[i] < lens[t]) && (lens[i] == l && i > s ==> l == lens[t] && i >= t)
      ensures lens[i] == lens[t] && i < t ==> l == lens[t] && i <= s
    {
      assert !(Before(lens, s, i) && Before(lens, i, t));
    }
    CountPush(lens, s, l);
    if l == lens[t] {
      assert lens[..t] == lens[..s + 1] + lens[s + 1..t];
      NoneCounted(lens[s + 1..t], l);
    } else {
      assert lens == lens[..s + 1] + lens[s + 1..];
      NoneCounted(lens[s + 1..], l);
      NoneCounted(lens[..t], lens[t]);
      UnusedBetween(lens, l, lens[t]);
    }
  }

  // ---------- recognising a code ----------

  lemma CellOf(c: nat, r: nat, tail: nat, d: nat)
    requires tail < Pow2(d)
    ensures r == c <==> Shl(c, d) <= Shl(r, d) + tail < Shl(c + 1, d)
  {
    ShlAdd(c, 1, d);
    ShlAdd(r, 1, d);
    ShlOne(d);
    if r < c {
      ShlMono(r + 1, c, d);
    } else if r > c {
      ShlMono(c + 1, r, d);
    }
  }

  lemma RevMeets(w: nat, c: nat, l: nat)
    requires c < Pow2(l)
    ensures Rev(w, l) == c <==> Low(w, l) == Rev(c, l)
  {
    hide Pow2, Rev, Low;
    RevInvolution(w, l);
    RevInvolution(c, l);
    LowId(c, l);
    RevLow(w, l, l);
  }

  // A 15-bit window of the stream begins with code c exactly when its reversal, the
  // window read as a number with the first bit most significant, lies in c's interval.
  lemma MatchInterval(w: nat, c: nat, l: nat)
    requires l <= MAXBITS && c < Pow2(l)
    ensures Low(w, l) == Rev(c, l) <==>
            Shl(c, MAXBITS - l) <= Rev(w, MAXBITS) < Shl(c + 1, MAXBITS - l)
  {
    hide Pow2, Rev, Low, Shl, Shr;
    var d := MAXBITS - l;
    var r, tail := Rev(w, l), Rev(Shr(w, l), d);
    assert Rev(w, MAXBITS) == Shl(r, d) + tail by {
      RevSplit(w, l, d);
      assert l + d == MAXBITS;
    }
    CellOf(c, r, tail, d);
    RevMeets(w, c, l);
  }

  // The same for a code kept bit-reversed, which is how both sides of zlib hold it.
  lemma ReversedCodeInterval(huff: nat, l: nat, w: nat)
    requires l <= MAXBITS && huff < Pow2(l)
    ensures Low(w, l) == huff <==>
            Rev(huff, MAXBITS) <= Rev(w, MAXBITS) < Rev(huff, MAXBITS) + Pow2(MAXBITS - l)
  {
    hide Pow2, Rev, Low, Shl;
    var d := MAXBITS - l;
    var c := Rev(huff, l);
    assert Rev(c, l) == huff by {
      RevInvolution(huff, l);
      LowId(huff, l);
    }
    assert Rev(huff, MAXBITS) == Shl(c, d) by {
      RevShort(huff, l, d);
      assert l + d == MAXBITS;
    }
    assert Shl(c + 1, d) == Shl(c, d) + Pow2(d) by {
      ShlAdd(c, 1, d);
      ShlOne(d);
    }
    MatchInterval(w, c, l);
  }

  // The same test on bit strings.
  lemma MatchBits(w: nat, c: nat, l: nat)
    requires c < Pow2(l)
    ensures Low(w, l) == Rev(c, l) <==> ToBits(w, l) == MsbBits(c, l)
  {
    hide Pow2, Rev, Low, ToBits, MsbBits, FromBits;
    RevIsMsb(c, l);
    ToBitsLow(w, l, l);
    LowId(Rev(c, l), l);
    FromToBits(w, l);
    FromToBits(Rev(c, l), l);
  }

  // Decodes as interval membership, for a window that agrees with the stream on the code.
  lemma DecodesInterval(lens: seq<nat>, s: nat, w: nat)
    requires s < |lens| && 0 < lens[s] <= MAXBITS && !Oversubscribed(lens)
    ensures ToBits(w, lens[s]) == CodeBits(lens, s) <==>
            Start(lens, s) <= Rev(w, MAXBITS) < Start(lens, s) + Pow2(MAXBITS - lens[s])
  {
    hide Pow2, Rev, Low, ToBits, MsbBits, Start, CodeOf, Shl, Oversubscribed;
    CodeFits(lens, s);
    StartIsCode(lens, s);
    MatchInterval(w, CodeOf(lens, s), lens[s]);
    MatchBits(w, CodeOf(lens, s), lens[s]);
  }

  lemma {:induction false} ToBitsPrefix(w: nat, m: nat, n: nat)
    requires m <= n
    ensures ToBits(w, n)[..m] == ToBits(w, m)
  {
    ToBitsSplit(w, m, n - m);
  }

  // No code is a prefix of another: a stream decodes to at most one symbol.
  lemma PrefixFree(lens: seq<nat>, s: nat, t: nat, bits: seq<bool>)
    requires LengthsOk(lens) && !Oversubscribed(lens)
    requires Decodes(lens, s, bits) && Decodes(lens, t, bits)
    ensures s == t
  {
    hide Pow2, Rev, Start, ToBits, FromBits, CodeBits, Oversubscribed;
    var n := if lens[s] <= lens[t] then lens[t] else lens[s];
    var w := FromBits(bits[..n]);
    ToFromBits(bits[..n]);
    forall u | u == s || u == t
      ensures Start(lens, u) <= Rev(w, MAXBITS) < Start(lens, u) + Pow2(MAXBITS - lens[u])
    {
      ToBitsPrefix(w, lens[u], n);
      assert bits[..n][..lens[u]] == bits[..lens[u]];
      DecodesInterval(lens, u, w);
    }
    if s != t {
      if lens[s] < lens[t] || (lens[s] == lens[t] && s < t) {
        StartOrder(lens, s, t);
      } else {
        StartOrder(lens, t, s);
      }
      assert false;
    }
  }

  // DecodeSymbol is determined by the code, whatever follows it.
  lemma DecodeSymbolIs(lens: seq<nat>, s: nat, bits: seq<bool>)
    requires LengthsOk(lens) && !Oversubscribed(lens)
    requires Decodes(lens, s, bits)
    ensures DecodeSymbol(lens, bits) == Some(s)
  {
    PrefixFree(lens, s, DecodeSymbol(lens, bits).value, bits);
  }

  // With a complete set of lengths every window of 15 bits begins with some code.
  lemma CompleteDecodes(lens: seq<nat>, v: nat, l: nat) returns (s: nat)
    requires LengthsOk(lens) && l <= MAXBITS
    requires v < Filled(lens, l)
    ensures s < |lens| && 0 < lens[s] <= l
    ensures Start(lens, s) <= v < Start(lens, s) + Pow2(MAXBITS - lens[s])
  {
    if v < Filled(lens, l - 1) {
      s := CompleteDecodes(lens, v, l - 1);
    } else {
      var d := MAXBITS - l;
      var k := Shr(v - Filled(lens, l - 1), d);
      LowShr(v - Filled(lens, l - 1), d);
      if k >= Count(lens, l) {
        ShlMono(Count(lens, l), k, d);
        assert false;
      }
      s := RankFind(lens, l, k);
    }
  }

  lemma RankFind(lens: seq<nat>, l: nat, k: nat) returns (s: nat)
    requires k < Count(lens, l)
    ensures s < |lens| && lens[s] == l && Rank(lens, s) == k
  {
    var n := |lens|;
    assert lens[..n] == lens;
    while Count(lens[..n], l) > k + 1 || lens[n - 1] != l
      invariant 0 <= n <= |lens| && Count(lens[..n], l) > k
      decreases n
    {
      CountPush(lens, n - 1, l);
      n := n - 1;
    }
    CountPush(lens, n - 1, l);
    s := n - 1;
  }
}
