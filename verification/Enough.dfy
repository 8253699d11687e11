/**
  The table space set aside for the two codes of a block is enough: no complete code of at
  most 286 literal/length symbols needs more than ENOUGH_LENS entries behind a root table
  of nine bits, and none of at most 30 distance symbols more than ENOUGH_DISTS behind one
  of six.

  A sub-table of 2^k entries whose codes have between a and b bits more than the root
  (b = k) holds at least 2^a + b - a codes.  As codes come in order of their lengths, the
  entries beyond one for each code add up to what a single sub-table from the shortest to
  the longest length would have.
 */
module Enough {
  import opened Bits
  import opened Canonical
  import opened TableSpace
  import opened InflateTable

  // ---------- one sub-table ----------

  lemma {:induction false} ShlGrows(r: nat, n: nat)
    requires r >= 1
    ensures Shl(r, n) >= r + n
  {
    if n > 0 {
      ShlGrows(r, n - 1);
      assert Shl(r, n) == 2 * Shl(r, n - 1);
    }
  }

  lemma ShlInjective(x: nat, y: nat, n: nat)
    requires Shl(x, n) == Shl(y, n)
    ensures x == y
  {
    ShlCancel(x, y, n);
    ShlCancel(y, x, n);
  }

  // Codes that fill r units of length l, the last of them of length b, number at least
  // r + b - l.
  lemma {:induction false} FillCount(p: Plan, i: nat, k: nat, l: nat, r: nat)
    requires p.Valid() && i < k <= |p.order| && 1 <= l <= p.Len(i) && r >= 1
    requires l <= MAXBITS && Pos(p.lens, p.order, i) + Shl(r, MAXBITS - l) == Pos(p.lens, p.order, k)
    ensures k - i >= r + p.Len(k - 1) - l
    decreases k - i
  {
    hide Shl, Pow2, Sorted;
    LengthBlock(p.lens, p.order, i);
    var a := p.Len(i);
    var s := Shl(r, a - l);
    assert Shl(s, MAXBITS - a) == Shl(r, MAXBITS - l) by {
      ShlShl(r, a - l, MAXBITS - a);
      assert a - l + (MAXBITS - a) == MAXBITS - l;
    }
    ShlGrows(r, a - l);
    ShlOne(MAXBITS - a);
    if k == i + 1 {
      ShlInjective(s, 1, MAXBITS - a);
    } else {
      LengthsSorted(p.lens, p.order, i, i + 1);
      PosStrict(p, i + 1, k);
      ShlAdd(s - 1, 1, MAXBITS - a);
      if s == 1 {
        assert false;
      }
      FillCount(p, i + 1, k, a, s - 1);
    }
  }

  // A code at least as long as the root does not reach beyond its cell.
  lemma StaysInCell(p: Plan, k: nat, q: nat)
    requires p.Valid() && k < |p.order| && p.root <= p.Len(k) && Pos(p.lens, p.order, k) < Shl(q, MAXBITS - p.root)
    ensures Pos(p.lens, p.order, k + 1) <= Shl(q, MAXBITS - p.root)
  {
    hide Shl, Pow2, Sorted, CodeOf, Pos, Start;
    PosIsStart(p.lens, p.order, k);
    StartIsCode(p.lens, p.order[k]);
    var l, c := p.Len(k), CodeOf(p.lens, p.order[k]);
    assert Shl(q, MAXBITS - p.root) == Shl(Shl(q, l - p.root), MAXBITS - l) by {
      ShlShl(q, l - p.root, MAXBITS - l);
      assert l - p.root + (MAXBITS - l) == MAXBITS - p.root;
    }
    if Shl(q, l - p.root) <= c {
      ShlMono(Shl(q, l - p.root), c, MAXBITS - l);
      assert false;
    }
    ShlMono(c + 1, Shl(q, l - p.root), MAXBITS - l);
  }

  // Where the codes of a cell end.
  lemma {:induction false} CellEnd(p: Plan, i: nat, q: nat) returns (k: nat)
    requires p.Valid() && i < |p.order| && p.root <= p.Len(i)
    requires Pos(p.lens, p.order, i) < Shl(q, MAXBITS - p.root) <= Pos(p.lens, p.order, |p.order|)
    ensures i < k <= |p.order| && Pos(p.lens, p.order, k) == Shl(q, MAXBITS - p.root)
    decreases |p.order| - i
  {
    hide Shl, Pow2, Sorted, Pos;
    StaysInCell(p, i, q);
    k := i + 1;
    if Pos(p.lens, p.order, k) < Shl(q, MAXBITS - p.root) {
      LengthsSorted(p.lens, p.order, i, k);
      k := CellEnd(p, k, q);
    }
  }

  // ---------- all sub-tables ----------

  // How far entries may run ahead of codes up to length l.
  function Ahead(root: nat, l: nat): int
    requires root <= l
  {
    Pow2(l - root) - l
  }

  lemma {:induction false} AheadMono(root: nat, k: nat, l: nat)
    requires root <= k <= l
    ensures Ahead(root, k) <= Ahead(root, l)
    decreases l
  {
    if k < l {
      AheadMono(root, k, l - 1);
      Pow2Double(l - 1 - root);
      Pow2AtLeast(l - 1 - root);
    }
  }

  lemma SubTableCodes(p: Plan, q: nat, i: nat, k: nat)
    requires p.Valid() && i < k <= |p.order| && p.root < p.Len(i)
    requires Pos(p.lens, p.order, i) == Shl(q, MAXBITS - p.root)
    requires Pos(p.lens, p.order, k) == Shl(q + 1, MAXBITS - p.root)
    ensures p.root < p.Len(i) <= p.Len(k - 1) <= MAXBITS
    ensures SubSize(p.lens, p.root, q) == Pow2(p.Len(k - 1) - p.root)
    ensures Pow2(p.Len(k - 1) - p.root) <= k - i + Ahead(p.root, p.Len(k - 1)) - Ahead(p.root, p.Len(i))
  {
    hide Shl, Pow2, Sorted, Pos, SubSize;
    var e, a, b := MAXBITS - p.root, p.Len(i), p.Len(k - 1);
    LengthsSorted(p.lens, p.order, i, k - 1);
    LengthBlock(p.lens, p.order, k - 1);
    LengthBlock(p.lens, p.order, i);
    NextCell(q, e);
    ShlPow2(a - p.root, MAXBITS - a);
    assert a - p.root + (MAXBITS - a) == e;
    Pow2AtLeast(a - p.root);
    FillCount(p, i, k, a, Pow2(a - p.root));
    forall j | i <= j < |p.order| && Pos(p.lens, p.order, j) < Shl(q + 1, e)
      ensures p.Len(j) <= b
    {
      if j >= k {
        PosMono(p.lens, p.order, k, j);
        assert false;
      }
      LengthsSorted(p.lens, p.order, j, k - 1);
    }
    PosStrict(p, k - 1, k);
    assert Reaches(p, i, Shl(q + 1, e), b);
    OpenedCell(p, i, q, b - p.root);
  }

  // The sub-tables from cell q on, for the codes from i on.
  lemma {:induction false} Entries(p: Plan, q: nat, i: nat) returns (rest: nat)
    requires p.Valid() && i <= |p.order| && q <= Pow2(p.root) && Pos(p.lens, p.order, i) == Shl(q, MAXBITS - p.root)
    requires Pos(p.lens, p.order, |p.order|) == Pow2(MAXBITS) && (i < |p.order| ==> p.Len(i) > p.root)
    ensures SubSpace(p.lens, p.root, Pow2(p.root)) == SubSpace(p.lens, p.root, q) + rest && rest % 2 == 0
    ensures i == |p.order| ==> rest == 0
    ensures i < |p.order| ==>
      p.Len(i) <= MAXBITS && rest <= |p.order| - i + Ahead(p.root, MAXBITS) - Ahead(p.root, p.Len(i))
    decreases Pow2(p.root) - q
  {
    hide Shl, Pow2, Sorted, Pos, SubSpace, SubSize, Ahead;
    var e, n := MAXBITS - p.root, |p.order|;
    ShlPow2(p.root, e);
    assert p.root + e == MAXBITS;
    if i == n {
      ShlInjective(q, Pow2(p.root), e);
      rest := 0;
    } else {
      PosStrict(p, i, n);
      if q == Pow2(p.root) {
        assert false;
      }
      ShlMono(q + 1, Pow2(p.root), e);
      NextCell(q, e);
      Pow2AtLeast(e);
      var k := CellEnd(p, i, q + 1);
      SubTableCodes(p, q, i, k);
      if k < n {
        LengthsSorted(p.lens, p.order, k - 1, k);
      }
      var more := Entries(p, q + 1, k);
      SubSpaceNext(p, q);
      rest := SubSize(p.lens, p.root, q) + more;
      var b := p.Len(k - 1);
      Pow2Double(b - p.root - 1);
      AheadMono(p.root, b, if k < n then p.Len(k) else MAXBITS);
    }
  }

  // ---------- codes no longer than the root ----------

  // The first code that is longer than the root.
  lemma {:induction false} FirstLong(p: Plan, k: nat) returns (i: nat)
    requires p.Valid() && k < |p.order| && p.Len(k) > p.root
    ensures i <= k && p.Len(i) > p.root && forall j :: 0 <= j < i ==> p.Len(j) <= p.root
  {
    hide Sorted;
    i := k;
    while i > 0 && p.Len(i - 1) > p.root
      invariant i <= k && p.Len(i) > p.root
    {
      i := i - 1;
    }
    forall j | 0 <= j < i
      ensures p.Len(j) <= p.root
    {
      LengthsSorted(p.lens, p.order, j, i - 1);
    }
  }

  // Shorter codes fill whole cells.
  lemma WholeCells(p: Plan, i: nat) returns (q: nat)
    requires p.Valid() && i < |p.order| && forall j :: 0 <= j < i ==> p.Len(j) <= p.root
    ensures Pos(p.lens, p.order, i) == Shl(q, MAXBITS - p.root)
  {
    hide Shl, Pow2, Sorted, CodeOf, Start;
    if i == 0 {
      q := 0;
      ShlOne(MAXBITS - p.root);
    } else {
      PosIsStart(p.lens, p.order, i - 1);
      StartIsCode(p.lens, p.order[i - 1]);
      var l := p.Len(i - 1);
      q := Shl(CodeOf(p.lens, p.order[i - 1]) + 1, p.root - l);
      ShlShl(CodeOf(p.lens, p.order[i - 1]) + 1, p.root - l, MAXBITS - p.root);
      assert p.root - l + (MAXBITS - p.root) == MAXBITS - l;
    }
  }

  // Entries in all: at most one for each longer code, and what a sub-table of the whole
  // range of lengths has beyond its codes; and an even number of them.
  lemma Bounded(p: Plan, i: nat) returns (rest: nat)
    requires p.Valid() && i < |p.order| && p.Len(i) > p.root && forall j :: 0 <= j < i ==> p.Len(j) <= p.root
    requires Pos(p.lens, p.order, |p.order|) == Pow2(MAXBITS)
    ensures p.root < MAXBITS && Needed(p.lens, p.root) == Pow2(p.root) + rest && rest % 2 == 0
    ensures rest <= |p.order| - i + Ahead(p.root, MAXBITS) - Ahead(p.root, p.root + 1)
  {
    hide Shl, Pow2, Sorted, Pos, SubSpace, Ahead;
    var q := WholeCells(p, i);
    var e := MAXBITS - p.root;
    LengthBlock(p.lens, p.order, i);
    ShlPow2(p.root, e);
    assert p.root + e == MAXBITS;
    PosMono(p.lens, p.order, i, |p.order|);
    ShlCancel(q, Pow2(p.root), e);
    forall j | 0 <= j < |p.order| && p.Len(j) > p.root
      ensures Shl(q, e) <= Pos(p.lens, p.order, j)
    {
      PosMono(p.lens, p.order, i, j);
    }
    EmptyCells(p, 0, q);
    NoCells(p);
    rest := Entries(p, q, i);
    AheadMono(p.root, p.root + 1, p.Len(i));
  }

  lemma NoCells(p: Plan)
    requires p.Valid()
    ensures SubSpace(p.lens, p.root, 0) == 0
  {
  }

  // Codes of at least m bits each take little of the code space.
  lemma {:induction false} SmallCodes(p: Plan, i: nat, k: nat, m: nat)
    requires p.Valid() && i <= k <= |p.order| && m <= MAXBITS && (i < |p.order| ==> p.Len(i) >= m)
    ensures Pos(p.lens, p.order, k) <= Pos(p.lens, p.order, i) + Shl(k - i, MAXBITS - m)
    decreases k
  {
    hide Shl, Pow2, Sorted;
    ShlOne(MAXBITS - m);
    if i < k {
      SmallCodes(p, i, k - 1, m);
      LengthsSorted(p.lens, p.order, i, k - 1);
      LengthBlock(p.lens, p.order, k - 1);
      ShlAdd(k - 1 - i, 1, MAXBITS - m);
      Pow2Mono(MAXBITS - p.Len(k - 1), MAXBITS - m);
    }
  }

  lemma Powers()
    ensures Pow2(1) == 2 && Pow2(5) == 32 && Pow2(6) == 64 && Pow2(7) == 128 && Pow2(8) == 256 && Pow2(9) == 512
    ensures Pow2(10) == 1024 && Pow2(13) == 0x2000 && Pow2(14) == 0x4000 && Pow2(15) == 0x8000
  {
    Pow2Values();
    assert Pow2(4) == 16;
    assert Pow2(12) == 4096;
  }

  // With an index of nine bits at least two codes are no longer than the index ...
  lemma TwoShort(p: Plan, i: nat)
    requires p.Valid() && p.root == 9 && |p.order| <= 286 && Pos(p.lens, p.order, |p.order|) == Pow2(MAXBITS)
    requires i < |p.order| && p.Len(i) > 9
    ensures i >= 2
  {
    hide Shl, Sorted;
    Powers();
    SmallCodes(p, i, |p.order|, 10);
    ShlIsMul(|p.order| - i, 5);
    if i == 1 {
      OneCode(p);
    }
  }

  // ... and with one of six bits at least three.
  lemma ThreeShort(p: Plan, i: nat)
    requires p.Valid() && p.root == 6 && |p.order| <= 30 && Pos(p.lens, p.order, |p.order|) == Pow2(MAXBITS)
    requires i < |p.order| && p.Len(i) > 6
    ensures i >= 3
  {
    hide Shl, Sorted;
    Powers();
    SmallCodes(p, i, |p.order|, 7);
    ShlIsMul(|p.order| - i, 8);
    if i == 1 {
      OneCode(p);
    } else if i == 2 {
      TwoCodes(p);
    }
  }

  lemma OneCode(p: Plan)
    requires p.Valid() && |p.order| > 0
    ensures Pos(p.lens, p.order, 1) <= 0x4000
  {
    hide Sorted;
    LengthBlock(p.lens, p.order, 0);
    Pow2Mono(MAXBITS - p.Len(0), 14);
    Powers();
    assert Pos(p.lens, p.order, 0) == 0;
  }

  // Two codes and more to come: not both of one bit.
  lemma TwoCodes(p: Plan)
    requires p.Valid() && |p.order| > 2 && Pos(p.lens, p.order, |p.order|) == Pow2(MAXBITS)
    ensures Pos(p.lens, p.order, 2) <= 0x6000
  {
    hide Sorted;
    OneCode(p);
    Powers();
    LengthBlock(p.lens, p.order, 1);
    LengthsSorted(p.lens, p.order, 0, 1);
    PosStrict(p, 2, |p.order|);
    if p.Len(1) > 1 {
      Pow2Mono(MAXBITS - p.Len(1), 13);
    }
  }

  // ---------- the two constants ----------

  // The i-th symbol by length and value.
  lemma SymbolAt(lens: seq<nat>, i: nat, l: nat) returns (s: nat)
    requires l <= MAXBITS && i < Offs(lens, l + 1)
    ensures Placed(lens, s, i)
  {
    if i < Offs(lens, l) {
      s := SymbolAt(lens, i, l - 1);
    } else {
      s := RankFind(lens, l, i - Offs(lens, l));
    }
  }

  lemma {:induction false} OrderTo(lens: seq<nat>, n: nat) returns (order: seq<nat>)
    requires n <= Offs(lens, MAXBITS + 1)
    ensures |order| == n && forall i :: 0 <= i < n ==> Placed(lens, order[i], i)
  {
    hide Offs, Placed;
    order := [];
    if n > 0 {
      order := OrderTo(lens, n - 1);
      var s := SymbolAt(lens, n - 1, MAXBITS);
      order := order + [s];
    }
  }

  lemma CodesAtMost(lens: seq<nat>)
    ensures Offs(lens, MAXBITS + 1) <= |lens|
  {
    assert lens[..|lens|] == lens;
    OffsTotal(lens, |lens|, MAXBITS + 1);
  }

  // The plan of a complete code that has codes longer than the index.
  lemma PlanFor(t: CodeType, lens: seq<nat>, bits: nat) returns (p: Plan)
    requires LengthsOk(lens) && Complete(lens) && |lens| <= MaxCodes(t) && 1 <= bits <= MAXBITS
    ensures p.Valid() && p.lens == lens && p.t == t && |p.order| <= |lens|
    ensures p.root == RootWidth(lens, bits)
    ensures Pos(p.lens, p.order, |p.order|) == Pow2(MAXBITS)
  {
    hide Offs, Placed, Filled, Pow2, Pos, RootWidth;
    CodesAtMost(lens);
    var order := OrderTo(lens, Offs(lens, MAXBITS + 1));
    assert Sorted(lens, order);
    p := Plan(t, lens, order, 0, RootWidth(lens, bits));
    RootPositive(lens, bits);
    PlanValid(p);
    PosEnd(lens, order);
  }

  lemma RootPositive(lens: seq<nat>, bits: nat)
    requires bits <= MAXBITS
    ensures 1 <= RootWidth(lens, bits) <= MAXBITS
  {
  }

  // The root table is as wide as asked for if there are longer codes: too few symbols for
  // all of them to be longer.
  lemma FullRoot(p: Plan, bits: nat, s: nat)
    requires p.Valid() && 1 <= bits < MAXBITS && p.root == RootWidth(p.lens, bits)
    requires Pos(p.lens, p.order, |p.order|) == Pow2(MAXBITS) && |p.order| < Pow2(bits + 1)
    requires s < |p.lens| && p.lens[s] > bits
    ensures p.root == bits
  {
    hide Offs, Placed, Pow2, LongestTo, ShortestFrom, Shl;
    var j := PlaceOf(p.lens, p.order, s);
    LengthBlock(p.lens, p.order, j);
    LongestAbove(p.lens, MAXBITS, s);
    LengthBlock(p.lens, p.order, 0);
    InUse(p.lens, p.order[0]);
    ShortestBelow(p.lens, 1, p.Len(0));
    if p.root > bits {
      var e := MAXBITS - (bits + 1);
      SmallCodes(p, 0, |p.order|, bits + 1);
      ShlPow2(bits + 1, e);
      assert bits + 1 + e == MAXBITS;
      ShlCancel(Pow2(bits + 1), |p.order|, e);
      assert false;
    }
  }

  // The index widths that inflate() asks for, and the most symbols it lets through.
  function IndexBits(t: CodeType): nat {
    match t case CODES => 7 case LENS => 9 case DISTS => 6
  }

  function MostSymbols(t: CodeType): nat {
    match t case CODES => 19 case LENS => 286 case DISTS => 30
  }

  lemma EnoughFor(p: Plan, s: nat)
    requires p.Valid() && !p.t.CODES? && p.root == RootWidth(p.lens, IndexBits(p.t)) && |p.order| <= MostSymbols(p.t)
    requires Pos(p.lens, p.order, |p.order|) == Pow2(MAXBITS)
    requires s < |p.lens| && p.lens[s] > IndexBits(p.t)
    ensures Needed(p.lens, p.root) <= Capacity(p.t)
  {
    hide Offs, Sorted, Shl, RootWidth, Needed, Pow2;
    Powers();
    FullRoot(p, IndexBits(p.t), s);
    var j := PlaceOf(p.lens, p.order, s);
    var i := FirstLong(p, j);
    if p.t == LENS {
      TwoShort(p, i);
    } else {
      ThreeShort(p, i);
    }
    var rest := Bounded(p, i);
  }

  /**
    With the index widths and the limits on symbols that inflate() has, no code that
    inflate_table accepts runs out of table space.
   */
  lemma EnoughSpace(t: CodeType, lens: seq<nat>)
    requires LengthsOk(lens) && |lens| <= MostSymbols(t) && Acceptable(t, lens)
    requires t.CODES? ==> forall i :: 0 <= i < |lens| ==> lens[i] <= 7
    ensures TableSize(lens, IndexBits(t)) <= Capacity(t)
  {
    hide Complete, Pow2, Needed, RootWidth;
    Powers();
    if s :| 0 <= s < |lens| && lens[s] > IndexBits(t) {
      if Longest(lens, 1) {
        NoneLonger(lens, 1, s);
        assert false;
      }
      var p := PlanFor(t, lens, IndexBits(t));
      EnoughFor(p, s);
    } else {
      ShortCodes(lens, IndexBits(t));
    }
  }
}
