/**
  The length limit of gen_bitlen in trees.c.

  When nodes were too deep their lengths were clipped, and the length counts claim more code
  space than there is.  The excess, in units of 2^-max, is half the overflow; every repair
  step removes one unit.  The repaired counts are then dealt out anew, the longest lengths
  to the rarest symbols.
 */
module LengthLimit {
  import opened Bits
  import opened Canonical
  import opened Depths

  // The state of the repair: the counts c exceed the code space by overflow / 2 units.
  ghost predicate Excess(c: seq<nat>, max: nat, overflow: nat, n: nat) {
    && |c| == MAXBITS + 1 && 1 <= max <= MAXBITS && c[0] == 0
    && (forall l :: max < l <= MAXBITS ==> c[l] == 0)
    && 2 * FilledBy(c, 15) == 0x10000 + Shl(overflow, 15 - max)
    && overflow % 2 == 0 && (overflow > 0 ==> 2 * c[max] >= overflow + 2)
    && Total(c, 15) == n <= Pow2(max)
  }

  // ---------- the counts have a unit ----------

  // The code space up to length l in units of 2^-l.
  function Units(c: seq<nat>, l: nat): nat
    requires l < |c|
  {
    if l == 0 then 0 else 2 * Units(c, l - 1) + c[l]
  }

  lemma {:induction false} FilledByUnits(c: seq<nat>, l: nat)
    requires l <= MAXBITS < |c|
    ensures FilledBy(c, l) == Shl(Units(c, l), MAXBITS - l)
  {
    if l == 0 {
      ShlIsMul(0, MAXBITS);
    } else {
      FilledByUnits(c, l - 1);
      var u := Units(c, l - 1);
      ShlShl(u, 1, MAXBITS - l);
      assert Shl(u, 1) == 2 * Shl(u, 0);
      ShlAdd(2 * u, c[l], MAXBITS - l);
    }
  }

  lemma {:induction false} FilledByAbove(c: seq<nat>, max: nat, l: nat)
    requires max <= l <= MAXBITS < |c| && forall i :: max < i <= MAXBITS ==> c[i] == 0
    ensures FilledBy(c, l) == FilledBy(c, max) && Total(c, l) == Total(c, max)
    decreases l
  {
    if max < l {
      FilledByAbove(c, max, l - 1);
      ShlIsMul(0, MAXBITS - l);
    }
  }

  lemma ShlSame(x: nat, y: nat, n: nat)
    requires Shl(x, n) == Shl(y, n)
    ensures x == y
  {
    ShlCancel(x, y, n);
    ShlCancel(y, x, n);
  }

  // The code space in whole units.
  lemma UnitsBalance(c: seq<nat>, max: nat, overflow: nat)
    requires |c| == MAXBITS + 1 && 1 <= max <= MAXBITS && forall i :: max < i <= MAXBITS ==> c[i] == 0
    requires 2 * FilledBy(c, 15) == 0x10000 + Shl(overflow, 15 - max)
    ensures 2 * Units(c, max) == 2 * Pow2(max) + overflow
  {
    hide FilledBy, Shl, Units;
    var n := 15 - max;
    FilledByAbove(c, max, 15);
    FilledByUnits(c, max);
    ShlAdd(Units(c, max), Units(c, max), n);
    Pow2Values();
    WholeSpace(max);
    ShlAdd(2 * Pow2(max), overflow, n);
    ShlSame(Units(c, max) + Units(c, max), 2 * Pow2(max) + overflow, n);
  }

  lemma WholeSpace(max: nat)
    requires max <= 15
    ensures Shl(2 * Pow2(max), 15 - max) == 2 * Pow2(15)
  {
    hide Shl, Pow2;
    ShlAdd(Pow2(max), Pow2(max), 15 - max);
    ShlIsMul(Pow2(max), 15 - max);
    Pow2Add(max, 15 - max);
  }

  lemma {:induction false} UnitsTotal(c: seq<nat>, l: nat)
    requires l < |c|
    ensures Units(c, l) >= Total(c, l)
    ensures (forall i :: 1 <= i <= l ==> c[i] == 0) ==> Units(c, l) == 0 == Total(c, l)
  {
    if l > 0 {
      UnitsTotal(c, l - 1);
    }
  }

  lemma OnlyLongest(c: seq<nat>, max: nat)
    requires 1 <= max < |c|
    ensures (forall i :: 1 <= i < max ==> c[i] == 0) ==> Units(c, max) == Total(c, max)
  {
    UnitsTotal(c, max - 1);
  }

  // A nonempty shorter level exists.
  lemma ShorterExists(c: seq<nat>, max: nat, overflow: nat, n: nat)
    requires Excess(c, max, overflow, n) && overflow > 0
    ensures exists b :: 1 <= b < max && c[b] > 0
  {
    hide FilledBy, Pow2, Shl, Units, Total;
    UnitsBalance(c, max, overflow);
    FilledByAbove(c, max, 15);
    OnlyLongest(c, max);
  }

  // ---------- one repair step ----------

  // One leaf less at level b, two more below it, and one less at the limit.
  function Repaired(c: seq<nat>, b: nat, max: nat): seq<nat>
    requires 1 <= b < max < |c| && c[b] > 0 && c[max] > 0
  {
    var c1 := c[b := c[b] - 1];
    var c2 := c1[b + 1 := c1[b + 1] + 2];
    c2[max := c2[max] - 1]
  }

  lemma FilledByLess(c: seq<nat>, b: nat)
    requires |c| == MAXBITS + 1 && 1 <= b <= MAXBITS && c[b] > 0
    ensures FilledBy(c[b := c[b] - 1], 15) + Pow2(15 - b) == FilledBy(c, 15)
    ensures Total(c[b := c[b] - 1], 15) + 1 == Total(c, 15)
  {
    hide FilledBy, Pow2, Total;
    var d := c[b := c[b] - 1];
    FilledByUpdate(d, 15, b);
    TotalUpdate(c, 15, b, c[b] - 1);
    assert d[b := d[b] + 1] == c;
  }

  lemma FilledByTwo(c: seq<nat>, b: nat)
    requires |c| == MAXBITS + 1 && 1 <= b <= MAXBITS
    ensures FilledBy(c[b := c[b] + 2], 15) == FilledBy(c, 15) + 2 * Pow2(15 - b)
    ensures Total(c[b := c[b] + 2], 15) == Total(c, 15) + 2
  {
    hide FilledBy, Pow2, Total;
    var d := c[b := c[b] + 1];
    FilledByUpdate(c, 15, b);
    FilledByUpdate(d, 15, b);
    TotalUpdate(c, 15, b, c[b] + 2);
    assert d[b := d[b] + 1] == c[b := c[b] + 2];
  }

  lemma RepairStep(c: seq<nat>, b: nat, max: nat, overflow: nat, n: nat)
    requires Excess(c, max, overflow, n) && overflow > 0 && 1 <= b < max && c[b] > 0
    ensures c[max] > 0 && overflow >= 2 && Excess(Repaired(c, b, max), max, overflow - 2, n)
  {
    hide FilledBy, Pow2, Shl, Total;
    var c1 := c[b := c[b] - 1];
    var c2 := c1[b + 1 := c1[b + 1] + 2];
    FilledByLess(c, b);
    FilledByTwo(c1, b + 1);
    FilledByLess(c2, max);
    assert Pow2(15 - b) == 2 * Pow2(15 - (b + 1)) by { PowerStep(15 - b); }
    ShlAdd(overflow - 2, 2, 15 - max);
    ShlAdd(1, 1, 15 - max);
    ShlOne(15 - max);
  }

  lemma PowerStep(n: nat)
    requires n > 0
    ensures Pow2(n) == 2 * Pow2(n - 1)
  {
  }

  // ---------- which leaves are given up ----------

  /**
    Leaves of the length b have been given up, with all longer ones below the limit before
    them, and none that is shorter.  Between b and the limit there is only what came of the
    last one given up: a leaf at some levels, two at the last of them.
   */
  ghost predicate CutAt(c0: seq<nat>, c: seq<nat>, max: nat, b: nat) {
    && |c0| == |c| == MAXBITS + 1 && max <= MAXBITS && 1 <= b < max
    && (forall l :: 1 <= l < b ==> c[l] == c0[l]) && c[b] < c0[b]
    && (forall l :: b < l < max ==> c[l] <= 2)
    && (forall l, m :: b < l < m < max && c[l] == 2 ==> c[m] == 0)
  }

  // The longest length below the limit that is in use.
  ghost predicate LongestBelow(c: seq<nat>, max: nat, b: nat) {
    && |c| == MAXBITS + 1 && max <= MAXBITS && 1 <= b < max && c[b] > 0 && c[max] > 0
    && forall l :: b < l < max ==> c[l] == 0
  }

  lemma CutFirst(c: seq<nat>, max: nat, d: nat)
    requires LongestBelow(c, max, d)
    ensures CutAt(c, Repaired(c, d, max), max, d)
  {
  }

  lemma CutNext(c0: seq<nat>, c: seq<nat>, max: nat, b: nat, d: nat)
    requires CutAt(c0, c, max, b) && LongestBelow(c, max, d)
    ensures CutAt(c0, Repaired(c, d, max), max, if d < b then d else b)
  {
  }

  // Code space that is left at a length, in units of this length.
  function Free(c: seq<nat>, l: nat): int
    requires l < |c|
  {
    Pow2(l) - Units(c, l)
  }

  lemma FreeNext(c: seq<nat>, l: nat)
    requires 0 < l < |c|
    ensures Free(c, l) == 2 * Free(c, l - 1) - c[l]
    ensures Total(c, l) == Total(c, l - 1) + c[l]
  {
  }

  /**
    Two cuts cannot part: from a level where one leaves more code space free than the other,
    with no more leaves to place, it cannot come to a complete code.
   */
  lemma {:induction false} NoParting(c: seq<nat>, c': seq<nat>, max: nat, j: nat, n: nat)
    requires |c| == |c'| == MAXBITS + 1 && max <= MAXBITS && 1 <= j < max
    requires Free(c, max) == 0 == Free(c', max) && Total(c, max) == Total(c', max) == n
    requires forall l :: j < l < max ==> c[l] <= 2
    requires forall l, m :: j < l < m < max && c[l] == 2 ==> c[m] == 0
    requires var d, e := Free(c, j) - Free(c', j), Total(c', j) - Total(c, j);
             && d >= 0 && e <= d && (e < d || d >= 1)
             && (d == 0 ==> forall l :: j < l < max ==> c[l] == 0)
    ensures false
    decreases max - j
  {
    hide Free, Total;
    FreeNext(c, j + 1);
    FreeNext(c', j + 1);
    if j + 1 == max {
      assert false;
    }
    NoParting(c, c', max, j + 1, n);
  }

  // Cuts of the same counts to the same limit are the same up to the length l.
  lemma {:induction false} CutSame(c0: seq<nat>, c: seq<nat>, c': seq<nat>, max: nat, b: nat, b': nat, n: nat, l: nat)
    requires CutAt(c0, c, max, b) && CutAt(c0, c', max, b') && l < max
    requires Free(c, max) == 0 == Free(c', max) && Total(c, max) == Total(c', max) == n
    ensures forall k :: 1 <= k <= l ==> c[k] == c'[k]
    ensures Free(c, l) == Free(c', l) && Total(c, l) == Total(c', l)
    decreases l
  {
    if l > 0 {
      CutSame(c0, c, c', max, b, b', n, l - 1);
      hide Free, Total;
      FreeNext(c, l);
      FreeNext(c', l);
      if c[l] < c'[l] {
        NoParting(c, c', max, l, n);
      } else if c'[l] < c[l] {
        NoParting(c', c, max, l, n);
      }
    }
  }

  // How many symbols have each length.
  function CountsOf(s: seq<nat>): (c: seq<nat>)
    ensures |c| == MAXBITS + 1
  {
    seq(MAXBITS + 1, l requires 0 <= l <= MAXBITS => if l == 0 then 0 else Count(s, l))
  }

  /**
    The lengths are the depths cut to the limit as gen_bitlen does it: below the limit the
    longest ones are given up, as few as will do.
   */
  ghost predicate Shortened(depths: seq<nat>, lens: seq<nat>, max: nat) {
    exists b: nat :: CutAt(CountsOf(depths), CountsOf(lens), max, b)
  }

  lemma {:induction false} CountClipped(depths: seq<nat>, lens: seq<nat>, max: nat, l: nat)
    requires |lens| == |depths| && forall x :: 0 <= x < |lens| ==> lens[x] == Clip(depths[x], max)
    requires 1 <= l < max
    ensures Count(lens, l) == Count(depths, l)
    decreases |lens|
  {
    if lens != [] {
      var k := |lens| - 1;
      CountClipped(depths[..k], lens[..k], max, l);
      assert lens == lens[..k] + [lens[k]] && depths == depths[..k] + [depths[k]];
    }
  }

  lemma CutCounts(depths: seq<nat>, was: seq<nat>, lens: seq<nat>, c0: seq<nat>, c: seq<nat>, max: nat, b: nat)
    requires Counts(c0, was) && Counts(c, lens) && CutAt(c0, c, max, b)
    requires |was| == |depths| && forall x :: 0 <= x < |was| ==> was[x] == Clip(depths[x], max)
    ensures Shortened(depths, lens, max)
  {
    hide Count, Clip;
    forall l | 1 <= l < max
      ensures CountsOf(depths)[l] == c0[l] && CountsOf(lens)[l] == c[l]
    {
      CountClipped(depths, was, max, l);
    }
    assert CutAt(CountsOf(depths), CountsOf(lens), max, b);
  }

  lemma CountsOfAre(s: seq<nat>)
    ensures Counts(CountsOf(s), s)
  {
    hide Count;
  }

  // Complete lengths within the limit leave no code space free.
  lemma NoneFree(lens: seq<nat>, max: nat)
    requires Complete(lens) && 1 <= max <= MAXBITS && forall x :: 0 <= x < |lens| ==> lens[x] <= max
    ensures Free(CountsOf(lens), max) == 0 && Total(CountsOf(lens), max) == Upto(lens, MAXBITS)
    ensures forall l :: max < l <= MAXBITS ==> CountsOf(lens)[l] == 0
  {
    hide FilledBy, Pow2, Shl, Units, Total, Count, Filled;
    var c := CountsOf(lens);
    CountsOfAre(lens);
    forall l | max < l <= MAXBITS
      ensures c[l] == 0
    {
      NoneAbove(lens, max, l);
    }
    FilledByIsFilled(c, lens, 15);
    Pow2Values();
    ShlIsMul(0, 15 - max);
    UnitsBalance(c, max, 0);
    FilledByAbove(c, max, 15);
    TotalIs(c, lens, 15);
  }

  // The cut of given depths is determined.
  lemma ShortenedSame(depths: seq<nat>, lens: seq<nat>, lens': seq<nat>, max: nat, l: nat)
    requires Shortened(depths, lens, max) && Shortened(depths, lens', max) && 1 <= l <= MAXBITS
    requires Complete(lens) && forall x :: 0 <= x < |lens| ==> lens[x] <= max
    requires Complete(lens') && forall x :: 0 <= x < |lens'| ==> lens'[x] <= max
    requires Upto(lens, MAXBITS) == Upto(lens', MAXBITS)
    ensures Count(lens, l) == Count(lens', l)
  {
    hide CutAt, Free, Total, Complete, Count, Upto;
    var c, c' := CountsOf(lens), CountsOf(lens');
    var b: nat :| CutAt(CountsOf(depths), c, max, b);
    var b': nat :| CutAt(CountsOf(depths), c', max, b');
    CutRange(CountsOf(depths), c, max, b);
    NoneFree(lens, max);
    NoneFree(lens', max);
    CutSame(CountsOf(depths), c, c', max, b, b', Upto(lens, MAXBITS), max - 1);
    FreeNext(c, max);
    FreeNext(c', max);
    assert c[l] == Count(lens, l) && c'[l] == Count(lens', l);
  }

  lemma CutRange(c0: seq<nat>, c: seq<nat>, max: nat, b: nat)
    requires CutAt(c0, c, max, b)
    ensures 1 <= b < max <= MAXBITS && |c| == MAXBITS + 1
  {
  }

  // From the clipped depths to the start of the repair.
  lemma ExcessStart(f: seq<nat>, elems: nat, leaves: set<nat>, max: nat, cost: nat, leafCount: nat,
                    lens: seq<nat>, depths: seq<nat>, c: seq<nat>, overflow: nat)
    requires Found(f, elems, leaves, max, cost, leafCount, lens, depths, c, overflow) && leafCount <= Pow2(max)
    ensures Excess(c, max, overflow, leafCount)
  {
    hide FilledBy, Pow2, Shl, Total, Dot, Count;
    forall l | max < l <= MAXBITS
      ensures c[l] == 0
    {
      NoneAbove(lens, max, l);
    }
    UnitsBalance(c, max, overflow);
  }

  lemma NoneAbove(lens: seq<nat>, max: nat, l: nat)
    requires max < l && forall i :: 0 <= i < |lens| ==> lens[i] <= max
    ensures Count(lens, l) == 0
  {
    assert l !in lens;
  }

  // Without excess the counts describe a complete code.
  lemma ExcessEnd(c: seq<nat>, max: nat, n: nat)
    requires Excess(c, max, 0, n)
    ensures FilledBy(c, 15) == 0x8000
  {
    ShlIsMul(0, 15 - max);
  }

  // ---------- dealing out the lengths ----------

  /**
    The lengths above bits, and all but n of those equal to bits, have been dealt out to the
    leaves among done[h..].  v holds the lengths dealt out and 0 elsewhere.
   */
  ghost predicate Dealt(done: seq<nat>, elems: nat, c: seq<nat>, lens: seq<nat>, v: seq<nat>, bits: nat, n: nat,
                        h: nat) {
    && |c| == MAXBITS + 1 && h <= |done| && |lens| == |v| == elems && bits <= MAXBITS && n <= c[bits]
    && (forall i :: h <= i < |done| && done[i] < elems ==> v[done[i]] == lens[done[i]] >= bits && lens[done[i]] >= 1)
    && (forall i :: h <= i < |done| && done[i] < elems ==> lens[done[i]] <= MAXBITS)
    && (forall i :: 0 <= i < h && done[i] < elems ==> v[done[i]] == 0)
    && (forall x :: 0 <= x < elems && x !in done ==> v[x] == 0 == lens[x])
    && (forall l :: 1 <= l <= MAXBITS ==> Count(v, l) == if l > bits then c[l] else if l == bits then c[l] - n else 0)
    && LeafCount(done[..h], elems) + (c[bits] - n) == Total(c, bits)
    && (forall i, j :: h <= i < j < |done| && done[i] < elems && done[j] < elems ==> lens[done[i]] <= lens[done[j]])
  }

  lemma DealtStart(done: seq<nat>, elems: nat, c: seq<nat>, lens: seq<nat>, max: nat)
    requires Excess(c, max, 0, LeafCount(done, elems)) && |lens| == elems
    requires forall x :: 0 <= x < elems && x !in done ==> lens[x] == 0
    ensures Dealt(done, elems, c, lens, Zeros(elems), max, c[max], |done|)
  {
    hide FilledBy, Pow2, LeafCount, Total;
    assert done[..|done|] == done;
    FilledByAbove(c, max, 15);
    forall l | 1 <= l <= MAXBITS
      ensures Count(Zeros(elems), l) == 0
    {
      assert l !in Zeros(elems);
    }
  }

  // All of one length dealt out: on to the next shorter one.
  lemma DealtNext(done: seq<nat>, elems: nat, c: seq<nat>, lens: seq<nat>, v: seq<nat>, bits: nat, h: nat)
    requires Dealt(done, elems, c, lens, v, bits, 0, h) && bits >= 1
    ensures Dealt(done, elems, c, lens, v, bits - 1, c[bits - 1], h)
  {
    hide LeafCount, Count;
  }

  lemma DealtMore(done: seq<nat>, elems: nat, c: seq<nat>, lens: seq<nat>, v: seq<nat>, bits: nat, n: nat, h: nat)
    requires Dealt(done, elems, c, lens, v, bits, n, h) && n > 0 && bits >= 1
    ensures h > 0
  {
    assert Total(c, bits) == Total(c, bits - 1) + c[bits];
  }

  lemma DealtSkip(done: seq<nat>, elems: nat, c: seq<nat>, lens: seq<nat>, v: seq<nat>, bits: nat, n: nat, h: nat)
    requires Dealt(done, elems, c, lens, v, bits, n, h) && h > 0 && done[h - 1] >= elems
    ensures Dealt(done, elems, c, lens, v, bits, n, h - 1)
  {
    hide Total, Count;
    LeafCountPush(done, h - 1, elems);
  }

  lemma DealtStep(done: seq<nat>, elems: nat, c: seq<nat>, lens: seq<nat>, v: seq<nat>, bits: nat, n: nat, h: nat)
    requires Dealt(done, elems, c, lens, v, bits, n, h) && h > 0 && done[h - 1] < elems && n > 0 && bits >= 1
    requires forall i :: 0 <= i < |done| && i != h - 1 ==> done[i] != done[h - 1]
    ensures Dealt(done, elems, c, lens[done[h - 1] := bits], v[done[h - 1] := bits], bits, n - 1, h - 1)
  {
    hide Total, LeafCount, Count;
    var m := done[h - 1];
    var lens2, v2 := lens[m := bits], v[m := bits];
    var k: nat := h - 1;
    LeafCountPush(done, k, elems);
    assert k + 1 == h && done[k] < elems;
    assert LeafCount(done[..h], elems) == LeafCount(done[..k], elems) + 1;
    forall i | 0 <= i < |done| && done[i] < elems
      ensures i >= h - 1 ==> v2[done[i]] == lens2[done[i]] >= bits && 1 <= lens2[done[i]] <= MAXBITS
      ensures i < h - 1 ==> v2[done[i]] == 0
    {
    }
    forall x | 0 <= x < elems && x !in done
      ensures v2[x] == 0 == lens2[x]
    {
      assert m in done;
    }
    forall i, j | h - 1 <= i < j < |done| && done[i] < elems && done[j] < elems
      ensures lens2[done[i]] <= lens2[done[j]]
    {
      assert lens[done[j]] >= bits;
    }
    assert LeafCount(done[..h - 1], elems) + (c[bits] - (n - 1)) == Total(c, bits);
    forall l | 1 <= l <= MAXBITS
      ensures Count(v2, l) == if l > bits then c[l] else if l == bits then c[l] - (n - 1) else 0
    {
      CountChange(v, m, bits, l);
      assert Count(v, l) == if l > bits then c[l] else if l == bits then c[l] - n else 0;
    }
  }

  lemma CountChange(s: seq<nat>, x: nat, b: nat, l: nat)
    requires x < |s| && s[x] == 0 && l >= 1
    ensures Count(s[x := b], l) == Count(s, l) + if l == b then 1 else 0
  {
  }

  lemma {:induction false} NoLeaf(s: seq<nat>, elems: nat, i: nat)
    requires LeafCount(s, elems) == 0 && i < |s|
    ensures s[i] >= elems
  {
    if i < |s| - 1 {
      NoLeaf(s[..|s| - 1], elems, i);
    }
  }

  // In the end the lengths are those counted, longest for the last nodes.
  lemma DealtEnd(done: seq<nat>, elems: nat, c: seq<nat>, lens: seq<nat>, v: seq<nat>, h: nat)
    requires Dealt(done, elems, c, lens, v, 0, 0, h) && c[0] == 0
    ensures Counts(c, lens)
    ensures forall i, j :: 0 <= i < j < |done| && done[i] < elems && done[j] < elems ==> lens[done[i]] <= lens[done[j]]
    ensures forall x :: 0 <= x < elems ==> (x in done <==> lens[x] > 0) && lens[x] <= MAXBITS
  {
    hide Count, LeafCount;
    forall i | 0 <= i < h
      ensures done[i] >= elems
    {
      NoLeaf(done[..h], elems, i);
    }
    forall x | 0 <= x < elems
      ensures v[x] == lens[x]
    {
      if x in done {
        var i :| 0 <= i < |done| && done[i] == x;
      }
    }
    assert v == lens;
    forall x | 0 <= x < elems
      ensures (x in done <==> lens[x] > 0) && lens[x] <= MAXBITS
    {
      if x in done {
        var i :| 0 <= i < |done| && done[i] == x;
      }
    }
  }

  // The filled counts of a length vector.
  lemma CompleteLengths(c: seq<nat>, lens: seq<nat>)
    requires Counts(c, lens) && FilledBy(c, 15) == 0x8000
    ensures Complete(lens)
  {
    hide Count, FilledBy;
    FilledByIsFilled(c, lens, 15);
    Pow2Values();
  }

  lemma {:induction false} LeafCountAtMost(c: seq<nat>, lens: seq<nat>, l: nat)
    requires Counts(c, lens) && l <= MAXBITS
    ensures Total(c, l) <= |lens|
  {
    CountSplit(lens, l);
    TotalIs(c, lens, l);
  }

  function Upto(s: seq<nat>, l: nat): nat {
    if s == [] then 0 else Upto(s[..|s| - 1], l) + if 1 <= s[|s| - 1] <= l then 1 else 0
  }

  lemma {:induction false} CountSplit(s: seq<nat>, l: nat)
    ensures Upto(s, l) <= |s|
  {
    if s != [] {
      CountSplit(s[..|s| - 1], l);
    }
  }

  lemma {:induction false} UptoNext(s: seq<nat>, l: nat)
    requires l >= 1
    ensures Upto(s, l) == Upto(s, l - 1) + Count(s, l)
  {
    if s != [] {
      UptoNext(s[..|s| - 1], l);
      assert s == s[..|s| - 1] + [s[|s| - 1]];
    }
  }

  lemma {:induction false} TotalIs(c: seq<nat>, s: seq<nat>, l: nat)
    requires Counts(c, s) && l <= MAXBITS
    ensures Total(c, l) == Upto(s, l)
  {
    if l > 0 {
      UptoNext(s, l);
      TotalIs(c, s, l - 1);
    } else {
      UptoNone(s);
    }
  }

  lemma {:induction false} UptoNone(s: seq<nat>)
    ensures Upto(s, 0) == 0
  {
    if s != [] {
      UptoNone(s[..|s| - 1]);
    }
  }
}
