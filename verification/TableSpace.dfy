/**
  The space that decoding tables need: the root table, and a sub-table for each of its
  entries below which there are longer codes, indexed by as many bits as the longest of
  them has more than the root.
 */
module TableSpace {
  import opened Bits
  import opened Canonical

  // The code of s is longer than the root index, and begins with the q-th value of it.
  predicate InCell(lens: seq<nat>, s: nat, root: nat, q: nat)
    requires root <= MAXBITS
  {
    && s < |lens| && root < lens[s] <= MAXBITS
    && Shl(q, MAXBITS - root) <= Start(lens, s) < Shl(q + 1, MAXBITS - root)
  }

  // The length of the longest such code among the first n symbols, or root.
  function Deepest(lens: seq<nat>, root: nat, q: nat, n: nat): (d: nat)
    requires n <= |lens| && root <= MAXBITS
    ensures root <= d <= MAXBITS
  {
    if n == 0 then root
    else
      var d := Deepest(lens, root, q, n - 1);
      if InCell(lens, n - 1, root, q) && lens[n - 1] > d then lens[n - 1] else d
  }

  function SubSize(lens: seq<nat>, root: nat, q: nat): nat
    requires root <= MAXBITS
  {
    var d := Deepest(lens, root, q, |lens|);
    if d == root then 0 else Pow2(d - root)
  }

  // All sub-tables below the first q entries.
  function SubSpace(lens: seq<nat>, root: nat, q: nat): nat
    requires root <= MAXBITS
  {
    if q == 0 then 0 else SubSpace(lens, root, q - 1) + SubSize(lens, root, q - 1)
  }

  function Needed(lens: seq<nat>, root: nat): nat
    requires root <= MAXBITS
  {
    Pow2(root) + SubSpace(lens, root, Pow2(root))
  }

  lemma {:induction false} DeepestBounds(lens: seq<nat>, root: nat, q: nat, n: nat, l: nat)
    requires n <= |lens| && root <= l <= MAXBITS
    requires forall u :: 0 <= u < n && InCell(lens, u, root, q) ==> lens[u] <= l
    ensures Deepest(lens, root, q, n) <= l
    ensures forall u :: 0 <= u < n && InCell(lens, u, root, q) ==> lens[u] <= Deepest(lens, root, q, n)
  {
    hide InCell;
    if n > 0 {
      DeepestBounds(lens, root, q, n - 1, l);
    }
  }

  // The size of a sub-table with a longest code ...
  lemma SubSizeIs(lens: seq<nat>, root: nat, q: nat, s: nat)
    requires root <= MAXBITS && InCell(lens, s, root, q)
    requires forall u :: 0 <= u < |lens| && InCell(lens, u, root, q) ==> lens[u] <= lens[s]
    ensures lens[s] > root && SubSize(lens, root, q) == Pow2(lens[s] - root)
  {
    hide Pow2, Shl, Start;
    DeepestBounds(lens, root, q, |lens|, lens[s]);
  }

  // ... and where there is none.
  lemma SubSizeNone(lens: seq<nat>, root: nat, q: nat)
    requires root <= MAXBITS && forall u :: 0 <= u < |lens| ==> !InCell(lens, u, root, q)
    ensures SubSize(lens, root, q) == 0
  {
    hide Pow2, InCell;
    DeepestBounds(lens, root, q, |lens|, root);
  }

  lemma {:induction false} SubSpaceSame(lens: seq<nat>, root: nat, a: nat, b: nat)
    requires root <= MAXBITS && a <= b
    requires forall q, u :: a <= q < b && 0 <= u < |lens| ==> !InCell(lens, u, root, q)
    ensures SubSpace(lens, root, a) == SubSpace(lens, root, b)
    decreases b
  {
    hide InCell, SubSize;
    if a < b {
      SubSpaceSame(lens, root, a, b - 1);
      SubSizeNone(lens, root, b - 1);
    }
  }

  lemma {:induction false} SubSpaceMono(lens: seq<nat>, root: nat, a: nat, b: nat)
    requires root <= MAXBITS && a <= b
    ensures SubSpace(lens, root, a) <= SubSpace(lens, root, b)
    decreases b
  {
    hide SubSize;
    if a < b {
      SubSpaceMono(lens, root, a, b - 1);
    }
  }

  // Without codes longer than the root there are no sub-tables.
  lemma NoSubTables(lens: seq<nat>, root: nat)
    requires root <= MAXBITS && forall i :: 0 <= i < |lens| ==> lens[i] <= root
    ensures Needed(lens, root) == Pow2(root)
  {
    hide Pow2;
    SubSpaceSame(lens, root, 0, Pow2(root));
  }

  // ---------- the width of the root table ----------

  function Max(x: nat, y: nat): nat {
    if x < y then y else x
  }

  function Min(x: nat, y: nat): nat {
    if x < y then x else y
  }

  // The longest length in use, of those up to l; 0 if there is none.
  function LongestTo(lens: seq<nat>, l: nat): (m: nat)
    ensures m <= l
  {
    if l == 0 || Count(lens, l) > 0 then l else LongestTo(lens, l - 1)
  }

  // The shortest length in use from l on, or the greatest possible one.
  function ShortestFrom(lens: seq<nat>, l: nat): (m: nat)
    requires l <= MAXBITS
    ensures l <= m <= MAXBITS
    decreases MAXBITS - l
  {
    if l == MAXBITS || Count(lens, l) > 0 then l else ShortestFrom(lens, l + 1)
  }

  // As wide as asked for, but within the lengths in use.
  function RootWidth(lens: seq<nat>, bits: nat): (r: nat)
    requires bits <= MAXBITS
    ensures r <= MAXBITS
  {
    var max := LongestTo(lens, MAXBITS);
    if max == 0 then 1 else Max(ShortestFrom(lens, 1), Min(bits, max))
  }

  // Entries of the table for a code.
  function TableSize(lens: seq<nat>, bits: nat): nat
    requires bits <= MAXBITS
  {
    Needed(lens, RootWidth(lens, bits))
  }

  lemma {:induction false} LongestIs(lens: seq<nat>, l: nat, max: nat)
    requires max <= l && (max > 0 ==> Count(lens, max) > 0) && forall k :: max < k <= l ==> Count(lens, k) == 0
    ensures LongestTo(lens, l) == max
  {
    if max < l {
      LongestIs(lens, l - 1, max);
    }
  }

  lemma {:induction false} ShortestIs(lens: seq<nat>, l: nat, min: nat)
    requires l <= min <= MAXBITS && Count(lens, min) > 0 && forall k :: l <= k < min ==> Count(lens, k) == 0
    ensures ShortestFrom(lens, l) == min
    decreases min - l
  {
    if l < min {
      ShortestIs(lens, l + 1, min);
    }
  }

  lemma RootWidthIs(lens: seq<nat>, bits: nat, min: nat, max: nat)
    requires bits <= MAXBITS && 1 <= min <= max <= MAXBITS && Count(lens, min) > 0 && Count(lens, max) > 0
    requires forall l :: max < l <= MAXBITS ==> Count(lens, l) == 0
    requires forall l :: 1 <= l < min ==> Count(lens, l) == 0
    ensures RootWidth(lens, bits) == Max(min, Min(bits, max))
  {
    LongestIs(lens, MAXBITS, max);
    ShortestIs(lens, 1, min);
  }

  lemma EmptySize(lens: seq<nat>, bits: nat)
    requires bits <= MAXBITS && forall i :: 0 <= i < |lens| ==> lens[i] == 0
    ensures RootWidth(lens, bits) == 1 && TableSize(lens, bits) == 2
  {
    hide InCell;
    LongestIs(lens, MAXBITS, 0);
    NoSubTables(lens, 1);
    assert Pow2(0) == 1;
  }

  lemma {:induction false} LongestAbove(lens: seq<nat>, l: nat, i: nat)
    requires i < |lens| && lens[i] <= l
    ensures lens[i] <= LongestTo(lens, l)
  {
    if l > 0 && Count(lens, l) == 0 {
      assert lens[i] in multiset(lens);
      LongestAbove(lens, l - 1, i);
    }
  }

  lemma {:induction false} LongestUsed(lens: seq<nat>, l: nat)
    ensures LongestTo(lens, l) > 0 ==> Count(lens, LongestTo(lens, l)) > 0
  {
    if l > 0 && Count(lens, l) == 0 {
      LongestUsed(lens, l - 1);
    }
  }

  lemma {:induction false} ShortestBelow(lens: seq<nat>, l: nat, m: nat)
    requires l <= m <= MAXBITS && Count(lens, m) > 0
    ensures ShortestFrom(lens, l) <= m
    decreases m - l
  {
    if l < m {
      ShortestBelow(lens, l + 1, m);
    }
  }

  // Codes within the width asked for need no more than a root table of that width.
  lemma ShortCodes(lens: seq<nat>, bits: nat)
    requires LengthsOk(lens) && 1 <= bits <= MAXBITS && forall i :: 0 <= i < |lens| ==> lens[i] <= bits
    ensures TableSize(lens, bits) <= Pow2(bits)
  {
    hide Pow2, Needed, LongestTo, ShortestFrom;
    var max := LongestTo(lens, MAXBITS);
    forall i | 0 <= i < |lens|
      ensures lens[i] <= max
    {
      LongestAbove(lens, MAXBITS, i);
    }
    LongestUsed(lens, MAXBITS);
    if max == 0 {
      EmptySize(lens, bits);
      Pow2Mono(1, bits);
      assert Pow2(1) == 2 by {
        Pow2Values();
      }
    } else {
      ShortestBelow(lens, 1, max);
      assert max in multiset(lens);
      NoSubTables(lens, max);
      Pow2Mono(max, bits);
    }
  }
}
