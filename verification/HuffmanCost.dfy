/**
  Why merging the two lightest trees is optimal.

  A code is a list of items, each a weight and a code length, that satisfies the Kraft
  inequality.  Best(ws, c) says that no code for the weights ws costs less than c.  The main
  lemma, MergeBest, is the step of Huffman's algorithm: if c is a lower bound after merging
  the two smallest weights a and b, then c + a + b is one before.
 */
module HuffmanCost {
  import opened Bits

  datatype Item = Item(w: nat, l: nat)

  function WeightsOf(ps: seq<Item>): (ws: seq<nat>)
    ensures |ws| == |ps|
  {
    seq(|ps|, i requires 0 <= i < |ps| => ps[i].w)
  }

  function Weights(ps: seq<Item>): multiset<nat> {
    multiset(WeightsOf(ps))
  }

  function ItemCost(p: Item): nat {
    p.w * p.l
  }

  function Cost(ps: seq<Item>): nat {
    if ps == [] then 0 else ItemCost(ps[0]) + Cost(ps[1..])
  }

  predicate Within(ps: seq<Item>, n: nat) {
    forall i :: 0 <= i < |ps| ==> ps[i].l <= n
  }

  // The Kraft sum in units of 2^-n.
  function Kraft(ps: seq<Item>, n: nat): nat
    requires Within(ps, n)
  {
    if ps == [] then 0 else Pow2(n - ps[0].l) + Kraft(ps[1..], n)
  }

  ghost predicate Feasible(ps: seq<Item>, n: nat) {
    Within(ps, n) && Kraft(ps, n) <= Pow2(n)
  }

  // No code for the weights ws costs less than c.
  ghost predicate Best(ws: multiset<nat>, c: nat) {
    forall ps: seq<Item>, n: nat :: Weights(ps) == ws && Feasible(ps, n) ==> Cost(ps) >= c
  }

  // ---------- taking an item out ----------

  function Without(ps: seq<Item>, i: nat): (qs: seq<Item>)
    requires i < |ps|
    ensures |qs| == |ps| - 1
  {
    ps[..i] + ps[i + 1..]
  }

  lemma {:induction false} CostWithout(ps: seq<Item>, i: nat)
    requires i < |ps|
    ensures Cost(ps) == Cost(Without(ps, i)) + ItemCost(ps[i])
  {
    if i == 0 {
      assert Without(ps, 0) == ps[1..];
    } else {
      CostWithout(ps[1..], i - 1);
      assert Without(ps, i)[1..] == Without(ps[1..], i - 1);
    }
  }

  lemma {:induction false} KraftWithout(ps: seq<Item>, n: nat, i: nat)
    requires i < |ps| && Within(ps, n)
    ensures Within(Without(ps, i), n)
    ensures Kraft(ps, n) == Kraft(Without(ps, i), n) + Pow2(n - ps[i].l)
  {
    hide Pow2;
    if i == 0 {
      assert Without(ps, 0) == ps[1..];
    } else {
      KraftWithout(ps[1..], n, i - 1);
      assert Without(ps, i)[1..] == Without(ps[1..], i - 1);
    }
  }

  lemma WeightsWithout(ps: seq<Item>, i: nat)
    requires i < |ps|
    ensures Weights(ps) == Weights(Without(ps, i)) + multiset{ps[i].w}
  {
    var ws := WeightsOf(ps);
    assert ws == ws[..i] + [ws[i]] + ws[i + 1..];
    assert WeightsOf(Without(ps, i)) == ws[..i] + ws[i + 1..];
  }

  lemma WeightAt(ps: seq<Item>, a: nat) returns (i: nat)
    requires a in Weights(ps)
    ensures i < |ps| && ps[i].w == a
  {
    var ws := WeightsOf(ps);
    assert a in ws;
    i :| 0 <= i < |ws| && ws[i] == a;
  }

  lemma AddItem(ps: seq<Item>, p: Item)
    ensures Weights([p] + ps) == Weights(ps) + multiset{p.w}
    ensures Cost([p] + ps) == Cost(ps) + ItemCost(p)
  {
    assert WeightsOf([p] + ps) == [p.w] + WeightsOf(ps);
    assert ([p] + ps)[1..] == ps;
  }

  lemma AddKraft(ps: seq<Item>, p: Item, n: nat)
    requires Within(ps, n) && p.l <= n
    ensures Within([p] + ps, n) && Kraft([p] + ps, n) == Kraft(ps, n) + Pow2(n - p.l)
  {
    hide Pow2;
    assert ([p] + ps)[1..] == ps;
  }

  // ---------- the longest length ----------

  // The Kraft sum scales with its unit.
  lemma {:induction false} KraftScale(ps: seq<Item>, n: nat)
    requires Within(ps, n)
    ensures Within(ps, n + 1) && Kraft(ps, n + 1) == 2 * Kraft(ps, n)
  {
    hide Pow2;
    if ps != [] {
      KraftScale(ps[1..], n);
      Pow2Add(n - ps[0].l, 1);
      Pow2Values();
    }
  }

  lemma {:induction false} FeasibleAt(ps: seq<Item>, m: nat, n: nat)
    requires m <= n && Within(ps, m) && Feasible(ps, n)
    ensures Feasible(ps, m)
    decreases n
  {
    hide Kraft;
    if m < n {
      WithinMono(ps, m, n - 1);
      KraftScale(ps, n - 1);
      FeasibleAt(ps, m, n - 1);
    }
  }

  lemma WithinMono(ps: seq<Item>, m: nat, n: nat)
    requires m <= n && Within(ps, m)
    ensures Within(ps, n)
  {
  }

  // A code has a longest length.
  lemma {:induction false} LongestItem(ps: seq<Item>) returns (i: nat)
    requires ps != []
    ensures i < |ps| && Within(ps, ps[i].l)
  {
    if |ps| == 1 {
      i := 0;
    } else {
      var j := LongestItem(ps[1..]);
      i := if ps[0].l > ps[1..][j].l then 0 else j + 1;
    }
  }

  // Items shorter than the unit contribute even amounts.
  lemma {:induction false} KraftEven(ps: seq<Item>, n: nat)
    requires Within(ps, n) && forall i :: 0 <= i < |ps| ==> ps[i].l < n
    ensures Kraft(ps, n) % 2 == 0
  {
    if ps != [] {
      KraftEven(ps[1..], n);
      assert Pow2(n - ps[0].l) == 2 * Pow2(n - ps[0].l - 1);
    }
  }

  // A lone longest item can be shortened.
  lemma Shorten(ps: seq<Item>, i: nat) returns (qs: seq<Item>)
    requires |ps| >= 2 && i < |ps| && ps[i].l > 0 && Feasible(ps, ps[i].l)
    requires forall j :: 0 <= j < |ps| && j != i ==> ps[j].l < ps[i].l
    ensures Weights(qs) == Weights(ps) && Cost(qs) <= Cost(ps) && Feasible(qs, ps[i].l)
    ensures |qs| == |ps| && Within(qs, ps[i].l - 1)
  {
    hide Kraft, Cost, Pow2, ItemCost, Weights;
    var n := ps[i].l;
    var rest := Without(ps, i);
    var p := Item(ps[i].w, n - 1);
    KraftWithout(ps, n, i);
    CostWithout(ps, i);
    WeightsWithout(ps, i);
    KraftEven(rest, n);
    EvenPower(n);
    qs := [p] + rest;
    AddItem(rest, p);
    AddKraft(rest, p, n);
    ShorterCost(p.w, n - 1, n);
  }

  lemma ShorterCost(w: nat, m: nat, n: nat)
    requires m <= n
    ensures ItemCost(Item(w, m)) <= ItemCost(Item(w, n))
  {
  }

  lemma EvenPower(n: nat)
    requires n > 0
    ensures Pow2(n - n) == 1 && Pow2(n - (n - 1)) == 2 && Pow2(n) % 2 == 0
  {
    assert Pow2(0) == 1;
  }

  // Any code can be brought, at no extra cost, into one with two longest items.
  lemma TwoLongest(ps: seq<Item>, n: nat) returns (qs: seq<Item>, i: nat, j: nat)
    requires |ps| >= 2 && Feasible(ps, n)
    ensures Weights(qs) == Weights(ps) && Cost(qs) <= Cost(ps) && |qs| == |ps|
    ensures i < |qs| && j < |qs| && i != j && qs[i].l == qs[j].l > 0 && Feasible(qs, qs[i].l)
    decreases n
  {
    hide Kraft, Cost, Pow2;
    i := LongestItem(ps);
    FeasibleAt(ps, ps[i].l, n);
    if ps[i].l == 0 {
      ZeroLengths(ps);
      assert false;
    }
    if k :| 0 <= k < |ps| && k != i && ps[k].l == ps[i].l {
      qs, j := ps, k;
    } else {
      var rs := Shorten(ps, i);
      FeasibleAt(rs, ps[i].l - 1, ps[i].l);
      qs, i, j := TwoLongest(rs, ps[i].l - 1);
    }
  }

  lemma ZeroLengths(ps: seq<Item>)
    requires |ps| >= 2 && Within(ps, 0)
    ensures !Feasible(ps, 0)
  {
    assert ps[0].l <= 0 && ps[1].l <= 0;
    assert Kraft(ps[1..], 0) == Pow2(0) + Kraft(ps[1..][1..], 0);
  }

  // ---------- exchanging weights ----------

  // Give the smallest weight to a longest item.
  lemma Exchange(ps: seq<Item>, i: nat, a: nat) returns (qs: seq<Item>)
    requires i < |ps| && Within(ps, ps[i].l) && a in Weights(ps)
    requires forall x :: x in Weights(ps) ==> a <= x
    ensures |qs| == |ps| && (forall k :: 0 <= k < |ps| ==> qs[k].l == ps[k].l)
    ensures qs[i].w == a && Weights(qs) == Weights(ps) && Cost(qs) <= Cost(ps)
  {
    hide Cost, ItemCost;
    var p := WeightAt(ps, a);
    var w := ps[i].w;
    assert WeightsOf(ps)[i] in Weights(ps);
    if p == i {
      return ps;
    }
    qs := ps[i := Item(a, ps[i].l)][p := Item(w, ps[p].l)];
    var one, two := ps[i := Item(a, ps[i].l)], qs;
    CostUpdate(ps, i, a);
    CostUpdate(one, p, w);
    Rearrange(w, a, ps[i].l, ps[p].l);
    SwapWeights(ps, i, p);
    assert WeightsOf(qs) == WeightsOf(ps)[i := a][p := w];
  }

  lemma CostUpdate(ps: seq<Item>, i: nat, w: nat)
    requires i < |ps|
    ensures Cost(ps[i := Item(w, ps[i].l)]) == Cost(ps) - ItemCost(ps[i]) + ItemCost(Item(w, ps[i].l))
  {
    var qs := ps[i := Item(w, ps[i].l)];
    CostWithout(ps, i);
    CostWithout(qs, i);
    assert Without(qs, i) == Without(ps, i);
  }

  lemma Rearrange(w: nat, a: nat, long: nat, short: nat)
    requires a <= w && short <= long
    ensures ItemCost(Item(a, long)) + ItemCost(Item(w, short)) <= ItemCost(Item(w, long)) + ItemCost(Item(a, short))
  {
    assert (w - a) * (long - short) >= 0;
    assert (w - a) * (long - short) == w * long - w * short - a * long + a * short;
  }

  lemma SwapWeights(ps: seq<Item>, i: nat, p: nat)
    requires i < |ps| && p < |ps| && i != p
    ensures multiset(WeightsOf(ps)[i := ps[p].w][p := ps[i].w]) == multiset(WeightsOf(ps))
  {
  }

  // ---------- the step of the algorithm ----------

  // a and b are the two smallest of the weights.
  ghost predicate Smallest(ws: multiset<nat>, a: nat, b: nat) {
    && a in ws && b in ws - multiset{a}
    && (forall x :: x in ws ==> a <= x) && (forall x :: x in ws - multiset{a} ==> b <= x)
  }

  function Merged(ws: multiset<nat>, a: nat, b: nat): multiset<nat> {
    ws - multiset{a} - multiset{b} + multiset{a + b}
  }

  // Take the smallest weight out of the code, at the place of a longest item.
  lemma TakeOut(ps: seq<Item>, i: nat, a: nat) returns (rest: seq<Item>)
    requires i < |ps| && Within(ps, ps[i].l) && a in Weights(ps)
    requires forall x :: x in Weights(ps) ==> a <= x
    ensures Weights(rest) == Weights(ps) - multiset{a} && Cost(rest) + ItemCost(Item(a, ps[i].l)) <= Cost(ps)
    ensures Within(rest, ps[i].l) && Kraft(rest, ps[i].l) + 1 == Kraft(ps, ps[i].l)
    ensures |rest| == |ps| - 1 && forall k :: 0 <= k < |rest| ==> rest[k].l == Without(ps, i)[k].l
  {
    hide Kraft, Cost, Pow2, ItemCost, Weights;
    var n := ps[i].l;
    var ex := Exchange(ps, i, a);
    KraftSame(ps, ex, n);
    rest := Without(ex, i);
    CostWithout(ex, i);
    KraftWithout(ex, n, i);
    WeightsWithout(ex, i);
    assert Pow2(n - n) == 1 by { UnitPower(); }
  }

  lemma UnitPower()
    ensures Pow2(0) == 1 && Pow2(1) == 2
  {
  }

  // Two sibling items of weights a and b merge into their parent.
  lemma MergeSiblings(ps: seq<Item>, i: nat, a: nat, b: nat) returns (qs: seq<Item>, n: nat)
    requires i < |ps| && ps[i].l > 0 && Feasible(ps, ps[i].l) && Smallest(Weights(ps), a, b)
    requires exists j :: 0 <= j < |ps| && j != i && ps[j].l == ps[i].l
    ensures Weights(qs) == Merged(Weights(ps), a, b) && Feasible(qs, n)
    ensures Cost(qs) + a + b <= Cost(ps)
  {
    hide Kraft, Cost, Pow2, Weights, ItemCost, Merged;
    n := ps[i].l;
    var one := TakeOut(ps, i, a);
    var j :| 0 <= j < |ps| && j != i && ps[j].l == ps[i].l;
    var k := if j < i then j else j - 1;
    assert Without(ps, i)[k] == ps[j];
    var two := TakeOut(one, k, b);
    var p := Item(a + b, n - 1);
    qs := [p] + two;
    AddItem(two, p);
    AddKraft(two, p, n);
    UnitPower();
    ParentCost(a, b, n);
    MergedTwo(Weights(ps), Weights(one), Weights(two), Weights(qs), a, b);
  }

  lemma MergedTwo(all: multiset<nat>, one: multiset<nat>, two: multiset<nat>, merged: multiset<nat>, a: nat, b: nat)
    requires one == all - multiset{a} && two == one - multiset{b} && merged == two + multiset{a + b}
    ensures merged == Merged(all, a, b)
  {
  }

  lemma ParentCost(a: nat, b: nat, n: nat)
    requires n > 0
    ensures ItemCost(Item(a + b, n - 1)) + a + b == ItemCost(Item(a, n)) + ItemCost(Item(b, n))
  {
  }

  lemma {:induction false} KraftSame(ps: seq<Item>, qs: seq<Item>, n: nat)
    requires |ps| == |qs| && Within(ps, n) && forall k :: 0 <= k < |ps| ==> qs[k].l == ps[k].l
    ensures Within(qs, n) && Kraft(qs, n) == Kraft(ps, n)
  {
    hide Pow2;
    if ps != [] {
      KraftSame(ps[1..], qs[1..], n);
    }
  }

  lemma MergeBest(ws: multiset<nat>, a: nat, b: nat, c: nat)
    requires Smallest(ws, a, b) && Best(Merged(ws, a, b), c)
    ensures Best(ws, c + a + b)
  {
    forall ps: seq<Item>, n: nat | Weights(ps) == ws && Feasible(ps, n)
      ensures Cost(ps) >= c + a + b
    {
      hide Kraft, Cost, Pow2, Feasible;
      TwoItems(ps, a, b);
      var qs, i, j := TwoLongest(ps, n);
      assert 0 <= j < |qs| && j != i && qs[j].l == qs[i].l;
      var rs, m := MergeSiblings(qs, i, a, b);
      assert Cost(rs) >= c;
    }
  }

  lemma TwoItems(ps: seq<Item>, a: nat, b: nat)
    requires Smallest(Weights(ps), a, b)
    ensures |ps| >= 2
  {
    assert |Weights(ps)| == |ps|;
    assert |Weights(ps) - multiset{a}| == |Weights(ps)| - 1;
    assert multiset{b} <= Weights(ps) - multiset{a};
  }

  lemma SingleBest(w: nat)
    ensures Best(multiset{w}, 0)
  {
  }

  // ---------- every prefix code satisfies the Kraft inequality ----------

  predicate Apart(c: seq<bool>, d: seq<bool>) {
    !(c <= d) && !(d <= c)
  }

  // No code word is a prefix of another.
  predicate PrefixCode(cs: seq<seq<bool>>) {
    cs == [] || ((forall d :: d in cs[1..] ==> Apart(cs[0], d)) && PrefixCode(cs[1..]))
  }

  function Lengths(ws: seq<nat>, cs: seq<seq<bool>>): (ps: seq<Item>)
    requires |ws| == |cs|
  {
    seq(|ws|, i requires 0 <= i < |ws| => Item(ws[i], |cs[i]|))
  }

  // The code words behind a first bit, without that bit.
  function Branch(cs: seq<seq<bool>>, b: bool): seq<seq<bool>> {
    if cs == [] then []
    else (if cs[0] != [] && cs[0][0] == b then [cs[0][1..]] else []) + Branch(cs[1..], b)
  }

  // Code space taken by words of up to n bits.
  function Space(cs: seq<seq<bool>>, n: nat): nat {
    if cs == [] then 0 else (if |cs[0]| <= n then Pow2(n - |cs[0]|) else 0) + Space(cs[1..], n)
  }

  lemma {:induction false} BranchFrom(cs: seq<seq<bool>>, b: bool, d: seq<bool>)
    requires d in Branch(cs, b)
    ensures [b] + d in cs
  {
    if cs[0] != [] && cs[0][0] == b && d == cs[0][1..] {
      assert [b] + d == cs[0];
    } else {
      BranchFrom(cs[1..], b, d);
    }
  }

  lemma {:induction false} BranchApart(cs: seq<seq<bool>>, b: bool)
    requires PrefixCode(cs)
    ensures PrefixCode(Branch(cs, b))
  {
    if cs != [] {
      BranchApart(cs[1..], b);
      if cs[0] != [] && cs[0][0] == b {
        var rest := Branch(cs[1..], b);
        assert Branch(cs, b)[1..] == rest;
        forall d | d in rest
          ensures Apart(cs[0][1..], d)
        {
          BranchFrom(cs[1..], b, d);
          ApartTails(cs[0], [b] + d);
        }
      } else {
        assert Branch(cs, b) == Branch(cs[1..], b);
      }
    }
  }

  lemma ApartTails(c: seq<bool>, d: seq<bool>)
    requires c != [] && d != [] && c[0] == d[0] && Apart(c, d)
    ensures Apart(c[1..], d[1..])
  {
    assert c == [c[0]] + c[1..] && d == [d[0]] + d[1..];
  }

  lemma SpaceFirst(c: seq<bool>, cs: seq<seq<bool>>, n: nat)
    ensures Space([c] + cs, n) == (if |c| <= n then Pow2(n - |c|) else 0) + Space(cs, n)
  {
    assert ([c] + cs)[1..] == cs;
  }

  lemma {:induction false} SpaceSplit(cs: seq<seq<bool>>, n: nat)
    requires n > 0 && forall i :: 0 <= i < |cs| ==> cs[i] != []
    ensures Space(cs, n) == Space(Branch(cs, true), n - 1) + Space(Branch(cs, false), n - 1)
  {
    hide Pow2, Space;
    if cs == [] {
      SpaceNone(n);
      SpaceNone(n - 1);
    } else {
      var c, rest := cs[0], cs[1..];
      SpaceSplit(rest, n);
      assert cs == [c] + rest;
      SpaceFirst(c, rest, n);
      SpaceFirst(c[1..], Branch(rest, c[0]), n - 1);
      assert [] + Branch(rest, !c[0]) == Branch(rest, !c[0]);
    }
  }

  lemma SpaceNone(n: nat)
    ensures Space([], n) == 0
  {
  }

  // Code words that are not prefixes of each other take no more space than there is.
  lemma {:induction false} KraftInequality(cs: seq<seq<bool>>, n: nat)
    requires PrefixCode(cs)
    ensures Space(cs, n) <= Pow2(n)
    decreases n
  {
    if i :| 0 <= i < |cs| && cs[i] == [] {
      LoneEmpty(cs, i);
      assert cs[1..] == [];
    } else if n == 0 {
      SpaceZero(cs);
    } else {
      hide Space, PrefixCode;
      SpaceSplit(cs, n);
      BranchApart(cs, true);
      BranchApart(cs, false);
      KraftInequality(Branch(cs, true), n - 1);
      KraftInequality(Branch(cs, false), n - 1);
    }
  }

  lemma {:induction false} SpaceZero(cs: seq<seq<bool>>)
    requires forall i :: 0 <= i < |cs| ==> cs[i] != []
    ensures Space(cs, 0) == 0
  {
    if cs != [] {
      SpaceZero(cs[1..]);
    }
  }

  lemma {:induction false} LoneEmpty(cs: seq<seq<bool>>, i: nat)
    requires PrefixCode(cs) && i < |cs| && cs[i] == []
    ensures cs == [[]]
  {
    if i == 0 {
      if |cs| > 1 {
        ApartFirst(cs, 1);
      }
    } else {
      ApartFirst(cs, i);
    }
  }

  lemma ApartFirst(cs: seq<seq<bool>>, i: nat)
    requires PrefixCode(cs) && 0 < i < |cs|
    ensures Apart(cs[0], cs[i])
  {
    assert cs[i] == cs[1..][i - 1];
  }

  lemma {:induction false} SpaceIsKraft(ws: seq<nat>, cs: seq<seq<bool>>, n: nat)
    requires |ws| == |cs| && forall i :: 0 <= i < |cs| ==> |cs[i]| <= n
    ensures Within(Lengths(ws, cs), n) && Kraft(Lengths(ws, cs), n) == Space(cs, n)
  {
    hide Pow2;
    if cs != [] {
      SpaceIsKraft(ws[1..], cs[1..], n);
      assert Lengths(ws, cs)[1..] == Lengths(ws[1..], cs[1..]);
    }
  }

  // A lower bound for length vectors is one for all prefix codes.
  lemma BestPrefixCode(ws: seq<nat>, c: nat, cs: seq<seq<bool>>, n: nat)
    requires Best(multiset(ws), c) && |cs| == |ws| && PrefixCode(cs)
    requires forall i :: 0 <= i < |cs| ==> |cs[i]| <= n
    ensures Cost(Lengths(ws, cs)) >= c
  {
    hide Cost, Kraft, PrefixCode;
    KraftInequality(cs, n);
    SpaceIsKraft(ws, cs, n);
    assert WeightsOf(Lengths(ws, cs)) == ws;
    assert Feasible(Lengths(ws, cs), n);
  }
}
