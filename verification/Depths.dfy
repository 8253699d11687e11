/**
  The first pass of gen_bitlen in trees.c over the finished tree: depths are handed down
  from fathers to sons in the order of the nodes at the end of the heap.

  dep holds the depth of the nodes visited so far and -1 for the others.  What is still owed
  to a node not yet visited by its visited father is its share; the sums of the shares tie
  the depths of the leaves to the Kraft sum and to the cost of the tree.
 */
module Depths {
  import opened Bits
  import opened Canonical
  import opened HuffmanTree

  // The finished tree: done holds the root and then all nodes by decreasing frequency.
  ghost predicate Forest(done: seq<nat>, f: seq<nat>, dl: seq<nat>, elems: nat, leaves: set<nat>, t: nat) {
    && t >= 1 && |done| == 2 * t + 1 && done[0] == elems + t - 1 && elems + t <= |f| == |dl|
    && Once([], done, leaves, elems, t)
    && Family(done, f, dl, elems, t)
    && Ordered([], done, f)
  }

  // The inner node whose son is at position j.
  function FatherNo(n: nat, j: nat): nat
    requires j < n
  {
    (n - 1 - j) / 2
  }

  function Clip(d: int, max: nat): nat {
    if d < 0 then 0 else if d > max then max else d
  }

  lemma NodeOf(done: seq<nat>, f: seq<nat>, dl: seq<nat>, elems: nat, leaves: set<nat>, t: nat, i: nat)
    requires Forest(done, f, dl, elems, leaves, t) && i < |done|
    ensures done[i] < elems + t && (done[i] in leaves <==> done[i] < elems)
  {
    hide Family, Ordered, Sons;
    assert [] + done == done;
    assert done[i] in multiset(done);
    NodesAre(leaves, elems, t, done[i]);
    assert done[i] in Nodes(leaves, elems, t);
  }

  lemma Distinct(done: seq<nat>, f: seq<nat>, dl: seq<nat>, elems: nat, leaves: set<nat>, t: nat, i: nat, j: nat)
    requires Forest(done, f, dl, elems, leaves, t) && i < j < |done|
    ensures done[i] != done[j]
  {
    hide Family, Ordered, Sons;
    assert [] + done == done;
    OnceDistinct([], done, leaves, elems, t);
  }

  lemma PlaceOf(done: seq<nat>, f: seq<nat>, dl: seq<nat>, elems: nat, leaves: set<nat>, t: nat, x: nat)
    returns (i: nat)
    requires Forest(done, f, dl, elems, leaves, t) && (x in leaves || elems <= x < elems + t)
    ensures i < |done| && done[i] == x
  {
    hide Family, Ordered, Sons;
    assert [] + done == done;
    NodesAre(leaves, elems, t, x);
    assert x in multiset(done);
    i :| 0 <= i < |done| && done[i] == x;
  }

  // The father of the node at j, and both sons of an inner node.
  lemma SonAt(done: seq<nat>, f: seq<nat>, dl: seq<nat>, elems: nat, leaves: set<nat>, t: nat, j: nat)
    requires Forest(done, f, dl, elems, leaves, t) && 0 < j < |done|
    ensures var u := FatherNo(|done|, j); u < t && done[j] < elems + u < |dl| && dl[done[j]] == elems + u
  {
    hide Ordered, Once;
    assert Sons(done, f, dl, elems, FatherNo(|done|, j));
  }

  // Sons come after their father.
  lemma SonsLater(done: seq<nat>, f: seq<nat>, dl: seq<nat>, elems: nat, leaves: set<nat>, t: nat, i: nat, u: nat)
    requires Forest(done, f, dl, elems, leaves, t) && i < |done| && done[i] == elems + u
    ensures u < t && i < |done| - 2 - 2 * u
  {
    hide Sons, Once, Ordered;
    NodeOf(done, f, dl, elems, leaves, t, i);
    if i > 0 {
      SonAt(done, f, dl, elems, leaves, t, i);
    }
  }

  // ---------- shares ----------

  // What holds when the first k nodes have been visited; l holds lengths and fathers.
  ghost predicate Visited(done: seq<nat>, dl: seq<nat>, l: seq<nat>, dep: seq<int>, max: nat, k: nat) {
    && |dl| == |l| == |dep| && 0 < k <= |done|
    && (forall i :: 0 <= i < |done| ==> done[i] < |l|)
    && (forall i :: 0 <= i < k ==> dep[done[i]] >= 0 && l[done[i]] == Clip(dep[done[i]], max))
    && (forall i :: k <= i < |done| ==> dep[done[i]] == -1 && l[done[i]] == dl[done[i]])
    && dep[done[0]] == 0
  }

  function Dep(dep: seq<int>, p: nat): int {
    if p < |dep| then dep[p] else -1
  }

  // Code space owed to one son of p.
  function KraftShare(dep: seq<int>, p: nat, max: nat): nat {
    if Dep(dep, p) < 0 || Clip(Dep(dep, p), max) > 15 then 0 else Pow2(15 - Clip(Dep(dep, p), max))
  }

  function FullShare(dep: seq<int>, p: nat, max: nat): nat {
    if Dep(dep, p) >= max then 1 else 0
  }

  function CostShare(f: seq<nat>, x: nat, dep: seq<int>, p: nat): nat {
    if Dep(dep, p) < 0 then 0 else At(f, x) * Dep(dep, p)
  }

  datatype Kind = Space | Full | Weight

  function Share(kind: Kind, done: seq<nat>, f: seq<nat>, dep: seq<int>, elems: nat, max: nat, j: nat): nat
    requires j < |done|
  {
    var p := elems + FatherNo(|done|, j);
    match kind
    case Space => KraftShare(dep, p, max)
    case Full => FullShare(dep, p, max)
    case Weight => CostShare(f, done[j], dep, p)
  }

  // The shares of the nodes from k on.
  function Shares(kind: Kind, done: seq<nat>, f: seq<nat>, dep: seq<int>, elems: nat, max: nat, k: nat): (r: seq<nat>)
    ensures |r| == |done|
  {
    seq(|done|, j requires 0 <= j < |done| => if j < k then 0 else Share(kind, done, f, dep, elems, max, j))
  }

  lemma {:induction false} SumUpdate(s: seq<nat>, i: nat, v: nat)
    requires i < |s|
    ensures Sum(s[i := v]) == Sum(s) - s[i] + v
  {
    SumTake(s, i);
    SumTake(s[i := v], i);
    assert s[i := v][..i] + s[i := v][i + 1..] == s[..i] + s[i + 1..];
  }

  // Visit a node: its own share goes, its sons' shares come.
  lemma SharesStep(kind: Kind, done: seq<nat>, f: seq<nat>, dl: seq<nat>, dep: seq<int>, elems: nat, leaves: set<nat>,
                   t: nat,
                   max: nat, k: nat, d: nat)
    requires Forest(done, f, dl, elems, leaves, t) && 0 < k < |done| && |dep| == |f| && Dep(dep, done[k]) == -1
    requires done[k] < |dep|
    ensures var s, x := Shares(kind, done, f, dep, elems, max, k), done[k];
            var e := dep[x := d];
            var r := Shares(kind, done, f, e, elems, max, k + 1);
            if x < elems then r == s[k := 0]
            else var b := |done| - 2 - 2 * (x - elems);
              k < b && b + 1 < |done|
              && r == s[k := 0][b := Share(kind, done, f, e, elems, max, b)]
                       [b + 1 := Share(kind, done, f, e, elems, max, b + 1)]
              && s[b] == s[b + 1] == 0
  {
    hide Forest, Clip;
    var s, x := Shares(kind, done, f, dep, elems, max, k), done[k];
    var e := dep[x := d];
    var r := Shares(kind, done, f, e, elems, max, k + 1);
    if x < elems {
      forall j | k < j < |done|
        ensures r[j] == s[j]
      {
        OtherShare(kind, done, f, dep, elems, max, j, x, d);
      }
      assert r == s[k := 0];
    } else {
      var b := |done| - 2 - 2 * (x - elems);
      SonsLater(done, f, dl, elems, leaves, t, k, x - elems);
      forall j | k < j < |done| && j != b && j != b + 1
        ensures r[j] == s[j]
      {
        OtherShare(kind, done, f, dep, elems, max, j, x, d);
      }
      assert r == s[k := 0][b := r[b]][b + 1 := r[b + 1]];
      NoShare(kind, done, f, dep, elems, max, b, x);
      NoShare(kind, done, f, dep, elems, max, b + 1, x);
    }
  }

  lemma OtherShare(kind: Kind, done: seq<nat>, f: seq<nat>, dep: seq<int>, elems: nat, max: nat, j: nat, x: nat, d: nat)
    requires j < |done| && x < |dep| && x != elems + FatherNo(|done|, j)
    ensures Share(kind, done, f, dep[x := d], elems, max, j) == Share(kind, done, f, dep, elems, max, j)
  {
  }

  lemma NoShare(kind: Kind, done: seq<nat>, f: seq<nat>, dep: seq<int>, elems: nat, max: nat, j: nat, x: nat)
    requires j < |done| && x < |dep| && x == elems + FatherNo(|done|, j) && dep[x] == -1
    ensures Share(kind, done, f, dep, elems, max, j) == 0
  {
  }

  lemma SumOfShares(kind: Kind, done: seq<nat>, f: seq<nat>, dl: seq<nat>, dep: seq<int>, elems: nat,
                    leaves: set<nat>, t: nat,
                    max: nat, k: nat, d: nat)
    requires Forest(done, f, dl, elems, leaves, t) && 0 < k < |done| && |dep| == |f| && Dep(dep, done[k]) == -1
    requires done[k] < |dep|
    ensures var x := done[k]; var e := dep[x := d];
            var b := |done| - 2 - 2 * (x - elems);
            && (x >= elems ==> k < b && b + 1 < |done|)
            && Sum(Shares(kind, done, f, e, elems, max, k + 1)) + Share(kind, done, f, dep, elems, max, k)
               == Sum(Shares(kind, done, f, dep, elems, max, k))
                  + (if x < elems then 0
                     else Share(kind, done, f, e, elems, max, b) + Share(kind, done, f, e, elems, max, b + 1))
  {
    hide Forest, Share, Sum;
    var s, x := Shares(kind, done, f, dep, elems, max, k), done[k];
    var e := dep[x := d];
    SharesStep(kind, done, f, dl, dep, elems, leaves, t, max, k, d);
    SumUpdate(s, k, 0);
    if x >= elems {
      var b := |done| - 2 - 2 * (x - elems);
      var v, w := Share(kind, done, f, e, elems, max, b), Share(kind, done, f, e, elems, max, b + 1);
      SumUpdate(s[k := 0], b, v);
      SumUpdate(s[k := 0][b := v], b + 1, w);
    }
  }

  // ---------- lengths and their counts ----------

  function Depth(d: int): nat {
    if d < 0 then 0 else d
  }

  // The depths of the symbols, 0 for symbols not visited or not in the tree.
  function DepthsOf(dep: seq<int>, elems: nat): (r: seq<nat>)
    ensures |r| == elems
  {
    seq(elems, x requires 0 <= x < elems => Depth(Dep(dep, x)))
  }

  function LensOf(dep: seq<int>, elems: nat, max: nat): (r: seq<nat>)
    ensures |r| == elems
  {
    seq(elems, x requires 0 <= x < elems => Clip(Dep(dep, x), max))
  }

  // Code space taken by the codes counted in c, up to length l.
  function FilledBy(c: seq<nat>, l: nat): nat
    requires l <= MAXBITS < |c|
  {
    if l == 0 then 0 else FilledBy(c, l - 1) + Shl(c[l], MAXBITS - l)
  }

  function Total(c: seq<nat>, l: nat): nat
    requires l < |c|
  {
    if l == 0 then 0 else Total(c, l - 1) + c[l]
  }

  lemma {:induction false} FilledByUpdate(c: seq<nat>, l: nat, b: nat)
    requires l <= MAXBITS < |c| && 1 <= b <= MAXBITS
    ensures FilledBy(c[b := c[b] + 1], l) == FilledBy(c, l) + (if b <= l then Pow2(MAXBITS - b) else 0)
  {
    hide Shl, Pow2;
    if l > 0 {
      FilledByUpdate(c, l - 1, b);
      ShlAdd(c[b], 1, MAXBITS - b);
      ShlOne(MAXBITS - b);
    }
  }

  lemma {:induction false} TotalUpdate(c: seq<nat>, l: nat, b: nat, v: nat)
    requires l < |c| && 1 <= b < |c|
    ensures Total(c[b := v], l) + (if b <= l then c[b] else 0) == Total(c, l) + (if b <= l then v else 0)
  {
    if l > 0 {
      TotalUpdate(c, l - 1, b, v);
    }
  }

  // c counts the lengths of s.
  ghost predicate Counts(c: seq<nat>, s: seq<nat>) {
    |c| == MAXBITS + 1 && c[0] == 0 && forall l :: 1 <= l <= MAXBITS ==> c[l] == Count(s, l)
  }

  lemma CountsUpdate(c: seq<nat>, s: seq<nat>, x: nat, b: nat)
    requires Counts(c, s) && x < |s| && s[x] == 0 && 1 <= b <= MAXBITS
    ensures Counts(c[b := c[b] + 1], s[x := b])
  {
    assert multiset(s[x := b]) == multiset(s) - multiset{0} + multiset{b};
  }

  lemma {:induction false} FilledByIsFilled(c: seq<nat>, s: seq<nat>, l: nat)
    requires Counts(c, s) && l <= MAXBITS
    ensures FilledBy(c, l) == Filled(s, l)
  {
    hide Shl;
    if l > 0 {
      FilledByIsFilled(c, s, l - 1);
    }
  }

  // ---------- the cost of a length vector ----------

  function Prod(a: nat, b: nat): nat {
    a * b
  }

  // The sum of frequency times length over the first n symbols.
  function Dot(f: seq<nat>, l: seq<nat>, n: nat): nat {
    if n == 0 then 0 else Dot(f, l, n - 1) + Prod(At(f, n - 1), At(l, n - 1))
  }

  lemma {:induction false} DotUpdate(f: seq<nat>, l: seq<nat>, n: nat, x: nat, v: nat)
    requires x < |l|
    ensures Dot(f, l[x := v], n) + (if x < n then Prod(At(f, x), l[x]) else 0)
            == Dot(f, l, n) + (if x < n then Prod(At(f, x), v) else 0)
  {
    hide Prod;
    if n > 0 {
      DotUpdate(f, l, n - 1, x, v);
    }
  }

  // ---------- visiting one node ----------

  // Sons are one deeper than their father.
  ghost predicate Nested(done: seq<nat>, dep: seq<int>, elems: nat, k: nat) {
    k <= |done| && forall j :: 0 < j < k ==> Dep(dep, done[j]) == Dep(dep, elems + FatherNo(|done|, j)) + 1
  }

  lemma FatherVisited(done: seq<nat>, f: seq<nat>, dl: seq<nat>, elems: nat, leaves: set<nat>, t: nat,
                      l: seq<nat>, dep: seq<int>, max: nat, k: nat)
    requires Forest(done, f, dl, elems, leaves, t) && Visited(done, dl, l, dep, max, k) && k < |done|
    ensures var p := elems + FatherNo(|done|, k);
            l[done[k]] == p < |l| && dep[p] >= 0 && l[p] == Clip(dep[p], max) && done[k] != p
            && dep[done[k]] == -1
  {
    hide Family, Ordered, Once, Clip, Sons;
    var p := elems + FatherNo(|done|, k);
    SonAt(done, f, dl, elems, leaves, t, k);
    var i := PlaceOf(done, f, dl, elems, leaves, t, p);
    SonsLater(done, f, dl, elems, leaves, t, i, p - elems);
  }

  lemma VisitedStep(done: seq<nat>, f: seq<nat>, dl: seq<nat>, elems: nat, leaves: set<nat>, t: nat,
                    l: seq<nat>, dep: seq<int>, max: nat, k: nat, d: nat)
    requires Forest(done, f, dl, elems, leaves, t) && Visited(done, dl, l, dep, max, k) && k < |done|
    ensures Visited(done, dl, l[done[k] := Clip(d, max)], dep[done[k] := d], max, k + 1)
  {
    hide Forest, Clip;
    forall i | 0 <= i < |done| && i != k
      ensures done[i] != done[k]
    {
      if i < k {
        Distinct(done, f, dl, elems, leaves, t, i, k);
      } else {
        Distinct(done, f, dl, elems, leaves, t, k, i);
      }
    }
  }

  lemma NestedStep(done: seq<nat>, f: seq<nat>, dl: seq<nat>, elems: nat, leaves: set<nat>, t: nat,
                   l: seq<nat>, dep: seq<int>, max: nat, k: nat)
    requires Forest(done, f, dl, elems, leaves, t) && Visited(done, dl, l, dep, max, k) && k < |done|
    requires Nested(done, dep, elems, k)
    ensures Nested(done, dep[done[k] := Dep(dep, elems + FatherNo(|done|, k)) + 1], elems, k + 1)
  {
    hide Forest, Clip;
    var d := Dep(dep, elems + FatherNo(|done|, k)) + 1;
    forall j | 0 < j < k + 1
      ensures Dep(dep[done[k] := d], done[j]) == Dep(dep[done[k] := d], elems + FatherNo(|done|, j)) + 1
    {
      FatherNot(done, f, dl, elems, leaves, t, k, j);
      if j < k {
        Distinct(done, f, dl, elems, leaves, t, j, k);
      }
    }
  }

  // A node visited later is not the father of one visited before.
  lemma FatherNot(done: seq<nat>, f: seq<nat>, dl: seq<nat>, elems: nat, leaves: set<nat>, t: nat, k: nat, j: nat)
    requires Forest(done, f, dl, elems, leaves, t) && 0 < j <= k < |done|
    ensures done[k] != elems + FatherNo(|done|, j)
  {
    hide Forest;
    if done[k] == elems + FatherNo(|done|, j) {
      SonsLater(done, f, dl, elems, leaves, t, k, FatherNo(|done|, j));
      assert false;
    }
  }

  lemma SpaceStep(done: seq<nat>, f: seq<nat>, dl: seq<nat>, dep: seq<int>, elems: nat, leaves: set<nat>, t: nat,
                  max: nat, k: nat, lp: nat)
    requires Forest(done, f, dl, elems, leaves, t) && 0 < k < |done| && |dep| == |f| && done[k] < |dep|
    requires dep[done[k]] == -1
    requires max <= 15 && lp == Dep(dep, elems + FatherNo(|done|, k))
    ensures Sum(Shares(Space, done, f, dep[done[k] := lp + 1], elems, max, k + 1)) + Pow2(15 - Clip(lp, max))
            == Sum(Shares(Space, done, f, dep, elems, max, k))
                  + (if done[k] < elems then 0 else 2 * Pow2(15 - Clip(lp + 1, max)))
  {
    hide Forest, Shares, Sum, Pow2;
    SumOfShares(Space, done, f, dl, dep, elems, leaves, t, max, k, lp + 1);
  }

  lemma FullStep(done: seq<nat>, f: seq<nat>, dl: seq<nat>, dep: seq<int>, elems: nat, leaves: set<nat>, t: nat,
                 max: nat, k: nat, lp: nat)
    requires Forest(done, f, dl, elems, leaves, t) && 0 < k < |done| && |dep| == |f| && done[k] < |dep|
    requires dep[done[k]] == -1
    requires max <= 15 && lp == Dep(dep, elems + FatherNo(|done|, k))
    ensures Sum(Shares(Full, done, f, dep[done[k] := lp + 1], elems, max, k + 1)) + (if lp >= max then 1 else 0)
            == Sum(Shares(Full, done, f, dep, elems, max, k)) + (if done[k] >= elems && lp + 1 >= max then 2 else 0)
  {
    hide Forest, Shares, Sum, Pow2;
    SumOfShares(Full, done, f, dl, dep, elems, leaves, t, max, k, lp + 1);
  }

  lemma WeightStep(done: seq<nat>, f: seq<nat>, dl: seq<nat>, dep: seq<int>, elems: nat, leaves: set<nat>, t: nat,
                   max: nat, k: nat, lp: nat)
    requires Forest(done, f, dl, elems, leaves, t) && 0 < k < |done| && |dep| == |f| && done[k] < |dep|
    requires dep[done[k]] == -1
    requires max <= 15 && lp == Dep(dep, elems + FatherNo(|done|, k))
    ensures Sum(Shares(Weight, done, f, dep[done[k] := lp + 1], elems, max, k + 1)) + Prod(At(f, done[k]), lp)
            == Sum(Shares(Weight, done, f, dep, elems, max, k))
                  + (if done[k] < elems then 0 else Prod(At(f, done[k]), lp + 1))
  {
    hide Forest, Shares, Sum, Pow2;
    SumOfShares(Weight, done, f, dl, dep, elems, leaves, t, max, k, lp + 1);
    if done[k] >= elems {
      var b := |done| - 2 - 2 * (done[k] - elems);
      SonWeights(done, f, dl, elems, leaves, t, k, b);
      ProdAdd(At(f, done[b]), At(f, done[b + 1]), lp + 1);
    }
  }

  lemma ProdAdd(a: nat, b: nat, c: nat)
    ensures Prod(a, c) + Prod(b, c) == Prod(a + b, c)
  {
  }

  lemma SonWeights(done: seq<nat>, f: seq<nat>, dl: seq<nat>, elems: nat, leaves: set<nat>, t: nat, k: nat, b: nat)
    requires Forest(done, f, dl, elems, leaves, t) && 0 < k < |done| && done[k] >= elems
    requires b == |done| - 2 - 2 * (done[k] - elems)
    requires b + 1 < |done|
    ensures At(f, done[b]) + At(f, done[b + 1]) == At(f, done[k])
  {
    hide Once, Ordered;
    SonsLater(done, f, dl, elems, leaves, t, k, done[k] - elems);
    assert Sons(done, f, dl, elems, done[k] - elems);
  }

  lemma ShareDelta(lp: nat, max: nat)
    requires 1 <= max <= 15
    ensures 2 * Pow2(15 - Clip(lp + 1, max)) == Pow2(15 - Clip(lp, max)) + (if lp >= max then Pow2(15 - max) else 0)
  {
    if lp < max {
      assert Pow2(15 - lp) == 2 * Pow2(15 - lp - 1);
    }
  }

  // ---------- the invariant of the pass ----------

  function LeafCount(s: seq<nat>, elems: nat): nat {
    if s == [] then 0 else LeafCount(s[..|s| - 1], elems) + if s[|s| - 1] < elems then 1 else 0
  }

  ghost predicate Quota(done: seq<nat>, dep: seq<int>, max: nat, k: nat, q: nat, overflow: nat) {
    && k <= |done|
    && (overflow > 0 ==> q >= overflow + 2)
    && (forall i :: 0 <= i < k && Dep(dep, done[i]) >= max ==> q >= overflow + 2)
  }

  // Some node is deeper than max exactly when an overflow has been counted.
  ghost predicate Deep(done: seq<nat>, dep: seq<int>, max: nat, k: nat, overflow: nat) {
    k <= |done| && (overflow == 0 <==> forall i :: 0 <= i < k ==> Dep(dep, done[i]) <= max)
  }

  ghost predicate Pass(done: seq<nat>, f: seq<nat>, dl: seq<nat>, elems: nat,
                       l: seq<nat>, dep: seq<int>, max: nat, k: nat, bl: seq<nat>, overflow: nat)
  {
    && 1 <= max <= 15 && |dep| == |f| && Visited(done, dl, l, dep, max, k) && Nested(done, dep, elems, k)
    && Counts(bl, LensOf(dep, elems, max))
    && 2 * FilledBy(bl, 15) + Sum(Shares(Space, done, f, dep, elems, max, k)) == 0x10000 + Shl(overflow, 15 - max)
    && Quota(done, dep, max, k, 2 * bl[max] + Sum(Shares(Full, done, f, dep, elems, max, k)), overflow)
    && Dot(f, DepthsOf(dep, elems), elems) + Sum(Shares(Weight, done, f, dep, elems, max, k))
            == Sum(Freqs(done[1..k], f))
    && Deep(done, dep, max, k, overflow)
    && Total(bl, 15) == LeafCount(done[..k], elems)
  }

  function Bumped(bl: seq<nat>, leaf: bool, bits: nat): seq<nat>
    requires bits < |bl|
  {
    if leaf then bl[bits := bl[bits] + 1] else bl
  }

  lemma LensStep(dep: seq<int>, elems: nat, max: nat, x: nat, d: nat)
    requires x < |dep| && dep[x] == -1
    ensures x < elems ==> LensOf(dep[x := d], elems, max) == LensOf(dep, elems, max)[x := Clip(d, max)]
    ensures x < elems ==> DepthsOf(dep[x := d], elems) == DepthsOf(dep, elems)[x := d]
    ensures x < elems ==> LensOf(dep, elems, max)[x] == 0 && DepthsOf(dep, elems)[x] == 0
    ensures x >= elems ==> LensOf(dep[x := d], elems, max) == LensOf(dep, elems, max)
    ensures x >= elems ==> DepthsOf(dep[x := d], elems) == DepthsOf(dep, elems)
  {
  }

  lemma CountsStep(dep: seq<int>, elems: nat, max: nat, x: nat, d: nat, bl: seq<nat>)
    requires x < |dep| && dep[x] == -1 && Counts(bl, LensOf(dep, elems, max)) && 1 <= d && 1 <= max <= 15
    ensures Counts(Bumped(bl, x < elems, Clip(d, max)), LensOf(dep[x := d], elems, max))
  {
    hide LensOf, Counts;
    LensStep(dep, elems, max, x, d);
    CountsAre(bl, LensOf(dep, elems, max));
    if x < elems {
      CountsUpdate(bl, LensOf(dep, elems, max), x, Clip(d, max));
    }
  }

  lemma CountsAre(bl: seq<nat>, s: seq<nat>)
    requires Counts(bl, s)
    ensures |bl| == 16
  {
  }

  lemma QuotaStep(done: seq<nat>, dep: seq<int>, max: nat, k: nat, q: nat, overflow: nat, q2: nat, lp: nat, p: nat)
    requires Quota(done, dep, max, k, q, overflow) && k < |done| && done[k] < |dep|
    requires Dep(dep, p) == lp && exists i :: 0 <= i < k && done[i] == p
    requires q2 + (if lp >= max then 1 else 0) == q + (if lp + 1 >= max then 2 else 0)
    requires forall i :: 0 <= i < k ==> done[i] != done[k]
    ensures Quota(done, dep[done[k] := lp + 1], max, k + 1, q2, overflow + if lp >= max then 1 else 0)
  {
    var e, o := dep[done[k] := lp + 1], overflow + if lp >= max then 1 else 0;
    if lp >= max {
      var i :| 0 <= i < k && done[i] == p;
      assert Dep(dep, done[i]) >= max;
    }
    forall i | 0 <= i < k + 1 && Dep(e, done[i]) >= max
      ensures q2 >= o + 2
    {
      if i < k {
        assert Dep(e, done[i]) == Dep(dep, done[i]);
      }
    }
  }

  lemma FatherBefore(done: seq<nat>, f: seq<nat>, dl: seq<nat>, elems: nat, leaves: set<nat>, t: nat, k: nat)
    returns (i: nat)
    requires Forest(done, f, dl, elems, leaves, t) && 0 < k < |done|
    ensures i < k && done[i] == elems + FatherNo(|done|, k)
  {
    hide Family, Ordered, Once, Sons;
    var p := elems + FatherNo(|done|, k);
    SonAt(done, f, dl, elems, leaves, t, k);
    i := PlaceOf(done, f, dl, elems, leaves, t, p);
    SonsLater(done, f, dl, elems, leaves, t, i, p - elems);
  }

  lemma DeepStep(done: seq<nat>, dep: seq<int>, max: nat, k: nat, overflow: nat, lp: nat)
    requires Deep(done, dep, max, k, overflow) && k < |done| && done[k] < |dep|
    requires forall i :: 0 <= i < k ==> done[i] != done[k]
    ensures Deep(done, dep[done[k] := lp + 1], max, k + 1, overflow + if lp >= max then 1 else 0)
  {
    var e := dep[done[k] := lp + 1];
    assert forall i :: 0 <= i < k ==> Dep(e, done[i]) == Dep(dep, done[i]);
    assert Dep(e, done[k]) == lp + 1;
  }

  lemma KraftStep(bl: seq<nat>, leaf: bool, lp: nat, max: nat, s: nat, s2: nat, overflow: nat)
    requires |bl| == 16 && 1 <= max <= 15 && 2 * FilledBy(bl, 15) + s == 0x10000 + Shl(overflow, 15 - max)
    requires s2 + Pow2(15 - Clip(lp, max)) == s + (if leaf then 0 else 2 * Pow2(15 - Clip(lp + 1, max)))
    ensures 2 * FilledBy(Bumped(bl, leaf, Clip(lp + 1, max)), 15) + s2
            == 0x10000 + Shl(overflow + (if lp >= max then 1 else 0), 15 - max)
  {
    ShareDelta(lp, max);
    hide FilledBy, Pow2, Shl;
    FilledByUpdate(bl, 15, Clip(lp + 1, max));
    ShlAdd(overflow, 1, 15 - max);
    ShlOne(15 - max);
  }

  lemma CostStep(f: seq<nat>, dep: seq<int>, elems: nat, x: nat, lp: nat, w: nat, w2: nat, r: nat)
    requires x < |dep| && dep[x] == -1 && Dot(f, DepthsOf(dep, elems), elems) + w == r
    requires w2 + Prod(At(f, x), lp) == w + (if x < elems then 0 else Prod(At(f, x), lp + 1))
    ensures Dot(f, DepthsOf(dep[x := lp + 1], elems), elems) + w2 == r + At(f, x)
  {
    hide Dot, DepthsOf, At, Prod;
    LensStep(dep, elems, 0, x, lp + 1);
    ProdMore(At(f, x), lp);
    if x < elems {
      DotUpdate(f, DepthsOf(dep, elems), elems, x, lp + 1);
    }
  }

  lemma ProdMore(a: nat, b: nat)
    ensures Prod(a, b + 1) == Prod(a, b) + a && Prod(a, 0) == 0
  {
  }

  lemma {:induction false} SumPush(s: seq<nat>, x: nat)
    ensures Sum(s + [x]) == Sum(s) + x
  {
    SumTake(s + [x], |s|);
    assert (s + [x])[..|s|] + (s + [x])[|s| + 1..] == s;
  }

  lemma FreqsPush(done: seq<nat>, k: nat, f: seq<nat>)
    requires 0 < k < |done|
    ensures Sum(Freqs(done[1..k + 1], f)) == Sum(Freqs(done[1..k], f)) + At(f, done[k])
  {
    hide At, Sum;
    assert done[1..k + 1] == done[1..k] + [done[k]];
    FreqsConcat(done[1..k], [done[k]], f);
    assert Freqs([done[k]], f) == [At(f, done[k])];
    SumPush(Freqs(done[1..k], f), At(f, done[k]));
  }

  lemma LeafCountPush(done: seq<nat>, k: nat, elems: nat)
    requires k < |done|
    ensures LeafCount(done[..k + 1], elems) == LeafCount(done[..k], elems) + if done[k] < elems then 1 else 0
  {
    assert done[..k + 1][..k] == done[..k];
  }

  lemma TotalStep(bl: seq<nat>, leaf: bool, bits: nat)
    requires |bl| == 16 && 1 <= bits <= 15
    ensures Total(Bumped(bl, leaf, bits), 15) == Total(bl, 15) + if leaf then 1 else 0
  {
    TotalUpdate(bl, 15, bits, bl[bits] + 1);
  }

  // Visiting one node keeps the invariant.
  lemma PassStep(done: seq<nat>, f: seq<nat>, dl: seq<nat>, elems: nat, leaves: set<nat>, t: nat,
                 l: seq<nat>, dep: seq<int>, max: nat, k: nat, bl: seq<nat>, overflow: nat, x: nat, lp: nat)
    requires Forest(done, f, dl, elems, leaves, t) && Pass(done, f, dl, elems, l, dep, max, k, bl, overflow)
    requires k < |done| && x == done[k] && lp == Dep(dep, elems + FatherNo(|done|, k))
    ensures x < |l| == |dep| && |bl| == 16
    ensures Pass(done, f, dl, elems, l[x := Clip(lp + 1, max)], dep[x := lp + 1], max, k + 1,
                 Bumped(bl, x < elems, Clip(lp + 1, max)), overflow + if lp >= max then 1 else 0)
  {
    hide Forest, Clip, Visited, Nested, Counts, FilledBy, Shl, Quota, Dot, Sum, Shares, DepthsOf, LensOf, Deep, Total,
         LeafCount, At, Bumped, Freqs, Dep, FatherNo, Pow2;
    VisitedFacts(done, dl, l, dep, max, k);
    CountsAre(bl, LensOf(dep, elems, max));
    FatherVisited(done, f, dl, elems, leaves, t, l, dep, max, k);
    VisitedStep(done, f, dl, elems, leaves, t, l, dep, max, k, lp + 1);
    NestedStep(done, f, dl, elems, leaves, t, l, dep, max, k);
    CountsStep(dep, elems, max, x, lp + 1, bl);
    SpaceStep(done, f, dl, dep, elems, leaves, t, max, k, lp);
    KraftStep(bl, x < elems, lp, max, Sum(Shares(Space, done, f, dep, elems, max, k)),
              Sum(Shares(Space, done, f, dep[x := lp + 1], elems, max, k + 1)), overflow);
    WeightStep(done, f, dl, dep, elems, leaves, t, max, k, lp);
    CostStep(f, dep, elems, x, lp, Sum(Shares(Weight, done, f, dep, elems, max, k)),
             Sum(Shares(Weight, done, f, dep[x := lp + 1], elems, max, k + 1)), Sum(Freqs(done[1..k], f)));
    FreqsPush(done, k, f);
    DeepStep(done, dep, max, k, overflow, lp);
    LeafCountPush(done, k, elems);
    ClipRange(lp + 1, max);
    TotalStep(bl, x < elems, Clip(lp + 1, max));
    QuotaStepAll(done, f, dl, elems, leaves, t, dep, max, k, bl, overflow, x, lp);
  }

  lemma VisitedFacts(done: seq<nat>, dl: seq<nat>, l: seq<nat>, dep: seq<int>, max: nat, k: nat)
    requires Visited(done, dl, l, dep, max, k) && k < |done|
    ensures 0 < k && done[k] < |l| == |dep| && dep[done[k]] == -1
    ensures forall i :: 0 <= i < k ==> done[i] != done[k]
  {
  }

  lemma QuotaStepAll(done: seq<nat>, f: seq<nat>, dl: seq<nat>, elems: nat, leaves: set<nat>, t: nat,
                     dep: seq<int>, max: nat, k: nat, bl: seq<nat>, overflow: nat, x: nat, lp: nat)
    requires Forest(done, f, dl, elems, leaves, t) && 0 < k < |done| && x == done[k] < |dep| == |f| && dep[x] == -1
    requires lp == Dep(dep, elems + FatherNo(|done|, k)) && 1 <= max <= 15 && |bl| == 16
    requires forall i :: 0 <= i < k ==> done[i] != done[k]
    requires Quota(done, dep, max, k, 2 * bl[max] + Sum(Shares(Full, done, f, dep, elems, max, k)), overflow)
    ensures Quota(done, dep[x := lp + 1], max, k + 1,
                  2 * Bumped(bl, x < elems, Clip(lp + 1, max))[max]
                        + Sum(Shares(Full, done, f, dep[x := lp + 1], elems, max, k + 1)),
                  overflow + if lp >= max then 1 else 0)
  {
    hide Forest, Quota, Sum, Shares, FatherNo, Dep;
    FullStep(done, f, dl, dep, elems, leaves, t, max, k, lp);
    var i := FatherBefore(done, f, dl, elems, leaves, t, k);
    var q := 2 * bl[max] + Sum(Shares(Full, done, f, dep, elems, max, k));
    var q2 := 2 * Bumped(bl, x < elems, Clip(lp + 1, max))[max]
          + Sum(Shares(Full, done, f, dep[x := lp + 1], elems, max, k + 1));
    QuotaStep(done, dep, max, k, q, overflow, q2, lp, elems + FatherNo(|done|, k));
  }

  lemma ClipRange(d: nat, max: nat)
    requires d >= 1 && 1 <= max
    ensures 1 <= Clip(d, max) <= max && (Clip(d - 1, max) + 1 > max <==> d > max)
    ensures Clip(d, max) == if Clip(d - 1, max) + 1 > max then max else Clip(d - 1, max) + 1
  {
  }

  // ---------- the beginning and the end of the pass ----------

  function Zeros(n: nat): (r: seq<nat>)
    ensures |r| == n && forall i :: 0 <= i < n ==> r[i] == 0
  {
    seq(n, i => 0)
  }

  function Unvisited(n: nat): (r: seq<int>)
    ensures |r| == n
  {
    seq(n, i => -1)
  }

  lemma {:induction false} SumZeros(s: seq<nat>)
    requires forall i :: 0 <= i < |s| ==> s[i] == 0
    ensures Sum(s) == 0
  {
    if s != [] {
      SumZeros(s[1..]);
    }
  }

  lemma {:induction false} DotZeros(f: seq<nat>, l: seq<nat>, n: nat)
    requires forall i :: 0 <= i < n ==> At(f, i) == 0 || At(l, i) == 0
    ensures Dot(f, l, n) == 0
  {
    if n > 0 {
      DotZeros(f, l, n - 1);
    }
  }

  // Only the sons of the root have shares at first.
  lemma StartShares(kind: Kind, done: seq<nat>, f: seq<nat>, dep: seq<int>, elems: nat, t: nat, max: nat)
    requires t >= 1 && |done| == 2 * t + 1 && done[0] == elems + t - 1 < |dep|
    requires dep == Unvisited(|dep|)[done[0] := 0] && max >= 1
    ensures Sum(Shares(kind, done, f, dep, elems, max, 1)) == if kind == Space then 2 * Pow2(15) else 0
  {
    hide Sum, Pow2;
    var s := Shares(kind, done, f, dep, elems, max, 1);
    forall j | 0 < j < |done|
      ensures s[j] == if kind == Space && j <= 2 then Pow2(15) else 0
    {
      assert FatherNo(|done|, j) == t - 1 <==> j <= 2;
    }
    var z := s[1 := 0][2 := 0];
    SumZeros(z);
    SumUpdate(s, 1, 0);
    SumUpdate(s[1 := 0], 2, 0);
  }

  lemma {:induction false} FilledByZeros(c: seq<nat>, l: nat)
    requires l <= MAXBITS < |c| && forall i :: 0 <= i <= MAXBITS ==> c[i] == 0
    ensures FilledBy(c, l) == 0 && Total(c, l) == 0
  {
    if l > 0 {
      FilledByZeros(c, l - 1);
      ShlIsMul(0, MAXBITS - l);
    }
  }

  lemma PassStart(done: seq<nat>, f: seq<nat>, dl: seq<nat>, elems: nat, leaves: set<nat>, t: nat, max: nat,
                  bl: seq<nat>)
    requires Forest(done, f, dl, elems, leaves, t) && 1 <= max <= 15 && bl == Zeros(16)
    ensures done[0] < |dl|
    ensures Pass(done, f, dl, elems, dl[done[0] := 0], Unvisited(|dl|)[done[0] := 0], max, 1, bl, 0)
  {
    hide Forest, Sum, Shares, Dot, FilledBy, Total, Shl, Freqs, LeafCount, Pow2, Counts, DepthsOf, LensOf, Quota,
         Deep, Visited;
    StartNodes(done, f, dl, elems, leaves, t);
    var dep := Unvisited(|dl|)[done[0] := 0];
    StartShares(Space, done, f, dep, elems, t, max);
    StartShares(Full, done, f, dep, elems, t, max);
    StartShares(Weight, done, f, dep, elems, t, max);
    FilledByZeros(bl, 15);
    Pow2Values();
    assert Shl(0, 15 - max) == 0 by { ShlIsMul(0, 15 - max); }
    StartLens(dep, f, elems, max, bl);
    assert done[1..1] == [];
    assert Sum(Freqs([], f)) == 0 by { SumZeros(Freqs([], f)); }
    StartCounts(done, dep, elems, max, dl);
  }

  lemma StartNodes(done: seq<nat>, f: seq<nat>, dl: seq<nat>, elems: nat, leaves: set<nat>, t: nat)
    requires Forest(done, f, dl, elems, leaves, t)
    ensures t >= 1 && |done| == 2 * t + 1 && done[0] == elems + t - 1 < |dl| == |f|
    ensures forall i :: 0 <= i < |done| ==> done[i] < |dl| && (i > 0 ==> done[i] != done[0])
  {
    hide Family, Ordered, Once;
    forall i | 0 <= i < |done|
      ensures done[i] < |dl| && (i > 0 ==> done[i] != done[0])
    {
      NodeOf(done, f, dl, elems, leaves, t, i);
      if i > 0 {
        Distinct(done, f, dl, elems, leaves, t, 0, i);
      }
    }
  }

  lemma StartLens(dep: seq<int>, f: seq<nat>, elems: nat, max: nat, bl: seq<nat>)
    requires forall x :: 0 <= x < elems ==> Dep(dep, x) <= 0
    requires bl == Zeros(16)
    ensures Counts(bl, LensOf(dep, elems, max)) && Dot(f, DepthsOf(dep, elems), elems) == 0
  {
    hide Dot;
    DotZeros(f, DepthsOf(dep, elems), elems);
    forall l | 1 <= l <= MAXBITS
      ensures Count(LensOf(dep, elems, max), l) == 0
    {
      assert l !in LensOf(dep, elems, max);
    }
  }

  lemma StartCounts(done: seq<nat>, dep: seq<int>, elems: nat, max: nat, dl: seq<nat>)
    requires done != [] && done[0] < |dl| && done[0] >= elems && dep == Unvisited(|dl|)[done[0] := 0] && max >= 1
    requires forall i :: 0 <= i < |done| ==> done[i] < |dl| && (i > 0 ==> done[i] != done[0])
    ensures Quota(done, dep, max, 1, 0, 0) && Deep(done, dep, max, 1, 0) && LeafCount(done[..1], elems) == 0
    ensures Visited(done, dl, dl[done[0] := 0], dep, max, 1)
  {
    assert done[..1][..0] == [];
  }

  // All shares are paid when all nodes have been visited.
  lemma EndShares(kind: Kind, done: seq<nat>, f: seq<nat>, dep: seq<int>, elems: nat, max: nat)
    ensures Sum(Shares(kind, done, f, dep, elems, max, |done|)) == 0
  {
    SumZeros(Shares(kind, done, f, dep, elems, max, |done|));
  }

  // The frequencies of the sons are those of the inner nodes.
  lemma {:induction false} SonsSum(done: seq<nat>, f: seq<nat>, dl: seq<nat>, elems: nat, t: nat)
    requires |done| == 2 * t && Family(done, f, dl, elems, t) && elems + t <= |f|
    ensures Sum(Freqs(done, f)) == InnerSum(f, elems, t)
  {
    if t > 0 {
      var rest := done[2..];
      forall u | 0 <= u < t - 1
        ensures Sons(rest, f, dl, elems, u)
      {
        assert Sons(done, f, dl, elems, u);
        assert rest[|rest| - 1 - 2 * u] == done[|done| - 1 - 2 * u];
        assert rest[|rest| - 2 - 2 * u] == done[|done| - 2 - 2 * u];
      }
      SonsSum(rest, f, dl, elems, t - 1);
      assert Sons(done, f, dl, elems, t - 1);
      var s := Freqs(done, f);
      assert s[1..][1..] == Freqs(rest, f);
      assert Sum(s) == s[0] + (s[1] + Sum(s[1..][1..]));
    }
  }

  // Below a node that is too deep there is a leaf that is.
  lemma DeepLeaf(done: seq<nat>, f: seq<nat>, dl: seq<nat>, elems: nat, leaves: set<nat>, t: nat,
                 dep: seq<int>, max: nat, i: nat) returns (x: nat)
    requires Forest(done, f, dl, elems, leaves, t) && Nested(done, dep, elems, |done|)
    requires i < |done| && Dep(dep, done[i]) > max
    ensures x < elems && Dep(dep, x) > max
    decreases |done| - i
  {
    hide Forest;
    if done[i] < elems {
      x := done[i];
    } else {
      var b := |done| - 2 - 2 * (done[i] - elems);
      SonsLater(done, f, dl, elems, leaves, t, i, done[i] - elems);
      assert FatherNo(|done|, b) == done[i] - elems;
      x := DeepLeaf(done, f, dl, elems, leaves, t, dep, max, b);
    }
  }

  // The lengths and depths that the pass has found.
  ghost predicate Found(f: seq<nat>, elems: nat, leaves: set<nat>, max: nat, cost: nat, leafCount: nat,
                        lens: seq<nat>, depths: seq<nat>, bl: seq<nat>, overflow: nat)
  {
    && |lens| == |depths| == elems && 1 <= max <= 15 && Counts(bl, lens)
    && (forall x :: 0 <= x < elems ==> lens[x] == Clip(depths[x], max) && (x in leaves <==> depths[x] > 0))
    && 2 * FilledBy(bl, 15) == 0x10000 + Shl(overflow, 15 - max)
    && (overflow > 0 ==> 2 * bl[max] >= overflow + 2)
    && (overflow == 0 <==> forall x :: 0 <= x < elems ==> depths[x] <= max)
    && Dot(f, depths, elems) == cost && Total(bl, 15) == leafCount
  }

  lemma LeafDepths(done: seq<nat>, f: seq<nat>, dl: seq<nat>, elems: nat, leaves: set<nat>, t: nat,
                   l: seq<nat>, dep: seq<int>, max: nat)
    requires Forest(done, f, dl, elems, leaves, t) && Nested(done, dep, elems, |done|)
    requires Visited(done, dl, l, dep, max, |done|)
    requires forall x :: 0 <= x < |dep| && x !in done ==> dep[x] == -1
    ensures forall x :: 0 <= x < elems ==> (x in leaves <==> DepthsOf(dep, elems)[x] > 0)
  {
    hide Forest, Nested;
    forall x | 0 <= x < elems
      ensures x in leaves <==> DepthsOf(dep, elems)[x] > 0
    {
      if x in leaves {
        var i := PlaceOf(done, f, dl, elems, leaves, t, x);
        StartNodes(done, f, dl, elems, leaves, t);
        SonDepth(done, f, dl, elems, leaves, t, l, dep, max, i);
      } else if x in done {
        var i :| 0 <= i < |done| && done[i] == x;
        NodeOf(done, f, dl, elems, leaves, t, i);
      }
    }
  }

  lemma SonDepth(done: seq<nat>, f: seq<nat>, dl: seq<nat>, elems: nat, leaves: set<nat>, t: nat,
                 l: seq<nat>, dep: seq<int>, max: nat, i: nat)
    requires Forest(done, f, dl, elems, leaves, t)
    requires Nested(done, dep, elems, |done|) && Visited(done, dl, l, dep, max, |done|) && 0 < i < |done|
    ensures Dep(dep, done[i]) > 0
  {
    hide Forest, FatherNo;
    var j := FatherBefore(done, f, dl, elems, leaves, t, i);
    assert dep[done[j]] >= 0;
    assert Dep(dep, done[i]) == Dep(dep, elems + FatherNo(|done|, i)) + 1;
  }

  lemma OverflowIffDeep(done: seq<nat>, f: seq<nat>, dl: seq<nat>, elems: nat, leaves: set<nat>, t: nat,
                        dep: seq<int>, max: nat, overflow: nat)
    requires Forest(done, f, dl, elems, leaves, t) && Nested(done, dep, elems, |done|)
    requires Deep(done, dep, max, |done|, overflow)
    requires forall x :: 0 <= x < |dep| && x !in done ==> dep[x] == -1
    ensures overflow == 0 <==> forall x :: 0 <= x < elems ==> DepthsOf(dep, elems)[x] <= max
  {
    hide Forest, Nested;
    if overflow == 0 {
      forall x | 0 <= x < elems
        ensures DepthsOf(dep, elems)[x] <= max
      {
        if x < |dep| && x in done {
          var i :| 0 <= i < |done| && done[i] == x;
        }
      }
    } else {
      var i :| 0 <= i < |done| && Dep(dep, done[i]) > max;
      var x := DeepLeaf(done, f, dl, elems, leaves, t, dep, max, i);
      assert DepthsOf(dep, elems)[x] > max;
    }
  }

  lemma PassEnd(done: seq<nat>, f: seq<nat>, dl: seq<nat>, elems: nat, leaves: set<nat>, t: nat,
                l: seq<nat>, dep: seq<int>, max: nat, bl: seq<nat>, overflow: nat)
    requires Forest(done, f, dl, elems, leaves, t) && Pass(done, f, dl, elems, l, dep, max, |done|, bl, overflow)
    requires forall x :: 0 <= x < |dep| && x !in done ==> dep[x] == -1
    ensures Found(f, elems, leaves, max, InnerSum(f, elems, t), LeafCount(done, elems),
                  LensOf(dep, elems, max), DepthsOf(dep, elems), bl, overflow)
  {
    hide Forest, Sum, Shares, Dot, FilledBy, Total, Shl, LeafCount, Counts, Nested, Visited, Deep, InnerSum, Freqs;
    EndShares(Space, done, f, dep, elems, max);
    EndShares(Full, done, f, dep, elems, max);
    EndShares(Weight, done, f, dep, elems, max);
    LeafDepths(done, f, dl, elems, leaves, t, l, dep, max);
    OverflowIffDeep(done, f, dl, elems, leaves, t, dep, max, overflow);
    assert done[..|done|] == done;
    SonsOnly(done, f, dl, elems, leaves, t);
    CountsAre(bl, LensOf(dep, elems, max));
  }

  lemma SonsOnly(done: seq<nat>, f: seq<nat>, dl: seq<nat>, elems: nat, leaves: set<nat>, t: nat)
    requires Forest(done, f, dl, elems, leaves, t)
    ensures |done| >= 1 && Sum(Freqs(done[1..|done|], f)) == InnerSum(f, elems, t)
  {
    hide Once, Ordered, Freqs, InnerSum, Sons;
    var sons := done[1..|done|];
    forall u | 0 <= u < t
      ensures Sons(sons, f, dl, elems, u)
    {
      assert Sons(done, f, dl, elems, u);
      SonsTail(done, f, dl, elems, u);
    }
    SonsSum(sons, f, dl, elems, t);
  }

  lemma SonsTail(done: seq<nat>, f: seq<nat>, dl: seq<nat>, elems: nat, u: nat)
    requires Sons(done, f, dl, elems, u) && 2 * u + 3 <= |done|
    ensures Sons(done[1..|done|], f, dl, elems, u)
  {
    var s := done[1..|done|];
    assert s[|s| - 1 - 2 * u] == done[|done| - 1 - 2 * u] && s[|s| - 2 - 2 * u] == done[|done| - 2 - 2 * u];
  }

  // ---------- accounting ----------

  // A weight for the symbols visited, 0 for the others.
  function Masked(dep: seq<int>, w: seq<nat>, elems: nat): (r: seq<nat>)
    ensures |r| == elems
  {
    seq(elems, x requires 0 <= x < elems => if Dep(dep, x) >= 0 then At(w, x) else 0)
  }

  lemma MaskedStep(dep: seq<int>, w: seq<nat>, elems: nat, x: nat, d: nat)
    requires x < |dep| && dep[x] == -1
    ensures x < elems ==>
      Masked(dep, w, elems)[x] == 0 && Masked(dep[x := d], w, elems) == Masked(dep, w, elems)[x := At(w, x)]
    ensures x >= elems ==> Masked(dep[x := d], w, elems) == Masked(dep, w, elems)
  {
  }

  // The cost that visiting x adds under the weight w.
  lemma MaskedCost(f: seq<nat>, dep: seq<int>, w: seq<nat>, elems: nat, x: nat, d: nat)
    requires x < |dep| && dep[x] == -1
    ensures Dot(f, Masked(dep[x := d], w, elems), elems)
            == Dot(f, Masked(dep, w, elems), elems) + if x < elems then Prod(At(f, x), At(w, x)) else 0
  {
    hide Masked, Dot, At, Prod;
    MaskedStep(dep, w, elems, x, d);
    if x < elems {
      DotUpdate(f, Masked(dep, w, elems), elems, x, At(w, x));
      ProdMore(At(f, x), 0);
    }
  }

  lemma LensCost(f: seq<nat>, dep: seq<int>, elems: nat, max: nat, x: nat, d: nat)
    requires x < |dep| && dep[x] == -1
    ensures Dot(f, LensOf(dep[x := d], elems, max), elems)
            == Dot(f, LensOf(dep, elems, max), elems) + if x < elems then Prod(At(f, x), Clip(d, max)) else 0
  {
    hide LensOf, Dot, At, Prod, Clip;
    LensStep(dep, elems, max, x, d);
    if x < elems {
      DotUpdate(f, LensOf(dep, elems, max), elems, x, Clip(d, max));
      ProdMore(At(f, x), 0);
    }
  }

  lemma {:induction false} DotSame(f: seq<nat>, a: seq<nat>, b: seq<nat>, n: nat)
    requires forall x :: 0 <= x < n ==> At(f, x) == 0 || At(a, x) == At(b, x)
    ensures Dot(f, a, n) == Dot(f, b, n)
  {
    if n > 0 {
      DotSame(f, a, b, n - 1);
    }
  }

  lemma StartCosts(f: seq<nat>, dep: seq<int>, w: seq<nat>, elems: nat, max: nat)
    requires forall x :: 0 <= x < elems ==> Dep(dep, x) == -1
    ensures Dot(f, LensOf(dep, elems, max), elems) == 0 && Dot(f, Masked(dep, w, elems), elems) == 0
  {
    hide Dot;
    DotZeros(f, LensOf(dep, elems, max), elems);
    DotZeros(f, Masked(dep, w, elems), elems);
  }
}
