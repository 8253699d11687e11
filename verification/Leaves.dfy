/**
  The leaves of a tree: the symbols of nonzero frequency, and the symbols that build_tree
  adds when there are fewer than two.
 */
module Leaves {
  import opened Canonical
  import opened HuffmanCost
  import opened HuffmanTree
  import opened Depths
  import opened LengthLimit
  import opened Bits

  // The symbols below n of nonzero frequency.
  function LeafSet(f: seq<nat>, n: nat): set<nat> {
    if n == 0 then {} else LeafSet(f, n - 1) + if At(f, n - 1) != 0 then {n - 1} else {}
  }

  // Their frequencies.
  function NonZero(f: seq<nat>, n: nat): seq<nat> {
    if n == 0 then [] else NonZero(f, n - 1) + Single(At(f, n - 1))
  }

  function Single(w: nat): seq<nat> {
    if w != 0 then [w] else []
  }

  lemma {:induction false} LeafIff(f: seq<nat>, n: nat, x: nat)
    ensures x in LeafSet(f, n) <==> x < n && At(f, x) != 0
  {
    if n > 0 {
      LeafIff(f, n - 1, x);
    }
  }

  // ids are the leaves below n.
  ghost predicate Collected(ids: seq<nat>, f: seq<nat>, n: nat) {
    && multiset(ids) == multiset(LeafSet(f, n))
    && multiset(Freqs(ids, f)) == multiset(NonZero(f, n))
    && |ids| <= n
  }

  lemma FreqsPushed(ids: seq<nat>, x: nat, f: seq<nat>)
    ensures Freqs(ids + [x], f) == Freqs(ids, f) + [At(f, x)]
  {
  }

  lemma CollectedStep(ids: seq<nat>, f: seq<nat>, n: nat)
    requires Collected(ids, f, n)
    ensures At(f, n) != 0 ==> Collected(ids + [n], f, n + 1)
    ensures At(f, n) == 0 ==> Collected(ids, f, n + 1)
  {
    hide At, Freqs;
    if At(f, n) != 0 {
      LeafIff(f, n, n);
      FreqsPushed(ids, n, f);
      assert multiset(LeafSet(f, n) + {n}) == multiset(LeafSet(f, n)) + multiset{n};
    } else {
      assert LeafSet(f, n) + {} == LeafSet(f, n);
      assert NonZero(f, n) + Single(0) == NonZero(f, n);
    }
  }

  // ---------- a forced symbol ----------

  lemma LeafSetForced(f: seq<nat>, n: nat, x: nat)
    requires x < n <= |f| && f[x] == 0
    ensures x !in LeafSet(f, n) && LeafSet(f[x := 1], n) == LeafSet(f, n) + {x}
  {
    LeafIff(f, n, x);
    forall y: nat
      ensures y in LeafSet(f[x := 1], n) <==> y in LeafSet(f, n) + {x}
    {
      LeafIff(f, n, y);
      LeafIff(f[x := 1], n, y);
    }
  }

  lemma {:induction false} NonZeroSame(f: seq<nat>, g: seq<nat>, n: nat)
    requires forall i :: 0 <= i < n ==> At(f, i) == At(g, i)
    ensures NonZero(f, n) == NonZero(g, n)
  {
    if n > 0 {
      NonZeroSame(f, g, n - 1);
    }
  }

  lemma AddBefore(a: seq<nat>, b: seq<nat>, x: nat, s: seq<nat>)
    requires multiset(b) == multiset(a) + multiset{x}
    ensures multiset(b + s) == multiset(a + s) + multiset{x}
  {
  }

  lemma AddOne(a: seq<nat>)
    ensures multiset(a + [1]) == multiset(a + []) + multiset{1}
  {
    assert a + [] == a;
  }

  lemma ForcedLast(f: seq<nat>, x: nat)
    requires x < |f| && f[x] == 0
    ensures multiset(NonZero(f[x := 1], x + 1)) == multiset(NonZero(f, x + 1)) + multiset{1}
  {
    var g: seq<nat> := f[x := 1];
    NonZeroSame(f, g, x);
    NonZeroNext(f, x);
    NonZeroNext(g, x);
    assert Single(At(f, x)) == [] && Single(At(g, x)) == [1];
    hide NonZero;
    AddOne(NonZero(f, x));
  }

  lemma NonZeroNext(f: seq<nat>, n: nat)
    ensures NonZero(f, n + 1) == NonZero(f, n) + Single(At(f, n))
  {
  }

  lemma ForcedBefore(f: seq<nat>, g: seq<nat>, n: nat)
    requires multiset(NonZero(g, n)) == multiset(NonZero(f, n)) + multiset{1} && At(f, n) == At(g, n)
    ensures multiset(NonZero(g, n + 1)) == multiset(NonZero(f, n + 1)) + multiset{1}
  {
    NonZeroNext(f, n);
    NonZeroNext(g, n);
    hide NonZero, At;
    AddBefore(NonZero(f, n), NonZero(g, n), 1, Single(At(f, n)));
  }

  lemma {:induction false} NonZeroForced(f: seq<nat>, n: nat, x: nat)
    requires x < n <= |f| && f[x] == 0
    ensures multiset(NonZero(f[x := 1], n)) == multiset(NonZero(f, n)) + multiset{1}
  {
    hide NonZero;
    if n - 1 == x {
      ForcedLast(f, x);
    } else {
      NonZeroForced(f, n - 1, x);
      ForcedBefore(f, f[x := 1], n - 1);
    }
  }

  lemma CollectedForced(ids: seq<nat>, f: seq<nat>, n: nat, x: nat)
    requires Collected(ids, f, n) && x < n <= |f| && f[x] == 0 && |ids| < n
    ensures Collected(ids + [x], f[x := 1], n)
  {
    hide LeafSet, NonZero;
    var g := f[x := 1];
    LeafSetForced(f, n, x);
    NonZeroForced(f, n, x);
    assert multiset(LeafSet(f, n) + {x}) == multiset(LeafSet(f, n)) + multiset{x};
    forall i | 0 <= i < |ids|
      ensures ids[i] != x
    {
      assert ids[i] in multiset(LeafSet(f, n));
    }
    FreqsPushed(ids, x, g);
    assert Freqs(ids, g) == Freqs(ids, f);
  }

  lemma CollectedIn(ids: seq<nat>, f: seq<nat>, n: nat, x: nat)
    requires Collected(ids, f, n)
    ensures x in ids <==> x < n && At(f, x) != 0
  {
    LeafIff(f, n, x);
    assert x in ids <==> x in multiset(LeafSet(f, n));
  }

  // The leaves before the first step.
  lemma {:induction false} SumNonZero(f: seq<nat>, n: nat)
    requires n <= |f|
    ensures Sum(NonZero(f, n)) == Sum(f[..n])
  {
    if n > 0 {
      SumNonZero(f, n - 1);
      assert f[..n] == f[..n - 1] + [f[n - 1]];
      SumPush(f[..n - 1], f[n - 1]);
      SumPush(NonZero(f, n - 1), f[n - 1]);
      assert f[n - 1] == 0 ==> NonZero(f, n) == NonZero(f, n - 1);
    }
  }

  lemma MergingStart(ids: seq<nat>, f: seq<nat>, dl: seq<nat>, elems: nat)
    requires Collected(ids, f, elems) && elems <= |f| == |dl|
    ensures Merging(ids, [], f, dl, elems, LeafSet(f, elems), 0, multiset(NonZero(f, elems)), Sum(f[..elems]))
  {
    hide LeafSet, NonZero, Freqs, Sum, At, Best;
    assert ids + [] == ids;
    forall x | x in LeafSet(f, elems)
      ensures x < elems
    {
      LeafIff(f, elems, x);
    }
    SumNonZero(f, elems);
    SumPermutation(Freqs(ids, f), NonZero(f, elems));
  }

  // The root remains: what was found for it holds for the leaves.
  lemma RootBest(root: nat, f: seq<nat>, ws0: multiset<nat>, k: nat)
    requires Lifts(multiset(Freqs([root], f)), ws0, k)
    ensures Best(ws0, k)
  {
    hide Best, At;
    var ws := multiset(Freqs([root], f));
    assert Freqs([root], f) == [At(f, root)];
    SingleBest(At(f, root));
    assert LiftsAt(ws, ws0, k, 0);
  }

  // ---------- fewer symbols than elements ----------

  lemma {:induction false} CountTrim(lens: seq<nat>, n: nat, l: nat)
    requires n <= |lens| && l > 0 && forall i :: n <= i < |lens| ==> lens[i] == 0
    ensures Count(lens[..n], l) == Count(lens, l)
  {
    assert lens == lens[..n] + lens[n..];
    assert l !in lens[n..];
  }

  lemma {:induction false} FilledTrim(lens: seq<nat>, n: nat, l: nat)
    requires n <= |lens| && l <= MAXBITS && forall i :: n <= i < |lens| ==> lens[i] == 0
    ensures Filled(lens[..n], l) == Filled(lens, l)
  {
    if l > 0 {
      FilledTrim(lens, n, l - 1);
      CountTrim(lens, n, l);
    }
  }

  lemma {:induction false} DotForced(f: seq<nat>, w: seq<nat>, n: nat, x: nat)
    requires x < |f| && f[x] == 0
    ensures Dot(f[x := 1], w, n) == Dot(f, w, n) + if x < n then At(w, x) else 0
  {
    if n > 0 {
      DotForced(f, w, n - 1, x);
    }
  }

  // ---------- the finished tree ----------

  lemma SonBelow(done: seq<nat>, f: seq<nat>, dl: seq<nat>, elems: nat, t: nat, i: nat)
    requires Family(done, f, dl, elems, t) && |done| == 2 * t && i < |done|
    ensures done[i] < elems + t - 1
  {
    assert Sons(done, f, dl, elems, (|done| - 1 - i) / 2);
  }

  // The last node made is the root that remains in the heap.
  lemma RootIsLast(root: nat, done: seq<nat>, f: seq<nat>, dl: seq<nat>, elems: nat, leaves: set<nat>, t: nat)
    requires Once([root], done, leaves, elems, t) && Family(done, f, dl, elems, t) && t >= 1 && |done| == 2 * t
    ensures root == elems + t - 1
  {
    hide Nodes;
    var last := elems + t - 1;
    NodesAre(leaves, elems, t, last);
    assert last in multiset([root] + done);
    if last in done {
      var i :| 0 <= i < |done| && done[i] == last;
      SonBelow(done, f, dl, elems, t, i);
      assert false;
    }
    assert last in [root] + done;
  }

  lemma SonsFront(root: nat, done: seq<nat>, f: seq<nat>, dl: seq<nat>, elems: nat, u: nat)
    requires Sons(done, f, dl, elems, u)
    ensures Sons([root] + done, f, dl, elems, u)
  {
    var s := [root] + done;
    assert s[|s| - 1 - 2 * u] == done[|done| - 1 - 2 * u] && s[|s| - 2 - 2 * u] == done[|done| - 2 - 2 * u];
  }

  lemma ForestDone(root: nat, done: seq<nat>, f: seq<nat>, dl: seq<nat>, elems: nat, leaves: set<nat>, t: nat,
                   ws0: multiset<nat>, total: nat)
    requires Merging([root], done, f, dl, elems, leaves, t, ws0, total) && t >= 1
    ensures Forest([root] + done, f, dl, elems, leaves, t)
    ensures Best(ws0, InnerSum(f, elems, t))
  {
    hide Sons, Lifts, Sum, Freqs, InnerSum, Best, Once, Ordered;
    RootIsLast(root, done, f, dl, elems, leaves, t);
    forall u | 0 <= u < t
      ensures Sons([root] + done, f, dl, elems, u)
    {
      SonsFront(root, done, f, dl, elems, u);
    }
    RootOnce(root, done, leaves, elems, t);
    RootOrdered(root, done, f);
    RootBest(root, f, ws0, InnerSum(f, elems, t));
  }

  lemma RootOnce(root: nat, done: seq<nat>, leaves: set<nat>, elems: nat, t: nat)
    requires Once([root], done, leaves, elems, t)
    ensures Once([], [root] + done, leaves, elems, t)
  {
    assert [] + ([root] + done) == [root] + done;
  }

  lemma RootOrdered(root: nat, done: seq<nat>, f: seq<nat>)
    requires Ordered([root], done, f)
    ensures Ordered([], [root] + done, f)
  {
    hide At;
    var s := [root] + done;
    forall i, j | 0 <= i <= j < |s|
      ensures At(f, s[i]) >= At(f, s[j])
    {
      if i == 0 && j > 0 {
        assert At(f, done[j - 1]) <= At(f, [root][0]);
      } else if i > 0 {
        assert s[i] == done[i - 1] && s[j] == done[j - 1];
      }
    }
  }

  // ---------- two leaves ----------

  lemma CollectedSize(ids: seq<nat>, f: seq<nat>, n: nat)
    requires Collected(ids, f, n)
    ensures |NonZero(f, n)| == |ids|
  {
    hide NonZero, LeafSet, At;
    assert |multiset(Freqs(ids, f))| == |ids|;
    assert |multiset(NonZero(f, n))| == |NonZero(f, n)|;
  }

  lemma {:induction false} FilledByShort(c: seq<nat>, l: nat)
    requires 1 <= l <= MAXBITS < |c|
    ensures FilledBy(c, l) <= 0x4000 * c[1] + 0x2000 * (Total(c, l) - c[1]) && Total(c, l) >= c[1]
  {
    if l == 1 {
      assert FilledBy(c, 0) == 0 && Total(c, 0) == 0;
      ShlIsMul(c[1], 14);
      Pow2Values();
    } else {
      FilledByShort(c, l - 1);
      LongCode(c[l], MAXBITS - l);
    }
  }

  lemma LongCode(x: nat, n: nat)
    requires n <= 13
    ensures Shl(x, n) <= 0x2000 * x
  {
    hide Shl, Pow2;
    ShlIsMul(x, n);
    Pow2Mono(n, 13);
    Pow2Add(8, 5);
    Pow2Add(8, 8);
    Pow2Add(3, 5);
    Pow2Values();
    ProdMono(x, Pow2(n), 0x2000);
  }

  lemma ProdMono(x: nat, a: nat, b: nat)
    requires a <= b
    ensures x * a <= x * b
  {
  }

  lemma OneBit(c: seq<nat>)
    requires MAXBITS < |c| && FilledBy(c, 15) == 0x8000 && Total(c, 15) == 2
    ensures c[1] == 2
  {
    hide FilledBy, Total;
    FilledByShort(c, 15);
  }

  // Two codes that fill the code space have one bit each.
  lemma TwoCodes(c: seq<nat>, lens: seq<nat>, x: nat)
    requires Counts(c, lens) && FilledBy(c, 15) == 0x8000 && Total(c, 15) == 2 && x < |lens| && 0 < lens[x] <= 15
    ensures lens[x] == 1
  {
    hide FilledBy, Total;
    FilledByShort(c, 15);
    assert lens[x] in multiset(lens);
    assert c[lens[x]] == Count(lens, lens[x]) > 0;
    if lens[x] > 1 {
      OneBit(c);
      TotalOfTwo(c, 1, lens[x], 15);
    }
  }

  lemma {:induction false} TotalOfTwo(c: seq<nat>, a: nat, b: nat, l: nat)
    requires 1 <= a < b <= l < |c|
    ensures Total(c, l) >= c[a] + c[b]
  {
    if l == b {
      TotalOfOne(c, a, l - 1);
    } else {
      TotalOfTwo(c, a, b, l - 1);
    }
  }

  lemma {:induction false} TotalOfOne(c: seq<nat>, a: nat, l: nat)
    requires 1 <= a <= l < |c|
    ensures Total(c, l) >= c[a]
  {
    if a < l {
      TotalOfOne(c, a, l - 1);
    }
  }

  // As many codes as symbols that occur.
  lemma {:induction false} UptoLeaves(lens: seq<nat>, f: seq<nat>)
    requires |f| == |lens| && forall x :: 0 <= x < |lens| ==> lens[x] <= 15 && (f[x] > 0 <==> lens[x] > 0)
    ensures Upto(lens, 15) == |NonZero(f, |f|)|
  {
    if lens != [] {
      var n := |lens| - 1;
      UptoLeaves(lens[..n], f[..n]);
      NonZeroSame(f, f[..n], n);
    }
  }

  lemma {:induction false} DotPrefix(f: seq<nat>, w: seq<nat>, n: nat, m: nat)
    requires n <= m <= |f|
    ensures Dot(f[..m], w, n) == Dot(f, w, n)
  {
    if n > 0 {
      DotPrefix(f, w, n - 1, m);
    }
  }

  lemma {:induction false} DotOnes(f: seq<nat>, w: seq<nat>, n: nat)
    requires n <= |f| && forall i :: 0 <= i < n ==> At(w, i) == 1
    ensures Dot(f, w, n) == Sum(f[..n])
  {
    if n > 0 {
      DotOnes(f, w, n - 1);
      assert f[..n] == f[..n - 1] + [f[n - 1]];
      SumPush(f[..n - 1], f[n - 1]);
    }
  }
}
