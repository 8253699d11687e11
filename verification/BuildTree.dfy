/**
  build_tree of trees.c on the state it shares with gen_bitlen: the heap, the depths, the
  length counts and the two bit lengths of the block.
 */
module BuildTree {
  import opened Bits
  import opened Canonical
  import opened HuffmanCost
  import opened Heap
  import opened HuffmanTree
  import opened Depths
  import opened LengthLimit
  import opened Leaves
  import opened GenCodes

  // static_tree_desc: the static code if there is one, the extra bits, and the limits.
  datatype Desc = Desc(stree: Option<seq<nat>>, extra: seq<nat>, base: nat, elems: nat, max_length: nat) {
    predicate Ok() {
      && 3 <= elems <= 286 && 1 <= max_length <= 15 && elems <= Pow2(max_length)
      && base + |extra| >= elems && (stree.Some? ==> |stree.value| >= elems)
    }

    // The extra bits of a symbol.
    function Extra(n: nat): nat {
      if base <= n < base + |extra| then extra[n - base] else 0
    }

    function Extras(): (r: seq<nat>)
      ensures |r| == elems
    {
      seq(elems, n requires 0 <= n < elems => Extra(n))
    }

    // The cost of the symbols in the static code.
    function Statics(): (r: seq<nat>)
      ensures |r| == elems
    {
      seq(elems, n requires 0 <= n < elems => if stree.None? then 0 else At(stree.value, n) + Extra(n))
    }
  }

  // What has been added to the two bit lengths for the symbols visited.
  ghost predicate Spent(f: seq<nat>, dep: seq<int>, desc: Desc, opt: int, static_: int) {
    && opt == Dot(f, LensOf(dep, desc.elems, desc.max_length), desc.elems)
            + Dot(f, Masked(dep, desc.Extras(), desc.elems), desc.elems)
    && static_ == Dot(f, Masked(dep, desc.Statics(), desc.elems), desc.elems)
  }

  lemma SpentStart(f: seq<nat>, dep: seq<int>, desc: Desc)
    requires forall x :: 0 <= x < desc.elems ==> Dep(dep, x) == -1
    ensures Spent(f, dep, desc, 0, 0)
  {
    hide Dot, Masked, LensOf;
    StartCosts(f, dep, desc.Extras(), desc.elems, desc.max_length);
    StartCosts(f, dep, desc.Statics(), desc.elems, desc.max_length);
  }

  lemma SpentStep(f: seq<nat>, dep: seq<int>, desc: Desc, opt: int, static_: int, n: nat, d: nat)
    requires Spent(f, dep, desc, opt, static_) && n < |dep| && dep[n] == -1
    ensures n >= desc.elems ==> Spent(f, dep[n := d], desc, opt, static_)
    ensures n < desc.elems ==>
      Spent(f, dep[n := d], desc, opt + Prod(At(f, n), Clip(d, desc.max_length) + desc.Extra(n)),
                                     static_ + Prod(At(f, n), At(desc.Statics(), n)))
  {
    hide Dot, Masked, LensOf, Clip, At, Prod, desc.Statics;
    LensCost(f, dep, desc.elems, desc.max_length, n, d);
    MaskedCost(f, dep, desc.Extras(), desc.elems, n, d);
    MaskedCost(f, dep, desc.Statics(), desc.elems, n, d);
    if n < desc.elems {
      ExtrasAt(desc, n);
      ProdSum(At(f, n), Clip(d, desc.max_length), desc.Extra(n));
    }
  }

  lemma ExtrasAt(desc: Desc, n: nat)
    requires n < desc.elems
    ensures At(desc.Extras(), n) == desc.Extra(n)
  {
  }

  lemma ProdSum(a: nat, b: nat, c: nat)
    ensures Prod(a, b + c) == Prod(a, b) + Prod(a, c)
  {
  }

  // The nodes in the heap.
  function Live(h: seq<nat>, len: nat): (r: seq<nat>)
    requires len < |h|
    ensures |r| == len
  {
    h[1..len + 1]
  }

  lemma RootLeast(f: seq<nat>, d: seq<nat>, h: seq<nat>, len: nat)
    requires HeapFrom(f, d, h, len, 1) && 1 <= len && IdsBelow(h, len, |f|) && |f| <= |d|
    ensures forall i :: 0 <= i < len ==> At(f, h[1]) <= At(f, Live(h, len)[i])
  {
    hide HeapFrom;
    forall i | 0 <= i < len
      ensures At(f, h[1]) <= At(f, Live(h, len)[i])
    {
      RootSmallest(f, d, h, len, i + 1);
    }
  }

  lemma RootId(h: seq<nat>, len: nat, n: nat)
    requires IdsBelow(h, len, n) && 1 <= len
    ensures h[1] < n
  {
  }

  lemma TailKept(h: seq<nat>, x: nat, g: seq<nat>, e: seq<nat>, len: nat)
    requires 2 <= len < |h| && g == h[1 := x] && Rearranged(g, e, 1, len - 1)
    ensures |e| == |h| && forall i :: len < i < |h| ==> e[i] == h[i]
  {
    RearrangedTail(g, e, 1, len - 1);
  }

  lemma SameDone(h: seq<nat>, x: nat, g: seq<nat>, e: seq<nat>, len: nat, max: nat)
    requires 1 <= len < max <= |h| && g == h[1 := x] && Rearranged(g, e, 1, len)
    ensures |e| == |h| && e[max..] == h[max..]
  {
    RearrangedTail(g, e, 1, len);
  }

  lemma LastToRoot(h: seq<nat>, len: nat)
    requires 2 <= len < |h|
    ensures multiset(Live(h, len)) == multiset([h[1]] + Live(h[1 := h[len]], len - 1))
  {
    var g, mid := h[1 := h[len]], h[2..len];
    assert Live(h, len) == [h[1]] + (mid + [h[len]]);
    assert Live(g, len - 1) == [h[len]] + mid by {
      assert len > 2 ==> g[2..len] == mid;
    }
    SwapEnds(h[1], h[len], mid);
  }

  lemma SwapEnds(x: nat, y: nat, mid: seq<nat>)
    ensures multiset([x] + (mid + [y])) == multiset([x] + ([y] + mid))
  {
  }

  lemma RootReplaced(f: seq<nat>, d: seq<nat>, h: seq<nat>, len: nat)
    requires HeapFrom(f, d, h, len, 1) && 2 <= len && IdsBelow(h, len, |f|)
    ensures HeapFrom(f, d, h[1 := h[len]], len - 1, 2) && IdsBelow(h[1 := h[len]], len - 1, |f|)
  {
    hide Smaller;
  }

  lemma SmallerRest(n: nat, a: seq<nat>, b: seq<nat>, all: seq<nat>, f: seq<nat>)
    requires multiset(all) == multiset([n] + a) && multiset(a) == multiset(b)
    requires forall i :: 0 <= i < |all| ==> At(f, n) <= At(f, all[i])
    ensures multiset(all) == multiset([n] + b)
    ensures forall i :: 0 <= i < |b| ==> At(f, n) <= At(f, b[i])
  {
    assert multiset([n] + b) == multiset{n} + multiset(b);
    assert multiset([n] + a) == multiset{n} + multiset(a);
    forall i | 0 <= i < |b|
      ensures At(f, n) <= At(f, b[i])
    {
      assert b[i] in multiset(all);
      assert exists j :: 0 <= j < |all| && all[j] == b[i];
    }
  }

  lemma LiveSame(heap: array<nat>, g: seq<nat>, len: nat)
    requires len < heap.Length == |g| && multiset(heap[1..len + 1]) == multiset(g[1..len + 1])
    ensures multiset(Live(g, len)) == multiset(Live(heap[..], len))
  {
    assert Live(heap[..], len) == heap[1..len + 1];
  }

  lemma LiveIds(h: seq<nat>, len: nat, n: nat)
    requires len < |h| && forall i :: 0 <= i < len ==> Live(h, len)[i] < n
    ensures IdsBelow(h, len, n)
  {
    forall i | 1 <= i <= len
      ensures h[i] < n
    {
      assert Live(h, len)[i - 1] == h[i];
    }
  }

  // A new node takes the place of the root.
  lemma NewRoot(f: seq<nat>, d: seq<nat>, h: seq<nat>, len: nat, node: nat, w: nat, e: nat)
    requires HeapFrom(f, d, h, len, 1) && 1 <= len && IdsBelow(h, len, node) && node < |f| <= |d|
    ensures HeapFrom(f[node := w], d[node := e], h[1 := node], len, 2) && IdsBelow(h[1 := node], len, |f|)
  {
    var g := h[1 := node];
    forall j | 4 <= j <= len
      ensures Smaller(f[node := w], d[node := e], g[j / 2], g[j])
    {
      assert Smaller(f, d, h[j / 2], h[j]);
    }
  }

  lemma RootSplit(h: seq<nat>, len: nat, x: nat)
    requires 1 <= len < |h|
    ensures Live(h[1 := x], len) == [x] + h[2..len + 1]
  {
    assert h[1 := x][2..len + 1] == h[2..len + 1];
  }

  lemma HeapSame(f: seq<nat>, d: seq<nat>, h: seq<nat>, g: seq<nat>, len: nat)
    requires HeapFrom(f, d, h, len, 1) && |g| == |h| && forall i :: 0 <= i <= len ==> g[i] == h[i]
    ensures HeapFrom(f, d, g, len, 1)
  {
    hide Smaller;
  }

  // The root that remains is the second node taken.
  lemma TakenFrom(ids: seq<nat>, n: nat, h: seq<nat>, len: nat, f: seq<nat>, d: seq<nat>)
    requires 1 <= len < |h| && multiset(ids) == multiset([n] + Live(h, len)) && IdsBelow(h, len, |f|) && |f| <= |d|
    requires HeapFrom(f, d, h, len, 1) && forall i :: 0 <= i < len ==> At(f, n) <= At(f, Live(h, len)[i])
    ensures Taken(ids, n, h[1], h[2..len + 1], f)
  {
    hide HeapFrom, At, IdsBelow;
    RootLeast(f, d, h, len);
    RootSplit(h, len, h[1]);
    assert h[1 := h[1]] == h;
    var tail := h[2..len + 1];
    forall i | 0 <= i < |tail|
      ensures At(f, h[1]) <= At(f, tail[i])
    {
      assert tail[i] == Live(h, len)[i + 1];
    }
    assert Live(h, len)[0] == h[1];
  }

  lemma TailIds(ids: seq<nat>, n: nat, m: nat, tail: seq<nat>, f: seq<nat>, done: seq<nat>, dl: seq<nat>, elems: nat,
                leaves: set<nat>, t: nat, ws0: multiset<nat>, total: nat, h: seq<nat>, len: nat)
    requires Merging(ids, done, f, dl, elems, leaves, t, ws0, total) && Taken(ids, n, m, tail, f)
    requires 1 <= len < |h| && h[1] == m && tail == h[2..len + 1]
    ensures IdsBelow(h, len, elems + t)
    ensures (n in leaves || n >= elems) && (m in leaves || m >= elems)
  {
    hide Taken, Once, Lifts, Freqs, Family, Ordered, Sum, InnerSum;
    TakenFacts(ids, n, m, tail, f, done, leaves, elems, t);
    TakenNodes(ids, n, m, tail, f, done, leaves, elems, t);
    forall i | 1 <= i <= len
      ensures h[i] < elems + t
    {
      assert i > 1 ==> h[i] == tail[i - 2];
    }
  }

  lemma FatherKnown(done: seq<nat>, f: seq<nat>, dl: seq<nat>, elems: nat, leaves: set<nat>, t: nat,
                    l: seq<nat>, dep: seq<int>, max: nat, k: nat, bl: seq<nat>, overflow: nat)
    requires Forest(done, f, dl, elems, leaves, t) && Pass(done, f, dl, elems, l, dep, max, k, bl, overflow)
    requires k < |done|
    ensures done[k] < |l| == |dep| && dep[done[k]] == -1 && l[done[k]] < |l|
    ensures Dep(dep, elems + FatherNo(|done|, k)) >= 0
    ensures l[l[done[k]]] == Clip(Dep(dep, elems + FatherNo(|done|, k)), max)
    ensures Clip(Dep(dep, elems + FatherNo(|done|, k)), max) + 1 > max <==> Dep(dep, elems + FatherNo(|done|, k)) >= max
    ensures done[k] in leaves <==> done[k] < elems
  {
    hide Forest, Visited, Sum, Shares, Dot, FilledBy, Total, Shl, LeafCount, Counts, Nested, Deep, Freqs;
    FatherVisited(done, f, dl, elems, leaves, t, l, dep, max, k);
    VisitedFacts(done, dl, l, dep, max, k);
    NodeOf(done, f, dl, elems, leaves, t, k);
  }

  lemma ExcessRange(c: seq<nat>, max: nat, overflow: nat, n: nat)
    requires Excess(c, max, overflow, n)
    ensures |c| == 16 && 1 <= max <= 15 && overflow % 2 == 0 && c[0] == 0
  {
  }

  lemma RepairedIs(c: seq<nat>, b: nat, max: nat, e: seq<nat>)
    requires |c| == |e| == 16 && 1 <= b < max <= 15 && c[b] > 0 && c[max] > 0
    requires e == c[b := c[b] - 1][b + 1 := c[b + 1] + 2][max := (if b + 1 == max then c[max] + 2 else c[max]) - 1]
    ensures e == Repaired(c, b, max)
  {
  }

  lemma ProdChange(f: nat, a: nat, b: nat)
    ensures (b - a) * f == Prod(f, b) - Prod(f, a)
  {
  }

  lemma DealtLens(done: seq<nat>, lens: seq<nat>, dl: array<nat>, elems: nat)
    requires elems <= dl.Length && lens == dl[..elems]
    requires forall i, j :: 0 <= i < j < |done| && done[i] < elems && done[j] < elems ==> lens[done[i]] <= lens[done[j]]
    requires forall x :: 0 <= x < elems ==> (x in done <==> lens[x] > 0) && lens[x] <= MAXBITS
    ensures forall i, j :: 0 <= i < j < |done| && done[i] < elems && done[j] < elems ==> dl[done[i]] <= dl[done[j]]
    ensures forall x :: 0 <= x < elems ==> (x in done <==> dl[x] > 0) && dl[x] <= MAXBITS
  {
    assert forall x :: 0 <= x < elems ==> lens[x] == dl[x];
  }

  /**
    What gen_bitlen achieves: a complete code of limited lengths for exactly the leaves.
    depths have the optimal cost; the lengths are the depths whenever these obey the limit.
    Otherwise they are cut, and no symbol is given a longer code than a rarer one.
   */
  ghost predicate Limited(f: seq<nat>, lens: seq<nat>, depths: seq<nat>, elems: nat, leaves: set<nat>, max: nat,
                          cost: nat) {
    && |lens| == |depths| == elems <= |f| && max <= 15
    && (forall x :: 0 <= x < elems ==>
          lens[x] <= max && (x in leaves <==> lens[x] > 0) && (x in leaves <==> depths[x] > 0))
    && Complete(lens)
    && Dot(f, depths, elems) == cost
    && ((forall x :: 0 <= x < elems ==> depths[x] <= max) ==> lens == depths)
    && ((exists x :: 0 <= x < elems && depths[x] > max) ==>
          RarerLonger(f, lens, leaves) && Shortened(depths, lens, max))
  }

  ghost predicate RarerLonger(f: seq<nat>, lens: seq<nat>, leaves: set<nat>) {
    && |lens| <= |f|
    && forall x, y :: x in leaves && y in leaves && x < |lens| && y < |lens| && f[x] < f[y] ==> lens[x] >= lens[y]
  }

  lemma PassLens(done: seq<nat>, f: seq<nat>, dl: seq<nat>, elems: nat, leaves: set<nat>, t: nat,
                 l: seq<nat>, dep: seq<int>, max: nat, bl: seq<nat>, overflow: nat)
    requires Forest(done, f, dl, elems, leaves, t) && Pass(done, f, dl, elems, l, dep, max, |done|, bl, overflow)
    requires forall x :: 0 <= x < |dep| && x !in done ==> dep[x] == -1 && l[x] == dl[x]
    requires forall x :: 0 <= x < elems && x !in leaves ==> dl[x] == 0
    ensures elems <= |l| && l[..elems] == LensOf(dep, elems, max)
  {
    hide Sum, Shares, Dot, FilledBy, Total, Shl, LeafCount, Counts, Nested, Deep, Freqs, Once, Family, Ordered, Quota;
    forall x | 0 <= x < elems
      ensures l[x] == Clip(Dep(dep, x), max)
    {
      if x in done {
        var i :| 0 <= i < |done| && done[i] == x;
      } else if x in leaves {
        LeafIn(done, f, dl, elems, leaves, t, x);
        assert false;
      }
    }
  }

  lemma LeafIn(done: seq<nat>, f: seq<nat>, dl: seq<nat>, elems: nat, leaves: set<nat>, t: nat, x: nat)
    requires Forest(done, f, dl, elems, leaves, t) && x in leaves
    ensures x in done
  {
    hide Forest;
    var i := PlaceOf(done, f, dl, elems, leaves, t, x);
  }

  lemma SpentEnd(done: seq<nat>, f: seq<nat>, dl: seq<nat>, elems: nat, leaves: set<nat>, t: nat,
                 l: seq<nat>, dep: seq<int>, max: nat, bl: seq<nat>, overflow: nat, desc: Desc, opt: int, static_: int)
    requires Forest(done, f, dl, elems, leaves, t) && Pass(done, f, dl, elems, l, dep, max, |done|, bl, overflow)
    requires Spent(f, dep, desc, opt, static_) && elems == desc.elems && max == desc.max_length && elems <= |f|
    requires forall x :: 0 <= x < elems && x !in leaves ==> f[x] == 0
    ensures opt == Dot(f, LensOf(dep, elems, max), elems) + Dot(f, desc.Extras(), elems)
    ensures static_ == Dot(f, desc.Statics(), elems)
  {
    hide Sum, Shares, Dot, FilledBy, Total, Shl, LeafCount, Counts, Nested, Deep, Freqs, Forest, Quota, LensOf;
    forall x | 0 <= x < elems
      ensures At(f, x) == 0 || Dep(dep, x) >= 0
    {
      if x in leaves {
        LeafIn(done, f, dl, elems, leaves, t, x);
        var i :| 0 <= i < |done| && done[i] == x;
      }
    }
    UnmaskedDot(f, dep, desc.Extras(), elems);
    UnmaskedDot(f, dep, desc.Statics(), elems);
  }

  lemma UnmaskedDot(f: seq<nat>, dep: seq<int>, w: seq<nat>, elems: nat)
    requires |w| == elems && forall x :: 0 <= x < elems ==> At(f, x) == 0 || Dep(dep, x) >= 0
    ensures Dot(f, Masked(dep, w, elems), elems) == Dot(f, w, elems)
  {
    hide Dot;
    DotSame(f, Masked(dep, w, elems), w, elems);
  }

  lemma FoundExcess(f: seq<nat>, elems: nat, leaves: set<nat>, max: nat, cost: nat, leafCount: nat,
                    lens: seq<nat>, depths: seq<nat>, bl: seq<nat>, overflow: nat)
    requires Found(f, elems, leaves, max, cost, leafCount, lens, depths, bl, overflow) && elems <= Pow2(max)
    ensures Excess(bl, max, overflow, leafCount) && Counts(bl, lens)
    ensures |lens| == elems && forall x :: 0 <= x < elems && x !in leaves ==> lens[x] == 0
  {
    hide FilledBy, Pow2, Shl, Dot, Counts, Excess;
    LeafCountAtMost(bl, lens, 15);
    ExcessStart(f, elems, leaves, max, cost, leafCount, lens, depths, bl, overflow);
  }

  lemma FoundLimited(f: seq<nat>, elems: nat, leaves: set<nat>, max: nat, cost: nat, leafCount: nat,
                     lens: seq<nat>, depths: seq<nat>, bl: seq<nat>)
    requires Found(f, elems, leaves, max, cost, leafCount, lens, depths, bl, 0) && elems <= |f|
    requires Excess(bl, max, 0, leafCount)
    ensures Limited(f, lens, depths, elems, leaves, max, cost)
  {
    hide FilledBy, Shl, Dot, Total, Counts, Excess, Complete, RarerLonger;
    ExcessEnd(bl, max, leafCount);
    CompleteLengths(bl, lens);
    assert lens == depths;
  }

  lemma DoneFacts(done: seq<nat>, f: seq<nat>, dl: seq<nat>, elems: nat, leaves: set<nat>, t: nat, maxCode: nat)
    requires Forest(done, f, dl, elems, leaves, t) && maxCode < elems && forall x :: x in leaves ==> x <= maxCode
    ensures forall i :: 0 <= i < |done| ==> (done[i] <= maxCode <==> done[i] < elems)
    ensures forall i, j :: 0 <= i < j < |done| ==> done[i] != done[j]
    ensures forall x :: 0 <= x < elems ==> (x in done <==> x in leaves)
  {
    hide Forest;
    forall i | 0 <= i < |done|
      ensures done[i] <= maxCode <==> done[i] < elems
      ensures done[i] in leaves <==> done[i] < elems
    {
      NodeOf(done, f, dl, elems, leaves, t, i);
    }
    forall i, j | 0 <= i < j < |done|
      ensures done[i] != done[j]
    {
      Distinct(done, f, dl, elems, leaves, t, i, j);
    }
    forall x | 0 <= x < elems
      ensures x in done <==> x in leaves
    {
      if x in leaves {
        LeafIn(done, f, dl, elems, leaves, t, x);
      }
    }
  }

  lemma ReassignedLimited(done: seq<nat>, f: seq<nat>, dl: seq<nat>, elems: nat, leaves: set<nat>, t: nat, max: nat,
                          cost: nat,
                          leafCount: nat, was: seq<nat>, depths: seq<nat>, bl: seq<nat>, lens: seq<nat>, overflow: nat,
                          bl0: seq<nat>)
    requires Forest(done, f, dl, elems, leaves, t) && elems <= |f| == |dl|
    requires Found(f, elems, leaves, max, cost, leafCount, was, depths, bl0, overflow) && overflow > 0
    requires Excess(bl, max, 0, leafCount) && Counts(bl, lens) && |lens| == elems
    requires exists b: nat :: CutAt(bl0, bl, max, b)
    requires forall i, j :: 0 <= i < j < |done| && done[i] < elems && done[j] < elems ==> lens[done[i]] <= lens[done[j]]
    requires forall x :: 0 <= x < elems ==>
      (x in done <==> lens[x] > 0) && (x in done <==> x in leaves) && lens[x] <= MAXBITS
    ensures Limited(f, lens, depths, elems, leaves, max, cost)
  {
    hide FilledBy, Shl, Dot, Total, Complete, Forest, Count, RarerLonger, CutAt, Shortened;
    var b: nat :| CutAt(bl0, bl, max, b);
    CutCounts(depths, was, lens, bl0, bl, max, b);
    ExcessEnd(bl, max, leafCount);
    CompleteLengths(bl, lens);
    forall x | 0 <= x < elems
      ensures lens[x] <= max
    {
      LengthLimited(bl, lens, max, x);
    }
    RarerAreLonger(done, f, dl, elems, leaves, t, lens);
  }

  lemma LengthLimited(bl: seq<nat>, lens: seq<nat>, max: nat, x: nat)
    requires Counts(bl, lens) && x < |lens| && lens[x] <= MAXBITS && forall l :: max < l <= 15 ==> bl[l] == 0
    ensures lens[x] <= max
  {
    assert lens[x] in multiset(lens);
    assert lens[x] >= 1 ==> bl[lens[x]] == Count(lens, lens[x]);
  }

  lemma RarerAreLonger(done: seq<nat>, f: seq<nat>, dl: seq<nat>, elems: nat, leaves: set<nat>, t: nat, lens: seq<nat>)
    requires Forest(done, f, dl, elems, leaves, t) && |lens| == elems <= |f|
    requires forall i, j :: 0 <= i < j < |done| && done[i] < elems && done[j] < elems ==> lens[done[i]] <= lens[done[j]]
    ensures RarerLonger(f, lens, leaves)
  {
    hide Forest;
    forall x, y | x in leaves && y in leaves && x < elems && y < elems && f[x] < f[y]
      ensures lens[x] >= lens[y]
    {
      var i := PlaceOf(done, f, dl, elems, leaves, t, x);
      var j := PlaceOf(done, f, dl, elems, leaves, t, y);
      DoneOrder(done, f, dl, elems, leaves, t, i, j);
    }
  }

  lemma DoneOrder(done: seq<nat>, f: seq<nat>, dl: seq<nat>, elems: nat, leaves: set<nat>, t: nat, i: nat, j: nat)
    requires Forest(done, f, dl, elems, leaves, t) && i < |done| && j < |done| && At(f, done[i]) < At(f, done[j])
    ensures j < i
  {
    hide Once, Family;
  }

  // Nodes that are not in the tree are left alone.
  ghost predicate Untouched(done: seq<nat>, dep: seq<int>, l: seq<nat>, was: seq<nat>) {
    && |dep| == |l| == |was|
    && forall x :: 0 <= x < |dep| && x !in done ==> dep[x] == -1 && l[x] == was[x]
  }

  lemma UntouchedStart(done: seq<nat>, dep: seq<int>, l: seq<nat>, was: seq<nat>)
    requires done != [] && done[0] < |was| && dep == Unvisited(|was|)[done[0] := 0] && l == was[done[0] := 0]
    ensures Untouched(done, dep, l, was)
  {
    assert done[0] in done;
  }

  lemma UntouchedStep(done: seq<nat>, dep: seq<int>, l: seq<nat>, was: seq<nat>, k: nat, d: nat, bits: nat)
    requires Untouched(done, dep, l, was) && k < |done| && done[k] < |was|
    ensures |dep| == |l| == |was| && Untouched(done, dep[done[k] := d], l[done[k] := bits], was)
  {
    assert done[k] in done;
  }

  // Visiting a node keeps the invariant of the pass and the accounts.
  lemma VisitStep(done: seq<nat>, f: seq<nat>, dl: seq<nat>, leaves: set<nat>, t: nat, l: seq<nat>, dep: seq<int>,
                  k: nat, bl: seq<nat>, overflow: nat, n: nat, lp: nat, desc: Desc, opt: int, stat: int)
    requires desc.Ok() && Forest(done, f, dl, desc.elems, leaves, t)
    requires Pass(done, f, dl, desc.elems, l, dep, desc.max_length, k, bl, overflow) && k < |done|
    requires n == done[k] && lp == Dep(dep, desc.elems + FatherNo(|done|, k)) && Spent(f, dep, desc, opt, stat)
    ensures n < |l| == |dep| && |bl| == 16
    ensures var more := Clip(lp, desc.max_length) + 1;
      var bits := if more > desc.max_length then desc.max_length else more;
      bits < 16
      && Pass(done, f, dl, desc.elems, l[n := bits], dep[n := lp + 1], desc.max_length, k + 1,
              Bumped(bl, n < desc.elems, bits),
              overflow + if Clip(lp, desc.max_length) + 1 > desc.max_length then 1 else 0)
      && Spent(f, dep[n := lp + 1], desc, opt + (if n < desc.elems then Prod(At(f, n), bits + desc.Extra(n)) else 0),
               stat + if n < desc.elems then Prod(At(f, n), At(desc.Statics(), n)) else 0)
  {
    hide Forest, Pass, Clip, Spent, At, Prod, Bumped, desc.Statics;
    FatherKnown(done, f, dl, desc.elems, leaves, t, l, dep, desc.max_length, k, bl, overflow);
    PassStep(done, f, dl, desc.elems, leaves, t, l, dep, desc.max_length, k, bl, overflow, n, lp);
    ClipRange(lp + 1, desc.max_length);
    SpentStep(f, dep, desc, opt, stat, n, lp + 1);
  }

  // Symbols above code have no frequency.
  ghost predicate LargestCode(f: seq<nat>, n: nat, code: int) {
    n <= |f| && -1 <= code < n && (code >= 0 ==> f[code] != 0) && forall x :: code < x < n ==> f[x] == 0
  }

  function Ones(n: nat): (r: seq<nat>)
    ensures |r| == n
  {
    seq(n, i => 1)
  }

  // g is f, with frequency 1 for some of the first symbols without one.
  ghost predicate ForcedFrom(f: seq<nat>, g: seq<nat>, desc: Desc, opt: int, stat: int) {
    && |g| == |f| >= desc.elems
    && (forall x :: 0 <= x < |f| ==> g[x] == f[x] || (x < desc.elems && f[x] == 0 && g[x] == 1))
    && opt == Dot(f, Ones(desc.elems), desc.elems) - Dot(g, Ones(desc.elems), desc.elems)
    && stat == Dot(f, desc.Statics(), desc.elems) - Dot(g, desc.Statics(), desc.elems)
    && Dot(f, desc.Extras(), desc.elems) == Dot(g, desc.Extras(), desc.elems)
  }

  lemma ForcedStep(f: seq<nat>, g: seq<nat>, desc: Desc, opt: int, stat: int, x: nat)
    requires ForcedFrom(f, g, desc, opt, stat) && x < desc.elems && g[x] == 0 && desc.Extra(x) == 0
    ensures ForcedFrom(f, g[x := 1], desc, opt - 1, stat - (if desc.stree.None? then 0 else At(desc.stree.value, x)))
  {
    hide Dot;
    DotForced(g, Ones(desc.elems), desc.elems, x);
    DotForced(g, desc.Statics(), desc.elems, x);
    DotForced(g, desc.Extras(), desc.elems, x);
  }

  lemma CodeRange(f: seq<nat>, n: nat, code: int)
    requires LargestCode(f, n, code)
    ensures -1 <= code < n <= |f|
  {
  }

  lemma ForcedNone(f: seq<nat>, desc: Desc)
    requires desc.elems <= |f|
    ensures ForcedFrom(f, f, desc, 0, 0)
  {
  }

  lemma LargestForced(f: seq<nat>, n: nat, code: int)
    requires LargestCode(f, n, code) && 3 <= n
    ensures LargestCode(f[(if code < 2 then code + 1 else 0) := 1], n, if code < 2 then code + 1 else code)
  {
  }

  // With fewer than two symbols the symbol 0 or the one after the only symbol is free.
  lemma FreeSymbol(ids: seq<nat>, f: seq<nat>, n: nat, code: int)
    requires Collected(ids, f, n) && LargestCode(f, n, code) && |ids| < 2 && 3 <= n
    ensures f[if code < 2 then code + 1 else 0] == 0
  {
    hide Collected;
    if code >= 2 {
      CollectedIn(ids, f, n, code);
      CollectedIn(ids, f, n, 0);
      TwoIn(ids, code);
    }
  }

  lemma TwoIn(ids: seq<nat>, code: nat)
    requires |ids| < 2 && code in ids && code > 0
    ensures 0 !in ids
  {
  }

  lemma LivePush(h: seq<nat>, len: nat, x: nat)
    requires len + 1 < |h|
    ensures Live(h[len + 1 := x], len + 1) == Live(h, len) + [x]
  {
  }

  lemma NoLeaves(h: seq<nat>, f: seq<nat>)
    requires 0 < |h|
    ensures Collected(Live(h, 0), f, 0) && LargestCode(f, 0, -1)
  {
    assert Freqs(Live(h, 0), f) == [];
  }

  lemma AtIs(f: seq<nat>, n: nat)
    requires n < |f|
    ensures At(f, n) == f[n]
  {
  }

  lemma CodeExists(ids: seq<nat>, f: seq<nat>, n: nat, code: int)
    requires Collected(ids, f, n) && LargestCode(f, n, code) && ids != []
    ensures code >= 0
  {
    hide Collected;
    CollectedIn(ids, f, n, ids[0]);
  }

  lemma NoSons(f: seq<nat>, d: seq<nat>, h: seq<nat>, len: nat)
    requires len < |h|
    ensures HeapFrom(f, d, h, len, len / 2 + 1)
  {
  }

  lemma StartIds(ids: seq<nat>, f: seq<nat>, dl: seq<nat>, elems: nat)
    requires Collected(ids, f, elems) && elems <= |f|
    ensures forall i :: 0 <= i < |ids| ==> ids[i] < elems
  {
    hide Collected;
    forall i | 0 <= i < |ids|
      ensures ids[i] < elems
    {
      CollectedIn(ids, f, elems, ids[i]);
      assert ids[i] in ids;
    }
  }

  lemma {:induction false} SameLeafSet(f: seq<nat>, g: seq<nat>, n: nat)
    requires forall i :: 0 <= i < n ==> At(f, i) == At(g, i)
    ensures LeafSet(f, n) == LeafSet(g, n)
  {
    if n > 0 {
      SameLeafSet(f, g, n - 1);
    }
  }

  lemma SameLeaves(f: seq<nat>, g: seq<nat>, n: nat)
    requires n <= |f| && g == f[..n]
    ensures LeafSet(f, n) == LeafSet(g, n) && NonZero(f, n) == NonZero(g, n)
  {
    SameLeafSet(f, g, n);
    NonZeroSame(f, g, n);
  }

  lemma HeightsStart(d: seq<nat>, f: seq<nat>, elems: nat, leaves: set<nat>)
    requires |f| == elems <= |d| && leaves == LeafSet(f, elems) && forall x :: 0 <= x < elems && f[x] != 0 ==> d[x] == 0
    ensures Heights([], d, elems, leaves, 0)
  {
    forall x | x in leaves
      ensures x < elems && d[x] == 0
    {
      LeafIff(f, elems, x);
    }
  }

  lemma LastLive(h: seq<nat>)
    requires 1 < |h|
    ensures Live(h, 1) == [h[1]]
  {
  }

  /**
    The outcome of build_tree for the frequencies f: exactly the symbols that occur, and
    the forced ones, get codes; the code is complete and obeys the limit; the depths are an
    optimal assignment, and the lengths are the depths unless these break the limit; then
    they are the depths cut to it.
   */
  ghost predicate TreeBuilt(f: seq<nat>, freqs: seq<nat>, lens: seq<nat>, depths: seq<nat>, desc: Desc, maxCode: nat) {
    var n := desc.elems;
    && |f| == |freqs| == |lens| == |depths| == n && maxCode < n && desc.max_length <= 15
    && (forall x :: 0 <= x < n ==> freqs[x] == f[x] || (f[x] == 0 && freqs[x] == 1))
    && (|NonZero(f, n)| >= 2 ==> freqs == f)
    && (|NonZero(f, n)| < 2 ==> |NonZero(freqs, n)| == 2)
    && (forall x :: 0 <= x < n ==>
          lens[x] <= desc.max_length && (freqs[x] > 0 <==> lens[x] > 0) && (freqs[x] > 0 <==> depths[x] > 0))
    && lens[maxCode] > 0 && (forall x :: maxCode < x < n ==> lens[x] == 0)
    && Complete(lens) && Complete(lens[..maxCode + 1])
    && Best(multiset(NonZero(freqs, n)), Dot(freqs, depths, n))
    && ((forall x :: 0 <= x < n ==> depths[x] <= desc.max_length) ==> lens == depths)
    && ((exists x :: 0 <= x < n && depths[x] > desc.max_length) ==>
          && Shortened(depths, lens, desc.max_length)
          && forall x, y :: 0 <= x < n && 0 <= y < n && 0 < freqs[x] < freqs[y] ==> lens[x] >= lens[y])
  }

  lemma ForcedSum(f: seq<nat>, g: seq<nat>, desc: Desc, opt: int, stat: int)
    requires ForcedFrom(f, g, desc, opt, stat) && opt >= -2
    ensures Sum(g[..desc.elems]) <= Sum(f[..desc.elems]) + 2
  {
    hide Dot, Sum;
    DotOnes(f, Ones(desc.elems), desc.elems);
    DotOnes(g, Ones(desc.elems), desc.elems);
  }

  // The cost of the forced symbols has been taken off in advance.
  lemma ForcedCost(f: seq<nat>, g: seq<nat>, lens: seq<nat>, desc: Desc, opt: int, stat: int)
    requires ForcedFrom(f, g, desc, opt, stat) && |lens| == desc.elems
    requires g == f || forall x :: 0 <= x < desc.elems && g[x] > 0 ==> lens[x] == 1
    ensures opt + Dot(g, lens, desc.elems) + Dot(g, desc.Extras(), desc.elems)
            == Dot(f, lens, desc.elems) + Dot(f, desc.Extras(), desc.elems)
    ensures stat + Dot(g, desc.Statics(), desc.elems) == Dot(f, desc.Statics(), desc.elems)
  {
    hide Dot;
    if g != f {
      DotSame(f, lens, Ones(desc.elems), desc.elems);
      DotSame(g, lens, Ones(desc.elems), desc.elems);
    }
  }

  // Two symbols have codes of one bit.
  lemma OneBitCodes(f: seq<nat>, lens: seq<nat>, depths: seq<nat>, desc: Desc, leaves: set<nat>, cost: nat,
                    bl: seq<nat>)
    requires Limited(f, lens, depths, desc.elems, leaves, desc.max_length, cost) && Counts(bl, lens)
    requires desc.elems == |f|
    requires leaves == LeafSet(f, desc.elems) && |NonZero(f, desc.elems)| == 2
    ensures forall x :: 0 <= x < desc.elems && f[x] > 0 ==> lens[x] == 1
  {
    hide Counts, Dot, NonZero, RarerLonger, LeafSet;
    forall x | 0 <= x < desc.elems
      ensures lens[x] > 0 <==> f[x] > 0
    {
      LeafIff(f, desc.elems, x);
    }
    UptoLeaves(lens, f);
    TotalIs(bl, lens, 15);
    CountsAre(bl, lens);
    FilledByIsFilled(bl, lens, 15);
    Pow2Values();
    forall x | 0 <= x < desc.elems && f[x] > 0
      ensures lens[x] == 1
    {
      TwoCodes(bl, lens, x);
    }
  }

  lemma CountsAt(c: seq<nat>, s: seq<nat>)
    requires Counts(c, s)
    ensures |c| == MAXBITS + 1 && c[0] == 0 && forall l :: 1 <= l <= MAXBITS ==> c[l] == Count(s, l)
  {
  }

  lemma ForcedZero(f: seq<nat>, g: seq<nat>, desc: Desc, opt: int, stat: int)
    requires ForcedFrom(f, g, desc, opt, stat)
    ensures |g| == |f| && forall x :: 0 <= x < |f| && g[x] == 0 ==> f[x] == 0
  {
  }

  lemma LeavesFinished(f1: seq<nat>, f2: seq<nat>, freqs: seq<nat>, elems: nat, maxCode: nat)
    requires elems <= |f1| == |f2| && freqs == f1[..elems] == f2[..elems] && LargestCode(f1, elems, maxCode)
    ensures forall x :: 0 <= x < elems ==> (x in LeafSet(freqs, elems) <==> f2[x] > 0)
    ensures forall x :: x in LeafSet(freqs, elems) ==> x <= maxCode
    ensures maxCode < elems && forall x :: 0 <= x < elems && x !in LeafSet(freqs, elems) ==> f1[x] == 0 == f2[x]
  {
    forall x: nat
      ensures x in LeafSet(freqs, elems) <==> x < elems && f1[x] > 0
    {
      LeafIff(freqs, elems, x);
    }
    forall x | 0 <= x < elems
      ensures f1[x] == f2[x]
    {
      assert freqs[x] == f1[x];
    }
  }

  // From the parts of build_tree to its outcome.
  lemma Outcome(f0: seq<nat>, f1: seq<nat>, f2: seq<nat>, freqs: seq<nat>, lens: seq<nat>, depths: seq<nat>, desc: Desc,
                leaves: set<nat>, t: nat, c: seq<nat>, maxCode: nat, opt: int, stat: int)
    requires desc.Ok() && desc.elems <= |f0| == |f1| == |f2| && freqs == f1[..desc.elems] == f2[..desc.elems]
    requires ForcedFrom(f0, f1, desc, opt, stat) && LargestCode(f1, desc.elems, maxCode)
    requires leaves == LeafSet(freqs, desc.elems)
    requires |NonZero(f0, desc.elems)| >= 2 ==> f1 == f0
    requires |NonZero(f0, desc.elems)| < 2 ==> |NonZero(f1, desc.elems)| == 2
    requires Limited(f2, lens, depths, desc.elems, leaves, desc.max_length, InnerSum(f2, desc.elems, t))
    requires Counts(c, lens)
    requires Best(multiset(NonZero(freqs, desc.elems)), InnerSum(f2, desc.elems, t))
    ensures |lens| == desc.elems && maxCode < desc.elems
    ensures TreeBuilt(f0[..desc.elems], freqs, lens, depths, desc, maxCode)
    ensures opt + Dot(f2, lens, desc.elems) + Dot(f2, desc.Extras(), desc.elems)
            == Dot(f0[..desc.elems], lens, desc.elems) + Dot(f0[..desc.elems], desc.Extras(), desc.elems)
    ensures stat + Dot(f2, desc.Statics(), desc.elems) == Dot(f0[..desc.elems], desc.Statics(), desc.elems)
    ensures LengthsOk(lens[..maxCode + 1]) && !Oversubscribed(lens[..maxCode + 1])
    ensures Counts(c, lens[..maxCode + 1])
  {
    hide Limited, LeafSet, NonZero, Best, InnerSum, Dot, Counts, ForcedFrom, LargestCode, TreeBuilt, Complete,
         LengthsOk, Oversubscribed,
         desc.Ok, desc.Statics, desc.Extras;
    var n, cost := desc.elems, InnerSum(f2, desc.elems, t);
    OutcomeTree(f0, f1, f2, freqs, lens, depths, desc, leaves, cost, maxCode, opt, stat);
    OutcomeTrim(f0[..n], freqs, lens, depths, desc, c, maxCode);
    OutcomeCost(f0, f1, f2, freqs, lens, depths, desc, leaves, cost, c, opt, stat);
  }

  lemma OutcomeTree(f0: seq<nat>, f1: seq<nat>, f2: seq<nat>, freqs: seq<nat>, lens: seq<nat>, depths: seq<nat>,
                    desc: Desc,
                    leaves: set<nat>, cost: nat, maxCode: nat, opt: int, stat: int)
    requires desc.elems <= |f0| == |f1| == |f2| && freqs == f1[..desc.elems] == f2[..desc.elems]
    requires ForcedFrom(f0, f1, desc, opt, stat) && LargestCode(f1, desc.elems, maxCode)
    requires leaves == LeafSet(freqs, desc.elems)
    requires |NonZero(f0, desc.elems)| >= 2 ==> f1 == f0
    requires |NonZero(f0, desc.elems)| < 2 ==> |NonZero(f1, desc.elems)| == 2
    requires Limited(f2, lens, depths, desc.elems, leaves, desc.max_length, cost)
    requires Best(multiset(NonZero(freqs, desc.elems)), cost)
    ensures TreeBuilt(f0[..desc.elems], freqs, lens, depths, desc, maxCode)
  {
    hide NonZero, Best, Dot, Complete, LeafSet, RarerLonger, Shortened;
    var n := desc.elems;
    NonZeroSame(f0, f0[..n], n);
    NonZeroSame(f1, freqs, n);
    DotPrefix(f2, depths, n, n);
    forall x: nat
      ensures x in leaves <==> x < n && freqs[x] > 0
    {
      LeafIff(freqs, n, x);
    }
    TrimComplete(lens, maxCode + 1);
    RarerFreqs(f2, freqs, lens, leaves, n);
  }

  lemma TrimComplete(lens: seq<nat>, n: nat)
    requires n <= |lens| && Complete(lens) && forall x :: n <= x < |lens| ==> lens[x] == 0
    ensures Complete(lens[..n])
  {
    hide Filled, Pow2;
    FilledTrim(lens, n, 15);
  }

  lemma RarerFreqs(f: seq<nat>, freqs: seq<nat>, lens: seq<nat>, leaves: set<nat>, n: nat)
    requires n <= |f| && freqs == f[..n] && |lens| == n && forall x: nat :: x in leaves <==> x < n && freqs[x] > 0
    ensures RarerLonger(f, lens, leaves) ==>
      forall x, y :: 0 <= x < n && 0 <= y < n && 0 < freqs[x] < freqs[y] ==> lens[x] >= lens[y]
  {
  }

  lemma OutcomeTrim(f: seq<nat>, freqs: seq<nat>, lens: seq<nat>, depths: seq<nat>, desc: Desc, c: seq<nat>,
                    maxCode: nat)
    requires TreeBuilt(f, freqs, lens, depths, desc, maxCode) && Counts(c, lens)
    ensures |lens| == desc.elems && maxCode < desc.elems
    ensures LengthsOk(lens[..maxCode + 1]) && !Oversubscribed(lens[..maxCode + 1])
    ensures Counts(c, lens[..maxCode + 1])
  {
    hide Filled, NonZero, Best, Dot, Pow2, Count;
    forall l | 1 <= l <= MAXBITS
      ensures Count(lens[..maxCode + 1], l) == Count(lens, l)
    {
      CountTrim(lens, maxCode + 1, l);
    }
  }

  lemma OutcomeCost(f0: seq<nat>, f1: seq<nat>, f2: seq<nat>, freqs: seq<nat>, lens: seq<nat>, depths: seq<nat>,
                    desc: Desc,
                    leaves: set<nat>, cost: nat, c: seq<nat>, opt: int, stat: int)
    requires desc.elems <= |f0| == |f1| == |f2| && freqs == f1[..desc.elems] == f2[..desc.elems]
    requires ForcedFrom(f0, f1, desc, opt, stat) && leaves == LeafSet(freqs, desc.elems)
    requires |NonZero(f0, desc.elems)| >= 2 ==> f1 == f0
    requires |NonZero(f0, desc.elems)| < 2 ==> |NonZero(f1, desc.elems)| == 2
    requires Limited(f2, lens, depths, desc.elems, leaves, desc.max_length, cost) && Counts(c, lens)
    ensures opt + Dot(f2, lens, desc.elems) + Dot(f2, desc.Extras(), desc.elems)
            == Dot(f0[..desc.elems], lens, desc.elems) + Dot(f0[..desc.elems], desc.Extras(), desc.elems)
    ensures stat + Dot(f2, desc.Statics(), desc.elems) == Dot(f0[..desc.elems], desc.Statics(), desc.elems)
  {
    hide NonZero, Dot, LeafSet, ForcedFrom, Limited, Counts, desc.Statics, desc.Extras;
    var n := desc.elems;
    LimitedSize(f2, lens, depths, n, leaves, desc.max_length, cost);
    SameDots(f0, f0[..n], desc, lens);
    SameDots(f1, freqs, desc, lens);
    SameDots(f2, freqs, desc, lens);
    if f1 != f0 {
      NonZeroSame(f1, freqs, n);
      LimitedPrefix(f2, freqs, lens, depths, n, leaves, desc.max_length, cost);
      OneBitCodes(freqs, lens, depths, desc, leaves, cost, c);
      assert forall x :: 0 <= x < n ==> f1[x] == freqs[x];
    }
    ForcedCost(f0, f1, lens, desc, opt, stat);
  }

  lemma LimitedSize(f: seq<nat>, lens: seq<nat>, depths: seq<nat>, elems: nat, leaves: set<nat>, max: nat, cost: nat)
    requires Limited(f, lens, depths, elems, leaves, max, cost)
    ensures |lens| == elems
  {
  }

  lemma SameDots(f: seq<nat>, g: seq<nat>, desc: Desc, lens: seq<nat>)
    requires desc.elems <= |f| && g == f[..desc.elems]
    ensures Dot(g, lens, desc.elems) == Dot(f, lens, desc.elems)
    ensures Dot(g, desc.Extras(), desc.elems) == Dot(f, desc.Extras(), desc.elems)
    ensures Dot(g, desc.Statics(), desc.elems) == Dot(f, desc.Statics(), desc.elems)
  {
    hide Dot;
    DotPrefix(f, lens, desc.elems, desc.elems);
    DotPrefix(f, desc.Extras(), desc.elems, desc.elems);
    DotPrefix(f, desc.Statics(), desc.elems, desc.elems);
  }

  lemma LimitedPrefix(f: seq<nat>, g: seq<nat>, lens: seq<nat>, depths: seq<nat>, elems: nat, leaves: set<nat>,
                      max: nat, cost: nat)
    requires Limited(f, lens, depths, elems, leaves, max, cost) && elems <= |f| && g == f[..elems]
    ensures Limited(g, lens, depths, elems, leaves, max, cost)
  {
    hide Dot, Complete;
    DotPrefix(f, depths, elems, elems);
  }

  class Builder {
    const heap: array<nat>
    const depth: array<nat>
    const bl_count: array<nat>
    var heap_len: nat
    var heap_max: nat
    var opt_len: int
    var static_len: int

    constructor ()
      ensures Valid() && fresh(heap) && fresh(depth) && fresh(bl_count)
      ensures opt_len == 0 && static_len == 0
    {
      heap, depth, bl_count := new nat[HEAP_SIZE], new nat[HEAP_SIZE], new nat[16];
      heap_len, heap_max, opt_len, static_len := 0, 0, 0, 0;
    }

    predicate Valid() {
      && heap.Length == depth.Length == HEAP_SIZE && bl_count.Length == 16
      && heap != depth && heap != bl_count && depth != bl_count
    }

    // A tree kept in arrays of its own.
    predicate Apart(a: array<nat>) {
      a != heap && a != depth && a != bl_count && a.Length <= HEAP_SIZE
    }

    // pqremove: take the least node out of the heap.
    method PqRemove(fc: array<nat>) returns (n: nat)
      requires Valid() && Apart(fc) && 2 <= heap_len < HEAP_SIZE
      requires IdsBelow(heap[..], heap_len, fc.Length) && HeapFrom(fc[..], depth[..], heap[..], heap_len, 1)
      modifies heap, this`heap_len
      ensures heap_len == old(heap_len) - 1 && n < fc.Length
      ensures IdsBelow(heap[..], heap_len, fc.Length) && HeapFrom(fc[..], depth[..], heap[..], heap_len, 1)
      ensures multiset(old(Live(heap[..], heap_len))) == multiset([n] + Live(heap[..], heap_len))
      ensures forall i :: 0 <= i < heap_len ==> At(fc[..], n) <= At(fc[..], Live(heap[..], heap_len)[i])
      ensures forall i :: old(heap_len) < i < HEAP_SIZE ==> heap[i] == old(heap[i])
    {
      hide HeapFrom, Smaller, At, Rearranged, IdsBelow, Live;
      ghost var h, f, d, len := heap[..], fc[..], depth[..], heap_len;
      RootLeast(f, d, h, len);
      LastToRoot(h, len);
      RootReplaced(f, d, h, len);
      assert heap[1] < fc.Length by { RootId(h, len, fc.Length); }
      n := heap[1];
      heap[1] := heap[heap_len];
      heap_len := heap_len - 1;
      ghost var g := heap[..];
      assert g == h[1 := h[len]];
      PqDownHeap(fc, depth, heap, heap_len, 1);
      assert multiset(Live(g, heap_len)) == multiset(Live(heap[..], heap_len)) by { LiveSame(heap, g, heap_len); }
      SmallerRest(n, Live(g, heap_len), Live(heap[..], heap_len), Live(h, len), f);
      TailKept(h, h[len], g, heap[..], len);
    }
  
    ghost predicate Stage(fc: array<nat>, dl: array<nat>, elems: nat, leaves: set<nat>, t: nat, ws0: multiset<nat>,
                          total: nat)
      reads this, heap, depth, fc, dl
    {
      && Valid() && Apart(fc) && Apart(dl) && fc != dl && total <= 0xffff
      && 1 <= heap_len < heap_max == HEAP_SIZE - 2 * t
      && HeapFrom(fc[..], depth[..], heap[..], heap_len, 1)
      && Merging(Live(heap[..], heap_len), heap[heap_max..], fc[..], dl[..], elems, leaves, t, ws0, total)
      && Heights(heap[heap_max..], depth[..], elems, leaves, t)
    }

    // Take the two least frequent nodes out and keep them behind the heap.
    method TakeTwo(fc: array<nat>) returns (n: nat, m: nat)
      requires Valid() && Apart(fc) && 2 <= heap_len < heap_max - 1 && heap_max <= HEAP_SIZE
      requires IdsBelow(heap[..], heap_len, fc.Length) && HeapFrom(fc[..], depth[..], heap[..], heap_len, 1)
      modifies heap, this`heap_len, this`heap_max
      ensures heap_len == old(heap_len) - 1 && heap_max == old(heap_max) - 2
      ensures n < fc.Length && m < fc.Length && m == heap[1]
      ensures HeapFrom(fc[..], depth[..], heap[..], heap_len, 1)
      ensures Taken(old(Live(heap[..], heap_len)), n, m, heap[2..heap_len + 1], fc[..])
      ensures heap[heap_max..] == [m, n] + old(heap[heap_max..])
    {
      hide HeapFrom, IdsBelow, Live, Taken, Smaller, At;
      ghost var f, d, ids, done := fc[..], depth[..], Live(heap[..], heap_len), heap[heap_max..];
      ghost var hi := heap_max;
      n := PqRemove(fc);
      RootId(heap[..], heap_len, fc.Length);
      assert heap[hi..] == done;
      m := heap[1];
      ghost var h := heap[..];
      heap_max := heap_max - 1;
      heap[heap_max] := n;
      heap_max := heap_max - 1;
      heap[heap_max] := m;
      assert heap[heap_max..] == [m, n] + done;
      ghost var g := heap[..];
      TakenFrom(ids, n, h, heap_len, f, d);
      HeapSame(f, d, h, g, heap_len);
      assert heap[2..heap_len + 1] == h[2..heap_len + 1];
    }

    // The new node gets the sum of the two frequencies and becomes their father.
    method Father(fc: array<nat>, dl: array<nat>, n: nat, m: nat, node: nat) returns (ghost e: nat)
      requires Valid() && Apart(fc) && Apart(dl) && fc != dl && fc.Length == dl.Length
      requires n < node && m < node && node < fc.Length && fc[n] + fc[m] <= 0xffff
      modifies depth, fc, dl
      ensures fc[..] == old(fc[..])[node := old(fc[n] + fc[m])]
      ensures dl[..] == old(dl[..])[n := node][m := node]
      ensures e == (old(if depth[n] >= depth[m] then depth[n] else depth[m]) + 1) % 256
      ensures depth[..] == old(depth[..])[node := e]
    {
      ghost var l: seq<nat> := dl[..];
      fc[node] := (fc[n] + fc[m]) % 0x10000;
      depth[node] := ((if depth[n] >= depth[m] then depth[n] else depth[m]) + 1) % 256;
      e := depth[node];
      dl[m] := node;
      dl[n] := node;
      assert dl[..] == l[n := node][m := node];
    }

    // Put the new node into the heap in the place of the root.
    method NewFather(fc: array<nat>, node: nat, ghost f: seq<nat>, ghost d: seq<nat>, ghost w: nat, ghost e: nat)
      requires Valid() && Apart(fc) && node < fc.Length == |f| <= |d|
      requires 1 <= heap_len < heap_max <= HEAP_SIZE && IdsBelow(heap[..], heap_len, node)
      requires HeapFrom(f, d, heap[..], heap_len, 1) && fc[..] == f[node := w] && depth[..] == d[node := e]
      modifies heap
      ensures HeapFrom(fc[..], depth[..], heap[..], heap_len, 1)
      ensures multiset(Live(heap[..], heap_len)) == multiset([node] + old(heap[2..heap_len + 1]))
      ensures heap[heap_max..] == old(heap[heap_max..])
    {
      hide HeapFrom, IdsBelow, Live, Smaller, Rearranged;
      ghost var h := heap[..];
      NewRoot(f, d, h, heap_len, node, w, e);
      heap[1] := node;
      ghost var g := heap[..];
      assert g == h[1 := node];
      PqDownHeap(fc, depth, heap, heap_len, 1);
      SameDone(h, node, g, heap[..], heap_len, heap_max);
      LiveSame(heap, g, heap_len);
      RootSplit(h, heap_len, node);
      assert heap[heap_max..] == heap[..][heap_max..];
    }

    // Combine the two least frequent nodes under a new one.
    method Combine(fc: array<nat>, dl: array<nat>, ghost elems: nat, ghost leaves: set<nat>, ghost t: nat,
                   ghost ws0: multiset<nat>, ghost total: nat, node: nat)
      requires Stage(fc, dl, elems, leaves, t, ws0, total) && node == elems + t < fc.Length
      requires 2 <= heap_len < heap_max - 1
      modifies heap, depth, fc, dl, this`heap_len, this`heap_max
      ensures Stage(fc, dl, elems, leaves, t + 1, ws0, total)
      ensures heap_len == old(heap_len) - 1
      ensures forall x :: 0 <= x < elems ==> fc[x] == old(fc[x]) && (x !in leaves ==> dl[x] == old(dl[x]))
    {
      hide HeapFrom, Merging, IdsBelow, Live, Taken, Once, Heights;
      ghost var f, l, ids, done := fc[..], dl[..], Live(heap[..], heap_len), heap[heap_max..];
      MergingBelow(ids, done, f, l, elems, leaves, t, ws0, total);
      LiveIds(heap[..], heap_len, fc.Length);
      var n, m := TakeTwo(fc);
      ghost var tail := heap[2..heap_len + 1];
      MergeStep(ids, n, m, tail, done, f, l, elems, leaves, t, node, ws0, total);
      TailIds(ids, n, m, tail, f, done, l, elems, leaves, t, ws0, total, heap[..], heap_len);
      ghost var d, w := depth[..], fc[n] + fc[m];
      DoneBelow(ids, done, f, l, elems, leaves, t, ws0, total);
      HeightsStep(done, d, elems, leaves, t, n, m, node);
      ghost var e := Father(fc, dl, n, m, node);
      NewFather(fc, node, f, d, w, e);
      MergingPermutation([node] + tail, Live(heap[..], heap_len), [m, n] + done, fc[..], dl[..], elems, leaves, t + 1,
            ws0, total);
    }
  
    // One root is left, and the removed nodes fill the upper end of the heap array.
    ghost predicate Finished(fc: array<nat>, dl: array<nat>, desc: Desc, maxCode: nat, leaves: set<nat>, t: nat)
      reads this, heap, fc, dl
    {
      && Valid() && Apart(fc) && Apart(dl) && fc != dl && desc.Ok() && maxCode < desc.elems <= fc.Length == dl.Length
      && heap_max <= HEAP_SIZE && Forest(heap[heap_max..], fc[..], dl[..], desc.elems, leaves, t)
      && (forall x :: 0 <= x < desc.elems && x !in leaves ==> fc[x] == 0 == dl[x])
      && (forall x :: x in leaves ==> x <= maxCode)
    }

    // Add the bits of symbol n, sent with the given code length, to the lengths of the block.
    method Charge(fc: array<nat>, desc: Desc, n: nat, bits: nat)
      requires desc.Ok() && n < desc.elems <= fc.Length
      modifies this`opt_len, this`static_len
      ensures opt_len == old(opt_len) + Prod(At(fc[..], n), bits + desc.Extra(n))
      ensures static_len == old(static_len) + Prod(At(fc[..], n), At(desc.Statics(), n))
    {
      var xbits := 0;
      if n >= desc.base {
        xbits := desc.extra[n - desc.base];
      }
      var f := fc[n];
      opt_len := opt_len + f * (bits + xbits);
      if desc.stree.Some? {
        static_len := static_len + f * (desc.stree.value[n] + xbits);
      }
    }

    method ResetCounts()
      requires Valid()
      modifies bl_count
      ensures bl_count[..] == Zeros(16)
    {
      for bits := 0 to 16
        invariant forall i :: 0 <= i < bits ==> bl_count[i] == 0
      {
        bl_count[bits] := 0;
      }
    }

    // Give node n its length, one more than its father's unless that is too long.
    method Visit(fc: array<nat>, dl: array<nat>, desc: Desc, maxCode: nat, n: nat, overflow: nat)
      returns (bits: nat, over: nat)
      requires Valid() && Apart(fc) && Apart(dl) && fc != dl && desc.Ok()
      requires maxCode < desc.elems <= fc.Length == dl.Length
      requires n < dl.Length && dl[n] < dl.Length
      modifies dl, bl_count, this`opt_len, this`static_len
      ensures bits == (if old(dl[dl[n]]) + 1 > desc.max_length then desc.max_length else old(dl[dl[n]]) + 1)
      ensures over == overflow + if old(dl[dl[n]]) + 1 > desc.max_length then 1 else 0
      ensures dl[..] == old(dl[..])[n := bits]
      ensures bits < 16 && bl_count[..] == Bumped(old(bl_count[..]), n <= maxCode, bits)
      ensures opt_len == old(opt_len) + if n <= maxCode then Prod(At(fc[..], n), bits + desc.Extra(n)) else 0
      ensures static_len == old(static_len) + if n <= maxCode then Prod(At(fc[..], n), At(desc.Statics(), n)) else 0
    {
      hide At, Prod;
      ghost var l, c := dl[..], bl_count[..];
      bits, over := dl[dl[n]] + 1, overflow;
      if bits > desc.max_length {
        bits := desc.max_length;
        over := overflow + 1;
      }
      dl[n] := bits;
      assert dl[..] == l[n := bits];
      if n > maxCode {
        return;
      }
      bl_count[bits] := bl_count[bits] + 1;
      assert bl_count[..] == c[bits := c[bits] + 1];
      Charge(fc, desc, n, bits);
    }

    /**
      First pass of gen_bitlen: hand the lengths down the tree, clipped to max_length, and
      count them.
     */
    method FirstPass(fc: array<nat>, dl: array<nat>, desc: Desc, maxCode: nat, ghost leaves: set<nat>, ghost t: nat)
      returns (overflow: nat, ghost dep: seq<int>)
      requires Finished(fc, dl, desc, maxCode, leaves, t)
      modifies dl, bl_count, this`opt_len, this`static_len
      ensures |dep| == fc.Length
      ensures Pass(heap[heap_max..], fc[..], old(dl[..]), desc.elems, dl[..], dep, desc.max_length,
                   HEAP_SIZE - heap_max, bl_count[..], overflow)
      ensures Spent(fc[..], dep, desc, opt_len - old(opt_len), static_len - old(static_len))
      ensures Untouched(heap[heap_max..], dep, dl[..], old(dl[..]))
    {
      hide Forest, Pass, Clip, Spent, At, Prod, Bumped, Untouched;
      ghost var done, f, l, elems, max := heap[heap_max..], fc[..], dl[..], desc.elems, desc.max_length;
      ResetCounts();
      PassStart(done, f, l, elems, leaves, t, max, bl_count[..]);
      StartNodes(done, f, l, elems, leaves, t);
      overflow := 0;
      dep := Unvisited(|l|)[done[0] := 0];
      dl[heap[heap_max]] := 0;
      assert done[0] == heap[heap_max];
      assert dl[..] == l[done[0] := 0];
      SpentStart(f, dep, desc);
      ghost var opt, stat := 0, 0;
      UntouchedStart(done, dep, dl[..], l);
      var h := heap_max + 1;
      while h < HEAP_SIZE
        invariant Spent(f, dep, desc, opt, stat) && opt_len == old(opt_len) + opt
        invariant static_len == old(static_len) + stat
        invariant |dep| == fc.Length == dl.Length && Untouched(done, dep, dl[..], l)
        invariant heap_max < h <= HEAP_SIZE && fc[..] == f && heap[heap_max..] == done && |dep| == fc.Length
        invariant Pass(done, f, l, elems, dl[..], dep, max, h - heap_max, bl_count[..], overflow)
      {
        var n := heap[h];
        ghost var k := h - heap_max;
        assert done[k] == n;
        FatherKnown(done, f, l, elems, leaves, t, dl[..], dep, max, k, bl_count[..], overflow);
        ghost var lp := Dep(dep, elems + FatherNo(|done|, k));
        ghost var l1, c1, o1 := dl[..], bl_count[..], overflow;
        assert n <= maxCode <==> n < elems;
        var bits;
        bits, overflow := Visit(fc, dl, desc, maxCode, n, overflow);
        VisitStep(done, f, l, leaves, t, l1, dep, k, c1, o1, n, lp, desc, opt, stat);
        UntouchedStep(done, dep, l1, l, k, lp + 1, bits);
        dep := dep[n := lp + 1];
        opt, stat := opt_len - old(opt_len), static_len - old(static_len);
        h := h + 1;
      }
    }
  
    // The longest length below the limit that has a leaf to give.
    method ShorterLevel(max: nat, ghost overflow: nat, ghost n: nat) returns (bits: nat)
      requires Valid() && Excess(bl_count[..], max, overflow, n) && overflow > 0
      ensures LongestBelow(bl_count[..], max, bits)
    {
      hide FilledBy, Shl, Pow2, Total, Repaired;
      ShorterExists(bl_count[..], max, overflow, n);
      ghost var b :| 1 <= b < max && bl_count[..][b] > 0;
      RepairStep(bl_count[..], b, max, overflow, n);
      bits := max - 1;
      while bl_count[bits] == 0
        invariant b <= bits < max && forall l :: bits < l < max ==> bl_count[l] == 0
        decreases bits
      {
        bits := bits - 1;
      }
    }

    /**
      Repair the length counts.  Each step trades a leaf of the longest length below the limit
      for two one level further down, which frees one unit at the limit, until the excess is
      gone.
     */
    method Repair(max: nat, overflow: nat, ghost n: nat)
      requires Valid() && Excess(bl_count[..], max, overflow, n)
      modifies bl_count
      ensures Excess(bl_count[..], max, 0, n)
      ensures overflow > 0 ==> exists b: nat :: CutAt(old(bl_count[..]), bl_count[..], max, b)
    {
      hide Excess, Repaired, CutAt;
      var over: nat := overflow;
      ghost var c0: seq<nat>, b: nat := bl_count[..], 0;
      while over > 0
        invariant Excess(bl_count[..], max, over, n)
        invariant if over == overflow then bl_count[..] == c0 else over < overflow && CutAt(c0, bl_count[..], max, b)
      {
        var bits := ShorterLevel(max, over, n);
        ghost var c := bl_count[..];
        ExcessRange(c, max, over, n);
        RepairStep(c, bits, max, over, n);
        if over == overflow {
          CutFirst(c, max, bits);
          b := bits;
        } else {
          CutNext(c0, c, max, b, bits);
          b := if bits < b then bits else b;
        }
        bl_count[bits] := bl_count[bits] - 1;
        bl_count[bits + 1] := bl_count[bits + 1] + 2;
        bl_count[max] := bl_count[max] - 1;
        RepairedIs(c, bits, max, bl_count[..]);
        over := over - 2;
      }
    }

    // Give symbol m a new code length.
    method Recode(fc: array<nat>, dl: array<nat>, m: nat, bits: nat, ghost elems: nat)
      requires Valid() && Apart(fc) && Apart(dl) && fc != dl && m < elems <= fc.Length == dl.Length
      modifies dl, this`opt_len
      ensures dl[..] == old(dl[..])[m := bits]
      ensures opt_len - Dot(fc[..], dl[..elems], elems) == old(opt_len) - Dot(fc[..], old(dl[..elems]), elems)
    {
      hide Dot;
      ghost var l: seq<nat>, s := dl[..], dl[..elems];
      DotUpdate(fc[..], s, elems, m, bits);
      ProdChange(fc[m], dl[m], bits);
      if dl[m] != bits {
        opt_len := opt_len + (bits - dl[m]) * fc[m];
        dl[m] := bits;
      }
      assert dl[..] == l[m := bits];
      assert dl[..elems] == s[m := bits];
    }

    /**
      Give the repaired lengths out again, in the order in which the symbols left the heap,
      so that rarer symbols get the longer ones.
     */
    method Reassign(fc: array<nat>, dl: array<nat>, desc: Desc, maxCode: nat, ghost done: seq<nat>)
      requires Valid() && Apart(fc) && Apart(dl) && fc != dl && desc.Ok()
      requires maxCode < desc.elems <= fc.Length == dl.Length
      requires heap_max <= HEAP_SIZE && done == heap[heap_max..]
      requires Excess(bl_count[..], desc.max_length, 0, LeafCount(done, desc.elems))
      requires forall x :: 0 <= x < desc.elems && x !in done ==> dl[x] == 0
      requires forall i :: 0 <= i < |done| ==> (done[i] <= maxCode <==> done[i] < desc.elems)
      requires forall i, j :: 0 <= i < j < |done| ==> done[i] != done[j]
      modifies dl, this`opt_len
      ensures Counts(bl_count[..], dl[..desc.elems])
      ensures forall i, j :: 0 <= i < j < |done| && done[i] < desc.elems && done[j] < desc.elems ==>
        dl[done[i]] <= dl[done[j]]
      ensures forall x :: 0 <= x < desc.elems ==> (x in done <==> dl[x] > 0) && dl[x] <= MAXBITS
      ensures opt_len - Dot(fc[..], dl[..desc.elems], desc.elems)
              == old(opt_len - Dot(fc[..], dl[..desc.elems], desc.elems))
    {
      hide Dealt, Dot, LeafCount, Excess, Counts;
      ghost var elems, c := desc.elems, bl_count[..];
      ghost var v: seq<nat> := Zeros(elems);
      var h: nat, bits: nat := HEAP_SIZE, desc.max_length;
      DealtStart(done, elems, c, dl[..elems], bits);
      while bits != 0
        invariant bits <= desc.max_length && heap_max <= h <= HEAP_SIZE && |v| == elems
        invariant Dealt(done, elems, c, dl[..elems], v, bits, c[bits], h - heap_max)
        invariant opt_len - Dot(fc[..], dl[..elems], elems) == old(opt_len - Dot(fc[..], dl[..elems], elems))
      {
        var n := bl_count[bits];
        while n != 0
          invariant heap_max <= h <= HEAP_SIZE && |v| == elems
          invariant Dealt(done, elems, c, dl[..elems], v, bits, n, h - heap_max)
          invariant opt_len - Dot(fc[..], dl[..elems], elems) == old(opt_len - Dot(fc[..], dl[..elems], elems))
          decreases h
        {
          DealtMore(done, elems, c, dl[..elems], v, bits, n, h - heap_max);
          h := h - 1;
          var m := heap[h];
          assert done[h - heap_max] == m;
          if m > maxCode {
            DealtSkip(done, elems, c, dl[..elems], v, bits, n, h + 1 - heap_max);
            continue;
          }
          DealtStep(done, elems, c, dl[..elems], v, bits, n, h + 1 - heap_max);
          ghost var s := dl[..elems];
          Recode(fc, dl, m, bits, elems);
          assert dl[..elems] == s[m := bits];
          v := v[m := bits];
          n := n - 1;
        }
        DealtNext(done, elems, c, dl[..elems], v, bits, h - heap_max);
        bits := bits - 1;
      }
      ExcessRange(c, desc.max_length, 0, LeafCount(done, elems));
      DealtEnd(done, elems, c, dl[..elems], v, h - heap_max);
      DealtLens(done, dl[..elems], dl, elems);
    }
  
    // Repair the counts and deal out the lengths anew.
    method Shorten(fc: array<nat>, dl: array<nat>, desc: Desc, maxCode: nat, ghost leaves: set<nat>, ghost t: nat,
                   ghost l: seq<nat>, ghost lens: seq<nat>, ghost depths: seq<nat>, overflow: nat)
      requires Valid() && Apart(fc) && Apart(dl) && fc != dl && desc.Ok()
      requires maxCode < desc.elems <= fc.Length == dl.Length
      requires heap_max <= HEAP_SIZE && Forest(heap[heap_max..], fc[..], l, desc.elems, leaves, t) && |l| == fc.Length
      requires forall x :: x in leaves ==> x <= maxCode
      requires lens == dl[..desc.elems] && overflow > 0
      requires Excess(bl_count[..], desc.max_length, overflow, LeafCount(heap[heap_max..], desc.elems))
      requires Found(fc[..], desc.elems, leaves, desc.max_length, InnerSum(fc[..], desc.elems, t),
                     LeafCount(heap[heap_max..], desc.elems), lens, depths, bl_count[..], overflow)
      requires forall x :: 0 <= x < desc.elems && x !in leaves ==> dl[x] == 0
      modifies dl, bl_count, this`opt_len
      ensures Limited(fc[..], dl[..desc.elems], depths, desc.elems, leaves, desc.max_length,
              InnerSum(fc[..], desc.elems, t))
      ensures Counts(bl_count[..], dl[..desc.elems])
      ensures opt_len - Dot(fc[..], dl[..desc.elems], desc.elems)
              == old(opt_len - Dot(fc[..], dl[..desc.elems], desc.elems))
    {
      hide Forest, Excess, Found, Limited, Dot, InnerSum, Counts, CutAt;
      ghost var done, f, elems, max := heap[heap_max..], fc[..], desc.elems, desc.max_length;
      ghost var count, bl0 := LeafCount(done, elems), bl_count[..];
      DoneFacts(done, f, l, elems, leaves, t, maxCode);
      Repair(desc.max_length, overflow, count);
      Reassign(fc, dl, desc, maxCode, done);
      ghost var now := dl[..elems];
      assert forall x :: 0 <= x < elems ==> now[x] == dl[x];
      ReassignedLimited(done, f, l, elems, leaves, t, max, InnerSum(f, elems, t), count, lens, depths, bl_count[..],
            now, overflow, bl0);
    }

    /**
      Compute the bit lengths of a finished tree.  depths are the lengths an unlimited code
      would have; their cost is the sum of the inner nodes.
     */
    method GenBitLen(fc: array<nat>, dl: array<nat>, desc: Desc, maxCode: nat, ghost leaves: set<nat>, ghost t: nat)
      returns (ghost depths: seq<nat>)
      requires Finished(fc, dl, desc, maxCode, leaves, t)
      modifies dl, bl_count, this`opt_len, this`static_len
      ensures Limited(fc[..], dl[..desc.elems], depths, desc.elems, leaves, desc.max_length,
              InnerSum(fc[..], desc.elems, t))
      ensures Counts(bl_count[..], dl[..desc.elems])
      ensures opt_len == old(opt_len) + Dot(fc[..], dl[..desc.elems], desc.elems)
              + Dot(fc[..], desc.Extras(), desc.elems)
      ensures static_len == old(static_len) + Dot(fc[..], desc.Statics(), desc.elems)
    {
      hide Forest, Pass, Spent, Excess, Found, Limited, Dot, InnerSum, Counts;
      ghost var done, f, l, elems, max := heap[heap_max..], fc[..], dl[..], desc.elems, desc.max_length;
      var overflow;
      ghost var dep;
      overflow, dep := FirstPass(fc, dl, desc, maxCode, leaves, t);
      ghost var count := LeafCount(done, elems);
      depths := DepthsOf(dep, elems);
      PassEnd(done, f, l, elems, leaves, t, dl[..], dep, max, bl_count[..], overflow);
      PassLens(done, f, l, elems, leaves, t, dl[..], dep, max, bl_count[..], overflow);
      assert dl[..][..elems] == dl[..elems];
      SpentEnd(done, f, l, elems, leaves, t, dl[..], dep, max, bl_count[..], overflow, desc, opt_len - old(opt_len),
            static_len - old(static_len));
      ghost var lens := dl[..elems];
      FoundExcess(f, elems, leaves, max, InnerSum(f, elems, t), count, lens, depths, bl_count[..], overflow);
      if overflow == 0 {
        FoundLimited(f, elems, leaves, max, InnerSum(f, elems, t), count, lens, depths, bl_count[..]);
      } else {
        assert forall x :: 0 <= x < elems ==> lens[x] == dl[x];
        Shorten(fc, dl, desc, maxCode, leaves, t, l, lens, depths, overflow);
      }
    }
  
    // Construct the initial heap from the symbols that occur.
    method InitHeap(fc: array<nat>, dl: array<nat>, elems: nat) returns (maxCode: int)
      requires Valid() && Apart(fc) && Apart(dl) && fc != dl && elems <= 286 && elems <= fc.Length == dl.Length
      modifies heap, depth, dl, this`heap_len, this`heap_max
      ensures heap_len <= elems && heap_max == HEAP_SIZE && Collected(Live(heap[..], heap_len), fc[..], elems)
      ensures LargestCode(fc[..], elems, maxCode)
      ensures forall x :: 0 <= x < elems ==> if fc[x] == 0 then dl[x] == 0 else depth[x] == 0
    {
      hide Collected, Live, At;
      heap_len := 0;
      heap_max := HEAP_SIZE;
      maxCode := -1;
      NoLeaves(heap[..], fc[..]);
      for n := 0 to elems
        invariant heap_len <= n && heap_max == HEAP_SIZE
        invariant Collected(Live(heap[..], heap_len), fc[..], n)
        invariant LargestCode(fc[..], n, maxCode)
        invariant forall x :: 0 <= x < n ==> if fc[x] == 0 then dl[x] == 0 else depth[x] == 0
      {
        CollectedStep(Live(heap[..], heap_len), fc[..], n);
        AtIs(fc[..], n);
        if fc[n] != 0 {
          LivePush(heap[..], heap_len, n);
          ghost var h: seq<nat> := heap[..];
          heap_len := heap_len + 1;
          heap[heap_len] := n;
          assert heap[..] == h[heap_len := n];
          maxCode := n;
          depth[n] := 0;
        } else {
          dl[n] := 0;
        }
      }
    }

    /**
      Bring the symbols in the heap up to two, so that the tree has a root with two sons and
      every code at least one bit.
     */
    method ForceTwo(fc: array<nat>, desc: Desc, code: int) returns (maxCode: nat)
      requires Valid() && Apart(fc) && desc.Ok() && desc.elems <= fc.Length && heap_len <= desc.elems
      requires Collected(Live(heap[..], heap_len), fc[..], desc.elems) && LargestCode(fc[..], desc.elems, code)
      requires forall x :: 0 <= x < 3 ==> desc.Extra(x) == 0
      requires forall x :: 0 <= x < desc.elems && fc[x] != 0 ==> depth[x] == 0
      modifies heap, depth, fc, this`heap_len, this`opt_len, this`static_len
      ensures forall x :: 0 <= x < desc.elems && fc[x] != 0 ==> depth[x] == 0
      ensures 2 <= heap_len <= desc.elems && Collected(Live(heap[..], heap_len), fc[..], desc.elems)
      ensures LargestCode(fc[..], desc.elems, maxCode)
      ensures ForcedFrom(old(fc[..]), fc[..], desc, opt_len - old(opt_len), static_len - old(static_len))
      ensures old(heap_len) < 2 ==> heap_len == 2
      ensures opt_len >= old(opt_len) - 2
      ensures old(heap_len) >= 2 ==> fc[..] == old(fc[..])
    {
      hide Collected, Live, Dot, desc.Statics, desc.Extras, ForcedFrom, LargestCode;
      var mc := code;
      ForcedNone(fc[..], desc);
      while heap_len < 2
        invariant heap_len <= desc.elems && Collected(Live(heap[..], heap_len), fc[..], desc.elems)
        invariant LargestCode(fc[..], desc.elems, mc)
        invariant forall x :: 0 <= x < desc.elems && fc[x] != 0 ==> depth[x] == 0
        invariant ForcedFrom(old(fc[..]), fc[..], desc, opt_len - old(opt_len), static_len - old(static_len))
        invariant old(heap_len) < 2 ==> heap_len <= 2
        invariant opt_len - old(opt_len) == old(heap_len) - heap_len
        invariant old(heap_len) >= 2 ==> fc[..] == old(fc[..]) && heap_len == old(heap_len)
        decreases 2 - heap_len
      {
        ghost var ids: seq<nat>, f: seq<nat>, h: seq<nat> := Live(heap[..], heap_len), fc[..], heap[..];
        FreeSymbol(ids, f, desc.elems, mc);
        LargestForced(f, desc.elems, mc);
        CodeRange(f, desc.elems, mc);
        var node: nat := 0;
        if mc < 2 {
          mc := mc + 1;
          node := mc;
        }
        ForcedStep(old(fc[..]), f, desc, opt_len - old(opt_len), static_len - old(static_len), node);
        CollectedForced(ids, f, desc.elems, node);
        LivePush(h, heap_len, node);
        heap_len := heap_len + 1;
        heap[heap_len] := node;
        assert heap[..] == h[heap_len := node];
        fc[node] := 1;
        assert fc[..] == f[node := 1];
        depth[node] := 0;
        opt_len := opt_len - 1;
        if desc.stree.Some? {
          static_len := static_len - desc.stree.value[node];
        }
      }
      CodeExists(Live(heap[..], heap_len), fc[..], desc.elems, mc);
      maxCode := mc;
    }
  
    // Heap order from the last father back to the root.
    method Heapify(fc: array<nat>)
      requires Valid() && Apart(fc) && 1 <= heap_len < HEAP_SIZE && IdsBelow(heap[..], heap_len, fc.Length)
      modifies heap
      ensures HeapFrom(fc[..], depth[..], heap[..], heap_len, 1)
      ensures multiset(Live(heap[..], heap_len)) == multiset(old(Live(heap[..], heap_len)))
    {
      hide Live, Rearranged, HeapFrom, IdsBelow, Smaller;
      ghost var h := heap[..];
      var n: nat := heap_len / 2;
      NoSons(fc[..], depth[..], h, heap_len);
      while n >= 1
        invariant n <= heap_len / 2 && IdsBelow(heap[..], heap_len, fc.Length)
        invariant HeapFrom(fc[..], depth[..], heap[..], heap_len, n + 1)
        invariant multiset(Live(heap[..], heap_len)) == multiset(Live(h, heap_len))
      {
        ghost var g := heap[..];
        PqDownHeap(fc, depth, heap, heap_len, n);
        LiveSame(heap, g, heap_len);
        n := n - 1;
      }
    }

    /**
      Merge until one node is left; every merge keeps the merging invariant.
     */
    method MergeAll(fc: array<nat>, dl: array<nat>, elems: nat) returns (ghost t: nat)
      requires Valid() && Apart(fc) && Apart(dl) && fc != dl && 2 <= heap_len <= elems <= 286 && heap_max == HEAP_SIZE
      requires 2 * elems - 1 <= fc.Length == dl.Length
      requires Collected(Live(heap[..], heap_len), fc[..], elems)
      requires Sum(fc[..elems]) <= 0xffff && forall x :: 0 <= x < elems && fc[x] != 0 ==> depth[x] == 0
      modifies heap, depth, fc, dl, this`heap_len, this`heap_max
      ensures heap_max <= HEAP_SIZE && Forest(heap[heap_max..], fc[..], dl[..], elems, LeafSet(fc[..elems], elems), t)
      ensures Heights(heap[heap_max..], depth[..], elems, LeafSet(fc[..elems], elems), t)
      ensures fc[..elems] == old(fc[..elems]) && t == old(heap_len) - 1
      ensures Best(multiset(NonZero(fc[..elems], elems)), InnerSum(fc[..], elems, t))
      ensures forall x :: 0 <= x < elems && x !in LeafSet(fc[..elems], elems) ==> dl[x] == old(dl[x])
    {
      hide Merging, Live, HeapFrom, IdsBelow, Collected, Forest, LeafSet, NonZero, Sum, Best, Heights;
      ghost var f0, total, count := fc[..elems], Sum(fc[..elems]), heap_len;
      ghost var leaves, ws0 := LeafSet(f0, elems), multiset(NonZero(f0, elems));
      ghost var ids := Live(heap[..], heap_len);
      StartIds(ids, fc[..], dl[..], elems);
      LiveIds(heap[..], heap_len, fc.Length);
      MergingStart(ids, fc[..], dl[..], elems);
      SameLeaves(fc[..], f0, elems);
      Heapify(fc);
      HeightsStart(depth[..], fc[..elems], elems, leaves);
      MergingPermutation(ids, Live(heap[..], heap_len), [], fc[..], dl[..], elems, leaves, 0, ws0, total);
      t := 0;
      var node := elems;
      assert heap[heap_max..] == [];
      while heap_len >= 2
        invariant node == elems + t && heap_len + t == count && heap_len >= 1
        invariant Stage(fc, dl, elems, leaves, t, ws0, total)
        invariant fc[..elems] == f0 && forall x :: 0 <= x < elems && x !in leaves ==> dl[x] == old(dl[x])
        decreases heap_len
      {
        Combine(fc, dl, elems, leaves, t, ws0, total, node);
        node := node + 1;
        t := t + 1;
      }
      ghost var done := heap[heap_max..];
      LastLive(heap[..]);
      heap_max := heap_max - 1;
      heap[heap_max] := heap[1];
      assert heap[heap_max..] == [heap[1]] + done;
      HeightsRoot(done, depth[..], elems, leaves, t, heap[1]);
      ForestDone(heap[1], done, fc[..], dl[..], elems, leaves, t, ws0, total);
    }
  
    // The initial heap, with two symbols at least.
    method Prepare(fc: array<nat>, dl: array<nat>, desc: Desc) returns (maxCode: nat)
      requires Valid() && Apart(fc) && Apart(dl) && fc != dl && desc.Ok() && desc.elems <= fc.Length == dl.Length
      requires forall x :: 0 <= x < 3 ==> desc.Extra(x) == 0
      modifies heap, depth, fc, dl, this`heap_len, this`heap_max, this`opt_len, this`static_len
      ensures 2 <= heap_len <= desc.elems && heap_max == HEAP_SIZE
      ensures Collected(Live(heap[..], heap_len), fc[..], desc.elems) && LargestCode(fc[..], desc.elems, maxCode)
      ensures ForcedFrom(old(fc[..]), fc[..], desc, opt_len - old(opt_len), static_len - old(static_len))
      ensures |NonZero(old(fc[..]), desc.elems)| >= 2 ==> fc[..] == old(fc[..])
      ensures |NonZero(old(fc[..]), desc.elems)| < 2 ==> heap_len == 2
      ensures forall x :: 0 <= x < desc.elems ==> if fc[x] == 0 then dl[x] == 0 else depth[x] == 0
      ensures Sum(fc[..desc.elems]) <= Sum(old(fc[..desc.elems])) + 2
    {
      hide Live, Collected, NonZero, Sum, Dot, ForcedFrom, LargestCode, desc.Statics, desc.Extras;
      ghost var f := fc[..];
      var code := InitHeap(fc, dl, desc.elems);
      CollectedSize(Live(heap[..], heap_len), f, desc.elems);
      maxCode := ForceTwo(fc, desc, code);
      ForcedZero(f, fc[..], desc, opt_len - old(opt_len), static_len - old(static_len));
      ForcedSum(f, fc[..], desc, opt_len - old(opt_len), static_len - old(static_len));
    }

    /**
      Construct one Huffman tree, assign the code lengths and the codes, and add the cost of
      the symbols to the bit lengths of the block.  freqs are the frequencies with the forced
      symbols; depths are the code lengths of the unlimited tree.
     */
    method BuildTree(fc: array<nat>, dl: array<nat>, desc: Desc)
      returns (maxCode: nat, ghost freqs: seq<nat>, ghost depths: seq<nat>)
      requires Valid() && Apart(fc) && Apart(dl) && fc != dl && desc.Ok()
      requires 2 * desc.elems - 1 <= fc.Length == dl.Length
      requires forall x :: 0 <= x < 3 ==> desc.Extra(x) == 0
      requires Sum(fc[..desc.elems]) + 2 <= 0xffff
      modifies heap, depth, bl_count, fc, dl, this`heap_len, this`heap_max, this`opt_len, this`static_len
      ensures TreeBuilt(old(fc[..desc.elems]), freqs, dl[..desc.elems], depths, desc, maxCode)
      ensures forall n :: 0 <= n <= maxCode && dl[n] != 0 ==> Coded(dl[..maxCode + 1], n, fc[n])
      ensures opt_len == old(opt_len) + Dot(old(fc[..desc.elems]), dl[..desc.elems], desc.elems)
                         + Dot(old(fc[..desc.elems]), desc.Extras(), desc.elems)
      ensures static_len == old(static_len) + Dot(old(fc[..desc.elems]), desc.Statics(), desc.elems)
    {
      hide Live, Collected, Forest, LeafSet, NonZero, Sum, Best, Dot, InnerSum, Limited, Counts, ForcedFrom,
           LargestCode, TreeBuilt, Coded,
           desc.Statics, desc.Extras, Oversubscribed;
      ghost var elems, f0 := desc.elems, fc[..];
      maxCode := Prepare(fc, dl, desc);
      ghost var f1, opt, stat := fc[..], opt_len - old(opt_len), static_len - old(static_len);
      CollectedSize(Live(heap[..], heap_len), f1, elems);
      freqs := fc[..elems];
      ghost var leaves := LeafSet(freqs, elems);
      ghost var t := MergeAll(fc, dl, desc.elems);
      LeavesFinished(f1, fc[..], freqs, elems, maxCode);
      ghost var f2 := fc[..];
      depths := GenBitLen(fc, dl, desc, maxCode, leaves, t);
      ghost var lens, c := dl[..elems], bl_count[..];
      Outcome(f0, f1, f2, freqs, lens, depths, desc, leaves, t, c, maxCode, opt, stat);
      assert dl[..maxCode + 1] == lens[..maxCode + 1];
      CountsAt(c, lens[..maxCode + 1]);
      GenCodes.GenCodes(fc, dl, maxCode, bl_count);
      assert dl[..elems] == lens;
    }
  }

  /**
    When no depth exceeds the limit, the code lengths cost no more than any prefix code for
    the symbols that occur.
   */
  lemma Optimal(f: seq<nat>, freqs: seq<nat>, lens: seq<nat>, depths: seq<nat>, desc: Desc, maxCode: nat,
                cs: seq<seq<bool>>, longest: nat)
    requires TreeBuilt(f, freqs, lens, depths, desc, maxCode)
    requires forall x :: 0 <= x < desc.elems ==> depths[x] <= desc.max_length
    requires |cs| == |NonZero(freqs, desc.elems)| && PrefixCode(cs) && forall i :: 0 <= i < |cs| ==> |cs[i]| <= longest
    ensures Cost(Lengths(NonZero(freqs, desc.elems), cs)) >= Dot(freqs, lens, desc.elems)
  {
    hide Best, PrefixCode, Dot, Cost, Complete;
    BestPrefixCode(NonZero(freqs, desc.elems), Dot(freqs, depths, desc.elems), cs, longest);
  }
}
