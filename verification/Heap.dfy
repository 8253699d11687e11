/**
  The priority queue of trees.c: an array heap of tree nodes ordered by frequency, ties
  broken by depth.
 */
module Heap {
  // smaller(tree, n, m, depth): the order is total whatever the depths are.
  predicate Smaller(f: seq<nat>, d: seq<nat>, n: nat, m: nat) {
    n < |f| && m < |f| && n < |d| && m < |d| && (f[n] < f[m] || (f[n] == f[m] && d[n] <= d[m]))
  }

  predicate IdsBelow(h: seq<nat>, len: nat, n: nat) {
    len < |h| && forall i :: 1 <= i <= len ==> h[i] < n
  }

  // No node from k on is smaller than its father.
  predicate HeapFrom(f: seq<nat>, d: seq<nat>, h: seq<nat>, len: nat, k: nat) {
    len < |h| && forall j :: 2 * k <= j <= len ==> Smaller(f, d, h[j / 2], h[j])
  }

  // The same except that the node at k may be out of place.
  predicate HeapBut(f: seq<nat>, d: seq<nat>, h: seq<nat>, len: nat, k0: nat, k: nat) {
    && 1 <= k0 <= k <= len < |h|
    && (forall j :: 2 * k0 <= j <= len && j / 2 != k ==> Smaller(f, d, h[j / 2], h[j]))
    && (k >= 2 * k0 ==> forall j :: 2 * k <= j <= 2 * k + 1 && j <= len ==> Smaller(f, d, h[k / 2], h[j]))
  }

  lemma SmallerTotal(f: seq<nat>, d: seq<nat>, n: nat, m: nat)
    requires n < |f| && m < |f| && n < |d| && m < |d|
    ensures Smaller(f, d, n, m) || Smaller(f, d, m, n)
  {
  }

  lemma SmallerTransitive(f: seq<nat>, d: seq<nat>, a: nat, b: nat, c: nat)
    requires Smaller(f, d, a, b) && Smaller(f, d, b, c)
    ensures Smaller(f, d, a, c)
  {
  }

  function Swap(h: seq<nat>, k: nat, j: nat): seq<nat>
    requires k < |h| && j < |h|
  {
    h[k := h[j]][j := h[k]]
  }

  lemma HeapButStart(f: seq<nat>, d: seq<nat>, h: seq<nat>, len: nat, k: nat)
    requires 1 <= k <= len && HeapFrom(f, d, h, len, k + 1)
    ensures HeapBut(f, d, h, len, k, k)
  {
    hide Smaller;
  }

  // Exchange the node with its smaller son j.
  lemma SiftStep(f: seq<nat>, d: seq<nat>, h: seq<nat>, len: nat, k0: nat, k: nat, j: nat)
    requires HeapBut(f, d, h, len, k0, k) && j / 2 == k && j <= len
    requires Smaller(f, d, h[j], h[k])
    requires forall i :: 2 * k <= i <= 2 * k + 1 && i <= len ==> Smaller(f, d, h[j], h[i])
    ensures HeapBut(f, d, Swap(h, k, j), len, k0, j)
  {
    hide Smaller;
    var g := Swap(h, k, j);
    forall i | 2 * k0 <= i <= len && i / 2 != j
      ensures Smaller(f, d, g[i / 2], g[i])
    {
      if i == k {
        assert Smaller(f, d, h[k / 2], h[j]);
      }
    }
    forall i | 2 * j <= i <= 2 * j + 1 && i <= len
      ensures Smaller(f, d, g[j / 2], g[i])
    {
      assert i / 2 == j;
      assert Smaller(f, d, h[i / 2], h[i]);
    }
  }

  lemma SiftEnd(f: seq<nat>, d: seq<nat>, h: seq<nat>, len: nat, k0: nat, k: nat)
    requires HeapBut(f, d, h, len, k0, k)
    requires forall i :: 2 * k <= i <= 2 * k + 1 && i <= len ==> Smaller(f, d, h[k], h[i])
    ensures HeapFrom(f, d, h, len, k0)
  {
    hide Smaller;
    forall j | 2 * k0 <= j <= len
      ensures Smaller(f, d, h[j / 2], h[j])
    {
      if j / 2 == k {
        assert 2 * k <= j <= 2 * k + 1;
      }
    }
  }

  lemma SwapKeeps(h: seq<nat>, k: nat, j: nat)
    requires k < |h| && j < |h|
    ensures multiset(Swap(h, k, j)) == multiset(h)
  {
  }

  // The root is a least node.
  lemma {:induction false} RootSmallest(f: seq<nat>, d: seq<nat>, h: seq<nat>, len: nat, j: nat)
    requires HeapFrom(f, d, h, len, 1) && 1 <= j <= len && IdsBelow(h, len, |f|) && |f| <= |d|
    ensures Smaller(f, d, h[1], h[j])
  {
    if j > 1 {
      RootSmallest(f, d, h, len, j / 2);
      SmallerTransitive(f, d, h[1], h[j / 2], h[j]);
    }
  }

  // Same nodes in another order, all outside [k0..len] in place.
  predicate Rearranged(h: seq<nat>, g: seq<nat>, k0: nat, len: nat) {
    && k0 <= len < |h| == |g| && g[..k0] == h[..k0] && g[len + 1..] == h[len + 1..]
    && multiset(g) == multiset(h)
  }

  lemma RearrangedSwap(h: seq<nat>, g: seq<nat>, k0: nat, len: nat, k: nat, j: nat)
    requires Rearranged(h, g, k0, len) && k0 <= k <= len && k0 <= j <= len
    ensures Rearranged(h, Swap(g, k, j), k0, len)
  {
    SwapKeeps(g, k, j);
    var s := Swap(g, k, j);
    assert s[..k0] == g[..k0] && s[len + 1..] == g[len + 1..];
  }

  lemma RearrangedTail(h: seq<nat>, g: seq<nat>, k0: nat, len: nat)
    requires Rearranged(h, g, k0, len)
    ensures |g| == |h| && forall i :: len < i < |h| ==> g[i] == h[i]
  {
    forall i | len < i < |h|
      ensures g[i] == h[i]
    {
      assert g[len + 1..][i - len - 1] == h[len + 1..][i - len - 1];
    }
  }

  lemma MiddleSame(a: seq<nat>, x: seq<nat>, y: seq<nat>, b: seq<nat>)
    requires multiset(a + x + b) == multiset(a + y + b)
    ensures multiset(x) == multiset(y)
  {
    assert multiset(x) == multiset(a + x + b) - multiset(a) - multiset(b);
    assert multiset(y) == multiset(a + y + b) - multiset(a) - multiset(b);
  }

  lemma BelowSame(x: seq<nat>, y: seq<nat>, n: nat)
    requires multiset(x) == multiset(y) && forall i :: 0 <= i < |x| ==> x[i] < n
    ensures forall i :: 0 <= i < |y| ==> y[i] < n
  {
    forall i | 0 <= i < |y|
      ensures y[i] < n
    {
      assert y[i] in multiset(x);
    }
  }

  lemma RearrangedIds(h: seq<nat>, g: seq<nat>, k0: nat, len: nat, n: nat)
    requires Rearranged(h, g, k0, len) && 1 <= k0 && IdsBelow(h, len, n)
    ensures multiset(g[1..len + 1]) == multiset(h[1..len + 1]) && IdsBelow(g, len, n)
  {
    var x, y := h[1..len + 1], g[1..len + 1];
    assert multiset(x) == multiset(y) by {
      assert h == h[..1] + x + h[len + 1..];
      assert g == g[..1] + y + g[len + 1..];
      assert g[..1] == g[..k0][..1] && h[..1] == h[..k0][..1];
      MiddleSame(h[..1], x, y, h[len + 1..]);
    }
    BelowSame(x, y, n);
    forall i | 1 <= i <= len
      ensures g[i] < n
    {
      assert g[i] == y[i - 1];
    }
  }

  // smaller(tree, n, m, depth), on the arrays.
  method IsSmaller(f: array<nat>, depth: array<nat>, n: nat, m: nat) returns (b: bool)
    requires n < f.Length <= depth.Length && m < f.Length
    ensures b == Smaller(f[..], depth[..], n, m)
  {
    b := f[n] < f[m] || (f[n] == f[m] && depth[n] <= depth[m]);
  }

  ghost predicate LeastSon(f: seq<nat>, d: seq<nat>, h: seq<nat>, len: nat, k: nat, j: nat) {
    && j / 2 == k && j <= len < |h|
    && forall i :: 2 * k <= i <= 2 * k + 1 && i <= len ==> Smaller(f, d, h[j], h[i])
  }

  // The son that comes first in the order.
  method ChooseSon(f: array<nat>, depth: array<nat>, heap: array<nat>, heapLen: nat, k: nat) returns (j: nat)
    requires 1 <= k && 2 * k <= heapLen < heap.Length && f.Length <= depth.Length
    requires forall i :: 2 * k <= i <= 2 * k + 1 && i <= heapLen ==> heap[i] < f.Length
    ensures LeastSon(f[..], depth[..], heap[..], heapLen, k, j)
  {
    j := 2 * k;
    if j < heapLen {
      var b := IsSmaller(f, depth, heap[j + 1], heap[j]);
      if b {
        j := j + 1;
      }
    }
  }

  lemma LeastSonSame(f: seq<nat>, d: seq<nat>, h: seq<nat>, g: seq<nat>, len: nat, k: nat, j: nat)
    requires LeastSon(f, d, h, len, k, j) && len < |h| && k < |h| && |g| == |h| && g == h[k := g[k]] && k >= 1
    ensures LeastSon(f, d, g, len, k, j)
  {
    assert j != k;
    forall i | 2 * k <= i <= 2 * k + 1 && i <= len
      ensures Smaller(f, d, g[j], g[i])
    {
      assert i != k && g[i] == h[i];
    }
  }

  lemma SonIds(h: seq<nat>, g: seq<nat>, len: nat, k: nat, v: nat, n: nat)
    requires IdsBelow(g, len, n) && 1 <= k <= len && |g| == |h| && g == h[k := v]
    ensures v < n && forall i :: 2 * k <= i <= 2 * k + 1 && i <= len ==> h[i] < n
  {
    assert g[k] == v;
    forall i | 2 * k <= i <= 2 * k + 1 && i <= len
      ensures h[i] < n
    {
      assert g[i] == h[i];
    }
  }

  lemma NoSonSmaller(f: seq<nat>, d: seq<nat>, h: seq<nat>, len: nat, k: nat, j: nat)
    requires LeastSon(f, d, h, len, k, j) && k < |h| && Smaller(f, d, h[k], h[j])
    ensures forall i :: 2 * k <= i <= 2 * k + 1 && i <= len ==> Smaller(f, d, h[k], h[i])
  {
    forall i | 2 * k <= i <= 2 * k + 1 && i <= len
      ensures Smaller(f, d, h[k], h[i])
    {
      SmallerTransitive(f, d, h[k], h[j], h[i]);
    }
  }

  lemma MoveHole(h: seq<nat>, g: seq<nat>, k: nat, j: nat, v: nat)
    requires k < |h| && j < |h| && k != j && g == h[k := v]
    ensures Swap(g, k, j) == h[k := h[j]][j := v]
  {
  }

  /**
    Sift the entry at k0 down until heap order holds from there on.
   */
  method PqDownHeap(f: array<nat>, depth: array<nat>, heap: array<nat>, heapLen: nat, k0: nat)
    requires 1 <= k0 <= heapLen < heap.Length && heap != f && heap != depth && f.Length <= depth.Length
    requires IdsBelow(heap[..], heapLen, f.Length)
    requires HeapFrom(f[..], depth[..], heap[..], heapLen, k0 + 1)
    modifies heap
    ensures HeapFrom(f[..], depth[..], heap[..], heapLen, k0)
    ensures Rearranged(old(heap[..]), heap[..], k0, heapLen)
    ensures IdsBelow(heap[..], heapLen, f.Length)
    ensures multiset(heap[1..heapLen + 1]) == old(multiset(heap[1..heapLen + 1]))
  {
    hide HeapFrom, HeapBut, Rearranged, Smaller, IdsBelow, LeastSon, Swap;
    ghost var h, fs, ds := heap[..], f[..], depth[..];
    var v, k, j := heap[k0], k0, 2 * k0;
    ghost var g := h;   // the heap with v at its present place
    HeapButStart(fs, ds, h, heapLen, k0);
    RearrangedSelf(h, k0, heapLen);
    while j <= heapLen
      invariant k0 <= k <= heapLen && j == 2 * k
      invariant f[..] == fs && depth[..] == ds
      invariant |g| == heap.Length && g == heap[..][k := v]
      invariant HeapBut(fs, ds, g, heapLen, k0, k) && Rearranged(h, g, k0, heapLen)
      decreases heapLen - k
    {
      RearrangedIds(h, g, k0, heapLen, f.Length);
      SonIds(heap[..], g, heapLen, k, v, f.Length);
      j := ChooseSon(f, depth, heap, heapLen, k);
      LeastSonBounds(fs, ds, heap[..], heapLen, k, j);
      LeastSonSame(fs, ds, heap[..], g, heapLen, k, j);
      var b := IsSmaller(f, depth, v, heap[j]);
      if b {
        NoSonSmaller(fs, ds, g, heapLen, k, j);
        j := heapLen + 1;
        break;
      }
      SmallerTotal(fs, ds, v, heap[j]);
      SiftChoice(fs, ds, g, heapLen, k0, k, j);
      RearrangedSwap(h, g, k0, heapLen, k, j);
      MoveHole(heap[..], g, k, j, v);
      g := Swap(g, k, j);
      heap[k] := heap[j];
      k := j;
      j := 2 * j;
    }
    SiftEnd(fs, ds, g, heapLen, k0, k);
    heap[k] := v;
    assert heap[..] == g;
    RearrangedIds(h, g, k0, heapLen, f.Length);
  }

  lemma RearrangedSelf(h: seq<nat>, k0: nat, len: nat)
    requires k0 <= len < |h|
    ensures Rearranged(h, h, k0, len)
  {
  }

  lemma LeastSonBounds(f: seq<nat>, d: seq<nat>, h: seq<nat>, len: nat, k: nat, j: nat)
    requires LeastSon(f, d, h, len, k, j) && k >= 1
    ensures j / 2 == k < j <= len < |h| && h[j] < |f|
  {
    assert Smaller(f, d, h[j], h[2 * k]);
  }

  lemma SiftChoice(f: seq<nat>, d: seq<nat>, h: seq<nat>, len: nat, k0: nat, k: nat, j: nat)
    requires HeapBut(f, d, h, len, k0, k) && LeastSon(f, d, h, len, k, j) && Smaller(f, d, h[j], h[k])
    ensures HeapBut(f, d, Swap(h, k, j), len, k0, j)
  {
    hide Smaller, HeapBut, Swap;
    SiftStep(f, d, h, len, k0, k, j);
  }
}
