/**
  The tree construction of build_tree in trees.c: the two least frequent nodes are taken
  from the heap again and again and combined under a new node.

  Nodes below elems are leaves, one for each symbol of nonzero frequency; the node made by
  step u is elems + u.  The nodes taken out of the heap are kept, in the order of their
  removal, at the end of the same array.  f holds the frequencies of the nodes (fc of the
  source), dl the father of every node that has been taken out.
 */
module HuffmanTree {
  import opened HuffmanCost

  const HEAP_SIZE: nat := 573

  function At(f: seq<nat>, n: nat): nat {
    if n < |f| then f[n] else 0
  }

  // The frequencies of some nodes.
  function Freqs(ids: seq<nat>, f: seq<nat>): (r: seq<nat>)
    ensures |r| == |ids|
  {
    seq(|ids|, i requires 0 <= i < |ids| => At(f, ids[i]))
  }

  function Sum(s: seq<nat>): nat {
    if s == [] then 0 else s[0] + Sum(s[1..])
  }

  // The frequencies of the first t inner nodes.
  function InnerSum(f: seq<nat>, elems: nat, t: nat): nat {
    if t == 0 then 0 else InnerSum(f, elems, t - 1) + At(f, elems + t - 1)
  }

  function Nodes(leaves: set<nat>, elems: nat, t: nat): set<nat> {
    if t == 0 then leaves else Nodes(leaves, elems, t - 1) + {elems + t - 1}
  }

  // Every node is in the heap or has been taken out, once.
  ghost predicate Once(ids: seq<nat>, done: seq<nat>, leaves: set<nat>, elems: nat, t: nat) {
    multiset(ids + done) == multiset(Nodes(leaves, elems, t)) && forall x :: x in leaves ==> x < elems
  }

  // Step u combined the nodes at these places of done.
  predicate Sons(done: seq<nat>, f: seq<nat>, dl: seq<nat>, elems: nat, u: nat) {
    && 2 * u + 2 <= |done| && elems + u < |f| == |dl|
    && var n, m := done[|done| - 1 - 2 * u], done[|done| - 2 - 2 * u];
      n < elems + u && m < elems + u && dl[n] == dl[m] == elems + u && f[elems + u] == f[n] + f[m]
  }

  ghost predicate Family(done: seq<nat>, f: seq<nat>, dl: seq<nat>, elems: nat, t: nat) {
    forall u :: 0 <= u < t ==> Sons(done, f, dl, elems, u)
  }

  // The depth of an inner node, in a byte, is one more than that of its deeper son.
  predicate Deeper(done: seq<nat>, d: seq<nat>, elems: nat, u: nat) {
    && 2 * u + 2 <= |done| && elems + u < |d|
    && var n, m := done[|done| - 1 - 2 * u], done[|done| - 2 - 2 * u];
      n < |d| && m < |d| && d[elems + u] == ((if d[n] >= d[m] then d[n] else d[m]) + 1) % 256
  }

  // Leaves have depth 0.
  ghost predicate Heights(done: seq<nat>, d: seq<nat>, elems: nat, leaves: set<nat>, t: nat) {
    && (forall x :: x in leaves ==> x < elems && x < |d| && d[x] == 0)
    && forall u :: 0 <= u < t ==> Deeper(done, d, elems, u)
  }

  lemma HeightsStep(done: seq<nat>, d: seq<nat>, elems: nat, leaves: set<nat>, t: nat, n: nat, m: nat, node: nat)
    requires Heights(done, d, elems, leaves, t) && |done| == 2 * t && node == elems + t < |d| && n < node && m < node
    requires forall i :: 0 <= i < |done| ==> done[i] < node
    ensures Heights([m, n] + done, d[node := ((if d[n] >= d[m] then d[n] else d[m]) + 1) % 256], elems, leaves, t + 1)
  {
    var after, d' := [m, n] + done, d[node := ((if d[n] >= d[m] then d[n] else d[m]) + 1) % 256];
    forall u | 0 <= u < t + 1
      ensures Deeper(after, d', elems, u)
    {
      if u < t {
        assert Deeper(done, d, elems, u);
        assert after[|after| - 1 - 2 * u] == done[|done| - 1 - 2 * u];
        assert after[|after| - 2 - 2 * u] == done[|done| - 2 - 2 * u];
      } else {
        assert after[|after| - 1 - 2 * u] == n && after[|after| - 2 - 2 * u] == m;
      }
    }
  }

  // The root is put before all others.
  lemma HeightsRoot(done: seq<nat>, d: seq<nat>, elems: nat, leaves: set<nat>, t: nat, root: nat)
    requires Heights(done, d, elems, leaves, t)
    ensures Heights([root] + done, d, elems, leaves, t)
  {
    var after := [root] + done;
    forall u | 0 <= u < t
      ensures Deeper(after, d, elems, u)
    {
      assert Deeper(done, d, elems, u);
      assert after[|after| - 1 - 2 * u] == done[|done| - 1 - 2 * u];
      assert after[|after| - 2 - 2 * u] == done[|done| - 2 - 2 * u];
    }
  }

  // Nodes are taken out in the order of their frequencies.
  ghost predicate Ordered(ids: seq<nat>, done: seq<nat>, f: seq<nat>) {
    && (forall i, j :: 0 <= i <= j < |done| ==> At(f, done[i]) >= At(f, done[j]))
    && (forall i, j :: 0 <= i < |ids| && 0 <= j < |done| ==> At(f, done[j]) <= At(f, ids[i]))
  }

  // A lower bound for the weights ws gives one for ws0, larger by k.
  ghost predicate Lifts(ws: multiset<nat>, ws0: multiset<nat>, k: nat) {
    forall c: nat :: LiftsAt(ws, ws0, k, c)
  }

  ghost predicate LiftsAt(ws: multiset<nat>, ws0: multiset<nat>, k: nat, c: nat) {
    Best(ws, c) ==> Best(ws0, c + k)
  }

  // What holds after t steps.
  ghost predicate Merging(ids: seq<nat>, done: seq<nat>, f: seq<nat>, dl: seq<nat>, elems: nat, leaves: set<nat>,
                          t: nat, ws0: multiset<nat>, total: nat)
  {
    && |done| == 2 * t && elems + t <= |f| == |dl|
    && Once(ids, done, leaves, elems, t)
    && Family(done, f, dl, elems, t)
    && Ordered(ids, done, f)
    && Lifts(multiset(Freqs(ids, f)), ws0, InnerSum(f, elems, t))
    && Sum(Freqs(ids, f)) == total
  }

  // ---------- permutations ----------

  lemma {:induction false} SumTake(s: seq<nat>, i: nat)
    requires i < |s|
    ensures Sum(s) == s[i] + Sum(s[..i] + s[i + 1..])
  {
    if i == 0 {
      assert s[..0] + s[1..] == s[1..];
    } else {
      SumTake(s[1..], i - 1);
      var r := s[..i] + s[i + 1..];
      assert r[0] == s[0] && r[1..] == s[1..][..i - 1] + s[1..][i..];
    }
  }

  lemma {:induction false} SumPermutation(a: seq<nat>, b: seq<nat>)
    requires multiset(a) == multiset(b)
    ensures Sum(a) == Sum(b)
  {
    if a == [] {
      assert |multiset(b)| == 0;
    } else {
      var i := Locate(a, b);
      SumTake(b, i);
      SumPermutation(a[1..], b[..i] + b[i + 1..]);
    }
  }

  // The first of a, taken out of b.
  lemma Locate(a: seq<nat>, b: seq<nat>) returns (i: nat)
    requires a != [] && multiset(a) == multiset(b)
    ensures i < |b| && b[i] == a[0] && multiset(a[1..]) == multiset(b[..i] + b[i + 1..])
  {
    assert a[0] in multiset(b);
    i :| 0 <= i < |b| && b[i] == a[0];
    assert a == [a[0]] + a[1..];
    assert b == b[..i] + [b[i]] + b[i + 1..];
    assert multiset(a[1..]) == multiset(a) - multiset{a[0]};
    assert multiset(b[..i] + b[i + 1..]) == multiset(b) - multiset{b[i]};
  }

  lemma {:induction false} FreqsPermutation(a: seq<nat>, b: seq<nat>, f: seq<nat>)
    requires multiset(a) == multiset(b)
    ensures multiset(Freqs(a, f)) == multiset(Freqs(b, f))
  {
    hide At;
    if a == [] {
      assert |multiset(b)| == 0;
    } else {
      var i := Locate(a, b);
      var c := b[..i] + b[i + 1..];
      FreqsPermutation(a[1..], c, f);
      FreqsConcat([a[0]], a[1..], f);
      FreqsConcat(b[..i], b[i + 1..], f);
      FreqsConcat(b[..i], [b[i]], f);
      FreqsConcat(b[..i] + [b[i]], b[i + 1..], f);
      assert a == [a[0]] + a[1..] && b == b[..i] + [b[i]] + b[i + 1..];
      assert Freqs([a[0]], f) == [At(f, a[0])];
    }
  }

  lemma FreqsConcat(a: seq<nat>, b: seq<nat>, f: seq<nat>)
    ensures Freqs(a + b, f) == Freqs(a, f) + Freqs(b, f)
  {
  }

  // The node tables matter only below elems + t.
  lemma {:induction false} InnerSumSame(f: seq<nat>, g: seq<nat>, elems: nat, t: nat)
    requires elems + t <= |f| && elems + t <= |g| && f[..elems + t] == g[..elems + t]
    ensures InnerSum(f, elems, t) == InnerSum(g, elems, t)
  {
    if t > 0 {
      assert f[..elems + t - 1] == f[..elems + t][..elems + t - 1];
      assert g[..elems + t - 1] == g[..elems + t][..elems + t - 1];
      InnerSumSame(f, g, elems, t - 1);
      assert f[elems + t - 1] == f[..elems + t][elems + t - 1] == g[elems + t - 1];
    }
  }

  // ---------- nodes ----------

  lemma {:induction false} NodesAre(leaves: set<nat>, elems: nat, t: nat, x: nat)
    ensures x in Nodes(leaves, elems, t) <==> x in leaves || elems <= x < elems + t
  {
    if t > 0 {
      NodesAre(leaves, elems, t - 1, x);
    }
  }

  lemma OnceBelow(ids: seq<nat>, done: seq<nat>, leaves: set<nat>, elems: nat, t: nat)
    requires Once(ids, done, leaves, elems, t)
    ensures forall x :: x in ids || x in done ==> x < elems + t
  {
    forall x | x in ids || x in done
      ensures x < elems + t
    {
      assert x in multiset(ids + done);
      NodesAre(leaves, elems, t, x);
    }
  }

  lemma TwiceIn(s: seq<nat>, i: nat, j: nat)
    requires i < j < |s| && s[i] == s[j]
    ensures multiset(s)[s[i]] >= 2
  {
    assert s == s[..i] + [s[i]] + s[i + 1..j] + [s[j]] + s[j + 1..];
  }

  lemma OnceDistinct(ids: seq<nat>, done: seq<nat>, leaves: set<nat>, elems: nat, t: nat)
    requires Once(ids, done, leaves, elems, t)
    ensures forall i, j :: 0 <= i < j < |ids + done| ==> (ids + done)[i] != (ids + done)[j]
  {
    var s := ids + done;
    forall i, j | 0 <= i < j < |s|
      ensures s[i] != s[j]
    {
      if s[i] == s[j] {
        TwiceIn(s, i, j);
        assert false;
      }
    }
  }

  lemma OncePermutation(ids: seq<nat>, ids2: seq<nat>, done: seq<nat>, leaves: set<nat>, elems: nat, t: nat)
    requires Once(ids, done, leaves, elems, t) && multiset(ids) == multiset(ids2)
    ensures Once(ids2, done, leaves, elems, t)
  {
  }

  lemma NodesStep(leaves: set<nat>, elems: nat, t: nat, node: nat)
    requires node == elems + t && forall x :: x in leaves ==> x < elems
    ensures multiset(Nodes(leaves, elems, t + 1)) == multiset(Nodes(leaves, elems, t)) + multiset{node}
  {
    NodesAre(leaves, elems, t, node);
  }

  lemma MoveNodes(ids: seq<nat>, m: nat, tail: seq<nat>, n: nat, done: seq<nat>, node: nat)
    requires multiset(ids) == multiset([n] + ([m] + tail))
    ensures multiset([node] + tail + ([m, n] + done)) == multiset(ids + done) + multiset{node}
  {
    assert multiset([n] + ([m] + tail)) == multiset{n, m} + multiset(tail);
    assert multiset([m, n] + done) == multiset{n, m} + multiset(done);
  }

  lemma OnceStep(ids: seq<nat>, n: nat, m: nat, tail: seq<nat>, done: seq<nat>, leaves: set<nat>, elems: nat, t: nat,
                 node: nat)
    requires Once(ids, done, leaves, elems, t) && multiset(ids) == multiset([n] + ([m] + tail)) && node == elems + t
    ensures Once([node] + tail, [m, n] + done, leaves, elems, t + 1)
  {
    hide Nodes;
    NodesStep(leaves, elems, t, node);
    MoveNodes(ids, m, tail, n, done, node);
  }

  // ---------- one step ----------

  // n and m are the two nodes taken out of ids, which leaves tail.
  ghost predicate Taken(ids: seq<nat>, n: nat, m: nat, tail: seq<nat>, f: seq<nat>) {
    && multiset(ids) == multiset([n] + ([m] + tail))
    && At(f, n) <= At(f, m) && forall i :: 0 <= i < |tail| ==> At(f, m) <= At(f, tail[i])
  }

  lemma TakenFacts(ids: seq<nat>, n: nat, m: nat, tail: seq<nat>, f: seq<nat>, done: seq<nat>, leaves: set<nat>,
                   elems: nat, t: nat)
    requires Once(ids, done, leaves, elems, t) && Taken(ids, n, m, tail, f)
    ensures n != m && n < elems + t && m < elems + t
    ensures forall i :: 0 <= i < |done| ==> done[i] != n && done[i] != m && done[i] < elems + t
    ensures forall i :: 0 <= i < |tail| ==> tail[i] < elems + t
  {
    hide Nodes, At;
    var all := [n] + ([m] + tail);
    OncePermutation(ids, all, done, leaves, elems, t);
    OnceDistinct(all, done, leaves, elems, t);
    OnceBelow(all, done, leaves, elems, t);
    var s := all + done;
    assert s[0] == n && s[1] == m && all[0] == n && all[1] == m;
    assert n in all && m in all;
    forall i | 0 <= i < |done|
      ensures done[i] != n && done[i] != m && done[i] < elems + t
    {
      assert s[|all| + i] == done[i] && done[i] in done;
    }
    forall i | 0 <= i < |tail|
      ensures tail[i] < elems + t
    {
      assert all[i + 2] == tail[i] && tail[i] in all;
    }
  }

  lemma FamilyStep(done: seq<nat>, f: seq<nat>, dl: seq<nat>, elems: nat, t: nat, n: nat, m: nat)
    requires Family(done, f, dl, elems, t) && |done| == 2 * t && elems + t < |f| == |dl|
    requires n != m && n < elems + t && m < elems + t
    requires forall i :: 0 <= i < |done| ==> done[i] != n && done[i] != m
    ensures Family([m, n] + done, f[elems + t := f[n] + f[m]], dl[n := elems + t][m := elems + t], elems, t + 1)
  {
    hide Sons;
    var done2, f2, dl2 := [m, n] + done, f[elems + t := f[n] + f[m]], dl[n := elems + t][m := elems + t];
    forall u | 0 <= u < t + 1
      ensures Sons(done2, f2, dl2, elems, u)
    {
      if u < t {
        SonsKept(done, f, dl, elems, t, n, m, u);
      } else {
        SonsNew(done, f, dl, elems, t, n, m);
      }
    }
  }

  lemma SonsKept(done: seq<nat>, f: seq<nat>, dl: seq<nat>, elems: nat, t: nat, n: nat, m: nat, u: nat)
    requires Sons(done, f, dl, elems, u) && |done| == 2 * t && elems + t < |f| == |dl| && u < t
    requires n != m && n < elems + t && m < elems + t
    requires forall i :: 0 <= i < |done| ==> done[i] != n && done[i] != m
    ensures Sons([m, n] + done, f[elems + t := f[n] + f[m]], dl[n := elems + t][m := elems + t], elems, u)
  {
    var done2 := [m, n] + done;
    assert done2[|done2| - 1 - 2 * u] == done[|done| - 1 - 2 * u];
    assert done2[|done2| - 2 - 2 * u] == done[|done| - 2 - 2 * u];
  }

  lemma SonsNew(done: seq<nat>, f: seq<nat>, dl: seq<nat>, elems: nat, t: nat, n: nat, m: nat)
    requires |done| == 2 * t && elems + t < |f| == |dl|
    requires n != m && n < elems + t && m < elems + t
    ensures Sons([m, n] + done, f[elems + t := f[n] + f[m]], dl[n := elems + t][m := elems + t], elems, t)
  {
    var done2 := [m, n] + done;
    assert done2[|done2| - 1 - 2 * t] == n && done2[|done2| - 2 - 2 * t] == m;
  }

  lemma OrderedStep(ids: seq<nat>, n: nat, m: nat, tail: seq<nat>, done: seq<nat>, f: seq<nat>, node: nat)
    requires Ordered(ids, done, f) && Taken(ids, n, m, tail, f) && node < |f| && n < node && m < node
    requires forall i :: 0 <= i < |done| ==> done[i] < node
    requires forall i :: 0 <= i < |tail| ==> tail[i] < node
    ensures Ordered([node] + tail, [m, n] + done, f[node := f[n] + f[m]])
  {
    var f2, ids2, done2 := f[node := f[n] + f[m]], [node] + tail, [m, n] + done;
    assert n in multiset(ids) && m in multiset(ids);
    assert exists i :: 0 <= i < |ids| && ids[i] == n;
    assert exists i :: 0 <= i < |ids| && ids[i] == m;
    forall j | 0 <= j < |done|
      ensures At(f2, done[j]) == At(f, done[j]) <= At(f, n) == f[n]
    {
    }
    assert At(f2, n) == f[n] && At(f2, m) == f[m] && At(f2, node) == f[n] + f[m];
    forall i, j | 0 <= i <= j < |done2|
      ensures At(f2, done2[i]) >= At(f2, done2[j])
    {
      if j >= 2 && i >= 2 {
        assert done2[i] == done[i - 2] && done2[j] == done[j - 2];
      }
    }
    forall i, j | 0 <= i < |ids2| && 0 <= j < |done2|
      ensures At(f2, done2[j]) <= At(f2, ids2[i])
    {
      if i > 0 {
        assert At(f2, tail[i - 1]) == At(f, tail[i - 1]) >= f[m];
      }
    }
  }

  lemma FreqsStep(ids: seq<nat>, n: nat, m: nat, tail: seq<nat>, f: seq<nat>, node: nat)
    requires Taken(ids, n, m, tail, f) && node < |f| && n < node && m < node
    requires forall i :: 0 <= i < |tail| ==> tail[i] < node
    ensures multiset(Freqs(ids, f)) == multiset([f[n], f[m]] + Freqs(tail, f))
    ensures Freqs([node] + tail, f[node := f[n] + f[m]]) == [f[n] + f[m]] + Freqs(tail, f)
  {
    FreqsPermutation(ids, [n] + ([m] + tail), f);
    assert Freqs([n] + ([m] + tail), f) == [f[n], f[m]] + Freqs(tail, f);
  }

  lemma SumStep(a: seq<nat>, x: nat, y: nat, s: seq<nat>)
    requires multiset(a) == multiset([x, y] + s)
    ensures Sum([x + y] + s) == Sum(a)
  {
    SumPermutation(a, [x, y] + s);
    assert ([x, y] + s)[1..] == [y] + s && ([y] + s)[1..] == s && ([x + y] + s)[1..] == s;
  }

  lemma LiftsMerge(ws: multiset<nat>, after: multiset<nat>, ws0: multiset<nat>, k: nat, x: nat, y: nat, k2: nat)
    requires Smallest(ws, x, y) && Merged(ws, x, y) == after && Lifts(ws, ws0, k) && k2 == k + (x + y)
    ensures Lifts(after, ws0, k2)
  {
    hide Best, Smallest, Merged;
    forall c: nat
      ensures LiftsAt(after, ws0, k2, c)
    {
      if Best(after, c) {
        MergeBest(ws, x, y, c);
        assert LiftsAt(ws, ws0, k, c + x + y);
      }
    }
  }

  lemma LiftsStep(a: seq<nat>, x: nat, y: nat, s: seq<nat>, ws0: multiset<nat>, k: nat)
    requires multiset(a) == multiset([x, y] + s) && Lifts(multiset(a), ws0, k)
    requires x <= y && forall i :: 0 <= i < |s| ==> y <= s[i]
    ensures Lifts(multiset([x + y] + s), ws0, k + (x + y))
  {
    hide Lifts;
    SmallestTwo(x, y, s);
    MergedTwo(x, y, s);
    hide Smallest, Merged;
    LiftsMerge(multiset{x, y} + multiset(s), multiset([x + y] + s), ws0, k, x, y, k + (x + y));
  }

  lemma MergedTwo(x: nat, y: nat, s: seq<nat>)
    ensures multiset([x, y] + s) == multiset{x, y} + multiset(s)
    ensures Merged(multiset{x, y} + multiset(s), x, y) == multiset([x + y] + s)
  {
    assert multiset([x + y] + s) == multiset{x + y} + multiset(s);
  }

  lemma SmallestTwo(x: nat, y: nat, s: seq<nat>)
    requires x <= y && forall i :: 0 <= i < |s| ==> y <= s[i]
    ensures Smallest(multiset{x, y} + multiset(s), x, y)
  {
    var ws := multiset{x, y} + multiset(s);
    assert ws - multiset{x} == multiset{y} + multiset(s);
  }

  // The step of build_tree, on values.
  lemma MergeStep(ids: seq<nat>, n: nat, m: nat, tail: seq<nat>, done: seq<nat>, f: seq<nat>, dl: seq<nat>, elems: nat,
                  leaves: set<nat>, t: nat, node: nat, ws0: multiset<nat>, total: nat)
    requires Merging(ids, done, f, dl, elems, leaves, t, ws0, total) && Taken(ids, n, m, tail, f)
    requires node == elems + t < |f|
    ensures n != m && n < node && m < node && f[n] + f[m] <= total
    ensures Merging([node] + tail, [m, n] + done, f[node := f[n] + f[m]], dl[n := node][m := node], elems, leaves,
                    t + 1, ws0, total)
  {
    hide Family, Ordered, Lifts, Once, Freqs, Taken, Sum, InnerSum, At, TailAtLeast;
    TakenFacts(ids, n, m, tail, f, done, leaves, elems, t);
    TakenParts(ids, n, m, tail, f);
    OnceStep(ids, n, m, tail, done, leaves, elems, t, node);
    FamilyStep(done, f, dl, elems, t, n, m);
    OrderedStep(ids, n, m, tail, done, f, node);
    WeightsStep(ids, n, m, tail, f, elems, t, node, ws0);
  }

  // The weights of the nodes in the heap.
  lemma WeightsStep(ids: seq<nat>, n: nat, m: nat, tail: seq<nat>, f: seq<nat>, elems: nat, t: nat, node: nat,
                    ws0: multiset<nat>)
    requires Taken(ids, n, m, tail, f) && node == elems + t < |f| && n < node && m < node
    requires forall i :: 0 <= i < |tail| ==> tail[i] < node
    requires Lifts(multiset(Freqs(ids, f)), ws0, InnerSum(f, elems, t))
    ensures var f2 := f[node := f[n] + f[m]];
            Lifts(multiset(Freqs([node] + tail, f2)), ws0, InnerSum(f2, elems, t + 1))
            && Sum(Freqs([node] + tail, f2)) == Sum(Freqs(ids, f)) >= f[n] + f[m]
  {
    hide Lifts, Freqs, Taken, Sum, InnerSum;
    TakenParts(ids, n, m, tail, f);
    FreqsStep(ids, n, m, tail, f, node);
    var all, s, w := Freqs(ids, f), Freqs(tail, f), f[n] + f[m];
    SumStep(all, f[n], f[m], s);
    SumFirst(w, s);
    TailFreqs(tail, f, f[m]);
    LiftsStep(all, f[n], f[m], s, ws0, InnerSum(f, elems, t));
    InnerSumStep(f, elems, t, w);
  }

  predicate TailAtLeast(tail: seq<nat>, f: seq<nat>, y: nat) {
    forall i :: 0 <= i < |tail| ==> y <= At(f, tail[i])
  }

  lemma TakenParts(ids: seq<nat>, n: nat, m: nat, tail: seq<nat>, f: seq<nat>)
    requires Taken(ids, n, m, tail, f)
    ensures multiset(ids) == multiset([n] + ([m] + tail)) && At(f, n) <= At(f, m) && TailAtLeast(tail, f, At(f, m))
  {
  }

  lemma TailFreqs(tail: seq<nat>, f: seq<nat>, y: nat)
    requires TailAtLeast(tail, f, y)
    ensures forall i :: 0 <= i < |Freqs(tail, f)| ==> y <= Freqs(tail, f)[i]
  {
  }

  lemma SumFirst(x: nat, s: seq<nat>)
    ensures Sum([x] + s) >= x
  {
  }

  lemma InnerSumStep(f: seq<nat>, elems: nat, t: nat, w: nat)
    requires elems + t < |f|
    ensures InnerSum(f[elems + t := w], elems, t + 1) == InnerSum(f, elems, t) + w
  {
    InnerSumSame(f, f[elems + t := w], elems, t);
  }

  lemma OrderedPermutation(ids: seq<nat>, ids2: seq<nat>, done: seq<nat>, f: seq<nat>)
    requires Ordered(ids, done, f) && multiset(ids) == multiset(ids2)
    ensures Ordered(ids2, done, f)
  {
    hide At;
    forall i, j | 0 <= i < |ids2| && 0 <= j < |done|
      ensures At(f, done[j]) <= At(f, ids2[i])
    {
      assert ids2[i] in multiset(ids);
      var k :| 0 <= k < |ids| && ids[k] == ids2[i];
    }
  }

  // The order inside the heap does not matter.
  lemma MergingPermutation(ids: seq<nat>, ids2: seq<nat>, done: seq<nat>, f: seq<nat>, dl: seq<nat>, elems: nat,
                           leaves: set<nat>, t: nat, ws0: multiset<nat>, total: nat)
    requires Merging(ids, done, f, dl, elems, leaves, t, ws0, total) && multiset(ids) == multiset(ids2)
    ensures Merging(ids2, done, f, dl, elems, leaves, t, ws0, total)
  {
    hide Family, Ordered, Lifts, Once, Freqs, Sum;
    OncePermutation(ids, ids2, done, leaves, elems, t);
    OrderedPermutation(ids, ids2, done, f);
    FreqsPermutation(ids, ids2, f);
    SumPermutation(Freqs(ids, f), Freqs(ids2, f));
  }

  lemma MergingBelow(ids: seq<nat>, done: seq<nat>, f: seq<nat>, dl: seq<nat>, elems: nat,
                     leaves: set<nat>, t: nat, ws0: multiset<nat>, total: nat)
    requires Merging(ids, done, f, dl, elems, leaves, t, ws0, total)
    ensures elems + t <= |f| == |dl| && forall i :: 0 <= i < |ids| ==> ids[i] < elems + t
  {
    OnceBelow(ids, done, leaves, elems, t);
    forall i | 0 <= i < |ids|
      ensures ids[i] < elems + t
    {
      assert ids[i] in ids;
    }
  }

  lemma DoneBelow(ids: seq<nat>, done: seq<nat>, f: seq<nat>, dl: seq<nat>, elems: nat, leaves: set<nat>, t: nat,
                  ws0: multiset<nat>, total: nat)
    requires Merging(ids, done, f, dl, elems, leaves, t, ws0, total)
    ensures |done| == 2 * t && forall i :: 0 <= i < |done| ==> done[i] < elems + t
  {
    OnceBelow(ids, done, leaves, elems, t);
    forall i | 0 <= i < |done|
      ensures done[i] < elems + t
    {
      assert done[i] in done;
    }
  }

  // The nodes taken out are leaves or inner nodes.
  lemma TakenNodes(ids: seq<nat>, n: nat, m: nat, tail: seq<nat>, f: seq<nat>, done: seq<nat>, leaves: set<nat>,
                   elems: nat, t: nat)
    requires Once(ids, done, leaves, elems, t) && Taken(ids, n, m, tail, f)
    ensures (n in leaves || n >= elems) && (m in leaves || m >= elems)
  {
    hide At;
    assert n in multiset(ids) && m in multiset(ids);
    assert n in multiset(ids + done) && m in multiset(ids + done);
    assert n in Nodes(leaves, elems, t) && m in Nodes(leaves, elems, t);
    NodesAre(leaves, elems, t, n);
    NodesAre(leaves, elems, t, m);
  }
}
