/**
  A rarer symbol never has a shorter code.  When lengths were cut this is how they were dealt
  out; otherwise it follows from the code being best: exchanging the two lengths would
  give a cheaper one.
 */
module HuffmanOrder {
  import opened Bits
  import opened Canonical
  import opened HuffmanCost
  import opened HuffmanTree
  import opened Depths
  import opened LengthLimit
  import opened Leaves
  import opened BuildTree

  // The symbols below n of nonzero frequency, with their lengths.
  function Items(f: seq<nat>, l: seq<nat>, n: nat): seq<Item> {
    if n == 0 then []
    else Items(f, l, n - 1) + if At(f, n - 1) != 0 then [Item(At(f, n - 1), At(l, n - 1))] else []
  }

  lemma CostPush(ps: seq<Item>, p: Item)
    ensures Cost(ps + [p]) == Cost(ps) + ItemCost(p)
  {
    hide Cost;
    CostWithout(ps + [p], |ps|);
    assert Without(ps + [p], |ps|) == ps;
  }

  lemma KraftPush(ps: seq<Item>, p: Item, n: nat)
    requires Within(ps, n) && p.l <= n
    ensures Within(ps + [p], n) && Kraft(ps + [p], n) == Kraft(ps, n) + Pow2(n - p.l)
  {
    hide Kraft, Pow2;
    KraftWithout(ps + [p], n, |ps|);
    assert Without(ps + [p], |ps|) == ps;
  }

  lemma {:induction false} ItemsAre(f: seq<nat>, l: seq<nat>, n: nat)
    ensures WeightsOf(Items(f, l, n)) == NonZero(f, n)
    ensures Cost(Items(f, l, n)) == Dot(f, l, n)
  {
    hide Cost;
    if n == 0 {
      assert Cost([]) == 0 by {
        NoCost();
      }
    } else {
      ItemsAre(f, l, n - 1);
      var p := Item(At(f, n - 1), At(l, n - 1));
      CostPush(Items(f, l, n - 1), p);
      if At(f, n - 1) == 0 {
        assert Items(f, l, n) == Items(f, l, n - 1) + [] == Items(f, l, n - 1);
        assert NonZero(f, n) == NonZero(f, n - 1);
      } else {
        assert WeightsOf(Items(f, l, n - 1) + [p]) == WeightsOf(Items(f, l, n - 1)) + [p.w];
      }
    }
  }

  lemma NoCost()
    ensures Cost([]) == 0
  {
  }

  // ---------- the code space of the items ----------

  lemma {:induction false} FilledPush(lens: seq<nat>, s: nat, l: nat)
    requires s < |lens| && l <= MAXBITS
    ensures Filled(lens[..s + 1], l) == Filled(lens[..s], l) + if 0 < lens[s] <= l then Pow2(MAXBITS - lens[s]) else 0
  {
    hide Shl, Pow2, Count;
    if l > 0 {
      FilledPush(lens, s, l - 1);
      CountPush(lens, s, l);
      ShlAdd(Count(lens[..s], l), 1, MAXBITS - l);
      ShlOne(MAXBITS - l);
    }
  }

  lemma {:induction false} FilledSame(a: seq<nat>, b: seq<nat>, l: nat)
    requires l <= MAXBITS && multiset(a) == multiset(b)
    ensures Filled(a, l) == Filled(b, l)
  {
    if l > 0 {
      FilledSame(a, b, l - 1);
    }
  }

  lemma {:induction false} ItemsKraft(f: seq<nat>, l: seq<nat>, n: nat)
    requires n <= |f| && n <= |l| && forall x :: 0 <= x < n ==> l[x] <= MAXBITS && (f[x] > 0 <==> l[x] > 0)
    ensures Within(Items(f, l, n), MAXBITS)
    ensures Kraft(Items(f, l, n), MAXBITS) == Filled(l[..n], MAXBITS)
  {
    hide Kraft, Filled, Pow2;
    if n == 0 {
      NoKraft();
      assert l[..0] == [];
    } else {
      ItemsKraft(f, l, n - 1);
      FilledPush(l, n - 1, MAXBITS);
      if f[n - 1] == 0 {
        assert Items(f, l, n) == Items(f, l, n - 1) + [] == Items(f, l, n - 1);
      } else {
        KraftPush(Items(f, l, n - 1), Item(f[n - 1], l[n - 1]), MAXBITS);
      }
    }
  }

  lemma NoKraft()
    ensures Kraft([], MAXBITS) == 0 && Filled([], MAXBITS) == 0
  {
    FilledNothing(MAXBITS);
  }

  lemma {:induction false} FilledNothing(l: nat)
    requires l <= MAXBITS
    ensures Filled([], l) == 0
  {
    if l > 0 {
      FilledNothing(l - 1);
      ShlIsMul(0, MAXBITS - l);
    }
  }

  // No lengths that fit into the code space cost less than the best.
  lemma NoneCheaper(f: seq<nat>, l: seq<nat>, n: nat, c: nat)
    requires n == |f| == |l| && forall x :: 0 <= x < n ==> l[x] <= MAXBITS && (f[x] > 0 <==> l[x] > 0)
    requires !Oversubscribed(l) && Best(multiset(NonZero(f, n)), c)
    ensures Dot(f, l, n) >= c
  {
    hide Filled, Kraft, Cost, Dot, NonZero, Pow2, Items;
    ItemsAre(f, l, n);
    ItemsKraft(f, l, n);
    assert l[..n] == l;
    assert Feasible(Items(f, l, n), MAXBITS);
  }

  // ---------- exchanging two lengths ----------

  lemma Exchanged(a: nat, b: nat, s: nat, t: nat)
    requires a < b && s < t
    ensures Prod(a, t) + Prod(b, s) < Prod(a, s) + Prod(b, t)
  {
    assert (b - a) * (t - s) > 0;
    assert (b - a) * (t - s) == b * t - b * s - a * t + a * s;
  }

  lemma ExchangeCost(f: seq<nat>, l: seq<nat>, n: nat, x: nat, y: nat)
    requires n == |f| == |l| && x < n && y < n && f[x] < f[y] && l[x] < l[y]
    ensures Dot(f, l[x := l[y]][y := l[x]], n) < Dot(f, l, n)
  {
    hide Dot, Prod;
    DotUpdate(f, l, n, x, l[y]);
    DotUpdate(f, l[x := l[y]], n, y, l[x]);
    Exchanged(f[x], f[y], l[x], l[y]);
  }

  lemma BestOrder(f: seq<nat>, l: seq<nat>, n: nat, x: nat, y: nat)
    requires n == |f| == |l| && forall z :: 0 <= z < n ==> l[z] <= MAXBITS && (f[z] > 0 <==> l[z] > 0)
    requires !Oversubscribed(l) && Best(multiset(NonZero(f, n)), Dot(f, l, n))
    requires x < n && y < n && 0 < f[x] < f[y]
    ensures l[x] >= l[y]
  {
    hide Filled, Dot, Best, NonZero, Pow2;
    if l[x] < l[y] {
      var other := l[x := l[y]][y := l[x]];
      assert multiset(other) == multiset(l);
      FilledSame(other, l, MAXBITS);
      NoneCheaper(f, other, n, Dot(f, l, n));
      ExchangeCost(f, l, n, x, y);
      assert false;
    }
  }

  /**
    In every tree that build_tree makes, cut or not, a symbol is never given a shorter
    code than a more frequent one.
   */
  lemma RarerNeverShorter(f: seq<nat>, freqs: seq<nat>, lens: seq<nat>, depths: seq<nat>, desc: Desc, maxCode: nat,
                          x: nat, y: nat)
    requires TreeBuilt(f, freqs, lens, depths, desc, maxCode)
    requires x < desc.elems && y < desc.elems && 0 < freqs[x] < freqs[y]
    ensures lens[x] >= lens[y]
  {
    hide Filled, Dot, Best, NonZero, Pow2;
    if forall z :: 0 <= z < desc.elems ==> depths[z] <= desc.max_length {
      BestOrder(freqs, lens, desc.elems, x, y);
    }
  }

  lemma {:induction false} UptoSame(a: seq<nat>, b: seq<nat>, l: nat)
    requires |a| == |b| && forall x :: 0 <= x < |a| ==> (a[x] > 0 <==> b[x] > 0) && a[x] <= l && b[x] <= l
    ensures Upto(a, l) == Upto(b, l)
    decreases |a|
  {
    if a != [] {
      UptoSame(a[..|a| - 1], b[..|b| - 1], l);
    }
  }

  /**
    How many symbols have each length follows from the depths alone, cut or not: two outcomes
    differ at most in which of equally frequent symbols has which length.
   */
  lemma CutDetermined(f: seq<nat>, freqs: seq<nat>, lens: seq<nat>, lens': seq<nat>, depths: seq<nat>, desc: Desc,
                      maxCode: nat, maxCode': nat, l: nat)
    requires TreeBuilt(f, freqs, lens, depths, desc, maxCode) && TreeBuilt(f, freqs, lens', depths, desc, maxCode')
    requires 1 <= l <= MAXBITS
    ensures Count(lens, l) == Count(lens', l)
  {
    hide Complete, Dot, Best, NonZero, Count, Upto, Shortened;
    if exists x :: 0 <= x < desc.elems && depths[x] > desc.max_length {
      UptoSame(lens, lens', MAXBITS);
      ShortenedSame(depths, lens, lens', desc.max_length, l);
    } else {
      assert forall x :: 0 <= x < desc.elems ==> depths[x] <= desc.max_length;
    }
  }
}
