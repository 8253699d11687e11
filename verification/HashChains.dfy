/**
  The hash chains of deflate.c: head holds the most recent string for each hash value, prev
  the string before a given one.  Positions are window positions; 0 ends a chain.

  text is the part of the window that holds data, ins the set of the strings inserted so far
  and top the position after the last of them.  Strings so old that their slot in prev may have been taken by
  a younger one say nothing about their predecessor.
 */
module HashChains {
  import opened Bits
  import opened Hash

  // The position in prev: str & w_mask, for the positions of a window of two halves.
  function Slot(p: nat, w: nat): int {
    if p < w then p else p - w
  }

  lemma {:induction false} LowIsSlot(p: nat, n: nat)
    requires p < 2 * Pow2(n)
    ensures Low(p, n) == Slot(p, Pow2(n)) && Slot(p, Pow2(n)) < Pow2(n)
    decreases n
  {
    if n > 0 {
      LowIsSlot(p / 2, n - 1);
    }
  }

  function KeyAt(text: seq<nat>, p: nat, hb: nat, hs: nat): nat
    requires p + 3 <= |text|
  {
    Key(text[p], text[p + 1], text[p + 2], hb, hs)
  }

  // No inserted string between q and below has the hash h.
  ghost predicate NoneBetween(ins: set<nat>, text: seq<nat>, q: nat, h: nat, below: nat, hb: nat, hs: nat) {
    forall x :: x in ins && q < x < below && x + 3 <= |text| ==> KeyAt(text, x, hb, hs) != h
  }

  // q is the last inserted string with the hash h before position below, or the end of a
  // chain: then there is none.
  ghost predicate Link(ins: set<nat>, text: seq<nat>, q: nat, h: nat, below: nat, hb: nat, hs: nat) {
    && (q == 0 || (q in ins && q < below && q + 3 <= |text| && KeyAt(text, q, hb, hs) == h))
    && NoneBetween(ins, text, q, h, below, hb, hs)
  }

  ghost predicate Chains(head: seq<nat>, prev: seq<nat>, ins: set<nat>, text: seq<nat>, w: nat, hb: nat, hs: nat,
                         top: nat) {
    && |prev| == w && |head| == Pow2(hb) && top <= 2 * w && (top > 0 ==> top - 1 in ins)
    && (forall p :: p in ins ==> p + 3 <= |text| && p < top)
    && (forall h :: 0 <= h < |head| ==> Link(ins, text, head[h], h, top, hb, hs))
    && (forall p :: p in ins && p + w >= top ==> Link(ins, text, prev[Slot(p, w)], KeyAt(text, p, hb, hs), p, hb, hs))
  }

  lemma LinkMore(ins: set<nat>, text: seq<nat>, q: nat, h: nat, below: nat, hb: nat, hs: nat, ins2: set<nat>,
                 more: seq<nat>, below2: nat)
    requires Link(ins, text, q, h, below, hb, hs) && ins <= ins2 && below <= below2
    requires forall x :: x in ins2 && x < below2 ==>
      x + 3 <= |text| && ((x in ins && x < below) || KeyAt(text, x, hb, hs) != h)
    ensures Link(ins2, text + more, q, h, below2, hb, hs)
  {
    hide Key;
  }

  lemma LinkLast(ins: set<nat>, text: seq<nat>, p: nat, hb: nat, hs: nat)
    requires p in ins && p + 3 <= |text|
    ensures Link(ins, text, p, KeyAt(text, p, hb, hs), p + 1, hb, hs)
  {
    hide Key;
  }

  // INSERT_STRING.
  lemma ChainsInsert(head: seq<nat>, prev: seq<nat>, ins: set<nat>, text: seq<nat>, w: nat, hb: nat, hs: nat,
                     top: nat, p: nat)
    requires Chains(head, prev, ins, text, w, hb, hs, top) && top <= p && p + 3 <= |text| && p < 2 * w
    ensures var k := KeyAt(text, p, hb, hs);
            k < |head| && 0 <= Slot(p, w) < |prev|
            && Chains(head[k := p], prev[Slot(p, w) := head[k]], ins + {p}, text, w, hb, hs, p + 1)
  {
    hide Key, Pow2, Link;
    var k := KeyAt(text, p, hb, hs);
    var head2, prev2, ins2 := head[k := p], prev[Slot(p, w) := head[k]], ins + {p};
    assert text + [] == text;
    forall h | 0 <= h < |head|
      ensures Link(ins2, text, head2[h], h, p + 1, hb, hs)
    {
      if h != k {
        LinkMore(ins, text, head[h], h, top, hb, hs, ins2, [], p + 1);
      } else {
        LinkLast(ins2, text, p, hb, hs);
      }
    }
    forall q | q in ins2 && q + w >= p + 1
      ensures Link(ins2, text, prev2[Slot(q, w)], KeyAt(text, q, hb, hs), q, hb, hs)
    {
      if q == p {
        LinkMore(ins, text, head[k], k, top, hb, hs, ins2, [], p);
      } else {
        assert q in ins && Slot(q, w) != Slot(p, w);
        LinkMore(ins, text, prev[Slot(q, w)], KeyAt(text, q, hb, hs), q, hb, hs, ins2, [], q);
      }
    }
  }

  // More input in the window.
  lemma ChainsAppend(head: seq<nat>, prev: seq<nat>, ins: set<nat>, text: seq<nat>, w: nat, hb: nat, hs: nat,
                     top: nat, more: seq<nat>)
    requires Chains(head, prev, ins, text, w, hb, hs, top)
    ensures Chains(head, prev, ins, text + more, w, hb, hs, top)
  {
    hide Key, Pow2, Link;
    forall h | 0 <= h < |head|
      ensures Link(ins, text + more, head[h], h, top, hb, hs)
    {
      LinkMore(ins, text, head[h], h, top, hb, hs, ins, more, top);
    }
    forall p | p in ins && p + w >= top
      ensures Link(ins, text + more, prev[Slot(p, w)], KeyAt(text + more, p, hb, hs), p, hb, hs)
    {
      assert KeyAt(text + more, p, hb, hs) == KeyAt(text, p, hb, hs);
      LinkMore(ins, text, prev[Slot(p, w)], KeyAt(text, p, hb, hs), p, hb, hs, ins, more, p);
    }
  }

  // No strings at all.
  lemma ChainsEmpty(head: seq<nat>, prev: seq<nat>, text: seq<nat>, w: nat, hb: nat, hs: nat)
    requires |prev| == w && |head| == Pow2(hb) && forall h :: 0 <= h < |head| ==> head[h] == 0
    ensures Chains(head, prev, {}, text, w, hb, hs, 0)
  {
  }

  // ---------- sliding ----------

  function SlidOne(m: nat, w: nat): nat {
    if m >= w then m - w else 0
  }

  function Slid(s: seq<nat>, w: nat): (r: seq<nat>)
    ensures |r| == |s|
  {
    seq(|s|, i requires 0 <= i < |s| => SlidOne(s[i], w))
  }

  predicate Survives(ins: set<nat>, x: nat, w: nat) {
    x + w in ins
  }

  // The strings that are still in the window, all inserted ones being below top.
  function SlidSet(ins: set<nat>, w: nat, top: nat): (r: set<nat>)
    ensures forall x: nat :: x in r <==> x < top && Survives(ins, x, w)
  {
    set x: nat | x < top && Survives(ins, x, w)
  }

  lemma LinkSlid(ins: set<nat>, text: seq<nat>, q: nat, h: nat, below: nat, hb: nat, hs: nat, w: nat, top: nat)
    requires Link(ins, text, q, h, below, hb, hs) && w <= |text| && below <= top
    ensures Link(SlidSet(ins, w, top), text[w..], SlidOne(q, w), h, SlidOne(below, w), hb, hs)
  {
    hide Key;
    if q > w {
      assert Survives(ins, q - w, w);
      assert text[w..][q - w] == text[q] && text[w..][q - w + 1] == text[q + 1] && text[w..][q - w + 2] == text[q + 2];
    }
  }

  // Sliding the window by its half, chains and all.
  lemma ChainsSlide(head: seq<nat>, prev: seq<nat>, ins: set<nat>, text: seq<nat>, w: nat, hb: nat, hs: nat, top: nat)
    requires Chains(head, prev, ins, text, w, hb, hs, top) && w <= |text|
    ensures Chains(Slid(head, w), Slid(prev, w), SlidSet(ins, w, top), text[w..], w, hb, hs, SlidOne(top, w))
  {
    hide Key, Pow2;
    var ins2, text2, top2 := SlidSet(ins, w, top), text[w..], SlidOne(top, w);
    assert top > w ==> Survives(ins, top - 1 - w, w);
    forall h | 0 <= h < |head|
      ensures Link(ins2, text2, Slid(head, w)[h], h, top2, hb, hs)
    {
      LinkSlid(ins, text, head[h], h, top, hb, hs, w, top);
    }
    forall p | p in ins2
      ensures p + 3 <= |text2| && p < top2
      ensures p + w >= top2 ==> Link(ins2, text2, Slid(prev, w)[Slot(p, w)], KeyAt(text2, p, hb, hs), p, hb, hs)
    {
      var q := p + w;
      assert Survives(ins, p, w) && q in ins;
      if p + w >= top2 {
        assert KeyAt(text2, p, hb, hs) == KeyAt(text, q, hb, hs) && Slot(q, w) == p == Slot(p, w);
        LinkSlid(ins, text, prev[p], KeyAt(text, q, hb, hs), q, hb, hs, w, top);
      }
    }
  }

  // ---------- walking a chain ----------

  // The link of a string that is not too far back is the last string before it with the same
  // hash.
  lemma ChainNext(head: seq<nat>, prev: seq<nat>, ins: set<nat>, text: seq<nat>, w: nat, hb: nat, hs: nat, top: nat,
                  p: nat)
    requires Chains(head, prev, ins, text, w, hb, hs, top) && p in ins && p + w >= top
    ensures p + 3 <= |text| && p < 2 * w && 0 <= Slot(p, w) < |prev|
    ensures var q := prev[Slot(p, w)];
            (q == 0 || (q in ins && q < p && q + 3 <= |text| && KeyAt(text, q, hb, hs) == KeyAt(text, p, hb, hs)))
            && forall x :: x in ins && q < x < p ==> x + 3 <= |text| && KeyAt(text, x, hb, hs) != KeyAt(text, p, hb, hs)
  {
    hide Key, Pow2;
  }
}
