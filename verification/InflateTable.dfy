/**
  inflate_table: from a vector of code lengths to the two-level lookup table that
  inflate() and inflate_fast() decode with.

  The table is filled by walking the codes in canonical order while the code value is
  kept bit-reversed.  The proof follows the position of the walk in the code space: after
  the first i codes, every 15-bit window that lies before position Pos(i) looks up to the
  symbol whose code it begins with.
 */
module InflateTable {
  import opened Bits
  import opened Canonical
  import opened TableSpace

  datatype CodeType = CODES | LENS | DISTS

  // Structure "code" of inftrees.h: operation, bits to drop, value.
  datatype Entry = Entry(op: nat, bits: nat, val: nat)

  const ENOUGH_LENS: nat := 852
  const ENOUGH_DISTS: nat := 592

  const LBASE: seq<nat> := [
    3, 4, 5, 6, 7, 8, 9, 10, 11, 13, 15, 17, 19, 23, 27, 31,
    35, 43, 51, 59, 67, 83, 99, 115, 131, 163, 195, 227, 258, 0, 0]
  const LEXT: seq<nat> := [
    16, 16, 16, 16, 16, 16, 16, 16, 17, 17, 17, 17, 18, 18, 18, 18,
    19, 19, 19, 19, 20, 20, 20, 20, 21, 21, 21, 21, 16, 72, 78]
  const DBASE: seq<nat> := [
    1, 2, 3, 4, 5, 7, 9, 13, 17, 25, 33, 49, 65, 97, 129, 193,
    257, 385, 513, 769, 1025, 1537, 2049, 3073, 4097, 6145,
    8193, 12289, 16385, 24577, 0, 0]
  const DEXT: seq<nat> := [
    16, 16, 16, 16, 17, 17, 18, 18, 19, 19, 20, 20, 21, 21, 22, 22,
    23, 23, 24, 24, 25, 25, 26, 26, 27, 27,
    28, 28, 29, 29, 64, 64]

  // The number of symbols each kind of code may have.
  function MaxCodes(t: CodeType): nat {
    match t case CODES => 19 case LENS => 288 case DISTS => 32
  }

  // Table space the caller has set aside; the lengths code never needs a sub-table.
  function Capacity(t: CodeType): nat {
    match t case CODES => 128 case LENS => ENOUGH_LENS case DISTS => ENOUGH_DISTS
  }

  const INVALID := Entry(64, 1, 0)

  // The entry for a symbol: a literal, the end of block, or a base value whose
  // operation holds the number of extra bits.
  function SymbolEntry(t: CodeType, sym: nat, bits: nat): Entry
    requires sym < MaxCodes(t)
  {
    match t
    case CODES => Entry(0, bits, sym)
    case LENS =>
      if sym < 256 then Entry(0, bits, sym)
      else if sym == 256 then Entry(96, bits, 0)
      else Entry(LEXT[sym - 257], bits, LBASE[sym - 257])
    case DISTS => Entry(DEXT[sym], bits, DBASE[sym])
  }

  predicate IsLink(e: Entry) {
    0 < e.op < 16
  }

  lemma SymbolEntryNoLink(t: CodeType, sym: nat, bits: nat)
    requires sym < MaxCodes(t)
    ensures !IsLink(SymbolEntry(t, sym, bits))
  {
    assert forall i :: 0 <= i < |LEXT| ==> LEXT[i] >= 16;
    assert forall i :: 0 <= i < |DEXT| ==> DEXT[i] >= 16;
  }

  // ---------- what a table means ----------

  // The outcome of decoding one code: operation, value and number of bits consumed.
  datatype Decoded = Decoded(op: nat, val: nat, bits: nat)

  predicate InTable(tab: seq<Entry>, start: nat, root: nat, w: nat) {
    && start + Low(w, root) < |tab|
    && var e := tab[start + Low(w, root)];
       IsLink(e) ==> start + e.val + Low(Shr(w, root), e.op) < |tab|
  }

  // Root lookup and at most one sub-table lookup on the window w.
  function Lookup(tab: seq<Entry>, start: nat, root: nat, w: nat): Decoded
    requires InTable(tab, start, root, w)
  {
    var e := tab[start + Low(w, root)];
    if IsLink(e) then
      var f := tab[start + e.val + Low(Shr(w, root), e.op)];
      Decoded(f.op, f.val, e.bits + f.bits)
    else
      Decoded(e.op, e.val, e.bits)
  }

  // A code of l bits is found in the root table, or behind a link when it is too long.
  predicate Rooted(tab: seq<Entry>, start: nat, root: nat, w: nat, l: nat)
    requires InTable(tab, start, root, w)
  {
    var e := tab[start + Low(w, root)];
    if l <= root then !IsLink(e) else IsLink(e) && e.bits == root && root + e.op <= MAXBITS
  }

  function DecodedSymbol(t: CodeType, sym: nat, bits: nat): Decoded
    requires sym < MaxCodes(t)
  {
    var e := SymbolEntry(t, sym, bits);
    Decoded(e.op, e.val, bits)
  }

  predicate InInterval(lens: seq<nat>, s: nat, w: nat) {
    && s < |lens| && 0 < lens[s] <= MAXBITS && w < Pow2(MAXBITS)
    && Start(lens, s) <= Rev(w, MAXBITS) < Start(lens, s) + Pow2(MAXBITS - lens[s])
  }

  // Every window that begins with the code of s looks up to s.
  ghost predicate Represents(tab: seq<Entry>, start: nat, root: nat, t: CodeType, lens: seq<nat>) {
    && |lens| <= MaxCodes(t)
    && forall s: nat, w: nat :: InInterval(lens, s, w) ==>
         && InTable(tab, start, root, w) && Lookup(tab, start, root, w) == DecodedSymbol(t, s, lens[s])
         && Rooted(tab, start, root, w, lens[s])
  }

  // ---------- symbols sorted by length ----------

  // The number of codes shorter than l.
  function Offs(lens: seq<nat>, l: nat): nat {
    if l <= 1 then 0 else Offs(lens, l - 1) + Count(lens, l - 1)
  }

  ghost predicate Sorted(lens: seq<nat>, order: seq<nat>) {
    && LengthsOk(lens)
    && |order| == Offs(lens, MAXBITS + 1)
    && forall i :: 0 <= i < |order| ==> Placed(lens, order[i], i)
  }

  predicate Placed(lens: seq<nat>, s: nat, i: nat) {
    s < |lens| && lens[s] > 0 && Offs(lens, lens[s]) + Rank(lens, s) == i
  }

  lemma {:induction false} OffsMono(lens: seq<nat>, k: nat, l: nat)
    requires k <= l
    ensures Offs(lens, k) <= Offs(lens, l)
    decreases l
  {
    if k < l {
      OffsMono(lens, k, l - 1);
    }
  }

  // A sorted position lies in the block of its length.
  lemma LengthBlock(lens: seq<nat>, order: seq<nat>, i: nat)
    requires Sorted(lens, order) && i < |order|
    ensures order[i] < |lens| && 0 < lens[order[i]] <= MAXBITS
    ensures Offs(lens, lens[order[i]]) <= i < Offs(lens, lens[order[i]] + 1)
  {
    assert Placed(lens, order[i], i);
    RankBound(lens, order[i]);
  }

  lemma LengthAt(lens: seq<nat>, order: seq<nat>, i: nat, l: nat)
    requires Sorted(lens, order) && i < |order| && 1 <= l
    requires Offs(lens, l) <= i < Offs(lens, l + 1)
    ensures order[i] < |lens| && lens[order[i]] == l
  {
    LengthBlock(lens, order, i);
    var m := lens[order[i]];
    if m < l {
      OffsMono(lens, m + 1, l);
      assert false;
    } else if m > l {
      OffsMono(lens, l + 1, m);
      assert false;
    }
  }

  lemma LengthsSorted(lens: seq<nat>, order: seq<nat>, i: nat, j: nat)
    requires Sorted(lens, order) && i <= j < |order|
    ensures order[i] < |lens| && order[j] < |lens|
    ensures lens[order[i]] <= lens[order[j]]
  {
    LengthBlock(lens, order, i);
    LengthBlock(lens, order, j);
    if lens[order[j]] < lens[order[i]] {
      OffsMono(lens, lens[order[j]] + 1, lens[order[i]]);
      assert false;
    }
  }

  // ---------- position of the walk in the code space ----------

  ghost function Pos(lens: seq<nat>, order: seq<nat>, i: nat): nat
    requires i <= |order| && Sorted(lens, order)
  {
    if i == 0 then 0
    else
      assert Placed(lens, order[i - 1], i - 1);
      Pos(lens, order, i - 1) + Pow2(MAXBITS - lens[order[i - 1]])
  }

  lemma {:induction false} PosMono(lens: seq<nat>, order: seq<nat>, i: nat, j: nat)
    requires Sorted(lens, order) && i <= j <= |order|
    ensures Pos(lens, order, i) <= Pos(lens, order, j)
    decreases j
  {
    if i < j {
      PosMono(lens, order, i, j - 1);
    }
  }

  lemma SortedLength(lens: seq<nat>, order: seq<nat>)
    requires Sorted(lens, order)
    ensures |order| == Offs(lens, MAXBITS + 1)
  {
  }

  lemma {:induction false} PosBlock(lens: seq<nat>, order: seq<nat>, l: nat, k: nat)
    requires Sorted(lens, order) && 1 <= l <= MAXBITS && k <= Count(lens, l)
    ensures Offs(lens, l) + k <= |order|
    ensures Pos(lens, order, Offs(lens, l) + k) == Filled(lens, l - 1) + Shl(k, MAXBITS - l)
    decreases l, k
  {
    hide Sorted, Shl, Pow2;
    assert Offs(lens, l) + k <= |order| by { SortedLength(lens, order); OffsMono(lens, l + 1, MAXBITS + 1); }
    ShlOne(MAXBITS - l);
    if k > 0 {
      var i := Offs(lens, l) + k - 1;
      PosBlock(lens, order, l, k - 1);
      LengthAt(lens, order, i, l);
      assert Pos(lens, order, i + 1) == Pos(lens, order, i) + Pow2(MAXBITS - l);
      assert Shl(k, MAXBITS - l) == Shl(k - 1, MAXBITS - l) + Pow2(MAXBITS - l) by {
        ShlAdd(k - 1, 1, MAXBITS - l);
      }
    } else if l > 1 {
      PosBlock(lens, order, l - 1, Count(lens, l - 1));
    }
  }

  // The i-th code in sorted order starts at Pos(i).
  lemma PosIsStart(lens: seq<nat>, order: seq<nat>, i: nat)
    requires Sorted(lens, order) && i < |order|
    ensures order[i] < |lens| && 0 < lens[order[i]] <= MAXBITS
    ensures Pos(lens, order, i) == Start(lens, order[i])
    ensures Pos(lens, order, i + 1) == Start(lens, order[i]) + Pow2(MAXBITS - lens[order[i]])
  {
    assert Placed(lens, order[i], i);
    hide Rank, Filled, Shl, Pow2, Offs;
    RankBound(lens, order[i]);
    PosBlock(lens, order, lens[order[i]], Rank(lens, order[i]));
  }

  lemma PosEnd(lens: seq<nat>, order: seq<nat>)
    requires Sorted(lens, order)
    ensures Pos(lens, order, |order|) == Filled(lens, MAXBITS)
  {
    PosBlock(lens, order, MAXBITS, Count(lens, MAXBITS));
  }

  // Every used symbol has its place in the sorted order.
  lemma PlaceOf(lens: seq<nat>, order: seq<nat>, s: nat) returns (i: nat)
    requires Sorted(lens, order) && s < |lens| && lens[s] > 0
    ensures i < |order| && order[i] == s
  {
    var l := lens[s];
    i := Offs(lens, l) + Rank(lens, s);
    RankBound(lens, s);
    OffsMono(lens, l + 1, MAXBITS + 1);
    LengthAt(lens, order, i, l);
    assert Placed(lens, order[i], i);
    if order[i] < s {
      RankOrder(lens, order[i], s);
      assert false;
    } else if s < order[i] {
      RankOrder(lens, s, order[i]);
      assert false;
    }
  }

  // ---------- filling the table ----------

  // The code being entered and the place of its tables.
  datatype Plan = Plan(t: CodeType, lens: seq<nat>, order: seq<nat>, start: nat, root: nat) {
    ghost predicate Valid() {
      && Sorted(lens, order) && |lens| <= MaxCodes(t) && 1 <= root <= MAXBITS
      && forall i :: 0 <= i < |order| ==> order[i] < |lens|
    }

    function Len(i: nat): nat
      requires i < |order| && order[i] < |lens|
    {
      lens[order[i]]
    }
  }

  // The table currently filled: its offset, its index bits, its root entry.
  datatype Cursor = Cursor(next: nat, curr: nat, low: int)

  ghost predicate Matches(p: Plan, w: nat, j: nat)
    requires p.Valid()
  {
    w < Pow2(MAXBITS) && j < |p.order| && Pos(p.lens, p.order, j) <= Rev(w, MAXBITS) < Pos(p.lens, p.order, j + 1)
  }

  // Window w looks up to the j-th code.
  ghost predicate Good(p: Plan, c: Cursor, tab: seq<Entry>, w: nat, j: nat)
    requires p.Valid() && j < |p.order|
  {
    && p.start + Low(w, p.root) < |tab|
    && var e := tab[p.start + Low(w, p.root)];
       if p.Len(j) <= p.root then
         e == SymbolEntry(p.t, p.order[j], p.Len(j))
       else
         && IsLink(e) && e.bits == p.root && e.val >= Pow2(p.root) && p.root + e.op <= MAXBITS
         && (e.val + Pow2(e.op) <= c.next
             || (Low(w, p.root) == c.low && e == Entry(c.curr, p.root, c.next)))
         && p.start + e.val + Pow2(e.op) <= |tab|
         && tab[p.start + e.val + Low(Shr(w, p.root), e.op)] == SymbolEntry(p.t, p.order[j], p.Len(j) - p.root)
  }

  // The first i codes have been entered.
  ghost predicate Done(p: Plan, c: Cursor, tab: seq<Entry>, i: nat)
    requires p.Valid()
  {
    forall w: nat, j: nat :: j < i && Matches(p, w, j) ==> Good(p, c, tab, w, j)
  }

  // Replicating an entry writes the slots whose low k bits are h.
  predicate Replicated(before: seq<Entry>, after: seq<Entry>, next: nat, curr: nat, k: nat, h: nat, here: Entry) {
    && |after| == |before|
    && forall a :: 0 <= a < |after| ==>
         after[a] == if next <= a < next + Pow2(curr) && Low(a - next, k) == h then here else before[a]
  }

  // Code i is the bit-reversed position: the windows it matches are those ending in huff.
  lemma CodeWindow(p: Plan, i: nat, huff: nat, w: nat)
    requires p.Valid() && i < |p.order|
    requires huff < Pow2(p.Len(i)) && Rev(huff, MAXBITS) == Pos(p.lens, p.order, i)
    ensures Matches(p, w, i) <==> w < Pow2(MAXBITS) && Low(w, p.Len(i)) == huff
  {
    LengthBlock(p.lens, p.order, i);
    ReversedCodeInterval(huff, p.Len(i), w);
  }

  lemma MatchUnique(p: Plan, w: nat, j: nat, i: nat)
    requires p.Valid() && j < i && Matches(p, w, j)
    ensures !Matches(p, w, i) && w < Pow2(MAXBITS)
  {
    if i < |p.order| {
      PosMono(p.lens, p.order, j + 1, i);
    }
  }

  lemma GoodRoot(p: Plan, c: Cursor, before: seq<Entry>, after: seq<Entry>, i: nat, huff: nat, w: nat, j: nat)
    requires p.Valid() && j <= i < |p.order| && p.Len(i) <= p.root
    requires huff < Pow2(p.Len(i)) && Rev(huff, MAXBITS) == Pos(p.lens, p.order, i)
    requires p.start + Pow2(p.root) <= |before|
    requires Replicated(before, after, p.start, p.root, p.Len(i), huff, SymbolEntry(p.t, p.order[i], p.Len(i)))
    requires Matches(p, w, j) && (j < i ==> Good(p, c, before, w, j))
    ensures Good(p, c, after, w, j)
  {
    var l := p.Len(i);
    LengthsSorted(p.lens, p.order, j, i);
    LowLow(w, l, p.root);
    CodeWindow(p, i, huff, w);
    if j < i {
      MatchUnique(p, w, j, i);
    }
  }

  lemma FillRoot(p: Plan, c: Cursor, before: seq<Entry>, after: seq<Entry>, i: nat, huff: nat)
    requires p.Valid() && i < |p.order| && p.Len(i) <= p.root
    requires huff < Pow2(p.Len(i)) && Rev(huff, MAXBITS) == Pos(p.lens, p.order, i)
    requires p.start + Pow2(p.root) <= |before|
    requires Replicated(before, after, p.start, p.root, p.Len(i), huff, SymbolEntry(p.t, p.order[i], p.Len(i)))
    requires Done(p, c, before, i)
    ensures Done(p, c, after, i + 1)
  {
    forall w: nat, j: nat | j < i + 1 && Matches(p, w, j)
      ensures Good(p, c, after, w, j)
    {
      GoodRoot(p, c, before, after, i, huff, w, j);
    }
  }

  // The sub-table at the cursor hangs off root entry low.
  ghost predicate Linked(p: Plan, c: Cursor, tab: seq<Entry>) {
    && 0 <= c.low < Pow2(p.root) && 1 <= c.curr && p.root + c.curr <= MAXBITS
    && Pow2(p.root) <= c.next && p.start + c.next + Pow2(c.curr) <= |tab|
    && tab[p.start + c.low] == Entry(c.curr, p.root, c.next)
  }

  // Where a window that takes the cursor's link lands.
  lemma SubIndex(w: nat, root: nat, curr: nat, l: nat, huff: nat)
    requires root < l <= root + curr && huff < Pow2(l)
    ensures Low(w, root) == Low(huff, root) && Low(Low(Shr(w, root), curr), l - root) == Shr(huff, root)
            <==> Low(w, l) == huff
  {
    var k := l - root;
    LowLow(Shr(w, root), k, curr);
    LowOfShr(w, root, k);
    LowLow(w, root, l);
    LowShr(huff, root);
    LowShr(Low(w, l), root);
    assert root + k == l;
  }

  lemma GoodSubNew(p: Plan, c: Cursor, before: seq<Entry>, after: seq<Entry>, i: nat, huff: nat, w: nat)
    requires p.Valid() && i < |p.order| && p.root < p.Len(i) <= p.root + c.curr
    requires huff < Pow2(p.Len(i)) && Rev(huff, MAXBITS) == Pos(p.lens, p.order, i)
    requires Linked(p, c, before) && c.low == Low(huff, p.root)
    requires Replicated(before, after, p.start + c.next, c.curr, p.Len(i) - p.root, Shr(huff, p.root),
                        SymbolEntry(p.t, p.order[i], p.Len(i) - p.root))
    requires Matches(p, w, i)
    ensures Good(p, c, after, w, i)
  {
    hide SymbolEntry, Pow2, Low, Shr, Rev, Matches, Sorted;
    CodeWindow(p, i, huff, w);
    SubIndex(w, p.root, c.curr, p.Len(i), huff);
    var x := Low(Shr(w, p.root), c.curr);
    assert Low(w, p.root) == c.low && Low(x, p.Len(i) - p.root) == Shr(huff, p.root);
    assert after[p.start + c.low] == before[p.start + c.low];
    assert after[p.start + c.next + x] == SymbolEntry(p.t, p.order[i], p.Len(i) - p.root);
  }

  // A window of an earlier code never lands on the slots of code i.
  lemma OtherSlot(p: Plan, c: Cursor, i: nat, huff: nat, w: nat, j: nat)
    requires p.Valid() && j < i < |p.order| && p.root < p.Len(i) <= p.root + c.curr
    requires huff < Pow2(p.Len(i)) && Rev(huff, MAXBITS) == Pos(p.lens, p.order, i)
    requires Low(w, p.root) == Low(huff, p.root) && Matches(p, w, j)
    ensures Low(Low(Shr(w, p.root), c.curr), p.Len(i) - p.root) != Shr(huff, p.root)
  {
    hide Pow2, Low, Shr, Rev, Sorted, Matches;
    CodeWindow(p, i, huff, w);
    MatchUnique(p, w, j, i);
    SubIndex(w, p.root, c.curr, p.Len(i), huff);
  }

  lemma GoodSubOld(p: Plan, c: Cursor, before: seq<Entry>, after: seq<Entry>, i: nat, huff: nat, w: nat, j: nat)
    requires p.Valid() && j < i < |p.order| && p.root < p.Len(i) <= p.root + c.curr
    requires huff < Pow2(p.Len(i)) && Rev(huff, MAXBITS) == Pos(p.lens, p.order, i)
    requires Linked(p, c, before) && c.low == Low(huff, p.root)
    requires Replicated(before, after, p.start + c.next, c.curr, p.Len(i) - p.root, Shr(huff, p.root),
                        SymbolEntry(p.t, p.order[i], p.Len(i) - p.root))
    requires Matches(p, w, j) && Good(p, c, before, w, j)
    ensures Good(p, c, after, w, j)
  {
    hide SymbolEntry, Pow2, Low, Shr, Rev, Sorted, Matches;
    var e := before[p.start + Low(w, p.root)];
    assert after[p.start + Low(w, p.root)] == e;
    if p.Len(j) > p.root {
      var a := p.start + e.val + Low(Shr(w, p.root), e.op);
      if e.val + Pow2(e.op) > c.next {
        OtherSlot(p, c, i, huff, w, j);
      }
      assert after[a] == before[a];
    }
  }

  lemma FillSub(p: Plan, c: Cursor, before: seq<Entry>, after: seq<Entry>, i: nat, huff: nat)
    requires p.Valid() && i < |p.order| && p.root < p.Len(i) <= p.root + c.curr
    requires huff < Pow2(p.Len(i)) && Rev(huff, MAXBITS) == Pos(p.lens, p.order, i)
    requires Linked(p, c, before) && c.low == Low(huff, p.root)
    requires Replicated(before, after, p.start + c.next, c.curr, p.Len(i) - p.root, Shr(huff, p.root),
                        SymbolEntry(p.t, p.order[i], p.Len(i) - p.root))
    requires Done(p, c, before, i)
    ensures Done(p, c, after, i + 1)
  {
    hide SymbolEntry, Pow2, Low, Shr, Rev, Linked;
    forall w: nat, j: nat | j < i + 1 && Matches(p, w, j)
      ensures Good(p, c, after, w, j)
    {
      if j < i {
        GoodSubOld(p, c, before, after, i, huff, w, j);
      } else {
        GoodSubNew(p, c, before, after, i, huff, w);
      }
    }
  }

  // Starting a sub-table: code i begins a new cell of the root table.
  lemma GoodNewTable(p: Plan, c: Cursor, d: Cursor, before: seq<Entry>, after: seq<Entry>, i: nat, huff: nat, w: nat,
                     j: nat)
    requires p.Valid() && j < i < |p.order|
    requires huff < Pow2(p.root) && Rev(huff, MAXBITS) == Pos(p.lens, p.order, i)
    requires c.next + Pow2(c.curr) <= d.next && d.low == huff
    requires p.start + Pow2(p.root) <= |before|
    requires after == before[p.start + huff := Entry(d.curr, p.root, d.next)]
    requires Pow2(p.root) <= d.next
    requires Matches(p, w, j) && Good(p, c, before, w, j)
    ensures Good(p, d, after, w, j)
  {
    hide SymbolEntry, Pow2, Low, Shr, Rev, Sorted;
    ReversedCodeInterval(huff, p.root, w);
    PosMono(p.lens, p.order, j + 1, i);
    assert Low(w, p.root) != huff;
    assert after[p.start + Low(w, p.root)] == before[p.start + Low(w, p.root)];
  }

  lemma StartTable(p: Plan, c: Cursor, d: Cursor, before: seq<Entry>, after: seq<Entry>, i: nat, huff: nat)
    requires p.Valid() && i < |p.order|
    requires huff < Pow2(p.root) && Rev(huff, MAXBITS) == Pos(p.lens, p.order, i)
    requires c.next + Pow2(c.curr) <= d.next && d.low == huff
    requires p.start + Pow2(p.root) <= |before|
    requires after == before[p.start + huff := Entry(d.curr, p.root, d.next)]
    requires Pow2(p.root) <= d.next
    requires Done(p, c, before, i)
    ensures Done(p, d, after, i)
  {
    hide Pow2, Low, Shr, Rev;
    forall w: nat, j: nat | j < i && Matches(p, w, j)
      ensures Good(p, d, after, w, j)
    {
      GoodNewTable(p, c, d, before, after, i, huff, w, j);
    }
  }

  // ---------- backward increment ----------

  lemma ShrStep(x: nat, b: nat)
    ensures Shr(x, b) == 2 * Shr(x, b + 1) + Shr(x, b) % 2
  {
    ShrShr(x, b, 1);
    assert Shr(Shr(x, b), 1) == Shr(Shr(x, b) / 2, 0);
  }

  lemma RevAtBit(x: nat, b: nat)
    requires b <= MAXBITS
    ensures Rev(x, MAXBITS) == Shl(Rev(x, b), MAXBITS - b) + Rev(Shr(x, b), MAXBITS - b)
  {
    hide Rev, Shl, Shr;
    RevSplit(x, b, MAXBITS - b);
    assert b + (MAXBITS - b) == MAXBITS;
  }

  lemma RevUnits(y: nat, n: nat)
    requires n > 0
    ensures Rev(1, n) == Pow2(n - 1)
    ensures Rev(2 * y, n) == Rev(y, n - 1)
  {
    RevZero(n - 1);
    assert 2 * y / 2 == y;
  }

  lemma SetBit(huff: nat, b: nat)
    ensures Low(Low(huff, b) + Pow2(b), b) == Low(huff, b)
    ensures Shr(Low(huff, b) + Pow2(b), b) == 1
    ensures Rev(Low(huff, b) + Pow2(b), b) == Rev(huff, b)
  {
    ShlOne(b);
    JoinParts(Low(huff, b), 1, b);
    hide Low, Shr, Rev, Pow2;
    RevLow(Low(huff, b) + Pow2(b), b, b);
    RevLow(huff, b, b);
  }

  // Clearing the ones above bit b and setting bit b advances the reversed value by one
  // unit in the last place.
  lemma IncrementValue(huff: nat, len: nat, b: nat)
    requires b < len <= MAXBITS && Shr(huff, b) == 2 * (Pow2(len - 1 - b) - 1)
    ensures Rev(Low(huff, b) + Pow2(b), MAXBITS) == Rev(huff, MAXBITS) + Pow2(MAXBITS - len)
    ensures Low(huff, b) + Pow2(b) < Pow2(b + 1)
  {
    hide Low, Shr, Rev, Pow2, Shl;
    var n, m := MAXBITS - b, len - 1 - b;
    var h := Low(huff, b) + Pow2(b);
    var hi := Shl(Rev(huff, b), n);
    assert Rev(h, MAXBITS) == hi + Pow2(n - 1) by {
      SetBit(huff, b);
      RevAtBit(h, b);
      RevUnits(0, n);
    }
    assert Rev(huff, MAXBITS) == hi + (Pow2(n - 1) - Pow2(n - 1 - m)) by {
      RevAtBit(huff, b);
      RevUnits(Pow2(m) - 1, n);
      RevOnes(m, n - 1);
    }
    assert n - 1 - m == MAXBITS - len;
    Pow2Double(b);
  }

  lemma Pow2Double(b: nat)
    ensures Pow2(b + 1) == 2 * Pow2(b)
  {
  }

  // The bits of huff from b upwards, below bit len, are ones.
  predicate OnesFrom(huff: nat, len: nat, b: nat) {
    b <= len && Shr(huff, b) == Pow2(len - b) - 1
  }

  lemma OnesStart(huff: nat, len: nat)
    requires huff < Pow2(len)
    ensures OnesFrom(huff, len, len)
  {
    LowId(huff, len);
    assert Pow2(0) == 1;
  }

  lemma OnesDown(huff: nat, len: nat, b: nat)
    requires OnesFrom(huff, len, b + 1)
    ensures Bit(huff, b) ==> OnesFrom(huff, len, b)
    ensures !Bit(huff, b) ==> Shr(huff, b) == 2 * (Pow2(len - 1 - b) - 1)
  {
    hide Shr;
    ShrStep(huff, b);
  }

  // Increment a len-bit code from its top bit downwards.  The result differs from the
  // old code from bit t upwards; t is -1 when the code wrapped around to zero.
  method BackwardIncrement(huff: nat, len: nat) returns (h: nat, ghost t: int)
    requires 1 <= len <= MAXBITS && huff < Pow2(len)
    ensures -1 <= t < len
    ensures t >= 0 ==> h == Low(huff, t) + Pow2(t) < Pow2(t + 1)
    ensures t >= 0 ==> Rev(h, MAXBITS) == Rev(huff, MAXBITS) + Pow2(MAXBITS - len)
    ensures t < 0 ==> h == 0 && Rev(huff, MAXBITS) + Pow2(MAXBITS - len) == Pow2(MAXBITS)
    ensures if Rev(huff, MAXBITS) + Pow2(MAXBITS - len) < Pow2(MAXBITS)
            then Rev(h, MAXBITS) == Rev(huff, MAXBITS) + Pow2(MAXBITS - len) else h == 0
  {
    hide Low, Rev, Pow2, OnesFrom, Bit;
    var b: int := len - 1;   // incr is 1 << b, and 0 once b is negative
    OnesStart(huff, len);
    while b >= 0 && Bit(huff, b)
      invariant -1 <= b < len
      invariant OnesFrom(huff, len, b + 1)
    {
      OnesDown(huff, len, b);
      b := b - 1;
    }
    t := b;
    if b >= 0 {
      OnesDown(huff, len, b);
      IncrementValue(huff, len, b);
      h := Low(huff, b) + Pow2(b);
    } else {
      OnesAll(huff, len, MAXBITS);
      h := 0;
    }
  }

  lemma OnesAll(huff: nat, len: nat, n: nat)
    requires len <= n && OnesFrom(huff, len, 0)
    ensures Rev(huff, n) + Pow2(n - len) == Pow2(n)
  {
    RevOnes(len, n);
  }

  // ---------- replicating an entry ----------

  lemma SlotIndex(a: nat, k: nat, h: nat, q: nat)
    requires h < Pow2(k)
    ensures Low(a, k) == h && Shr(a, k) == q <==> a == h + Shl(q, k)
  {
    LowShr(a, k);
    JoinParts(h, q, k);
  }

  lemma SlotInside(h: nat, q: nat, k: nat, curr: nat)
    requires h < Pow2(k) && k <= curr && q < Pow2(curr - k)
    ensures h + Shl(q, k) < Pow2(curr)
  {
    ShlMono(q + 1, Pow2(curr - k), k);
    ShlAdd(q, 1, k);
    ShlOne(k);
    ShlIsMul(Pow2(curr - k), k);
    Pow2Add(curr - k, k);
  }

  lemma ShrInside(a: nat, k: nat, curr: nat)
    requires a < Pow2(curr) && k <= curr
    ensures Shr(a, k) < Pow2(curr - k)
  {
    LowId(a, curr);
    LowOfShr(a, k, curr - k);
  }

  // Fill downwards the 2^(curr - k) slots of the table at next whose low k bits are h.
  method Replicate(table: array<Entry>, next: nat, curr: nat, k: nat, h: nat, here: Entry)
    requires k <= curr && h < Pow2(k) && next + Pow2(curr) <= table.Length
    modifies table
    ensures Replicated(old(table[..]), table[..], next, curr, k, h, here)
  {
    hide Pow2, Low, Shr;
    ghost var was := table[..];
    var q: nat := Pow2(curr - k);   // fill is q << k
    forall a: nat | a < Pow2(curr)
      ensures Shr(a, k) < Pow2(curr - k)
    {
      ShrInside(a, k, curr);
    }
    while q != 0
      invariant q <= Pow2(curr - k)
      invariant forall a :: 0 <= a < table.Length ==>
        table[a] == if next <= a < next + Pow2(curr) && Low(a - next, k) == h && Shr(a - next, k) >= q
                    then here else was[a]
    {
      q := q - 1;
      SlotInside(h, q, k, curr);
      forall a: nat | a < Pow2(curr)
        ensures Low(a, k) == h && Shr(a, k) == q <==> a == h + Shl(q, k)
      {
        SlotIndex(a, k, h, q);
      }
      table[next + (h + Shl(q, k))] := here;
    }
  }

  // ---------- sizing a sub-table ----------

  // count[l] counts the codes of length l from position i on.
  ghost predicate Remaining(p: Plan, count: seq<nat>, i: nat) {
    && |count| == MAXBITS + 1
    && forall l :: 1 <= l <= MAXBITS ==> Left(p.lens, i, l) == count[l]
  }

  function Left(lens: seq<nat>, i: nat, l: nat): int {
    Offs(lens, l + 1) - Max(Offs(lens, l), Min(i, Offs(lens, l + 1)))
  }

  lemma {:induction false} PosRun(p: Plan, l: nat, m: nat, k: nat)
    requires p.Valid() && 1 <= l <= MAXBITS
    requires Offs(p.lens, l) <= m && m + k <= Offs(p.lens, l + 1) && m + k <= |p.order|
    ensures Pos(p.lens, p.order, m + k) == Pos(p.lens, p.order, m) + Shl(k, MAXBITS - l)
    decreases k
  {
    hide Shl, Pow2, Offs, Sorted;
    if k == 0 {
      ShlOne(MAXBITS - l);
    } else {
      PosRun(p, l, m, k - 1);
      LengthAt(p.lens, p.order, m + k - 1, l);
      ShlAdd(k - 1, 1, MAXBITS - l);
      ShlOne(MAXBITS - l);
    }
  }

  // Codes longer than l come after position Offs(l + 1).
  lemma LongerLater(p: Plan, j: nat, l: nat)
    requires p.Valid() && j < |p.order| && p.Len(j) > l
    ensures Offs(p.lens, l + 1) <= j
  {
    LengthBlock(p.lens, p.order, j);
    OffsMono(p.lens, l + 1, p.Len(j));
  }

  // No code from i on that starts before the limit is longer than l.
  ghost predicate Fits(p: Plan, i: nat, limit: nat, l: nat)
    requires p.Valid()
  {
    forall j :: i <= j < |p.order| && Pos(p.lens, p.order, j) < limit ==> p.Len(j) <= l
  }

  lemma FitsFrom(p: Plan, i: nat, limit: nat, l: nat)
    requires p.Valid()
    requires Offs(p.lens, l + 1) <= |p.order| && limit <= Pos(p.lens, p.order, Offs(p.lens, l + 1))
    ensures Fits(p, i, limit, l)
  {
    forall j | i <= j < |p.order| && Pos(p.lens, p.order, j) < limit
      ensures p.Len(j) <= l
    {
      if p.Len(j) > l {
        LongerLater(p, j, l);
        PosMono(p.lens, p.order, Offs(p.lens, l + 1), j);
        assert false;
      }
    }
  }

  lemma LeftAt(p: Plan, i: nat, l: nat)
    requires p.Valid() && i < |p.order| && p.Len(i) <= l <= MAXBITS
    ensures Offs(p.lens, l) <= Max(i, Offs(p.lens, l)) <= Offs(p.lens, l + 1) <= |p.order|
    ensures Left(p.lens, i, l) == Offs(p.lens, l + 1) - Max(i, Offs(p.lens, l)) >= 0
    ensures i < Offs(p.lens, l + 1)
  {
    hide Offs;
    SortedLength(p.lens, p.order);
    LengthBlock(p.lens, p.order, i);
    OffsMono(p.lens, p.Len(i) + 1, l + 1);
    OffsMono(p.lens, l, l + 1);
    OffsMono(p.lens, l + 1, MAXBITS + 1);
    if p.Len(i) < l {
      OffsMono(p.lens, p.Len(i) + 1, l);
    }
  }

  lemma ShlPow2(a: nat, b: nat)
    ensures Shl(Pow2(a), b) == Pow2(a + b)
  {
    ShlIsMul(Pow2(a), b);
    Pow2Add(a, b);
  }

  lemma ShlHalf(x: nat, d: nat)
    requires d > 0
    ensures Shl(2 * x, d - 1) == Shl(x, d)
  {
    ShlShl(x, 1, d - 1);
    assert Shl(x, 1) == 2 * Shl(x, 0);
  }

  // Of the code space below the limit, left units of 2^-l remain for codes of length l
  // and longer, counting from code i.
  ghost predicate Budget(p: Plan, i: nat, l: nat, left: int, limit: nat)
    requires p.Valid() && l <= MAXBITS
  {
    && left > 0 && Offs(p.lens, l) <= |p.order| && i <= |p.order|
    && Pos(p.lens, p.order, Max(i, Offs(p.lens, l))) + Shl(left, MAXBITS - l) == limit
  }

  lemma BudgetStart(p: Plan, i: nat, root: nat)
    requires p.Valid() && i < |p.order| && root < p.Len(i) <= MAXBITS
    ensures Budget(p, i, p.Len(i), Pow2(p.Len(i) - root), Pos(p.lens, p.order, i) + Pow2(MAXBITS - root))
  {
    hide Pow2, Shl, Offs;
    var l := p.Len(i);
    LengthBlock(p.lens, p.order, i);
    ShlPow2(l - root, MAXBITS - l);
    assert l - root + (MAXBITS - l) == MAXBITS - root;
  }

  // The codes of length l use up the rest of the space below the limit ...
  lemma BudgetSpent(p: Plan, i: nat, l: nat, left: int, limit: nat)
    requires p.Valid() && i < |p.order| && p.Len(i) <= l <= MAXBITS
    requires Budget(p, i, l, left, limit) && Left(p.lens, i, l) >= left
    ensures Fits(p, i, limit, l)
  {
    hide Offs, Shl, Left, Fits;
    LeftAt(p, i, l);
    PosRun(p, l, Max(i, Offs(p.lens, l)), Left(p.lens, i, l));
    ShlMono(left, Left(p.lens, i, l), MAXBITS - l);
    FitsFrom(p, i, limit, l);
  }

  // ... or leave some for longer codes.
  lemma BudgetStep(p: Plan, i: nat, l: nat, left: int, limit: nat)
    requires p.Valid() && i < |p.order| && p.Len(i) <= l < MAXBITS
    requires Budget(p, i, l, left, limit) && 0 <= Left(p.lens, i, l) < left
    ensures Budget(p, i, l + 1, 2 * (left - Left(p.lens, i, l)), limit)
  {
    hide Offs, Shl, Left;
    LeftAt(p, i, l);
    var k := Left(p.lens, i, l);
    PosRun(p, l, Max(i, Offs(p.lens, l)), k);
    ShlAdd(left - k, k, MAXBITS - l);
    ShlHalf(left - k, MAXBITS - l);
  }

  // Some code from i on that starts before the limit has length l.
  ghost predicate Reaches(p: Plan, i: nat, limit: nat, l: nat)
    requires p.Valid()
  {
    exists j :: i <= j < |p.order| && Pos(p.lens, p.order, j) < limit && p.Len(j) == l
  }

  // With space left below the limit, a code of length l starts there if there still is one.
  lemma BudgetReaches(p: Plan, i: nat, l: nat, left: int, limit: nat)
    requires p.Valid() && i < |p.order| && p.Len(i) <= l <= MAXBITS
    requires Budget(p, i, l, left, limit) && Left(p.lens, i, l) > 0
    ensures Reaches(p, i, limit, l)
  {
    hide Offs, Shl, Left, Pow2, Sorted;
    LeftAt(p, i, l);
    LengthBlock(p.lens, p.order, i);
    var j := Max(i, Offs(p.lens, l));
    LengthAt(p.lens, p.order, j, l);
    ShlMono(1, left, MAXBITS - l);
    ShlOne(MAXBITS - l);
    Pow2AtLeast(MAXBITS - l);
    assert Pos(p.lens, p.order, j) < limit && p.Len(j) == l;
  }

  // A code of the longest length is left as long as any code is.
  lemma LongestLeft(p: Plan, i: nat, max: nat)
    requires p.Valid() && i < |p.order| && max == p.Len(|p.order| - 1) && p.Len(i) <= max
    ensures Left(p.lens, i, max) > 0
  {
    hide Offs, Sorted;
    LengthBlock(p.lens, p.order, |p.order| - 1);
    LeftAt(p, i, max);
  }

  // Index bits of the sub-table for the codes that start at position i.
  method SubTableBits(ghost p: Plan, count: array<nat>, ghost i: nat, len: nat, drop: nat, max: nat) returns (curr: nat)
    requires p.Valid() && i < |p.order| && len == p.Len(i) && drop < len <= max <= MAXBITS
    requires Remaining(p, count[..], i) && max == p.Len(|p.order| - 1)
    requires forall j :: 0 <= j < |p.order| ==> p.Len(j) <= max
    ensures len <= drop + curr <= max
    ensures Fits(p, i, Pos(p.lens, p.order, i) + Pow2(MAXBITS - drop), drop + curr)
    ensures Reaches(p, i, Pos(p.lens, p.order, i) + Pow2(MAXBITS - drop), drop + curr)
  {
    hide Pow2, Budget, Left, Reaches;
    ghost var limit := Pos(p.lens, p.order, i) + Pow2(MAXBITS - drop);
    curr := len - drop;
    var left: int := Pow2(curr);
    BudgetStart(p, i, drop);
    while curr + drop < max
      invariant len <= drop + curr <= max
      invariant Budget(p, i, drop + curr, left, limit)
    {
      ghost var was := left;
      assert count[..][drop + curr] == count[drop + curr];
      left := left - count[curr + drop];
      if left <= 0 {
        BudgetSpent(p, i, drop + curr, was, limit);
        BudgetLeft(p, i, drop + curr, was, limit);
        BudgetReaches(p, i, drop + curr, was, limit);
        return;
      }
      BudgetStep(p, i, drop + curr, was, limit);
      curr := curr + 1;
      left := 2 * left;
    }
    LongestLeft(p, i, max);
    BudgetReaches(p, i, max, left, limit);
  }

  lemma BudgetLeft(p: Plan, i: nat, l: nat, left: int, limit: nat)
    requires p.Valid() && l <= MAXBITS && Budget(p, i, l, left, limit)
    ensures left > 0
  {
  }

  // ---------- the main loop ----------

  // The walk stands at code i: its length, its reversed value and the table it goes to.
  ghost predicate Walking(p: Plan, tab: seq<Entry>, i: nat, len: nat, huff: nat, drop: nat, c: Cursor, used: nat) {
    && p.Valid() && i < |p.order| && len == p.Len(i) && 0 < len <= MAXBITS
    && huff < Pow2(len) && Rev(huff, MAXBITS) == Pos(p.lens, p.order, i)
    && p.start + Capacity(p.t) <= |tab| && used <= Capacity(p.t) && c.next + Pow2(c.curr) == used
    && if drop == 0 then len <= p.root && c == Cursor(0, p.root, -1) else InSubTable(p, tab, i, len, huff, drop, c)
  }

  ghost predicate InSubTable(p: Plan, tab: seq<Entry>, i: nat, len: nat, huff: nat, drop: nat, c: Cursor)
    requires p.Valid()
  {
    && drop == p.root < len <= p.root + c.curr
    && Linked(p, c, tab) && c.low == Low(huff, p.root)
    && Fits(p, i, Rev(c.low, MAXBITS) + Pow2(MAXBITS - p.root), p.root + c.curr)
  }

  // Where the entry of code i goes: all slots of the current table that agree with it.
  lemma EntryPlace(p: Plan, tab: seq<Entry>, i: nat, len: nat, huff: nat, drop: nat, c: Cursor, used: nat)
    requires Walking(p, tab, i, len, huff, drop, c, used)
    ensures drop < len <= drop + c.curr && Shr(huff, drop) < Pow2(len - drop)
    ensures p.start + c.next + Pow2(c.curr) <= |tab|
    ensures p.order[i] < MaxCodes(p.t)
  {
    if drop == 0 {
      assert Shr(huff, 0) == huff;
    } else {
      ShrInside(huff, drop, len);
    }
  }

  lemma EntryDone(p: Plan, before: seq<Entry>, after: seq<Entry>, i: nat, len: nat, huff: nat, drop: nat, c: Cursor,
                  used: nat)
    requires Walking(p, before, i, len, huff, drop, c, used) && Done(p, c, before, i)
    requires drop < len && p.order[i] < MaxCodes(p.t)
    requires Replicated(before, after, p.start + c.next, c.curr, len - drop, Shr(huff, drop),
                        SymbolEntry(p.t, p.order[i], len - drop))
    ensures Walking(p, after, i, len, huff, drop, c, used) && Done(p, c, after, i + 1)
  {
    hide SymbolEntry, Low, Pow2, Rev, Capacity, Done, Replicated, Sorted, InSubTable;
    ReplicatedLength(before, after, p.start + c.next, c.curr, len - drop, Shr(huff, drop),
          SymbolEntry(p.t, p.order[i], len - drop));
    if drop == 0 {
      assert Shr(huff, 0) == huff;
      FillRoot(p, c, before, after, i, huff);
    } else {
      EntryDoneSub(p, before, after, i, len, huff, drop, c);
    }
  }

  lemma EntryDoneSub(p: Plan, before: seq<Entry>, after: seq<Entry>, i: nat, len: nat, huff: nat, drop: nat, c: Cursor)
    requires p.Valid() && i < |p.order| && len == p.Len(i)
    requires huff < Pow2(len) && Rev(huff, MAXBITS) == Pos(p.lens, p.order, i)
    requires InSubTable(p, before, i, len, huff, drop, c) && Done(p, c, before, i)
    requires Replicated(before, after, p.start + c.next, c.curr, len - drop, Shr(huff, drop),
                        SymbolEntry(p.t, p.order[i], len - drop))
    ensures InSubTable(p, after, i, len, huff, drop, c) && Done(p, c, after, i + 1)
  {
    hide SymbolEntry, Shr, Low, Pow2, Rev, Done, Fits, Sorted;
    FillSub(p, c, before, after, i, huff);
    assert after[p.start + c.low] == before[p.start + c.low];
  }

  lemma ReplicatedLength(before: seq<Entry>, after: seq<Entry>, next: nat, curr: nat, k: nat, h: nat, here: Entry)
    requires Replicated(before, after, next, curr, k, h, here)
    ensures |after| == |before|
  {
  }

  lemma LengthAfter(p: Plan, count: seq<nat>, i: nat, len: nat)
    requires p.Valid() && i < |p.order| && len == p.Len(i) && Remaining(p, count, i)
    ensures 1 <= len <= MAXBITS && count[len] >= 1 && Remaining(p, count[len := count[len] - 1], i + 1)
    ensures count[len] > 1 ==> i + 1 < |p.order| && p.Len(i + 1) == len
    ensures count[len] == 1 && i + 1 < |p.order| ==> p.Len(i + 1) > len
  {
    hide Offs, Sorted;
    LengthBlock(p.lens, p.order, i);
    SortedLength(p.lens, p.order);
    OffsMono(p.lens, len + 1, MAXBITS + 1);
    var after := count[len := count[len] - 1];
    forall l: nat | 1 <= l <= MAXBITS
      ensures Left(p.lens, i + 1, l) == after[l]
    {
      OffsMono(p.lens, l, l + 1);
      if l < len {
        OffsMono(p.lens, l + 1, len);
      } else if l > len {
        OffsMono(p.lens, len + 1, l);
      }
    }
    if count[len] > 1 {
      LengthAt(p.lens, p.order, i + 1, len);
    } else if i + 1 < |p.order| {
      LengthBlock(p.lens, p.order, i + 1);
      LengthsSorted(p.lens, p.order, i, i + 1);
    }
  }

  // Bits below the one that the increment sets stay the same.
  lemma KeepLow(huff: nat, t: nat, root: nat)
    requires root <= t
    ensures Low(Low(huff, t) + Pow2(t), root) == Low(huff, root)
  {
    SetBit(huff, t);
    LowLow(Low(huff, t) + Pow2(t), root, t);
    LowLow(huff, root, t);
  }

  // The code after code i either stays in the current table ...
  lemma NextStays(p: Plan, tab: seq<Entry>, i: nat, len: nat, huff: nat, drop: nat, c: Cursor, used: nat, huff': nat)
    requires Walking(p, tab, i, len, huff, drop, c, used) && i + 1 < |p.order|
    requires huff' < Pow2(p.Len(i + 1)) && Rev(huff', MAXBITS) == Pos(p.lens, p.order, i + 1)
    requires len <= p.Len(i + 1) <= MAXBITS
    requires p.Len(i + 1) > p.root ==> Low(huff', p.root) == c.low
    ensures Walking(p, tab, i + 1, p.Len(i + 1), huff', drop, c, used)
  {
    hide Rev, Low, Linked, Capacity, Sorted, Pow2;
    if drop != 0 {
      assert 0 <= c.low < Pow2(p.root) by { LinkedLow(p, c, tab); }
      ReversedCodeInterval(c.low, p.root, huff');
    }
  }

  lemma LinkedLow(p: Plan, c: Cursor, tab: seq<Entry>)
    requires Linked(p, c, tab)
    ensures 0 <= c.low < Pow2(p.root)
  {
  }

  // ... or opens a new cell of the root table.
  lemma NextOpens(p: Plan, tab: seq<Entry>, i: nat, len: nat, huff: nat, drop: nat, c: Cursor, used: nat, huff': nat,
                  t: int)
    requires Walking(p, tab, i, len, huff, drop, c, used)
    requires 0 <= t < len && huff' == Low(huff, t) + Pow2(t) < Pow2(t + 1)
    requires Low(huff', p.root) != c.low
    ensures huff' < Pow2(p.root)
  {
    hide Rev, Low, Linked, Capacity, Sorted, Pow2, Fits;
    if drop != 0 && t >= p.root {
      KeepLow(huff, t, p.root);
      assert false;
    }
    Pow2Mono(t + 1, p.root);
  }

  lemma NextCode(p: Plan, i: nat, huff: nat, huff': nat, t: int)
    requires p.Valid() && i + 1 < |p.order| && Rev(huff, MAXBITS) == Pos(p.lens, p.order, i)
    requires 0 <= t < p.Len(i) <= MAXBITS && huff' < Pow2(t + 1)
    requires Rev(huff', MAXBITS) == Rev(huff, MAXBITS) + Pow2(MAXBITS - p.Len(i))
    ensures p.Len(i) <= p.Len(i + 1) <= MAXBITS && huff' < Pow2(p.Len(i + 1))
    ensures Rev(huff', MAXBITS) == Pos(p.lens, p.order, i + 1)
  {
    hide Rev, Sorted, Pow2;
    LengthsSorted(p.lens, p.order, i, i + 1);
    LengthBlock(p.lens, p.order, i + 1);
    assert Pos(p.lens, p.order, i + 1) == Pos(p.lens, p.order, i) + Pow2(MAXBITS - p.Len(i));
    Pow2Mono(t + 1, p.Len(i + 1));
  }

  lemma OpenTable(p: Plan, before: seq<Entry>, after: seq<Entry>, i: nat, huff: nat, c: Cursor, d: Cursor, used: nat)
    requires p.Valid() && i < |p.order| && p.root < p.Len(i) <= p.root + d.curr <= MAXBITS
    requires huff < Pow2(p.root) && Rev(huff, MAXBITS) == Pos(p.lens, p.order, i)
    requires d.low == huff && d.next == c.next + Pow2(c.curr) && Pow2(p.root) <= d.next
    requires d.next + Pow2(d.curr) == used <= Capacity(p.t) && p.start + Capacity(p.t) <= |before|
    requires after == before[p.start + huff := Entry(d.curr, p.root, d.next)]
    requires Fits(p, i, Pos(p.lens, p.order, i) + Pow2(MAXBITS - p.root), p.root + d.curr)
    requires Done(p, c, before, i)
    ensures Walking(p, after, i, p.Len(i), huff, p.root, d, used) && Done(p, d, after, i)
  {
    hide Rev, Pow2, Low, Done, Sorted, Fits, Capacity;
    StartTable(p, c, d, before, after, i, huff);
    LengthBlock(p.lens, p.order, i);
    LowId(huff, p.root);
    Pow2Mono(p.root, p.Len(i));
  }

  // ---------- the space used ----------

  // The sub-tables of the first q cells have been allocated; the walk is in the last of them.
  ghost predicate Counted(p: Plan, i: nat, drop: nat, c: Cursor, used: nat, q: nat)
    requires p.Valid() && i < |p.order|
  {
    && q <= Pow2(p.root) && used == Pow2(p.root) + SubSpace(p.lens, p.root, q)
    && (if drop == 0 then q == 0 else
          q > 0 && c.low >= 0 && Rev(c.low, MAXBITS) == Shl(q - 1, MAXBITS - p.root)
          && Shl(q - 1, MAXBITS - p.root) <= Pos(p.lens, p.order, i))
    && forall j :: 0 <= j <= i && p.Len(j) > p.root ==> Pos(p.lens, p.order, j) < Shl(q, MAXBITS - p.root)
  }

  lemma CellPos(p: Plan, j: nat, q: nat)
    requires p.Valid() && j < |p.order|
    ensures 0 < p.Len(j) <= MAXBITS
    ensures InCell(p.lens, p.order[j], p.root, q) <==>
              p.Len(j) > p.root && Shl(q, MAXBITS - p.root) <= Pos(p.lens, p.order, j) < Shl(q + 1, MAXBITS - p.root)
  {
    hide Sorted, Start, Shl, Pow2, Pos;
    PosIsStart(p.lens, p.order, j);
  }

  // Cells in which no code of the order starts take no space.
  lemma EmptyCells(p: Plan, a: nat, b: nat)
    requires p.Valid() && a <= b
    requires forall j :: 0 <= j < |p.order| && p.Len(j) > p.root ==>
      Pos(p.lens, p.order, j) < Shl(a, MAXBITS - p.root) || Shl(b, MAXBITS - p.root) <= Pos(p.lens, p.order, j)
    ensures SubSpace(p.lens, p.root, a) == SubSpace(p.lens, p.root, b)
  {
    hide Sorted, Shl, Pow2, Pos, SubSpace, InCell;
    forall q, u | a <= q < b && 0 <= u < |p.lens|
      ensures !InCell(p.lens, u, p.root, q)
    {
      if InCell(p.lens, u, p.root, q) {
        CodedCell(p, u, q);
        var j := PlaceOf(p.lens, p.order, u);
        CellPos(p, j, q);
        ShlMono(a, q, MAXBITS - p.root);
        ShlMono(q + 1, b, MAXBITS - p.root);
        assert false;
      }
    }
    SubSpaceSame(p.lens, p.root, a, b);
  }

  lemma CodedCell(p: Plan, u: nat, q: nat)
    requires p.Valid() && u < |p.lens| && InCell(p.lens, u, p.root, q)
    ensures p.lens[u] > 0
  {
  }

  // The size of the cell that code i opens.
  lemma OpenedCell(p: Plan, i: nat, q: nat, curr: nat)
    requires p.Valid() && i < |p.order| && Pos(p.lens, p.order, i) == Shl(q, MAXBITS - p.root)
    requires curr > 0 && Fits(p, i, Shl(q + 1, MAXBITS - p.root), p.root + curr)
    requires Reaches(p, i, Shl(q + 1, MAXBITS - p.root), p.root + curr)
    ensures SubSize(p.lens, p.root, q) == Pow2(curr)
  {
    hide Sorted, Shl, Pow2, Pos, SubSize, InCell;
    var limit := Shl(q + 1, MAXBITS - p.root);
    var k :| i <= k < |p.order| && Pos(p.lens, p.order, k) < limit && p.Len(k) == p.root + curr;
    PosMono(p.lens, p.order, i, k);
    CellPos(p, k, q);
    forall u | 0 <= u < |p.lens| && InCell(p.lens, u, p.root, q)
      ensures p.lens[u] <= p.root + curr
    {
      CodedCell(p, u, q);
      var j := PlaceOf(p.lens, p.order, u);
      CellPos(p, j, q);
      if j < i {
        PosStrict(p, j, i);
        assert false;
      }
    }
    SubSizeIs(p.lens, p.root, q, p.order[k]);
  }

  lemma PosStrict(p: Plan, j: nat, i: nat)
    requires p.Valid() && j < i <= |p.order|
    ensures Pos(p.lens, p.order, j) < Pos(p.lens, p.order, i)
  {
    hide Sorted;
    PosMono(p.lens, p.order, j + 1, i);
  }

  lemma CountedStart(p: Plan)
    requires p.Valid() && 0 < |p.order| && p.Len(0) <= p.root
    ensures Counted(p, 0, 0, Cursor(0, p.root, -1), Pow2(p.root), 0)
  {
    hide Pow2, Shl, Rev, Sorted;
  }

  // The next code is in the same table.
  lemma CountedStays(p: Plan, tab: seq<Entry>, i: nat, len: nat, huff: nat, drop: nat, c: Cursor, used: nat, q: nat)
    requires p.Valid() && i + 1 < |p.order| && Counted(p, i, drop, c, used, q)
    requires Walking(p, tab, i + 1, len, huff, drop, c, used)
    ensures Counted(p, i + 1, drop, c, used, q)
  {
    hide Pow2, Shl, Rev, Low, Sorted, SubSpace, Capacity, Pos, Linked, Fits;
    PosMono(p.lens, p.order, i, i + 1);
    if drop != 0 {
      LinkedLow(p, c, tab);
      ReversedCodeInterval(c.low, p.root, huff);
      NextCell(q - 1, MAXBITS - p.root);
    }
  }

  lemma NextCell(q: nat, d: nat)
    ensures Shl(q + 1, d) == Shl(q, d) + Pow2(d)
  {
    ShlAdd(q, 1, d);
    ShlOne(d);
  }

  // The next code opens a cell of the root table: its place among the cells, and the
  // space when its table has been added.
  lemma CountedOpens(p: Plan, i: nat, drop: nat, c: Cursor, used: nat, q: nat, huff: nat, d: Cursor) returns (r: nat)
    requires p.Valid() && i + 1 < |p.order| && Counted(p, i, drop, c, used, q) && p.Len(i + 1) > p.root
    requires huff < Pow2(p.root) && Rev(huff, MAXBITS) == Pos(p.lens, p.order, i + 1)
    requires d.low == huff && d.curr > 0
    requires Fits(p, i + 1, Pos(p.lens, p.order, i + 1) + Pow2(MAXBITS - p.root), p.root + d.curr)
    requires Reaches(p, i + 1, Pos(p.lens, p.order, i + 1) + Pow2(MAXBITS - p.root), p.root + d.curr)
    ensures Counted(p, i + 1, p.root, d, used + Pow2(d.curr), r)
  {
    hide Pow2, Shl, Rev, Sorted, SubSpace, Pos, Fits, Reaches;
    var e, k := MAXBITS - p.root, Rev(huff, p.root);
    r := k + 1;
    assert p.root + e == MAXBITS;
    RevShort(huff, p.root, e);
    NextCell(k, e);
    OpenedCell(p, i + 1, k, d.curr);
    PosStrict(p, i, i + 1);
    if k < q {
      ShlMono(k, q - 1, e);
      assert false;
    }
    forall j | 0 <= j < |p.order| && p.Len(j) > p.root
      ensures Pos(p.lens, p.order, j) < Shl(q, e) || Shl(k, e) <= Pos(p.lens, p.order, j)
    {
      if j > i {
        PosMono(p.lens, p.order, i + 1, j);
      }
    }
    EmptyCells(p, q, k);
    SubSpaceNext(p, k);
    forall j | 0 <= j <= i + 1 && p.Len(j) > p.root
      ensures Pos(p.lens, p.order, j) < Shl(r, e)
    {
      PosMono(p.lens, p.order, j, i + 1);
      Pow2AtLeast(e);
    }
  }

  lemma SubSpaceNext(p: Plan, k: nat)
    requires p.Valid()
    ensures SubSpace(p.lens, p.root, k + 1) == SubSpace(p.lens, p.root, k) + SubSize(p.lens, p.root, k)
  {
  }

  lemma Pow2AtLeast(n: nat)
    ensures Pow2(n) >= 1
  {
    Pow2Mono(0, n);
  }

  // What has been allocated is not more than is needed ...
  lemma CountedAtMost(p: Plan, i: nat, drop: nat, c: Cursor, used: nat, q: nat)
    requires p.Valid() && i < |p.order| && Counted(p, i, drop, c, used, q)
    ensures used <= Needed(p.lens, p.root)
  {
    hide Pow2, Shl, Rev, Sorted, SubSpace, Pos;
    SubSpaceMono(p.lens, p.root, q, Pow2(p.root));
  }

  // ... and all of it after the last code.
  lemma CountedEnd(p: Plan, i: nat, drop: nat, c: Cursor, used: nat, q: nat)
    requires p.Valid() && i + 1 == |p.order| && Counted(p, i, drop, c, used, q)
    ensures used == Needed(p.lens, p.root)
  {
    hide Pow2, Shl, Rev, Sorted, SubSpace, Pos;
    EmptyCells(p, q, Pow2(p.root));
  }

  // Make the entry for code i in the table that is being filled.
  method EnterCode(ghost p: Plan, table: array<Entry>, ghost i: nat, t: CodeType, start: nat, symbol: nat, len: nat,
                   huff: nat, drop: nat, next: nat, curr: nat, ghost c: Cursor, ghost used: nat)
    requires Walking(p, table[..], i, len, huff, drop, c, used) && Done(p, c, table[..], i)
    requires t == p.t && start == p.start && symbol == p.order[i] && next == c.next && curr == c.curr
    modifies table
    ensures Walking(p, table[..], i, len, huff, drop, c, used) && Done(p, c, table[..], i + 1)
    ensures forall a :: 0 <= a < start ==> table[a] == old(table[a])
  {
    hide Walking, Done, SymbolEntry, Pow2, Shr, Low;
    EntryPlace(p, table[..], i, len, huff, drop, c, used);
    ghost var before := table[..];
    var here := SymbolEntry(t, symbol, len - drop);
    Replicate(table, start + next, curr, len - drop, Shr(huff, drop), here);
    EntryDone(p, before, table[..], i, len, huff, drop, c, used);
    assert forall a :: 0 <= a < start ==> table[..][a] == before[a];
  }

  // Start a new sub-table for code i, unless there is no room for it.
  method OpenSubTable(ghost p: Plan, table: array<Entry>, count: array<nat>, ghost i: nat, t: CodeType, start: nat,
                      root: nat, max: nat, len: nat, huff: nat, ghost drop: nat, next: nat, curr: nat, used: nat,
                      ghost c: Cursor, ghost q: nat)
    returns (ok: bool, curr': nat, used': nat, ghost d: Cursor, ghost q': nat)
    requires p.Valid() && i < |p.order| && root == p.root < len == p.Len(i) <= max <= MAXBITS
    requires t == p.t && start == p.start && next == c.next + Pow2(c.curr) && used == next && !t.CODES?
    requires Pow2(root) <= next && start + Capacity(t) <= table.Length && table as object != count
    requires huff < Pow2(root) && Rev(huff, MAXBITS) == Pos(p.lens, p.order, i)
    requires max == p.Len(|p.order| - 1) && forall j :: 0 <= j < |p.order| ==> p.Len(j) <= max
    requires Remaining(p, count[..], i) && Done(p, c, table[..], i) && used <= Capacity(t)
    requires i > 0 && Counted(p, i - 1, drop, c, used, q)
    modifies table
    ensures ok <==> used' <= Capacity(t)
    ensures d.low == huff && Counted(p, i, root, d, used', q')
    ensures ok ==> d.next == next && d.curr == curr' && d.low == huff && used' == next + Pow2(curr')
    ensures ok ==> Walking(p, table[..], i, len, huff, root, d, used') && Done(p, d, table[..], i)
    ensures forall a :: 0 <= a < start ==> table[a] == old(table[a])
  {
    hide Walking, Done, Pow2, Rev, Remaining, Fits, Reaches, Counted, Pos, Sorted, SymbolEntry, Low;
    curr' := SubTableBits(p, count, i, len, root, max);
    used' := used + Pow2(curr');
    d := Cursor(next, curr', huff);
    q' := CountedOpens(p, i - 1, drop, c, used, q, huff, d);
    if (t == LENS && used' > ENOUGH_LENS) || (t == DISTS && used' > ENOUGH_DISTS) {
      return false, curr', used', d, q';
    }
    ghost var before := table[..];
    table[start + huff] := Entry(curr', root, next);
    OpenTable(p, before, table[..], i, huff, c, d, used');
    ok := true;
  }

  // The value of the code after the last one of the walk: zero when the code space is
  // used up, the other one-bit code when the only code has one bit.
  lemma LastCode(p: Plan, tab: seq<Entry>, i: nat, len: nat, huff: nat, drop: nat, c: Cursor, used: nat, huff': nat,
                 t: int)
    requires Walking(p, tab, i, len, huff, drop, c, used) && i + 1 == |p.order|
    requires p.root <= len
    requires Pos(p.lens, p.order, i + 1) == Pow2(MAXBITS) || (Pos(p.lens, p.order, i + 1) < Pow2(MAXBITS) && len == 1)
    requires t >= 0 ==> Rev(huff', MAXBITS) == Rev(huff, MAXBITS) + Pow2(MAXBITS - len)
    requires t >= 0 ==> huff' < Pow2(len)
    requires t < 0 ==> huff' == 0 && Rev(huff, MAXBITS) + Pow2(MAXBITS - len) == Pow2(MAXBITS)
    ensures Pos(p.lens, p.order, i + 1) == Pow2(MAXBITS) <==> huff' == 0
    ensures huff' != 0 ==> huff' == 1 && len == 1 && drop == 0 && c.next == 0 && p.root == 1 && used == 2
    ensures huff' != 0 ==> i == 0
    ensures huff' != 0 && Done(p, c, tab, |p.order|) ==>
      p.start + 1 < |tab| && Done(p, c, tab[p.start + 1 := INVALID], |p.order|)
  {
    hide Low, Rev, SymbolEntry, Shr;
    LastValue(p, tab, i, len, huff, drop, c, used, huff', t);
    if huff' != 0 {
      hide InSubTable, Sorted, Rev, Done, Pow2;
      LoneCode(p, i, huff);
      if Done(p, c, tab, |p.order|) {
        MarkUnused(p, c, tab, tab[p.start + 1 := INVALID]);
      }
    }
  }

  lemma LastValue(p: Plan, tab: seq<Entry>, i: nat, len: nat, huff: nat, drop: nat, c: Cursor, used: nat, huff': nat,
                  t: int)
    requires Walking(p, tab, i, len, huff, drop, c, used) && i + 1 == |p.order|
    requires p.root <= len
    requires Pos(p.lens, p.order, i + 1) == Pow2(MAXBITS) || (Pos(p.lens, p.order, i + 1) < Pow2(MAXBITS) && len == 1)
    requires t >= 0 ==> Rev(huff', MAXBITS) == Rev(huff, MAXBITS) + Pow2(MAXBITS - len)
    requires t >= 0 ==> huff' < Pow2(len)
    requires t < 0 ==> huff' == 0 && Rev(huff, MAXBITS) + Pow2(MAXBITS - len) == Pow2(MAXBITS)
    ensures Pos(p.lens, p.order, i + 1) == Pow2(MAXBITS) <==> huff' == 0
    ensures huff' != 0 ==> huff' == 1 && len == 1 && drop == 0 && c.next == 0 && p.root == 1 && used == 2
  {
    hide Rev, Sorted, Pow2, Capacity, InSubTable;
    assert Pos(p.lens, p.order, i + 1) == Rev(huff, MAXBITS) + Pow2(MAXBITS - len);
    if huff' == 0 {
      RevZero(MAXBITS);
    } else {
      assert len == 1;
      PowersOneTwo();
      if drop != 0 {
        DropIsRoot(p, tab, i, len, huff, drop, c);
        assert false;
      }
    }
  }

  lemma PowersOneTwo()
    ensures Pow2(0) == 1 && Pow2(1) == 2
  {
    assert Pow2(0) == 1;
  }

  lemma DropIsRoot(p: Plan, tab: seq<Entry>, i: nat, len: nat, huff: nat, drop: nat, c: Cursor)
    requires p.Valid() && InSubTable(p, tab, i, len, huff, drop, c)
    ensures p.root < len
  {
  }

  // A walk that does not use up the code space has just the code zero.
  lemma LoneCode(p: Plan, i: nat, huff: nat)
    requires p.Valid() && i + 1 == |p.order| && 1 == p.Len(i)
    requires Rev(huff, MAXBITS) == Pos(p.lens, p.order, i) && huff < Pow2(1)
    requires Pos(p.lens, p.order, |p.order|) < Pow2(MAXBITS)
    ensures i == 0
  {
    PowersOneTwo();
    hide Sorted, Rev, Pow2;
    if huff == 1 {
      RevUnits(0, MAXBITS);
      Pow2Double(MAXBITS - 1);
      assert false;
    }
    RevZero(MAXBITS);
    if i > 0 {
      assert false;
    }
  }

  // Marking the unused one-bit code leaves the windows of the other one alone.
  lemma MarkUnused(p: Plan, c: Cursor, before: seq<Entry>, after: seq<Entry>)
    requires p.Valid() && |p.order| == 1 && p.root == 1 == p.Len(0)
    requires Done(p, c, before, 1)
    requires p.start + 1 < |before| && after == before[p.start + 1 := INVALID]
    ensures Done(p, c, after, 1)
  {
    hide Sorted, Rev, Pow2, SymbolEntry, Matches;
    RevZero(MAXBITS);
    PowersOneTwo();
    forall w: nat, j: nat | j < 1 && Matches(p, w, j)
      ensures Good(p, c, after, w, j)
    {
      CodeWindow(p, 0, 0, w);
      assert Low(w, 1) == 0;
      assert Good(p, c, before, w, j);
    }
  }

  method NextHuff(ghost p: Plan, ghost tab: seq<Entry>, ghost i: nat, len: nat, huff: nat, ghost drop: nat,
                  ghost c: Cursor, ghost used: nat) returns (h: nat, ghost t: int)
    requires Walking(p, tab, i, len, huff, drop, c, used)
    ensures p.root <= len || drop == 0
    ensures huff < Pow2(len) && Rev(huff, MAXBITS) == Pos(p.lens, p.order, i)
    ensures used <= Capacity(p.t) && used == c.next + Pow2(c.curr) && p.start + used <= |tab|
    ensures -1 <= t < len <= MAXBITS
    ensures t >= 0 ==> h == Low(huff, t) + Pow2(t) < Pow2(t + 1) && h < Pow2(len)
    ensures t >= 0 ==> Rev(h, MAXBITS) == Rev(huff, MAXBITS) + Pow2(MAXBITS - len)
    ensures t < 0 ==> h == 0 && Rev(huff, MAXBITS) + Pow2(MAXBITS - len) == Pow2(MAXBITS)
  {
    WalkingCode(p, tab, i, len, huff, drop, c, used);
    hide Walking, Sorted, Rev, Pow2, Low, Pos, Capacity;
    h, t := BackwardIncrement(huff, len);
    if t >= 0 {
      Pow2Mono(t + 1, len);
    }
  }

  // One code of length len less to enter.
  method CountDown(ghost p: Plan, count: array<nat>, ghost i: nat, len: nat)
    requires p.Valid() && i < |p.order| && len == p.Len(i) && count.Length == MAXBITS + 1
    requires Remaining(p, count[..], i)
    modifies count
    ensures 1 <= len <= MAXBITS && Remaining(p, count[..], i + 1)
    ensures count[len] != 0 ==> i + 1 < |p.order| && p.Len(i + 1) == len
    ensures count[len] == 0 && i + 1 < |p.order| ==> p.Len(i + 1) > len
  {
    hide Remaining, Sorted;
    ghost var was := count[..];
    LengthAfter(p, was, i, len);
    count[len] := count[len] - 1;
    assert count[..] == was[len := was[len] - 1];
  }

  // Walk through the codes in sorted order and enter each of them.
  method FillTables(t: CodeType, lens: seq<nat>, root: nat, max: nat, work: array<nat>, count: array<nat>,
                    table: array<Entry>, start: nat, ghost p: Plan)
    returns (ret: int, used: nat, ghost c: Cursor)
    requires p.Valid() && p.t == t && p.lens == lens && p.start == start && p.root == root
    requires 0 < |p.order| <= work.Length && p.order == work[..|p.order|]
    requires p.Len(0) <= root <= max == p.Len(|p.order| - 1) && max <= MAXBITS
    requires t.CODES? ==> max <= root && Pow2(root) <= Capacity(t)
    requires start + Capacity(t) <= table.Length
    requires count.Length == MAXBITS + 1 && Remaining(p, count[..], 0)
    requires work != count
    requires Pos(p.lens, p.order, |p.order|) == Pow2(MAXBITS)
             || (Pos(p.lens, p.order, |p.order|) < Pow2(MAXBITS) && max == 1)
    modifies count, table
    ensures ret == if Needed(lens, root) <= Capacity(t) then 0 else 1
    ensures forall a :: 0 <= a < start ==> table[a] == old(table[a])
    ensures ret == 0 ==> used == Needed(lens, root) && Done(p, c, table[..], |p.order|)
    ensures ret == 0 && Pos(p.lens, p.order, |p.order|) < Pow2(MAXBITS) ==>
      used == 2 && table[start + 1] == INVALID
  {
    hide Walking, Done, Pow2, Rev, Remaining, Low, Sorted, Counted, Needed, Pos, SymbolEntry, Shr;
    ghost var n, q := |p.order|, 0;
    var huff, sym, len := 0, 0, lens[work[0]];
    var next: nat, curr: nat, drop: nat := 0, root, 0;
    var low: int := -1;                  // differs from every masked code
    used := Pow2(root);
    c := Cursor(0, root, -1);
    ret := 0;
    CountedStart(p);
    CountedAtMost(p, 0, 0, c, used, 0);
    if (t == LENS && used > ENOUGH_LENS) || (t == DISTS && used > ENOUGH_DISTS) {
      return 1, used, c;
    }
    WalkStart(p, table[..]);
    MaxIsLast(p);
    while true
      invariant sym < n && len == p.Len(sym)
      invariant c == Cursor(next, curr, low)
      invariant Walking(p, table[..], sym, len, huff, drop, c, used) && Done(p, c, table[..], sym)
      invariant Remaining(p, count[..], sym) && Counted(p, sym, drop, c, used, q)
      invariant forall a :: 0 <= a < start ==> table[a] == old(table[a])
      decreases n - sym
    {
      assert work[sym] == p.order[sym];
      EnterCode(p, table, sym, t, start, work[sym], len, huff, drop, next, curr, c, used);
      ghost var i, was, bit := sym, huff, -1;
      huff, bit := NextHuff(p, table[..], sym, len, huff, drop, c, used);

      // go to the next symbol
      sym := sym + 1;
      CountDown(p, count, i, len);
      if count[len] == 0 {
        if len == max {
          LastCode(p, table[..], i, len, was, drop, c, used, huff, bit);
          CountedEnd(p, i, drop, c, used, q);
          break;
        }
        len := lens[work[sym]];
      }
      Advance(p, table[..], i, p.Len(i), was, drop, c, used, huff, bit);

      // the next code is too long for this table
      if len > root && Low(huff, root) != low {
        next := next + Pow2(curr);
        var ok;
        ok, curr, used, c, q := OpenSubTable(p, table, count, sym, t, start, root, max, len, huff, drop, next, curr,
              used, c, q);
        drop := root;
        if !ok {
          CountedAtMost(p, sym, drop, c, used, q);
          return 1, used, c;
        }
        low := huff;
      } else {
        CountedStays(p, table[..], i, len, huff, drop, c, used, q);
      }
    }

    // mark the other code as invalid if there is just one code of one bit
    if huff != 0 {
      ghost var before := table[..];
      table[start + next + huff] := Entry(64, len - drop, 0);
      assert table[..] == before[start + 1 := INVALID];
    }
  }

  lemma MaxIsLast(p: Plan)
    requires p.Valid() && 0 < |p.order|
    ensures forall j :: 0 <= j < |p.order| ==> p.Len(j) <= p.Len(|p.order| - 1)
  {
    forall j | 0 <= j < |p.order|
      ensures p.Len(j) <= p.Len(|p.order| - 1)
    {
      LengthsSorted(p.lens, p.order, j, |p.order| - 1);
    }
  }

  // Only after the last code can the increment wrap around.
  lemma NotWrapped(p: Plan, i: nat, len: nat, huff: nat)
    requires p.Valid() && i + 1 < |p.order| && len == p.Len(i) <= MAXBITS
    requires Pos(p.lens, p.order, |p.order|) <= Pow2(MAXBITS)
    requires Rev(huff, MAXBITS) == Pos(p.lens, p.order, i)
    ensures Rev(huff, MAXBITS) + Pow2(MAXBITS - len) < Pow2(MAXBITS)
  {
    hide Sorted, Rev, Pow2;
    LengthBlock(p.lens, p.order, i + 1);
    assert Pos(p.lens, p.order, i + 1) == Rev(huff, MAXBITS) + Pow2(MAXBITS - len);
    assert Pos(p.lens, p.order, i + 2) > Pos(p.lens, p.order, i + 1);
    PosMono(p.lens, p.order, i + 2, |p.order|);
  }

  // What the loop knows about the next code, if there is one.
  lemma Advance(p: Plan, tab: seq<Entry>, i: nat, len: nat, huff: nat, drop: nat, c: Cursor, used: nat, huff': nat,
                t: int)
    requires Walking(p, tab, i, len, huff, drop, c, used) && i + 1 < |p.order|
    requires Pos(p.lens, p.order, |p.order|) <= Pow2(MAXBITS)
    requires t < len
    requires t >= 0 ==> huff' == Low(huff, t) + Pow2(t) < Pow2(t + 1)
    requires t >= 0 ==> Rev(huff', MAXBITS) == Rev(huff, MAXBITS) + Pow2(MAXBITS - len)
    requires t < 0 ==> Rev(huff, MAXBITS) + Pow2(MAXBITS - len) == Pow2(MAXBITS)
    ensures p.Len(i + 1) <= MAXBITS && Rev(huff', MAXBITS) == Pos(p.lens, p.order, i + 1)
    ensures p.Len(i + 1) > p.root && Low(huff', p.root) != c.low ==>
      huff' < Pow2(p.root) && Low(huff', p.root) == huff' && Pow2(p.root) <= used
    ensures !(p.Len(i + 1) > p.root && Low(huff', p.root) != c.low) ==>
      Walking(p, tab, i + 1, p.Len(i + 1), huff', drop, c, used)
  {
    AdvanceCode(p, tab, i, len, huff, drop, c, used, huff', t);
    hide Walking, Sorted, Rev, Pow2, Low, Pos, Capacity;
    if p.Len(i + 1) > p.root && Low(huff', p.root) != c.low {
      NextOpens(p, tab, i, len, huff, drop, c, used, huff', t);
      LowId(huff', p.root);
    } else {
      NextStays(p, tab, i, len, huff, drop, c, used, huff');
    }
  }

  lemma AdvanceCode(p: Plan, tab: seq<Entry>, i: nat, len: nat, huff: nat, drop: nat, c: Cursor, used: nat,
                    huff': nat, t: int)
    requires Walking(p, tab, i, len, huff, drop, c, used) && i + 1 < |p.order|
    requires Pos(p.lens, p.order, |p.order|) <= Pow2(MAXBITS)
    requires t < len
    requires t >= 0 ==> huff' == Low(huff, t) + Pow2(t) < Pow2(t + 1)
    requires t >= 0 ==> Rev(huff', MAXBITS) == Rev(huff, MAXBITS) + Pow2(MAXBITS - len)
    requires t < 0 ==> Rev(huff, MAXBITS) + Pow2(MAXBITS - len) == Pow2(MAXBITS)
    ensures t >= 0 && Pow2(p.root) <= used && p.Valid() && len <= p.Len(i + 1) <= MAXBITS
    ensures huff' < Pow2(p.Len(i + 1)) && Rev(huff', MAXBITS) == Pos(p.lens, p.order, i + 1)
  {
    WalkingCode(p, tab, i, len, huff, drop, c, used);
    hide Walking, Sorted, Rev, Pow2, Low, Pos, Capacity;
    assert t >= 0 by { NotWrapped(p, i, len, huff); }
    NextCode(p, i, huff, huff', t);
  }

  lemma WalkingCode(p: Plan, tab: seq<Entry>, i: nat, len: nat, huff: nat, drop: nat, c: Cursor, used: nat)
    requires Walking(p, tab, i, len, huff, drop, c, used)
    ensures p.Valid() && i < |p.order| && len == p.Len(i) && 0 < len <= MAXBITS
    ensures huff < Pow2(len) && Rev(huff, MAXBITS) == Pos(p.lens, p.order, i)
    ensures used <= Capacity(p.t) && c.next + Pow2(c.curr) == used && Pow2(p.root) <= used
    ensures p.start + Capacity(p.t) <= |tab|
    ensures drop == 0 || drop == p.root
  {
  }

  lemma WalkStart(p: Plan, tab: seq<Entry>)
    requires p.Valid() && 0 < |p.order| && p.Len(0) <= p.root
    requires Pow2(p.root) <= Capacity(p.t) && p.start + Capacity(p.t) <= |tab|
    ensures Walking(p, tab, 0, p.Len(0), 0, 0, Cursor(0, p.root, -1), Pow2(p.root))
    ensures Done(p, Cursor(0, p.root, -1), tab, 0)
  {
    RevZero(MAXBITS);
    LengthBlock(p.lens, p.order, 0);
  }

  // ---------- the whole function ----------

  // How many codes have each length.
  method CountLengths(lens: seq<nat>, count: array<nat>)
    requires LengthsOk(lens) && count.Length == MAXBITS + 1
    modifies count
    ensures forall l :: 0 <= l <= MAXBITS ==> count[l] == Count(lens, l)
  {
    for l := 0 to MAXBITS + 1
      invariant forall k :: 0 <= k < l ==> count[k] == 0
    {
      count[l] := 0;
    }
    assert lens[..0] == [];
    for sym := 0 to |lens|
      invariant forall l :: 0 <= l <= MAXBITS ==> count[l] == Count(lens[..sym], l)
    {
      forall l | 0 <= l <= MAXBITS
        ensures Count(lens[..sym + 1], l) == Count(lens[..sym], l) + if lens[sym] == l then 1 else 0
      {
        CountPush(lens, sym, l);
      }
      count[lens[sym]] := count[lens[sym]] + 1;
    }
    assert lens[..|lens|] == lens;
  }

  // The longest and the shortest code length in use; both are 0 when there are no codes.
  method LengthRange(lens: seq<nat>, count: array<nat>) returns (max: nat, min: nat)
    requires count.Length == MAXBITS + 1
    requires forall l :: 0 <= l <= MAXBITS ==> count[l] == Count(lens, l)
    ensures max <= MAXBITS && (forall l :: max < l <= MAXBITS ==> Count(lens, l) == 0)
    ensures max > 0 ==> Count(lens, max) > 0 && 1 <= min <= max && Count(lens, min) > 0
    ensures max > 0 ==> forall l :: 1 <= l < min ==> Count(lens, l) == 0
  {
    max := MAXBITS;
    while max >= 1 && count[max] == 0
      invariant max <= MAXBITS
      invariant forall l :: max < l <= MAXBITS ==> Count(lens, l) == 0
    {
      max := max - 1;
    }
    min := 1;
    while min < max && count[min] == 0
      invariant 1 <= min && (max > 0 ==> min <= max)
      invariant forall l :: 1 <= l < min ==> Count(lens, l) == 0
    {
      min := min + 1;
    }
  }

  // Code space left after the codes of length l, in units of 2^-l.
  lemma LeftUnits(lens: seq<nat>, l: nat, left: nat)
    requires l < MAXBITS && Shl(left, MAXBITS - l) + Filled(lens, l) == Pow2(MAXBITS)
    ensures Count(lens, l + 1) <= 2 * left ==>
      Shl(2 * left - Count(lens, l + 1), MAXBITS - (l + 1)) + Filled(lens, l + 1) == Pow2(MAXBITS)
    ensures Count(lens, l + 1) > 2 * left ==> Oversubscribed(lens)
  {
    hide Pow2, Shl;
    var d, k := MAXBITS - (l + 1), Count(lens, l + 1);
    ShlHalf(left, MAXBITS - l);
    if k <= 2 * left {
      ShlAdd(2 * left - k, k, d);
    } else {
      ShlStrict(2 * left, k, d);
      FilledMono(lens, l + 1, MAXBITS);
    }
  }

  lemma ShlStrict(x: nat, y: nat, n: nat)
    requires x < y
    ensures Shl(x, n) < Shl(y, n)
  {
    ShlAdd(x, 1, n);
    ShlOne(n);
    ShlMono(x + 1, y, n);
  }

  // The code space left over, which tells the acceptable sets from the others: negative if
  // more is claimed than there is, zero if it is used up.
  method CheckLengths(lens: seq<nat>, count: array<nat>) returns (left: int)
    requires count.Length == MAXBITS + 1
    requires forall l :: 0 <= l <= MAXBITS ==> count[l] == Count(lens, l)
    ensures left < 0 <==> Oversubscribed(lens)
    ensures left == 0 <==> Complete(lens)
  {
    hide Pow2, Shl, Filled;
    left := 1;
    var l := 0;
    FilledNone(lens);
    while l < MAXBITS
      invariant l <= MAXBITS && left >= 0
      invariant Shl(left, MAXBITS - l) + Filled(lens, l) == Pow2(MAXBITS)
    {
      LeftUnits(lens, l, left);
      l := l + 1;
      left := 2 * left;
      left := left - count[l];
      if left < 0 {
        return;
      }
    }
    ShlZero(left);
  }

  lemma FilledNone(lens: seq<nat>)
    ensures Shl(1, MAXBITS) + Filled(lens, 0) == Pow2(MAXBITS)
  {
    ShlOne(MAXBITS);
  }

  lemma ShlZero(x: nat)
    ensures Shl(x, 0) == x
  {
  }

  lemma {:induction false} OffsPush(lens: seq<nat>, s: nat, l: nat)
    requires s < |lens|
    ensures Offs(lens[..s + 1], l) == Offs(lens[..s], l) + if 0 < lens[s] < l then 1 else 0
    decreases l
  {
    if l > 1 {
      OffsPush(lens, s, l - 1);
      CountPush(lens, s, l - 1);
    }
  }

  lemma {:induction false} OffsNone(l: nat)
    ensures Offs([], l) == 0
  {
    if l > 1 {
      OffsNone(l - 1);
    }
  }

  lemma {:induction false} OffsTotal(lens: seq<nat>, s: nat, l: nat)
    requires s <= |lens|
    ensures Offs(lens[..s], l) <= s
    decreases s
  {
    if s == 0 {
      OffsNone(l);
      assert lens[..0] == [];
    } else {
      OffsPush(lens, s - 1, l);
      OffsTotal(lens, s - 1, l);
    }
  }

  // The block of length l holds those of the first sym symbols that have length l.
  ghost predicate BlockEntered(lens: seq<nat>, work: seq<nat>, offs: seq<nat>, sym: nat, l: nat)
    requires sym <= |lens| <= |work| && |offs| == MAXBITS + 1 && l <= MAXBITS
  {
    && offs[l] == Offs(lens, l) + Count(lens[..sym], l)
    && Offs(lens, l) + Count(lens, l) <= |lens|
    && forall k :: Offs(lens, l) <= k < offs[l] && k < |work| ==> Placed(lens, work[k], k)
  }

  ghost predicate Entered(lens: seq<nat>, work: seq<nat>, offs: seq<nat>, sym: nat) {
    && sym <= |lens| <= |work| && |offs| == MAXBITS + 1 && LengthsOk(lens)
    && forall l: nat :: 1 <= l <= MAXBITS ==> BlockEntered(lens, work, offs, sym, l)
  }

  lemma OffsNext(lens: seq<nat>, l: nat)
    requires l > 0
    ensures Offs(lens, l + 1) == Offs(lens, l) + Count(lens, l)
  {
  }

  lemma BlockSkip(lens: seq<nat>, work: seq<nat>, offs: seq<nat>, sym: nat, l: nat)
    requires sym < |lens| <= |work| && |offs| == MAXBITS + 1 && 1 <= l <= MAXBITS && lens[sym] != l
    requires BlockEntered(lens, work, offs, sym, l)
    ensures BlockEntered(lens, work, offs, sym + 1, l)
  {
    CountPush(lens, sym, l);
  }

  lemma BlocksApart(lens: seq<nat>, l: nat, m: nat)
    requires 1 <= l && 1 <= m && l != m
    ensures Offs(lens, l) + Count(lens, l) <= Offs(lens, m) || Offs(lens, m) + Count(lens, m) <= Offs(lens, l)
  {
    hide Offs, Count;
    OffsNext(lens, l);
    OffsNext(lens, m);
    if l < m {
      OffsMono(lens, l + 1, m);
    } else {
      OffsMono(lens, m + 1, l);
    }
  }

  lemma BlockAdd(lens: seq<nat>, work: seq<nat>, offs: seq<nat>, sym: nat, l: nat)
    requires sym < |lens| <= |work| && |offs| == MAXBITS + 1 && 1 <= l <= MAXBITS
    requires 1 <= lens[sym] <= MAXBITS && offs[lens[sym]] < |work|
    requires BlockEntered(lens, work, offs, sym, l) && BlockEntered(lens, work, offs, sym, lens[sym])
    ensures BlockEntered(lens, work[offs[lens[sym]] := sym], offs[lens[sym] := offs[lens[sym]] + 1], sym + 1, l)
  {
    hide Offs, Count;
    var m := lens[sym];
    CountPush(lens, sym, l);
    RankBound(lens, sym);
    CountPrefix(lens, sym, sym, l);
    if l == m {
      assert Placed(lens, sym, offs[m]);
    } else {
      BlocksApart(lens, l, m);
    }
  }

  lemma EnteredStep(lens: seq<nat>, work: seq<nat>, offs: seq<nat>, sym: nat)
    requires Entered(lens, work, offs, sym) && sym < |lens|
    ensures lens[sym] == 0 ==> Entered(lens, work, offs, sym + 1)
    ensures lens[sym] != 0 ==> offs[lens[sym]] < |lens|
    ensures lens[sym] != 0 ==>
      Entered(lens, work[offs[lens[sym]] := sym], offs[lens[sym] := offs[lens[sym]] + 1], sym + 1)
  {
    var m, next := lens[sym], sym + 1;
    if m == 0 {
      forall l: nat | 1 <= l <= MAXBITS
        ensures BlockEntered(lens, work, offs, next, l)
      {
        assert BlockEntered(lens, work, offs, sym, l);
        BlockSkip(lens, work, offs, sym, l);
      }
    } else {
      assert BlockEntered(lens, work, offs, sym, m);
      RankBound(lens, sym);
      var work', offs' := work[offs[m] := sym], offs[m := offs[m] + 1];
      forall l: nat | 1 <= l <= MAXBITS
        ensures BlockEntered(lens, work', offs', next, l)
      {
        assert BlockEntered(lens, work, offs, sym, l);
        BlockAdd(lens, work, offs, sym, l);
      }
    }
  }

  lemma EnteredAll(lens: seq<nat>, work: seq<nat>, offs: seq<nat>)
    requires Entered(lens, work, offs, |lens|)
    ensures Offs(lens, MAXBITS + 1) <= |lens|
    ensures Sorted(lens, work[..Offs(lens, MAXBITS + 1)])
  {
    hide Offs, Count;
    var n := Offs(lens, MAXBITS + 1);
    assert lens[..|lens|] == lens;
    OffsTotal(lens, |lens|, MAXBITS + 1);
    forall k | 0 <= k < n
      ensures Placed(lens, work[k], k)
    {
      var l := BlockOf(lens, k, MAXBITS);
      OffsNext(lens, l);
      assert BlockEntered(lens, work, offs, |lens|, l);
    }
  }

  lemma {:induction false} BlockOf(lens: seq<nat>, k: nat, m: nat) returns (l: nat)
    requires k < Offs(lens, m + 1)
    ensures 1 <= l <= m && Offs(lens, l) <= k < Offs(lens, l + 1)
  {
    if m > 0 && k < Offs(lens, m) {
      l := BlockOf(lens, k, m - 1);
    } else {
      l := m;
    }
  }

  // Offsets into the sorted symbols for each length.
  method Offsets(lens: seq<nat>, count: array<nat>) returns (offs: array<nat>)
    requires count.Length == MAXBITS + 1
    requires forall l :: 0 <= l <= MAXBITS ==> count[l] == Count(lens, l)
    ensures fresh(offs) && offs.Length == MAXBITS + 1
    ensures forall l :: 1 <= l <= MAXBITS ==> offs[l] == Offs(lens, l)
  {
    hide Offs, Count;
    offs := new nat[MAXBITS + 1];
    offs[1] := 0;
    OffsOne(lens);
    for l := 1 to MAXBITS
      invariant forall k :: 1 <= k <= l ==> offs[k] == Offs(lens, k)
    {
      OffsNext(lens, l);
      offs[l + 1] := offs[l] + count[l];
    }
  }

  // Counting sort: symbols in canonical order, shortest codes first.
  method SortSymbols(lens: seq<nat>, offs: array<nat>, work: array<nat>)
    requires LengthsOk(lens) && offs.Length == MAXBITS + 1 && |lens| <= work.Length && work != offs
    requires forall l :: 1 <= l <= MAXBITS ==> offs[l] == Offs(lens, l)
    modifies work, offs
    ensures Offs(lens, MAXBITS + 1) <= |lens|
    ensures Sorted(lens, work[..Offs(lens, MAXBITS + 1)])
  {
    hide Entered, Sorted, Offs;
    EnteredNone(lens, work[..], offs[..]);
    for sym := 0 to |lens|
      invariant Entered(lens, work[..], offs[..], sym)
    {
      EnteredStep(lens, work[..], offs[..], sym);
      var l := lens[sym];
      if l != 0 {
        ghost var w, o := work[..], offs[..];
        work[offs[l]] := sym;
        offs[l] := offs[l] + 1;
        assert work[..] == w[o[l] := sym];
        assert offs[..] == o[l := o[l] + 1];
      }
    }
    EnteredAll(lens, work[..], offs[..]);
    assert work[..][..Offs(lens, MAXBITS + 1)] == work[..Offs(lens, MAXBITS + 1)];
  }

  lemma EnteredNone(lens: seq<nat>, work: seq<nat>, offs: seq<nat>)
    requires LengthsOk(lens) && |lens| <= |work| && |offs| == MAXBITS + 1
    requires forall l :: 1 <= l <= MAXBITS ==> offs[l] == Offs(lens, l)
    ensures Entered(lens, work, offs, 0)
  {
    hide Offs;
    assert lens[..0] == [] && lens[..|lens|] == lens;
    forall l: nat | 1 <= l <= MAXBITS
      ensures BlockEntered(lens, work, offs, 0, l)
    {
      OffsNext(lens, l);
      OffsTotal(lens, |lens|, l + 1);
    }
  }

  // ---------- the theorems ----------

  lemma LookupGood(p: Plan, c: Cursor, tab: seq<Entry>, w: nat, j: nat)
    requires p.Valid() && j < |p.order| && Good(p, c, tab, w, j)
    ensures InTable(tab, p.start, p.root, w)
    ensures Lookup(tab, p.start, p.root, w) == DecodedSymbol(p.t, p.order[j], p.Len(j))
    ensures Rooted(tab, p.start, p.root, w, p.Len(j))
  {
    hide Low, Shr, Pow2, Sorted;
    SymbolEntryNoLink(p.t, p.order[j], p.Len(j));
    if p.Len(j) > p.root {
      LowInside(p, w, tab[p.start + Low(w, p.root)].op);
    }
  }

  lemma LowInside(p: Plan, w: nat, op: nat)
    ensures Low(Shr(w, p.root), op) < Pow2(op)
  {
  }

  lemma RepresentsDone(p: Plan, c: Cursor, tab: seq<Entry>)
    requires p.Valid() && Done(p, c, tab, |p.order|)
    ensures Represents(tab, p.start, p.root, p.t, p.lens)
  {
    forall s: nat, w: nat | InInterval(p.lens, s, w)
      ensures InTable(tab, p.start, p.root, w) && Lookup(tab, p.start, p.root, w) == DecodedSymbol(p.t, s, p.lens[s])
      ensures Rooted(tab, p.start, p.root, w, p.lens[s])
    {
      hide Low, Shr, Pow2, Sorted, Rev;
      var i := PlaceOf(p.lens, p.order, s);
      PosIsStart(p.lens, p.order, i);
      assert Matches(p, w, i);
      LookupGood(p, c, tab, w, i);
    }
  }

  // Every length is zero.
  predicate NoCodes(lens: seq<nat>) {
    forall i :: 0 <= i < |lens| ==> lens[i] == 0
  }

  lemma CountNone(lens: seq<nat>)
    ensures NoCodes(lens) <==> forall l :: 1 <= l <= MAXBITS ==> Count(lens, l) == 0
    requires LengthsOk(lens)
  {
    if l :| 1 <= l <= MAXBITS && Count(lens, l) != 0 {
      assert l in multiset(lens);
    }
    if i :| 0 <= i < |lens| && lens[i] != 0 {
      assert lens[i] in multiset(lens);
      assert Count(lens, lens[i]) > 0;
    }
  }

  // The longest length in use.
  ghost predicate Longest(lens: seq<nat>, max: nat) {
    max <= MAXBITS && Count(lens, max) > 0 && forall l :: max < l <= MAXBITS ==> Count(lens, l) == 0
  }

  // The lengths that inflate_table accepts: none at all, a complete set, or (except for
  // the code lengths code) a lone code of one bit.
  ghost predicate Acceptable(t: CodeType, lens: seq<nat>) {
    || NoCodes(lens)
    || Complete(lens)
    || (!t.CODES? && !Oversubscribed(lens) && Longest(lens, 1))
  }

  // What inflate_table leaves behind when it returns 0.
  ghost predicate TableBuilt(tab: seq<Entry>, start: nat, root: nat, used: nat, t: CodeType, lens: seq<nat>) {
    && start + used <= |tab| && used <= Capacity(t) && 1 <= root <= MAXBITS
    && Represents(tab, start, root, t, lens)
    && (NoCodes(lens) ==> root == 1 && used == 2 && tab[start] == INVALID && tab[start + 1] == INVALID)
    && (!NoCodes(lens) && !Complete(lens) ==> root == 1 && used == 2 && tab[start + 1] == INVALID)
    && (t.CODES? ==> forall i :: 0 <= i < |lens| ==> lens[i] <= root)
  }

  lemma NoneLonger(lens: seq<nat>, max: nat, i: nat)
    requires LengthsOk(lens) && Longest(lens, max) && i < |lens|
    ensures lens[i] <= max
  {
    InUse(lens, i);
  }

  lemma InUse(lens: seq<nat>, i: nat)
    requires i < |lens|
    ensures Count(lens, lens[i]) > 0
  {
    assert lens[i] in multiset(lens);
  }

  lemma SortedEnds(lens: seq<nat>, order: seq<nat>, min: nat, max: nat)
    requires Sorted(lens, order)
    requires 1 <= min <= max <= MAXBITS && Count(lens, min) > 0 && Longest(lens, max)
    requires forall l :: 1 <= l < min ==> Count(lens, l) == 0
    ensures 0 < |order| && order[0] < |lens| && lens[order[0]] == min
    ensures order[|order| - 1] < |lens| && lens[order[|order| - 1]] == max
  {
    hide Offs, Sorted;
    SortedLength(lens, order);
    OffsEmpty(lens, 1, min);
    OffsEmpty(lens, max + 1, MAXBITS + 1);
    OffsNext(lens, min);
    OffsNext(lens, max);
    OffsMono(lens, min + 1, MAXBITS + 1);
    assert Offs(lens, 1) == 0 by { OffsOne(lens); }
    LengthAt(lens, order, 0, min);
    LengthAt(lens, order, |order| - 1, max);
  }

  lemma OffsOne(lens: seq<nat>)
    ensures Offs(lens, 1) == 0
  {
  }

  lemma {:induction false} OffsEmpty(lens: seq<nat>, k: nat, l: nat)
    requires 1 <= k <= l && forall m :: k <= m < l ==> Count(lens, m) == 0
    ensures Offs(lens, k) == Offs(lens, l)
    decreases l
  {
    if k < l {
      OffsEmpty(lens, k, l - 1);
      OffsNext(lens, l - 1);
    }
  }

  lemma RemainingAll(p: Plan, count: seq<nat>)
    requires p.Valid() && |count| == MAXBITS + 1
    requires forall l :: 0 <= l <= MAXBITS ==> count[l] == Count(p.lens, l)
    ensures Remaining(p, count, 0)
  {
    hide Offs;
    forall l: nat | 1 <= l <= MAXBITS
      ensures Left(p.lens, 0, l) == count[l]
    {
      OffsNext(p.lens, l);
    }
  }

  /**
    The whole function: returns -1 exactly for sets of lengths that are neither complete
    nor one of the tolerated incomplete sets, 1 when the table space does not suffice, and
    otherwise 0 with a table that represents the canonical code.
   */
  method BuildTable(t: CodeType, lens: seq<nat>, table: array<Entry>, start: nat, bits: nat, work: array<nat>)
    returns (ret: int, used: nat, root: nat)
    requires LengthsOk(lens) && |lens| <= MaxCodes(t) && |lens| <= work.Length
    requires 1 <= bits <= MAXBITS && start + Capacity(t) <= table.Length
    requires t.CODES? ==> bits <= 7 && forall i :: 0 <= i < |lens| ==> lens[i] <= bits
    modifies table, work
    ensures ret == if !Acceptable(t, lens) then -1 else if TableSize(lens, bits) <= Capacity(t) then 0 else 1
    ensures t.CODES? ==> ret != 1
    ensures ret == 0 ==> TableBuilt(table[..], start, root, used, t, lens)
    ensures ret == 0 ==> root == RootWidth(lens, bits) && used == TableSize(lens, bits)
    ensures forall a :: 0 <= a < start ==> table[a] == old(table[a])
  {
    hide Sorted, Pow2, Filled, Offs, Represents, Done, Remaining, Pos, Needed, RootWidth, Shl,
         SymbolEntry, IsLink;
    var count := new nat[MAXBITS + 1];
    CountLengths(lens, count);

    // the root table indexes by a length between the shortest and the longest code
    var max, min := LengthRange(lens, count);
    CountNone(lens);
    root := if bits > max then max else bits;
    if max == 0 {
      table[start] := INVALID;
      table[start + 1] := INVALID;
      NothingToDecode(table[..], start, 1, t, lens);
      EmptySize(lens, bits);
      return 0, 2, 1;
    }
    if root < min {
      root := min;
    }
    RootWidthIs(lens, bits, min, max);
    var left := CheckLengths(lens, count);
    if left < 0 {
      return -1, 0, root;
    }
    if left > 0 && (t == CODES || max != 1) {
      return -1, 0, root;
    }
    var offs := Offsets(lens, count);
    SortSymbols(lens, offs, work);
    ghost var order := work[..Offs(lens, MAXBITS + 1)];
    ghost var p := Plan(t, lens, order, start, root);
    SortedEnds(lens, order, min, max);
    PlanValid(p);
    RemainingAll(p, count[..]);
    PosEnd(lens, order);
    SmallRoot(root);
    ghost var c;
    ret, used, c := FillTables(t, lens, root, max, work, count, table, start, p);
    if t == CODES {
      ShortCodes(lens, bits);
      SmallRoot(bits);
    }
    if ret == 0 {
      RepresentsDone(p, c, table[..]);
      forall i | 0 <= i < |lens| ensures lens[i] <= max {
        NoneLonger(lens, max, i);
      }
    }
  }

  lemma SmallRoot(root: nat)
    ensures root <= 7 ==> Pow2(root) <= 128
  {
    if root <= 7 {
      Pow2Mono(root, 7);
      assert Pow2(7) == 128;
    }
  }

  lemma PlanValid(p: Plan)
    requires Sorted(p.lens, p.order) && |p.lens| <= MaxCodes(p.t) && 1 <= p.root <= MAXBITS
    ensures p.Valid()
  {
    forall i | 0 <= i < |p.order|
      ensures p.order[i] < |p.lens|
    {
      assert Placed(p.lens, p.order[i], i);
    }
  }

  lemma NothingToDecode(tab: seq<Entry>, start: nat, root: nat, t: CodeType, lens: seq<nat>)
    requires NoCodes(lens) && |lens| <= MaxCodes(t)
    ensures Represents(tab, start, root, t, lens)
  {
  }

  // ---------- agreement with the canonical code ----------

  lemma DecodedIsInterval(lens: seq<nat>, s: nat, w: nat)
    requires LengthsOk(lens) && !Oversubscribed(lens) && w < Pow2(MAXBITS)
    ensures Decodes(lens, s, ToBits(w, MAXBITS)) <==> InInterval(lens, s, w)
  {
    hide Pow2, ToBits, Start;
    if s < |lens| && 0 < lens[s] {
      DecodesInterval(lens, s, w);
      ToBitsPrefix(w, lens[s], MAXBITS);
    }
  }

  lemma AcceptableFits(t: CodeType, lens: seq<nat>)
    requires LengthsOk(lens) && Acceptable(t, lens)
    ensures !Oversubscribed(lens)
  {
    if NoCodes(lens) {
      CountNone(lens);
      FilledEmpty(lens, 0, MAXBITS);
    }
  }

  lemma {:induction false} FilledEmpty(lens: seq<nat>, k: nat, l: nat)
    requires k <= l <= MAXBITS && forall m :: k < m <= l ==> Count(lens, m) == 0
    ensures Filled(lens, l) == Filled(lens, k)
    decreases l
  {
    if k < l {
      FilledEmpty(lens, k, l - 1);
      ShlOne(MAXBITS - l);
    }
  }

  // Every window decodes unless the code is empty or the window begins with the bit that
  // a lone one-bit code leaves unused.
  lemma UndecodedWindow(t: CodeType, lens: seq<nat>, w: nat)
    requires LengthsOk(lens) && Acceptable(t, lens) && w < Pow2(MAXBITS)
    requires forall s :: !Decodes(lens, s, ToBits(w, MAXBITS))
    ensures NoCodes(lens) || (!Complete(lens) && Low(w, 1) == 1)
  {
    hide Pow2, ToBits, Start;
    AcceptableFits(t, lens);
    if Complete(lens) {
      var s := CompleteDecodes(lens, Rev(w, MAXBITS), MAXBITS);
      DecodedIsInterval(lens, s, w);
      assert false;
    } else if !NoCodes(lens) {
      var s := RankFind(lens, 1, 0);
      StartOfFirst(lens, s);
      DecodedIsInterval(lens, s, w);
      RevZero(MAXBITS);
      PowersOneTwo();
      ReversedCodeInterval(0, 1, w);
    }
  }

  lemma StartOfFirst(lens: seq<nat>, s: nat)
    requires s < |lens| && lens[s] == 1 && Rank(lens, s) == 0
    ensures Start(lens, s) == 0
  {
    ShlOne(MAXBITS - 1);
    assert Filled(lens, 0) == 0;
  }

  /**
    Root lookup and at most one sub-table lookup on any 15 bits of the stream give the
    symbol, the entry and the bit count of the canonical code, or the invalid marker when
    no code of the set begins there.
   */
  lemma TableDecodes(tab: seq<Entry>, start: nat, root: nat, used: nat, t: CodeType, lens: seq<nat>, w: nat)
    requires LengthsOk(lens) && |lens| <= MaxCodes(t) && Acceptable(t, lens)
    requires TableBuilt(tab, start, root, used, t, lens) && w < Pow2(MAXBITS)
    ensures InTable(tab, start, root, w)
    ensures match DecodeSymbol(lens, ToBits(w, MAXBITS))
            case Some(s) => Lookup(tab, start, root, w) == DecodedSymbol(t, s, lens[s])
                            && Rooted(tab, start, root, w, lens[s])
            case None => Lookup(tab, start, root, w) == Decoded(64, 0, 1) && Rooted(tab, start, root, w, 1)
  {
    hide Pow2, ToBits, Complete, Longest;
    AcceptableFits(t, lens);
    match DecodeSymbol(lens, ToBits(w, MAXBITS))
    case Some(s) => DecodedIsInterval(lens, s, w);
    case None =>
      UndecodedWindow(t, lens, w);
      PowersOneTwo();
      assert Low(w, 1) < Pow2(1);
  }
}
