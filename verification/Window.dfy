/**
  The sliding window of deflate.c: fill_window, read_buf and INSERT_STRING.

  data is all input taken in so far and base how far the window has been slid: window
  position p holds data[base + p].
 */
module Window {
  import opened Bits
  import opened Hash
  import opened HashChains
  import opened Symbols
  import opened BitWriter
  import opened Matcher

  // The window holds the input from base up to the end of the lookahead.
  ghost predicate Holds(win: seq<nat>, data: seq<nat>, base: nat, end: nat) {
    end <= |win| && |data| == base + end && win[..end] == data[base..] && IsBytes(data)
  }

  lemma HoldsAt(win: seq<nat>, data: seq<nat>, base: nat, end: nat, p: nat)
    requires Holds(win, data, base, end) && p < end
    ensures win[p] == data[base + p] < 256
  {
    assert win[..end][p] == data[base..][p];
  }

  lemma HoldsMore(win: seq<nat>, win2: seq<nat>, data: seq<nat>, base: nat, end: nat, more: seq<nat>)
    requires Holds(win, data, base, end) && |win2| == |win| && end + |more| <= |win| && IsBytes(more)
    requires win2[..end] == win[..end] && win2[end..end + |more|] == more
    ensures Holds(win2, data + more, base, end + |more|)
  {
    assert win2[..end + |more|] == win2[..end] + win2[end..end + |more|];
    assert (data + more)[base..] == data[base..] + more;
  }

  lemma HoldsSlid(win: seq<nat>, win2: seq<nat>, data: seq<nat>, base: nat, end: nat, w: nat)
    requires Holds(win, data, base, end) && |win2| == |win| == 2 * w && w <= end
    requires win2[..w] == win[w..]
    ensures Holds(win2, data, base + w, end - w)
  {
    var now, tail := win2[..end - w], data[base + w..];
    forall i | 0 <= i < |tail|
      ensures now[i] == tail[i]
    {
      assert win2[..w][i] == win[w..][i];
      HoldsAt(win, data, base, end, w + i);
    }
    assert now == tail;
  }

  // The strings from a on, up to but not b.
  function Span(a: int, b: int): (r: set<nat>)
    ensures forall x: nat :: x in r <==> a <= x < b
  {
    set x: nat | x < b && From(x, a)
  }

  lemma SpanNext(a: int, b: nat)
    requires a <= b
    ensures Span(a, a) == {} && Span(a, b + 1) == Span(a, b) + {b}
  {
  }

  predicate From(x: nat, a: int) {
    a <= x
  }

  // Slide a table of positions.
  method SlideTable(t: array<nat>, wsize: nat)
    modifies t
    ensures t[..] == Slid(old(t[..]), wsize)
  {
    ghost var was := t[..];
    var n: nat := t.Length;
    while n != 0
      invariant n <= t.Length
      invariant forall i :: 0 <= i < n ==> t[i] == was[i]
      invariant forall i :: n <= i < t.Length ==> t[i] == SlidOne(was[i], wsize)
    {
      n := n - 1;
      var m := t[n];
      t[n] := if m >= wsize then m - wsize else 0;
    }
  }

  class SlidingWindow {
    const window: array<nat>
    const prev: array<nat>
    const head: array<nat>
    const w_bits: nat
    const hash_bits: nat
    const hash_shift: nat

    var strstart: nat        // the current string
    var lookahead: nat       // input in the window from there on
    var insert: nat          // strings before it that are not in a chain yet
    var ins_h: nat           // hash of the first bytes of the current string
    var block_start: int     // may be negative once the window has slid
    var match_start: int     // where the last match was found
    var input: seq<nat>      // not yet in the window
    ghost var data: seq<nat>
    ghost var base: nat
    ghost var ins: set<nat>
    ghost var top: nat

    function WSize(): nat {
      Pow2(w_bits)
    }

    function MaxDist(): int {
      WSize() - MIN_LOOKAHEAD
    }

    predicate Config() {
      && 9 <= w_bits <= 15 && 8 <= hash_bits <= 16 && 3 * hash_shift >= hash_bits
      && window.Length == 2 * WSize() && prev.Length == WSize() && head.Length == Pow2(hash_bits)
      && window != prev && window != head && prev != head
    }

    lemma WSizeBounds()
      requires Config()
      ensures 512 <= WSize() <= 0x8000
    {
      hide Pow2;
      Pow2Mono(9, w_bits);
      Pow2Mono(w_bits, 15);
      Pow2Add(8, 1);
      Pow2Values();
    }

    ghost predicate Held()
      reads `strstart, `lookahead, `data, `base, window
    {
      Config() && Holds(window[..], data, base, strstart + lookahead)
    }

    ghost predicate Text()
      reads this, window
    {
      Held() && IsBytes(input) && insert <= strstart && insert <= 2
    }

    // All inserted strings are before limit.
    ghost predicate Strings(limit: int)
      reads `data, `base, `ins, `top, prev, head
    {
      && Config() && base <= |data|
      && Chains(head[..], prev[..], ins, data[base..], WSize(), hash_bits, hash_shift, top) && top <= limit
    }

    // The running hash stands for the current string, when there is one.
    ghost predicate HashReady()
      reads `lookahead, `insert, `strstart, `data, `base, `ins_h
    {
      lookahead >= MIN_MATCH ==> insert == 0 && PrimedAt(strstart)
    }

    ghost predicate PrimedAt(str: nat)
      reads `data, `base, `ins_h
    {
      base + str + 1 < |data| && Primed(ins_h, data[base + str], data[base + str + 1], hash_bits, hash_shift)
    }

    constructor (w_bits: nat, hash_bits: nat)
      requires 9 <= w_bits <= 15 && 8 <= hash_bits <= 16
      ensures Text() && Strings(0) && HashReady()
      ensures fresh(window) && fresh(prev) && fresh(head)
      ensures strstart == lookahead == insert == base == 0 && block_start == 0 && data == [] && input == []
      ensures this.w_bits == w_bits && this.hash_bits == hash_bits && hash_shift == (hash_bits + 2) / 3
    {
      this.w_bits, this.hash_bits, this.hash_shift := w_bits, hash_bits, (hash_bits + MIN_MATCH - 1) / MIN_MATCH;
      window, prev, head := new nat[2 * Pow2(w_bits)], new nat[Pow2(w_bits)], new nat[Pow2(hash_bits)];
      strstart, lookahead, insert, ins_h, block_start, match_start := 0, 0, 0, 0, 0, 0;
      input := [];
      data, base, ins, top := [], 0, {}, 0;
      new;
      ClearHash();
    }

    lemma HeldBounds()
      requires Held()
      ensures strstart + lookahead <= window.Length && |data| == base + strstart + lookahead
      ensures window != prev && window != head && prev != head && prev.Length == WSize() && window.Length == 2 * WSize()
    {
    }

    lemma HeldConfig()
      requires Held()
      ensures Config()
    {
    }

    // The window holds the data.
    lemma HeldAt(p: nat)
      requires Held() && p < strstart + lookahead
      ensures p < window.Length && base + p < |data| && window[p] == data[base + p] < 256
    {
      HoldsAt(window[..], data, base, strstart + lookahead, p);
    }

    lemma PrimedHere(str: nat)
      requires base + str + 1 < |data| && Primed(ins_h, data[base + str], data[base + str + 1], hash_bits, hash_shift)
      ensures PrimedAt(str)
    {
    }

    // CLEAR_HASH
    method ClearHash()
      requires Config() && base <= |data|
      modifies head, this`ins, this`top
      ensures ins == {} && Strings(0)
    {
      hide Chains, Pow2;
      var n := 0;
      while n < head.Length
        invariant n <= head.Length && forall i :: 0 <= i < n ==> head[i] == 0
      {
        head[n] := 0;
        n := n + 1;
      }
      ins, top := {}, 0;
      ChainsEmpty(head[..], prev[..], data[base..], WSize(), hash_bits, hash_shift);
    }

    // Between h and str there is no inserted string with the hash of the one at str.
    ghost predicate Newest(h: nat, str: nat)
      reads `data, `base, `ins
    {
      && base + str + 3 <= |data|
      && forall x: nat :: x in ins && h < x < str ==>
           KeyAt(data[base..], x, hash_bits, hash_shift) != KeyAt(data[base..], str, hash_bits, hash_shift)
    }

    /**
      Put the string at str at the head of its hash chain and return what was there before.
     */
    method InsertString(str: nat) returns (hashHead: nat)
      requires Text() && Strings(str) && str + MIN_MATCH <= strstart + lookahead && PrimedAt(str)
      modifies prev, head, this`ins_h, this`ins, this`top
      ensures Strings(str + 1) && ins == old(ins) + {str}
      ensures PrimedAt(str + 1) && base + str + MIN_MATCH <= |data| && Newest(hashHead, str)
      ensures hashHead != 0 ==>
        hashHead in ins && hashHead < str && str + 3 <= |data[base..]|
        && KeyAt(data[base..], hashHead, hash_bits, hash_shift) == KeyAt(data[base..], str, hash_bits, hash_shift)
    {
      hide Chains, Pow2, Key, UpdateHash, Primed, Holds, IsBytes;
      HoldsAll(window[..], data, base, strstart + lookahead);
      ghost var text, k := data[base..], KeyAt(data[base..], str, hash_bits, hash_shift);
      ghost var h: seq<nat>, p: seq<nat>, was := head[..], prev[..], ins;
      HoldsAt(window[..], data, base, strstart + lookahead, str + 2);
      PrimedUpdate(ins_h, data[base + str], data[base + str + 1], data[base + str + 2], hash_bits, hash_shift);
      ins_h := UpdateHash(ins_h, window[str + MIN_MATCH - 1], hash_bits, hash_shift);
      assert ins_h == k;
      ChainsInsert(h, p, was, text, WSize(), hash_bits, hash_shift, top, str);
      LowIsSlot(str, w_bits);
      HeadLink(h, p, was, text, WSize(), hash_bits, hash_shift, top, k);
      hashHead := head[ins_h];
      prev[Low(str, w_bits)] := hashHead;
      head[ins_h] := str;
      ins, top := was + {str}, str + 1;
      assert head[..] == h[k := str] && prev[..] == p[Slot(str, WSize()) := h[k]];
      NewestIs(hashHead, str, was);
    }

    lemma NewestIs(h: nat, str: nat, was: set<nat>)
      requires base + str + 3 <= |data| && ins == was + {str} && forall x :: x in was ==> x + 3 <= |data[base..]|
      requires NoneBetween(was, data[base..], h, KeyAt(data[base..], str, hash_bits, hash_shift), str, hash_bits,
                           hash_shift)
      ensures Newest(h, str)
    {
      hide KeyAt;
    }

    // Copy the upper half of the window to the lower one.
    method MoveHalf()
      requires Config() && Holds(window[..], data, base, strstart + lookahead) && strstart >= WSize()
      modifies window
      ensures Holds(window[..], data, base + WSize(), strstart + lookahead - WSize())
    {
      hide Pow2, Holds;
      ghost var win, w, end := window[..], WSize(), strstart + lookahead;
      HoldsAll(win, data, base, end);
      var wsize := prev.Length;
      forall i | 0 <= i < wsize {
        window[i] := window[wsize + i];
      }
      assert window[..w] == win[w..];
      HoldsSlid(win, window[..], data, base, end, w);
    }

    // Slide the hash table.
    method SlideHash()
      requires Config() && base + WSize() <= |data|
      requires Chains(head[..], prev[..], ins, data[base..], WSize(), hash_bits, hash_shift, top)
      modifies prev, head, this`ins, this`top
      ensures Chains(head[..], prev[..], ins, data[base + WSize()..], WSize(), hash_bits, hash_shift, top)
      ensures top == SlidOne(old(top), WSize()) && forall x: nat :: x in ins <==> Survives(old(ins), x, WSize())
    {
      hide Chains, Pow2;
      ghost var h, p, w, was, t := head[..], prev[..], WSize(), ins, top;
      var wsize := prev.Length;
      HoldsSlidAll(data, base, w);
      ChainsSlide(h, p, was, data[base..], w, hash_bits, hash_shift, t);
      SlideTable(head, wsize);
      SlideTable(prev, wsize);
      InsBelow(h, p, was, data[base..], w, hash_bits, hash_shift, t);
      ins, top := SlidSet(was, w, t), SlidOne(t, w);
    }

    // Slide: what is in the upper half moves down, and the chains with it.
    method Slide()
      requires Text() && Strings(strstart - insert) && strstart >= WSize() + MaxDist()
      modifies window, prev, head, this`strstart, this`block_start, this`match_start, this`base, this`ins, this`top
      ensures Text() && Strings(strstart - insert)
      ensures base == old(base) + WSize() && strstart == old(strstart) - WSize()
      ensures block_start == old(block_start) - WSize() && match_start == old(match_start) - WSize()
      ensures insert == old(insert) && forall x: nat :: x in ins <==> Survives(old(ins), x, WSize())
    {
      hide Chains, Pow2, Holds;
      WSizeBounds();
      HoldsAll(window[..], data, base, strstart + lookahead);
      var wsize := prev.Length;
      MoveHalf();
      match_start := match_start - wsize;
      strstart := strstart - wsize;
      block_start := block_start - wsize;
      SlideHash();
      base := base + WSize();
    }

    // Copy n bytes of input behind the data in the window.
    method CopyIn(n: nat)
      requires Held() && IsBytes(input) && n <= |input| && strstart + lookahead + n <= window.Length
      modifies window
      ensures Holds(window[..], data + input[..n], base, strstart + lookahead + n)
    {
      hide Pow2, Holds;
      ghost var win, end, taken := window[..], strstart + lookahead, input[..n];
      HoldsAll(win, data, base, end);
      forall i | 0 <= i < n {
        window[strstart + lookahead + i] := input[i];
      }
      ghost var win2 := window[..];
      assert win2[..end] == win[..end] && win2[end..end + n] == taken;
      assert IsBytes(taken);
      HoldsMore(win, win2, data, base, end, taken);
    }

    lemma StringsAppend(taken: seq<nat>)
      requires Strings(strstart - insert) && |taken| <= |input|
      ensures base <= |data|
      ensures Chains(head[..], prev[..], ins, (data + taken)[base..], WSize(), hash_bits, hash_shift, top)
    {
      hide Chains, Pow2;
      ChainsAppend(head[..], prev[..], ins, data[base..], WSize(), hash_bits, hash_shift, top, taken);
      assert (data + taken)[base..] == data[base..] + taken;
    }

    // read_buf: take in as much input as there is and as fits.
    method ReadBuf(more: nat) returns (ghost taken: seq<nat>)
      requires Text() && Strings(strstart - insert) && strstart + lookahead + more <= window.Length
      modifies window, this`lookahead, this`input, this`data
      ensures Text() && Strings(strstart - insert)
      ensures lookahead == old(lookahead) + |taken| && |taken| == if more <= |old(input)| then more else |old(input)|
      ensures old(input) == taken + input && data == old(data) + taken
    {
      hide Chains, Pow2, Holds;
      var n := if more <= |input| then more else |input|;
      taken := input[..n];
      StringsAppend(taken);
      ghost var h, p := head[..], prev[..];
      HeldBounds();
      CopyIn(n);
      assert head[..] == h && prev[..] == p;
      lookahead := lookahead + n;
      input := input[n..];
      data := data + taken;
    }

    // Initialize the hash and insert the strings at the end of the old input.
    method InsertPending()
      requires Text() && Strings(strstart - insert) && lookahead + insert >= MIN_MATCH
      modifies prev, head, this`insert, this`ins_h, this`ins, this`top
      ensures Text() && Strings(strstart - insert) && HashReady()
      ensures insert <= old(insert) && ins == old(ins) + Span(strstart - old(insert), strstart - insert)
    {
      hide Chains, Pow2, Primed, UpdateHash, Key, Held, Strings, IsBytes, Config, PrimedAt, Newest, KeyAt, Span;
      HeldBounds();
      var str := strstart - insert;
      HeldAt(str);
      HeldAt(str + 1);
      ins_h := window[str];
      PrimeTwo(ins_h, window[str + 1], hash_bits, hash_shift);
      ins_h := UpdateHash(ins_h, window[str + 1], hash_bits, hash_shift);
      PrimedHere(str);
      ghost var from := str;
      SpanNext(from, str);
      while insert != 0
        invariant str == strstart - insert && insert <= old(insert)
        invariant ins == old(ins) + Span(from, str) && from <= str
        invariant Text() && Strings(str) && PrimedAt(str)
        invariant lookahead + insert >= MIN_MATCH
        decreases insert
      {
        SpanNext(from, str);
        var h := InsertString(str);
        str := str + 1;
        insert := insert - 1;
        if lookahead + insert < MIN_MATCH {
          break;
        }
      }
    }

    // The position in the input, and what is tied to it, is the same as before.
    twostate predicate SamePlace()
      reads this
    {
      && base + strstart == old(base + strstart) && base + block_start == old(base + block_start)
      && base + match_start == old(base + match_start) && insert <= old(insert) && lookahead >= old(lookahead)
      && (old(HashReady()) ==> HashReady())
    }

    // No string is forgotten that is still in the window, and pending ones may be added.
    twostate predicate SameStrings()
      reads this
    {
      && old(base) <= base
      && forall x: nat :: x in ins <==>
           Survives(old(ins), x, base - old(base)) || strstart - old(insert) <= x < strstart - insert
    }

    // Make room, then take in input once.
    method FillStep() returns (ghost taken: seq<nat>)
      requires Text() && Strings(strstart - insert) && lookahead < MIN_LOOKAHEAD
      modifies window, prev, head, this
      ensures Text() && Strings(strstart - insert)
      ensures strstart <= 2 * WSize() - MIN_LOOKAHEAD && strstart < WSize() + MaxDist()
      ensures SamePlace() && SameStrings()
      ensures base == if old(strstart) >= WSize() + MaxDist() then old(base) + WSize() else old(base)
      ensures old(input) == taken + input && data == old(data) + taken && (old(input) != [] ==> taken != [])
    {
      hide Held, Strings, Primed, Pow2, IsBytes, Config;
      HeldBounds();
      assert Config() by { HeldConfig(); }
      WSizeBounds();
      var wsize := prev.Length;
      var more := window.Length - lookahead - strstart;
      if strstart >= wsize + (wsize - MIN_LOOKAHEAD) {
        Slide();
        more := more + wsize;
      }
      if input == [] {
        taken := [];
        assert data + taken == data;
        return;
      }
      assert more >= 2;
      taken := ReadBuf(more);
      if lookahead + insert >= MIN_MATCH {
        InsertPending();
      }
    }

    /**
      Refill: slide if the upper half is nearly used up, then read until the lookahead
      suffices or the input is exhausted.
     */
    method FillWindow() returns (ghost taken: seq<nat>)
      requires Text() && Strings(strstart - insert) && lookahead < MIN_LOOKAHEAD
      modifies window, prev, head, this
      ensures Text() && Strings(strstart - insert)
      ensures strstart <= 2 * WSize() - MIN_LOOKAHEAD && (lookahead >= MIN_LOOKAHEAD || input == [])
      ensures SamePlace() && SameStrings()
      ensures base == if old(strstart) >= WSize() + MaxDist() then old(base) + WSize() else old(base)
      ensures old(input) == taken + input && data == old(data) + taken
    {
      hide Chains, Pow2, Holds, Primed;
      taken := FillStep();
      while lookahead < MIN_LOOKAHEAD && input != []
        invariant Text() && Strings(strstart - insert)
        invariant strstart <= 2 * WSize() - MIN_LOOKAHEAD && strstart < WSize() + MaxDist()
        invariant SamePlace() && SameStrings()
        invariant base == if old(strstart) >= WSize() + MaxDist() then old(base) + WSize() else old(base)
        invariant old(input) == taken + input && data == old(data) + taken
        decreases |input|
      {
        ghost var more := FillStep();
        TakenMore(old(data), taken, more, input);
        taken := taken + more;
      }
    }

    // h is an earlier string with the hash of the current one.
    ghost predicate Chained(h: nat)
      reads `ins, `data, `base, `strstart
    {
      && h in ins && h < strstart && base + strstart + 3 <= |data|
      && KeyAt(data[base..], h, hash_bits, hash_shift) == KeyAt(data[base..], strstart, hash_bits, hash_shift)
    }

    // The strings that a search at the current string may come to.
    ghost predicate CanMatch(x: nat)
      reads `ins, `data, `base, `strstart, `lookahead
    {
      && base + strstart + lookahead == |data|
      && Candidate(data[base..], ins, WSize(), hash_bits, hash_shift, strstart, lookahead, x)
    }

    // The current string has been inserted if it is long enough.
    ghost predicate Inserted()
      reads `lookahead, `insert, `strstart, `data, `base, `ins_h, `ins, `top, prev, head
    {
      && (lookahead >= MIN_MATCH ==> insert == 0 && Strings(strstart + 1) && PrimedAt(strstart + 1))
      && (lookahead < MIN_MATCH ==> Strings(strstart - insert))
    }

    lemma InsertedStrings()
      requires Inserted() && lookahead >= MIN_MATCH
      ensures Strings(strstart + 1) && insert == 0 && PrimedAt(strstart + 1)
    {
    }

    /**
      Insert the current string, unless too few bytes are ahead.  The head of its chain is the
      last earlier string with its hash.
     */
    method InsertCurrent() returns (hashHead: nat)
      requires Text() && Strings(strstart - insert) && HashReady()
      modifies prev, head, `ins_h, `ins, `top
      ensures Text() && Inserted() && ins == old(ins) + (if lookahead >= MIN_MATCH then {strstart} else {})
      ensures hashHead != 0 ==> lookahead >= MIN_MATCH && Chained(hashHead)
      ensures lookahead >= MIN_MATCH ==> Newest(hashHead, strstart)
    {
      hide Held, Strings, PrimedAt, IsBytes, Config, KeyAt, Newest;
      HeldBounds();
      hashHead := 0;
      if lookahead >= MIN_MATCH {
        hashHead := InsertString(strstart);
      }
    }

    // The head of the chain is the first candidate, unless it is too far back.
    lemma HeadCandidate(h: nat)
      requires Held() && (h != 0 ==> lookahead >= MIN_MATCH && Chained(h))
      requires lookahead >= MIN_MATCH ==> Newest(h, strstart)
      ensures forall x: nat :: CanMatch(x) ==> x <= h
      ensures CanMatch(h) <==> h != 0 && strstart - h <= MaxDist()
    {
      hide KeyAt, Pow2, Holds;
      HoldsAll(window[..], data, base, strstart + lookahead);
      var text := data[base..];
      assert text[..strstart + lookahead] == text;
    }

    // Move past an inserted string.
    method StepInserted()
      requires Text() && Inserted() && lookahead > 0
      modifies `strstart, `lookahead
      ensures Text() && Strings(strstart - insert) && HashReady()
      ensures strstart == old(strstart) + 1 && lookahead == old(lookahead) - 1
    {
      hide Held, Strings, PrimedAt, IsBytes, Config;
      ghost var limit := if lookahead >= MIN_MATCH then strstart + 1 else strstart - insert;
      Step();
      StringsMono(limit, strstart - insert);
    }

    // At the end of the input: the last two strings remain to be inserted.
    method EndInput()
      requires Text() && Strings(strstart - insert) && lookahead == 0
      modifies `insert
      ensures Text() && Strings(strstart - insert) && HashReady()
    {
      hide Holds;
      TopBound();
      insert := if strstart < MIN_MATCH - 1 then strstart else MIN_MATCH - 1;
    }

    lemma TopBound()
      requires Held() && Strings(strstart)
      ensures top > 0 ==> top + 2 <= strstart + lookahead
    {
      hide Pow2, Key;
      HeldBounds();
    }

    // The outcome of a search at the current string.
    ghost predicate Found(prevLength: nat, e: Effort, seen: seq<nat>, best: nat, start: int)
      reads `ins, `data, `base, `strstart, `lookahead
    {
      && base + strstart + lookahead == |data|
      && Searched(data[base..], ins, WSize(), hash_bits, hash_shift, strstart, lookahead, prevLength, e, seen, best,
                  start)
    }

    // Search the chain from hashHead for a match longer than prevLength.
    method Search(hashHead: nat, prevLength: nat, goodMatch: nat, niceLength: nat, maxChain: nat)
      returns (len: nat, ghost best: nat, ghost seen: seq<nat>)
      requires Held() && Strings(strstart + 1) && lookahead >= MIN_MATCH && strstart <= 2 * WSize() - MIN_LOOKAHEAD
      requires hashHead != 0 && strstart - hashHead <= MaxDist() && Chained(hashHead) && Newest(hashHead, strstart)
      requires 1 <= prevLength <= MAX_MATCH && maxChain >= 4
      modifies this`match_start
      ensures prevLength <= best <= MAX_MATCH && len == Cut(best, lookahead)
      ensures Found(prevLength, Effort(goodMatch, niceLength, maxChain), seen, best, match_start)
      ensures len > prevLength ==>
        0 <= match_start < strstart && strstart - match_start <= MaxDist()
        && Repeats(data, base + strstart, len, strstart - match_start)
    {
      hide Chains, Pow2, Key, Holds, Repeats, Searchable, Candidate, Reported, Nearest, Exhausted, NoneBetter,
           FirstOver, Searched, Newest;
      WSizeBounds();
      ghost var win, end := window[..], strstart + lookahead;
      HoldsAll(win, data, base, end);
      SearchReady(win, head[..], prev[..], ins, data, base, WSize(), hash_bits, hash_shift, top, strstart, lookahead,
            hashHead);
      HeadNearest(hashHead);
      var ms;
      len, ms, best, seen := LongestMatch(window, prev, head[..], ins, hash_bits, hash_shift, top, w_bits,
                              strstart, lookahead, hashHead,
                              match_start, prevLength, goodMatch, niceLength, maxChain);
      MatchRepeats(win, data, base, WSize(), strstart, lookahead, prevLength, len, ms);
      TextIs(win, data, base, end);
      SearchedText(win, data[base..], ins, WSize(), hash_bits, hash_shift, strstart, lookahead, prevLength,
            Effort(goodMatch, niceLength, maxChain), seen, best, ms);
      match_start := ms;
    }

    lemma HeadNearest(h: nat)
      requires Held() && lookahead >= MIN_MATCH && Newest(h, strstart)
      requires Candidate(window[..], ins, WSize(), hash_bits, hash_shift, strstart, lookahead, h)
      ensures Nearest(window[..], ins, WSize(), hash_bits, hash_shift, strstart, lookahead, [h])
    {
      hide KeyAt, Pow2, Holds;
      HoldsAll(window[..], data, base, strstart + lookahead);
      TextIs(window[..], data, base, strstart + lookahead);
    }

    // Move on by one byte.
    method Step()
      requires Text() && lookahead > 0
      modifies `strstart, `lookahead
      ensures Text() && strstart == old(strstart) + 1 && lookahead == old(lookahead) - 1
    {
      hide Holds;
      strstart := strstart + 1;
      lookahead := lookahead - 1;
    }

    /**
      Move on by count bytes, inserting the strings on the way that are not beyond maxInsert,
      the last one with enough bytes ahead.
     */
    method Advance(count: nat, maxInsert: nat)
      requires Text() && insert == 0 && count < lookahead && maxInsert + MIN_MATCH == strstart + lookahead
      requires Strings(strstart + 1) && (strstart <= maxInsert ==> PrimedAt(strstart + 1))
      modifies prev, head, `strstart, `lookahead, `ins_h, `ins, `top
      ensures Text() && strstart == old(strstart) + count && lookahead == old(lookahead) - count
      ensures Strings(strstart + 1) && (strstart <= maxInsert ==> PrimedAt(strstart + 1))
      ensures ins == old(ins) + Span(old(strstart) + 1, (if strstart <= maxInsert then strstart else maxInsert) + 1)
    {
      hide Held, Strings, PrimedAt, IsBytes, Config;
      var n: nat := count;
      while n != 0
        invariant n <= count && Text() && strstart == old(strstart) + (count - n)
        invariant lookahead == old(lookahead) - (count - n)
        invariant Strings(strstart + 1) && (strstart <= maxInsert ==> PrimedAt(strstart + 1))
        invariant ins == old(ins) + Span(old(strstart) + 1, (if strstart <= maxInsert then strstart else maxInsert) + 1)
      {
        HeldBounds();
        Step();
        if strstart <= maxInsert {
          var hashHead := InsertString(strstart);
        } else {
          StringsMono(strstart, strstart + 1);
        }
        n := n - 1;
      }
    }

    lemma StringsMono(a: int, b: int)
      requires Strings(a) && a <= b
      ensures Strings(b)
    {
    }

    // Move past a match without inserting strings: the hash is set up anew.
    method SkipMatch(count: nat)
      requires Text() && insert == 0 && count <= lookahead && strstart + count + 1 < window.Length
      requires Strings(strstart + count)
      modifies `strstart, `lookahead, `ins_h
      ensures Text() && strstart == old(strstart) + count && lookahead == old(lookahead) - count
      ensures Strings(strstart) && HashReady()
    {
      hide Chains, Pow2, Holds, Primed, UpdateHash, Strings;
      strstart := strstart + count;
      lookahead := lookahead - count;
      ins_h := window[strstart];
      PrimeTwo(ins_h, window[strstart + 1], hash_bits, hash_shift);
      ins_h := UpdateHash(ins_h, window[strstart + 1], hash_bits, hash_shift);
      if lookahead >= MIN_MATCH {
        HeldAt(strstart);
        HeldAt(strstart + 1);
      }
    }

    // Move past a match, inserting its strings if it is not too long (deflate_fast).
    method PassMatch(len: nat, maxInsertLength: nat)
      requires Text() && insert == 0 && Strings(strstart + 1) && PrimedAt(strstart + 1)
      requires 1 <= len <= lookahead && strstart + len + 1 < window.Length
      modifies prev, head, `strstart, `lookahead, `ins_h, `ins, `top
      ensures Text() && Strings(strstart) && HashReady()
      ensures strstart == old(strstart) + len && lookahead == old(lookahead) - len
      ensures ins == old(ins) + if len <= maxInsertLength && lookahead >= MIN_MATCH
                                then Span(old(strstart) + 1, strstart) else {}
    {
      hide Held, Strings, PrimedAt, IsBytes, Config;
      HeldBounds();
      if len <= maxInsertLength && lookahead - len >= MIN_MATCH {
        Advance(len - 1, strstart + lookahead - MIN_MATCH);
        Step();
      } else {
        StringsMono(strstart + 1, strstart + len);
        SkipMatch(len);
      }
    }

    /**
      Insert the current string, and search for a match longer than prevLength if that is
      allowed and there is a candidate.
     */
    method InsertAndSearch(allowed: bool, prevLength: nat, goodMatch: nat, niceLength: nat, maxChain: nat)
      returns (searched: bool, len: nat, ghost best: nat, ghost seen: seq<nat>)
      requires Text() && Strings(strstart - insert) && HashReady() && strstart <= 2 * WSize() - MIN_LOOKAHEAD
      requires MIN_MATCH - 1 <= prevLength <= MAX_MATCH && maxChain >= 4
      modifies prev, head, `ins_h, `ins, `top, `match_start
      ensures Text() && Inserted() && ins == old(ins) + (if lookahead >= MIN_MATCH then {strstart} else {})
      ensures searched <==> allowed && exists x: nat :: CanMatch(x)
      ensures searched ==> lookahead >= MIN_MATCH && MIN_MATCH - 1 <= len <= MAX_MATCH && len == Cut(best, lookahead)
      ensures searched ==> Found(prevLength, Effort(goodMatch, niceLength, maxChain), seen, best, match_start)
      ensures searched && len > prevLength ==>
        0 <= match_start < strstart && strstart - match_start <= MaxDist()
        && Repeats(data, base + strstart, len, strstart - match_start)
    {
      hide Held, Strings, PrimedAt, IsBytes, Repeats, Pow2, Inserted, HashReady, Chained, Found, CanMatch, Newest;
      HeldBounds();
      var hashHead := InsertCurrent();
      HeadCandidate(hashHead);
      searched, len, best, seen := false, 0, 0, [];
      if hashHead != 0 && allowed && strstart - hashHead <= prev.Length - MIN_LOOKAHEAD {
        InsertedStrings();
        searched := true;
        len, best, seen := Search(hashHead, prevLength, goodMatch, niceLength, maxChain);
        assert Inserted() by { StillInserted(); }
        assert CanMatch(hashHead);
      } else {
        HeadNone(hashHead);
      }
    }

    // Without a head that is near enough there is no candidate.
    lemma HeadNone(h: nat)
      requires forall x: nat :: CanMatch(x) ==> x <= h
      requires CanMatch(h) <==> h != 0 && strstart - h <= MaxDist()
      ensures (h == 0 || strstart - h > MaxDist()) ==> forall x: nat :: !CanMatch(x)
    {
      hide KeyAt, Pow2;
    }

    lemma StillInserted()
      requires lookahead >= MIN_MATCH && insert == 0 && Strings(strstart + 1) && PrimedAt(strstart + 1)
      ensures Inserted()
    {
    }

    // Move past the match of the previous string, inserting its strings (deflate_slow).
    method PassPrevious(len: nat)
      requires Text() && Inserted() && insert == 0 && MIN_MATCH <= len <= lookahead + 1 && strstart >= 1
      modifies prev, head, `strstart, `lookahead, `ins_h, `ins, `top
      ensures Text() && Strings(strstart) && HashReady()
      ensures strstart == old(strstart) + len - 1 && lookahead == old(lookahead) - (len - 1)
      ensures ins == old(ins) + Span(old(strstart) + 1,
                                     if lookahead >= MIN_MATCH - 1 then strstart else strstart + lookahead - 2)
    {
      hide Held, Strings, PrimedAt, IsBytes, Config;
      HeldBounds();
      ghost var limit := if lookahead >= MIN_MATCH then strstart + 1 else strstart;
      StringsMono(limit, strstart + 1);
      Advance(len - 2, strstart + lookahead - MIN_MATCH);
      Step();
    }

    /**
      How often the previous byte repeats at the current string (deflate_rle): nothing below
      three times, at most 258 and not beyond the lookahead.
     */
    method RunLength() returns (len: nat)
      requires Held() && strstart >= 1 && lookahead >= MIN_MATCH && strstart + MAX_MATCH < window.Length
      ensures len <= MAX_MATCH && len <= lookahead && (len != 0 ==> len >= MIN_MATCH)
      ensures (len != 0 ==> Repeats(data, base + strstart, len, 1))
      ensures var n := Run(data[base..], strstart, if lookahead < MAX_MATCH then lookahead else MAX_MATCH);
              len == if n >= MIN_MATCH then n else 0
    {
      hide Holds;
      var prevByte, s := window[strstart - 1], strstart;
      if window[s] != prevByte || window[s + 1] != prevByte || window[s + 2] != prevByte {
        ShortRun();
        return 0;
      }
      var scan, rounds, equal := 2, 0, true;
      while equal && scan < MAX_MATCH
        invariant rounds <= 32 && 2 <= scan <= MAX_MATCH && (equal ==> scan == 2 + 8 * rounds)
        invariant forall i :: s - 1 <= i < s + (if equal then scan + 1 else scan) ==> window[i] == prevByte
        invariant (scan >= 3 || equal) && (!equal ==> window[s + scan] != prevByte)
        decreases 33 - rounds
      {
        var k := 0;
        while equal && k < 8
          invariant k <= 8 && (equal ==> scan == 2 + 8 * rounds + k) && 2 <= scan <= 2 + 8 * rounds + 8
          invariant forall i :: s - 1 <= i < s + (if equal then scan + 1 else scan) ==> window[i] == prevByte
          invariant (scan >= 3 || equal) && (!equal ==> window[s + scan] != prevByte)
        {
          scan := scan + 1;
          equal := window[s + scan] == prevByte;
          k := k + 1;
        }
        rounds := rounds + 1;
      }
      len := if scan > lookahead then lookahead else scan;
      HeldBounds();
      RunRepeats(len, prevByte);
      LongRun(len, if lookahead < MAX_MATCH then lookahead else MAX_MATCH, prevByte);
    }

    lemma ShortRun()
      requires Held() && strstart >= 1 && lookahead >= MIN_MATCH && strstart + MAX_MATCH < window.Length
      requires window[strstart] != window[strstart - 1] || window[strstart + 1] != window[strstart - 1]
               || window[strstart + 2] != window[strstart - 1]
      ensures 3 <= |data[base..]| - strstart == lookahead
      ensures Run(data[base..], strstart, if lookahead < MAX_MATCH then lookahead else MAX_MATCH) < MIN_MATCH
    {
      hide Holds;
      HoldsAll(window[..], data, base, strstart + lookahead);
      HeldAt(strstart - 1);
      HeldAt(strstart);
      HeldAt(strstart + 1);
      HeldAt(strstart + 2);
      var k := if window[strstart] != window[strstart - 1] then 0
               else if window[strstart + 1] != window[strstart - 1] then 1 else 2;
      RunIs(data[base..], strstart, if lookahead < MAX_MATCH then lookahead else MAX_MATCH, k);
    }

    lemma LongRun(len: nat, max: nat, b: nat)
      requires Held() && strstart >= 1 && len <= max <= lookahead
      requires strstart + lookahead <= window.Length && window[strstart - 1] == b
      requires forall i :: strstart <= i < strstart + len ==> window[i] == b
      requires len == max || window[strstart + len] != b
      ensures strstart + max <= |data[base..]| && Run(data[base..], strstart, max) == len
    {
      hide Holds;
      HoldsAll(window[..], data, base, strstart + lookahead);
      forall i | strstart - 1 <= i < strstart + lookahead
        ensures data[base..][i] == window[i]
      {
        HeldAt(i);
      }
      RunIs(data[base..], strstart, max, len);
    }

    lemma RunRepeats(len: nat, b: nat)
      requires Held() && strstart >= 1 && len <= lookahead
      requires strstart + len <= window.Length && forall i :: strstart - 1 <= i < strstart + len ==> window[i] == b
      ensures Repeats(data, base + strstart, len, 1)
    {
      hide Holds;
      HeldBounds();
      forall i | base + strstart - 1 <= i < base + strstart + len
        ensures data[i] == b
      {
        HeldAt(i - base);
      }
    }

    // Move past a run.
    method SkipRun(len: nat)
      requires Text() && Strings(strstart - insert) && len <= lookahead
      modifies `strstart, `lookahead
      ensures Text() && Strings(strstart - insert) && strstart == old(strstart) + len
      ensures lookahead == old(lookahead) - len
    {
      hide Holds, Chains, Pow2;
      lookahead := lookahead - len;
      strstart := strstart + len;
    }

    // Go back to str, which no string is beyond.
    method GiveBack(str: nat)
      requires Text() && Strings(str - insert) && insert <= str <= strstart
      modifies `strstart, `lookahead
      ensures Text() && Strings(strstart - insert) && strstart == str
      ensures strstart + lookahead == old(strstart + lookahead)
    {
      hide Holds, Chains, Pow2;
      lookahead := lookahead + (strstart - str);
      strstart := str;
    }

    // Forget all history: the window starts again at position 0.
    method Restart()
      requires Text() && lookahead == 0 && block_start == strstart
      modifies head, this
      ensures Text() && Strings(0) && HashReady() && strstart == 0 && block_start == 0 && insert == 0 && lookahead == 0
      ensures ins == {} && base == old(base + strstart) && data == old(data) && input == old(input)
    {
      hide Chains, Pow2;
      base := base + strstart;
      strstart := 0;
      block_start := 0;
      insert := 0;
      ClearHash();
    }

    // No strings remain to be inserted.
    method NoInsert()
      requires Text() && Strings(strstart - insert)
      modifies `insert
      ensures Text() && Strings(strstart - insert) && insert == 0
    {
      hide Held, Chains, Pow2;
      insert := 0;
    }
  }

  lemma SearchReady(win: seq<nat>, head: seq<nat>, prev: seq<nat>, ins: set<nat>, data: seq<nat>, base: nat, w: nat,
                    hb: nat, hs: nat,
                    top: nat, strstart: nat, lookahead: nat, cur: nat)
    requires Holds(win, data, base, strstart + lookahead) && |win| == 2 * w && 512 <= w <= 0x8000 && 8 <= hb
    requires Chains(head, prev, ins, data[base..], w, hb, hs, top) && top <= strstart + 1
    requires strstart <= 2 * w - MIN_LOOKAHEAD && lookahead >= MIN_MATCH
    requires 0 < cur < strstart && strstart - cur <= w - MIN_LOOKAHEAD && cur in ins
    requires KeyAt(data[base..], cur, hb, hs) == KeyAt(data[base..], strstart, hb, hs)
    ensures Searchable(win, head, prev, ins, w, hb, hs, top, strstart, lookahead)
    ensures Candidate(win, ins, w, hb, hs, strstart, lookahead, cur)
  {
    hide Chains, KeyAt;
    assert IsBytes(win[..strstart + lookahead]);
  }

  lemma TextIs(win: seq<nat>, data: seq<nat>, base: nat, end: nat)
    requires Holds(win, data, base, end)
    ensures end <= |win| && base <= |data| && data[base..] == win[..end]
  {
  }

  lemma MatchRepeats(win: seq<nat>, data: seq<nat>, base: nat, w: nat, strstart: nat, lookahead: nat, prevLength: nat,
                     len: nat, start: int)
    requires Holds(win, data, base, strstart + lookahead)
    requires Reported(win, w, strstart, lookahead, prevLength, len, start)
    ensures len <= lookahead
    ensures len > prevLength ==> 0 <= start < strstart && strstart - start <= w - MIN_LOOKAHEAD
    ensures len > prevLength ==> Repeats(data, base + strstart, len, strstart - start)
  {
    if len > prevLength {
      var d := strstart - start;
      forall i | base + strstart <= i < base + strstart + len
        ensures data[i] == data[i - d]
      {
        HoldsAt(win, data, base, strstart + lookahead, i - base);
        HoldsAt(win, data, base, strstart + lookahead, i - base - d);
      }
    }
  }

  lemma TakenMore(data: seq<nat>, taken: seq<nat>, more: seq<nat>, input: seq<nat>)
    ensures data + taken + more == data + (taken + more) && taken + (more + input) == taken + more + input
  {
  }

  lemma InsBelow(head: seq<nat>, prev: seq<nat>, ins: set<nat>, text: seq<nat>, w: nat, hb: nat, hs: nat, top: nat)
    requires Chains(head, prev, ins, text, w, hb, hs, top)
    ensures forall x: nat :: Survives(ins, x, w) <==> x < top && Survives(ins, x, w)
  {
    hide Key, Pow2;
  }

  lemma HoldsSlidAll(data: seq<nat>, base: nat, w: nat)
    requires base + w <= |data|
    ensures data[base + w..] == data[base..][w..]
  {
  }

  lemma HoldsAll(win: seq<nat>, data: seq<nat>, base: nat, end: nat)
    requires Holds(win, data, base, end)
    ensures end <= |win| && |data| == base + end && |data[base..]| == end && IsBytes(data)
    ensures forall p :: 0 <= p < end ==> data[base..][p] == data[base + p]
  {
  }

  lemma PrimedUpdate(h: nat, a: nat, b: nat, c: nat, hb: nat, hs: nat)
    requires Primed(h, a, b, hb, hs) && 3 * hs >= hb
    ensures UpdateHash(h, c, hb, hs) == Key(a, b, c, hb, hs) < Pow2(hb)
    ensures Primed(UpdateHash(h, c, hb, hs), b, c, hb, hs)
  {
    hide UpdateHash;
    PrimedNext(h, a, b, c, hb, hs);
  }

  lemma HeadLink(head: seq<nat>, prev: seq<nat>, ins: set<nat>, text: seq<nat>, w: nat, hb: nat, hs: nat, top: nat,
                 k: nat)
    requires Chains(head, prev, ins, text, w, hb, hs, top) && k < |head|
    ensures head[k] != 0 ==>
      head[k] in ins && head[k] < top && head[k] + 3 <= |text| && KeyAt(text, head[k], hb, hs) == k
    ensures forall below :: NoneBetween(ins, text, head[k], k, below, hb, hs)
    ensures forall x :: x in ins ==> x + 3 <= |text|
  {
    hide Key, Pow2;
  }
}
