/**
  longest_match of deflate.c: the search for the longest earlier string along a hash chain.
 */
module Matcher {
  import opened Bits
  import opened Hash
  import opened HashChains
  import opened Symbols
  import opened BitWriter

  const MIN_LOOKAHEAD: nat := MAX_MATCH + MIN_MATCH + 1

  // The text at n repeats what stands dist before it, over len bytes.
  ghost predicate Repeats(data: seq<nat>, n: nat, len: nat, dist: nat) {
    1 <= dist <= n && n + len <= |data| && forall i :: n <= i < n + len ==> data[i] == data[i - dist]
  }

  // How many of the bytes from n on, at most max, repeat the byte before n.
  function Run(text: seq<nat>, n: nat, max: nat): (r: nat)
    requires 1 <= n && n + max <= |text|
    ensures r <= max
    decreases max
  {
    if max == 0 || text[n] != text[n - 1] then 0 else 1 + Run(text, n + 1, max - 1)
  }

  lemma {:induction false} RunIs(text: seq<nat>, n: nat, max: nat, r: nat)
    requires 1 <= n && n + max <= |text| && r <= max
    requires forall i :: n <= i < n + r ==> text[i] == text[n - 1]
    requires r == max || text[n + r] != text[n - 1]
    ensures Run(text, n, max) == r
    decreases max
  {
    if r > 0 {
      RunIs(text, n + 1, max - 1, r - 1);
    }
  }

  // The first len bytes at s and m agree.
  ghost predicate Agree(win: seq<nat>, s: nat, m: nat, len: nat) {
    m <= s && s + len <= |win| && forall i :: s <= i < s + len ==> win[i] == win[i - (s - m)]
  }

  /**
    Compare on from byte 3, eight bytes at a time.  The length is that of the common prefix,
    up to 258.
   */
  method ScanMatch(window: array<nat>, s: nat, m: nat) returns (len: nat)
    requires m < s && s + MAX_MATCH < window.Length && Agree(window[..], s, m, 3)
    ensures 3 <= len <= MAX_MATCH && Agree(window[..], s, m, len)
    ensures len < MAX_MATCH ==> window[s + len] != window[m + len]
  {
    var scan, rounds, equal := 2, 0, true;
    while equal && scan < MAX_MATCH
      invariant rounds <= 32 && 2 <= scan <= MAX_MATCH && (equal ==> scan == 2 + 8 * rounds)
      invariant Agree(window[..], s, m, if equal then scan + 1 else scan)
      invariant !equal ==> window[s + scan] != window[m + scan]
      decreases 33 - rounds
    {
      var k := 0;
      while equal && k < 8
        invariant k <= 8 && (equal ==> scan == 2 + 8 * rounds + k) && 2 <= scan <= 2 + 8 * rounds + 8
        invariant Agree(window[..], s, m, if equal then scan + 1 else scan)
        invariant !equal ==> window[s + scan] != window[m + scan]
      {
        scan := scan + 1;
        equal := window[s + scan] == window[m + scan];
        k := k + 1;
      }
      rounds := rounds + 1;
    }
    len := scan;
    assert equal ==> len == MAX_MATCH;
  }

  // Everything the search relies on: the chains, over the part of the window with data.
  ghost predicate Searchable(win: seq<nat>, head: seq<nat>, prev: seq<nat>, ins: set<nat>, w: nat, hb: nat, hs: nat,
                             top: nat,
                             strstart: nat, lookahead: nat)
  {
    && |win| == 2 * w && 512 <= w <= 0x8000 && 8 <= hb
    && strstart + lookahead <= 2 * w && strstart <= 2 * w - MIN_LOOKAHEAD
    && Chains(head, prev, ins, win[..strstart + lookahead], w, hb, hs, top) && top <= strstart + 1
    && IsBytes(win[..strstart + lookahead])
  }

  // The string at cur can be a match: inserted, with the hash of the current string.
  ghost predicate Candidate(win: seq<nat>, ins: set<nat>, w: nat, hb: nat, hs: nat, strstart: nat, lookahead: nat,
                            cur: nat) {
    && lookahead >= MIN_MATCH && strstart + lookahead <= |win| && 0 < cur < strstart
    && strstart - cur <= w - MIN_LOOKAHEAD
    && cur in ins
    && KeyAt(win[..strstart + lookahead], cur, hb, hs) == KeyAt(win[..strstart + lookahead], strstart, hb, hs)
  }

  // The byte that is not compared.
  lemma UncomparedByte(win: seq<nat>, head: seq<nat>, prev: seq<nat>, ins: set<nat>, w: nat, hb: nat, hs: nat, top: nat,
                       strstart: nat, lookahead: nat, cur: nat)
    requires Searchable(win, head, prev, ins, w, hb, hs, top, strstart, lookahead)
    requires Candidate(win, ins, w, hb, hs, strstart, lookahead, cur)
    requires win[cur] == win[strstart] && win[cur + 1] == win[strstart + 1]
    ensures Agree(win, strstart, cur, 3)
  {
    hide Key, Chains;
    var text := win[..strstart + lookahead];
    ThirdByte(text[cur], text[cur + 1], text[cur + 2], text[strstart + 2], hb, hs);
  }

  // The next string of the chain, if it is near enough, is the next candidate; otherwise there
  // is none that is near enough.
  lemma NextCandidate(win: seq<nat>, head: seq<nat>, prev: seq<nat>, ins: set<nat>, w: nat, hb: nat, hs: nat, top: nat,
                      strstart: nat, lookahead: nat, cur: nat, limit: nat)
    requires Searchable(win, head, prev, ins, w, hb, hs, top, strstart, lookahead)
    requires Candidate(win, ins, w, hb, hs, strstart, lookahead, cur)
    requires limit == if strstart > w - MIN_LOOKAHEAD then strstart - (w - MIN_LOOKAHEAD) else 0
    ensures 0 <= Slot(cur, w) < |prev|
    ensures var q := prev[Slot(cur, w)];
            && (q > limit ==> q < cur && Candidate(win, ins, w, hb, hs, strstart, lookahead, q))
            && forall x: nat :: Candidate(win, ins, w, hb, hs, strstart, lookahead, x) && x < cur ==> x <= q
  {
    hide Key, Chains, KeyAt, Pow2, IsBytes, Slot;
    var text := win[..strstart + lookahead];
    ChainNext(head, prev, ins, text, w, hb, hs, top, cur);
    forall x: nat | Candidate(win, ins, w, hb, hs, strstart, lookahead, x) && x < cur
      ensures x <= prev[Slot(cur, w)]
    {
      assert KeyAt(text, x, hb, hs) == KeyAt(text, cur, hb, hs);
    }
  }

  lemma CandidateBounds(win: seq<nat>, ins: set<nat>, w: nat, hb: nat, hs: nat, strstart: nat, lookahead: nat, cur: nat)
    requires Candidate(win, ins, w, hb, hs, strstart, lookahead, cur)
    ensures 0 < cur < strstart && strstart - cur <= w - MIN_LOOKAHEAD
  {
  }

  // What longest_match returns: nothing new, or a match that is as long as reported.
  ghost predicate Reported(win: seq<nat>, w: nat, strstart: nat, lookahead: nat, prevLength: nat, len: nat,
                           start: int) {
    && len <= lookahead
    && (len > prevLength ==>
          0 <= start < strstart && strstart - start <= w - MIN_LOOKAHEAD && Agree(win, strstart, start, len))
  }

  // The best match so far.
  ghost predicate BestSoFar(win: seq<nat>, w: nat, strstart: nat, prevLength: nat, best: nat, start: int) {
    && prevLength <= best
    && (best > prevLength ==>
          && best <= MAX_MATCH && 0 <= start < strstart && strstart - start <= w - MIN_LOOKAHEAD
          && Agree(win, strstart, start, best))
  }

  // The candidates nearest to the current string, in the order of the chain.
  ghost predicate Nearest(win: seq<nat>, ins: set<nat>, w: nat, hb: nat, hs: nat, strstart: nat, lookahead: nat,
                          seen: seq<nat>) {
    && |seen| > 0
    && (forall k :: 0 <= k < |seen| ==> Candidate(win, ins, w, hb, hs, strstart, lookahead, seen[k]))
    && (forall j, k :: 0 <= j < k < |seen| ==> seen[k] < seen[j])
    && forall x: nat :: Candidate(win, ins, w, hb, hs, strstart, lookahead, x) && x >= seen[|seen| - 1] ==> x in seen
  }

  // A string that agrees over n bytes is found before any other that does.
  ghost predicate FirstOver(win: seq<nat>, strstart: nat, seen: seq<nat>, start: int, n: nat) {
    exists k :: 0 <= k < |seen| && seen[k] == start && Agree(win, strstart, seen[k], n)
                && forall j :: 0 <= j < k ==> !Agree(win, strstart, seen[j], n)
  }

  // None of the candidates agrees with the current string over more than best bytes.
  ghost predicate NoneBetter(win: seq<nat>, strstart: nat, seen: seq<nat>, best: nat) {
    forall k, n: nat :: 0 <= k < |seen| && n <= MAX_MATCH && Agree(win, strstart, seen[k], n) ==> n <= best
  }

  // How many candidates to try.
  function Budget(prevLength: nat, goodMatch: nat, maxChain: nat): nat {
    if prevLength >= goodMatch then maxChain / 4 else maxChain
  }

  // The longest match that does not end the search.
  function Enough(prevLength: nat, niceLength: nat, lookahead: nat): nat {
    var nice := if niceLength > lookahead then lookahead else niceLength;
    if prevLength >= nice then prevLength else nice - 1
  }

  // Why the search stops: the match is good enough, enough candidates have been tried, or
  // the next one is too far back or none.
  ghost predicate Exhausted(win: seq<nat>, ins: set<nat>, w: nat, hb: nat, hs: nat, strstart: nat, lookahead: nat,
                            seen: seq<nat>, good: bool, budget: nat)
    requires |seen| > 0
  {
    || good || |seen| == budget
    || forall x: nat :: Candidate(win, ins, w, hb, hs, strstart, lookahead, x) && x < seen[|seen| - 1] ==>
         x + (w - MIN_LOOKAHEAD) <= strstart
  }

  // How hard to search: good_match, nice_match and max_chain_length.
  datatype Effort = Effort(good: nat, nice: nat, chain: nat)

  function Cut(best: nat, lookahead: nat): nat {
    if best <= lookahead then best else lookahead
  }

  /**
    What a search in a text that ends with the lookahead comes to.  seen are the candidates
    nearest to the current string.  The match reported is longer than with any nearer one and
    as long as with any of them; the search has not gone on after a match that was good
    enough, and has not been given up without a reason.
   */
  ghost predicate Searched(text: seq<nat>, ins: set<nat>, w: nat, hb: nat, hs: nat, strstart: nat, lookahead: nat,
                           prevLength: nat, e: Effort, seen: seq<nat>, best: nat, start: int)
  {
    var len, budget, enough := Cut(best, lookahead), Budget(prevLength, e.good, e.chain),
                               Enough(prevLength, e.nice, lookahead);
    && prevLength <= best <= MAX_MATCH && Nearest(text, ins, w, hb, hs, strstart, lookahead, seen)
    && NoneBetter(text, strstart, seen, len) && (len > prevLength ==> FirstOver(text, strstart, seen, start, len))
    && |seen| <= budget && (forall k :: 1 <= k < |seen| ==> seen[k] + (w - MIN_LOOKAHEAD) > strstart)
    && NoneBetter(text, strstart, seen[..|seen| - 1], enough)
    && Exhausted(text, ins, w, hb, hs, strstart, lookahead, seen, best > enough, budget)
  }

  lemma NearestNext(win: seq<nat>, ins: set<nat>, w: nat, hb: nat, hs: nat, strstart: nat, lookahead: nat,
                    seen: seq<nat>, cur: nat, next: nat)
    requires Nearest(win, ins, w, hb, hs, strstart, lookahead, seen + [cur]) && next < cur
    requires Candidate(win, ins, w, hb, hs, strstart, lookahead, next)
    requires forall x: nat :: Candidate(win, ins, w, hb, hs, strstart, lookahead, x) && x < cur ==> x <= next
    ensures Nearest(win, ins, w, hb, hs, strstart, lookahead, seen + [cur] + [next])
  {
    hide Candidate;
    assert (seen + [cur])[|seen|] == cur;
  }

  // The best match so far is the first of its length.
  lemma FirstKept(win: seq<nat>, strstart: nat, seen: seq<nat>, start: int, n: nat, cur: nat)
    requires FirstOver(win, strstart, seen, start, n)
    ensures FirstOver(win, strstart, seen + [cur], start, n)
  {
    hide Agree;
    var k :| 0 <= k < |seen| && seen[k] == start && Agree(win, strstart, seen[k], n)
             && forall j :: 0 <= j < k ==> !Agree(win, strstart, seen[j], n);
    assert (seen + [cur])[k] == start;
  }

  lemma FirstBetter(win: seq<nat>, strstart: nat, seen: seq<nat>, best: nat, cur: nat, n: nat)
    requires NoneBetter(win, strstart, seen, best) && best < n <= MAX_MATCH && Agree(win, strstart, cur, n)
    ensures FirstOver(win, strstart, seen + [cur], cur, n)
  {
    hide Agree;
    assert (seen + [cur])[|seen|] == cur;
  }

  lemma NoneBetterNext(win: seq<nat>, strstart: nat, seen: seq<nat>, best: nat, cur: nat, best': nat)
    requires NoneBetter(win, strstart, seen, best) && best <= best'
    requires forall n: nat :: n <= MAX_MATCH && Agree(win, strstart, cur, n) ==> n <= best'
    ensures NoneBetter(win, strstart, seen + [cur], best')
  {
    hide Agree;
  }

  // One candidate that agrees at the end and at the beginning of the best match so far.
  method TryMatch(window: array<nat>, strstart: nat, cur: nat, best: nat) returns (len: nat)
    requires 0 < cur < strstart && 1 <= best <= MAX_MATCH && strstart + MAX_MATCH < window.Length
    requires window[cur] == window[strstart] && window[cur + 1] == window[strstart + 1] ==>
      Agree(window[..], strstart, cur, 3)
    ensures len <= MAX_MATCH && Agree(window[..], strstart, cur, len)
    ensures forall n: nat :: n <= MAX_MATCH && Agree(window[..], strstart, cur, n) ==> n <= best || n <= len
  {
    if window[cur + best] != window[strstart + best] || window[cur + best - 1] != window[strstart + best - 1]
       || window[cur] != window[strstart] || window[cur + 1] != window[strstart + 1] {
      len := 0;
      return;
    }
    len := ScanMatch(window, strstart, cur);
  }

  /**
    Walk the chain from curMatch and keep the best candidate for the current string.
    Matches not longer than prevLength are discarded.  The walk takes the candidates in order,
    nearest first, until there is a reason to end it.  Before it is cut to the lookahead the
    result is the longest agreement with any candidate seen, or prevLength, and the match
    reported is the nearest that is as long.
   */
  method LongestMatch(window: array<nat>, prev: array<nat>, ghost head: seq<nat>, ghost ins: set<nat>, ghost hb: nat,
                      ghost hs: nat,
                      ghost top: nat, wBits: nat, strstart: nat, lookahead: nat, curMatch: nat, matchStart: int,
                      prevLength: nat, goodMatch: nat, niceLength: nat, maxChain: nat)
    returns (len: nat, start: int, ghost best: nat, ghost seen: seq<nat>)
    requires Searchable(window[..], head, prev[..], ins, Pow2(wBits), hb, hs, top, strstart, lookahead)
    requires Candidate(window[..], ins, Pow2(wBits), hb, hs, strstart, lookahead, curMatch)
    requires Nearest(window[..], ins, Pow2(wBits), hb, hs, strstart, lookahead, [curMatch])
    requires 1 <= prevLength <= MAX_MATCH && maxChain >= 4
    ensures Reported(window[..], Pow2(wBits), strstart, lookahead, prevLength, len, start)
    ensures prevLength <= best <= MAX_MATCH && len == Cut(best, lookahead)
    ensures Nearest(window[..], ins, Pow2(wBits), hb, hs, strstart, lookahead, seen) && seen[0] == curMatch
    ensures NoneBetter(window[..], strstart, seen, best)
    ensures best > prevLength ==> FirstOver(window[..], strstart, seen, start, best)
    ensures |seen| <= Budget(prevLength, goodMatch, maxChain)
    ensures forall k :: 1 <= k < |seen| ==> seen[k] + (Pow2(wBits) - MIN_LOOKAHEAD) > strstart
    ensures NoneBetter(window[..], strstart, seen[..|seen| - 1], Enough(prevLength, niceLength, lookahead))
    ensures Exhausted(window[..], ins, Pow2(wBits), hb, hs, strstart, lookahead, seen,
                      best > Enough(prevLength, niceLength, lookahead), Budget(prevLength, goodMatch, maxChain))
  {
    hide Chains, Candidate, Searchable, Pow2, Slot, Low, Agree, Nearest, NoneBetter, Exhausted, FirstOver;
    ghost var win, pr, w := window[..], prev[..], Pow2(wBits);
    SearchableBounds(win, head, pr, ins, w, hb, hs, top, strstart, lookahead);
    var wSize := prev.Length;
    var chain: nat, nice: nat, bestLen: nat, cur: nat := maxChain, niceLength, prevLength, curMatch;
    start := matchStart;
    var limit: nat := if strstart > wSize - MIN_LOOKAHEAD then strstart - (wSize - MIN_LOOKAHEAD) else 0;
    if prevLength >= goodMatch {
      chain := chain / 4;
    }
    if nice > lookahead {
      nice := lookahead;
    }
    ghost var budget, enough := Budget(prevLength, goodMatch, maxChain), Enough(prevLength, niceLength, lookahead);
    seen := [];
    NoneSeen(win, strstart, prevLength, enough);
    assert [] + [cur] == [curMatch];
    while true
      invariant Candidate(win, ins, w, hb, hs, strstart, lookahead, cur)
      invariant 1 <= prevLength <= bestLen <= MAX_MATCH && bestLen <= enough && chain >= 1
      invariant |seen| + chain == budget && (if seen == [] then cur == curMatch else seen[0] == curMatch && cur > limit)
      invariant forall k :: 1 <= k < |seen| ==> seen[k] > limit
      invariant BestSoFar(win, w, strstart, prevLength, bestLen, start)
      invariant bestLen > prevLength ==> FirstOver(win, strstart, seen, start, bestLen)
      invariant Nearest(win, ins, w, hb, hs, strstart, lookahead, seen + [cur])
      invariant NoneBetter(win, strstart, seen, bestLen)
      decreases cur
    {
      CandidateBounds(win, ins, w, hb, hs, strstart, lookahead, cur);
      if win[cur] == win[strstart] && win[cur + 1] == win[strstart + 1] {
        UncomparedByte(win, head, pr, ins, w, hb, hs, top, strstart, lookahead, cur);
      }
      NextCandidate(win, head, pr, ins, w, hb, hs, top, strstart, lookahead, cur, limit);
      NoneBetterMore(win, strstart, seen, bestLen, enough);
      var l := TryMatch(window, strstart, cur, bestLen);
      NoneBetterNext(win, strstart, seen, bestLen, cur, if l > bestLen then l else bestLen);
      if l > bestLen {
        FirstBetter(win, strstart, seen, bestLen, cur, l);
      } else if bestLen > prevLength {
        FirstKept(win, strstart, seen, start, bestLen, cur);
      }
      assert (seen + [cur])[..|seen|] == seen;
      seen := seen + [cur];
      if l > bestLen {
        start := cur;
        bestLen := l;
        if l >= nice {
          Stopped(win, ins, w, hb, hs, strstart, lookahead, seen, bestLen > enough, budget);
          break;
        }
      }
      LowIsSlot(cur, wBits);
      ghost var last := cur;
      cur := prev[Low(cur, wBits)];
      if cur <= limit {
        LastSeen(win, ins, w, hb, hs, strstart, lookahead, seen, cur, limit, bestLen > enough, budget);
        break;
      }
      NearestNext(win, ins, w, hb, hs, strstart, lookahead, seen[..|seen| - 1], last, cur);
      chain := chain - 1;
      if chain == 0 {
        Stopped(win, ins, w, hb, hs, strstart, lookahead, seen, bestLen > enough, budget);
        break;
      }
    }
    best := bestLen;
    len := if bestLen <= lookahead then bestLen else lookahead;
    CutMatch(win, w, strstart, lookahead, prevLength, best, start, len);
  }

  lemma CutMatch(win: seq<nat>, w: nat, strstart: nat, lookahead: nat, prevLength: nat, best: nat, start: int, len: nat)
    requires BestSoFar(win, w, strstart, prevLength, best, start) && len <= best && len <= lookahead
    ensures Reported(win, w, strstart, lookahead, prevLength, len, start)
  {
  }

  lemma NoneSeen(win: seq<nat>, strstart: nat, best: nat, enough: nat)
    ensures NoneBetter(win, strstart, [], best) && NoneBetter(win, strstart, [], enough)
  {
  }

  lemma NoneBetterMore(win: seq<nat>, strstart: nat, seen: seq<nat>, best: nat, more: nat)
    requires NoneBetter(win, strstart, seen, best) && best <= more
    ensures NoneBetter(win, strstart, seen, more)
  {
    hide Agree;
  }

  lemma Stopped(win: seq<nat>, ins: set<nat>, w: nat, hb: nat, hs: nat, strstart: nat, lookahead: nat, seen: seq<nat>,
                good: bool, budget: nat)
    requires |seen| > 0 && (good || |seen| == budget)
    ensures Exhausted(win, ins, w, hb, hs, strstart, lookahead, seen, good, budget)
  {
  }

  lemma LastSeen(win: seq<nat>, ins: set<nat>, w: nat, hb: nat, hs: nat, strstart: nat, lookahead: nat, seen: seq<nat>,
                 next: nat, limit: nat, good: bool, budget: nat)
    requires |seen| > 0 && next <= limit
    requires limit == if strstart > w - MIN_LOOKAHEAD then strstart - (w - MIN_LOOKAHEAD) else 0
    requires forall x: nat :: Candidate(win, ins, w, hb, hs, strstart, lookahead, x) && x < seen[|seen| - 1] ==>
      x <= next
    ensures Exhausted(win, ins, w, hb, hs, strstart, lookahead, seen, good, budget)
  {
    forall x: nat | Candidate(win, ins, w, hb, hs, strstart, lookahead, x) && x < seen[|seen| - 1]
      ensures x + (w - MIN_LOOKAHEAD) <= strstart
    {
      assert x > 0;
    }
  }

  // The text is what the window holds.
  lemma SameCandidates(win: seq<nat>, text: seq<nat>, ins: set<nat>, w: nat, hb: nat, hs: nat, strstart: nat,
                       lookahead: nat)
    requires strstart + lookahead <= |win| && text == win[..strstart + lookahead]
    ensures forall x: nat :: Candidate(win, ins, w, hb, hs, strstart, lookahead, x)
                             <==> Candidate(text, ins, w, hb, hs, strstart, lookahead, x)
    ensures forall m: nat, n: nat :: n <= lookahead ==> (Agree(win, strstart, m, n) <==> Agree(text, strstart, m, n))
    ensures forall m: nat, n: nat :: Agree(text, strstart, m, n) ==> n <= lookahead
  {
    hide KeyAt;
    assert text[..strstart + lookahead] == text;
  }

  lemma FirstCut(win: seq<nat>, text: seq<nat>, strstart: nat, lookahead: nat, seen: seq<nat>, start: int, best: nat,
                 prevLength: nat, niceLength: nat)
    requires strstart + lookahead <= |win| && text == win[..strstart + lookahead]
    requires FirstOver(win, strstart, seen, start, best) && best <= MAX_MATCH && Cut(best, lookahead) > prevLength
    requires NoneBetter(win, strstart, seen[..|seen| - 1], Enough(prevLength, niceLength, lookahead))
    ensures FirstOver(text, strstart, seen, start, Cut(best, lookahead))
  {
    var k :| 0 <= k < |seen| && seen[k] == start && Agree(win, strstart, seen[k], best)
             && forall j :: 0 <= j < k ==> !Agree(win, strstart, seen[j], best);
    var len := Cut(best, lookahead);
    assert Agree(text, strstart, seen[k], len);
    forall j | 0 <= j < k
      ensures !Agree(text, strstart, seen[j], len)
    {
      assert seen[..|seen| - 1][j] == seen[j];
      assert Agree(text, strstart, seen[j], len) ==> Agree(win, strstart, seen[j], len);
    }
  }

  // From the window to the text.
  lemma SearchedText(win: seq<nat>, text: seq<nat>, ins: set<nat>, w: nat, hb: nat, hs: nat, strstart: nat,
                     lookahead: nat, prevLength: nat, e: Effort, seen: seq<nat>, best: nat, start: int)
    requires strstart + lookahead <= |win| && text == win[..strstart + lookahead]
    requires prevLength <= best <= MAX_MATCH && Nearest(win, ins, w, hb, hs, strstart, lookahead, seen)
    requires NoneBetter(win, strstart, seen, best)
    requires best > prevLength ==> FirstOver(win, strstart, seen, start, best)
    requires |seen| <= Budget(prevLength, e.good, e.chain)
    requires forall k :: 1 <= k < |seen| ==> seen[k] + (w - MIN_LOOKAHEAD) > strstart
    requires NoneBetter(win, strstart, seen[..|seen| - 1], Enough(prevLength, e.nice, lookahead))
    requires Exhausted(win, ins, w, hb, hs, strstart, lookahead, seen,
                       best > Enough(prevLength, e.nice, lookahead), Budget(prevLength, e.good, e.chain))
    ensures Searched(text, ins, w, hb, hs, strstart, lookahead, prevLength, e, seen, best, start)
  {
    hide Candidate, Agree, FirstOver;
    SameCandidates(win, text, ins, w, hb, hs, strstart, lookahead);
    if Cut(best, lookahead) > prevLength {
      FirstCut(win, text, strstart, lookahead, seen, start, best, prevLength, e.nice);
    }
  }

  lemma SearchableBounds(win: seq<nat>, head: seq<nat>, prev: seq<nat>, ins: set<nat>, w: nat, hb: nat, hs: nat,
                         top: nat,
                         strstart: nat, lookahead: nat)
    requires Searchable(win, head, prev, ins, w, hb, hs, top, strstart, lookahead)
    ensures |win| == 2 * w && 512 <= w && |prev| == w && strstart <= 2 * w - MIN_LOOKAHEAD
  {
  }
}
