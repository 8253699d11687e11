/**
  Runs of the decoder: what every state keeps, and that a run depends only on the stream,
  not on how much of it has arrived (resumability).
 */
module InflaterRuns {
  import opened Bits
  import opened Canonical
  import opened InflateTable
  import opened BitWriter
  import opened CodeLengths
  import opened Symbols
  import opened Inflater

  // ---------- finding a symbol ----------

  lemma WindowPrefix(bits: seq<bool>, l: nat)
    requires l <= |bits| && l <= MAXBITS
    ensures ToBits(Window(bits), MAXBITS)[..l] == bits[..l]
  {
    hide ToBits, FromBits;
    var b := if |bits| < MAXBITS then bits else bits[..MAXBITS];
    ToFromBits(b);
    ToBitsPrefix(FromBits(b), l, |b|);
    ToBitsPrefix(FromBits(b), l, MAXBITS);
    assert b[..l] == bits[..l];
  }

  lemma WindowBound(bits: seq<bool>)
    ensures Window(bits) < Pow2(MAXBITS)
  {
    hide Pow2, FromBits;
    Pow2Mono(|if |bits| < MAXBITS then bits else bits[..MAXBITS]|, MAXBITS);
  }

  ghost predicate CodeOk(t: CodeType, lens: seq<nat>) {
    |lens| <= MaxCodes(t) && LengthsOk(lens) && Acceptable(t, lens)
  }

  // A symbol is found exactly when its code stands at the front of the bits at hand.
  lemma FoundIsDecoded(t: CodeType, lens: seq<nat>, bits: seq<bool>, s: nat)
    requires CodeOk(t, lens)
    ensures Find(lens, bits) == Symbol(s) <==> Decodes(lens, s, bits)
  {
    hide ToBits, Window, CodeBits, Acceptable, Oversubscribed, Pow2;
    AcceptableFits(t, lens);
    var window := ToBits(Window(bits), MAXBITS);
    if Decodes(lens, s, bits) {
      WindowPrefix(bits, lens[s]);
      DecodeSymbolIs(lens, s, window);
    } else if Find(lens, bits) == Symbol(s) {
      WindowPrefix(bits, lens[s]);
    }
  }

  // Bits of a code that leaves windows undecoded are recognised as invalid by the first bit.
  lemma InvalidFirstBit(t: CodeType, lens: seq<nat>, a: seq<bool>, b: seq<bool>)
    requires CodeOk(t, lens) && |a| >= 1 && |b| >= 1 && a[0] == b[0]
    requires Find(lens, a) == Invalid
    ensures Find(lens, b) == Invalid
  {
    hide ToBits, Window, CodeBits, Complete, Pow2;
    WindowBound(a);
    UndecodedWindow(t, lens, Window(a));
    var wa, wb := ToBits(Window(a), MAXBITS), ToBits(Window(b), MAXBITS);
    WindowPrefix(a, 1);
    WindowPrefix(b, 1);
    assert wb[..1] == b[..1] == a[..1] == wa[..1];
    if DecodeSymbol(lens, wb).Some? {
      var s := DecodeSymbol(lens, wb).value;
      AllShort(t, lens, s);
      DecodesShort(lens, s, wb, wa);
      assert false;
    }
  }

  lemma DecodesShort(lens: seq<nat>, s: nat, a: seq<bool>, b: seq<bool>)
    requires Decodes(lens, s, a) && lens[s] <= 1 <= |b| && |a| >= 1 && a[..1] == b[..1]
    ensures Decodes(lens, s, b)
  {
  }

  lemma AllShort(t: CodeType, lens: seq<nat>, s: nat)
    requires CodeOk(t, lens) && (NoCodes(lens) || !Complete(lens))
    requires s < |lens|
    ensures lens[s] <= 1
  {
    if !NoCodes(lens) && lens[s] > 1 {
      assert lens[s] in multiset(lens);
      assert Count(lens, lens[s]) > 0;
    }
  }

  // More input does not change what has been found.
  lemma FindStable(t: CodeType, lens: seq<nat>, bits: seq<bool>, more: seq<bool>)
    requires CodeOk(t, lens) && Find(lens, bits) != More
    ensures Find(lens, bits + more) == Find(lens, bits)
  {
    hide Find, Decodes, CodeOk;
    match Find(lens, bits)
    case Symbol(s) =>
      FoundIsDecoded(t, lens, bits, s);
      DecodesLonger(lens, s, bits, more);
      FoundIsDecoded(t, lens, bits + more, s);
    case Invalid =>
      InvalidHasBit(lens, bits);
      InvalidFirstBit(t, lens, bits, bits + more);
  }

  lemma InvalidHasBit(lens: seq<nat>, bits: seq<bool>)
    requires Find(lens, bits) == Invalid
    ensures |bits| >= 1
  {
  }

  lemma DecodesLonger(lens: seq<nat>, s: nat, bits: seq<bool>, more: seq<bool>)
    requires Decodes(lens, s, bits)
    ensures Decodes(lens, s, bits + more)
  {
    assert (bits + more)[..lens[s]] == bits[..lens[s]];
  }

  // ---------- what every state keeps ----------

  const MAX_DISTANCE: nat := 32768

  ghost predicate CodesOk(s: State) {
    CodeOk(LENS, s.ll) && CodeOk(DISTS, s.dl)
  }

  ghost predicate CountsOk(s: State) {
    257 <= s.nlen <= 286 && 1 <= s.ndist <= 30 && 4 <= s.ncode <= 19
  }

  ghost predicate Ok(s: State) {
    && IsBytes(s.out) && s.reach <= MAX_DISTANCE
    && match s.mode
       case TYPE => true
       case STORED => true
       case COPY => s.length < 0x10000
       case TABLE => true
       case LENLENS => CountsOk(s) && |s.cl| <= s.ncode && forall i :: 0 <= i < |s.cl| ==> s.cl[i] < 8
       case CODELENS => CountsOk(s) && CodeOk(CODES, s.bl) && |s.lens| <= s.nlen + s.ndist && LengthsOk(s.lens)
       case LEN => CodesOk(s)
       case LENEXT => CodesOk(s) && 3 <= s.length && s.extra <= 5 && s.length + Pow2(s.extra) <= MAX_MATCH + 1
       case DIST => CodesOk(s) && 3 <= s.length <= MAX_MATCH
       case DISTEXT =>
         && CodesOk(s) && 3 <= s.length <= MAX_MATCH
         && s.offset >= 1 && s.extra <= 13 && s.offset + Pow2(s.extra) <= MAX_DISTANCE + 1
       case MATCH => CodesOk(s) && 1 <= s.length <= MAX_MATCH && 1 <= s.offset <= MAX_DISTANCE && s.offset <= s.reach
       case LIT => CodesOk(s) && s.length < 256
       case DONE => true
       case BAD => true
  }

  lemma FromBitsBound(bits: seq<bool>, n: nat)
    requires |bits| <= n
    ensures FromBits(bits) < Pow2(n)
  {
    Pow2Mono(|bits|, n);
  }

  lemma FixedCounts(l: nat)
    ensures Count(FixedLit(), l) == if l == 7 then 24 else if l == 8 then 152 else if l == 9 then 112 else 0
    ensures Count(FixedDist(), l) == if l == 5 then 32 else 0
  {
    CountTimes(8, 144, l);
    CountTimes(9, 112, l);
    CountTimes(7, 24, l);
    CountTimes(8, 8, l);
    CountTimes(5, 32, l);
  }

  lemma FilledNext(lens: seq<nat>, l: nat)
    requires 0 < l <= MAXBITS
    ensures Filled(lens, l) == Filled(lens, l - 1) + Count(lens, l) * Pow2(MAXBITS - l)
  {
    ShlIsMul(Count(lens, l), MAXBITS - l);
  }

  lemma FilledZero(lens: seq<nat>)
    ensures Filled(lens, 0) == 0
  {
  }

  // The fixed codes are complete.
  lemma FixedComplete()
    ensures Complete(FixedLit()) && Complete(FixedDist())
  {
    var lit, dist := FixedLit(), FixedDist();
    hide FixedLit, FixedDist, Pow2, Count, Filled;
    Pow2Values();
    Pow2Add(8, 2);
    Pow2Add(3, 3);
    assert Pow2(10) == 1024 && Pow2(6) == 64;
    forall l: nat | 0 < l <= MAXBITS
      ensures Filled(lit, l) == Filled(lit, l - 1) + Count(lit, l) * Pow2(MAXBITS - l)
      ensures Filled(dist, l) == Filled(dist, l - 1) + Count(dist, l) * Pow2(MAXBITS - l)
      ensures Count(lit, l) == if l == 7 then 24 else if l == 8 then 152 else if l == 9 then 112 else 0
      ensures Count(dist, l) == if l == 5 then 32 else 0
    {
      FilledNext(lit, l);
      FilledNext(dist, l);
      FixedCounts(l);
    }
    FilledZero(lit);
    FilledZero(dist);
    FilledEmpty(lit, 0, 6);
    assert Filled(lit, 7) == 24 * 256;
    assert Filled(lit, 8) == 24 * 256 + 152 * 128;
    assert Filled(lit, 9) == 0x8000;
    FilledEmpty(lit, 9, MAXBITS);
    FilledEmpty(dist, 0, 4);
    assert Filled(dist, 5) == 0x8000;
    FilledEmpty(dist, 5, MAXBITS);
  }

  lemma FixedOk()
    ensures CodeOk(LENS, FixedLit()) && CodeOk(DISTS, FixedDist())
  {
    hide Complete;
    FixedComplete();
  }

  // ---------- progress and stability of each transition ----------

  lemma FindLength(t: CodeType, lens: seq<nat>, bits: seq<bool>)
    requires CodeOk(t, lens)
    ensures Find(lens, bits).Symbol? ==>
      var s := Find(lens, bits).s; s < |lens| && 1 <= lens[s] <= MAXBITS && lens[s] <= |bits|
    ensures Find(lens, bits) == Invalid ==> |bits| >= 1
  {
    hide CodeOk;
    if Find(lens, bits).Symbol? {
      FoundIsDecoded(t, lens, bits, Find(lens, bits).s);
      CodeLengthsOk(t, lens);
    }
  }

  lemma CodeLengthsOk(t: CodeType, lens: seq<nat>)
    requires CodeOk(t, lens)
    ensures LengthsOk(lens) && |lens| <= MaxCodes(t)
  {
  }

  // A step uses no more bits than there are, and keeps the state in order.
  lemma NextLengthOk(s: State, sym: nat, n: nat, bits: seq<bool>)
    requires Ok(s) && s.mode == CODELENS && sym < 19 && |s.lens| < s.nlen + s.ndist && 1 <= n <= |bits|
    ensures NextLength(s, sym, n, bits).Go? ==>
      var g := NextLength(s, sym, n, bits); Ok(g.next) && g.used <= |bits| && g.next.pos == s.pos + g.used
  {
    hide CodeOk, FromBits, Pow2, Fill;
    if sym < 16 {
      PushOk(s.lens, sym);
    } else if sym == REP_3_6 {
      if |bits| >= n + 2 && s.lens != [] {
        FillOk(s, s.lens[|s.lens| - 1], 3 + FromBits(bits[n..n + 2]), n + 2);
      }
    } else if sym == REPZ_3_10 {
      if |bits| >= n + 3 {
        FillOk(s, 0, 3 + FromBits(bits[n..n + 3]), n + 3);
      }
    } else if |bits| >= n + 7 {
      FillOk(s, 0, 11 + FromBits(bits[n..n + 7]), n + 7);
    }
  }

  lemma PushOk(lens: seq<nat>, l: nat)
    requires LengthsOk(lens) && l <= MAXBITS
    ensures LengthsOk(lens + [l])
  {
  }

  lemma FillOk(s: State, len: nat, count: nat, used: nat)
    requires Ok(s) && s.mode == CODELENS && len <= MAXBITS
    ensures var g := Fill(s, len, count, used);
            g.Go? && Ok(g.next) && g.used == used && g.next.pos == s.pos + used
  {
    hide CodeOk;
  }

  lemma PermuteOk(cl: seq<nat>)
    requires forall i :: 0 <= i < |cl| ==> cl[i] < 8
    ensures LengthsOk(Permute(cl)) && forall i :: 0 <= i < BL_CODES ==> Permute(cl)[i] <= 7
  {
  }

  // The shape of a step: bits it uses are there, and the position counts them.
  ghost predicate Sound(s: State, bits: seq<bool>, step: Step) {
    step.Go? ==> Ok(step.next) && step.used <= |bits| && step.next.pos == s.pos + step.used
  }

  lemma NextTypeOk(s: State, bits: seq<bool>)
    requires Ok(s) && s.mode == TYPE
    ensures Sound(s, bits, NextType(s, bits))
  {
    hide FromBits, FixedLit, FixedDist, CodeOk, Padding;
    FixedOk();
  }

  lemma NextStoredOk(s: State, bits: seq<bool>)
    requires Ok(s) && s.mode == STORED
    ensures Sound(s, bits, NextStored(s, bits))
  {
    hide FromBits, Pow2, Padding;
    if |bits| >= 32 {
      FromBitsBound(bits[..16], 16);
      Pow2Values();
    }
  }

  lemma NextCopyOk(s: State, bits: seq<bool>)
    requires Ok(s) && s.mode == COPY
    ensures Sound(s, bits, NextCopy(s, bits))
  {
    hide FromBits, Pow2;
    if |bits| >= 8 {
      FromBitsBound(bits[..8], 8);
      Pow2Values();
    }
  }

  lemma NextTableOk(s: State, bits: seq<bool>)
    requires Ok(s) && s.mode == TABLE
    ensures Sound(s, bits, NextTable(s, bits))
  {
    hide FromBits, Pow2;
    if |bits| >= 14 {
      FromBitsBound(bits[10..14], 4);
      assert Pow2(4) == 16 by { Pow2Add(3, 1); Pow2Values(); }
    }
  }

  lemma NextLenLensOk(s: State, bits: seq<bool>)
    requires Ok(s) && s.mode == LENLENS
    ensures Sound(s, bits, NextLenLens(s, bits))
  {
    hide FromBits, Pow2, Acceptable, Permute;
    if |s.cl| < s.ncode {
      if |bits| >= 3 {
        FromBitsBound(bits[..3], 3);
        Pow2Values();
      }
    } else {
      PermuteOk(s.cl);
    }
  }

  lemma NextCodeLensOk(s: State, bits: seq<bool>)
    requires Ok(s) && s.mode == CODELENS
    ensures Sound(s, bits, NextCodeLens(s, bits))
  {
    if |s.lens| < s.nlen + s.ndist {
      hide FromBits, Pow2, Find, NextLength, CodeOk;
      CodeLengthsOk(CODES, s.bl);
      FindLength(CODES, s.bl, bits);
      match Find(s.bl, bits)
      case More =>
      case Symbol(sym) => NextLengthOk(s, sym, s.bl[sym], bits);
      case Invalid => NextLengthOk(s, 0, 1, bits);
    } else {
      hide Acceptable;
    }
  }

  lemma NextLenOk(s: State, bits: seq<bool>)
    requires Ok(s) && s.mode == LEN
    ensures Sound(s, bits, NextLen(s, bits))
  {
    hide Find, CodeOk, DecodedLength, LengthBits, Pow2;
    FindLength(LENS, s.ll, bits);
    CodeLengthsOk(LENS, s.ll);
    match Find(s.ll, bits)
    case More =>
    case Invalid =>
    case Symbol(sym) =>
      if 256 < sym < 286 {
        LengthRoom(sym - 257);
      }
  }

  // The lengths and distances a code stands for end at 258 and 32768.
  lemma LengthRoom(c: nat)
    requires c < LENGTH_CODES
    ensures 3 <= DecodedLength(c) && DecodedLength(c) + Pow2(LengthBits(c)) <= MAX_MATCH + 1
  {
    hide DecodedLength, LengthBits, Pow2;
    if c < 28 {
      LengthBase(c);
      BaseLengthMono(c, 27);
      BaseEnds();
    } else {
      TableEnds();
      Pow2Values();
    }
  }

  lemma DistRoom(c: nat)
    requires c < D_CODES
    ensures 1 <= DecodedDist(c) && DecodedDist(c) + Pow2(DistBits(c)) <= MAX_DISTANCE + 1
  {
    hide DecodedDist, DistBits, Pow2;
    DistBase(c);
    BaseDistMono(c, 29);
    BaseEnds();
  }

  lemma NextLenExtOk(s: State, bits: seq<bool>)
    requires Ok(s) && s.mode in {LENEXT, DISTEXT}
    ensures Sound(s, bits, Next(s, bits))
  {
    hide FromBits, CodeOk, Pow2;
    if |bits| >= s.extra {
      FromBitsBound(bits[..s.extra], s.extra);
    }
  }

  lemma NextDistOk(s: State, bits: seq<bool>)
    requires Ok(s) && s.mode == DIST
    ensures Sound(s, bits, NextDist(s, bits))
  {
    hide Find, CodeOk, DecodedDist, DistBits, Pow2;
    FindLength(DISTS, s.dl, bits);
    CodeLengthsOk(DISTS, s.dl);
    match Find(s.dl, bits)
    case More =>
    case Invalid =>
    case Symbol(sym) =>
      if sym < 30 {
        DistRoom(sym);
      }
  }

  lemma NextOutOk(s: State, bits: seq<bool>)
    requires Ok(s) && s.mode in {MATCH, LIT}
    ensures Sound(s, bits, Next(s, bits))
  {
    hide CodeOk;
  }

  // Every step keeps the state in order and uses only bits that are there.
  lemma NextOk(s: State, bits: seq<bool>)
    requires Ok(s)
    ensures Sound(s, bits, Next(s, bits))
  {
    hide Sound, Ok, NextType, NextStored, NextCopy, NextTable, NextLenLens, NextCodeLens, NextLen, NextDist;
    match s.mode
    case TYPE => NextTypeOk(s, bits);
    case STORED => NextStoredOk(s, bits);
    case COPY => NextCopyOk(s, bits);
    case TABLE => NextTableOk(s, bits);
    case LENLENS => NextLenLensOk(s, bits);
    case CODELENS => NextCodeLensOk(s, bits);
    case LEN => NextLenOk(s, bits);
    case LENEXT => NextLenExtOk(s, bits);
    case DIST => NextDistOk(s, bits);
    case DISTEXT => NextLenExtOk(s, bits);
    case MATCH => NextOutOk(s, bits);
    case LIT => NextOutOk(s, bits);
    case DONE => WaitSound(s, bits);
    case BAD => WaitSound(s, bits);
  }

  lemma WaitSound(s: State, bits: seq<bool>)
    ensures Sound(s, bits, Wait)
  {
  }

  // A step that is possible does not change when more input arrives.
  lemma HeaderStable(s: State, bits: seq<bool>, more: seq<bool>)
    ensures NextType(s, bits).Go? ==> NextType(s, bits + more) == NextType(s, bits)
    ensures NextTable(s, bits).Go? ==> NextTable(s, bits + more) == NextTable(s, bits)
  {
    hide FromBits, FixedLit, FixedDist, Padding;
    var all := bits + more;
    assert |bits| >= 3 ==> all[1..3] == bits[1..3];
    assert |bits| >= 14 ==> all[..5] == bits[..5] && all[5..10] == bits[5..10] && all[10..14] == bits[10..14];
  }

  lemma StoredStable(s: State, bits: seq<bool>, more: seq<bool>)
    ensures NextStored(s, bits).Go? ==> NextStored(s, bits + more) == NextStored(s, bits)
    ensures NextCopy(s, bits).Go? ==> NextCopy(s, bits + more) == NextCopy(s, bits)
  {
    hide FromBits, Padding;
    var all := bits + more;
    assert |bits| >= 32 ==> all[..16] == bits[..16] && all[16..32] == bits[16..32];
    assert |bits| >= 8 ==> all[..8] == bits[..8];
  }

  lemma ExtraStable(s: State, bits: seq<bool>, more: seq<bool>)
    ensures NextLenExt(s, bits).Go? ==> NextLenExt(s, bits + more) == NextLenExt(s, bits)
    ensures NextDistExt(s, bits).Go? ==> NextDistExt(s, bits + more) == NextDistExt(s, bits)
  {
    hide FromBits;
    assert |bits| >= s.extra ==> (bits + more)[..s.extra] == bits[..s.extra];
  }

  lemma PlainStable(s: State, bits: seq<bool>, more: seq<bool>)
    requires s.mode in {TYPE, STORED, COPY, TABLE, LENEXT, DISTEXT, MATCH, LIT}
    requires Next(s, bits).Go?
    ensures Next(s, bits + more) == Next(s, bits)
  {
    hide NextType, NextTable, NextStored, NextCopy, NextLenExt, NextDistExt, NextMatch, NextLit;
    HeaderStable(s, bits, more);
    StoredStable(s, bits, more);
    ExtraStable(s, bits, more);
  }

  lemma NextLengthStable(s: State, sym: nat, n: nat, bits: seq<bool>, more: seq<bool>)
    requires n <= |bits| && NextLength(s, sym, n, bits).Go?
    ensures NextLength(s, sym, n, bits + more) == NextLength(s, sym, n, bits)
  {
    hide FromBits, Fill;
    var all := bits + more;
    assert |bits| >= n + 2 ==> all[n..n + 2] == bits[n..n + 2];
    assert |bits| >= n + 3 ==> all[n..n + 3] == bits[n..n + 3];
    assert |bits| >= n + 7 ==> all[n..n + 7] == bits[n..n + 7];
  }

  lemma CodedStable(s: State, bits: seq<bool>, more: seq<bool>)
    requires Ok(s) && s.mode in {LENLENS, CODELENS, LEN, DIST}
    requires Next(s, bits).Go?
    ensures Next(s, bits + more) == Next(s, bits)
  {
    hide FromBits, Find, CodeOk, NextLength, CodesRead, Permute, Acceptable;
    var all := bits + more;
    match s.mode
    case LENLENS =>
      if |s.cl| < s.ncode {
        assert all[..3] == bits[..3];
      }
    case CODELENS =>
      if |s.lens| < s.nlen + s.ndist {
        FindStable(CODES, s.bl, bits, more);
        FindLength(CODES, s.bl, bits);
        match Find(s.bl, bits)
        case Symbol(sym) => NextLengthStable(s, sym, s.bl[sym], bits, more);
        case Invalid => NextLengthStable(s, 0, 1, bits, more);
      }
    case LEN => FindStable(LENS, s.ll, bits, more);
    case DIST => FindStable(DISTS, s.dl, bits, more);
  }

  lemma NextStable(s: State, bits: seq<bool>, more: seq<bool>)
    requires Ok(s) && Next(s, bits).Go?
    ensures Next(s, bits + more) == Next(s, bits)
  {
    hide Ok, Next;
    if s.mode in {LENLENS, CODELENS, LEN, DIST} {
      CodedStable(s, bits, more);
    } else {
      Moving(s, bits);
      PlainStable(s, bits, more);
    }
  }

  lemma Moving(s: State, bits: seq<bool>)
    requires Next(s, bits).Go?
    ensures s.mode != DONE && s.mode != BAD
  {
  }

  // ---------- runs ----------

  // n steps lead from state s with the stream bits to state e with the stream rest.
  ghost predicate Runs(s: State, bits: seq<bool>, n: nat, e: State, rest: seq<bool>)
    decreases n
  {
    if n == 0 then e == s && rest == bits
    else
      match Next(s, bits)
      case Wait => false
      case Go(next, used) => used <= |bits| && Runs(next, bits[used..], n - 1, e, rest)
  }

  ghost predicate Stuck(s: State, bits: seq<bool>) {
    Next(s, bits) == Wait
  }

  lemma {:induction false} RunsOk(s: State, bits: seq<bool>, n: nat, e: State, rest: seq<bool>)
    requires Ok(s) && Runs(s, bits, n, e, rest)
    ensures Ok(e) && |rest| <= |bits| && rest == bits[|bits| - |rest|..] && e.pos == s.pos + |bits| - |rest|
    decreases n
  {
    hide Ok, Next;
    if n != 0 {
      NextOk(s, bits);
      var g := Next(s, bits);
      RunsOk(g.next, bits[g.used..], n - 1, e, rest);
    }
  }

  lemma {:induction false} RunsCompose(s: State, bits: seq<bool>, n: nat, m: State, mid: seq<bool>, k: nat, e: State,
                                       rest: seq<bool>)
    requires Runs(s, bits, n, m, mid) && Runs(m, mid, k, e, rest)
    ensures Runs(s, bits, n + k, e, rest)
    decreases n
  {
    hide Next;
    if n != 0 {
      var g := Next(s, bits);
      RunsCompose(g.next, bits[g.used..], n - 1, m, mid, k, e, rest);
    }
  }

  // Input that arrives later is left for later.
  lemma {:induction false} RunsStable(s: State, bits: seq<bool>, n: nat, e: State, rest: seq<bool>, more: seq<bool>)
    requires Ok(s) && Runs(s, bits, n, e, rest)
    ensures Runs(s, bits + more, n, e, rest + more)
    decreases n
  {
    hide Ok, Next;
    if n != 0 {
      NextOk(s, bits);
      NextStable(s, bits, more);
      var g := Next(s, bits);
      assert (bits + more)[g.used..] == bits[g.used..] + more;
      RunsStable(g.next, bits[g.used..], n - 1, e, rest, more);
    }
  }

  lemma {:induction false} RunsUnique(s: State, bits: seq<bool>, n: nat, a: State, ra: seq<bool>, m: nat, b: State,
                                      rb: seq<bool>)
    requires Runs(s, bits, n, a, ra) && Runs(s, bits, m, b, rb)
    requires Stuck(a, ra) && Stuck(b, rb)
    ensures a == b && ra == rb && n == m
    decreases n
  {
    hide Next;
    if n != 0 && m != 0 {
      var g := Next(s, bits);
      RunsUnique(g.next, bits[g.used..], n - 1, a, ra, m - 1, b, rb);
    }
  }

  // ---------- resumability ----------

  // Feeding the stream in pieces: each piece is appended to the bits left over, and the
  // decoder runs until it needs more.
  ghost predicate Fed(s: State, left: seq<bool>, pieces: seq<seq<bool>>, e: State, rest: seq<bool>)
    decreases |pieces|
  {
    if pieces == [] then e == s && rest == left
    else exists n, m, mid :: Runs(s, left + pieces[0], n, m, mid) && Stuck(m, mid) && Fed(m, mid, pieces[1..], e, rest)
  }

  function Joined(pieces: seq<seq<bool>>): seq<bool> {
    if pieces == [] then [] else pieces[0] + Joined(pieces[1..])
  }

  lemma {:induction false} FedRuns(s: State, left: seq<bool>, pieces: seq<seq<bool>>, e: State, rest: seq<bool>)
    returns (n: nat)
    requires Ok(s) && Fed(s, left, pieces, e, rest)
    ensures Runs(s, left + Joined(pieces), n, e, rest)
    decreases |pieces|
  {
    hide Ok, Next, Runs, Stuck;
    if pieces == [] {
      assert left + [] == left;
      n := 0;
      NoRun(s, left);
    } else {
      var k, m, mid :| Runs(s, left + pieces[0], k, m, mid) && Stuck(m, mid) && Fed(m, mid, pieces[1..], e, rest);
      var more := Joined(pieces[1..]);
      RunsOk(s, left + pieces[0], k, m, mid);
      var j := FedRuns(m, mid, pieces[1..], e, rest);
      RunsStable(s, left + pieces[0], k, m, mid, more);
      Assoc(left, pieces[0], more);
      RunsCompose(s, left + pieces[0] + more, k, m, mid + more, j, e, rest);
      n := k + j;
    }
  }

  lemma NoRun(s: State, bits: seq<bool>)
    ensures Runs(s, bits, 0, s, bits)
  {
  }

  lemma {:induction false} FedStuck(s: State, left: seq<bool>, pieces: seq<seq<bool>>, e: State, rest: seq<bool>)
    requires pieces != [] && Fed(s, left, pieces, e, rest)
    ensures Stuck(e, rest)
    decreases |pieces|
  {
    hide Next, Runs, Stuck;
    var k, m, mid :| Runs(s, left + pieces[0], k, m, mid) && Stuck(m, mid) && Fed(m, mid, pieces[1..], e, rest);
    if |pieces| > 1 {
      FedStuck(m, mid, pieces[1..], e, rest);
    }
  }

  /**
    However the same stream is cut into pieces, the decoder ends in the same state with the
    same output and the same bits left over.
   */
  lemma Resumable(s: State, a: seq<seq<bool>>, b: seq<seq<bool>>, ea: State, ra: seq<bool>, eb: State, rb: seq<bool>)
    requires Ok(s) && a != [] && b != [] && Joined(a) == Joined(b)
    requires Fed(s, [], a, ea, ra) && Fed(s, [], b, eb, rb)
    ensures ea == eb && ra == rb
  {
    hide Ok, Next, Runs, Stuck, Fed, Joined;
    var n := FedRuns(s, [], a, ea, ra);
    var m := FedRuns(s, [], b, eb, rb);
    FedStuck(s, [], a, ea, ra);
    FedStuck(s, [], b, eb, rb);
    RunsUnique(s, [] + Joined(a), n, ea, ra, m, eb, rb);
  }
}
