/**
  Runs of the decoder measured by what they use: each decision depends only on the bits it
  consumes, so a run can be pinned to an exact prefix of the stream, and two decoders that
  have settled on the same stream agree on everything.
 */
module ExactRuns {
  import opened Bits
  import opened Canonical
  import opened InflateTable
  import opened BitWriter
  import opened CodeLengths
  import opened Symbols
  import opened Inflater
  import opened InflaterRuns

  // ---------- decisions are local ----------

  lemma FindTight(t: CodeType, lens: seq<nat>, bits: seq<bool>, k: nat)
    requires CodeOk(t, lens) && k <= |bits|
    requires match Find(lens, bits)
             case More => false
             case Symbol(s) => s < |lens| && lens[s] <= k
             case Invalid => 1 <= k
    ensures Find(lens, bits[..k]) == Find(lens, bits)
  {
    hide Find, Decodes, CodeOk;
    match Find(lens, bits)
    case Symbol(s) =>
      FoundIsDecoded(t, lens, bits, s);
      DecodesTight(lens, s, bits, k);
      FoundIsDecoded(t, lens, bits[..k], s);
    case Invalid =>
      InvalidFirstBit(t, lens, bits, bits[..k]);
  }

  lemma DecodesTight(lens: seq<nat>, s: nat, bits: seq<bool>, k: nat)
    requires s < |lens| && lens[s] <= k <= |bits| && Decodes(lens, s, bits)
    ensures Decodes(lens, s, bits[..k])
  {
    assert bits[..k][..lens[s]] == bits[..lens[s]];
  }

  lemma Slice(bits: seq<bool>, k: nat, i: nat, j: nat)
    requires i <= j <= k <= |bits|
    ensures bits[..k][i..j] == bits[i..j]
  {
  }

  // A step that does not fail, or that fails on an invalid code, is decided by its own bits.
  ghost predicate Local(s: State, step: Step) {
    step.Go? && (step.next.mode != BAD || s.mode in {LEN, DIST, MATCH})
  }

  lemma PlainTight(s: State, bits: seq<bool>, k: nat)
    requires s.mode in {TYPE, STORED, COPY, TABLE, LENEXT, DISTEXT, MATCH, LIT}
    requires Local(s, Next(s, bits)) && Next(s, bits).used <= k <= |bits|
    ensures Next(s, bits[..k]) == Next(s, bits)
  {
    hide FromBits, FixedLit, FixedDist, Padding;
    match s.mode
    case TYPE =>
      if !s.last {
        Slice(bits, k, 1, 3);
      }
    case STORED =>
      if Skip(s) == 0 {
        Slice(bits, k, 0, 16);
        Slice(bits, k, 16, 32);
      }
    case COPY =>
      if s.length > 0 {
        Slice(bits, k, 0, 8);
      }
    case TABLE =>
      Slice(bits, k, 0, 5);
      Slice(bits, k, 5, 10);
      Slice(bits, k, 10, 14);
    case LENEXT => Slice(bits, k, 0, s.extra);
    case DISTEXT => Slice(bits, k, 0, s.extra);
    case MATCH =>
    case LIT =>
  }

  lemma NextLengthTight(s: State, sym: nat, n: nat, bits: seq<bool>, k: nat)
    requires n <= k <= |bits|
    requires NextLength(s, sym, n, bits).Go? && NextLength(s, sym, n, bits).next.mode != BAD
    requires NextLength(s, sym, n, bits).used <= k
    ensures NextLength(s, sym, n, bits[..k]) == NextLength(s, sym, n, bits)
  {
    hide FromBits;
    if sym == REP_3_6 {
      Slice(bits, k, n, n + 2);
    } else if sym == REPZ_3_10 {
      Slice(bits, k, n, n + 3);
    } else if sym >= 16 {
      Slice(bits, k, n, n + 7);
    }
  }

  // A code length symbol takes at least the bits of its code.
  lemma NextLengthUses(s: State, sym: nat, n: nat, bits: seq<bool>)
    requires n <= |bits|
    ensures NextLength(s, sym, n, bits).Go? ==> NextLength(s, sym, n, bits).used >= n
  {
    hide FromBits;
  }

  lemma LengthTight(s: State, bits: seq<bool>, k: nat)
    requires Ok(s) && s.mode == CODELENS && |s.lens| < s.nlen + s.ndist
    requires Local(s, NextCodeLens(s, bits)) && NextCodeLens(s, bits).used <= k <= |bits|
    ensures NextCodeLens(s, bits[..k]) == NextCodeLens(s, bits)
  {
    hide FromBits, Find, CodeOk, NextLength;
    FindLength(CODES, s.bl, bits);
    match Find(s.bl, bits)
    case Symbol(sym) =>
      NextLengthUses(s, sym, s.bl[sym], bits);
      FindTight(CODES, s.bl, bits, k);
      NextLengthTight(s, sym, s.bl[sym], bits, k);
    case Invalid =>
      NextLengthUses(s, 0, 1, bits);
      FindTight(CODES, s.bl, bits, k);
      NextLengthTight(s, 0, 1, bits, k);
  }

  lemma CodedTight(s: State, bits: seq<bool>, k: nat)
    requires Ok(s) && s.mode in {LENLENS, CODELENS, LEN, DIST}
    requires Local(s, Next(s, bits)) && Next(s, bits).used <= k <= |bits|
    ensures Next(s, bits[..k]) == Next(s, bits)
  {
    hide FromBits, Find, CodeOk, NextLength, CodesRead, Permute, Acceptable, DecodedLength, DecodedDist, LengthBits,
         DistBits;
    match s.mode
    case LENLENS =>
      if |s.cl| < s.ncode {
        Slice(bits, k, 0, 3);
      }
    case CODELENS =>
      if |s.lens| < s.nlen + s.ndist {
        LengthTight(s, bits, k);
      }
    case LEN => FindLength(LENS, s.ll, bits); FindTight(LENS, s.ll, bits, k);
    case DIST => FindLength(DISTS, s.dl, bits); FindTight(DISTS, s.dl, bits, k);
  }

  lemma NextTight(s: State, bits: seq<bool>, k: nat)
    requires Ok(s) && Local(s, Next(s, bits)) && Next(s, bits).used <= k <= |bits|
    ensures Next(s, bits[..k]) == Next(s, bits)
  {
    hide Ok, Next;
    if s.mode in {LENLENS, CODELENS, LEN, DIST} {
      CodedTight(s, bits, k);
    } else {
      Moving(s, bits);
      PlainTight(s, bits, k);
    }
  }

  // ---------- runs that use an exact prefix ----------

  // After n steps the decoder is in state a, having used exactly the first a.pos bits of b.
  ghost predicate Exact(b: seq<bool>, n: nat, a: State) {
    a.pos <= |b| && Runs(Inflater.Start(), b[..a.pos], n, a, [])
  }

  // The bits that state a has not used.
  function Unused(b: seq<bool>, a: State): seq<bool>
    requires a.pos <= |b|
  {
    b[a.pos..]
  }

  lemma StartOk()
    ensures Ok(Inflater.Start())
  {
  }

  lemma ExactStart(b: seq<bool>)
    ensures Exact(b, 0, Inflater.Start())
  {
    assert b[..0] == [];
    NoRun(Inflater.Start(), []);
  }

  lemma ExactOk(b: seq<bool>, n: nat, a: State)
    requires Exact(b, n, a)
    ensures Ok(a) && a.pos <= |b|
  {
    hide Ok, Runs;
    StartOk();
    RunsOk(Inflater.Start(), b[..a.pos], n, a, []);
  }

  lemma ExactPos(b: seq<bool>, n: nat, a: State)
    requires Exact(b, n, a)
    ensures a.pos <= |b|
  {
  }

  lemma ExactMore(b: seq<bool>, n: nat, a: State, more: seq<bool>)
    requires Exact(b, n, a)
    ensures Exact(b + more, n, a) && Unused(b + more, a) == Unused(b, a) + more
  {
    hide Runs;
    assert (b + more)[..a.pos] == b[..a.pos];
  }

  lemma ExactLess(b: seq<bool>, n: nat, a: State, k: nat)
    requires Exact(b, n, a) && a.pos <= k <= |b|
    ensures Exact(b[..k], n, a) && Unused(b[..k], a) == Unused(b, a)[..k - a.pos]
  {
    hide Runs;
    assert b[..k][..a.pos] == b[..a.pos];
  }

  lemma ExactStep(b: seq<bool>, n: nat, a: State, e: State, used: nat)
    requires Exact(b, n, a) && Next(a, Unused(b, a)) == Go(e, used) && e.mode != BAD
    ensures Exact(b, n + 1, e) && e.pos == a.pos + used <= |b| && Ok(e)
    ensures Unused(b, e) == Unused(b, a)[used..]
  {
    hide Runs, Ok, Next;
    ExactOk(b, n, a);
    var rest := Unused(b, a);
    NextOk(a, rest);
    NextTight(a, rest, used);
    StartOk();
    RunsStable(Inflater.Start(), b[..a.pos], n, a, [], rest[..used]);
    assert b[..a.pos] + rest[..used] == b[..e.pos] && [] + rest[..used] == rest[..used];
    OneExact(a, rest[..used], e);
    RunsCompose(Inflater.Start(), b[..e.pos], n, a, rest[..used], 1, e, []);
  }

  lemma OneExact(a: State, bits: seq<bool>, e: State)
    requires Next(a, bits) == Go(e, |bits|)
    ensures Runs(a, bits, 1, e, [])
  {
    hide Next;
    assert bits[|bits|..] == [];
    NoRun(e, []);
  }

  lemma ExactRun(b: seq<bool>, n: nat, a: State)
    requires Exact(b, n, a)
    ensures Runs(Inflater.Start(), b, n, a, Unused(b, a))
  {
    hide Runs;
    StartOk();
    RunsStable(Inflater.Start(), b[..a.pos], n, a, [], Unused(b, a));
    assert b[..a.pos] + Unused(b, a) == b && [] + Unused(b, a) == Unused(b, a);
  }

  // ---------- decoders that have settled ----------

  // The decoder cannot go on, for lack of input or because the stream has ended.
  ghost predicate Waiting(b: seq<bool>, a: State) {
    a.pos <= |b| && a.mode != BAD && Stuck(a, Unused(b, a))
  }

  // The next step of the decoder is an error.
  ghost predicate Failing(b: seq<bool>, a: State) {
    a.pos <= |b| && Next(a, Unused(b, a)).Go? && Next(a, Unused(b, a)).next.mode == BAD
  }

  lemma FailingMore(b: seq<bool>, n: nat, a: State, more: seq<bool>)
    requires Exact(b, n, a) && Failing(b, a)
    ensures Failing(b + more, a)
  {
    hide Next, Runs, Ok;
    ExactOk(b, n, a);
    NextStable(a, Unused(b, a), more);
    ExactMore(b, n, a, more);
  }

  lemma BadStuck(e: State, rest: seq<bool>)
    requires e.mode == BAD
    ensures Stuck(e, rest)
  {
  }

  lemma FailingRun(b: seq<bool>, n: nat, a: State) returns (e: State, rest: seq<bool>)
    requires Exact(b, n, a) && Failing(b, a)
    ensures Runs(Inflater.Start(), b, n + 1, e, rest) && e.mode == BAD && Stuck(e, rest) && e.out == a.out
    ensures e.reach == a.reach
  {
    hide Next, Runs, Stuck, Ok;
    ExactOk(b, n, a);
    ExactRun(b, n, a);
    var g := Next(a, Unused(b, a));
    e, rest := g.next, Unused(b, a)[g.used..] by { NextOk(a, Unused(b, a)); }
    OneRun(a, Unused(b, a));
    RunsCompose(Inflater.Start(), b, n, a, Unused(b, a), 1, e, rest);
    BadStuck(e, rest);
    NextGrows(a, Unused(b, a));
  }

  lemma OneRun(a: State, bits: seq<bool>)
    requires Next(a, bits).Go? && Next(a, bits).used <= |bits|
    ensures Runs(a, bits, 1, Next(a, bits).next, bits[Next(a, bits).used..])
  {
    hide Next;
    NoRun(Next(a, bits).next, bits[Next(a, bits).used..]);
  }

  // The state in which a decoder settles is determined by the stream.
  lemma SettledUnique(s: seq<bool>, n: nat, a: State, m: nat, b: State)
    requires Exact(s, n, a) && Exact(s, m, b)
    requires Waiting(s, a) || Failing(s, a)
    requires Waiting(s, b) || Failing(s, b)
    ensures a.out == b.out && (Waiting(s, a) <==> Waiting(s, b))
    ensures Waiting(s, a) ==> a == b
  {
    hide Next, Runs, Stuck;
    ExactRun(s, n, a);
    ExactRun(s, m, b);
    var ea, ra, i := a, Unused(s, a), n;
    var eb, rb, j := b, Unused(s, b), m;
    if !Waiting(s, a) {
      ea, ra := FailingRun(s, n, a);
      i := n + 1;
    }
    if !Waiting(s, b) {
      eb, rb := FailingRun(s, m, b);
      j := m + 1;
    }
    RunsUnique(Inflater.Start(), s, i, ea, ra, j, eb, rb);
  }

  // ---------- output only grows ----------

  // A step adds to the output and to the largest distance, or it is an error.
  ghost predicate Grows(s: State, step: Step) {
    step.Go? ==>
      && s.out <= step.next.out && s.reach <= step.next.reach
      && (step.next.mode == BAD ==> step.next.out == s.out && step.next.reach == s.reach)
  }

  lemma HeaderGrows(s: State, bits: seq<bool>)
    requires s.mode != BAD
    ensures Grows(s, NextType(s, bits)) && Grows(s, NextTable(s, bits)) && Grows(s, NextStored(s, bits))
  {
    hide FromBits, FixedLit, FixedDist, Padding;
  }

  lemma PlainGrows(s: State, bits: seq<bool>)
    requires s.mode != BAD
    ensures Grows(s, NextCopy(s, bits)) && Grows(s, NextLenExt(s, bits)) && Grows(s, NextDistExt(s, bits))
    ensures Grows(s, NextMatch(s)) && Grows(s, NextLit(s))
  {
    hide FromBits;
  }

  lemma LengthGrows(s: State, sym: nat, n: nat, bits: seq<bool>)
    requires s.mode != BAD && n <= |bits|
    ensures Grows(s, NextLength(s, sym, n, bits))
  {
    hide FromBits, Times;
  }

  lemma LengthsGrow(s: State, bits: seq<bool>)
    requires s.mode != BAD
    ensures Grows(s, NextLenLens(s, bits)) && Grows(s, NextCodeLens(s, bits))
  {
    hide FromBits, DecodeSymbol, Window, ToBits, Acceptable, Permute, NextLength;
    if |s.lens| < s.nlen + s.ndist {
      match Find(s.bl, bits)
      case More =>
      case Symbol(sym) => LengthGrows(s, sym, s.bl[sym], bits);
      case Invalid => LengthGrows(s, 0, 1, bits);
    }
  }

  lemma CodesGrow(s: State, bits: seq<bool>)
    requires s.mode != BAD
    ensures Grows(s, NextLen(s, bits)) && Grows(s, NextDist(s, bits))
  {
    hide Find, DecodedLength, DecodedDist, LengthBits, DistBits;
  }

  lemma NextGrows(s: State, bits: seq<bool>)
    requires Next(s, bits).Go?
    ensures Grows(s, Next(s, bits))
  {
    hide Grows, NextType, NextStored, NextCopy, NextTable, NextLenLens, NextCodeLens, NextLen, NextLenExt, NextDist,
         NextDistExt,
         NextMatch, NextLit;
    Moving(s, bits);
    HeaderGrows(s, bits);
    PlainGrows(s, bits);
    LengthsGrow(s, bits);
    CodesGrow(s, bits);
  }

  lemma {:induction false} RunsGrow(s: State, bits: seq<bool>, n: nat, e: State, rest: seq<bool>)
    requires Runs(s, bits, n, e, rest)
    ensures s.out <= e.out && s.reach <= e.reach
    decreases n
  {
    hide Next;
    if n != 0 {
      NextGrows(s, bits);
      RunsGrow(Next(s, bits).next, bits[Next(s, bits).used..], n - 1, e, rest);
    }
  }

  // A run that cannot go on is as long as any other run of the same stream.
  lemma {:induction false} LongestRun(s: State, bits: seq<bool>, n: nat, a: State, ra: seq<bool>, m: nat, e: State,
                                      re: seq<bool>)
    requires Runs(s, bits, n, a, ra) && Runs(s, bits, m, e, re) && Stuck(e, re)
    ensures n <= m && Runs(a, ra, m - n, e, re)
    decreases n
  {
    hide Next;
    if n != 0 {
      LongestRun(Next(s, bits).next, bits[Next(s, bits).used..], n - 1, a, ra, m - 1, e, re);
    }
  }

  // Whatever a decoder has produced so far is the beginning of what it produces in the end.
  lemma OutputPrefix(s: seq<bool>, n: nat, a: State, m: nat, b: State)
    requires Exact(s, n, a) && Exact(s, m, b) && (Waiting(s, b) || Failing(s, b))
    ensures a.out <= b.out
  {
    hide Next, Runs, Stuck;
    ExactRun(s, n, a);
    ExactRun(s, m, b);
    if Waiting(s, b) {
      LongestRun(Inflater.Start(), s, n, a, Unused(s, a), m, b, Unused(s, b));
      RunsGrow(a, Unused(s, a), m - n, b, Unused(s, b));
    } else {
      var e, rest := FailingRun(s, m, b);
      LongestRun(Inflater.Start(), s, n, a, Unused(s, a), m + 1, e, rest);
      RunsGrow(a, Unused(s, a), m + 1 - n, e, rest);
    }
  }
}
