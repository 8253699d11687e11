/**
  What whole sequences of inflate() calls compute: the result depends on the stream only,
  not on how input and output are cut into buffers, and it is the text that was compressed.
 */
module Streams {
  import opened Bits
  import opened Canonical
  import opened InflateTable
  import opened BitWriter
  import opened Blocks
  import opened Inflater
  import opened InflaterRuns
  import opened ExactRuns
  import opened Accumulator
  import opened Tracking
  import opened Lossless
  import opened Inflate

  // The decoder gave up although the stream goes on.
  ghost predicate Strayed(d: Decoder)
    requires d.next <= |d.input|
    reads d
  {
    d.mode == BAD && !Failing(d.Stream(), d.abs)
  }

  // No distance that decoding meets in the stream is larger than size.
  ghost predicate WithinWindow(s: seq<nat>, size: int) {
    forall n: nat, e: State :: Exact(BytesBits(s), n, e) ==> e.reach <= size
  }

  // The only reason to give up is a distance larger than the window.
  lemma StrayedWhy(d: Decoder)
    requires d.Valid() && d.Idle() && Strayed(d)
    ensures TooFar(d.abs, d.win.size)
  {
    hide d.Shape, d.Stream, d.Total, Exact, Failing, d.win.Valid, d.Running;
    d.ValidModes() by { IdleShape(d); }
    d.BrokenParts();
  }

  lemma IdleShape(d: Decoder)
    requires d.Valid() && d.Idle()
    ensures d.Shape() && d.next <= |d.input| && d.put <= d.output.Length
    ensures d.Stream() == BytesBits(d.earlier) && d.Total() == d.prior
  {
    hide d.InStep, d.Fields, d.Kept, d.win.Valid, BytesBits, Exact, Failing;
    assert d.earlier + d.input[..d.next] == d.earlier && d.prior + d.output[..d.put] == d.prior;
  }

  // A decoder does not give up on a stream whose distances fit its window.
  lemma NotStrayed(d: Decoder, s: seq<nat>)
    requires d.Valid() && d.Idle() && d.earlier <= s && WithinWindow(s, d.win.size)
    ensures d.next <= |d.input| && !Strayed(d)
  {
    hide d.Valid, d.Idle, Exact, BytesBits, Ok, Strayed;
    IdleShape(d);
    if Strayed(d) {
      StrayedWhy(d);
      SoFar(d, s);
      ExactOk(BytesBits(s), d.steps, d.abs);
      MatchReach(d.abs);
    }
  }

  // With the largest window no distance is too far.
  lemma WindowSuffices(s: seq<nat>)
    ensures WithinWindow(s, Pow2(15))
  {
    hide Exact, BytesBits;
    Pow2Values();
    forall n: nat, e: State | Exact(BytesBits(s), n, e)
      ensures e.reach <= Pow2(15)
    {
      ExactOk(BytesBits(s), n, e);
      ReachBound(e);
    }
  }

  lemma ReachBound(a: State)
    requires Ok(a)
    ensures a.reach <= 0x8000
  {
  }

  // A run that cannot go on has met the largest distance of the stream.
  lemma LastReach(s: seq<nat>, n: nat, e: State, rest: seq<bool>)
    requires Runs(Inflater.Start(), BytesBits(s), n, e, rest) && Stuck(e, rest)
    ensures WithinWindow(s, e.reach)
  {
    hide Exact, Runs, Next, Stuck, BytesBits;
    var b := BytesBits(s);
    forall m: nat, a: State | Exact(b, m, a)
      ensures a.reach <= e.reach
    {
      ExactPos(b, m, a);
      ExactRun(b, m, a);
      LongestRun(Inflater.Start(), b, m, a, Unused(b, a), n, e, rest);
      RunsGrow(a, Unused(b, a), n - m, e, rest);
    }
  }

  /**
    The condition on distances can be read off the state in which decoding of the stream
    stops, if only for want of input.
   */
  lemma SettledReach(s: seq<nat>, n: nat, a: State, size: int)
    requires Exact(BytesBits(s), n, a) && (Waiting(BytesBits(s), a) || Failing(BytesBits(s), a))
    ensures WithinWindow(s, size) <==> a.reach <= size
  {
    hide Exact, Runs, Next, Stuck, BytesBits, Waiting, Failing;
    var b := BytesBits(s);
    if Waiting(b, a) {
      ExactRun(b, n, a) by { ExactPos(b, n, a); }
      WaitingStuck(b, a);
      LastReach(s, n, a, Unused(b, a));
    } else {
      var e, rest := FailingRun(b, n, a);
      LastReach(s, n + 1, e, rest);
    }
  }

  // What a decoder that has settled on a stream says about the abstract decoder.
  lemma SettledAbs(d: Decoder, s: seq<nat>)
    requires d.Valid() && d.Idle() && d.Settled(s) && WithinWindow(s, d.win.size)
    ensures Exact(BytesBits(s), d.steps, d.abs) && d.abs.out == d.prior
    ensures if d.mode == BAD then Failing(BytesBits(s), d.abs) else Waiting(BytesBits(s), d.abs) && d.mode == d.abs.mode
  {
    hide d.Shape, d.Stream, d.Total, d.InStep, d.Fields, d.Kept, Exact, Failing, BytesBits, d.win.Valid, Tracks, Next,
         Follows, Tight,
         WithinWindow;
    IdleShape(d);
    d.ValidModes();
    NotStrayed(d, s);
    var b, more := BytesBits(d.earlier), BytesBits(s[|d.earlier|..]);
    assert d.earlier + s[|d.earlier|..] == s;
    BytesBitsConcat(d.earlier, s[|d.earlier|..]);
    if d.mode == BAD {
      d.BrokenParts();
      FailingMore(b, d.steps, d.abs, more);
      ExactMore(b, d.steps, d.abs, more);
    } else {
      d.RunningParts();
      d.InStepBits();
      d.TracksNow();
      ExactMore(b, d.steps, d.abs, more);
      if d.mode == DONE {
        DoneWaits(b + more, d.steps, d.abs);
      }
    }
  }

  lemma DoneWaits(b: seq<bool>, n: nat, a: State)
    requires Exact(b, n, a) && a.mode == DONE
    ensures Waiting(b, a)
  {
    hide Runs;
  }

  /**
    However a stream whose distances fit the windows has been cut into inputs, and its
    output into buffers, two decoders that have settled on it have produced the same output
    and are in the same mode.
   */
  lemma SameOutcome(a: Decoder, b: Decoder, s: seq<nat>)
    requires a.Valid() && a.Idle() && a.Settled(s) && WithinWindow(s, a.win.size)
    requires b.Valid() && b.Idle() && b.Settled(s) && WithinWindow(s, b.win.size)
    ensures a.prior == b.prior && a.mode == b.mode
    ensures a.mode != BAD ==> a.earlier == b.earlier && a.hold == b.hold && a.bits == b.bits
  {
    hide a.Valid, a.Idle, a.Settled, b.Valid, b.Idle, b.Settled, Strayed, WithinWindow, Exact, Failing, Waiting,
         BytesBits;
    SettledAbs(a, s);
    SettledAbs(b, s);
    var bits := BytesBits(s);
    SettledUnique(bits, a.steps, a.abs, b.steps, b.abs);
    WaitingOrFailing(bits, a.abs);
    WaitingOrFailing(bits, b.abs);
    if a.mode != BAD {
      SamePlace(a, b, s);
    }
  }

  lemma WaitingOrFailing(b: seq<bool>, a: State)
    ensures !(Waiting(b, a) && Failing(b, a))
  {
    hide Next;
  }

  // Decoders at the same place of a stream hold the same bits: a decoder that has finished
  // holds none, and the others have taken in everything.
  lemma SamePlace(a: Decoder, b: Decoder, s: seq<nat>)
    requires a.Valid() && a.Idle() && a.Settled(s) && a.mode != BAD
    requires b.Valid() && b.Idle() && b.Settled(s) && b.mode != BAD
    requires a.abs == b.abs
    ensures a.earlier == b.earlier && a.hold == b.hold && a.bits == b.bits
  {
    hide a.Valid, a.Idle, a.Settled, b.Valid, b.Idle, b.Settled, Waiting, BytesBits, Holding, Exact, Tight;
    Held(a, s);
    Held(b, s);
    assert a.earlier == s[..|a.earlier|] && b.earlier == s[..|b.earlier|];
    HoldingSame(BytesBits(a.earlier), a.abs.pos, a.hold, a.bits, b.hold, b.bits);
  }

  lemma Held(d: Decoder, s: seq<nat>)
    requires d.Valid() && d.Idle() && d.Settled(s) && d.mode != BAD
    ensures d.mode == d.abs.mode && d.earlier <= s
    ensures Holding(BytesBits(d.earlier), d.abs.pos, d.hold, d.bits) && d.abs.pos + d.bits == 8 * |d.earlier|
    ensures d.mode == DONE ==> d.bits == 0
    ensures d.mode != DONE ==> d.earlier == s
  {
    hide d.Shape, d.Stream, d.Total, d.InStep, d.Fields, d.Kept, Exact, BytesBits, d.win.Valid, Tracks, Holding,
         Waiting, Follows, Tight;
    IdleShape(d);
    d.ValidModes();
    d.RunningParts();
    d.InStepBits();
    d.TracksNow();
    TracksBits(d.Stream(), d.steps, d.abs, d.hold, d.bits);
  }

  // The bits held are those of the stream, so there is only one way to hold them.
  lemma HoldingSame(b: seq<bool>, pos: nat, h: nat, k: nat, h': nat, k': nat)
    requires Holding(b, pos, h, k) && Holding(b, pos, h', k')
    ensures h == h' && k == k'
  {
    hide ToBits, Pow2;
    FromToBits(h, k);
    FromToBits(h', k);
    LowId(h, k);
    LowId(h', k);
  }

  /**
    At any moment, with whatever input and output space so far, a decoder has produced the
    beginning of what a settled one produces.
   */
  lemma Prefix(a: Decoder, b: Decoder, s: seq<nat>)
    requires a.Valid() && a.Idle() && a.earlier <= s
    requires b.Valid() && b.Idle() && b.Settled(s) && WithinWindow(s, b.win.size)
    ensures a.prior <= b.prior
  {
    hide a.Valid, a.Idle, b.Valid, b.Idle, b.Settled, WithinWindow, Exact, Failing, Waiting, BytesBits;
    SoFar(a, s);
    SettledAbs(b, s);
    OutputPrefix(BytesBits(s), a.steps, a.abs, b.steps, b.abs);
  }

  lemma SoFar(d: Decoder, s: seq<nat>)
    requires d.Valid() && d.Idle() && d.earlier <= s
    ensures Exact(BytesBits(s), d.steps, d.abs) && d.abs.out == d.prior
  {
    hide d.Shape, d.Stream, d.Total, d.InStep, d.Fields, d.Kept, Exact, Failing, BytesBits, d.win.Valid, Tracks, Next,
         Follows, Tight;
    IdleShape(d);
    d.ValidModes();
    assert d.earlier + s[|d.earlier|..] == s;
    BytesBitsConcat(d.earlier, s[|d.earlier|..]);
    if d.mode == BAD {
      d.BrokenParts();
    } else {
      d.RunningParts();
      d.InStepBits();
      d.TracksNow();
    }
    ExactMore(BytesBits(d.earlier), d.steps, d.abs, BytesBits(s[|d.earlier|..]));
  }

  /**
    Decompression undoes compression: a decoder that settles on a compressed stream ends
    with the original data and has used the whole stream, however it was fed.  Its window
    need only be as large as the distances that the compressor used.
   */
  lemma RoundTrip(d: Decoder, s: seq<nat>, data: seq<nat>, far: int)
    requires Inflates(BytesBits(s), data, far) && far <= d.win.size
    requires d.Valid() && d.Idle() && d.Settled(s)
    ensures d.mode == DONE && d.prior == data && d.earlier == s
  {
    hide d.Valid, d.Idle, d.Settled, WithinWindow, Exact, Failing, Waiting, BytesBits, Runs, Next, Holding, Ok;
    var b := BytesBits(s);
    var n, e: State :| Runs(Inflater.Start(), b, n, e, []) && e.mode == DONE && e.out == data && e.reach <= far;
    DoneStuck(e);
    LastReach(s, n, e, []);
    Wider(s, e.reach, d.win.size);
    SettledAbs(d, s);
    if d.mode == BAD {
      var f, rest := FailingRun(b, d.steps, d.abs);
      RunsUnique(Inflater.Start(), b, n, e, [], d.steps + 1, f, rest);
    } else {
      ExactRun(b, d.steps, d.abs);
      WaitingStuck(b, d.abs);
      RunsUnique(Inflater.Start(), b, n, e, [], d.steps, d.abs, Unused(b, d.abs));
      Held(d, s);
    }
  }

  lemma Wider(s: seq<nat>, k: int, l: int)
    requires WithinWindow(s, k) && k <= l
    ensures WithinWindow(s, l)
  {
    hide Exact, BytesBits;
  }

  lemma MatchReach(a: State)
    requires Ok(a) && a.mode == MATCH
    ensures a.offset <= a.reach
  {
    hide CodesOk;
  }

  lemma DoneStuck(e: State)
    requires e.mode == DONE
    ensures Stuck(e, [])
  {
  }

  lemma WaitingStuck(b: seq<bool>, a: State)
    requires Waiting(b, a)
    ensures a.pos <= |b| && Stuck(a, Unused(b, a))
  {
    hide Next;
  }

  // ---------- a byte may be held when the fast loop begins ----------

  lemma {:induction false} BytesOf(b: seq<bool>) returns (s: seq<nat>)
    requires |b| % 8 == 0
    ensures IsBytes(s) && BytesBits(s) == b
    decreases |b|
  {
    hide ToBits, FromBits, Pow2;
    if b == [] {
      s := [];
      BytesBitsNone();
    } else {
      var k := |b| - 8;
      var t := BytesOf(b[..k]);
      ToFromBits(b[k..]);
      Pow2Values();
      s := t + [FromBits(b[k..])];
      BytesBitsPush(t, FromBits(b[k..]));
      assert b[..k] + b[k..] == b;
    }
  }

  // Some of a code is not yet a code.
  lemma PartOfCode(lens: seq<nat>, s: nat, k: nat)
    requires CodeOk(LENS, lens) && s < |lens| && lens[s] > 0 && k < |CodeBits(lens, s)|
    ensures Find(lens, CodeBits(lens, s)[..k]) == More
  {
    hide CodeOk, Find, CodeBits;
    var c := CodeBits(lens, s);
    FindCode(LENS, lens, s, []);
    assert c + [] == c && c[..k] + c[k..] == c;
    if Find(lens, c[..k]) != More {
      FindStable(LENS, lens, c[..k], c[k..]);
      FoundIsDecoded(LENS, lens, c[..k], s);
    }
  }

  // Literals 144 of the fixed code have nine bits each.
  lemma Nine()
    ensures |FixedLit()| == 288 && FixedLit()[144] == 9
  {
  }

  lemma {:induction false} NineRun(s: State, k: nat, tail: seq<bool>) returns (bits: seq<bool>, e: State)
    requires Ok(s) && s.mode == LEN && s.ll == FixedLit()
    ensures |bits| == 9 * k && Runs(s, bits + tail, 2 * k, e, tail)
    ensures Ok(e) && e.mode == LEN && e.ll == s.ll && e.pos == s.pos + 9 * k && e.reach == s.reach
    decreases k
  {
    hide Ok, Runs, CodeBits, FixedLit;
    Nine();
    if k == 0 {
      bits, e := [], s;
      assert [] + tail == tail;
      NoRun(s, tail);
    } else {
      var c := CodeBits(s.ll, 144);
      NineLong(s);
      var more, m;
      // the state after one literal does not depend on what follows
      m := LiteralRun(s, 144, []);
      assert c + [] == c;
      RunsOk(s, c, 2, m, []);
      more, e := NineRun(m, k - 1, tail);
      RunsStable(s, c, 2, m, [], more + tail);
      assert [] + (more + tail) == more + tail;
      bits := c + more;
      Assoc(c, more, tail);
      RunsCompose(s, bits + tail, 2, m, more + tail, 2 * (k - 1), e, tail);
    }
  }

  lemma NineLong(s: State)
    requires Ok(s) && s.mode == LEN && s.ll == FixedLit()
    ensures |CodeBits(s.ll, 144)| == 9
  {
    hide CodeOk, Find, CodeBits, FixedLit;
    Nine();
    FindCode(LENS, s.ll, 144, []);
  }

  // The header of a fixed block and k literals of nine bits.
  lemma FixedLiterals(k: nat) returns (b: seq<bool>, n: nat, a: State)
    ensures |b| == a.pos == 3 + 9 * k && Runs(Inflater.Start(), b, n, a, [])
    ensures Ok(a) && a.mode == LEN && a.ll == FixedLit() && a.reach == 0
  {
    hide Ok, Runs, FixedLit, FixedDist, HeaderBits, ToBits;
    var start := Inflater.Start();
    StartOk();
    var h := HeaderRun(start, STATIC_TREES, false, []);
    var head := HeaderBits(STATIC_TREES, false);
    assert head + [] == head;
    RunsOk(start, head, 1, h, []);
    var bits;
    bits, a := NineRun(h, k, []);
    n := 1 + 2 * k;
    RunsStable(start, head, 1, h, [], bits + []);
    assert [] + (bits + []) == bits + [] == bits;
    RunsCompose(start, head + bits, 1, h, bits, 2 * k, a, []);
    b := head + bits;
    HeaderLength();
  }

  lemma HeaderLength()
    ensures |HeaderBits(STATIC_TREES, false)| == 3
  {
  }

  /**
    The comment at inflate_fast that fewer than eight bits are held on entry is too strong:
    after these seven bytes the decoder waits for the rest of a code with eight bits in
    hand, and that is how the next call may enter the fast loop.
   */
  lemma MayHoldByte() returns (s: seq<nat>, n: nat, a: State)
    ensures IsBytes(s) && Exact(BytesBits(s), n, a) && Waiting(BytesBits(s), a)
    ensures a.mode == LEN && 8 * |s| - a.pos == 8 && a.reach == 0
  {
    hide Ok, Runs, CodeBits, FixedLit, BytesBits, Next;
    var head;
    head, n, a := FixedLiterals(5);
    NineLong(a);
    var part := CodeBits(a.ll, 144)[..8];
    s := BytesOf(head + part);
    assert (head + part)[..a.pos] == head && (head + part)[a.pos..] == part;
    Nine();
    LenCode(a);
    PartOfCode(a.ll, 144, 8);
    PartWaits(a, part);
  }

  lemma LenCode(a: State)
    requires Ok(a) && a.mode == LEN
    ensures CodeOk(LENS, a.ll)
  {
    hide CodeOk;
  }

  lemma PartWaits(a: State, part: seq<bool>)
    requires a.mode == LEN && Find(a.ll, part) == More
    ensures Stuck(a, part)
  {
    hide Find;
  }

  // Any decoder that has been given that stream, and room for its output, is in that state.
  lemma HoldsByte(d: Decoder, s: seq<nat>, n: nat, a: State)
    requires d.Valid() && d.Idle() && d.Settled(s)
    requires Exact(BytesBits(s), n, a) && Waiting(BytesBits(s), a) && a.mode == LEN && a.reach <= d.win.size
    ensures d.mode == LEN && d.bits == 8 * |s| - a.pos
  {
    hide d.Valid, d.Idle, d.Settled, WithinWindow, Exact, Failing, Waiting, BytesBits, Holding;
    SettledReach(s, n, a, d.win.size);
    SettledAbs(d, s);
    SettledUnique(BytesBits(s), d.steps, d.abs, n, a);
    if d.mode == BAD {
      WaitingOrFailing(BytesBits(s), d.abs);
    } else {
      Held(d, s);
    }
  }
}
