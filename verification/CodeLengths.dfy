/**
  Run-length coding of code lengths (section 3.2.7 of RFC 1951): scan_tree and send_tree on
  the side of the encoder, the expansion done in mode CODELENS on the side of the decoder.
 */
module CodeLengths {
  import opened Bits
  import opened Canonical
  import opened GenCodes
  import opened BitWriter

  const REP_3_6: nat := 16
  const REPZ_3_10: nat := 17
  const REPZ_11_138: nat := 18
  const BL_CODES: nat := 19

  // A symbol of the code length alphabet together with its repeat count.
  datatype Run =
    | Length(len: nat)        // one code length
    | Repeat(count: nat)      // the previous length 3..6 times
    | ZerosShort(count: nat)  // 3..10 zeros
    | ZerosLong(count: nat)   // 11..138 zeros

  predicate RunOk(r: Run) {
    match r
    case Length(len) => len <= MAXBITS
    case Repeat(count) => 3 <= count <= 6
    case ZerosShort(count) => 3 <= count <= 10
    case ZerosLong(count) => 11 <= count <= 138
  }

  function Symbol(r: Run): nat {
    match r
    case Length(len) => len
    case Repeat(_) => REP_3_6
    case ZerosShort(_) => REPZ_3_10
    case ZerosLong(_) => REPZ_11_138
  }

  function ExtraWidth(r: Run): nat {
    match r case Length(_) => 0 case Repeat(_) => 2 case ZerosShort(_) => 3 case ZerosLong(_) => 7
  }

  function ExtraValue(r: Run): nat
    requires RunOk(r)
  {
    match r
    case Length(_) => 0
    case Repeat(count) => count - 3
    case ZerosShort(count) => count - 3
    case ZerosLong(count) => count - 11
  }

  // ---------- what the runs stand for ----------

  function Times(len: nat, count: nat): (s: seq<nat>)
    ensures |s| == count
  {
    seq(count, i => len)
  }

  // The code lengths a run appends to those decoded so far; a repeat needs a previous one.
  function Expand(acc: seq<nat>, runs: seq<Run>): Option<seq<nat>>
    decreases |runs|
  {
    if runs == [] then Some(acc)
    else
      match runs[0]
      case Length(len) => Expand(acc + [len], runs[1..])
      case Repeat(count) => if acc == [] then None else Expand(acc + Times(acc[|acc| - 1], count), runs[1..])
      case ZerosShort(count) => Expand(acc + Times(0, count), runs[1..])
      case ZerosLong(count) => Expand(acc + Times(0, count), runs[1..])
  }

  // ---------- the encoder's choice of runs ----------

  // Longest and shortest run to send as one symbol, after an emitted length prev.
  function MaxRun(cur: nat, prev: int): nat {
    if cur == 0 then 138 else if cur == prev then 6 else 7
  }

  function MinRun(cur: nat, prev: int): nat {
    if cur == 0 || cur == prev then 3 else 4
  }

  function RunsFor(cur: nat, count: nat, prev: int): seq<Run> {
    if count < MinRun(cur, prev) then seq(count, i => Length(cur))
    else if cur != 0 then
      if cur != prev then [Length(cur), Repeat(count - 1)] else [Repeat(count)]
    else if count <= 10 then [ZerosShort(count)]
    else [ZerosLong(count)]
  }

  // The runs for lens[n..], when count lengths equal to lens[n] are already pending.
  function Encode(lens: seq<nat>, n: nat, count: nat, prev: int): seq<Run>
    requires n <= |lens|
    decreases |lens| - n
  {
    if n == |lens| then []
    else if count + 1 < MaxRun(lens[n], prev) && n + 1 < |lens| && lens[n + 1] == lens[n] then
      Encode(lens, n + 1, count + 1, prev)
    else
      RunsFor(lens[n], count + 1, prev) + Encode(lens, n + 1, 0, lens[n])
  }

  // ---------- the round trip ----------

  lemma {:induction false} ExpandConcat(acc: seq<nat>, a: seq<Run>, b: seq<Run>)
    ensures Expand(acc, a + b) == match Expand(acc, a) case Some(mid) => Expand(mid, b) case None => None
    decreases |a|
  {
    if a == [] {
      assert a + b == b;
    } else {
      assert (a + b)[1..] == a[1..] + b;
      match a[0]
      case Length(len) => ExpandConcat(acc + [len], a[1..], b);
      case Repeat(count) =>
        if acc != [] {
          ExpandConcat(acc + Times(acc[|acc| - 1], count), a[1..], b);
        }
      case ZerosShort(count) => ExpandConcat(acc + Times(0, count), a[1..], b);
      case ZerosLong(count) => ExpandConcat(acc + Times(0, count), a[1..], b);
    }
  }

  lemma {:induction false} ExpandLengths(acc: seq<nat>, cur: nat, count: nat)
    ensures Expand(acc, seq(count, i => Length(cur))) == Some(acc + Times(cur, count))
    decreases count
  {
    if count == 0 {
      assert acc + Times(cur, 0) == acc;
    } else {
      var runs := seq(count, i => Length(cur));
      assert runs[1..] == seq(count - 1, i => Length(cur));
      ExpandLengths(acc + [cur], cur, count - 1);
      assert acc + [cur] + Times(cur, count - 1) == acc + Times(cur, count);
    }
  }

  lemma ExpandOne(acc: seq<nat>, r: Run)
    requires !r.Length? && (r.Repeat? ==> acc != [])
    ensures Expand(acc, [r]) == Some(acc + Times(if r.Repeat? then acc[|acc| - 1] else 0, r.count))
  {
    var next := acc + Times(if r.Repeat? then acc[|acc| - 1] else 0, r.count);
    assert [r][1..] == [];
    assert Expand(next, []) == Some(next);
  }

  lemma ExpandRunsFor(acc: seq<nat>, cur: nat, count: nat, prev: int)
    requires 1 <= count <= MaxRun(cur, prev)
    requires prev >= 0 ==> acc != [] && acc[|acc| - 1] == prev
    ensures Expand(acc, RunsFor(cur, count, prev)) == Some(acc + Times(cur, count))
  {
    hide Expand;
    if count < MinRun(cur, prev) {
      ExpandLengths(acc, cur, count);
    } else if cur != 0 && cur != prev {
      var r := Repeat(count - 1);
      ExpandLengths(acc, cur, 1);
      assert seq(1, i => Length(cur)) == [Length(cur)];
      assert acc + Times(cur, 1) == acc + [cur];
      ExpandConcat(acc, [Length(cur)], [r]);
      assert [Length(cur)] + [r] == [Length(cur), r];
      ExpandOne(acc + [cur], r);
      assert acc + [cur] + Times(cur, count - 1) == acc + Times(cur, count);
    } else {
      ExpandOne(acc, RunsFor(cur, count, prev)[0]);
    }
  }

  // Expanding what the encoder chose gives back the lengths.
  lemma {:induction false} EncodeExpands(acc: seq<nat>, lens: seq<nat>, n: nat, count: nat, prev: int)
    requires n <= |lens|
    requires prev >= 0 ==> acc != [] && acc[|acc| - 1] == prev
    requires n < |lens| ==> count < MaxRun(lens[n], prev)
    requires n == |lens| ==> count == 0
    ensures Expand(acc, Encode(lens, n, count, prev))
            == Some(acc + (if n < |lens| then Times(lens[n], count) else []) + lens[n..])
    decreases |lens| - n
  {
    hide Expand;
    if n == |lens| {
      assert acc + [] + lens[n..] == acc;
      ExpandNone(acc);
    } else {
      var cur := lens[n];
      if count + 1 < MaxRun(cur, prev) && n + 1 < |lens| && lens[n + 1] == cur {
        EncodeExpands(acc, lens, n + 1, count + 1, prev);
        assert acc + Times(cur, count + 1) + lens[n + 1..] == acc + Times(cur, count) + lens[n..];
      } else {
        var mid := acc + Times(cur, count + 1);
        var rest := Encode(lens, n + 1, 0, cur);
        ExpandRunsFor(acc, cur, count + 1, prev);
        ExpandConcat(acc, RunsFor(cur, count + 1, prev), rest);
        EncodeExpands(mid, lens, n + 1, 0, cur);
        assert mid + (if n + 1 < |lens| then Times(lens[n + 1], 0) else []) + lens[n + 1..]
            == acc + Times(cur, count) + lens[n..];
      }
    }
  }

  lemma ExpandNone(acc: seq<nat>)
    ensures Expand(acc, []) == Some(acc)
  {
  }

  // The runs of the literal lengths followed by those of the distance lengths decode to
  // exactly the two vectors; neither part begins with a repeat.
  lemma RoundTrip(litLens: seq<nat>, distLens: seq<nat>)
    ensures Expand([], Encode(litLens, 0, 0, -1) + Encode(distLens, 0, 0, -1)) == Some(litLens + distLens)
    ensures Encode(litLens, 0, 0, -1) != [] ==> !Encode(litLens, 0, 0, -1)[0].Repeat?
    ensures Encode(distLens, 0, 0, -1) != [] ==> !Encode(distLens, 0, 0, -1)[0].Repeat?
  {
    hide Expand;
    EncodeExpands([], litLens, 0, 0, -1);
    EncodeExpands(litLens, distLens, 0, 0, -1);
    ExpandConcat([], Encode(litLens, 0, 0, -1), Encode(distLens, 0, 0, -1));
    assert [] + (if 0 < |litLens| then Times(litLens[0], 0) else []) + litLens[0..] == litLens;
    assert litLens + (if 0 < |distLens| then Times(distLens[0], 0) else []) + distLens[0..] == litLens + distLens;
    FirstIsLength(litLens, 0, 0, -1);
    FirstIsLength(distLens, 0, 0, -1);
  }

  lemma {:induction false} FirstIsLength(lens: seq<nat>, n: nat, count: nat, prev: int)
    requires n <= |lens| && prev == -1
    ensures Encode(lens, n, count, prev) != [] ==> !Encode(lens, n, count, prev)[0].Repeat?
    decreases |lens| - n
  {
    if n < |lens| && count + 1 < MaxRun(lens[n], prev) && n + 1 < |lens| && lens[n + 1] == lens[n] {
      FirstIsLength(lens, n + 1, count + 1, prev);
    }
  }

  // Every prefix of the runs expands to a prefix of the lengths, so that the decoder
  // never runs past the number of lengths it was told.
  lemma {:induction false} ExpandGrows(acc: seq<nat>, runs: seq<Run>)
    requires Expand(acc, runs).Some?
    ensures acc <= Expand(acc, runs).value
    decreases |runs|
  {
    if runs != [] {
      match runs[0]
      case Length(len) => ExpandGrows(acc + [len], runs[1..]);
      case Repeat(count) => ExpandGrows(acc + Times(acc[|acc| - 1], count), runs[1..]);
      case ZerosShort(count) => ExpandGrows(acc + Times(0, count), runs[1..]);
      case ZerosLong(count) => ExpandGrows(acc + Times(0, count), runs[1..]);
    }
  }

  lemma {:induction false} EncodeOk(lens: seq<nat>, n: nat, count: nat, prev: int)
    requires LengthsOk(lens) && n <= |lens|
    requires n < |lens| ==> count < MaxRun(lens[n], prev)
    ensures forall r :: r in Encode(lens, n, count, prev) ==> RunOk(r)
    ensures |Encode(lens, n, count, prev)| <= |lens| - n + count
    decreases |lens| - n
  {
    if n < |lens| {
      if count + 1 < MaxRun(lens[n], prev) && n + 1 < |lens| && lens[n + 1] == lens[n] {
        EncodeOk(lens, n + 1, count + 1, prev);
      } else {
        EncodeOk(lens, n + 1, 0, lens[n]);
      }
    }
  }

  // ---------- how many symbols a stretch of equal lengths takes ----------

  // Exactly k lengths equal to x from n on.
  ghost predicate Stretch(lens: seq<nat>, n: nat, k: nat, x: nat) {
    && n + k <= |lens| && (forall i :: n <= i < n + k ==> lens[i] == x)
    && (n + k < |lens| ==> lens[n + k] != x)
  }

  // A stretch is coded as far as one run goes.
  lemma {:induction false} StretchRun(lens: seq<nat>, n: nat, count: nat, k: nat, x: nat, prev: int)
    requires Stretch(lens, n, k, x) && k > 0 && count < MaxRun(x, prev)
    ensures Encode(lens, n, count, prev) == (
      if count + k <= MaxRun(x, prev) then RunsFor(x, count + k, prev) + Encode(lens, n + k, 0, x)
      else RunsFor(x, MaxRun(x, prev), prev) + Encode(lens, n + (MaxRun(x, prev) - count), 0, x))
    decreases k
  {
    hide RunsFor;
    if count + 1 < MaxRun(x, prev) && k > 1 {
      StretchRun(lens, n + 1, count + 1, k - 1, x, prev);
    }
  }

  lemma RunsForSize(x: nat, count: nat, prev: int)
    requires 1 <= count <= MaxRun(x, prev)
    ensures |RunsFor(x, count, prev)| == if x == 0 || x == prev then (if count < 3 then count else 1)
                                         else if count < 4 then count else 2
  {
  }

  // Zeros: 138 at a time, and what is left as one symbol unless it is less than three.
  lemma {:induction false} ZeroStretch(lens: seq<nat>, n: nat, k: nat, prev: int)
    requires Stretch(lens, n, k, 0) && k > 0
    ensures |Encode(lens, n, 0, prev)|
            == k / 138 + (if k % 138 < 3 then k % 138 else 1) + |Encode(lens, n + k, 0, 0)|
    decreases k
  {
    hide RunsFor, Encode;
    StretchRun(lens, n, 0, k, 0, prev);
    if k <= 138 {
      RunsForSize(0, k, prev);
    } else {
      RunsForSize(0, 138, prev);
      ZeroStretch(lens, n + 138, k - 138, 0);
    }
  }

  // More of the length before: six at a time.
  lemma {:induction false} SameStretch(lens: seq<nat>, n: nat, k: nat, x: nat)
    requires Stretch(lens, n, k, x) && k > 0 && x > 0
    ensures |Encode(lens, n, 0, x)| == k / 6 + (if k % 6 < 3 then k % 6 else 1) + |Encode(lens, n + k, 0, x)|
    decreases k
  {
    hide RunsFor, Encode;
    StretchRun(lens, n, 0, k, x, x);
    if k <= 6 {
      RunsForSize(x, k, x);
    } else {
      RunsForSize(x, 6, x);
      SameStretch(lens, n + 6, k - 6, x);
    }
  }

  // A new length: up to three by themselves, else one and a repeat of the next six, and so on.
  lemma NewStretch(lens: seq<nat>, n: nat, k: nat, x: nat, prev: int)
    requires Stretch(lens, n, k, x) && k > 0 && x > 0 && x != prev
    ensures |Encode(lens, n, 0, prev)|
            == (if k < 4 then k else if k <= 7 then 2 else 2 + (k - 7) / 6 + if (k - 7) % 6 < 3 then (k - 7) % 6 else 1)
               + |Encode(lens, n + k, 0, x)|
  {
    hide RunsFor, Encode;
    StretchRun(lens, n, 0, k, x, prev);
    if k <= 7 {
      RunsForSize(x, k, prev);
    } else {
      RunsForSize(x, 7, prev);
      SameStretch(lens, n + 7, k - 7, x);
    }
  }

  // ---------- counting the symbols: scan_tree ----------

  // How often symbol k occurs among the runs.
  function Frequency(runs: seq<Run>, k: nat): nat {
    if runs == [] then 0 else (if Symbol(runs[0]) == k then 1 else 0) + Frequency(runs[1..], k)
  }

  lemma {:induction false} FrequencyConcat(a: seq<Run>, b: seq<Run>, k: nat)
    ensures Frequency(a + b, k) == Frequency(a, k) + Frequency(b, k)
    decreases |a|
  {
    if a == [] {
      assert a + b == b;
    } else {
      assert (a + b)[1..] == a[1..] + b;
      FrequencyConcat(a[1..], b, k);
    }
  }

  lemma {:induction false} FrequencyLengths(cur: nat, count: nat, k: nat)
    ensures Frequency(seq(count, i => Length(cur)), k) == if k == cur then count else 0
    decreases count
  {
    if count != 0 {
      var runs := seq(count, i => Length(cur));
      assert runs[1..] == seq(count - 1, i => Length(cur));
      FrequencyLengths(cur, count - 1, k);
    }
  }

  lemma FrequencyRunsFor(cur: nat, count: nat, prev: int, k: nat)
    requires 1 <= count && cur <= MAXBITS
    ensures Frequency(RunsFor(cur, count, prev), k) ==
            if count < MinRun(cur, prev) then (if k == cur then count else 0)
            else if cur != 0 then (if k == cur && cur != prev then 1 else 0) + (if k == REP_3_6 then 1 else 0)
            else if count <= 10 then (if k == REPZ_3_10 then 1 else 0)
            else if k == REPZ_11_138 then 1 else 0
  {
    var runs := RunsFor(cur, count, prev);
    if count < MinRun(cur, prev) {
      FrequencyLengths(cur, count, k);
    } else if cur != 0 && cur != prev {
      assert runs[1..] == [Repeat(count - 1)] && runs[1..][1..] == [];
      assert Frequency(runs[1..], k) == if k == REP_3_6 then 1 else 0;
    } else {
      assert runs[1..] == [];
    }
  }

  // The frequencies of the runs of lens that are still to come.
  ghost predicate Counted(freq: seq<nat>, was: seq<nat>, total: seq<Run>, rest: seq<Run>) {
    && |freq| == |was| >= BL_CODES
    && forall k :: 0 <= k < BL_CODES ==> freq[k] + Frequency(rest, k) == was[k] + Frequency(total, k)
  }

  // Count the symbol of one run.
  method CountRun(cur: nat, count: nat, prev: int, freq: array<nat>, ghost was: seq<nat>, ghost total: seq<Run>,
                  ghost rest: seq<Run>)
    requires 1 <= count && cur <= MAXBITS && prev <= MAXBITS
    requires Counted(freq[..], was, total, RunsFor(cur, count, prev) + rest)
    modifies freq
    ensures Counted(freq[..], was, total, rest)
  {
    hide RunsFor, Frequency;
    forall k: nat | k < BL_CODES
      ensures freq[k] + Frequency(RunsFor(cur, count, prev), k) + Frequency(rest, k) == was[k] + Frequency(total, k)
    {
      FrequencyConcat(RunsFor(cur, count, prev), rest, k);
      FrequencyRunsFor(cur, count, prev, k);
    }
    forall k: nat | k < BL_CODES {
      FrequencyRunsFor(cur, count, prev, k);
    }
    if count < MinRun(cur, prev) {
      freq[cur] := freq[cur] + count;
    } else if cur != 0 {
      if cur != prev {
        freq[cur] := freq[cur] + 1;
      }
      freq[REP_3_6] := freq[REP_3_6] + 1;
    } else if count <= 10 {
      freq[REPZ_3_10] := freq[REPZ_3_10] + 1;
    } else {
      freq[REPZ_11_138] := freq[REPZ_11_138] + 1;
    }
  }

  /**
    Count the run symbols of a length vector exactly as send_tree will emit them, and put
    the guard behind its last length.
   */
  method ScanTree(dl: array<nat>, maxCode: nat, freq: array<nat>)
    requires maxCode + 1 < dl.Length && freq.Length >= BL_CODES && freq != dl
    requires LengthsOk(dl[..maxCode + 1])
    modifies dl, freq
    ensures dl[..] == old(dl[..])[maxCode + 1 := 0xffff]
    ensures forall k :: 0 <= k < BL_CODES ==>
      freq[k] == old(freq[k]) + Frequency(Encode(old(dl[..maxCode + 1]), 0, 0, -1), k)
  {
    hide Frequency, Encode, RunsFor, Counted;
    ghost var lens := dl[..maxCode + 1];
    ghost var was := freq[..];
    ghost var total := Encode(lens, 0, 0, -1);
    var prev: int, next := -1, dl[0];
    var count := 0;
    var max, min := MaxRun(next, prev), MinRun(next, prev);
    dl[maxCode + 1] := 0xffff;
    CountedStart(was, total);
    for n := 0 to maxCode + 1
      invariant dl[..maxCode + 1] == lens && dl[maxCode + 1] == 0xffff && next == dl[n] && prev <= MAXBITS
      invariant dl[..] == old(dl[..])[maxCode + 1 := 0xffff]
      invariant n <= maxCode ==> max == MaxRun(next, prev) && min == MinRun(next, prev)
      invariant Counted(freq[..], was, total, Encode(lens, n, count, prev))
    {
      var cur := next;
      assert lens[n] == cur && (n < maxCode ==> lens[n + 1] == dl[n + 1]);
      next := dl[n + 1];
      EncodeStep(lens, n, count, prev);
      count := count + 1;
      if count < max && cur == next {
        continue;
      }
      CountRun(cur, count, prev, freq, was, total, Encode(lens, n + 1, 0, cur));
      count, prev := 0, cur;
      max, min := NextRun(cur, next);
    }
    CountedEnd(lens, freq[..], was, total, count, prev);
  }

  // Run bounds for the next run, as the source sets them.
  method NextRun(cur: nat, next: nat) returns (max: nat, min: nat)
    ensures max == MaxRun(next, cur) && min == MinRun(next, cur)
  {
    if next == 0 {
      max, min := 138, 3;
    } else if cur == next {
      max, min := 6, 3;
    } else {
      max, min := 7, 4;
    }
  }

  lemma EncodeStep(lens: seq<nat>, n: nat, count: nat, prev: int)
    requires n < |lens|
    ensures Encode(lens, n, count, prev) ==
            if count + 1 < MaxRun(lens[n], prev) && n + 1 < |lens| && lens[n + 1] == lens[n] then
              Encode(lens, n + 1, count + 1, prev)
            else
              RunsFor(lens[n], count + 1, prev) + Encode(lens, n + 1, 0, lens[n])
  {
  }

  lemma CountedStart(was: seq<nat>, total: seq<Run>)
    requires |was| >= BL_CODES
    ensures Counted(was, was, total, total)
  {
  }

  lemma CountedEnd(lens: seq<nat>, freq: seq<nat>, was: seq<nat>, total: seq<Run>, count: nat, prev: int)
    requires Counted(freq, was, total, Encode(lens, |lens|, count, prev))
    ensures forall k :: 0 <= k < BL_CODES ==> freq[k] == was[k] + Frequency(total, k)
  {
  }

  // ---------- sending the symbols: send_tree ----------

  // A run as sent: the code of its symbol, then the extra bits.
  function RunBits(bl: seq<nat>, r: Run): seq<bool>
    requires RunOk(r) && Symbol(r) < |bl|
  {
    CodeBits(bl, Symbol(r)) + ToBits(ExtraValue(r), ExtraWidth(r))
  }

  predicate Sendable(bl: seq<nat>, runs: seq<Run>) {
    forall r :: r in runs ==> RunOk(r) && Symbol(r) < |bl| && 0 < bl[Symbol(r)] <= MAXBITS
  }

  function RunsBits(bl: seq<nat>, runs: seq<Run>): seq<bool>
    requires Sendable(bl, runs)
  {
    if runs == [] then [] else RunBits(bl, runs[0]) + RunsBits(bl, runs[1..])
  }

  lemma {:induction false} RunsBitsConcat(bl: seq<nat>, a: seq<Run>, b: seq<Run>)
    requires Sendable(bl, a) && Sendable(bl, b)
    ensures RunsBits(bl, a + b) == RunsBits(bl, a) + RunsBits(bl, b)
    decreases |a|
  {
    if a == [] {
      assert a + b == b;
    } else {
      assert (a + b)[1..] == a[1..] + b;
      RunsBitsConcat(bl, a[1..], b);
      Assoc(RunBits(bl, a[0]), RunsBits(bl, a[1..]), RunsBits(bl, b));
    }
  }

  // The bit length tree of the encoder: canonical codes for its lengths.
  ghost predicate BitLengthTree(bl: seq<nat>, fc: array<nat>, dl: array<nat>)
    reads fc, dl
  {
    && |bl| <= dl.Length == fc.Length && dl[..|bl|] == bl
    && forall k :: 0 <= k < |bl| && bl[k] != 0 ==> Coded(bl, k, fc[k])
  }

  lemma SendableConcat(bl: seq<nat>, a: seq<Run>, b: seq<Run>)
    requires Sendable(bl, a + b)
    ensures Sendable(bl, a) && Sendable(bl, b)
  {
    forall r | r in a || r in b
      ensures r in a + b
    {
    }
  }

  // One run symbol as a code word.
  method SendBlCode(w: Writer, ghost bl: seq<nat>, fc: array<nat>, dl: array<nat>, k: nat)
    requires w.Valid() && BitLengthTree(bl, fc, dl) && k < |bl| && 0 < bl[k] <= MAXBITS
    modifies w
    ensures w.Valid() && w.Stream() == old(w.Stream()) + CodeBits(bl, k)
  {
    assert Coded(bl, k, fc[k]);
    hide Rev, Pow2, CodeOf;
    w.SendBits(fc[k], dl[k]);
  }

  lemma RunsBitsOne(bl: seq<nat>, r: Run)
    requires Sendable(bl, [r])
    ensures RunsBits(bl, [r]) == RunBits(bl, r)
  {
    assert [r][1..] == [];
    assert RunsBits(bl, []) == [];
    assert RunBits(bl, r) + [] == RunBits(bl, r);
  }

  // Send one symbol with its repeat count.
  method SendOne(w: Writer, ghost bl: seq<nat>, fc: array<nat>, dl: array<nat>, r: Run)
    requires w.Valid() && BitLengthTree(bl, fc, dl) && Sendable(bl, [r])
    modifies w
    ensures w.Valid() && w.Stream() == old(w.Stream()) + RunsBits(bl, [r])
  {
    hide CodeBits, ToBits, Pow2, RunsBits;
    assert r in [r];
    ghost var before := w.Stream();
    SendBlCode(w, bl, fc, dl, Symbol(r));
    RunsBitsOne(bl, r);
    Pow2Values();
    if ExtraWidth(r) != 0 {
      w.SendBits(ExtraValue(r), ExtraWidth(r));
      Assoc(before, CodeBits(bl, Symbol(r)), ToBits(ExtraValue(r), ExtraWidth(r)));
    } else {
      NoExtra(ExtraValue(r));
      assert CodeBits(bl, Symbol(r)) + [] == CodeBits(bl, Symbol(r));
    }
  }

  lemma NoExtra(x: nat)
    ensures ToBits(x, 0) == []
  {
  }

  // Send a run of count lengths cur.
  method SendRun(w: Writer, ghost bl: seq<nat>, fc: array<nat>, dl: array<nat>, cur: nat, count: nat, prev: int)
    requires w.Valid() && BitLengthTree(bl, fc, dl)
    requires 1 <= count && Sendable(bl, RunsFor(cur, count, prev))
    modifies w
    ensures w.Valid() && w.Stream() == old(w.Stream()) + RunsBits(bl, RunsFor(cur, count, prev))
  {
    hide RunBits, RunsBits;
    ghost var before := w.Stream();
    ghost var runs := RunsFor(cur, count, prev);
    if count < MinRun(cur, prev) {
      ghost var sent: seq<Run> := [];
      RunsBitsNone(bl);
      assert before == before + [];
      for i := 0 to count
        invariant w.Valid() && BitLengthTree(bl, fc, dl) && sent == runs[..i]
        invariant Sendable(bl, sent) && w.Stream() == before + RunsBits(bl, sent)
      {
        SendableItem(bl, runs, i);
        SendOne(w, bl, fc, dl, Length(cur));
        RunsBitsConcat(bl, sent, [runs[i]]);
        Assoc(before, RunsBits(bl, sent), RunsBits(bl, [runs[i]]));
        sent := sent + [runs[i]];
      }
      assert sent == runs;
    } else if cur != 0 {
      if cur != prev {
        SendableItem(bl, runs, 0);
        SendableItem(bl, runs, 1);
        SendOne(w, bl, fc, dl, Length(cur));
        SendOne(w, bl, fc, dl, Repeat(count - 1));
        assert runs == [Length(cur)] + [Repeat(count - 1)];
        RunsBitsConcat(bl, [Length(cur)], [Repeat(count - 1)]);
        Assoc(before, RunsBits(bl, [Length(cur)]), RunsBits(bl, [Repeat(count - 1)]));
      } else {
        SendOne(w, bl, fc, dl, Repeat(count));
      }
    } else if count <= 10 {
      SendOne(w, bl, fc, dl, ZerosShort(count));
    } else {
      SendOne(w, bl, fc, dl, ZerosLong(count));
    }
  }

  lemma RunsBitsNone(bl: seq<nat>)
    ensures RunsBits(bl, []) == []
  {
  }

  lemma SendableItem(bl: seq<nat>, runs: seq<Run>, i: nat)
    requires Sendable(bl, runs) && i < |runs|
    ensures Sendable(bl, [runs[i]]) && Sendable(bl, runs[..i + 1])
  {
    assert runs[i] in runs;
  }

  /**
    Write the runs of a length vector whose guard scan_tree has put in place.
   */
  method SendTree(w: Writer, ghost bl: seq<nat>, blFc: array<nat>, blDl: array<nat>, dl: array<nat>, maxCode: nat)
    requires w.Valid() && BitLengthTree(bl, blFc, blDl)
    requires maxCode + 1 < dl.Length && LengthsOk(dl[..maxCode + 1]) && dl[maxCode + 1] == 0xffff
    requires Sendable(bl, Encode(dl[..maxCode + 1], 0, 0, -1))
    modifies w
    ensures w.Valid()
    ensures w.Stream() == old(w.Stream()) + RunsBits(bl, Encode(dl[..maxCode + 1], 0, 0, -1))
  {
    hide Encode, RunsFor, RunsBits, Sendable;
    ghost var lens := dl[..maxCode + 1];
    ghost var before := w.Stream();
    ghost var sent: seq<Run> := [];
    var prev: int, next := -1, dl[0];
    var count := 0;
    var max, min := MaxRun(next, prev), MinRun(next, prev);
    ghost var total := Encode(lens, 0, 0, -1);
    SendableNone(bl);
    RunsBitsNone(bl);
    assert before == before + [] && total == [] + total;
    for n := 0 to maxCode + 1
      invariant w.Valid() && BitLengthTree(bl, blFc, blDl)
      invariant next == dl[n]
      invariant n <= maxCode ==> max == MaxRun(next, prev) && min == MinRun(next, prev)
      invariant total == sent + Encode(lens, n, count, prev)
      invariant Sendable(bl, sent) && w.Stream() == before + RunsBits(bl, sent)
    {
      var cur := next;
      next := dl[n + 1];
      EncodeStep(lens, n, count, prev);
      count := count + 1;
      if count < max && cur == next {
        continue;
      }
      ghost var runs, rest := RunsFor(cur, count, prev), Encode(lens, n + 1, 0, cur);
      Assoc(sent, runs, rest);
      SendableConcat(bl, sent + runs, rest);
      SendableConcat(bl, sent, runs);
      SendRun(w, bl, blFc, blDl, cur, count, prev);
      RunsBitsConcat(bl, sent, runs);
      Assoc(before, RunsBits(bl, sent), RunsBits(bl, runs));
      sent := sent + runs;
      count, prev := 0, cur;
      max, min := NextRun(cur, next);
    }
    EncodeEnd(lens, count, prev);
    assert sent + [] == sent;
  }

  lemma SendableNone(bl: seq<nat>)
    ensures Sendable(bl, [])
  {
  }

  lemma EncodeEnd(lens: seq<nat>, count: nat, prev: int)
    ensures Encode(lens, |lens|, count, prev) == []
  {
  }
}
