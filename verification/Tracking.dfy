/**
  One step of inflate() against one step of the abstract decoder, in terms of the
  accumulator: for each mode, what BITS and DROPBITS make of the bits at hand is what the
  abstract decoder makes of the bits it has not used.
 */
module Tracking {
  import opened Bits
  import opened Canonical
  import opened InflateTable
  import opened BitWriter
  import opened CodeLengths
  import opened Symbols
  import opened Inflater
  import opened InflaterRuns
  import opened ExactRuns
  import opened Accumulator

  // After n steps on the stream b the decoder is in state a and hold has the unused bits.
  ghost predicate Follows(b: seq<bool>, n: nat, a: State, hold: nat, bits: nat) {
    Exact(b, n, a) && Holding(b, a.pos, hold, bits)
  }

  // Less than a byte is held, or the decoder could not have gone on without the last byte.
  ghost predicate Tight(b: seq<bool>, a: State) {
    a.pos <= |b| && (|b| - a.pos < 8 || Next(a, Unused(b, a)[..|b| - a.pos - 8]) == Wait)
  }

  ghost predicate Tracks(b: seq<bool>, n: nat, a: State, hold: nat, bits: nat) {
    Follows(b, n, a, hold, bits) && Tight(b, a)
  }

  lemma FollowsBits(b: seq<bool>, n: nat, a: State, hold: nat, bits: nat)
    requires Follows(b, n, a, hold, bits)
    ensures a.pos + bits == |b| && |Unused(b, a)| == bits && hold < Pow2(bits) && Ok(a)
  {
    hide Ok, Exact, ToBits, Pow2;
    ExactPos(b, n, a);
    ExactOk(b, n, a);
  }

  lemma FollowsHold(b: seq<bool>, n: nat, a: State, hold: nat, bits: nat)
    requires Follows(b, n, a, hold, bits)
    ensures Holding(b, a.pos, hold, bits) && Exact(b, n, a)
  {
  }

  lemma TracksStart()
    ensures Tracks([], 0, Inflater.Start(), 0, 0)
  {
    hide Ok, Exact, Holding, Next;
    ExactStart([]);
    HoldingNone([]);
  }

  // ---------- taking bytes in and giving them back ----------

  lemma FollowsPull(b: seq<bool>, n: nat, a: State, hold: nat, bits: nat, byte: nat)
    requires Follows(b, n, a, hold, bits) && byte < 256
    ensures Follows(b + ToBits(byte, 8), n, a, hold + Shl(byte, bits), bits + 8)
  {
    hide Exact, Holding, Shl, ToBits;
    ExactMore(b, n, a, ToBits(byte, 8));
    Pulled(b, a.pos, hold, bits, byte);
  }

  lemma TracksPull(b: seq<bool>, n: nat, a: State, hold: nat, bits: nat, byte: nat)
    requires Tracks(b, n, a, hold, bits) && byte < 256
    requires a.pos <= |b| && Stuck(a, Unused(b, a))
    ensures Tracks(b + ToBits(byte, 8), n, a, hold + Shl(byte, bits), bits + 8)
  {
    hide Follows, Shl, ToBits, Next;
    FollowsPull(b, n, a, hold, bits, byte);
    var rest := Unused(b + ToBits(byte, 8), a);
    assert rest[..|rest| - 8] == Unused(b, a);
  }

  lemma FollowsBack(b: seq<bool>, n: nat, a: State, hold: nat, bits: nat, k: nat)
    requires Follows(b, n, a, hold, bits) && 8 * k <= bits
    ensures a.pos + bits == |b|
    ensures Follows(b[..|b| - 8 * k], n, a, Low(hold, bits - 8 * k), bits - 8 * k)
  {
    hide Exact, Holding, Low;
    FollowsHold(b, n, a, hold, bits);
    HoldingBits(b, a.pos, hold, bits);
    ExactLess(b, n, a, |b| - 8 * k);
    GivenBack(b, a.pos, hold, bits, k);
  }

  // ---------- steps ----------

  lemma FollowsStep(b: seq<bool>, n: nat, a: State, hold: nat, bits: nat, e: State, used: nat)
    requires Follows(b, n, a, hold, bits) && a.pos <= |b|
    requires Next(a, Unused(b, a)) == Go(e, used) && e.mode != BAD
    ensures used <= bits && e.pos == a.pos + used && Ok(e)
    ensures Follows(b, n + 1, e, Shr(hold, used), bits - used)
  {
    hide Exact, Holding, Next, Ok, Shr;
    ExactStep(b, n, a, e, used);
    HoldingBits(b, a.pos, hold, bits);
    Dropped(b, a.pos, hold, bits, used);
  }

  // A step from a tight state leaves less than a byte.
  lemma TightStep(b: seq<bool>, n: nat, a: State, e: State, used: nat)
    requires Exact(b, n, a) && Tight(b, a) && Next(a, Unused(b, a)) == Go(e, used) && e.mode != BAD
    ensures |b| - a.pos - used < 8
  {
    hide Exact, Next, Ok;
    ExactOk(b, n, a);
    var k := |b| - a.pos - 8;
    if k >= 0 && used <= k {
      NextTight(a, Unused(b, a), k);
      assert false;
    }
  }

  lemma TracksStep(b: seq<bool>, n: nat, a: State, hold: nat, bits: nat, e: State, used: nat)
    requires Tracks(b, n, a, hold, bits) && a.pos <= |b|
    requires Next(a, Unused(b, a)) == Go(e, used) && e.mode != BAD
    ensures used <= bits && bits - used < 8 && e.pos == a.pos + used && Ok(e)
    ensures Tracks(b, n + 1, e, Shr(hold, used), bits - used)
  {
    hide Exact, Holding, Next, Ok, Shr;
    FollowsStep(b, n, a, hold, bits, e, used);
    TightStep(b, n, a, e, used);
    HoldingBits(b, a.pos, hold, bits);
  }

  // ---------- what the next step is ----------

  lemma TypeLast(b: seq<bool>, n: nat, a: State, hold: nat, bits: nat) returns (e: State)
    requires Follows(b, n, a, hold, bits) && a.mode == TYPE && a.last && |b| % 8 == 0
    ensures a.pos <= |b| && Next(a, Unused(b, a)) == Go(e, bits % 8)
    ensures e == a.(pos := a.pos + bits % 8, mode := DONE)
  {
    hide Exact, Holding, Ok, Padding;
    FollowsBits(b, n, a, hold, bits);
    BytePlace(b, a.pos, hold, bits);
    e := a.(pos := a.pos + bits % 8, mode := DONE);
  }

  // The mode a block header leads to.
  function BlockMode(kind: nat): Mode {
    match kind case 0 => STORED case 1 => LEN case 2 => TABLE case _ => BAD
  }

  lemma TypeNext(b: seq<bool>, n: nat, a: State, hold: nat, bits: nat) returns (e: State)
    requires Follows(b, n, a, hold, bits) && a.mode == TYPE && !a.last
    ensures a.pos <= |b| && (bits < 3 ==> Stuck(a, Unused(b, a)))
    ensures var kind := Low(Shr(hold, 1), 2);
            bits >= 3 ==>
              && kind < 4
              && Next(a, Unused(b, a)) == Go(e, 3)
              && e.mode == BlockMode(kind) && e.last == (Low(hold, 1) == 1) && e.out == a.out && e.pos == a.pos + 3
              && (kind == 1 ==> e.ll == FixedLit() && e.dl == FixedDist())
  {
    hide Exact, Holding, Ok, Padding, FixedLit, FixedDist, FromBits, Low, Shr;
    FollowsBits(b, n, a, hold, bits);
    if bits < 3 {
      e := a;
    } else {
      e := NextType(a, Unused(b, a)).next;
      Peeked(b, a.pos, hold, bits, 1);
      PeekedAt(b, a.pos, hold, bits, 1, 2);
      OneBit(Unused(b, a));
      assert Pow2(2) == 4 && Pow2(1) == 2 by { Pow2Values(); }
    }
  }

  lemma OneBit(bits: seq<bool>)
    requires |bits| >= 1
    ensures FromBits(bits[..1]) == if bits[0] then 1 else 0
  {
    assert bits[..1][1..] == [];
  }

  lemma StoredAlign(b: seq<bool>, n: nat, a: State, hold: nat, bits: nat) returns (e: State)
    requires Follows(b, n, a, hold, bits) && a.mode == STORED && |b| % 8 == 0
    ensures a.pos <= |b| && e == a.(pos := a.pos + bits % 8)
    ensures bits % 8 > 0 ==> Next(a, Unused(b, a)) == Go(e, bits % 8)
  {
    hide Exact, Holding, Ok, Padding, FromBits;
    FollowsBits(b, n, a, hold, bits);
    BytePlace(b, a.pos, hold, bits);
    e := a.(pos := a.pos + bits % 8);
  }

  lemma StoredNext(b: seq<bool>, n: nat, a: State, hold: nat, bits: nat) returns (e: State)
    requires Follows(b, n, a, hold, bits) && a.mode == STORED && |b| % 8 == 0 && bits % 8 == 0
    ensures a.pos <= |b| && (bits < 32 ==> Stuck(a, Unused(b, a)))
    ensures bits >= 32 ==> Next(a, Unused(b, a)).Go?
    ensures bits >= 32 && Low(Shr(hold, 16), 16) != 0xffff - Low(hold, 16) ==> Failing(b, a)
    ensures bits >= 32 && Low(Shr(hold, 16), 16) == 0xffff - Low(hold, 16) ==>
              && Next(a, Unused(b, a)) == Go(e, 32)
              && e == a.(pos := a.pos + 32, mode := COPY, length := Low(hold, 16))
  {
    hide Exact, Holding, Ok, Padding, FromBits, Low, Shr;
    FollowsBits(b, n, a, hold, bits);
    BytePlace(b, a.pos, hold, bits);
    e := a;
    if bits >= 32 {
      e := a.(pos := a.pos + 32, mode := COPY, length := Low(hold, 16));
      Peeked(b, a.pos, hold, bits, 16);
      PeekedAt(b, a.pos, hold, bits, 16, 16);
    }
  }

  lemma CopyEnds(b: seq<bool>, n: nat, a: State) returns (e: State)
    requires Exact(b, n, a) && a.mode == COPY && a.length == 0
    ensures a.pos <= |b| && Next(a, Unused(b, a)) == Go(e, 0) && e == a.(mode := TYPE)
  {
    hide Runs;
    ExactPos(b, n, a);
    e := a.(mode := TYPE);
  }

  // Stored bytes are copied straight from the input.
  lemma {:induction false} CopyRun(s: seq<nat>, n: nat, a: State, data: seq<nat>) returns (e: State)
    requires Follows(BytesBits(s), n, a, 0, 0) && a.mode == COPY && |data| <= a.length && IsBytes(data)
    ensures Follows(BytesBits(s + data), n + |data|, e, 0, 0)
    ensures e == a.(pos := a.pos + 8 * |data|, length := a.length - |data|, out := a.out + data)
    decreases |data|
  {
    hide Follows, BytesBits, ToBits, FromBits, Ok, Shl, Shr, Low, Exact;
    if data == [] {
      assert s + data == s && a.out + [] == a.out;
      e := a;
    } else {
      var init, byte := data[..|data| - 1], data[|data| - 1];
      var m := CopyRun(s, n, a, init);
      var b := BytesBits(s + init);
      assert s + data == (s + init) + [byte];
      BytesBitsPush(s + init, byte);
      FollowsPull(b, n + |init|, m, 0, 0, byte);
      var b' := b + ToBits(byte, 8);
      e := CopyByte(b', n + |init|, m, Shl(byte, 0), byte);
      assert m.out + [byte] == a.out + data;
    }
  }

  lemma CopyByte(b: seq<bool>, n: nat, a: State, hold: nat, byte: nat) returns (e: State)
    requires Follows(b, n, a, hold, 8) && a.mode == COPY && a.length > 0 && byte < 256 && hold == Shl(byte, 0) + 0
    ensures Follows(b, n + 1, e, 0, 0)
    ensures e == a.(pos := a.pos + 8, length := a.length - 1, out := a.out + [byte])
  {
    assert hold == byte;
    hide Exact, Holding, FromBits, Ok, Low, Shr, Shl;
    FollowsBits(b, n, a, hold, 8);
    Peeked(b, a.pos, hold, 8, 8);
    Pow2Values();
    LowId(byte, 8);
    e := a.(pos := a.pos + 8, length := a.length - 1, out := a.out + [byte]);
    FollowsStep(b, n, a, hold, 8, e, 8);
  }

  lemma TableNext(b: seq<bool>, n: nat, a: State, hold: nat, bits: nat) returns (e: State)
    requires Follows(b, n, a, hold, bits) && a.mode == TABLE
    ensures a.pos <= |b| && (bits < 14 ==> Stuck(a, Unused(b, a)))
    ensures var nlen, ndist, ncode := Low(hold, 5) + 257, Low(Shr(hold, 5), 5) + 1, Low(Shr(hold, 10), 4) + 4;
            bits >= 14 ==>
              && (nlen > 286 || ndist > 30 ==> Failing(b, a))
              && (nlen <= 286 && ndist <= 30 ==>
                   && Next(a, Unused(b, a)) == Go(e, 14)
                   && e == a.(pos := a.pos + 14, mode := LENLENS, nlen := nlen, ndist := ndist, ncode := ncode,
                        cl := []))
  {
    hide Exact, Holding, Ok, FromBits, Low, Shr;
    FollowsBits(b, n, a, hold, bits);
    e := a;
    if bits >= 14 {
      Peeked(b, a.pos, hold, bits, 5);
      PeekedAt(b, a.pos, hold, bits, 5, 5);
      PeekedAt(b, a.pos, hold, bits, 10, 4);
      e := NextTable(a, Unused(b, a)).next;
    }
  }

  lemma LenLensNext(b: seq<bool>, n: nat, a: State, hold: nat, bits: nat) returns (e: State)
    requires Follows(b, n, a, hold, bits) && a.mode == LENLENS && |a.cl| < a.ncode
    ensures a.pos <= |b| && (bits < 3 ==> Stuck(a, Unused(b, a)))
    ensures bits >= 3 ==>
              && Next(a, Unused(b, a)) == Go(e, 3)
              && e == a.(pos := a.pos + 3, cl := a.cl + [Low(hold, 3)])
  {
    hide Exact, Holding, Ok, FromBits, Low, Shr, Acceptable, Permute;
    FollowsBits(b, n, a, hold, bits);
    e := a;
    if bits >= 3 {
      Peeked(b, a.pos, hold, bits, 3);
      e := a.(pos := a.pos + 3, cl := a.cl + [Low(hold, 3)]);
    }
  }

  lemma LenLensEnds(b: seq<bool>, n: nat, a: State) returns (e: State)
    requires Exact(b, n, a) && a.mode == LENLENS && |a.cl| >= a.ncode
    ensures a.pos <= |b| && Ok(a)
    ensures !Acceptable(CODES, Permute(a.cl)) ==> Failing(b, a)
    ensures Acceptable(CODES, Permute(a.cl)) ==> Next(a, Unused(b, a)) == Go(e, 0)
    ensures e == a.(mode := CODELENS, bl := Permute(a.cl), lens := [])
  {
    hide Runs, Ok, FromBits, Acceptable, Permute;
    ExactOk(b, n, a);
    e := a.(mode := CODELENS, bl := Permute(a.cl), lens := []);
  }

  // ---------- code lengths ----------

  // The bits begin with a code length symbol of l bits.  Where no code of the set begins,
  // the entry reads as length zero, since its operation is not looked at.
  ghost predicate LengthSymbol(a: State, bits: seq<bool>, val: nat, l: nat) {
    match Find(a.bl, bits)
    case More => false
    case Symbol(s) => s < |a.bl| && val == s && l == a.bl[s] <= |bits|
    case Invalid => val == 0 && l == 1 <= |bits|
  }

  lemma LengthSymbolNext(a: State, bits: seq<bool>, val: nat, l: nat)
    requires a.mode == CODELENS && |a.lens| < a.nlen + a.ndist && LengthSymbol(a, bits, val, l)
    ensures l <= |bits| && Next(a, bits) == NextLength(a, val, l, bits)
  {
    hide Find, NextLength, CodesRead;
  }

  lemma LengthSymbolMore(a: State, bits: seq<bool>, val: nat, l: nat, more: seq<bool>)
    requires Ok(a) && a.mode == CODELENS && LengthSymbol(a, bits, val, l)
    ensures LengthSymbol(a, bits + more, val, l)
  {
    hide Find, CodeOk;
    FindStable(CODES, a.bl, bits, more);
  }

  lemma RepeatWants(a: State, bits: seq<bool>, val: nat, l: nat, n: nat)
    requires Ok(a) && a.mode == CODELENS && |a.lens| < a.nlen + a.ndist && LengthSymbol(a, bits, val, l)
    requires 16 <= val < 19 && n == l + RepeatBits(val)
    ensures forall more: seq<bool> :: |bits + more| < n ==> Next(a, bits + more) == Wait
  {
    hide Ok, LengthSymbol, Next, FromBits;
    forall more: seq<bool> | |bits + more| < n
      ensures Next(a, bits + more) == Wait
    {
      LengthSymbolMore(a, bits, val, l, more);
      LengthSymbolNext(a, bits + more, val, l);
    }
  }

  // A lookup among the code length codes finds a symbol and its bits in one entry.
  lemma LengthFound(b: seq<bool>, n: nat, a: State, hold: nat, bits: nat, tab: seq<Entry>, root: nat)
    requires Follows(b, n, a, hold, bits) && a.mode == CODELENS && |a.lens| < a.nlen + a.ndist
    requires Decoding(tab, 0, root, CODES, a.bl)
    ensures a.pos <= |b| && Low(hold, root) < |tab|
    ensures var here := tab[Low(hold, root)];
            && here.bits <= MAXBITS
            && (here.bits > bits ==> Stuck(a, Unused(b, a)))
            && (here.bits <= bits ==>
                 here.val < 19 && 1 <= here.bits <= MAXBITS && LengthSymbol(a, Unused(b, a), here.val, here.bits))
  {
    hide Exact, Holding, Ok, Find, NextLength, CodesRead, Low, Shr, Decoding;
    FollowsBits(b, n, a, hold, bits);
    LookupFinds(tab, 0, root, CODES, a.bl, b, a.pos, hold, bits);
  }

  lemma PlainLength(b: seq<bool>, n: nat, a: State, hold: nat, bits: nat, val: nat, l: nat) returns (e: State)
    requires Follows(b, n, a, hold, bits) && a.pos <= |b| && val < 16 && l <= bits
    requires a.mode == CODELENS && |a.lens| < a.nlen + a.ndist && LengthSymbol(a, Unused(b, a), val, l)
    ensures Next(a, Unused(b, a)) == Go(e, l) && e == a.(pos := a.pos + l, lens := a.lens + [val])
  {
    hide Exact, Holding, Next, LengthSymbol;
    LengthSymbolNext(a, Unused(b, a), val, l);
    e := a.(pos := a.pos + l, lens := a.lens + [val]);
  }

  // Extra bits and least count of a repeat symbol.
  function RepeatBits(val: nat): nat {
    if val == 16 then 2 else if val == 17 then 3 else 7
  }

  function RepeatBase(val: nat): nat {
    if val < 18 then 3 else 11
  }

  lemma RepeatLength(b: seq<bool>, n: nat, a: State, hold: nat, bits: nat, val: nat, l: nat) returns (e: State)
    requires Follows(b, n, a, hold, bits) && a.pos <= |b| && 16 <= val < 19 && l <= bits
    requires a.mode == CODELENS && |a.lens| < a.nlen + a.ndist && LengthSymbol(a, Unused(b, a), val, l)
    ensures bits < l + RepeatBits(val) ==> Stuck(a, Unused(b, a))
    ensures bits >= l + RepeatBits(val) && val == 16 && a.lens == [] ==> Failing(b, a)
    ensures var copy := RepeatBase(val) + Low(Shr(hold, l), RepeatBits(val));
            bits >= l + RepeatBits(val) && (val == 16 ==> a.lens != []) ==>
              var len := if val == 16 then a.lens[|a.lens| - 1] else 0;
              && (|a.lens| + copy > a.nlen + a.ndist ==> Failing(b, a))
              && (|a.lens| + copy <= a.nlen + a.ndist ==>
                   && Next(a, Unused(b, a)) == Go(e, l + RepeatBits(val))
                   && e == a.(pos := a.pos + (l + RepeatBits(val)), lens := a.lens + Times(len, copy)))
  {
    hide Exact, Holding, Next, Low, Shr, FromBits, Times, LengthSymbol;
    FollowsBits(b, n, a, hold, bits);
    LengthSymbolNext(a, Unused(b, a), val, l);
    e := a;
    if bits >= l + RepeatBits(val) {
      PeekedAt(b, a.pos, hold, bits, l, RepeatBits(val)) by { FollowsHold(b, n, a, hold, bits); }
      if Next(a, Unused(b, a)).Go? {
        e := Next(a, Unused(b, a)).next;
      }
    }
  }

  lemma LengthsEnd(b: seq<bool>, n: nat, a: State) returns (e: State)
    requires Exact(b, n, a) && a.mode == CODELENS && |a.lens| == a.nlen + a.ndist
    ensures a.pos <= |b| && Ok(a) && 257 <= a.nlen <= |a.lens|
    ensures a.lens[256] == 0 ==> Failing(b, a)
    ensures !Acceptable(LENS, a.lens[..a.nlen]) || !Acceptable(DISTS, a.lens[a.nlen..]) ==> Failing(b, a)
    ensures a.lens[256] != 0 && Acceptable(LENS, a.lens[..a.nlen]) && Acceptable(DISTS, a.lens[a.nlen..]) ==>
              Next(a, Unused(b, a)) == Go(e, 0)
    ensures e == a.(mode := LEN, ll := a.lens[..a.nlen], dl := a.lens[a.nlen..])
  {
    hide Runs, Acceptable, CodeOk;
    ExactOk(b, n, a);
    e := a.(mode := LEN, ll := a.lens[..a.nlen], dl := a.lens[a.nlen..]);
  }

  // ---------- literals, lengths and distances ----------

  // op & w, for a power of two w.
  predicate Flag(op: nat, w: nat)
    requires w > 0
  {
    op / w % 2 == 1
  }

  // The kinds of entries of the literal/length and distance tables.
  lemma LengthOps(s: nat, l: nat)
    requires s < 288
    ensures var e := SymbolEntry(LENS, s, l);
            && (s < 256 ==> e.op == 0 && e.val == s)
            && (s == 256 ==> Flag(e.op, 32) && e.op >= 16)
            && (s > 256 ==> e.op >= 16 && !Flag(e.op, 32) && (Flag(e.op, 64) <==> s >= 286))
            && (256 < s < 286 ==> Flag(e.op, 16) && e.op % 16 == LengthBits(s - 257) && e.val == DecodedLength(s - 257))
            && (s >= 286 ==> !Flag(e.op, 16)) && (s == 256 ==> !Flag(e.op, 16) && Flag(e.op, 64))
  {
    if s > 256 {
      LengthEntry(s, l);
    }
  }

  lemma DistOps(s: nat, l: nat)
    requires s < 32
    ensures var e := SymbolEntry(DISTS, s, l);
            && e.op >= 16 && (Flag(e.op, 64) <==> s >= 30) && (Flag(e.op, 16) <==> s < 30)
            && (s < 30 ==> e.op % 16 == DistBits(s) && e.val == DecodedDist(s))
  {
    DistEntry(s, l);
  }

  // What inflate() does with a decoded literal/length entry.
  lemma LenNext(b: seq<bool>, n: nat, a: State, hold: nat, bits: nat, tab: seq<Entry>, root: nat) returns (e: State)
    requires Follows(b, n, a, hold, bits) && a.mode == LEN && Decoding(tab, 0, root, LENS, a.ll)
    ensures a.pos <= |b| && InTable(tab, 0, root, hold) && Route(tab, 0, root, hold)
    ensures var d := Lookup(tab, 0, root, hold);
            && (d.bits > bits ==> Stuck(a, Unused(b, a)))
            && (d.bits <= bits ==> d.bits >= 1 && LenOutcome(b, a, d, e))
  {
    hide Exact, Holding, Ok, Find, Low, Shr, Decoding, InTable, Lookup, Route, SymbolEntry;
    FollowsBits(b, n, a, hold, bits);
    LookupFinds(tab, 0, root, LENS, a.ll, b, a.pos, hold, bits);
    e := a;
    if Lookup(tab, 0, root, hold).bits <= bits {
      LenInvalid();
      match Find(a.ll, Unused(b, a))
      case Symbol(s) =>
        LengthOps(s, a.ll[s]);
        if s < 286 {
          e := Next(a, Unused(b, a)).next;
        }
      case Invalid =>
    }
  }

  lemma LenInvalid()
    ensures Flag(64, 64) && !Flag(64, 32) && !Flag(64, 16)
  {
  }

  ghost predicate LenOutcome(b: seq<bool>, a: State, d: Decoded, e: State) {
    && a.pos <= |b|
    && (d.op == 0 ==>
          Next(a, Unused(b, a)) == Go(e, d.bits) && e == a.(pos := a.pos + d.bits, mode := LIT, length := d.val))
    && (d.op != 0 ==> d.op >= 16)
    && (Flag(d.op, 32) ==> Next(a, Unused(b, a)) == Go(e, d.bits) && e == a.(pos := a.pos + d.bits, mode := TYPE))
    && (Flag(d.op, 32) ==> Flag(d.op, 64))
    && (Flag(d.op, 64) && !Flag(d.op, 32) ==> FailsWith(b, a, d.bits))
    && (Flag(d.op, 16) <==> d.op != 0 && !Flag(d.op, 64))
    && (Flag(d.op, 16) ==> Next(a, Unused(b, a)) == Go(e, d.bits) && d.op % 16 <= 5
                           && e == a.(pos := a.pos + d.bits, mode := LENEXT, length := d.val, extra := d.op % 16))
  }

  // The next step fails after using so many bits.
  ghost predicate FailsWith(b: seq<bool>, a: State, used: nat) {
    && a.pos <= |b| && Next(a, Unused(b, a)).Go?
    && Next(a, Unused(b, a)).next.mode == BAD && Next(a, Unused(b, a)).used == used
  }

  // Giving back bytes not used by a failing code leaves it failing.
  lemma FailsBack(b: seq<bool>, n: nat, a: State, used: nat, k: nat)
    requires Exact(b, n, a) && FailsWith(b, a, used) && a.mode in {LEN, DIST, MATCH} && a.pos + used <= k <= |b|
    ensures Exact(b[..k], n, a) && Failing(b[..k], a)
  {
    hide Exact, Ok, Next;
    ExactOk(b, n, a);
    ExactLess(b, n, a, k);
    NextTight(a, Unused(b, a), k - a.pos);
  }

  lemma LenExtNext(b: seq<bool>, n: nat, a: State, hold: nat, bits: nat) returns (e: State)
    requires Follows(b, n, a, hold, bits) && a.mode == LENEXT
    ensures a.pos <= |b| && (bits < a.extra ==> Stuck(a, Unused(b, a)))
    ensures bits >= a.extra ==>
              && Next(a, Unused(b, a)) == Go(e, a.extra)
              && e == a.(pos := a.pos + a.extra, mode := DIST, length := a.length + Low(hold, a.extra))
  {
    hide Exact, Holding, Ok, FromBits, Low;
    FollowsBits(b, n, a, hold, bits);
    e := a;
    if bits >= a.extra {
      Peeked(b, a.pos, hold, bits, a.extra);
      e := NextLenExt(a, Unused(b, a)).next;
    }
  }

  lemma DistNext(b: seq<bool>, n: nat, a: State, hold: nat, bits: nat, tab: seq<Entry>, start: nat, root: nat)
    returns (e: State)
    requires Follows(b, n, a, hold, bits) && a.mode == DIST && Decoding(tab, start, root, DISTS, a.dl)
    ensures a.pos <= |b| && InTable(tab, start, root, hold) && Route(tab, start, root, hold)
    ensures var d := Lookup(tab, start, root, hold);
            && (d.bits > bits ==> Stuck(a, Unused(b, a)))
            && (d.bits <= bits ==> d.bits >= 1 && DistOutcome(b, a, d, e))
  {
    hide Exact, Holding, Ok, Find, Low, Shr, Decoding, InTable, Lookup, Route, SymbolEntry;
    FollowsBits(b, n, a, hold, bits);
    LookupFinds(tab, start, root, DISTS, a.dl, b, a.pos, hold, bits);
    e := a;
    if Lookup(tab, start, root, hold).bits <= bits {
      LenInvalid();
      match Find(a.dl, Unused(b, a))
      case Symbol(s) =>
        DistOps(s, a.dl[s]);
        if s < 30 {
          e := Next(a, Unused(b, a)).next;
        }
      case Invalid =>
    }
  }

  ghost predicate DistOutcome(b: seq<bool>, a: State, d: Decoded, e: State) {
    && a.pos <= |b| && d.op >= 16
    && (Flag(d.op, 64) ==> FailsWith(b, a, d.bits))
    && (Flag(d.op, 16) <==> !Flag(d.op, 64))
    && (Flag(d.op, 16) ==> Next(a, Unused(b, a)) == Go(e, d.bits) && d.op % 16 <= 13
                           && e == a.(pos := a.pos + d.bits, mode := DISTEXT, offset := d.val, extra := d.op % 16))
  }

  lemma DistExtNext(b: seq<bool>, n: nat, a: State, hold: nat, bits: nat) returns (e: State)
    requires Follows(b, n, a, hold, bits) && a.mode == DISTEXT
    ensures a.pos <= |b| && (bits < a.extra ==> Stuck(a, Unused(b, a)))
    ensures bits >= a.extra ==>
              && Next(a, Unused(b, a)) == Go(e, a.extra)
              && e == a.(pos := a.pos + a.extra, mode := MATCH, offset := a.offset + Low(hold, a.extra),
                      reach := Farther(a.reach, a.offset + Low(hold, a.extra)))
  {
    hide Exact, Holding, Ok, FromBits, Low;
    FollowsBits(b, n, a, hold, bits);
    e := a;
    if bits >= a.extra {
      Peeked(b, a.pos, hold, bits, a.extra);
      e := NextDistExt(a, Unused(b, a)).next;
    }
  }

  // ---------- output ----------

  // From position n on, data repeats what stands dist before.
  ghost predicate Copied(data: seq<nat>, n: nat, dist: nat) {
    1 <= dist <= n <= |data| && forall i :: n <= i < |data| ==> data[i] == data[i - dist]
  }

  // Copying some bytes of a match.
  lemma {:induction false} MatchRun(b: seq<bool>, n: nat, a: State, hold: nat, bits: nat, data: seq<nat>)
    returns (e: State)
    requires Follows(b, n, a, hold, bits) && a.mode == MATCH
    requires a.out <= data && Copied(data, |a.out|, a.offset) && |data| - |a.out| <= a.length
    ensures Follows(b, n + (|data| - |a.out|), e, hold, bits)
    ensures a.length > 0
    ensures e == a.(out := data, length := a.length - (|data| - |a.out|),
                    mode := if a.length == |data| - |a.out| then LEN else MATCH)
    decreases |data|
  {
    hide Follows;
    MatchLength(b, n, a, hold, bits);
    if |data| == |a.out| {
      e := a;
    } else {
      var init := data[..|data| - 1];
      var m := MatchRun(b, n, a, hold, bits, init);
      e := m.(out := data, length := m.length - 1, mode := if m.length == 1 then LEN else MATCH);
      assert data == init + [data[|data| - 1]];
      MatchByte(b, n + (|init| - |a.out|), m, hold, bits, data, e);
    }
  }

  lemma MatchLength(b: seq<bool>, n: nat, a: State, hold: nat, bits: nat)
    requires Follows(b, n, a, hold, bits) && a.mode == MATCH
    ensures a.length > 0 && a.offset > 0
  {
    hide Exact, Holding, CodeOk;
    FollowsHold(b, n, a, hold, bits);
    ExactOk(b, n, a);
  }

  lemma MatchByte(b: seq<bool>, n: nat, a: State, hold: nat, bits: nat, data: seq<nat>, e: State)
    requires Follows(b, n, a, hold, bits) && a.mode == MATCH
    requires |data| == |a.out| + 1 && a.out <= data && 1 <= a.offset <= |a.out| && a.length > 0
    requires data[|a.out|] == data[|a.out| - a.offset]
    requires e == a.(out := data, length := a.length - 1, mode := if a.length == 1 then LEN else MATCH)
    ensures Follows(b, n + 1, e, hold, bits)
  {
    hide Exact, Holding, Ok;
    FollowsBits(b, n, a, hold, bits);
    assert data == a.out + [a.out[|a.out| - a.offset]];
    FollowsStep(b, n, a, hold, bits, e, 0);
  }

  lemma MatchFails(b: seq<bool>, n: nat, a: State)
    requires Exact(b, n, a) && a.mode == MATCH && a.offset > |a.out|
    ensures FailsWith(b, a, 0)
  {
    hide Runs;
    ExactPos(b, n, a);
  }

  lemma LitNext(b: seq<bool>, n: nat, a: State) returns (e: State)
    requires Exact(b, n, a) && a.mode == LIT
    ensures a.pos <= |b| && Next(a, Unused(b, a)) == Go(e, 0) && e == a.(out := a.out + [a.length], mode := LEN)
  {
    hide Runs;
    ExactPos(b, n, a);
    e := a.(out := a.out + [a.length], mode := LEN);
  }

  // A decoder that does not wait for input holds less than a byte.
  lemma TightMoving(b: seq<bool>, n: nat, a: State)
    requires Exact(b, n, a) && Tight(b, a) && a.mode in {MATCH, LIT}
    ensures a.pos <= |b| && |b| - a.pos < 8
  {
    hide Runs;
  }

  // Less than a byte is tight whatever comes next.
  lemma TightFew(b: seq<bool>, a: State)
    requires a.pos <= |b| && |b| - a.pos < 8
    ensures Tight(b, a)
  {
    hide Next;
  }
}
