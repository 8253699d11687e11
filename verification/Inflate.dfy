/**
  inflate() for raw streams: the mode switch over an input buffer, an output buffer, the
  bit accumulator, the decoding tables and the circular window.

  Between any two steps the object agrees with a state of the abstract decoder that has run
  on exactly the bits consumed, whatever way input and output have been cut into buffers.
 */
module Inflate {
  import opened Bits
  import opened Canonical
  import opened TableSpace
  import opened InflateTable
  import opened Enough
  import opened BitWriter
  import opened CodeLengths
  import opened Symbols
  import opened Inflater
  import opened InflaterRuns
  import opened ExactRuns
  import opened Accumulator
  import opened Tracking
  import opened OutputWindow

  const ENOUGH: nat := ENOUGH_LENS + ENOUGH_DISTS

  const Z_OK := 0
  const Z_STREAM_END := 1
  const Z_DATA_ERROR := -3
  const Z_BUF_ERROR := -5

  // Modes that follow one another without taking input or writing output do so downwards.
  function ModeRank(m: Mode): nat {
    match m
    case LENLENS => 6
    case CODELENS => 5
    case LENEXT => 4
    case DIST => 3
    case STORED => 3
    case COPY => 2
    case DISTEXT => 2
    case TYPE => 1
    case MATCH => 1
    case LIT => 1
    case LEN => 1
    case TABLE => 1
    case DONE => 0
    case BAD => 0
  }

  predicate Descends(r: nat, l: nat, k: nat, r': nat, l': nat, k': nat) {
    r' < r || (r' == r && (l' < l || (l' == l && k' < k)))
  }

  // In state a, with front at hand, fewer than n bits are not enough.
  ghost predicate Wants(a: State, front: seq<bool>, n: nat) {
    forall more: seq<bool> :: |front + more| < n ==> Next(a, front + more) == Wait
  }

  // The distance of a match is larger than the window.
  predicate TooFar(a: State, size: nat) {
    a.mode == MATCH && a.offset > size
  }

  // Writing from position p up to q leaves the rest of the buffer alone.
  predicate Appended(before: seq<nat>, p: nat, after: seq<nat>, q: nat) {
    p <= q <= |after| == |before| && after[..p] == before[..p] && after[q..] == before[q..]
  }

  class Decoder {
    // the buffers of the current call
    var input: seq<nat>
    var next: nat
    var output: array<nat>
    var put: nat

    var mode: Mode
    var last: bool            // the last block has begun
    var hold: nat             // its low bits are the unused bits of the stream
    var bits: nat             // how many of them
    var length: nat           // a literal, or bytes still to be copied
    var offset: nat           // of a match
    var extra: nat            // bits that complete length or offset
    var nlen: nat             // announced by the block: literals and lengths,
    var ndist: nat            // distances,
    var ncode: nat            // and run symbols
    var have: nat             // entries of lens read so far
    const lens: array<nat>    // as far as have
    const work: array<nat>    // scratch for BuildTable
    const codes: array<Entry> // where tables are built
    var lencode: seq<Entry>   // decodes abs.ll, or abs.bl while lengths are read
    var lenbits: nat          // width of its root table
    var distcode: seq<Entry>  // decodes abs.dl, from distat on
    var distat: nat
    var distbits: nat         // width of its root table
    const win: Window

    ghost var earlier: seq<nat>   // input consumed by earlier calls
    ghost var prior: seq<nat>     // output of earlier calls
    ghost var abs: State          // the abstract decoder
    ghost var steps: nat          // and the steps it has taken

    ghost predicate Shape()
      reads this`input, this`next, this`output, this`put
    {
      && lens.Length == 320 && work.Length == 288 && codes.Length == ENOUGH
      && lens != work && win.window != lens && win.window != work
      && output != win.window && output != lens && output != work
      && next <= |input| && put <= output.Length && IsBytes(input)
    }

    // The stream consumed so far, as bits.
    ghost function Stream(): (b: seq<bool>)
      requires next <= |input|
      reads this`earlier, this`input, this`next
      ensures |b| % 8 == 0
    {
      BytesBits(earlier + input[..next])
    }

    // All output so far.
    ghost function Total(): seq<nat>
      requires put <= output.Length
      reads this`prior, this`output, this`put, output
    {
      prior + output[..put]
    }

    ghost predicate InStep()
      requires Shape()
      reads this`input, this`next, this`output, this`put, this`earlier, this`prior, output
      reads this`mode, this`last, this`hold, this`bits, this`abs, this`steps
    {
      && mode == abs.mode && mode != BAD && last == abs.last && abs.out == Total()
      && Tracks(Stream(), steps, abs, hold, bits)
      && (mode in {COPY, DONE} ==> bits == 0)
    }

    ghost predicate Tables()
      reads this`lencode, this`lenbits, this`distcode, this`distat, this`distbits, this`abs
    {
      && Decoding(lencode, 0, lenbits, LENS, abs.ll)
      && Decoding(distcode, distat, distbits, DISTS, abs.dl)
    }

    // Code length code lengths are stored in the order of their symbols.
    ghost predicate Permuted()
      requires lens.Length == 320
      reads this`have, this`abs, lens
    {
      have == |abs.cl| <= BL_CODES && forall i :: 0 <= i < have ==> lens[OrderAt(i)] == abs.cl[i]
    }

    // The code lengths read so far, and the code they are read with.
    ghost predicate Lengths()
      requires lens.Length == 320
      reads this`nlen, this`ndist, this`have, this`lencode, this`lenbits, this`abs, lens
    {
      && nlen == abs.nlen && ndist == abs.ndist && have == |abs.lens| <= 320 && lens[..have] == abs.lens
      && Decoding(lencode, 0, lenbits, CODES, abs.bl)
    }

    ghost predicate Fields()
      requires lens.Length == 320
      reads this`mode, this`length, this`offset, this`extra, this`nlen, this`ndist, this`ncode, this`have
      reads this`lencode, this`lenbits, this`distcode, this`distat, this`distbits, this`abs, lens
    {
      match mode
      case TYPE => true
      case STORED => true
      case COPY => length == abs.length
      case TABLE => true
      case LENLENS => nlen == abs.nlen && ndist == abs.ndist && ncode == abs.ncode && Permuted()
      case CODELENS => Lengths()
      case LEN => Tables()
      case LENEXT => Tables() && length == abs.length && extra == abs.extra
      case DIST => Tables() && length == abs.length
      case DISTEXT => Tables() && length == abs.length && offset == abs.offset && extra == abs.extra
      case MATCH => Tables() && length == abs.length && offset == abs.offset
      case LIT => Tables() && length == abs.length
      case DONE => true
      case BAD => true
    }

    // The window has the end of the output of earlier calls.
    ghost predicate Kept()
      requires win.Valid()
      reads this`prior, win, win.window
    {
      win.Contents() == Last(prior, win.size)
    }

    ghost predicate Running()
      reads this, output, lens, win, win.window
    {
      Shape() && InStep() && Fields() && win.Valid() && (mode != DONE ==> Kept())
    }

    // Decoding has failed: the abstract decoder is about to, or a distance is larger than
    // the window.
    ghost predicate Broken()
      reads this`input, this`next, this`output, this`put, this`earlier, this`prior, this`mode, this`abs, this`steps
      reads output, win, win.window
    {
      && Shape() && win.Valid() && mode == BAD && abs.out == Total() && Exact(Stream(), steps, abs)
      && (Failing(Stream(), abs) || TooFar(abs, win.size))
    }

    ghost predicate Valid()
      reads this, output, lens, win, win.window
    {
      Running() || Broken()
    }

    function Rest(): nat
      requires next <= |input|
      reads this`input, this`next, this`bits
    {
      8 * (|input| - next) + bits
    }

    function Left(): nat
      requires put <= output.Length
      reads this`output, this`put
    {
      output.Length - put
    }

    ghost predicate Starved()
      requires Shape()
      reads this`input, this`next, this`output, this`put, this`earlier, this`abs
    {
      next == |input| && abs.pos <= |Stream()| && Stuck(abs, Unused(Stream(), abs))
    }

    constructor (wbits: nat)
      requires 8 <= wbits <= 15
      ensures Shape() && Running() && next == |input| && put == output.Length
      ensures earlier == [] && prior == [] && win.size == Pow2(wbits)
      ensures fresh(output) && fresh(lens) && fresh(work) && fresh(codes) && fresh(win) && fresh(win.window)
    {
      input, next, output, put := [], 0, new nat[0], 0;
      mode, last, hold, bits := TYPE, false, 0, 0;
      length, offset, extra, nlen, ndist, ncode, have := 0, 0, 0, 0, 0, 0, 0;
      lens, work, codes := new nat[320], new nat[288], new Entry[ENOUGH];
      lencode, lenbits, distcode, distat, distbits := [], 0, [], 0, 0;
      win := new Window(wbits);
      earlier, prior, abs, steps := [], [], Inflater.Start(), 0;
      new;
      hide Tracks, BytesBits, Pow2;
      TracksStart();
      BytesBitsNone();
      assert earlier + input[..next] == [];
    }

    // ---------- the accumulator ----------

    method PullByte() returns (ok: bool)
      requires Shape() && InStep() && bits <= 24 && mode !in {COPY, DONE}
      requires abs.pos <= |Stream()| && Stuck(abs, Unused(Stream(), abs))
      modifies this`next, this`hold, this`bits
      ensures Shape()
      ensures ok <==> old(next) < |input|
      ensures !ok ==> next == old(next) && hold == old(hold) && bits == old(bits)
      ensures ok ==> InStep() && next == old(next) + 1 && bits == old(bits) + 8 && hold <= 0xffff_ffff
      ensures ok ==> hold == old(hold) + Shl(input[old(next)], old(bits))
      ensures ok ==> abs.pos <= |old(Stream())| <= |Stream()|
                     && Unused(Stream(), abs) == old(Unused(Stream(), abs)) + ToBits(input[old(next)], 8)
    {
      hide Tracks, BytesBits, Shl, ToBits, Next, Pow2;
      if next == |input| {
        return false;
      }
      ghost var b := Stream();
      ghost var byte := input[next];
      TracksPull(b, steps, abs, hold, bits, byte);
      BytesBitsPush(earlier + input[..next], byte);
      assert (earlier + input[..next]) + [byte] == earlier + input[..next + 1];
      hold := hold + Shl(input[next], bits);
      bits := bits + 8;
      next := next + 1;
      assert Stream() == b + ToBits(byte, 8);
      TracksBits(Stream(), steps, abs, hold, bits);
      Fits32(hold, bits);
      ok := true;
    }

    method NeedBits(n: nat) returns (ok: bool)
      requires Shape() && InStep() && mode !in {COPY, DONE}
      requires n <= 25 || (n == 32 && bits % 8 == 0)
      requires abs.pos <= |Stream()| && Wants(abs, Unused(Stream(), abs), n)
      modifies this`next, this`hold, this`bits
      ensures Shape() && InStep() && Rest() == old(Rest()) && next >= old(next)
      ensures abs.pos <= |Stream()| && abs.pos <= |old(Stream())|
      ensures old(Unused(Stream(), abs)) <= Unused(Stream(), abs)
      ensures ok ==> bits >= n && bits % 8 == old(bits) % 8 && (n == 32 ==> bits % 8 == 0)
      ensures !ok ==> Starved()
    {
      hide Shape, InStep, Stream, Starved, Wants, Stuck, Next, Unused, ToBits, Shl;
      ShapeBounds();
      while bits < n
        invariant Shape() && InStep() && old(next) <= next <= |input| && bits % 8 == old(bits) % 8
        invariant Rest() == old(Rest())
        invariant abs.pos <= |Stream()| && Wants(abs, Unused(Stream(), abs), n)
        invariant old(Unused(Stream(), abs)) <= Unused(Stream(), abs)
        decreases n - bits
      {
        ghost var front := Unused(Stream(), abs);
        InStepBits();
        WantsNow(abs, front, n);
        var got := PullByte();
        ShapeBounds();
        if !got {
          StarvedNow();
          return false;
        }
        WantsMore(abs, front, ToBits(input[next - 1], 8), n);
      }
      ok := true;
    }
    lemma ShapeBounds()
      requires Shape()
      ensures next <= |input| && put <= output.Length
    {
    }

    lemma InStepBits()
      requires Shape() && InStep()
      ensures next <= |input| && put <= output.Length && mode == abs.mode && last == abs.last
      ensures abs.pos <= |Stream()| && |Unused(Stream(), abs)| == bits
    {
      hide Tracks, Unused, Stream;
      TracksBits(Stream(), steps, abs, hold, bits);
    }

    lemma StarvedNow()
      requires Shape() && next == |input| && abs.pos <= |Stream()| && Stuck(abs, Unused(Stream(), abs))
      ensures Starved()
    {
      hide Stuck, Unused, Stream;
    }

    // ---------- block headers ----------

    // fixedtables: the decoding tables of the fixed codes.
    method FixedTables()
      requires Shape()
      modifies this`lencode, this`lenbits, this`distcode, this`distat, this`distbits, lens, work
      ensures Decoding(lencode, 0, lenbits, LENS, FixedLit())
      ensures Decoding(distcode, distat, distbits, DISTS, FixedDist())
    {
      hide Shape, CodeOk, TableBuilt, FixedLit, FixedDist, Acceptable, Pow2;
      ShapeArrays();
      var fixed := new Entry[ENOUGH];
      FixedParts();
      FixedLitLens();
      lencode, lenbits := FixedTable(LENS, 288, fixed, 9, FixedLit());
      FixedDistLens();
      var dist := new Entry[ENOUGH];
      distcode, distbits := FixedTable(DISTS, 32, dist, 5, FixedDist());
      distat := 0;
    }

    lemma ShapeArrays()
      requires Shape()
      ensures lens.Length == 320 && work.Length == 288 && codes.Length == ENOUGH && lens != work
      ensures output != win.window && output != lens && output != work && win.window != lens && win.window != work
      ensures next <= |input| && put <= output.Length && IsBytes(input)
    {
    }

    method FixedLitLens()
      requires lens.Length == 320
      modifies lens
      ensures lens[..288] == FixedLit()
    {
      FillLens(0, 144, 8);
      ghost var a := lens[..144];
      FillLens(144, 256, 9);
      ghost var b := lens[..256];
      FillLens(256, 280, 7);
      ghost var c := lens[..280];
      FillLens(280, 288, 8);
      assert b == a + Times(9, 112) && c == b + Times(7, 24);
    }

    method FixedDistLens()
      requires lens.Length == 320
      modifies lens
      ensures lens[..32] == FixedDist()
    {
      FillLens(0, 32, 5);
    }

    method FillLens(sym: nat, end: nat, l: nat)
      requires sym <= end <= lens.Length
      modifies lens
      ensures lens[..end] == old(lens[..sym]) + Times(l, end - sym)
    {
      var k := sym;
      while k < end
        invariant sym <= k <= end && lens[..k] == old(lens[..sym]) + Times(l, k - sym)
      {
        TimesNext(l, k - sym);
        lens[k] := l;
        k := k + 1;
      }
    }

    method FixedTable(t: CodeType, n: nat, fixed: array<Entry>, bits: nat, ghost code: seq<nat>)
      returns (tab: seq<Entry>, root: nat)
      requires lens.Length == 320 && work.Length == 288 && lens != work && fixed.Length == ENOUGH && n <= 288
      requires lens[..n] == code && CodeOk(t, code) && !t.CODES?
      requires 1 <= bits <= 9 && Pow2(bits) <= Capacity(t) && forall i :: 0 <= i < |code| ==> code[i] <= bits
      modifies fixed, work
      ensures Decoding(tab, 0, root, t, code)
    {
      hide CodeOk, TableBuilt, Acceptable, Pow2, TableSize, RootWidth;
      CodeParts(t, code);
      ShortCodes(code, bits);
      var ret, used;
      ret, used, root := BuildTable(t, lens[..n], fixed, 0, bits, work);
      tab := fixed[..];
      RootBounds(tab, 0, root, used, t, code);
    }

    // DROPBITS(n), and on to the next mode.
    method Step(n: nat, m: Mode, l: bool, ghost e: State)
      requires Shape() && InStep() && abs.pos <= |Stream()| && Next(abs, Unused(Stream(), abs)) == Go(e, n)
      requires m == e.mode != BAD && l == e.last && e.out == abs.out && (m == COPY ==> n == bits)
      requires m == DONE ==> n == bits % 8
      modifies this`hold, this`bits, this`mode, this`last, this`abs, this`steps
      ensures Shape() && InStep() && abs == e && mode == m && last == l && n <= old(bits) && bits == old(bits) - n < 8
    {
      hide Shape, Stream, Total, Tracks, Next, Unused, Shr;
      ShapeBounds();
      TracksStep(Stream(), steps, abs, hold, bits, e, n);
      hold := Shr(hold, n);
      bits := bits - n;
      mode, last := m, l;
      abs, steps := e, steps + 1;
    }

    // The stream is in error.
    method Fail(n: nat)
      requires Shape() && InStep() && win.Valid() && n <= bits
      requires Failing(Stream(), abs) || TooFar(abs, win.size)
      modifies this`hold, this`bits, this`mode
      ensures Broken() && mode == BAD && bits == old(bits) - n
    {
      hide Shape, Stream, Total, Tracks, Next, Unused, Shr, Failing, Exact, win.Valid;
      ShapeBounds();
      TracksBits(Stream(), steps, abs, hold, bits);
      hold := Shr(hold, n);
      bits := bits - n;
      mode := BAD;
    }

    method DoType() returns (leave: bool)
      requires Running() && mode == TYPE
      modifies this`mode, this`last, this`hold, this`bits, this`next, this`abs, this`steps
      modifies this`lencode, this`lenbits, this`distcode, this`distat, this`distbits, lens, work
      ensures Shape() && Valid() && put == old(put) && next >= old(next)
      ensures leave ==> mode == TYPE && Starved()
      ensures !leave ==> Descends(old(Rest()), Left(), 1, Rest(), Left(), ModeRank(mode))
      ensures !leave ==> mode in {DONE, STORED, LEN, TABLE, BAD} && (mode == LEN ==> bits < 8)
    {
      hide Shape, InStep, Kept, Stream, Tracks, Next, win.Valid, Unused, Stuck, Starved, Total, Decoding, Exact,
           Failing;
      InStepBits();
      if last {
        LastBlock();
        return false;
      }
      TypeWants(abs, Unused(Stream(), abs));
      var ok := NeedBits(3);
      if !ok {
        return true;
      }
      BlockHeader();
      leave := false;
    }

    method LastBlock()
      requires Running() && mode == TYPE && last
      modifies this`mode, this`last, this`hold, this`bits, this`abs, this`steps
      ensures Shape() && Running() && mode == DONE && Rest() <= old(Rest())
    {
      hide Shape, InStep, Kept, Stream, Total, Tracks, Next, win.Valid, Unused, Decoding;
      InStepBits();
      TracksNow();
      ghost var e := TypeLast(Stream(), steps, abs, hold, bits);
      Step(bits % 8, DONE, last, e);
    }

    method BlockHeader()
      requires Running() && mode == TYPE && !last && bits >= 3
      modifies this`mode, this`last, this`hold, this`bits, this`abs, this`steps
      modifies this`lencode, this`lenbits, this`distcode, this`distat, this`distbits, lens, work
      ensures Shape() && Valid() && Rest() < old(Rest())
      ensures mode in {STORED, LEN, TABLE, BAD} && (mode == LEN ==> bits < 8)
    {
      hide Shape, InStep, Kept, Stream, Total, Tracks, Next, win.Valid, Unused, Decoding, Shr, Low, FixedLit, FixedDist;
      InStepBits();
      TracksNow();
      ghost var e := TypeNext(Stream(), steps, abs, hold, bits);
      var final := Low(hold, 1) == 1;
      match Low(Shr(hold, 1), 2)
      case 0 =>
        Step(3, STORED, final, e);
      case 1 =>
        ShapeArrays();
        FixedTables();
        Step(3, LEN, final, e);
      case 2 =>
        Step(3, TABLE, final, e);
      case _ =>
        HeaderFails(Stream(), abs);
        Fail(3);
        last := final;
    }

    lemma TracksNow()
      requires Shape() && InStep()
      ensures Tracks(Stream(), steps, abs, hold, bits) && Follows(Stream(), steps, abs, hold, bits)
      ensures Exact(Stream(), steps, abs) && Tight(Stream(), abs) && abs.out == Total()
      ensures mode in {COPY, DONE} ==> bits == 0
    {
      hide Total, Stream, Follows, Tight;
      TracksBits(Stream(), steps, abs, hold, bits);
    }

    // ---------- stored blocks ----------

    method DoStored() returns (leave: bool)
      requires Running() && mode == STORED
      modifies this`mode, this`last, this`hold, this`bits, this`next, this`length, this`abs, this`steps
      ensures Shape() && Valid() && put == old(put) && next >= old(next)
      ensures leave ==> mode == STORED && Starved()
      ensures !leave ==> Descends(old(Rest()), Left(), 3, Rest(), Left(), ModeRank(mode))
      ensures !leave ==> mode in {COPY, BAD}
    {
      hide Shape, InStep, Kept, Stream, Total, Tracks, Next, win.Valid, Unused, Shr, Low, Wants, Starved, Broken;
      ShapeBounds();
      ByteBits();
      ghost var rest := Rest();
      InStepBits();
      ShapeBounds();
      StoredWants();
      var ok := NeedBits(32);
      ShapeBounds();
      if !ok {
        return true;
      }
      StoredLengths();
      leave := false;
    }

    // BYTEBITS
    method ByteBits()
      requires Running() && mode == STORED
      modifies this`mode, this`last, this`hold, this`bits, this`abs, this`steps
      ensures Shape() && Running() && mode == STORED && bits % 8 == 0 && Rest() <= old(Rest())
    {
      hide Shape, InStep, Kept, Stream, Total, Tracks, Next, win.Valid, Unused, Shr, Low;
      InStepBits();
      TracksNow();
      ghost var e := StoredAlign(Stream(), steps, abs, hold, bits);
      if bits % 8 > 0 {
        Step(bits % 8, STORED, last, e);
      }
    }

    lemma StoredWants()
      requires Shape() && InStep() && mode == STORED && bits % 8 == 0
      ensures abs.pos <= |Stream()| && Wants(abs, Unused(Stream(), abs), 32)
    {
      hide Total, Shape, Tracks, Exact, Holding, ToBits, Pow2, Padding;
      InStepBits();
      TracksNow();
      TracksBits(Stream(), steps, abs, hold, bits);
      BytePlace(Stream(), abs.pos, hold, bits);
    }

    // At least the four length bytes are at hand: then they are all that is.
    lemma StoredHas()
      requires Shape() && InStep() && mode == STORED && bits % 8 == 0 && bits >= 32
      ensures bits == 32
    {
      hide Total, Shape, Tracks, Exact, Holding, ToBits, Pow2, Padding, FromBits, Stream;
      InStepBits();
      TracksNow();
      TracksBits(Stream(), steps, abs, hold, bits);
      BytePlace(Stream(), abs.pos, hold, bits);
    }

    method StoredLengths()
      requires Shape() && InStep() && win.Valid() && Kept() && mode == STORED && bits % 8 == 0 && bits >= 32
      modifies this`mode, this`last, this`hold, this`bits, this`length, this`abs, this`steps
      ensures Shape() && Valid() && (Rest() < old(Rest()) || (mode == BAD && Rest() == old(Rest())))
      ensures mode in {COPY, BAD}
    {
      hide Shape, InStep, Kept, Stream, Total, Tracks, Next, win.Valid, Unused, Shr, Low, Broken, Xor, Failing;
      InStepBits();
      StoredHas();
      TracksNow();
      ghost var e := StoredNext(Stream(), steps, abs, hold, bits);
      HighHalf(hold) by { TracksBits(Stream(), steps, abs, hold, bits); }
      if Low(hold, 16) != Xor(Shr(hold, 16), 0xffff) {
        Fail(0);
        return;
      }
      length := Low(hold, 16);
      Step(32, COPY, last, e);        // INITBITS: nothing else is held
    }

    // Stored bytes go straight from the input to the output.
    method DoCopy() returns (leave: bool)
      requires Running() && mode == COPY
      modifies this`mode, this`last, this`hold, this`bits, this`next, this`put, this`length, this`abs, this`steps
      modifies output
      ensures Shape() && Running() && put >= old(put) && next >= old(next)
      ensures Appended(old(output[..]), old(put), output[..], put)
      ensures leave ==> Starved() || Left() == 0
      ensures !leave ==> Descends(old(Rest()), old(Left()), 2, Rest(), Left(), ModeRank(mode))
      ensures !leave ==> mode in {COPY, TYPE}
    {
      hide Shape, InStep, Kept, Stream, Total, Tracks, Next, win.Valid, Unused, Starved;
      ShapeBounds();
      InStepBits();
      var copy := length;
      if copy == 0 {
        CopyDone();
        return false;
      }
      if copy > |input| - next {
        copy := |input| - next;
      }
      if copy > output.Length - put {
        copy := output.Length - put;
      }
      if copy == 0 {
        if next == |input| {
          CopyStarved();
        }
        return true;
      }
      CopyInput(copy);
      leave := false;
    }

    method CopyDone()
      requires Running() && mode == COPY && length == 0
      modifies this`mode, this`last, this`hold, this`bits, this`abs, this`steps
      ensures Shape() && Running() && mode == TYPE && Rest() == old(Rest())
    {
      hide Shape, InStep, Kept, Stream, Total, Tracks, Next, win.Valid, Unused, Exact;
      InStepBits();
      TracksNow();
      ghost var e := CopyEnds(Stream(), steps, abs);
      Step(0, TYPE, last, e);
    }

    lemma CopyStarved()
      requires Running() && mode == COPY && length > 0 && next == |input|
      ensures Starved()
    {
      hide Shape, InStep, Kept, Stream, Total, Tracks, win.Valid, FromBits;
      InStepBits();
      TracksNow();
    }

    method CopyInput(copy: nat)
      requires Running() && mode == COPY && 1 <= copy <= length
      requires next + copy <= |input| && put + copy <= output.Length
      modifies this`next, this`put, this`hold, this`length, this`abs, this`steps, output
      ensures Shape() && Running() && mode == COPY && next == old(next) + copy && put == old(put) + copy
      ensures Appended(old(output[..]), old(put), output[..], put)
    {
      hide *;
      RunningParts();
      CopyFields();
      ShapeArrays();
      InStepBits();
      ghost var e := CopyAbstract(copy);
      TakeInput(copy);
      abs, steps := e, steps + copy;
      InStepNow();
      CopyFields();
      RunningNow();
    }

    method TakeInput(copy: nat)
      requires Shape() && copy <= length && next + copy <= |input| && put + copy <= output.Length
      modifies this`next, this`put, this`hold, this`length, output
      ensures Shape() && next == old(next) + copy && put == old(put) + copy && length == old(length) - copy && hold == 0
      ensures Stream() == BytesBits(earlier + input[..next])
      ensures Total() == prior + (old(output[..put]) + input[old(next)..next])
      ensures Appended(old(output[..]), old(put), output[..], put)
    {
      hide Shape, Stream, Total, BytesBits, Appended;
      ShapeArrays();
      WriteInput(copy);
      next := next + copy;
      length := length - copy;
      hold := 0;
      ShapeNow();
      StreamIs();
      TotalIs();
    }

    lemma RunningParts()
      requires Running()
      ensures Shape() && InStep() && Fields() && win.Valid() && (mode != DONE ==> Kept())
    {
      hide Shape, InStep, Fields, win.Valid, Kept;
    }

    lemma RunningNow()
      requires Shape() && InStep() && Fields() && win.Valid() && (mode != DONE ==> Kept())
      ensures Running()
    {
      hide Shape, InStep, Fields, win.Valid, Kept;
    }

    lemma CopyFields()
      requires Shape() && mode == COPY
      ensures lens.Length == 320 && (Fields() <==> length == abs.length)
    {
    }

    lemma CopyAbstract(copy: nat) returns (e: State)
      requires Shape() && InStep() && mode == COPY && copy <= abs.length && next + copy <= |input|
      ensures Tracks(BytesBits(earlier + input[..next + copy]), steps + copy, e, 0, 0) && bits == 0
      ensures e.mode == COPY && e.length == abs.length - copy && e.last == last
      ensures e.out == prior + (output[..put] + input[next..next + copy])
    {
      hide Shape, InStep, Stream, Total, Tracks, Exact, Follows, BytesBits, Tight;
      ShapeArrays();
      InStepBits();
      TracksNow();
      HoldNone();
      StreamIs();
      TotalIs();
      ghost var s, data := earlier + input[..next], input[next..next + copy];
      e := CopyRun(s, steps, abs, data);
      ByteBound(s + data, steps + copy, e);
      assert s + data == earlier + input[..next + copy];
      assert (prior + output[..put]) + data == prior + (output[..put] + data);
    }

    // The decoder is in step with the abstract one.
    lemma InStepNow()
      requires Shape() && mode == abs.mode && mode != BAD && last == abs.last && abs.out == Total()
      requires Tracks(Stream(), steps, abs, hold, bits) && (mode in {COPY, DONE} ==> bits == 0)
      ensures InStep()
    {
      hide Shape, Stream, Total, Tracks;
    }

    // zmemcpy from the input.
    method WriteInput(copy: nat)
      requires next + copy <= |input| && put + copy <= output.Length
      modifies this`put, output
      ensures put == old(put) + copy
      ensures output[..put] == old(output[..put]) + input[next..next + copy]
      ensures Appended(old(output[..]), old(put), output[..], put)
    {
      ghost var was := output[..];
      for i := 0 to copy
        invariant put == old(put) && output[..put + i] == was[..put] + input[next..next + i]
        invariant output[put + i..] == was[put + i..]
      {
        output[put + i] := input[next + i];
      }
      put := put + copy;
    }

    lemma TotalIs()
      requires put <= output.Length
      ensures Total() == prior + output[..put]
    {
    }

    lemma StreamIs()
      requires next <= |input|
      ensures Stream() == BytesBits(earlier + input[..next])
    {
    }

    lemma HoldNone()
      requires Shape() && InStep() && bits == 0
      ensures hold == 0
    {
      hide Shape, Stream, Total, Tracks, Follows, Holding, Exact;
      ShapeBounds();
      TracksNow();
      TracksBits(Stream(), steps, abs, hold, bits);
    }

    // The buffers are in order.
    lemma ShapeNow()
      requires lens.Length == 320 && work.Length == 288 && codes.Length == ENOUGH
      requires lens != work && win.window != lens && win.window != work
      requires output != win.window && output != lens && output != work
      requires next <= |input| && put <= output.Length && IsBytes(input)
      ensures Shape()
    {
    }

    // ---------- dynamic block headers ----------

    method DoTable() returns (leave: bool)
      requires Running() && mode == TABLE
      modifies this`mode, this`last, this`hold, this`bits, this`next, this`abs, this`steps
      modifies this`nlen, this`ndist, this`ncode, this`have
      ensures Shape() && Valid() && put == old(put) && next >= old(next)
      ensures leave ==> mode == TABLE && Starved()
      ensures !leave ==> Descends(old(Rest()), Left(), 1, Rest(), Left(), ModeRank(mode))
      ensures !leave ==> mode in {LENLENS, BAD}
    {
      hide Shape, InStep, Kept, Stream, Total, Tracks, Next, win.Valid, Unused, Shr, Low, Wants, Starved, Broken;
      InStepBits();
      TableWants(abs, Unused(Stream(), abs));
      var ok := NeedBits(14);
      if !ok {
        return true;
      }
      TableSizes();
      leave := false;
    }

    method TableSizes()
      requires Shape() && InStep() && win.Valid() && Kept() && mode == TABLE && bits >= 14
      modifies this`mode, this`last, this`hold, this`bits, this`abs, this`steps
      modifies this`nlen, this`ndist, this`ncode, this`have
      ensures Shape() && Valid() && Rest() < old(Rest())
      ensures mode in {LENLENS, BAD}
    {
      hide Shape, InStep, Kept, Stream, Total, Tracks, Next, win.Valid, Unused;
      hide Shr, Low, Broken, Failing, Fields, Exact;
      ghost var e := SizesNow();
      nlen := Low(hold, 5) + 257;
      ndist := Low(Shr(hold, 5), 5) + 1;
      ncode := Low(Shr(hold, 10), 4) + 4;
      if nlen > 286 || ndist > 30 {
        Fail(14);
        return;
      }
      have := 0;
      Step(14, LENLENS, last, e);
      LenLensStart();
    }

    lemma SizesNow() returns (e: State)
      requires Shape() && InStep() && mode == TABLE && bits >= 14
      ensures abs.pos <= |Stream()|
      ensures var n, d := Low(hold, 5) + 257, Low(Shr(hold, 5), 5) + 1;
              && (n > 286 || d > 30 ==> Failing(Stream(), abs))
              && (n <= 286 && d <= 30 ==> Next(abs, Unused(Stream(), abs)) == Go(e, 14))
      ensures e.mode == LENLENS && e.last == last && e.out == abs.out && e.cl == []
      ensures e.nlen == Low(hold, 5) + 257 && e.ndist == Low(Shr(hold, 5), 5) + 1
      ensures e.ncode == Low(Shr(hold, 10), 4) + 4
    {
      hide Shape, Stream, Total, Tracks, Next, Unused, Shr, Low, Failing, Exact, Follows, Tight;
      InStepBits();
      TracksNow();
      e := TableNext(Stream(), steps, abs, hold, bits);
      e := abs.(pos := abs.pos + 14, mode := LENLENS, nlen := Low(hold, 5) + 257, ndist := Low(Shr(hold, 5), 5) + 1,
                ncode := Low(Shr(hold, 10), 4) + 4, cl := []);
    }

    method DoLenLens() returns (leave: bool)
      requires Running() && mode == LENLENS
      modifies this`mode, this`last, this`hold, this`bits, this`next, this`abs, this`steps
      modifies this`have, this`lencode, this`lenbits, lens, work, codes
      ensures Shape() && Valid() && put == old(put) && next >= old(next)
      ensures leave ==> mode == LENLENS && Starved()
      ensures !leave ==> Descends(old(Rest()), Left(), 6, Rest(), Left(), ModeRank(mode))
      ensures !leave ==> mode in {CODELENS, BAD}
    {
      hide Shape, InStep, Fields, Permuted, Kept, Stream, Total, Tracks, Next, win.Valid, Unused, Starved, Broken;
      ShapeArrays();
      LenLensFields();
      while have < ncode
        invariant Shape() && InStep() && win.Valid() && Kept() && mode == LENLENS
        invariant next <= |input| && put <= output.Length && lens.Length == 320
        invariant Rest() <= old(Rest()) && old(next) <= next
        invariant nlen == abs.nlen && ndist == abs.ndist && ncode == abs.ncode && Permuted()
        decreases Rest()
      {
        var got := ReadLenLen();
        ShapeArrays();
        if !got {
          LenLensFields();
          return true;
        }
      }
      LenLensTable();
      leave := false;
    }

    lemma LenLensStart()
      requires Shape() && mode == LENLENS && have == 0 && abs.cl == []
      requires nlen == abs.nlen && ndist == abs.ndist && ncode == abs.ncode
      ensures Fields()
    {
    }

    lemma LenLensFields()
      requires Shape() && mode == LENLENS
      ensures lens.Length == 320
      ensures Fields() <==> nlen == abs.nlen && ndist == abs.ndist && ncode == abs.ncode && Permuted()
    {
      hide Permuted;
    }

    // One code length code length.
    method ReadLenLen() returns (got: bool)
      requires Shape() && InStep() && mode == LENLENS && Permuted() && have < ncode == abs.ncode
      modifies this`mode, this`last, this`hold, this`bits, this`next, this`abs, this`steps, this`have, lens
      ensures Shape() && InStep() && mode == LENLENS && Permuted() && next >= old(next)
      ensures abs.ncode == old(abs.ncode) && abs.nlen == old(abs.nlen) && abs.ndist == old(abs.ndist)
      ensures got ==> Rest() < old(Rest())
      ensures !got ==> Starved() && Rest() == old(Rest())
    {
      hide Shape, InStep, Stream, Total, Tracks, Next, Unused, Starved, Low, OrderAt;
      ShapeArrays();
      InStepBits();
      LenLensBounds();
      LenLensWants(abs, Unused(Stream(), abs));
      got := NeedBits(3);
      ShapeArrays();
      if got {
        InStepBits();
        TracksNow();
        ghost var e := LenLensNext(Stream(), steps, abs, hold, bits);
        OrderDistinct(have);
        OrderTable(have);
        lens[ORDER[have]] := Low(hold, 3);
        have := have + 1;
        Step(3, LENLENS, last, e);
      }
    }

    lemma LenLensBounds()
      requires Shape() && InStep() && mode == LENLENS
      ensures CountsOk(abs) && |abs.cl| <= abs.ncode && forall i :: 0 <= i < |abs.cl| ==> abs.cl[i] < 8
    {
      hide Shape, Stream, Total, Tracks;
      ShapeBounds();
      TracksNow();
      TracksBits(Stream(), steps, abs, hold, bits);
    }

    method LenLensTable()
      requires Shape() && InStep() && win.Valid() && Kept() && mode == LENLENS && Permuted()
      requires have >= ncode == abs.ncode
      requires nlen == abs.nlen && ndist == abs.ndist
      modifies this`mode, this`last, this`hold, this`bits, this`abs, this`steps
      modifies this`have, this`lencode, this`lenbits, lens, work, codes
      ensures Shape() && Valid() && mode in {CODELENS, BAD} && Rest() <= old(Rest())
    {
      hide Shape, InStep, Kept, Stream, Total, Tracks, Next, win.Valid, Unused, Broken, Exact, Failing, Permute,
           Decoding;
      hide Acceptable, Permuted, Fields;
      ShapeArrays();
      PermutedHave();
      LenLensBounds();
      InStepBits();
      TracksNow();
      ghost var e := LenLensEnds(Stream(), steps, abs);
      var ret := BuildLengthsCode();
      if ret != 0 {
        Fail(0);
        return;
      }
      have := 0;
      assert lens[..0] == [];
      Step(0, CODELENS, last, e);
      CodeLensFields();
    }

    lemma PermutedHave()
      requires lens.Length == 320 && Permuted()
      ensures have == |abs.cl|
    {
    }

    lemma CodeLensFields()
      requires Shape() && mode == CODELENS
      ensures lens.Length == 320 && (Fields() <==> Lengths())
    {
      hide Lengths;
    }

    method BuildLengthsCode() returns (ret: int)
      requires lens.Length == 320 && work.Length == 288 && codes.Length == ENOUGH && lens != work && Permuted()
      requires forall i :: 0 <= i < |abs.cl| ==> abs.cl[i] < 8
      modifies this`have, this`lencode, this`lenbits, lens, work, codes
      ensures ret == 0 <==> Acceptable(CODES, Permute(abs.cl))
      ensures ret == 0 ==> Decoding(lencode, 0, lenbits, CODES, Permute(abs.cl))
    {
      hide Permuted, Permute, Acceptable, TableBuilt, Decoding;
      FillLenLens();
      PermuteOk(abs.cl);
      var used;
      ret, used, lenbits := BuildTable(CODES, lens[..19], codes, 0, 7, work);
      lencode := codes[..];
      if ret == 0 {
        NewDecoding(lencode, 0, lenbits, used, CODES, Permute(abs.cl));
      }
    }

    // The lengths that were not sent are zero.
    method FillLenLens()
      requires lens.Length == 320 && Permuted()
      modifies this`have, lens
      ensures lens[..19] == Permute(abs.cl)
    {
      hide OrderAt, PlaceAt;
      ghost var n := have;
      while have < 19
        invariant n <= have <= 19 && n == |abs.cl|
        invariant forall i :: 0 <= i < n ==> lens[OrderAt(i)] == abs.cl[i]
        invariant forall i :: n <= i < have ==> lens[OrderAt(i)] == 0
      {
        OrderDistinct(have);
        OrderTable(have);
        lens[ORDER[have]] := 0;
        have := have + 1;
      }
      forall s | 0 <= s < 19 ensures lens[s] == Permute(abs.cl)[s] {
        PlaceOrder(s);
      }
    }

    // ---------- code lengths ----------

    method DoCodeLens() returns (leave: bool)
      requires Running() && mode == CODELENS
      modifies this`mode, this`last, this`hold, this`bits, this`next, this`abs, this`steps, this`have
      modifies this`lencode, this`lenbits, this`distcode, this`distat, this`distbits, lens, work, codes
      ensures Shape() && Valid() && put == old(put) && next >= old(next)
      ensures leave ==> mode == CODELENS && Starved()
      ensures !leave ==> Descends(old(Rest()), Left(), 5, Rest(), Left(), ModeRank(mode))
      ensures !leave ==> mode in {LEN, BAD} && (mode == LEN ==> bits < 8)
    {
      hide Shape, InStep, Fields, Lengths, Kept, Stream, Total, Tracks, Next, win.Valid, Unused, Starved, Broken;
      ShapeArrays();
      CodeLensFields();
      while have < nlen + ndist
        invariant Shape() && InStep() && win.Valid() && Kept() && mode == CODELENS
        invariant next <= |input| && put <= output.Length && lens.Length == 320 && Lengths()
        invariant Rest() <= old(Rest()) && old(next) <= next
        decreases Rest()
      {
        var got := ReadLength();
        if mode == BAD {
          ShapeOf();
          return false;
        }
        ShapeArrays();
        if !got {
          CodeLensFields();
          return true;
        }
      }
      CodesTables();
      leave := false;
    }

    lemma ShapeOf()
      requires Broken()
      ensures Shape() && next <= |input| && put <= output.Length
    {
      hide Stream, Total, win.Valid, Exact, Failing;
    }

    // One code length symbol: a length or a run of lengths.
    method ReadLength() returns (got: bool)
      requires Shape() && InStep() && win.Valid() && mode == CODELENS && Lengths() && have < nlen + ndist
      modifies this`mode, this`last, this`hold, this`bits, this`next, this`abs, this`steps, this`have, lens
      ensures mode in {CODELENS, BAD} && next >= old(next) && Shape()
      ensures mode == BAD ==> got && Broken() && Rest() <= old(Rest())
      ensures mode == CODELENS ==>
        InStep() && Lengths() && (if got then Rest() < old(Rest()) else Starved() && Rest() == old(Rest()))
    {
      hide Shape, InStep, Lengths, Stream, Total, Tracks, Next, win.Valid, Unused, Starved, Broken, LengthSymbol, Ok,
           Wants;
      ShapeArrays();
      LengthsParts();
      InStepBits();
      var here;
      got, here := LookupLength();
      ShapeArrays();
      InStepBits();
      if !got {
        return;
      }
      if here.val < 16 {
        OneLength(here);
      } else {
        got := ReadRepeat(here);
      }
    }

    method ReadRepeat(here: Entry) returns (got: bool)
      requires Shape() && InStep() && win.Valid() && mode == CODELENS && Lengths() && have < nlen + ndist
      requires abs.pos <= |Stream()| && LengthSymbol(abs, Unused(Stream(), abs), here.val, here.bits)
      requires 16 <= here.val < 19 && 1 <= here.bits <= MAXBITS
      modifies this`mode, this`last, this`hold, this`bits, this`next, this`abs, this`steps, this`have, lens
      ensures mode in {CODELENS, BAD} && next >= old(next) && Shape()
      ensures mode == BAD ==> got && Broken() && Rest() <= old(Rest())
      ensures mode == CODELENS ==>
        InStep() && Lengths() && (if got then Rest() < old(Rest()) else Starved() && Rest() == old(Rest()))
    {
      hide Shape, InStep, Lengths, Stream, Total, Tracks, Next, win.Valid, Unused, Starved, Broken, LengthSymbol, Ok,
           Wants;
      ShapeBounds();
      InStepBits();
      ghost var front := Unused(Stream(), abs);
      LengthWants(here);
      got := NeedBits(here.bits + RepeatBits(here.val));
      ShapeArrays();
      if got {
        FrontMore(front, here);
        RunOfLengths(here);
      }
    }

    lemma LengthsParts()
      requires Shape() && InStep() && mode == CODELENS && Lengths()
      ensures nlen == abs.nlen && ndist == abs.ndist && have == |abs.lens| && Ok(abs) && CountsOk(abs)
      ensures have <= nlen + ndist <= 316 && lens[..have] == abs.lens && Decoding(lencode, 0, lenbits, CODES, abs.bl)
    {
      hide Shape, Stream, Total, Tracks, Decoding, CodeOk;
      ShapeBounds();
      TracksNow();
      TracksBits(Stream(), steps, abs, hold, bits);
    }

    lemma LengthWants(here: Entry)
      requires Shape() && InStep() && mode == CODELENS && Lengths() && have < nlen + ndist
      requires abs.pos <= |Stream()| && LengthSymbol(abs, Unused(Stream(), abs), here.val, here.bits)
      requires 16 <= here.val < 19
      ensures Wants(abs, Unused(Stream(), abs), here.bits + RepeatBits(here.val))
    {
      hide Shape, InStep, Lengths, Stream, Total, Tracks, Next, Unused, LengthSymbol, Ok;
      ShapeBounds();
      InStepBits();
      LengthsParts();
      RepeatWants(abs, Unused(Stream(), abs), here.val, here.bits, here.bits + RepeatBits(here.val));
    }

    lemma FrontMore(front: seq<bool>, here: Entry)
      requires Shape() && InStep() && mode == CODELENS && Lengths()
      requires abs.pos <= |Stream()| && front <= Unused(Stream(), abs) && LengthSymbol(abs, front, here.val, here.bits)
      ensures LengthSymbol(abs, Unused(Stream(), abs), here.val, here.bits)
    {
      hide Shape, InStep, Lengths, Stream, Total, Tracks, Unused, LengthSymbol, Ok;
      ShapeBounds();
      InStepBits();
      LengthsParts();
      LengthSymbolMore(abs, front, here.val, here.bits, Unused(Stream(), abs)[|front|..]);
      assert front + Unused(Stream(), abs)[|front|..] == Unused(Stream(), abs);
    }

    // Look the next bits up, taking in as many bytes as it takes.
    method LookupLength() returns (got: bool, here: Entry)
      requires Shape() && InStep() && mode == CODELENS && Lengths() && have < nlen + ndist
      modifies this`next, this`hold, this`bits
      ensures Shape() && InStep() && next >= old(next) && Rest() == old(Rest()) && abs.pos <= |Stream()|
      ensures got ==> here.bits <= bits && 1 <= here.bits <= MAXBITS && here.val < 19
      ensures got ==> LengthSymbol(abs, Unused(Stream(), abs), here.val, here.bits)
      ensures !got ==> Starved()
    {
      hide Shape, InStep, Lengths, Stream, Total, Tracks, Next, Unused, Starved, Stuck, LengthSymbol, Ok, Low, Shl,
           ToBits, Decoding;
      ShapeArrays();
      LengthsParts();
      InStepBits();
      here := Entry(0, 0, 0);
      while true
        invariant Shape() && InStep() && old(next) <= next <= |input| && Rest() == old(Rest()) && abs.pos <= |Stream()|
        decreases |input| - next
      {
        LengthAt();
        here := lencode[Low(hold, lenbits)];
        if here.bits <= bits {
          return true, here;
        }
        var ok := PullByte();
        ShapeBounds();
        if !ok {
          StarvedNow();
          return false, here;
        }
      }
    }

    lemma LengthAt()
      requires Shape() && InStep() && mode == CODELENS && |abs.lens| < abs.nlen + abs.ndist
      requires Decoding(lencode, 0, lenbits, CODES, abs.bl)
      ensures abs.pos <= |Stream()| && Low(hold, lenbits) < |lencode|
      ensures var here := lencode[Low(hold, lenbits)];
              && (here.bits > bits ==> bits <= 24 && Stuck(abs, Unused(Stream(), abs)))
              && (here.bits <= bits ==>
                   here.val < 19 && 1 <= here.bits <= MAXBITS && 
                   LengthSymbol(abs, Unused(Stream(), abs), here.val, here.bits))
    {
      hide Shape, Stream, Total, Tracks, Next, Unused, Stuck, LengthSymbol, Low, Follows, Decoding;
      ShapeBounds();
      TracksNow();
      LengthFound(Stream(), steps, abs, hold, bits, lencode, lenbits);
    }

    method OneLength(here: Entry)
      requires Shape() && InStep() && mode == CODELENS && Lengths() && have < nlen + ndist && here.bits <= bits
      requires abs.pos <= |Stream()| && LengthSymbol(abs, Unused(Stream(), abs), here.val, here.bits) && here.val < 16
      requires here.bits >= 1
      modifies this`mode, this`last, this`hold, this`bits, this`abs, this`steps, this`have, lens
      ensures Shape() && InStep() && mode == CODELENS && Lengths() && Rest() < old(Rest())
    {
      hide Shape, InStep, Stream, Total, Tracks, Next, Unused, LengthSymbol, Ok, Decoding;
      ShapeArrays();
      LengthsParts();
      InStepBits();
      TracksNow();
      ghost var e := PlainLength(Stream(), steps, abs, hold, bits, here.val, here.bits);
      lens[have] := here.val;
      have := have + 1;
      Step(here.bits, CODELENS, last, e);
    }

    method RunOfLengths(here: Entry)
      requires Shape() && InStep() && win.Valid() && mode == CODELENS && Lengths() && have < nlen + ndist
      requires here.bits + RepeatBits(here.val) <= bits && 16 <= here.val < 19 && here.bits >= 1
      requires abs.pos <= |Stream()| && LengthSymbol(abs, Unused(Stream(), abs), here.val, here.bits)
      modifies this`mode, this`last, this`hold, this`bits, this`abs, this`steps, this`have, lens
      ensures Shape() && mode in {CODELENS, BAD} && Rest() < old(Rest())
      ensures mode == BAD ==> Broken()
      ensures mode == CODELENS ==> InStep() && Lengths()
    {
      hide Shape, InStep, Stream, Total, Tracks, Next, Unused, LengthSymbol, Ok, Decoding, win.Valid, Broken, Low,
           Shr, Failing, Times;
      ShapeArrays();
      LengthsParts();
      InStepBits();
      TracksNow();
      ghost var e := RepeatLength(Stream(), steps, abs, hold, bits, here.val, here.bits);
      var n := here.bits + RepeatBits(here.val);
      if here.val == 16 && have == 0 {
        Fail(here.bits);
        return;
      }
      var len := if here.val == 16 then lens[have - 1] else 0;
      var copy := RepeatBase(here.val) + Low(Shr(hold, here.bits), RepeatBits(here.val));
      if have + copy > nlen + ndist {
        Fail(n);
        return;
      }
      AcceptRun(len, copy, n, e);
    }

    method AcceptRun(len: nat, copy: nat, n: nat, ghost e: State)
      requires Shape() && InStep() && mode == CODELENS && Lengths() && have + copy <= lens.Length && 1 <= n
      requires abs.pos <= |Stream()| && Next(abs, Unused(Stream(), abs)) == Go(e, n)
      requires e == abs.(pos := e.pos, lens := abs.lens + Times(len, copy))
      modifies this`mode, this`last, this`hold, this`bits, this`abs, this`steps, this`have, lens
      ensures Shape() && InStep() && mode == CODELENS && Lengths() && bits < old(bits)
    {
      hide Shape, InStep, Stream, Total, Next, Unused, Decoding, Times;
      ShapeArrays();
      InStepBits();
      AppendLengths(len, copy);
      Step(n, CODELENS, last, e);
    }

    method AppendLengths(len: nat, count: nat)
      requires have + count <= lens.Length
      modifies this`have, lens
      ensures have == old(have) + count && lens[..have] == old(lens[..have]) + Times(len, count)
    {
      var copy: nat := count;
      while copy > 0
        invariant copy <= count && have == old(have) + count - copy && have + copy <= lens.Length
        invariant lens[..have] == old(lens[..have]) + Times(len, count - copy)
      {
        TimesNext(len, count - copy);
        lens[have] := len;
        have := have + 1;
        copy := copy - 1;
      }
    }

    // All code lengths are there: build the tables.
    method CodesTables()
      requires Shape() && InStep() && win.Valid() && Kept() && mode == CODELENS && Lengths() && have >= nlen + ndist
      modifies this`mode, this`last, this`hold, this`bits, this`abs, this`steps
      modifies this`lencode, this`lenbits, this`distcode, this`distat, this`distbits, work, codes
      ensures Shape() && Valid() && mode in {LEN, BAD} && Rest() <= old(Rest())
      ensures mode == LEN ==> bits < 8
    {
      hide Shape, InStep, Kept, Stream, Total, Tracks, Next, win.Valid, Unused, Broken, Exact, Failing, Decoding,
           Acceptable;
      ShapeArrays();
      LengthsParts();
      InStepBits();
      TracksNow();
      ghost var e := LengthsEnd(Stream(), steps, abs);
      EndOfBlock();
      if lens[256] == 0 {
        Fail(0);
        return;
      }
      var ret := BuildTables();
      if ret != 0 {
        Fail(0);
        return;
      }
      Step(0, LEN, last, e);
    }

    lemma EndOfBlock()
      requires lens.Length == 320 && 256 < have <= 320 && lens[..have] == abs.lens
      ensures lens[256] == abs.lens[256]
    {
    }

    // The tables of both codes; there is always room for them.
    method BuildTables() returns (ret: int)
      requires lens.Length == 320 && work.Length == 288 && codes.Length == ENOUGH && lens != work
      requires CountsOk(abs) && LengthsOk(abs.lens) && nlen == abs.nlen && ndist == abs.ndist
      requires have == |abs.lens| == nlen + ndist && lens[..have] == abs.lens
      modifies this`lencode, this`lenbits, this`distcode, this`distat, this`distbits, work, codes
      ensures ret == 0 <==> Acceptable(LENS, abs.lens[..abs.nlen]) && Acceptable(DISTS, abs.lens[abs.nlen..])
      ensures ret == 0 ==> Decoding(lencode, 0, lenbits, LENS, abs.lens[..abs.nlen])
      ensures ret == 0 ==> Decoding(distcode, distat, distbits, DISTS, abs.lens[abs.nlen..])
    {
      hide Acceptable, TableBuilt, Decoding, TableSize, RootWidth;
      assert lens[..nlen] == abs.lens[..nlen] && lens[nlen..nlen + ndist] == abs.lens[nlen..];
      BothEnough(abs);
      var used;
      ret, used, lenbits := BuildTable(LENS, lens[..nlen], codes, 0, 9, work);
      lencode := codes[..];
      if ret != 0 {
        return;
      }
      NewDecoding(lencode, 0, lenbits, used, LENS, abs.lens[..nlen]);
      SpaceUsed(lencode, 0, lenbits, used, LENS, abs.lens[..nlen]);
      distat := used;
      ret, used, distbits := BuildTable(DISTS, lens[nlen..nlen + ndist], codes, used, 6, work);
      distcode := codes[..];
      if ret == 0 {
        NewDecoding(distcode, distat, distbits, used, DISTS, abs.lens[nlen..]);
      }
    }

    // ---------- literals, lengths and distances ----------

    // The table in use is the one for the code that comes next.
    ghost predicate CodeTable(tab: seq<Entry>, start: nat, root: nat)
      reads this`mode, this`abs
    {
      || (mode == LEN && start == 0 && Decoding(tab, start, root, LENS, abs.ll))
      || (mode == DIST && Decoding(tab, start, root, DISTS, abs.dl))
    }

    // Look up the next code: the root table, then perhaps a sub-table.
    method DecodeCode(tab: seq<Entry>, start: nat, root: nat) returns (got: bool, d: Decoded)
      requires Shape() && InStep() && mode in {LEN, DIST} && CodeTable(tab, start, root)
      modifies this`next, this`hold, this`bits
      ensures Shape() && InStep() && next >= old(next) && Rest() == old(Rest())
      ensures InTable(tab, start, root, hold)
      ensures got ==> d == Lookup(tab, start, root, hold) && 1 <= d.bits <= bits
      ensures !got ==> Starved()
    {
      hide Shape, InStep, CodeTable, Stream, Total, Tracks, Next, Unused, Starved, Stuck, Low, Shr, Shl, ToBits;
      var here;
      got, here := RootEntry(tab, start, root);
      ShapeBounds();
      CodeAt(tab, start, root);
      d := Decoded(here.op, here.val, here.bits);
      if got && IsLink(here) {
        got, d := SubEntry(tab, start, root, here);
      }
    }

    method RootEntry(tab: seq<Entry>, start: nat, root: nat) returns (got: bool, here: Entry)
      requires Shape() && InStep() && mode in {LEN, DIST} && CodeTable(tab, start, root)
      modifies this`next, this`hold, this`bits
      ensures Shape() && InStep() && next >= old(next) && Rest() == old(Rest())
      ensures got ==> start + Low(hold, root) < |tab| && here == tab[start + Low(hold, root)] && here.bits <= bits
      ensures !got ==> Starved()
    {
      hide Shape, InStep, CodeTable, Stream, Total, Tracks, Next, Unused, Starved, Stuck, Low, Shr, Shl, ToBits;
      ShapeBounds();
      InStepBits();
      while true
        invariant Shape() && InStep() && old(next) <= next <= |input| && Rest() == old(Rest())
        invariant mode in {LEN, DIST} && CodeTable(tab, start, root)
        decreases |input| - next
      {
        CodeAt(tab, start, root);
        here := tab[start + Low(hold, root)];
        if here.bits <= bits {
          return true, here;
        }
        var ok := PullByte();
        ShapeBounds();
        if !ok {
          StarvedNow();
          return false, here;
        }
      }
    }

    method SubEntry(tab: seq<Entry>, start: nat, root: nat, link: Entry) returns (got: bool, d: Decoded)
      requires Shape() && InStep() && mode in {LEN, DIST} && CodeTable(tab, start, root) && IsLink(link)
      requires start + Low(hold, root) < |tab| && link == tab[start + Low(hold, root)] && link.bits == root <= bits
      modifies this`next, this`hold, this`bits
      ensures Shape() && InStep() && next >= old(next) && Rest() == old(Rest())
      ensures InTable(tab, start, root, hold)
      ensures got ==> d == Lookup(tab, start, root, hold) && 1 <= d.bits <= bits
      ensures !got ==> Starved()
    {
      hide Shape, InStep, CodeTable, Stream, Total, Tracks, Next, Unused, Starved, Stuck, Low, Shr, Shl, ToBits;
      ShapeBounds();
      InStepBits();
      ghost var low := Low(hold, root);
      while true
        invariant Shape() && InStep() && old(next) <= next <= |input| && Rest() == old(Rest())
        invariant mode in {LEN, DIST} && CodeTable(tab, start, root) && root <= bits
        invariant Low(hold, root) == low
        decreases |input| - next
      {
        CodeAt(tab, start, root);
        LowOfShr(hold, link.bits, link.op);
        var here := tab[start + link.val + Shr(Low(hold, link.bits + link.op), link.bits)];
        d := Decoded(here.op, here.val, link.bits + here.bits);
        if link.bits + here.bits <= bits {
          return true, d;
        }
        var ok := PullAbove(root);
        ShapeBounds();
        if !ok {
          StarvedNow();
          return false, d;
        }
      }
    }

    // Another byte, which does not change the bits already there.
    method PullAbove(n: nat) returns (ok: bool)
      requires Shape() && InStep() && n <= bits <= 24 && mode in {LEN, DIST}
      requires abs.pos <= |Stream()| && Stuck(abs, Unused(Stream(), abs))
      modifies this`next, this`hold, this`bits
      ensures Shape() && InStep() && next >= old(next) && Rest() == old(Rest()) && bits >= old(bits)
      ensures Low(hold, n) == Low(old(hold), n)
      ensures ok ==> next > old(next)
      ensures !ok ==> next == old(next) == |input| && hold == old(hold) && bits == old(bits)
    {
      hide Shape, InStep, Stream, Total, Next, Unused, Stuck, Low, Shl, ToBits;
      ShapeBounds();
      HoldBound();
      ok := PullByte();
      ShapeBounds();
      if ok {
        LowPulled(hold, input[next - 1], bits - 8, n);
      }
    }

    lemma HoldBound()
      requires Shape() && InStep()
      ensures hold < Pow2(bits)
    {
      hide Shape, Stream, Total, Tracks, Pow2;
      ShapeBounds();
      TracksBits(Stream(), steps, abs, hold, bits);
    }

    lemma CodeAt(tab: seq<Entry>, start: nat, root: nat)
      requires Shape() && InStep() && CodeTable(tab, start, root)
      ensures abs.pos <= |Stream()| && InTable(tab, start, root, hold) && Route(tab, start, root, hold)
      ensures Lookup(tab, start, root, hold).bits <= bits ==> Lookup(tab, start, root, hold).bits >= 1
      ensures Lookup(tab, start, root, hold).bits > bits ==> bits <= 24 && Stuck(abs, Unused(Stream(), abs))
    {
      hide Shape, InStep, Stream, Total, Tracks, Next, Unused, Stuck, Low, Shr, Decoding, InTable, LenOutcome,
           DistOutcome, Lookup;
      InStepBits();
      TracksNow();
      if mode == LEN {
        var e := LenNext(Stream(), steps, abs, hold, bits, tab, root);
      } else {
        var e := DistNext(Stream(), steps, abs, hold, bits, tab, start, root);
      }
      RouteBits(tab, start, root, hold);
    }

    lemma TablesFields()
      requires Shape() && mode in {LEN, LENEXT, DIST, DISTEXT, MATCH, LIT}
      ensures lens.Length == 320
      ensures Fields() <==>
        && Tables()
        && (mode in {LENEXT, DIST, DISTEXT, MATCH, LIT} ==> length == abs.length)
        && (mode in {LENEXT, DISTEXT} ==> extra == abs.extra)
        && (mode in {DISTEXT, MATCH} ==> offset == abs.offset)
    {
      hide Tables;
    }

    method SlowLen() returns (leave: bool)
      requires Running() && mode == LEN
      modifies this`mode, this`last, this`hold, this`bits, this`next, this`abs, this`steps, this`length, this`extra
      ensures Shape() && Valid() && next >= old(next)
      ensures leave ==> mode == LEN && Starved()
      ensures !leave ==> Rest() < old(Rest())
      ensures !leave ==> mode in {LIT, TYPE, LENEXT, BAD}
    {
      hide Shape, InStep, Fields, Kept, Stream, Total, Tracks, Next, win.Valid, Unused, Starved, Broken, InTable,
           Lookup, Decoding;
      InStepBits();
      TablesFields();
      var got, d := DecodeCode(lencode, 0, lenbits);
      ShapeBounds();
      if !got {
        TablesFields();
        return true;
      }
      UseLength(d);
      leave := false;
    }

    // A literal, the end of the block, a length, or an invalid code.
    method UseLength(d: Decoded)
      requires Shape() && InStep() && win.Valid() && Kept() && Tables() && mode == LEN
      requires InTable(lencode, 0, lenbits, hold) && d == Lookup(lencode, 0, lenbits, hold) && 1 <= d.bits <= bits
      modifies this`mode, this`last, this`hold, this`bits, this`abs, this`steps, this`length, this`extra
      ensures Shape() && Valid() && Rest() < old(Rest())
      ensures mode in {LIT, TYPE, LENEXT, BAD}
    {
      hide Shape, InStep, Fields, Kept, Stream, Total, Tracks, Next, win.Valid, Unused, Broken, InTable, Lookup,
           Decoding, Failing;
      ShapeBounds();
      InStepBits();
      ghost var e := LenNow();
      length := d.val;
      if d.op == 0 {
        Step(d.bits, LIT, last, e);
        TablesFields();
      } else if Flag(d.op, 32) {
        Step(d.bits, TYPE, last, e);
        TypeFields();
      } else if Flag(d.op, 64) {
        FailsNow(d.bits);
        Fail(d.bits);
      } else {
        extra := d.op % 16;
        Step(d.bits, LENEXT, last, e);
        TablesFields();
      }
    }

    lemma TypeFields()
      requires Shape() && mode in {TYPE, STORED, TABLE, DONE}
      ensures Fields()
    {
    }

    lemma LenNow() returns (e: State)
      requires Shape() && InStep() && Tables() && mode == LEN && InTable(lencode, 0, lenbits, hold)
      requires Lookup(lencode, 0, lenbits, hold).bits <= bits
      ensures LenOutcome(Stream(), abs, Lookup(lencode, 0, lenbits, hold), e)
    {
      hide Shape, InStep, Stream, Total, Tracks, Next, Unused, InTable, Lookup, Decoding, LenOutcome;
      ShapeBounds();
      InStepBits();
      TracksNow();
      e := LenNext(Stream(), steps, abs, hold, bits, lencode, lenbits);
    }

    lemma FailsNow(used: nat)
      requires Shape() && InStep() && FailsWith(Stream(), abs, used)
      ensures Failing(Stream(), abs)
    {
      hide Shape, InStep, Stream, Next, Unused;
    }

    method NeedExtra() returns (ok: bool)
      requires Shape() && InStep() && mode in {LENEXT, DISTEXT} && extra == abs.extra
      modifies this`next, this`hold, this`bits
      ensures Shape() && InStep() && next >= old(next) && Rest() == old(Rest())
      ensures ok ==> bits >= extra
      ensures !ok ==> Starved()
    {
      hide Shape, InStep, Stream, Total, Tracks, Next, Unused, Starved, Wants;
      ShapeBounds();
      InStepBits();
      ExtraBits();
      ok := true;
      if extra > 0 {
        ExtraWants(abs, Unused(Stream(), abs));
        ok := NeedBits(extra);
      }
    }

    method DoLenExt() returns (leave: bool)
      requires Running() && mode == LENEXT
      modifies this`mode, this`last, this`hold, this`bits, this`next, this`abs, this`steps, this`length
      ensures Shape() && Running() && put == old(put) && next >= old(next)
      ensures leave ==> mode == LENEXT && Starved()
      ensures !leave ==> mode == DIST && Rest() <= old(Rest())
    {
      hide Shape, InStep, Fields, Kept, Stream, Total, Tracks, Next, win.Valid, Unused, Starved, Decoding;
      TablesFields();
      ShapeBounds();
      var ok := NeedExtra();
      ShapeBounds();
      TablesFields();
      if !ok {
        return true;
      }
      AddLength();
      TablesFields();
      leave := false;
    }

    method AddLength()
      requires Shape() && InStep() && Tables() && mode == LENEXT && length == abs.length && extra == abs.extra <= bits
      modifies this`mode, this`last, this`hold, this`bits, this`abs, this`steps, this`length
      ensures Shape() && InStep() && Tables() && mode == DIST && length == abs.length && bits <= old(bits)
    {
      hide Shape, InStep, Stream, Total, Tracks, Next, Unused, Low, Decoding, Follows, Exact, Tight, Ok;
      ShapeBounds();
      InStepBits();
      TracksNow();
      ghost var e := LenExtNext(Stream(), steps, abs, hold, bits);
      length := length + Low(hold, extra);
      Step(extra, DIST, last, e);
    }

    lemma ExtraBits()
      requires Shape() && InStep() && mode in {LENEXT, DISTEXT}
      ensures abs.extra <= 13
    {
      hide Shape, Stream, Total, Tracks, CodesOk;
      ShapeBounds();
      TracksBits(Stream(), steps, abs, hold, bits);
    }

    method DoDist() returns (leave: bool)
      requires Running() && mode == DIST
      modifies this`mode, this`last, this`hold, this`bits, this`next, this`abs, this`steps, this`offset, this`extra
      ensures Shape() && Valid() && put == old(put) && next >= old(next)
      ensures leave ==> mode == DIST && Starved()
      ensures !leave ==> Rest() < old(Rest())
      ensures !leave ==> mode in {DISTEXT, BAD}
    {
      hide Shape, InStep, Fields, Kept, Stream, Total, Tracks, Next, win.Valid, Unused, Starved, Broken, InTable,
           Lookup, Decoding;
      InStepBits();
      TablesFields();
      var got, d := DecodeCode(distcode, distat, distbits);
      ShapeBounds();
      if !got {
        TablesFields();
        return true;
      }
      UseDist(d);
      leave := false;
    }

    method UseDist(d: Decoded)
      requires Shape() && InStep() && win.Valid() && Kept() && Tables() && mode == DIST && length == abs.length
      requires InTable(distcode, distat, distbits, hold)
      requires d == Lookup(distcode, distat, distbits, hold) && 1 <= d.bits <= bits
      modifies this`mode, this`last, this`hold, this`bits, this`abs, this`steps, this`offset, this`extra
      ensures Shape() && Valid() && Rest() < old(Rest())
      ensures mode in {DISTEXT, BAD}
    {
      hide Shape, InStep, Fields, Kept, Stream, Total, Tracks, Next, win.Valid, Unused, Broken, InTable, Lookup,
           Decoding, Failing;
      ShapeBounds();
      InStepBits();
      ghost var e := DistNow();
      if Flag(d.op, 64) {
        FailsNow(d.bits);
        Fail(d.bits);
        return;
      }
      offset := d.val;
      extra := d.op % 16;
      Step(d.bits, DISTEXT, last, e);
      TablesFields();
    }

    lemma DistNow() returns (e: State)
      requires Shape() && InStep() && Tables() && mode == DIST && InTable(distcode, distat, distbits, hold)
      requires Lookup(distcode, distat, distbits, hold).bits <= bits
      ensures DistOutcome(Stream(), abs, Lookup(distcode, distat, distbits, hold), e)
    {
      hide Shape, InStep, Stream, Total, Tracks, Next, Unused, InTable, Lookup, Decoding, DistOutcome;
      ShapeBounds();
      InStepBits();
      TracksNow();
      e := DistNext(Stream(), steps, abs, hold, bits, distcode, distat, distbits);
    }

    method DoDistExt() returns (leave: bool)
      requires Running() && mode == DISTEXT
      modifies this`mode, this`last, this`hold, this`bits, this`next, this`abs, this`steps, this`offset
      ensures Shape() && Running() && put == old(put) && next >= old(next)
      ensures leave ==> mode == DISTEXT && Starved()
      ensures !leave ==> mode == MATCH && Rest() <= old(Rest())
    {
      hide Shape, InStep, Fields, Kept, Stream, Total, Tracks, Next, win.Valid, Unused, Starved, Decoding;
      TablesFields();
      ShapeBounds();
      var ok := NeedExtra();
      ShapeBounds();
      TablesFields();
      if !ok {
        return true;
      }
      AddDistance();
      TablesFields();
      leave := false;
    }

    method AddDistance()
      requires Shape() && InStep() && Tables() && mode == DISTEXT && length == abs.length && extra == abs.extra <= bits
      requires offset == abs.offset
      modifies this`mode, this`last, this`hold, this`bits, this`abs, this`steps, this`offset
      ensures Shape() && InStep() && Tables() && mode == MATCH && length == abs.length && bits <= old(bits)
      ensures offset == abs.offset
    {
      hide Shape, InStep, Stream, Total, Tracks, Next, Unused, Low, Decoding, Follows, Exact, Tight, Ok;
      ShapeBounds();
      InStepBits();
      TracksNow();
      ghost var e := DistExtNext(Stream(), steps, abs, hold, bits);
      offset := offset + Low(hold, extra);
      Step(extra, MATCH, last, e);
    }

    // ---------- output ----------

    method DoLit() returns (leave: bool)
      requires Running() && mode == LIT
      modifies this`mode, this`put, this`abs, this`steps, output
      ensures Shape() && Running() && next == old(next)
      ensures Appended(old(output[..]), old(put), output[..], put)
      ensures leave ==> Left() == 0
      ensures !leave ==> mode == LEN && Left() < old(Left()) && Rest() == old(Rest())
      ensures !leave ==> bits < 8
    {
      hide Shape, InStep, Fields, Kept, Stream, Total, Tracks, Next, win.Valid, Unused, Decoding;
      ShapeArrays();
      InStepBits();
      TablesFields();
      if put == output.Length {
        return true;
      }
      MovingFew();
      ghost var e := LitAbstract();
      PutOut(length);
      mode := LEN;
      abs, steps := e, steps + 1;
      TotalIs();
      InStepNow();
      TablesFields();
      leave := false;
    }

    // One byte of output.
    method PutOut(b: nat)
      requires Shape() && put < output.Length
      modifies this`put, output
      ensures Shape() && put == old(put) + 1 && output[..put] == old(output[..put]) + [b]
      ensures Appended(old(output[..]), old(put), output[..], put)
    {
      output[put] := b;
      put := put + 1;
    }

    // Less than a byte is held while output is written.
    lemma MovingFew()
      requires Shape() && InStep() && mode in {MATCH, LIT}
      ensures bits < 8
    {
      hide Shape, Stream, Total, Tracks, Exact, Tight, Follows;
      ShapeBounds();
      TracksBits(Stream(), steps, abs, hold, bits);
      InStepBits();
      TracksNow();
      TightMoving(Stream(), steps, abs);
    }

    lemma LitAbstract() returns (e: State)
      requires Shape() && InStep() && mode == LIT
      ensures Tracks(Stream(), steps + 1, e, hold, bits)
      ensures e == abs.(out := prior + (output[..put] + [abs.length]), mode := LEN)
    {
      hide Shape, InStep, Stream, Total, Tracks, Next, Unused, Exact, Follows, Tight, Shr;
      ShapeBounds();
      InStepBits();
      TracksNow();
      TotalIs();
      e := LitNext(Stream(), steps, abs);
      FollowsStep(Stream(), steps, abs, hold, bits, e, 0);
      ShrNone(hold);
      TightMoving(Stream(), steps, abs);
      TightFew(Stream(), e);
      TracksIs(Stream(), steps + 1, e, hold, bits);
      assert (prior + output[..put]) + [abs.length] == prior + (output[..put] + [abs.length]);
    }

    // Copy what fits of a match from the window or from the output.
    method DoMatch() returns (leave: bool)
      requires Running() && mode == MATCH
      modifies this`mode, this`hold, this`bits, this`put, this`length, this`abs, this`steps, output
      ensures Shape() && Valid() && next == old(next)
      ensures Appended(old(output[..]), old(put), output[..], put)
      ensures leave ==> mode == MATCH && Left() == 0
      ensures !leave ==> Rest() == old(Rest()) && (Left() < old(Left()) || (mode == BAD && Left() == old(Left())))
      ensures !leave ==> mode in {MATCH, LEN, BAD} && (mode == LEN ==> bits < 8)
    {
      hide Shape, InStep, Fields, Kept, Stream, Total, Tracks, win.Valid, Broken, Decoding, Copied;
      ShapeArrays();
      TablesFields();
      if put == output.Length {
        return true;
      }
      if offset > put && offset - put > win.whave {
        TooFarBack();
        Fail(0);
        return false;
      }
      leave := false;
      MatchParts();
      MovingFew();
      if offset > put {
        MatchWindow();
      } else {
        MatchOutput();
      }
    }

    lemma MatchParts()
      requires Shape() && InStep() && mode == MATCH
      ensures abs.length >= 1 && abs.offset >= 1 && abs.mode == MATCH && Total() == abs.out
    {
      hide Shape, Stream, Total, Tracks, CodesOk;
      ShapeBounds();
      TracksBits(Stream(), steps, abs, hold, bits);
    }

    // The distance reaches before the window: it reaches before the output, or it is
    // larger than the window.
    lemma TooFarBack()
      requires Shape() && InStep() && win.Valid() && Kept() && mode == MATCH && offset == abs.offset
      requires offset > put + win.whave
      ensures Failing(Stream(), abs) || TooFar(abs, win.size)
    {
      hide Shape, InStep, Stream, Total, Tracks, Ring;
      ShapeBounds();
      InStepBits();
      if |prior| <= win.size {
        TracksNow();
        TotalIs();
        assert |abs.out| == |prior| + put;
        MatchFails(Stream(), steps, abs);
        FailsNow(0);
      }
    }

    method MatchWindow()
      requires Shape() && InStep() && win.Valid() && Kept() && Tables() && mode == MATCH
      requires length == abs.length && offset == abs.offset
      requires put < offset <= put + win.whave && put < output.Length
      modifies this`mode, this`put, this`length, this`abs, this`steps, output
      ensures Shape() && Running() && old(put) < put
      ensures Appended(old(output[..]), old(put), output[..], put)
      ensures mode in {MATCH, LEN}
    {
      hide Shape, InStep, Kept, Stream, Total, Tracks, win.Valid, Decoding, Copied, Last, Ring;
      hide Running, Broken, Fields, Exact, Ok, CodesOk, Follows, Next, Unused, Appended;
      ShapeArrays();
      MatchParts();
      InStepBits();
      TracksNow();
      TotalIs();
      ghost var was := output[..put];
      var from, run := win.Locate(offset - put);
      var copy := run;
      if copy > length {
        copy := length;
      }
      if copy > output.Length - put {
        copy := output.Length - put;
      }
      WindowCopied(was, copy);
      ghost var part := win.Contents()[win.whave - (offset - put)..];
      Shorter(win.window[..], from, run, part, copy);
      CopyFromWindow(from, copy);
      ShapeNow();
      Matched(was, copy);
    }

    method MatchOutput()
      requires Shape() && InStep() && win.Valid() && Kept() && Tables() && mode == MATCH
      requires length == abs.length && offset == abs.offset
      requires offset <= put < output.Length
      modifies this`mode, this`put, this`length, this`abs, this`steps, output
      ensures Shape() && Running() && old(put) < put
      ensures Appended(old(output[..]), old(put), output[..], put)
      ensures mode in {MATCH, LEN}
    {
      hide Shape, InStep, Kept, Stream, Total, Tracks, win.Valid, Decoding, Copied;
      ShapeArrays();
      MatchParts();
      InStepBits();
      TracksNow();
      TotalIs();
      ghost var was := output[..put];
      var copy := length;
      if copy > output.Length - put {
        copy := output.Length - put;
      }
      CopyFromOutput(put - offset, copy);
      OutputCopied(prior, was, output[..put], offset);
      ShapeNow();
      Matched(was, copy);
    }

    method CopyFromWindow(from: nat, copy: nat)
      requires from + copy <= win.window.Length && put + copy <= output.Length && output != win.window
      modifies this`put, output
      ensures put == old(put) + copy
      ensures output[..put] == old(output[..put]) + win.window[from..from + copy]
      ensures Appended(old(output[..]), old(put), output[..], put)
    {
      ghost var was := output[..];
      for i := 0 to copy
        invariant put == old(put) && output[..put + i] == was[..put] + win.window[from..from + i]
        invariant output[put + i..] == was[put + i..]
      {
        output[put + i] := win.window[from + i];
      }
      put := put + copy;
    }

    // Byte by byte, so that bytes just written are copied again when they overlap.
    method CopyFromOutput(from: nat, copy: nat)
      requires from < put && put + copy <= output.Length
      modifies this`put, output
      ensures put == old(put) + copy
      ensures forall i :: old(put) <= i < put ==> output[i] == output[i - (old(put) - from)]
      ensures Appended(old(output[..]), old(put), output[..], put)
    {
      ghost var was := output[..];
      for i := 0 to copy
        invariant put == old(put) && output[..put] == was[..put]
        invariant forall j :: put <= j < put + i ==> output[j] == output[j - (put - from)]
        invariant output[put + i..] == was[put + i..]
      {
        output[put + i] := output[from + i];
      }
      put := put + copy;
    }

    // What the window holds at a distance is what was written that far back.
    lemma WindowCopied(was: seq<nat>, copy: nat)
      requires Shape() && win.Valid() && Kept() && was == output[..put]
      requires put < offset <= put + win.whave && copy <= offset - put
      ensures var back := offset - put;
              Copied(prior + (was + win.Contents()[win.whave - back..][..copy]), |prior + was|, offset)
    {
      hide Shape, Ring;
      ShapeBounds();
      var back := offset - put;
      var data := prior + (was + win.Contents()[win.whave - back..][..copy]);
      assert data[..|prior|] == prior && |prior + was| == |prior| + put;
      forall i | |prior| + put <= i < |data|
        ensures data[i] == data[i - offset]
      {
        var k := i - |prior| - put;
        LastAt(prior, win.size, back - k);
        assert data[i - offset] == prior[|prior| - (back - k)];
      }
    }

    // Bytes have been copied: the abstract decoder has copied them too.
    method Matched(ghost was: seq<nat>, copy: nat)
      requires Shape() && win.Valid() && Kept() && Tables() && mode == MATCH == abs.mode && last == abs.last
      requires Tracks(Stream(), steps, abs, hold, bits)
      requires abs.out == prior + was && was <= output[..put] && 0 < copy == put - |was|
      requires length == abs.length && offset == abs.offset && copy <= length
      requires Copied(prior + output[..put], |prior + was|, offset)
      modifies this`mode, this`length, this`abs, this`steps
      ensures Running()
      ensures mode in {MATCH, LEN}
    {
      hide Shape, InStep, Kept, Stream, Total, Tracks, win.Valid, Decoding, Copied;
      ShapeArrays();
      assert prior + was <= prior + output[..put];
      ghost var e := MatchAbstract(Stream(), steps, abs, hold, bits, prior + output[..put]);
      length := length - copy;
      if length == 0 {
        mode := LEN;
      }
      abs, steps := e, steps + copy;
      TotalIs();
      InStepNow();
      TablesFields();
    }

    // ---------- inflate_fast ----------

    // The fast loop takes in more bytes than it needs, so all that is known is that hold
    // has the bits not used yet.
    ghost predicate Chasing()
      requires Shape()
      reads this`input, this`next, this`output, this`put, this`earlier, this`prior, output
      reads this`last, this`hold, this`bits, this`abs, this`steps
    {
      last == abs.last && abs.out == Total() && abs.mode != BAD && Follows(Stream(), steps, abs, hold, bits)
    }

    method FastPull()
      requires Shape() && Chasing() && next < |input| && bits <= 24
      modifies this`next, this`hold, this`bits
      ensures Shape() && Chasing() && next == old(next) + 1 && bits == old(bits) + 8
    {
      hide Follows, BytesBits, Shl, ToBits, Next, Pow2;
      ghost var b := Stream();
      ghost var byte := input[next];
      FollowsPull(b, steps, abs, hold, bits, byte);
      BytesBitsPush(earlier + input[..next], byte);
      assert (earlier + input[..next]) + [byte] == earlier + input[..next + 1];
      hold := hold + Shl(input[next], bits);
      bits := bits + 8;
      next := next + 1;
      assert Stream() == b + ToBits(byte, 8);
    }

    // At least 15 bits, with two bytes if need be.
    method FastLoad()
      requires Shape() && Chasing() && (bits < 15 ==> next + 2 <= |input|)
      modifies this`next, this`hold, this`bits
      ensures Shape() && Chasing() && bits >= 15
      ensures old(bits) >= 15 ==> bits == old(bits) && next == old(next)
      ensures old(bits) < 15 ==> bits == old(bits) + 16 && next == old(next) + 2
    {
      hide Chasing, Stream, Total;
      if bits < 15 {
        FastPull();
        FastPull();
      }
    }

    method FastDrop(n: nat, ghost e: State)
      requires Shape() && Chasing() && abs.pos <= |Stream()| && Next(abs, Unused(Stream(), abs)) == Go(e, n)
      requires e.mode != BAD && e.last == abs.last && e.out == abs.out
      modifies this`hold, this`bits, this`abs, this`steps
      ensures Shape() && Chasing() && abs == e && n <= old(bits) && bits == old(bits) - n
    {
      hide Shape, Stream, Total, Follows, Next, Unused, Shr;
      ShapeBounds();
      FollowsStep(Stream(), steps, abs, hold, bits, e, n);
      hold := Shr(hold, n);
      bits := bits - n;
      abs, steps := e, steps + 1;
    }

    lemma ChasingNow()
      requires Shape() && Chasing()
      ensures next <= |input| && Follows(Stream(), steps, abs, hold, bits) && Exact(Stream(), steps, abs)
      ensures abs.pos + bits == |Stream()| && Ok(abs) && last == abs.last && abs.mode != BAD
      ensures put <= output.Length && abs.out == Total()
    {
      hide Shape, Stream, Total, Follows, Exact, Ok, Pow2;
      ShapeBounds();
      FollowsBits(Stream(), steps, abs, hold, bits);
      FollowsHold(Stream(), steps, abs, hold, bits);
    }

    // One lookup, and a second one behind a link.
    method FastLookup(tab: seq<Entry>, start: nat, root: nat) returns (d: Decoded)
      requires InTable(tab, start, root, hold) && Route(tab, start, root, hold)
      ensures d == Lookup(tab, start, root, hold) && d.bits <= MAXBITS
    {
      hide Low, Shr;
      var here := tab[start + Low(hold, root)];
      if IsLink(here) {
        var sub := tab[start + here.val + Low(Shr(hold, here.bits), here.op)];
        d := Decoded(sub.op, sub.val, here.bits + sub.bits);
      } else {
        d := Decoded(here.op, here.val, here.bits);
      }
    }

    // The stream is in error at the bits that have been dropped, or the distance is too far.
    ghost predicate Stopped()
      requires Shape()
      reads this`input, this`next, this`output, this`put, this`earlier, this`prior, output, this`bits, this`abs
      reads this`steps
    {
      && abs.out == Total() && Exact(Stream(), steps, abs) && abs.pos + bits <= |Stream()|
      && (TooFar(abs, win.size)
          || (abs.mode in {LEN, DIST, MATCH} && FailsWith(Stream(), abs, |Stream()| - abs.pos - bits)))
    }

    // The loop goes on, has reached the end of the block, or has met an error.
    ghost predicate FastResult()
      requires Shape()
      reads this`input, this`next, this`output, this`put, this`earlier, this`prior, output, this`bits, this`abs
      reads this`steps
      reads this`mode, this`last, this`hold, this`lencode, this`lenbits, this`distcode, this`distat, this`distbits
    {
      if mode == BAD then Stopped() else Chasing() && Tables() && abs.mode == mode
    }

    lemma FastGoes()
      requires Shape() && mode == abs.mode && mode != BAD && Chasing() && Tables()
      ensures FastResult()
    {
      hide Shape, Chasing, Tables;
    }

    lemma FastStops()
      requires Shape() && mode == BAD && Stopped()
      ensures FastResult()
    {
      hide Shape, Stopped;
    }

    method FastStop(n: nat)
      requires Shape() && Chasing() && n <= bits
      requires TooFar(abs, win.size) || (abs.mode in {LEN, DIST, MATCH} && FailsWith(Stream(), abs, n))
      modifies this`hold, this`bits, this`mode
      ensures Shape() && Stopped() && mode == BAD && bits == old(bits) - n
    {
      hide Shape, Stream, Total, Follows, FailsWith, Exact, Shr;
      ShapeBounds();
      ChasingNow();
      hold := Shr(hold, n);
      bits := bits - n;
      mode := BAD;
    }

    // One literal or one length/distance pair, or the end of the loop.
    method FastIteration()
      requires Shape() && Chasing() && Tables() && win.Valid() && Kept() && mode == LEN == abs.mode
      requires next + 6 <= |input| && put + MAX_MATCH <= output.Length
      modifies this`next, this`hold, this`bits, this`put, this`mode, this`abs, this`steps, output
      ensures Shape() && mode in {LEN, TYPE, BAD} && old(next) <= next <= old(next) + 6
      ensures put <= old(put) + MAX_MATCH && Appended(old(output[..]), old(put), output[..], put)
      ensures Rest() < old(Rest())
      ensures old(Tight(Stream(), abs)) ==> Rest() < 8 * (|input| - old(next)) + 8
      ensures FastResult()
    {
      hide Shape, Chasing, Tables, Stream, Total, Kept, win.Valid, Tight, Stopped, FastResult, Appended, Ok, Follows,
           Exact;
      ShapeBounds();
      ChasingNow();
      StreamIs();
      ghost var from, tight := next, Tight(Stream(), abs);
      FastLoad();
      ShapeBounds();
      FastUse(from, tight);
    }

    method FastUse(ghost from: nat, ghost tight: bool)
      requires Shape() && Chasing() && Tables() && win.Valid() && Kept() && mode == LEN == abs.mode && bits >= 15
      requires next + 5 <= |input| || (bits >= 16 && next + 4 <= |input|)
      requires put + MAX_MATCH <= output.Length
      requires from <= next && (tight ==> Tight(BytesBits(earlier + input[..from]), abs))
      modifies this`next, this`hold, this`bits, this`put, this`mode, this`abs, this`steps, output
      ensures Shape() && mode in {LEN, TYPE, BAD} && old(next) <= next <= old(next) + 5
      ensures old(bits) >= 16 ==> next <= old(next) + 4
      ensures put <= old(put) + MAX_MATCH && Appended(old(output[..]), old(put), output[..], put)
      ensures Rest() < old(Rest())
      ensures tight ==> Rest() < 8 * (|input| - from) + 8
      ensures FastResult()
    {
      hide Shape, Chasing, Stream, Total, Kept, win.Valid, Tight, InTable, Lookup, Route, Stopped, FastResult, Decoding;
      hide Next, Unused, Exact, FailsWith, Flag, Ok, Follows, Appended, BytesBits;
      ShapeBounds();
      ChasingNow();
      ghost var e := FastLen();
      var d := FastLookup(lencode, 0, lenbits);
      FastTight(from, tight, d, e);
      AppendedNone(output[..], put);
      if d.op == 0 {
        FastPlain(d, e);
      } else if Flag(d.op, 16) {
        FastDrop(d.bits, e);
        FastLength(d.val, d.op % 16);
      } else {
        FastEnd(d, e);
      }
      ShapeBounds();
    }

    // A literal.
    method FastPlain(d: Decoded, ghost e: State)
      requires Shape() && Chasing() && Tables() && mode == LEN == abs.mode && 1 <= d.bits <= bits
      requires LenOutcome(Stream(), abs, d, e) && d.op == 0 && put < output.Length
      modifies this`hold, this`bits, this`put, this`abs, this`steps, output
      ensures Shape() && mode == LEN && bits == old(bits) - d.bits && put == old(put) + 1 && FastResult()
      ensures Appended(old(output[..]), old(put), output[..], put)
    {
      hide Shape, Chasing, Stream, Total, Stopped, FastResult, Next, Unused, Exact, FailsWith, Flag, Ok, Follows;
      hide Appended, Decoding, Low, Pow2, CodesOk, InTable, Lookup, Route;
      ShapeBounds();
      FastDrop(d.bits, e);
      FastLiteral(d.val);
      FastGoes();
    }

    // The end of the block, or an invalid code.
    method FastEnd(d: Decoded, ghost e: State)
      requires Shape() && Chasing() && Tables() && mode == LEN == abs.mode && 1 <= d.bits <= bits
      requires LenOutcome(Stream(), abs, d, e) && d.op != 0 && !Flag(d.op, 16)
      modifies this`hold, this`bits, this`mode, this`abs, this`steps
      ensures Shape() && mode in {TYPE, BAD} && bits == old(bits) - d.bits && FastResult()
    {
      hide Shape, Chasing, Stream, Total, Stopped, FastResult, Decoding, Next, Unused, Exact, FailsWith, Flag, Ok,
           Follows;
      ShapeBounds();
      if Flag(d.op, 32) {
        FastDrop(d.bits, e);
        mode := TYPE;
        FastGoes();
      } else {
        FastStop(d.bits);
        FastStops();
      }
    }

    lemma FastLen() returns (e: State)
      requires Shape() && Chasing() && Tables() && abs.mode == LEN && bits >= MAXBITS
      ensures abs.pos <= |Stream()| && InTable(lencode, 0, lenbits, hold) && Route(lencode, 0, lenbits, hold)
      ensures 1 <= Lookup(lencode, 0, lenbits, hold).bits <= MAXBITS
      ensures LenOutcome(Stream(), abs, Lookup(lencode, 0, lenbits, hold), e)
    {
      hide Shape, Chasing, Stream, Total, Next, Unused, InTable, Lookup, Decoding, LenOutcome, Route, Follows, Exact,
           Ok;
      ChasingNow();
      e := LenNext(Stream(), steps, abs, hold, bits, lencode, lenbits);
      RouteBits(lencode, 0, lenbits, hold);
    }

    // A code that could not be decoded without the last byte taken in before the loop uses
    // some of that byte.
    lemma FastTight(from: nat, tight: bool, d: Decoded, e: State)
      requires Shape() && Chasing() && abs.mode == LEN && from <= next && LenOutcome(Stream(), abs, d, e)
      requires 1 <= d.bits <= bits
      requires tight ==> Tight(BytesBits(earlier + input[..from]), abs)
      ensures tight ==> 8 * (|input| - next) + bits - d.bits < 8 * (|input| - from) + 8
    {
      hide Shape, Chasing, Total, Next, Unused, BytesBits, Exact, Ok, Follows, Flag;
      ShapeBounds();
      ChasingNow();
      if tight {
        var b, more := BytesBits(earlier + input[..from]), BytesBits(input[from..next]);
        BytesBitsConcat(earlier + input[..from], input[from..next]);
        assert earlier + input[..from] + input[from..next] == earlier + input[..next];
        UsesLast(b, more, abs, d.bits);
      }
    }

    method FastLiteral(val: nat)
      requires Shape() && Chasing() && abs.mode == LIT && val == abs.length && put < output.Length
      modifies this`put, this`abs, this`steps, output
      ensures Shape() && Chasing() && abs == old(abs).(mode := LEN, out := abs.out) && put == old(put) + 1
      ensures Appended(old(output[..]), old(put), output[..], put)
    {
      hide Shape, Stream, Total, Follows, Next, Unused, Exact, Ok;
      ShapeArrays();
      ChasingNow();
      TotalIs();
      ghost var e := LitNext(Stream(), steps, abs);
      FollowsStep(Stream(), steps, abs, hold, bits, e, 0);
      ShrNone(hold);
      Assoc(prior, output[..put], [val]);
      PutOut(val);
      abs, steps := e, steps + 1;
      TotalIs();
    }

    // The rest of a length/distance pair.
    method FastLength(val: nat, extra: nat)
      requires Shape() && Chasing() && Tables() && win.Valid() && Kept() && mode == LEN && abs.mode == LENEXT
      requires val == abs.length && extra == abs.extra && put + MAX_MATCH <= output.Length
      requires next + 5 <= |input| || (bits >= 1 && next + 4 <= |input|)
      modifies this`next, this`hold, this`bits, this`put, this`mode, this`abs, this`steps, output
      ensures Shape() && mode in {LEN, BAD} && old(next) <= next <= old(next) + 5
      ensures old(bits) >= 1 ==> next <= old(next) + 4
      ensures put <= old(put) + MAX_MATCH && Appended(old(output[..]), old(put), output[..], put)
      ensures Rest() <= old(Rest())
      ensures FastResult()
    {
      hide Shape, Chasing, Stream, Total, Kept, win.Valid, InTable, Lookup, Route, Stopped, FastResult, Decoding,
           Next, Unused, Exact, FailsWith, Flag;
      hide Follows, Low, Ok, CodesOk, Pow2;
      ShapeBounds();
      FastSizes();
      if bits < extra {
        FastPull();
        ShapeBounds();
      }
      ghost var e := FastLenExt();
      var len := val + Low(hold, extra);
      FastDrop(extra, e);
      ShapeBounds();
      FastDistCode(len);
      ShapeBounds();
    }

    method FastDistCode(len: nat)
      requires Shape() && Chasing() && Tables() && win.Valid() && Kept() && mode == LEN && abs.mode == DIST
      requires len == abs.length && put + MAX_MATCH <= output.Length
      requires next + 4 <= |input| || (bits >= 4 && next + 3 <= |input|)
      modifies this`next, this`hold, this`bits, this`put, this`mode, this`abs, this`steps, output
      ensures Shape() && mode in {LEN, BAD} && old(next) <= next <= old(next) + 4
      ensures old(bits) >= 4 ==> next <= old(next) + 3
      ensures put <= old(put) + MAX_MATCH && Appended(old(output[..]), old(put), output[..], put)
      ensures Rest() <= old(Rest())
      ensures FastResult()
    {
      hide Shape, Chasing, Stream, Total, Kept, win.Valid, Decoding, Exact, Ok, Appended, FastResult;
      ShapeBounds();
      FastLoad();
      ShapeBounds();
      FastDistUse(len);
    }

    method FastDistUse(len: nat)
      requires Shape() && Chasing() && Tables() && win.Valid() && Kept() && mode == LEN && abs.mode == DIST
      requires len == abs.length && put + MAX_MATCH <= output.Length && bits >= 15
      requires next + 2 <= |input| || (bits >= 20 && next + 1 <= |input|)
      modifies this`next, this`hold, this`bits, this`put, this`mode, this`abs, this`steps, output
      ensures Shape() && mode in {LEN, BAD} && old(next) <= next <= old(next) + 2
      ensures old(bits) >= 20 ==> next <= old(next) + 1
      ensures put <= old(put) + MAX_MATCH && Appended(old(output[..]), old(put), output[..], put)
      ensures Rest() <= old(Rest())
      ensures FastResult()
    {
      hide Shape, Chasing, Stream, Total, Kept, win.Valid, InTable, Lookup, Route, Stopped, FastResult, Decoding,
           Next, Unused, Exact, FailsWith, Flag;
      hide Follows, Ok, Appended, Low, Pow2, CodesOk;
      ShapeBounds();
      ghost var e := FastDist();
      var d := FastLookup(distcode, distat, distbits);
      AppendedNone(output[..], put);
      if Flag(d.op, 16) {
        FastDrop(d.bits, e);
        ShapeBounds();
        FastDistance(len, d.val, d.op % 16);
      } else {
        FastStop(d.bits);
        FastStops();
      }
      ShapeBounds();
    }

    lemma FastSizes()
      requires Shape() && Chasing()
      ensures abs.mode == LENEXT ==> abs.extra <= 5
      ensures abs.mode == DISTEXT ==> abs.extra <= 13 && abs.offset >= 1
      ensures abs.mode in {DIST, DISTEXT, MATCH} ==> 3 <= abs.length <= MAX_MATCH || abs.mode == MATCH
      ensures abs.mode == MATCH ==> 1 <= abs.length <= MAX_MATCH && abs.offset >= 1
    {
      hide Shape, Chasing, Stream, Total, Follows, Exact, CodesOk;
      ChasingNow();
    }

    lemma FastLenExt() returns (e: State)
      requires Shape() && Chasing() && abs.mode == LENEXT && abs.extra <= bits
      ensures abs.pos <= |Stream()| && Next(abs, Unused(Stream(), abs)) == Go(e, abs.extra)
      ensures e == abs.(pos := abs.pos + abs.extra, mode := DIST, length := abs.length + Low(hold, abs.extra))
    {
      hide Shape, Chasing, Stream, Total, Next, Unused, Follows, Exact, Ok, Low;
      ChasingNow();
      e := LenExtNext(Stream(), steps, abs, hold, bits);
    }

    lemma FastDist() returns (e: State)
      requires Shape() && Chasing() && Tables() && abs.mode == DIST && bits >= MAXBITS
      ensures abs.pos <= |Stream()| && InTable(distcode, distat, distbits, hold)
      ensures Route(distcode, distat, distbits, hold)
      ensures 1 <= Lookup(distcode, distat, distbits, hold).bits <= MAXBITS
      ensures DistOutcome(Stream(), abs, Lookup(distcode, distat, distbits, hold), e)
    {
      hide Shape, Chasing, Stream, Total, Next, Unused, InTable, Lookup, Decoding, DistOutcome, Route, Follows, Exact,
           Ok;
      ChasingNow();
      e := DistNext(Stream(), steps, abs, hold, bits, distcode, distat, distbits);
      RouteBits(distcode, distat, distbits, hold);
    }

    lemma FastDistExt() returns (e: State)
      requires Shape() && Chasing() && abs.mode == DISTEXT && abs.extra <= bits
      ensures abs.pos <= |Stream()| && Next(abs, Unused(Stream(), abs)) == Go(e, abs.extra)
      ensures e == abs.(pos := abs.pos + abs.extra, mode := MATCH, offset := abs.offset + Low(hold, abs.extra),
                        reach := Farther(abs.reach, abs.offset + Low(hold, abs.extra)))
    {
      hide Shape, Chasing, Stream, Total, Next, Unused, Follows, Exact, Ok, Low;
      ChasingNow();
      e := DistExtNext(Stream(), steps, abs, hold, bits);
    }

    // At least extra bits, with up to two bytes more.
    method FastNeed(extra: nat)
      requires Shape() && Chasing() && extra <= 13
      requires (bits < extra ==> next + 1 <= |input|) && (bits + 8 < extra ==> next + 2 <= |input|)
      modifies this`next, this`hold, this`bits
      ensures Shape() && Chasing() && bits >= extra && Rest() == old(Rest())
      ensures next == old(next) + (if old(bits) >= extra then 0 else if old(bits) + 8 >= extra then 1 else 2)
    {
      hide Shape, Chasing, Stream, Total;
      ShapeBounds();
      if bits < extra {
        FastPull();
        ShapeBounds();
        if bits < extra {
          FastPull();
          ShapeBounds();
        }
      }
    }

    // The extra bits of a distance, and the copy.
    method FastDistance(len: nat, val: nat, extra: nat)
      requires Shape() && Chasing() && Tables() && win.Valid() && Kept() && mode == LEN && abs.mode == DISTEXT
      requires len == abs.length && val == abs.offset && extra == abs.extra && put + MAX_MATCH <= output.Length
      requires (bits < extra ==> next + 1 <= |input|) && (bits + 8 < extra ==> next + 2 <= |input|)
      modifies this`next, this`hold, this`bits, this`put, this`mode, this`abs, this`steps, output
      ensures Shape() && mode in {LEN, BAD} && old(next) <= next
      ensures next <= old(next) + (if old(bits) >= extra then 0 else if old(bits) + 8 >= extra then 1 else 2)
      ensures put <= old(put) + MAX_MATCH && Appended(old(output[..]), old(put), output[..], put)
      ensures Rest() <= old(Rest())
      ensures FastResult()
    {
      hide Shape, Chasing, Stream, Total, Kept, win.Valid, Stopped, FastResult, Decoding, Next, Unused, Exact,
           FailsWith;
      hide Follows, Low, Ok, CodesOk, Pow2;
      ShapeBounds();
      FastSizes();
      FastNeed(extra);
      ShapeBounds();
      ghost var e := FastDistExt();
      var dist := val + Low(hold, extra);
      FastDrop(extra, e);
      ShapeBounds();
      FastPair(len, dist);
      ShapeBounds();
    }

    method FastPair(len: nat, dist: nat)
      requires Shape() && Chasing() && Tables() && win.Valid() && Kept() && mode == LEN && abs.mode == MATCH
      requires len == abs.length && dist == abs.offset && put + MAX_MATCH <= output.Length
      modifies this`hold, this`bits, this`put, this`mode, this`abs, this`steps, output
      ensures Shape() && mode in {LEN, BAD} && bits == old(bits) && FastResult()
      ensures put <= old(put) + MAX_MATCH && Appended(old(output[..]), old(put), output[..], put)
    {
      hide Shape, Chasing, Stream, Total, Kept, win.Valid, Stopped, FastResult, Decoding, FailsWith;
      ShapeBounds();
      FastSizes();
      if dist > put && dist - put > win.whave {
        FastTooFar(dist);
        FastStop(0);
        FastStops();
      } else {
        FastCopy(len, dist);
        FastGoes();
      }
    }

    lemma FastTooFar(dist: nat)
      requires Shape() && Chasing() && win.Valid() && Kept() && abs.mode == MATCH && dist == abs.offset
      requires dist > put + win.whave
      ensures TooFar(abs, win.size) || FailsWith(Stream(), abs, 0)
    {
      hide Shape, Chasing, Stream, Total, Ring, Follows, Exact, Ok, FailsWith;
      ChasingNow();
      if |prior| <= win.size {
        TotalIs();
        assert |abs.out| == |prior| + put;
        MatchFails(Stream(), steps, abs);
      }
    }

    // Copy a whole match.
    method FastCopy(len: nat, dist: nat)
      requires Shape() && Chasing() && win.Valid() && Kept() && abs.mode == MATCH && len == abs.length
      requires dist == abs.offset
      requires len <= MAX_MATCH && put + MAX_MATCH <= output.Length && dist <= put + win.whave
      modifies this`put, this`abs, this`steps, output
      ensures Shape() && Chasing() && abs.mode == LEN && abs.ll == old(abs).ll && abs.dl == old(abs).dl
      ensures put == old(put) + len
      ensures Appended(old(output[..]), old(put), output[..], put)
    {
      hide Shape, Stream, Total, Follows, win.Valid, Kept, Copied, Exact, Ok, Next, Appended;
      ShapeArrays();
      ChasingNow();
      FastSizes();
      TotalIs();
      WindowBounds();
      ghost var start, was := put, output[..];
      FastBytes(len, dist);
      ghost var data := prior + output[..put];
      AppendedIs(was, start, output[..], put);
      assert abs.out == prior + was[..start] && prior + was[..start] <= data;
      ghost var e := MatchRun(Stream(), steps, abs, hold, bits, data);
      abs, steps := e, steps + len;
      ShapeNow();
      TotalIs();
    }

    // What has been copied so far of a match that began at position start.
    ghost predicate CopiedSoFar(dist: nat, start: nat, was: seq<nat>)
      reads this`prior, this`output, this`put, output
    {
      && put <= output.Length && Copied(prior + output[..put], |prior| + start, dist)
      && Appended(was, start, output[..], put)
    }

    // The bytes of a match: first those still in the window, in one run or two, then those
    // already in the output.
    method FastBytes(len: nat, dist: nat)
      requires Shape() && win.Valid() && Kept()
      requires 1 <= len && 1 <= dist <= put + win.whave && put + len <= output.Length
      modifies this`put, output
      ensures put == old(put) + len && CopiedSoFar(dist, old(put), old(output[..]))
    {
      hide Shape, win.Valid, Kept, CopiedSoFar;
      ShapeArrays();
      WindowBounds();
      ghost var start, was := put, output[..];
      CopyStarts(dist);
      if dist <= put {                    // copy direct from output
        FastFromOutput(len, dist, start, was);
        return;
      }
      var op := dist - put;               // distance back in window
      if win.wnext == 0 {
        FastFromWindow(win.wsize - op, op, len, dist, start, was);
      } else if win.wnext < op {          // wrap around window
        FastWrapped(op, len, dist, start, was);
      } else {                            // contiguous in window
        FastFromWindow(win.wnext - op, op, len, dist, start, was);
      }
    }

    lemma KeptIs()
      requires win.Valid() && Kept()
      ensures win.Contents() == Last(prior, win.size)
    {
      hide Last, Ring, win.Valid;
    }

    lemma WindowBounds()
      requires win.Valid() && Kept()
      ensures win.whave <= |prior| && win.wnext <= win.whave <= win.window.Length
      ensures win.whave > 0 ==> win.wsize == win.window.Length && (win.wnext == win.whave || win.whave == win.wsize)
    {
      hide Ring;
    }

    lemma CopyStarts(dist: nat)
      requires Shape() && 1 <= dist <= |prior| + put
      ensures CopiedSoFar(dist, put, output[..])
    {
    }

    // A run of op bytes of the window, or less if the match is shorter; the rest of the
    // match comes from the output.
    method FastFromWindow(from: nat, op: nat, len: nat, dist: nat, ghost start: nat, ghost was: seq<nat>)
      requires output != win.window && win.Valid() && Kept() && CopiedSoFar(dist, start, was)
      requires 1 <= len && put + len <= output.Length && put < dist <= put + win.whave && op == dist - put
      requires if win.wnext < op then win.wnext == 0 && from == win.wsize - op else from == win.wnext - op
      modifies this`put, output
      ensures put == old(put) + len && CopiedSoFar(dist, start, was)
    {
      hide win.Valid, Kept, CopiedSoFar;
      if op < len {
        CopyWindow(from, op, dist, start, was);
        FastFromOutput(len - op, dist, start, was);
      } else {
        CopyWindow(from, len, dist, start, was);
      }
    }

    // A match that begins at the end of the window and may go on at its start.
    method FastWrapped(op: nat, len: nat, dist: nat, ghost start: nat, ghost was: seq<nat>)
      requires output != win.window && win.Valid() && Kept() && CopiedSoFar(dist, start, was)
      requires 1 <= len && put + len <= output.Length && put < dist <= put + win.whave && op == dist - put
      requires 0 < win.wnext < op
      modifies this`put, output
      ensures put == old(put) + len && CopiedSoFar(dist, start, was)
    {
      hide win.Valid, Kept, CopiedSoFar;
      WindowBounds();
      var from, run := win.wsize + win.wnext - op, op - win.wnext;
      if run < len {
        CopyWindow(from, run, dist, start, was);
        FastFromWindow(0, win.wnext, len - run, dist, start, was);
      } else {
        CopyWindow(from, len, dist, start, was);
      }
    }

    method CopyWindow(from: nat, k: nat, dist: nat, ghost start: nat, ghost was: seq<nat>)
      requires output != win.window && win.Valid() && Kept() && CopiedSoFar(dist, start, was)
      requires put + k <= output.Length && put < dist <= put + win.whave
      requires var op := dist - put;
               if win.wnext < op then from == win.wsize + win.wnext - op && k <= op - win.wnext
               else from == win.wnext - op && k <= op
      modifies this`put, output
      ensures put == old(put) + k && CopiedSoFar(dist, start, was)
    {
      hide win.Valid, Kept, Copied, Appended, Last, Ring;
      WindowBounds();
      ghost var op := dist - put;
      ghost var cur, mid := output[..put], output[..];
      ghost var part := WindowPart(from, k, op);
      CopyFromWindow(from, k);
      CopiedWindow(prior, cur, part, win.size, |prior| + start, dist);
      AppendedMore(was, start, mid, |cur|, output[..], put);
    }

    // The bytes at distance op in the window.
    lemma WindowPart(from: nat, k: nat, op: nat) returns (part: seq<nat>)
      requires win.Valid() && Kept() && 1 <= op <= win.whave
      requires if win.wnext < op then from == win.wsize + win.wnext - op && k <= op - win.wnext
               else from == win.wnext - op && k <= op
      ensures from + k <= win.window.Length && part == win.window[from..from + k]
      ensures |part| == k <= op <= |Last(prior, win.size)|
      ensures part == Last(prior, win.size)[|Last(prior, win.size)| - op..][..k]
    {
      hide Last, Ring, win.Valid, Kept;
      WindowBounds();
      KeptIs();
      win.RunAt(op);
      part := win.window[from..from + k];
      var tail := win.Contents()[win.whave - op..];
      if win.wnext < op {
        Shorter(win.window[..], from, op - win.wnext, tail, k);
      } else {
        Shorter(win.window[..], from, op, tail, k);
      }
    }

    // Byte by byte from the output, which may overlap what is being written.
    method FastFromOutput(k: nat, dist: nat, ghost start: nat, ghost was: seq<nat>)
      requires CopiedSoFar(dist, start, was) && 1 <= dist <= put && put + k <= output.Length
      modifies this`put, output
      ensures put == old(put) + k && CopiedSoFar(dist, start, was)
    {
      hide Copied, Appended;
      ghost var cur, mid := output[..put], output[..];
      CopyFromOutput(put - dist, k);
      AppendedIs(mid, |cur|, output[..], put);
      CopiedOutput(prior, cur, output[..put], |prior| + start, dist);
      AppendedMore(was, start, mid, |cur|, output[..], put);
    }

    // Return the whole bytes not used.
    method GiveBack()
      requires Shape() && FastResult() && mode in {LEN, TYPE, BAD} && win.Valid() && Kept()
      requires bits / 8 <= next
      modifies this`next, this`hold, this`bits
      ensures Shape() && Valid() && bits == old(bits) % 8 && next == old(next) - old(bits) / 8
    {
      hide Shape, InStep, Fields, FastResult, Kept, Stream, Total, win.Valid, Valid, Broken, Running, Tables, Tracks,
           Low;
      hide Exact, Ok, CodesOk, Follows, Next, Unused, Decoding, Stopped, Chasing;
      ShapeArrays();
      BackSync(bits / 8);
      if mode == BAD {
        DropBytes();
        BackBroken();
      } else {
        DropBytes();
        BackRunning();
      }
    }

    method DropBytes()
      requires Shape() && bits / 8 <= next
      modifies this`next, this`hold, this`bits
      ensures Shape() && next == old(next) - old(bits) / 8 && bits == old(bits) % 8 && hold == Low(old(hold), bits)
      ensures next <= |input| && Stream() == BytesBits(earlier + input[..next])
    {
      hide BytesBits, Low;
      hold := Low(hold, bits % 8);
      next := next - bits / 8;
      bits := bits % 8;
    }

    lemma BackRunning()
      requires Shape() && mode == abs.mode && mode in {LEN, TYPE} && last == abs.last && abs.out == Total()
      requires Tables() && Tracks(Stream(), steps, abs, hold, bits) && win.Valid() && Kept()
      ensures Running() && Valid()
    {
      hide Shape, InStep, Fields, Kept, Stream, Total, win.Valid, Tables, Tracks;
      ShapeArrays();
      InStepNow();
      if mode == LEN {
        TablesFields();
      } else {
        TypeFields();
      }
    }

    // The stream without the last len bytes still has all that has been used.
    lemma BackSync(len: nat)
      requires Shape() && FastResult() && mode in {LEN, TYPE, BAD} && len == bits / 8 <= next
      ensures next <= |input| && put <= output.Length && abs.out == Total()
      ensures var b := BytesBits(earlier + input[..next - len]);
              if mode == BAD then Exact(b, steps, abs) && (TooFar(abs, win.size) || Failing(b, abs))
              else mode == abs.mode && last == abs.last && Tables()
                   && Tracks(b, steps, abs, Low(hold, bits % 8), bits % 8)
    {
      hide Shape, Total, Tables, Follows, FailsWith, Failing, Exact, BytesBits, Low, Ok;
      ShapeBounds();
      StreamIs();
      var b := Stream();
      BytesBitsPrefix(earlier + input[..next], |earlier| + next - len);
      assert (earlier + input[..next])[..|earlier| + next - len] == earlier + input[..next - len];
      if mode == BAD {
        StoppedBack(b, steps, abs, win.size, bits, len);
      } else {
        ChasingNow();
        FollowsBack(b, steps, abs, hold, bits, len);
        FollowsTight(b[..|b| - 8 * len], steps, abs, Low(hold, bits % 8), bits % 8);
      }
    }

    lemma BackBroken()
      requires Shape() && win.Valid() && mode == BAD && abs.out == Total() && Exact(Stream(), steps, abs)
      requires TooFar(abs, win.size) || Failing(Stream(), abs)
      ensures Broken() && Valid()
    {
      hide Shape, Stream, Total, Exact, Failing, win.Valid;
    }

    /**
      The fast loop.  It is entered with less than a byte in the accumulator or with a code
      that is still incomplete, so that giving bytes back never goes before the input of
      this call.
     */
    method InflateFast()
      requires Running() && mode == LEN && next + 6 <= |input| && put + MAX_MATCH <= output.Length
      modifies this`next, this`hold, this`bits, this`put, this`mode, this`abs, this`steps, output
      ensures Shape() && Valid() && mode in {LEN, TYPE, BAD} && next >= old(next) && bits < 8
      ensures Appended(old(output[..]), old(put), output[..], put)
      ensures Rest() < old(Rest())
    {
      hide Shape, InStep, Fields, Chasing, FastResult, Tables, Kept, Stream, Total, win.Valid, Broken, Tight, Appended;
      FastStart();
      ShapeArrays();
      ghost var start, was, p0, rest := next, output[..], put, Rest();
      FastIteration();
      ShapeBounds();
      while mode == LEN && next + 5 < |input| && put + 257 < output.Length
        invariant Shape() && win.Valid() && Kept() && mode in {LEN, TYPE, BAD} && FastResult()
        invariant start <= next <= |input| && put <= output.Length
        invariant Appended(was, p0, output[..], put)
        invariant Rest() < rest && Rest() < 8 * (|input| - start) + 8
        decreases Rest()
      {
        ghost var mid, q := output[..], put;
        FastAgain();
        FastIteration();
        ShapeBounds();
        AppendedMore(was, p0, mid, q, output[..], put);
      }
      GiveBack();
    }

    lemma FastStart()
      requires Running() && mode == LEN
      ensures Shape() && Chasing() && Tables() && abs.mode == LEN && win.Valid() && Kept()
      ensures next <= |input| && put <= output.Length && Tight(Stream(), abs)
    {
      hide Shape, InStep, Fields, Stream, Total, Tables, win.Valid, Kept, Tracks, Follows, Exact, Tight;
      ShapeBounds();
      InStepBits();
      TracksNow();
      TablesFields();
    }

    lemma FastAgain()
      requires Shape() && FastResult() && mode == LEN
      ensures Chasing() && Tables() && abs.mode == LEN
    {
      hide Shape, Chasing, Tables;
    }

    method DoLen() returns (leave: bool)
      requires Running() && mode == LEN
      modifies this`mode, this`last, this`hold, this`bits, this`next, this`put, this`abs, this`steps, this`length
      modifies this`extra, output
      ensures Shape() && Valid() && next >= old(next)
      ensures Appended(old(output[..]), old(put), output[..], put)
      ensures leave ==> mode == LEN && Starved()
      ensures !leave ==> Rest() < old(Rest())
      ensures !leave && mode == LEN ==> bits < 8
    {
      hide Shape, InStep, Fields, Kept, Stream, Total, win.Valid, Starved, Broken, Appended;
      ShapeBounds();
      AppendedNone(output[..], put);
      if |input| - next >= 6 && output.Length - put >= 258 {
        InflateFast();
        leave := false;
      } else {
        leave := SlowLen();
      }
    }

    // A byte or more is held at the beginning of a code only if the code could not be found
    // without the last byte taken in.
    lemma HeldForCode()
      requires Running() && mode == LEN && bits >= 8
      ensures abs.pos <= |Stream()| && |Unused(Stream(), abs)| == bits
      ensures Find(abs.ll, Unused(Stream(), abs)[..bits - 8]) == More
    {
      hide Shape, Stream, Total, Exact, Find, Fields, win.Valid;
      ShapeBounds();
      TracksBits(Stream(), steps, abs, hold, bits);
      TracksNow();
      WaitsForCode(abs, Unused(Stream(), abs)[..bits - 8]);
    }

    // ---------- the mode switch ----------

    // One pass of the mode switch.
    method DoMode() returns (leave: bool)
      requires Shape() && Valid()
      modifies this`mode, this`last, this`hold, this`bits, this`next, this`put, this`length, this`offset, this`extra
      modifies this`nlen, this`ndist, this`ncode, this`have, this`lencode, this`lenbits, this`distcode, this`distat
      modifies this`distbits, this`abs, this`steps, output, lens, work, codes
      ensures Shape() && Valid() && next >= old(next)
      ensures Appended(old(output[..]), old(put), output[..], put)
      ensures leave ==> Paused()
      ensures !leave ==> Descends(old(Rest()), old(Left()), old(ModeRank(mode)), Rest(), Left(), ModeRank(mode))
      ensures !leave && mode == LEN ==> bits < 8
    {
      hide Shape, Valid, Running, Broken, Stream, Starved, Appended;
      ShapeArrays();
      AppendedNone(output[..], put);
      ValidModes();
      match mode {
      case TYPE => leave := DoType();
      case STORED => leave := DoStored();
      case COPY => leave := DoCopy(); RunningValid();
      case TABLE => leave := DoTable();
      case LENLENS => leave := DoLenLens();
      case CODELENS => leave := DoCodeLens();
      case LEN => leave := DoLen();
      case LENEXT => leave := DoLenExt(); RunningValid();
      case DIST => leave := DoDist();
      case DISTEXT => leave := DoDistExt(); RunningValid();
      case MATCH => leave := DoMatch();
      case LIT => leave := DoLit(); RunningValid();
      case DONE => leave := true;
      case BAD => leave := true;
      }
      ShapeBounds();
      ValidModes();
    }

    // The call cannot go on: the stream has ended or is in error, the input is used up, or
    // the output is full.
    ghost predicate Paused()
      requires Shape()
      reads this`input, this`next, this`output, this`put, this`earlier, this`abs, this`mode
    {
      mode == DONE || mode == BAD || Starved() || put == output.Length
    }

    lemma RunningValid()
      requires Running()
      ensures Valid()
    {
      hide Running, Broken;
    }

    lemma ValidModes()
      requires Shape()
      ensures Valid() <==> if mode == BAD then Broken() else Running()
    {
      hide Shape, Stream, Total, Tracks, Fields, win.Valid, Kept, Exact, Failing;
    }

    // ---------- inflate ----------

    // Between calls: no buffers.
    ghost predicate Idle()
      reads this`input, this`next, this`output, this`put
    {
      input == [] && next == 0 && output.Length == 0 && put == 0
    }

    // All of the stream s that can be used has been used.
    ghost predicate Settled(s: seq<nat>)
      reads this`earlier, this`mode, this`abs
    {
      && earlier <= s
      && (mode == DONE || mode == BAD || (earlier == s && Waiting(BytesBits(s), abs)))
    }

    /**
      One call of inflate(): took bytes of the input have been used and made bytes of output
      written.  When there is output space left, everything that could be done with the
      input has been done.
     */
    method Inflate(inp: seq<nat>, outp: array<nat>, finish: bool) returns (took: nat, made: nat, ret: int)
      requires Valid() && Idle() && IsBytes(inp)
      requires outp != win.window && outp != lens && outp != work
      modifies this, outp, lens, work, codes, win, win.window
      ensures Valid() && Idle() && fresh(output)
      ensures took <= |inp| && earlier == old(earlier) + inp[..took]
      ensures made <= outp.Length && prior == old(prior) + outp[..made]
      ensures outp[made..] == old(outp[made..])
      ensures made < outp.Length ==> Settled(old(earlier) + inp)
      ensures ret == Z_STREAM_END <==> mode == DONE
      ensures ret == Z_DATA_ERROR <==> mode == BAD
      ensures mode != DONE && mode != BAD ==> ret == if (took == 0 && made == 0) || finish then Z_BUF_ERROR else Z_OK
    {
      hide Valid, Running, Broken, Shape, Stream, Total, Paused, Appended, Settled;
      Begin(inp, outp);
      AppendedNone(outp[..], 0);
      while true
        invariant Shape() && Valid() && input == inp && output == outp
        invariant earlier == old(earlier) && prior == old(prior)
        invariant next <= |input| && put <= output.Length
        invariant Appended(old(outp[..]), 0, outp[..], put)
        decreases Rest(), Left(), ModeRank(mode)
      {
        ghost var mid, q := output[..], put;
        var leave := DoMode();
        ShapeBounds();
        AppendedMore(old(outp[..]), 0, mid, q, output[..], put);
        if leave {
          break;
        }
      }
      took, made := next, put;
      AppendedRest(old(outp[..]), outp[..], made);
      Finish(finish);
      ret := if mode == DONE then Z_STREAM_END else if mode == BAD then Z_DATA_ERROR else Z_OK;
      if ((took == 0 && made == 0) || finish) && ret == Z_OK {
        ret := Z_BUF_ERROR;
      }
    }

    method Begin(inp: seq<nat>, outp: array<nat>)
      requires Valid() && Idle() && IsBytes(inp)
      requires outp != win.window && outp != lens && outp != work
      modifies this`input, this`next, this`output, this`put
      ensures Shape() && Valid() && input == inp && output == outp && next == 0 && put == 0
    {
      hide Tracks, BytesBits, Exact, Failing, win.Valid, Kept, Fields;
      assert earlier + input[..next] == earlier && prior + output[..put] == prior;
      input, next, output, put := inp, 0, outp, 0;
      assert earlier + input[..next] == earlier && prior + output[..put] == prior;
    }

    // Take leave: keep the output in the window if it will be needed.
    method Finish(finish: bool)
      requires Shape() && Valid() && Paused()
      modifies this`input, this`next, this`output, this`put, this`earlier, this`prior, win, win.window
      ensures Valid() && Idle() && fresh(output)
      ensures earlier == old(earlier + input[..next]) && prior == old(prior + output[..put])
      ensures old(put < output.Length) ==> Settled(old(earlier + input))
    {
      hide Valid, Running, Broken, Shape, Stream, Total, Paused, Settled, Kept, win.Valid, Last, Ring, InStep, Fields;
      ShapeArrays();
      ValidModes();
      if mode != BAD {
        RunningParts();
      } else {
        BrokenParts();
      }
      ghost var room, s := put < output.Length, earlier + input;
      if room {
        SettledSoon();
      }
      assert input[..next] <= input && (next == |input| ==> input[..next] == input);
      ghost var was := WindowNow();
      if win.wsize != 0 || (put > 0 && mode != BAD && (mode != DONE || !finish)) {
        win.Update(output, put, put);
      }
      WindowLater(was);
      if mode == BAD {
        BrokenNow();
      }
      Rebase();
      ValidModes();
      if room {
        SettledIs(s);
      }
    }

    lemma SettledIs(s: seq<nat>)
      requires earlier <= s && (mode in {DONE, BAD} || (earlier == s && Waiting(BytesBits(s), abs)))
      ensures Settled(s)
    {
    }

    // The window's contents, if they matter.
    lemma WindowNow() returns (was: seq<nat>)
      requires Shape() && win.Valid() && (mode != BAD && mode != DONE ==> Kept())
      ensures was == win.Contents()
      ensures mode != BAD && mode != DONE ==> was == Last(prior, win.size)
      ensures win.wsize == 0 ==> was == []
    {
      hide Shape, Last;
      was := win.Contents();
    }

    lemma WindowLater(was: seq<nat>)
      requires Shape() && win.Valid() && put <= output.Length
      requires mode != BAD && mode != DONE ==> was == Last(prior, win.size)
      requires win.Contents() == Last(was + output[..put], win.size) || (put == 0 && win.Contents() == was)
               || mode in {BAD, DONE}
      ensures mode != BAD && mode != DONE ==> win.Contents() == Last(prior + output[..put], win.size)
    {
      hide Shape, Last, Ring, win.Valid;
      LastOfLast(prior, output[..put], win.size);
      if put == 0 {
        assert prior + output[..put] == prior;
      }
    }

    lemma BrokenParts()
      requires Broken()
      ensures Shape() && win.Valid() && abs.out == Total() && Exact(Stream(), steps, abs)
      ensures Failing(Stream(), abs) || TooFar(abs, win.size)
    {
      hide Shape, Stream, Total, Exact, Failing, win.Valid;
    }

    lemma BrokenNow()
      requires Shape() && win.Valid() && mode == BAD && abs.out == Total() && Exact(Stream(), steps, abs)
      requires Failing(Stream(), abs) || TooFar(abs, win.size)
      ensures Broken()
    {
      hide Shape, Stream, Total, Exact, Failing, win.Valid;
    }

    // When there is output space left, what was possible has been done.
    lemma SettledSoon()
      requires Shape() && Paused() && (mode != BAD ==> InStep()) && put < output.Length
      ensures next <= |input|
      ensures mode in {DONE, BAD} || (next == |input| && Waiting(BytesBits(earlier + input), abs))
    {
      hide Shape, Total, Tracks, BytesBits, Stuck, Unused;
      ShapeBounds();
      if mode != DONE && mode != BAD {
        InStepBits();
        StreamIs();
        assert input[..next] == input;
      }
    }

    // The buffers go back to the caller; what they held is remembered.
    method Rebase()
      requires Shape() && win.Valid() && (if mode == BAD then Broken() else InStep() && Fields())
      requires mode != BAD && mode != DONE ==> win.Contents() == Last(prior + output[..put], win.size)
      modifies this`input, this`next, this`output, this`put, this`earlier, this`prior
      ensures Shape() && Idle() && fresh(output)
      ensures earlier == old(earlier + input[..next]) && prior == old(prior + output[..put])
      ensures if mode == BAD then Broken() else Running()
    {
      hide Broken, Running, Shape, Stream, Total, InStep, Fields, win.Valid, Last, Ring, Tracks, Exact, Failing,
           BytesBits;
      ShapeArrays();
      StreamIs();
      TotalIs();
      if mode == BAD {
        BrokenParts();
      } else {
        InStepBits();
        TracksNow();
      }
      Unbuffer();
      StreamIs();
      TotalIs();
      if mode == BAD {
        BrokenNow();
      } else {
        InStepNow();
        RunningNow();
      }
    }

    method Unbuffer()
      requires Shape()
      modifies this`input, this`next, this`output, this`put, this`earlier, this`prior
      ensures Shape() && Idle() && fresh(output) && next == 0 && put == 0
      ensures earlier == old(earlier + input[..next]) && prior == old(prior + output[..put])
      ensures earlier + input[..next] == earlier && prior + output[..put] == prior
    {
      earlier, prior := earlier + input[..next], prior + output[..put];
      input, next, output, put := [], 0, new nat[0], 0;
    }
  }

  lemma AppendedRest(before: seq<nat>, after: seq<nat>, q: nat)
    requires Appended(before, 0, after, q)
    ensures q <= |after| == |before| && after[q..] == before[q..]
  {
  }

  // Whole bytes at the front are whole bytes of the bit string.
  lemma BytesBitsPrefix(s: seq<nat>, n: nat)
    requires n <= |s|
    ensures BytesBits(s[..n]) == BytesBits(s)[..8 * n]
  {
    hide BytesBits;
    BytesBitsConcat(s[..n], s[n..]);
    assert s[..n] + s[n..] == s;

  }

  lemma StoppedBack(b: seq<bool>, n: nat, a: State, size: nat, bits: nat, len: nat)
    requires Exact(b, n, a) && a.pos + bits <= |b| && 8 * len <= bits
    requires TooFar(a, size) || (a.mode in {LEN, DIST, MATCH} && FailsWith(b, a, |b| - a.pos - bits))
    ensures Exact(b[..|b| - 8 * len], n, a) && (TooFar(a, size) || Failing(b[..|b| - 8 * len], a))
  {
    hide Exact, FailsWith, Failing;
    if TooFar(a, size) {
      ExactLess(b, n, a, |b| - 8 * len);
    } else {
      FailsBack(b, n, a, |b| - a.pos - bits, |b| - 8 * len);
    }
  }

  lemma FollowsTight(b: seq<bool>, n: nat, a: State, hold: nat, bits: nat)
    requires Follows(b, n, a, hold, bits) && bits < 8
    ensures Tracks(b, n, a, hold, bits)
  {
    hide Follows, Tight;
    FollowsBits(b, n, a, hold, bits);
    TightFew(b, a);
  }

  lemma AppendedNone(b: seq<nat>, p: nat)
    requires p <= |b|
    ensures Appended(b, p, b, p)
  {
  }

  lemma AppendedIs(before: seq<nat>, p: nat, after: seq<nat>, q: nat)
    requires Appended(before, p, after, q)
    ensures p <= q <= |after| == |before| && after[..p] == before[..p] && before[..p] <= after[..q]
  {
  }

  lemma AppendedMore(a: seq<nat>, p: nat, b: seq<nat>, q: nat, c: seq<nat>, r: nat)
    requires Appended(a, p, b, q) && Appended(b, q, c, r)
    ensures Appended(a, p, c, r)
  {
    assert c[..p] == c[..q][..p] && b[..p] == b[..q][..p];
    assert c[r..] == b[q..][r - q..] && a[r..] == a[q..][r - q..];
  }

  // Bytes of the window continue a match that reaches back before the output.
  lemma CopiedWindow(prior: seq<nat>, cur: seq<nat>, part: seq<nat>, size: nat, n: nat, dist: nat)
    requires |cur| < dist && |part| <= dist - |cur| <= |Last(prior, size)|
    requires part == Last(prior, size)[|Last(prior, size)| - (dist - |cur|)..][..|part|]
    requires Copied(prior + cur, n, dist)
    ensures Copied(prior + (cur + part), n, dist)
  {
    hide Last;
    var data, old_, op := prior + (cur + part), prior + cur, dist - |cur|;
    assert data[..|old_|] == old_;
    forall i | n <= i < |data|
      ensures data[i] == data[i - dist]
    {
      if i < |old_| {
        assert data[i] == old_[i] && data[i - dist] == old_[i - dist];
      } else {
        var k := i - |old_|;
        LastAt(prior, size, op - k);
        assert data[i] == part[k] == Last(prior, size)[|Last(prior, size)| - (op - k)];
        assert data[i - dist] == prior[|prior| - (op - k)];
      }
    }
  }

  lemma CopiedOutput(prior: seq<nat>, cur: seq<nat>, now: seq<nat>, n: nat, dist: nat)
    requires cur <= now && 1 <= dist <= |cur|
    requires forall i :: |cur| <= i < |now| ==> now[i] == now[i - dist]
    requires Copied(prior + cur, n, dist)
    ensures Copied(prior + now, n, dist)
  {
    var data, old_ := prior + now, prior + cur;
    assert data[..|old_|] == old_;
    forall i | n <= i < |data|
      ensures data[i] == data[i - dist]
    {
      if i < |old_| {
        assert data[i] == old_[i] && data[i - dist] == old_[i - dist];
      } else {
        assert now[i - |prior|] == now[i - |prior| - dist];
      }
    }
  }

  lemma UsesLast(b: seq<bool>, more: seq<bool>, a: State, used: nat)
    requires a.mode == LEN && Ok(a) && Tight(b, a) && a.pos <= |b| && Next(a, Unused(b + more, a)).Go?
    requires Next(a, Unused(b + more, a)).used == used
    ensures |b| - a.pos - used < 8
  {
    hide Ok, Next;
    var rest, k := Unused(b + more, a), |b| - a.pos - 8;
    if k >= 0 && used <= k {
      assert rest[..k] == Unused(b, a)[..k];
      NextTight(a, rest, k);
    }
  }

  lemma OutputCopied(prior: seq<nat>, was: seq<nat>, now: seq<nat>, dist: nat)
    requires was <= now && 1 <= dist <= |was| && forall i :: |was| <= i < |now| ==> now[i] == now[i - dist]
    ensures Copied(prior + now, |prior + was|, dist)
  {
    var data := prior + now;
    forall i | |prior + was| <= i < |data|
      ensures data[i] == data[i - dist]
    {
      assert now[i - |prior|] == now[i - |prior| - dist];
    }
  }

  lemma MatchAbstract(b: seq<bool>, n: nat, a: State, hold: nat, bits: nat, data: seq<nat>) returns (e: State)
    requires Tracks(b, n, a, hold, bits) && a.mode == MATCH
    requires a.out <= data && Copied(data, |a.out|, a.offset) && |data| - |a.out| <= a.length
    ensures Tracks(b, n + (|data| - |a.out|), e, hold, bits)
    ensures e == a.(out := data, length := a.length - (|data| - |a.out|),
                    mode := if a.length == |data| - |a.out| then LEN else MATCH)
  {
    hide Follows, Exact, Holding, Copied, Next;
    TracksBits(b, n, a, hold, bits);
    TightMoving(b, n, a);
    e := MatchRun(b, n, a, hold, bits, data);
    TightFew(b, e);
  }

  lemma ExtraWants(a: State, front: seq<bool>)
    requires a.mode in {LENEXT, DISTEXT}
    ensures Wants(a, front, a.extra)
  {
  }

  lemma ShrNone(x: nat)
    ensures Shr(x, 0) == x
  {
  }

  lemma TracksIs(b: seq<bool>, n: nat, a: State, hold: nat, bits: nat)
    requires Follows(b, n, a, hold, bits) && Tight(b, a)
    ensures Tracks(b, n, a, hold, bits)
  {
    hide Follows, Tight;
  }

  lemma RouteBits(tab: seq<Entry>, start: nat, root: nat, hold: nat)
    requires InTable(tab, start, root, hold) && Route(tab, start, root, hold)
    ensures Lookup(tab, start, root, hold).bits <= MAXBITS
  {
    hide InTable, Lookup, Low;
  }

  // A byte that is taken in does not change the bits below it.
  lemma LowPulled(hold: nat, byte: nat, bits: nat, n: nat)
    requires n <= bits && Shl(byte, bits) <= hold && hold - Shl(byte, bits) < Pow2(bits)
    ensures Low(hold, n) == Low(hold - Shl(byte, bits), n)
  {
    hide Low, Shl, Pow2;
    JoinParts(hold - Shl(byte, bits), byte, bits);
    LowLow(hold, n, bits);
  }

  lemma TableWants(a: State, front: seq<bool>)
    requires a.mode == TABLE
    ensures Wants(a, front, 14)
  {
  }

  lemma ByteBound(s: seq<nat>, n: nat, a: State)
    requires Follows(BytesBits(s), n, a, 0, 0)
    ensures Tracks(BytesBits(s), n, a, 0, 0)
  {
    hide Exact, Holding, BytesBits, ToBits;
    FollowsBits(BytesBits(s), n, a, 0, 0);
    TightFew(BytesBits(s), a);
  }

  lemma HighHalf(hold: nat)
    requires hold < Pow2(32)
    ensures Low(Shr(hold, 16), 16) == Shr(hold, 16) && Xor(Shr(hold, 16), 0xffff) == 0xffff - Shr(hold, 16)
  {
    assert Pow2(16) == 0x10000 by { Pow2Values(); }
    hide Pow2, Xor, Low, Shr;
    ShrBelow(hold, 16, 32);
    LowId(Shr(hold, 16), 16);
    XorOnes(Shr(hold, 16), 16);
  }

  // Complementing a word of n bits.
  lemma {:induction false} XorOnes(x: nat, n: nat)
    requires x < Pow2(n)
    ensures Xor(x, Pow2(n) - 1) == Pow2(n) - 1 - x
  {
    if n > 0 {
      XorOnes(x / 2, n - 1);
    }
  }

  lemma TypeWants(a: State, front: seq<bool>)
    requires a.mode == TYPE && !a.last
    ensures Wants(a, front, 3)
  {
  }

  lemma HeaderFails(b: seq<bool>, a: State)
    requires a.pos <= |b| && Next(a, Unused(b, a)).Go? && Next(a, Unused(b, a)).next.mode == BAD
    ensures Failing(b, a)
  {
    hide Next;
  }

  lemma RootBounds(tab: seq<Entry>, start: nat, root: nat, used: nat, t: CodeType, lens: seq<nat>)
    requires TableBuilt(tab, start, root, used, t, lens)
    ensures 1 <= root <= MAXBITS
  {
  }

  lemma TimesNext(l: nat, n: nat)
    ensures Times(l, n + 1) == Times(l, n) + [l]
  {
  }

  lemma FixedParts()
    ensures CodeOk(LENS, FixedLit()) && CodeOk(DISTS, FixedDist())
    ensures Pow2(9) <= Capacity(LENS) && Pow2(5) <= Capacity(DISTS)
    ensures forall i :: 0 <= i < 288 ==> FixedLit()[i] <= 9
    ensures forall i :: 0 <= i < 32 ==> FixedDist()[i] <= 5
  {
    hide CodeOk, Pow2;
    FixedOk();
    Pow2Add(8, 1);
    Pow2Add(3, 2);
    Pow2Values();
  }

  lemma TracksBits(b: seq<bool>, n: nat, a: State, hold: nat, bits: nat)
    requires Tracks(b, n, a, hold, bits)
    ensures a.pos + bits == |b| && |Unused(b, a)| == bits && hold < Pow2(bits) && Ok(a)
    ensures Follows(b, n, a, hold, bits) && Exact(b, n, a) && Holding(b, a.pos, hold, bits)
  {
    hide Follows, Ok, Exact, Holding, Pow2, Next;
    FollowsBits(b, n, a, hold, bits);
    FollowsHold(b, n, a, hold, bits);
  }

  lemma WantsNow(a: State, front: seq<bool>, n: nat)
    requires Wants(a, front, n) && |front| < n
    ensures Stuck(a, front)
  {
    hide Next;
    assert front + [] == front;
  }

  lemma WantsMore(a: State, front: seq<bool>, more: seq<bool>, n: nat)
    requires Wants(a, front, n)
    ensures Wants(a, front + more, n)
  {
    hide Next;
    forall x: seq<bool> | |(front + more) + x| < n
      ensures Next(a, (front + more) + x) == Wait
    {
      assert (front + more) + x == front + (more + x);
    }
  }

  lemma LenLensWants(a: State, front: seq<bool>)
    requires a.mode == LENLENS && |a.cl| < a.ncode
    ensures Wants(a, front, 3)
  {
  }

  lemma OrderDistinct(i: nat)
    requires i < BL_CODES
    ensures forall j :: 0 <= j < BL_CODES && j != i ==> OrderAt(j) != OrderAt(i)
  {
    hide OrderAt, PlaceAt;
    forall j | 0 <= j < BL_CODES && j != i ensures OrderAt(j) != OrderAt(i) {
      OrderPlace(i);
      OrderPlace(j);
    }
  }

  lemma PlaceOrder(s: nat)
    requires s < BL_CODES
    ensures OrderAt(PlaceAt(s)) == s
  {
    OrderPlace(s);
  }

  lemma NewDecoding(tab: seq<Entry>, start: nat, root: nat, used: nat, t: CodeType, lens: seq<nat>)
    requires TableBuilt(tab, start, root, used, t, lens) && |lens| <= MaxCodes(t) && LengthsOk(lens)
    requires Acceptable(t, lens)
    ensures Decoding(tab, start, root, t, lens)
  {
    hide Acceptable, LengthsOk, Represents, Complete, NoCodes;
  }

  lemma WaitsForCode(a: State, bits: seq<bool>)
    requires a.mode == LEN && Next(a, bits) == Wait
    ensures Find(a.ll, bits) == More
  {
    hide Find;
  }

  // The table space is enough for both codes of any block.
  lemma BothEnough(a: State)
    requires CountsOk(a) && LengthsOk(a.lens) && |a.lens| == a.nlen + a.ndist
    ensures Acceptable(LENS, a.lens[..a.nlen]) ==> TableSize(a.lens[..a.nlen], 9) <= Capacity(LENS)
    ensures Acceptable(DISTS, a.lens[a.nlen..]) ==> TableSize(a.lens[a.nlen..], 6) <= Capacity(DISTS)
  {
    hide Acceptable, TableSize, Capacity;
    if Acceptable(LENS, a.lens[..a.nlen]) {
      EnoughSpace(LENS, a.lens[..a.nlen]);
    }
    if Acceptable(DISTS, a.lens[a.nlen..]) {
      EnoughSpace(DISTS, a.lens[a.nlen..]);
    }
  }

  lemma SpaceUsed(tab: seq<Entry>, start: nat, root: nat, used: nat, t: CodeType, lens: seq<nat>)
    requires TableBuilt(tab, start, root, used, t, lens)
    ensures used <= Capacity(t)
  {
    hide Represents, Complete, NoCodes;
  }

  lemma Shorter(win: seq<nat>, from: nat, run: nat, part: seq<nat>, copy: nat)
    requires from + run <= |win| && copy <= run <= |part| && win[from..from + run] == part[..run]
    ensures win[from..from + copy] == part[..copy]
  {
    assert win[from..from + copy] == win[from..from + run][..copy];
  }
}
