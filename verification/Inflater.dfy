/**
  What inflate() computes, as a transition system on bit strings.

  A state holds the mode, the codes in use and all output so far.  Next consumes bits of
  the stream and moves to the next state, or asks for more bits.  The modes are those of
  inflate() between TYPE and LIT; the two variants of a mode that differ only in when
  inflate() returns to its caller (TYPE/TYPEDO, COPY_/COPY, LEN_/LEN) are one mode here.
 */
module Inflater {
  import opened Bits
  import opened Canonical
  import opened InflateTable
  import opened BitWriter
  import opened CodeLengths
  import opened Symbols

  datatype Mode =
    TYPE | STORED | COPY | TABLE | LENLENS | CODELENS
    | LEN | LENEXT | DIST | DISTEXT | MATCH | LIT | DONE | BAD

  datatype State = State(
    mode: Mode,
    last: bool,          // processing the last block
    pos: nat,            // bits consumed
    nlen: nat,           // announced: lengths of the literal/length code,
    ndist: nat,          // lengths of the distance code,
    ncode: nat,          // lengths of the code length code
    cl: seq<nat>,        // those of the last that have been read
    bl: seq<nat>,        // the code that results
    lens: seq<nat>,      // code lengths read so far
    ll: seq<nat>,        // the literal/length code
    dl: seq<nat>,        // the distance code
    length: nat,         // literal, or bytes left to copy
    offset: nat,         // distance of a match
    extra: nat,          // extra bits needed
    reach: nat,          // the largest distance so far
    out: seq<nat>)       // all output

  datatype Step = Wait | Go(next: State, used: nat)

  // The symbols of the code length code in the order in which section 3.2.7 of RFC 1951
  // sends their lengths: the repeats, 0, then in turn upwards from 8 and downwards from 7.
  function OrderAt(i: nat): (s: nat)
    requires i < BL_CODES
    ensures s < BL_CODES
  {
    if i < 3 then 16 + i
    else if i == 3 then 0
    else if i % 2 == 0 then 8 + (i - 4) / 2
    else 7 - (i - 5) / 2
  }

  function PlaceAt(s: nat): (i: nat)
    requires s < BL_CODES
    ensures i < BL_CODES
  {
    if s >= 16 then s - 16
    else if s == 0 then 3
    else if s >= 8 then 4 + 2 * (s - 8)
    else 5 + 2 * (7 - s)
  }

  lemma OrderPlace(i: nat)
    requires i < BL_CODES
    ensures PlaceAt(OrderAt(i)) == i && OrderAt(PlaceAt(i)) == i
  {
  }

  // The table of inflate.c.
  const ORDER: seq<nat> := [16, 17, 18, 0, 8, 7, 9, 6, 10, 5, 11, 4, 12, 3, 13, 2, 14, 1, 15]

  lemma OrderTable(i: nat)
    requires i < BL_CODES
    ensures |ORDER| == BL_CODES && ORDER[i] == OrderAt(i)
  {
  }

  // The code length code from the lengths in transmission order; the rest are zero.
  function Permute(cl: seq<nat>): (bl: seq<nat>)
    ensures |bl| == BL_CODES
  {
    seq(BL_CODES, s requires 0 <= s < BL_CODES => if PlaceAt(s) < |cl| then cl[PlaceAt(s)] else 0)
  }

  // The i-th length sent is that of the i-th symbol in order.
  lemma PermuteAt(cl: seq<nat>, i: nat)
    requires i < BL_CODES
    ensures Permute(cl)[OrderAt(i)] == if i < |cl| then cl[i] else 0
  {
    hide OrderAt, PlaceAt;
    OrderPlace(i);
  }

  // The fixed codes of section 3.2.6 of RFC 1951.
  function FixedLit(): (s: seq<nat>)
    ensures |s| == 288
  {
    Times(8, 144) + Times(9, 112) + Times(7, 24) + Times(8, 8)
  }

  function FixedDist(): (s: seq<nat>)
    ensures |s| == 32
  {
    Times(5, 32)
  }

  lemma {:induction false} CountTimes(len: nat, count: nat, l: nat)
    ensures Count(Times(len, count), l) == if l == len then count else 0
    decreases count
  {
    if count > 0 {
      CountTimes(len, count - 1, l);
      assert Times(len, count) == Times(len, count - 1) + [len];
    }
  }

  lemma CountConcat(a: seq<nat>, b: seq<nat>, l: nat)
    ensures Count(a + b, l) == Count(a, l) + Count(b, l)
  {
  }

  // How many of the first n symbols have the length l in the fixed code.
  lemma FixedCount(n: nat, l: nat)
    requires n <= 288
    ensures Count(FixedLit()[..n], l)
            == (if l == 8 then (if n < 144 then n else 144) + (if n < 280 then 0 else n - 280)
                else if l == 9 then (if n < 144 then 0 else if n < 256 then n - 144 else 112)
                else if l == 7 then (if n < 256 then 0 else if n < 280 then n - 256 else 24) else 0)
  {
    hide Count;
    var a, b, c, d := if n < 144 then n else 144, if n < 144 then 0 else if n < 256 then n - 144 else 112,
                      if n < 256 then 0 else if n < 280 then n - 256 else 24, if n < 280 then 0 else n - 280;
    assert FixedLit()[..n] == Times(8, a) + Times(9, b) + Times(7, c) + Times(8, d);
    CountConcat(Times(8, a), Times(9, b), l);
    CountConcat(Times(8, a) + Times(9, b), Times(7, c), l);
    CountConcat(Times(8, a) + Times(9, b) + Times(7, c), Times(8, d), l);
    CountTimes(8, a, l);
    CountTimes(9, b, l);
    CountTimes(7, c, l);
    CountTimes(8, d, l);
  }

  lemma FixedFirst()
    ensures FirstCode(FixedLit(), 7) == 0 && FirstCode(FixedLit(), 8) == 0x30 && FirstCode(FixedLit(), 9) == 0x190
  {
    hide FixedLit, Count;
    var f := FixedLit();
    assert f[..288] == f;
    FixedCount(288, 1);
    FixedCount(288, 2);
    FixedCount(288, 3);
    FixedCount(288, 4);
    FixedCount(288, 5);
    FixedCount(288, 6);
    FixedCount(288, 7);
    FixedCount(288, 8);
    assert FirstCode(f, 1) == 0;
    assert FirstCode(f, 3) == 0;
    assert FirstCode(f, 5) == 0;
    assert FirstCode(f, 7) == 0;
  }

  // The codes that the table of section 3.2.6 of RFC 1951 lists.
  lemma FixedCode(s: nat)
    requires s < 288
    ensures FixedLit()[s] == if s < 144 then 8 else if s < 256 then 9 else if s < 280 then 7 else 8
    ensures CodeOf(FixedLit(), s) == if s < 144 then 0x30 + s else if s < 256 then 0x190 + (s - 144)
                                     else if s < 280 then s - 256 else 0xc0 + (s - 280)
  {
    FixedLength(s);
    hide FixedLit, Count, FirstCode;
    FixedCount(s, FixedLit()[s]);
    FixedFirst();
  }

  lemma FixedLength(s: nat)
    requires s < 288
    ensures FixedLit()[s] == if s < 144 then 8 else if s < 256 then 9 else if s < 280 then 7 else 8
  {
  }

  // Distances have codes of five bits, in order.
  lemma FixedDistCode(s: nat)
    requires s < 32
    ensures FixedDist()[s] == 5 && CodeOf(FixedDist(), s) == s
  {
    hide Count;
    var f := FixedDist();
    assert f[..s] == Times(5, s);
    CountTimes(5, s, 5);
    CountTimes(5, 32, 1);
    CountTimes(5, 32, 2);
    CountTimes(5, 32, 3);
    CountTimes(5, 32, 4);
    assert FirstCode(f, 1) == 0;
    assert FirstCode(f, 3) == 0;
    assert FirstCode(f, 5) == 0;
  }

  // ---------- recognising a symbol among the bits at hand ----------

  // The next 15 bits, with zeros for the ones not at hand.
  function Window(bits: seq<bool>): (w: nat)
  {
    FromBits(if |bits| < MAXBITS then bits else bits[..MAXBITS])
  }

  datatype Found = More | Symbol(s: nat) | Invalid

  ghost function Find(lens: seq<nat>, bits: seq<bool>): Found {
    match DecodeSymbol(lens, ToBits(Window(bits), MAXBITS))
    case Some(s) => if s < |lens| && lens[s] <= |bits| then Symbol(s) else More
    case None => if |bits| >= 1 then Invalid else More
  }

  // ---------- the transitions ----------

  function Take(s: State, n: nat): State {
    s.(pos := s.pos + n)
  }

  function Bad(s: State, used: nat): Step {
    Go(Take(s, used).(mode := BAD), used)
  }

  // Remove bits up to a byte boundary, as BYTEBITS does.
  function Skip(s: State): nat {
    |Padding(s.pos)|
  }

  function NextType(s: State, bits: seq<bool>): Step {
    if s.last then
      if |bits| < Skip(s) then Wait else Go(Take(s, Skip(s)).(mode := DONE), Skip(s))
    else if |bits| < 3 then Wait
    else
      var t := Take(s, 3).(last := bits[0]);
      match FromBits(bits[1..3])
      case 0 => Go(t.(mode := STORED), 3)
      case 1 => Go(t.(mode := LEN, ll := FixedLit(), dl := FixedDist()), 3)
      case 2 => Go(t.(mode := TABLE), 3)
      case _ => Go(t.(mode := BAD), 3)
  }

  function NextStored(s: State, bits: seq<bool>): Step {
    if Skip(s) > 0 then
      if |bits| < Skip(s) then Wait else Go(Take(s, Skip(s)), Skip(s))
    else if |bits| < 32 then Wait
    else
      var len, nlen := FromBits(bits[..16]), FromBits(bits[16..32]);
      if nlen != 0xffff - len then Bad(s, 0)
      else Go(Take(s, 32).(mode := COPY, length := len), 32)
  }

  function NextCopy(s: State, bits: seq<bool>): Step {
    if s.length == 0 then Go(s.(mode := TYPE), 0)
    else if |bits| < 8 then Wait
    else Go(Take(s, 8).(length := s.length - 1, out := s.out + [FromBits(bits[..8])]), 8)
  }

  function NextTable(s: State, bits: seq<bool>): Step {
    if |bits| < 14 then Wait
    else
      var nlen, ndist, ncode := FromBits(bits[..5]) + 257, FromBits(bits[5..10]) + 1, FromBits(bits[10..14]) + 4;
      var t := Take(s, 14).(nlen := nlen, ndist := ndist, ncode := ncode);
      if nlen > 286 || ndist > 30 then Go(t.(mode := BAD), 14)
      else Go(t.(mode := LENLENS, cl := []), 14)
  }

  ghost function NextLenLens(s: State, bits: seq<bool>): Step {
    if |s.cl| < s.ncode then
      if |bits| < 3 then Wait else Go(Take(s, 3).(cl := s.cl + [FromBits(bits[..3])]), 3)
    else
      var t := s.(bl := Permute(s.cl), lens := []);
      if !Acceptable(CODES, t.bl) then Go(t.(mode := BAD), 0) else Go(t.(mode := CODELENS), 0)
  }

  // Append count copies of len, unless that is too many.
  function Fill(s: State, len: nat, count: nat, used: nat): Step {
    if |s.lens| + count > s.nlen + s.ndist then Bad(s, used)
    else Go(Take(s, used).(lens := s.lens + Times(len, count)), used)
  }

  // A code length symbol of n bits.
  function NextLength(s: State, sym: nat, n: nat, bits: seq<bool>): Step
    requires n <= |bits|
  {
    if sym < 16 then Go(Take(s, n).(lens := s.lens + [sym]), n)
    else if sym == REP_3_6 then
      if |bits| < n + 2 then Wait
      else if s.lens == [] then Bad(s, n)
      else Fill(s, s.lens[|s.lens| - 1], 3 + FromBits(bits[n..n + 2]), n + 2)
    else if sym == REPZ_3_10 then
      if |bits| < n + 3 then Wait else Fill(s, 0, 3 + FromBits(bits[n..n + 3]), n + 3)
    else
      if |bits| < n + 7 then Wait else Fill(s, 0, 11 + FromBits(bits[n..n + 7]), n + 7)
  }

  ghost function NextCodeLens(s: State, bits: seq<bool>): Step {
    if |s.lens| < s.nlen + s.ndist then
      match Find(s.bl, bits)
      case More => Wait
      case Symbol(sym) => NextLength(s, sym, s.bl[sym], bits)
      case Invalid => NextLength(s, 0, 1, bits)   // the operation of the entry is not looked at
    else CodesRead(s)
  }

  // All code lengths are there: check the codes.
  ghost function CodesRead(s: State): Step {
    if |s.lens| <= 256 || |s.lens| < s.nlen || s.lens[256] == 0 then Bad(s, 0)
    else
      var ll, dl := s.lens[..s.nlen], s.lens[s.nlen..];
      if !Acceptable(LENS, ll) || !Acceptable(DISTS, dl) then Bad(s, 0)
      else Go(s.(mode := LEN, ll := ll, dl := dl), 0)
  }

  ghost function NextLen(s: State, bits: seq<bool>): Step {
    match Find(s.ll, bits)
    case More => Wait
    case Invalid => Bad(s, 1)
    case Symbol(sym) =>
      var t := Take(s, s.ll[sym]);
      if sym < 256 then Go(t.(mode := LIT, length := sym), s.ll[sym])
      else if sym == 256 then Go(t.(mode := TYPE), s.ll[sym])
      else if sym >= 286 then Bad(s, s.ll[sym])
      else Go(t.(mode := LENEXT, length := DecodedLength(sym - 257), extra := LengthBits(sym - 257)), s.ll[sym])
  }

  function NextLenExt(s: State, bits: seq<bool>): Step {
    if |bits| < s.extra then Wait
    else Go(Take(s, s.extra).(mode := DIST, length := s.length + FromBits(bits[..s.extra])), s.extra)
  }

  ghost function NextDist(s: State, bits: seq<bool>): Step {
    match Find(s.dl, bits)
    case More => Wait
    case Invalid => Bad(s, 1)
    case Symbol(sym) =>
      if sym >= 30 then Bad(s, s.dl[sym])
      else Go(Take(s, s.dl[sym]).(mode := DISTEXT, offset := DecodedDist(sym), extra := DistBits(sym)), s.dl[sym])
  }

  function Farther(reach: nat, dist: nat): nat {
    if dist > reach then dist else reach
  }

  function NextDistExt(s: State, bits: seq<bool>): Step {
    if |bits| < s.extra then Wait
    else
      var dist := s.offset + FromBits(bits[..s.extra]);
      Go(Take(s, s.extra).(mode := MATCH, offset := dist, reach := Farther(s.reach, dist)), s.extra)
  }

  // Copy one byte of a match.
  function NextMatch(s: State): Step {
    if s.offset > |s.out| || s.offset == 0 || s.length == 0 then Bad(s, 0)
    else
      Go(s.(out := s.out + [s.out[|s.out| - s.offset]], length := s.length - 1,
            mode := if s.length == 1 then LEN else MATCH), 0)
  }

  function NextLit(s: State): Step {
    Go(s.(out := s.out + [s.length], mode := LEN), 0)
  }

  ghost function Next(s: State, bits: seq<bool>): Step {
    match s.mode
    case TYPE => NextType(s, bits)
    case STORED => NextStored(s, bits)
    case COPY => NextCopy(s, bits)
    case TABLE => NextTable(s, bits)
    case LENLENS => NextLenLens(s, bits)
    case CODELENS => NextCodeLens(s, bits)
    case LEN => NextLen(s, bits)
    case LENEXT => NextLenExt(s, bits)
    case DIST => NextDist(s, bits)
    case DISTEXT => NextDistExt(s, bits)
    case MATCH => NextMatch(s)
    case LIT => NextLit(s)
    case DONE => Wait
    case BAD => Wait
  }

  function Start(): State {
    State(TYPE, false, 0, 0, 0, 0, [], [], [], [], [], 0, 0, 0, 0, [])
  }
}
