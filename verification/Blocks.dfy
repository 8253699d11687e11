/**
  The deflate format as written: tokens, the three kinds of blocks and whole streams as bit
  strings, and the proof that the decoder reads back what they stand for.
 */
module Blocks {
  import opened Bits
  import opened Canonical
  import opened InflateTable
  import opened BitWriter
  import opened CodeLengths
  import opened Symbols
  import opened Inflater
  import opened InflaterRuns

  // What the compressor buffers: an unmatched byte, or a match with its distance.
  datatype Token = Literal(byte: nat) | Copy(len: nat, dist: nat)

  predicate TokenOk(t: Token) {
    match t
    case Literal(byte) => byte < 256
    case Copy(len, dist) => MIN_MATCH <= len <= MAX_MATCH && 1 <= dist <= 0x8000
  }

  // ---------- what tokens stand for ----------

  // Copy len bytes from dist bytes back, byte by byte: source and destination may overlap.
  function CopyMatch(out: seq<nat>, len: nat, dist: nat): (r: seq<nat>)
    requires 1 <= dist <= |out|
    ensures |r| == |out| + len && out <= r
    decreases len
  {
    if len == 0 then out else CopyMatch(out + [out[|out| - dist]], len - 1, dist)
  }

  predicate Reachable(out: seq<nat>, t: Token) {
    t.Copy? ==> 1 <= t.dist <= |out|
  }

  function Output(out: seq<nat>, t: Token): seq<nat>
    requires Reachable(out, t)
  {
    match t
    case Literal(byte) => out + [byte]
    case Copy(len, dist) => CopyMatch(out, len, dist)
  }

  // The history followed by what the tokens add to it.
  function Expand(out: seq<nat>, ts: seq<Token>): Option<seq<nat>>
    decreases |ts|
  {
    if ts == [] then Some(out)
    else if !Reachable(out, ts[0]) then None
    else Expand(Output(out, ts[0]), ts[1..])
  }

  // ---------- tokens as bits: compress_block ----------

  function LengthSymbol(len: nat): (s: nat)
    requires MIN_MATCH <= len <= MAX_MATCH
    ensures 257 <= s < L_CODES
  {
    LengthCode(len - MIN_MATCH) + LITERALS + 1
  }

  // A symbol of the code, then its extra bits.
  function ExtraLength(len: nat): seq<bool>
    requires MIN_MATCH <= len <= MAX_MATCH
  {
    var c := LengthCode(len - MIN_MATCH);
    if c == 28 then [] else ToBits(len - MIN_MATCH - BaseLength(c), LengthBits(c))
  }

  function ExtraDist(dist: nat): seq<bool>
    requires 1 <= dist <= 0x8000
  {
    var c := DistCode(dist - 1);
    ToBits(dist - 1 - BaseDist(c), DistBits(c))
  }

  // The codes have a code word for everything the token needs.
  predicate Codable(ll: seq<nat>, dl: seq<nat>, t: Token) {
    && TokenOk(t)
    && match t
       case Literal(byte) => byte < |ll| && ll[byte] > 0
       case Copy(len, dist) =>
         && LengthSymbol(len) < |ll| && ll[LengthSymbol(len)] > 0
         && DistCode(dist - 1) < |dl| && dl[DistCode(dist - 1)] > 0
  }

  function TokenBits(ll: seq<nat>, dl: seq<nat>, t: Token): seq<bool>
    requires Codable(ll, dl, t)
  {
    match t
    case Literal(byte) => CodeBits(ll, byte)
    case Copy(len, dist) =>
      CodeBits(ll, LengthSymbol(len)) + ExtraLength(len) + (CodeBits(dl, DistCode(dist - 1)) + ExtraDist(dist))
  }

  predicate AllCodable(ll: seq<nat>, dl: seq<nat>, ts: seq<Token>) {
    END_BLOCK < |ll| && ll[END_BLOCK] > 0 && forall t :: t in ts ==> Codable(ll, dl, t)
  }

  // The tokens of a block and its end.
  function TokensBits(ll: seq<nat>, dl: seq<nat>, ts: seq<Token>): seq<bool>
    requires AllCodable(ll, dl, ts)
  {
    if ts == [] then CodeBits(ll, END_BLOCK) else TokenBits(ll, dl, ts[0]) + TokensBits(ll, dl, ts[1..])
  }

  // ---------- reading tokens back ----------

  lemma FindCode(t: CodeType, lens: seq<nat>, s: nat, tail: seq<bool>)
    requires CodeOk(t, lens) && s < |lens| && lens[s] > 0
    ensures Find(lens, CodeBits(lens, s) + tail) == Symbol(s)
    ensures |CodeBits(lens, s)| == lens[s]
    ensures (CodeBits(lens, s) + tail)[lens[s]..] == tail
  {
    hide CodeOk, Find, CodeOf;
    FoundIsDecoded(t, lens, CodeBits(lens, s) + tail, s);
  }

  // In the middle of a block.
  ghost predicate SameBlock(s: State, e: State) {
    e.mode == s.mode == LEN && e.ll == s.ll && e.dl == s.dl && e.last == s.last
  }

  lemma OneStep(s: State, bits: seq<bool>, e: State, rest: seq<bool>)
    requires Next(s, bits).Go? && Next(s, bits).used <= |bits|
    requires e == Next(s, bits).next && rest == bits[Next(s, bits).used..]
    ensures Runs(s, bits, 1, e, rest)
  {
    assert Runs(e, rest, 0, e, rest);
  }

  lemma LiteralRun(s: State, byte: nat, tail: seq<bool>) returns (e: State)
    requires Ok(s) && s.mode == LEN && byte < 256 && byte < |s.ll| && s.ll[byte] > 0
    ensures Runs(s, CodeBits(s.ll, byte) + tail, 2, e, tail)
    ensures SameBlock(s, e) && e.out == s.out + [byte] && e.reach == s.reach
  {
    hide CodeOk, Find, CodeBits, Runs;
    var bits := CodeBits(s.ll, byte) + tail;
    FindCode(LENS, s.ll, byte, tail);
    var m := Take(s, s.ll[byte]).(mode := LIT, length := byte);
    e := m.(out := m.out + [m.length], mode := LEN);
    OneStep(s, bits, m, tail);
    OneStep(m, tail, e, tail);
    RunsCompose(s, bits, 1, m, tail, 1, e, tail);
  }

  // Copying a match takes one step for each byte.
  lemma {:induction false} CopyRun(s: State, bits: seq<bool>) returns (e: State)
    requires Ok(s) && s.mode == MATCH && s.offset <= |s.out|
    ensures Runs(s, bits, s.length, e, bits)
    ensures e.mode == LEN && e.ll == s.ll && e.dl == s.dl && e.last == s.last
    ensures e.out == CopyMatch(s.out, s.length, s.offset) && e.reach == s.reach
    decreases s.length
  {
    hide CodeOk, Runs;
    var m := s.(out := s.out + [s.out[|s.out| - s.offset]], length := s.length - 1,
                mode := if s.length == 1 then LEN else MATCH);
    OneStep(s, bits, m, bits);
    if s.length == 1 {
      e := m;
      assert CopyMatch(m.out, 0, s.offset) == m.out;
    } else {
      e := CopyRun(m, bits);
      RunsCompose(s, bits, 1, m, bits, s.length - 1, e, bits);
    }
  }

  // Extra bits bring a base value to the value that was sent.
  lemma ExtraBits(x: nat, base: nat, n: nat, tail: seq<bool>)
    requires base <= x < base + Pow2(n)
    ensures var bits := ToBits(x - base, n) + tail;
            bits[..n] == ToBits(x - base, n) && bits[n..] == tail && base + FromBits(bits[..n]) == x
  {
    hide Pow2, ToBits, FromBits;
    FromToBits(x - base, n);
    LowId(x - base, n);
  }

  lemma LengthRun(s: State, len: nat, tail: seq<bool>) returns (e: State)
    requires Ok(s) && s.mode == LEN && MIN_MATCH <= len <= MAX_MATCH
    requires LengthSymbol(len) < |s.ll| && s.ll[LengthSymbol(len)] > 0
    ensures Runs(s, CodeBits(s.ll, LengthSymbol(len)) + ExtraLength(len) + tail, 2, e, tail)
    ensures e.mode == DIST && e.length == len && e.ll == s.ll && e.dl == s.dl && e.last == s.last && e.out == s.out
    ensures e.reach == s.reach
  {
    hide CodeOk, Find, CodeBits, Runs, FromBits, DecodedLength, LengthBits, LengthCode, BaseLength, Pow2, ToBits;
    var sym, c := LengthSymbol(len), LengthCode(len - MIN_MATCH);
    var mid := ExtraLength(len) + tail;
    Assoc(CodeBits(s.ll, sym), ExtraLength(len), tail);
    FindCode(LENS, s.ll, sym, mid);
    var m := Take(s, s.ll[sym]).(mode := LENEXT, length := DecodedLength(c), extra := LengthBits(c));
    OneStep(s, CodeBits(s.ll, sym) + mid, m, mid);
    LengthValue(len, tail);
    e := Take(m, m.extra).(mode := DIST, length := len);
    OneStep(m, mid, e, tail);
    RunsCompose(s, CodeBits(s.ll, sym) + mid, 1, m, mid, 1, e, tail);
  }

  lemma LengthValue(len: nat, tail: seq<bool>)
    requires MIN_MATCH <= len <= MAX_MATCH
    ensures var c := LengthCode(len - MIN_MATCH); var bits := ExtraLength(len) + tail;
            LengthBits(c) <= |bits| && bits[LengthBits(c)..] == tail
            && DecodedLength(c) + FromBits(bits[..LengthBits(c)]) == len
  {
    hide DecodedLength, LengthBits, BaseLength, Pow2, ToBits, LengthCode;
    var lc := len - MIN_MATCH;
    var c := LengthCode(lc);
    if c == 28 {
      TableEnds();
      assert lc == 255 && tail[..0] == [] && FromBits([]) == 0;
    } else {
      LengthBase(c);
      ExtraBits(lc, BaseLength(c), LengthBits(c), tail);
    }
  }

  lemma DistRun(s: State, dist: nat, tail: seq<bool>) returns (e: State)
    requires Ok(s) && s.mode == DIST && 1 <= dist <= 0x8000
    requires DistCode(dist - 1) < |s.dl| && s.dl[DistCode(dist - 1)] > 0
    ensures Runs(s, CodeBits(s.dl, DistCode(dist - 1)) + ExtraDist(dist) + tail, 2, e, tail)
    ensures e.mode == MATCH && e.offset == dist && e.length == s.length && e.reach == Farther(s.reach, dist)
    ensures e.ll == s.ll && e.dl == s.dl && e.last == s.last && e.out == s.out
  {
    hide CodeOk, Find, CodeBits, Runs, FromBits, DecodedDist, DistBits, DistCode, BaseDist, Pow2, ToBits;
    var c := DistCode(dist - 1);
    var mid := ExtraDist(dist) + tail;
    Assoc(CodeBits(s.dl, c), ExtraDist(dist), tail);
    FindCode(DISTS, s.dl, c, mid);
    var m := Take(s, s.dl[c]).(mode := DISTEXT, offset := DecodedDist(c), extra := DistBits(c));
    OneStep(s, CodeBits(s.dl, c) + mid, m, mid);
    DistBase(c);
    ExtraBits(dist - 1, BaseDist(c), DistBits(c), tail);
    e := Take(m, m.extra).(mode := MATCH, offset := dist, reach := Farther(s.reach, dist));
    OneStep(m, mid, e, tail);
    RunsCompose(s, CodeBits(s.dl, c) + mid, 1, m, mid, 1, e, tail);
  }

  lemma MatchRun(s: State, len: nat, dist: nat, tail: seq<bool>) returns (n: nat, e: State)
    requires Ok(s) && s.mode == LEN && Codable(s.ll, s.dl, Copy(len, dist)) && dist <= |s.out|
    ensures Runs(s, TokenBits(s.ll, s.dl, Copy(len, dist)) + tail, n, e, tail)
    ensures SameBlock(s, e) && e.out == CopyMatch(s.out, len, dist) && e.reach == Farther(s.reach, dist)
  {
    hide Ok, CodeBits, Runs, ExtraLength, ExtraDist, LengthSymbol, DistCode, CopyMatch, Codable;
    CodableCopy(s.ll, s.dl, len, dist);
    var a := CodeBits(s.ll, LengthSymbol(len)) + ExtraLength(len);
    var b := CodeBits(s.dl, DistCode(dist - 1)) + ExtraDist(dist);
    Assoc(a, b, tail);
    var d := LengthRun(s, len, b + tail);
    RunsOk(s, a + (b + tail), 2, d, b + tail);
    var m := DistRun(d, dist, tail);
    RunsOk(d, b + tail, 2, m, tail);
    e := CopyRun(m, tail);
    RunsCompose(d, b + tail, 2, m, tail, len, e, tail);
    RunsCompose(s, a + (b + tail), 2, d, b + tail, 2 + len, e, tail);
    n := 2 + (2 + len);
  }

  lemma CodableCopy(ll: seq<nat>, dl: seq<nat>, len: nat, dist: nat)
    requires Codable(ll, dl, Copy(len, dist))
    ensures MIN_MATCH <= len <= MAX_MATCH && 1 <= dist <= 0x8000
    ensures LengthSymbol(len) < |ll| && ll[LengthSymbol(len)] > 0
    ensures DistCode(dist - 1) < |dl| && dl[DistCode(dist - 1)] > 0
  {
    hide DistCode, LengthSymbol, LengthCode, IsDistCode, BaseDist, DistBits, Pow2;
  }

  // The largest distance of the tokens, or that of the history.
  function Farthest(reach: nat, ts: seq<Token>): nat
    decreases |ts|
  {
    if ts == [] then reach
    else Farthest(if ts[0].Copy? then Farther(reach, ts[0].dist) else reach, ts[1..])
  }

  // The decoder reads back the tokens of a block up to its end.
  lemma {:induction false} TokensRun(s: State, ts: seq<Token>, tail: seq<bool>) returns (n: nat, e: State)
    requires Ok(s) && s.mode == LEN && AllCodable(s.ll, s.dl, ts) && Expand(s.out, ts).Some?
    ensures Runs(s, TokensBits(s.ll, s.dl, ts) + tail, n, e, tail)
    ensures e.mode == TYPE && e.last == s.last && e.out == Expand(s.out, ts).value && e.reach == Farthest(s.reach, ts)
    decreases |ts|
  {
    hide Ok, CodeBits, Runs, TokenBits, Codable, CopyMatch;
    if ts == [] {
      n := 1;
      e := EndRun(s, tail);
    } else {
      var t, more := ts[0], TokensBits(s.ll, s.dl, ts[1..]) + tail;
      assert t in ts;
      var k, m;
      if t.Literal? {
        CodableLiteral(s.ll, s.dl, t.byte);
        m := LiteralRun(s, t.byte, more);
        k := 2;
      } else {
        k, m := MatchRun(s, t.len, t.dist, more);
      }
      Assoc(TokenBits(s.ll, s.dl, t), TokensBits(s.ll, s.dl, ts[1..]), tail);
      RunsOk(s, TokenBits(s.ll, s.dl, t) + more, k, m, more);
      var j;
      j, e := TokensRun(m, ts[1..], tail);
      RunsCompose(s, TokenBits(s.ll, s.dl, t) + more, k, m, more, j, e, tail);
      n := k + j;
    }
  }

  lemma CodableLiteral(ll: seq<nat>, dl: seq<nat>, byte: nat)
    requires Codable(ll, dl, Literal(byte))
    ensures byte < 256 && byte < |ll| && ll[byte] > 0
    ensures TokenBits(ll, dl, Literal(byte)) == CodeBits(ll, byte)
  {
  }

  lemma EndRun(s: State, tail: seq<bool>) returns (e: State)
    requires Ok(s) && s.mode == LEN && END_BLOCK < |s.ll| && s.ll[END_BLOCK] > 0
    ensures Runs(s, CodeBits(s.ll, END_BLOCK) + tail, 1, e, tail)
    ensures e.mode == TYPE && e.last == s.last && e.out == s.out && e.reach == s.reach
  {
    hide CodeOk, Find, CodeBits, Runs;
    FindCode(LENS, s.ll, END_BLOCK, tail);
    e := Take(s, s.ll[END_BLOCK]).(mode := TYPE);
    OneStep(s, CodeBits(s.ll, END_BLOCK) + tail, e, tail);
  }

  // ---------- block headers ----------

  const STORED_BLOCK: nat := 0
  const STATIC_TREES: nat := 1
  const DYN_TREES: nat := 2

  // The three header bits: the last-block flag, then the block type.
  function HeaderBits(kind: nat, last: bool): seq<bool> {
    [last] + ToBits(kind, 2)
  }

  // send_bits((kind << 1) + last, 3) sends the header.
  lemma HeaderValue(kind: nat, last: bool)
    requires kind < 4
    ensures 2 * kind + (if last then 1 else 0) < Pow2(3)
    ensures ToBits(2 * kind + (if last then 1 else 0), 3) == HeaderBits(kind, last)
  {
    Pow2Values();
    var v := 2 * kind + if last then 1 else 0;
    assert v / 2 == kind && (v % 2 == 1) == last;
  }

  lemma HeaderRun(s: State, kind: nat, last: bool, tail: seq<bool>) returns (e: State)
    requires Ok(s) && s.mode == TYPE && !s.last && kind < 3
    ensures Runs(s, HeaderBits(kind, last) + tail, 1, e, tail)
    ensures e.last == last && e.out == s.out && e.pos == s.pos + 3 && e.reach == s.reach
    ensures kind == STORED_BLOCK ==> e.mode == STORED
    ensures kind == STATIC_TREES ==> e.mode == LEN && e.ll == FixedLit() && e.dl == FixedDist()
    ensures kind == DYN_TREES ==> e.mode == TABLE
  {
    hide FixedLit, FixedDist, ToBits, FromBits, Runs;
    var bits := HeaderBits(kind, last) + tail;
    FromToBits(kind, 2);
    Pow2Values();
    LowId(kind, 2);
    assert bits[1..3] == ToBits(kind, 2) && bits[0] == last;
    e := NextType(s, bits).next;
    OneStep(s, bits, e, tail);
  }

  // ---------- stored blocks ----------

  function StoredBits(pos: nat, data: seq<nat>): seq<bool>
    requires |data| < 0x10000
  {
    Padding(pos) + (ToBits(|data|, 16) + ToBits(0xffff - |data|, 16) + BytesBits(data))
  }

  lemma {:induction false} BytesRun(s: State, data: seq<nat>, tail: seq<bool>) returns (e: State)
    requires Ok(s) && s.mode == COPY && s.length == |data| && IsBytes(data)
    ensures Runs(s, BytesBits(data) + tail, |data| + 1, e, tail)
    ensures e.mode == TYPE && e.last == s.last && e.out == s.out + data && e.reach == s.reach
    decreases |data|
  {
    hide Runs, ToBits, FromBits, BytesBits;
    if data == [] {
      e := s.(mode := TYPE);
      BytesBitsNone();
      assert [] + tail == tail && s.out + [] == s.out;
      OneStep(s, tail, e, tail);
    } else {
      var b, rest := data[0], data[1..];
      var more := BytesBits(rest) + tail;
      FirstByte(data);
      Assoc(ToBits(b, 8), BytesBits(rest), tail);
      ByteValue(b, more);
      var m := Take(s, 8).(length := s.length - 1, out := s.out + [b]);
      OneStep(s, ToBits(b, 8) + more, m, more);
      e := BytesRun(m, rest, tail);
      RunsCompose(s, ToBits(b, 8) + more, 1, m, more, |rest| + 1, e, tail);
      assert s.out + [b] + rest == s.out + data;
    }
  }

  lemma FirstByte(data: seq<nat>)
    requires data != []
    ensures BytesBits(data) == ToBits(data[0], 8) + BytesBits(data[1..])
  {
    hide ToBits, BytesBits;
    assert data == [data[0]] + data[1..];
    BytesBitsConcat([data[0]], data[1..]);
    BytesBitsPush([], data[0]);
    BytesBitsNone();
    assert [] + [data[0]] == [data[0]];
  }

  lemma ByteValue(b: nat, tail: seq<bool>)
    requires b < 256
    ensures (ToBits(b, 8) + tail)[..8] == ToBits(b, 8) && FromBits(ToBits(b, 8)) == b
    ensures (ToBits(b, 8) + tail)[8..] == tail
  {
    hide ToBits, FromBits, Pow2;
    Pow2Values();
    FromToBits(b, 8);
    LowId(b, 8);
  }

  lemma StoredRun(s: State, data: seq<nat>, tail: seq<bool>) returns (n: nat, e: State)
    requires Ok(s) && s.mode == STORED && IsBytes(data) && |data| < 0x10000
    ensures Runs(s, StoredBits(s.pos, data) + tail, n, e, tail)
    ensures e.mode == TYPE && e.last == s.last && e.out == s.out + data && e.reach == s.reach
  {
    hide Runs, ToBits, FromBits, BytesBits, Padding;
    var bits := StoredBits(s.pos, data) + tail;
    var rest := BytesBits(data) + tail;
    StoredLengths(s.pos, data, tail);
    var a := Take(s, Skip(s));
    var k := AlignRun(s, bits);
    RunsOk(s, bits, k, a, bits[Skip(s)..]);
    AlignedSkip(s);
    var m := Take(a, 32).(mode := COPY, length := |data|);
    OneStep(a, bits[Skip(s)..], m, rest);
    RunsOk(a, bits[Skip(s)..], 1, m, rest);
    RunsCompose(s, bits, k, a, bits[Skip(s)..], 1, m, rest);
    e := BytesRun(m, data, tail);
    RunsCompose(s, bits, k + 1, m, rest, |data| + 1, e, tail);
    n := k + 1 + (|data| + 1);
  }

  // The decoder drops the bits up to a byte boundary, if there are any.
  lemma AlignRun(s: State, bits: seq<bool>) returns (k: nat)
    requires s.mode == STORED && |bits| >= Skip(s)
    ensures Runs(s, bits, k, Take(s, Skip(s)), bits[Skip(s)..])
  {
    hide Runs, Padding;
    if Skip(s) == 0 {
      k := 0;
      assert bits[0..] == bits;
      NoRun(s, bits);
    } else {
      k := 1;
      OneStep(s, bits, Take(s, Skip(s)), bits[Skip(s)..]);
    }
  }

  lemma AlignedSkip(s: State)
    ensures Skip(Take(s, Skip(s))) == 0
  {
  }

  lemma StoredLengths(pos: nat, data: seq<nat>, tail: seq<bool>)
    requires |data| < 0x10000
    ensures var skip := |Padding(pos)|; var bits := StoredBits(pos, data) + tail;
            |bits| >= skip + 32
            && FromBits(bits[skip..][..16]) == |data| && FromBits(bits[skip..][16..32]) == 0xffff - |data|
            && bits[skip..][32..] == BytesBits(data) + tail
  {
    hide ToBits, FromBits, BytesBits, Padding, Pow2;
    var skip, bits := |Padding(pos)|, StoredBits(pos, data) + tail;
    var a, b := ToBits(|data|, 16), ToBits(0xffff - |data|, 16);
    Pow2Values();
    FromToBits(|data|, 16);
    LowId(|data|, 16);
    FromToBits(0xffff - |data|, 16);
    LowId(0xffff - |data|, 16);
    var pad := Padding(pos);
    assert bits == pad + (a + b + BytesBits(data)) + tail;
    Assoc(pad, a + b + BytesBits(data), tail);
    Assoc(a, b, BytesBits(data));
    assert bits[skip..] == a + b + BytesBits(data) + tail;
    assert bits[skip..][..16] == a && bits[skip..][16..32] == b;
  }

  // ---------- dynamic blocks ----------

  // The trees of a dynamic block: code lengths of the three codes and how many lengths of
  // the code length code are sent.
  datatype Trees = Trees(ll: seq<nat>, dl: seq<nat>, bl: seq<nat>, ncode: nat) {

    function Runs(): seq<Run> {
      Encode(ll, 0, 0, -1) + Encode(dl, 0, 0, -1)
    }

    ghost predicate Valid() {
      && CodeOk(LENS, ll) && 257 <= |ll| <= 286 && ll[END_BLOCK] > 0
      && CodeOk(DISTS, dl) && 1 <= |dl| <= 30
      && CodeOk(CODES, bl) && |bl| == BL_CODES && (forall k :: 0 <= k < BL_CODES ==> bl[k] < 8)
      && 4 <= ncode <= BL_CODES && (forall i :: ncode <= i < BL_CODES ==> bl[OrderAt(i)] == 0)
      && Sendable(bl, Runs())
    }
  }

  // The first n code length code lengths in transmission order.
  function Ordered(bl: seq<nat>, n: nat): (cl: seq<nat>)
    requires |bl| == BL_CODES && n <= BL_CODES
    ensures |cl| == n
  {
    seq(n, i requires 0 <= i < n => bl[OrderAt(i)])
  }

  function ThreeBits(cl: seq<nat>): (s: seq<bool>)
    ensures |s| == 3 * |cl|
  {
    if cl == [] then [] else ToBits(cl[0], 3) + ThreeBits(cl[1..])
  }

  // Counts, code length code lengths, then the run-length coded lengths of both codes.
  function TreesBits(t: Trees): seq<bool>
    requires t.Valid()
  {
    ToBits(|t.ll| - 257, 5) + ToBits(|t.dl| - 1, 5) + ToBits(t.ncode - 4, 4)
    + ThreeBits(Ordered(t.bl, t.ncode)) + RunsBits(t.bl, t.Runs())
  }

  lemma PermuteOrdered(bl: seq<nat>, n: nat)
    requires |bl| == BL_CODES && n <= BL_CODES && forall i :: n <= i < BL_CODES ==> bl[OrderAt(i)] == 0
    ensures Permute(Ordered(bl, n)) == bl
  {
    forall k: nat | k < BL_CODES
      ensures Permute(Ordered(bl, n))[k] == bl[k]
    {
      hide OrderAt, PlaceAt;
      OrderPlace(k);
    }
  }

  lemma ThreeValue(v: nat, tail: seq<bool>)
    requires v < 8
    ensures (ToBits(v, 3) + tail)[..3] == ToBits(v, 3) && FromBits(ToBits(v, 3)) == v
    ensures (ToBits(v, 3) + tail)[3..] == tail
  {
    hide ToBits, FromBits, Pow2;
    Pow2Values();
    FromToBits(v, 3);
    LowId(v, 3);
  }

  lemma {:induction false} LenLensRun(s: State, cl: seq<nat>, tail: seq<bool>) returns (e: State)
    requires Ok(s) && s.mode == LENLENS && |s.cl| + |cl| == s.ncode
    requires forall i :: 0 <= i < |cl| ==> cl[i] < 8
    ensures Runs(s, ThreeBits(cl) + tail, |cl|, e, tail)
    ensures e == s.(cl := s.cl + cl, pos := e.pos)
    decreases |cl|
  {
    hide Runs, ToBits, FromBits;
    if cl == [] {
      e := s;
      assert [] + tail == tail && s.cl + [] == s.cl;
      NoRun(s, tail);
    } else {
      var more := ThreeBits(cl[1..]) + tail;
      Assoc(ToBits(cl[0], 3), ThreeBits(cl[1..]), tail);
      ThreeValue(cl[0], more);
      var m := Take(s, 3).(cl := s.cl + [cl[0]]);
      OneStep(s, ToBits(cl[0], 3) + more, m, more);
      e := LenLensRun(m, cl[1..], tail);
      RunsCompose(s, ToBits(cl[0], 3) + more, 1, m, more, |cl| - 1, e, tail);
      assert s.cl + [cl[0]] + cl[1..] == s.cl + cl;
    }
  }

  lemma {:induction false} ThreeBitsAt(cl: seq<nat>, i: nat)
    requires i < |cl|
    ensures ThreeBits(cl)[3 * i..3 * i + 3] == ToBits(cl[i], 3)
    decreases i
  {
    hide ToBits;
    if i > 0 {
      ThreeBitsAt(cl[1..], i - 1);
      assert ThreeBits(cl)[3 * i..3 * i + 3] == ThreeBits(cl[1..])[3 * (i - 1)..3 * (i - 1) + 3];
    }
  }

  // After the counts, the i-th three bits are the length of the i-th symbol in order.
  lemma HeaderOrder(t: Trees, i: nat)
    requires t.Valid() && i < t.ncode
    ensures 17 + 3 * i <= |TreesBits(t)| && TreesBits(t)[14 + 3 * i..17 + 3 * i] == ToBits(t.bl[OrderAt(i)], 3)
  {
    hide ToBits, OrderAt, ThreeBits, RunsBits, Sendable, CodeOk;
    var head := ToBits(|t.ll| - 257, 5) + ToBits(|t.dl| - 1, 5) + ToBits(t.ncode - 4, 4);
    var three := ThreeBits(Ordered(t.bl, t.ncode));
    ThreeBitsAt(Ordered(t.bl, t.ncode), i);
    assert TreesBits(t) == head + three + RunsBits(t.bl, t.Runs());
    assert (head + three)[14 + 3 * i..17 + 3 * i] == three[3 * i..3 * i + 3];
  }

  // The lengths that n times three bits stand for.
  function ReadThree(bits: seq<bool>, n: nat): (cl: seq<nat>)
    requires 3 * n <= |bits|
    ensures |cl| == n
  {
    seq(n, i requires 0 <= i < n => FromBits(bits[3 * i..3 * i + 3]))
  }

  lemma {:induction false} LenLensReads(s: State, bits: seq<bool>, n: nat) returns (e: State)
    requires s.mode == LENLENS && |s.cl| + n == s.ncode && 3 * n <= |bits|
    ensures Runs(s, bits, n, e, bits[3 * n..])
    ensures e == s.(cl := s.cl + ReadThree(bits, n), pos := e.pos)
    decreases n
  {
    hide Runs, FromBits;
    if n == 0 {
      e := s;
      assert bits[0..] == bits && s.cl + [] == s.cl;
      NoRun(s, bits);
    } else {
      var more := bits[3..];
      var m := Take(s, 3).(cl := s.cl + [FromBits(bits[..3])]);
      OneStep(s, bits, m, more);
      e := LenLensReads(m, more, n - 1);
      assert more[3 * (n - 1)..] == bits[3 * n..];
      RunsCompose(s, bits, 1, m, more, n - 1, e, bits[3 * n..]);
      forall i | 0 < i < n ensures ReadThree(bits, n)[i] == ReadThree(more, n - 1)[i - 1] {
        assert bits[3 * i..3 * i + 3] == more[3 * (i - 1)..3 * (i - 1) + 3];
      }
      assert [FromBits(bits[..3])] + ReadThree(more, n - 1) == ReadThree(bits, n);
      Assoc(s.cl, [FromBits(bits[..3])], ReadThree(more, n - 1));
    }
  }

  /**
    The mode LENLENS: the i-th three bits are the length of the i-th symbol in order, and the
    symbols that are not reached have length zero.
   */
  lemma LenLensOrder(s: State, bits: seq<bool>) returns (e: State)
    requires s.mode == LENLENS && s.cl == [] && s.ncode <= BL_CODES && 3 * s.ncode <= |bits|
    ensures Runs(s, bits, s.ncode + 1, e, bits[3 * s.ncode..]) && e.mode in {CODELENS, BAD} && |e.bl| == BL_CODES
    ensures forall i :: 0 <= i < BL_CODES ==>
      e.bl[OrderAt(i)] == if i < s.ncode then FromBits(bits[3 * i..3 * i + 3]) else 0
  {
    hide Runs, FromBits, Acceptable, OrderAt, Permute;
    var m := LenLensReads(s, bits, s.ncode);
    assert m.cl == ReadThree(bits, s.ncode);
    var rest := bits[3 * s.ncode..];
    e := Next(m, rest).next;
    assert rest[0..] == rest;
    OneStep(m, rest, e, rest);
    RunsCompose(s, bits, s.ncode, m, rest, 1, e, rest);
    forall i | 0 <= i < BL_CODES
      ensures e.bl[OrderAt(i)] == if i < s.ncode then FromBits(bits[3 * i..3 * i + 3]) else 0
    {
      PermuteAt(m.cl, i);
    }
  }

  // ---------- reading the code lengths ----------

  // The lengths that one run appends.
  function RunLengths(acc: seq<nat>, r: Run): seq<nat>
    requires r.Repeat? ==> acc != []
  {
    match r
    case Length(len) => [len]
    case Repeat(count) => Times(acc[|acc| - 1], count)
    case ZerosShort(count) => Times(0, count)
    case ZerosLong(count) => Times(0, count)
  }

  lemma RunValue(r: Run, tail: seq<bool>)
    requires RunOk(r)
    ensures var bits := ToBits(ExtraValue(r), ExtraWidth(r)) + tail;
            bits[..ExtraWidth(r)] == ToBits(ExtraValue(r), ExtraWidth(r))
            && FromBits(bits[..ExtraWidth(r)]) == ExtraValue(r) && bits[ExtraWidth(r)..] == tail
  {
    hide ToBits, FromBits, Pow2;
    Pow2Values();
    FromToBits(ExtraValue(r), ExtraWidth(r));
    LowId(ExtraValue(r), ExtraWidth(r));
  }

  lemma RunStep(s: State, r: Run, tail: seq<bool>) returns (e: State)
    requires Ok(s) && s.mode == CODELENS && RunOk(r)
    requires CodeLengths.Symbol(r) < |s.bl| && s.bl[CodeLengths.Symbol(r)] > 0
    requires r.Repeat? ==> s.lens != []
    requires |s.lens| < s.nlen + s.ndist && |s.lens| + |RunLengths(s.lens, r)| <= s.nlen + s.ndist
    ensures Runs(s, RunBits(s.bl, r) + tail, 1, e, tail)
    ensures e == s.(lens := s.lens + RunLengths(s.lens, r), pos := e.pos)
  {
    hide Runs, ToBits, FromBits, CodeBits, CodeOk, Find;
    var sym := CodeLengths.Symbol(r);
    var code, extra := CodeBits(s.bl, sym), ToBits(ExtraValue(r), ExtraWidth(r));
    var bits, n := RunBits(s.bl, r) + tail, s.bl[sym];
    Assoc(code, extra, tail);
    FindCode(CODES, s.bl, sym, extra + tail);
    RunValue(r, tail);
    assert bits[n..n + ExtraWidth(r)] == (extra + tail)[..ExtraWidth(r)];
    assert bits[n + ExtraWidth(r)..] == tail;
    e := Take(s, n + ExtraWidth(r)).(lens := s.lens + RunLengths(s.lens, r));
    OneStep(s, bits, e, tail);
  }

  // All lengths that runs append, one run after another.
  lemma {:induction false} RunsRun(s: State, runs: seq<Run>, tail: seq<bool>) returns (e: State)
    requires Ok(s) && s.mode == CODELENS && Sendable(s.bl, runs)
    requires CodeLengths.Expand(s.lens, runs).Some?
    requires |CodeLengths.Expand(s.lens, runs).value| == s.nlen + s.ndist
    ensures Runs(s, RunsBits(s.bl, runs) + tail, |runs|, e, tail)
    ensures e == s.(lens := CodeLengths.Expand(s.lens, runs).value, pos := e.pos)
    decreases |runs|
  {
    hide Runs, RunBits, Ok;
    if runs == [] {
      e := s;
      assert [] + tail == tail;
      NoRun(s, tail);
    } else {
      var r, more := runs[0], RunsBits(s.bl, runs[1..]) + tail;
      assert r in runs;
      ExpandFirst(s.lens, runs);
      Assoc(RunBits(s.bl, r), RunsBits(s.bl, runs[1..]), tail);
      var m := RunStep(s, r, more);
      RunsOk(s, RunBits(s.bl, r) + more, 1, m, more);
      e := RunsRun(m, runs[1..], tail);
      RunsCompose(s, RunBits(s.bl, r) + more, 1, m, more, |runs| - 1, e, tail);
    }
  }

  lemma ExpandFirst(acc: seq<nat>, runs: seq<Run>)
    requires runs != [] && CodeLengths.Expand(acc, runs).Some? && RunOk(runs[0])
    ensures runs[0].Repeat? ==> acc != []
    ensures CodeLengths.Expand(acc, runs) == CodeLengths.Expand(acc + RunLengths(acc, runs[0]), runs[1..])
    ensures |acc| < |acc| + |RunLengths(acc, runs[0])| <= |CodeLengths.Expand(acc, runs).value|
  {
    ExpandGrows(acc + RunLengths(acc, runs[0]), runs[1..]);
  }

  lemma TableValue(t: Trees, tail: seq<bool>)
    requires t.Valid()
    ensures var bits := ToBits(|t.ll| - 257, 5) + ToBits(|t.dl| - 1, 5) + ToBits(t.ncode - 4, 4) + tail;
            FromBits(bits[..5]) == |t.ll| - 257 && FromBits(bits[5..10]) == |t.dl| - 1
            && FromBits(bits[10..14]) == t.ncode - 4 && bits[14..] == tail
  {
    hide ToBits, FromBits, Pow2, CodeOk;
    assert Pow2(5) == 32 && Pow2(4) == 16 by { Pow2Add(3, 2); Pow2Add(3, 1); Pow2Values(); }
    var a, b, c := ToBits(|t.ll| - 257, 5), ToBits(|t.dl| - 1, 5), ToBits(t.ncode - 4, 4);
    var bits := a + b + c + tail;
    FromToBits(|t.ll| - 257, 5);
    LowId(|t.ll| - 257, 5);
    FromToBits(|t.dl| - 1, 5);
    LowId(|t.dl| - 1, 5);
    FromToBits(t.ncode - 4, 4);
    LowId(t.ncode - 4, 4);
    assert bits[..5] == a && bits[5..10] == b && bits[10..14] == c;
  }

  // From the counts to the first code length.
  lemma CountsRun(s: State, t: Trees, tail: seq<bool>) returns (n: nat, e: State)
    requires Ok(s) && s.mode == TABLE && t.Valid()
    ensures Runs(s, ToBits(|t.ll| - 257, 5) + ToBits(|t.dl| - 1, 5) + ToBits(t.ncode - 4, 4)
                    + (ThreeBits(Ordered(t.bl, t.ncode)) + tail), n, e, tail)
    ensures e.mode == CODELENS && e.bl == t.bl && e.lens == [] && e.nlen == |t.ll| && e.ndist == |t.dl|
    ensures e.last == s.last && e.out == s.out && e.reach == s.reach
  {
    hide Runs, ToBits, FromBits, CodeOk, Encode, Permute, Sendable;
    var cl := Ordered(t.bl, t.ncode);
    var rest := ThreeBits(cl) + tail;
    var bits := ToBits(|t.ll| - 257, 5) + ToBits(|t.dl| - 1, 5) + ToBits(t.ncode - 4, 4) + rest;
    TableValue(t, rest);
    var a := Take(s, 14).(nlen := |t.ll|, ndist := |t.dl|, ncode := t.ncode, mode := LENLENS, cl := []);
    OneStep(s, bits, a, rest);
    RunsOk(s, bits, 1, a, rest);
    var b := LenLensRun(a, cl, tail);
    assert [] + cl == cl;
    PermuteOrdered(t.bl, t.ncode);
    e := CodeReadRun(b, t.bl, tail);
    RunsCompose(a, rest, t.ncode, b, tail, 1, e, tail);
    RunsCompose(s, bits, 1, a, rest, t.ncode + 1, e, tail);
    n := 1 + (t.ncode + 1);
  }

  lemma CodesAccepted(t: CodeType, lens: seq<nat>)
    requires CodeOk(t, lens)
    ensures Acceptable(t, lens)
  {
  }

  lemma TreesParts(t: Trees)
    requires t.Valid()
    ensures Sendable(t.bl, t.Runs()) && 257 <= |t.ll| && 1 <= |t.dl| && t.ncode <= BL_CODES == |t.bl| && t.ncode >= 4
  {
  }

  // With all lengths read the codes are checked and taken into use.
  lemma CodesReadRun(s: State, t: Trees, tail: seq<bool>) returns (e: State)
    requires Ok(s) && s.mode == CODELENS && t.Valid()
    requires s.lens == t.ll + t.dl && s.nlen == |t.ll| && s.ndist == |t.dl|
    ensures Runs(s, tail, 1, e, tail)
    ensures e.mode == LEN && e.ll == t.ll && e.dl == t.dl && e.last == s.last && e.out == s.out && e.reach == s.reach
  {
    hide Runs, CodeOk, Encode, Sendable, Acceptable;
    e := s.(mode := LEN, ll := t.ll, dl := t.dl);
    assert (t.ll + t.dl)[..|t.ll|] == t.ll && (t.ll + t.dl)[|t.ll|..] == t.dl;
    CodesAccepted(LENS, t.ll);
    CodesAccepted(DISTS, t.dl);
    OneStep(s, tail, e, tail);
  }

  // With all code length code lengths read their code is checked.
  lemma CodeReadRun(s: State, bl: seq<nat>, tail: seq<bool>) returns (e: State)
    requires s.mode == LENLENS && |s.cl| == s.ncode && Permute(s.cl) == bl && CodeOk(CODES, bl)
    ensures Runs(s, tail, 1, e, tail)
    ensures e == s.(bl := bl, lens := [], mode := CODELENS)
  {
    hide Runs, CodeOk, Permute, Acceptable;
    e := s.(bl := bl, lens := [], mode := CODELENS);
    CodesAccepted(CODES, bl);
    OneStep(s, tail, e, tail);
  }

  lemma TreesRun(s: State, t: Trees, tail: seq<bool>) returns (n: nat, e: State)
    requires Ok(s) && s.mode == TABLE && t.Valid()
    ensures Runs(s, TreesBits(t) + tail, n, e, tail)
    ensures e.mode == LEN && e.ll == t.ll && e.dl == t.dl && e.last == s.last && e.out == s.out && e.reach == s.reach
  {
    hide Runs, ToBits, CodeOk, Encode, Sendable, CodeLengths.Expand, RunsBits, ThreeBits, Ok;
    TreesParts(t);
    var head := ToBits(|t.ll| - 257, 5) + ToBits(|t.dl| - 1, 5) + ToBits(t.ncode - 4, 4);
    var three, runs := ThreeBits(Ordered(t.bl, t.ncode)), RunsBits(t.bl, t.Runs());
    Assoc(head + three, runs, tail);
    Assoc(head, three, runs + tail);
    var k, a := CountsRun(s, t, runs + tail);
    RunsOk(s, head + (three + (runs + tail)), k, a, runs + tail);
    RoundTrip(t.ll, t.dl);
    var b := RunsRun(a, t.Runs(), tail);
    RunsOk(a, runs + tail, |t.Runs()|, b, tail);
    e := CodesReadRun(b, t, tail);
    RunsCompose(a, runs + tail, |t.Runs()|, b, tail, 1, e, tail);
    RunsCompose(s, head + (three + (runs + tail)), k, a, runs + tail, |t.Runs()| + 1, e, tail);
    n := k + (|t.Runs()| + 1);
  }

  // ---------- blocks and streams ----------

  datatype Block =
    | Stored(data: seq<nat>)
    | Fixed(tokens: seq<Token>)
    | Dynamic(trees: Trees, tokens: seq<Token>)

  // The block can be written, and adds to the output out.
  ghost predicate BlockOk(b: Block, out: seq<nat>) {
    match b
    case Stored(data) => IsBytes(data) && |data| < 0x10000
    case Fixed(tokens) => AllCodable(FixedLit(), FixedDist(), tokens) && Expand(out, tokens).Some?
    case Dynamic(trees, tokens) => trees.Valid() && AllCodable(trees.ll, trees.dl, tokens) && Expand(out, tokens).Some?
  }

  // The output with what the block stands for.
  ghost function BlockOutput(b: Block, out: seq<nat>): seq<nat>
    requires BlockOk(b, out)
  {
    match b
    case Stored(data) => out + data
    case Fixed(tokens) => Expand(out, tokens).value
    case Dynamic(trees, tokens) => Expand(out, tokens).value
  }

  // The largest distance with the block.
  function BlockReach(b: Block, reach: nat): nat {
    match b
    case Stored(_) => reach
    case Fixed(tokens) => Farthest(reach, tokens)
    case Dynamic(_, tokens) => Farthest(reach, tokens)
  }

  // The bits of a block that begins at bit position pos.
  ghost function BlockBits(b: Block, out: seq<nat>, pos: nat, last: bool): seq<bool>
    requires BlockOk(b, out)
  {
    match b
    case Stored(data) => HeaderBits(STORED_BLOCK, last) + StoredBits(pos + 3, data)
    case Fixed(tokens) => HeaderBits(STATIC_TREES, last) + TokensBits(FixedLit(), FixedDist(), tokens)
    case Dynamic(trees, tokens) =>
      HeaderBits(DYN_TREES, last) + (TreesBits(trees) + TokensBits(trees.ll, trees.dl, tokens))
  }

  // The header of section 3.2.3 of RFC 1951, and the blocks that mark a flush.
  lemma BlockHeader(b: Block, out: seq<nat>, pos: nat, last: bool)
    requires BlockOk(b, out)
    ensures |BlockBits(b, out, pos, last)| >= 3
    ensures BlockBits(b, out, pos, last)[..3] == [last, b.Fixed?, b.Dynamic?]
  {
    hide StoredBits, TokensBits, TreesBits, FixedLit, FixedDist, AllCodable, Expand, Trees.Valid;
    assert HeaderBits(STORED_BLOCK, last) == [last, false, false];
    assert HeaderBits(STATIC_TREES, last) == [last, true, false];
    assert HeaderBits(DYN_TREES, last) == [last, false, true];
  }

  function Repeated(bit: bool, n: nat): (r: seq<bool>)
    ensures |r| == n
  {
    seq(n, i => bit)
  }

  // A block without tokens: its header and the code 0000000.
  lemma EmptyFixed(out: seq<nat>, pos: nat)
    requires BlockOk(Fixed([]), out)
    ensures BlockBits(Fixed([]), out, pos, false) == [false, true, false] + Repeated(false, 7)
  {
    hide StoredBits, FixedLit, FixedDist, AllCodable, Expand, CodeOf;
    BlockHeader(Fixed([]), out, pos, false);
    FixedCode(END_BLOCK);
    ZeroCode(7);
    assert BlockBits(Fixed([]), out, pos, false)[3..] == CodeBits(FixedLit(), END_BLOCK);
  }

  lemma {:induction false} ZeroCode(n: nat)
    ensures MsbBits(0, n) == Repeated(false, n) && ToBits(0, n) == Repeated(false, n)
  {
    if n > 0 {
      ZeroCode(n - 1);
    }
  }

  lemma {:induction false} OnesCode(n: nat)
    ensures ToBits(Pow2(n) - 1, n) == Repeated(true, n)
  {
    if n > 0 {
      OnesCode(n - 1);
      assert (Pow2(n) - 1) / 2 == Pow2(n - 1) - 1;
    }
  }

  // A stored block without data, as in section 3.2.4 of RFC 1951.
  lemma EmptyStored(out: seq<nat>, pos: nat)
    requires BlockOk(Stored([]), out)
    ensures BlockBits(Stored([]), out, pos, false)
            == [false, false, false] + Padding(pos + 3) + Repeated(false, 16) + Repeated(true, 16)
  {
    hide TokensBits, TreesBits, FixedLit, FixedDist, AllCodable, Expand, ToBits, Padding;
    BlockHeader(Stored([]), out, pos, false);
    ZeroCode(16);
    OnesCode(16);
    Pow2Values();
    Pow2Add(8, 8);
    assert BytesBits([]) == [] by { BytesBitsNone(); }
    var bits := BlockBits(Stored([]), out, pos, false);
    assert bits == bits[..3] + StoredBits(pos + 3, []);
  }

  // The decoder reads back any block, stored, fixed or dynamic, and what follows it is left.
  lemma BlockRun(s: State, b: Block, last: bool, tail: seq<bool>) returns (n: nat, e: State)
    requires Ok(s) && s.mode == TYPE && !s.last && BlockOk(b, s.out)
    ensures Runs(s, BlockBits(b, s.out, s.pos, last) + tail, n, e, tail)
    ensures e.mode == TYPE && e.last == last && e.out == BlockOutput(b, s.out) && e.reach == BlockReach(b, s.reach)
    ensures Ok(e) && e.pos == s.pos + |BlockBits(b, s.out, s.pos, last)|
  {
    hide Runs, HeaderBits, StoredBits, TokensBits, TreesBits, FixedLit, FixedDist, AllCodable, Expand, Ok;
    var bits := BlockBits(b, s.out, s.pos, last) + tail;
    match b {
      case Stored(data) =>
        var rest := StoredBits(s.pos + 3, data) + tail;
        Assoc(HeaderBits(STORED_BLOCK, last), StoredBits(s.pos + 3, data), tail);
        var h := HeaderRun(s, STORED_BLOCK, last, rest);
        RunsOk(s, bits, 1, h, rest);
        var k;
        k, e := StoredRun(h, data, tail);
        RunsCompose(s, bits, 1, h, rest, k, e, tail);
        n := 1 + k;
      case Fixed(tokens) =>
        var rest := TokensBits(FixedLit(), FixedDist(), tokens) + tail;
        Assoc(HeaderBits(STATIC_TREES, last), TokensBits(FixedLit(), FixedDist(), tokens), tail);
        var h := HeaderRun(s, STATIC_TREES, last, rest);
        RunsOk(s, bits, 1, h, rest);
        var k;
        k, e := TokensRun(h, tokens, tail);
        RunsCompose(s, bits, 1, h, rest, k, e, tail);
        n := 1 + k;
      case Dynamic(trees, tokens) =>
        n, e := DynamicRun(s, trees, tokens, last, tail);
    }
    RunsOk(s, bits, n, e, tail);
  }

  lemma DynamicRun(s: State, trees: Trees, tokens: seq<Token>, last: bool, tail: seq<bool>) returns (n: nat, e: State)
    requires Ok(s) && s.mode == TYPE && !s.last && BlockOk(Dynamic(trees, tokens), s.out)
    ensures Runs(s, BlockBits(Dynamic(trees, tokens), s.out, s.pos, last) + tail, n, e, tail)
    ensures e.mode == TYPE && e.last == last && e.out == BlockOutput(Dynamic(trees, tokens), s.out)
    ensures e.reach == Farthest(s.reach, tokens)
  {
    hide Runs, HeaderBits, TokensBits, TreesBits, AllCodable, Expand, Ok;
    var head, a, b := HeaderBits(DYN_TREES, last), TreesBits(trees), TokensBits(trees.ll, trees.dl, tokens);
    Assoc(head, a + b, tail);
    Assoc(a, b, tail);
    var h := HeaderRun(s, DYN_TREES, last, a + (b + tail));
    RunsOk(s, head + (a + (b + tail)), 1, h, a + (b + tail));
    var j, m := TreesRun(h, trees, b + tail);
    RunsOk(h, a + (b + tail), j, m, b + tail);
    var k;
    k, e := TokensRun(m, tokens, tail);
    RunsCompose(h, a + (b + tail), j, m, b + tail, k, e, tail);
    RunsCompose(s, head + (a + (b + tail)), 1, h, a + (b + tail), j + k, e, tail);
    n := 1 + (j + k);
  }

  // A stream: blocks, the last of them marked, and padding to a byte boundary.
  ghost predicate StreamOk(bs: seq<Block>, out: seq<nat>)
    decreases |bs|
  {
    bs != [] && BlockOk(bs[0], out) && (|bs| > 1 ==> StreamOk(bs[1..], BlockOutput(bs[0], out)))
  }

  ghost function StreamOutput(bs: seq<Block>, out: seq<nat>): seq<nat>
    requires StreamOk(bs, out)
    decreases |bs|
  {
    var next := BlockOutput(bs[0], out);
    if |bs| > 1 then StreamOutput(bs[1..], next) else next
  }

  ghost function StreamBits(bs: seq<Block>, out: seq<nat>, pos: nat): seq<bool>
    requires StreamOk(bs, out)
    decreases |bs|
  {
    var bits := BlockBits(bs[0], out, pos, |bs| == 1);
    if |bs| > 1 then bits + StreamBits(bs[1..], BlockOutput(bs[0], out), pos + |bits|)
    else bits + Padding(pos + |bits|)
  }

  /**
    Inflating a stream gives back what its blocks stand for: from mode TYPE the decoder
    consumes exactly the stream and stops in mode DONE.
   */
  lemma {:induction false} StreamRun(s: State, bs: seq<Block>, tail: seq<bool>) returns (n: nat, e: State)
    requires Ok(s) && s.mode == TYPE && !s.last && StreamOk(bs, s.out)
    ensures Runs(s, StreamBits(bs, s.out, s.pos) + tail, n, e, tail)
    ensures e.mode == DONE && e.out == StreamOutput(bs, s.out)
    decreases |bs|
  {
    hide Runs, BlockBits, BlockOutput, BlockOk, Ok, Padding;
    var bits := BlockBits(bs[0], s.out, s.pos, |bs| == 1);
    var k, m, j;
    if |bs| > 1 {
      var rest := StreamBits(bs[1..], BlockOutput(bs[0], s.out), s.pos + |bits|);
      Assoc(bits, rest, tail);
      k, m := BlockRun(s, bs[0], false, rest + tail);
      j, e := StreamRun(m, bs[1..], tail);
      RunsCompose(s, bits + (rest + tail), k, m, rest + tail, j, e, tail);
      n := k + j;
    } else {
      var rest := Padding(s.pos + |bits|);
      Assoc(bits, rest, tail);
      k, m := BlockRun(s, bs[0], true, rest + tail);
      e := Take(m, Skip(m)).(mode := DONE);
      OneStep(m, rest + tail, e, tail);
      RunsCompose(s, bits + (rest + tail), k, m, rest + tail, 1, e, tail);
      n := k + 1;
    }
  }
}
