/**
  The bit accumulator of inflate(): hold and bits against the stream.  The valid bits of
  hold are the bits of the stream from the current position to the end of the input taken
  so far; PULLBYTE, BITS, DROPBITS and giving bytes back keep it so, and a table lookup
  on hold recognises exactly the symbols of the canonical code.
 */
module Accumulator {
  import opened Bits
  import opened Canonical
  import opened InflateTable
  import opened BitWriter
  import opened Inflater
  import opened InflaterRuns

  // hold holds the bits of the stream b from position pos on.
  ghost predicate Holding(b: seq<bool>, pos: nat, hold: nat, bits: nat) {
    pos + bits == |b| && hold < Pow2(bits) && ToBits(hold, bits) == b[pos..]
  }

  lemma HoldingBits(b: seq<bool>, pos: nat, hold: nat, bits: nat)
    requires Holding(b, pos, hold, bits)
    ensures pos + bits == |b| && hold < Pow2(bits)
  {
  }

  lemma HoldingNone(b: seq<bool>)
    ensures Holding(b, |b|, 0, 0)
  {
  }

  // PULLBYTE
  lemma Pulled(b: seq<bool>, pos: nat, hold: nat, bits: nat, byte: nat)
    requires Holding(b, pos, hold, bits) && byte < 256
    ensures Holding(b + ToBits(byte, 8), pos, hold + Shl(byte, bits), bits + 8)
  {
    hide ToBits, Shl, Pow2;
    Pow2Values();
    ToBitsJoin(hold, byte, bits, 8);
    JoinBound(hold, byte, bits, 8);
  }

  // BITS(n)
  lemma Peeked(b: seq<bool>, pos: nat, hold: nat, bits: nat, n: nat)
    requires Holding(b, pos, hold, bits) && n <= bits
    ensures pos <= |b| && Low(hold, n) == FromBits(b[pos..][..n])
  {
    hide ToBits, FromBits, Low, Pow2;
    ToBitsPrefix(hold, n, bits);
    FromToBits(hold, n);
  }

  // DROPBITS(n)
  lemma Dropped(b: seq<bool>, pos: nat, hold: nat, bits: nat, n: nat)
    requires Holding(b, pos, hold, bits) && n <= bits
    ensures Holding(b, pos + n, Shr(hold, n), bits - n)
  {
    hide ToBits, Shr, Pow2;
    ToBitsSplit(hold, n, bits - n);
    ShrBelow(hold, n, bits);
    assert n + (bits - n) == bits;
    assert b[pos + n..] == b[pos..][n..];
  }

  // DROPBITS(n) and BITS(m)
  lemma PeekedAt(b: seq<bool>, pos: nat, hold: nat, bits: nat, n: nat, m: nat)
    requires Holding(b, pos, hold, bits) && n + m <= bits
    ensures pos <= |b| && Low(Shr(hold, n), m) == FromBits(b[pos..][n..n + m])
  {
    hide Holding, Low, Shr, FromBits;
    HoldingBits(b, pos, hold, bits);
    Dropped(b, pos, hold, bits, n);
    Peeked(b, pos + n, Shr(hold, n), bits - n, m);
    assert b[pos + n..][..m] == b[pos..][n..n + m];
  }

  // Giving back the last k bytes taken.
  lemma GivenBack(b: seq<bool>, pos: nat, hold: nat, bits: nat, k: nat)
    requires Holding(b, pos, hold, bits) && 8 * k <= bits
    ensures Holding(b[..|b| - 8 * k], pos, Low(hold, bits - 8 * k), bits - 8 * k)
  {
    hide ToBits, Low, Pow2;
    var n := bits - 8 * k;
    ToBitsPrefix(hold, n, bits);
    ToBitsLow(hold, n, n);
    assert b[..|b| - 8 * k][pos..] == b[pos..][..n];
  }

  // The accumulator fits 32 bits when it is filled only while at most 24 bits are held.
  lemma Fits32(hold: nat, bits: nat)
    requires hold < Pow2(bits) && bits <= 32
    ensures hold <= 0xffff_ffff
  {
    hide Pow2;
    Pow2Mono(bits, 32);
    Pow2Add(16, 16);
    Pow2Values();
    assert Pow2(32) == 0x10000 * 0x10000;
  }

  // BYTEBITS
  lemma BytePlace(b: seq<bool>, pos: nat, hold: nat, bits: nat)
    requires Holding(b, pos, hold, bits) && |b| % 8 == 0
    ensures |Padding(pos)| == bits % 8
  {
    hide Padding, Holding;
    HoldingBits(b, pos, hold, bits);
    PaddingLength(pos, bits);
  }

  lemma PaddingLength(n: nat, k: nat)
    requires (n + k) % 8 == 0
    ensures |Padding(n)| == k % 8
  {
  }

  // ---------- table lookups ----------

  lemma WindowIsLow(b: seq<bool>, pos: nat, hold: nat, bits: nat)
    requires Holding(b, pos, hold, bits)
    ensures pos <= |b| && Window(b[pos..]) == Low(hold, MAXBITS)
  {
    hide Holding, FromBits, Low, Pow2;
    HoldingBits(b, pos, hold, bits);
    if bits < MAXBITS {
      Peeked(b, pos, hold, bits, bits);
      assert b[pos..][..bits] == b[pos..];
      LowId(hold, bits);
      Pow2Mono(bits, MAXBITS);
      LowId(hold, MAXBITS);
    } else {
      Peeked(b, pos, hold, bits, MAXBITS);
    }
  }

  // A lookup looks at no more than 15 bits.
  lemma LookupLow(tab: seq<Entry>, start: nat, root: nat, w: nat, l: nat)
    requires root <= MAXBITS && InTable(tab, start, root, Low(w, MAXBITS))
    requires Rooted(tab, start, root, Low(w, MAXBITS), l)
    ensures InTable(tab, start, root, w) && Rooted(tab, start, root, w, l)
    ensures Lookup(tab, start, root, w) == Lookup(tab, start, root, Low(w, MAXBITS))
  {
    hide Low, Shr;
    LowLow(w, root, MAXBITS);
    var e := tab[start + Low(w, root)];
    if IsLink(e) {
      var x := Low(w, MAXBITS);
      LowOfShr(x, root, e.op);
      LowOfShr(w, root, e.op);
      LowLow(w, root + e.op, MAXBITS);
    }
  }

  // A code together with its decoding table.
  ghost predicate Decoding(tab: seq<Entry>, start: nat, root: nat, t: CodeType, lens: seq<nat>) {
    CodeOk(t, lens) && 1 <= root <= MAXBITS && exists used :: TableBuilt(tab, start, root, used, t, lens)
  }

  // What the bits at hand look up to.
  ghost predicate Looked(f: Found, d: Decoded, t: CodeType, lens: seq<nat>, bits: nat) {
    match f
    case More => d.bits > bits
    case Symbol(s) => s < |lens| && s < MaxCodes(t) && 1 <= lens[s] <= bits && d == DecodedSymbol(t, s, lens[s])
    case Invalid => d == Decoded(64, 0, 1) && bits >= 1
  }

  // How a lookup goes: one entry, or a link and the entry of a sub-table.
  ghost predicate Route(tab: seq<Entry>, start: nat, root: nat, hold: nat)
    requires InTable(tab, start, root, hold)
  {
    var e := tab[start + Low(hold, root)];
    var d := Lookup(tab, start, root, hold);
    && d.bits <= MAXBITS
    && if IsLink(e) then e.bits == root < d.bits && root + e.op <= MAXBITS else d.bits == e.bits
  }

  lemma LookupFinds(tab: seq<Entry>, start: nat, root: nat, t: CodeType, lens: seq<nat>,
                    b: seq<bool>, pos: nat, hold: nat, bits: nat)
    requires Decoding(tab, start, root, t, lens) && Holding(b, pos, hold, bits)
    ensures pos <= |b| && InTable(tab, start, root, hold) && Route(tab, start, root, hold)
    ensures Looked(Find(lens, b[pos..]), Lookup(tab, start, root, hold), t, lens, bits)
    ensures t.CODES? ==> !IsLink(tab[start + Low(hold, root)])
  {
    hide TableBuilt, Holding, CodeOk, ToBits, Low, Window, Rooted, InTable, DecodedSymbol, Find, Lookup, Route, Looked;
    var used :| TableBuilt(tab, start, root, used, t, lens);
    HoldingBits(b, pos, hold, bits);
    var rest := b[pos..];
    var w := Window(rest);
    WindowIsLow(b, pos, hold, bits);
    WindowBound(rest);
    CodeParts(t, lens);
    TableDecodes(tab, start, root, used, t, lens, w);
    match DecodeSymbol(lens, ToBits(w, MAXBITS))
    case Some(s) =>
      LookupLow(tab, start, root, hold, lens[s]);
      SymbolFound(lens, rest, s);
      SymbolRoute(tab, start, root, t, lens, hold, s);
      SymbolLooked(t, lens, rest, s, Lookup(tab, start, root, hold));
      CodesRooted(tab, start, root, used, t, lens, s);
      RootedPlain(tab, start, root, hold, lens[s]);
    case None =>
      LookupLow(tab, start, root, hold, 1);
      InvalidRoute(tab, start, root, hold);
      InvalidFound(lens, rest);
      InvalidLooked(t, lens, rest, Lookup(tab, start, root, hold));
      InvalidPlain(tab, start, root, used, t, lens, hold);
  }

  lemma SymbolRoute(tab: seq<Entry>, start: nat, root: nat, t: CodeType, lens: seq<nat>, hold: nat, s: nat)
    requires s < |lens| && s < MaxCodes(t) && lens[s] <= MAXBITS && InTable(tab, start, root, hold)
    requires Lookup(tab, start, root, hold) == DecodedSymbol(t, s, lens[s]) && Rooted(tab, start, root, hold, lens[s])
    ensures Route(tab, start, root, hold)
  {
    hide SymbolEntry, Low, Shr;
  }

  lemma InvalidRoute(tab: seq<Entry>, start: nat, root: nat, hold: nat)
    requires InTable(tab, start, root, hold) && root >= 1
    requires Lookup(tab, start, root, hold) == Decoded(64, 0, 1) && Rooted(tab, start, root, hold, 1)
    ensures Route(tab, start, root, hold)
  {
    hide Low, Shr;
  }

  lemma SymbolFound(lens: seq<nat>, bits: seq<bool>, s: nat)
    requires DecodeSymbol(lens, ToBits(Window(bits), MAXBITS)) == Some(s)
    ensures s < |lens| && lens[s] >= 1
    ensures Find(lens, bits) == if lens[s] <= |bits| then Symbol(s) else More
  {
    hide ToBits, Window;
  }

  lemma InvalidFound(lens: seq<nat>, bits: seq<bool>)
    requires DecodeSymbol(lens, ToBits(Window(bits), MAXBITS)) == None
    ensures Find(lens, bits) == if |bits| >= 1 then Invalid else More
  {
    hide ToBits, Window;
  }

  lemma SymbolLooked(t: CodeType, lens: seq<nat>, bits: seq<bool>, s: nat, d: Decoded)
    requires s < |lens| && s < MaxCodes(t) && lens[s] >= 1 && d == DecodedSymbol(t, s, lens[s])
    requires Find(lens, bits) == if lens[s] <= |bits| then Symbol(s) else More
    ensures Looked(Find(lens, bits), d, t, lens, |bits|)
  {
    hide Find, SymbolEntry;
  }

  lemma InvalidLooked(t: CodeType, lens: seq<nat>, bits: seq<bool>, d: Decoded)
    requires d == Decoded(64, 0, 1)
    requires Find(lens, bits) == if |bits| >= 1 then Invalid else More
    ensures Looked(Find(lens, bits), d, t, lens, |bits|)
  {
    hide Find;
  }

  lemma CodesRooted(tab: seq<Entry>, start: nat, root: nat, used: nat, t: CodeType, lens: seq<nat>, s: nat)
    requires TableBuilt(tab, start, root, used, t, lens) && s < |lens|
    ensures t.CODES? ==> lens[s] <= root
  {
    hide Represents, Complete, NoCodes;
  }

  lemma RootedPlain(tab: seq<Entry>, start: nat, root: nat, hold: nat, l: nat)
    requires InTable(tab, start, root, hold) && Rooted(tab, start, root, hold, l)
    ensures l <= root ==> !IsLink(tab[start + Low(hold, root)])
  {
    hide Low, Shr;
  }

  lemma InvalidPlain(tab: seq<Entry>, start: nat, root: nat, used: nat, t: CodeType, lens: seq<nat>, hold: nat)
    requires InTable(tab, start, root, hold) && Rooted(tab, start, root, hold, 1)
    requires TableBuilt(tab, start, root, used, t, lens)
    ensures !IsLink(tab[start + Low(hold, root)])
  {
    hide Represents, Complete, NoCodes, Low, Shr;
  }

  lemma CodeParts(t: CodeType, lens: seq<nat>)
    requires CodeOk(t, lens)
    ensures |lens| <= MaxCodes(t) && LengthsOk(lens) && Acceptable(t, lens)
  {
  }
}
