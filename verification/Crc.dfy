/**
  The CRC-32 of section 8 of RFC 1952: the tables, crc32() a byte at a time and four bytes
  at a time on machines of either byte order, and crc32_combine().

  The specification is the shift register taken one bit at a time.  Everything else follows
  from its being linear over exclusive-or.
 */
module Crc {
  import opened Bits
  import opened Hash

  const POLY: nat := 0xedb8_8320
  const ONES: nat := 0xffff_ffff

  // ---------- the register ----------

  // One bit of zero: shift, and add the polynomial if a one falls out.
  function Step(c: nat): nat {
    if c % 2 == 1 then Xor(c / 2, POLY) else c / 2
  }

  function Steps(c: nat, n: nat): nat
    decreases n
  {
    if n == 0 then c else Steps(Step(c), n - 1)
  }

  // The register after a text, bit by bit.
  function Register(c: nat, s: seq<nat>): nat {
    if s == [] then c else Steps(Xor(Register(c, s[..|s| - 1]), s[|s| - 1]), 8)
  }

  // The checksum going on from the checksum of what comes before.
  function Checksum(crc: nat, s: seq<nat>): nat {
    Xor(Register(Xor(crc, ONES), s), ONES)
  }

  predicate Bytes(s: seq<nat>) {
    forall i :: 0 <= i < |s| ==> s[i] < 256
  }

  // ---------- exclusive-or ----------

  lemma {:induction false} XorComm(x: nat, y: nat)
    ensures Xor(x, y) == Xor(y, x)
    decreases x + y
  {
    if x + y > 0 {
      XorComm(x / 2, y / 2);
      hide Xor;
      XorStep(x, y);
      XorStep(y, x);
    }
  }

  // Sums of four terms in another order.
  lemma XorFour(a: nat, b: nat, c: nat, d: nat)
    ensures Xor(Xor(a, b), Xor(c, d)) == Xor(Xor(a, c), Xor(b, d))
  {
    hide Xor;
    XorAssoc(a, b, Xor(c, d));
    XorAssoc(b, c, d);
    XorComm(b, c);
    XorAssoc(c, b, d);
    XorAssoc(a, c, Xor(b, d));
  }

  lemma XorTwice(x: nat, y: nat)
    ensures Xor(Xor(x, y), y) == x
  {
    hide Xor;
    XorAssoc(x, y, y);
    XorSelf(y);
    XorZero(x);
  }

  lemma {:induction false} XorBound(x: nat, y: nat, n: nat)
    requires x < Pow2(n) && y < Pow2(n)
    ensures Xor(x, y) < Pow2(n)
  {
    if n > 0 {
      XorBound(x / 2, y / 2, n - 1);
      XorStep(x, y);
    } else {
      XorZero(0);
    }
  }

  // Exclusive-or of words, part by part.
  lemma {:induction false} XorJoin(lo: nat, hi: nat, lo': nat, hi': nat, n: nat)
    requires lo < Pow2(n) && lo' < Pow2(n)
    ensures Xor(lo + Shl(hi, n), lo' + Shl(hi', n)) == Xor(lo, lo') + Shl(Xor(hi, hi'), n)
  {
    if n == 0 {
      XorZero(0);
    } else {
      XorJoin(lo / 2, hi, lo' / 2, hi', n - 1);
      var x, y := lo + Shl(hi, n), lo' + Shl(hi', n);
      HalfJoin(lo, hi, n);
      HalfJoin(lo', hi', n);
      hide Xor, Pow2;
      XorStep(x, y);
      XorStep(lo, lo');
    }
  }

  lemma HalfJoin(lo: nat, hi: nat, n: nat)
    requires n > 0
    ensures (lo + Shl(hi, n)) / 2 == lo / 2 + Shl(hi, n - 1) && (lo + Shl(hi, n)) % 2 == lo % 2
  {
  }

  lemma XorDisjoint(lo: nat, hi: nat, n: nat)
    requires lo < Pow2(n)
    ensures Xor(lo, Shl(hi, n)) == lo + Shl(hi, n)
  {
    hide Xor, Shl, Pow2;
    XorJoin(lo, 0, 0, hi, n);
    ShlOne(n);
    XorZero(lo);
    XorZero(hi);
  }

  // ---------- linearity ----------

  lemma StepLinear(a: nat, b: nat)
    ensures Step(Xor(a, b)) == Xor(Step(a), Step(b))
  {
    hide Xor;
    XorParts(a, b);
    var x, y := a / 2, b / 2;
    if a % 2 == 1 && b % 2 == 1 {
      XorFour(x, POLY, y, POLY);
      XorSelf(POLY);
      XorZero(Xor(x, y));
    } else if a % 2 == 1 {
      XorFour(x, POLY, y, 0);
      XorZero(y);
      XorZero(POLY);
    } else if b % 2 == 1 {
      XorFour(x, 0, y, POLY);
      XorZero(x);
      XorZero(POLY);
    }
  }

  lemma {:induction false} StepsLinear(a: nat, b: nat, n: nat)
    ensures Steps(Xor(a, b), n) == Xor(Steps(a, n), Steps(b, n))
    decreases n
  {
    hide Xor, Step;
    if n > 0 {
      StepLinear(a, b);
      StepsLinear(Step(a), Step(b), n - 1);
    }
  }

  lemma {:induction false} StepsAdd(c: nat, m: nat, n: nat)
    ensures Steps(Steps(c, m), n) == Steps(c, m + n)
    decreases m
  {
    hide Step;
    if m > 0 {
      StepsAdd(Step(c), m - 1, n);
    }
  }

  // Zero bits that are shifted out do nothing else.
  lemma {:induction false} StepsShl(x: nat, n: nat)
    ensures Steps(Shl(x, n), n) == x
  {
    if n > 0 {
      assert Step(Shl(x, n)) == Shl(x, n - 1);
      StepsShl(x, n - 1);
    }
  }

  lemma Words()
    ensures Pow2(8) == 256 && Pow2(16) == 0x1_0000 && Pow2(24) == 0x100_0000 && Pow2(32) == 0x1_0000_0000
  {
    hide Pow2;
    Pow2Values();
    Pow2Add(16, 8);
    Pow2Add(16, 16);
  }

  lemma StepBound(c: nat)
    requires c < Pow2(32)
    ensures Step(c) < Pow2(32)
  {
    Words();
    hide Xor, Pow2;
    XorBound(c / 2, POLY, 32);
  }

  lemma {:induction false} StepsBound(c: nat, n: nat)
    requires c < Pow2(32)
    ensures Steps(c, n) < Pow2(32)
    decreases n
  {
    hide Step, Pow2;
    if n > 0 {
      StepBound(c);
      StepsBound(Step(c), n - 1);
    }
  }

  // ---------- texts ----------

  lemma RegisterPush(c: nat, s: seq<nat>, b: nat)
    ensures Register(c, s + [b]) == Steps(Xor(Register(c, s), b), 8)
  {
    assert (s + [b])[..|s|] == s;
  }

  lemma {:induction false} RegisterConcat(c: nat, s: seq<nat>, t: seq<nat>)
    ensures Register(c, s + t) == Register(Register(c, s), t)
  {
    hide Xor, Steps;
    if t == [] {
      assert s + t == s;
    } else {
      var u, b := t[..|t| - 1], t[|t| - 1];
      RegisterConcat(c, s, u);
      assert s + t == (s + u) + [b] && t == u + [b];
      RegisterPush(c, s + u, b);
      RegisterPush(Register(c, s), u, b);
    }
  }

  // A text as a number, first byte lowest.
  function Number(s: seq<nat>): nat {
    if s == [] then 0 else Xor(Number(s[..|s| - 1]), Shl(s[|s| - 1], 8 * (|s| - 1)))
  }

  // The bytes of a text may be added to the register all at once.
  lemma {:induction false} RegisterAtOnce(c: nat, s: seq<nat>)
    ensures Register(c, s) == Steps(Xor(c, Number(s)), 8 * |s|)
  {
    hide Xor, Shl;
    if s == [] {
      XorZero(c);
    } else {
      var u, b := s[..|s| - 1], s[|s| - 1];
      var n := 8 * |u|;
      RegisterAtOnce(c, u);
      StepsShl(b, n);
      StepsLinear(Xor(c, Number(u)), Shl(b, n), n);
      StepsAdd(Xor(Xor(c, Number(u)), Shl(b, n)), n, 8);
      XorAssoc(c, Number(u), Shl(b, n));
    }
  }

  // The register splits into what it does to the start value and to the text.
  lemma {:induction false} RegisterLinear(c: nat, d: nat, s: seq<nat>)
    ensures Register(Xor(c, d), s) == Xor(Steps(c, 8 * |s|), Register(d, s))
  {
    hide Xor, Steps, Number;
    RegisterAtOnce(Xor(c, d), s);
    RegisterAtOnce(d, s);
    XorAssoc(c, d, Number(s));
    StepsLinear(c, Xor(d, Number(s)), 8 * |s|);
  }

  // ---------- bytes and words ----------

  function Byte(x: nat, i: nat): (r: nat)
    ensures r < 256
    decreases i
  {
    if i == 0 then x % 256 else Byte(x / 256, i - 1)
  }

  // The word with these bytes, lowest first.
  function Word(b0: nat, b1: nat, b2: nat, b3: nat): nat {
    b0 + 256 * (b1 + 256 * (b2 + 256 * b3))
  }

  // ZSWAP32
  function Swap(x: nat): nat {
    Word(Byte(x, 3), Byte(x, 2), Byte(x, 1), Byte(x, 0))
  }

  // (x >> 8 * i) & 0xff
  lemma {:induction false} ByteIs(x: nat, i: nat)
    ensures Byte(x, i) == Low(Shr(x, 8 * i), 8)
    decreases i
  {
    hide Pow2, Low, Shr;
    Words();
    if i == 0 {
      ShrNone(x);
      ShrIsDiv(x, 8);
    } else {
      ByteIs(x / 256, i - 1);
      ShrIsDiv(x, 8);
      ShrShr(x, 8, 8 * (i - 1));
    }
  }

  lemma ShrNone(x: nat)
    ensures Shr(x, 0) == x
  {
  }

  lemma FirstByte(b: nat, q: nat)
    requires b < 256
    ensures (b + 256 * q) % 256 == b && (b + 256 * q) / 256 == q
  {
  }

  lemma WordBytes(b0: nat, b1: nat, b2: nat, b3: nat)
    requires b0 < 256 && b1 < 256 && b2 < 256 && b3 < 256
    ensures var w := Word(b0, b1, b2, b3);
            w < Pow2(32) && Byte(w, 0) == b0 && Byte(w, 1) == b1 && Byte(w, 2) == b2 && Byte(w, 3) == b3
  {
    hide Pow2;
    Words();
    FirstByte(b0, b1 + 256 * (b2 + 256 * b3));
    FirstByte(b1, b2 + 256 * b3);
    FirstByte(b2, b3);
    ByteNext(Word(b0, b1, b2, b3), 0);
    ByteNext(Word(b0, b1, b2, b3), 1);
    ByteNext(Word(b0, b1, b2, b3), 2);
    ByteNext(b1 + 256 * (b2 + 256 * b3), 0);
    ByteNext(b1 + 256 * (b2 + 256 * b3), 1);
    ByteNext(b2 + 256 * b3, 0);
  }

  lemma ByteNext(x: nat, i: nat)
    ensures Byte(x, i + 1) == Byte(x / 256, i) && Byte(x, 0) == x % 256
  {
  }

  lemma BytesWord(x: nat)
    requires x < Pow2(32)
    ensures Word(Byte(x, 0), Byte(x, 1), Byte(x, 2), Byte(x, 3)) == x && Byte(x, 3) == x / 256 / 256 / 256
    ensures Swap(x) < Pow2(32)
  {
    hide Byte, Pow2;
    Words();
    var y := x / 256;
    var z := y / 256;
    var t := z / 256;
    LastByte(x, 0x100_0000);
    LastByte(y, 0x1_0000);
    LastByte(z, 0x100);
    LastByte(t, 1);
    ByteNext(x, 0);
    ByteNext(x, 1);
    ByteNext(x, 2);
    ByteNext(y, 0);
    ByteNext(y, 1);
    ByteNext(z, 0);
    ByteNext(t, 0);
    WordBytes(Byte(x, 3), Byte(x, 2), Byte(x, 1), Byte(x, 0));
  }

  lemma LastByte(x: nat, m: nat)
    requires x < 256 * m
    ensures x == x % 256 + 256 * (x / 256) && x / 256 < m
  {
  }

  // The topmost byte.
  lemma TopByte(x: nat)
    requires x < Pow2(32)
    ensures Shr(x, 24) == Byte(x, 3)
  {
    hide Byte, Pow2, Shr, Word, Swap;
    Words();
    BytesWord(x);
    ShrShr(x, 8, 8);
    ShrShr(x, 16, 8);
    ShrIsDiv(x, 8);
    ShrIsDiv(x / 256, 8);
    ShrIsDiv(x / 256 / 256, 8);
  }

  lemma SwapSwap(x: nat)
    requires x < Pow2(32)
    ensures Swap(Swap(x)) == x
  {
    hide Byte, Word, Pow2;
    BytesWord(x);
    WordBytes(Byte(x, 3), Byte(x, 2), Byte(x, 1), Byte(x, 0));
  }

  lemma XorWord(a0: nat, a1: nat, a2: nat, a3: nat, b0: nat, b1: nat, b2: nat, b3: nat)
    requires a0 < 256 && a1 < 256 && a2 < 256 && b0 < 256 && b1 < 256 && b2 < 256
    ensures Xor(Word(a0, a1, a2, a3), Word(b0, b1, b2, b3)) == Word(Xor(a0, b0), Xor(a1, b1), Xor(a2, b2), Xor(a3, b3))
  {
    hide Xor, Pow2, Shl;
    Words();
    XorNext(a2, a3, b2, b3);
    XorNext(a1, a2 + 256 * a3, b1, b2 + 256 * b3);
    XorNext(a0, a1 + 256 * (a2 + 256 * a3), b0, b1 + 256 * (b2 + 256 * b3));
  }

  lemma XorNext(a: nat, x: nat, b: nat, y: nat)
    requires a < 256 && b < 256
    ensures Xor(a + 256 * x, b + 256 * y) == Xor(a, b) + 256 * Xor(x, y)
  {
    hide Xor, Pow2, Shl;
    Words();
    Shl256(x);
    Shl256(y);
    Shl256(Xor(x, y));
    XorJoin(a, x, b, y, 8);
  }

  lemma Shl256(x: nat)
    ensures Shl(x, 8) == 256 * x
  {
    ShlIsMul(x, 8);
    Words();
  }

  lemma SwapXor(x: nat, y: nat)
    requires x < Pow2(32) && y < Pow2(32)
    ensures Swap(Xor(x, y)) == Xor(Swap(x), Swap(y))
  {
    hide Byte, Word, Pow2, Xor;
    XorBytes(x, y);
    BytesWord(x);
    BytesWord(y);
    XorWord(Byte(x, 3), Byte(x, 2), Byte(x, 1), Byte(x, 0), Byte(y, 3), Byte(y, 2), Byte(y, 1), Byte(y, 0));
  }

  lemma XorBytes(x: nat, y: nat)
    requires x < Pow2(32) && y < Pow2(32)
    ensures Byte(Xor(x, y), 0) == Xor(Byte(x, 0), Byte(y, 0)) && Byte(Xor(x, y), 1) == Xor(Byte(x, 1), Byte(y, 1))
    ensures Byte(Xor(x, y), 2) == Xor(Byte(x, 2), Byte(y, 2)) && Byte(Xor(x, y), 3) == Xor(Byte(x, 3), Byte(y, 3))
  {
    hide Byte, Word, Pow2, Xor;
    BytesWord(x);
    BytesWord(y);
    XorWord(Byte(x, 0), Byte(x, 1), Byte(x, 2), Byte(x, 3), Byte(y, 0), Byte(y, 1), Byte(y, 2), Byte(y, 3));
    Words();
    XorBound(Byte(x, 0), Byte(y, 0), 8);
    XorBound(Byte(x, 1), Byte(y, 1), 8);
    XorBound(Byte(x, 2), Byte(y, 2), 8);
    XorBound(Byte(x, 3), Byte(y, 3), 8);
    WordBytes(Xor(Byte(x, 0), Byte(y, 0)), Xor(Byte(x, 1), Byte(y, 1)), Xor(Byte(x, 2), Byte(y, 2)),
          Xor(Byte(x, 3), Byte(y, 3)));
  }

  // ---------- steps of eight and thirty-two bits ----------

  lemma SplitByte(x: nat)
    ensures x == Xor(x % 256, Shl(x / 256, 8))
  {
    hide Xor, Shl, Pow2;
    Words();
    XorDisjoint(x % 256, x / 256, 8);
    Shl256(x / 256);
  }

  // A step of one byte: a table lookup for the byte that falls out.
  lemma ByteSteps(x: nat)
    ensures Steps(x, 8) == Xor(Steps(x % 256, 8), x / 256)
  {
    hide Xor, Shl;
    SplitByte(x);
    StepsLinear(x % 256, Shl(x / 256, 8), 8);
    StepsShl(x / 256, 8);
  }

  // Adding a byte changes only the lowest byte.
  lemma XorLowByte(c: nat, b: nat)
    requires b < 256
    ensures Xor(c, b) / 256 == c / 256 && Xor(c, b) % 256 == Xor(c % 256, b) < 256
  {
    hide Xor, Pow2;
    Words();
    XorNext(c % 256, c / 256, b, 0);
    XorZero(c / 256);
    XorBound(c % 256, b, 8);
  }

  // A step of four bytes.
  lemma WordSteps(b0: nat, b1: nat, b2: nat, b3: nat)
    requires b0 < 256 && b1 < 256 && b2 < 256 && b3 < 256
    ensures Steps(Word(b0, b1, b2, b3), 32)
            == Xor(Xor(Xor(Steps(b0, 32), Steps(b1, 24)), Steps(b2, 16)), Steps(b3, 8))
  {
    hide Xor, Word, Steps;
    HigherByte(b0, b1 + 256 * (b2 + 256 * b3), 24);
    HigherByte(b1, b2 + 256 * b3, 16);
    HigherByte(b2, b3, 8);
    WordNested(b0, b1, b2, b3);
    XorAssoc(Steps(b0, 32), Steps(b1, 24), Xor(Steps(b2, 16), Steps(b3, 8)));
    XorAssoc(Xor(Steps(b0, 32), Steps(b1, 24)), Steps(b2, 16), Steps(b3, 8));
  }

  lemma WordNested(b0: nat, b1: nat, b2: nat, b3: nat)
    ensures Word(b0, b1, b2, b3) == b0 + 256 * (b1 + 256 * (b2 + 256 * b3))
  {
  }

  lemma HigherByte(b: nat, x: nat, n: nat)
    requires b < 256
    ensures Steps(b + 256 * x, 8 + n) == Xor(Steps(b, 8 + n), Steps(x, n))
  {
    hide Xor, Shl;
    FirstByte(b, x);
    SplitByte(b + 256 * x);
    StepsLinear(b, Shl(x, 8), 8 + n);
    StepsAdd(Shl(x, 8), 8, n);
    StepsShl(x, 8);
  }

  lemma FourNumber(b0: nat, b1: nat, b2: nat, b3: nat)
    requires b0 < 256 && b1 < 256 && b2 < 256 && b3 < 256
    ensures Number([b0, b1, b2, b3]) == Word(b0, b1, b2, b3)
  {
    hide Xor, Shl, Pow2;
    Words();
    var s1, s2, s3, s4 := [b0], [b0, b1], [b0, b1, b2], [b0, b1, b2, b3];
    NumberPush([], b0);
    NumberPush(s1, b1);
    NumberPush(s2, b2);
    NumberPush(s3, b3);
    assert [] + [b0] == s1 && s1 + [b1] == s2 && s2 + [b2] == s3 && s3 + [b3] == s4;
    ShlZero(b0);
    XorZero(b0);
    XorDisjoint(b0, b1, 8);
    XorDisjoint(b0 + 256 * b1, b2, 16);
    XorDisjoint(b0 + 256 * b1 + 0x1_0000 * b2, b3, 24);
    Shl256(b1);
    ShlIsMul(b2, 16);
    ShlIsMul(b3, 24);
  }

  lemma ShlZero(x: nat)
    ensures Shl(x, 0) == x
  {
  }

  lemma NumberPush(s: seq<nat>, b: nat)
    ensures Number(s + [b]) == Xor(Number(s), Shl(b, 8 * |s|)) && Number([]) == 0
  {
    assert (s + [b])[..|s|] == s;
  }

  // ---------- the tables ----------

  const TERMS: seq<nat> := [0, 1, 2, 4, 5, 7, 8, 10, 11, 12, 16, 22, 23, 26]

  function Term(n: nat): (k: nat)
    requires n < 14
    ensures k <= 31
  {
    31 - TERMS[n]
  }

  lemma TermsFall(n: nat)
    requires 0 < n < 14
    ensures Term(n) < Term(n - 1)
  {
  }

  // The polynomial with its first n terms.
  function Poly(n: nat): nat
    requires n <= 14
  {
    if n == 0 then 0 else Poly(n - 1) + Pow2(Term(n - 1))
  }

  lemma {:induction false} OrComm(x: nat, y: nat)
    ensures Or(x, y) == Or(y, x)
    decreases x + y
  {
    if x + y > 0 {
      OrComm(x / 2, y / 2);
    }
  }

  // All terms so far are above the last one.
  lemma {:induction false} PolyAbove(n: nat) returns (q: nat)
    requires 0 < n <= 14
    ensures Poly(n) == Shl(q, Term(n - 1))
    decreases n
  {
    hide Pow2, Shl, Term;
    ShlOne(Term(n - 1));
    if n == 1 {
      q := 1;
    } else {
      var p := PolyAbove(n - 1);
      TermsFall(n - 1);
      var d := Term(n - 2) - Term(n - 1);
      ShlShl(p, d, Term(n - 1));
      ShlAdd(Shl(p, d), 1, Term(n - 1));
      q := Shl(p, d) + 1;
    }
  }

  lemma NextTerm(n: nat)
    requires n < 14
    ensures Or(Poly(n), Shl(1, Term(n))) == Poly(n + 1)
  {
    hide Pow2, Shl, Term, Or;
    ShlOne(Term(n));
    if n == 0 {
      OrZero(Shl(1, Term(n)));
    } else {
      var q := PolyAbove(n);
      TermsFall(n);
      var k, d := Term(n), Term(n - 1) - Term(n) - 1;
      ShlShl(q, d, k + 1);
      assert d + (k + 1) == Term(n - 1);
      Pow2Next(k);
      OrDisjoint(Pow2(k), Shl(q, d), k + 1);
      OrComm(Poly(n), Shl(1, k));
    }
  }

  lemma Pow2Next(k: nat)
    ensures Pow2(k + 1) == 2 * Pow2(k) && Pow2(k) < Pow2(k + 1)
  {
  }

  lemma HighTerms()
    ensures Poly(9) == 0xedb0_0000
  {
    hide Pow2;
    Words();
    Pow2Values();
    Pow2Add(16, 4);
    Pow2Add(16, 5);
    Pow2Add(16, 7);
    Pow2Add(24, 2);
    Pow2Add(24, 3);
    Pow2Add(24, 5);
    Pow2Add(24, 6);
    Pow2Add(24, 7);
    SmallPowers();
    assert Poly(3) == Pow2(31) + Pow2(30) + Pow2(29);
    assert Poly(6) == Poly(3) + Pow2(27) + Pow2(26) + Pow2(24);
    assert Poly(9) == Poly(6) + Pow2(23) + Pow2(21) + Pow2(20);
  }

  lemma PolyIs()
    ensures Poly(14) == POLY
  {
    hide Pow2;
    HighTerms();
    Pow2Values();
    Pow2Add(3, 2);
    Pow2Add(8, 1);
    Pow2Add(16, 3);
    SmallPowers();
    assert Poly(12) == Poly(9) + Pow2(19) + Pow2(15) + Pow2(9);
    assert Poly(14) == Poly(12) + Pow2(8) + Pow2(5);
  }

  lemma SmallPowers()
    ensures Pow2(4) == 16 && Pow2(5) == 32 && Pow2(6) == 64 && Pow2(7) == 128
  {
  }

  // Table k is table 0 followed by k zero bytes; the second half is byte-swapped.
  ghost predicate TablesOk(table: array2<nat>)
    reads table
  {
    && table.Length0 == 8 && table.Length1 == 256
    && forall k, n :: 0 <= k < 4 && 0 <= n < 256 ==>
         table[k, n] == Steps(n, 8 * (k + 1)) && table[k + 4, n] == Swap(table[k, n])
  }

  // make_crc_table
  method MakeCrcTable() returns (table: array2<nat>)
    ensures fresh(table) && TablesOk(table)
  {
    hide Steps, Step, Swap, Xor, Or, Pow2, Shl;
    table := new nat[8, 256];
    // make the exclusive-or pattern from the polynomial
    var poly := 0;
    for n := 0 to 14
      invariant poly == Poly(n)
    {
      NextTerm(n);
      poly := Or(poly, Shl(1, Term(n)));
    }
    PolyIs();
    for n := 0 to 256
      invariant forall m :: 0 <= m < n ==> table[0, m] == Steps(m, 8)
    {
      var c := EightBits(n, poly);
      table[0, n] := c;
    }
    for n := 0 to 256
      invariant forall m :: 0 <= m < 256 ==> table[0, m] == Steps(m, 8)
      invariant forall k, m :: 0 <= k < 4 && 0 <= m < n ==>
        table[k, m] == Steps(m, 8 * (k + 1)) && table[k + 4, m] == Swap(table[k, m])
    {
      FillColumn(table, n);
    }
  }

  // One bit at a time.
  method EightBits(n: nat, poly: nat) returns (c: nat)
    requires poly == POLY
    ensures c == Steps(n, 8)
  {
    hide Xor;
    c := n;
    for k := 0 to 8
      invariant Steps(c, 8 - k) == Steps(n, 8)
    {
      XorComm(poly, c / 2);
      c := if c % 2 == 1 then Xor(poly, c / 2) else c / 2;
    }
  }

  // The entries for one byte followed by zero bytes.
  method FillColumn(table: array2<nat>, n: nat)
    requires table.Length0 == 8 && table.Length1 == 256 && n < 256
    requires forall m :: 0 <= m < 256 ==> table[0, m] == Steps(m, 8)
    modifies table
    ensures forall k, m :: 0 <= k < 8 && 0 <= m < 256 && m != n ==> table[k, m] == old(table[k, m])
    ensures forall k :: 0 <= k < 4 ==> table[k, n] == Steps(n, 8 * (k + 1)) && table[k + 4, n] == Swap(table[k, n])
  {
    hide Steps, Swap, Xor, Low, Shr, Pow2;
    var c := table[0, n];
    table[4, n] := Swap(c);
    for k := 1 to 4
      invariant c == Steps(n, 8 * k)
      invariant forall m :: 0 <= m < 256 ==> table[0, m] == Steps(m, 8)
      invariant forall j, m :: 0 <= j < 8 && 0 <= m < 256 && m != n ==> table[j, m] == old(table[j, m])
      invariant forall j :: 0 <= j < k ==> table[j, n] == Steps(n, 8 * (j + 1)) && table[j + 4, n] == Swap(table[j, n])
    {
      LowByteIs(c);
      ByteSteps(c);
      StepsAdd(n, 8 * k, 8);
      c := Xor(table[0, Low(c, 8)], Shr(c, 8));
      table[k, n] := c;
      table[k + 4, n] := Swap(c);
    }
  }

  lemma LowByteIs(c: nat)
    ensures Low(c, 8) == c % 256 && Shr(c, 8) == c / 256
  {
    hide Pow2;
    Words();
    ShrIsDiv(c, 8);
  }

  // ---------- crc32 ----------

  // A byte, with table 0.
  method OneByte(table: array2<nat>, c: nat, b: nat) returns (r: nat)
    requires TablesOk(table) && b < 256
    ensures r == Steps(Xor(c, b), 8)
  {
    hide Steps, Xor, Low, Shr, Swap;
    XorLowByte(c, b);
    LowByteIs(Xor(c, b));
    LowByteIs(c);
    ByteSteps(Xor(c, b));
    r := Xor(table[0, Low(Xor(c, b), 8)], Shr(c, 8));
  }

  lemma NextByte(c: nat, s: seq<nat>, i: nat)
    requires i < |s|
    ensures Register(c, s[..i + 1]) == Steps(Xor(Register(c, s[..i]), s[i]), 8)
  {
    hide Steps, Xor;
    assert s[..i + 1] == s[..i] + [s[i]];
    RegisterPush(c, s[..i], s[i]);
  }

  // crc32() a byte at a time.
  method Crc32(table: array2<nat>, crc: nat, buf: seq<nat>) returns (r: nat)
    requires TablesOk(table) && Bytes(buf)
    ensures r == Checksum(crc, buf)
  {
    hide Steps, Xor, Register, TablesOk;
    var c := Xor(crc, ONES);
    RegisterNone(c);
    ghost var start := c;
    assert buf[..0] == [];
    for i := 0 to |buf|
      invariant c == Register(start, buf[..i])
    {
      NextByte(start, buf, i);
      c := OneByte(table, c, buf[i]);
    }
    assert buf[..|buf|] == buf;
    r := Xor(c, ONES);
  }

  lemma RegisterNone(c: nat)
    ensures Register(c, []) == c
  {
  }

  lemma NextWord(c: nat, s: seq<nat>, i: nat)
    requires i + 4 <= |s| && Bytes(s)
    ensures Register(c, s[..i + 4]) == Steps(Xor(Register(c, s[..i]), Word(s[i], s[i + 1], s[i + 2], s[i + 3])), 32)
  {
    hide Steps, Xor, Register, Word, Number;
    var w := [s[i], s[i + 1], s[i + 2], s[i + 3]];
    assert s[..i + 4] == s[..i] + w;
    RegisterConcat(c, s[..i], w);
    RegisterAtOnce(Register(c, s[..i]), w);
    FourNumber(s[i], s[i + 1], s[i + 2], s[i + 3]);
  }

  lemma {:induction false} RegisterBound(c: nat, s: seq<nat>)
    requires c < Pow2(32) && Bytes(s)
    ensures Register(c, s) < Pow2(32)
  {
    hide Steps, Xor, Pow2;
    if s != [] {
      var b := s[|s| - 1];
      RegisterBound(c, s[..|s| - 1]);
      Words();
      XorBound(Register(c, s[..|s| - 1]), b, 32);
      StepsBound(Xor(Register(c, s[..|s| - 1]), b), 32 - 24);
    }
  }

  lemma WordBound(x: nat, b0: nat, b1: nat, b2: nat, b3: nat)
    requires x < Pow2(32) && b0 < 256 && b1 < 256 && b2 < 256 && b3 < 256
    ensures Xor(x, Word(b0, b1, b2, b3)) < Pow2(32)
  {
    hide Pow2, Xor, Word, Byte;
    WordBytes(b0, b1, b2, b3);
    XorBound(x, Word(b0, b1, b2, b3), 32);
  }

  // DOLIT4 after the word has been added
  method FourLittle(table: array2<nat>, c: nat) returns (r: nat)
    requires TablesOk(table) && c < Pow2(32)
    ensures r == Steps(c, 32)
  {
    hide Steps, Xor, Low, Shr, Swap, Word, Byte, Pow2;
    BytesWord(c);
    ByteIs(c, 0);
    ByteIs(c, 1);
    ByteIs(c, 2);
    TopByte(c);
    ShrNone(c);
    WordSteps(Byte(c, 0), Byte(c, 1), Byte(c, 2), Byte(c, 3));
    r := Xor(Xor(Xor(table[3, Low(c, 8)], table[2, Low(Shr(c, 8), 8)]), table[1, Low(Shr(c, 16), 8)]),
          table[0, Shr(c, 24)]);
  }

  /**
    crc32_little: four bytes at a time from an aligned address on, read with the lowest byte
    first.
   */
  method Crc32Little(table: array2<nat>, crc: nat, buf: seq<nat>, address: nat) returns (r: nat)
    requires TablesOk(table) && Bytes(buf) && crc < Pow2(32)
    ensures r == Checksum(crc, buf)
  {
    hide Steps, Xor, Register, TablesOk, Pow2, Word;
    var c, i := Xor(crc, ONES), 0;
    ghost var start := c;
    NotBound(crc);
    RegisterNone(c);
    assert buf[..0] == [];
    while i < |buf| && (address + i) % 4 != 0
      invariant i <= |buf| && c == Register(start, buf[..i])
    {
      NextByte(start, buf, i);
      c := OneByte(table, c, buf[i]);
      i := i + 1;
    }
    while |buf| - i >= 4
      invariant i <= |buf| && c == Register(start, buf[..i])
    {
      RegisterBound(start, buf[..i]);
      NextWord(start, buf, i);
      WordBound(c, buf[i], buf[i + 1], buf[i + 2], buf[i + 3]);
      c := Xor(c, Word(buf[i], buf[i + 1], buf[i + 2], buf[i + 3]));
      c := FourLittle(table, c);
      i := i + 4;
    }
    while i < |buf|
      invariant i <= |buf| && c == Register(start, buf[..i])
    {
      NextByte(start, buf, i);
      c := OneByte(table, c, buf[i]);
      i := i + 1;
    }
    assert buf[..i] == buf;
    r := Xor(c, ONES);
  }

  lemma NotBound(crc: nat)
    requires crc < Pow2(32)
    ensures Xor(crc, ONES) < Pow2(32)
  {
    hide Pow2, Xor;
    Words();
    XorBound(crc, ONES, 32);
  }

  // ---------- the other byte order ----------

  lemma StepsSmall(b: nat, n: nat)
    requires b < 256
    ensures Steps(b, n) < Pow2(32)
  {
    hide Steps, Pow2;
    Words();
    StepsBound(b, n);
  }

  // (c << 8) in 32 bits
  lemma SwapShift(x: nat)
    requires x < Pow2(32)
    ensures Low(Shl(Swap(x), 8), 32) == Swap(x / 256) && Shr(Swap(x), 24) == x % 256 && x / 256 < Pow2(32)
  {
    hide Byte, Word, Pow2, Shl, Shr, Low;
    Words();
    BytesWord(x);
    var b0, b1, b2, b3 := Byte(x, 0), Byte(x, 1), Byte(x, 2), Byte(x, 3);
    WordBytes(b3, b2, b1, b0);
    TopByte(Swap(x));
    ByteNext(x, 0);
    ByteNext(x, 1);
    ByteNext(x, 2);
    ByteNext(x, 3);
    NoFourth(x);
    WordNested(b3, b2, b1, b0);
    WordNested(0, b3, b2, b1);
    Shl256(Swap(x));
    LowWord(Word(0, b3, b2, b1), b0);
  }

  lemma NoFourth(x: nat)
    requires x < Pow2(32)
    ensures Byte(x / 256, 3) == 0
  {
    hide Pow2;
    Words();
    LastByte(x, 0x100_0000);
    LastByte(x / 256, 0x1_0000);
    LastByte(x / 256 / 256, 0x100);
  }

  lemma LowWord(w: nat, b: nat)
    requires w < Pow2(32)
    ensures Low(w + 0x1_0000_0000 * b, 32) == w
  {
    hide Pow2, Low;
    Words();
    ShlIsMul(b, 32);
    JoinParts(w, b, 32);
  }

  lemma SwappedEntry(table: array2<nat>, k: nat, n: nat)
    requires TablesOk(table) && k < 4 && n < 256
    ensures table[k + 4, n] == Swap(Steps(n, 8 * (k + 1)))
  {
    hide Steps, Swap;
    var e := table[k, n];
  }

  // A byte with table 4 and the register byte-swapped.
  method OneByteBig(table: array2<nat>, c: nat, b: nat, ghost x: nat) returns (r: nat)
    requires TablesOk(table) && b < 256 && x < Pow2(32) && c == Swap(x)
    ensures r == Swap(Steps(Xor(x, b), 8))
  {
    hide Steps, Xor, Low, Shr, Shl, Swap, Pow2;
    SwapShift(x);
    XorLowByte(x, b);
    ByteSteps(Xor(x, b));
    StepsSmall(Xor(x % 256, b), 8);
    SwapXor(Steps(Xor(x % 256, b), 8), x / 256);
    SwappedEntry(table, 0, Xor(x % 256, b));
    r := Xor(table[4, Xor(Shr(c, 24), b)], Low(Shl(c, 8), 32));
  }

  // DOBIG4 after the word has been added
  method FourBig(table: array2<nat>, c: nat, ghost x: nat) returns (r: nat)
    requires TablesOk(table) && x < Pow2(32) && c == Swap(x)
    ensures r == Swap(Steps(x, 32))
  {
    hide Steps, Xor, Low, Shr, Swap, Word, Byte, Pow2;
    BytesWord(x);
    ghost var b0, b1, b2, b3 := Byte(x, 0), Byte(x, 1), Byte(x, 2), Byte(x, 3);
    SwappedBytes(x);
    BytesWord(c);
    ByteIs(c, 0);
    ByteIs(c, 1);
    ByteIs(c, 2);
    TopByte(c);
    ShrNone(c);
    WordSteps(b0, b1, b2, b3);
    SwapFour(Steps(b0, 32), Steps(b1, 24), Steps(b2, 16), Steps(b3, 8)) by {
      StepsSmall(b0, 32);
      StepsSmall(b1, 24);
      StepsSmall(b2, 16);
      StepsSmall(b3, 8);
    }
    SwappedEntry(table, 0, b3);
    SwappedEntry(table, 1, b2);
    SwappedEntry(table, 2, b1);
    SwappedEntry(table, 3, b0);
    r := Xor(Xor(Xor(table[4, Low(c, 8)], table[5, Low(Shr(c, 8), 8)]), table[6, Low(Shr(c, 16), 8)]),
          table[7, Shr(c, 24)]);
  }

  lemma SwappedBytes(x: nat)
    requires x < Pow2(32)
    ensures Byte(Swap(x), 0) == Byte(x, 3) && Byte(Swap(x), 1) == Byte(x, 2)
    ensures Byte(Swap(x), 2) == Byte(x, 1) && Byte(Swap(x), 3) == Byte(x, 0)
  {
    hide Byte, Pow2, Word;
    WordBytes(Byte(x, 3), Byte(x, 2), Byte(x, 1), Byte(x, 0));
  }

  lemma SwapFour(a: nat, b: nat, c: nat, d: nat)
    requires a < Pow2(32) && b < Pow2(32) && c < Pow2(32) && d < Pow2(32)
    ensures Swap(Xor(Xor(Xor(a, b), c), d)) == Xor(Xor(Xor(Swap(d), Swap(c)), Swap(b)), Swap(a))
  {
    hide Swap, Xor, Pow2;
    XorBound(a, b, 32);
    XorBound(Xor(a, b), c, 32);
    SwapXor(Xor(Xor(a, b), c), d);
    SwapXor(Xor(a, b), c);
    SwapXor(a, b);
    XorReverse(Swap(a), Swap(b), Swap(c), Swap(d));
  }

  lemma XorReverse(a: nat, b: nat, c: nat, d: nat)
    ensures Xor(Xor(Xor(a, b), c), d) == Xor(Xor(Xor(d, c), b), a)
  {
    hide Xor;
    XorComm(Xor(Xor(a, b), c), d);
    XorComm(Xor(a, b), c);
    XorComm(a, b);
    XorAssoc(d, c, Xor(b, a));
    XorAssoc(Xor(d, c), b, a);
  }

  /**
    crc32_big: the same on a machine that reads the highest byte of a word first, with the
    register kept byte-swapped.
   */
  method Crc32Big(table: array2<nat>, crc: nat, buf: seq<nat>, address: nat) returns (r: nat)
    requires TablesOk(table) && Bytes(buf) && crc < Pow2(32)
    ensures r == Checksum(crc, buf)
  {
    hide Steps, Xor, Register, TablesOk, Pow2, Word, Swap;
    var c, i := Xor(Swap(crc), ONES), 0;
    ghost var start := Xor(crc, ONES);
    NotBound(crc);
    SwapOnes(crc);
    RegisterNone(start);
    assert buf[..0] == [];
    while i < |buf| && (address + i) % 4 != 0
      invariant i <= |buf| && c == Swap(Register(start, buf[..i]))
    {
      RegisterBound(start, buf[..i]);
      NextByte(start, buf, i);
      c := OneByteBig(table, c, buf[i], Register(start, buf[..i]));
      i := i + 1;
    }
    while |buf| - i >= 4
      invariant i <= |buf| && c == Swap(Register(start, buf[..i]))
    {
      ghost var x, w := Register(start, buf[..i]), Word(buf[i], buf[i + 1], buf[i + 2], buf[i + 3]);
      RegisterBound(start, buf[..i]);
      NextWord(start, buf, i);
      WordBound(x, buf[i], buf[i + 1], buf[i + 2], buf[i + 3]);
      SwapWord(x, buf[i], buf[i + 1], buf[i + 2], buf[i + 3]);
      c := Xor(c, Word(buf[i + 3], buf[i + 2], buf[i + 1], buf[i]));
      c := FourBig(table, c, Xor(x, w));
      i := i + 4;
    }
    while i < |buf|
      invariant i <= |buf| && c == Swap(Register(start, buf[..i]))
    {
      RegisterBound(start, buf[..i]);
      NextByte(start, buf, i);
      c := OneByteBig(table, c, buf[i], Register(start, buf[..i]));
      i := i + 1;
    }
    assert buf[..i] == buf;
    RegisterBound(start, buf);
    SwapOnes(Register(start, buf));
    SwapSwap(Xor(Register(start, buf), ONES)) by { NotBound(Register(start, buf)); }
    c := Xor(c, ONES);
    r := Swap(c);
  }

  // The complement of a swapped word.
  lemma SwapOnes(x: nat)
    requires x < Pow2(32)
    ensures Xor(Swap(x), ONES) == Swap(Xor(x, ONES))
  {
    hide Xor, Pow2, Swap, Byte, Word;
    Words();
    SwapXor(x, ONES);
    OnesSwapped();
  }

  lemma OnesSwapped()
    ensures Swap(ONES) == ONES
  {
    assert Word(255, 255, 255, 255) == ONES;
    hide Byte, Word;
    WordBytes(255, 255, 255, 255);
  }

  lemma SwapWord(x: nat, b0: nat, b1: nat, b2: nat, b3: nat)
    requires x < Pow2(32) && b0 < 256 && b1 < 256 && b2 < 256 && b3 < 256
    ensures Xor(Swap(x), Word(b3, b2, b1, b0)) == Swap(Xor(x, Word(b0, b1, b2, b3)))
  {
    hide Xor, Pow2, Byte, Word;
    WordBytes(b0, b1, b2, b3);
    SwapXor(x, Word(b0, b1, b2, b3));
  }

  // ---------- crc32_combine ----------

  // gf2_matrix_times: the sum of the columns that the bits of vec select.
  function Times(mat: seq<nat>, vec: nat): nat
    decreases |mat|
  {
    if mat == [] then 0 else Xor(if vec % 2 == 1 then mat[0] else 0, Times(mat[1..], vec / 2))
  }

  // The matrix does what n zero bits do to the register.
  predicate Zeros(mat: seq<nat>, n: nat) {
    |mat| == 32 && forall i :: 0 <= i < 32 ==> mat[i] == Steps(Pow2(i), n)
  }

  lemma {:induction false} TimesFrom(mat: seq<nat>, k: nat, vec: nat, n: nat)
    requires forall i :: 0 <= i < |mat| ==> mat[i] == Steps(Pow2(k + i), n)
    requires vec < Pow2(|mat|)
    ensures Times(mat, vec) == Steps(Shl(vec, k), n)
    decreases |mat|
  {
    hide Xor, Steps, Shl, Pow2;
    if mat == [] {
      NoBits(vec, k, n);
    } else {
      var q, b := vec / 2, vec % 2;
      HalfVec(vec, |mat|);
      forall i | 0 <= i < |mat[1..]| ensures mat[1..][i] == Steps(Pow2(k + 1 + i), n) {
        assert mat[1..][i] == mat[i + 1];
        assert k + (i + 1) == k + 1 + i;
      }
      TimesFrom(mat[1..], k + 1, q, n);
      assert mat[0] == Steps(Pow2(k + 0), n);
      SplitBit(vec, k);
      StepsLinear(Shl(b, k), Shl(q, k + 1), n);
      ShlOne(k);
      StepsZero(n);
    }
  }

  lemma NoBits(vec: nat, k: nat, n: nat)
    requires vec < Pow2(0)
    ensures Steps(Shl(vec, k), n) == 0
  {
    hide Steps;
    ShlOne(k);
    StepsZero(n);
  }

  lemma HalfVec(vec: nat, n: nat)
    requires n > 0 && vec < Pow2(n)
    ensures vec / 2 < Pow2(n - 1)
  {
  }

  lemma {:induction false} StepsZero(n: nat)
    ensures Steps(0, n) == 0
  {
    if n > 0 {
      StepsZero(n - 1);
    }
  }

  // The lowest bit of a shifted word and the rest.
  lemma SplitBit(vec: nat, k: nat)
    ensures Shl(vec, k) == Xor(Shl(vec % 2, k), Shl(vec / 2, k + 1))
  {
    hide Xor, Shl, Pow2;
    var b, q := vec % 2, vec / 2;
    ShlOne(k);
    Pow2Next(k);
    XorDisjoint(Shl(b, k), q, k + 1);
    ShlAdd(b, 2 * q, k);
    ShlShl(q, 1, k);
    ShlTwice(q);
  }

  lemma ShlTwice(q: nat)
    ensures Shl(q, 1) == 2 * q
  {
    assert Shl(q, 0) == q;
  }

  lemma TimesIs(mat: seq<nat>, vec: nat, n: nat)
    requires Zeros(mat, n) && vec < Pow2(32)
    ensures Times(mat, vec) == Steps(vec, n)
  {
    hide Steps, Pow2;
    forall i | 0 <= i < |mat| ensures mat[i] == Steps(Pow2(0 + i), n) {
      assert 0 + i == i;
    }
    TimesFrom(mat, 0, vec, n);
    ShlZero(vec);
  }

  // gf2_matrix_times
  method MatrixTimes(mat: array<nat>, vec: nat) returns (sum: nat)
    requires mat.Length == 32 && vec < Pow2(32)
    ensures sum == Times(mat[..], vec)
  {
    hide Xor, Pow2;
    sum := 0;
    var v: nat, i: nat := vec, 0;
    assert mat[0..] == mat[..];
    XorZero(Times(mat[..], vec));
    while v != 0
      invariant i <= 32 && v < Pow2(32 - i) && Xor(sum, Times(mat[i..], v)) == Times(mat[..], vec)
      decreases v
    {
      SomeBits(v, i);
      HalfVec(v, 32 - i);
      assert mat[i..][0] == mat[i] && mat[i..][1..] == mat[i + 1..];
      XorAssoc(sum, if v % 2 == 1 then mat[i] else 0, Times(mat[i + 1..], v / 2));
      XorZero(sum);
      if v % 2 == 1 {
        sum := Xor(sum, mat[i]);
      }
      v := v / 2;
      i := i + 1;
    }
    TimesZero(mat[i..]);
    XorZero(sum);
  }

  lemma SomeBits(v: nat, i: nat)
    requires i <= 32 && 0 < v < Pow2(32 - i)
    ensures i < 32
  {
  }

  lemma {:induction false} TimesZero(mat: seq<nat>)
    ensures Times(mat, 0) == 0
    decreases |mat|
  {
    if mat != [] {
      TimesZero(mat[1..]);
      XorZero(0);
    }
  }

  lemma OneBit(i: nat)
    requires i < 32
    ensures Pow2(i) < Pow2(32)
  {
    Pow2Mono(i, 31);
    Pow2Next(31);
  }

  // gf2_matrix_square: twice as many zero bits.
  method MatrixSquare(square: array<nat>, mat: array<nat>, ghost n: nat)
    requires square.Length == mat.Length == 32 && square != mat && Zeros(mat[..], n)
    modifies square
    ensures Zeros(square[..], 2 * n)
  {
    hide Steps, Pow2, Times;
    for i := 0 to 32
      invariant Zeros(mat[..], n)
      invariant forall j :: 0 <= j < i ==> square[j] == Steps(Pow2(j), 2 * n)
    {
      OneBit(i);
      assert mat[..][i] == mat[i];
      StepsBound(Pow2(i), n);
      TimesIs(mat[..], mat[i], n);
      StepsAdd(Pow2(i), n, n);
      square[i] := MatrixTimes(mat, mat[i]);
    }
  }

  lemma FirstStep()
    ensures Step(1) == POLY
  {
    XorZero(POLY);
  }

  lemma ShiftStep(n: nat)
    requires n > 0
    ensures Step(Pow2(n)) == Pow2(n - 1)
  {
  }

  lemma OneStep(c: nat)
    ensures Steps(c, 1) == Step(c)
  {
    assert Steps(Step(c), 0) == Step(c);
  }

  // The matrix of a single Step.
  method OneZero(odd: array<nat>)
    requires odd.Length == 32
    modifies odd
    ensures Zeros(odd[..], 1)
  {
    hide Steps, Step, Pow2;
    FirstStep();
    assert Pow2(0) == 1 by { Pow2Values(); }
    OneStep(1);
    odd[0] := POLY;
    var row := 1;
    for n := 1 to 32
      invariant row == Pow2(n - 1)
      invariant forall i :: 0 <= i < n ==> odd[i] == Steps(Pow2(i), 1)
    {
      ShiftStep(n);
      OneStep(Pow2(n));
      Pow2Next(n - 1);
      odd[n] := row;
      row := 2 * row;
    }
  }

  // Zero bits for the lowest bit of the length, with the operator for 8 * p zero bits.
  method ApplyZeros(mat: array<nat>, crc: nat, len: nat, ghost start: nat, ghost done: nat, ghost p: nat)
    returns (r: nat)
    requires mat.Length == 32 && Zeros(mat[..], 8 * p) && start < Pow2(32) && crc == Steps(start, 8 * done)
    ensures r == Steps(start, 8 * (done + p * (len % 2)))
  {
    hide Steps, Pow2, Times, Zeros;
    StepsBound(start, 8 * done);
    r := crc;
    if len % 2 == 1 {
      TimesIs(mat[..], crc, 8 * p);
      StepsAdd(start, 8 * done, 8 * p);
      r := MatrixTimes(mat, crc);
      assert p * (len % 2) == p;
    } else {
      assert p * (len % 2) == 0;
    }
  }

  /**
    crc32_combine_ with the second checksum added: the register is run over len2 zero bytes
    by repeated squaring, the matrices alternating between two arrays.
   */
  method Crc32Combine(crc1: nat, crc2: nat, len2: int) returns (r: nat)
    requires crc1 < Pow2(32)
    ensures len2 <= 0 ==> r == crc1
    ensures len2 > 0 ==> r == Xor(Steps(crc1, 8 * len2), crc2)
    ensures forall x, y :: |y| == len2 && crc1 == Checksum(0, x) && crc2 == Checksum(0, y) ==> r == Checksum(0, x + y)
  {
    hide Steps, Pow2, Zeros, Xor, Register;
    forall x, y | |y| == len2 && crc1 == Checksum(0, x) && crc2 == Checksum(0, y)
      ensures Checksum(0, x + y) == if len2 <= 0 then crc1 else Xor(Steps(crc1, 8 * len2), crc2)
    {
      Combined(x, y);
      assert len2 == 0 ==> x + y == x;
    }
    if len2 <= 0 {
      return crc1;
    }
    var even, odd := new nat[32], new nat[32];
    OneZero(odd);
    MatrixSquare(even, odd, 1);
    MatrixSquare(odd, even, 2);
    var crc: nat, len: nat := crc1, len2;
    ghost var done: nat, p: nat := 0, 1;       // odd holds the operator for 4 * p zero bits
    NoSteps(crc1);
    while true
      invariant len > 0 && done + p * len == len2 && crc == Steps(crc1, 8 * done)
      invariant Zeros(odd[..], 4 * p)
      decreases len
    {
      MatrixSquare(even, odd, 4 * p);
      crc := ApplyZeros(even, crc, len, crc1, done, p);
      HalfLength(done, p, len);
      done, p, len := done + p * (len % 2), 2 * p, len / 2;
      if len == 0 {
        break;
      }
      MatrixSquare(odd, even, 4 * p);
      crc := ApplyZeros(odd, crc, len, crc1, done, p);
      HalfLength(done, p, len);
      done, p, len := done + p * (len % 2), 2 * p, len / 2;
      if len == 0 {
        break;
      }
    }
    assert done == len2;
    r := Xor(crc, crc2);
  }

  lemma NoSteps(c: nat)
    ensures Steps(c, 8 * 0) == c
  {
  }

  lemma HalfLength(done: nat, p: nat, len: nat)
    ensures done + p * len == done + p * (len % 2) + (2 * p) * (len / 2)
  {
    assert len == len % 2 + 2 * (len / 2);
    assert p * len == p * (len % 2) + p * (2 * (len / 2));
  }

  /**
    The checksum of a concatenation is what crc32_combine computes from the checksums of its
    parts and the length of the second part.
   */
  lemma Combined(x: seq<nat>, y: seq<nat>)
    ensures Checksum(0, x + y) == Xor(Steps(Checksum(0, x), 8 * |y|), Checksum(0, y))
  {
    hide Xor, Steps, Register;
    XorZero(ONES);
    var n, rx := 8 * |y|, Register(ONES, x);
    RegisterConcat(ONES, x, y);
    XorZero(rx);
    XorZero(Register(ONES, y));
    // rx == (rx ^ ONES) ^ ONES
    XorTwice(rx, ONES);
    RegisterLinear(Xor(rx, ONES), ONES, y);
    XorAssoc(Steps(Xor(rx, ONES), n), Register(ONES, y), ONES);
  }

  // A checksum goes on from the checksum of what comes before.
  lemma Continued(crc: nat, x: seq<nat>, y: seq<nat>)
    ensures Checksum(Checksum(crc, x), y) == Checksum(crc, x + y)
  {
    hide Xor, Register;
    RegisterConcat(Xor(crc, ONES), x, y);
    XorTwice(Register(Xor(crc, ONES), x), ONES);
  }

  // ---------- the residue ----------

  // The complement alone, shifted through four bytes.
  // The number with these hexadecimal digits.
  function Hex(a7: int, a6: int, a5: int, a4: int, a3: int, a2: int, a1: int, a0: int): int {
    a0 + 16 * (a1 + 16 * (a2 + 16 * (a3 + 16 * (a4 + 16 * (a5 + 16 * (a6 + 16 * a7))))))
  }

  lemma XorDigit(a: nat, x: nat, b: nat, y: nat)
    requires a < 16 && b < 16
    ensures Xor(a + 16 * x, b + 16 * y) == Xor(a, b) + 16 * Xor(x, y)
  {
    hide Xor, Shl;
    assert Pow2(4) == 16;
    ShlIsMul(x, 4);
    ShlIsMul(y, 4);
    ShlIsMul(Xor(x, y), 4);
    XorJoin(a, x, b, y, 4);
  }

  lemma XorNibble(x: nat, y: nat)
    ensures Xor(x, y) == Odd(x, y) + 2 * Odd(x / 2, y / 2) + 4 * Odd(x / 2 / 2, y / 2 / 2)
                         + 8 * Odd(x / 2 / 2 / 2, y / 2 / 2 / 2) + 16 * Xor(x / 2 / 2 / 2 / 2, y / 2 / 2 / 2 / 2)
  {
    hide Xor, Odd;
    XorStep(x, y);
    XorStep(x / 2, y / 2);
    XorStep(x / 2 / 2, y / 2 / 2);
    XorStep(x / 2 / 2 / 2, y / 2 / 2 / 2);
  }

  // A digit exclusive-or each digit of the polynomial.
  lemma WithE(a: nat)
    requires a < 16
    ensures Xor(a, 0xe) == 14 - a + 2 * (a % 2)
  {
    hide Xor;
    XorNibble(a, 0xe);
    XorZero(0);
  }

  lemma WithD(a: nat)
    requires a < 16
    ensures Xor(a, 0xd) == 13 - a + 4 * (a / 2 % 2)
  {
    hide Xor;
    XorNibble(a, 0xd);
    XorZero(0);
  }

  lemma WithB(a: nat)
    requires a < 16
    ensures Xor(a, 0xb) == 11 - a + 8 * (a / 4 % 2)
  {
    hide Xor;
    XorNibble(a, 0xb);
    XorZero(0);
  }

  lemma With8(a: nat)
    requires a < 16
    ensures Xor(a, 8) == if a < 8 then a + 8 else a - 8
  {
    hide Xor;
    XorNibble(a, 8);
    XorZero(0);
  }

  lemma With3(a: nat)
    requires a < 16
    ensures Xor(a, 3) == 3 - a + 8 * (a / 4)
  {
    hide Xor;
    XorNibble(a, 3);
    XorZero(0);
  }

  lemma With2(a: nat)
    requires a < 16
    ensures Xor(a, 2) == 2 + a - 4 * (a / 2 % 2)
  {
    hide Xor;
    XorNibble(a, 2);
    XorZero(0);
  }

  lemma WithF(a: nat)
    requires a < 16
    ensures Xor(a, 0xf) == 15 - a
  {
    hide Xor;
    XorNibble(a, 0xf);
    XorZero(0);
  }

  // A step that adds the polynomial, digit by digit.
  lemma OddStep(c: nat, a7: nat, a6: nat, a5: nat, a4: nat, a3: nat, a2: nat, a1: nat, a0: nat)
    requires a0 < 16 && a1 < 16 && a2 < 16 && a3 < 16 && a4 < 16 && a5 < 16 && a6 < 16 && a7 < 16
    requires c == 2 * Hex(a7, a6, a5, a4, a3, a2, a1, a0) + 1
    ensures Step(c) == Hex(14 - a7 + 2 * (a7 % 2), 13 - a6 + 4 * (a6 / 2 % 2), 11 - a5 + 8 * (a5 / 4 % 2),
                           if a4 < 8 then a4 + 8 else a4 - 8, if a3 < 8 then a3 + 8 else a3 - 8, 3 - a2 + 8 * (a2 / 4),
                           2 + a1 - 4 * (a1 / 2 % 2), a0)
  {
    hide Xor, Hex;
    WithE(a7);
    WithD(a6);
    WithB(a5);
    With8(a4);
    With8(a3);
    With3(a2);
    With2(a1);
    XorPoly(a7, a6, a5, a4, a3, a2, a1, a0);
  }

  lemma XorPoly(a7: nat, a6: nat, a5: nat, a4: nat, a3: nat, a2: nat, a1: nat, a0: nat)
    requires a0 < 16 && a1 < 16 && a2 < 16 && a3 < 16 && a4 < 16 && a5 < 16 && a6 < 16 && a7 < 16
    ensures Xor(Hex(a7, a6, a5, a4, a3, a2, a1, a0), POLY)
            == Hex(Xor(a7, 0xe), Xor(a6, 0xd), Xor(a5, 0xb), Xor(a4, 8), Xor(a3, 8), Xor(a2, 3), Xor(a1, 2), a0)
  {
    hide Xor;
    var x6 := a6 + 16 * a7;
    var x5 := a5 + 16 * x6;
    var x4 := a4 + 16 * x5;
    var x3 := a3 + 16 * x4;
    var x2 := a2 + 16 * x3;
    var x1 := a1 + 16 * x2;
    XorDigit(a6, a7, 0xd, 0xe);
    XorDigit(a5, x6, 0xb, 0xed);
    XorDigit(a4, x5, 8, 0xedb);
    XorDigit(a3, x4, 8, 0xedb8);
    XorDigit(a2, x3, 3, 0xe_db88);
    XorDigit(a1, x2, 2, 0xed_b883);
    XorDigit(a0, x1, 0, 0xedb_8832);
    XorZero(a0);
  }

  lemma OnesSteps0()
    ensures Steps(0xffff_ffff, 2) == 0xa49b_3d4f
  {
    hide Steps, Xor;
    OddStep(0xffff_ffff, 0x7, 0xf, 0xf, 0xf, 0xf, 0xf, 0xf, 0xf);
    OddStep(0x9247_7cdf, 0x4, 0x9, 0x2, 0x3, 0xb, 0xe, 0x6, 0xf);
    TwoSteps(0xffff_ffff);
  }

  lemma OnesSteps1()
    ensures Steps(0xa49b_3d4f, 2) == 0xb242_0de3
  {
    hide Steps, Xor;
    OddStep(0xa49b_3d4f, 0x5, 0x2, 0x4, 0xd, 0x9, 0xe, 0xa, 0x7);
    OddStep(0xbff5_1d87, 0x5, 0xf, 0xf, 0xa, 0x8, 0xe, 0xc, 0x3);
    TwoSteps(0xa49b_3d4f);
  }

  lemma OnesSteps2()
    ensures Steps(0xb242_0de3, 2) == 0xb7f4_41c8
  {
    hide Steps, Xor;
    OddStep(0xb242_0de3, 0x5, 0x9, 0x2, 0x1, 0x0, 0x6, 0xf, 0x1);
    OddStep(0xb499_85d1, 0x5, 0xa, 0x4, 0xc, 0xc, 0x2, 0xe, 0x8);
    TwoSteps(0xb242_0de3);
  }

  lemma OnesSteps3()
    ensures Steps(0xb7f4_41c8, 2) == 0x2dfd_1072
  {
    hide Steps, Xor;
    TwoSteps(0xb7f4_41c8);
  }

  lemma OnesSteps4()
    ensures Steps(0x2dfd_1072, 2) == 0xe6c7_c73c
  {
    hide Steps, Xor;
    OddStep(0x16fe_8839, 0x0, 0xb, 0x7, 0xf, 0x4, 0x4, 0x1, 0xc);
    TwoSteps(0x2dfd_1072);
  }

  lemma OnesSteps5()
    ensures Steps(0xe6c7_c73c, 2) == 0x39b1_f1cf
  {
    hide Steps, Xor;
    TwoSteps(0xe6c7_c73c);
  }

  lemma OnesSteps6()
    ensures Steps(0x39b1_f1cf, 2) == 0x9508_bec3
  {
    hide Steps, Xor;
    OddStep(0x39b1_f1cf, 0x1, 0xc, 0xd, 0x8, 0xf, 0x8, 0xe, 0x7);
    OddStep(0xf160_7bc7, 0x7, 0x8, 0xb, 0x0, 0x3, 0xd, 0xe, 0x3);
    TwoSteps(0x39b1_f1cf);
  }

  lemma OnesSteps7()
    ensures Steps(0x9508_bec3, 2) == 0xbe26_ed00
  {
    hide Steps, Xor;
    OddStep(0x9508_bec3, 0x4, 0xa, 0x8, 0x4, 0x5, 0xf, 0x6, 0x1);
    OddStep(0xa73c_dc41, 0x5, 0x3, 0x9, 0xe, 0x6, 0xe, 0x2, 0x0);
    TwoSteps(0x9508_bec3);
  }

  lemma OnesSteps8()
    ensures Steps(0xbe26_ed00, 2) == 0x2f89_bb40
  {
    hide Steps, Xor;
    TwoSteps(0xbe26_ed00);
  }

  lemma OnesSteps9()
    ensures Steps(0x2f89_bb40, 2) == 0x0be2_6ed0
  {
    hide Steps, Xor;
    TwoSteps(0x2f89_bb40);
  }

  lemma OnesSteps10()
    ensures Steps(0x0be2_6ed0, 2) == 0x02f8_9bb4
  {
    hide Steps, Xor;
    TwoSteps(0x0be2_6ed0);
  }

  lemma OnesSteps11()
    ensures Steps(0x02f8_9bb4, 2) == 0x00be_26ed
  {
    hide Steps, Xor;
    TwoSteps(0x02f8_9bb4);
  }

  lemma OnesSteps12()
    ensures Steps(0x00be_26ed, 2) == 0x76f3_c82b
  {
    hide Steps, Xor;
    OddStep(0x00be_26ed, 0x0, 0x0, 0x5, 0xf, 0x1, 0x3, 0x7, 0x6);
    TwoSteps(0x00be_26ed);
  }

  lemma OnesSteps13()
    ensures Steps(0x76f3_c82b, 2) == 0x86d8_30ba
  {
    hide Steps, Xor;
    OddStep(0x76f3_c82b, 0x3, 0xb, 0x7, 0x9, 0xe, 0x4, 0x1, 0x5);
    OddStep(0xd6c1_6735, 0x6, 0xb, 0x6, 0x0, 0xb, 0x3, 0x9, 0xa);
    TwoSteps(0x76f3_c82b);
  }

  lemma OnesSteps14()
    ensures Steps(0x86d8_30ba, 2) == 0xcc0e_8f0e
  {
    hide Steps, Xor;
    OddStep(0x436c_185d, 0x2, 0x1, 0xb, 0x6, 0x0, 0xc, 0x2, 0xe);
    TwoSteps(0x86d8_30ba);
  }

  lemma OnesSteps15()
    ensures Steps(0xcc0e_8f0e, 2) == 0xdebb_20e3
  {
    hide Steps, Xor;
    OddStep(0x6607_4787, 0x3, 0x3, 0x0, 0x3, 0xa, 0x3, 0xc, 0x3);
    TwoSteps(0xcc0e_8f0e);
  }

  lemma TwoSteps(c: nat)
    ensures Steps(c, 2) == Step(Step(c))
  {
    hide Step;
    StepsAdd(c, 1, 1);
    OneStep(c);
    OneStep(Step(c));
  }

  // The complement of 0x2144df1c is 0xdebb20e3.
  lemma OnesResidue()
    ensures Steps(ONES, 32) == Xor(0x2144_df1c, ONES)
  {
    hide Steps, Xor;
    OnesSteps0();
    OnesSteps1();
    OnesSteps2();
    OnesSteps3();
    OnesSteps4();
    OnesSteps5();
    OnesSteps6();
    OnesSteps7();
    OnesSteps8();
    OnesSteps9();
    OnesSteps10();
    OnesSteps11();
    OnesSteps12();
    OnesSteps13();
    OnesSteps14();
    OnesSteps15();
    StepsAdd(ONES, 2, 2);
    StepsAdd(ONES, 4, 2);
    StepsAdd(ONES, 6, 2);
    StepsAdd(ONES, 8, 2);
    StepsAdd(ONES, 10, 2);
    StepsAdd(ONES, 12, 2);
    StepsAdd(ONES, 14, 2);
    StepsAdd(ONES, 16, 2);
    StepsAdd(ONES, 18, 2);
    StepsAdd(ONES, 20, 2);
    StepsAdd(ONES, 22, 2);
    StepsAdd(ONES, 24, 2);
    StepsAdd(ONES, 26, 2);
    StepsAdd(ONES, 28, 2);
    StepsAdd(ONES, 30, 2);
    ResidueBytes();
    XorWord(0x1c, 0xdf, 0x44, 0x21, 0xff, 0xff, 0xff, 0xff);
  }

  lemma ResidueBytes()
    ensures Xor(0x1c, 0xff) == 0xe3 && Xor(0xdf, 0xff) == 0x20 && Xor(0x44, 0xff) == 0xbb && Xor(0x21, 0xff) == 0xde
  {
    hide Xor;
    XorDigit(0xc, 0x1, 0xf, 0xf);
    XorDigit(0xf, 0xd, 0xf, 0xf);
    XorDigit(0x4, 0x4, 0xf, 0xf);
    XorDigit(0x1, 0x2, 0xf, 0xf);
    WithF(0xc);
    WithF(0xf);
    WithF(0x4);
    WithF(0x1);
    WithF(0xd);
    WithF(0x2);
  }

  lemma XorNone(x: nat, y: nat)
    requires Xor(x, y) == 0
    ensures x == y
  {
    hide Xor;
    XorTwice(x, y);
    XorZero(y);
  }

  // No register but the empty one is emptied by a step: the polynomial has its highest bit.
  lemma StepNone(x: nat)
    requires x < Pow2(32) && Step(x) == 0
    ensures x == 0
  {
    hide Xor, Pow2;
    Words();
    if x % 2 == 1 {
      XorNone(x / 2, POLY);
      assert false;
    }
  }

  lemma {:induction false} StepsNone(x: nat, n: nat)
    requires x < Pow2(32) && Steps(x, n) == 0
    ensures x == 0
    decreases n
  {
    hide Step, Pow2;
    if n > 0 {
      StepBound(x);
      StepsNone(Step(x), n - 1);
      StepNone(x);
    }
  }

  lemma StepsInjective(x: nat, y: nat, n: nat)
    requires x < Pow2(32) && y < Pow2(32) && Steps(x, n) == Steps(y, n)
    ensures x == y
  {
    hide Steps, Xor, Pow2;
    StepsLinear(x, y, n);
    XorSelf(Steps(x, n));
    XorBound(x, y, 32);
    StepsNone(Xor(x, y), n);
    XorNone(x, y);
  }

  lemma XorInjective(x: nat, y: nat, z: nat)
    requires Xor(x, z) == Xor(y, z)
    ensures x == y
  {
    hide Xor;
    XorTwice(x, z);
    XorTwice(y, z);
  }

  /**
    The residue law: a text followed by four bytes has the checksum 0x2144df1c exactly if
    these are the bytes of its own checksum, lowest first.
   */
  lemma Residue(crc: nat, s: seq<nat>, b0: nat, b1: nat, b2: nat, b3: nat)
    requires crc < Pow2(32) && Bytes(s) && b0 < 256 && b1 < 256 && b2 < 256 && b3 < 256
    ensures Checksum(crc, s + [b0, b1, b2, b3]) == 0x2144_df1c <==> Word(b0, b1, b2, b3) == Checksum(crc, s)
  {
    hide Xor, Steps, Register, Pow2, Number, Word;
    var start, four, w := Xor(crc, ONES), [b0, b1, b2, b3], Word(b0, b1, b2, b3);
    NotBound(crc);
    RegisterBound(start, s);
    var r := Register(start, s);
    RegisterConcat(start, s, four);
    RegisterAtOnce(r, four);
    FourNumber(b0, b1, b2, b3);
    WordBytes(b0, b1, b2, b3);
    XorBound(r, w, 32);
    OnesResidue();
    XorTwice(0x2144_df1c, ONES);
    Words();
    // r ^ w == ONES exactly if w == r ^ ONES
    XorComm(r, w);
    XorTwice(w, r);
    XorTwice(ONES, r);
    XorComm(r, ONES);
    if Checksum(crc, s + four) == 0x2144_df1c {
      XorInjective(Steps(Xor(r, w), 32), Steps(ONES, 32), ONES);
      StepsInjective(Xor(r, w), ONES, 32);
    }
  }
}
