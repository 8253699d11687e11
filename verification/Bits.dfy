/**
  Machine words as natural numbers and bit strings as sequences of booleans.

  Shifts and masks are defined one bit at a time, so that every fact about them is
  linear arithmetic: Shr(x, n) is x >> n, Shl(x, n) is x << n (without truncation) and
  Low(x, n) is x & ((1 << n) - 1).  Bit strings are written least significant bit first,
  the order in which a deflate stream packs them into bytes.
 */
module Bits {

  function Pow2(n: nat): (p: nat)
    ensures p >= 1
  {
    if n == 0 then 1 else 2 * Pow2(n - 1)
  }

  function Shl(x: nat, n: nat): nat {
    if n == 0 then x else 2 * Shl(x, n - 1)
  }

  function Shr(x: nat, n: nat): nat {
    if n == 0 then x else Shr(x / 2, n - 1)
  }

  function Low(x: nat, n: nat): (r: nat)
    ensures r < Pow2(n)
  {
    if n == 0 then 0 else x % 2 + 2 * Low(x / 2, n - 1)
  }

  // The bit of x with weight 2^n.
  predicate Bit(x: nat, n: nat) {
    Shr(x, n) % 2 == 1
  }

  // x | y
  function Or(x: nat, y: nat): nat {
    if x == 0 && y == 0 then 0
    else (if x % 2 == 1 || y % 2 == 1 then 1 else 0) + 2 * Or(x / 2, y / 2)
  }

  // x ^ y
  function Xor(x: nat, y: nat): nat {
    if x == 0 && y == 0 then 0
    else (if x % 2 != y % 2 then 1 else 0) + 2 * Xor(x / 2, y / 2)
  }

  // The low n bits of x in reverse order.
  function Rev(x: nat, n: nat): (r: nat)
    ensures r < Pow2(n)
  {
    if n == 0 then 0 else (if x % 2 == 1 then Pow2(n - 1) else 0) + Rev(x / 2, n - 1)
  }

  // The low n bits of x, least significant bit first.
  function ToBits(x: nat, n: nat): (s: seq<bool>)
    ensures |s| == n
  {
    if n == 0 then [] else [x % 2 == 1] + ToBits(x / 2, n - 1)
  }

  // The number a bit string spells, least significant bit first.
  function FromBits(s: seq<bool>): (x: nat)
    ensures x < Pow2(|s|)
  {
    if s == [] then 0 else (if s[0] then 1 else 0) + 2 * FromBits(s[1..])
  }

  // The low n bits of x, most significant bit first (the order Huffman codes are packed).
  function MsbBits(x: nat, n: nat): (s: seq<bool>)
    ensures |s| == n
  {
    if n == 0 then [] else MsbBits(x / 2, n - 1) + [x % 2 == 1]
  }

  // ---------- shifts and masks ----------

  lemma {:induction false} Pow2Add(a: nat, b: nat)
    ensures Pow2(a + b) == Pow2(a) * Pow2(b)
    decreases b
  {
    if b != 0 {
      Pow2Add(a, b - 1);
      assert Pow2(a + b) == 2 * (Pow2(a) * Pow2(b - 1));
    }
  }

  lemma Pow2Values()
    ensures Pow2(0) == 1 && Pow2(1) == 2 && Pow2(2) == 4 && Pow2(3) == 8
    ensures Pow2(7) == 128 && Pow2(8) == 256 && Pow2(15) == 0x8000 && Pow2(16) == 0x10000
  {
    assert Pow2(4) == 16;
    assert Pow2(8) == 256;
    assert Pow2(12) == 4096;
    assert Pow2(15) == 32768;
  }

  lemma {:induction false} Pow2Mono(a: nat, b: nat)
    requires a <= b
    ensures Pow2(a) <= Pow2(b)
    decreases b
  {
    if a < b {
      Pow2Mono(a, b - 1);
    }
  }

  lemma {:induction false} ShlIsMul(x: nat, n: nat)
    ensures Shl(x, n) == x * Pow2(n)
  {
    if n != 0 {
      ShlIsMul(x, n - 1);
    }
  }

  lemma {:induction false} LowShr(x: nat, n: nat)
    ensures x == Low(x, n) + Shl(Shr(x, n), n)
  {
    if n != 0 {
      LowShr(x / 2, n - 1);
    }
  }

  lemma {:induction false} ShrShr(x: nat, a: nat, b: nat)
    ensures Shr(Shr(x, a), b) == Shr(x, a + b)
    decreases a
  {
    if a != 0 {
      ShrShr(x / 2, a - 1, b);
    }
  }

  lemma {:induction false} LowLow(x: nat, a: nat, b: nat)
    requires a <= b
    ensures Low(Low(x, b), a) == Low(x, a)
    decreases a
  {
    if a != 0 {
      var y := Low(x, b);
      assert y / 2 == Low(x / 2, b - 1) && y % 2 == x % 2;
      LowLow(x / 2, a - 1, b - 1);
    }
  }

  lemma {:induction false} LowOfShr(x: nat, a: nat, b: nat)
    ensures Low(Shr(x, a), b) == Shr(Low(x, a + b), a)
    decreases a
  {
    if a != 0 {
      LowOfShr(x / 2, a - 1, b);
      assert Low(x, a + b) / 2 == Low(x / 2, a + b - 1);
    }
  }

  lemma {:induction false} LowId(x: nat, n: nat)
    requires x < Pow2(n)
    ensures Low(x, n) == x && Shr(x, n) == 0
  {
    if n != 0 {
      LowId(x / 2, n - 1);
    }
  }

  // Assembling a word from a low part of n bits and a high part.
  lemma {:induction false} JoinParts(lo: nat, hi: nat, n: nat)
    requires lo < Pow2(n)
    ensures Low(lo + Shl(hi, n), n) == lo && Shr(lo + Shl(hi, n), n) == hi
  {
    if n != 0 {
      var x := lo + Shl(hi, n);
      assert x / 2 == lo / 2 + Shl(hi, n - 1) && x % 2 == lo % 2;
      JoinParts(lo / 2, hi, n - 1);
    }
  }

  lemma JoinBound(lo: nat, hi: nat, a: nat, b: nat)
    requires lo < Pow2(a) && hi < Pow2(b)
    ensures lo + Shl(hi, a) < Pow2(a + b)
  {
    hide Pow2, Shl;
    ShlMono(hi + 1, Pow2(b), a);
    ShlAdd(hi, 1, a);
    ShlOne(a);
    ShlIsMul(Pow2(b), a);
    Pow2Add(b, a);
  }

  lemma {:induction false} ShlMono(x: nat, y: nat, n: nat)
    requires x <= y
    ensures Shl(x, n) <= Shl(y, n)
  {
    if n != 0 {
      ShlMono(x, y, n - 1);
    }
  }

  lemma {:induction false} ShlAdd(x: nat, y: nat, n: nat)
    ensures Shl(x + y, n) == Shl(x, n) + Shl(y, n)
  {
    if n != 0 {
      ShlAdd(x, y, n - 1);
    }
  }

  lemma {:induction false} ShlShl(x: nat, a: nat, b: nat)
    ensures Shl(Shl(x, a), b) == Shl(x, a + b)
    decreases b
  {
    if b != 0 {
      ShlShl(x, a, b - 1);
    }
  }

  lemma {:induction false} ShlOne(n: nat)
    ensures Shl(1, n) == Pow2(n) && Shl(0, n) == 0
  {
    if n != 0 {
      ShlOne(n - 1);
    }
  }

  // Shr is division by a power of two and Low the remainder.
  lemma ShrIsDiv(x: nat, n: nat)
    ensures Shr(x, n) == x / Pow2(n) && Low(x, n) == x % Pow2(n)
  {
    LowShr(x, n);
    ShlIsMul(Shr(x, n), n);
    DivModUnique(x, Pow2(n), Shr(x, n), Low(x, n));
  }

  lemma DivModUnique(x: nat, d: nat, q: nat, r: nat)
    requires d > 0 && r < d && x == q * d + r
    ensures q == x / d && r == x % d
  {
    var q', r' := x / d, x % d;
    assert (q - q') * d == q * d - q' * d;
    assert (q' - q) * d == q' * d - q * d;
    if q < q' {
      MulAtLeast(q' - q, d);
      assert false;
    } else if q' < q {
      MulAtLeast(q - q', d);
      assert false;
    }
  }

  lemma MulAtLeast(k: int, d: nat)
    requires k >= 1
    ensures k * d >= d
  {
  }

  // ---------- reversal ----------

  lemma {:induction false} RevSplit(x: nat, a: nat, b: nat)
    ensures Rev(x, a + b) == Shl(Rev(x, a), b) + Rev(Shr(x, a), b)
    decreases a
  {
    if a == 0 {
      ShlOne(b);
    } else {
      RevSplit(x / 2, a - 1, b);
      var top := if x % 2 == 1 then Pow2(a - 1) else 0;
      ShlAdd(top, Rev(x / 2, a - 1), b);
      ShlIsMul(top, b);
      Pow2Add(a - 1, b);
    }
  }

  // Reversal looks only at the low bits.
  lemma {:induction false} RevLow(x: nat, n: nat, m: nat)
    requires n <= m
    ensures Rev(Low(x, m), n) == Rev(x, n)
    decreases n
  {
    if n != 0 {
      RevLow(x / 2, n - 1, m - 1);
      assert Low(x, m) / 2 == Low(x / 2, m - 1) && Low(x, m) % 2 == x % 2;
    }
  }

  lemma {:induction false} RevZero(n: nat)
    ensures Rev(0, n) == 0
  {
    if n != 0 {
      RevZero(n - 1);
    }
  }

  // A reversed word whose low bits are short ends in zeros.
  lemma RevShort(x: nat, a: nat, b: nat)
    requires x < Pow2(a)
    ensures Rev(x, a + b) == Shl(Rev(x, a), b)
  {
    RevSplit(x, a, b);
    LowId(x, a);
    RevZero(b);
  }

  lemma {:induction false} RevInvolution(x: nat, n: nat)
    ensures Rev(Rev(x, n), n) == Low(x, n)
  {
    if n != 0 {
      var m := n - 1;
      // Rev(x, n) has r as its low n - 1 bits and the low bit of x on top.
      var r, b := Rev(x / 2, m), x % 2;
      var y := r + Shl(b, m);
      assert Rev(x, n) == y by { ShlOne(m); }
      assert Low(y, m) == r && Shr(y, m) == b by { JoinParts(r, b, m); }
      assert Rev(y, m) == Rev(r, m) by { RevLow(y, m, m); }
      assert Rev(r, m) == Low(x / 2, m) by { RevInvolution(x / 2, m); }
      assert Rev(y, n) == 2 * Rev(y, m) + b by { RevAppend(y, m); }
    }
  }

  lemma RevAppend(x: nat, n: nat)
    ensures Rev(x, n + 1) == 2 * Rev(x, n) + Shr(x, n) % 2
  {
    RevSplit(x, n, 1);
    assert Shl(Rev(x, n), 1) == 2 * Shl(Rev(x, n), 0);
    assert Rev(Shr(x, n), 1) == Shr(x, n) % 2 + Rev(Shr(x, n) / 2, 0);
  }

  // Reversing a run of m ones within n bits.
  lemma {:induction false} RevOnes(m: nat, n: nat)
    requires m <= n
    ensures Rev(Pow2(m) - 1, n) == Pow2(n) - Pow2(n - m)
    decreases m
  {
    if m == 0 {
      RevZero(n);
    } else {
      var x, k := Pow2(m) - 1, n - 1;
      assert x / 2 == Pow2(m - 1) - 1 && x % 2 == 1;
      assert Rev(x, n) == Pow2(k) + Rev(x / 2, k);
      RevOnes(m - 1, k);
    }
  }

  // ---------- bit strings ----------

  lemma {:induction false} ToBitsSplit(x: nat, a: nat, b: nat)
    ensures ToBits(x, a + b) == ToBits(x, a) + ToBits(Shr(x, a), b)
    decreases a
  {
    if a != 0 {
      ToBitsSplit(x / 2, a - 1, b);
      assert ToBits(x, a + b) == [x % 2 == 1] + ToBits(x / 2, a + b - 1);
      assert ToBits(x, a) == [x % 2 == 1] + ToBits(x / 2, a - 1);
    }
  }

  lemma {:induction false} ToBitsLow(x: nat, n: nat, m: nat)
    requires n <= m
    ensures ToBits(Low(x, m), n) == ToBits(x, n)
    decreases n
  {
    if n != 0 {
      ToBitsLow(x / 2, n - 1, m - 1);
      assert Low(x, m) / 2 == Low(x / 2, m - 1) && Low(x, m) % 2 == x % 2;
    }
  }

  lemma {:induction false} FromToBits(x: nat, n: nat)
    ensures FromBits(ToBits(x, n)) == Low(x, n)
  {
    if n != 0 {
      FromToBits(x / 2, n - 1);
    }
  }

  lemma {:induction false} ToFromBits(s: seq<bool>)
    ensures ToBits(FromBits(s), |s|) == s
  {
    if s != [] {
      ToFromBits(s[1..]);
      assert s == [s[0]] + s[1..];
    }
  }

  // Joining words joins their bit strings.
  lemma ToBitsJoin(lo: nat, hi: nat, a: nat, b: nat)
    requires lo < Pow2(a)
    ensures ToBits(lo + Shl(hi, a), a + b) == ToBits(lo, a) + ToBits(hi, b)
  {
    JoinParts(lo, hi, a);
    ToBitsSplit(lo + Shl(hi, a), a, b);
    ToBitsLow(lo + Shl(hi, a), a, a);
  }

  lemma Assoc<T>(a: seq<T>, b: seq<T>, c: seq<T>)
    ensures (a + b) + c == a + (b + c)
  {
  }

  // Zero bits above a short word.
  lemma {:induction false} ToBitsZero(n: nat)
    ensures ToBits(0, n) == seq(n, i => false)
  {
    if n != 0 {
      ToBitsZero(n - 1);
    }
  }

  lemma ToBitsExtend(x: nat, m: nat, n: nat)
    requires x < Pow2(m) && m <= n
    ensures ToBits(x, n) == ToBits(x, m) + seq(n - m, i => false)
  {
    ToBitsSplit(x, m, n - m);
    LowId(x, m);
    ToBitsZero(n - m);
  }

  // bi_reverse turns the integer order of a code into transmission order.
  lemma {:induction false} RevIsMsb(c: nat, n: nat)
    ensures ToBits(Rev(c, n), n) == MsbBits(c, n)
  {
    if n != 0 {
      var m, b := n - 1, c % 2;
      var r := Rev(c / 2, m);
      assert Rev(c, n) == r + Shl(b, m) by { ShlOne(m); }
      assert ToBits(r, m) == MsbBits(c / 2, m) by { RevIsMsb(c / 2, m); }
      assert ToBits(r + Shl(b, m), m + 1) == ToBits(r, m) + ToBits(b, 1) by { ToBitsJoin(r, b, m, 1); }
      assert ToBits(b, 1) == [c % 2 == 1] by { assert ToBits(b / 2, 0) == []; }
    }
  }

  // ---------- bitwise or, where the operands do not overlap ----------

  lemma {:induction false} OrZero(x: nat)
    ensures Or(x, 0) == x && Or(0, x) == x
  {
    if x != 0 {
      OrZero(x / 2);
    }
  }

  // Or of a word of n bits with a word shifted past it is addition.
  lemma {:induction false} OrDisjoint(lo: nat, hi: nat, n: nat)
    requires lo < Pow2(n)
    ensures Or(lo, Shl(hi, n)) == lo + Shl(hi, n)
  {
    if n == 0 {
      OrZero(hi);
    } else {
      OrDisjoint(lo / 2, hi, n - 1);
      assert Shl(hi, n) / 2 == Shl(hi, n - 1);
      if lo == 0 && Shl(hi, n) == 0 {
      }
    }
  }
}
