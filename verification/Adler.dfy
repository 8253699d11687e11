/**
  The Adler-32 checksum (section 2.2 of RFC 1950): adler32() with its deferred remainders,
  the variants of the remainder that avoid division, and adler32_combine().

  A checksum is a pair of sums modulo 65521; the low half is the sum of the bytes, the high
  half the sum of all the intermediate low sums, which weighs each byte with the number of
  bytes from it to the end.
 */
module Adler {

  const BASE: nat := 65521
  const NMAX: nat := 5552

  predicate Bytes(s: seq<nat>) {
    forall i :: 0 <= i < |s| ==> s[i] < 256
  }

  // The sum of the bytes.
  function Total(s: seq<nat>): nat {
    if s == [] then 0 else Total(s[..|s| - 1]) + s[|s| - 1]
  }

  // The sum of the totals of all non-empty prefixes.
  function Weighted(s: seq<nat>): nat {
    if s == [] then 0 else Weighted(s[..|s| - 1]) + Total(s)
  }

  function Times(n: nat, x: nat): nat {
    n * x
  }

  lemma TimesSum(n: nat, m: nat, x: nat, y: nat)
    ensures Times(n + m, x) == Times(n, x) + Times(m, x) && Times(n, x + y) == Times(n, x) + Times(n, y)
    ensures Times(0, x) == 0 && Times(1, x) == x
  {
  }

  // The two sums from start values a and b.
  function Low(a: nat, s: seq<nat>): (r: nat)
    ensures r < BASE
  {
    (a + Total(s)) % BASE
  }

  function High(a: nat, b: nat, s: seq<nat>): (r: nat)
    ensures r < BASE
  {
    (b + Times(|s|, a) + Weighted(s)) % BASE
  }

  // The checksum of s, going on from the checksum adler: the sums in the two halves of a word.
  function Checksum(adler: nat, s: seq<nat>): (r: nat)
    ensures r % 65536 == Low(adler % 65536, s) && r / 65536 == High(adler % 65536, adler / 65536, s)
  {
    Low(adler % 65536, s) + 65536 * High(adler % 65536, adler / 65536, s)
  }

  // Both halves of a start value are below the modulus.
  predicate Reducible(adler: nat) {
    adler % 65536 < BASE && adler / 65536 < BASE
  }

  lemma TotalPush(s: seq<nat>, x: nat)
    ensures Total(s + [x]) == Total(s) + x && Weighted(s + [x]) == Weighted(s) + Total(s) + x
  {
    assert (s + [x])[..|s|] == s;
  }

  lemma {:induction false} TotalConcat(s: seq<nat>, t: seq<nat>)
    ensures Total(s + t) == Total(s) + Total(t)
    ensures Weighted(s + t) == Weighted(s) + Times(|t|, Total(s)) + Weighted(t)
  {
    hide Times;
    if t == [] {
      assert s + t == s;
      TimesSum(0, 0, Total(s), 0);
    } else {
      var u, x := t[..|t| - 1], t[|t| - 1];
      TotalConcat(s, u);
      assert s + t == (s + u) + [x] && t == u + [x];
      hide Total, Weighted;
      TotalPush(s + u, x);
      TotalPush(u, x);
      TimesSum(|u|, 1, Total(s), 0);
    }
  }

  // Zero bytes only move the high half on, by the low one for each.
  lemma {:induction false} ZeroSums(n: nat)
    ensures Total(seq(n, i => 0)) == 0 && Weighted(seq(n, i => 0)) == 0
  {
    if n > 0 {
      ZeroSums(n - 1);
      assert seq(n, i => 0)[..n - 1] == seq(n - 1, i => 0);
    }
  }

  // The initial checksum, with the low half 1 and the high half 0, counts zero bytes.
  lemma ZeroBytes(n: nat)
    ensures Checksum(1, seq(n, i => 0)) == 1 + 0x1_0000 * (n % 65521)
  {
    hide Total, Weighted;
    ZeroSums(n);
    assert Times(n, 1) == n;
  }

  // ---------- remainders ----------

  lemma ModEqual(x: nat, y: nat, k: int)
    requires x == y + k * BASE
    ensures x % BASE == y % BASE
  {
    if k >= 0 {
      ModShift(y, k);
    } else {
      ModShift(x, -k);
      assert x + (-k) * BASE == y;
    }
  }

  lemma {:induction false} ModShift(y: nat, k: nat)
    ensures (y + k * BASE) % BASE == y % BASE
  {
    if k > 0 {
      ModShift(y, k - 1);
      assert y + k * BASE == (y + (k - 1) * BASE) + BASE;
    }
  }

  // Replacing a summand by its remainder.
  lemma ModAdd(x: nat, y: nat)
    ensures (x % BASE + y) % BASE == (x + y) % BASE
  {
    ModEqual(x + y, x % BASE + y, x / BASE);
  }

  lemma ModMul(n: nat, x: nat, y: nat)
    ensures (Times(n, x % BASE) + y) % BASE == (Times(n, x) + y) % BASE
  {
    var q, r := x / BASE, x % BASE;
    assert n * x == n * (q * BASE + r) == (n * q) * BASE + n * r;
    ModEqual(n * x + y, n * r + y, n * q);
  }

  // Checksums go on from checksums.
  lemma Continue(a: nat, b: nat, s: seq<nat>, t: seq<nat>)
    ensures Low(Low(a, s), t) == Low(a, s + t)
    ensures High(Low(a, s), High(a, b, s), t) == High(a, b, s + t)
  {
    hide Times, Total, Weighted;
    TotalConcat(s, t);
    var x, y := a + Total(s), b + Times(|s|, a) + Weighted(s);
    ModAdd(x, Total(t));
    ModAdd(y, Times(|t|, x % BASE) + Weighted(t));
    ModMul(|t|, x, y + Weighted(t));
    TimesSum(|t|, |s|, a, Total(s));
    TimesSum(|s|, |t|, a, Total(s));
  }

  // ---------- the remainder without division ----------

  // a is reduced by replacing each 65536 in it by 15.
  function Chop(a: nat): nat {
    a % 65536 + 16 * (a / 65536) - a / 65536
  }

  // x -= BASE if it is not below BASE.
  function Once(a: nat): nat {
    if a >= BASE then a - BASE else a
  }

  function Mod28(a: nat): nat {
    Once(Chop(a))
  }

  function Mod(a: nat): nat {
    Mod28(Chop(a))
  }

  function Mod63(a: nat): nat {
    var b := a % 0x1_0000_0000 + (256 * (a / 0x1_0000_0000) - 32 * (a / 0x1_0000_0000) + a / 0x1_0000_0000);
    Once(Chop(Chop(b)))
  }

  lemma ChopKeeps(a: nat)
    ensures Chop(a) % BASE == a % BASE
    ensures Chop(a) <= 65535 + 15 * (a / 65536)
  {
    ModEqual(a, Chop(a), a / 65536);
  }

  lemma OnceIs(a: nat)
    requires a < 2 * BASE
    ensures Once(a) == a % BASE
  {
    if a >= BASE {
      ModEqual(a, a - BASE, 1);
    }
  }

  // Each macro is the remainder on the range it is used for: sums of at most 15 bytes on
  // top of a reduced sum, any 32-bit word, and any length of 63 bits.
  lemma Mod28Is(a: nat)
    requires a < 0x1000_0000
    ensures Mod28(a) == a % BASE
  {
    ChopKeeps(a);
    OnceIs(Chop(a));
  }

  lemma ModIs(a: nat)
    requires a <= 0xffff_ffff
    ensures Mod(a) == a % BASE
  {
    ChopKeeps(a);
    ChopKeeps(Chop(a));
    OnceIs(Chop(Chop(a)));
  }

  lemma Mod63Is(a: nat)
    requires a < 0x8000_0000_0000_0000
    ensures Mod63(a) == a % BASE
  {
    var q := a / 0x1_0000_0000;
    var b := a % 0x1_0000_0000 + (256 * q - 32 * q + q);
    assert 0x1_0000_0000 == 225 + 65551 * BASE;
    ModEqual(a, b, 65551 * q);
    ChopKeeps(b);
    ChopKeeps(Chop(b));
    OnceIs(Chop(Chop(b)));
  }

  // ---------- adler32 ----------

  function Remainder(divide: bool, a: nat): nat {
    if divide then a % BASE else Mod(a)
  }

  function Remainder28(divide: bool, a: nat): nat {
    if divide then a % BASE else Mod28(a)
  }

  // 1 + 2 + ... + n
  function Triangle(n: nat): nat {
    if n == 0 then 0 else Triangle(n - 1) + n
  }

  lemma {:induction false} TriangleIs(n: nat)
    ensures 2 * Triangle(n) == n * (n + 1)
  {
    if n > 0 {
      TriangleIs(n - 1);
      assert n * (n + 1) == (n - 1) * n + 2 * n;
    }
  }

  lemma {:induction false} TriangleMono(m: nat, n: nat)
    requires m <= n
    ensures Triangle(m) <= Triangle(n)
    decreases n
  {
    if m < n {
      TriangleMono(m, n - 1);
    }
  }

  lemma {:induction false} SumsAtMost(s: seq<nat>)
    requires Bytes(s)
    ensures Total(s) <= 255 * |s| && Weighted(s) <= 255 * Triangle(|s|)
  {
    if s != [] {
      SumsAtMost(s[..|s| - 1]);
    }
  }

  // The sums of a block fit 32 bits, and those of a short one 28 bits.
  lemma SumsFit(a: nat, b: nat, s: seq<nat>)
    requires a < BASE && b < BASE && Bytes(s) && |s| <= NMAX
    ensures a + Total(s) <= 0xffff_ffff && b + Times(|s|, a) + Weighted(s) <= 0xffff_ffff
    ensures |s| < 16 ==> a + Total(s) < 2 * BASE && b + Times(|s|, a) + Weighted(s) < 0x1000_0000
  {
    SumsAtMost(s);
    TriangleMono(|s|, NMAX);
    TriangleIs(NMAX);
    TimesMono(|s|, a, BASE - 1);
    if |s| < 16 {
      TriangleMono(|s|, 15);
      TriangleIs(15);
    }
  }

  lemma TimesMono(n: nat, x: nat, y: nat)
    requires x <= y
    ensures Times(n, x) <= Times(n, y)
  {
    assert n * y == n * x + n * (y - x);
  }

  lemma PrefixFits(s: seq<nat>, k: nat)
    requires k < |s| && Bytes(s)
    ensures s[..k + 1] == s[..k] + [s[k]] && Bytes(s[..k]) && Bytes(s[..k + 1])
  {
  }

  // Add up the bytes without taking remainders; nothing exceeds 32 bits.
  method Sums(a: nat, b: nat, s: seq<nat>) returns (adler: nat, sum2: nat)
    requires a < BASE && b < BASE && Bytes(s) && |s| <= NMAX
    ensures adler == a + Total(s) <= 0xffff_ffff && sum2 == b + Times(|s|, a) + Weighted(s) <= 0xffff_ffff
  {
    hide Total, Weighted, Times;
    adler, sum2 := a, b;
    SumsNone(a);
    assert s[..0] == [];
    for i := 0 to |s|
      invariant adler == a + Total(s[..i]) && sum2 == b + Times(i, a) + Weighted(s[..i])
      invariant adler <= 0xffff_ffff && sum2 <= 0xffff_ffff
    {
      PrefixFits(s, i);
      TotalPush(s[..i], s[i]);
      TimesSum(i, 1, a, 0);
      SumsFit(a, b, s[..i + 1]);
      adler := adler + s[i];
      sum2 := sum2 + adler;
    }
    assert s[..|s|] == s;
  }

  lemma SumsNone(a: nat)
    ensures Total([]) == 0 && Weighted([]) == 0 && Times(0, a) == 0
  {
  }

  /**
    adler32() of a buffer, from a valid start value, with or without division: the sums
    modulo 65521.  Remainders are taken only once for each block of at most 5552 bytes.
   */
  method Adler32(adler: nat, buf: seq<nat>, divide: bool) returns (r: nat)
    requires Reducible(adler) && Bytes(buf)
    ensures r == Checksum(adler, buf)
  {
    hide Low, High;
    var a, b := adler % 65536, adler / 65536;
    var low, high;
    if |buf| == 1 {
      low, high := OneByte(a, b, buf);
    } else if |buf| < 16 {
      low, high := FewBytes(a, b, buf, divide);
    } else {
      low, high := ManyBytes(a, b, buf, divide);
    }
    r := low + 65536 * high;
  }

  method OneByte(a: nat, b: nat, buf: seq<nat>) returns (low: nat, high: nat)
    requires a < BASE && b < BASE && Bytes(buf) && |buf| == 1
    ensures low == Low(a, buf) && high == High(a, b, buf)
  {
    hide Times;
    assert [] + [buf[0]] == buf;
    SumsNone(a);
    TotalPush([], buf[0]);
    TimesSum(0, 1, a, 0);
    low := a + buf[0];
    OnceIs(low);
    ModAdd(low, b);
    if low >= BASE {
      low := low - BASE;
    }
    high := b + low;
    OnceIs(high);
    if high >= BASE {
      high := high - BASE;
    }
  }

  method FewBytes(a: nat, b: nat, buf: seq<nat>, divide: bool) returns (low: nat, high: nat)
    requires a < BASE && b < BASE && Bytes(buf) && |buf| < 16
    ensures low == Low(a, buf) && high == High(a, b, buf)
  {
    hide Total, Weighted, Times, Mod28;
    low, high := Sums(a, b, buf);
    SumsFit(a, b, buf);
    OnceIs(low);
    if low >= BASE {
      low := low - BASE;
    }
    Mod28Is(high);
    high := Remainder28(divide, high);
  }

  method ManyBytes(a: nat, b: nat, buf: seq<nat>, divide: bool) returns (low: nat, high: nat)
    requires a < BASE && b < BASE && Bytes(buf)
    ensures low == Low(a, buf) && high == High(a, b, buf)
  {
    hide Total, Weighted, Times, Low, High;
    low, high := a, b;
    var done := 0;
    StartSums(a, b);
    assert buf[..0] == [];
    while |buf| - done >= NMAX
      invariant done <= |buf| && low == Low(a, buf[..done]) && high == High(a, b, buf[..done])
    {
      low, high := OneBlock(a, b, buf, done, NMAX, low, high, divide);
      done := done + NMAX;
    }
    if done < |buf| {
      low, high := OneBlock(a, b, buf, done, |buf| - done, low, high, divide);
      done := |buf|;
    }
    assert buf[..done] == buf;
  }

  lemma StartSums(a: nat, b: nat)
    requires a < BASE && b < BASE
    ensures Low(a, []) == a && High(a, b, []) == b
  {
  }

  // A block of n bytes, and then the remainders.
  method OneBlock(ghost a: nat, ghost b: nat, buf: seq<nat>, from: nat, n: nat, low: nat, high: nat, divide: bool)
    returns (low': nat, high': nat)
    requires Bytes(buf) && from + n <= |buf| && n <= NMAX
    requires low == Low(a, buf[..from]) && high == High(a, b, buf[..from])
    ensures low' == Low(a, buf[..from + n]) && high' == High(a, b, buf[..from + n])
  {
    hide Total, Weighted, Times, Mod;
    var part := buf[from..from + n];
    low', high' := Sums(low, high, part);
    ModIs(low');
    ModIs(high');
    low', high' := Remainder(divide, low'), Remainder(divide, high');
    Continue(a, b, buf[..from], part);
    assert buf[..from] + part == buf[..from + n];
  }

  // ---------- adler32_combine ----------

  // The halves of the combined checksum.
  function CombineSums(l1: nat, h1: nat, l2: nat, h2: nat, len2: nat, divide: bool): (int, int) {
    var rem := if divide then len2 % BASE else Mod63(len2);
    var sum1 := l1 + l2 + BASE - 1;
    var sum2 := Remainder(divide, Times(rem, l1)) + h1 + h2 + BASE - rem;
    (Reduced(Reduced(sum1, BASE), BASE), Reduced(Reduced(sum2, 2 * BASE), BASE))
  }

  /**
    adler32_combine_: the checksum of a concatenation from the checksums of its parts and the
    length of the second part.  A negative length gives an invalid checksum.
   */
  function Combine(adler1: nat, adler2: nat, len2: int, divide: bool): int {
    if len2 < 0 then 0xffff_ffff
    else
      var (low, high) := CombineSums(adler1 % 65536, adler1 / 65536, adler2 % 65536, adler2 / 65536, len2, divide);
      low + 65536 * high
  }

  function Reduced(a: int, m: nat): int {
    if a >= m then a - m else a
  }

  lemma ReducedIs(a: nat)
    ensures a < 3 * BASE ==> Reduced(Reduced(a, BASE), BASE) == a % BASE
    ensures a < 4 * BASE ==> Reduced(Reduced(a, 2 * BASE), BASE) == a % BASE
  {
    ModEqual(a, a % BASE, a / BASE);
  }

  // The product of remainders.
  lemma ModProduct(n: nat, x: nat)
    ensures Times(n % BASE, x % BASE) % BASE == Times(n, x) % BASE
    ensures Times(n % BASE, x % BASE) <= 0xffff_ffff
  {
    var r, q := n % BASE, n / BASE;
    ModMul(r, x, 0);
    assert n * x == (r + q * BASE) * x == r * x + (q * x) * BASE;
    ModEqual(n * x, r * x, q * x);
    TimesMono(r, x % BASE, BASE - 1);
    assert Times(r, BASE - 1) <= 65520 * 65520;
  }

  lemma LowCombined(x: nat, y: nat)
    ensures (x % BASE + y % BASE + BASE - 1) % BASE == (x + y + BASE - 1) % BASE
  {
    ModEqual(x + y + BASE - 1, x % BASE + y % BASE + BASE - 1, x / BASE + y / BASE);
  }

  lemma HighCombined(p: nat, x: nat, y: nat, n: nat)
    ensures (p % BASE + x % BASE + y % BASE + BASE - n % BASE) % BASE == (p + x + y + BASE * (n + 1) - n) % BASE
  {
    var s := p % BASE + x % BASE + y % BASE + BASE - n % BASE;
    var t := p + x + y + BASE * (n + 1) - n;
    ModEqual(t, s, p / BASE + x / BASE + y / BASE + n - n / BASE);
  }

  lemma CombineSumsAre(x: seq<nat>, y: seq<nat>, divide: bool)
    requires |y| < 0x8000_0000_0000_0000
    ensures CombineSums(Low(1, x), High(1, 0, x), Low(1, y), High(1, 0, y), |y|, divide)
            == (Low(1, x + y), High(1, 0, x + y))
  {
    hide Times, Total, Weighted, Mod, Mod63, Reduced;
    var n := |y|;
    Mod63Is(n);
    ModProduct(n, 1 + Total(x));
    ModIs(Times(n % BASE, Low(1, x)));
    TotalConcat(x, y);
    LowCombined(1 + Total(x), 1 + Total(y));
    ModEqual(1 + Total(x) + (1 + Total(y)) + BASE - 1, 1 + Total(x + y), 1);
    ReducedIs(Low(1, x) + Low(1, y) + BASE - 1);
    var p, hx, hy := Times(n, 1 + Total(x)), Times(|x|, 1) + Weighted(x), Times(n, 1) + Weighted(y);
    HighCombined(p, hx, hy, n);
    TimesSum(n, |x|, 1, Total(x));
    TimesSum(|x|, n, 1, 0);
    TimesOne(n);
    ModEqual(p + hx + hy + BASE * (n + 1) - n, Times(|x + y|, 1) + Weighted(x + y), n + 1);
    ReducedIs(Times(n, 1 + Total(x)) % BASE + hx % BASE + hy % BASE + BASE - n % BASE);
  }

  lemma TimesOne(n: nat)
    ensures Times(n, 1) == n
  {
  }

  // Combining the checksums of two texts gives the checksum of the concatenation.
  lemma CombineIs(x: seq<nat>, y: seq<nat>, divide: bool)
    requires |y| < 0x8000_0000_0000_0000
    ensures Combine(Checksum(1, x), Checksum(1, y), |y|, divide) == Checksum(1, x + y)
  {
    hide Low, High, CombineSums;
    CombineSumsAre(x, y, divide);
  }

  // A checksum goes on from the checksum of what comes before.
  lemma Continued(adler: nat, s: seq<nat>, t: seq<nat>)
    ensures Checksum(Checksum(adler, s), t) == Checksum(adler, s + t)
  {
    hide Low, High;
    Continue(adler % 65536, adler / 65536, s, t);
  }
}
