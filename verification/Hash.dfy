/**
  The running hash of deflate.c (UPDATE_HASH) over three consecutive bytes.

  hb is the number of bits of a hash value (hash_bits) and hs the shift (hash_shift), with
  3 * hs >= hb: after three updates the older bytes no longer matter.
 */
module Hash {
  import opened Bits

  function UpdateHash(h: nat, c: nat, hb: nat, hs: nat): (r: nat)
    ensures r < Pow2(hb)
  {
    Low(Xor(Shl(h, hs), c), hb)
  }

  // The hash of a string of three bytes.
  function Key(a: nat, b: nat, c: nat, hb: nat, hs: nat): (r: nat)
    ensures r < Pow2(hb)
  {
    UpdateHash(UpdateHash(a, b, hb, hs), c, hb, hs)
  }

  // h stands for the bytes a and b: one more update gives the hash of three bytes.
  ghost predicate Primed(h: nat, a: nat, b: nat, hb: nat, hs: nat) {
    forall c: nat :: UpdateHash(h, c, hb, hs) == Key(a, b, c, hb, hs)
  }

  lemma {:induction false} XorZero(x: nat)
    ensures Xor(x, 0) == x && Xor(0, x) == x
  {
    if x != 0 {
      XorZero(x / 2);
    }
  }

  lemma {:induction false} XorSelf(x: nat)
    ensures Xor(x, x) == 0
  {
    if x != 0 {
      XorSelf(x / 2);
    }
  }

  function Odd(x: nat, y: nat): nat {
    if x % 2 != y % 2 then 1 else 0
  }

  lemma XorStep(x: nat, y: nat)
    ensures Xor(x, y) == Odd(x, y) + 2 * Xor(x / 2, y / 2)
  {
  }

  lemma TwoParts(r: nat, b: nat, q: nat)
    requires r == b + 2 * q && b < 2
    ensures r % 2 == b && r / 2 == q
  {
  }

  lemma XorParts(x: nat, y: nat)
    ensures Xor(x, y) % 2 == Odd(x, y) && Xor(x, y) / 2 == Xor(x / 2, y / 2)
  {
    XorStep(x, y);
    hide Xor;
    TwoParts(Xor(x, y), Odd(x, y), Xor(x / 2, y / 2));
  }

  lemma {:induction false} XorAssoc(x: nat, y: nat, z: nat)
    ensures Xor(Xor(x, y), z) == Xor(x, Xor(y, z))
    decreases x + y + z
  {
    if x == 0 {
      XorZero(y);
      XorZero(Xor(y, z));
    } else {
      XorAssoc(x / 2, y / 2, z / 2);
      XorParts(x, y);
      XorParts(y, z);
      XorParts(Xor(x, y), z);
      XorParts(x, Xor(y, z));
    }
  }

  lemma LowStep(x: nat, n: nat)
    requires n > 0
    ensures Low(x, n) == x % 2 + 2 * Low(x / 2, n - 1)
    ensures Low(x, n) % 2 == x % 2 && Low(x, n) / 2 == Low(x / 2, n - 1)
  {
    assert Low(x, n) == x % 2 + 2 * Low(x / 2, n - 1);
    hide Low;
    TwoParts(Low(x, n), x % 2, Low(x / 2, n - 1));
  }

  lemma {:induction false} LowXor(x: nat, y: nat, n: nat)
    ensures Low(Xor(x, y), n) == Xor(Low(x, n), Low(y, n))
  {
    if n == 0 {
      XorZero(0);
    } else {
      hide Low, Xor;
      LowXor(x / 2, y / 2, n - 1);
      XorParts(x, y);
      XorStep(Low(x, n), Low(y, n));
      LowStep(x, n);
      LowStep(y, n);
      LowStep(Xor(x, y), n);
    }
  }

  lemma XorDouble(x: nat, y: nat)
    ensures Xor(2 * x, 2 * y) == 2 * Xor(x, y)
  {
    XorStep(2 * x, 2 * y);
  }

  lemma ShlStep(x: nat, n: nat)
    requires n > 0
    ensures Shl(x, n) == 2 * Shl(x, n - 1)
  {
  }

  lemma {:induction false} ShlXor(x: nat, y: nat, n: nat)
    ensures Shl(Xor(x, y), n) == Xor(Shl(x, n), Shl(y, n))
  {
    if n > 0 {
      hide Xor, Shl;
      ShlXor(x, y, n - 1);
      ShlStep(x, n);
      ShlStep(y, n);
      ShlStep(Xor(x, y), n);
      XorDouble(Shl(x, n - 1), Shl(y, n - 1));
    }
  }

  lemma {:induction false} LowShl(x: nat, s: nat, n: nat)
    ensures Low(Shl(x, s), n) == if s >= n then 0 else Shl(Low(x, n - s), s)
    decreases s + n
  {
    if s == 0 {
    } else if n == 0 {
    } else {
      assert Shl(x, s) / 2 == Shl(x, s - 1) && Shl(x, s) % 2 == 0;
      LowShl(x, s - 1, n - 1);
    }
  }

  // Bits cut off before a shift are cut off after it anyway.
  lemma LowShlLow(x: nat, s: nat, n: nat)
    ensures Low(Shl(Low(x, n), s), n) == Low(Shl(x, s), n)
  {
    LowShl(Low(x, n), s, n);
    LowShl(x, s, n);
    if s < n {
      LowLow(x, n - s, n);
    }
  }

  // What an update keeps of the old value, after one more shift.
  lemma ShiftedUpdate(h: nat, c: nat, hb: nat, hs: nat, s: nat)
    ensures Low(Shl(UpdateHash(h, c, hb, hs), s), hb) == Xor(Low(Shl(h, hs + s), hb), Low(Shl(c, s), hb))
  {
    hide Low, Shl, Xor;
    var x := Xor(Shl(h, hs), c);
    LowShlLow(x, s, hb);
    ShlXor(Shl(h, hs), c, s);
    ShlShl(h, hs, s);
    LowXor(Shl(h, hs + s), Shl(c, s), hb);
  }

  // The oldest of three bytes drops out.
  lemma PrimedNext(h: nat, a: nat, b: nat, c: nat, hb: nat, hs: nat)
    requires Primed(h, a, b, hb, hs) && 3 * hs >= hb
    ensures Primed(UpdateHash(h, c, hb, hs), b, c, hb, hs)
  {
    hide UpdateHash;
    var ab, bc := UpdateHash(a, b, hb, hs), UpdateHash(b, c, hb, hs);
    var abc := UpdateHash(ab, c, hb, hs);
    assert UpdateHash(h, c, hb, hs) == abc;
    ShiftedUpdate(ab, c, hb, hs, hs);
    ShiftedUpdate(a, b, hb, hs, hs + hs);
    ShiftedUpdate(b, c, hb, hs, hs);
    LowShl(a, hs + (hs + hs), hb);
    XorZero(Low(Shl(b, hs + hs), hb));
    forall d: nat
      ensures UpdateHash(abc, d, hb, hs) == UpdateHash(bc, d, hb, hs)
    {
      SameShifted(abc, bc, d, hb, hs);
    }
  }

  lemma SameShifted(g: nat, h: nat, d: nat, hb: nat, hs: nat)
    requires Low(Shl(g, hs), hb) == Low(Shl(h, hs), hb)
    ensures UpdateHash(g, d, hb, hs) == UpdateHash(h, d, hb, hs)
  {
    hide Low, Shl, Xor;
    LowXor(Shl(g, hs), d, hb);
    LowXor(Shl(h, hs), d, hb);
  }

  lemma XorCancel(x: nat, y: nat, z: nat)
    requires Xor(x, y) == Xor(x, z)
    ensures y == z
  {
    hide Xor;
    XorAssoc(x, x, y);
    XorAssoc(x, x, z);
    XorSelf(x);
    XorZero(y);
    XorZero(z);
  }

  /**
    Strings with the same hash and the same first two bytes have the same third byte:
    it need not be compared.
   */
  lemma ThirdByte(a: nat, b: nat, c: nat, d: nat, hb: nat, hs: nat)
    requires Key(a, b, c, hb, hs) == Key(a, b, d, hb, hs) && hb >= 8 && c < 256 && d < 256
    ensures c == d
  {
    hide Low, Shl, Xor;
    var s := Shl(UpdateHash(a, b, hb, hs), hs);
    LowXor(s, c, hb);
    LowXor(s, d, hb);
    XorCancel(Low(s, hb), Low(c, hb), Low(d, hb));
    Pow2Mono(8, hb);
    Pow2Values();
    LowId(c, hb);
    LowId(d, hb);
  }

  // Two bytes prime the hash.
  lemma PrimeTwo(a: nat, b: nat, hb: nat, hs: nat)
    ensures Primed(UpdateHash(a, b, hb, hs), a, b, hb, hs)
  {
  }
}
