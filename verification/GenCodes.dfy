/**
  gen_codes and bi_reverse: the encoder's side of the canonical code.

  A tree is kept in two parallel arrays, the unions of ct_data: fc holds the frequency and
  then the code of an element, dl the parent and then the code length.
 */
module GenCodes {
  import opened Bits
  import opened Canonical

  // The low len bits of a code in the opposite order.
  method BiReverse(code: nat, len: nat) returns (res: nat)
    requires 1 <= len <= MAXBITS
    ensures res == Rev(code, len)
  {
    hide Rev, Pow2, Shr;
    res := 0;
    var c, n := code, 0;
    RevNothing(code);
    while n < len
      invariant n <= len && c == Shr(code, n) && res == 2 * Rev(code, n)
    {
      RevStep(code, n);
      res := res + c % 2;   // res is even: or is addition
      c := c / 2;
      res := 2 * res;
      n := n + 1;
    }
    res := res / 2;
  }

  lemma RevNothing(x: nat)
    ensures Rev(x, 0) == 0 && Shr(x, 0) == x
  {
  }

  lemma RevStep(x: nat, n: nat)
    ensures Rev(x, n + 1) == 2 * Rev(x, n) + Shr(x, n) % 2
    ensures Shr(x, n + 1) == Shr(x, n) / 2
  {
    RevAppend(x, n);
    ShrShr(x, n, 1);
    assert Shr(Shr(x, n), 1) == Shr(Shr(x, n) / 2, 0);
  }

  // The element n carries the canonical code of its length, in transmission order.
  predicate Coded(lens: seq<nat>, n: nat, code: nat) {
    n < |lens| && code == Rev(CodeOf(lens, n), lens[n]) && ToBits(code, lens[n]) == CodeBits(lens, n)
  }

  // First codes fit in 16 bits, so that the ush arithmetic of the source is exact.
  lemma FirstCodeFits(lens: seq<nat>, l: nat)
    requires LengthsOk(lens) && !Oversubscribed(lens) && 1 <= l <= MAXBITS
    ensures FirstCode(lens, l) + Count(lens, l) <= 0x8000
  {
    hide Pow2, Shl;
    var d := MAXBITS - l;
    FirstCodeFilled(lens, l);
    ShlAdd(FirstCode(lens, l), Count(lens, l), d);
    FilledMono(lens, l, MAXBITS);
    ShlIsMul(FirstCode(lens, l) + Count(lens, l), d);
    MulAtLeast2(FirstCode(lens, l) + Count(lens, l), Pow2(d));
    Pow2Values();
  }

  lemma MulAtLeast2(k: nat, d: nat)
    requires d >= 1
    ensures k * d >= k
  {
  }

  // The first code of each length, from the counts of the shorter ones.
  method FirstCodes(ghost lens: seq<nat>, blCount: array<nat>) returns (nextCode: array<nat>)
    requires LengthsOk(lens) && !Oversubscribed(lens)
    requires blCount.Length == MAXBITS + 1 && blCount[0] == 0
    requires forall l :: 1 <= l <= MAXBITS ==> blCount[l] == Count(lens, l)
    ensures fresh(nextCode) && nextCode.Length == MAXBITS + 1
    ensures forall l :: 1 <= l <= MAXBITS ==> nextCode[l] == FirstCode(lens, l)
  {
    hide FirstCode, Count;
    nextCode := new nat[MAXBITS + 1];
    var code: nat := 0;
    FirstCodeZero(lens);
    for bits := 1 to MAXBITS + 1
      invariant code == FirstCode(lens, bits - 1)
      invariant forall l :: 1 <= l < bits ==> nextCode[l] == FirstCode(lens, l)
    {
      FirstCodeNext(lens, bits);
      FirstCodeFits(lens, bits);
      code := 2 * (code + blCount[bits - 1]) % 0x10000;
      nextCode[bits] := code;
    }
  }

  lemma FirstCodeZero(lens: seq<nat>)
    ensures FirstCode(lens, 0) == 0
  {
  }

  lemma FirstCodeNext(lens: seq<nat>, l: nat)
    requires l > 0
    ensures FirstCode(lens, l) == 2 * (FirstCode(lens, l - 1) + if l == 1 then 0 else Count(lens, l - 1))
  {
  }

  /**
    Assign codes to the symbols 0..maxCode from their lengths and the length counts:
    every symbol with a length gets its canonical code, bit-reversed for sending.
   */
  method GenCodes(fc: array<nat>, dl: array<nat>, maxCode: nat, blCount: array<nat>)
    requires maxCode < dl.Length == fc.Length && fc != dl && fc != blCount
    requires LengthsOk(dl[..maxCode + 1]) && !Oversubscribed(dl[..maxCode + 1])
    requires blCount.Length == MAXBITS + 1 && blCount[0] == 0
    requires forall l :: 1 <= l <= MAXBITS ==> blCount[l] == Count(dl[..maxCode + 1], l)
    modifies fc
    ensures forall n :: 0 <= n <= maxCode && dl[n] != 0 ==> Coded(dl[..maxCode + 1], n, fc[n])
    ensures forall n :: 0 <= n < fc.Length && (n > maxCode || dl[n] == 0) ==> fc[n] == old(fc[n])
  {
    hide FirstCode, Count, Oversubscribed, Coded, Rev;
    ghost var lens := dl[..maxCode + 1];
    var nextCode := FirstCodes(lens, blCount);
    CountNothing(lens);
    for n := 0 to maxCode + 1
      invariant dl[..maxCode + 1] == lens
      invariant forall l :: 1 <= l <= MAXBITS ==> nextCode[l] == FirstCode(lens, l) + Count(lens[..n], l)
      invariant forall m :: 0 <= m < n && dl[m] != 0 ==> Coded(lens, m, fc[m])
      invariant forall m :: 0 <= m < fc.Length && (m >= n || dl[m] == 0) ==> fc[m] == old(fc[m])
    {
      var len := dl[n];
      assert lens[n] == len;
      forall l: nat | 1 <= l <= MAXBITS
        ensures Count(lens[..n + 1], l) == Count(lens[..n], l) + if len == l then 1 else 0
      {
        CountPush(lens, n, l);
      }
      if len == 0 {
        continue;
      }
      CodedSymbol(lens, n, nextCode[len]);
      fc[n] := BiReverse(nextCode[len], len);
      nextCode[len] := nextCode[len] + 1;
    }
  }

  lemma CountNothing(lens: seq<nat>)
    ensures forall l :: Count(lens[..0], l) == 0
  {
  }

  lemma CodedSymbol(lens: seq<nat>, n: nat, code: nat)
    requires n < |lens| && 1 <= lens[n] <= MAXBITS
    requires code == FirstCode(lens, lens[n]) + Count(lens[..n], lens[n])
    ensures Coded(lens, n, Rev(code, lens[n]))
  {
    RevIsMsb(code, lens[n]);
  }
}
