/**
  The output bit buffer of trees.c: send_bits, bi_flush, bi_windup and copy_block, over the
  16-bit buffer bi_buf and the pending bytes.

  The abstract value is the bit string written so far: the bits of the pending bytes, least
  significant bit of each byte first, followed by the valid bits of the buffer.
 */
module BitWriter {
  import opened Bits

  const BUF_SIZE: nat := 16

  predicate IsBytes(s: seq<nat>) {
    forall i :: 0 <= i < |s| ==> s[i] < 256
  }

  // The bits of a byte string in stream order.
  function BytesBits(s: seq<nat>): (r: seq<bool>)
    ensures |r| == 8 * |s|
  {
    if s == [] then [] else BytesBits(s[..|s| - 1]) + ToBits(s[|s| - 1], 8)
  }

  lemma BytesBitsPush(s: seq<nat>, b: nat)
    ensures BytesBits(s + [b]) == BytesBits(s) + ToBits(b, 8)
  {
    assert (s + [b])[..|s|] == s;
  }

  lemma {:induction false} BytesBitsConcat(s: seq<nat>, t: seq<nat>)
    ensures BytesBits(s + t) == BytesBits(s) + BytesBits(t)
  {
    if t == [] {
      assert s + t == s;
      BytesBitsNone();
    } else {
      var u, b := t[..|t| - 1], t[|t| - 1];
      BytesBitsConcat(s, u);
      hide BytesBits, ToBits;
      assert s + t == (s + u) + [b] && t == u + [b];
      BytesBitsPush(s + u, b);
      BytesBitsPush(u, b);
      Assoc(BytesBits(s), BytesBits(u), ToBits(b, 8));
    }
  }

  // The bits that bring a stream of n bits to a byte boundary.
  function Padding(n: nat): (r: seq<bool>)
    ensures (n + |r|) % 8 == 0 && |r| < 8
  {
    seq((8 - n % 8) % 8, i => false)
  }

  class Writer {
    var pending: seq<nat>
    var bi_buf: nat
    var bi_valid: nat

    ghost predicate Valid()
      reads this
    {
      IsBytes(pending) && bi_valid <= BUF_SIZE && bi_buf < Pow2(bi_valid)
    }

    ghost function Stream(): (s: seq<bool>)
      reads this
    {
      BytesBits(pending) + ToBits(bi_buf, bi_valid)
    }

    constructor ()
      ensures Valid() && Stream() == []
    {
      pending, bi_buf, bi_valid := [], 0, 0;
    }

    method PutByte(b: nat)
      requires b < 256
      modifies this`pending
      ensures pending == old(pending) + [b]
    {
      pending := pending + [b];
    }

    // put_short: low byte first.
    method PutShort(w: nat)
      requires w < 0x10000 && IsBytes(pending)
      modifies this`pending
      ensures IsBytes(pending)
      ensures BytesBits(pending) == old(BytesBits(pending)) + ToBits(w, 16)
    {
      hide ToBits, Low, Shr;
      ghost var was := pending;
      ShortBytes(w);
      PutByte(Low(w, 8));
      PutByte(Shr(w, 8));
      BytesBitsPush(was, Low(w, 8));
      BytesBitsPush(was + [Low(w, 8)], Shr(w, 8));
    }

    // Append the low length bits of value.
    method SendBits(value: nat, length: nat)
      requires Valid() && 1 <= length <= BUF_SIZE && value < Pow2(length)
      modifies this
      ensures Valid()
      ensures Stream() == old(Stream()) + ToBits(value, length)
    {
      hide ToBits, Pow2, Low, Shr, Shl, Or, BytesBits;
      OrDisjoint(bi_buf, value, bi_valid);
      if bi_valid > BUF_SIZE - length {
        SpillBits(bi_buf, bi_valid, value, length);
        ghost var was := BytesBits(pending);
        Assoc(was, ToBits(bi_buf, bi_valid), ToBits(value, length));
        bi_buf := Low(Or(bi_buf, Shl(value, bi_valid)), BUF_SIZE);
        PutShort(bi_buf);
        ghost var sent := ToBits(bi_buf, 16);
        bi_buf := Shr(value, BUF_SIZE - bi_valid);
        bi_valid := bi_valid + length - BUF_SIZE;
        Assoc(was, sent, ToBits(bi_buf, bi_valid));
      } else {
        AddBits(bi_buf, bi_valid, value, length);
        Assoc(BytesBits(pending), ToBits(bi_buf, bi_valid), ToBits(value, length));
        bi_buf := Low(Or(bi_buf, Shl(value, bi_valid)), BUF_SIZE);
        bi_valid := bi_valid + length;
      }
    }

    // Move whole bytes out of the buffer, leaving at most 7 bits.
    method BiFlush()
      requires Valid()
      modifies this
      ensures Valid() && bi_valid <= 7
      ensures Stream() == old(Stream())
      ensures old(bi_valid) <= 7 ==> bi_valid == old(bi_valid) && pending == old(pending)
    {
      hide ToBits, Low, Shr, Shl, BytesBits;
      if bi_valid == 16 {
        WholeShort(bi_buf);
        PutShort(bi_buf);
        bi_buf := 0;
        bi_valid := 0;
      } else if bi_valid >= 8 {
        FlushByte(bi_buf, bi_valid);
        ghost var was := pending;
        PutByte(Low(bi_buf, 8));
        BytesBitsPush(was, Low(bi_buf, 8));
        bi_buf := Shr(bi_buf, 8);
        bi_valid := bi_valid - 8;
      }
    }

    // What is left in the buffer goes out, with zero bits up to the next whole byte.
    method BiWindup()
      requires Valid()
      modifies this
      ensures Valid() && bi_valid == 0
      ensures Stream() == old(Stream()) + Padding(|old(Stream())|)
    {
      hide ToBits, Low, Shr, Shl, BytesBits;
      PadBits(bi_buf, bi_valid);
      ghost var was := pending;
      if bi_valid > 8 {
        PutShort(bi_buf);
      } else if bi_valid > 0 {
        PutByte(Low(bi_buf, 8));
        BytesBitsPush(was, Low(bi_buf, 8));
      }
      PaddingMod(|was|, bi_valid);
      bi_buf := 0;
      bi_valid := 0;
    }

    // Copy a stored block behind its length and the complement of the length.
    method CopyBlock(buf: seq<nat>)
      requires Valid() && IsBytes(buf) && |buf| < 0x10000
      modifies this
      ensures Valid() && bi_valid == 0
      ensures Stream() == old(Stream()) + Padding(|old(Stream())|)
                          + (ToBits(|buf|, 16) + ToBits(0xffff - |buf|, 16) + BytesBits(buf))
    {
      hide ToBits, Low, Shr, Shl, BytesBits;
      BiWindup();
      ghost var base := BytesBits(pending);
      assert Stream() == base by { assert ToBits(bi_buf, 0) == []; }
      PutShort(|buf|);
      PutShort(0xffff - |buf|);
      ghost var head := ToBits(|buf|, 16) + ToBits(0xffff - |buf|, 16);
      Assoc(base, ToBits(|buf|, 16), ToBits(0xffff - |buf|, 16));
      assert buf[..0] == [];
      BytesBitsNone();
      for i := 0 to |buf|
        invariant Valid() && bi_valid == 0
        invariant BytesBits(pending) == base + (head + BytesBits(buf[..i]))
      {
        ghost var was := pending;
        PutByte(buf[i]);
        BytesBitsPush(was, buf[i]);
        assert buf[..i + 1] == buf[..i] + [buf[i]];
        BytesBitsPush(buf[..i], buf[i]);
        Assoc(base, head + BytesBits(buf[..i]), ToBits(buf[i], 8));
        Assoc(head, BytesBits(buf[..i]), ToBits(buf[i], 8));
      }
      assert buf[..|buf|] == buf;
      assert Stream() == BytesBits(pending) by { assert ToBits(bi_buf, 0) == []; }
    }
  }

  lemma BytesBitsNone()
    ensures BytesBits([]) == []
  {
  }

  lemma ShortBytes(w: nat)
    requires w < 0x10000
    ensures Low(w, 8) < 256 && Shr(w, 8) < 256
    ensures ToBits(w, 16) == ToBits(Low(w, 8), 8) + ToBits(Shr(w, 8), 8)
  {
    ToBitsSplit(w, 8, 8);
    ToBitsLow(w, 8, 8);
    ShrIsDiv(w, 8);
    assert Pow2(8) == 256;
  }

  lemma AddBits(buf: nat, valid: nat, value: nat, length: nat)
    requires valid + length <= BUF_SIZE && buf < Pow2(valid) && value < Pow2(length)
    ensures Low(buf + Shl(value, valid), BUF_SIZE) == buf + Shl(value, valid) < Pow2(valid + length)
    ensures ToBits(buf + Shl(value, valid), valid + length) == ToBits(buf, valid) + ToBits(value, length)
  {
    hide Pow2, Shl, Low, ToBits;
    JoinBound(buf, value, valid, length);
    Pow2Mono(valid + length, BUF_SIZE);
    LowId(buf + Shl(value, valid), BUF_SIZE);
    ToBitsJoin(buf, value, valid, length);
  }

  // Bits that do not fit move on to the next buffer.
  lemma SpillBits(buf: nat, valid: nat, value: nat, length: nat)
    requires valid <= BUF_SIZE && length <= BUF_SIZE < valid + length
    requires buf < Pow2(valid) && value < Pow2(length)
    ensures Low(buf + Shl(value, valid), BUF_SIZE) < 0x10000
    ensures Shr(value, BUF_SIZE - valid) < Pow2(valid + length - BUF_SIZE)
    ensures ToBits(buf, valid) + ToBits(value, length)
            == ToBits(Low(buf + Shl(value, valid), BUF_SIZE), 16)
               + ToBits(Shr(value, BUF_SIZE - valid), valid + length - BUF_SIZE)
  {
    var full, rest := buf + Shl(value, valid), valid + length - BUF_SIZE;
    hide Pow2, Shl, Shr, Low, ToBits;
    Pow2Values();
    ToBitsJoin(buf, value, valid, length);
    assert valid + length == BUF_SIZE + rest;
    ToBitsSplit(full, BUF_SIZE, rest);
    ToBitsLow(full, BUF_SIZE, BUF_SIZE);
    JoinParts(buf, value, valid);
    ShrShr(full, valid, BUF_SIZE - valid);
    assert valid + (BUF_SIZE - valid) == BUF_SIZE;
    ShrBelow(value, BUF_SIZE - valid, length);
  }

  lemma ShrBelow(x: nat, k: nat, n: nat)
    requires x < Pow2(n) && k <= n
    ensures Shr(x, k) < Pow2(n - k)
  {
    LowId(x, n);
    LowOfShr(x, k, n - k);
  }

  lemma WholeShort(buf: nat)
    requires buf < Pow2(16)
    ensures buf < 0x10000 && Pow2(0) == 1 && ToBits(0, 0) == []
  {
    Pow2Values();
  }

  lemma FlushByte(buf: nat, valid: nat)
    requires 8 <= valid <= BUF_SIZE && buf < Pow2(valid)
    ensures Low(buf, 8) < 256 && Shr(buf, 8) < Pow2(valid - 8)
    ensures ToBits(buf, valid) == ToBits(Low(buf, 8), 8) + ToBits(Shr(buf, 8), valid - 8)
  {
    assert Pow2(8) == 256;
    hide Pow2, Shr, Low, ToBits;
    ToBitsSplit(buf, 8, valid - 8);
    assert 8 + (valid - 8) == valid;
    ToBitsLow(buf, 8, 8);
    ShrBelow(buf, 8, valid);
  }

  lemma PadBits(buf: nat, valid: nat)
    requires valid <= BUF_SIZE && buf < Pow2(valid)
    ensures buf < 0x10000 && Pow2(0) == 1 && ToBits(0, 0) == []
    ensures valid > 8 ==> ToBits(buf, 16) == ToBits(buf, valid) + Padding(valid)
    ensures valid <= 8 ==>
      Low(buf, 8) < 256 && ToBits(Low(buf, 8), 8) == ToBits(buf, valid) + seq(8 - valid, i => false)
  {
    assert ToBits(0, 0) == [];
    hide Pow2, Low, ToBits;
    Pow2Values();
    Pow2Mono(valid, 16);
    if valid > 8 {
      ToBitsExtend(buf, valid, 16);
      PaddingMod(1, valid - 8);
    } else {
      ToBitsExtend(buf, valid, 8);
      ToBitsLow(buf, 8, 8);
    }
  }

  lemma PaddingMod(n: nat, valid: nat)
    ensures Padding(8 * n + valid) == Padding(valid)
    ensures 0 < valid <= 8 ==> Padding(valid) == seq(8 - valid, i => false)
    ensures valid == 0 ==> Padding(valid) == []
  {
  }
}
