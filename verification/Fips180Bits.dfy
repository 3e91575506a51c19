/** The word functions of SHA-256 bit by bit (FIPS 180-4, sections 3.2 and 4.1.2), and what one
    round and the schedule do to the integers behind the words. */
module Fips180Bits {
  import opened Bits
  import opened Words
  import opened Fips180

  type Bit = b: nat | b < 2

  /** Bit `i`, counted from the lowest. */
  function BitAt(x: nat, i: nat): Bit {
    Shr(x, i) % 2
  }

  lemma {:induction false} BitOfXor(x: nat, y: nat, i: nat)
    ensures BitAt(BitXor(x, y), i) == if BitAt(x, i) == BitAt(y, i) then 0 else 1
  {
    BitXorUnfold(x, y);
    if i > 0 {
      BitOfXor(x / 2, y / 2, i - 1);
    }
  }

  lemma {:induction false} BitOfAnd(x: nat, y: nat, i: nat)
    ensures BitAt(BitAnd(x, y), i) == if BitAt(x, i) == 1 && BitAt(y, i) == 1 then 1 else 0
  {
    AndUnfold(x, y);
    if i > 0 {
      BitOfAnd(x / 2, y / 2, i - 1);
    }
  }

  lemma AndUnfold(x: nat, y: nat)
    ensures BitAnd(x, y) / 2 == BitAnd(x / 2, y / 2)
    ensures BitAnd(x, y) % 2 == if x % 2 == 1 && y % 2 == 1 then 1 else 0
  {
    if x > 0 && y > 0 {
      HalfOf(BitAnd(x / 2, y / 2), if x % 2 == 1 && y % 2 == 1 then 1 else 0);
    }
  }

  lemma {:induction false} BitOfComplement(x: nat, n: nat, i: nat)
    requires x < Pow2(n) && i < n
    ensures BitAt(Pow2(n) - 1 - x, i) == 1 - BitAt(x, i)
  {
    Pow2Step(n);
    assert (Pow2(n) - 1 - x) / 2 == Pow2(n - 1) - 1 - x / 2;
    if i > 0 {
      BitOfComplement(x / 2, n - 1, i - 1);
    }
  }

  /** The bits of a number put above `k` bits of another. */
  lemma {:induction false} BitOfJoined(high: nat, low: nat, k: nat, i: nat)
    requires low < Pow2(k)
    ensures BitAt(high * Pow2(k) + low, i) == if i < k then BitAt(low, i) else BitAt(high, i - k)
  {
    Pow2Step(k);
    if k > 0 {
      var half := high * Pow2(k - 1) + low / 2;
      assert high * Pow2(k) == 2 * (high * Pow2(k - 1));
      assert (high * Pow2(k) + low) / 2 == half && (high * Pow2(k) + low) % 2 == low % 2;
      if i > 0 {
        BitOfJoined(high, low / 2, k - 1, i - 1);
      }
    }
  }

  lemma {:induction false} NoHighBit(x: nat, n: nat, i: nat)
    requires x < Pow2(n) && n <= i
    ensures BitAt(x, i) == 0
  {
    if i > 0 {
      Pow2Step(n);
      NoHighBit(x / 2, if n > 0 then n - 1 else 0, i - 1);
    }
  }

  /** `x` is `high` before the `k` bits of `low`. */
  ghost predicate Joins(x: nat, high: nat, low: nat, k: nat) {
    low < Pow2(k) && x == high * Pow2(k) + low
  }

  lemma BitOfJoins(x: nat, high: nat, low: nat, k: nat, i: nat)
    requires Joins(x, high, low, k)
    ensures BitAt(x, i) == if i < k then BitAt(low, i) else BitAt(high, i - k)
  {
    hide Pow2, BitAt;
    BitOfJoined(high, low, k, i);
  }

  function Low(x: nat, k: nat): nat {
    x % Pow2(k)
  }

  lemma PartsJoin(x: nat, k: nat)
    ensures Joins(x, Shr(x, k), Low(x, k), k)
  {
    hide Pow2, Shr;
    ShrIsDiv(x, k);
    DivMod(x, Pow2(k));
  }

  lemma BitOfParts(x: nat, k: nat, i: nat)
    ensures i < k ==> BitAt(Low(x, k), i) == BitAt(x, i)
    ensures BitAt(Shr(x, k), i) == BitAt(x, i + k)
  {
    hide BitAt, Joins, Shr, Low;
    PartsJoin(x, k);
    BitOfJoins(x, Shr(x, k), Low(x, k), k, i);
    BitOfJoins(x, Shr(x, k), Low(x, k), k, i + k);
  }

  lemma BitOfSwapped(x: nat, p: nat, k: nat, i: nat)
    requires p > 0 && x / p < Pow2(k)
    ensures BitAt(Swapped(x, p, Pow2(k)), i) == if i < k then BitAt(x / p, i) else BitAt(x % p, i - k)
  {
    hide Pow2, BitAt;
    BitOfJoins(Swapped(x, p, Pow2(k)), x % p, x / p, k, i);
  }

  /** A right rotation moves every bit down, and the low ones to the top. */
  lemma BitOfRotation(x: Word, count: nat, i: nat)
    requires 0 < count < 32 && i < 32
    ensures BitAt(RightRot(x, count), i) == BitAt(x, (i + count) % 32)
  {
    hide Pow2, RightRot, Swapped, BitAt, Shr;
    ShrIsDiv(x, count);
    RightRotIs(x, count);
    HighBelow(x, count);
    BitOfSwapped(x, Pow2(count), 32 - count, i);
    if i < 32 - count {
      BitOfParts(x, count, i);
    } else {
      BitOfParts(x, count, i - (32 - count));
    }
  }

  lemma BitOfShift(x: Word, count: nat, i: nat)
    ensures BitAt(ShrWord(x, count), i) == BitAt(x, i + count)
  {
    ShrTwice(x, count, i);
  }

  lemma {:induction false} ShrTwice(x: nat, k: nat, i: nat)
    ensures Shr(Shr(x, k), i) == Shr(x, k + i)
  {
    if k > 0 {
      ShrTwice(x / 2, k - 1, i);
    }
  }

  function Xor3(a: Bit, b: Bit, c: Bit): Bit {
    (a + b + c) % 2
  }

  lemma BitOfXor3(x: Word, y: Word, z: Word, i: nat)
    ensures BitAt(Words.Xor(Words.Xor(x, y), z), i) == Xor3(BitAt(x, i), BitAt(y, i), BitAt(z, i))
  {
    hide BitXor, BitAt;
    BitOfXor(x, y, i);
    BitOfXor(BitXor(x, y), z, i);
  }

  /** Each bit of a sigma is the exclusive or of its three source bits. */
  lemma BigSigmaBits(x: Word, i: nat)
    requires i < 32
    ensures BitAt(BigSigma0(x), i) == Xor3(BitAt(x, (i + 2) % 32), BitAt(x, (i + 13) % 32), BitAt(x, (i + 22) % 32))
    ensures BitAt(BigSigma1(x), i) == Xor3(BitAt(x, (i + 6) % 32), BitAt(x, (i + 11) % 32), BitAt(x, (i + 25) % 32))
  {
    hide RightRot, BitAt, Words.Xor;
    BitOfRotation(x, 2, i);
    BitOfRotation(x, 13, i);
    BitOfRotation(x, 22, i);
    BitOfRotation(x, 6, i);
    BitOfRotation(x, 11, i);
    BitOfRotation(x, 25, i);
    BitOfXor3(RightRot(x, 2), RightRot(x, 13), RightRot(x, 22), i);
    BitOfXor3(RightRot(x, 6), RightRot(x, 11), RightRot(x, 25), i);
  }

  /** The small sigmas shift instead of rotating in their last part; bits past the top are zero. */
  lemma SmallSigmaBits(x: Word, i: nat)
    requires i < 32
    ensures BitAt(SmallSigma0(x), i) == Xor3(BitAt(x, (i + 7) % 32), BitAt(x, (i + 18) % 32), BitAt(x, i + 3))
    ensures BitAt(SmallSigma1(x), i) == Xor3(BitAt(x, (i + 17) % 32), BitAt(x, (i + 19) % 32), BitAt(x, i + 10))
    ensures forall k :: 32 <= k ==> BitAt(x, k) == 0
  {
    hide RightRot, BitAt, Words.Xor, ShrWord, Pow2;
    BitOfRotation(x, 7, i);
    BitOfRotation(x, 18, i);
    BitOfShift(x, 3, i);
    BitOfRotation(x, 17, i);
    BitOfRotation(x, 19, i);
    BitOfShift(x, 10, i);
    BitOfXor3(RightRot(x, 7), RightRot(x, 18), ShrWord(x, 3), i);
    BitOfXor3(RightRot(x, 17), RightRot(x, 19), ShrWord(x, 10), i);
    SpanIsPow2();
    forall k | 32 <= k ensures BitAt(x, k) == 0 {
      NoHighBit(x, 32, k);
    }
  }

  /** Ch takes each bit from `y` where `x` is set and from `z` where it is not. */
  lemma ChBits(x: Word, y: Word, z: Word, i: nat)
    requires i < 32
    ensures BitAt(Ch(x, y, z), i) == if BitAt(x, i) == 1 then BitAt(y, i) else BitAt(z, i)
  {
    hide BitXor, BitAnd, BitAt, Pow2;
    SpanIsPow2();
    BitOfComplement(x, 32, i);
    BitOfAnd(x, y, i);
    BitOfAnd(Complement(x), z, i);
    BitOfXor(BitAnd(x, y), BitAnd(Complement(x), z), i);
  }

  /** Maj has a bit where at least two of its arguments have it. */
  lemma MajBits(x: Word, y: Word, z: Word, i: nat)
    ensures BitAt(Maj(x, y, z), i) == if BitAt(x, i) + BitAt(y, i) + BitAt(z, i) >= 2 then 1 else 0
  {
    hide BitXor, BitAnd, BitAt;
    BitOfAnd(x, y, i);
    BitOfAnd(x, z, i);
    BitOfAnd(y, z, i);
    BitOfXor(BitAnd(x, y), BitAnd(x, z), i);
    BitOfXor(BitXor(BitAnd(x, y), BitAnd(x, z)), BitAnd(y, z), i);
  }

  /** Words with the same 32 bits are equal: the bits determine the functions. */
  lemma SameBits(x: Word, y: Word)
    requires forall i :: 0 <= i < 32 ==> BitAt(x, i) == BitAt(y, i)
    ensures x == y
  {
    hide BitAt;
    SpanIsPow2();
    EqualBits(x, y, 32);
  }

  lemma {:induction false} EqualBits(x: nat, y: nat, n: nat)
    requires x < Pow2(n) && y < Pow2(n) && forall i :: 0 <= i < n ==> BitAt(x, i) == BitAt(y, i)
    ensures x == y
  {
    if n > 0 {
      Pow2Step(n);
      assert BitAt(x, 0) == x % 2 && BitAt(y, 0) == y % 2;
      forall i | 0 <= i < n - 1 ensures BitAt(x / 2, i) == BitAt(y / 2, i) {
        assert BitAt(x, i + 1) == BitAt(x / 2, i);
        assert BitAt(y, i + 1) == BitAt(y / 2, i);
      }
      EqualBits(x / 2, y / 2, n - 1);
    }
  }

  // ---------- one round and the schedule, on integers ----------

  /** One round on a, ..., h: six variables move on by one, and the two sums of section 6.2.2,
      taken modulo 2^32 once, go to the new a and the new e. */
  lemma RoundMoves(v: State, k: Word, w: Word)
    ensures var v' := Round(v, k, w);
      var t1 := v[7] + BigSigma1(v[4]) + Ch(v[4], v[5], v[6]) + k + w;
      && v'[1] == v[0] && v'[2] == v[1] && v'[3] == v[2] && v'[5] == v[4] && v'[6] == v[5] && v'[7] == v[6]
      && v'[4] == (v[3] + t1) % 0x1_0000_0000
      && v'[0] == (t1 + BigSigma0(v[0]) + Maj(v[0], v[1], v[2])) % 0x1_0000_0000
  {
    hide BigSigma0, BigSigma1, Ch, Maj, Words.Add;
    var s1: nat, ch: nat := BigSigma1(v[4]), Ch(v[4], v[5], v[6]);
    var s0: nat, maj: nat := BigSigma0(v[0]), Maj(v[0], v[1], v[2]);
    SumOfFive(v[7], s1, ch, k, w);
    AddIs(s0, maj);
    AddReduced(v[3], v[7] + s1 + ch + k + w);
    var t1: nat, t2: nat := v[7] + s1 + ch + k + w, s0 + maj;
    AddReducedBoth(t1, t2);
  }

  lemma AddIs(x: Word, y: Word)
    ensures Words.Add(x, y) == (x + y) % 0x1_0000_0000
  {
  }

  lemma AddReducedBoth(x: nat, y: nat)
    ensures Words.Add(x % 0x1_0000_0000, y % 0x1_0000_0000) == (x + y) % 0x1_0000_0000
  {
    DivMod(x, 0x1_0000_0000);
    DivMod(y, 0x1_0000_0000);
    var r := x % 0x1_0000_0000 + y % 0x1_0000_0000;
    var q := x / 0x1_0000_0000 + y / 0x1_0000_0000;
    if r < 0x1_0000_0000 {
      DivUnique(x + y, 0x1_0000_0000, q, r);
    } else {
      DivUnique(x + y, 0x1_0000_0000, q + 1, r - 0x1_0000_0000);
    }
  }

  lemma AddReduced(x: Word, y: nat)
    ensures Words.Add(x, y % 0x1_0000_0000) == (x + y) % 0x1_0000_0000
    ensures Words.Add(y % 0x1_0000_0000, x) == (x + y) % 0x1_0000_0000
  {
    hide Words.Add;
    AddReducedBoth(x, y);
    AddReducedBoth(y, x);
  }

  lemma SumOfFive(a: Word, b: Word, c: Word, d: Word, e: Word)
    ensures Words.Add(Words.Add(Words.Add(Words.Add(a, b), c), d), e) == (a + b + c + d + e) % 0x1_0000_0000
  {
    hide Words.Add;
    AddIs(a, b);
    AddReduced(c, a + b);
    AddReduced(d, a + b + c);
    AddReduced(e, a + b + c + d);
  }

  /** The schedule: sixteen big-endian words of the block, then sums of four words. */
  lemma ScheduleWords(block: Fips180.Block, t: nat)
    ensures t < 16 ==>
      var b0: nat, b1: nat, b2: nat, b3: nat := block[4 * t], block[4 * t + 1], block[4 * t + 2], block[4 * t + 3];
      Schedule(block, t) == 0x100_0000 * b0 + 0x1_0000 * b1 + 0x100 * b2 + b3
    ensures t >= 16 ==>
      var w2, w7 := Schedule(block, t - 2), Schedule(block, t - 7);
      var w15, w16 := Schedule(block, t - 15), Schedule(block, t - 16);
      Schedule(block, t) == (SmallSigma1(w2) + w7 + SmallSigma0(w15) + w16) % 0x1_0000_0000
  {
    hide SmallSigma0, SmallSigma1, Words.Add;
    if t >= 16 {
      var w2, w7 := Schedule(block, t - 2), Schedule(block, t - 7);
      var w15, w16 := Schedule(block, t - 15), Schedule(block, t - 16);
      AddIs(w16, SmallSigma0(w15));
      AddReduced(w7, w16 + SmallSigma0(w15));
      AddReduced(SmallSigma1(w2), w16 + SmallSigma0(w15) + w7);
    }
  }

  /** A block is compressed in 64 rounds and added to the hash value, word by word. */
  lemma CompressAdds(h: State, block: Fips180.Block, v: State, i: nat)
    requires v == Rounds(h, block, 64) && i < 8
    ensures Compress(h, block)[i] == Words.Add(h[i], v[i])
    ensures forall x: Word, y: Word :: Words.Add(x, y) == (x + y) % 0x1_0000_0000
  {
    hide Rounds;
  }

  // ---------- padding and digest ----------

  /** The value of big-endian bytes. */
  function Value(b: seq<Byte>): nat {
    if b == [] then 0 else 256 * Value(b[..|b| - 1]) + b[|b| - 1]
  }

  lemma {:induction false} DigitsValue(v: nat, n: nat)
    ensures Value(Digits(v, n)) == v % Pow2(8 * n)
  {
    hide Pow2;
    if n == 0 {
      Pow2Step(0);
    } else {
      DigitsValue(v / 256, n - 1);
      EightMore(8 * (n - 1));
      assert 8 * n == 8 * (n - 1) + 8;
      assert Digits(v, n)[..n - 1] == Digits(v / 256, n - 1);
      LastDigit(v, Pow2(8 * (n - 1)));
    }
  }

  lemma EightMore(k: nat)
    ensures Pow2(k + 8) == 256 * Pow2(k)
  {
    hide Pow2;
    FourMore(k);
    FourMore(k + 4);
  }

  lemma FourMore(k: nat)
    ensures Pow2(k + 4) == 16 * Pow2(k)
  {
    hide Pow2;
    Pow2Step(k + 1);
    Pow2Step(k + 2);
    Pow2Step(k + 3);
    Pow2Step(k + 4);
  }

  lemma LastDigit(v: nat, p: nat)
    requires p > 0
    ensures 256 * ((v / 256) % p) + v % 256 == v % (256 * p)
  {
    DivDiv(v, 256, p);
  }

  /** Section 5.1.1: the message, a byte 0x80, the fewest zeros that complete a block, and the
      length in bits as 64 bits, most significant first. */
  lemma PadIs(msg: seq<Byte>)
    ensures var p := Pad(msg);
      && |p| % 64 == 0 && |msg| + 9 <= |p| < |msg| + 73
      && p[..|msg|] == msg && p[|msg|] == 0x80
      && (forall i :: |msg| < i < |p| - 8 ==> p[i] == 0)
      && Value(p[|p| - 8..]) == (8 * |msg|) % 0x1_0000_0000_0000_0000
  {
    hide Digits, Value, Pow2;
    var p := Pad(msg);
    assert p[|p| - 8..] == Digits(8 * |msg|, 8);
    DigitsValue(8 * |msg|, 8);
    WideSpan();
  }

  lemma WideSpan()
    ensures Pow2(64) == 0x1_0000_0000_0000_0000
  {
    hide Pow2;
    SpanIsPow2();
    Pow2Add(32, 32);
  }

  /** The digest: the eight words of the last hash value, most significant bytes first. */
  lemma {:induction false} DigestWords(h: State, n: nat, i: nat)
    requires i < n <= 8
    ensures |DigestBytes(h, n)| == 4 * n
    ensures Value(DigestBytes(h, n)[4 * i..4 * i + 4]) == h[i]
  {
    var d := DigestBytes(h, n);
    if i < n - 1 {
      DigestWords(h, n - 1, i);
      assert d[4 * i..4 * i + 4] == DigestBytes(h, n - 1)[4 * i..4 * i + 4];
    } else {
      assert d[4 * i..4 * i + 4] == BytesOf(h[i]);
      BytesRoundTrip(h[i]);
      ValueOfFour(BytesOf(h[i]));
    }
  }

  lemma ValueOfFour(b: seq<Byte>)
    requires |b| == 4
    ensures Value(b) == WordOf(b[0], b[1], b[2], b[3])
  {
    assert Value(b[..0]) == 0;
    assert b[..1][..0] == b[..0] && b[..2][..1] == b[..1] && b[..3][..2] == b[..2];
    var b0: nat, b1: nat, b2: nat := b[0], b[1], b[2];
    assert Value(b[..1]) == b0;
    assert Value(b[..2]) == 256 * b0 + b1;
    assert Value(b[..3]) == 256 * (256 * b0 + b1) + b2;
  }
}
