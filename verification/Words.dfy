/** The 32-bit words of SHA-256 (sha256.c, FIPS 180-4 sections 2.2.2 and 3.2). */
module Words {
  import opened Bits

  type Word = w: nat | w < 0x1_0000_0000

  lemma SpanIsPow2()
    ensures Pow2(32) == 0x1_0000_0000
  {
    assert Pow2(8) == 256;
    Pow2Add(8, 8);
    hide Pow2;
    Pow2Add(16, 16);
  }

  function Add(x: Word, y: Word): Word {
    (x + y) % 0x1_0000_0000
  }

  function Xor(x: Word, y: Word): Word {
    SpanIsPow2();
    BitXorBound(x, y, 32);
    BitXor(x, y)
  }

  function And(x: Word, y: Word): Word {
    AndBelow(x, y);
    BitAnd(x, y)
  }

  lemma {:induction false} AndBelow(x: nat, y: nat)
    ensures BitAnd(x, y) <= x
    decreases x + y
  {
    if x > 0 && y > 0 {
      AndBelow(x / 2, y / 2);
    }
  }

  function Complement(x: Word): Word {
    0xffff_ffff - x
  }

  /** right_rot of sha256.c. */
  function RightRot(x: Word, count: nat): Word
    requires 0 < count < 32
  {
    RotIsRotation(x, count);
    BitOr(Shr(x, count), Shl(x, 32 - count) % 0x1_0000_0000)
  }

  lemma {:induction false} BitOrComm(x: nat, y: nat)
    ensures BitOr(x, y) == BitOr(y, x)
    decreases x + y
  {
    if x > 0 && y > 0 {
      BitOrComm(x / 2, y / 2);
    }
  }

  /** The two shifted parts of a rotated word. */
  lemma HighPart(x: Word, count: nat)
    requires 0 < count < 32
    ensures var low := x % Pow2(count);
      && x / Pow2(count) < Pow2(32 - count)
      && Shl(x, 32 - count) % 0x1_0000_0000 == Shl(low, 32 - count) == low * Pow2(32 - count) < 0x1_0000_0000
  {
    hide Pow2, Shl;
    var p, p' := Pow2(count), Pow2(32 - count);
    var q, low := x / p, x % p;
    SpanIsPow2();
    Pow2Add(count, 32 - count);
    DivMod(x, p);
    DivLess(x, p, p') by { MulComm(p, p'); }
    ShlIsMul(x, 32 - count);
    ShlIsMul(low, 32 - count);
    MulDistrib(q * p, low, p');
    MulAssoc(q, p, p');
    MulMono(low + 1, p, p');
    MulDistrib(low, 1, p');
    DivUnique(x * p', 0x1_0000_0000, q, low * p');
  }

  lemma MulComm(a: int, b: int)
    ensures a * b == b * a
  {
  }

  /** A right rotation moves the low `count` bits above the others. */
  lemma RotIsRotation(x: Word, count: nat)
    requires 0 < count < 32
    ensures BitOr(Shr(x, count), Shl(x, 32 - count) % 0x1_0000_0000)
         == (x % Pow2(count)) * Pow2(32 - count) + x / Pow2(count) < 0x1_0000_0000
  {
    hide Pow2, Shl, Shr, BitOr;
    var p, p' := Pow2(count), Pow2(32 - count);
    var low, high := x % p, x / p;
    HighPart(x, count);
    ShrIsDiv(x, count);
    BitOrComm(high, Shl(low, 32 - count));
    OrIsSum(low, 32 - count, high);
    SpanIsPow2();
    Pow2Add(count, 32 - count);
    DivMod(x, p);
    MulMono(low + 1, p, p');
    MulDistrib(low, 1, p');
  }

  /** The low part of `x`, below `p`, moved above the rest, which is below `p'`. */
  function Swapped(x: nat, p: nat, p': nat): nat
    requires p > 0
  {
    (x % p) * p' + x / p
  }

  lemma SwapBack(x: nat, p: nat, p': nat)
    requires p > 0 && p' > 0 && x < p * p'
    ensures Swapped(Swapped(x, p, p'), p', p) == x
  {
    DivLess(x, p, p') by { MulComm(p, p'); }
    DivUnique(Swapped(x, p, p'), p', x % p, x / p);
    DivMod(x, p);
  }

  lemma RightRotIs(x: Word, count: nat)
    requires 0 < count < 32
    ensures RightRot(x, count) == Swapped(x, Pow2(count), Pow2(32 - count))
  {
    hide Pow2, Shl, Shr, BitOr;
    RotIsRotation(x, count);
  }

  /** Rotating by `count` and then by 32 - count gives the word back. */
  lemma RotInverse(x: Word, count: nat)
    requires 0 < count < 32
    ensures RightRot(RightRot(x, count), 32 - count) == x
  {
    hide Pow2, RightRot, Swapped;
    RightRotIs(x, count);
    RightRotIs(RightRot(x, count), 32 - count);
    BelowSpan(x, count);
    SwapBack(x, Pow2(count), Pow2(32 - count));
  }

  lemma HighBelow(x: Word, count: nat)
    requires 0 < count < 32
    ensures x / Pow2(count) < Pow2(32 - count)
  {
    HighPart(x, count);
  }

  lemma BelowSpan(x: Word, count: nat)
    requires count <= 32
    ensures x < Pow2(count) * Pow2(32 - count)
  {
    hide Pow2;
    SpanIsPow2();
    Pow2Add(count, 32 - count);
  }

  // ---------- bytes ----------

  /** A big-endian word. */
  function WordOf(b0: Byte, b1: Byte, b2: Byte, b3: Byte): Word {
    ((b0 * 256 + b1) * 256 + b2) * 256 + b3
  }

  /** Reading a word by shifting and or-ing its bytes. */
  lemma PackIsWord(b0: Byte, b1: Byte, b2: Byte, b3: Byte)
    ensures BitOr(BitOr(BitOr(Shl(b0, 24), Shl(b1, 16)), Shl(b2, 8)), b3) == WordOf(b0, b1, b2, b3)
  {
    hide BitOr, Shl, Pow2;
    SmallPowers();
    ShlIsMul(b0, 24);
    ShlIsMul(b1, 16);
    ShlIsMul(b2, 8);
    OrIsSum(b0, 24, Shl(b1, 16));
    ShlIsMul(b0 * 256 + b1, 16);
    OrIsSum(b0 * 256 + b1, 16, Shl(b2, 8));
    ShlIsMul((b0 * 256 + b1) * 256 + b2, 8);
    OrIsSum((b0 * 256 + b1) * 256 + b2, 8, b3);
  }

  lemma SmallPowers()
    ensures Pow2(8) == 256 && Pow2(16) == 65536 && Pow2(24) == 16777216
  {
    assert Pow2(8) == 256;
    hide Pow2;
    Pow2Add(8, 8);
    Pow2Add(8, 16);
  }

  /** The bytes of a word, most significant first, as the casts of sha_256_close give them. */
  function BytesOf(w: Word): (b: seq<Byte>)
    ensures |b| == 4
  {
    [Shr(w, 24) % 256, Shr(w, 16) % 256, Shr(w, 8) % 256, w % 256]
  }

  lemma BytesRoundTrip(w: Word)
    ensures var b := BytesOf(w); WordOf(b[0], b[1], b[2], b[3]) == w
  {
    hide Shr, Pow2;
    SmallPowers();
    ShrIsDiv(w, 24);
    ShrIsDiv(w, 16);
    ShrIsDiv(w, 8);
    DivDiv(w, 256, 256);
    DivDiv(w, 65536, 256);
    DivMod(w, 256);
    DivMod(w / 256, 256);
    DivMod(w / 65536, 256);
  }
}
