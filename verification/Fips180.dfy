/** SHA-256 as FIPS 180-4 defines it: padding (section 5.1.1), the 64-word message schedule
    and the compression rounds (section 6.2.2). */
module Fips180 {
  import opened Bits
  import opened Words
  import opened Memory

  type State = s: seq<Word> | |s| == 8 witness [0, 0, 0, 0, 0, 0, 0, 0]

  type Block = b: seq<Byte> | |b| == 64 witness seq(64, i => 0)

  function InitialHash(): State {
    [0x6a09_e667, 0xbb67_ae85, 0x3c6e_f372, 0xa54f_f53a, 0x510e_527f, 0x9b05_688c, 0x1f83_d9ab, 0x5be0_cd19]
  }

  /** K_t, in four rows of sixteen. */
  function RoundConstant(t: nat): Word
    requires t < 64
  {
    if t < 16 then Constants0()[t]
    else if t < 32 then Constants16()[t - 16]
    else if t < 48 then Constants32()[t - 32]
    else Constants48()[t - 48]
  }

  function Constants0(): (k: seq<Word>)
    ensures |k| == 16
  {
    [0x428a_2f98, 0x7137_4491, 0xb5c0_fbcf, 0xe9b5_dba5, 0x3956_c25b, 0x59f1_11f1, 0x923f_82a4, 0xab1c_5ed5,
     0xd807_aa98, 0x1283_5b01, 0x2431_85be, 0x550c_7dc3, 0x72be_5d74, 0x80de_b1fe, 0x9bdc_06a7, 0xc19b_f174]
  }

  function Constants16(): (k: seq<Word>)
    ensures |k| == 16
  {
    [0xe49b_69c1, 0xefbe_4786, 0x0fc1_9dc6, 0x240c_a1cc, 0x2de9_2c6f, 0x4a74_84aa, 0x5cb0_a9dc, 0x76f9_88da,
     0x983e_5152, 0xa831_c66d, 0xb003_27c8, 0xbf59_7fc7, 0xc6e0_0bf3, 0xd5a7_9147, 0x06ca_6351, 0x1429_2967]
  }

  function Constants32(): (k: seq<Word>)
    ensures |k| == 16
  {
    [0x27b7_0a85, 0x2e1b_2138, 0x4d2c_6dfc, 0x5338_0d13, 0x650a_7354, 0x766a_0abb, 0x81c2_c92e, 0x9272_2c85,
     0xa2bf_e8a1, 0xa81a_664b, 0xc24b_8b70, 0xc76c_51a3, 0xd192_e819, 0xd699_0624, 0xf40e_3585, 0x106a_a070]
  }

  function Constants48(): (k: seq<Word>)
    ensures |k| == 16
  {
    [0x19a4_c116, 0x1e37_6c08, 0x2748_774c, 0x34b0_bcb5, 0x391c_0cb3, 0x4ed8_aa4a, 0x5b9c_ca4f, 0x682e_6ff3,
     0x748f_82ee, 0x78a5_636f, 0x84c8_7814, 0x8cc7_0208, 0x90be_fffa, 0xa450_6ceb, 0xbef9_a3f7, 0xc671_78f2]
  }

  function SmallSigma0(x: Word): Word {
    Xor(Xor(RightRot(x, 7), RightRot(x, 18)), ShrWord(x, 3))
  }

  function SmallSigma1(x: Word): Word {
    Xor(Xor(RightRot(x, 17), RightRot(x, 19)), ShrWord(x, 10))
  }

  function BigSigma0(x: Word): Word {
    Xor(Xor(RightRot(x, 2), RightRot(x, 13)), RightRot(x, 22))
  }

  function BigSigma1(x: Word): Word {
    Xor(Xor(RightRot(x, 6), RightRot(x, 11)), RightRot(x, 25))
  }

  function Ch(x: Word, y: Word, z: Word): Word {
    Xor(And(x, y), And(Complement(x), z))
  }

  function Maj(x: Word, y: Word, z: Word): Word {
    Xor(Xor(And(x, y), And(x, z)), And(y, z))
  }

  /** Word `t` of the 64-word schedule. */
  function Schedule(block: Block, t: nat): Word {
    if t < 16 then WordOf(block[4 * t], block[4 * t + 1], block[4 * t + 2], block[4 * t + 3])
    else Add(Add(Add(Schedule(block, t - 16), SmallSigma0(Schedule(block, t - 15))), Schedule(block, t - 7)),
             SmallSigma1(Schedule(block, t - 2)))
  }

  /** One round on the working variables a, ..., h. */
  function Round(v: State, k: Word, w: Word): State {
    var t1 := Add(Add(Add(Add(v[7], BigSigma1(v[4])), Ch(v[4], v[5], v[6])), k), w);
    var t2 := Add(BigSigma0(v[0]), Maj(v[0], v[1], v[2]));
    [Add(t1, t2), v[0], v[1], v[2], Add(v[3], t1), v[4], v[5], v[6]]
  }

  /** The working variables after `t` rounds. */
  function Rounds(h: State, block: Block, t: nat): State
    requires t <= 64
  {
    if t == 0 then h
    else Round(Rounds(h, block, t - 1), RoundConstant(t - 1), Schedule(block, t - 1))
  }

  function Compress(h: State, block: Block): State {
    var v := Rounds(h, block, 64);
    [Add(h[0], v[0]), Add(h[1], v[1]), Add(h[2], v[2]), Add(h[3], v[3]),
     Add(h[4], v[4]), Add(h[5], v[5]), Add(h[6], v[6]), Add(h[7], v[7])]
  }

  function BlockAt(data: seq<Byte>, n: nat): Block
    requires 64 * (n + 1) <= |data|
  {
    data[64 * n..64 * (n + 1)]
  }

  /** The hash value after the first `n` blocks. */
  function HashBlocks(data: seq<Byte>, n: nat): State
    requires 64 * n <= |data|
  {
    if n == 0 then InitialHash() else Compress(HashBlocks(data, n - 1), BlockAt(data, n - 1))
  }

  // ---------- padding ----------

  /** The last `n` base-256 digits of `v`, most significant first. */
  function Digits(v: nat, n: nat): (d: seq<Byte>)
    ensures |d| == n
  {
    if n == 0 then [] else Digits(v / 256, n - 1) + [v % 256]
  }

  /** The number of zero bytes: the least that completes a block. */
  function ZeroCount(len: nat): (z: nat)
    ensures (len + 1 + z + 8) % 64 == 0 && z < 64
  {
    (119 - len % 64) % 64
  }

  /** The padded message: a one bit, zeros, and the length in bits as 64 bits. */
  function Pad(msg: seq<Byte>): (p: seq<Byte>)
    ensures |p| % 64 == 0
  {
    msg + [0x80] + Zeros(ZeroCount(|msg|)) + Digits(8 * |msg|, 8)
  }

  /** The first `n` words of a hash value as bytes. */
  function DigestBytes(h: State, n: nat): (d: seq<Byte>)
    requires n <= 8
    ensures |d| == 4 * n
  {
    if n == 0 then [] else DigestBytes(h, n - 1) + BytesOf(h[n - 1])
  }

  function HashOf(msg: seq<Byte>): seq<Byte> {
    DigestBytes(HashBlocks(Pad(msg), |Pad(msg)| / 64), 8)
  }

  function ShrWord(x: Word, k: nat): Word {
    ShrBelow(x, k);
    Shr(x, k)
  }

  lemma {:induction false} ShrBelow(x: nat, k: nat)
    ensures Shr(x, k) <= x
  {
    if k > 0 {
      ShrBelow(x / 2, k - 1);
    }
  }

  lemma HashNext(data: seq<Byte>, n: nat)
    requires 64 * (n + 1) <= |data|
    ensures HashBlocks(data, n + 1) == Compress(HashBlocks(data, n), BlockAt(data, n))
  {
  }

  /** The hash of the first blocks depends on those blocks only. */
  lemma {:induction false} HashPrefix(data: seq<Byte>, more: seq<Byte>, n: nat)
    requires 64 * n <= |data|
    ensures HashBlocks(data + more, n) == HashBlocks(data, n)
  {
    hide Compress, InitialHash;
    if n > 0 {
      HashPrefix(data, more, n - 1);
      assert BlockAt(data + more, n - 1) == BlockAt(data, n - 1);
    }
  }

  /** Digits of numbers that fit are unique. */
  lemma {:induction false} DigitsInjective(v: nat, w: nat, n: nat)
    requires v < Pow2(8 * n) && w < Pow2(8 * n) && Digits(v, n) == Digits(w, n)
    ensures v == w
  {
    if n > 0 {
      DigitsShorter(v, n);
      DigitsShorter(w, n);
      assert Digits(v / 256, n - 1) == Digits(v, n)[..n - 1];
      assert Digits(w / 256, n - 1) == Digits(w, n)[..n - 1];
      assert Digits(v, n)[n - 1] == v % 256 && Digits(w, n)[n - 1] == w % 256;
      DigitsInjective(v / 256, w / 256, n - 1);
    }
  }

  lemma DigitsShorter(v: nat, n: nat)
    requires n > 0 && v < Pow2(8 * n)
    ensures v / 256 < Pow2(8 * (n - 1))
  {
    Pow2Add(8, 8 * (n - 1));
    SmallPowers();
    hide Pow2;
    DivLess(v, 256, Pow2(8 * (n - 1)));
  }

  /** Different messages of at most 2^64 - 1 bits have different padded forms. */
  lemma {:induction false} PadInjective(x: seq<Byte>, y: seq<Byte>)
    requires 8 * |x| < Pow2(64) && 8 * |y| < Pow2(64) && Pad(x) == Pad(y)
    ensures x == y
  {
    hide Pow2, Digits, ZeroCount;
    assert Digits(8 * |x|, 8) == Pad(x)[|Pad(x)| - 8..];
    assert Digits(8 * |y|, 8) == Pad(y)[|Pad(y)| - 8..];
    DigitsInjective(8 * |x|, 8 * |y|, 8);
    assert x == Pad(x)[..|x|];
    assert y == Pad(y)[..|y|];
  }
}
