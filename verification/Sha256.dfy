/** The streaming SHA-256 of vdpf/src/sha256.c: sixteen rolling schedule words, a 64-byte
    buffer that whole blocks may bypass, and the closing padding. */
module Sha256 {
  import opened Bits
  import opened Words
  import opened Fips180
  import opened Memory

  // ---------- one chunk ----------

  /** The next schedule word, computed in place of the one sixteen before it. */
  method NextWord(w: array<Word>, p: Block, i: nat, j: nat)
    requires w.Length == 16 && i < 4 && j < 16
    requires forall q :: 0 <= q < j ==> w[q] == Schedule(p, 16 * i + q)
    requires i > 0 ==> forall q :: j <= q < 16 ==> w[q] == Schedule(p, 16 * (i - 1) + q)
    modifies w
    ensures w[j] == Schedule(p, 16 * i + j)
    ensures forall q :: 0 <= q < 16 && q != j ==> w[q] == old(w[q])
  {
    hide Schedule, BitOr, Shl, SmallSigma0, SmallSigma1, Add;
    if i == 0 {
      LoadedWord(p, j);
      w[j] := BitOr(BitOr(BitOr(Shl(p[4 * j], 24), Shl(p[4 * j + 1], 16)), Shl(p[4 * j + 2], 8)), p[4 * j + 3]);
    } else {
      RollingIndex(w[..], p, i, j, 1);
      RollingIndex(w[..], p, i, j, 9);
      RollingIndex(w[..], p, i, j, 14);
      ExtendedWord(p, 16 * i + j);
      var s0 := SmallSigma0(w[(j + 1) % 16]);
      var s1 := SmallSigma1(w[(j + 14) % 16]);
      w[j] := Add(Add(Add(w[j], s0), w[(j + 9) % 16]), s1);
    }
  }

  lemma LoadedWord(p: Block, j: nat)
    requires j < 16
    ensures BitOr(BitOr(BitOr(Shl(p[4 * j], 24), Shl(p[4 * j + 1], 16)), Shl(p[4 * j + 2], 8)), p[4 * j + 3])
         == Schedule(p, j)
  {
    hide BitOr, Shl;
    PackIsWord(p[4 * j], p[4 * j + 1], p[4 * j + 2], p[4 * j + 3]);
  }

  lemma ExtendedWord(p: Block, t: nat)
    requires t >= 16
    ensures Schedule(p, t)
         == Add(Add(Add(Schedule(p, t - 16), SmallSigma0(Schedule(p, t - 15))), Schedule(p, t - 7)),
                SmallSigma1(Schedule(p, t - 2)))
  {
  }

  /** Where the word `k` places after the one to be replaced stands. */
  lemma RollingIndex(w: seq<Word>, p: Block, i: nat, j: nat, k: nat)
    requires |w| == 16 && 0 < i && j < 16 && k < 16
    requires forall q :: 0 <= q < j ==> w[q] == Schedule(p, 16 * i + q)
    requires forall q :: j <= q < 16 ==> w[q] == Schedule(p, 16 * (i - 1) + q)
    ensures w[(j + k) % 16] == Schedule(p, 16 * i + j - 16 + k)
  {
    hide Schedule;
    if j + k < 16 {
      assert (j + k) % 16 == j + k;
    } else {
      assert (j + k) % 16 == j + k - 16;
    }
  }

  /** One round, working variable by working variable. */
  method RoundInPlace(ah: array<Word>, k: Word, w: Word)
    requires ah.Length == 8
    modifies ah
    ensures ah[..] == Round(old(ah[..]), k, w)
  {
    hide BigSigma0, BigSigma1, Ch, Maj, Add, Round;
    ghost var v: State := ah[..];
    var s1 := BigSigma1(ah[4]);
    var ch := Ch(ah[4], ah[5], ah[6]);
    var temp1 := Add(Add(Add(Add(ah[7], s1), ch), k), w);
    var s0 := BigSigma0(ah[0]);
    var maj := Maj(ah[0], ah[1], ah[2]);
    var temp2 := Add(s0, maj);
    ah[7] := ah[6];
    ah[6] := ah[5];
    ah[5] := ah[4];
    ah[4] := Add(ah[3], temp1);
    ah[3] := ah[2];
    ah[2] := ah[1];
    ah[1] := ah[0];
    ah[0] := Add(temp1, temp2);
    RoundIs(v, k, w, temp1, temp2);
    assert ah[..] == [Add(temp1, temp2), v[0], v[1], v[2], Add(v[3], temp1), v[4], v[5], v[6]];
  }

  lemma RoundIs(v: State, k: Word, w: Word, t1: Word, t2: Word)
    requires t1 == Add(Add(Add(Add(v[7], BigSigma1(v[4])), Ch(v[4], v[5], v[6])), k), w)
    requires t2 == Add(BigSigma0(v[0]), Maj(v[0], v[1], v[2]))
    ensures Round(v, k, w) == [Add(t1, t2), v[0], v[1], v[2], Add(v[3], t1), v[4], v[5], v[6]]
  {
    hide BigSigma0, BigSigma1, Ch, Maj, Add;
  }

  method ConsumeChunk(h: array<Word>, p: Block)
    requires h.Length == 8
    modifies h
    ensures h[..] == Compress(old(h[..]), p)
  {
    hide Schedule, Round, RoundConstant, Add, Rounds;
    ghost var before: State := h[..];
    var ah := new Word[8](i requires 0 <= i < 8 reads h => h[i]);
    assert ah[..] == before;
    RoundsStart(before, p);
    var w := new Word[16](_ => 0);
    for i := 0 to 4
      modifies ah, w
      invariant ah[..] == Rounds(before, p, 16 * i)
      invariant i > 0 ==> forall q :: 0 <= q < 16 ==> w[q] == Schedule(p, 16 * (i - 1) + q)
    {
      for j := 0 to 16
        modifies ah, w
        invariant ah[..] == Rounds(before, p, 16 * i + j)
        invariant forall q :: 0 <= q < j ==> w[q] == Schedule(p, 16 * i + q)
        invariant i > 0 ==> forall q :: j <= q < 16 ==> w[q] == Schedule(p, 16 * (i - 1) + q)
      {
        NextWord(w, p, i, j);
        RoundInPlace(ah, RoundConstant(16 * i + j), w[j]);
        RoundsStep(before, p, 16 * i + j);
      }
    }
    for i := 0 to 8
      modifies h
      invariant forall q :: 0 <= q < i ==> h[q] == Add(before[q], ah[q])
      invariant forall q :: i <= q < 8 ==> h[q] == before[q]
    {
      h[i] := Add(h[i], ah[i]);
    }
    assert h[..] == Compress(before, p);
  }

  lemma RoundsStart(h: State, p: Block)
    ensures Rounds(h, p, 0) == h
  {
  }

  lemma RoundsStep(h: State, p: Block, t: nat)
    requires t < 64
    ensures Rounds(h, p, t + 1) == Round(Rounds(h, p, t), RoundConstant(t), Schedule(p, t))
  {
  }

  // ---------- buffering ----------

  /** Blocks and rest of a message that has been written so far. */
  ghost predicate Buffered(m: seq<Byte>, h: seq<Word>, chunk: seq<Byte>, chunkPos: nat) {
    && |h| == 8 && |chunk| == 64
    && chunkPos == |m| % 64
    && h == HashBlocks(m, |m| / 64)
    && chunk[..chunkPos] == m[|m| - chunkPos..]
  }

  /** A whole chunk after whole chunks. */
  lemma ChunkAppended(m: seq<Byte>, h: State, chunk: seq<Byte>, block: Block)
    requires Buffered(m, h, chunk, 0)
    ensures Buffered(m + block, Compress(h, block), chunk, 0)
  {
    hide Compress, HashBlocks;
    var n := |m| / 64;
    DivUnique(|m + block|, 64, n + 1, 0);
    HashPrefix(m, block, n);
    HashNext(m + block, n);
    assert BlockAt(m + block, n) == block;
  }

  /** Bytes that do not fill the buffer. */
  lemma PartAppended(m: seq<Byte>, h: State, chunk: seq<Byte>, pos: nat, part: seq<Byte>, chunk': seq<Byte>)
    requires Buffered(m, h, chunk, pos) && pos + |part| < 64
    requires chunk' == chunk[..pos] + part + chunk[pos + |part|..]
    ensures Buffered(m + part, h, chunk', pos + |part|)
  {
    hide Compress, HashBlocks;
    DivUnique(|m + part|, 64, |m| / 64, pos + |part|);
    HashPrefix(m, part, |m| / 64);
    assert chunk'[..pos + |part|] == m[|m| - pos..] + part;
    assert (m + part)[|m| - pos..] == m[|m| - pos..] + part;
  }

  /** Bytes that fill it. */
  lemma BufferFilled(m: seq<Byte>, h: State, chunk: seq<Byte>, pos: nat, part: seq<Byte>, chunk': seq<Byte>)
    requires Buffered(m, h, chunk, pos) && pos + |part| == 64
    requires chunk' == chunk[..pos] + part + chunk[pos + |part|..]
    ensures Buffered(m + part, Compress(h, chunk'), chunk', 0)
  {
    hide Compress, HashBlocks;
    var n := |m| / 64;
    DivUnique(|m + part|, 64, n + 1, 0);
    HashPrefix(m, part, n);
    HashNext(m + part, n);
    assert BlockAt(m + part, n) == m[|m| - pos..] + part;
    assert chunk' == m[|m| - pos..] + part;
  }

  lemma BufferRoom(m: seq<Byte>, h: seq<Word>, chunk: seq<Byte>, chunkPos: nat)
    requires Buffered(m, h, chunk, chunkPos)
    ensures |h| == 8 && |chunk| == 64 && chunkPos < 64
  {
  }

  class Stream {
    const hash: array<Byte>
    const chunk: array<Byte>
    const h: array<Word>
    var chunkPos: nat
    var spaceLeft: nat
    var totalLen: nat
    /** Everything written since the last initialisation. */
    ghost var msg: seq<Byte>

    ghost predicate Valid()
      reads this, chunk, h
    {
      && hash.Length == 32 && hash != chunk
      && Buffered(msg, h[..], chunk[..], chunkPos)
      && spaceLeft == 64 - chunkPos
      && totalLen == |msg| % 0x1_0000_0000_0000_0000
    }

    constructor (hash: array<Byte>)
      requires hash.Length == 32
      ensures Valid() && msg == [] && this.hash == hash && fresh(chunk) && fresh(h)
    {
      this.hash := hash;
      chunk := new Byte[64](_ => 0);
      h := new Word[8](_ => 0);
      new;
      Init();
    }

    /** sha_256_init: forgets whatever was written before. */
    method Init()
      requires hash.Length == 32 && chunk.Length == 64 && h.Length == 8 && hash != chunk
      modifies this, h
      ensures Valid() && msg == []
    {
      chunkPos, spaceLeft, totalLen, msg := 0, 64, 0, [];
      var initial := InitialHash();
      for i := 0 to 8
        modifies h
        invariant forall q :: 0 <= q < i ==> h[q] == initial[q]
      {
        h[i] := initial[i];
      }
      assert h[..] == initial;
    }

    /** The general case of a write: bytes that fit into the buffer. */
    method BufferPart(part: seq<Byte>)
      requires Buffered(msg, h[..], chunk[..], chunkPos) && spaceLeft == 64 - chunkPos
      requires 0 < |part| <= spaceLeft
      modifies this`chunkPos, this`spaceLeft, this`msg, chunk, h
      ensures Buffered(msg, h[..], chunk[..], chunkPos) && spaceLeft == 64 - chunkPos
      ensures msg == old(msg) + part
    {
      hide Compress, HashBlocks;
      ghost var before := chunk[..];
      CopyInto(chunk, chunkPos, part);
      spaceLeft := spaceLeft - |part|;
      if spaceLeft == 0 {
        BufferFilled(msg, h[..], before, chunkPos, part, chunk[..]);
        ConsumeChunk(h, chunk[..]);
        chunkPos, spaceLeft := 0, 64;
      } else {
        PartAppended(msg, h[..], before, chunkPos, part, chunk[..]);
        chunkPos := chunkPos + |part|;
      }
      msg := msg + part;
    }

    /** The short cut of a write: a whole chunk past an empty buffer. */
    method BypassPart(part: seq<Byte>)
      requires Buffered(msg, h[..], chunk[..], chunkPos) && chunkPos == 0 && |part| == 64
      modifies this`msg, h
      ensures Buffered(msg, h[..], chunk[..], chunkPos)
      ensures msg == old(msg) + part
    {
      hide Compress, HashBlocks;
      ChunkAppended(msg, h[..], chunk[..], part);
      hide Buffered;
      ConsumeChunk(h, part);
      msg := msg + part;
    }

    /** sha_256_write: the message grows by the data, however it is split. */
    method Write(data: seq<Byte>)
      requires Valid()
      modifies this, chunk, h
      ensures Valid() && msg == old(msg) + data
    {
      hide Compress, HashBlocks, InitialHash, Buffered;
      totalLen := (totalLen + |data|) % 0x1_0000_0000_0000_0000;
      var p := 0;
      assert data[..0] == [] && old(msg) + [] == old(msg);
      while p < |data|
        invariant p <= |data| && msg == old(msg) + data[..p]
        invariant Buffered(msg, h[..], chunk[..], chunkPos) && spaceLeft == 64 - chunkPos
        invariant totalLen == (|old(msg)| + |data|) % 0x1_0000_0000_0000_0000
      {
        BufferRoom(msg, h[..], chunk[..], chunkPos);
        if spaceLeft == 64 && |data| - p >= 64 {
          Grow(old(msg), data, p, 64);
          BypassPart(data[p..p + 64]);
          p := p + 64;
        } else {
          var consumedLen := if |data| - p < spaceLeft then |data| - p else spaceLeft;
          Grow(old(msg), data, p, consumedLen);
          BufferPart(data[p..p + consumedLen]);
          p := p + consumedLen;
        }
      }
      assert data[..|data|] == data;
    }

    /** sha_256_close: the digest of everything written, in the caller's buffer. */
    method Close()
      requires Valid()
      modifies chunk, h, hash
      ensures hash[..] == HashOf(msg)
    {
      hide Compress, HashBlocks, Pad, Digits, DigestBytes, Zeros;
      ghost var n, tail := |msg| / 64, msg[|msg| - chunkPos..];
      DivMod(|msg|, 64);
      ghost var start: State := h[..];
      var pos, left := chunkPos, spaceLeft;
      chunk[pos] := 0x80;
      pos, left := pos + 1, left - 1;
      assert chunk[..pos] == tail + [0x80];
      if left < 8 {
        PaddedLong(msg, n, chunkPos);
        ZeroFill(chunk, pos, left);
        assert chunk[..] == FilledBlock(tail + [0x80]);
        ConsumeChunk(h, chunk[..]);
        pos, left := 0, 64;
        assert chunk[..pos] == [];
      } else {
        PaddedShort(msg, n, chunkPos);
      }
      FinishChunk(pos, left);
      WriteDigest(hash, h);
    }

    /** The last chunk: zeros and the length. */
    method FinishChunk(pos: nat, left: nat)
      requires pos + left == 64 && left >= 8 && chunk.Length == 64 && h.Length == 8
      requires totalLen == |msg| % 0x1_0000_0000_0000_0000
      modifies chunk, h
      ensures h[..] == Compress(old(h[..]), FinalBlock(old(chunk[..pos]), |msg|))
    {
      hide Compress, Digits, Zeros;
      ghost var lead := chunk[..pos];
      ZeroFill(chunk, pos, left - 8);
      assert chunk[..56] == lead + Zeros(left - 8);
      WriteLength(chunk, totalLen);
      LengthDigits(|msg|);
      ConsumeChunk(h, chunk[..]);
    }
  }

  lemma Grow(m: seq<Byte>, data: seq<Byte>, p: nat, n: nat)
    requires p + n <= |data|
    ensures m + data[..p] + data[p..p + n] == m + data[..p + n]
  {
  }

  /** `v` divided by 256 `k` times. */
  function DropBytes(v: nat, k: nat): nat {
    if k == 0 then v else DropBytes(v, k - 1) / 256
  }

  lemma {:induction false} DropOne(v: nat, k: nat)
    ensures DropBytes(v / 256, k) == DropBytes(v, k + 1)
  {
    if k > 0 {
      DropOne(v, k - 1);
    }
  }

  lemma DropNext(v: nat, k: nat)
    ensures DropBytes(v, k + 1) == DropBytes(v, k) / 256
  {
  }

  /** What the code keeps of the bit length before its byte loop. */
  lemma FirstDigit(totalLen: nat)
    ensures totalLen / 32 == DropBytes(8 * totalLen, 1)
    ensures (totalLen * 8) % 0x1_0000_0000_0000_0000 % 256 == DropBytes(8 * totalLen, 0) % 256
  {
  }

  lemma {:induction false} DigitAt(v: nat, n: nat, i: nat)
    requires i < n
    ensures Digits(v, n)[i] == DropBytes(v, n - 1 - i) % 256
  {
    if i < n - 1 {
      DigitAt(v / 256, n - 1, i);
      DropOne(v, n - 2 - i);
    }
  }

  /** The closing length field, byte by byte from the last one. */
  method WriteLength(chunk: array<Byte>, totalLen: nat)
    requires chunk.Length == 64
    modifies chunk
    ensures chunk[..] == old(chunk[..56]) + Digits(8 * totalLen, 8)
  {
    hide Digits, DropBytes;
    ghost var v := 8 * totalLen;
    chunk[63] := (totalLen * 8) % 0x1_0000_0000_0000_0000 % 256;
    var len := totalLen / 32;
    FirstDigit(totalLen);
    var i := 7;
    while i > 0
      invariant i <= 7 && len == DropBytes(v, 8 - i)
      invariant chunk[..56] == old(chunk[..56])
      invariant forall q :: 56 + i <= q < 64 ==> chunk[q] == DropBytes(v, 63 - q) % 256
    {
      i := i - 1;
      chunk[56 + i] := len % 256;
      DropNext(v, 7 - i);
      len := len / 256;
    }
    forall q | 56 <= q < 64 ensures chunk[q] == Digits(v, 8)[q - 56] {
      DigitAt(v, 8, q - 56);
    }
    assert chunk[56..] == Digits(v, 8);
  }

  lemma WrapStep(v: nat, k: nat, p: nat)
    ensures (v + k * (256 * p)) / 256 == v / 256 + k * p
    ensures (v + k * (256 * p)) % 256 == v % 256
  {
    MulComm(256, p);
    MulAssoc(k, p, 256);
    DivMod(v, 256);
    MulDistrib(v / 256, k * p, 256);
    DivUnique(v + (k * p) * 256, 256, v / 256 + k * p, v % 256);
  }

  lemma {:induction false} DigitsWrap(v: nat, k: nat, n: nat)
    ensures Digits(v + k * Pow2(8 * n), n) == Digits(v, n)
  {
    hide Pow2;
    if n > 0 {
      Pow2Add(8, 8 * (n - 1));
      SmallPowers();
      WrapStep(v, k, Pow2(8 * (n - 1)));
      DigitsWrap(v / 256, k, n - 1);
    }
  }

  /** A length counted modulo 2^64 gives the same 64 bits. */
  lemma LengthDigits(len: nat)
    ensures Digits(8 * (len % 0x1_0000_0000_0000_0000), 8) == Digits(8 * len, 8)
  {
    hide Digits, Pow2;
    var q, r := len / 0x1_0000_0000_0000_0000, len % 0x1_0000_0000_0000_0000;
    SpanIsPow2();
    Pow2Add(32, 32);
    DigitsWrap(8 * r, 8 * q, 8);
  }

  /** The end of the message and its length in one block. */
  function FinalBlock(lead: seq<Byte>, len: nat): Block
    requires |lead| <= 56
  {
    lead + Zeros(56 - |lead|) + Digits(8 * len, 8)
  }

  /** A block filled up with zeros. */
  function FilledBlock(lead: seq<Byte>): Block
    requires |lead| <= 64
  {
    lead + Zeros(64 - |lead|)
  }

  lemma ZeroCountIs(len: nat)
    ensures ZeroCount(len) == if len % 64 < 56 then 55 - len % 64 else 119 - len % 64
  {
  }

  /** Block `n` of a message that ends inside it and of what follows the message. */
  lemma BlockAcross(msg: seq<Byte>, rest: seq<Byte>, n: nat, r: nat, block: Block)
    requires |msg| == 64 * n + r && r < 64 && r + |rest| >= 64
    requires block == msg[64 * n..] + rest[..64 - r]
    ensures HashBlocks(msg + rest, n + 1) == Compress(HashBlocks(msg, n), block)
  {
    hide Compress, HashBlocks, BlockAt;
    HashPrefix(msg, rest, n);
    HashNext(msg + rest, n);
    assert BlockAt(msg + rest, n) == block by {
      hide *;
      BlockSlice(msg, rest, n, r);
    }
  }

  lemma BlockSlice(msg: seq<Byte>, rest: seq<Byte>, n: nat, r: nat)
    requires |msg| == 64 * n + r && r < 64 && r + |rest| >= 64
    ensures BlockAt(msg + rest, n) == msg[64 * n..] + rest[..64 - r]
  {
  }

  lemma ShortPad(msg: seq<Byte>, n: nat, r: nat)
    requires |msg| == 64 * n + r && r < 56
    ensures |Pad(msg)| == 64 * (n + 1)
    ensures Pad(msg) == msg + ([0x80] + Zeros(55 - r) + Digits(8 * |msg|, 8))
  {
    hide Digits, Zeros, ZeroCount;
    DivUnique(|msg|, 64, n, r);
    ZeroCountIs(|msg|);
  }

  lemma LongPad(msg: seq<Byte>, n: nat, r: nat)
    requires |msg| == 64 * n + r && 56 <= r < 64
    ensures |Pad(msg)| == 64 * (n + 2)
    ensures Pad(msg) == (msg + ([0x80] + Zeros(63 - r))) + FinalBlock([], |msg|)
  {
    hide Digits, Zeros, ZeroCount;
    DivUnique(|msg|, 64, n, r);
    ZeroCountIs(|msg|);
    ZerosSplit(63 - r, 56);
  }

  lemma PaddedShort(msg: seq<Byte>, n: nat, r: nat)
    requires |msg| == 64 * n + r && r < 56
    ensures |Pad(msg)| == 64 * (n + 1)
    ensures HashBlocks(Pad(msg), n + 1) == Compress(HashBlocks(msg, n), FinalBlock(msg[64 * n..] + [0x80], |msg|))
  {
    hide Compress, Digits, Zeros, HashBlocks, Pad;
    ShortPad(msg, n, r);
    var rest := [0x80] + Zeros(55 - r) + Digits(8 * |msg|, 8);
    assert FinalBlock(msg[64 * n..] + [0x80], |msg|) == msg[64 * n..] + rest[..64 - r];
    BlockAcross(msg, rest, n, r, FinalBlock(msg[64 * n..] + [0x80], |msg|));
  }

  lemma PaddedLong(msg: seq<Byte>, n: nat, r: nat)
    requires |msg| == 64 * n + r && 56 <= r < 64
    ensures |Pad(msg)| == 64 * (n + 2)
    ensures HashBlocks(Pad(msg), n + 2)
         == Compress(Compress(HashBlocks(msg, n), FilledBlock(msg[64 * n..] + [0x80])), FinalBlock([], |msg|))
  {
    hide Compress, Digits, Zeros, HashBlocks, Pad, FinalBlock;
    LongPad(msg, n, r);
    var more, last := [0x80] + Zeros(63 - r), FinalBlock([], |msg|);
    assert FilledBlock(msg[64 * n..] + [0x80]) == msg[64 * n..] + more[..64 - r];
    BlockAcross(msg, more, n, r, FilledBlock(msg[64 * n..] + [0x80]));
    BlockAcross(msg + more, last, n + 1, 0, last);
  }

  lemma ZerosSplit(m: nat, n: nat)
    ensures Zeros(m + n) == Zeros(m) + Zeros(n)
  {
  }

  /** The final hash value, big-endian. */
  method WriteDigest(hash: array<Byte>, h: array<Word>)
    requires hash.Length == 32 && h.Length == 8
    modifies hash
    ensures hash[..] == DigestBytes(h[..], 8)
  {
    hide Shr;
    ghost var words: State := h[..];
    for i := 0 to 8
      modifies hash
      invariant hash[..4 * i] == DigestBytes(words, i)
    {
      ghost var before := hash[..4 * i];
      hash[4 * i] := Shr(h[i], 24) % 256;
      hash[4 * i + 1] := Shr(h[i], 16) % 256;
      hash[4 * i + 2] := Shr(h[i], 8) % 256;
      hash[4 * i + 3] := h[i] % 256;
      assert hash[..4 * (i + 1)] == before + BytesOf(words[i]);
    }
  }

  /** calc_sha_256, and with it any way of cutting the input into writes. */
  method HashInPieces(hash: array<Byte>, pieces: seq<seq<Byte>>)
    requires hash.Length == 32
    modifies hash
    ensures hash[..] == HashOf(Concat(pieces))
  {
    hide *;
    ConcatNone();
    var stream := new Stream(hash);
    for k := 0 to |pieces|
      modifies stream, stream.chunk, stream.h
      invariant stream.Valid() && stream.msg == Concat(pieces[..k])
    {
      ConcatNext(pieces, k);
      stream.Write(pieces[k]);
    }
    assert pieces[..|pieces|] == pieces;
    stream.Close();
  }

  function Concat(pieces: seq<seq<Byte>>): seq<Byte> {
    if pieces == [] then [] else Concat(pieces[..|pieces| - 1]) + pieces[|pieces| - 1]
  }

  lemma ConcatNone()
    ensures Concat([]) == []
  {
  }

  lemma ConcatNext(pieces: seq<seq<Byte>>, k: nat)
    requires k < |pieces|
    ensures Concat(pieces[..k + 1]) == Concat(pieces[..k]) + pieces[k]
  {
    assert pieces[..k + 1][..k] == pieces[..k];
  }
}
