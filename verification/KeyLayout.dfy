/** The bytes of a verifiable key share (vdpf/src/vdpf.c): a header, one 18-byte record a level,
    the last correction word and the hash correction. */
module KeyLayout {
  import opened Bits
  import opened Memory
  import opened Dpf
  import opened Field61
  import Blocks
  import opened Vdpf

  /** The `n` low bytes of a number in memory order. */
  function Bytes(v: nat, n: nat): (b: seq<Byte>)
    ensures |b| == n
  {
    if n == 0 then [] else [v % 256] + Bytes(v / 256, n - 1)
  }

  function Number(b: seq<Byte>): nat {
    if b == [] then 0 else b[0] + 256 * Number(b[1..])
  }

  lemma {:induction false} NumberOfBytes(v: nat, n: nat)
    requires v < Pow2(8 * n)
    ensures Number(Bytes(v, n)) == v
  {
    if n > 0 {
      Pow2Add(8, 8 * (n - 1));
      assert Pow2(8) == 256;
      DivLess(v, 256, Pow2(8 * (n - 1)));
      NumberOfBytes(v / 256, n - 1);
      assert Bytes(v, n)[1..] == Bytes(v / 256, n - 1);
    }
  }

  /** ExpectedKeySize of pvfss/src/dpf.cc. */
  function KeySize(size: nat): nat {
    18 * size + 18 + 16 + 16 * 4
  }

  function Header(b: Bit, seed: nat): (h: seq<Byte>)
    ensures |h| == 18
  {
    [b] + Bytes(seed, 16) + [b]
  }

  function LevelBytes(cw: CW): (l: seq<Byte>)
    ensures |l| == 18
  {
    Bytes(cw.s, 16) + [cw.t0 % 256, cw.t1 % 256]
  }

  function LevelsBytes(cws: seq<CW>): (l: seq<Byte>)
    ensures |l| == 18 * |cws|
  {
    if cws == [] then [] else LevelsBytes(cws[..|cws| - 1]) + LevelBytes(cws[|cws| - 1])
  }

  function QuadBytes(q: Quad): (b: seq<Byte>)
    ensures |b| == 64
  {
    Bytes(q.q0, 16) + Bytes(q.q1, 16) + Bytes(q.q2, 16) + Bytes(q.q3, 16)
  }

  function LastBytes(lastCW: nat): (b: seq<Byte>)
    ensures |b| == 16
  {
    Bytes(lastCW, 8) + Zeros(8)
  }

  /** The key share of party `b`. */
  function KeyBytes(b: Bit, k: Key): (bytes: seq<Byte>)
    ensures |bytes| == KeySize(|k.cws|)
  {
    Header(b, k.seed) + LevelsBytes(k.cws) + LastBytes(k.lastCW) + QuadBytes(k.cs)
  }

  // ---------- where the fields are ----------

  /** Byte `i` holds bits 8i to 8i + 7. */
  lemma {:induction false} BytesDigit(v: nat, n: nat, i: nat)
    requires i < n
    ensures Bytes(v, n)[i] == Shr(v, 8 * i) % 256
  {
    hide Shr;
    if i == 0 {
      NoShift(v);
    } else {
      BytesDigit(v / 256, n - 1, i - 1);
      assert 8 * i == 8 * (i - 1) + 8;
      EightShifts(v, 8 * (i - 1));
    }
  }

  lemma NoShift(v: nat)
    ensures Shr(v, 0) == v
  {
  }

  lemma EightShifts(v: nat, k: nat)
    ensures Shr(v, k + 8) == Shr(v / 256, k)
  {
    assert Shr(v, k + 8) == Shr(v / 2, k + 7) == Shr(v / 4, k + 6) == Shr(v / 8, k + 5);
    assert Shr(v / 8, k + 5) == Shr(v / 16, k + 4) == Shr(v / 32, k + 3) == Shr(v / 64, k + 2);
    assert Shr(v / 64, k + 2) == Shr(v / 128, k + 1) == Shr(v / 256, k);
  }

  lemma {:induction false} LevelsPosition(cws: seq<CW>, l: nat)
    requires l < |cws|
    ensures LevelsBytes(cws)[18 * l..18 * l + 18] == LevelBytes(cws[l])
  {
    hide LevelBytes;
    var m: nat := |cws| - 1;
    if l < m {
      LevelsPosition(cws[..m], l);
      assert LevelsBytes(cws)[..18 * m] == LevelsBytes(cws[..m]);
      assert LevelsBytes(cws)[18 * l..18 * l + 18] == LevelsBytes(cws[..m])[18 * l..18 * l + 18];
    }
  }

  /** The party number stands before and after the root, level `l`, counted from 1, has its record
      at byte 18l, and the last word and the hash correction follow the records. */
  lemma KeyPositions(b: Bit, k: Key, l: nat)
    requires 1 <= l <= |k.cws|
    ensures var bytes, last := KeyBytes(b, k), 18 * |k.cws| + 18;
      && |bytes| == last + 80
      && bytes[0] == b && bytes[1..17] == Bytes(k.seed, 16) && bytes[17] == b
      && bytes[18 * l..18 * l + 16] == Bytes(k.cws[l - 1].s, 16)
      && bytes[18 * l + 16] == k.cws[l - 1].t0 % 256 && bytes[18 * l + 17] == k.cws[l - 1].t1 % 256
      && bytes[last..last + 8] == Bytes(k.lastCW, 8)
      && (forall i :: last + 8 <= i < last + 16 ==> bytes[i] == 0)
      && bytes[last + 16..last + 32] == Bytes(k.cs.q0, 16) && bytes[last + 32..last + 48] == Bytes(k.cs.q1, 16)
      && bytes[last + 48..last + 64] == Bytes(k.cs.q2, 16) && bytes[last + 64..] == Bytes(k.cs.q3, 16)
  {
    hide Bytes, LevelsBytes, LevelBytes;
    var bytes, last := KeyBytes(b, k), 18 * |k.cws| + 18;
    LevelsPosition(k.cws, l - 1);
    LevelParts(k.cws[l - 1]);
    var level, levels := LevelBytes(k.cws[l - 1]), LevelsBytes(k.cws);
    assert bytes[18..last] == levels;
    assert bytes[18 * l..18 * l + 18] == levels[18 * (l - 1)..18 * (l - 1) + 18] == level;
    assert bytes[18 * l..18 * l + 16] == level[..16];
    assert bytes[18 * l + 16] == level[16] && bytes[18 * l + 17] == level[17];
  }

  lemma LevelParts(cw: CW)
    ensures var level := LevelBytes(cw);
      level[..16] == Bytes(cw.s, 16) && level[16] == cw.t0 % 256 && level[17] == cw.t1 % 256
  {
    hide Bytes;
  }

  // ---------- reading ----------

  /** The record of level `i`, counted from 1. */
  function LevelAt(bytes: seq<Byte>, i: nat): CW
    requires 18 * (i + 1) <= |bytes|
  {
    CW(Number(bytes[18 * i..18 * i + 16]), bytes[18 * i + 16], bytes[18 * i + 17])
  }

  function LevelsAt(bytes: seq<Byte>, m: nat): (cws: seq<CW>)
    requires 18 * (m + 1) <= |bytes|
    ensures |cws| == m
  {
    if m == 0 then [] else LevelsAt(bytes, m - 1) + [LevelAt(bytes, m)]
  }

  function QuadAt(bytes: seq<Byte>, pos: nat): Quad
    requires pos + 64 <= |bytes|
  {
    Quad(Number(bytes[pos..pos + 16]), Number(bytes[pos + 16..pos + 32]),
         Number(bytes[pos + 32..pos + 48]), Number(bytes[pos + 48..pos + 64]))
  }

  function ParseKey(bytes: seq<Byte>, size: nat): (k: Key)
    requires |bytes| == KeySize(size)
    ensures |k.cws| == size
  {
    Key(Number(bytes[1..17]), LevelsAt(bytes, size),
        Number(bytes[18 * size + 18..18 * size + 26]), QuadAt(bytes, 18 * size + 34))
  }

  /** The parsing loop at the head of the evaluators. */
  method ReadKey(bytes: seq<Byte>, size: nat) returns (k: Key)
    requires |bytes| == KeySize(size)
    ensures k == ParseKey(bytes, size)
  {
    hide Number;
    var cws := [];
    for i := 1 to size + 1
      invariant cws == LevelsAt(bytes, i - 1)
    {
      var s := Number(bytes[18 * i..18 * i + 16]);
      var t0, t1 := bytes[18 * i + 16], bytes[18 * i + 17];
      cws := cws + [CW(s, t0, t1)];
    }
    var last := 18 * size + 18;
    k := Key(Number(bytes[1..17]), cws, Number(bytes[last..last + 8]), QuadAt(bytes, last + 16));
  }

  // ---------- round trip ----------

  /** What the fields of a key share hold: 16-byte blocks, control bits and a 8-byte word. */
  ghost predicate InRange(k: Key) {
    && k.seed < Pow2(128) && k.lastCW < Pow2(64)
    && (forall i :: 0 <= i < |k.cws| ==> LevelInRange(k.cws[i]))
    && QuadInRange(k.cs)
  }

  ghost predicate LevelInRange(cw: CW) {
    cw.s < Pow2(128) && cw.t0 < 2 && cw.t1 < 2
  }

  ghost predicate QuadInRange(q: Quad) {
    q.q0 < Pow2(128) && q.q1 < Pow2(128) && q.q2 < Pow2(128) && q.q3 < Pow2(128)
  }

  lemma {:induction false} LevelsReadBack(front: seq<Byte>, cws: seq<CW>, rest: seq<Byte>, m: nat)
    requires |front| == 18 && m <= |cws|
    requires forall i :: 0 <= i < |cws| ==> LevelInRange(cws[i])
    ensures LevelsAt(front + LevelsBytes(cws[..m]) + rest, m) == cws[..m]
    decreases m
  {
    hide Number, Bytes, Pow2, LevelBytes, LevelAt;
    if m > 0 {
      var cw := cws[m - 1];
      var more := LevelBytes(cw) + rest;
      var bytes := front + LevelsBytes(cws[..m]) + rest;
      assert cws[..m][..m - 1] == cws[..m - 1] && cws[..m][m - 1] == cw;
      assert bytes == front + LevelsBytes(cws[..m - 1]) + more;
      LevelsReadBack(front, cws, more, m - 1);
      LevelReadBack(front + LevelsBytes(cws[..m - 1]), cw, rest, m);
      assert bytes == front + LevelsBytes(cws[..m - 1]) + LevelBytes(cw) + rest;
      assert cws[..m] == cws[..m - 1] + [cw];
    }
  }

  lemma LevelReadBack(front: seq<Byte>, cw: CW, rest: seq<Byte>, m: nat)
    requires |front| == 18 * m && LevelInRange(cw)
    ensures LevelAt(front + LevelBytes(cw) + rest, m) == cw
  {
    hide Number, Bytes, Pow2;
    var bytes := front + LevelBytes(cw) + rest;
    assert bytes[18 * m..18 * m + 16] == Bytes(cw.s, 16);
    NumberOfBytes(cw.s, 16);
  }

  lemma QuadReadBack(front: seq<Byte>, q: Quad)
    requires QuadInRange(q)
    ensures QuadAt(front + QuadBytes(q), |front|) == q
  {
    hide Number, Bytes, Pow2;
    var pos, bytes := |front|, front + QuadBytes(q);
    assert bytes[pos..pos + 16] == Bytes(q.q0, 16);
    assert bytes[pos + 16..pos + 32] == Bytes(q.q1, 16);
    assert bytes[pos + 32..pos + 48] == Bytes(q.q2, 16);
    assert bytes[pos + 48..pos + 64] == Bytes(q.q3, 16);
    NumberOfBytes(q.q0, 16);
    NumberOfBytes(q.q1, 16);
    NumberOfBytes(q.q2, 16);
    NumberOfBytes(q.q3, 16);
  }

  /** Parsing the bytes of a key share gives the key back. */
  lemma KeyRoundTrip(b: Bit, k: Key)
    requires InRange(k)
    ensures ParseKey(KeyBytes(b, k), |k.cws|) == k
  {
    hide Number, Bytes, Pow2, LevelsBytes, LevelsAt, QuadAt, QuadBytes, LevelInRange, QuadInRange;
    var size, bytes := |k.cws|, KeyBytes(b, k);
    var levels, last, quad := LevelsBytes(k.cws), LastBytes(k.lastCW), QuadBytes(k.cs);
    assert bytes[1..17] == Bytes(k.seed, 16);
    NumberOfBytes(k.seed, 16);
    assert k.cws[..size] == k.cws;
    assert bytes == Header(b, k.seed) + levels + (last + quad);
    LevelsReadBack(Header(b, k.seed), k.cws, last + quad, size);
    assert bytes[18 * size + 18..18 * size + 26] == Bytes(k.lastCW, 8);
    NumberOfBytes(k.lastCW, 8);
    QuadReadBack(Header(b, k.seed) + levels + last, k.cs);
  }

  // ---------- writing ----------

  /** Writes the next bytes of a buffer that is filled from the front. */
  method Put(buffer: array<Byte>, pos: nat, data: seq<Byte>)
    requires pos + |data| <= buffer.Length
    modifies buffer
    ensures buffer[..pos + |data|] == old(buffer[..pos]) + data
  {
    CopyInto(buffer, pos, data);
  }

  method PutLevel(buffer: array<Byte>, pos: nat, cw: CW)
    requires pos + 18 <= buffer.Length
    modifies buffer
    ensures buffer[..pos + 18] == old(buffer[..pos]) + LevelBytes(cw)
  {
    hide Bytes;
    Put(buffer, pos, Bytes(cw.s, 16));
    Put(buffer, pos + 16, [cw.t0 % 256]);
    Put(buffer, pos + 17, [cw.t1 % 256]);
  }

  /** The records of all levels, after the header. */
  method PutLevels(buffer: array<Byte>, cws: seq<CW>)
    requires buffer.Length == KeySize(|cws|)
    modifies buffer
    ensures buffer[..18 * (|cws| + 1)] == old(buffer[..18]) + LevelsBytes(cws)
  {
    hide LevelBytes;
    for i := 1 to |cws| + 1
      invariant buffer[..18 * i] == old(buffer[..18]) + LevelsBytes(cws[..i - 1])
    {
      PutLevel(buffer, 18 * i, cws[i - 1]);
      assert cws[..i][..i - 1] == cws[..i - 1];
    }
    assert cws[..|cws|] == cws;
  }

  /** The last correction word, over sixteen bytes cleared first. */
  method PutLast(buffer: array<Byte>, pos: nat, lastCW: nat)
    requires pos + 16 <= buffer.Length
    modifies buffer
    ensures buffer[..pos + 16] == old(buffer[..pos]) + LastBytes(lastCW)
  {
    hide Bytes;
    ZeroFill(buffer, pos, 16);
    assert buffer[pos + 8..pos + 16] == Zeros(8);
    CopyInto(buffer, pos, Bytes(lastCW, 8));
  }

  method PutHeader(buffer: array<Byte>, seed: nat)
    requires 18 <= buffer.Length
    modifies buffer
    ensures buffer[..18] == Header(0, seed)
  {
    hide Bytes;
    Put(buffer, 0, [0]);
    Put(buffer, 1, Bytes(seed, 16));
    Put(buffer, 17, [0]);
  }

  /** The first share, from the front. */
  method WriteFirst(key: Key, buffer: array<Byte>)
    requires buffer.Length == KeySize(|key.cws|)
    modifies buffer
    ensures buffer[..] == KeyBytes(0, key)
  {
    hide Bytes, LevelsBytes, LastBytes, QuadBytes, Header;
    var last := 18 * |key.cws| + 18;
    PutHeader(buffer, key.seed);
    PutLevels(buffer, key.cws);
    PutLast(buffer, last, key.lastCW);
    Put(buffer, last + 16, QuadBytes(key.cs));
    assert buffer[..] == buffer[..last + 80];
  }

  /** The writing code of genVDPF: the second share is a copy of the first with its own party
      number and root. */
  method WriteKeys(key0: Key, key1: Key, k0: array<Byte>, k1: array<Byte>)
    requires key1 == key0.(seed := key1.seed)
    requires k0 != k1 && k0.Length == k1.Length == KeySize(|key0.cws|)
    modifies k0, k1
    ensures k0[..] == KeyBytes(0, key0) && k1[..] == KeyBytes(1, key1)
  {
    hide Bytes, LevelsBytes, LastBytes, QuadBytes, KeyBytes;
    WriteFirst(key0, k0);
    CopyInto(k1, 0, k0[..]);
    assert k1[..] == KeyBytes(0, key0);
    PatchSecond(key0, key1, k1);
  }

  method PatchSecond(ghost key0: Key, key1: Key, k1: array<Byte>)
    requires key1 == key0.(seed := key1.seed)
    requires k1.Length == KeySize(|key0.cws|) && k1[..] == KeyBytes(0, key0)
    modifies k1
    ensures k1[..] == KeyBytes(1, key1)
  {
    hide *;
    AfterHeader(0, key0);
    AfterHeader(1, key1);
    ghost var rest := k1[18..];
    CopyInto(k1, 1, Bytes(key1.seed, 16));
    k1[0] := 1;
    k1[17] := 1;
    assert k1[18..] == rest && k1[1..17] == Bytes(key1.seed, 16);
    assert k1[..] == [1] + Bytes(key1.seed, 16) + [1] + rest;
  }

  lemma AfterHeader(b: Bit, k: Key)
    ensures |KeyBytes(b, k)| >= 18
    ensures KeyBytes(b, k)[18..] == LevelsBytes(k.cws) + LastBytes(k.lastCW) + QuadBytes(k.cs)
    ensures KeyBytes(b, k) == [b] + Bytes(k.seed, 16) + [b] + KeyBytes(b, k)[18..]
  {
    hide Bytes, LevelsBytes, LastBytes, QuadBytes;
  }

  // ---------- honest keys are in range ----------

  /** The generator and the hash give 16-byte blocks. */
  ghost predicate Blocks16(prg: Prg, h: Hash2) {
    && (forall s: nat :: prg(s).sL < Pow2(128) && prg(s).sR < Pow2(128))
    && (forall n: nat, x: nat, s: nat :: QuadInRange(h(n, x, s)))
  }

  lemma {:induction false} GenInRange(prg: Prg, h: Hash2, size: nat, index: nat, r0: nat, r1: nat, i: nat, k: nat)
    requires Blocks16(prg, h) && k < i <= size
    ensures LevelInRange(Gen(prg, size, index, r0, r1, i).cws[k])
  {
    hide BitXor, Pow2, GetBit, Child, Blocks16, CorrectionWord, LevelInRange;
    var g := Gen(prg, size, index, r0, r1, i - 1);
    if k < i - 1 {
      GenInRange(prg, h, size, index, r0, r1, i - 1, k);
    } else {
      WordInRange(prg, h, g.n0, g.n1, GetBit(index, size, i));
    }
  }

  lemma WordInRange(prg: Prg, h: Hash2, n0: Node, n1: Node, indexBit: Bit)
    requires Blocks16(prg, h)
    ensures LevelInRange(CorrectionWord(prg, n0, n1, indexBit))
  {
    hide BitXor, Pow2, QuadInRange;
    var e0, e1 := prg(n0.seed), prg(n1.seed);
    BitXorBound(e0.sL, e1.sL, 128);
    BitXorBound(e0.sR, e1.sR, 128);
    BitsStayBits(e0.tL, e1.tL);
    BitsStayBits(BitXor(e0.tL, e1.tL), indexBit);
    BitsStayBits(BitXor(BitXor(e0.tL, e1.tL), indexBit), 1);
    BitsStayBits(e0.tR, e1.tR);
    BitsStayBits(BitXor(e0.tR, e1.tR), indexBit);
  }

  lemma BitsStayBits(x: nat, y: nat)
    requires x < 2 && y < 2
    ensures BitXor(x, y) < 2
  {
    assert Pow2(1) == 2;
    BitXorBound(x, y, 1);
  }

  lemma BelowP(x: Elem)
    ensures x < P
  {
  }

  /** The shares that key generation makes can be written and read back. */
  lemma KeyPairInRange(prg: Prg, h: Hash2, n: nat, size: nat, index: nat, beta: nat, r0: nat, r1: nat)
    requires Blocks16(prg, h) && r0 < Pow2(128) && r1 < Pow2(128)
    ensures var (k0, k1) := KeyPair(prg, h, n, size, index, beta, r0, r1);
      InRange(k0) && InRange(k1) && k1 == k0.(seed := k1.seed) && |k0.cws| == size
  {
    hide BitXor, Pow2, Gen, Reduce, FAdd, FSub, FNeg, LevelInRange;
    var g := Gen(prg, size, index, r0, r1, size);
    forall k | 0 <= k < size ensures LevelInRange(g.cws[k]) {
      GenInRange(prg, h, size, index, r0, r1, size, k);
    }
    var q0, q1 := h(n, index, g.n0.seed), h(n + 1, index, g.n1.seed);
    assert QuadInRange(q0) && QuadInRange(q1);
    BitXorBound(q0.q0, q1.q0, 128);
    BitXorBound(q0.q1, q1.q1, 128);
    BitXorBound(q0.q2, q1.q2, 128);
    BitXorBound(q0.q3, q1.q3, 128);
    assert QuadInRange(XorQuad(q0, q1));
    var baseCW := FAdd(beta, FSub(Reduce(g.n1.seed), Reduce(g.n0.seed)));
    BelowP(baseCW);
    BelowP(FNeg(baseCW));
    Blocks.LaneIsPow2();
  }
}
