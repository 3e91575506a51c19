/** The 128-bit `block` of the secret-shared shuffle, seen as two 64-bit lanes.
    `+` and `-` wrap around in each lane and `^` works bit by bit, as the vector
    operators on `__m128i` do. */
module Blocks {
  import Bits

  const LANE := 0x1_0000_0000_0000_0000

  type Lane = x: nat | x < LANE

  datatype Block = Block(lo: Lane, hi: Lane)

  const ZERO_BLOCK := Block(0, 0)

  /** 64-bit wrap-around addition. */
  function AddLane(x: Lane, y: Lane): Lane {
    if x + y < LANE then x + y else x + y - LANE
  }

  /** 64-bit wrap-around subtraction. */
  function SubLane(x: Lane, y: Lane): Lane {
    if x >= y then x - y else x - y + LANE
  }

  function Add(x: Block, y: Block): Block {
    Block(AddLane(x.lo, y.lo), AddLane(x.hi, y.hi))
  }

  function Sub(x: Block, y: Block): Block {
    Block(SubLane(x.lo, y.lo), SubLane(x.hi, y.hi))
  }

  /** `+` and `-` are arithmetic modulo 2^64 in each lane, with no carry between the lanes. */
  lemma LaneArithmetic(x: Block, y: Block)
    ensures Add(x, y).lo == (x.lo + y.lo) % LANE && Add(x, y).hi == (x.hi + y.hi) % LANE
    ensures Sub(x, y).lo == (x.lo - y.lo) % LANE && Sub(x, y).hi == (x.hi - y.hi) % LANE
  {
  }

  function XorLane(x: Lane, y: Lane): Lane {
    LaneIsPow2();
    Bits.BitXorBound(x, y, 64);
    Bits.BitXor(x, y)
  }

  function Xor(x: Block, y: Block): Block {
    Block(XorLane(x.lo, y.lo), XorLane(x.hi, y.hi))
  }

  lemma LaneIsPow2()
    ensures Bits.Pow2(64) == LANE
  {
    Pow2Of16();
    Bits.Pow2Add(16, 16);
    Bits.Pow2Add(32, 32);
  }

  lemma Pow2Of16()
    ensures Bits.Pow2(16) == 0x1_0000
  {
    Bits.Pow2Add(4, 4);
    Bits.Pow2Add(8, 8);
  }

  // ---------- laws of ^ ----------

  lemma XorAssoc(x: Block, y: Block, z: Block)
    ensures Xor(Xor(x, y), z) == Xor(x, Xor(y, z))
  {
    Bits.BitXorAssoc(x.lo, y.lo, z.lo);
    Bits.BitXorAssoc(x.hi, y.hi, z.hi);
  }

  lemma XorComm(x: Block, y: Block)
    ensures Xor(x, y) == Xor(y, x)
  {
    Bits.BitXorComm(x.lo, y.lo);
    Bits.BitXorComm(x.hi, y.hi);
  }

  lemma XorZero(x: Block)
    ensures Xor(x, ZERO_BLOCK) == x && Xor(ZERO_BLOCK, x) == x
  {
  }

  lemma XorSelf(x: Block)
    ensures Xor(x, x) == ZERO_BLOCK
  {
    Bits.BitXorSelf(x.lo);
    Bits.BitXorSelf(x.hi);
  }

  lemma XorCancel(x: Block, y: Block)
    ensures Xor(Xor(x, y), y) == x
  {
    XorAssoc(x, y, y);
    XorSelf(y);
    XorZero(x);
  }

  // ---------- laws of + and - ----------

  lemma AddAssoc(x: Block, y: Block, z: Block)
    ensures Add(Add(x, y), z) == Add(x, Add(y, z))
  {
  }

  lemma AddComm(x: Block, y: Block)
    ensures Add(x, y) == Add(y, x)
  {
  }

  lemma SubSwapMiddle(a: Block, b: Block, c: Block, d: Block)
    ensures Add(Sub(a, b), Sub(c, d)) == Sub(Add(a, c), Add(b, d))
  {
  }

  lemma AddZero(x: Block)
    ensures Add(x, ZERO_BLOCK) == x && Add(ZERO_BLOCK, x) == x
  {
  }

  lemma AddExchange(x: Block, y: Block, z: Block)
    ensures Add(Add(x, y), z) == Add(Add(x, z), y)
  {
  }

  lemma SubCancel(x: Block, y: Block, e: Block)
    ensures Sub(Add(x, e), Add(y, e)) == Sub(x, y)
  {
  }

  /** (a - x) + (b - a) is b - x. */
  lemma Telescope(a: Block, x: Block, b: Block)
    ensures Add(Sub(a, x), Sub(b, a)) == Sub(b, x)
  {
  }
}
