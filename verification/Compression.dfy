/** Beaver multiplication and the compression test (pvfss/src/server.cpp, Mult and CPRS). */
module Compression {
  import opened Bits
  import opened Blocks
  import opened Network
  import Field61

  /** Lane-wise product of blocks, 64-bit wrap-around. */
  function MulLane(x: Lane, y: Lane): Lane {
    (x * y) % LANE
  }

  function Mul(x: Block, y: Block): Block {
    Block(MulLane(x.lo, y.lo), MulLane(x.hi, y.hi))
  }

  // ---------- congruence ----------

  ghost predicate Congruent(m: nat, x: int, y: int)
    requires m > 0
  {
    (x - y) % m == 0
  }

  lemma QuotientUnique(x: int, m: nat, q: int)
    requires m > 0 && x == q * m
    ensures x % m == 0
  {
    var q', r := x / m, x % m;
    assert x == q' * m + r && 0 <= r < m;
    assert (q - q') * m == r;
    if q - q' >= 1 {
      MulMono(1, q - q', m);
    } else if q - q' <= -1 {
      MulMono(1, q' - q, m);
    }
  }

  lemma CongruentBy(m: nat, x: int, y: int, k: int)
    requires m > 0 && x == y + k * m
    ensures Congruent(m, x, y)
  {
    QuotientUnique(x - y, m, k);
  }

  lemma CongruentQuotient(m: nat, x: int, y: int) returns (k: int)
    requires m > 0 && Congruent(m, x, y)
    ensures x == y + k * m
  {
    k := (x - y) / m;
  }

  lemma CongruentTrans(m: nat, x: int, y: int, z: int)
    requires m > 0 && Congruent(m, x, y) && Congruent(m, y, z)
    ensures Congruent(m, x, z)
  {
    var k := CongruentQuotient(m, x, y);
    var j := CongruentQuotient(m, y, z);
    MulDistrib(k, j, m);
    CongruentBy(m, x, z, k + j);
  }

  lemma CongruentSym(m: nat, x: int, y: int)
    requires m > 0 && Congruent(m, x, y)
    ensures Congruent(m, y, x)
  {
    var k := CongruentQuotient(m, x, y);
    MulAssoc(-1, k, m);
    CongruentBy(m, y, x, -k);
  }

  lemma CongruentAdd(m: nat, x: int, y: int, u: int, v: int)
    requires m > 0 && Congruent(m, x, y) && Congruent(m, u, v)
    ensures Congruent(m, x + u, y + v)
  {
    var k := CongruentQuotient(m, x, y);
    var j := CongruentQuotient(m, u, v);
    MulDistrib(k, j, m);
    CongruentBy(m, x + u, y + v, k + j);
  }

  lemma CongruentMul(m: nat, x: int, y: int, u: int, v: int)
    requires m > 0 && Congruent(m, x, y) && Congruent(m, u, v)
    ensures Congruent(m, x * u, y * v)
  {
    var k := CongruentQuotient(m, x, y);
    var j := CongruentQuotient(m, u, v);
    calc {
      x * u;
      { MulDistrib(y, k * m, u); }
      y * u + (k * m) * u;
      { ProductSplit(y, v, j, m); MulExchange(k, m, u); }
      y * v + (y * j) * m + (k * u) * m;
      { MulDistrib(y * j, k * u, m); }
      y * v + (y * j + k * u) * m;
    }
    CongruentBy(m, x * u, y * v, y * j + k * u);
  }

  lemma ProductSplit(y: int, v: int, j: int, m: int)
    ensures y * (v + j * m) == y * v + (y * j) * m
  {
    MulAssoc(y, j, m);
  }

  lemma MulExchange(k: int, m: int, u: int)
    ensures (k * m) * u == (k * u) * m
  {
    MulAssoc(k, m, u);
    MulAssoc(k, u, m);
  }

  lemma CongruentMod(m: nat, x: int)
    requires m > 0
    ensures Congruent(m, x % m, x)
  {
    assert x == (x / m) * m + x % m;
    CongruentBy(m, x % m, x, -(x / m));
  }

  lemma CongruentEqual(m: nat, x: nat, y: nat)
    requires m > 0 && x < m && y < m && Congruent(m, x, y)
    ensures x == y
  {
    var k := CongruentQuotient(m, x, y);
    if k >= 1 {
      MulMono(1, k, m);
    } else if k <= -1 {
      MulMono(1, -k, m);
    }
  }

  /** A sum of terms congruent to other terms. */
  lemma CongruentSum(m: nat, r: int, xy: int, x: int, x': int, y: int, y': int, c: int)
    requires m > 0 && Congruent(m, x, x') && Congruent(m, y, y')
    requires Congruent(m, xy, x + y) && Congruent(m, r, xy + c)
    ensures Congruent(m, r, x' + y' + c)
  {
    hide Congruent;
    CongruentAdd(m, x, x', y, y');
    CongruentTrans(m, xy, x + y, x' + y');
    CongruentBy(m, c, c, 0);
    CongruentAdd(m, xy, x' + y', c, c);
    CongruentTrans(m, r, xy + c, x' + y' + c);
  }

  /** The integer product, under a name of its own. */
  function Times(x: int, y: int): int {
    x * y
  }

  // ---------- what the lanes stand for ----------

  lemma LaneOps(x: Lane, y: Lane)
    ensures Congruent(LANE, AddLane(x, y), x + y)
    ensures Congruent(LANE, SubLane(x, y), x - y)
    ensures Congruent(LANE, MulLane(x, y), Times(x, y))
  {
    CongruentBy(LANE, AddLane(x, y), x + y, if x + y < LANE then 0 else -1);
    CongruentBy(LANE, SubLane(x, y), x - y, if x >= y then 0 else 1);
    CongruentMod(LANE, x * y);
  }

  // ---------- multiplication ----------

  /** One party's inputs to a multiplication: shares of the factors and of the triple. */
  datatype Party = Party(x: Block, y: Block, a: Block, b: Block, c: Block)

  /** The triple shared by the two parties is one in the low lane. */
  ghost predicate Triple(p: Party, q: Party) {
    MulLane(AddLane(p.a.lo, q.a.lo), AddLane(p.b.lo, q.b.lo)) == AddLane(p.c.lo, q.c.lo)
  }

  /** A party's local share of the product, once the differences d and e are opened. */
  function LocalLane(d: Lane, e: Lane, a: Lane, b: Lane, c: Lane): Lane {
    AddLane(AddLane(MulLane(d, b), MulLane(a, e)), c)
  }

  lemma LocalLaneSum(d: Lane, e: Lane, a: Lane, b: Lane, c: Lane)
    ensures Congruent(LANE, LocalLane(d, e, a, b, c), Times(d, b) + Times(a, e) + c)
  {
    hide Congruent, AddLane, MulLane, Times;
    LaneOps(d, b);
    LaneOps(a, e);
    LaneOps(MulLane(d, b), MulLane(a, e));
    LaneOps(AddLane(MulLane(d, b), MulLane(a, e)), c);
    CongruentSum(LANE, LocalLane(d, e, a, b, c), AddLane(MulLane(d, b), MulLane(a, e)),
                 MulLane(d, b), Times(d, b), MulLane(a, e), Times(a, e), c);
  }

  /** The opened difference D stands for X - A. */
  lemma OpenedDifference(x0: Lane, x1: Lane, a0: Lane, a1: Lane)
    ensures Congruent(LANE, AddLane(SubLane(x0, a0), SubLane(x1, a1)) + (a0 + a1), AddLane(x0, x1))
  {
    hide *;
    LaneOps(x0, a0);
    LaneOps(x1, a1);
    LaneOps(SubLane(x0, a0), SubLane(x1, a1));
    LaneOps(x0, x1);
    Undo(LANE, AddLane(SubLane(x0, a0), SubLane(x1, a1)), SubLane(x0, a0), SubLane(x1, a1), x0, x1, a0, a1,
         AddLane(x0, x1));
  }

  lemma Undo(m: nat, d: int, s0: int, s1: int, x0: int, x1: int, a0: int, a1: int, x: int)
    requires m > 0 && Congruent(m, s0, x0 - a0) && Congruent(m, s1, x1 - a1)
    requires Congruent(m, d, s0 + s1) && Congruent(m, x, x0 + x1)
    ensures Congruent(m, d + (a0 + a1), x)
  {
    hide Congruent;
    CongruentAdd(m, s0, x0 - a0, s1, x1 - a1);
    CongruentTrans(m, d, s0 + s1, (x0 - a0) + (x1 - a1));
    CongruentBy(m, a0 + a1, a0 + a1, 0);
    CongruentAdd(m, d, (x0 - a0) + (x1 - a1), a0 + a1, a0 + a1);
    assert (x0 - a0) + (x1 - a1) + (a0 + a1) == x0 + x1;
    CongruentSym(m, x, x0 + x1);
    CongruentTrans(m, d + (a0 + a1), x0 + x1, x);
  }

  lemma TripleProduct(a0: Lane, a1: Lane, b0: Lane, b1: Lane, c0: Lane, c1: Lane)
    requires MulLane(AddLane(a0, a1), AddLane(b0, b1)) == AddLane(c0, c1)
    ensures Congruent(LANE, c0 + c1, Times(a0 + a1, b0 + b1))
  {
    hide Congruent, AddLane, MulLane, Times;
    var a, b := AddLane(a0, a1), AddLane(b0, b1);
    LaneOps(a0, a1);
    LaneOps(b0, b1);
    LaneOps(c0, c1);
    LaneOps(a, b);
    CongruentTimes(LANE, a, a0 + a1, b, b0 + b1);
    CongruentTrans(LANE, MulLane(a, b), Times(a, b), Times(a0 + a1, b0 + b1));
    CongruentSym(LANE, MulLane(a, b), c0 + c1);
    CongruentTrans(LANE, c0 + c1, MulLane(a, b), Times(a0 + a1, b0 + b1));
  }

  lemma CongruentTimes(m: nat, x: int, y: int, u: int, v: int)
    requires m > 0 && Congruent(m, x, y) && Congruent(m, u, v)
    ensures Congruent(m, Times(x, u), Times(y, v))
  {
    CongruentMul(m, x, y, u, v);
  }

  /** The integer identity behind the protocol. */
  lemma Expand(d: int, e: int, a0: int, a1: int, b0: int, b1: int)
    ensures Times(d, e) + (Times(d, b0) + Times(a0, e)) + (Times(d, b1) + Times(a1, e))
         == Times(d + (a0 + a1), e + (b0 + b1)) - Times(a0 + a1, b0 + b1)
  {
    var a, b := a0 + a1, b0 + b1;
    Distribute(d, e, b);
    Distribute(a, e, b);
    Distribute(d, b0, b1);
    MulDistrib(a0, a1, e);
    MulDistrib(d, a, e + b);
  }

  lemma Distribute(x: int, y: int, z: int)
    ensures x * (y + z) == x * y + x * z
  {
  }

  /** With a correct triple, D * E plus the two local shares is the product of the shared
      factors. */
  lemma BeaverProduct(x0: Lane, x1: Lane, y0: Lane, y1: Lane, a0: Lane, a1: Lane, b0: Lane, b1: Lane,
                      c0: Lane, c1: Lane)
    requires MulLane(AddLane(a0, a1), AddLane(b0, b1)) == AddLane(c0, c1)
    ensures var d, e := AddLane(SubLane(x0, a0), SubLane(x1, a1)), AddLane(SubLane(y0, b0), SubLane(y1, b1));
      AddLane(AddLane(MulLane(d, e), LocalLane(d, e, a0, b0, c0)), LocalLane(d, e, a1, b1, c1))
      == MulLane(AddLane(x0, x1), AddLane(y0, y1))
  {
    hide Congruent, AddLane, SubLane, MulLane, Times, LocalLane;
    var d, e := AddLane(SubLane(x0, a0), SubLane(x1, a1)), AddLane(SubLane(y0, b0), SubLane(y1, b1));
    var z0, z1 := LocalLane(d, e, a0, b0, c0), LocalLane(d, e, a1, b1, c1);
    var sum := AddLane(AddLane(MulLane(d, e), z0), z1);
    var s0, s1 := Times(d, b0) + Times(a0, e) + c0, Times(d, b1) + Times(a1, e) + c1;
    LocalLaneSum(d, e, a0, b0, c0);
    LocalLaneSum(d, e, a1, b1, c1);
    SumOfShares(d, e, z0, s0, z1, s1);
    Expand(d, e, a0, a1, b0, b1);
    var xy := Times(d + (a0 + a1), e + (b0 + b1));
    TripleProduct(a0, a1, b0, b1, c0, c1);
    CongruentBy(LANE, xy - Times(a0 + a1, b0 + b1), xy - Times(a0 + a1, b0 + b1), 0);
    CongruentAdd(LANE, xy - Times(a0 + a1, b0 + b1), xy - Times(a0 + a1, b0 + b1),
                 c0 + c1, Times(a0 + a1, b0 + b1));
    CongruentTrans(LANE, sum, Times(d, e) + s0 + s1, xy);
    OpenedDifference(x0, x1, a0, a1);
    OpenedDifference(y0, y1, b0, b1);
    CongruentTimes(LANE, d + (a0 + a1), AddLane(x0, x1), e + (b0 + b1), AddLane(y0, y1));
    CongruentTrans(LANE, sum, xy, Times(AddLane(x0, x1), AddLane(y0, y1)));
    LaneOps(AddLane(x0, x1), AddLane(y0, y1));
    var product := MulLane(AddLane(x0, x1), AddLane(y0, y1));
    CongruentSym(LANE, product, Times(AddLane(x0, x1), AddLane(y0, y1)));
    CongruentTrans(LANE, sum, Times(AddLane(x0, x1), AddLane(y0, y1)), product);
    CongruentEqual(LANE, sum, product);
  }

  lemma SumOfShares(d: Lane, e: Lane, z0: Lane, s0: int, z1: Lane, s1: int)
    requires Congruent(LANE, z0, s0) && Congruent(LANE, z1, s1)
    ensures Congruent(LANE, AddLane(AddLane(MulLane(d, e), z0), z1), Times(d, e) + s0 + s1)
  {
    hide Congruent, AddLane, MulLane, Times;
    LaneOps(d, e);
    LaneOps(MulLane(d, e), z0);
    LaneOps(AddLane(MulLane(d, e), z0), z1);
    CongruentAdd(LANE, MulLane(d, e), Times(d, e), z0, s0);
    CongruentTrans(LANE, AddLane(MulLane(d, e), z0), MulLane(d, e) + z0, Times(d, e) + s0);
    CongruentAdd(LANE, AddLane(MulLane(d, e), z0), Times(d, e) + s0, z1, s1);
    CongruentTrans(LANE, AddLane(AddLane(MulLane(d, e), z0), z1), AddLane(MulLane(d, e), z0) + z1,
                   Times(d, e) + s0 + s1);
  }

  // ---------- the two parties ----------

  /** A party's local share as blocks. */
  function LocalShare(p: Party, d: Block, e: Block): Block {
    Add(Add(Mul(d, p.b), Mul(p.a, e)), p.c)
  }

  /** The differences to the triple, opened. */
  function OpenedX(alice: Party, bob: Party): Block {
    Add(Sub(alice.x, alice.a), Sub(bob.x, bob.a))
  }

  function OpenedY(alice: Party, bob: Party): Block {
    Add(Sub(alice.y, alice.b), Sub(bob.y, bob.b))
  }

  /** What a party sends, for the opened differences `d` and `e`. */
  function MultSent(p: Party, d: Block, e: Block): (m: seq<seq<Block>>)
    ensures |m| == 3
  {
    [[Sub(p.x, p.a)], [Sub(p.y, p.b)], [LocalShare(p, d, e)]]
  }

  /** What both parties compute. */
  function Product(alice: Party, bob: Party): Block {
    var d, e := OpenedX(alice, bob), OpenedY(alice, bob);
    Add(Add(Mul(d, e), LocalShare(alice, d, e)), LocalShare(bob, d, e))
  }

  /** Mult of both parties: both get the product of the shared factors in the low lane, and
      every message sent is received. What is sent are the differences to the triple and the
      local shares. */
  method Mult(io: NetIO, alice: Party, bob: Party) returns (outA: Block, outB: Block)
    requires Triple(alice, bob) && io.toAlice == [] && io.toBob == []
    modifies io
    ensures io.toAlice == [] && io.toBob == []
    ensures outA.lo == outB.lo == MulLane(AddLane(alice.x.lo, bob.x.lo), AddLane(alice.y.lo, bob.y.lo))
    ensures outA == outB == Product(alice, bob)
    ensures var d, e := OpenedX(alice, bob), OpenedY(alice, bob);
      && io.sentToBob == old(io.sentToBob) + MultSent(alice, d, e)
      && io.sentToAlice == old(io.sentToAlice) + MultSent(bob, d, e)
  {
    hide AddLane, SubLane, MulLane;
    var dA, eA := Sub(alice.x, alice.a), Sub(alice.y, alice.b);
    var dB, eB := Sub(bob.x, bob.a), Sub(bob.y, bob.b);
    io.SendToBob([dA]);
    io.SendToBob([eA]);
    var dBi := io.BobReceives();
    var eBi := io.BobReceives();
    io.SendToAlice([dB]);
    io.SendToAlice([eB]);
    var dAi := io.AliceReceives();
    var eAi := io.AliceReceives();
    ghost var d, e := Add(dA, dB), Add(eA, eB);
    AddComm(dA, dB);
    AddComm(eA, eB);
    dA, eA := Add(dA, dAi[0]), Add(eA, eAi[0]);
    dB, eB := Add(dB, dBi[0]), Add(eB, eBi[0]);
    assert dA == dB == d && eA == eB == e;
    var zA, zB := LocalShare(alice, dA, eA), LocalShare(bob, dB, eB);
    io.SendToBob([zA]);
    var zBi := io.BobReceives();
    io.SendToAlice([zB]);
    var zAi := io.AliceReceives();
    outA := Add(Add(Mul(dA, eA), zA), zAi[0]);
    outB := Add(Add(Mul(dB, eB), zB), zBi[0]);
    BeaverProduct(alice.x.lo, bob.x.lo, alice.y.lo, bob.y.lo, alice.a.lo, bob.a.lo, alice.b.lo, bob.b.lo,
                  alice.c.lo, bob.c.lo);
    AddExchange(Mul(d, e), zA, zB);
  }

  // ---------- the compression test ----------

  /** What the test opens for a shared value: four times its product with the random factor. */
  function Opened(x: Lane, ran: Lane): Lane {
    AddLane(MulLane(x, AddLane(ran, ran)), MulLane(x, AddLane(ran, ran)))
  }

  lemma OpenedIs(x: Lane, ran: Lane)
    ensures Opened(x, ran) == (4 * (x * ran)) % LANE
  {
    hide Congruent, AddLane, MulLane, Times;
    var y := AddLane(ran, ran);
    LaneOps(ran, ran);
    LaneOps(x, y);
    LaneOps(MulLane(x, y), MulLane(x, y));
    CongruentBy(LANE, x, x, 0);
    CongruentTimes(LANE, x, x, y, ran + ran);
    CongruentTrans(LANE, MulLane(x, y), Times(x, y), Times(x, ran + ran));
    CongruentAdd(LANE, MulLane(x, y), Times(x, ran + ran), MulLane(x, y), Times(x, ran + ran));
    CongruentTrans(LANE, Opened(x, ran), MulLane(x, y) + MulLane(x, y), Times(x, ran + ran) + Times(x, ran + ran));
    FourTimes(x, ran);
    CongruentMod(LANE, 4 * (x * ran));
    CongruentSym(LANE, (4 * (x * ran)) % LANE, 4 * (x * ran));
    CongruentTrans(LANE, Opened(x, ran), 4 * (x * ran), (4 * (x * ran)) % LANE);
    CongruentEqual(LANE, Opened(x, ran), (4 * (x * ran)) % LANE);
  }

  lemma FourTimes(x: int, ran: int)
    ensures Times(x, ran + ran) + Times(x, ran + ran) == 4 * (x * ran)
  {
    Distribute(x, ran, ran);
  }

  /** An odd factor does not change divisibility by a power of two. */
  lemma {:induction false} OddFactor(r: nat, x: nat, k: nat)
    requires r % 2 == 1
    ensures (x * r) % Pow2(k) == 0 <==> x % Pow2(k) == 0
  {
    if k > 0 {
      var h, p := x / 2, Pow2(k - 1);
      OddFactor(r, h, k - 1);
      if x % 2 == 0 {
        MulAssoc(2, h, r);
        EvenDivisible(h * r, p);
        EvenDivisible(h, p);
      } else {
        OddProduct(h, r);
        OddIndivisible(x * r, p);
        OddIndivisible(x, p);
      }
    }
  }

  lemma EvenDivisible(y: nat, p: nat)
    requires p > 0
    ensures (2 * y) % (2 * p) == 0 <==> y % p == 0
  {
    DivDiv(2 * y, 2, p);
  }

  lemma OddIndivisible(y: nat, p: nat)
    requires p > 0 && y % 2 == 1
    ensures y % (2 * p) != 0
  {
    DivDiv(y, 2, p);
  }

  lemma OddProduct(h: nat, r: nat)
    requires r % 2 == 1
    ensures ((2 * h + 1) * r) % 2 == 1
  {
    MulDistrib(2 * h, 1, r);
    MulAssoc(2, h, r);
  }

  /** The test misses a value exactly when its product with the random factor is a multiple of
      2^62. */
  lemma OpenedZeroIff(x: Lane, ran: Lane)
    ensures Opened(x, ran) == 0 <==> (x * ran) % Pow2(62) == 0
  {
    hide Opened, Pow2;
    OpenedIs(x, ran);
    LaneIsPow2();
    Pow2Add(2, 62);
    TwoBits();
    DivDiv(4 * (x * ran), 4, Pow2(62));
  }

  /** A factor with fewer than s + 1 trailing zero bits costs at most s bits of divisibility. */
  lemma {:induction false} FactorBits(r: nat, x: nat, k: nat, s: nat)
    requires s <= k && r % Pow2(s + 1) != 0 && (x * r) % Pow2(k) == 0
    ensures x % Pow2(k - s) == 0
    decreases s
  {
    hide Pow2;
    Pow2Step(s + 1);
    if r % 2 == 1 {
      OddFactor(r, x, k);
      PowerDivides(x, k, k - s);
    } else {
      var h := r / 2;
      MulComm(x, 2 * h);
      MulAssoc(2, h, x);
      MulComm(x, h);
      EvenDivisible(h, Pow2(s));
      assert s > 0 by { Pow2Step(0); }
      Pow2Step(k);
      EvenDivisible(x * h, Pow2(k - 1));
      FactorBits(h, x, k - 1, s - 1);
    }
  }

  lemma MulComm(a: int, b: int)
    ensures a * b == b * a
  {
  }

  /** Divisible by a power of two, divisible by a smaller one. */
  lemma PowerDivides(x: nat, k: nat, j: nat)
    requires j <= k && x % Pow2(k) == 0
    ensures x % Pow2(j) == 0
  {
    hide Pow2;
    Pow2Add(k - j, j);
    var q := x / Pow2(k);
    DivMod(x, Pow2(k));
    MulAssoc(q, Pow2(k - j), Pow2(j));
    DivUnique(x, Pow2(j), q * Pow2(k - j), 0);
  }

  /** The test tells all nonzero values below 2^(62-s) from zero if and only if 2^(s+1) does not
      divide the random factor: all below 2^62 exactly for odd factors, all field values (they
      are below 2^61) exactly for factors that are no multiples of four. */
  lemma FactorExact(ran: Lane, s: nat)
    requires s <= 61
    ensures (forall x: Lane :: 0 < x < Pow2(62 - s) ==> Opened(x, ran) != 0) <==> ran % Pow2(s + 1) != 0
  {
    hide Opened, Pow2;
    if ran % Pow2(s + 1) != 0 {
      forall x: Lane | 0 < x < Pow2(62 - s) ensures Opened(x, ran) != 0 {
        OpenedZeroIff(x, ran);
        if Opened(x, ran) == 0 {
          FactorBits(ran, x, 62, s);
          DivUnique(x, Pow2(62 - s), 0, x);
        }
      }
    } else {
      MissedValue(ran, s);
    }
  }

  /** The value a factor with s + 1 trailing zero bits loses. */
  lemma MissedValue(ran: Lane, s: nat)
    requires s <= 61 && ran % Pow2(s + 1) == 0
    ensures 0 < Pow2(61 - s) < Pow2(62 - s) && Pow2(61 - s) < LANE && Opened(Pow2(61 - s), ran) == 0
  {
    hide Opened, Pow2;
    Pow2Step(62 - s);
    Pow2Mono(61 - s, 64);
    LaneIsPow2();
    Pow2Mono(62 - s, 64);
    var x, q := Pow2(61 - s), ran / Pow2(s + 1);
    DivMod(ran, Pow2(s + 1));
    Pow2Add(s + 1, 61 - s);
    MulComm(x, ran);
    MulAssoc(q, Pow2(s + 1), x);
    DivUnique(x * ran, Pow2(62), q, 0);
    OpenedZeroIff(x, ran);
  }

  /** A field value that the test does not see: with the factor 4 it loses 2^60. */
  lemma EvenFactorLosesValue()
    ensures 0x1000_0000_0000_0000 < Field61.P && Opened(0x1000_0000_0000_0000, 4) == 0
  {
    hide Opened;
    OpenedIs(0x1000_0000_0000_0000, 4);
  }

  lemma TwoBits()
    ensures Pow2(2) == 4
  {
  }

  /** The shared value at index `i`. */
  function Joint(u: seq<Block>, v: seq<Block>, i: nat): Lane
    requires i < |u| && i < |v|
  {
    AddLane(u[i].lo, v[i].lo)
  }

  /** The indices below `n` that the test records, in order. */
  function Recorded(u: seq<Block>, v: seq<Block>, ran: Lane, n: nat): seq<nat>
    requires n <= |u| && n <= |v|
  {
    if n == 0 then []
    else Recorded(u, v, ran, n - 1) + (if Opened(Joint(u, v, n - 1), ran) != 0 then [n - 1] else [])
  }

  /** What a party of the test holds for entry `i`. */
  function WithFactor(p: Party, x: Block, ran: Block): Party {
    p.(x := x, y := ran)
  }

  /** What the party `me` of `p` and `q` sends for one entry: its part of the multiplication, then
      the result. */
  function EntrySent(p: Party, q: Party, me: Party): seq<seq<Block>> {
    MultSent(me, OpenedX(p, q), OpenedY(p, q)) + [[Product(p, q)]]
  }

  /** What ALICE sends for the first `n` entries. */
  function SentToBob(u: seq<Block>, v: seq<Block>, ran: Block, alice: Party, bob: Party, n: nat): seq<seq<Block>>
    requires n <= |u| && n <= |v|
  {
    if n == 0 then []
    else
      var p, q := WithFactor(alice, u[n - 1], ran), WithFactor(bob, v[n - 1], ran);
      SentToBob(u, v, ran, alice, bob, n - 1) + EntrySent(p, q, p)
  }

  /** What BOB sends for them. */
  function SentToAlice(u: seq<Block>, v: seq<Block>, ran: Block, alice: Party, bob: Party, n: nat): seq<seq<Block>>
    requires n <= |u| && n <= |v|
  {
    if n == 0 then []
    else
      var p, q := WithFactor(alice, u[n - 1], ran), WithFactor(bob, v[n - 1], ran);
      SentToAlice(u, v, ran, alice, bob, n - 1) + EntrySent(p, q, q)
  }

  /** One entry of the test: multiply, exchange the results and open their sum. */
  method OpenEntry(io: NetIO, p: Party, q: Party) returns (openedA: Lane, openedB: Lane)
    requires Triple(p, q) && p.y == q.y && io.toAlice == [] && io.toBob == []
    modifies io
    ensures io.toAlice == [] && io.toBob == []
    ensures openedA == openedB == Opened(AddLane(p.x.lo, q.x.lo), p.y.lo)
    ensures io.sentToBob == old(io.sentToBob) + EntrySent(p, q, p)
    ensures io.sentToAlice == old(io.sentToAlice) + EntrySent(p, q, q)
  {
    hide AddLane, MulLane, MultSent, OpenedX, OpenedY, Product;
    var xrA, xrB := Mult(io, p, q);
    io.SendToBob([xrA]);
    var otherB := io.BobReceives();
    io.SendToAlice([xrB]);
    var otherA := io.AliceReceives();
    openedA, openedB := Add(xrA, otherA[0]).lo, Add(xrB, otherB[0]).lo;
  }

  /** What a party records next to the indices: its shares there, reduced. */
  ghost predicate OwnShares(u: seq<Block>, indices: seq<nat>, shares: seq<nat>) {
    |shares| == |indices| && forall k :: 0 <= k < |indices| ==>
      indices[k] < |u| && shares[k] == Field61.Reduce(u[indices[k]].lo)
  }

  lemma OneMoreShare(u: seq<Block>, indices: seq<nat>, shares: seq<nat>, i: nat)
    requires i < |u| && OwnShares(u, indices, shares)
    ensures OwnShares(u, indices + [i], shares + [Field61.Reduce(u[i].lo)])
  {
    hide Field61.Reduce;
  }

  lemma NoEntries(u: seq<Block>, v: seq<Block>, ran: Block, alice: Party, bob: Party)
    ensures Recorded(u, v, ran.lo, 0) == [] && OwnShares(u, [], []) && OwnShares(v, [], [])
    ensures SentToBob(u, v, ran, alice, bob, 0) == SentToAlice(u, v, ran, alice, bob, 0) == []
  {
  }

  lemma NextEntry(u: seq<Block>, v: seq<Block>, ran: Block, alice: Party, bob: Party, i: nat)
    requires i < |u| && i < |v|
    ensures var p, q := WithFactor(alice, u[i], ran), WithFactor(bob, v[i], ran);
      && Recorded(u, v, ran.lo, i + 1)
         == (if Opened(AddLane(u[i].lo, v[i].lo), ran.lo) != 0 then Recorded(u, v, ran.lo, i) + [i]
             else Recorded(u, v, ran.lo, i))
      && SentToBob(u, v, ran, alice, bob, i + 1) == SentToBob(u, v, ran, alice, bob, i) + EntrySent(p, q, p)
      && SentToAlice(u, v, ran, alice, bob, i + 1) == SentToAlice(u, v, ran, alice, bob, i) + EntrySent(p, q, q)
  {
    hide AddLane, EntrySent, Opened;
  }

  /** CPRS of both parties on shares `u` and `v`: both record the same indices, in the same
      order, each with its own share modulo 2^61 - 1. */
  method Cprs(io: NetIO, u: seq<Block>, v: seq<Block>, ran: Block, alice: Party, bob: Party)
    returns (indicesA: seq<nat>, sharesA: seq<nat>, indicesB: seq<nat>, sharesB: seq<nat>)
    requires |u| == |v| && Triple(alice, bob) && io.toAlice == [] && io.toBob == []
    modifies io
    ensures io.toAlice == [] && io.toBob == []
    ensures io.sentToBob == old(io.sentToBob) + SentToBob(u, v, ran, alice, bob, |u|)
    ensures io.sentToAlice == old(io.sentToAlice) + SentToAlice(u, v, ran, alice, bob, |u|)
    ensures indicesA == indicesB == Recorded(u, v, ran.lo, |u|)
    ensures |sharesA| == |sharesB| == |indicesA|
    ensures OwnShares(u, indicesA, sharesA) && OwnShares(v, indicesB, sharesB)
  {
    hide AddLane, EntrySent, Opened, OwnShares, Recorded, SentToBob, SentToAlice, Joint, Field61.Reduce;
    NoEntries(u, v, ran, alice, bob);
    indicesA, sharesA, indicesB, sharesB := [], [], [], [];
    for i := 0 to |u|
      invariant io.toAlice == [] && io.toBob == []
      invariant indicesA == indicesB == Recorded(u, v, ran.lo, i)
      invariant |sharesA| == |sharesB| == |indicesA|
      invariant OwnShares(u, indicesA, sharesA) && OwnShares(v, indicesB, sharesB)
      invariant io.sentToBob == old(io.sentToBob) + SentToBob(u, v, ran, alice, bob, i)
      invariant io.sentToAlice == old(io.sentToAlice) + SentToAlice(u, v, ran, alice, bob, i)
    {
      NextEntry(u, v, ran, alice, bob, i);
      OneMoreShare(u, indicesA, sharesA, i);
      OneMoreShare(v, indicesB, sharesB, i);
      var p, q := WithFactor(alice, u[i], ran), WithFactor(bob, v[i], ran);
      var openedA, openedB := OpenEntry(io, p, q);
      if openedA != 0 {
        indicesA, sharesA := indicesA + [i], sharesA + [Field61.Reduce(u[i].lo)];
      }
      if openedB != 0 {
        indicesB, sharesB := indicesB + [i], sharesB + [Field61.Reduce(v[i].lo)];
      }
    }
  }

  /** Recorded indices are ascending, and they are exactly those of the shared values whose
      product with the random factor is no multiple of 2^62. */
  lemma {:induction false} RecordedExact(u: seq<Block>, v: seq<Block>, ran: Lane, n: nat)
    requires n <= |u| && n <= |v|
    ensures forall k :: 0 <= k < |Recorded(u, v, ran, n)| ==> Recorded(u, v, ran, n)[k] < n
    ensures forall j, k :: 0 <= j < k < |Recorded(u, v, ran, n)| ==>
      Recorded(u, v, ran, n)[j] < Recorded(u, v, ran, n)[k]
    ensures forall i :: 0 <= i < n ==>
      (i in Recorded(u, v, ran, n) <==> (Joint(u, v, i) * ran) % Pow2(62) != 0)
  {
    hide Opened, AddLane, Joint, Pow2;
    if n > 0 {
      RecordedExact(u, v, ran, n - 1);
      OpenedZeroIff(Joint(u, v, n - 1), ran);
    }
  }

  /** The recorded indices are those of the nonzero values. */
  ghost predicate RecordsNonzero(u: seq<Block>, v: seq<Block>, ran: Lane)
    requires |u| == |v|
  {
    forall i :: 0 <= i < |u| ==> (i in Recorded(u, v, ran, |u|) <==> Joint(u, v, i) != 0)
  }

  ghost predicate AllBelow(u: seq<Block>, v: seq<Block>, bound: nat)
    requires |u| == |v|
  {
    forall i :: 0 <= i < |u| ==> Joint(u, v, i) < bound
  }

  /** For all shared values below 2^(62-s) the recorded indices are the nonzero ones if and
      only if 2^(s+1) does not divide the random factor. */
  lemma RecordedNonzero(ran: Lane, s: nat)
    requires s <= 61
    ensures (forall u: seq<Block>, v: seq<Block> :: |u| == |v| && AllBelow(u, v, Pow2(62 - s)) ==>
              RecordsNonzero(u, v, ran))
       <==> ran % Pow2(s + 1) != 0
  {
    hide Recorded, Joint, Pow2, Opened;
    if ran % Pow2(s + 1) != 0 {
      FactorExact(ran, s);
      forall u: seq<Block>, v: seq<Block> | |u| == |v| && AllBelow(u, v, Pow2(62 - s))
        ensures RecordsNonzero(u, v, ran)
      {
        RecordedExact(u, v, ran, |u|);
        forall i | 0 <= i < |u| ensures i in Recorded(u, v, ran, |u|) <==> Joint(u, v, i) != 0 {
          OpenedZeroIff(Joint(u, v, i), ran);
          ZeroProduct(ran);
        }
      }
    } else {
      MissedValue(ran, s);
      var x: Lane := Pow2(61 - s);
      var u, v := [Block(x, 0)], [ZERO_BLOCK];
      assert Joint(u, v, 0) == x by { JointWithZero(x); }
      RecordedExact(u, v, ran, 1);
      OpenedZeroIff(x, ran);
      assert AllBelow(u, v, Pow2(62 - s)) && !RecordsNonzero(u, v, ran);
    }
  }

  lemma ZeroProduct(ran: Lane)
    ensures (0 * ran) % Pow2(62) == 0
  {
    hide Pow2;
    DivUnique(0 * ran, Pow2(62), 0, 0);
  }

  lemma JointWithZero(x: Lane)
    ensures Joint([Block(x, 0)], [ZERO_BLOCK], 0) == x
  {
  }

  /** Opening the recorded shares modulo 2^61 - 1: a carry out of the low lane shifts the value
      by 8, so a value comes back exactly when it is a field value and the lanes do not carry. */
  lemma RecoveryExact(x: Lane, y: Lane)
    ensures var carry := if x + y < LANE then 0 else 1;
      Field61.FAdd(x % Field61.P, y % Field61.P) == (AddLane(x, y) + 8 * carry) % Field61.P
    ensures Field61.FAdd(x % Field61.P, y % Field61.P) == AddLane(x, y)
       <==> AddLane(x, y) < Field61.P && x + y < LANE
  {
    var p := Field61.P;
    ModOfSum(x, y, p);
    assert LANE == 8 * p + 8;
    if x + y >= LANE {
      ModShift(AddLane(x, y) + 8, 8, p);
    }
  }

  /** The low lanes carry exactly when the first share exceeds the value. */
  lemma CarryIff(x: Lane, y: Lane)
    ensures x + y < LANE <==> x <= AddLane(x, y)
  {
  }

  /** Shares of 1 that open to 9. */
  lemma CarryShiftsValue()
    ensures AddLane(LANE - 1, 2) == 1 && Field61.FAdd((LANE - 1) % Field61.P, 2 % Field61.P) == 9
  {
    RecoveryExact(LANE - 1, 2);
  }

  lemma ModOfSum(x: nat, y: nat, p: nat)
    requires p > 0
    ensures (x % p + y % p) % p == (x + y) % p
  {
    RemainderOfSum(x, y, p);
  }

  function Remainder(x: nat, p: nat): (r: nat)
    requires p > 0
    ensures r < p && Congruent(p, r, x)
  {
    CongruentMod(p, x);
    x % p
  }

  lemma RemainderOfSum(x: nat, y: nat, p: nat)
    requires p > 0
    ensures Remainder(Remainder(x, p) + Remainder(y, p), p) == Remainder(x + y, p)
  {
    hide Congruent, Remainder;
    var s := Remainder(x, p) + Remainder(y, p);
    CongruentAdd(p, Remainder(x, p), x, Remainder(y, p), y);
    CongruentTrans(p, Remainder(s, p), s, x + y);
    CongruentSym(p, Remainder(x + y, p), x + y);
    CongruentTrans(p, Remainder(s, p), x + y, Remainder(x + y, p));
    CongruentEqual(p, Remainder(s, p), Remainder(x + y, p));
  }

  lemma ModShift(x: nat, q: nat, p: nat)
    requires p > 0
    ensures (x + q * p) % p == x % p
  {
    DivMod(x, p);
    MulDistrib(x / p, q, p);
    DivUnique(x + q * p, p, x / p + q, x % p);
  }
}
