/** The key tree shared by the point-function secret sharings of vdpf/src/dpf.c and
    vdpf/src/vdpf.c. 128-bit blocks are natural numbers; control bits are kept as the C code
    keeps them, in integers compared with 1. */
module Dpf {
  import opened Bits

  type Bit = b: nat | b < 2

  datatype Expansion = Expansion(sL: nat, sR: nat, tL: Bit, tR: Bit)

  type Prg = nat -> Expansion

  /** dpfPRG over the block cipher `aes`. */
  function DpfPrg(aes: nat -> nat): Prg {
    (seed: nat) =>
      var input := SetLsbZero(seed);
      var stash0 := BitXor(aes(input), input);
      var stash1 := FlipLow(BitXor(aes(FlipLow(input)), input));
      Expansion(SetLsbZero(stash0), SetLsbZero(stash1), stash0 % 2, stash1 % 2)
  }

  function SetLsbZero(x: nat): nat {
    if x % 2 == 1 then FlipLow(x) else x
  }

  /** Seeds it hands out have their lowest bit cleared, and the lowest bit of a seed never
      matters. */
  lemma DpfPrgIgnoresLowBit(aes: nat -> nat, seed: nat)
    ensures var e := DpfPrg(aes)(seed);
      && e.sL % 2 == 0 && e.sR % 2 == 0
      && e == DpfPrg(aes)(FlipLow(seed))
  {
    hide BitXor, SetLsbZero;
    LsbCleared(seed);
    LsbCleared(BitXor(aes(SetLsbZero(seed)), SetLsbZero(seed)));
    LsbCleared(FlipLow(BitXor(aes(FlipLow(SetLsbZero(seed))), SetLsbZero(seed))));
  }

  /** The two cipher blocks, fed forward, come back from the children: each seed holds all bits of
      its block but the lowest, and the control bits hold these, the right one flipped. */
  lemma DpfPrgHoldsBlocks(aes: nat -> nat, seed: nat)
    ensures var e, even := DpfPrg(aes)(seed), seed - seed % 2;
      e.sL + e.tL == BitXor(aes(even), even) && e.sR + (1 - e.tR) == BitXor(aes(even + 1), even)
  {
    hide BitXor;
    var even := SetLsbZero(seed);
    LsbSplit(seed);
    LsbSplit(BitXor(aes(even), even));
    LsbSplit(BitXor(aes(even + 1), even));
    assert FlipLow(even) == even + 1;
  }

  lemma LsbSplit(x: nat)
    ensures SetLsbZero(x) + x % 2 == x && SetLsbZero(x) % 2 == 0
    ensures SetLsbZero(FlipLow(x)) + (1 - FlipLow(x) % 2) == x
  {
  }

  lemma LsbCleared(x: nat)
    ensures SetLsbZero(x) % 2 == 0
    ensures SetLsbZero(FlipLow(x)) == SetLsbZero(x)
  {
  }

  /** Correction word of one level. */
  datatype CW = CW(s: nat, t0: nat, t1: nat)

  datatype Node = Node(seed: nat, bit: nat)

  function GetBit(x: nat, size: nat, i: nat): Bit
    requires i <= size
  {
    Shr(x, size - i) % 2
  }

  /** The corrected child of a node on side 0 (left) or 1 (right). */
  function Child(prg: Prg, node: Node, cw: CW, side: nat): Node {
    var e := prg(node.seed);
    var s, t := if side == 0 then e.sL else e.sR, if side == 0 then e.tL else e.tR;
    if node.bit == 1 then
      Node(BitXor(s, cw.s), BitXor(t, if side == 0 then cw.t0 else cw.t1))
    else
      Node(s, t)
  }

  /** The node at level i of one party's tree that is reached by the i-bit prefix `m`. */
  function NodeAt(prg: Prg, root: Node, cws: seq<CW>, i: nat, m: nat): Node
    requires i <= |cws|
  {
    if i == 0 then root else Child(prg, NodeAt(prg, root, cws, i - 1, m / 2), cws[i - 1], m % 2)
  }

  // ---------- key generation ----------

  datatype GenState = GenState(cws: seq<CW>, n0: Node, n1: Node)

  /** The correction word for two on-path nodes and the next bit of the special index. */
  function CorrectionWord(prg: Prg, n0: Node, n1: Node, indexBit: Bit): CW {
    var e0, e1 := prg(n0.seed), prg(n1.seed);
    CW(if indexBit == 0 then BitXor(e0.sR, e1.sR) else BitXor(e0.sL, e1.sL),
       BitXor(BitXor(BitXor(e0.tL, e1.tL), indexBit), 1),
       BitXor(BitXor(e0.tR, e1.tR), indexBit))
  }

  /** The first i levels of key generation. */
  function Gen(prg: Prg, size: nat, index: nat, r0: nat, r1: nat, i: nat): (g: GenState)
    requires i <= size
    ensures |g.cws| == i
  {
    if i == 0 then GenState([], Node(r0, 0), Node(r1, 1))
    else
      var g := Gen(prg, size, index, r0, r1, i - 1);
      var b := GetBit(index, size, i);
      var cw := CorrectionWord(prg, g.n0, g.n1, b);
      GenState(g.cws + [cw], Child(prg, g.n0, cw, b), Child(prg, g.n1, cw, b))
  }

  /** One party's step to the kept child. */
  method KeepChild(e: Expansion, bit: nat, sCW: nat, tCW0: nat, tCW1: nat, indexBit: Bit)
    returns (seed: nat, bit': nat)
    ensures forall prg: Prg, s: nat :: prg(s) == e ==>
      Node(seed, bit') == Child(prg, Node(s, bit), CW(sCW, tCW0, tCW1), indexBit)
  {
    hide BitXor;
    var keptS, keptT := e.sL, e.tL;
    if indexBit == 1 {
      keptS, keptT := e.sR, e.tR;
    }
    if bit == 1 {
      seed := BitXor(keptS, sCW);
      if indexBit == 0 {
        bit' := BitXor(keptT, tCW0);
      } else {
        bit' := BitXor(keptT, tCW1);
      }
    } else {
      seed, bit' := keptS, keptT;
    }
  }

  /** The correction word of one level, as the level loop computes it. */
  method LevelWord(e0: Expansion, e1: Expansion, indexBit: Bit) returns (sCW: nat, tCW0: nat, tCW1: nat)
    ensures forall prg: Prg, n0: Node, n1: Node :: prg(n0.seed) == e0 && prg(n1.seed) == e1 ==>
      CW(sCW, tCW0, tCW1) == CorrectionWord(prg, n0, n1, indexBit)
  {
    hide BitXor;
    if indexBit == 0 {
      sCW := BitXor(e0.sR, e1.sR);
    } else {
      sCW := BitXor(e0.sL, e1.sL);
    }
    tCW0 := BitXor(BitXor(BitXor(e0.tL, e1.tL), indexBit), 1);
    tCW1 := BitXor(BitXor(e0.tR, e1.tR), indexBit);
  }

  lemma GenStep(prg: Prg, size: nat, index: nat, r0: nat, r1: nat, i: nat)
    requires 1 <= i <= size
    ensures var g := Gen(prg, size, index, r0, r1, i - 1);
      var bit := GetBit(index, size, i);
      var cw := CorrectionWord(prg, g.n0, g.n1, bit);
      Gen(prg, size, index, r0, r1, i) == GenState(g.cws + [cw], Child(prg, g.n0, cw, bit), Child(prg, g.n1, cw, bit))
  {
  }

  /** The level loop of genDPF and genVDPF. */
  method GenTree(prg: Prg, size: nat, index: nat, r0: nat, r1: nat)
    returns (cws: seq<CW>, n0: Node, n1: Node)
    ensures GenState(cws, n0, n1) == Gen(prg, size, index, r0, r1, size)
  {
    hide BitXor, Shr, Child, CorrectionWord, GetBit, Gen;
    var seeds0, seeds1 := new nat[size + 1](_ => 0), new nat[size + 1](_ => 0);
    var bits0, bits1 := new nat[size + 1](_ => 0), new nat[size + 1](_ => 0);
    cws := [];
    seeds0[0], seeds1[0] := r0, r1;
    bits0[0], bits1[0] := 0, 1;
    n0, n1 := Node(r0, 0), Node(r1, 1);
    GenStart(prg, size, index, r0, r1);
    for i := 1 to size + 1
      invariant n0 == Node(seeds0[i - 1], bits0[i - 1]) && n1 == Node(seeds1[i - 1], bits1[i - 1])
      invariant GenState(cws, n0, n1) == Gen(prg, size, index, r0, r1, i - 1)
    {
      GenStep(prg, size, index, r0, r1, i);
      var cw, next0, next1 := LevelStep(prg, n0, n1, GetBit(index, size, i));
      cws := cws + [cw];
      seeds0[i], bits0[i] := next0.seed, next0.bit;
      seeds1[i], bits1[i] := next1.seed, next1.bit;
      n0, n1 := next0, next1;
    }
  }

  lemma GenStart(prg: Prg, size: nat, index: nat, r0: nat, r1: nat)
    ensures Gen(prg, size, index, r0, r1, 0) == GenState([], Node(r0, 0), Node(r1, 1))
  {
  }

  /** One turn of the loop: the correction word and both kept children. */
  method LevelStep(prg: Prg, n0: Node, n1: Node, indexBit: Bit) returns (cw: CW, next0: Node, next1: Node)
    ensures cw == CorrectionWord(prg, n0, n1, indexBit)
    ensures next0 == Child(prg, n0, cw, indexBit) && next1 == Child(prg, n1, cw, indexBit)
  {
    hide BitXor, Child, CorrectionWord;
    var e0, e1 := prg(n0.seed), prg(n1.seed);
    var sCW, tCW0, tCW1 := LevelWord(e0, e1, indexBit);
    cw := CW(sCW, tCW0, tCW1);
    var seed0, bit0 := KeepChild(e0, n0.bit, sCW, tCW0, tCW1, indexBit);
    var seed1, bit1 := KeepChild(e1, n1.bit, sCW, tCW0, tCW1, indexBit);
    next0, next1 := Node(seed0, bit0), Node(seed1, bit1);
  }

  // ---------- the on-path and off-path invariant ----------

  lemma {:induction false} NodeAtPrefix(prg: Prg, root: Node, cws: seq<CW>, cw: CW, i: nat, m: nat)
    requires i <= |cws|
    ensures NodeAt(prg, root, cws + [cw], i, m) == NodeAt(prg, root, cws, i, m)
  {
    hide Child;
    if i > 0 {
      NodeAtPrefix(prg, root, cws, cw, i - 1, m / 2);
    }
  }

  lemma {:induction false} GenPrefix(prg: Prg, size: nat, index: nat, r0: nat, r1: nat, i: nat, k: nat)
    requires i <= k <= size
    ensures Gen(prg, size, index, r0, r1, i).cws == Gen(prg, size, index, r0, r1, k).cws[..i]
    decreases k
  {
    hide Child, CorrectionWord, GetBit;
    if i < k {
      GenPrefix(prg, size, index, r0, r1, i, k - 1);
    }
  }

  lemma {:induction false} NodeAtTake(prg: Prg, root: Node, cws: seq<CW>, i: nat, k: nat, m: nat)
    requires i <= k <= |cws|
    ensures NodeAt(prg, root, cws[..k], i, m) == NodeAt(prg, root, cws, i, m)
  {
    hide Child;
    if i > 0 {
      NodeAtTake(prg, root, cws, i - 1, k, m / 2);
    }
  }

  /** What holds between the two parties' nodes at the same place of the tree. */
  ghost predicate PathInvariant(n0: Node, n1: Node, onPath: bool) {
    && n0.bit < 2 && n1.bit < 2
    && (onPath ==> n0.bit != n1.bit)
    && (!onPath ==> n0 == n1)
  }

  /** One level keeps the invariant, on the kept side and on the lost side. */
  lemma ChildInvariant(prg: Prg, n0: Node, n1: Node, indexBit: Bit, side: Bit)
    requires PathInvariant(n0, n1, true)
    ensures var cw := CorrectionWord(prg, n0, n1, indexBit);
      PathInvariant(Child(prg, n0, cw, side), Child(prg, n1, cw, side), side == indexBit)
  {
    hide BitXor;
    var e0, e1 := prg(n0.seed), prg(n1.seed);
    BitCases(e0.tL, e1.tL, indexBit);
    BitCases(e0.tR, e1.tR, indexBit);
    XorCancelBoth(e0.sL, e1.sL);
    XorCancelBoth(e0.sR, e1.sR);
  }

  lemma XorCancelBoth(x: nat, y: nat)
    ensures BitXor(x, BitXor(x, y)) == y && BitXor(y, BitXor(x, y)) == x
  {
    hide BitXor;
    BitXorCancel(x, y);
    BitXorComm(x, y);
    BitXorCancel(y, x);
  }

  lemma BitTable(a: Bit, b: Bit)
    ensures BitXor(a, b) == if a == b then 0 else 1
  {
  }

  /** Control-bit correction: xoring in tCW on one side only leaves the two bits different on
      the kept side and equal on the lost side. */
  lemma BitCases(a: Bit, b: Bit, c: Bit)
    ensures BitXor(BitXor(BitXor(a, b), c), 1) < 2 && BitXor(BitXor(a, b), c) < 2
    ensures BitXor(a, BitXor(BitXor(BitXor(a, b), c), 1)) == (if c == 0 then 1 - b else b)
    ensures BitXor(b, BitXor(BitXor(BitXor(a, b), c), 1)) == (if c == 0 then 1 - a else a)
    ensures BitXor(a, BitXor(BitXor(a, b), c)) == (if c == 1 then 1 - b else b)
    ensures BitXor(b, BitXor(BitXor(a, b), c)) == (if c == 1 then 1 - a else a)
  {
    hide BitXor;
    BitTable(a, b);
    BitTable(BitXor(a, b), c);
    var u := BitXor(BitXor(a, b), c);
    BitTable(u, 1);
    BitTable(a, u);
    BitTable(b, u);
    BitTable(a, BitXor(u, 1));
    BitTable(b, BitXor(u, 1));
  }

  /** The i-bit prefix `m` leads along the path to `index`. */
  ghost predicate OnPath(index: nat, size: nat, i: nat, m: nat)
    requires i <= size
  {
    i == 0 || (OnPath(index, size, i - 1, m / 2) && m % 2 == GetBit(index, size, i))
  }

  /** Being on the path means agreeing with the index in the low bits of the prefix. */
  lemma {:induction false} OnPathIff(index: nat, size: nat, i: nat, m: nat)
    requires i <= size
    ensures OnPath(index, size, i, m) <==> m % Pow2(i) == Shr(index, size - i) % Pow2(i)
  {
    hide Shr, Pow2;
    Pow2Step(i);
    if i > 0 {
      OnPathIff(index, size, i - 1, m / 2);
      ShrStep(index, size - i);
      DivDiv(m, 2, Pow2(i - 1));
      DivDiv(Shr(index, size - i), 2, Pow2(i - 1));
    }
  }

  /** The invariant of the two trees, at every node: equal nodes off the path to the special
      index, different control bits on it. */
  lemma {:induction false} TreeInvariant(prg: Prg, size: nat, index: nat, r0: nat, r1: nat, i: nat, m: nat)
    requires i <= size
    ensures var cws := Gen(prg, size, index, r0, r1, size).cws;
      var n0, n1 := NodeAt(prg, Node(r0, 0), cws, i, m), NodeAt(prg, Node(r1, 1), cws, i, m);
      var g := Gen(prg, size, index, r0, r1, i);
      && PathInvariant(n0, n1, OnPath(index, size, i, m))
      && (OnPath(index, size, i, m) ==> n0 == g.n0 && n1 == g.n1)
  {
    hide BitXor, Child, CorrectionWord, GetBit;
    if i > 0 {
      TreeInvariant(prg, size, index, r0, r1, i - 1, m / 2);
      var g := Gen(prg, size, index, r0, r1, i - 1);
      GenPrefix(prg, size, index, r0, r1, i, size);
      if OnPath(index, size, i - 1, m / 2) {
        ChildInvariant(prg, g.n0, g.n1, GetBit(index, size, i), m % 2);
      } else {
        var parent := NodeAt(prg, Node(r0, 0), Gen(prg, size, index, r0, r1, size).cws, i - 1, m / 2);
        SharedChild(prg, parent, g.n0, g.n1, GetBit(index, size, i), m % 2);
      }
    }
  }

  lemma SharedChild(prg: Prg, n: Node, n0: Node, n1: Node, indexBit: Bit, side: Bit)
    requires n.bit < 2
    ensures Child(prg, n, CorrectionWord(prg, n0, n1, indexBit), side).bit < 2
  {
    hide BitXor;
    var e, e0, e1 := prg(n.seed), prg(n0.seed), prg(n1.seed);
    BitCases(e0.tL, e1.tL, indexBit);
    BitCases(e0.tR, e1.tR, indexBit);
    BitTable(e.tL, BitXor(BitXor(BitXor(e0.tL, e1.tL), indexBit), 1));
    BitTable(e.tR, BitXor(BitXor(e0.tR, e1.tR), indexBit));
  }

  // ---------- pointwise evaluation ----------

  /** The leaf that a party with the given root reaches for input `x`. */
  function Leaf(prg: Prg, root: Node, cws: seq<CW>, x: nat): Node {
    NodeAt(prg, root, cws, |cws|, x)
  }

  function Select(xbit: Bit, left: nat, right: nat): nat {
    (1 - xbit) * left + xbit * right
  }

  lemma SelectIs(xbit: Bit, left: nat, right: nat)
    ensures Select(xbit, left, right) == if xbit == 0 then left else right
  {
  }

  /** The inner loop of the batch evaluators: walks down to the leaf of `x`. */
  method EvalPath(prg: Prg, size: nat, root: Node, cws: seq<CW>, x: nat,
                  seeds: array<nat>, bits: array<nat>)
    requires |cws| == size && seeds.Length == bits.Length == size + 1 && seeds != bits
    requires seeds[0] == root.seed && bits[0] == root.bit
    modifies seeds, bits
    ensures seeds[0] == root.seed && bits[0] == root.bit
    ensures Node(seeds[size], bits[size]) == Leaf(prg, root, cws, x)
  {
    hide BitXor, Shr, Select;
    for i := 1 to size + 1
      invariant seeds[0] == root.seed && bits[0] == root.bit
      invariant Node(seeds[i - 1], bits[i - 1]) == NodeAt(prg, root, cws, i - 1, Shr(x, size - (i - 1)))
    {
      var e := prg(seeds[i - 1]);
      var sL, sR, tL, tR := e.sL, e.sR, e.tL as nat, e.tR as nat;
      if bits[i - 1] == 1 {
        sL := BitXor(sL, cws[i - 1].s);
        sR := BitXor(sR, cws[i - 1].s);
        tL := BitXor(tL, cws[i - 1].t0);
        tR := BitXor(tR, cws[i - 1].t1);
      }
      var xbit := GetBit(x, size, i);
      SelectIs(xbit, sL, sR);
      SelectIs(xbit, tL, tR);
      ShrStep(x, size - i);
      seeds[i] := Select(xbit, sL, sR);
      bits[i] := Select(xbit, tL, tR);
    }
    ShrZero(x);
  }

  lemma ShrZero(x: nat)
    ensures Shr(x, 0) == x
  {
  }

  // ---------- level-order evaluation of the full domain ----------

  /** Node `k` of the tree stored in level order. */
  function HeapNode(prg: Prg, root: Node, cws: seq<CW>, k: nat): Node
    requires Depth(k) <= |cws|
  {
    if k == 0 then root
    else Child(prg, HeapNode(prg, root, cws, (k - 1) / 2), cws[Depth(k) - 1], (k - 1) % 2)
  }

  function Depth(k: nat): nat {
    if k == 0 then 0 else 1 + Depth((k - 1) / 2)
  }

  lemma {:induction false} DepthIs(level: nat, m: nat)
    requires m < Pow2(level)
    ensures Depth(Pow2(level) - 1 + m) == level
  {
    if level > 0 {
      var k := Pow2(level) - 1 + m;
      assert (k - 1) / 2 == Pow2(level - 1) - 1 + m / 2;
      DepthIs(level - 1, m / 2);
    }
  }

  /** Entry 2^level - 1 + m of the level-order tree is the node of the prefix `m`. */
  lemma {:induction false} HeapIsTree(prg: Prg, root: Node, cws: seq<CW>, level: nat, m: nat)
    requires level <= |cws| && m < Pow2(level)
    ensures Depth(Pow2(level) - 1 + m) == level
    ensures HeapNode(prg, root, cws, Pow2(level) - 1 + m) == NodeAt(prg, root, cws, level, m)
  {
    hide Child;
    DepthIs(level, m);
    if level > 0 {
      var k := Pow2(level) - 1 + m;
      assert (k - 1) / 2 == Pow2(level - 1) - 1 + m / 2 && (k - 1) % 2 == m % 2;
      HeapIsTree(prg, root, cws, level - 1, m / 2);
    }
  }

  /** The parent index the level-order loop computes is (i - 1) / 2, and its level counter is
      the parent's depth. */
  lemma ParentFormula(currLevel: nat, levelIndex: nat, num: nat, i: nat)
    requires Position(currLevel, levelIndex, num, i)
    ensures i >= 1 && i % 2 == 1 && levelIndex <= num
    ensures i - levelIndex - (num - levelIndex) / 2 == (i - 1) / 2
    ensures Depth((i - 1) / 2) == currLevel
  {
    hide Pow2, Depth;
    assert (i - 1) / 2 == Pow2(currLevel) - 1 + levelIndex / 2;
    DepthIs(currLevel, levelIndex / 2);
  }

  /** Where the tree loop is: about to fill entries `i` and `i + 1`, which stand at `levelIndex`
      in the level of `num` entries below `currLevel`. */
  ghost predicate Position(currLevel: nat, levelIndex: nat, num: nat, i: nat) {
    && levelIndex % 2 == 0 && levelIndex < num == 2 * Pow2(currLevel)
    && i == num - 1 + levelIndex
  }

  lemma FirstPosition()
    ensures Position(0, 0, 2, 1)
  {
  }

  lemma NextPosition(currLevel: nat, levelIndex: nat, num: nat, i: nat)
    requires Position(currLevel, levelIndex, num, i)
    ensures if levelIndex + 2 == num then Position(currLevel + 1, 0, num * 2, i + 2)
            else Position(currLevel, levelIndex + 2, num, i + 2)
  {
    hide Pow2;
    Pow2Step(currLevel + 1);
    Pow2Step(currLevel);
  }

  /** Inside an array for `size` levels the parent's level is below `size`, and both children
      fit. */
  lemma PositionInTree(size: nat, currLevel: nat, levelIndex: nat, num: nat, i: nat)
    requires Position(currLevel, levelIndex, num, i) && i < 2 * Pow2(size) - 1
    ensures currLevel < size && i + 1 < 2 * Pow2(size) - 1
  {
    hide Pow2;
    if currLevel >= size {
      Pow2Mono(size, currLevel);
    }
  }

  /** The first `n` entries of the level-order arrays hold the tree. */
  ghost predicate Filled(prg: Prg, root: Node, cws: seq<CW>, seeds: array<nat>, bits: array<nat>, n: nat)
    requires n <= seeds.Length == bits.Length
    reads seeds, bits
  {
    forall k :: 0 <= k < n ==>
      Depth(k) <= |cws| && Node(seeds[k], bits[k]) == HeapNode(prg, root, cws, k)
  }

  /** Stores both children of the entry at (i - 1) / 2. */
  method StoreChildren(prg: Prg, ghost root: Node, cws: seq<CW>, parentIndex: nat, currLevel: nat, i: nat,
                       seeds: array<nat>, bits: array<nat>)
    requires i % 2 == 1 && i + 1 < seeds.Length == bits.Length && seeds != bits
    requires parentIndex == (i - 1) / 2 && currLevel == Depth(parentIndex) < |cws|
    requires Filled(prg, root, cws, seeds, bits, i)
    modifies seeds, bits
    ensures Filled(prg, root, cws, seeds, bits, i + 2)
  {
    hide Child, Depth, HeapNode;
    var left, right := BothChildren(prg, Node(seeds[parentIndex], bits[parentIndex]), cws[currLevel]);
    HeapChildren(prg, root, cws, i);
    seeds[i], bits[i] := left.seed, left.bit;
    seeds[i + 1], bits[i + 1] := right.seed, right.bit;
  }

  /** The tree loop of fullDomainDPF and fullDomainVDPF. */
  method FullTree(prg: Prg, size: nat, root: Node, cws: seq<CW>)
    returns (seeds: array<nat>, bits: array<nat>)
    requires |cws| == size
    ensures fresh(seeds) && fresh(bits) && seeds.Length == bits.Length == 2 * Pow2(size) - 1
    ensures forall x :: 0 <= x < Pow2(size) ==>
      Node(seeds[Pow2(size) - 1 + x], bits[Pow2(size) - 1 + x]) == Leaf(prg, root, cws, x)
  {
    hide BitXor, Pow2, Child, Depth, HeapNode, NodeAt, Shl, Filled, Leaf, Position;
    var numLeaves := Shl(1, size);
    ShlIsMul(1, size);
    var treeSize := 2 * numLeaves - 1;
    seeds, bits := new nat[treeSize](_ => 0), new nat[treeSize](_ => 0);
    seeds[0], bits[0] := root.seed, root.bit;
    var currLevel: nat, levelIndex: nat, numIndexesInLevel: nat := 0, 0, 2;
    var i: nat := 1;
    FirstPosition();
    RootFilled(prg, root, cws, seeds, bits);
    while i < treeSize
      invariant i % 2 == 1 && i <= treeSize
      invariant Position(currLevel, levelIndex, numIndexesInLevel, i)
      invariant Filled(prg, root, cws, seeds, bits, i)
      decreases treeSize - i
    {
      ParentFormula(currLevel, levelIndex, numIndexesInLevel, i);
      PositionInTree(size, currLevel, levelIndex, numIndexesInLevel, i);
      NextPosition(currLevel, levelIndex, numIndexesInLevel, i);
      var parentIndex := 0;
      if i > 1 {
        parentIndex := i - levelIndex - (numIndexesInLevel - levelIndex) / 2;
      }
      StoreChildren(prg, root, cws, parentIndex, currLevel, i, seeds, bits);
      levelIndex := levelIndex + 2;
      if levelIndex == numIndexesInLevel {
        currLevel := currLevel + 1;
        numIndexesInLevel := numIndexesInLevel * 2;
        levelIndex := 0;
      }
      i := i + 2;
    }
    LeavesFilled(prg, root, cws, seeds, bits);
  }

  lemma RootFilled(prg: Prg, root: Node, cws: seq<CW>, seeds: array<nat>, bits: array<nat>)
    requires seeds.Length == bits.Length >= 1 && Node(seeds[0], bits[0]) == root
    ensures Filled(prg, root, cws, seeds, bits, 1)
  {
  }

  lemma LeavesFilled(prg: Prg, root: Node, cws: seq<CW>, seeds: array<nat>, bits: array<nat>)
    requires seeds.Length == bits.Length == 2 * Pow2(|cws|) - 1
    requires Filled(prg, root, cws, seeds, bits, seeds.Length)
    ensures forall x :: 0 <= x < Pow2(|cws|) ==>
      Node(seeds[Pow2(|cws|) - 1 + x], bits[Pow2(|cws|) - 1 + x]) == Leaf(prg, root, cws, x)
  {
    hide Pow2, Depth, HeapNode, NodeAt;
    forall x | 0 <= x < Pow2(|cws|)
      ensures Node(seeds[Pow2(|cws|) - 1 + x], bits[Pow2(|cws|) - 1 + x]) == Leaf(prg, root, cws, x)
    {
      HeapIsTree(prg, root, cws, |cws|, x);
    }
  }

  lemma HeapChildren(prg: Prg, root: Node, cws: seq<CW>, i: nat)
    requires i % 2 == 1 && Depth((i - 1) / 2) < |cws|
    ensures Depth(i) == Depth(i + 1) == Depth((i - 1) / 2) + 1
    ensures HeapNode(prg, root, cws, i)
         == Child(prg, HeapNode(prg, root, cws, (i - 1) / 2), cws[Depth((i - 1) / 2)], 0)
    ensures HeapNode(prg, root, cws, i + 1)
         == Child(prg, HeapNode(prg, root, cws, (i - 1) / 2), cws[Depth((i - 1) / 2)], 1)
  {
    hide Child;
    assert i / 2 == (i - 1) / 2;
  }

  method BothChildren(prg: Prg, node: Node, cw: CW) returns (left: Node, right: Node)
    ensures left == Child(prg, node, cw, 0) && right == Child(prg, node, cw, 1)
  {
    hide BitXor;
    var e := prg(node.seed);
    var sL, sR, tL, tR := e.sL, e.sR, e.tL as nat, e.tR as nat;
    if node.bit == 1 {
      sL := BitXor(sL, cw.s);
      sR := BitXor(sR, cw.s);
      tL := BitXor(tL, cw.t0);
      tR := BitXor(tR, cw.t1);
    }
    left, right := Node(sL, tL), Node(sR, tR);
  }
}
