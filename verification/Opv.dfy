/** Oblivious punctured vectors (pvfss/src/opv.cc): a GGM tree whose leaves one party
    knows completely and the other party knows everywhere except at one index. */
module Opv {
  import opened Bits
  import opened Blocks

  /** A length-doubling generator: the child of a seed on side 0 or 1. */
  type Prg = (Block, nat) -> Block

  /** Node `j`, counted from the left, at depth `k` below `root`. */
  function Node(prg: Prg, root: Block, k: nat, j: nat): Block {
    if k == 0 then root else prg(Node(prg, root, k - 1, j / 2), j % 2)
  }

  /** The 2^depth leaves, left to right. */
  function Leaves(prg: Prg, root: Block, depth: nat): (s: seq<Block>)
    ensures |s| == Pow2(depth)
  {
    seq(Pow2(depth), j requires 0 <= j => Node(prg, root, depth, j))
  }

  /** Exclusive or of the `side` children of the first `m` nodes at depth `k`. */
  function SideXor(prg: Prg, root: Block, k: nat, side: nat, m: nat): Block {
    if m == 0 then ZERO_BLOCK
    else Xor(SideXor(prg, root, k, side, m - 1), prg(Node(prg, root, k, m - 1), side))
  }

  /** The OT choice bits: the bits of `x`, most significant first, each negated. */
  function ChoiceBits(x: nat, depth: nat): (bits: seq<nat>)
    ensures |bits| == depth && forall i :: 0 <= i < depth ==> bits[i] < 2
  {
    seq(depth, i requires 0 <= i < depth => 1 - Shr(x, depth - 1 - i) % 2)
  }

  // ---------- the sender's tree ----------

  lemma {:induction false} NodeSplit(prg: Prg, root: Block, k: nat, side: nat, j: nat)
    requires side < 2 && j < Pow2(k)
    ensures Node(prg, root, k + 1, side * Pow2(k) + j) == Node(prg, prg(root, side), k, j)
  {
    if k == 0 {
      assert Node(prg, root, 1, side) == prg(Node(prg, root, 0, side / 2), side % 2);
    } else {
      NodeSplit(prg, root, k - 1, side, j / 2);
      assert side * Pow2(k) == 2 * (side * Pow2(k - 1));
      var i := side * Pow2(k) + j;
      assert i / 2 == side * Pow2(k - 1) + j / 2 && i % 2 == j % 2;
    }
  }

  lemma {:induction false} SideXorLeft(prg: Prg, root: Block, k: nat, side: nat, m: nat)
    requires m <= Pow2(k)
    ensures SideXor(prg, root, k + 1, side, m) == SideXor(prg, prg(root, 0), k, side, m)
  {
    hide Xor, Node, Pow2;
    if m > 0 {
      SideXorLeft(prg, root, k, side, m - 1);
      NodeSplit(prg, root, k, 0, m - 1);
    }
  }

  /** A level's exclusive or is that of the left subtree and that of the right subtree. */
  lemma {:induction false} SideXorSplit(prg: Prg, root: Block, k: nat, side: nat, m: nat)
    requires m <= Pow2(k)
    ensures SideXor(prg, root, k + 1, side, Pow2(k) + m)
         == Xor(SideXor(prg, prg(root, 0), k, side, Pow2(k)), SideXor(prg, prg(root, 1), k, side, m))
  {
    hide Xor, Node, Pow2;
    var left := SideXor(prg, prg(root, 0), k, side, Pow2(k));
    if m == 0 {
      SideXorLeft(prg, root, k, side, Pow2(k));
      XorZero(left);
    } else {
      SideXorSplit(prg, root, k, side, m - 1);
      NodeSplit(prg, root, k, 1, m - 1);
      XorAssoc(left, SideXor(prg, prg(root, 1), k, side, m - 1),
               prg(Node(prg, prg(root, 1), k, m - 1), side));
    }
  }

  /** Accumulates, level by level, the exclusive or of all left children into `str0`
      and of all right children into `str1`. */
  method PrepareCorrelation(prg: Prg, curDepth: nat, depth: nat, seed: Block,
                            str0: array<Block>, str1: array<Block>)
    requires curDepth <= depth == str0.Length == str1.Length && str0 != str1
    modifies str0, str1
    ensures forall l :: 0 <= l < curDepth ==> str0[l] == old(str0[l]) && str1[l] == old(str1[l])
    ensures forall l :: curDepth <= l < depth ==>
      && str0[l] == Xor(old(str0[l]), SideXor(prg, seed, l - curDepth, 0, Pow2(l - curDepth)))
      && str1[l] == Xor(old(str1[l]), SideXor(prg, seed, l - curDepth, 1, Pow2(l - curDepth)))
    decreases depth - curDepth
  {
    hide Xor, SideXor, Pow2;
    if curDepth == depth {
      return;
    }
    var left, right := prg(seed, 0), prg(seed, 1);
    str0[curDepth] := Xor(str0[curDepth], left);
    str1[curDepth] := Xor(str1[curDepth], right);
    PrepareCorrelation(prg, curDepth + 1, depth, left, str0, str1);
    PrepareCorrelation(prg, curDepth + 1, depth, right, str0, str1);
    forall l | curDepth <= l < depth
      ensures str0[l] == Xor(old(str0[l]), SideXor(prg, seed, l - curDepth, 0, Pow2(l - curDepth)))
      ensures str1[l] == Xor(old(str1[l]), SideXor(prg, seed, l - curDepth, 1, Pow2(l - curDepth)))
    {
      LevelContribution(prg, seed, l - curDepth, 0, old(str0[l]));
      LevelContribution(prg, seed, l - curDepth, 1, old(str1[l]));
    }
  }

  lemma LevelContribution(prg: Prg, seed: Block, k: nat, side: nat, acc: Block)
    ensures k == 0 ==> Xor(acc, prg(seed, side)) == Xor(acc, SideXor(prg, seed, k, side, Pow2(k)))
    ensures k > 0 ==>
      Xor(Xor(acc, SideXor(prg, prg(seed, 0), k - 1, side, Pow2(k - 1))),
          SideXor(prg, prg(seed, 1), k - 1, side, Pow2(k - 1)))
      == Xor(acc, SideXor(prg, seed, k, side, Pow2(k)))
  {
    hide Xor, Pow2, SideXor;
    Pow2Step(k);
    if k == 0 {
      FirstSeed(prg, seed, side);
    } else {
      SideXorSplit(prg, seed, k - 1, side, Pow2(k - 1));
      XorAssoc(acc, SideXor(prg, prg(seed, 0), k - 1, side, Pow2(k - 1)),
               SideXor(prg, prg(seed, 1), k - 1, side, Pow2(k - 1)));
    }
  }

  /** Writes the leaves below `seed` to `v`, starting at `index`. */
  method SimpleExpand(prg: Prg, curDepth: nat, depth: nat, index: nat, seed: Block, v: array<Block>)
    requires curDepth < depth && index + Pow2(depth - curDepth) <= v.Length
    modifies v
    ensures forall i :: 0 <= i < v.Length ==>
      v[i] == if index <= i < index + Pow2(depth - curDepth)
              then Node(prg, seed, depth - curDepth, i - index) else old(v[i])
    decreases depth - curDepth
  {
    hide Node, Pow2;
    var left, right := prg(seed, 0), prg(seed, 1);
    Pow2Step(depth - curDepth);
    NodeOne(prg, seed);
    if curDepth == depth - 1 {
      v[index] := left;
      v[index + 1] := right;
      return;
    }
    ghost var k := depth - curDepth - 1;
    var offset := Shl(1, depth - curDepth - 1);
    ShlIsMul(1, k);
    SimpleExpand(prg, curDepth + 1, depth, index, left, v);
    SimpleExpand(prg, curDepth + 1, depth, index + offset, right, v);
    forall j | 0 <= j < Pow2(k)
      ensures Node(prg, seed, k + 1, j) == Node(prg, left, k, j)
      ensures Node(prg, seed, k + 1, Pow2(k) + j) == Node(prg, right, k, j)
    {
      NodeSplit(prg, seed, k, 0, j);
      NodeSplit(prg, seed, k, 1, j);
    }
    forall i | index + offset <= i < index + 2 * offset
      ensures v[i] == Node(prg, seed, k + 1, i - index)
    {
      assert i - index == Pow2(k) + (i - index - offset);
    }
  }

  lemma NodeOne(prg: Prg, seed: Block)
    ensures Node(prg, seed, 1, 0) == prg(seed, 0) && Node(prg, seed, 1, 1) == prg(seed, 1)
  {
    assert Node(prg, seed, 0, 0) == seed;
  }

  // ---------- the receiver's queue ----------

  /** What one processed queue entry contributes on one side: the child of a known node;
      for a zero entry, taken to be the punctured node, the layer's OT output on the side
      of the choice bit and zero on the other. */
  function Slot(prg: Prg, node: Block, side: nat, bit: nat, cw: Block): Block {
    if node != ZERO_BLOCK then prg(node, side) else if side == bit then cw else ZERO_BLOCK
  }

  function Slots(prg: Prg, q: seq<Block>, bit: nat, cw: Block, m: nat): (s: seq<Block>)
    requires m <= |q|
    ensures |s| == 2 * m
  {
    seq(2 * m, j requires 0 <= j < 2 * m => Slot(prg, q[j / 2], j % 2, bit, cw))
  }

  /** Exclusive or of the `bit` children of the nonzero ones among the first `m` entries. */
  function AggMask(prg: Prg, q: seq<Block>, bit: nat, m: nat): Block
    requires m <= |q|
  {
    if m == 0 then ZERO_BLOCK
    else if q[m - 1] != ZERO_BLOCK then Xor(AggMask(prg, q, bit, m - 1), prg(q[m - 1], bit))
    else AggMask(prg, q, bit, m - 1)
  }

  /** The queue index that receives the aggregated mask at layer `c`. */
  function Path(bits: seq<nat>, c: nat): (p: nat)
    requires 1 <= c <= |bits| && forall i :: 0 <= i < |bits| ==> bits[i] < 2
    ensures p < Pow2(c)
    ensures p % 2 == bits[c - 1]
  {
    if c == 1 then bits[0] else 2 * FlipLow(Path(bits, c - 1)) + bits[c - 1]
  }

  function Correct(prg: Prg, q: seq<Block>, bit: nat, cw: Block, path: nat): (s: seq<Block>)
    requires path < 2 * |q|
    ensures |s| == 2 * |q|
  {
    var s := Slots(prg, q, bit, cw, |q|);
    s[path := Xor(s[path], AggMask(prg, q, bit, |q|))]
  }

  /** The queue after `c` layers. */
  function Layer(prg: Prg, bits: seq<nat>, seeds: seq<Block>, c: nat): (q: seq<Block>)
    requires 1 <= c <= |bits| == |seeds| && forall i :: 0 <= i < |bits| ==> bits[i] < 2
    ensures |q| == Pow2(c)
  {
    if c == 1 then
      if bits[0] == 1 then [ZERO_BLOCK, seeds[0]] else [seeds[0], ZERO_BLOCK]
    else
      Correct(prg, Layer(prg, bits, seeds, c - 1), bits[c - 1], seeds[c - 1], Path(bits, c))
  }

  /** Parses `x` into the negated bits that serve as OT choice bits and as puncturing path. */
  method ParseChoiceBits(depth: nat, x: nat) returns (bits: array<nat>)
    ensures fresh(bits) && bits[..] == ChoiceBits(x, depth)
  {
    bits := new nat[depth](_ => 0);
    var i, y := depth, x;
    while i > 0
      invariant 0 <= i <= depth && y == Shr(x, depth - i)
      invariant forall k :: i <= k < depth ==> bits[k] == 1 - Shr(x, depth - 1 - k) % 2
    {
      i := i - 1;
      bits[i] := 1 - y % 2;
      ShrStep(x, depth - 1 - i);
      y := y / 2;
    }
    assert forall k :: 0 <= k < depth ==> bits[..][k] == ChoiceBits(x, depth)[k];
  }

  /** Expands the OT outputs layer by layer through a queue and writes the leaves to `v`. */
  method PunctureExpand(prg: Prg, depth: nat, x: nat, seeds: seq<Block>, v: array<Block>)
    requires depth >= 1 && |seeds| == depth && v.Length == Pow2(depth)
    modifies v
    ensures v[..] == Layer(prg, ChoiceBits(x, depth), seeds, depth)
  {
    hide *;
    var bits := ParseChoiceBits(depth, x);
    ghost var cb := ChoiceBits(x, depth);
    assert bits.Length == |bits[..]| == depth;
    LayerStart(prg, cb, seeds);
    var path := bits[0];
    var q: seq<Block>;
    if bits[0] == 1 {
      q := [ZERO_BLOCK, seeds[0]];
    } else {
      q := [seeds[0], ZERO_BLOCK];
    }
    var curDepth := 1;
    while curDepth < depth
      invariant 1 <= curDepth <= depth && bits[..] == cb
      invariant path == Path(cb, curDepth) && q == Layer(prg, cb, seeds, curDepth)
    {
      var bit := bits[curDepth];
      LayerStep(prg, cb, seeds, curDepth);
      q, path := ExpandLayer(prg, q, bit, seeds[curDepth], path);
      curDepth := curDepth + 1;
    }
    WriteLeaves(q, v);
  }

  lemma LayerStart(prg: Prg, bits: seq<nat>, seeds: seq<Block>)
    requires 1 <= |bits| == |seeds| && forall i :: 0 <= i < |bits| ==> bits[i] < 2
    ensures Path(bits, 1) == bits[0] && Pow2(1) == 2
    ensures Layer(prg, bits, seeds, 1)
         == if bits[0] == 1 then [ZERO_BLOCK, seeds[0]] else [seeds[0], ZERO_BLOCK]
  {
  }

  lemma LayerStep(prg: Prg, bits: seq<nat>, seeds: seq<Block>, c: nat)
    requires 1 <= c < |bits| == |seeds| && forall i :: 0 <= i < |bits| ==> bits[i] < 2
    ensures Path(bits, c) < Pow2(c) == |Layer(prg, bits, seeds, c)| && Pow2(c) % 2 == 0
    ensures Path(bits, c + 1) == 2 * FlipLow(Path(bits, c)) + bits[c] < 2 * Pow2(c)
    ensures Layer(prg, bits, seeds, c + 1)
         == Correct(prg, Layer(prg, bits, seeds, c), bits[c], seeds[c], Path(bits, c + 1))
  {
    hide Correct, Pow2, FlipLow;
    Pow2Step(c);
    Pow2Step(c + 1);
  }

  /** The closing loop: the queue holds the leaves from left to right. */
  method WriteLeaves(q: seq<Block>, v: array<Block>)
    requires |q| == v.Length
    modifies v
    ensures v[..] == q
  {
    for i := 0 to |q|
      invariant forall k :: 0 <= k < i ==> v[k] == q[k]
    {
      v[i] := q[i];
    }
  }

  /** One turn of the layer loop of PunctureExpand. */
  method ExpandLayer(prg: Prg, q0: seq<Block>, bit: nat, seed: Block, path0: nat)
    returns (q: seq<Block>, path: nat)
    requires bit < 2 && path0 < |q0| && |q0| % 2 == 0
    ensures path == 2 * FlipLow(path0) + bit && path < 2 * |q0|
    ensures q == Correct(prg, q0, bit, seed, path)
  {
    hide Xor, Slots;
    q := q0;
    assert Slots(prg, q0, bit, seed, 0) == [];
    var size := |q|;
    var aggMask := ZERO_BLOCK;
    for i := 0 to size
      invariant q == q0[i..] + Slots(prg, q0, bit, seed, i)
      invariant aggMask == AggMask(prg, q0, bit, i)
    {
      var node := q[0];
      q := q[1..];
      ghost var done := Slots(prg, q0, bit, seed, i);
      assert q == q0[i + 1..] + done;
      SlotsStep(prg, q0, bit, seed, i);
      if node != ZERO_BLOCK {
        q := q + [prg(node, 0), prg(node, 1)];
        aggMask := Xor(aggMask, prg(node, bit));
      } else if bit == 1 {
        q := q + [ZERO_BLOCK, seed];
      } else {
        q := q + [seed, ZERO_BLOCK];
      }
      assert q == q0[i + 1..] + (done + [Slot(prg, node, 0, bit, seed), Slot(prg, node, 1, bit, seed)]);
    }
    path := 2 * FlipLow(path0) + bit;
    q := q[path := Xor(q[path], aggMask)];
  }

  lemma SlotsStep(prg: Prg, q: seq<Block>, bit: nat, cw: Block, i: nat)
    requires i < |q| && bit < 2
    ensures Slots(prg, q, bit, cw, i + 1)
         == Slots(prg, q, bit, cw, i) + [Slot(prg, q[i], 0, bit, cw), Slot(prg, q[i], 1, bit, cw)]
  {
  }

  // ---------- when the receiver gets the punctured vector ----------

  /** The OT outputs the receiver of `x` gets from the owner of the tree below `root`. */
  ghost predicate HonestSeeds(prg: Prg, root: Block, x: nat, seeds: seq<Block>) {
    forall i :: 0 <= i < |seeds| ==>
      seeds[i] == SideXor(prg, root, i, ChoiceBits(x, |seeds|)[i], Pow2(i))
  }

  /** Level `k` of the tree with the zero block at position `on`. */
  ghost function Punctured(prg: Prg, root: Block, k: nat, on: nat): (s: seq<Block>)
    ensures |s| == Pow2(k)
  {
    seq(Pow2(k), j requires 0 <= j => if j == on then ZERO_BLOCK else Node(prg, root, k, j))
  }

  /** No node off the path to leaf `x` is the zero block on the levels 1, ..., top - 1. */
  ghost predicate NoZeroOffPath(prg: Prg, root: Block, x: nat, depth: nat, top: nat)
    requires top <= depth
  {
    forall c, j :: 1 <= c < top && 0 <= j < Pow2(c) && j != Shr(x, depth - c) ==>
      Node(prg, root, c, j) != ZERO_BLOCK
  }

  lemma ChoiceAt(x: nat, depth: nat, c: nat)
    requires 1 <= c <= depth
    ensures ChoiceBits(x, depth)[c - 1] == 1 - Shr(x, depth - c) % 2
  {
    hide Shr;
  }

  lemma Flipped(p: nat)
    ensures FlipLow(FlipLow(p)) == p && FlipLow(p) == 2 * (p / 2) + 1 - p % 2
  {
  }

  lemma {:induction false} PathIsSibling(x: nat, depth: nat, c: nat)
    requires 1 <= c <= depth && x < Pow2(depth)
    ensures Path(ChoiceBits(x, depth), c) == FlipLow(Shr(x, depth - c))
    ensures Shr(x, depth - c) < Pow2(c)
  {
    hide Shr, Pow2, FlipLow, ChoiceBits;
    ShrBound(x, depth - c, c);
    assert ChoiceBits(x, depth)[c - 1] == 1 - Shr(x, depth - c) % 2 by { ChoiceAt(x, depth, c); }
    Flipped(Shr(x, depth - c));
    if c > 1 {
      PathIsSibling(x, depth, c - 1);
      ShrStep(x, depth - c);
      Flipped(Shr(x, depth - c + 1));
    } else {
      Pow2Step(1);
      Pow2Step(0);
    }
  }

  lemma {:induction false} AggMaskPunctured(prg: Prg, root: Block, k: nat, on: nat, bit: nat, m: nat)
    requires m <= Pow2(k) && on < Pow2(k)
    requires forall j :: 0 <= j < Pow2(k) && j != on ==> Node(prg, root, k, j) != ZERO_BLOCK
    ensures AggMask(prg, Punctured(prg, root, k, on), bit, m)
         == if m <= on then SideXor(prg, root, k, bit, m)
            else Xor(SideXor(prg, root, k, bit, m), prg(Node(prg, root, k, on), bit))
  {
    hide Xor, Node, Pow2;
    if m > 0 {
      AggMaskPunctured(prg, root, k, on, bit, m - 1);
      var prior := SideXor(prg, root, k, bit, m - 1);
      var child := prg(Node(prg, root, k, m - 1), bit);
      var onChild := prg(Node(prg, root, k, on), bit);
      if m - 1 == on {
        XorCancel(prior, child);
      } else if m - 1 > on {
        XorAssoc(prior, onChild, child);
        XorComm(onChild, child);
        XorAssoc(prior, child, onChild);
      }
    }
  }

  /** The whole-layer mask turns the OT output into the child of the punctured node. */
  lemma MaskedSeed(prg: Prg, root: Block, k: nat, on: nat, bit: nat)
    requires on < Pow2(k)
    requires forall j :: 0 <= j < Pow2(k) && j != on ==> Node(prg, root, k, j) != ZERO_BLOCK
    ensures Xor(SideXor(prg, root, k, bit, Pow2(k)),
                AggMask(prg, Punctured(prg, root, k, on), bit, Pow2(k)))
         == prg(Node(prg, root, k, on), bit)
  {
    hide Xor, Node, Pow2, SideXor;
    AggMaskPunctured(prg, root, k, on, bit, Pow2(k));
    var all, child := SideXor(prg, root, k, bit, Pow2(k)), prg(Node(prg, root, k, on), bit);
    XorAssoc(all, all, child);
    XorSelf(all);
    XorZero(child);
  }

  lemma {:induction false} LayerIsPunctured(prg: Prg, root: Block, x: nat, seeds: seq<Block>, c: nat)
    requires 1 <= c <= |seeds| && x < Pow2(|seeds|) && HonestSeeds(prg, root, x, seeds)
    requires NoZeroOffPath(prg, root, x, |seeds|, c)
    ensures Layer(prg, ChoiceBits(x, |seeds|), seeds, c)
         == Punctured(prg, root, c, Shr(x, |seeds| - c))
  {
    hide Xor, Node, Shr, Pow2, SideXor, Correct, Path;
    var depth, bits := |seeds|, ChoiceBits(x, |seeds|);
    var on := Shr(x, depth - c);
    PathIsSibling(x, depth, c);
    if c == 1 {
      Pow2Step(1);
      Pow2Step(0);
      NodeOne(prg, root);
      FirstSeed(prg, root, bits[0]);
    } else {
      LayerIsPunctured(prg, root, x, seeds, c - 1);
      ShrStep(x, depth - c);
      PathIsSibling(x, depth, c - 1);
      Pow2Step(c);
      CorrectIsPunctured(prg, root, c - 1, on, bits[c - 1]);
    }
  }

  lemma CorrectIsPunctured(prg: Prg, root: Block, k: nat, on: nat, bit: nat)
    requires on < Pow2(k + 1) == 2 * Pow2(k) && bit == 1 - on % 2
    requires forall j :: 0 <= j < Pow2(k) && j != on / 2 ==> Node(prg, root, k, j) != ZERO_BLOCK
    ensures Correct(prg, Punctured(prg, root, k, on / 2), bit, SideXor(prg, root, k, bit, Pow2(k)), FlipLow(on))
         == Punctured(prg, root, k + 1, on)
  {
    hide Xor, Node, Pow2, SideXor, AggMask;
    MaskedSeed(prg, root, k, on / 2, bit);
    var q := Punctured(prg, root, k, on / 2);
    var cw := SideXor(prg, root, k, bit, Pow2(k));
    forall j | 0 <= j < 2 * Pow2(k)
      ensures Correct(prg, q, bit, cw, FlipLow(on))[j] == Punctured(prg, root, k + 1, on)[j]
    {
      NodeStep(prg, root, k + 1, j);
    }
  }

  lemma FirstSeed(prg: Prg, root: Block, side: nat)
    ensures SideXor(prg, root, 0, side, Pow2(0)) == prg(root, side)
  {
    hide Xor;
    assert SideXor(prg, root, 0, side, 1)
        == Xor(SideXor(prg, root, 0, side, 0), prg(Node(prg, root, 0, 0), side));
    XorZero(prg(root, side));
  }

  lemma NodeStep(prg: Prg, root: Block, c: nat, j: nat)
    requires c > 0
    ensures Node(prg, root, c, j) == prg(Node(prg, root, c - 1, j / 2), j % 2)
  {
  }

  /** The queue position reached from entry `j` of layer `c` by following the bits of `x`. */
  ghost function Trail(x: nat, depth: nat, c: nat, j: nat, top: nat): (z: nat)
    requires c <= top <= depth
    ensures j < Pow2(c) ==> z < Pow2(top)
    decreases top
  {
    if c == top then j else 2 * Trail(x, depth, c, j, top - 1) + Shr(x, depth - top) % 2
  }

  lemma {:induction false} TrailOffPath(x: nat, depth: nat, c: nat, j: nat, top: nat)
    requires c <= top <= depth && j != Shr(x, depth - c)
    ensures Trail(x, depth, c, j, top) != Shr(x, depth - top)
    decreases top
  {
    hide Shr, Pow2;
    if c < top {
      TrailOffPath(x, depth, c, j, top - 1);
      ShrStep(x, depth - top);
    }
  }

  /** Once the queue holds a zero entry, some entry of every later layer is zero. */
  lemma {:induction false} ZeroPersists(prg: Prg, x: nat, seeds: seq<Block>, c: nat, j: nat, top: nat)
    requires 1 <= c <= top <= |seeds| && j < Pow2(c)
    requires Layer(prg, ChoiceBits(x, |seeds|), seeds, c)[j] == ZERO_BLOCK
    ensures Layer(prg, ChoiceBits(x, |seeds|), seeds, top)[Trail(x, |seeds|, c, j, top)] == ZERO_BLOCK
    decreases top
  {
    hide Xor, Shr, Pow2, AggMask, Path, Correct;
    if c < top {
      ZeroPersists(prg, x, seeds, c, j, top - 1);
      var bits := ChoiceBits(x, |seeds|);
      var q := Layer(prg, bits, seeds, top - 1);
      var z := Trail(x, |seeds|, c, j, top - 1);
      var side := Shr(x, |seeds| - top) % 2;
      Pow2Step(top);
      UntouchedSlot(prg, q, bits[top - 1], seeds[top - 1], Path(bits, top), z, side);
    }
  }

  lemma UntouchedSlot(prg: Prg, q: seq<Block>, bit: nat, cw: Block, path: nat, z: nat, side: nat)
    requires path < 2 * |q| && z < |q| && bit < 2 && side == 1 - bit && path % 2 == bit
    requires q[z] == ZERO_BLOCK
    ensures Correct(prg, q, bit, cw, path)[2 * z + side] == ZERO_BLOCK
  {
    hide Xor, AggMask;
    var j := 2 * z + side;
    assert j / 2 == z && j % 2 == side;
  }

  lemma {:induction false} FirstZeroNode(prg: Prg, root: Block, x: nat, depth: nat, top: nat)
    returns (c: nat, j: nat)
    requires top <= depth && !NoZeroOffPath(prg, root, x, depth, top)
    ensures 1 <= c < top && NoZeroOffPath(prg, root, x, depth, c)
    ensures j < Pow2(c) && j != Shr(x, depth - c) && Node(prg, root, c, j) == ZERO_BLOCK
  {
    hide Node, Shr, Pow2;
    if top > 0 && !NoZeroOffPath(prg, root, x, depth, top - 1) {
      c, j := FirstZeroNode(prg, root, x, depth, top - 1);
    } else {
      c, j :| 1 <= c < top && 0 <= j < Pow2(c) && j != Shr(x, depth - c)
              && Node(prg, root, c, j) == ZERO_BLOCK;
    }
  }

  /** With honest OT outputs and no zero leaf, the receiver obtains the leaves punctured at
      exactly `x` if and only if no inner node off the path to `x` is the zero block. */
  lemma PunctureExact(prg: Prg, root: Block, x: nat, seeds: seq<Block>)
    requires |seeds| >= 1 && x < Pow2(|seeds|) && HonestSeeds(prg, root, x, seeds)
    requires ZERO_BLOCK !in Leaves(prg, root, |seeds|)
    ensures Layer(prg, ChoiceBits(x, |seeds|), seeds, |seeds|)
            == Leaves(prg, root, |seeds|)[x := ZERO_BLOCK]
       <==> NoZeroOffPath(prg, root, x, |seeds|, |seeds|)
  {
    hide Xor, Node, Pow2, Layer, ChoiceBits, SideXor;
    var depth := |seeds|;
    assert Shr(x, 0) == x;
    if NoZeroOffPath(prg, root, x, depth, depth) {
      PunctureSound(prg, root, x, seeds);
    } else {
      var c, j := FirstZeroNode(prg, root, x, depth, depth);
      LayerIsPunctured(prg, root, x, seeds, c);
      ZeroPersists(prg, x, seeds, c, j, depth);
      TrailOffPath(x, depth, c, j, depth);
      var z := Trail(x, depth, c, j, depth);
      assert Leaves(prg, root, depth)[z] in Leaves(prg, root, depth);
    }
  }

  /** If no inner node off the path is zero, the receiver gets every leaf but leaf `x`. */
  lemma PunctureSound(prg: Prg, root: Block, x: nat, seeds: seq<Block>)
    requires |seeds| >= 1 && x < Pow2(|seeds|) && HonestSeeds(prg, root, x, seeds)
    requires NoZeroOffPath(prg, root, x, |seeds|, |seeds|)
    ensures Layer(prg, ChoiceBits(x, |seeds|), seeds, |seeds|)
         == Leaves(prg, root, |seeds|)[x := ZERO_BLOCK]
  {
    hide Xor, Node, Pow2, Layer, ChoiceBits, SideXor;
    assert Shr(x, 0) == x;
    LayerIsPunctured(prg, root, x, seeds, |seeds|);
  }

  // ---------- the generator of the code ----------

  /** DLenPRG (pvfss/src/dlen_prg.cc) over a fixed cipher key: one permutation of blocks, applied
      to the seed with a tweak for the side. */
  function DLenPrg(pi: Block -> Block): Prg {
    (s: Block, side: nat) => pi(Xor(s, Block(if side == 0 then 1 else 2, 0)))
  }

  ghost predicate Injective(pi: Block -> Block) {
    forall s: Block, s': Block :: pi(s) == pi(s') ==> s == s'
  }

  lemma DLenChildren(pi: Block -> Block)
    ensures DLenPrg(pi)(ZERO_BLOCK, 0) == pi(Block(1, 0)) && DLenPrg(pi)(ZERO_BLOCK, 1) == pi(Block(2, 0))
  {
    hide Xor;
    XorZero(Block(1, 0));
    XorZero(Block(2, 0));
  }

  /** The root whose right child is the zero block. */
  lemma LossyRoot(pi: Block -> Block, z: Block)
    requires pi(z) == ZERO_BLOCK
    ensures DLenPrg(pi)(Xor(z, Block(2, 0)), 1) == ZERO_BLOCK
  {
    hide Xor;
    XorCancel(z, Block(2, 0));
  }

  /** What the receiver makes of two zero entries. */
  lemma TwoZeros(prg: Prg, cw: Block)
    ensures Correct(prg, [ZERO_BLOCK, ZERO_BLOCK], 1, cw, 1) == [ZERO_BLOCK, cw, ZERO_BLOCK, cw]
  {
    hide Xor;
    XorZero(cw);
    var q := [ZERO_BLOCK, ZERO_BLOCK];
    assert AggMask(prg, q, 1, 2) == AggMask(prg, q, 1, 1) == AggMask(prg, q, 1, 0) == ZERO_BLOCK;
    assert Slots(prg, q, 1, cw, 2) == [ZERO_BLOCK, cw, ZERO_BLOCK, cw];
  }

  /** The receiver of index 0 in a tree of depth 2 whose right inner node is the zero block. */
  lemma LossyLayers(prg: Prg, root: Block, seeds: seq<Block>)
    requires |seeds| == 2 && HonestSeeds(prg, root, 0, seeds) && prg(root, 1) == ZERO_BLOCK
    ensures Layer(prg, ChoiceBits(0, 2), seeds, 2) == [ZERO_BLOCK, seeds[1], ZERO_BLOCK, seeds[1]]
    ensures seeds[1] == Xor(prg(prg(root, 0), 1), prg(ZERO_BLOCK, 1))
  {
    hide Xor, Correct;
    assert Shr(0, 1) == 0 && Shr(0, 0) == 0;
    var bits := ChoiceBits(0, 2);
    assert bits == [1, 1];
    assert Pow2(0) == 1 && Pow2(1) == 2;
    FirstSeed(prg, root, 1);
    assert seeds[0] == ZERO_BLOCK;
    TwoZeros(prg, seeds[1]);
    assert Path(bits, 1) == 1 && Path(bits, 2) == 1;
    LayerStep(prg, bits, seeds, 1);
    NodeOne(prg, root);
    assert SideXor(prg, root, 1, 1, 2) == Xor(SideXor(prg, root, 1, 1, 1), prg(Node(prg, root, 1, 1), 1));
    assert SideXor(prg, root, 1, 1, 1) == Xor(SideXor(prg, root, 1, 1, 0), prg(Node(prg, root, 1, 0), 1));
    XorZero(prg(Node(prg, root, 1, 0), 1));
  }

  lemma LossyLeaves(prg: Prg, root: Block)
    requires prg(root, 1) == ZERO_BLOCK
    ensures |Leaves(prg, root, 2)| == 4
    ensures Leaves(prg, root, 2)[1] == prg(prg(root, 0), 1)
    ensures Leaves(prg, root, 2)[2] == prg(ZERO_BLOCK, 0) && Leaves(prg, root, 2)[3] == prg(ZERO_BLOCK, 1)
  {
    hide Node;
    assert Pow2(2) == 4;
    NodeOne(prg, root);
    NodeStep(prg, root, 2, 1);
    NodeStep(prg, root, 2, 2);
    NodeStep(prg, root, 2, 3);
  }

  /** Whatever the permutation, some root makes an inner node the zero block, and the receiver of
      index 0 then does not get the other leaves. */
  lemma ZeroNodeBreaksExpansion(pi: Block -> Block, z: Block, seeds: seq<Block>)
    requires Injective(pi) && pi(z) == ZERO_BLOCK
    requires |seeds| == 2 && HonestSeeds(DLenPrg(pi), Xor(z, Block(2, 0)), 0, seeds)
    ensures Layer(DLenPrg(pi), ChoiceBits(0, 2), seeds, 2)
         != Leaves(DLenPrg(pi), Xor(z, Block(2, 0)), 2)[0 := ZERO_BLOCK]
  {
    hide Xor, Layer, Leaves, DLenPrg, ChoiceBits, HonestSeeds;
    var prg, root := DLenPrg(pi), Xor(z, Block(2, 0));
    LossyRoot(pi, z);
    DLenChildren(pi);
    LossyLayers(prg, root, seeds);
    LossyLeaves(prg, root);
    var got, want := Layer(prg, ChoiceBits(0, 2), seeds, 2), Leaves(prg, root, 2)[0 := ZERO_BLOCK];
    if got == want {
      assert got[1] == want[1] && got[2] == want[2] && got[3] == want[3];
      XorSelf(seeds[1]);
    }
  }

  // ---------- both parties together ----------

  /** Ideal oblivious transfer: for each choice bit the receiver learns that string alone. */
  function IdealOt(str0: seq<Block>, str1: seq<Block>, choice: seq<nat>): (r: seq<Block>)
    requires |str0| == |str1| == |choice|
    ensures |r| == |choice|
  {
    seq(|choice|, i requires 0 <= i < |choice| => if choice[i] == 0 then str0[i] else str1[i])
  }

  /** What the receiver of index `x` gets out of the transfer: for each level the exclusive or of its
      nodes on the side off the path. */
  ghost function TransferredSeeds(prg: Prg, root: Block, x: nat, depth: nat): (seeds: seq<Block>)
    ensures |seeds| == depth
  {
    seq(depth, i requires 0 <= i < depth => SideXor(prg, root, i, ChoiceBits(x, depth)[i], Pow2(i)))
  }

  /** What it makes of them. */
  ghost function Received(prg: Prg, root: Block, x: nat, depth: nat): (v: seq<Block>)
    requires depth >= 1
    ensures |v| == Pow2(depth)
  {
    Layer(prg, ChoiceBits(x, depth), TransferredSeeds(prg, root, x, depth), depth)
  }

  /** OblivSetup and Expand of both parties for a vector of 2^depth blocks: the sender ends
      with all leaves below its `root`, the receiver with what it makes of the transfer, which is
      all but leaf `x` if no node off the path is the zero block. */
  method PuncturedVector(prg: Prg, depth: nat, root: Block, x: nat)
    returns (full: array<Block>, punctured: array<Block>)
    requires depth >= 1 && x < Pow2(depth)
    ensures fresh(full) && fresh(punctured) && full != punctured
    ensures full[..] == Leaves(prg, root, depth) && punctured.Length == Pow2(depth)
    ensures punctured[..] == Received(prg, root, x, depth)
    ensures NoZeroOffPath(prg, root, x, depth, depth) ==> punctured[..] == full[..][x := ZERO_BLOCK]
    ensures ZERO_BLOCK !in full[..] && punctured[..] == full[..][x := ZERO_BLOCK] ==>
      NoZeroOffPath(prg, root, x, depth, depth)
  {
    hide Xor, Node, Pow2, Layer, SideXor;
    var str0 := new Block[depth](_ => ZERO_BLOCK);
    var str1 := new Block[depth](_ => ZERO_BLOCK);
    PrepareCorrelation(prg, 0, depth, root, str0, str1);
    var choice := ParseChoiceBits(depth, x);
    var seeds := IdealOt(str0[..], str1[..], choice[..]);
    forall i | 0 <= i < depth
      ensures seeds[i] == SideXor(prg, root, i, ChoiceBits(x, depth)[i], Pow2(i))
    {
      XorZero(SideXor(prg, root, i, 0, Pow2(i)));
      XorZero(SideXor(prg, root, i, 1, Pow2(i)));
    }
    assert seeds == TransferredSeeds(prg, root, x, depth);
    full := new Block[Pow2(depth)](_ => ZERO_BLOCK);
    SimpleExpand(prg, 0, depth, 0, root, full);
    assert full[..] == Leaves(prg, root, depth);
    punctured := new Block[Pow2(depth)](_ => ZERO_BLOCK);
    PunctureExpand(prg, depth, x, seeds, punctured);
    if NoZeroOffPath(prg, root, x, depth, depth) {
      PunctureSound(prg, root, x, seeds);
    } else if ZERO_BLOCK !in full[..] {
      PunctureExact(prg, root, x, seeds);
    }
  }
}
