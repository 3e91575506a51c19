/** Two-party point functions with exclusive-or shares (vdpf/src/dpf.c). */
module XorDpf {
  import opened Bits
  import opened Dpf

  datatype Key = Key(seed: nat, cws: seq<CW>, lastCW: nat)

  /** The two keys for `index` from the two random roots. */
  function KeyPair(prg: Prg, size: nat, index: nat, r0: nat, r1: nat): (Key, Key) {
    var g := Gen(prg, size, index, r0, r1, size);
    var lastCW := BitXor(BitXor(1, g.n0.seed), g.n1.seed);
    (Key(r0, g.cws, lastCW), Key(r1, g.cws, lastCW))
  }

  method GenDPF(prg: Prg, size: nat, index: nat, r0: nat, r1: nat) returns (k0: Key, k1: Key)
    ensures (k0, k1) == KeyPair(prg, size, index, r0, r1)
  {
    var cws, n0, n1 := GenTree(prg, size, index, r0, r1);
    var lastCW := BitXor(BitXor(1, n0.seed), n1.seed);
    k0, k1 := Key(r0, cws, lastCW), Key(r1, cws, lastCW);
  }

  /** The share of party `b` at input `x`. */
  function Eval(prg: Prg, b: Bit, k: Key, x: nat): nat {
    var leaf := Leaf(prg, Node(k.seed, b), k.cws, x);
    if leaf.bit == 1 then BitXor(leaf.seed, k.lastCW) else leaf.seed
  }

  /** The share is the leaf's seed, with the last correction word xored in exactly at leaves whose
      control bit is set. */
  lemma LastWordCorrects(prg: Prg, b: Bit, k: Key, x: nat)
    ensures var leaf := Leaf(prg, Node(k.seed, b), k.cws, x);
      && BitXor(Eval(prg, b, k, x), leaf.seed) == (if leaf.bit == 1 then k.lastCW else 0)
      && Eval(prg, b, k.(lastCW := 0), x) == leaf.seed
  {
    hide BitXor, Leaf;
    var leaf := Leaf(prg, Node(k.seed, b), k.cws, x);
    BitXorComm(BitXor(leaf.seed, k.lastCW), leaf.seed);
    BitXorCancel(leaf.seed, k.lastCW);
    BitXorSelf(leaf.seed);
    NothingXored(leaf.seed);
  }

  lemma NothingXored(x: nat)
    ensures BitXor(x, 0) == x
  {
  }

  method BatchEvalDPF(prg: Prg, size: nat, b: Bit, k: Key, xs: seq<nat>) returns (out: array<nat>)
    requires |k.cws| == size
    ensures out.Length == |xs| && forall l :: 0 <= l < |xs| ==> out[l] == Eval(prg, b, k, xs[l])
  {
    hide BitXor, Leaf;
    var seeds, bits := new nat[size + 1](_ => 0), new nat[size + 1](_ => 0);
    out := new nat[|xs|](_ => 0);
    for l := 0 to |xs|
      invariant forall i :: 0 <= i < l ==> out[i] == Eval(prg, b, k, xs[i])
    {
      seeds[0], bits[0] := k.seed, b;
      EvalPath(prg, size, Node(k.seed, b), k.cws, xs[l], seeds, bits);
      var res := seeds[size];
      if bits[size] == 1 {
        res := BitXor(res, k.lastCW);
      }
      out[l] := res;
    }
  }

  /** The level-order evaluator computes the batch evaluator's share at every input. */
  method FullDomainDPF(prg: Prg, size: nat, b: Bit, k: Key) returns (out: array<nat>)
    requires |k.cws| == size
    ensures out.Length == Pow2(size)
    ensures forall x :: 0 <= x < Pow2(size) ==> out[x] == Eval(prg, b, k, x)
  {
    hide BitXor, Leaf, Pow2;
    var seeds, bits := FullTree(prg, size, Node(k.seed, b), k.cws);
    var numLeaves := Shl(1, size);
    ShlIsMul(1, size);
    out := new nat[numLeaves](_ => 0);
    for i := 0 to numLeaves
      invariant forall x :: 0 <= x < i ==> out[x] == Eval(prg, b, k, x)
      invariant forall x :: i <= x < numLeaves ==>
        Node(seeds[numLeaves - 1 + x], bits[numLeaves - 1 + x]) == Leaf(prg, Node(k.seed, b), k.cws, x)
    {
      var index := seeds.Length - numLeaves + i;
      var res := seeds[index];
      if bits[index] == 1 {
        res := BitXor(res, k.lastCW);
      }
      out[i] := res;
    }
  }

  /** The two shares combine to 1 at the inputs that agree with the index in their low `size`
      bits, and to 0 at all others. */
  lemma SharesOfPoint(prg: Prg, size: nat, index: nat, r0: nat, r1: nat, x: nat)
    ensures var (k0, k1) := KeyPair(prg, size, index, r0, r1);
      BitXor(Eval(prg, 0, k0, x), Eval(prg, 1, k1, x))
      == if x % Pow2(size) == index % Pow2(size) then 1 else 0
  {
    hide BitXor, Pow2, Shr, NodeAt, Gen, OnPath;
    TreeInvariant(prg, size, index, r0, r1, size, x);
    OnPathIff(index, size, size, x);
    ShrZero(index);
    var g := Gen(prg, size, index, r0, r1, size);
    var s0, s1 := g.n0.seed, g.n1.seed;
    if OnPath(index, size, size, x) {
      LastWord(s0, s1);
    } else {
      var leaf := Leaf(prg, Node(r0, 0), g.cws, x);
      BitXorSelf(leaf.seed);
      BitXorSelf(BitXor(leaf.seed, BitXor(BitXor(1, s0), s1)));
    }
  }

  lemma LastWord(s0: nat, s1: nat)
    ensures BitXor(BitXor(s0, BitXor(BitXor(1, s0), s1)), s1) == 1
    ensures BitXor(s0, BitXor(s1, BitXor(BitXor(1, s0), s1))) == 1
  {
    hide BitXor;
    var one: nat := 1;
    BitXorComm(one, s0);
    BitXorAssoc(s0, one, s1);
    BitXorCancel(s0, BitXor(one, s1));
    BitXorCancel(s1, one);
    BitXorComm(s1, BitXor(BitXor(one, s0), s1));
    BitXorCancel(s1, BitXor(one, s0));
    BitXorComm(one, s0);
    BitXorCancel(s0, one);
  }
}
