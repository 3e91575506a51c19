/** Verifiable point functions with additive shares modulo 2^61 - 1 (vdpf/src/vdpf.c, after
    ePrint 2021/580, Figure 1). */
module Vdpf {
  import opened Bits
  import opened Field61
  import opened Dpf

  /** Four 128-bit blocks: a hash output, a proof value or the hash correction `cs`. */
  datatype Quad = Quad(q0: nat, q1: nat, q2: nat, q3: nat)

  function XorQuad(x: Quad, y: Quad): Quad {
    Quad(BitXor(x.q0, y.q0), BitXor(x.q1, y.q1), BitXor(x.q2, y.q2), BitXor(x.q3, y.q3))
  }

  /** H on its n-th call, for an input and a leaf seed. */
  type Hash2 = (nat, nat, nat) -> Quad

  /** H' on its n-th call. */
  type Hash4 = (nat, Quad) -> Quad

  datatype Key = Key(seed: nat, cws: seq<CW>, lastCW: nat, cs: Quad)

  function SeedLsb(seed: nat): Bit {
    (seed / 2) % 2
  }

  function CorrectQuad(raw: Quad, cs: Quad, t: Bit): Quad {
    if t == 0 then raw else XorQuad(raw, cs)
  }

  // ---------- key generation ----------

  /** The keys an attempt with roots r0 and r1 yields; its two hash calls are numbers n and n + 1. */
  function KeyPair(prg: Prg, h: Hash2, n: nat, size: nat, index: nat, beta: nat, r0: nat, r1: nat)
    : (Key, Key)
  {
    var g := Gen(prg, size, index, r0, r1, size);
    var cs := XorQuad(h(n, index, g.n0.seed), h(n + 1, index, g.n1.seed));
    var lastCW := LastWord(g.n0, g.n1, beta);
    (Key(r0, g.cws, lastCW, cs), Key(r1, g.cws, lastCW, cs))
  }

  /** An attempt is kept when the low seed bits of its two on-path leaves differ. */
  predicate Accepted(prg: Prg, size: nat, index: nat, r0: nat, r1: nat) {
    var g := Gen(prg, size, index, r0, r1, size);
    SeedLsb(g.n0.seed) != SeedLsb(g.n1.seed)
  }

  /** The retry loop, on a tape of random blocks: attempt k uses blocks 2k and 2k + 1. `last`
      is an attempt that would be kept; the first such attempt is the one returned. */
  method GenVDPF(prg: Prg, h: Hash2, size: nat, index: nat, beta: nat, tape: nat -> nat, ghost last: nat)
    returns (k0: Key, k1: Key, attempt: nat)
    requires Accepted(prg, size, index, tape(2 * last), tape(2 * last + 1))
    ensures attempt <= last
    ensures Accepted(prg, size, index, tape(2 * attempt), tape(2 * attempt + 1))
    ensures forall k: nat :: k < attempt ==> !Accepted(prg, size, index, tape(2 * k), tape(2 * k + 1))
    ensures (k0, k1)
         == KeyPair(prg, h, 2 * attempt, size, index, beta, tape(2 * attempt), tape(2 * attempt + 1))
  {
    hide BitXor, Gen, Reduce, FAdd, FSub, FNeg, SeedLsb, XorQuad;
    attempt := 0;
    while true
      invariant attempt <= last
      invariant forall k: nat :: k < attempt ==> !Accepted(prg, size, index, tape(2 * k), tape(2 * k + 1))
      decreases last - attempt
    {
      var r0, r1 := tape(2 * attempt), tape(2 * attempt + 1);
      var cws, n0, n1 := GenTree(prg, size, index, r0, r1);
      var pi0, pi1 := h(2 * attempt, index, n0.seed), h(2 * attempt + 1, index, n1.seed);
      var cs := XorQuad(pi0, pi1);
      if SeedLsb(n0.seed) != SeedLsb(n1.seed) {
        var sFinal0, sFinal1 := Reduce(n0.seed), Reduce(n1.seed);
        var baseCW := FAdd(beta, FSub(sFinal1, sFinal0));
        var lastCW := baseCW;
        if n1.bit != 0 {
          lastCW := FNeg(baseCW);
        }
        k0, k1 := Key(r0, cws, lastCW, cs), Key(r1, cws, lastCW, cs);
        return;
      }
      attempt := attempt + 1;
    }
  }

  // ---------- evaluation ----------

  /** What a leaf contributes to the sum of the two parties. */
  function LeafShare(leaf: Node, b: Bit, lastCW: nat): Elem {
    var res := Reduce(leaf.seed);
    var res' := if leaf.bit == 1 then FAdd(res, lastCW) else res;
    if b == 1 then FNeg(res') else res'
  }

  /** The share of party `b` at input `x`. */
  function Eval(prg: Prg, b: Bit, k: Key, x: nat): Elem {
    LeafShare(Leaf(prg, Node(k.seed, b), k.cws, x), b, k.lastCW)
  }

  /** The output code of both evaluators. */
  method OutputShare(seed: nat, bit: nat, b: Bit, lastCW: nat) returns (res: Elem)
    ensures res == LeafShare(Node(seed, bit), b, lastCW)
  {
    hide Reduce, FAdd, FNeg;
    res := Reduce(seed);
    if bit == 1 {
      res := FAdd(res, lastCW);
    }
    if b == 1 {
      res := FNeg(res);
    }
  }

  /** One step of the running proof for an input and the leaf seed reached. */
  function ProofStep(h: Hash2, h': Hash4, n: nat, pi: Quad, cs: Quad, x: nat, seed: nat): Quad {
    var tpi := h(n, x, seed);
    XorQuad(pi, h'(n, XorQuad(pi, CorrectQuad(tpi, cs, SeedLsb(seed)))))
  }

  /** What one step feeds to H': with a constant there, the step xors the constant into the proof;
      with the identity there, it leaves the hash of the input and the leaf, corrected with `cs`
      exactly for leaf seeds whose second lowest bit is set. */
  lemma StepParts(h: Hash2, n: nat, pi: Quad, cs: Quad, x: nat, seed: nat, q: Quad)
    ensures ProofStep(h, (n: nat, u: Quad) => q, n, pi, cs, x, seed) == XorQuad(pi, q)
    ensures ProofStep(h, (n: nat, u: Quad) => u, n, pi, cs, x, seed)
         == if seed % 4 >= 2 then XorQuad(h(n, x, seed), cs) else h(n, x, seed)
  {
    hide XorQuad;
    QuadCancel(pi, CorrectQuad(h(n, x, seed), cs, SeedLsb(seed)));
  }

  /** The proof value of party `b` after the first `m` inputs. */
  function Proof(prg: Prg, h: Hash2, h': Hash4, b: Bit, k: Key, xs: seq<nat>, m: nat): Quad
    requires m <= |xs|
  {
    if m == 0 then k.cs
    else ProofStep(h, h', m - 1, Proof(prg, h, h', b, k, xs, m - 1), k.cs, xs[m - 1],
                   Leaf(prg, Node(k.seed, b), k.cws, xs[m - 1]).seed)
  }

  /** One turn of the outer loop: the share at `x` and the next proof value. */
  method EvalOne(prg: Prg, h: Hash2, h': Hash4, size: nat, b: Bit, k: Key, x: nat, l: nat, pi0: Quad,
                 seeds: array<nat>, bits: array<nat>) returns (share: Elem, pi: Quad)
    requires |k.cws| == size && seeds.Length == bits.Length == size + 1 && seeds != bits
    requires seeds[0] == k.seed && bits[0] == b
    modifies seeds, bits
    ensures seeds[0] == k.seed && bits[0] == b
    ensures share == Eval(prg, b, k, x)
    ensures pi == ProofStep(h, h', l, pi0, k.cs, x, Leaf(prg, Node(k.seed, b), k.cws, x).seed)
  {
    hide Leaf, XorQuad, SeedLsb, LeafShare, CorrectQuad;
    EvalPath(prg, size, Node(k.seed, b), k.cws, x, seeds, bits);
    var bit := SeedLsb(seeds[size]);
    var tpi := h(l, x, seeds[size]);
    var cpi := h'(l, XorQuad(pi0, CorrectQuad(tpi, k.cs, bit)));
    pi := XorQuad(pi0, cpi);
    share := OutputShare(seeds[size], bits[size], b, k.lastCW);
  }

  method BatchEvalVDPF(prg: Prg, h: Hash2, h': Hash4, size: nat, b: Bit, k: Key, xs: seq<nat>)
    returns (out: array<nat>, pi: Quad)
    requires |k.cws| == size
    ensures out.Length == |xs| && forall l :: 0 <= l < |xs| ==> out[l] == Eval(prg, b, k, xs[l])
    ensures pi == Proof(prg, h, h', b, k, xs, |xs|)
  {
    hide *;
    var seeds, bits := new nat[size + 1](_ => 0), new nat[size + 1](_ => 0);
    out := new nat[|xs|](_ => 0);
    seeds[0], bits[0] := k.seed, b;
    pi := k.cs;
    ProofStart(prg, h, h', b, k, xs);
    for l := 0 to |xs|
      invariant seeds[0] == k.seed && bits[0] == b
      invariant forall i :: 0 <= i < l ==> out[i] == Eval(prg, b, k, xs[i])
      invariant pi == Proof(prg, h, h', b, k, xs, l)
    {
      ProofNext(prg, h, h', b, k, xs, l);
      out[l], pi := EvalOne(prg, h, h', size, b, k, xs[l], l, pi, seeds, bits);
    }
  }

  lemma ProofStart(prg: Prg, h: Hash2, h': Hash4, b: Bit, k: Key, xs: seq<nat>)
    ensures Proof(prg, h, h', b, k, xs, 0) == k.cs
  {
  }

  lemma ProofNext(prg: Prg, h: Hash2, h': Hash4, b: Bit, k: Key, xs: seq<nat>, m: nat)
    requires m < |xs|
    ensures Proof(prg, h, h', b, k, xs, m + 1)
         == ProofStep(h, h', m, Proof(prg, h, h', b, k, xs, m), k.cs, xs[m],
                      Leaf(prg, Node(k.seed, b), k.cws, xs[m]).seed)
  {
  }

  /** The level-order evaluator computes the batch evaluator's share at every input. */
  method FullDomainVDPF(prg: Prg, size: nat, b: Bit, k: Key) returns (out: array<nat>)
    requires |k.cws| == size
    ensures out.Length == Pow2(size)
    ensures forall x :: 0 <= x < Pow2(size) ==> out[x] == Eval(prg, b, k, x)
  {
    hide Leaf, Pow2, LeafShare;
    var seeds, bits := FullTree(prg, size, Node(k.seed, b), k.cws);
    var numLeaves := Shl(1, size);
    ShlIsMul(1, size);
    out := new nat[numLeaves](_ => 0);
    for i := 0 to numLeaves
      invariant forall x :: 0 <= x < i ==> out[x] == Eval(prg, b, k, x)
      invariant forall x :: i <= x < numLeaves ==>
        Node(seeds[numLeaves - 1 + x], bits[numLeaves - 1 + x]) == Leaf(prg, Node(k.seed, b), k.cws, x)
    {
      var index := seeds.Length - numLeaves + i;
      out[i] := OutputShare(seeds[index], bits[index], b, k.lastCW);
    }
  }

  // ---------- correctness ----------

  /** The last correction word for two leaves. */
  function LastWord(n0: Node, n1: Node, beta: nat): Elem {
    var baseCW := FAdd(beta, FSub(Reduce(n1.seed), Reduce(n0.seed)));
    if n1.bit == 0 then baseCW else FNeg(baseCW)
  }

  /** What the shares of a pair of leaves add up to: zero for equal leaves, whatever the last
      word, and beta for leaves whose control bits differ, with their last correction word. */
  lemma LeafPairShares(n0: Node, n1: Node, beta: nat, lastCW: nat)
    requires n0.bit < 2 && n1.bit < 2
    ensures n0 == n1 ==> FAdd(LeafShare(n0, 0, lastCW), LeafShare(n1, 1, lastCW)) == 0
    ensures n0.bit != n1.bit ==>
      FAdd(LeafShare(n0, 0, LastWord(n0, n1, beta)), LeafShare(n1, 1, LastWord(n0, n1, beta))) == Reduce(beta)
  {
    hide Reduce, FAdd, FSub, FNeg;
    Opposites(LeafShare(n0, 0, lastCW));
    CorrectedShares(Reduce(n0.seed), Reduce(n1.seed), beta, n1.bit);
  }

  /** The two shares add up to beta modulo 2^61 - 1 at the inputs that agree with the index in
      their low `size` bits, and to 0 at all others. */
  lemma SharesOfPoint(prg: Prg, h: Hash2, n: nat, size: nat, index: nat, beta: nat,
                      r0: nat, r1: nat, x: nat)
    ensures var (k0, k1) := KeyPair(prg, h, n, size, index, beta, r0, r1);
      FAdd(Eval(prg, 0, k0, x), Eval(prg, 1, k1, x))
      == if x % Pow2(size) == index % Pow2(size) then Reduce(beta) else 0
  {
    hide BitXor, Pow2, Shr, NodeAt, Gen, OnPath, Reduce, FAdd, FSub, FNeg, XorQuad, LeafShare;
    TreeInvariant(prg, size, index, r0, r1, size, x);
    OnPathIff(index, size, size, x);
    ShrZero(index);
    var g := Gen(prg, size, index, r0, r1, size);
    var n0, n1 := Leaf(prg, Node(r0, 0), g.cws, x), Leaf(prg, Node(r1, 1), g.cws, x);
    LeafPairShares(n0, n1, beta, LastWord(g.n0, g.n1, beta));
  }

  /** Key generation tells a pair of keys apart by its roots alone, and corrects with what its two
      hash calls, numbers n and n + 1, give for the on-path leaves. */
  lemma KeysOfAttempt(prg: Prg, h: Hash2, n: nat, size: nat, index: nat, beta: nat, r0: nat, r1: nat)
    ensures var (k0, k1) := KeyPair(prg, h, n, size, index, beta, r0, r1);
      && k0.seed == r0 && k1.seed == r1 && k1 == k0.(seed := r1)
      && XorQuad(k0.cs, h(n, index, Gen(prg, size, index, r0, r1, size).n0.seed))
         == h(n + 1, index, Gen(prg, size, index, r0, r1, size).n1.seed)
  {
    hide XorQuad, Gen, Reduce, FAdd, FSub, FNeg;
    var g := Gen(prg, size, index, r0, r1, size);
    var u, v := h(n, index, g.n0.seed), h(n + 1, index, g.n1.seed);
    XorQuadComm(XorQuad(u, v), u);
    QuadCancel(u, v);
  }

  lemma XorQuadComm(x: Quad, y: Quad)
    ensures XorQuad(x, y) == XorQuad(y, x)
  {
    hide BitXor;
    BitXorComm(x.q0, y.q0);
    BitXorComm(x.q1, y.q1);
    BitXorComm(x.q2, y.q2);
    BitXorComm(x.q3, y.q3);
  }

  /** A hash that does not depend on how often it was called before. */
  ghost predicate Stateless(h: Hash2) {
    forall n: nat, n': nat, x: nat, s: nat :: h(n, x, s) == h(n', x, s)
  }

  lemma QuadCancel(x: Quad, y: Quad)
    ensures XorQuad(x, XorQuad(x, y)) == y && XorQuad(y, XorQuad(x, y)) == x
  {
    hide BitXor;
    XorCancelBoth(x.q0, y.q0);
    XorCancelBoth(x.q1, y.q1);
    XorCancelBoth(x.q2, y.q2);
    XorCancelBoth(x.q3, y.q3);
  }

  /** Honest keys of a kept attempt: with H and H' fixed functions of their inputs, the two
      running proofs agree after every input. */
  lemma {:induction false} ProofsAgree(prg: Prg, h: Hash2, h': Hash4, n: nat, size: nat, index: nat,
                                       beta: nat, r0: nat, r1: nat, xs: seq<nat>, m: nat)
    requires Stateless(h) && Accepted(prg, size, index, r0, r1) && index < Pow2(size)
    requires m <= |xs| && forall l :: 0 <= l < |xs| ==> xs[l] < Pow2(size)
    ensures var (k0, k1) := KeyPair(prg, h, n, size, index, beta, r0, r1);
      Proof(prg, h, h', 0, k0, xs, m) == Proof(prg, h, h', 1, k1, xs, m)
  {
    hide BitXor, Pow2, Shr, NodeAt, Gen, OnPath, Reduce, FAdd, FSub, FNeg, XorQuad, SeedLsb;
    if m > 0 {
      ProofsAgree(prg, h, h', n, size, index, beta, r0, r1, xs, m - 1);
      var x := xs[m - 1];
      TreeInvariant(prg, size, index, r0, r1, size, x);
      OnPathIff(index, size, size, x);
      ShrZero(index);
      SmallMod(x, Pow2(size));
      SmallMod(index, Pow2(size));
      var g := Gen(prg, size, index, r0, r1, size);
      if OnPath(index, size, size, x) {
        QuadCancel(h(n, index, g.n0.seed), h(n + 1, index, g.n1.seed));
      }
    }
  }

  /** Why key generation retries: at the special index the corrected hashes of the two parties
      agree exactly when their low seed bits differ or the hashes were equal anyway. */
  lemma CorrectedHashesAgreeIff(t0: Quad, t1: Quad, b0: Bit, b1: Bit)
    ensures CorrectQuad(t0, XorQuad(t0, t1), b0) == CorrectQuad(t1, XorQuad(t0, t1), b1)
       <==> b0 != b1 || t0 == t1
  {
    hide XorQuad;
    QuadCancel(t0, t1);
  }

  lemma SmallMod(x: nat, m: nat)
    requires x < m
    ensures x % m == x
  {
  }

  // ---------- the hash the code actually runs ----------

  /** `blocks` encrypted in counter mode from keystream position `c`. */
  function Ctr(ks: nat -> nat, c: nat, blocks: seq<nat>): (r: seq<nat>)
    ensures |r| == |blocks|
  {
    seq(|blocks|, i requires 0 <= i < |blocks| => BitXor(blocks[i], ks(c + i)))
  }

  /** mmoHash2to4 on a cipher context whose keystream stands at position `c`. */
  function MmoHash2to4(ks: nat -> nat, c: nat, in0: nat, in1: nat): Quad {
    var first := Ctr(ks, c, [in0, in1]);
    var o0, o1 := BitXor(first[0], in0), BitXor(first[1], in1);
    var second := Ctr(ks, c + 2, [o0, o1]);
    Quad(o0, o1, BitXor(second[0], o0), BitXor(second[1], o1))
  }

  function MmoHash4to4(ks: nat -> nat, c: nat, x: Quad): Quad {
    var e := Ctr(ks, c, [x.q0, x.q1, x.q2, x.q3]);
    Quad(BitXor(e[0], x.q0), BitXor(e[1], x.q1), BitXor(e[2], x.q2), BitXor(e[3], x.q3))
  }

  lemma CtrCancels(block: nat, k: nat)
    ensures BitXor(BitXor(block, k), block) == k
  {
    hide BitXor;
    BitXorComm(block, k);
    BitXorCancel(block, k);
  }

  /** In counter mode, xoring the input back leaves the keystream alone: both hashes return
      the next four keystream blocks, whatever they are given. */
  lemma MmoHashIsKeystream(ks: nat -> nat, c: nat, in0: nat, in1: nat, x: Quad)
    ensures MmoHash2to4(ks, c, in0, in1) == Quad(ks(c), ks(c + 1), ks(c + 2), ks(c + 3))
    ensures MmoHash4to4(ks, c, x) == Quad(ks(c), ks(c + 1), ks(c + 2), ks(c + 3))
  {
    hide BitXor;
    CtrCancels(in0, ks(c));
    CtrCancels(in1, ks(c + 1));
    CtrCancels(ks(c), ks(c + 2));
    CtrCancels(ks(c + 1), ks(c + 3));
    CtrCancels(x.q0, ks(c));
    CtrCancels(x.q1, ks(c + 1));
    CtrCancels(x.q2, ks(c + 2));
    CtrCancels(x.q3, ks(c + 3));
  }

  /** H and H' as the evaluators run them: four keystream blocks per call, from position 0. */
  function CtrHash2(ks: nat -> nat): Hash2 {
    (n: nat, x: nat, s: nat) => MmoHash2to4(ks, 4 * n, x, s)
  }

  function CtrHash4(ks: nat -> nat): Hash4 {
    (n: nat, x: Quad) => MmoHash4to4(ks, 4 * n, x)
  }

  /** The four keystream blocks that call number `n` returns. */
  function Keystream(ks: nat -> nat, n: nat): Quad {
    Quad(ks(4 * n), ks(4 * n + 1), ks(4 * n + 2), ks(4 * n + 3))
  }

  /** Call number `n` of either hash returns keystream blocks 4n to 4n + 3, whatever it is given. */
  lemma CallsAreKeystream(ks: nat -> nat, n: nat, x: nat, s: nat, q: Quad)
    ensures CtrHash2(ks)(n, x, s) == Keystream(ks, n) && CtrHash4(ks)(n, q) == Keystream(ks, n)
  {
    hide MmoHash2to4, MmoHash4to4;
    MmoHashIsKeystream(ks, 4 * n, x, s, q);
  }

  /** With these hashes a step of the running proof xors the next keystream blocks into it,
      whatever the input and the leaf. */
  lemma StepIsKeystream(ks: nat -> nat, ks': nat -> nat, n: nat, pi: Quad, cs: Quad, x: nat, seed: nat)
    ensures ProofStep(CtrHash2(ks), CtrHash4(ks'), n, pi, cs, x, seed) == XorQuad(pi, Keystream(ks', n))
  {
    hide XorQuad, CtrHash2, CtrHash4, CorrectQuad, SeedLsb;
    var u := XorQuad(pi, CorrectQuad(CtrHash2(ks)(n, x, seed), cs, SeedLsb(seed)));
    CallsAreKeystream(ks', n, 0, 0, u);
  }

  /** What the first `m` calls of H' return, xored together. */
  function KeystreamSum(ks: nat -> nat, m: nat): Quad {
    if m == 0 then Quad(0, 0, 0, 0) else XorQuad(KeystreamSum(ks, m - 1), Keystream(ks, m - 1))
  }

  /** With these hashes a running proof is the key's `cs` under a mask that depends on the number
      of inputs alone. */
  lemma {:induction false} CounterProof(prg: Prg, ks: nat -> nat, ks': nat -> nat, b: Bit, k: Key, xs: seq<nat>, m: nat)
    requires m <= |xs|
    ensures Proof(prg, CtrHash2(ks), CtrHash4(ks'), b, k, xs, m) == XorQuad(k.cs, KeystreamSum(ks', m))
  {
    hide BitXor, Leaf, XorQuad, ProofStep, CtrHash2, CtrHash4, Keystream;
    if m == 0 {
      XorQuadZero(k.cs);
    } else {
      CounterProof(prg, ks, ks', b, k, xs, m - 1);
      var pi := Proof(prg, CtrHash2(ks), CtrHash4(ks'), b, k, xs, m - 1);
      StepIsKeystream(ks, ks', m - 1, pi, k.cs, xs[m - 1], Leaf(prg, Node(k.seed, b), k.cws, xs[m - 1]).seed);
      XorQuadAssoc(k.cs, KeystreamSum(ks', m - 1), Keystream(ks', m - 1));
    }
  }

  lemma XorQuadZero(x: Quad)
    ensures XorQuad(x, Quad(0, 0, 0, 0)) == x
  {
    hide BitXor;
    XorZeroRight(x.q0);
    XorZeroRight(x.q1);
    XorZeroRight(x.q2);
    XorZeroRight(x.q3);
  }

  lemma XorQuadAssoc(x: Quad, y: Quad, z: Quad)
    ensures XorQuad(XorQuad(x, y), z) == XorQuad(x, XorQuad(y, z))
  {
    hide BitXor;
    BitXorAssoc(x.q0, y.q0, z.q0);
    BitXorAssoc(x.q1, y.q1, z.q1);
    BitXorAssoc(x.q2, y.q2, z.q2);
    BitXorAssoc(x.q3, y.q3, z.q3);
  }

  lemma XorQuadInjective(x: Quad, y: Quad, z: Quad)
    requires XorQuad(x, z) == XorQuad(y, z)
    ensures x == y
  {
    hide XorQuad;
    QuadCancel(x, z);
    QuadCancel(y, z);
  }

  /** With these hashes two running proofs over equally many inputs agree if and only if the
      keys carry the same `cs`: inputs, seeds and correction words play no part. */
  lemma {:induction false} CounterProofsAgree(prg: Prg, ks: nat -> nat, ks': nat -> nat,
      b: Bit, k: Key, b': Bit, k': Key, xs: seq<nat>, xs': seq<nat>, m: nat)
    requires m <= |xs| && m <= |xs'|
    ensures Proof(prg, CtrHash2(ks), CtrHash4(ks'), b, k, xs, m)
         == Proof(prg, CtrHash2(ks), CtrHash4(ks'), b', k', xs', m)
       <==> k.cs == k'.cs
  {
    hide BitXor, Leaf, XorQuad, ProofStep, CtrHash2, CtrHash4, Keystream;
    if m > 0 {
      CounterProofsAgree(prg, ks, ks', b, k, b', k', xs, xs', m - 1);
      var h, h' := CtrHash2(ks), CtrHash4(ks');
      var pi, pi' := Proof(prg, h, h', b, k, xs, m - 1), Proof(prg, h, h', b', k', xs', m - 1);
      StepIsKeystream(ks, ks', m - 1, pi, k.cs, xs[m - 1], Leaf(prg, Node(k.seed, b), k.cws, xs[m - 1]).seed);
      StepIsKeystream(ks, ks', m - 1, pi', k'.cs, xs'[m - 1],
                      Leaf(prg, Node(k'.seed, b'), k'.cws, xs'[m - 1]).seed);
      if XorQuad(pi, Keystream(ks', m - 1)) == XorQuad(pi', Keystream(ks', m - 1)) {
        XorQuadInjective(pi, pi', Keystream(ks', m - 1));
      }
    }
  }

  // ---------- keys with equal `cs` that are no point function ----------

  /** The seed after `i` left turns from `seed`. */
  function LeftSeed(prg: Prg, seed: nat, i: nat): nat {
    if i == 0 then seed else prg(LeftSeed(prg, seed, i - 1)).sL
  }

  /** The seed of input `x`, 0 or 1, in a tree of `size` levels whose seeds are not corrected. */
  function FlatSeed(prg: Prg, seed: nat, size: nat, x: nat): nat
    requires size >= 1
  {
    var e := prg(LeftSeed(prg, seed, size - 1));
    if x == 0 then e.sL else e.sR
  }

  /** A key that corrects nothing. */
  function PlainKey(seed: nat, size: nat): Key {
    Key(seed, seq(size, i => CW(0, 0, 0)), 0, Quad(0, 0, 0, 0))
  }

  /** A key that keeps the control bit set along the leftmost path and at its last two leaves. */
  function FlatKey(prg: Prg, seed: nat, size: nat, lastCW: nat): Key {
    Key(seed, seq(size, i requires 0 <= i < size =>
          var e := prg(LeftSeed(prg, seed, i));
          CW(0, 1 - e.tL, 1 - e.tR)),
        lastCW, Quad(0, 0, 0, 0))
  }

  lemma {:induction false} PlainPath(prg: Prg, seed: nat, size: nat, i: nat)
    requires i <= size
    ensures NodeAt(prg, Node(seed, 0), PlainKey(seed, size).cws, i, 0).seed == LeftSeed(prg, seed, i)
  {
    hide BitXor;
    if i > 0 {
      PlainPath(prg, seed, size, i - 1);
      XorZeroRight(prg(LeftSeed(prg, seed, i - 1)).sL);
    }
  }

  lemma {:induction false} FlatPath(prg: Prg, seed: nat, size: nat, lastCW: nat, i: nat)
    requires i <= size
    ensures NodeAt(prg, Node(seed, 1), FlatKey(prg, seed, size, lastCW).cws, i, 0) == Node(LeftSeed(prg, seed, i), 1)
  {
    hide BitXor;
    if i > 0 {
      FlatPath(prg, seed, size, lastCW, i - 1);
      var e := prg(LeftSeed(prg, seed, i - 1));
      XorZeroRight(e.sL);
      FlippedBit(e.tL);
    }
  }

  lemma PlainLeaf(prg: Prg, seed: nat, size: nat, x: nat)
    requires size >= 1 && x < 2
    ensures Leaf(prg, Node(seed, 0), PlainKey(seed, size).cws, x).seed == FlatSeed(prg, seed, size, x)
  {
    hide BitXor, LeftSeed;
    PlainPath(prg, seed, size, size - 1);
    var e := prg(LeftSeed(prg, seed, size - 1));
    XorZeroRight(if x == 0 then e.sL else e.sR);
  }

  lemma FlatLeaf(prg: Prg, seed: nat, size: nat, lastCW: nat, x: nat)
    requires size >= 1 && x < 2
    ensures Leaf(prg, Node(seed, 1), FlatKey(prg, seed, size, lastCW).cws, x) == Node(FlatSeed(prg, seed, size, x), 1)
  {
    hide BitXor, LeftSeed;
    FlatPath(prg, seed, size, lastCW, size - 1);
    var e := prg(LeftSeed(prg, seed, size - 1));
    XorZeroRight(if x == 0 then e.sL else e.sR);
    FlippedBit(e.tL);
    FlippedBit(e.tR);
  }

  /** The shares of inputs 0 and 1 under the two keys. */
  lemma FlatShares(prg: Prg, s0: nat, s1: nat, size: nat, lastCW: nat, x: nat)
    requires size >= 1 && x < 2
    ensures Eval(prg, 0, PlainKey(s0, size), x) == Reduce(FlatSeed(prg, s0, size, x))
    ensures Eval(prg, 1, FlatKey(prg, s1, size, lastCW), x)
         == FNeg(FAdd(Reduce(FlatSeed(prg, s1, size, x)), lastCW))
  {
    hide Leaf, FlatSeed, FNeg, FAdd, Reduce;
    PlainLeaf(prg, s0, size, x);
    FlatLeaf(prg, s1, size, lastCW, x);
    AddNothing(FlatSeed(prg, s0, size, x));
  }

  /** Whether the two shares of input `x` then add up to zero. */
  predicate Meets(prg: Prg, s0: nat, s1: nat, size: nat, lastCW: nat, x: nat)
    requires size >= 1
  {
    Reduce(FlatSeed(prg, s0, size, x)) == FAdd(Reduce(FlatSeed(prg, s1, size, x)), lastCW)
  }

  /** A last word under which neither input's shares add up to zero; one of three always does. */
  function FlatWord(prg: Prg, s0: nat, s1: nat, size: nat): nat
    requires size >= 1
  {
    if !Meets(prg, s0, s1, size, 0, 0) && !Meets(prg, s0, s1, size, 0, 1) then 0
    else if !Meets(prg, s0, s1, size, 1, 0) && !Meets(prg, s0, s1, size, 1, 1) then 1
    else 2
  }

  lemma FlatWordMissesBoth(prg: Prg, s0: nat, s1: nat, size: nat, x: nat)
    requires size >= 1 && x < 2
    ensures FlatWord(prg, s0, s1, size) < 3 && !Meets(prg, s0, s1, size, FlatWord(prg, s0, s1, size), x)
  {
    hide FlatSeed, Reduce;
    SmallSteps(Reduce(FlatSeed(prg, s1, size, 0)));
    SmallSteps(Reduce(FlatSeed(prg, s1, size, 1)));
  }

  lemma SmallSteps(a: Elem)
    ensures FAdd(a, 0) != FAdd(a, 1) && FAdd(a, 0) != FAdd(a, 2) && FAdd(a, 1) != FAdd(a, 2)
  {
  }

  /** For every generator, every size and every two roots there are two keys with equal `cs`
      whose shares add up to zero neither at input 0 nor at input 1: no point function. */
  lemma FlatKeysAreNoPoint(prg: Prg, s0: nat, s1: nat, size: nat, x: nat)
    requires size >= 1 && x < 2
    ensures var k0, k1 := PlainKey(s0, size), FlatKey(prg, s1, size, FlatWord(prg, s0, s1, size));
      k0.cs == k1.cs && FAdd(Eval(prg, 0, k0, x), Eval(prg, 1, k1, x)) != 0
  {
    hide FlatSeed, Eval, FlatWord, Reduce, FAdd, FNeg;
    var lastCW := FlatWord(prg, s0, s1, size);
    FlatShares(prg, s0, s1, size, lastCW, x);
    FlatWordMissesBoth(prg, s0, s1, size, x);
    OnlyOpposites(Reduce(FlatSeed(prg, s0, size, x)), FAdd(Reduce(FlatSeed(prg, s1, size, x)), lastCW));
  }

  lemma OnlyOpposites(a: Elem, b: Elem)
    ensures FAdd(a, FNeg(b)) == 0 ==> a == b
  {
    SumIs(a, FNeg(b));
  }

  lemma AddNothing(seed: nat)
    ensures FAdd(Reduce(seed), 0) == Reduce(seed)
  {
  }

  lemma FlippedBit(t: Bit)
    ensures BitXor(t, 1 - t) == 1
  {
  }

  lemma XorZeroRight(x: nat)
    ensures BitXor(x, 0) == x
  {
  }
}
