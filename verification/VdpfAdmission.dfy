/** Admission with the verifiable point functions behind it (pvfss/src/dpf.cc, VerEval): what
    honest key shares, and what any key shares, lead to. */
module VdpfAdmission {
  import opened Bits
  import opened Fips180
  import opened Admission
  import opened KeyLayout
  import Dpf
  import Vdpf
  import Field61

  function BitOf(party: nat): Dpf.Bit {
    if party == 0 then 0 else 1
  }

  function Shares(prg: Dpf.Prg, b: Dpf.Bit, k: Vdpf.Key, inputs: seq<nat>): (shares: seq<nat>)
    ensures |shares| == |inputs|
    ensures forall l :: 0 <= l < |inputs| ==> shares[l] == Vdpf.Eval(prg, b, k, inputs[l])
  {
    seq(|inputs|, l requires 0 <= l < |inputs| => Vdpf.Eval(prg, b, k, inputs[l]))
  }

  /** The proof of party `b`: the digest of the final running value. */
  function ProofOf(prg: Dpf.Prg, h: Vdpf.Hash2, h': Vdpf.Hash4, b: Dpf.Bit, k: Vdpf.Key, inputs: seq<nat>): seq<Byte> {
    HashOf(QuadBytes(Vdpf.Proof(prg, h, h', b, k, inputs, |inputs|)))
  }

  /** VerEval of dpf.cc for a domain of `size` bits: key shares of the expected size are parsed
      and evaluated, all others refused. */
  function VdpfEvaluator(prg: Dpf.Prg, h: Vdpf.Hash2, h': Vdpf.Hash4, size: nat): Evaluator {
    Evaluator(
      (key: seq<Byte>) => |key| == KeySize(size),
      (party: nat, key: seq<Byte>, inputs: seq<nat>) =>
        if |key| != KeySize(size) then Evaluation([], [])
        else Evaluation(Shares(prg, BitOf(party), ParseKey(key, size), inputs),
                        ProofOf(prg, h, h', BitOf(party), ParseKey(key, size), inputs)))
  }

  /** What a key generation that was kept puts into the two key shares. */
  ghost predicate HonestKeys(prg: Dpf.Prg, h: Vdpf.Hash2, size: nat, index: nat, beta: nat, k0: Vdpf.Key,
                             k1: Vdpf.Key) {
    exists n: nat, r0: nat, r1: nat ::
      && Vdpf.Accepted(prg, size, index, r0, r1) && r0 < Pow2(128) && r1 < Pow2(128)
      && (k0, k1) == Vdpf.KeyPair(prg, h, n, size, index, beta, r0, r1)
  }

  /** The two ways the proof hashes are read: as functions of their inputs, as the design has
      them, or in counter mode from fresh contexts, as the code runs them. */
  ghost predicate HashModel(h: Vdpf.Hash2, h': Vdpf.Hash4) {
    Vdpf.Stateless(h) || exists ks: nat -> nat, ks': nat -> nat :: h == Vdpf.CtrHash2(ks) && h' == Vdpf.CtrHash4(ks')
  }

  /** Honest key shares are of the expected size, parse back to the keys, and carry one hash
      correction. */
  lemma HonestBytes(prg: Dpf.Prg, h: Vdpf.Hash2, size: nat, index: nat, beta: nat, k0: Vdpf.Key, k1: Vdpf.Key)
    requires Blocks16(prg, h) && HonestKeys(prg, h, size, index, beta, k0, k1)
    ensures |KeyBytes(0, k0)| == |KeyBytes(1, k1)| == KeySize(size)
    ensures ParseKey(KeyBytes(0, k0), size) == k0 && ParseKey(KeyBytes(1, k1), size) == k1
    ensures k0.cs == k1.cs
  {
    hide KeyBytes, ParseKey, InRange, Blocks16, Pow2, Vdpf.KeyPair, Vdpf.Accepted;
    var n: nat, r0: nat, r1: nat :|
      && Vdpf.Accepted(prg, size, index, r0, r1) && r0 < Pow2(128) && r1 < Pow2(128)
      && (k0, k1) == Vdpf.KeyPair(prg, h, n, size, index, beta, r0, r1);
    KeyPairInRange(prg, h, n, size, index, beta, r0, r1);
    KeyRoundTrip(0, k0);
    KeyRoundTrip(1, k1);
  }

  /** Two lists of outputs add up to `beta` at `index` and to zero elsewhere. */
  ghost predicate SharePoint(out0: seq<nat>, out1: seq<nat>, inputs: seq<nat>, index: nat, beta: nat) {
    && |out0| == |out1| == |inputs|
    && forall l :: 0 <= l < |inputs| ==>
      && out0[l] < Field61.P && out1[l] < Field61.P
      && Field61.FAdd(out0[l], out1[l]) == if inputs[l] == index then Field61.Reduce(beta) else 0
  }

  /** Under both readings of the hashes, honest key shares give equal proofs, and outputs
      that add up to the point function. */
  lemma HonestEvaluations(prg: Dpf.Prg, h: Vdpf.Hash2, h': Vdpf.Hash4, size: nat, index: nat, beta: nat,
                          k0: Vdpf.Key, k1: Vdpf.Key, inputs: seq<nat>)
    requires HashModel(h, h') && index < Pow2(size) && forall l :: 0 <= l < |inputs| ==> inputs[l] < Pow2(size)
    requires HonestKeys(prg, h, size, index, beta, k0, k1) && k0.cs == k1.cs
    ensures Vdpf.Proof(prg, h, h', 0, k0, inputs, |inputs|) == Vdpf.Proof(prg, h, h', 1, k1, inputs, |inputs|)
    ensures SharePoint(Shares(prg, 0, k0, inputs), Shares(prg, 1, k1, inputs), inputs, index, beta)
  {
    hide Vdpf.Eval, Vdpf.Proof, Vdpf.KeyPair, Vdpf.Accepted, Vdpf.Stateless, Vdpf.CtrHash2, Vdpf.CtrHash4,
         Field61.FAdd, Field61.Reduce, Pow2;
    var n: nat, r0: nat, r1: nat :|
      && Vdpf.Accepted(prg, size, index, r0, r1) && r0 < Pow2(128) && r1 < Pow2(128)
      && (k0, k1) == Vdpf.KeyPair(prg, h, n, size, index, beta, r0, r1);
    if Vdpf.Stateless(h) {
      Vdpf.ProofsAgree(prg, h, h', n, size, index, beta, r0, r1, inputs, |inputs|);
    } else {
      var ks: nat -> nat, ks': nat -> nat :| h == Vdpf.CtrHash2(ks) && h' == Vdpf.CtrHash4(ks');
      Vdpf.CounterProofsAgree(prg, ks, ks', 0, k0, 1, k1, inputs, inputs, |inputs|);
    }
    forall l | 0 <= l < |inputs|
      ensures Field61.FAdd(Vdpf.Eval(prg, 0, k0, inputs[l]), Vdpf.Eval(prg, 1, k1, inputs[l]))
           == if inputs[l] == index then Field61.Reduce(beta) else 0
    {
      Vdpf.SharesOfPoint(prg, h, n, size, index, beta, r0, r1, inputs[l]);
      Vdpf.SmallMod(inputs[l], Pow2(size));
      Vdpf.SmallMod(index, Pow2(size));
    }
  }

  /** What the evaluator makes of a key share of the expected size. */
  lemma Evaluates(prg: Dpf.Prg, h: Vdpf.Hash2, h': Vdpf.Hash4, size: nat, party: nat, key: seq<Byte>, inputs: seq<nat>)
    requires |key| == KeySize(size)
    ensures var e := VdpfEvaluator(prg, h, h', size);
      && e.takes(key)
      && e.verEval(party, key, inputs).outputs == Shares(prg, BitOf(party), ParseKey(key, size), inputs)
      && e.verEval(party, key, inputs).proof == ProofOf(prg, h, h', BitOf(party), ParseKey(key, size), inputs)
  {
    hide ProofOf, Shares, ParseKey, KeySize, BitOf;
  }

  /** A submission of two key shares for one id: both servers prepare, exchange messages and
      finalise. It is accepted by both exactly when the two proofs are equal. */
  method Submit(s0: AdmissionServer, s1: AdmissionServer, id: nat, key0: seq<Byte>, key1: seq<Byte>,
                inputs: seq<nat>, ghost prg: Dpf.Prg, ghost h: Vdpf.Hash2, ghost h': Vdpf.Hash4, ghost size: nat)
    returns (d0: Decision, d1: Decision, p0: Prepared, p1: Prepared)
    requires s0 != s1 && s0.party == 0 && s1.party == 1
    requires s0.evaluator == s1.evaluator == VdpfEvaluator(prg, h, h', size)
    requires |key0| == |key1| == KeySize(size)
    requires id !in s0.verifiedKeys && id !in s1.verifiedKeys && inputs != [] && Distinct(inputs)
    modifies s0`verifiedKeys, s1`verifiedKeys
    ensures d0 == d1 == if ProofOf(prg, h, h', 0, ParseKey(key0, size), inputs)
                           == ProofOf(prg, h, h', 1, ParseKey(key1, size), inputs) then Accept else RejectProofMismatch
    ensures d0 == Accept ==>
      s0.verifiedKeys == old(s0.verifiedKeys)[id := key0] && s1.verifiedKeys == old(s1.verifiedKeys)[id := key1]
    ensures d0 != Accept ==> s0.verifiedKeys == old(s0.verifiedKeys) && s1.verifiedKeys == old(s1.verifiedKeys)
    ensures p0.record.outputs == Shares(prg, 0, ParseKey(key0, size), inputs)
    ensures p1.record.outputs == Shares(prg, 1, ParseKey(key1, size), inputs)
  {
    hide ProofOf, Shares, ParseKey, VdpfEvaluator, KeySize, Distinct;
    Evaluates(prg, h, h', size, 0, key0, inputs);
    Evaluates(prg, h, h', size, 1, key1, inputs);
    p0 := s0.Prepare(id, key0, inputs);
    p1 := s1.Prepare(id, key1, inputs);
    d0 := s0.Finalize(p0, MessageOf(p1.record));
    d1 := s1.Finalize(p1, MessageOf(p0.record));
  }

  /** A fresh honest submission is accepted by both servers, which then hold its two key
      shares and outputs that add up to the point function on the registered identifiers. */
  method HonestSubmission(s0: AdmissionServer, s1: AdmissionServer, id: nat, key0: seq<Byte>, key1: seq<Byte>,
                          inputs: seq<nat>, ghost prg: Dpf.Prg, ghost h: Vdpf.Hash2, ghost h': Vdpf.Hash4,
                          ghost size: nat, ghost k0: Vdpf.Key, ghost k1: Vdpf.Key, ghost index: nat, ghost beta: nat)
    returns (d0: Decision, d1: Decision, p0: Prepared, p1: Prepared)
    requires s0 != s1 && s0.party == 0 && s1.party == 1
    requires s0.evaluator == s1.evaluator == VdpfEvaluator(prg, h, h', size)
    requires HashModel(h, h') && Blocks16(prg, h) && index < Pow2(size)
    requires HonestKeys(prg, h, size, index, beta, k0, k1) && key0 == KeyBytes(0, k0) && key1 == KeyBytes(1, k1)
    requires id !in s0.verifiedKeys && id !in s1.verifiedKeys
    requires inputs != [] && Distinct(inputs) && forall l :: 0 <= l < |inputs| ==> inputs[l] < Pow2(size)
    modifies s0`verifiedKeys, s1`verifiedKeys
    ensures d0 == Accept && d1 == Accept
    ensures s0.verifiedKeys == old(s0.verifiedKeys)[id := key0] && s1.verifiedKeys == old(s1.verifiedKeys)[id := key1]
    ensures SharePoint(p0.record.outputs, p1.record.outputs, inputs, index, beta)
  {
    hide Vdpf.Proof, HashModel, HonestKeys, Blocks16, SharePoint, Shares, Pow2, HashOf, QuadBytes, KeyBytes,
         ParseKey, VdpfEvaluator;
    HonestBytes(prg, h, size, index, beta, k0, k1);
    HonestEvaluations(prg, h, h', size, index, beta, k0, k1, inputs);
    d0, d1, p0, p1 := Submit(s0, s1, id, key0, key1, inputs, prg, h, h', size);
  }

  /** What the counter-mode hash makes of admission: any two key shares of the expected size
      with equal hash corrections are accepted for a new id, whatever they evaluate to. In general
      the digests compared are those of the two corrections under one mask. */
  method CounterSubmission(s0: AdmissionServer, s1: AdmissionServer, id: nat, key0: seq<Byte>, key1: seq<Byte>,
                           inputs: seq<nat>, ghost prg: Dpf.Prg, ghost ks: nat -> nat, ghost ks': nat -> nat,
                           ghost size: nat)
    returns (d0: Decision, d1: Decision, p0: Prepared, p1: Prepared)
    requires s0 != s1 && s0.party == 0 && s1.party == 1
    requires s0.evaluator == s1.evaluator == VdpfEvaluator(prg, Vdpf.CtrHash2(ks), Vdpf.CtrHash4(ks'), size)
    requires |key0| == |key1| == KeySize(size)
    requires id !in s0.verifiedKeys && id !in s1.verifiedKeys && inputs != [] && Distinct(inputs)
    modifies s0`verifiedKeys, s1`verifiedKeys
    ensures d0 == d1
    ensures d0 == Accept || d0 == RejectProofMismatch
    ensures d0 == Accept <==>
      HashOf(QuadBytes(Vdpf.XorQuad(ParseKey(key0, size).cs, Vdpf.KeystreamSum(ks', |inputs|))))
      == HashOf(QuadBytes(Vdpf.XorQuad(ParseKey(key1, size).cs, Vdpf.KeystreamSum(ks', |inputs|))))
    ensures ParseKey(key0, size).cs == ParseKey(key1, size).cs ==> d0 == Accept
    ensures d0 == Accept ==>
      s0.verifiedKeys == old(s0.verifiedKeys)[id := key0] && s1.verifiedKeys == old(s1.verifiedKeys)[id := key1]
    ensures p0.record.outputs == Shares(prg, 0, ParseKey(key0, size), inputs)
    ensures p1.record.outputs == Shares(prg, 1, ParseKey(key1, size), inputs)
  {
    hide Vdpf.Proof, Vdpf.CtrHash2, Vdpf.CtrHash4, Vdpf.XorQuad, Vdpf.KeystreamSum, Shares, HashOf, QuadBytes,
         ParseKey, VdpfEvaluator;
    d0, d1, p0, p1 := Submit(s0, s1, id, key0, key1, inputs, prg, Vdpf.CtrHash2(ks), Vdpf.CtrHash4(ks'), size);
    Vdpf.CounterProof(prg, ks, ks', 0, ParseKey(key0, size), inputs, |inputs|);
    Vdpf.CounterProof(prg, ks, ks', 1, ParseKey(key1, size), inputs, |inputs|);
  }

  /** A submission that is accepted although its shares are no point function, for every
      generator, every size, every two roots and all inputs with 0 and 1 among them: the shares of
      neither add up to zero. */
  method FlatSubmission(s0: AdmissionServer, s1: AdmissionServer, id: nat, inputs: seq<nat>,
                        ghost prg: Dpf.Prg, ghost ks: nat -> nat, ghost ks': nat -> nat, ghost size: nat,
                        ghost root0: nat, ghost root1: nat, key0: seq<Byte>, key1: seq<Byte>)
    returns (d0: Decision, d1: Decision, p0: Prepared, p1: Prepared)
    requires s0 != s1 && s0.party == 0 && s1.party == 1 && size >= 1
    requires s0.evaluator == s1.evaluator == VdpfEvaluator(prg, Vdpf.CtrHash2(ks), Vdpf.CtrHash4(ks'), size)
    requires root0 < Pow2(128) && root1 < Pow2(128)
    requires key0 == KeyBytes(0, Vdpf.PlainKey(root0, size))
    requires key1 == KeyBytes(1, Vdpf.FlatKey(prg, root1, size, Vdpf.FlatWord(prg, root0, root1, size)))
    requires id !in s0.verifiedKeys && id !in s1.verifiedKeys
    requires Distinct(inputs) && 0 in inputs && 1 in inputs
    modifies s0`verifiedKeys, s1`verifiedKeys
    ensures d0 == d1 == Accept
    ensures forall index, beta :: !SharePoint(p0.record.outputs, p1.record.outputs, inputs, index, beta)
  {
    hide Vdpf.Eval, VdpfEvaluator, ParseKey, KeyBytes, Field61.FAdd, Field61.Reduce, Vdpf.FlatWord, Pow2,
         Vdpf.CtrHash2, Vdpf.CtrHash4, InRange, Distinct;
    ghost var word := Vdpf.FlatWord(prg, root0, root1, size);
    ghost var k0, k1 := Vdpf.PlainKey(root0, size), Vdpf.FlatKey(prg, root1, size, word);
    Vdpf.FlatWordMissesBoth(prg, root0, root1, size, 0);
    FlatInRange(prg, root0, root1, size, word);
    KeyRoundTrip(0, k0);
    KeyRoundTrip(1, k1);
    d0, d1, p0, p1 := CounterSubmission(s0, s1, id, key0, key1, inputs, prg, ks, ks', size);
    Vdpf.FlatKeysAreNoPoint(prg, root0, root1, size, 0);
    Vdpf.FlatKeysAreNoPoint(prg, root0, root1, size, 1);
    ghost var out0, out1 := p0.record.outputs, p1.record.outputs;
    ghost var i :| 0 <= i < |inputs| && inputs[i] == 0;
    ghost var j :| 0 <= j < |inputs| && inputs[j] == 1;
    assert Field61.FAdd(out0[i], out1[i]) != 0 && Field61.FAdd(out0[j], out1[j]) != 0;
    forall index, beta ensures !SharePoint(out0, out1, inputs, index, beta) {
      assert inputs[i] != index || inputs[j] != index;
    }
  }

  lemma FlatInRange(prg: Dpf.Prg, root0: nat, root1: nat, size: nat, lastCW: nat)
    requires root0 < Pow2(128) && root1 < Pow2(128) && lastCW < 3
    ensures InRange(Vdpf.PlainKey(root0, size)) && InRange(Vdpf.FlatKey(prg, root1, size, lastCW))
  {
    hide Pow2;
    Pow2Mono(2, 64);
    Pow2Mono(2, 128);
    FourIsPow2();
    forall i | 0 <= i < size ensures LevelInRange(Vdpf.FlatKey(prg, root1, size, lastCW).cws[i]) {
      FlatLevel(prg(Vdpf.LeftSeed(prg, root1, i)));
    }
  }

  lemma FlatLevel(e: Dpf.Expansion)
    ensures 0 <= 1 - e.tL < 2 && 0 <= 1 - e.tR < 2
  {
  }

  lemma FourIsPow2()
    ensures Pow2(2) == 4
  {
  }
}
