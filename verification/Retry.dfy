/** When the retry loop of key generation (vdpf/src/vdpf.c, genVDPF) keeps an attempt. */
module Retry {
  import opened Bits
  import opened Dpf
  import opened Vdpf

  /** seed_lsb reads the second lowest bit. */
  lemma SeedLsbIs(s: nat)
    ensures s % 4 == 2 * SeedLsb(s) + s % 2
  {
  }

  lemma SeedLsbOfXor(x: nat, y: nat)
    ensures SeedLsb(BitXor(x, y)) == if SeedLsb(x) == SeedLsb(y) then 0 else 1
  {
    hide BitXor;
    BitXorUnfold(x, y);
    BitXorUnfold(x / 2, y / 2);
  }

  /** An attempt is kept exactly when the second lowest bits of its two on-path leaf seeds differ. */
  lemma AcceptedIff(prg: Prg, size: nat, index: nat, r0: nat, r1: nat)
    ensures var g := Gen(prg, size, index, r0, r1, size);
      Accepted(prg, size, index, r0, r1) <==> (g.n0.seed % 4 >= 2) != (g.n1.seed % 4 >= 2)
  {
    hide Gen, SeedLsb;
    var g := Gen(prg, size, index, r0, r1, size);
    SeedLsbIs(g.n0.seed);
    SeedLsbIs(g.n1.seed);
  }

  /** The generator gives a seed two children whose second lowest bits differ. */
  predicate ChildrenDiffer(prg: Prg, s: nat) {
    SeedLsb(prg(s).sL) != SeedLsb(prg(s).sR)
  }

  /** Below two nodes with different control bits the kept children differ in that bit exactly
      when one of the two seeds, and not the other, has children that do: which child is kept
      plays no part. */
  lemma KeptChildrenDiffer(prg: Prg, n0: Node, n1: Node, indexBit: Bit)
    requires n0.bit < 2 && n1.bit < 2 && n0.bit != n1.bit
    ensures var cw := CorrectionWord(prg, n0, n1, indexBit);
      SeedLsb(Child(prg, n0, cw, indexBit).seed) != SeedLsb(Child(prg, n1, cw, indexBit).seed)
      <==> ChildrenDiffer(prg, n0.seed) != ChildrenDiffer(prg, n1.seed)
  {
    hide BitXor, SeedLsb;
    var e0, e1 := prg(n0.seed), prg(n1.seed);
    SeedLsbOfXor(e0.sL, e1.sL);
    SeedLsbOfXor(e0.sR, e1.sR);
    SeedLsbOfXor(e0.sL, BitXor(e0.sR, e1.sR));
    SeedLsbOfXor(e1.sL, BitXor(e0.sR, e1.sR));
    SeedLsbOfXor(e0.sR, BitXor(e0.sL, e1.sL));
    SeedLsbOfXor(e1.sR, BitXor(e0.sL, e1.sL));
  }

  lemma OnPathBits(prg: Prg, size: nat, index: nat, r0: nat, r1: nat, i: nat)
    requires i <= size
    ensures var g := Gen(prg, size, index, r0, r1, i);
      g.n0.bit < 2 && g.n1.bit < 2 && g.n0.bit != g.n1.bit
  {
    hide Gen, NodeAt, OnPath, GetBit;
    OnPathPrefix(index, size, i);
    TreeInvariant(prg, size, index, r0, r1, i, Shr(index, size - i));
  }

  lemma OnPathPrefix(index: nat, size: nat, i: nat)
    requires i <= size
    ensures OnPath(index, size, i, Shr(index, size - i))
  {
    OnPathIff(index, size, i, Shr(index, size - i));
  }

  /** The exact condition on an attempt: without levels the roots decide, otherwise the children
      of the two nodes above the leaves. */
  lemma AcceptedExact(prg: Prg, size: nat, index: nat, r0: nat, r1: nat)
    ensures size == 0 ==> (Accepted(prg, size, index, r0, r1) <==> SeedLsb(r0) != SeedLsb(r1))
    ensures size > 0 ==>
      var g := Gen(prg, size, index, r0, r1, size - 1);
      Accepted(prg, size, index, r0, r1) <==> ChildrenDiffer(prg, g.n0.seed) != ChildrenDiffer(prg, g.n1.seed)
  {
    hide SeedLsb, Child, CorrectionWord, GetBit, ChildrenDiffer;
    if size > 0 {
      var g := Gen(prg, size, index, r0, r1, size - 1);
      OnPathBits(prg, size, index, r0, r1, size - 1);
      GenStep(prg, size, index, r0, r1, size);
      KeptChildrenDiffer(prg, g.n0, g.n1, GetBit(index, size, size));
    }
  }

  // ---------- the generator of the code ----------

  /** Under DpfPrg a seed's children differ exactly when the cipher gives its two blocks different
      second lowest bits. */
  lemma ChildrenDifferIff(aes: nat -> nat, s: nat)
    ensures var even := s - s % 2;
      ChildrenDiffer(DpfPrg(aes), s) <==> SeedLsb(aes(even)) != SeedLsb(aes(even + 1))
  {
    hide BitXor, DpfPrg;
    var e, even := DpfPrg(aes)(s), s - s % 2;
    DpfPrgHoldsBlocks(aes, s);
    DpfPrgIgnoresLowBit(aes, s);
    SeedLsbOfXor(aes(even), even);
    SeedLsbOfXor(aes(even + 1), even);
    LowBitAside(e.sL, e.tL);
    LowBitAside(e.sR, 1 - e.tR);
  }

  lemma LowBitAside(s: nat, t: Bit)
    requires s % 2 == 0
    ensures SeedLsb(s + t) == SeedLsb(s)
  {
  }

  /** A cipher under which this bit of the first block is that of the seed. */
  function KeepingCipher(): nat -> nat {
    (x: nat) => if x % 2 == 0 && SeedLsb(x) == 1 then 2 else 0
  }

  lemma KeepingChildren(s: nat)
    ensures ChildrenDiffer(DpfPrg(KeepingCipher()), s) <==> SeedLsb(s) == 1
  {
    hide DpfPrg, ChildrenDiffer, SeedLsb, KeepingCipher;
    ChildrenDifferIff(KeepingCipher(), s);
    KeepingValues(s - s % 2);
    LowBitAside(s - s % 2, s % 2);
  }

  lemma KeepingValues(even: nat)
    requires even % 2 == 0
    ensures SeedLsb(KeepingCipher()(even)) == SeedLsb(even) && SeedLsb(KeepingCipher()(even + 1)) == 0
  {
    assert SeedLsb(0) == 0 && SeedLsb(2) == 1;
    hide SeedLsb;
  }

  lemma {:induction false} KeepingPath(size: nat, index: nat, i: nat)
    requires i <= size
    ensures var g := Gen(DpfPrg(KeepingCipher()), size, index, 0, 2, i);
      SeedLsb(g.n0.seed) != SeedLsb(g.n1.seed)
  {
    hide DpfPrg, KeepingCipher, Child, CorrectionWord, GetBit, ChildrenDiffer;
    if i > 0 {
      var prg := DpfPrg(KeepingCipher());
      KeepingPath(size, index, i - 1);
      var g := Gen(prg, size, index, 0, 2, i - 1);
      OnPathBits(prg, size, index, 0, 2, i - 1);
      GenStep(prg, size, index, 0, 2, i);
      KeptChildrenDiffer(prg, g.n0, g.n1, GetBit(index, size, i));
      KeepingChildren(g.n0.seed);
      KeepingChildren(g.n1.seed);
    }
  }

  /** With the generator of the code, for every size and index there are a cipher and two roots
      for which the attempt is kept. */
  lemma SomeAttemptKept(size: nat, index: nat)
    ensures exists aes: nat -> nat, r0: nat, r1: nat :: Accepted(DpfPrg(aes), size, index, r0, r1)
  {
    hide Gen, DpfPrg, KeepingCipher, SeedLsb;
    KeepingPath(size, index, size);
    assert Accepted(DpfPrg(KeepingCipher()), size, index, 0, 2);
  }

  function IdentityCipher(): nat -> nat {
    (x: nat) => x
  }

  /** But not for every cipher: if it is the identity, no attempt with a level is ever kept, and
      the loop does not end. */
  lemma NoAttemptKept(size: nat, index: nat, r0: nat, r1: nat)
    requires size > 0
    ensures !Accepted(DpfPrg(IdentityCipher()), size, index, r0, r1)
  {
    hide Gen, DpfPrg, IdentityCipher, SeedLsb, ChildrenDiffer;
    var g := Gen(DpfPrg(IdentityCipher()), size, index, r0, r1, size - 1);
    AcceptedExact(DpfPrg(IdentityCipher()), size, index, r0, r1);
    IdentityChildren(g.n0.seed);
    IdentityChildren(g.n1.seed);
  }

  lemma IdentityChildren(s: nat)
    ensures !ChildrenDiffer(DpfPrg(IdentityCipher()), s)
  {
    hide DpfPrg, ChildrenDiffer, SeedLsb;
    ChildrenDifferIff(IdentityCipher(), s);
    LowBitAside(s - s % 2, 1);
  }
}
