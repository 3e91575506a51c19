/** Index arithmetic of the permutation network (ss_shuffle.cc): a layer with `s` suffix
    bits splits the n-bit indices into blocks of 2^t by cutting t bits out of the middle. */
module Layout {
  import opened Bits

  /** The index of position `k` in the block with the given prefix and suffix bits. */
  function Index(t: nat, s: nat, prefix: nat, k: nat, suffix: nat): nat {
    BitOr(BitOr(Shl(prefix, t + s), Shl(k, s)), suffix)
  }

  /** Position `k` of block number `j`: the high bits of `j` are the prefix, the `s` low
      bits the suffix. */
  function IndexOf(t: nat, s: nat, j: nat, k: nat): nat {
    Index(t, s, Shr(j, s), k, BitAnd(j, LowMask(s)))
  }

  /** The block an index belongs to. */
  function BlockOf(t: nat, s: nat, x: nat): nat {
    Shl(Shr(x, s + t), s) + x % Pow2(s)
  }

  /** The position of an index in its block. */
  function PosOf(t: nat, s: nat, x: nat): nat {
    Shr(x, s) % Pow2(t)
  }

  /** The bit expression is the mixed-radix number (prefix, k, suffix). */
  lemma IndexIsRadix(t: nat, s: nat, j: nat, k: nat)
    requires k < Pow2(t)
    ensures IndexOf(t, s, j, k) == ((j / Pow2(s)) * Pow2(t) + k) * Pow2(s) + j % Pow2(s)
  {
    hide BitOr, BitAnd, Shl, Shr, LowMask, Pow2;
    var p := Shr(j, s);
    AndIsMod(j, s);
    ShrIsDiv(j, s);
    DivMod(j, Pow2(s));
    HighDigits(t, s, p, k);
    OrIsSum(p * Pow2(t) + k, s, j % Pow2(s));
    ShlIsMul(p * Pow2(t) + k, s);
  }

  /** Prefix and position without the suffix. */
  lemma HighDigits(t: nat, s: nat, p: nat, k: nat)
    requires k < Pow2(t)
    ensures BitOr(Shl(p, t + s), Shl(k, s)) == Shl(p * Pow2(t) + k, s)
  {
    hide BitOr, Shl, Pow2;
    var ss, tt := Pow2(s), Pow2(t);
    Pow2Add(t, s);
    ShlIsMul(p, t + s);
    ShlIsMul(k, s);
    MulMono(k + 1, tt, ss);
    MulDistrib(k, 1, ss);
    OrIsSum(p, t + s, Shl(k, s));
    MulAssoc(p, tt, ss);
    MulDistrib(p * tt, k, ss);
    ShlIsMul(p * tt + k, s);
  }

  /** Blocks and positions are in one-to-one correspondence with indices: the blocks of a
      layer partition [0, 2^n), whatever the layer's suffix length. */
  lemma IndexBijection(n: nat, t: nat, s: nat, j: nat, k: nat)
    requires s + t <= n && j < Pow2(n - t) && k < Pow2(t)
    ensures IndexOf(t, s, j, k) < Pow2(n)
    ensures BlockOf(t, s, IndexOf(t, s, j, k)) == j
    ensures PosOf(t, s, IndexOf(t, s, j, k)) == k
  {
    hide BitOr, BitAnd, Shl, Shr, LowMask, Pow2, IndexOf, Index;
    var ss, tt, p, q := Pow2(s), Pow2(t), j / Pow2(s), j % Pow2(s);
    var x := IndexOf(t, s, j, k);
    IndexIsRadix(t, s, j, k);
    DivUnique(x, ss, p * tt + k, q);
    DivUnique(p * tt + k, tt, p, k);
    ShrIsDiv(x, s);
    Pow2Add(s, t);
    DivDiv(x, ss, tt);
    ShrIsDiv(x, s + t);
    ShlIsMul(p, s);
    DivMod(j, ss);
    RadixBound(n, t, s, j, k);
  }

  lemma RadixBound(n: nat, t: nat, s: nat, j: nat, k: nat)
    requires s + t <= n && j < Pow2(n - t) && k < Pow2(t)
    ensures ((j / Pow2(s)) * Pow2(t) + k) * Pow2(s) + j % Pow2(s) < Pow2(n)
  {
    hide Pow2;
    var ss, tt, p := Pow2(s), Pow2(t), j / Pow2(s);
    var r := Pow2(n - t - s);
    Pow2Add(n - t - s, s);
    Pow2Add(n - t - s, t);
    Pow2Add(n - s, s);
    DivLess(j, ss, r);
    MixedBelow(p, k, tt, r);
    MixedBelow(p * tt + k, j % ss, ss, Pow2(n - s));
  }

  /** A number with leading digit below `r` and a lower digit below `m` is below r * m. */
  lemma MixedBelow(p: nat, k: nat, m: nat, r: nat)
    requires p < r && k < m
    ensures p * m + k < r * m
  {
    MulMono(p + 1, r, m);
    MulDistrib(p, 1, m);
  }

  lemma IndexCovers(n: nat, t: nat, s: nat, x: nat)
    requires s + t <= n && x < Pow2(n)
    ensures BlockOf(t, s, x) < Pow2(n - t) && PosOf(t, s, x) < Pow2(t)
    ensures IndexOf(t, s, BlockOf(t, s, x), PosOf(t, s, x)) == x
  {
    hide BitOr, BitAnd, Shl, Shr, LowMask, Pow2, IndexOf, Index;
    var ss, tt := Pow2(s), Pow2(t);
    var p, k, q := x / ss / tt, x / ss % tt, x % ss;
    ShrIsDiv(x, s);
    Pow2Add(s, t);
    DivDiv(x, ss, tt);
    ShrIsDiv(x, s + t);
    ShlIsMul(p, s);
    var j := BlockOf(t, s, x);
    assert j == p * ss + q;
    DivUnique(j, ss, p, q);
    IndexIsRadix(t, s, j, k);
    DivMod(x / ss, tt);
    DivMod(x, ss);
    BlockBound(n, t, s, x);
  }

  lemma BlockBound(n: nat, t: nat, s: nat, x: nat)
    requires s + t <= n && x < Pow2(n)
    ensures (x / Pow2(s) / Pow2(t)) * Pow2(s) + x % Pow2(s) < Pow2(n - t)
  {
    hide Pow2;
    Pow2Add(n - s, s);
    Pow2Add(n - t - s, t);
    Pow2Add(n - t - s, s);
    TopDigits(x, Pow2(s), Pow2(t), Pow2(n - t - s));
  }

  lemma TopDigits(x: nat, ss: nat, tt: nat, r: nat)
    requires ss > 0 && tt > 0 && x < (r * tt) * ss
    ensures (x / ss / tt) * ss + x % ss < r * ss
  {
    DivLess(x, ss, r * tt);
    DivLess(x / ss, tt, r);
    MixedBelow(x / ss / tt, x % ss, ss, r);
  }
}
