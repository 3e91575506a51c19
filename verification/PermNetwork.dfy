/** The layered permutation network of the secret-shared shuffle (ss_shuffle.cc). With
    n = c * t index bits the network has d = 2 * c - 1 layers; layer i permutes, inside each
    of its 2^(n - t) blocks, the 2^t indices that differ only in t middle bits. */
module PermNetwork {
  import opened Bits
  import opened Layout
  import opened Permutations

  /** One sub-permutation of [0, 2^t) per block. */
  type LayerPerms = seq<seq<nat>>

  ghost predicate ValidLayer(n: nat, t: nat, subs: LayerPerms)
    requires t <= n
  {
    && |subs| == Pow2(n - t)
    && forall j :: 0 <= j < |subs| ==> |subs[j]| == Pow2(t) && IsPerm(subs[j])
  }

  /** Suffix length of layer i: it shrinks to 0 at the middle layer and grows again. */
  function SuffixLen(c: nat, t: nat, i: nat): nat
    requires c >= 1 && i < 2 * c - 1
  {
    if i < c then (c - 1 - i) * t else (i - (c - 1)) * t
  }

  function CappedSuffixLen(rawSuffixLen: int, n: int, t: int): int {
    if rawSuffixLen < n - t then rawSuffixLen else n - t
  }

  lemma SuffixFits(c: nat, t: nat, i: nat)
    requires c >= 1 && i < 2 * c - 1
    ensures SuffixLen(c, t, i) + t <= c * t
  {
    MulMono(if i < c then c - 1 - i else i - (c - 1), c - 1, t);
    MulDistrib(c - 1, 1, t);
  }

  /** Where a layer with `s` suffix bits reads the value of index `x`: same block, permuted
      position. */
  function LayerAt(t: nat, s: nat, subs: LayerPerms, x: nat): nat
    requires BlockOf(t, s, x) < |subs| && PosOf(t, s, x) < |subs[BlockOf(t, s, x)]|
  {
    IndexOf(t, s, BlockOf(t, s, x), subs[BlockOf(t, s, x)][PosOf(t, s, x)])
  }

  lemma LayerAtStays(n: nat, t: nat, s: nat, subs: LayerPerms, x: nat)
    requires s + t <= n && ValidLayer(n, t, subs) && x < Pow2(n)
    ensures BlockOf(t, s, x) < |subs| && PosOf(t, s, x) < |subs[BlockOf(t, s, x)]|
    ensures LayerAt(t, s, subs, x) < Pow2(n)
    ensures BlockOf(t, s, LayerAt(t, s, subs, x)) == BlockOf(t, s, x)
    ensures PosOf(t, s, LayerAt(t, s, subs, x)) == subs[BlockOf(t, s, x)][PosOf(t, s, x)]
  {
    hide BlockOf, PosOf, IndexOf, Pow2;
    IndexCovers(n, t, s, x);
    var j, k := BlockOf(t, s, x), PosOf(t, s, x);
    IndexBijection(n, t, s, j, subs[j][k]);
  }

  /** The layer as a permutation of all 2^n indices. */
  ghost function LayerPerm(n: nat, t: nat, s: nat, subs: LayerPerms): (p: seq<nat>)
    requires s + t <= n && ValidLayer(n, t, subs)
    ensures |p| == Pow2(n)
    ensures forall x :: 0 <= x < |p| ==> p[x] < |p|
  {
    forall x | 0 <= x < Pow2(n)
      ensures BlockOf(t, s, x) < |subs| && PosOf(t, s, x) < |subs[BlockOf(t, s, x)]|
           && LayerAt(t, s, subs, x) < Pow2(n)
    {
      LayerAtStays(n, t, s, subs, x);
    }
    seq(Pow2(n), x requires 0 <= x < Pow2(n) => LayerAt(t, s, subs, x))
  }

  /** Every layer is a permutation of [0, 2^n). */
  lemma LayerIsPerm(n: nat, t: nat, s: nat, subs: LayerPerms)
    requires s + t <= n && ValidLayer(n, t, subs)
    ensures IsPerm(LayerPerm(n, t, s, subs))
  {
    hide BlockOf, PosOf, IndexOf, Pow2, LayerAt;
    var p := LayerPerm(n, t, s, subs);
    forall x, y | 0 <= x < y < |p| ensures p[x] != p[y] {
      LayerAtStays(n, t, s, subs, x);
      LayerAtStays(n, t, s, subs, y);
      if p[x] == p[y] {
        IndexCovers(n, t, s, x);
        IndexCovers(n, t, s, y);
      }
    }
  }

  ghost predicate ValidNetwork(c: nat, t: nat, perms: seq<LayerPerms>) {
    && c >= 1 && t >= 1 && t <= c * t && |perms| == 2 * c - 1
    && forall i :: 0 <= i < |perms| ==> ValidLayer(c * t, t, perms[i])
  }

  /** Layer i as a permutation of all indices. */
  ghost function NetLayer(c: nat, t: nat, perms: seq<LayerPerms>, i: nat): (p: seq<nat>)
    requires ValidNetwork(c, t, perms) && i < |perms|
    ensures |p| == Pow2(c * t) && IsPerm(p)
  {
    SuffixFits(c, t, i);
    LayerIsPerm(c * t, t, SuffixLen(c, t, i), perms[i]);
    LayerPerm(c * t, t, SuffixLen(c, t, i), perms[i])
  }

  /** The composition P_0 after P_1 ... after P_(m-1) of the first m layers. */
  ghost function Composed(c: nat, t: nat, perms: seq<LayerPerms>, m: nat): (p: seq<nat>)
    requires ValidNetwork(c, t, perms) && m <= |perms|
    ensures |p| == Pow2(c * t) && IsPerm(p)
  {
    if m == 0 then Identity(Pow2(c * t))
    else
      var p, q := Composed(c, t, perms, m - 1), NetLayer(c, t, perms, m - 1);
      ThroughPerm(p, q);
      Through(p, q)
  }

  // ---------- the in-place code ----------

  /** Permutes one block of `v` in place. */
  method SubPerm(ghost n: nat, t: nat, ghost j: nat, prefix: nat, suffixLen: nat, suffix: nat,
                 sub: seq<nat>, v: array<nat>)
    requires suffixLen + t <= n && v.Length == Pow2(n) && j < Pow2(n - t)
    requires prefix == Shr(j, suffixLen) && suffix == BitAnd(j, LowMask(suffixLen))
    requires |sub| == Pow2(t) && IsPerm(sub)
    modifies v
    ensures forall x :: 0 <= x < v.Length && BlockOf(t, suffixLen, x) != j ==> v[x] == old(v[x])
    ensures forall k :: 0 <= k < |sub| ==>
      IndexOf(t, suffixLen, j, k) < v.Length && IndexOf(t, suffixLen, j, sub[k]) < v.Length
      && v[IndexOf(t, suffixLen, j, k)] == old(v[IndexOf(t, suffixLen, j, sub[k])])
  {
    hide *;
    BlockPlaces(n, t, suffixLen, j);
    ghost var at := Places(t, suffixLen, j);
    SubPermIndices(sub);
    var tmp := Gather(t, j, prefix, suffixLen, suffix, sub, v, at);
    Scatter(t, j, prefix, suffixLen, suffix, tmp, v, at);
  }

  /** The indices of one block, in order. */
  ghost function Places(t: nat, suffixLen: nat, j: nat): (at: seq<nat>)
    ensures |at| == Pow2(t)
    ensures forall k :: 0 <= k < |at| ==> at[k] == IndexOf(t, suffixLen, j, k)
  {
    seq(Pow2(t), k requires 0 <= k => IndexOf(t, suffixLen, j, k))
  }

  lemma BlockPlaces(n: nat, t: nat, suffixLen: nat, j: nat)
    requires suffixLen + t <= n && j < Pow2(n - t)
    ensures var at := Places(t, suffixLen, j);
      && (forall k :: 0 <= k < |at| ==> at[k] < Pow2(n) && BlockOf(t, suffixLen, at[k]) == j)
      && (forall k, l :: 0 <= k < l < |at| ==> at[k] != at[l])
  {
    hide *;
    var at := Places(t, suffixLen, j);
    forall k | 0 <= k < |at|
      ensures at[k] < Pow2(n) && BlockOf(t, suffixLen, at[k]) == j && PosOf(t, suffixLen, at[k]) == k
    {
      IndexBijection(n, t, suffixLen, j, k);
    }
  }

  lemma SubPermIndices(sub: seq<nat>)
    requires IsPerm(sub)
    ensures forall k :: 0 <= k < |sub| ==> sub[k] < |sub|
  {
  }

  /** The first loop: the values of the block, permuted. */
  method Gather(t: nat, ghost j: nat, prefix: nat, suffixLen: nat, suffix: nat, sub: seq<nat>, v: array<nat>,
                ghost at: seq<nat>) returns (tmp: seq<nat>)
    requires prefix == Shr(j, suffixLen) && suffix == BitAnd(j, LowMask(suffixLen))
    requires |sub| == |at| && forall k :: 0 <= k < |sub| ==> sub[k] < |sub|
    requires at == Places(t, suffixLen, j) && forall k :: 0 <= k < |at| ==> at[k] < v.Length
    ensures |tmp| == |sub| && forall k :: 0 <= k < |sub| ==> tmp[k] == v[at[sub[k]]]
  {
    hide *;
    tmp := [];
    for i := 0 to |sub|
      invariant |tmp| == i && forall k :: 0 <= k < i ==> tmp[k] == v[at[sub[k]]]
    {
      IndexIs(t, suffixLen, j, prefix, suffix, sub[i]);
      tmp := tmp + [v[Index(t, suffixLen, prefix, sub[i], suffix)]];
    }
  }

  /** The second loop: back into the block. */
  method Scatter(t: nat, ghost j: nat, prefix: nat, suffixLen: nat, suffix: nat, tmp: seq<nat>, v: array<nat>,
                 ghost at: seq<nat>)
    requires prefix == Shr(j, suffixLen) && suffix == BitAnd(j, LowMask(suffixLen))
    requires |tmp| == |at| && at == Places(t, suffixLen, j) && forall k :: 0 <= k < |at| ==> at[k] < v.Length
    requires forall k, l :: 0 <= k < l < |at| ==> at[k] != at[l]
    modifies v
    ensures forall k :: 0 <= k < |at| ==> v[at[k]] == tmp[k]
    ensures forall x :: 0 <= x < v.Length && x !in at ==> v[x] == old(v[x])
  {
    hide *;
    for i := 0 to |tmp|
      invariant forall k :: 0 <= k < i ==> v[at[k]] == tmp[k]
      invariant forall x :: 0 <= x < v.Length && x !in at ==> v[x] == old(v[x])
    {
      IndexIs(t, suffixLen, j, prefix, suffix, i);
      v[Index(t, suffixLen, prefix, i, suffix)] := tmp[i];
    }
  }

  lemma IndexIs(t: nat, suffixLen: nat, j: nat, prefix: nat, suffix: nat, k: nat)
    requires prefix == Shr(j, suffixLen) && suffix == BitAnd(j, LowMask(suffixLen))
    ensures Index(t, suffixLen, prefix, k, suffix) == IndexOf(t, suffixLen, j, k)
  {
    hide Index, Shr, BitAnd, LowMask;
  }

  /** The loop over all blocks of one layer. */
  method SubPermLayer(n: nat, t: nat, suffixLen: nat, subs: LayerPerms, v: array<nat>)
    requires suffixLen + t <= n && v.Length == Pow2(n) && ValidLayer(n, t, subs)
    modifies v
    ensures v[..] == Through(old(v[..]), LayerPerm(n, t, suffixLen, subs))
  {
    hide BlockOf, PosOf, IndexOf, Pow2, Shr, BitAnd, LowMask;
    ghost var p := LayerPerm(n, t, suffixLen, subs);
    ghost var v0 := v[..];
    var counter := 0;
    for j := 0 to |subs|
      invariant counter == j
      invariant forall x :: 0 <= x < v.Length ==>
        v[x] == if BlockOf(t, suffixLen, x) < j then v0[p[x]] else v0[x]
    {
      var prefix := Shr(counter, suffixLen);
      var suffix := BitAnd(counter, LowMask(suffixLen));
      label before:
      SubPerm(n, t, j, prefix, suffixLen, suffix, subs[j], v);
      forall x | 0 <= x < v.Length && BlockOf(t, suffixLen, x) == j
        ensures v[x] == v0[p[x]]
      {
        IndexCovers(n, t, suffixLen, x);
        LayerAtStays(n, t, suffixLen, subs, x);
        assert old@before(v[p[x]]) == v0[p[x]];
      }
      counter := counter + 1;
    }
    forall x | 0 <= x < v.Length ensures BlockOf(t, suffixLen, x) < |subs| {
      IndexCovers(n, t, suffixLen, x);
    }
  }

  method SetIdentity(v: array<nat>)
    modifies v
    ensures v[..] == Identity(v.Length)
  {
    for i := 0 to v.Length
      invariant forall k :: 0 <= k < i ==> v[k] == k
    {
      v[i] := i;
    }
  }

  /** The permutation of one layer alone. */
  method SubPermReconstruct(layer: nat, c: nat, t: nat, perms: seq<LayerPerms>, perm: array<nat>)
    requires ValidNetwork(c, t, perms) && layer < |perms| && perm.Length == Pow2(c * t)
    modifies perm
    ensures perm[..] == NetLayer(c, t, perms, layer)
  {
    hide Pow2, LayerPerm, ValidLayer;
    var n := c * t;
    var suffixLen := LayerSuffix(layer, c, t);
    SuffixFits(c, t, layer);
    SetIdentity(perm);
    SubPermLayer(n, t, suffixLen, perms[layer], perm);
  }

  /** The suffix length as SubPermReconstruct and Reallocate compute it. */
  method LayerSuffix(layer: nat, c: nat, t: nat) returns (suffixLen: nat)
    requires c >= 1 && layer < 2 * c - 1
    ensures suffixLen == SuffixLen(c, t, layer)
  {
    var n, d := c * t, 2 * c - 1;
    MulDistrib(c - 1, 1, t);
    if layer < d / 2 {
      MulDistrib(c - (layer + 1), layer + 1, t);
      suffixLen := n - (layer + 1) * t;
    } else if layer == d / 2 {
      suffixLen := 0;
    } else {
      MulMono(layer - d / 2, c - 1, t);
      suffixLen := CappedSuffixLen((layer - d / 2) * t, n, t);
    }
  }

  lemma SuffixSteps(c: nat, t: nat, i: nat)
    requires c >= 1 && i + 1 < 2 * c - 1
    ensures SuffixLen(c, t, i + 1) == if i < c - 1 then SuffixLen(c, t, i) - t else SuffixLen(c, t, i) + t
  {
    if i < c - 1 {
      MulDistrib(c - 1 - (i + 1), 1, t);
    } else {
      MulDistrib(i - (c - 1), 1, t);
    }
  }

  lemma NetworkStart(c: nat, t: nat, perms: seq<LayerPerms>)
    requires ValidNetwork(c, t, perms)
    ensures SuffixLen(c, t, 0) == c * t - t
    ensures Composed(c, t, perms, 0) == Identity(Pow2(c * t))
  {
    MulDistrib(c - 1, 1, t);
  }

  /** One layer of PermReconstruct. */
  method OneLayer(c: nat, t: nat, perms: seq<LayerPerms>, i: nat, suffixLen: nat, perm: array<nat>)
    requires ValidNetwork(c, t, perms) && i < |perms| && perm.Length == Pow2(c * t)
    requires suffixLen == SuffixLen(c, t, i) && perm[..] == Composed(c, t, perms, i)
    modifies perm
    ensures perm[..] == Composed(c, t, perms, i + 1)
  {
    hide Pow2, LayerPerm, ValidLayer, SuffixLen;
    SuffixFits(c, t, i);
    SubPermLayer(c * t, t, suffixLen, perms[i], perm);
  }

  /** The branch of PermReconstruct for a network of one layer. */
  method SingleLayer(t: nat, perms: seq<LayerPerms>, perm: array<nat>)
    requires ValidNetwork(1, t, perms) && perm.Length == Pow2(t)
    modifies perm
    ensures perm[..] == Composed(1, t, perms, 1)
  {
    hide Pow2, LayerAt, Composed, LayerPerm;
    var subs := perms[0];
    var size := |subs[0]|;
    Pow2Step(0);
    assert ValidLayer(t, t, subs) by { assert 1 * t == t; }
    for j := 0 to |subs|
      invariant j > 0 ==> forall k :: 0 <= k < size ==> perm[k] == subs[0][k]
    {
      for i := 0 to size
        invariant forall k :: 0 <= k < i ==> perm[k] == subs[0][k]
      {
        perm[j * size + i] := j * size + subs[j][i];
      }
    }
    SingleLayerIs(t, perms, perm[..]);
  }

  lemma SingleLayerIs(t: nat, perms: seq<LayerPerms>, p: seq<nat>)
    requires ValidNetwork(1, t, perms) && ValidLayer(t, t, perms[0]) && p == perms[0][0]
    ensures p == Composed(1, t, perms, 1)
  {
    hide Pow2, IndexOf, BlockOf, PosOf;
    var subs := perms[0];
    Pow2Step(0);
    assert 1 * t == t && 0 * t == 0;
    var q := LayerPerm(t, t, 0, subs);
    assert Composed(1, t, perms, 1) == Through(Identity(Pow2(t)), q) by {
      assert Composed(1, t, perms, 0) == Identity(Pow2(t));
    }
    forall x | 0 <= x < Pow2(t) ensures q[x] == p[x] {
      IndexCovers(t, t, 0, x);
      IndexIsRadix(t, 0, 0, x);
      IndexBijection(t, t, 0, 0, x);
      IndexIsRadix(t, 0, 0, p[x]);
    }
  }

  /** The composed permutation, built by walking the layers with running prefix and suffix
      lengths. */
  method PermReconstruct(c: nat, t: nat, perms: seq<LayerPerms>, perm: array<nat>)
    requires ValidNetwork(c, t, perms) && perm.Length == Pow2(c * t)
    modifies perm
    ensures perm[..] == Composed(c, t, perms, |perms|)
  {
    hide Pow2, LayerPerm, ValidLayer, NetLayer, SuffixLen, Composed;
    var n, d := c * t, 2 * c - 1;
    var suffixLen: int := n - t;
    if d == 1 {
      SingleLayer(t, perms, perm);
      return;
    }
    SetIdentity(perm);
    NetworkStart(c, t, perms);
    for i := 0 to d / 2
      invariant suffixLen == SuffixLen(c, t, i)
      invariant perm[..] == Composed(c, t, perms, i)
    {
      OneLayer(c, t, perms, i, suffixLen, perm);
      SuffixSteps(c, t, i);
      suffixLen := suffixLen - t;
    }
    OneLayer(c, t, perms, d / 2, suffixLen, perm);
    SuffixSteps(c, t, d / 2);
    suffixLen := suffixLen + t;
    for i := d / 2 + 1 to d
      invariant i < d ==> suffixLen == SuffixLen(c, t, i)
      invariant perm[..] == Composed(c, t, perms, i)
    {
      SuffixFits(c, t, i);
      var effSuffixLen := CappedSuffixLen(suffixLen, n, t);
      OneLayer(c, t, perms, i, effSuffixLen, perm);
      if i + 1 < d {
        SuffixSteps(c, t, i);
      }
      suffixLen := suffixLen + t;
    }
  }
}
