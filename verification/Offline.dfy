/** The offline phase of the shuffle (ss_shuffle.cc, Reallocate and Offline): per-layer
    share translations are moved into place and folded into one translation for the whole
    composed permutation. */
module Offline {
  import opened Bits
  import opened Blocks
  import opened Layout
  import opened Permutations
  import opened PermNetwork
  import opened ShareTranslation

  /** The slot that holds index `x` of a layer before Reallocate: blocks one after another. */
  function Home(t: nat, s: nat, x: nat): nat {
    Flat(t, BlockOf(t, s, x), PosOf(t, s, x))
  }

  function Flat(t: nat, j: nat, k: nat): nat {
    j * Pow2(t) + k
  }

  function SlotBlock(t: nat, i: nat): nat {
    Shr(i, t)
  }

  function SlotPos(t: nat, i: nat): nat {
    i % Pow2(t)
  }

  lemma FlatBound(n: nat, t: nat, j: nat, k: nat)
    requires t <= n && j < Pow2(n - t) && k < Pow2(t)
    ensures Flat(t, j, k) < Pow2(n)
  {
    hide Pow2;
    Pow2Add(n - t, t);
    MulMono(j + 1, Pow2(n - t), Pow2(t));
    MulDistrib(j, 1, Pow2(t));
  }

  lemma FlatSplit(t: nat, j: nat, k: nat)
    requires k < Pow2(t)
    ensures SlotBlock(t, Flat(t, j, k)) == j && SlotPos(t, Flat(t, j, k)) == k
  {
    hide Pow2, Shr;
    ShrIsDiv(Flat(t, j, k), t);
    DivUnique(Flat(t, j, k), Pow2(t), j, k);
  }

  lemma FlatJoin(n: nat, t: nat, i: nat)
    requires t <= n && i < Pow2(n)
    ensures SlotBlock(t, i) < Pow2(n - t) && SlotPos(t, i) < Pow2(t)
    ensures Flat(t, SlotBlock(t, i), SlotPos(t, i)) == i
  {
    hide Pow2, Shr;
    ShrIsDiv(i, t);
    Pow2Add(n - t, t);
    DivLess(i, Pow2(t), Pow2(n - t));
    DivMod(i, Pow2(t));
  }

  /** Exactly one index has slot `i` as its home. */
  lemma HomeInverse(n: nat, t: nat, s: nat, i: nat)
    requires s + t <= n && i < Pow2(n)
    ensures IndexOf(t, s, SlotBlock(t, i), SlotPos(t, i)) < Pow2(n)
    ensures Home(t, s, IndexOf(t, s, SlotBlock(t, i), SlotPos(t, i))) == i
  {
    hide Pow2, IndexOf, BlockOf, PosOf, Flat, SlotBlock, SlotPos;
    FlatJoin(n, t, i);
    IndexBijection(n, t, s, SlotBlock(t, i), SlotPos(t, i));
  }

  lemma HomeUnique(n: nat, t: nat, s: nat, x: nat)
    requires s + t <= n && x < Pow2(n)
    ensures Home(t, s, x) < Pow2(n)
    ensures IndexOf(t, s, SlotBlock(t, Home(t, s, x)), SlotPos(t, Home(t, s, x))) == x
  {
    hide Pow2, IndexOf, BlockOf, PosOf, Flat, SlotBlock, SlotPos;
    IndexCovers(n, t, s, x);
    FlatBound(n, t, BlockOf(t, s, x), PosOf(t, s, x));
    FlatSplit(t, BlockOf(t, s, x), PosOf(t, s, x));
  }

  /** A layer's vector with every block-local position moved to its index. */
  ghost function Placed(n: nat, t: nat, s: nat, v: seq<Block>): (w: seq<Block>)
    requires s + t <= n && |v| == Pow2(n)
    ensures |w| == |v|
  {
    forall x | 0 <= x < Pow2(n) ensures Home(t, s, x) < Pow2(n) {
      HomeUnique(n, t, s, x);
    }
    seq(Pow2(n), x requires 0 <= x < Pow2(n) => v[Home(t, s, x)])
  }

  method Reallocate(v: array<Block>, layer: nat, c: nat, t: nat)
    requires c >= 1 && layer < 2 * c - 1 && v.Length == Pow2(c * t)
    requires SuffixLen(c, t, layer) + t <= c * t
    modifies v
    ensures v[..] == Placed(c * t, t, SuffixLen(c, t, layer), old(v[..]))
  {
    hide Pow2, IndexOf, Index, Shr, BitAnd, LowMask, SuffixLen, Home, SlotBlock, SlotPos;
    ghost var n := c * t;
    var suffixLen := LayerSuffix(layer, c, t);
    var counter := 0;
    SlotStart(t);
    var tmp := new Block[v.Length](_ => ZERO_BLOCK);
    for i := 0 to v.Length
      invariant counter == SlotBlock(t, i) && v[..] == old(v[..])
      invariant forall x :: 0 <= x < v.Length && Home(t, suffixLen, x) < i ==>
        tmp[x] == v[Home(t, suffixLen, x)]
    {
      var prefix := Shr(counter, suffixLen);
      var suffix := BitAnd(counter, LowMask(suffixLen));
      var index := Index(t, suffixLen, prefix, SlotPos(t, i), suffix);
      IndexUnfold(t, suffixLen, counter, SlotPos(t, i));
      HomeInverse(n, t, suffixLen, i);
      forall x | 0 <= x < v.Length && Home(t, suffixLen, x) == i ensures x == index {
        HomeUnique(n, t, suffixLen, x);
      }
      tmp[index] := v[i];
      SlotNext(t, i);
      if SlotPos(t, i + 1) == 0 {
        counter := counter + 1;
      }
    }
    forall x | 0 <= x < v.Length ensures Home(t, suffixLen, x) < v.Length {
      HomeUnique(n, t, suffixLen, x);
    }
    Copy(tmp, v);
  }

  method Copy(src: array<Block>, dst: array<Block>)
    requires src.Length == dst.Length && src != dst
    modifies dst
    ensures dst[..] == src[..]
  {
    for i := 0 to dst.Length
      invariant forall x :: 0 <= x < i ==> dst[x] == src[x]
    {
      dst[i] := src[i];
    }
  }

  lemma SlotStart(t: nat)
    ensures SlotBlock(t, 0) == 0
  {
    hide Pow2, Shr;
    ShrIsDiv(0, t);
    DivUnique(0, Pow2(t), 0, 0);
  }

  lemma IndexUnfold(t: nat, s: nat, j: nat, k: nat)
    ensures IndexOf(t, s, j, k) == Index(t, s, Shr(j, s), k, BitAnd(j, LowMask(s)))
  {
  }

  /** The block number grows by one exactly when the position wraps to zero. */
  lemma SlotNext(t: nat, i: nat)
    ensures SlotBlock(t, i + 1)
         == if SlotPos(t, i + 1) == 0 then SlotBlock(t, i) + 1 else SlotBlock(t, i)
  {
    hide Pow2, Shr;
    ShrIsDiv(i, t);
    ShrIsDiv(i + 1, t);
    var m := Pow2(t);
    DivMod(i, m);
    var q, r := i / m, i % m;
    if r + 1 == m {
      MulDistrib(q, 1, m);
      DivUnique(i + 1, m, q + 1, 0);
    } else {
      DivUnique(i + 1, m, q, r + 1);
    }
  }

  /** `delta` is `b` minus `a` read through each block's sub-permutation, blocks laid out one
      after another. */
  ghost predicate BlocksTranslate(n: nat, t: nat, subs: LayerPerms,
                                  a: seq<Block>, b: seq<Block>, delta: seq<Block>)
    requires t <= n
  {
    && ValidLayer(n, t, subs) && |a| == |b| == |delta| == Pow2(n)
    && forall j, k :: 0 <= j < |subs| && 0 <= k < |subs[j]| ==>
      && Flat(t, j, k) < Pow2(n) && Flat(t, j, subs[j][k]) < Pow2(n)
      && delta[Flat(t, j, k)] == Sub(b[Flat(t, j, k)], a[Flat(t, j, subs[j][k])])
  }

  /** After Reallocate, `delta` is `b` minus `a` read through the whole layer permutation. */
  lemma PlacedTranslates(n: nat, t: nat, s: nat, subs: LayerPerms,
                         a: seq<Block>, b: seq<Block>, delta: seq<Block>, x: nat)
    requires s + t <= n && BlocksTranslate(n, t, subs, a, b, delta) && x < Pow2(n)
    ensures Placed(n, t, s, delta)[x]
         == Sub(Placed(n, t, s, b)[x], Placed(n, t, s, a)[LayerPerm(n, t, s, subs)[x]])
  {
    hide Pow2, Sub, BlockOf, PosOf, Flat, LayerAt;
    LayerAtStays(n, t, s, subs, x);
    IndexCovers(n, t, s, x);
  }

  // ---------- folding the layers ----------

  /** One vector of 2^n blocks per layer. */
  type Layers = seq<seq<Block>>

  ghost predicate Sized(c: nat, t: nat, v: Layers) {
    forall i :: 0 <= i < |v| ==> |v[i]| == Pow2(c * t)
  }

  /** In every layer the permuting party's `delta` translates the other party's `a` and `b`. */
  ghost predicate LayersTranslate(c: nat, t: nat, perms: seq<LayerPerms>,
                                  a: Layers, b: Layers, delta: Layers)
    requires ValidNetwork(c, t, perms)
  {
    && |a| == |b| == |delta| == |perms|
    && forall i :: 0 <= i < |perms| ==> BlocksTranslate(c * t, t, perms[i], a[i], b[i], delta[i])
  }

  /** The same after Reallocate. */
  ghost predicate PlacedLayersTranslate(c: nat, t: nat, perms: seq<LayerPerms>,
                                        a: Layers, b: Layers, delta: Layers)
    requires ValidNetwork(c, t, perms)
  {
    && |a| == |b| == |delta| == |perms| && Sized(c, t, a) && Sized(c, t, b) && Sized(c, t, delta)
    && forall i, x :: 0 <= i < |perms| && 0 <= x < Pow2(c * t) ==>
      delta[i][x] == Sub(b[i][x], a[i][NetLayer(c, t, perms, i)[x]])
  }

  /** The values the other party sends: a^(i+1) - b^i. */
  ghost predicate AreOffsets(c: nat, t: nat, a: Layers, b: Layers, offset: Layers) {
    && |a| == |b| == |offset| + 1 && Sized(c, t, a) && Sized(c, t, b) && Sized(c, t, offset)
    && forall i, x :: 0 <= i < |offset| && 0 <= x < Pow2(c * t) ==>
      offset[i][x] == Sub(a[i + 1][x], b[i][x])
  }

  function AddAll(u: seq<Block>, v: seq<Block>): (w: seq<Block>)
    requires |u| == |v|
    ensures |w| == |u|
  {
    seq(|u|, x requires 0 <= x < |u| => Add(u[x], v[x]))
  }

  /** The accumulator after the first `m` layers have been folded in. */
  ghost function Folded(c: nat, t: nat, perms: seq<LayerPerms>, deltas: Layers, offset: Layers,
                        m: nat): (w: seq<Block>)
    requires ValidNetwork(c, t, perms) && 1 <= m < |perms| == |deltas| == |offset| + 1
    requires Sized(c, t, deltas) && Sized(c, t, offset)
    ensures |w| == Pow2(c * t)
  {
    if m == 1 then AddAll(deltas[0], offset[0])
    else AddAll(Through(Folded(c, t, perms, deltas, offset, m - 1), NetLayer(c, t, perms, m - 1)),
                AddAll(deltas[m - 1], offset[m - 1]))
  }

  ghost function FoldedAll(c: nat, t: nat, perms: seq<LayerPerms>, deltas: Layers, offset: Layers)
    : (w: seq<Block>)
    requires ValidNetwork(c, t, perms) && 2 <= |perms| == |deltas| == |offset| + 1
    requires Sized(c, t, deltas) && Sized(c, t, offset)
    ensures |w| == Pow2(c * t)
  {
    var d := |perms|;
    AddAll(Through(Folded(c, t, perms, deltas, offset, d - 1), NetLayer(c, t, perms, d - 1)),
           deltas[d - 1])
  }

  /** Everything but the newest a and the first a cancels. */
  lemma {:induction false} FoldTelescopes(c: nat, t: nat, perms: seq<LayerPerms>,
      a: Layers, b: Layers, deltas: Layers, offset: Layers, m: nat, x: nat)
    requires ValidNetwork(c, t, perms) && PlacedLayersTranslate(c, t, perms, a, b, deltas)
    requires AreOffsets(c, t, a, b, offset) && 1 <= m < |perms| && x < Pow2(c * t)
    ensures Folded(c, t, perms, deltas, offset, m)[x]
         == Sub(a[m][x], a[0][Composed(c, t, perms, m)[x]])
    decreases m
  {
    hide Pow2, Add, Sub, NetLayer, ValidNetwork;
    var y := NetLayer(c, t, perms, m - 1)[x];
    Telescope(b[m - 1][x], a[m - 1][y], a[m][x]);
    assert Composed(c, t, perms, m)[x] == Composed(c, t, perms, m - 1)[y];
    if m == 1 {
      assert Composed(c, t, perms, 0)[y] == y;
    } else {
      FoldTelescopes(c, t, perms, a, b, deltas, offset, m - 1, y);
      Telescope(a[m - 1][y], a[0][Composed(c, t, perms, m - 1)[y]], a[m][x]);
    }
  }

  /** The final fold is one translation through the composed permutation. */
  lemma FoldTranslates(c: nat, t: nat, perms: seq<LayerPerms>,
                       a: Layers, b: Layers, deltas: Layers, offset: Layers)
    requires ValidNetwork(c, t, perms) && PlacedLayersTranslate(c, t, perms, a, b, deltas)
    requires AreOffsets(c, t, a, b, offset) && |perms| >= 2
    ensures Translates(Composed(c, t, perms, |perms|), a[0], b[|perms| - 1],
                       FoldedAll(c, t, perms, deltas, offset))
  {
    hide Pow2, Add, Sub, NetLayer, ValidNetwork, Folded;
    var d := |perms|;
    var p, w := Composed(c, t, perms, d), FoldedAll(c, t, perms, deltas, offset);
    forall x | 0 <= x < Pow2(c * t) ensures w[x] == Sub(b[d - 1][x], a[0][p[x]]) {
      var y := NetLayer(c, t, perms, d - 1)[x];
      FoldTelescopes(c, t, perms, a, b, deltas, offset, d - 1, y);
      Telescope(a[d - 1][y], a[0][Composed(c, t, perms, d - 1)[y]], b[d - 1][x]);
    }
  }

  // ---------- the code of one party ----------

  method SimplePerm(perm: seq<nat>, v: array<Block>)
    requires |perm| == v.Length && IsPerm(perm)
    modifies v
    ensures v[..] == Through(old(v[..]), perm)
  {
    var tmp := new Block[v.Length](_ => ZERO_BLOCK);
    for i := 0 to v.Length
      invariant v[..] == old(v[..])
      invariant forall x :: 0 <= x < i ==> tmp[x] == v[perm[x]]
    {
      tmp[i] := v[perm[i]];
    }
    Copy(tmp, v);
  }

  method ReallocateLayers(c: nat, t: nat, v: Layers) returns (w: Layers)
    requires c >= 1 && |v| == 2 * c - 1 && Sized(c, t, v)
    ensures |w| == |v| && Sized(c, t, w)
    ensures forall i :: 0 <= i < |v| ==>
      SuffixLen(c, t, i) + t <= c * t && w[i] == Placed(c * t, t, SuffixLen(c, t, i), v[i])
  {
    hide Pow2, SuffixLen, Placed;
    w := [];
    for i := 0 to |v|
      invariant |w| == i
      invariant forall k :: 0 <= k < i ==>
        SuffixLen(c, t, k) + t <= c * t && w[k] == Placed(c * t, t, SuffixLen(c, t, k), v[k])
    {
      SuffixFits(c, t, i);
      var layer := new Block[|v[i]|](x requires 0 <= x < |v[i]| => v[i][x]);
      assert layer[..] == v[i];
      Reallocate(layer, i, c, t);
      w := w + [layer[..]];
    }
  }

  /** The offsets a^(i+1) - b^i sent to the other party. */
  method Offsets(c: nat, t: nat, a: Layers, b: Layers) returns (offset: Layers)
    requires |a| == |b| >= 1 && Sized(c, t, a) && Sized(c, t, b)
    ensures AreOffsets(c, t, a, b, offset)
  {
    hide Pow2, Sub;
    offset := [];
    for i := 0 to |a| - 1
      invariant |offset| == i && Sized(c, t, offset)
      invariant forall k, x :: 0 <= k < i && 0 <= x < Pow2(c * t) ==>
        offset[k][x] == Sub(a[k + 1][x], b[k][x])
    {
      offset := offset + [seq(|a[i + 1]|, x requires 0 <= x < |a[i + 1]| => Sub(a[i + 1][x], b[i][x]))];
    }
  }

  method Accumulate(delta: array<Block>, terms: seq<Block>)
    requires delta.Length == |terms|
    modifies delta
    ensures delta[..] == AddAll(old(delta[..]), terms)
  {
    hide Add;
    for x := 0 to delta.Length
      invariant forall y :: 0 <= y < x ==> delta[y] == Add(old(delta[y]), terms[y])
      invariant forall y :: x <= y < delta.Length ==> delta[y] == old(delta[y])
    {
      delta[x] := Add(delta[x], terms[x]);
    }
  }

  method NetworkLayer(c: nat, t: nat, perms: seq<LayerPerms>, i: nat) returns (p: seq<nat>)
    requires ValidNetwork(c, t, perms) && i < |perms|
    ensures p == NetLayer(c, t, perms, i)
  {
    hide NetLayer, ValidNetwork;
    var size := Shl(1, c * t);
    ShlIsMul(1, c * t);
    var perm := new nat[size](_ => 0);
    SubPermReconstruct(i, c, t, perms, perm);
    p := perm[..];
  }

  /** Permutes the accumulator by one layer and adds that layer's terms. */
  method FoldLayer(c: nat, t: nat, perms: seq<LayerPerms>, i: nat, terms: seq<Block>,
                   delta: array<Block>)
    requires ValidNetwork(c, t, perms) && i < |perms|
    requires |terms| == delta.Length == Pow2(c * t)
    modifies delta
    ensures delta[..] == AddAll(Through(old(delta[..]), NetLayer(c, t, perms, i)), terms)
  {
    hide Pow2, Add, NetLayer, ValidNetwork;
    var p := NetworkLayer(c, t, perms, i);
    SimplePerm(p, delta);
    Accumulate(delta, terms);
  }

  /** Folds the reallocated layers and the received offsets into `delta`. */
  method FoldDelta(c: nat, t: nat, perms: seq<LayerPerms>, deltas: Layers, offset: Layers,
                   delta: array<Block>)
    requires ValidNetwork(c, t, perms) && 3 <= |perms| == |deltas| == |offset| + 1
    requires Sized(c, t, deltas) && Sized(c, t, offset) && delta.Length == Pow2(c * t)
    modifies delta
    ensures delta[..] == FoldedAll(c, t, perms, deltas, offset)
  {
    hide Pow2, Add, NetLayer, ValidNetwork, Through;
    var d := |perms|;
    for x := 0 to delta.Length
      invariant forall y :: 0 <= y < x ==> delta[y] == Add(deltas[0][y], offset[0][y])
    {
      delta[x] := Add(deltas[0][x], offset[0][x]);
    }
    assert delta[..] == AddAll(deltas[0], offset[0]);
    hide AddAll;
    for i := 1 to d - 1
      invariant delta[..] == Folded(c, t, perms, deltas, offset, i)
    {
      FoldLayer(c, t, perms, i, AddAll(deltas[i], offset[i]), delta);
    }
    FoldLayer(c, t, perms, d - 1, deltas[d - 1], delta);
  }

  /** What one party holds before it has heard from the other. */
  datatype Prepared = Prepared(perm: seq<nat>, a: Layers, b: Layers, deltas: Layers, offset: Layers)

  /** Offline up to the exchange of offsets. */
  method OfflinePrepare(c: nat, t: nat, perms: seq<LayerPerms>, a: Layers, b: Layers, deltas: Layers)
    returns (r: Prepared)
    requires ValidNetwork(c, t, perms) && |a| == |b| == |deltas| == |perms|
    requires Sized(c, t, a) && Sized(c, t, b) && Sized(c, t, deltas)
    ensures r.perm == Composed(c, t, perms, |perms|)
    ensures |perms| == 1 ==> r.a == a && r.b == b && r.deltas == deltas
    ensures |perms| > 1 ==>
      && |r.a| == |r.b| == |r.deltas| == |perms| && Sized(c, t, r.deltas)
      && AreOffsets(c, t, r.a, r.b, r.offset)
      && forall i :: 0 <= i < |perms| ==>
        && SuffixLen(c, t, i) + t <= c * t
        && r.a[i] == Placed(c * t, t, SuffixLen(c, t, i), a[i])
        && r.b[i] == Placed(c * t, t, SuffixLen(c, t, i), b[i])
        && r.deltas[i] == Placed(c * t, t, SuffixLen(c, t, i), deltas[i])
  {
    hide Pow2, SuffixLen, Placed, Composed, ValidLayer;
    var size := Shl(1, c * t);
    ShlIsMul(1, c * t);
    var perm := new nat[size](_ => 0);
    PermReconstruct(c, t, perms, perm);
    if |perms| == 1 {
      r := Prepared(perm[..], a, b, deltas, []);
    } else {
      var a' := ReallocateLayers(c, t, a);
      var b' := ReallocateLayers(c, t, b);
      var deltas' := ReallocateLayers(c, t, deltas);
      var offset := Offsets(c, t, a', b');
      r := Prepared(perm[..], a', b', deltas', offset);
    }
  }

  /** Offline after the offsets of the other party have arrived. */
  method OfflineFinish(c: nat, t: nat, perms: seq<LayerPerms>, p: Prepared, received: Layers)
    returns (a: seq<Block>, b: seq<Block>, delta: seq<Block>)
    requires ValidNetwork(c, t, perms) && |p.a| == |p.b| == |p.deltas| == |perms|
    requires |perms| > 1 ==> |received| == |perms| - 1 && Sized(c, t, received) && Sized(c, t, p.deltas)
    ensures a == p.a[0] && b == p.b[|perms| - 1]
    ensures delta == if |perms| == 1 then p.deltas[0] else FoldedAll(c, t, perms, p.deltas, received)
  {
    hide Pow2, NetLayer, FoldedAll;
    if |perms| == 1 {
      return p.a[0], p.b[0], p.deltas[0];
    }
    var size := Shl(1, c * t);
    ShlIsMul(1, c * t);
    var acc := new Block[size](_ => ZERO_BLOCK);
    FoldDelta(c, t, perms, p.deltas, received, acc);
    a, b, delta := p.a[0], p.b[|perms| - 1], acc[..];
  }

  // ---------- both parties ----------

  lemma PlacedAll(c: nat, t: nat, perms: seq<LayerPerms>, a: Layers, b: Layers, deltas: Layers,
                  a': Layers, b': Layers, deltas': Layers)
    requires ValidNetwork(c, t, perms) && LayersTranslate(c, t, perms, a, b, deltas)
    requires |a'| == |b'| == |deltas'| == |perms|
    requires forall i :: 0 <= i < |perms| ==>
      && SuffixLen(c, t, i) + t <= c * t
      && |a[i]| == |b[i]| == |deltas[i]| == Pow2(c * t)
      && a'[i] == Placed(c * t, t, SuffixLen(c, t, i), a[i])
      && b'[i] == Placed(c * t, t, SuffixLen(c, t, i), b[i])
      && deltas'[i] == Placed(c * t, t, SuffixLen(c, t, i), deltas[i])
    ensures PlacedLayersTranslate(c, t, perms, a', b', deltas')
  {
    hide Pow2, SuffixLen, Placed, Sub, LayerPerm, ValidLayer;
    forall i, x | 0 <= i < |perms| && 0 <= x < Pow2(c * t)
      ensures deltas'[i][x] == Sub(b'[i][x], a'[i][NetLayer(c, t, perms, i)[x]])
    {
      PlacedTranslates(c * t, t, SuffixLen(c, t, i), perms[i], a[i], b[i], deltas[i], x);
    }
  }

  /** With a single layer nothing is moved and nothing is folded. */
  lemma SingleLayerTranslates(t: nat, perms: seq<LayerPerms>, a: Layers, b: Layers, deltas: Layers)
    requires ValidNetwork(1, t, perms) && LayersTranslate(1, t, perms, a, b, deltas)
    ensures Translates(Composed(1, t, perms, 1), a[0], b[0], deltas[0])
  {
    hide Pow2, Sub, Composed;
    Pow2Step(0);
    assert 1 * t == t;
    var p := perms[0][0];
    SingleLayerIs(t, perms, p);
    forall k | 0 <= k < |p| ensures deltas[0][k] == Sub(b[0][k], a[0][p[k]]) {
      assert Flat(t, 0, k) == k && Flat(t, 0, p[k]) == p[k];
    }
  }

  /** The outputs of one party: `a` of its first layer and `b` of its last one, each in place. */
  ghost predicate Ends(c: nat, t: nat, a: Layers, b: Layers, first: seq<Block>, last: seq<Block>) {
    && |a| == |b| == 2 * c - 1 && c >= 1 && |first| == |last| == Pow2(c * t)
    && if c == 1 then first == a[0] && last == b[0]
       else
         && SuffixLen(c, t, 0) + t <= c * t && |a[0]| == |b[|b| - 1]| == Pow2(c * t)
         && SuffixLen(c, t, |b| - 1) + t <= c * t
         && first == Placed(c * t, t, SuffixLen(c, t, 0), a[0])
         && last == Placed(c * t, t, SuffixLen(c, t, |b| - 1), b[|b| - 1])
  }

  /** Offline for both parties: given translations block by block in every layer, each party
      ends with one translation of the other's vectors through its own composed permutation. */
  method OfflineBoth(c: nat, t: nat, permsA: seq<LayerPerms>, permsB: seq<LayerPerms>,
                     aA: Layers, bA: Layers, deltasA: Layers, aB: Layers, bB: Layers, deltasB: Layers)
    returns (permA: seq<nat>, outA: (seq<Block>, seq<Block>, seq<Block>),
             permB: seq<nat>, outB: (seq<Block>, seq<Block>, seq<Block>))
    requires ValidNetwork(c, t, permsA) && ValidNetwork(c, t, permsB)
    requires LayersTranslate(c, t, permsA, aB, bB, deltasA)
    requires LayersTranslate(c, t, permsB, aA, bA, deltasB)
    ensures permA == Composed(c, t, permsA, |permsA|) && permB == Composed(c, t, permsB, |permsB|)
    ensures Translates(permA, outB.0, outB.1, outA.2)
    ensures Translates(permB, outA.0, outA.1, outB.2)
    ensures Ends(c, t, aA, bA, outA.0, outA.1) && Ends(c, t, aB, bB, outB.0, outB.1)
  {
    hide Pow2, Composed, Placed, SuffixLen, AreOffsets, PlacedLayersTranslate, FoldedAll, Translates, Ends;
    LayersSized(c, t, permsA, aB, bB, deltasA);
    LayersSized(c, t, permsB, aA, bA, deltasB);
    var pA := OfflinePrepare(c, t, permsA, aA, bA, deltasA);
    var pB := OfflinePrepare(c, t, permsB, aB, bB, deltasB);
    if |permsA| > 1 {
      OffsetsSized(c, t, pA.a, pA.b, pA.offset);
      OffsetsSized(c, t, pB.a, pB.b, pB.offset);
      PlacedAll(c, t, permsA, aB, bB, deltasA, pB.a, pB.b, pA.deltas);
      PlacedAll(c, t, permsB, aA, bA, deltasB, pA.a, pA.b, pB.deltas);
      FoldTranslates(c, t, permsA, pB.a, pB.b, pA.deltas, pB.offset);
      FoldTranslates(c, t, permsB, pA.a, pA.b, pB.deltas, pA.offset);
    } else {
      SingleLayerTranslates(t, permsA, aB, bB, deltasA);
      SingleLayerTranslates(t, permsB, aA, bA, deltasB);
    }
    var xA, yA, zA := OfflineFinish(c, t, permsA, pA, pB.offset);
    var xB, yB, zB := OfflineFinish(c, t, permsB, pB, pA.offset);
    permA, outA, permB, outB := pA.perm, (xA, yA, zA), pB.perm, (xB, yB, zB);
    EndsPlaced(c, t, permsA, aA, bA, xA, yA);
    EndsPlaced(c, t, permsB, aB, bB, xB, yB);
  }

  lemma EndsPlaced(c: nat, t: nat, perms: seq<LayerPerms>, a: Layers, b: Layers, first: seq<Block>, last: seq<Block>)
    requires ValidNetwork(c, t, perms) && |a| == |b| == |perms| && Sized(c, t, a) && Sized(c, t, b)
    requires |perms| == 1 ==> first == a[0] && last == b[0]
    requires |perms| > 1 ==>
      && SuffixLen(c, t, 0) + t <= c * t && SuffixLen(c, t, |perms| - 1) + t <= c * t
      && first == Placed(c * t, t, SuffixLen(c, t, 0), a[0])
      && last == Placed(c * t, t, SuffixLen(c, t, |perms| - 1), b[|perms| - 1])
    ensures Ends(c, t, a, b, first, last)
  {
    hide Pow2, SuffixLen, Placed, ValidLayer;
  }

  lemma LayersSized(c: nat, t: nat, perms: seq<LayerPerms>, a: Layers, b: Layers, deltas: Layers)
    requires ValidNetwork(c, t, perms) && LayersTranslate(c, t, perms, a, b, deltas)
    ensures |a| == |b| == |deltas| == |perms|
    ensures Sized(c, t, a) && Sized(c, t, b) && Sized(c, t, deltas)
  {
    hide Pow2;
    forall i | 0 <= i < |perms| ensures |a[i]| == |b[i]| == |deltas[i]| == Pow2(c * t) {
      assert BlocksTranslate(c * t, t, perms[i], a[i], b[i], deltas[i]);
    }
  }

  lemma OffsetsSized(c: nat, t: nat, a: Layers, b: Layers, offset: Layers)
    requires AreOffsets(c, t, a, b, offset)
    ensures Sized(c, t, offset) && |offset| == |a| - 1
  {
  }
}
