/** The online phase (ss_shuffle.cc, PermuteShare and SecretSharedShuffle): the two servers
    permute an additively shared vector by both their permutations in turn. */
module Shuffle {
  import opened Bits
  import opened Blocks
  import opened Network
  import opened Layout
  import opened Opv
  import opened Permutations
  import opened PermNetwork
  import opened ShareTranslation
  import opened Offline

  function SubAll(u: seq<Block>, v: seq<Block>): (w: seq<Block>)
    requires |u| == |v|
    ensures |w| == |u|
  {
    seq(|u|, x requires 0 <= x < |u| => Sub(u[x], v[x]))
  }

  /** PermuteShare of both roles: the first party brings the vector `x` and its translation
      vectors, the second its permutation, the matching `delta` and a random mask `w`. */
  method PermuteShare(io: NetIO, firstIsAlice: bool, x: seq<Block>, a: seq<Block>, b: seq<Block>,
                      perm: seq<nat>, delta: seq<Block>, w: seq<Block>)
    returns (outFirst: seq<Block>, outSecond: seq<Block>)
    requires |x| == |w| == |perm| && Translates(perm, a, b, delta)
    requires io.toAlice == [] && io.toBob == []
    modifies io
    ensures io.toAlice == [] && io.toBob == []
    ensures firstIsAlice ==>
      io.sentToBob == old(io.sentToBob) + [AddAll(x, a)] && io.sentToAlice == old(io.sentToAlice) + [w]
    ensures !firstIsAlice ==>
      io.sentToAlice == old(io.sentToAlice) + [AddAll(x, a)] && io.sentToBob == old(io.sentToBob) + [w]
    ensures outFirst == SubAll(w, b)
    ensures |outSecond| == |x| && AddAll(outFirst, outSecond) == Through(x, perm)
  {
    hide Add, Sub;
    var m := AddAll(x, a);
    var received: seq<Block>, mask: seq<Block>;
    if firstIsAlice {
      io.SendToBob(m);
      received := io.BobReceives();
      io.SendToAlice(w);
      mask := io.AliceReceives();
    } else {
      io.SendToAlice(m);
      received := io.AliceReceives();
      io.SendToBob(w);
      mask := io.BobReceives();
    }
    outFirst := SubAll(mask, b);
    var permuted := new Block[|received|](i requires 0 <= i < |received| => received[i]);
    assert permuted[..] == received == m && mask == w;
    SimplePerm(perm, permuted);
    outSecond := SubAll(AddAll(permuted[..], delta), w);
    forall i | 0 <= i < |x| ensures Add(outFirst[i], outSecond[i]) == x[perm[i]] {
      MaskCancels(w[i], b[i], x[perm[i]], a[perm[i]]);
    }
  }

  lemma MaskCancels(w: Block, b: Block, x: Block, a: Block)
    ensures Add(Sub(w, b), Sub(Add(Add(x, a), Sub(b, a)), w)) == x
  {
    hide Add, Sub;
    MoveAcross(x, a, b);
    SubBack(Add(x, b), w, b);
    AddSubSame(x, b);
  }

  lemma MoveAcross(x: Block, a: Block, b: Block)
    ensures Add(Add(x, a), Sub(b, a)) == Add(x, b)
  {
  }

  lemma SubBack(y: Block, w: Block, b: Block)
    ensures Add(Sub(w, b), Sub(y, w)) == Sub(y, b)
  {
  }

  lemma AddSubSame(x: Block, b: Block)
    ensures Sub(Add(x, b), b) == x
  {
  }

  /** What one server brings to the shuffle. */
  datatype Keys = Keys(perm: seq<nat>, delta: seq<Block>, a: seq<Block>, b: seq<Block>)

  ghost predicate Matching(alice: Keys, bob: Keys, size: nat) {
    && |alice.perm| == |bob.perm| == size
    && Translates(alice.perm, bob.a, bob.b, alice.delta)
    && Translates(bob.perm, alice.a, alice.b, bob.delta)
  }

  /** SecretSharedShuffle of both servers for networks of more than one layer. The shares of
      the result add up to the shared vector read through BOB's and then ALICE's permutation, and
      BOB's is ALICE's mask less his `b`. Every message is masked: ALICE sends her share under her
      `a`, and BOB the once permuted vector less her first output, under his. */
  method SecretSharedShuffle(io: NetIO, xA: seq<Block>, alice: Keys, maskA: seq<Block>,
                             xB: array<Block>, bob: Keys, maskB: seq<Block>)
    returns (outA: seq<Block>, outB: seq<Block>)
    requires Matching(alice, bob, |xA|) && |xA| == xB.Length == |maskA| == |maskB|
    requires io.toAlice == [] && io.toBob == []
    modifies io, xB
    ensures io.toAlice == [] && io.toBob == []
    ensures |outA| == |outB| == |xA|
    ensures AddAll(outA, outB) == Through(Through(AddAll(xA, old(xB[..])), bob.perm), alice.perm)
    ensures outB == SubAll(maskA, bob.b)
    ensures io.sentToBob == old(io.sentToBob) + [AddAll(xA, alice.a), maskA]
    ensures io.sentToAlice == old(io.sentToAlice) + [maskB,
      AddAll(SubAll(Through(AddAll(xA, old(xB[..])), bob.perm), SubAll(maskB, alice.b)), bob.a)]
    ensures multiset(AddAll(outA, outB)) == multiset(AddAll(xA, old(xB[..])))
  {
    hide Add, Sub, AddAll, SubAll, Through, Translates, IsPerm;
    ghost var total := AddAll(xA, xB[..]);
    TranslatesPerm(alice.perm, bob.a, bob.b, alice.delta);
    TranslatesPerm(bob.perm, alice.a, alice.b, bob.delta);
    var firstA, firstB := PermuteShare(io, true, xA, alice.a, alice.b, bob.perm, bob.delta, maskB);
    ghost var x0 := xB[..];
    SimplePerm(bob.perm, xB);
    Accumulate(xB, firstB);
    RunningVector(xA, x0, firstA, firstB, bob.perm);
    var secondB, secondA := PermuteShare(io, false, xB[..], bob.a, bob.b, alice.perm, alice.delta, maskA);
    var kept := new Block[|firstA|](i requires 0 <= i < |firstA| => firstA[i]);
    assert kept[..] == firstA;
    SimplePerm(alice.perm, kept);
    outA := AddAll(secondA, kept[..]);
    outB := secondB;
    ShuffledSum(xA, x0, firstA, firstB, secondA, secondB, alice.perm, bob.perm);
    ThroughMultiset(total, bob.perm);
    ThroughMultiset(Through(total, bob.perm), alice.perm);
  }

  /** What BOB holds between the rounds: the once permuted vector less ALICE's first output. */
  lemma RunningVector(xA: seq<Block>, xB: seq<Block>, firstA: seq<Block>, firstB: seq<Block>, perm: seq<nat>)
    requires |xA| == |xB| == |firstA| == |firstB| == |perm| && IsPerm(perm)
    requires AddAll(firstA, firstB) == Through(xA, perm)
    ensures AddAll(Through(xB, perm), firstB) == SubAll(Through(AddAll(xA, xB), perm), firstA)
  {
    hide Add, Sub;
    forall i | 0 <= i < |perm|
      ensures Add(xB[perm[i]], firstB[i]) == Sub(Add(xA[perm[i]], xB[perm[i]]), firstA[i])
    {
      assert AddAll(firstA, firstB)[i] == Add(firstA[i], firstB[i]) == xA[perm[i]];
      TakeAway(firstA[i], firstB[i], xB[perm[i]]);
    }
  }

  lemma TakeAway(f: Block, f': Block, y: Block)
    ensures Add(y, f') == Sub(Add(Add(f, f'), y), f)
  {
  }

  lemma TranslatesPerm(perm: seq<nat>, a: seq<Block>, b: seq<Block>, delta: seq<Block>)
    requires Translates(perm, a, b, delta)
    ensures IsPerm(perm) && forall i :: 0 <= i < |perm| ==> perm[i] < |perm|
    ensures |a| == |b| == |delta| == |perm|
  {
  }

  /** The two masked rounds add up to the doubly permuted sum. */
  lemma ShuffledSum(xA: seq<Block>, xB: seq<Block>, firstA: seq<Block>, firstB: seq<Block>,
                    secondA: seq<Block>, secondB: seq<Block>, permA: seq<nat>, permB: seq<nat>)
    requires |xA| == |xB| == |firstA| == |firstB| == |secondA| == |secondB| == |permA| == |permB|
    requires IsPerm(permA) && IsPerm(permB)
    requires AddAll(firstA, firstB) == Through(xA, permB)
    requires AddAll(secondB, secondA) == Through(AddAll(Through(xB, permB), firstB), permA)
    ensures AddAll(AddAll(secondA, Through(firstA, permA)), secondB)
         == Through(Through(AddAll(xA, xB), permB), permA)
  {
    hide Add;
    forall i | 0 <= i < |xA|
      ensures Add(Add(secondA[i], firstA[permA[i]]), secondB[i])
           == Add(xA[permB[permA[i]]], xB[permB[permA[i]]])
    {
      var k := permA[i];
      assert AddAll(firstA, firstB)[k] == Add(firstA[k], firstB[k]) == xA[permB[k]];
      assert AddAll(secondB, secondA)[i] == Add(secondB[i], secondA[i]) == Add(xB[permB[k]], firstB[k]);
      Regroup(secondA[i], firstA[k], secondB[i], xB[permB[k]], firstB[k]);
    }
  }

  lemma Regroup(s: Block, f: Block, s': Block, x: Block, f': Block)
    requires Add(s', s) == Add(x, f')
    ensures Add(Add(s, f), s') == Add(Add(f, f'), x)
  {
    hide Add;
    AddExchange(s, f, s');
    AddComm(s, s');
    AddComm(Add(x, f'), f);
    AddComm(x, f');
    AddAssoc(f, f', x);
  }

  /** SecretSharedShuffle for a network of one layer: BOB's share takes no part in it. The
      shares of the result add up to the shared vector read through BOB's permutation if and
      only if BOB's share is zero everywhere. */
  method SingleLayerShuffle(io: NetIO, xA: seq<Block>, alice: Keys, xB: seq<Block>, bob: Keys,
                            maskB: seq<Block>)
    returns (outA: seq<Block>, outB: seq<Block>)
    requires Matching(alice, bob, |xA|) && |xA| == |xB| == |maskB|
    requires io.toAlice == [] && io.toBob == []
    modifies io
    ensures io.toAlice == [] && io.toBob == []
    ensures |outA| == |outB| == |xA| && AddAll(outA, outB) == Through(xA, bob.perm)
    ensures outA == SubAll(maskB, alice.b)
    ensures io.sentToBob == old(io.sentToBob) + [AddAll(xA, alice.a)]
    ensures io.sentToAlice == old(io.sentToAlice) + [maskB]
    ensures AddAll(outA, outB) == Through(AddAll(xA, xB), bob.perm)
       <==> forall i :: 0 <= i < |xB| ==> xB[i] == ZERO_BLOCK
  {
    hide Add, Sub, IsPerm;
    TranslatesPerm(bob.perm, alice.a, alice.b, bob.delta);
    outA, outB := PermuteShare(io, true, xA, alice.a, alice.b, bob.perm, bob.delta, maskB);
    IgnoredShare(xA, xB, bob.perm);
  }

  /** A run that loses BOB's share: ALICE shares zeros, BOB a one at position 0, and the shares
      of the result add up to zeros. */
  method LostShareRun(io: NetIO, maskB: seq<Block>) returns (outA: seq<Block>, outB: seq<Block>)
    requires |maskB| == 2 && io.toAlice == [] && io.toBob == []
    modifies io
    ensures |outA| == |outB| == 2 && AddAll(outA, outB) == [ZERO_BLOCK, ZERO_BLOCK]
    ensures AddAll(outA, outB) != Through(AddAll([ZERO_BLOCK, ZERO_BLOCK], [Block(1, 0), ZERO_BLOCK]), [1, 0])
  {
    var zeros, swap := [ZERO_BLOCK, ZERO_BLOCK], [1, 0];
    var share := [Block(1, 0), ZERO_BLOCK];
    var keys := Keys(swap, zeros, zeros, zeros);
    assert share[0] != ZERO_BLOCK;
    assert Matching(keys, keys, 2);
    hide AddAll, Matching, Translates;
    outA, outB := SingleLayerShuffle(io, zeros, keys, share, keys, maskB);
    assert Through(zeros, swap) == zeros;
  }

  lemma IgnoredShare(x: seq<Block>, y: seq<Block>, perm: seq<nat>)
    requires |x| == |y| == |perm| && IsPerm(perm)
    ensures Through(x, perm) == Through(AddAll(x, y), perm)
       <==> forall i :: 0 <= i < |y| ==> y[i] == ZERO_BLOCK
  {
    hide Add;
    var u, v := Through(x, perm), Through(AddAll(x, y), perm);
    if u == v {
      forall k | 0 <= k < |y| ensures y[k] == ZERO_BLOCK {
        Surjective(perm, k);
        var i :| 0 <= i < |perm| && perm[i] == k;
        assert u[i] == x[k] && v[i] == Add(x[k], y[k]);
        OnlyZeroAddsNothing(x[k], y[k]);
      }
    }
    if forall i :: 0 <= i < |y| ==> y[i] == ZERO_BLOCK {
      forall i | 0 <= i < |perm| ensures u[i] == v[i] {
        AddZero(x[perm[i]]);
      }
    }
  }

  lemma OnlyZeroAddsNothing(x: Block, y: Block)
    ensures Add(x, y) == x ==> y == ZERO_BLOCK
  {
  }

  // ---------- from the random roots to the shuffled shares ----------

  /** No tree used for a layer has a zero inner node off its punctured path. */
  ghost predicate LayerUsable(prg: Prg, t: nat, roots: seq<seq<Block>>, subs: LayerPerms)
    requires |roots| == |subs|
  {
    forall j :: 0 <= j < |subs| ==> |roots[j]| == |subs[j]| && RootsUsable(prg, t, roots[j], subs[j])
  }

  /** The two vectors of a layer hold the column and row sums of the trees of each block. */
  ghost predicate FromTrees(prg: Prg, t: nat, roots: seq<seq<Block>>, a: seq<Block>, b: seq<Block>) {
    forall j, k :: 0 <= j < |roots| && 0 <= k < Pow2(t) && |roots[j]| == Pow2(t) ==>
      BlockFromTrees(prg, t, roots[j], a, b, j, k)
  }

  ghost predicate BlockFromTrees(prg: Prg, t: nat, roots: seq<Block>, a: seq<Block>, b: seq<Block>, j: nat, k: nat)
    requires |roots| == Pow2(t) && k < Pow2(t)
  {
    && Flat(t, j, k) < |a| && Flat(t, j, k) < |b|
    && a[Flat(t, j, k)] == ColSum(TreeMatrix(prg, t, roots), k, Pow2(t))
    && b[Flat(t, j, k)] == RowSum(TreeMatrix(prg, t, roots), k, Pow2(t))
  }

  /** ShareTranslation of every block of one layer, results laid out one after another. */
  method TranslateLayer(prg: Prg, n: nat, t: nat, roots: seq<seq<Block>>, subs: LayerPerms)
    returns (a: seq<Block>, b: seq<Block>, delta: seq<Block>)
    requires 1 <= t <= n && ValidLayer(n, t, subs) && |roots| == |subs|
    requires forall j :: 0 <= j < |roots| ==> |roots[j]| == Pow2(t)
    ensures |a| == |b| == |delta| == Pow2(n) && FromTrees(prg, t, roots, a, b)
    ensures LayerUsable(prg, t, roots, subs) ==> BlocksTranslate(n, t, subs, a, b, delta)
  {
    hide Pow2, Sub, Translates, RootsUsable, Flat, ColSum, RowSum, TreeMatrix;
    a, b, delta := [], [], [];
    FlatStart(t);
    for j := 0 to |subs|
      invariant |a| == |b| == |delta| == Flat(t, j, 0)
      invariant FromTrees(prg, t, roots[..j], a, b)
      invariant LayerUsable(prg, t, roots, subs) ==> TranslatedUpTo(t, subs, a, b, delta, j)
    {
      var ra, rb, rd := Translate(prg, t, roots[j], subs[j]);
      if LayerUsable(prg, t, roots, subs) {
        OneMoreBlock(t, subs, a, b, delta, j, ra[..], rb[..], rd[..]);
      }
      FlatNext(t, j);
      MoreTrees(prg, t, roots, a, b, j, ra[..], rb[..]);
      a, b, delta := a + ra[..], b + rb[..], delta + rd[..];
    }
    FlatEnd(n, t);
    assert roots[..|subs|] == roots;
    forall j, k | 0 <= j < |subs| && 0 <= k < |subs[j]|
      ensures Flat(t, j, k) < Pow2(n) && Flat(t, j, subs[j][k]) < Pow2(n)
      ensures LayerUsable(prg, t, roots, subs) ==>
        delta[Flat(t, j, k)] == Sub(b[Flat(t, j, k)], a[Flat(t, j, subs[j][k])])
    {
      FlatBound(n, t, j, k);
      FlatBound(n, t, j, subs[j][k]);
      if LayerUsable(prg, t, roots, subs) {
        assert BlockTranslated(t, subs[j], a, b, delta, j);
      }
    }
  }

  /** Block `j` of a layer's vectors is a translation. */
  ghost predicate BlockTranslated(t: nat, sub: seq<nat>, a: seq<Block>, b: seq<Block>,
                                  delta: seq<Block>, j: nat)
  {
    && |a| == |b| == |delta|
    && forall k :: 0 <= k < |sub| ==>
      && Flat(t, j, k) < |a| && Flat(t, j, sub[k]) < |a|
      && delta[Flat(t, j, k)] == Sub(b[Flat(t, j, k)], a[Flat(t, j, sub[k])])
  }

  ghost predicate TranslatedUpTo(t: nat, subs: LayerPerms, a: seq<Block>, b: seq<Block>,
                                 delta: seq<Block>, m: nat)
    requires m <= |subs|
  {
    forall j :: 0 <= j < m ==> BlockTranslated(t, subs[j], a, b, delta, j)
  }

  lemma OneMoreBlock(t: nat, subs: LayerPerms, a: seq<Block>, b: seq<Block>, delta: seq<Block>,
                     m: nat, ra: seq<Block>, rb: seq<Block>, rd: seq<Block>)
    requires m < |subs| && TranslatedUpTo(t, subs, a, b, delta, m)
    requires |a| == |b| == |delta| == Flat(t, m, 0) && Translates(subs[m], ra, rb, rd)
    ensures TranslatedUpTo(t, subs, a + ra, b + rb, delta + rd, m + 1)
  {
    hide Sub, Flat;
    forall j | 0 <= j < m ensures BlockTranslated(t, subs[j], a + ra, b + rb, delta + rd, j) {
      assert BlockTranslated(t, subs[j], a, b, delta, j);
    }
    NewBlock(t, subs[m], a, b, delta, m, ra, rb, rd);
  }

  lemma NewBlock(t: nat, sub: seq<nat>, a: seq<Block>, b: seq<Block>, delta: seq<Block>,
                 m: nat, ra: seq<Block>, rb: seq<Block>, rd: seq<Block>)
    requires |a| == |b| == |delta| == Flat(t, m, 0) && Translates(sub, ra, rb, rd)
    ensures BlockTranslated(t, sub, a + ra, b + rb, delta + rd, m)
  {
    hide Sub, Flat;
    forall k | 0 <= k < |sub|
      ensures Flat(t, m, k) == |a| + k && Flat(t, m, sub[k]) == |a| + sub[k]
    {
      FlatShift(t, m, k);
      FlatShift(t, m, sub[k]);
    }
  }

  lemma MoreTrees(prg: Prg, t: nat, roots: seq<seq<Block>>, a: seq<Block>, b: seq<Block>, m: nat,
                  ra: seq<Block>, rb: seq<Block>)
    requires m < |roots| && FromTrees(prg, t, roots[..m], a, b) && |a| == |b| == Flat(t, m, 0)
    requires |roots[m]| == |ra| == |rb| == Pow2(t)
    requires forall k :: 0 <= k < Pow2(t) ==>
      && ra[k] == ColSum(TreeMatrix(prg, t, roots[m]), k, Pow2(t))
      && rb[k] == RowSum(TreeMatrix(prg, t, roots[m]), k, Pow2(t))
    ensures FromTrees(prg, t, roots[..m + 1], a + ra, b + rb)
  {
    hide Flat, ColSum, RowSum, TreeMatrix, Pow2;
    forall j, k | 0 <= j < m + 1 && 0 <= k < Pow2(t) && |roots[j]| == Pow2(t)
      ensures BlockFromTrees(prg, t, roots[j], a + ra, b + rb, j, k)
    {
      if j < m {
        assert roots[..m][j] == roots[j];
        assert BlockFromTrees(prg, t, roots[j], a, b, j, k);
      } else {
        FlatShift(t, m, k);
      }
    }
  }

  lemma FlatStart(t: nat)
    ensures Flat(t, 0, 0) == 0
  {
  }

  lemma FlatShift(t: nat, j: nat, k: nat)
    ensures Flat(t, j, k) == Flat(t, j, 0) + k
  {
  }

  lemma FlatNext(t: nat, j: nat)
    ensures Flat(t, j + 1, 0) == Flat(t, j, 0) + Pow2(t)
  {
    hide Pow2;
    MulDistrib(j, 1, Pow2(t));
  }

  lemma FlatEnd(n: nat, t: nat)
    requires t <= n
    ensures Flat(t, Pow2(n - t), 0) == Pow2(n)
  {
    hide Pow2;
    Pow2Add(n - t, t);
  }

  type NetworkRoots = seq<seq<seq<Block>>>

  ghost predicate RootsFit(c: nat, t: nat, perms: seq<LayerPerms>, roots: NetworkRoots)
    requires ValidNetwork(c, t, perms)
  {
    && |roots| == |perms|
    && (forall i :: 0 <= i < |roots| ==> |roots[i]| == |perms[i]|)
    && (forall i, j :: 0 <= i < |roots| && 0 <= j < |roots[i]| ==> |roots[i][j]| == Pow2(t))
  }

  ghost predicate NetworkUsable(prg: Prg, c: nat, t: nat, perms: seq<LayerPerms>, roots: NetworkRoots)
    requires ValidNetwork(c, t, perms) && RootsFit(c, t, perms, roots)
  {
    forall i :: 0 <= i < |perms| ==> LayerUsable(prg, t, roots[i], perms[i])
  }

  /** ShareTranslation for every block of every layer. */
  method TranslateNetwork(prg: Prg, c: nat, t: nat, perms: seq<LayerPerms>, roots: NetworkRoots)
    returns (a: Layers, b: Layers, deltas: Layers)
    requires ValidNetwork(c, t, perms) && RootsFit(c, t, perms, roots)
    ensures |a| == |b| == |deltas| == |perms|
    ensures forall i :: 0 <= i < |perms| ==>
      |a[i]| == |b[i]| == |deltas[i]| == Pow2(c * t) && FromTrees(prg, t, roots[i], a[i], b[i])
    ensures NetworkUsable(prg, c, t, perms, roots) ==> LayersTranslate(c, t, perms, a, b, deltas)
  {
    hide Pow2, BlocksTranslate, LayerUsable, ValidLayer, FromTrees;
    a, b, deltas := [], [], [];
    for i := 0 to |perms|
      invariant |a| == |b| == |deltas| == i
      invariant forall k :: 0 <= k < i ==>
        |a[k]| == |b[k]| == |deltas[k]| == Pow2(c * t) && FromTrees(prg, t, roots[k], a[k], b[k])
      invariant forall k :: 0 <= k < i && LayerUsable(prg, t, roots[k], perms[k]) ==>
        BlocksTranslate(c * t, t, perms[k], a[k], b[k], deltas[k])
    {
      assert ValidLayer(c * t, t, perms[i]);
      var la, lb, ld := TranslateLayer(prg, c * t, t, roots[i], perms[i]);
      a, b, deltas := a + [la], b + [lb], deltas + [ld];
    }
  }

  // ---------- the vectors a party brings, from its trees ----------

  /** A column sum of the tree block that index `x` lies in. */
  ghost predicate ColumnOfTree(prg: Prg, t: nat, s: nat, roots: seq<seq<Block>>, x: nat, v: Block) {
    var j, k := BlockOf(t, s, x), PosOf(t, s, x);
    && j < |roots| && k < |roots[j]| == Pow2(t)
    && v == ColSum(TreeMatrix(prg, t, roots[j]), k, Pow2(t))
  }

  /** A row sum of the tree block that index `x` lies in. */
  ghost predicate RowOfTree(prg: Prg, t: nat, s: nat, roots: seq<seq<Block>>, x: nat, v: Block) {
    var j, k := BlockOf(t, s, x), PosOf(t, s, x);
    && j < |roots| && k < |roots[j]| == Pow2(t)
    && v == RowSum(TreeMatrix(prg, t, roots[j]), k, Pow2(t))
  }

  /** A party's `a` holds the column sums of its first layer's trees and its `b` the row sums of
      its last layer's, each at the index that its block and position are placed at. */
  ghost predicate KeysOfTrees(prg: Prg, c: nat, t: nat, roots: NetworkRoots, k: Keys) {
    && c >= 1 && |roots| == 2 * c - 1 && |k.a| == |k.b| == Pow2(c * t)
    && (forall x :: 0 <= x < Pow2(c * t) ==> ColumnOfTree(prg, t, SuffixLen(c, t, 0), roots[0], x, k.a[x]))
    && forall x :: 0 <= x < Pow2(c * t) ==>
      RowOfTree(prg, t, SuffixLen(c, t, 2 * c - 2), roots[2 * c - 2], x, k.b[x])
  }

  lemma FirstColumns(prg: Prg, c: nat, t: nat, perms: seq<LayerPerms>, roots: NetworkRoots, a: Layers, b: Layers,
                     first: seq<Block>, last: seq<Block>, x: nat)
    requires c >= 2 && ValidNetwork(c, t, perms) && RootsFit(c, t, perms, roots) && Ends(c, t, a, b, first, last)
    requires FromTrees(prg, t, roots[0], a[0], b[0]) && x < Pow2(c * t)
    ensures ColumnOfTree(prg, t, SuffixLen(c, t, 0), roots[0], x, first[x])
  {
    hide Pow2, SuffixLen, BlockOf, PosOf, Flat, RowSum, ColSum, TreeMatrix;
    var s := SuffixLen(c, t, 0);
    assert ValidLayer(c * t, t, perms[0]);
    var j, k := BlockOf(t, s, x), PosOf(t, s, x);
    IndexCovers(c * t, t, s, x);
    assert BlockFromTrees(prg, t, roots[0][j], a[0], b[0], j, k);
  }

  lemma LastRows(prg: Prg, c: nat, t: nat, perms: seq<LayerPerms>, roots: NetworkRoots, a: Layers, b: Layers,
                 first: seq<Block>, last: seq<Block>, x: nat)
    requires c >= 2 && ValidNetwork(c, t, perms) && RootsFit(c, t, perms, roots) && Ends(c, t, a, b, first, last)
    requires FromTrees(prg, t, roots[2 * c - 2], a[2 * c - 2], b[2 * c - 2]) && x < Pow2(c * t)
    ensures RowOfTree(prg, t, SuffixLen(c, t, 2 * c - 2), roots[2 * c - 2], x, last[x])
  {
    hide Pow2, SuffixLen, BlockOf, PosOf, Flat, RowSum, ColSum, TreeMatrix;
    var d := 2 * c - 1;
    var s := SuffixLen(c, t, d - 1);
    assert ValidLayer(c * t, t, perms[d - 1]);
    var j, k := BlockOf(t, s, x), PosOf(t, s, x);
    IndexCovers(c * t, t, s, x);
    assert BlockFromTrees(prg, t, roots[d - 1][j], a[d - 1], b[d - 1], j, k);
  }

  /** The vectors that the offline phase hands out come from the trees of the first and the last
      layer. */
  lemma EndsOfTrees(prg: Prg, c: nat, t: nat, perms: seq<LayerPerms>, roots: NetworkRoots, a: Layers, b: Layers,
                    k: Keys)
    requires c >= 2 && ValidNetwork(c, t, perms) && RootsFit(c, t, perms, roots) && Ends(c, t, a, b, k.a, k.b)
    requires FromTrees(prg, t, roots[0], a[0], b[0])
    requires FromTrees(prg, t, roots[2 * c - 2], a[2 * c - 2], b[2 * c - 2])
    ensures KeysOfTrees(prg, c, t, roots, k)
  {
    hide Pow2, SuffixLen, ColumnOfTree, RowOfTree, FromTrees, ValidNetwork;
    NetworkSize(c, t, perms);
    forall x | 0 <= x < Pow2(c * t)
      ensures ColumnOfTree(prg, t, SuffixLen(c, t, 0), roots[0], x, k.a[x])
           && RowOfTree(prg, t, SuffixLen(c, t, 2 * c - 2), roots[2 * c - 2], x, k.b[x])
    {
      FirstColumns(prg, c, t, perms, roots, a, b, k.a, k.b, x);
      LastRows(prg, c, t, perms, roots, a, b, k.a, k.b, x);
    }
  }

  /** The whole protocol for networks of more than one layer: ideal OTs, share translations,
      offline folding and the online rounds. Whatever the roots and masks, if no tree hits the
      zero block then the shares of the result add up to the shared vector read through the
      two composed permutations, BOB's share is ALICE's mask less row sums of his trees, every
      message sent is masked by a mask or by sums of the sender's trees, and none is left over. */
  method ShuffleEndToEnd(io: NetIO, prg: Prg, c: nat, t: nat,
                         permsA: seq<LayerPerms>, permsB: seq<LayerPerms>,
                         rootsA: NetworkRoots, rootsB: NetworkRoots,
                         xA: seq<Block>, maskA: seq<Block>, xB: array<Block>, maskB: seq<Block>)
    returns (outA: seq<Block>, outB: seq<Block>, ghost alice: Keys, ghost bob: Keys)
    requires c >= 2 && ValidNetwork(c, t, permsA) && ValidNetwork(c, t, permsB)
    requires RootsFit(c, t, permsB, rootsA) && NetworkUsable(prg, c, t, permsB, rootsA)
    requires RootsFit(c, t, permsA, rootsB) && NetworkUsable(prg, c, t, permsA, rootsB)
    requires |xA| == |maskA| == xB.Length == |maskB| == Pow2(c * t)
    requires io.toAlice == [] && io.toBob == []
    modifies io, xB
    ensures io.toAlice == [] && io.toBob == []
    ensures |outA| == |outB| == |xA| == |alice.a| == |alice.b| == |bob.a| == |bob.b|
    ensures AddAll(outA, outB)
         == Through(Through(AddAll(xA, old(xB[..])), Composed(c, t, permsB, |permsB|)),
                    Composed(c, t, permsA, |permsA|))
    ensures alice.perm == Composed(c, t, permsA, |permsA|) && bob.perm == Composed(c, t, permsB, |permsB|)
    ensures KeysOfTrees(prg, c, t, rootsA, alice) && KeysOfTrees(prg, c, t, rootsB, bob)
    ensures outB == SubAll(maskA, bob.b)
    ensures io.sentToBob == old(io.sentToBob) + [AddAll(xA, alice.a), maskA]
    ensures io.sentToAlice == old(io.sentToAlice) + [maskB,
      AddAll(SubAll(Through(AddAll(xA, old(xB[..])), bob.perm), SubAll(maskB, alice.b)), bob.a)]
  {
    hide Pow2, Composed, NetworkUsable, LayersTranslate, ValidNetwork, RootsFit, AddAll, SubAll, Through, FromTrees,
         Ends, KeysOfTrees, SuffixLen;
    NetworkSize(c, t, permsA);
    NetworkSize(c, t, permsB);
    var aA, bA, deltasB := TranslateNetwork(prg, c, t, permsB, rootsA);
    var aB, bB, deltasA := TranslateNetwork(prg, c, t, permsA, rootsB);
    var permA, kA, permB, kB :=
      OfflineBoth(c, t, permsA, permsB, aA, bA, deltasA, aB, bB, deltasB);
    TranslatesPerm(permA, kB.0, kB.1, kA.2);
    TranslatesPerm(permB, kA.0, kA.1, kB.2);
    var keysA, keysB := Keys(permA, kA.2, kA.0, kA.1), Keys(permB, kB.2, kB.0, kB.1);
    alice, bob := keysA, keysB;
    outA, outB := SecretSharedShuffle(io, xA, keysA, maskA, xB, keysB, maskB);
    EndsOfTrees(prg, c, t, permsB, rootsA, aA, bA, alice);
    EndsOfTrees(prg, c, t, permsA, rootsB, aB, bB, bob);
  }

  lemma NetworkSize(c: nat, t: nat, perms: seq<LayerPerms>)
    requires ValidNetwork(c, t, perms)
    ensures |perms| == 2 * c - 1
  {
  }
}
