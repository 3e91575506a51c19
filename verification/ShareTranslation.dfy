/** Share translation (ss_shuffle.cc, ShareTranslation): from one punctured vector per row,
    one party gets column sums `a` and row sums `b`, the other gets `b - a` read through
    its permutation. */
module ShareTranslation {
  import opened Bits
  import opened Blocks
  import opened Opv
  import opened Permutations

  type Matrix = seq<seq<Block>>

  ghost predicate Square(v: Matrix, n: nat) {
    |v| == n && forall i :: 0 <= i < n ==> |v[i]| == n
  }

  function RowSum(v: Matrix, i: nat, m: nat): Block
    requires i < |v| && m <= |v[i]|
  {
    if m == 0 then ZERO_BLOCK else Add(RowSum(v, i, m - 1), v[i][m - 1])
  }

  function ColSum(v: Matrix, i: nat, m: nat): Block
    requires m <= |v| && forall j :: 0 <= j < m ==> i < |v[j]|
  {
    if m == 0 then ZERO_BLOCK else Add(ColSum(v, i, m - 1), v[m - 1][i])
  }

  /** The running value of the permuting party's double loop for output `i`. */
  function DiffSum(v: Matrix, i: nat, p: nat, m: nat): Block
    requires i < |v| && m <= |v[i]| && m <= |v| && forall j :: 0 <= j < m ==> p < |v[j]|
  {
    if m == 0 then ZERO_BLOCK
    else Add(DiffSum(v, i, p, m - 1), Sub(v[i][m - 1], v[m - 1][p]))
  }

  /** `w` is `v` with a zero block in row i, column perm[i]. */
  ghost predicate PuncturedAt(w: Matrix, v: Matrix, perm: seq<nat>) {
    && Square(v, |perm|) && Square(w, |perm|) && IsPerm(perm)
    && forall i :: 0 <= i < |perm| ==> w[i] == v[i][perm[i] := ZERO_BLOCK]
  }

  lemma {:induction false} DiffSplits(v: Matrix, i: nat, p: nat, m: nat)
    requires i < |v| && m <= |v[i]| && m <= |v| && forall j :: 0 <= j < m ==> p < |v[j]|
    ensures DiffSum(v, i, p, m) == Sub(RowSum(v, i, m), ColSum(v, p, m))
  {
    if m > 0 {
      DiffSplits(v, i, p, m - 1);
      hide Add, Sub;
      SubSwapMiddle(RowSum(v, i, m - 1), ColSum(v, p, m - 1), v[i][m - 1], v[m - 1][p]);
    }
  }

  /** Row i of the punctured matrix lacks exactly the entry at column perm[i]. */
  lemma {:induction false} RowLacks(w: Matrix, v: Matrix, perm: seq<nat>, i: nat, m: nat)
    requires PuncturedAt(w, v, perm) && i < |perm| && m <= |perm|
    ensures RowSum(v, i, m)
         == Add(RowSum(w, i, m), if perm[i] < m then v[i][perm[i]] else ZERO_BLOCK)
  {
    if m > 0 {
      RowLacks(w, v, perm, i, m - 1);
      var e := if perm[i] < m - 1 then v[i][perm[i]] else ZERO_BLOCK;
      var prior, own := RowSum(w, i, m - 1), w[i][m - 1];
      if perm[i] == m - 1 {
        AddZero(prior);
      } else {
        AddExchange(prior, e, own);
      }
    }
  }

  /** Column perm[i] of the punctured matrix lacks exactly the entry of row i. */
  lemma {:induction false} ColLacks(w: Matrix, v: Matrix, perm: seq<nat>, i: nat, m: nat)
    requires PuncturedAt(w, v, perm) && i < |perm| && m <= |perm|
    ensures ColSum(v, perm[i], m)
         == Add(ColSum(w, perm[i], m), if i < m then v[i][perm[i]] else ZERO_BLOCK)
  {
    if m > 0 {
      ColLacks(w, v, perm, i, m - 1);
      var e := if i < m - 1 then v[i][perm[i]] else ZERO_BLOCK;
      var prior, own := ColSum(w, perm[i], m - 1), w[m - 1][perm[i]];
      if i == m - 1 {
        AddZero(prior);
      } else {
        AddExchange(prior, e, own);
      }
    }
  }

  /** The double sum over the punctured matrix is the share translation. */
  lemma DeltaIsTranslation(w: Matrix, v: Matrix, perm: seq<nat>, i: nat)
    requires PuncturedAt(w, v, perm) && i < |perm|
    ensures DiffSum(w, i, perm[i], |perm|)
         == Sub(RowSum(v, i, |perm|), ColSum(v, perm[i], |perm|))
  {
    hide Add, Sub, RowSum, ColSum, DiffSum;
    var n := |perm|;
    DiffSplits(w, i, perm[i], n);
    RowLacks(w, v, perm, i, n);
    ColLacks(w, v, perm, i, n);
    SubCancel(RowSum(w, i, n), ColSum(w, perm[i], n), v[i][perm[i]]);
  }

  /** The sums of the party that knows the whole matrix. */
  method FullSums(v: Matrix, a: array<Block>, b: array<Block>)
    requires Square(v, a.Length) && a != b && b.Length == a.Length
    modifies a, b
    ensures forall i :: 0 <= i < a.Length ==> a[i] == ColSum(v, i, a.Length)
    ensures forall i :: 0 <= i < b.Length ==> b[i] == RowSum(v, i, b.Length)
  {
    hide Add;
    var n := a.Length;
    Clear(a);
    Clear(b);
    for i := 0 to n
      invariant forall k :: 0 <= k < i ==> a[k] == ColSum(v, k, n) && b[k] == RowSum(v, k, n)
      invariant forall k :: i <= k < n ==> a[k] == b[k] == ZERO_BLOCK
    {
      for j := 0 to n
        invariant a[i] == ColSum(v, i, j) && b[i] == RowSum(v, i, j)
        invariant forall k :: 0 <= k < i ==> a[k] == ColSum(v, k, n) && b[k] == RowSum(v, k, n)
        invariant forall k :: i < k < n ==> a[k] == b[k] == ZERO_BLOCK
      {
        a[i] := Add(a[i], v[j][i]);
        b[i] := Add(b[i], v[i][j]);
      }
    }
  }

  /** The differences of the party that chose the permutation. */
  method PuncturedSums(v: Matrix, perm: seq<nat>, delta: array<Block>)
    requires Square(v, |perm|) && IsPerm(perm) && delta.Length == |perm|
    modifies delta
    ensures forall i :: 0 <= i < delta.Length ==> delta[i] == DiffSum(v, i, perm[i], |perm|)
  {
    hide Add, Sub;
    var n := |perm|;
    Clear(delta);
    for i := 0 to n
      invariant forall k :: 0 <= k < i ==> delta[k] == DiffSum(v, k, perm[k], n)
      invariant forall k :: i <= k < n ==> delta[k] == ZERO_BLOCK
    {
      for j := 0 to n
        invariant delta[i] == DiffSum(v, i, perm[i], j)
        invariant forall k :: 0 <= k < i ==> delta[k] == DiffSum(v, k, perm[k], n)
        invariant forall k :: i < k < n ==> delta[k] == ZERO_BLOCK
      {
        delta[i] := Add(delta[i], Sub(v[i][j], v[j][perm[i]]));
      }
    }
  }

  method Clear(a: array<Block>)
    modifies a
    ensures forall i :: 0 <= i < a.Length ==> a[i] == ZERO_BLOCK
  {
    for i := 0 to a.Length
      invariant forall k :: 0 <= k < i ==> a[k] == ZERO_BLOCK
    {
      a[i] := ZERO_BLOCK;
    }
  }

  /** No row's tree has a zero inner node off the path to the column the row is punctured at. */
  ghost predicate RootsUsable(prg: Prg, t: nat, roots: seq<Block>, perm: seq<nat>)
    requires |roots| == |perm|
  {
    forall i :: 0 <= i < |roots| ==> NoZeroOffPath(prg, roots[i], perm[i], t, t)
  }

  /** `delta` is `b` minus `a` read through `perm`. */
  ghost predicate Translates(perm: seq<nat>, a: seq<Block>, b: seq<Block>, delta: seq<Block>) {
    && IsPerm(perm) && |a| == |b| == |delta| == |perm|
    && forall i :: 0 <= i < |perm| ==> delta[i] == Sub(b[i], a[perm[i]])
  }

  /** The leaves below all roots, one tree per row. */
  ghost function TreeMatrix(prg: Prg, t: nat, roots: seq<Block>): (v: Matrix)
    ensures |v| == |roots| && forall i :: 0 <= i < |v| ==> |v[i]| == Pow2(t)
  {
    seq(|roots|, i requires 0 <= i < |roots| => Leaves(prg, roots[i], t))
  }

  /** The matrix that the party with the permutation makes of the transfers. */
  ghost function ReceivedMatrix(prg: Prg, t: nat, roots: seq<Block>, perm: seq<nat>): (w: Matrix)
    requires t >= 1 && |roots| == |perm|
    ensures |w| == |roots| && forall i :: 0 <= i < |w| ==> |w[i]| == Pow2(t)
  {
    seq(|roots|, i requires 0 <= i < |roots| => Received(prg, roots[i], perm[i], t))
  }

  /** Both parties of ShareTranslation for 2^t positions; `roots` are the random roots that
      the party without the permutation draws, one per row. */
  method Translate(prg: Prg, t: nat, roots: seq<Block>, perm: seq<nat>)
    returns (a: array<Block>, b: array<Block>, delta: array<Block>)
    requires t >= 1 && |roots| == |perm| == Pow2(t) && IsPerm(perm)
    ensures fresh(a) && fresh(b) && fresh(delta)
    ensures a.Length == b.Length == delta.Length == |perm|
    ensures forall i :: 0 <= i < |perm| ==>
      && a[i] == ColSum(TreeMatrix(prg, t, roots), i, |perm|)
      && b[i] == RowSum(TreeMatrix(prg, t, roots), i, |perm|)
      && delta[i] == DiffSum(ReceivedMatrix(prg, t, roots, perm), i, perm[i], |perm|)
    ensures RootsUsable(prg, t, roots, perm) ==> Translates(perm, a[..], b[..], delta[..])
  {
    hide Pow2, ColSum, RowSum, DiffSum, NoZeroOffPath, Leaves, Received, Add, Sub;
    var n := |perm|;
    ghost var full := TreeMatrix(prg, t, roots);
    var v: Matrix, w: Matrix := [], [];
    for i := 0 to n
      invariant |v| == |w| == i && v == full[..i] && w == ReceivedMatrix(prg, t, roots, perm)[..i]
      invariant forall k :: 0 <= k < i ==> |w[k]| == n
      invariant forall k :: 0 <= k < i && NoZeroOffPath(prg, roots[k], perm[k], t, t) ==>
        w[k] == v[k][perm[k] := ZERO_BLOCK]
    {
      var row, prow := PuncturedVector(prg, t, roots[i], perm[i]);
      v, w := v + [row[..]], w + [prow[..]];
    }
    assert v == full && w == ReceivedMatrix(prg, t, roots, perm);
    a := new Block[n](_ => ZERO_BLOCK);
    b := new Block[n](_ => ZERO_BLOCK);
    delta := new Block[n](_ => ZERO_BLOCK);
    FullSums(v, a, b);
    PuncturedSums(w, perm, delta);
    if RootsUsable(prg, t, roots, perm) {
      forall i | 0 <= i < n ensures delta[i] == Sub(b[i], a[perm[i]]) {
        DeltaIsTranslation(w, v, perm, i);
      }
    }
  }
}
