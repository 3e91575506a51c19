/** Permutations of [0, n) as sequences, read as `out[i] = v[perm[i]]`. */
module Permutations {

  ghost predicate IsPerm(perm: seq<nat>) {
    && (forall i :: 0 <= i < |perm| ==> perm[i] < |perm|)
    && (forall i, j :: 0 <= i < j < |perm| ==> perm[i] != perm[j])
  }

  function Identity(n: nat): (p: seq<nat>)
    ensures |p| == n
  {
    seq(n, i requires 0 <= i => i)
  }

  /** The sequence read through `perm`: SimplePerm of ss_shuffle.cc. */
  function Through<A>(v: seq<A>, perm: seq<nat>): (r: seq<A>)
    requires forall i :: 0 <= i < |perm| ==> perm[i] < |v|
    ensures |r| == |perm|
  {
    seq(|perm|, i requires 0 <= i < |perm| => v[perm[i]])
  }

  lemma ThroughPerm(p: seq<nat>, q: seq<nat>)
    requires IsPerm(p) && IsPerm(q) && |p| == |q|
    ensures IsPerm(Through(p, q))
  {
  }

  // ---------- a permutation keeps the multiset ----------

  /** The values of `v` at the positions of `s` below `n`. */
  ghost function Picked<A>(v: seq<A>, n: nat, s: set<nat>): multiset<A>
    requires n <= |v|
  {
    if n == 0 then multiset{}
    else if n - 1 in s then Picked(v, n - 1, s) + multiset{v[n - 1]}
    else Picked(v, n - 1, s)
  }

  lemma {:induction false} PickedAll<A>(v: seq<A>, n: nat, s: set<nat>)
    requires n <= |v| && forall i :: 0 <= i < n ==> i in s
    ensures Picked(v, n, s) == multiset(v[..n])
  {
    if n > 0 {
      PickedAll(v, n - 1, s);
      assert v[..n] == v[..n - 1] + [v[n - 1]];
    }
  }

  lemma {:induction false} PickedAdd<A>(v: seq<A>, n: nat, s: set<nat>, k: nat)
    requires n <= |v| && k !in s
    ensures k < n ==> Picked(v, n, s + {k}) == Picked(v, n, s) + multiset{v[k]}
    ensures k >= n ==> Picked(v, n, s + {k}) == Picked(v, n, s)
  {
    if n > 0 {
      PickedAdd(v, n - 1, s, k);
      if k < n - 1 {
        assert n - 1 in s <==> n - 1 in s + {k};
        SumSwap(Picked(v, n - 1, s), multiset{v[k]}, multiset{v[n - 1]});
      }
    }
  }

  lemma SumSwap<A>(x: multiset<A>, y: multiset<A>, z: multiset<A>)
    ensures x + y + z == x + z + y
  {
  }

  ghost function Values(perm: seq<nat>, m: nat): set<nat>
    requires m <= |perm|
  {
    set i | 0 <= i < m :: perm[i]
  }

  lemma {:induction false} ThroughPicked<A>(v: seq<A>, perm: seq<nat>, m: nat)
    requires IsPerm(perm) && |perm| == |v| && m <= |v|
    ensures multiset(Through(v, perm)[..m]) == Picked(v, |v|, Values(perm, m))
  {
    if m == 0 {
      assert Values(perm, 0) == {};
      PickedNone(v, |v|);
    } else {
      ThroughPicked(v, perm, m - 1);
      var prior, k := Values(perm, m - 1), perm[m - 1];
      assert Values(perm, m) == prior + {k};
      PickedAdd(v, |v|, prior, k);
      assert Through(v, perm)[..m] == Through(v, perm)[..m - 1] + [v[k]];
    }
  }

  lemma {:induction false} PickedNone<A>(v: seq<A>, n: nat)
    requires n <= |v|
    ensures Picked(v, n, {}) == multiset{}
  {
    if n > 0 {
      PickedNone(v, n - 1);
    }
  }

  ghost function Below(n: nat): (s: set<nat>)
    ensures |s| == n && forall i: nat :: i in s <==> i < n
  {
    if n == 0 then {} else Below(n - 1) + {n - 1}
  }

  /** A permutation hits every position. */
  lemma Surjective(perm: seq<nat>, k: nat)
    requires IsPerm(perm) && k < |perm|
    ensures k in Values(perm, |perm|)
  {
    var hit := Values(perm, |perm|);
    DistinctCount(perm, |perm|);
    if k !in hit {
      SubsetSize(hit, Below(|perm|) - {k});
    }
  }

  lemma {:induction false} DistinctCount(perm: seq<nat>, m: nat)
    requires IsPerm(perm) && m <= |perm|
    ensures |Values(perm, m)| == m
  {
    if m > 0 {
      DistinctCount(perm, m - 1);
      assert Values(perm, m) == Values(perm, m - 1) + {perm[m - 1]};
    }
  }

  lemma {:induction false} SubsetSize(a: set<nat>, b: set<nat>)
    requires a <= b
    ensures |a| <= |b|
  {
    if a != {} {
      var x :| x in a;
      SubsetSize(a - {x}, b - {x});
    }
  }

  /** Reading through a permutation keeps the multiset of values. */
  lemma ThroughMultiset<A>(v: seq<A>, perm: seq<nat>)
    requires IsPerm(perm) && |perm| == |v|
    ensures multiset(Through(v, perm)) == multiset(v)
  {
    ThroughPicked(v, perm, |v|);
    forall i | 0 <= i < |v| ensures i in Values(perm, |v|) {
      Surjective(perm, i);
    }
    PickedAll(v, |v|, Values(perm, |v|));
    assert Through(v, perm)[..|v|] == Through(v, perm) && v[..|v|] == v;
  }
}
