/** From shared values to the recipient (pvfss/src/test.cc, RunBenchmarkCase): shuffle, compress,
    and open the compressed shares in the field. When does the recipient get the nonzero values? */
module Recovery {
  import opened Bits
  import opened Blocks
  import opened Network
  import opened Permutations
  import opened PermNetwork
  import Opv
  import Offline
  import Shuffle
  import opened Compression
  import Field61

  /** What the two servers' shares of index `i` open to once they are reduced. */
  function OpenedShare(u: seq<Block>, v: seq<Block>, i: nat): Field61.Elem
    requires i < |u| == |v|
  {
    Field61.FAdd(u[i].lo % Field61.P, v[i].lo % Field61.P)
  }

  /** The values the recipient opens, for the recorded indices below `n` in order. */
  function Recovered(u: seq<Block>, v: seq<Block>, ran: Lane, n: nat): seq<nat>
    requires n <= |u| == |v|
  {
    if n == 0 then []
    else
      Recovered(u, v, ran, n - 1) + When(Seen(u, v, ran, n - 1), OpenedShare(u, v, n - 1))
  }

  /** The test records index `i`. */
  predicate Seen(u: seq<Block>, v: seq<Block>, ran: Lane, i: nat)
    requires i < |u| == |v|
  {
    Opened(Joint(u, v, i), ran) != 0
  }

  function When(cond: bool, x: nat): seq<nat> {
    if cond then [x] else []
  }

  /** How often `w` occurs. */
  function Count(s: seq<nat>, w: nat): nat {
    if s == [] then 0 else Count(s[..|s| - 1], w) + if s[|s| - 1] == w then 1 else 0
  }

  lemma {:induction false} CountIs(s: seq<nat>, w: nat)
    ensures Count(s, w) == multiset(s)[w]
  {
    if s != [] {
      CountIs(s[..|s| - 1], w);
      assert s == s[..|s| - 1] + [s[|s| - 1]];
    }
  }

  lemma CountWhen(s: seq<nat>, cond: bool, x: nat, w: nat)
    ensures Count(s + When(cond, x), w) == Count(s, w) + if cond && x == w then 1 else 0
    ensures s + When(cond, x) == [] <==> s == [] && !cond
  {
    assert (s + [x])[..|s|] == s;
    assert s + [] == s;
  }

  lemma EqualByCounts(s: seq<nat>, r: seq<nat>)
    requires forall w: nat :: Count(s, w) == Count(r, w)
    ensures multiset(s) == multiset(r)
  {
    hide Count;
    forall w: nat ensures multiset(s)[w] == multiset(r)[w] {
      CountIs(s, w);
      CountIs(r, w);
    }
  }

  /** The receiving code: nothing for lists of different lengths, otherwise the field sums. */
  method OpenShares(shares0: seq<nat>, shares1: seq<nat>) returns (ok: bool, decoded: seq<nat>)
    ensures ok <==> |shares0| == |shares1|
    ensures ok ==>
      && |decoded| == |shares0|
      && forall i :: 0 <= i < |decoded| ==> decoded[i] == Field61.FAdd(shares0[i], shares1[i])
  {
    hide Field61.FAdd;
    decoded := [];
    if |shares0| != |shares1| {
      return false, decoded;
    }
    for i := 0 to |shares0|
      invariant |decoded| == i && forall k :: 0 <= k < i ==> decoded[k] == Field61.FAdd(shares0[k], shares1[k])
    {
      decoded := decoded + [Field61.FAdd(shares0[i], shares1[i])];
    }
    ok := true;
  }

  lemma {:induction false} RecoveredAt(u: seq<Block>, v: seq<Block>, ran: Lane, n: nat)
    requires n <= |u| == |v|
    ensures |Recovered(u, v, ran, n)| == |Recorded(u, v, ran, n)|
    ensures forall k :: 0 <= k < |Recorded(u, v, ran, n)| ==>
      && Recorded(u, v, ran, n)[k] < n
      && Recovered(u, v, ran, n)[k] == OpenedShare(u, v, Recorded(u, v, ran, n)[k])
  {
    hide Opened, Joint, OpenedShare;
    if n > 0 {
      RecoveredAt(u, v, ran, n - 1);
    }
  }

  // ---------- the values that were shared ----------

  function Lows(s: seq<Block>): (r: seq<nat>)
    ensures |r| == |s|
  {
    seq(|s|, i requires 0 <= i < |s| => s[i].lo)
  }

  /** The nonzero values of a vector, with their multiplicities. */
  ghost function NonzeroValues(s: seq<Block>): multiset<nat> {
    multiset(Lows(s))[0 := 0]
  }

  /** They do not change when the vector is read through a permutation. */
  lemma ShuffledValues(s: seq<Block>, perm: seq<nat>)
    requires IsPerm(perm) && |perm| == |s|
    ensures NonzeroValues(Through(s, perm)) == NonzeroValues(s)
  {
    assert Lows(Through(s, perm)) == Through(Lows(s), perm);
    ThroughMultiset(Lows(s), perm);
  }

  /** The nonzero shared values below index `n`, in order. */
  function Nonzero(u: seq<Block>, v: seq<Block>, n: nat): seq<nat>
    requires n <= |u| == |v|
  {
    if n == 0 then []
    else Nonzero(u, v, n - 1) + When(Joint(u, v, n - 1) != 0, Joint(u, v, n - 1))
  }

  lemma {:induction false} NonzeroCount(u: seq<Block>, v: seq<Block>, n: nat, w: nat)
    requires n <= |u| == |v|
    ensures Count(Nonzero(u, v, n), w) == if w == 0 then 0 else Count(Lows(Offline.AddAll(u, v))[..n], w)
  {
    hide AddLane, When, Count, Lows, Offline.AddAll;
    CountNone(w);
    var lows := Lows(Offline.AddAll(u, v));
    if n == 0 {
      assert lows[..0] == [];
    } else {
      NonzeroCount(u, v, n - 1, w);
      LowIsJoint(u, v, n - 1);
      var value: nat := Joint(u, v, n - 1);
      assert lows[..n] == lows[..n - 1] + [value];
      CountWhen(Nonzero(u, v, n - 1), value != 0, value, w);
      CountWhen(lows[..n - 1], true, value, w);
      WhenTrue(value);
    }
  }

  lemma WhenTrue(x: nat)
    ensures When(true, x) == [x]
  {
  }

  lemma CountNone(w: nat)
    ensures Count([], w) == 0
  {
  }

  lemma LowIsJoint(u: seq<Block>, v: seq<Block>, i: nat)
    requires i < |u| == |v|
    ensures Lows(Offline.AddAll(u, v))[i] == Joint(u, v, i)
  {
  }

  lemma NonzeroIs(u: seq<Block>, v: seq<Block>)
    requires |u| == |v|
    ensures multiset(Nonzero(u, v, |u|)) == NonzeroValues(Offline.AddAll(u, v))
  {
    hide Count, Nonzero, Lows, Offline.AddAll;
    var lows := Lows(Offline.AddAll(u, v));
    assert lows[..|u|] == lows;
    forall w: nat ensures multiset(Nonzero(u, v, |u|))[w] == multiset(lows)[0 := 0][w] {
      NonzeroCount(u, v, |u|, w);
      CountIs(Nonzero(u, v, |u|), w);
      CountIs(lows, w);
    }
  }

  // ---------- kept, lost and moved values ----------

  predicate Stays(u: seq<Block>, v: seq<Block>, ran: Lane, i: nat)
    requires i < |u| == |v|
  {
    Seen(u, v, ran, i) && OpenedShare(u, v, i) == Joint(u, v, i)
  }

  /** Recorded values that open to themselves. */
  function Kept(u: seq<Block>, v: seq<Block>, ran: Lane, n: nat): seq<nat>
    requires n <= |u| == |v|
  {
    if n == 0 then []
    else Kept(u, v, ran, n - 1) + When(Stays(u, v, ran, n - 1), Joint(u, v, n - 1))
  }

  predicate Moves(u: seq<Block>, v: seq<Block>, ran: Lane, i: nat)
    requires i < |u| == |v|
  {
    Seen(u, v, ran, i) && OpenedShare(u, v, i) != Joint(u, v, i)
  }

  /** Recorded values that open to something else, and what they open to. */
  function Moved(u: seq<Block>, v: seq<Block>, ran: Lane, n: nat): seq<nat>
    requires n <= |u| == |v|
  {
    if n == 0 then []
    else Moved(u, v, ran, n - 1) + When(Moves(u, v, ran, n - 1), Joint(u, v, n - 1))
  }

  function Images(u: seq<Block>, v: seq<Block>, ran: Lane, n: nat): seq<nat>
    requires n <= |u| == |v|
  {
    if n == 0 then []
    else Images(u, v, ran, n - 1) + When(Moves(u, v, ran, n - 1), OpenedShare(u, v, n - 1))
  }

  predicate Misses(u: seq<Block>, v: seq<Block>, ran: Lane, i: nat)
    requires i < |u| == |v|
  {
    !Seen(u, v, ran, i) && Joint(u, v, i) != 0
  }

  /** Nonzero values that are not recorded. */
  function Lost(u: seq<Block>, v: seq<Block>, ran: Lane, n: nat): seq<nat>
    requires n <= |u| == |v|
  {
    if n == 0 then []
    else Lost(u, v, ran, n - 1) + When(Misses(u, v, ran, n - 1), Joint(u, v, n - 1))
  }

  lemma SeenIsNonzero(u: seq<Block>, v: seq<Block>, ran: Lane, i: nat)
    requires i < |u| == |v|
    ensures Seen(u, v, ran, i) <==> (Joint(u, v, i) * ran) % Pow2(62) != 0
    ensures Seen(u, v, ran, i) ==> Joint(u, v, i) != 0
  {
    hide Opened, Joint, Pow2;
    OpenedZeroIff(Joint(u, v, i), ran);
    ZeroProduct(ran);
  }

  /** A nonzero value is kept, moved or lost, only one of them; a recorded one is not lost. */
  lemma Parts(u: seq<Block>, v: seq<Block>, ran: Lane, i: nat)
    requires i < |u| == |v|
    ensures Joint(u, v, i) != 0 <==> Stays(u, v, ran, i) || Moves(u, v, ran, i) || Misses(u, v, ran, i)
    ensures Seen(u, v, ran, i) <==> Stays(u, v, ran, i) || Moves(u, v, ran, i)
    ensures !(Stays(u, v, ran, i) && Moves(u, v, ran, i)) && !(Seen(u, v, ran, i) && Misses(u, v, ran, i))
    ensures Stays(u, v, ran, i) ==> OpenedShare(u, v, i) == Joint(u, v, i)
  {
    hide Seen, Joint, OpenedShare;
    SeenIsNonzero(u, v, ran, i);
  }

  lemma {:induction false} SplitRecovered(u: seq<Block>, v: seq<Block>, ran: Lane, n: nat, w: nat)
    requires n <= |u| == |v|
    ensures Count(Recovered(u, v, ran, n), w) == Count(Kept(u, v, ran, n), w) + Count(Images(u, v, ran, n), w)
  {
    hide Seen, Joint, OpenedShare, When, Stays, Moves, Count;
    CountNone(w);
    if n > 0 {
      SplitRecovered(u, v, ran, n - 1, w);
      Parts(u, v, ran, n - 1);
      var share: nat, value: nat := OpenedShare(u, v, n - 1), Joint(u, v, n - 1);
      CountWhen(Recovered(u, v, ran, n - 1), Seen(u, v, ran, n - 1), share, w);
      CountWhen(Kept(u, v, ran, n - 1), Stays(u, v, ran, n - 1), value, w);
      CountWhen(Images(u, v, ran, n - 1), Moves(u, v, ran, n - 1), share, w);
    }
  }

  lemma {:induction false} SplitNonzero(u: seq<Block>, v: seq<Block>, ran: Lane, n: nat, w: nat)
    requires n <= |u| == |v|
    ensures Count(Nonzero(u, v, n), w)
         == Count(Kept(u, v, ran, n), w) + Count(Moved(u, v, ran, n), w) + Count(Lost(u, v, ran, n), w)
  {
    hide Seen, Joint, OpenedShare, When, Stays, Moves, Misses, Count;
    CountNone(w);
    if n > 0 {
      SplitNonzero(u, v, ran, n - 1, w);
      Parts(u, v, ran, n - 1);
      var value: nat := Joint(u, v, n - 1);
      CountWhen(Nonzero(u, v, n - 1), value != 0, value, w);
      CountWhen(Kept(u, v, ran, n - 1), Stays(u, v, ran, n - 1), value, w);
      CountWhen(Moved(u, v, ran, n - 1), Moves(u, v, ran, n - 1), value, w);
      CountWhen(Lost(u, v, ran, n - 1), Misses(u, v, ran, n - 1), value, w);
    }
  }

  /** A value that moves and is in the field moves by 8. */
  lemma {:induction false} MovedByEight(u: seq<Block>, v: seq<Block>, ran: Lane, n: nat)
    requires n <= |u| == |v|
    ensures |Images(u, v, ran, n)| == |Moved(u, v, ran, n)|
    ensures forall k :: 0 <= k < |Moved(u, v, ran, n)| ==>
      && Moved(u, v, ran, n)[k] != 0 && Images(u, v, ran, n)[k] < Field61.P
      && (Moved(u, v, ran, n)[k] < Field61.P ==>
           Images(u, v, ran, n)[k] == (Moved(u, v, ran, n)[k] + 8) % Field61.P)
  {
    hide Seen, Joint, OpenedShare, Pow2;
    if n > 0 {
      MovedByEight(u, v, ran, n - 1);
      SeenIsNonzero(u, v, ran, n - 1);
      OpensTo(u, v, n - 1);
    }
  }

  lemma OpensTo(u: seq<Block>, v: seq<Block>, i: nat)
    requires i < |u| == |v|
    ensures OpenedShare(u, v, i) < Field61.P
    ensures OpenedShare(u, v, i) == Joint(u, v, i)
       <==> Joint(u, v, i) < Field61.P && u[i].lo + v[i].lo < LANE
    ensures Joint(u, v, i) < Field61.P && OpenedShare(u, v, i) != Joint(u, v, i) ==>
      OpenedShare(u, v, i) == (Joint(u, v, i) + 8) % Field61.P
  {
    hide Field61.FAdd, AddLane;
    RecoveryExact(u[i].lo, v[i].lo);
  }

  // ---------- no multiset moves onto itself ----------

  /** `b` is `a` with every value moved by 8 in the field. */
  predicate Shifted(a: seq<nat>, b: seq<nat>) {
    && |a| == |b|
    && forall k :: 0 <= k < |a| ==> a[k] < Field61.P && b[k] == (a[k] + 8) % Field61.P
  }

  lemma {:induction false} ShiftedCount(a: seq<nat>, b: seq<nat>, w: nat)
    requires Shifted(a, b) && w < Field61.P
    ensures Count(b, (w + 8) % Field61.P) == Count(a, w)
  {
    if a != [] {
      var m := |a| - 1;
      ShiftedCount(a[..m], b[..m], w);
      SameShift(a[m], w);
    }
  }

  lemma SameShift(x: nat, y: nat)
    requires x < Field61.P && y < Field61.P
    ensures (x + 8) % Field61.P == (y + 8) % Field61.P <==> x == y
  {
  }

  /** All values are reached from 0 in steps of 8: the field has prime order. */
  lemma {:induction false} NoneReached(a: seq<nat>, b: seq<nat>, k: nat)
    requires Shifted(a, b) && (forall w: nat :: Count(a, w) == Count(b, w)) && Count(a, 0) == 0
    ensures Count(a, (8 * k) % Field61.P) == 0
  {
    hide Shifted, Count;
    if k > 0 {
      NoneReached(a, b, k - 1);
      ShiftedCount(a, b, (8 * (k - 1)) % Field61.P);
      NextMultiple(k - 1);
    }
  }

  lemma NextMultiple(k: nat)
    ensures ((8 * k) % Field61.P + 8) % Field61.P == (8 * (k + 1)) % Field61.P
  {
    ModOfSum(8 * k, 8, Field61.P);
  }

  lemma EveryValueReached(w: nat)
    requires w < Field61.P
    ensures (8 * (0x400_0000_0000_0000 * w)) % Field61.P == w
  {
    DivUnique(8 * (0x400_0000_0000_0000 * w), Field61.P, w, w);
  }

  lemma ShiftIsNoPermutation(a: seq<nat>, b: seq<nat>)
    requires Shifted(a, b) && (forall w: nat :: Count(a, w) == Count(b, w)) && Count(a, 0) == 0
    ensures a == []
  {
    hide Shifted, Count;
    if a != [] {
      ShiftedBound(a, b);
      NoneReached(a, b, 0x400_0000_0000_0000 * a[0]);
      EveryValueReached(a[0]);
      CountIs(a, a[0]);
    }
  }

  lemma ShiftedBound(a: seq<nat>, b: seq<nat>)
    requires Shifted(a, b) && a != []
    ensures a[0] < Field61.P
  {
  }

  // ---------- exactly when everything comes back ----------

  /** A value comes back: the test sees it, it is a field value and its low lanes do not carry. */
  predicate ComesBack(u: seq<Block>, v: seq<Block>, ran: Lane, i: nat)
    requires i < |u| == |v|
  {
    && (Joint(u, v, i) * ran) % Pow2(62) != 0
    && Joint(u, v, i) < Field61.P
    && u[i].lo + v[i].lo < LANE
  }

  predicate AllComeBack(u: seq<Block>, v: seq<Block>, ran: Lane, n: nat)
    requires n <= |u| == |v|
  {
    forall i :: 0 <= i < n && Joint(u, v, i) != 0 ==> ComesBack(u, v, ran, i)
  }

  lemma {:induction false} NoneMovedOrLost(u: seq<Block>, v: seq<Block>, ran: Lane, n: nat)
    requires n <= |u| == |v|
    ensures Moved(u, v, ran, n) == [] && Lost(u, v, ran, n) == [] <==> AllComeBack(u, v, ran, n)
  {
    hide Seen, Joint, OpenedShare, Pow2, When, Moves, Misses, ComesBack, Count;
    if n > 0 {
      NoneMovedOrLost(u, v, ran, n - 1);
      BackOrNot(u, v, ran, n - 1);
      CountWhen(Moved(u, v, ran, n - 1), Moves(u, v, ran, n - 1), Joint(u, v, n - 1), 0);
      CountWhen(Lost(u, v, ran, n - 1), Misses(u, v, ran, n - 1), Joint(u, v, n - 1), 0);
    }
  }

  lemma BackOrNot(u: seq<Block>, v: seq<Block>, ran: Lane, i: nat)
    requires i < |u| == |v|
    ensures !Moves(u, v, ran, i) && !Misses(u, v, ran, i) <==> (Joint(u, v, i) != 0 ==> ComesBack(u, v, ran, i))
  {
    hide Seen, Joint, OpenedShare, Pow2;
    SeenIsNonzero(u, v, ran, i);
    OpensTo(u, v, i);
  }

  /** The recipient gets exactly the nonzero shared values, with their multiplicities, if and
      only if every nonzero value is seen by the test, is a field value and has low lanes that do
      not carry: moved values never stand in for each other. */
  lemma RecoveredExact(u: seq<Block>, v: seq<Block>, ran: Lane)
    requires |u| == |v|
    ensures multiset(Recovered(u, v, ran, |u|)) == multiset(Nonzero(u, v, |u|)) <==> AllComeBack(u, v, ran, |u|)
  {
    hide *;
    var kept, moved := Kept(u, v, ran, |u|), Moved(u, v, ran, |u|);
    var images, lost := Images(u, v, ran, |u|), Lost(u, v, ran, |u|);
    forall w: nat
      ensures Count(Recovered(u, v, ran, |u|), w) == Count(kept, w) + Count(images, w)
      ensures Count(Nonzero(u, v, |u|), w) == Count(kept, w) + Count(moved, w) + Count(lost, w)
    {
      SplitRecovered(u, v, ran, |u|, w);
      SplitNonzero(u, v, ran, |u|, w);
    }
    MovedByEight(u, v, ran, |u|);
    NoneMovedOrLost(u, v, ran, |u|);
    if multiset(Recovered(u, v, ran, |u|)) == multiset(Nonzero(u, v, |u|)) {
      forall w: nat ensures Count(images, w) == Count(moved, w) + Count(lost, w) {
        CountIs(Recovered(u, v, ran, |u|), w);
        CountIs(Nonzero(u, v, |u|), w);
      }
      MovesCancel(moved, images, lost);
    } else if moved == [] && lost == [] {
      assert images == [];
      forall w: nat ensures Count(Recovered(u, v, ran, |u|), w) == Count(Nonzero(u, v, |u|), w) {
        CountNone(w);
      }
      EqualByCounts(Recovered(u, v, ran, |u|), Nonzero(u, v, |u|));
    }
  }

  lemma MovesCancel(moved: seq<nat>, images: seq<nat>, lost: seq<nat>)
    requires |images| == |moved| && forall w: nat :: Count(images, w) == Count(moved, w) + Count(lost, w)
    requires forall k :: 0 <= k < |moved| ==>
      && moved[k] != 0 && images[k] < Field61.P
      && (moved[k] < Field61.P ==> images[k] == (moved[k] + 8) % Field61.P)
    ensures moved == [] && lost == []
  {
    hide Count;
    NothingLost(moved, images, lost);
    forall w: nat ensures Count(moved, w) == Count(images, w) {
      CountNone(w);
    }
    forall k | 0 <= k < |moved| ensures moved[k] < Field61.P {
      CountIs(moved, moved[k]);
      CountIs(images, moved[k]);
      assert moved[k] in multiset(images);
    }
    CountIs(moved, 0);
    assert 0 !in moved;
    ShiftIsNoPermutation(moved, images);
  }

  lemma NothingLost(moved: seq<nat>, images: seq<nat>, lost: seq<nat>)
    requires |images| == |moved| && forall w: nat :: Count(images, w) == Count(moved, w) + Count(lost, w)
    ensures lost == []
  {
    hide Count;
    forall w: nat ensures multiset(images)[w] == (multiset(moved) + multiset(lost))[w] {
      CountIs(images, w);
      CountIs(moved, w);
      CountIs(lost, w);
    }
    assert multiset(images) == multiset(moved) + multiset(lost);
    assert |multiset(images)| == |images| && |multiset(moved)| == |moved| && |multiset(lost)| == |lost|;
  }

  // ---------- the pipeline ----------

  /** No nonzero value has low lanes that carry. */
  predicate NoCarries(u: seq<Block>, v: seq<Block>)
    requires |u| == |v|
  {
    forall i :: 0 <= i < |u| && Joint(u, v, i) != 0 ==> u[i].lo + v[i].lo < LANE
  }

  /** For field values and a factor that is no multiple of 4 only the carries matter. */
  lemma OnlyCarriesMatter(u: seq<Block>, v: seq<Block>, ran: Lane)
    requires |u| == |v| && ran % 4 != 0
    requires forall x :: x in NonzeroValues(Offline.AddAll(u, v)) ==> x < Field61.P
    ensures AllComeBack(u, v, ran, |u|) <==> NoCarries(u, v)
  {
    hide Pow2, Opened, AddLane;
    SmallPower();
    FactorExact(ran, 1);
    forall i | 0 <= i < |u| && Joint(u, v, i) != 0
      ensures Joint(u, v, i) < Field61.P && (Joint(u, v, i) * ran) % Pow2(62) != 0
    {
      assert Lows(Offline.AddAll(u, v))[i] == Joint(u, v, i);
      assert Joint(u, v, i) in NonzeroValues(Offline.AddAll(u, v));
      OpenedZeroIff(Joint(u, v, i), ran);
    }
  }

  lemma SmallPower()
    ensures Pow2(2) == 4 && Field61.P < Pow2(61)
  {
    hide Pow2;
    LaneIsPow2();
    Pow2Step(64);
    Pow2Step(63);
    Pow2Step(62);
    Pow2Step(2);
    Pow2Step(1);
    Pow2Step(0);
  }

  /** Shuffle, compression and opening of both servers and the recipient. For all roots without
      zero nodes, all masks and all factors the recipient gets the nonzero shared values if and
      only if all of them come back; for field values and factors that are no multiples of 4, if
      and only if no low lanes of their shuffled shares carry. */
  method ShuffleAndRecover(io: NetIO, prg: Opv.Prg, c: nat, t: nat,
                           permsA: seq<LayerPerms>, permsB: seq<LayerPerms>,
                           rootsA: Shuffle.NetworkRoots, rootsB: Shuffle.NetworkRoots,
                           xA: seq<Block>, maskA: seq<Block>, xB: array<Block>, maskB: seq<Block>,
                           ran: Block, alice: Party, bob: Party)
    returns (recovered: seq<nat>, outA: seq<Block>, outB: seq<Block>,
             ghost keysA: Shuffle.Keys, ghost keysB: Shuffle.Keys)
    requires c >= 2 && ValidNetwork(c, t, permsA) && ValidNetwork(c, t, permsB)
    requires Shuffle.RootsFit(c, t, permsB, rootsA) && Shuffle.NetworkUsable(prg, c, t, permsB, rootsA)
    requires Shuffle.RootsFit(c, t, permsA, rootsB) && Shuffle.NetworkUsable(prg, c, t, permsA, rootsB)
    requires |xA| == |maskA| == xB.Length == |maskB| == Pow2(c * t)
    requires Triple(alice, bob) && io.toAlice == [] && io.toBob == []
    modifies io, xB
    ensures |outA| == |outB| == |xA| == |keysB.b| && outB == Shuffle.SubAll(maskA, keysB.b)
    ensures Shuffle.KeysOfTrees(prg, c, t, rootsA, keysA) && Shuffle.KeysOfTrees(prg, c, t, rootsB, keysB)
    ensures io.sentToBob == old(io.sentToBob) + [Offline.AddAll(xA, keysA.a), maskA]
                            + SentToBob(outA, outB, ran, alice, bob, |outA|)
    ensures keysA.perm == Composed(c, t, permsA, |permsA|) && keysB.perm == Composed(c, t, permsB, |permsB|)
    ensures io.sentToAlice == old(io.sentToAlice)
      + [maskB, Offline.AddAll(Shuffle.SubAll(Through(Offline.AddAll(xA, old(xB[..])), keysB.perm),
                                              Shuffle.SubAll(maskB, keysA.b)), keysB.a)]
      + SentToAlice(outA, outB, ran, alice, bob, |outA|)
    ensures io.toAlice == [] && io.toBob == []
    ensures recovered == Recovered(outA, outB, ran.lo, |outA|)
    ensures multiset(recovered) == NonzeroValues(Offline.AddAll(xA, old(xB[..])))
       <==> AllComeBack(outA, outB, ran.lo, |outA|)
    ensures ran.lo % 4 != 0 && (forall x :: x in NonzeroValues(Offline.AddAll(xA, old(xB[..]))) ==> x < Field61.P) ==>
      (multiset(recovered) == NonzeroValues(Offline.AddAll(xA, old(xB[..]))) <==> NoCarries(outA, outB))
  {
    hide *;
    ghost var total := Offline.AddAll(xA, xB[..]);
    ghost var permA, permB := Composed(c, t, permsA, |permsA|), Composed(c, t, permsB, |permsB|);
    outA, outB, keysA, keysB :=
      Shuffle.ShuffleEndToEnd(io, prg, c, t, permsA, permsB, rootsA, rootsB, xA, maskA, xB, maskB);
    SubPermIndices(permA);
    SubPermIndices(permB);
    ShuffledValues(total, permB);
    ShuffledValues(Through(total, permB), permA);
    var indicesA, sharesA, indicesB, sharesB := Cprs(io, outA, outB, ran, alice, bob);
    var ok, decoded := OpenShares(sharesA, sharesB);
    assert ok;
    recovered := decoded;
    DecodedIs(outA, outB, ran.lo, indicesA, sharesA, sharesB, recovered);
    RecoveredExact(outA, outB, ran.lo);
    NonzeroIs(outA, outB);
    if ran.lo % 4 != 0 && forall x :: x in NonzeroValues(total) ==> x < Field61.P {
      OnlyCarriesMatter(outA, outB, ran.lo);
    }
  }

  lemma DecodedIs(u: seq<Block>, v: seq<Block>, ran: Lane, indices: seq<nat>, shares0: seq<nat>, shares1: seq<nat>,
                  decoded: seq<nat>)
    requires |u| == |v| && indices == Recorded(u, v, ran, |u|)
    requires |shares0| == |shares1| == |decoded| == |indices|
    requires OwnShares(u, indices, shares0) && OwnShares(v, indices, shares1)
    requires forall k :: 0 <= k < |indices| ==> decoded[k] == Field61.FAdd(shares0[k], shares1[k])
    ensures decoded == Recovered(u, v, ran, |u|)
  {
    hide Recorded, Recovered, Field61.FAdd;
    RecoveredAt(u, v, ran, |u|);
  }
}
