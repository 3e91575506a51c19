/** The prime field of order 2^61 - 1 (vdpf/include/field61.h). */
module Field61 {

  const P := 0x1FFF_FFFF_FFFF_FFFF

  type Elem = x: nat | x < P

  function Reduce(value: nat): Elem {
    value % P
  }

  function FAdd(left: nat, right: nat): Elem {
    Reduce(left + right)
  }

  function FSub(left: Elem, right: Elem): Elem {
    if left >= right then left - right else P - (right - left)
  }

  function FNeg(value: Elem): Elem {
    if value == 0 then 0 else P - value
  }

  lemma Opposites(s: Elem)
    ensures FAdd(s, FNeg(s)) == 0
  {
  }

  /** The last correction word, added by the party whose control bit is set and negated by
      party 1, turns the two leaf values into shares of beta. */
  lemma CorrectedShares(s0: Elem, s1: Elem, beta: nat, bit1: nat)
    ensures var base := FAdd(beta, FSub(s1, s0));
      if bit1 == 0 then FAdd(FAdd(s0, base), FNeg(s1)) == Reduce(beta)
      else FAdd(s0, FNeg(FAdd(s1, FNeg(base)))) == Reduce(beta)
  {
    var b := Reduce(beta);
    var diff := FSub(s1, s0);
    ReduceFirst(beta, diff);
    var base := SumElem(b, diff);
    assert FAdd(beta, diff) == base;
    SumIs(s0, base);
    SumIs(s1, FNeg(base));
    SumIs(SumElem(s0, base), FNeg(s1));
    SumIs(s0, FNeg(SumElem(s1, FNeg(base))));
  }

  lemma ReduceFirst(beta: nat, d: Elem)
    ensures FAdd(beta, d) == SumElem(Reduce(beta), d)
  {
    var q := beta / P;
    assert beta == q * P + Reduce(beta);
    var s := Reduce(beta) + d;
    if s < P {
      assert (q * P + s) % P == s;
    } else {
      assert ((q + 1) * P + (s - P)) % P == s - P;
    }
  }

  /** Addition of two reduced elements without division. */
  function SumElem(x: Elem, y: Elem): Elem {
    if x + y < P then x + y else x + y - P
  }

  lemma SumIs(x: Elem, y: Elem)
    ensures FAdd(x, y) == SumElem(x, y)
  {
  }
}
