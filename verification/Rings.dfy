/** Commutative rings, their powers, and ciphertexts seen as a slot value and a modulus level. */
module Rings {

  datatype Ring<!R> = Ring(zero: R, one: R, add: (R, R) -> R, mul: (R, R) -> R, neg: R -> R)

  ghost predicate IsRing<R(!new)>(r: Ring<R>) {
    && (forall a, b, c :: r.add(r.add(a, b), c) == r.add(a, r.add(b, c)))
    && (forall a, b :: r.add(a, b) == r.add(b, a))
    && (forall a :: r.add(a, r.zero) == a)
    && (forall a :: r.add(a, r.neg(a)) == r.zero)
    && (forall a, b, c :: r.mul(r.mul(a, b), c) == r.mul(a, r.mul(b, c)))
    && (forall a, b :: r.mul(a, b) == r.mul(b, a))
    && (forall a :: r.mul(a, r.one) == a)
    && (forall a, b, c :: r.mul(r.add(a, b), c) == r.add(r.mul(a, c), r.mul(b, c)))
  }

  lemma AddAssoc<R(!new)>(r: Ring<R>, a: R, b: R, c: R)
    requires IsRing(r)
    ensures r.add(r.add(a, b), c) == r.add(a, r.add(b, c))
  {
  }

  lemma AddZero<R(!new)>(r: Ring<R>, a: R)
    requires IsRing(r)
    ensures r.add(a, r.zero) == a && r.add(r.zero, a) == a
  {
  }

  lemma AddNeg<R(!new)>(r: Ring<R>, a: R)
    requires IsRing(r)
    ensures r.add(a, r.neg(a)) == r.zero
  {
  }

  lemma AddComm<R(!new)>(r: Ring<R>, a: R, b: R)
    requires IsRing(r)
    ensures r.add(a, b) == r.add(b, a)
  {
  }

  lemma MulAssoc<R(!new)>(r: Ring<R>, a: R, b: R, c: R)
    requires IsRing(r)
    ensures r.mul(r.mul(a, b), c) == r.mul(a, r.mul(b, c))
  {
  }

  lemma MulComm<R(!new)>(r: Ring<R>, a: R, b: R)
    requires IsRing(r)
    ensures r.mul(a, b) == r.mul(b, a)
  {
  }

  lemma MulOne<R(!new)>(r: Ring<R>, a: R)
    requires IsRing(r)
    ensures r.mul(a, r.one) == a && r.mul(r.one, a) == a
  {
  }

  lemma MulAdd<R(!new)>(r: Ring<R>, a: R, b: R, c: R)
    requires IsRing(r)
    ensures r.mul(r.add(a, b), c) == r.add(r.mul(a, c), r.mul(b, c))
  {
  }

  lemma MulZero<R(!new)>(r: Ring<R>, a: R)
    requires IsRing(r)
    ensures r.mul(r.zero, a) == r.zero && r.mul(a, r.zero) == r.zero
  {
    var z := r.mul(r.zero, a);
    AddZero(r, r.zero);
    MulAdd(r, r.zero, r.zero, a);
    MulComm(r, a, r.zero);
    hide IsRing;
    assert z == r.add(z, z);
    AddNeg(r, z);
    AddAssoc(r, z, z, r.neg(z));
    AddZero(r, z);
  }

  function Power<R>(r: Ring<R>, x: R, n: nat): R {
    if n == 0 then r.one else r.mul(Power(r, x, n - 1), x)
  }

  lemma {:induction false} PowerAdd<R(!new)>(r: Ring<R>, x: R, a: nat, b: nat)
    requires IsRing(r)
    ensures Power(r, x, a + b) == r.mul(Power(r, x, a), Power(r, x, b))
  {
    hide IsRing;
    if b == 0 {
      MulOne(r, Power(r, x, a));
    } else {
      PowerAdd(r, x, a, b - 1);
      MulAssoc(r, Power(r, x, a), Power(r, x, b - 1), x);
    }
  }

  lemma {:induction false} PowerPower<R(!new)>(r: Ring<R>, x: R, m: nat, n: nat)
    requires IsRing(r)
    ensures Power(r, Power(r, x, m), n) == Power(r, x, n * m)
  {
    hide IsRing;
    if n > 0 {
      PowerPower(r, x, m, n - 1);
      PowerAdd(r, x, (n - 1) * m, m);
      assert n * m == (n - 1) * m + m;
    }
  }

  lemma PowerOne<R(!new)>(r: Ring<R>, x: R)
    requires IsRing(r)
    ensures Power(r, x, 1) == x
  {
    MulOne(r, x);
  }

  // ---------- ciphertexts ----------

  /** A ciphertext: what it decrypts to, and how often its modulus was switched down. */
  datatype Ciphertext<R> = Ciphertext(value: R, level: nat)

  /** Ciphertexts are combined at one level only; the library throws otherwise. */
  function MultiplyCt<R>(r: Ring<R>, x: Ciphertext<R>, y: Ciphertext<R>): Ciphertext<R>
    requires x.level == y.level
  {
    Ciphertext(r.mul(x.value, y.value), x.level)
  }

  function AddCt<R>(r: Ring<R>, x: Ciphertext<R>, y: Ciphertext<R>): Ciphertext<R>
    requires x.level == y.level
  {
    Ciphertext(r.add(x.value, y.value), x.level)
  }

  function MultiplyPlain<R>(r: Ring<R>, x: Ciphertext<R>, y: R): Ciphertext<R> {
    Ciphertext(r.mul(x.value, y), x.level)
  }

  function ModSwitchNext<R>(x: Ciphertext<R>): Ciphertext<R> {
    x.(level := x.level + 1)
  }

  /** Moduli are switched down only. */
  function ModSwitchTo<R>(x: Ciphertext<R>, level: nat): Ciphertext<R>
    requires x.level <= level
  {
    x.(level := level)
  }
}
