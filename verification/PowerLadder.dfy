/** The ladder of powers of a ciphertext in the OMR baseline (PVWToBFVSeal.h,
    calUptoDegreeK). */
module PowerLadder {
  import Bits
  import opened Rings

  /** ceil(log2(d)). */
  function LogCeil(d: nat): nat {
    if d <= 1 then 0 else 1 + LogCeil((d + 1) / 2)
  }

  /** Modulus switches spent on degree `d`: half of ceil(log2(d)), rounded up. */
  function Switches(d: nat): nat {
    (LogCeil(d) + 1) / 2
  }

  /** LogCeil(d) is the least exponent of a power of two that is not below d. */
  lemma {:induction false} LogCeilExact(d: nat, c: nat)
    requires d >= 1
    ensures d <= Bits.Pow2(c) <==> LogCeil(d) <= c
  {
    if d > 1 {
      if c == 0 {
        assert Bits.Pow2(0) == 1;
      } else {
        LogCeilExact((d + 1) / 2, c - 1);
        Bits.Pow2Step(c);
      }
    }
  }

  /** Switches(d) is the least exponent of a power of four that is not below d. */
  lemma SwitchesExact(d: nat, n: nat)
    requires d >= 1
    ensures d <= Bits.Pow2(2 * n) <==> Switches(d) <= n
  {
    hide LogCeil;
    LogCeilExact(d, 2 * n);
  }

  lemma {:induction false} SwitchesGrow(a: nat, b: nat)
    requires a <= b
    ensures LogCeil(a) <= LogCeil(b) && Switches(a) <= Switches(b)
  {
    if b > 1 && a > 1 {
      SwitchesGrow((a + 1) / 2, (b + 1) / 2);
    }
  }

  /** The entry for degree `d`. */
  function Rung<R>(r: Ring<R>, input: Ciphertext<R>, d: nat): Ciphertext<R> {
    Ciphertext(Power(r, input.value, d), input.level + Switches(d))
  }

  /** What is calculated is right. */
  ghost predicate Sound<R>(r: Ring<R>, input: Ciphertext<R>, output: array<Ciphertext<R>>,
                           calculated: array<nat>, numMod: array<nat>)
    requires output.Length == calculated.Length == numMod.Length
    reads output, calculated, numMod
  {
    forall d :: 0 <= d < output.Length && calculated[d] != 0 ==>
      output[d] == Rung(r, input, d + 1) && numMod[d] == Switches(d + 1)
  }

  /** Switches a product down to the level of its degree. */
  method SwitchDown<R>(ct: Ciphertext<R>, degree: nat, start: nat) returns (res: Ciphertext<R>, n: nat)
    requires start <= Switches(degree)
    ensures n == Switches(degree)
    ensures res == Ciphertext(ct.value, ct.level + (n - start))
  {
    res, n := ct, start;
    while 2 * n < LogCeil(degree)
      invariant start <= n <= Switches(degree)
      invariant res == Ciphertext(ct.value, ct.level + (n - start))
      decreases Switches(degree) - n
    {
      res := ModSwitchNext(res);
      n := n + 1;
    }
  }

  /** The bits of `i` split into what `res` has, what `base` stands for and what is left. */
  ghost predicate Split(i: nat, resdeg: nat, basedeg: nat, toCalculate: nat) {
    && i == resdeg + toCalculate * basedeg
    && basedeg >= 1 && resdeg < 2 * basedeg
    && (toCalculate % 2 == 1 ==> resdeg < basedeg)
  }

  lemma SplitOdd(i: nat, resdeg: nat, basedeg: nat, toCalculate: nat)
    requires Split(i, resdeg, basedeg, toCalculate) && toCalculate % 2 == 1
    ensures Split(i, resdeg + basedeg, basedeg, toCalculate - 1) && resdeg + basedeg <= i
  {
    assert toCalculate * basedeg == (toCalculate - 1) * basedeg + basedeg;
  }

  lemma SplitEven(i: nat, resdeg: nat, basedeg: nat, toCalculate: nat)
    requires Split(i, resdeg, basedeg, toCalculate) && toCalculate % 2 == 0 && toCalculate > 0
    ensures Split(i, resdeg, 2 * basedeg, toCalculate / 2) && 2 * basedeg <= i
  {
    var t := toCalculate / 2;
    Bits.MulAssoc(t, 2, basedeg);
    Bits.MulMono(2, toCalculate, basedeg);
  }

  /** The square of a rung, switched down, is the rung of twice the degree. */
  lemma SquareRung<R(!new)>(r: Ring<R>, input: Ciphertext<R>, d: nat)
    requires IsRing(r) && d >= 1
    ensures Switches(d) <= Switches(2 * d)
    ensures var b := Rung(r, input, d);
      Ciphertext(MultiplyCt(r, b, b).value, b.level + (Switches(2 * d) - Switches(d))) == Rung(r, input, 2 * d)
  {
    hide IsRing, LogCeil;
    SwitchesGrow(d, 2 * d);
    PowerAdd(r, input.value, d, d);
  }

  /** So is the product of two rungs, after the smaller one was switched to the level of the
      larger. */
  lemma ProductRung<R(!new)>(r: Ring<R>, input: Ciphertext<R>, low: nat, high: nat)
    requires IsRing(r) && 1 <= low < high
    ensures Switches(low) <= Switches(high) <= Switches(low + high)
    ensures var b := Rung(r, input, high);
      var product := MultiplyCt(r, ModSwitchTo(Rung(r, input, low), b.level), b);
      Ciphertext(product.value, b.level + (Switches(low + high) - Switches(high))) == Rung(r, input, low + high)
  {
    hide IsRing, LogCeil;
    SwitchesGrow(low, high);
    SwitchesGrow(high, low + high);
    PowerAdd(r, input.value, low, high);
  }

  /** Matches the modulus of the factors, multiplies and switches down. */
  method ProductStep<R(!new)>(r: Ring<R>, ghost input: Ciphertext<R>, ghost low: nat, ghost high: nat, degree: nat,
                              res: Ciphertext<R>, base: Ciphertext<R>, start: nat)
    returns (product: Ciphertext<R>, n: nat)
    requires IsRing(r) && 1 <= low < high && degree == low + high && start == Switches(high)
    requires res == Rung(r, input, low) && base == Rung(r, input, high)
    ensures product == Rung(r, input, degree) && n == Switches(degree)
  {
    hide IsRing, LogCeil, Switches;
    ProductRung(r, input, low, high);
    product := MultiplyCt(r, ModSwitchTo(res, base.level), base);
    product, n := SwitchDown(product, degree, start);
  }

  method SquareStep<R(!new)>(r: Ring<R>, ghost input: Ciphertext<R>, ghost d: nat, degree: nat, base: Ciphertext<R>,
                                start: nat)
    returns (square: Ciphertext<R>, n: nat)
    requires IsRing(r) && d >= 1 && degree == 2 * d && start == Switches(d) && base == Rung(r, input, d)
    ensures square == Rung(r, input, degree) && n == Switches(degree)
  {
    hide IsRing, LogCeil, Switches;
    SquareRung(r, input, d);
    square := MultiplyCt(r, base, base);
    square, n := SwitchDown(square, degree, start);
  }

  /** Takes the lowest bit left over: the entry for `resdeg`, looked up or multiplied. */
  method TakeBit<R(!new)>(r: Ring<R>, ghost input: Ciphertext<R>, ghost low: nat, resdeg: nat, basedeg: nat,
                          res: Ciphertext<R>, base: Ciphertext<R>, output: array<Ciphertext<R>>,
                          calculated: array<nat>, numMod: array<nat>) returns (next: Ciphertext<R>)
    requires IsRing(r) && output.Length == calculated.Length == numMod.Length && calculated != numMod
    requires Sound(r, input, output, calculated, numMod)
    requires resdeg == low + basedeg <= output.Length && low < basedeg && calculated[basedeg - 1] != 0
    requires base == Rung(r, input, basedeg) && (low > 0 ==> res == Rung(r, input, low))
    modifies output, calculated, numMod
    ensures Sound(r, input, output, calculated, numMod)
    ensures calculated[resdeg - 1] != 0 && next == Rung(r, input, resdeg)
    ensures forall d :: 0 <= d < output.Length && old(calculated[d]) != 0 ==> calculated[d] != 0
  {
    hide IsRing, LogCeil, Switches, Rung;
    next := res;
    if calculated[resdeg - 1] != 0 {
      next := output[resdeg - 1];
    } else {
      var n := numMod[resdeg - 1];
      if resdeg == basedeg {
        next := base;
      } else {
        next, n := ProductStep(r, input, low, basedeg, resdeg, next, base, numMod[basedeg - 1]);
      }
      output[resdeg - 1] := next;
      numMod[resdeg - 1] := n;
      calculated[resdeg - 1] := calculated[resdeg - 1] + 1;
    }
  }

  /** Doubles the base degree: the entry for it, looked up or squared. */
  method DoubleBase<R(!new)>(r: Ring<R>, ghost input: Ciphertext<R>, ghost d: nat, basedeg: nat,
                             base: Ciphertext<R>, output: array<Ciphertext<R>>,
                             calculated: array<nat>, numMod: array<nat>) returns (next: Ciphertext<R>)
    requires IsRing(r) && output.Length == calculated.Length == numMod.Length && calculated != numMod
    requires Sound(r, input, output, calculated, numMod)
    requires basedeg == 2 * d <= output.Length && d >= 1 && calculated[d - 1] != 0 && base == Rung(r, input, d)
    modifies output, calculated, numMod
    ensures Sound(r, input, output, calculated, numMod)
    ensures calculated[basedeg - 1] != 0 && next == Rung(r, input, basedeg)
    ensures forall q :: 0 <= q < output.Length && old(calculated[q]) != 0 ==> calculated[q] != 0
  {
    hide IsRing, LogCeil, Switches, Rung;
    next := base;
    if calculated[basedeg - 1] != 0 {
      next := output[basedeg - 1];
    } else {
      var n;
      next, n := SquareStep(r, input, d, basedeg, next, numMod[basedeg / 2 - 1]);
      numMod[basedeg - 1] := n;
      output[basedeg - 1] := next;
      calculated[basedeg - 1] := calculated[basedeg - 1] + 1;
    }
  }

  /** Calculates degree `i` from its bits, lowest first, and every rung met on the way. */
  method Climb<R(!new)>(r: Ring<R>, input: Ciphertext<R>, i: nat, output: array<Ciphertext<R>>,
                        calculated: array<nat>, numMod: array<nat>)
    requires IsRing(r) && output.Length == calculated.Length == numMod.Length && 1 <= i <= output.Length
    requires calculated != numMod && calculated[0] != 0 && Sound(r, input, output, calculated, numMod)
    modifies output, calculated, numMod
    ensures Sound(r, input, output, calculated, numMod) && calculated[i - 1] != 0
    ensures forall d :: 0 <= d < output.Length && old(calculated[d]) != 0 ==> calculated[d] != 0
  {
    hide IsRing, LogCeil, Switches, Rung, Sound;
    var toCalculate: nat, resdeg: nat, basedeg: nat := i, 0, 1;
    var base, res := input, input;
    FirstRung(r, input);
    while toCalculate > 0
      invariant Split(i, resdeg, basedeg, toCalculate) && basedeg <= i
      invariant Sound(r, input, output, calculated, numMod)
      invariant calculated[basedeg - 1] != 0 && base == Rung(r, input, basedeg)
      invariant resdeg > 0 ==> resdeg <= i && calculated[resdeg - 1] != 0 && res == Rung(r, input, resdeg)
      invariant forall d :: 0 <= d < output.Length && old(calculated[d]) != 0 ==> calculated[d] != 0
    {
      if toCalculate % 2 == 1 {
        SplitOdd(i, resdeg, basedeg, toCalculate);
        toCalculate := toCalculate - 1;
        ghost var low := resdeg;
        resdeg := resdeg + basedeg;
        res := TakeBit(r, input, low, resdeg, basedeg, res, base, output, calculated, numMod);
      } else {
        SplitEven(i, resdeg, basedeg, toCalculate);
        toCalculate := toCalculate / 2;
        ghost var d := basedeg;
        basedeg := basedeg * 2;
        base := DoubleBase(r, input, d, basedeg, base, output, calculated, numMod);
      }
    }
  }

  lemma FirstRung<R(!new)>(r: Ring<R>, input: Ciphertext<R>)
    requires IsRing(r)
    ensures Rung(r, input, 1) == input && Switches(1) == 0
  {
    PowerOne(r, input.value);
  }

  /** calUptoDegreeK: entry d - 1 becomes the d-th power, all at the level of the last one. The
      library never has to switch a modulus up or to combine ciphertexts of two levels. */
  method CalUptoDegreeK<R(!new)>(r: Ring<R>, output: array<Ciphertext<R>>, input: Ciphertext<R>, k: nat)
    requires IsRing(r) && output.Length == k >= 1
    modifies output
    ensures forall d :: 0 <= d < k ==>
      output[d] == Ciphertext(Power(r, input.value, d + 1), input.level + Switches(k))
  {
    hide IsRing, LogCeil, Switches, Power, Rung;
    var calculated, numMod := new nat[k](_ => 0), new nat[k](_ => 0);
    FirstRung(r, input);
    output[0] := input;
    calculated[0] := 1;
    var i := k;
    while i > 0
      invariant i <= k && calculated[0] != 0 && Sound(r, input, output, calculated, numMod)
      invariant forall d :: i <= d < k ==> calculated[d] != 0
    {
      if calculated[i - 1] == 0 {
        Climb(r, input, i, output, calculated, numMod);
      }
      i := i - 1;
    }
    MatchModuli(r, output, input, k);
  }

  /** Switches every entry down to the modulus of the last one. */
  method MatchModuli<R(!new)>(r: Ring<R>, output: array<Ciphertext<R>>, ghost input: Ciphertext<R>, k: nat)
    requires output.Length == k >= 1 && forall d :: 0 <= d < k ==> output[d] == Rung(r, input, d + 1)
    modifies output
    ensures forall d :: 0 <= d < k ==>
      output[d] == Ciphertext(Power(r, input.value, d + 1), input.level + Switches(k))
  {
    hide LogCeil, Switches, Power;
    for j := 0 to k - 1
      invariant forall d :: 0 <= d < j ==>
        output[d] == Ciphertext(Power(r, input.value, d + 1), input.level + Switches(k))
      invariant forall d :: j <= d < k ==> output[d] == Rung(r, input, d + 1)
    {
      SwitchesGrow(j + 1, k);
      output[j] := ModSwitchTo(output[j], output[k - 1].level);
    }
  }
}
