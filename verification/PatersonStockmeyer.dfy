/** The range check of the OMR baseline (PVWToBFVSeal.h, RangeCheck_PatersonStockmeyer): a
    polynomial with 65536 coefficients on two ladders of 256 powers. */
module PatersonStockmeyer {
  import opened Rings
  import opened PowerLadder

  const SIDE := 256

  /** The sum of embed(c[k]) * x^(k+1) for k < n. */
  function Poly<R>(r: Ring<R>, embed: nat -> R, c: seq<nat>, x: R, n: nat): R
    requires n <= |c|
  {
    if n == 0 then r.zero
    else r.add(Poly(r, embed, c, x, n - 1), r.mul(embed(c[n - 1]), Power(r, x, n)))
  }

  /** The first `n` terms of block `i` of the coefficients, on the powers x, ..., x^n. */
  function BlockPoly<R>(r: Ring<R>, embed: nat -> R, c: seq<nat>, x: R, i: nat, n: nat): R
    requires SIDE * i + n <= |c|
  {
    if n == 0 then r.zero
    else r.add(BlockPoly(r, embed, c, x, i, n - 1), r.mul(embed(c[SIDE * i + n - 1]), Power(r, x, n)))
  }

  /** A polynomial up to a place inside block `i`: what comes before the block, plus the block
      times a power of x^256. */
  lemma {:induction false} PolyBlock<R(!new)>(r: Ring<R>, embed: nat -> R, c: seq<nat>, x: R, i: nat, n: nat)
    requires IsRing(r) && SIDE * i + n <= |c|
    ensures Poly(r, embed, c, x, SIDE * i + n)
         == r.add(Poly(r, embed, c, x, SIDE * i),
                  r.mul(BlockPoly(r, embed, c, x, i, n), Power(r, x, SIDE * i)))
  {
    hide IsRing, Power;
    var before, shift := Poly(r, embed, c, x, SIDE * i), Power(r, x, SIDE * i);
    if n == 0 {
      MulZero(r, shift);
      AddZero(r, before);
    } else {
      PolyBlock(r, embed, c, x, i, n - 1);
      var block, term := BlockPoly(r, embed, c, x, i, n - 1), embed(c[SIDE * i + n - 1]);
      PowerAdd(r, x, n, SIDE * i);
      MulAssoc(r, term, Power(r, x, n), shift);
      MulAdd(r, block, r.mul(term, Power(r, x, n)), shift);
      AddAssoc(r, before, r.mul(block, shift), r.mul(r.mul(term, Power(r, x, n)), shift));
    }
  }

  /** Block `i` has a coefficient that is not zero among its first `n`. */
  ghost predicate SomeNonzero(c: seq<nat>, i: nat, n: nat)
    requires SIDE * i + n <= |c|
  {
    exists j :: SIDE * i <= j < SIDE * i + n && c[j] != 0
  }

  /** One level sum. Terms with a zero coefficient are skipped; when all are, the sum is left
      uninitialised and its modulus cannot be switched. */
  method LevelSum<R(!new)>(r: Ring<R>, embed: nat -> R, c: seq<nat>, ghost x: R, powers: seq<Ciphertext<R>>,
                           ghost level: nat, i: nat) returns (some: bool, sum: Ciphertext<R>)
    requires IsRing(r) && embed(0) == r.zero && SIDE * (i + 1) <= |c| && |powers| == SIDE
    requires forall j :: 0 <= j < SIDE ==> powers[j] == Ciphertext(Power(r, x, j + 1), level)
    ensures some <==> SomeNonzero(c, i, SIDE)
    ensures some ==> sum == Ciphertext(BlockPoly(r, embed, c, x, i, SIDE), level)
  {
    hide IsRing, Power;
    some, sum := false, powers[0];
    for j := 0 to SIDE
      invariant some <==> SomeNonzero(c, i, j)
      invariant some ==> sum == Ciphertext(BlockPoly(r, embed, c, x, i, j), level)
      invariant !some ==> BlockPoly(r, embed, c, x, i, j) == r.zero
    {
      var coefficient := c[SIDE * i + j];
      NextTerm(r, embed, c, x, i, j);
      if coefficient != 0 {
        var term := MultiplyPlain(r, powers[j], embed(coefficient));
        if !some {
          sum := term;
          some := true;
        } else {
          sum := AddCt(r, sum, term);
        }
      }
    }
  }

  lemma NextTerm<R(!new)>(r: Ring<R>, embed: nat -> R, c: seq<nat>, x: R, i: nat, j: nat)
    requires IsRing(r) && embed(0) == r.zero && SIDE * i + j < |c|
    ensures var coefficient, next := c[SIDE * i + j], BlockPoly(r, embed, c, x, i, j + 1);
      && (SomeNonzero(c, i, j + 1) <==> SomeNonzero(c, i, j) || coefficient != 0)
      && (coefficient == 0 ==> next == BlockPoly(r, embed, c, x, i, j))
      && next == r.add(BlockPoly(r, embed, c, x, i, j), r.mul(Power(r, x, j + 1), embed(coefficient)))
      && (BlockPoly(r, embed, c, x, i, j) == r.zero ==> next == r.mul(Power(r, x, j + 1), embed(coefficient)))
  {
    hide IsRing, Power;
    var coefficient := c[SIDE * i + j];
    MulComm(r, Power(r, x, j + 1), embed(coefficient));
    MulZero(r, Power(r, x, j + 1));
    AddZero(r, BlockPoly(r, embed, c, x, i, j));
    AddZero(r, r.mul(Power(r, x, j + 1), embed(coefficient)));
  }

  lemma SwitchesOfSide()
    ensures Switches(SIDE) == 4
  {
    assert LogCeil(16) == 4;
    assert LogCeil(256) == 4 + LogCeil(16);
  }

  method SwitchThrice<R>(ct: Ciphertext<R>) returns (res: Ciphertext<R>)
    ensures res == Ciphertext(ct.value, ct.level + 3)
  {
    res := ct;
    for i := 0 to 3
      invariant res == Ciphertext(ct.value, ct.level + i)
    {
      res := ModSwitchNext(res);
    }
  }

  /** The powers x, ..., x^256, and those of x^256, each ladder at one level. */
  method Ladders<R(!new)>(r: Ring<R>, input: Ciphertext<R>)
    returns (kCTs: array<Ciphertext<R>>, kToMCTs: array<Ciphertext<R>>)
    requires IsRing(r)
    ensures kCTs.Length == kToMCTs.Length == SIDE
    ensures forall j :: 0 <= j < SIDE ==> kCTs[j] == Ciphertext(Power(r, input.value, j + 1), input.level + 7)
    ensures forall i :: 0 <= i < SIDE ==>
      kToMCTs[i] == Ciphertext(Power(r, input.value, SIDE * (i + 1)), input.level + 8)
  {
    hide IsRing, Power, Switches, LogCeil;
    SwitchesOfSide();
    kCTs := LowLadder(r, input);
    kToMCTs := new Ciphertext<R>[SIDE](_ => input);
    CalUptoDegreeK(r, kToMCTs, kCTs[SIDE - 1], SIDE);
    forall i | 0 <= i < SIDE
      ensures kToMCTs[i] == Ciphertext(Power(r, input.value, SIDE * (i + 1)), input.level + 8)
    {
      PowerPower(r, input.value, SIDE, i + 1);
    }
    kCTs[SIDE - 1] := SwitchThrice(kCTs[SIDE - 1]);
  }

  /** The lower ladder, all entries but the last switched down to the level the products with
      the coefficients need. */
  method LowLadder<R(!new)>(r: Ring<R>, input: Ciphertext<R>) returns (kCTs: array<Ciphertext<R>>)
    requires IsRing(r)
    ensures kCTs.Length == SIDE && fresh(kCTs)
    ensures forall d :: 0 <= d < SIDE ==>
      kCTs[d] == Ciphertext(Power(r, input.value, d + 1), input.level + if d < SIDE - 1 then 7 else 4)
  {
    hide IsRing, Power, Switches, LogCeil;
    SwitchesOfSide();
    var temp := new Ciphertext<R>[SIDE](_ => input);
    CalUptoDegreeK(r, temp, input, SIDE);
    for j := 0 to SIDE - 1
      modifies temp
      invariant forall d :: 0 <= d < j ==> temp[d] == Ciphertext(Power(r, input.value, d + 1), input.level + 7)
      invariant forall d :: j <= d < SIDE ==> temp[d] == Ciphertext(Power(r, input.value, d + 1), input.level + 4)
    {
      temp[j] := SwitchThrice(temp[j]);
    }
    kCTs := MoveAll(temp, input);
  }

  /** Moves the entries into another pool, the upper half in two descending runs. */
  method MoveAll<R>(temp: array<Ciphertext<R>>, input: Ciphertext<R>) returns (kCTs: array<Ciphertext<R>>)
    requires temp.Length == SIDE
    ensures kCTs.Length == SIDE && fresh(kCTs) && forall d :: 0 <= d < SIDE ==> kCTs[d] == temp[d]
  {
    kCTs := new Ciphertext<R>[SIDE](_ => input);
    CopyDown(temp, kCTs, 255, 191);
    CopyDown(temp, kCTs, 191, 127);
    for i := 0 to 128
      modifies kCTs
      invariant forall d :: 0 <= d < i ==> kCTs[d] == temp[d]
      invariant forall d :: 128 <= d < SIDE ==> kCTs[d] == temp[d]
    {
      kCTs[i] := temp[i];
    }
  }

  /** Copies the entries `from`, ..., `to` + 1, highest first. */
  method CopyDown<R>(source: array<Ciphertext<R>>, target: array<Ciphertext<R>>, from: nat, to: nat)
    requires source.Length == target.Length == SIDE && to < from < SIDE && source != target
    modifies target
    ensures forall d :: to < d <= from ==> target[d] == source[d]
    ensures forall d :: 0 <= d < SIDE && !(to < d <= from) ==> target[d] == old(target[d])
  {
    var i := from;
    while i > to
      invariant to <= i <= from
      invariant forall d :: i < d <= from ==> target[d] == source[d]
      invariant forall d :: 0 <= d < SIDE && !(i < d <= from) ==> target[d] == old(target[d])
    {
      target[i] := source[i];
      i := i - 1;
    }
  }

  /** The whole range check: it goes through exactly when every block of coefficients has one
      that is not zero, and then gives 1 minus the polynomial. */
  method RangeCheck<R(!new)>(r: Ring<R>, embed: nat -> R, c: seq<nat>, input: Ciphertext<R>)
    returns (ok: bool, ciphertext: Ciphertext<R>)
    requires IsRing(r) && embed(0) == r.zero && |c| == SIDE * SIDE
    ensures ok <==> forall i :: 0 <= i < SIDE ==> SomeNonzero(c, i, SIDE)
    ensures ok ==>
      ciphertext == Ciphertext(r.add(r.neg(Poly(r, embed, c, input.value, SIDE * SIDE)), r.one), input.level + 8)
  {
    hide IsRing, Power, SomeNonzero, Poly, BlockPoly;
    ghost var x := input.value;
    var lower, upper := Ladders(r, input);
    var kCTs, kToMCTs := lower[..], upper[..];
    ciphertext, ok := input, true;
    for i := 0 to SIDE
      invariant ok && forall k :: 0 <= k < i ==> SomeNonzero(c, k, SIDE)
      invariant i > 0 ==> ciphertext == Ciphertext(Poly(r, embed, c, x, SIDE * i), input.level + 8)
    {
      var levelSum;
      ok, levelSum := LevelSum(r, embed, c, x, kCTs, input.level + 7, i);
      if !ok {
        return;
      }
      levelSum := ModSwitchTo(levelSum, kToMCTs[i].level);
      PolyBlock(r, embed, c, x, i, SIDE);
      if i == 0 {
        FirstBlock(r, embed, c, x, BlockPoly(r, embed, c, x, 0, SIDE));
        ciphertext := levelSum;
      } else {
        levelSum := MultiplyCt(r, levelSum, kToMCTs[i - 1]);
        ciphertext := AddCt(r, ciphertext, levelSum);
      }
    }
    ciphertext := Ciphertext(r.neg(ciphertext.value), ciphertext.level);
    ciphertext := Ciphertext(r.add(ciphertext.value, r.one), ciphertext.level);
  }

  lemma FirstBlock<R(!new)>(r: Ring<R>, embed: nat -> R, c: seq<nat>, x: R, block: R)
    requires IsRing(r)
    ensures r.add(Poly(r, embed, c, x, 0), r.mul(block, Power(r, x, 0))) == block
  {
    hide IsRing;
    MulOne(r, block);
    AddZero(r, block);
  }
}
