/** Powers of two and the shift, mask, `or` and `xor` operators of unsigned machine
    words, on natural numbers. */
module Bits {

  type Byte = b: nat | b < 256

  function Pow2(k: nat): (p: nat)
    ensures p >= 1
  {
    if k == 0 then 1 else 2 * Pow2(k - 1)
  }

  /** Flips the lowest bit of `p`: the C expression `p ^ 1`. */
  function FlipLow(p: nat): nat {
    if p % 2 == 0 then p + 1 else p - 1
  }

  function Shl(x: nat, k: nat): nat {
    if k == 0 then x else 2 * Shl(x, k - 1)
  }

  function Shr(x: nat, k: nat): nat {
    if k == 0 then x else Shr(x / 2, k - 1)
  }

  function BitOr(x: nat, y: nat): nat
    decreases x + y
  {
    if x == 0 then y
    else if y == 0 then x
    else 2 * BitOr(x / 2, y / 2) + (if x % 2 == 1 || y % 2 == 1 then 1 else 0)
  }

  function BitAnd(x: nat, y: nat): nat
    decreases x + y
  {
    if x == 0 || y == 0 then 0
    else 2 * BitAnd(x / 2, y / 2) + (if x % 2 == 1 && y % 2 == 1 then 1 else 0)
  }

  function BitXor(x: nat, y: nat): nat
    decreases x + y
  {
    if x == 0 then y
    else if y == 0 then x
    else 2 * BitXor(x / 2, y / 2) + (if x % 2 == y % 2 then 0 else 1)
  }

  /** LowMask of ss_shuffle.cc: `bits == 0 ? 0 : (1 << bits) - 1`. */
  function LowMask(bits: nat): nat {
    if bits == 0 then 0 else Pow2(bits) - 1
  }

  // ---------- exclusive or is an abelian group of exponent two ----------

  lemma BitXorUnfold(x: nat, y: nat)
    ensures BitXor(x, y) / 2 == BitXor(x / 2, y / 2)
    ensures BitXor(x, y) % 2 == if x % 2 == y % 2 then 0 else 1
  {
    if x > 0 && y > 0 {
      HalfOf(BitXor(x / 2, y / 2), if x % 2 == y % 2 then 0 else 1);
    } else if x == 0 {
      assert BitXor(x / 2, y / 2) == y / 2;
    }
  }

  lemma HalfOf(h: nat, b: nat)
    requires b < 2
    ensures (2 * h + b) / 2 == h && (2 * h + b) % 2 == b
  {
  }

  lemma {:induction false} BitXorComm(x: nat, y: nat)
    ensures BitXor(x, y) == BitXor(y, x)
    decreases x + y
  {
    if x > 0 && y > 0 {
      BitXorComm(x / 2, y / 2);
    }
  }

  lemma {:induction false} BitXorAssoc(x: nat, y: nat, z: nat)
    ensures BitXor(BitXor(x, y), z) == BitXor(x, BitXor(y, z))
    decreases x + y + z
  {
    if x > 0 || y > 0 || z > 0 {
      BitXorAssoc(x / 2, y / 2, z / 2);
      BitXorUnfold(x, y);
      BitXorUnfold(BitXor(x, y), z);
      BitXorUnfold(y, z);
      BitXorUnfold(x, BitXor(y, z));
    }
  }

  lemma {:induction false} BitXorSelf(x: nat)
    ensures BitXor(x, x) == 0
  {
    if x > 0 {
      BitXorSelf(x / 2);
    }
  }

  /** Xoring the same word twice gives back the other operand. */
  lemma BitXorCancel(x: nat, y: nat)
    ensures BitXor(x, BitXor(x, y)) == y
    ensures BitXor(BitXor(y, x), x) == y
  {
    BitXorAssoc(x, x, y);
    BitXorAssoc(y, x, x);
    BitXorSelf(x);
  }

  lemma BitXorSwapMiddle(a: nat, b: nat, c: nat, d: nat)
    ensures BitXor(BitXor(a, b), BitXor(c, d)) == BitXor(BitXor(a, c), BitXor(b, d))
  {
    BitXorAssoc(a, b, BitXor(c, d));
    BitXorAssoc(b, c, d);
    BitXorComm(b, c);
    BitXorAssoc(c, b, d);
    BitXorAssoc(a, c, BitXor(b, d));
  }

  lemma {:induction false} BitXorBound(x: nat, y: nat, k: nat)
    requires x < Pow2(k) && y < Pow2(k)
    ensures BitXor(x, y) < Pow2(k)
  {
    if k > 0 {
      BitXorBound(x / 2, y / 2, k - 1);
    }
  }

  // ---------- powers, quotients and remainders ----------

  lemma Pow2Step(k: nat)
    ensures k > 0 ==> Pow2(k) == 2 * Pow2(k - 1)
    ensures Pow2(0) == 1
  {
  }

  lemma {:induction false} Pow2Add(a: nat, b: nat)
    ensures Pow2(a + b) == Pow2(a) * Pow2(b)
  {
    if a > 0 {
      Pow2Add(a - 1, b);
      MulAssoc(2, Pow2(a - 1), Pow2(b));
    }
  }

  lemma {:induction false} Pow2Mono(a: nat, b: nat)
    requires a <= b
    ensures Pow2(a) <= Pow2(b)
  {
    if a < b {
      Pow2Mono(a, b - 1);
    }
  }

  lemma MulAssoc(a: int, b: int, c: int)
    ensures (a * b) * c == a * (b * c)
  {
  }

  lemma MulDistrib(a: int, b: int, c: int)
    ensures (a + b) * c == a * c + b * c
  {
  }

  lemma MulMono(a: nat, b: nat, m: nat)
    requires a <= b
    ensures a * m <= b * m
  {
  }

  /** Quotient and remainder are unique. */
  lemma DivUnique(x: nat, m: nat, q: nat, r: nat)
    requires m > 0 && r < m && x == q * m + r
    ensures x / m == q && x % m == r
  {
    var q', r' := x / m, x % m;
    if q' < q {
      MulMono(q' + 1, q, m);
      MulDistrib(q', 1, m);
    } else if q < q' {
      MulMono(q + 1, q', m);
      MulDistrib(q, 1, m);
    }
  }

  lemma DivMod(x: nat, m: nat)
    requires m > 0
    ensures x == (x / m) * m + x % m && x % m < m
  {
  }

  lemma DivDiv(x: nat, a: nat, b: nat)
    requires a > 0 && b > 0
    ensures a * b > 0 && (x / a) / b == x / (a * b)
    ensures x % (a * b) == ((x / a) % b) * a + x % a
  {
    var q, r := x / a, x % a;
    DivMod(x, a);
    var h, s := q / b, q % b;
    DivMod(q, b);
    calc {
      x;
      (h * b + s) * a + r;
      { MulDistrib(h * b, s, a); MulAssoc(h, b, a); }
      h * (b * a) + s * a + r;
    }
    MulMono(s + 1, b, a);
    MulDistrib(s, 1, a);
    assert b * a == a * b;
    DivUnique(x, a * b, h, s * a + r);
  }

  lemma DivLess(x: nat, a: nat, b: nat)
    requires a > 0 && x < b * a
    ensures x / a < b
  {
    DivMod(x, a);
    if x / a >= b {
      MulMono(b, x / a, a);
    }
  }

  /** Shifting right by one more bit halves. */
  lemma {:induction false} ShrStep(x: nat, k: nat)
    ensures Shr(x, k + 1) == Shr(x, k) / 2
  {
    if k > 0 {
      ShrStep(x / 2, k - 1);
    }
  }

  lemma {:induction false} ShrBound(x: nat, k: nat, m: nat)
    requires x < Pow2(k + m)
    ensures Shr(x, k) < Pow2(m)
  {
    if k > 0 {
      ShrBound(x / 2, k - 1, m);
    }
  }

  /** Shifting right by `k` bits divides by 2^k. */
  lemma {:induction false} ShrIsDiv(x: nat, k: nat)
    ensures Shr(x, k) == x / Pow2(k)
  {
    if k > 0 {
      ShrIsDiv(x / 2, k - 1);
      DivDiv(x, 2, Pow2(k - 1));
    }
  }

  /** `or` of a number shifted past `k` bits with a number of at most `k` bits is their sum. */
  lemma {:induction false} OrIsSum(x: nat, k: nat, y: nat)
    requires y < Pow2(k)
    ensures BitOr(Shl(x, k), y) == Shl(x, k) + y
  {
    if k > 0 {
      OrIsSum(x, k - 1, y / 2);
      OrHalf(Shl(x, k - 1), y);
    }
  }

  lemma {:induction false} ShlIsMul(x: nat, k: nat)
    ensures Shl(x, k) == x * Pow2(k)
  {
    if k > 0 {
      ShlIsMul(x, k - 1);
      MulAssoc(x, Pow2(k - 1), 2);
    }
  }

  lemma OrHalf(h: nat, y: nat)
    requires BitOr(h, y / 2) == h + y / 2
    ensures BitOr(2 * h, y) == 2 * h + y
  {
  }

  /** Masking with LowMask(k) keeps the remainder modulo 2^k. */
  lemma {:induction false} AndIsMod(x: nat, k: nat)
    ensures BitAnd(x, LowMask(k)) == x % Pow2(k)
  {
    if k > 0 {
      var p := Pow2(k - 1);
      AndIsMod(x / 2, k - 1);
      LowMaskIs(k - 1);
      AndHalf(x, p - 1);
      DivDiv(x, 2, p);
      hide *;
      Pow2Step(k);
      LowMaskIs(k);
    }
  }

  lemma LowMaskIs(k: nat)
    ensures LowMask(k) == Pow2(k) - 1
  {
  }

  lemma AndHalf(x: nat, m: nat)
    ensures BitAnd(x, 2 * m + 1) == 2 * BitAnd(x / 2, m) + x % 2
  {
  }
}
