/** Where the constants of SHA-256 come from (FIPS 180-4, sections 4.2.2 and 5.3.3): the first 32
    bits of the fractional parts of the cube roots, and of the square roots, of the first primes. */
module Fips180Roots {
  import opened Bits
  import opened Words
  import opened Fips180

  ghost predicate IsPrime(n: nat) {
    n >= 2 && forall d :: 2 <= d < n ==> n % d != 0
  }

  // ---------- primes ----------

  /** 2, 3, ..., 311. */
  function Primes(): (p: seq<nat>)
    ensures |p| == 64
  {
    Primes0() + Primes16() + Primes32() + Primes48()
  }

  function Primes0(): (p: seq<nat>)
    ensures |p| == 16
  {
    [2, 3, 5, 7, 11, 13, 17, 19, 23, 29, 31, 37, 41, 43, 47, 53]
  }

  function Primes16(): (p: seq<nat>)
    ensures |p| == 16
  {
    [59, 61, 67, 71, 73, 79, 83, 89, 97, 101, 103, 107, 109, 113, 127, 131]
  }

  function Primes32(): (p: seq<nat>)
    ensures |p| == 16
  {
    [137, 139, 149, 151, 157, 163, 167, 173, 179, 181, 191, 193, 197, 199, 211, 223]
  }

  function Primes48(): (p: seq<nat>)
    ensures |p| == 16
  {
    [227, 229, 233, 239, 241, 251, 257, 263, 269, 271, 277, 281, 283, 293, 307, 311]
  }

  /** No divisor among the primes up to 17: enough for numbers below 19 * 19. */
  predicate Sieved(n: nat) {
    && n >= 2
    && (n == 2 || n % 2 != 0) && (n == 3 || n % 3 != 0) && (n == 5 || n % 5 != 0) && (n == 7 || n % 7 != 0)
    && (n == 11 || n % 11 != 0) && (n == 13 || n % 13 != 0) && (n == 17 || n % 17 != 0)
  }

  lemma SievedRow0(t: nat)
    requires t < 16
    ensures Sieved(Primes0()[t]) && 2 <= Primes0()[t] <= 53
    ensures t > 0 ==> Primes0()[t - 1] < Primes0()[t]
  {
  }

  lemma SievedRow16(t: nat)
    requires t < 16
    ensures Sieved(Primes16()[t]) && 59 <= Primes16()[t] <= 131
    ensures t > 0 ==> Primes16()[t - 1] < Primes16()[t]
  {
  }

  lemma SievedRow32(t: nat)
    requires t < 16
    ensures Sieved(Primes32()[t]) && 137 <= Primes32()[t] <= 223
    ensures t > 0 ==> Primes32()[t - 1] < Primes32()[t]
  {
  }

  lemma SievedRow48(t: nat)
    requires t < 16
    ensures Sieved(Primes48()[t]) && 227 <= Primes48()[t] <= 311
    ensures t > 0 ==> Primes48()[t - 1] < Primes48()[t]
  {
  }

  lemma TableSieved(t: nat)
    requires t < 64
    ensures Sieved(Primes()[t]) && 2 <= Primes()[t] < 361
    ensures t > 0 ==> Primes()[t - 1] < Primes()[t]
  {
    hide Sieved, Primes0, Primes16, Primes32, Primes48;
    if t < 16 {
      SievedRow0(t);
    } else if t < 32 {
      SievedRow16(t - 16);
      SievedRow0(15);
    } else if t < 48 {
      SievedRow32(t - 32);
      SievedRow16(15);
    } else {
      SievedRow48(t - 48);
      SievedRow32(15);
    }
  }

  /** A number below 19 has a divisor among the primes up to 17. */
  lemma SmallDivisor(m: nat) returns (q: nat)
    requires 2 <= m < 19
    ensures q in {2, 3, 5, 7, 11, 13, 17} && q <= m && m % q == 0
  {
    q := if m % 2 == 0 then 2 else if m % 3 == 0 then 3 else if m == 5 then 5 else if m == 7 then 7
         else if m == 11 then 11 else if m == 13 then 13 else 17;
  }

  lemma Transitive(n: nat, m: nat, q: nat)
    requires m > 0 && q > 0 && n % m == 0 && m % q == 0
    ensures n % q == 0
  {
    var a, b := n / m, m / q;
    DivMod(n, m);
    DivMod(m, q);
    MulAssoc(a, b, q);
    DivUnique(n, q, a * b, 0);
  }

  /** The smaller of a divisor and its cofactor is below 19. */
  lemma ProperDivisor(n: nat, d: nat) returns (m: nat)
    requires n < 361 && 2 <= d < n && n % d == 0
    ensures 2 <= m < 19 && m < n && n % m == 0
  {
    var k := n / d;
    DivMod(n, d);
    if d < 19 {
      m := d;
    } else {
      m := k;
      if k >= 19 {
        MulMono(19, k, d);
        assert false;
      }
      if k < 2 {
        MulMono(k, 1, d);
        assert false;
      }
      MulComm(k, d);
      DivUnique(n, k, d, 0);
    }
  }

  lemma SievedIsPrime(n: nat)
    requires n < 361
    ensures Sieved(n) <==> IsPrime(n)
  {
    if Sieved(n) {
      forall d | 2 <= d < n ensures n % d != 0 {
        if n % d == 0 {
          var m := ProperDivisor(n, d);
          var q := SmallDivisor(m);
          Transitive(n, m, q);
          assert false;
        }
      }
    }
  }

  /** The table holds primes in ascending order. */
  lemma PrimesArePrime(t: nat)
    requires t < 64
    ensures IsPrime(Primes()[t]) && Primes()[t] >= 2
    ensures t > 0 ==> Primes()[t - 1] < Primes()[t]
  {
    hide *;
    TableSieved(t);
    SievedIsPrime(Primes()[t]);
  }

  // ---------- the constants ----------

  function Square(x: nat): nat {
    x * x
  }

  function Cube(x: nat): nat {
    x * x * x
  }

  /** The integer part of the cube root of a prime of the table. */
  function CubeRoot(p: nat): nat {
    if p < 8 then 1 else if p < 27 then 2 else if p < 64 then 3 else if p < 125 then 4 else if p < 216 then 5 else 6
  }

  /** The integer part of the square root of one of the first eight primes. */
  function SquareRoot(p: nat): nat {
    if p < 4 then 1 else if p < 9 then 2 else if p < 16 then 3 else 4
  }

  /** `k` holds the first 32 fraction bits of the cube root of `p`. */
  ghost predicate CubeRootBits(p: nat, k: Word) {
    var x := 0x1_0000_0000 * CubeRoot(p) + k;
    Cube(x) <= p * 0x1_0000_0000_0000_0000_0000_0000 < Cube(x + 1)
  }

  ghost predicate SquareRootBits(p: nat, k: Word) {
    var x := 0x1_0000_0000 * SquareRoot(p) + k;
    Square(x) <= p * 0x1_0000_0000_0000_0000 < Square(x + 1)
  }

  lemma Roots0A(t: nat)
    requires t < 4
    ensures CubeRootBits(Primes0()[t], Constants0()[t])
  {
    if t == 0 {
    } else if t == 1 {
    } else if t == 2 {
    }
  }

  lemma Roots0B(t: nat)
    requires 4 <= t < 8
    ensures CubeRootBits(Primes0()[t], Constants0()[t])
  {
    if t == 4 {
    } else if t == 5 {
    } else if t == 6 {
    }
  }

  lemma Roots0C(t: nat)
    requires 8 <= t < 12
    ensures CubeRootBits(Primes0()[t], Constants0()[t])
  {
    if t == 8 {
    } else if t == 9 {
    } else if t == 10 {
    }
  }

  lemma Roots0D(t: nat)
    requires 12 <= t < 16
    ensures CubeRootBits(Primes0()[t], Constants0()[t])
  {
    if t == 12 {
    } else if t == 13 {
    } else if t == 14 {
    }
  }

  lemma RootsRow0(t: nat)
    requires t < 16
    ensures CubeRootBits(Primes0()[t], Constants0()[t])
  {
    hide CubeRootBits, Primes0, Constants0;
    if t < 4 {
      Roots0A(t);
    } else if t < 8 {
      Roots0B(t);
    } else if t < 12 {
      Roots0C(t);
    } else {
      Roots0D(t);
    }
  }

  lemma Roots16A(t: nat)
    requires t < 4
    ensures CubeRootBits(Primes16()[t], Constants16()[t])
  {
    if t == 0 {
    } else if t == 1 {
    } else if t == 2 {
    }
  }

  lemma Roots16B(t: nat)
    requires 4 <= t < 8
    ensures CubeRootBits(Primes16()[t], Constants16()[t])
  {
    if t == 4 {
    } else if t == 5 {
    } else if t == 6 {
    }
  }

  lemma Roots16C(t: nat)
    requires 8 <= t < 12
    ensures CubeRootBits(Primes16()[t], Constants16()[t])
  {
    if t == 8 {
    } else if t == 9 {
    } else if t == 10 {
    }
  }

  lemma Roots16D(t: nat)
    requires 12 <= t < 16
    ensures CubeRootBits(Primes16()[t], Constants16()[t])
  {
    if t == 12 {
    } else if t == 13 {
    } else if t == 14 {
    }
  }

  lemma RootsRow16(t: nat)
    requires t < 16
    ensures CubeRootBits(Primes16()[t], Constants16()[t])
  {
    hide CubeRootBits, Primes16, Constants16;
    if t < 4 {
      Roots16A(t);
    } else if t < 8 {
      Roots16B(t);
    } else if t < 12 {
      Roots16C(t);
    } else {
      Roots16D(t);
    }
  }

  lemma Roots32A(t: nat)
    requires t < 4
    ensures CubeRootBits(Primes32()[t], Constants32()[t])
  {
    if t == 0 {
    } else if t == 1 {
    } else if t == 2 {
    }
  }

  lemma Roots32B(t: nat)
    requires 4 <= t < 8
    ensures CubeRootBits(Primes32()[t], Constants32()[t])
  {
    if t == 4 {
    } else if t == 5 {
    } else if t == 6 {
    }
  }

  lemma Roots32C(t: nat)
    requires 8 <= t < 12
    ensures CubeRootBits(Primes32()[t], Constants32()[t])
  {
    if t == 8 {
    } else if t == 9 {
    } else if t == 10 {
    }
  }

  lemma Roots32D(t: nat)
    requires 12 <= t < 16
    ensures CubeRootBits(Primes32()[t], Constants32()[t])
  {
    if t == 12 {
    } else if t == 13 {
    } else if t == 14 {
    }
  }

  lemma RootsRow32(t: nat)
    requires t < 16
    ensures CubeRootBits(Primes32()[t], Constants32()[t])
  {
    hide CubeRootBits, Primes32, Constants32;
    if t < 4 {
      Roots32A(t);
    } else if t < 8 {
      Roots32B(t);
    } else if t < 12 {
      Roots32C(t);
    } else {
      Roots32D(t);
    }
  }

  lemma Roots48A(t: nat)
    requires t < 4
    ensures CubeRootBits(Primes48()[t], Constants48()[t])
  {
    if t == 0 {
    } else if t == 1 {
    } else if t == 2 {
    }
  }

  lemma Roots48B(t: nat)
    requires 4 <= t < 8
    ensures CubeRootBits(Primes48()[t], Constants48()[t])
  {
    if t == 4 {
    } else if t == 5 {
    } else if t == 6 {
    }
  }

  lemma Roots48C(t: nat)
    requires 8 <= t < 12
    ensures CubeRootBits(Primes48()[t], Constants48()[t])
  {
    if t == 8 {
    } else if t == 9 {
    } else if t == 10 {
    }
  }

  lemma Roots48D(t: nat)
    requires 12 <= t < 16
    ensures CubeRootBits(Primes48()[t], Constants48()[t])
  {
    if t == 12 {
    } else if t == 13 {
    } else if t == 14 {
    }
  }

  lemma RootsRow48(t: nat)
    requires t < 16
    ensures CubeRootBits(Primes48()[t], Constants48()[t])
  {
    hide CubeRootBits, Primes48, Constants48;
    if t < 4 {
      Roots48A(t);
    } else if t < 8 {
      Roots48B(t);
    } else if t < 12 {
      Roots48C(t);
    } else {
      Roots48D(t);
    }
  }

  /** K_t is the first 32 bits of the fractional part of the cube root of the t-th prime. */
  lemma RoundConstantIsRoot(t: nat)
    requires t < 64
    ensures CubeRootBits(Primes()[t], RoundConstant(t))
  {
    hide CubeRootBits, Primes0, Primes16, Primes32, Primes48, Constants0, Constants16, Constants32, Constants48;
    if t < 16 {
      RootsRow0(t);
    } else if t < 32 {
      RootsRow16(t - 16);
    } else if t < 48 {
      RootsRow32(t - 32);
    } else {
      RootsRow48(t - 48);
    }
  }

  /** The initial hash value: the same of the square roots of the first eight primes. */
  lemma InitialHashIsRoot(i: nat)
    requires i < 8
    ensures SquareRootBits(Primes()[i], InitialHash()[i])
  {
    hide Primes16, Primes32, Primes48;
    if i == 0 {
    } else if i == 1 {
    } else if i == 2 {
    } else if i == 3 {
    } else if i == 4 {
    } else if i == 5 {
    } else if i == 6 {
    } else {
    }
  }
}
