/**
 * What FIPS 180-4 says of the numbers in SHA-256: the round constants are the first 32 bits of the fractional parts of
 * the cube roots of the first sixty-four primes (section 4.2.2), and the initial value is made of those of the square
 * roots of the first eight (section 5.3.3).
 */
module Sha256Constants {
  import opened Words
  import opened Arithmetic
  import opened Sha256Spec

  // ----- the first sixty-four primes -----

  ghost predicate IsPrime(n: nat) {
    n >= 2 && forall d :: 2 <= d < n ==> n % d != 0
  }

  /** How many primes there are below n. */
  ghost function PrimesBelow(n: nat): nat {
    if n == 0 then 0 else PrimesBelow(n - 1) + if IsPrime(n - 1) then 1 else 0
  }

  function Prime(i: nat): nat {
    match i
    case 0 => 2 case 1 => 3 case 2 => 5 case 3 => 7 case 4 => 11 case 5 => 13 case 6 => 17 case 7 => 19
    case 8 => 23 case 9 => 29 case 10 => 31 case 11 => 37 case 12 => 41 case 13 => 43 case 14 => 47 case 15 => 53
    case 16 => 59 case 17 => 61 case 18 => 67 case 19 => 71 case 20 => 73 case 21 => 79 case 22 => 83 case 23 => 89
    case 24 => 97 case 25 => 101 case 26 => 103 case 27 => 107
    case 28 => 109 case 29 => 113 case 30 => 127 case 31 => 131
    case 32 => 137 case 33 => 139 case 34 => 149 case 35 => 151
    case 36 => 157 case 37 => 163 case 38 => 167 case 39 => 173
    case 40 => 179 case 41 => 181 case 42 => 191 case 43 => 193
    case 44 => 197 case 45 => 199 case 46 => 211 case 47 => 223
    case 48 => 227 case 49 => 229 case 50 => 233 case 51 => 239
    case 52 => 241 case 53 => 251 case 54 => 257 case 55 => 263
    case 56 => 269 case 57 => 271 case 58 => 277 case 59 => 281
    case 60 => 283 case 61 => 293 case 62 => 307 case 63 => 311
    case _ => 0
  }

  predicate Passes(n: nat, q: nat)
    requires q > 0
  {
    n % q != 0 || n == q
  }

  /** Not a proper multiple of a prime up to seventeen, which decides primality below 19 * 19. */
  predicate Sieved(n: nat) {
    && n >= 2 && Passes(n, 2) && Passes(n, 3) && Passes(n, 5) && Passes(n, 7)
    && Passes(n, 11) && Passes(n, 13) && Passes(n, 17)
  }

  lemma SmallFactor(m: nat) returns (q: nat)
    requires 2 <= m < 19
    ensures (q == 2 || q == 3 || q == 5 || q == 7 || q == 11 || q == 13 || q == 17) && m % q == 0
  {
    q := if m % 2 == 0 then 2 else if m % 3 == 0 then 3 else if m % 5 == 0 then 5 else m;
  }

  lemma Times(x: nat, q: nat)
    requires q > 0
    ensures x * q % q == 0
  {
    DivModIs(x * q, q, x, 0);
  }

  lemma Multiple(n: nat, m: nat, q: nat)
    requires q > 0 && m > 0 && m % q == 0 && n % m == 0
    ensures n % q == 0
  {
    var a, b := n / m, m / q;
    assert n == a * m && m == b * q;
    MulAssociates(a, b, q);
    Times(a * b, q);
  }

  /** A proper divisor, or the number that goes with it, is below nineteen. */
  lemma Cofactor(n: nat, d: nat)
    requires 2 <= d < n < 361 && n % d == 0
    ensures var m := if d < 19 then d else n / d; 2 <= m < 19 && m < n && n % m == 0
  {
    var f := n / d;
    assert n == f * d;
    if d >= 19 {
      if f >= 19 {
        MulLess(18, f, d);
      }
      Times(d, f);
      assert d * f == n;
    }
  }

  lemma SievedIsPrime(n: nat)
    requires n < 361
    ensures Sieved(n) <==> IsPrime(n)
  {
    if IsPrime(n) {
      assert Passes(n, 2) && Passes(n, 3) && Passes(n, 5) && Passes(n, 7);
      assert Passes(n, 11) && Passes(n, 13) && Passes(n, 17);
    } else if n >= 2 {
      var d :| 2 <= d < n && n % d == 0;
      Cofactor(n, d);
      var m := if d < 19 then d else n / d;
      var q := SmallFactor(m);
      Multiple(n, m, q);
      assert q < n;
    }
  }

  /** No odd number between an odd p and p + g is prime; the gaps of the table are at most fourteen. */
  predicate OddGap(p: nat, g: nat) {
    && g <= 14
    && (g <= 2 || !Sieved(p + 2)) && (g <= 4 || !Sieved(p + 4)) && (g <= 6 || !Sieved(p + 6))
    && (g <= 8 || !Sieved(p + 8)) && (g <= 10 || !Sieved(p + 10)) && (g <= 12 || !Sieved(p + 12))
  }

  /** Entry i of the table, an odd one, is prime, and the next entry is the next prime. */
  predicate EntryOk(i: nat) {
    && Prime(i) % 2 == 1 && Sieved(Prime(i)) && Prime(i) < Prime(i + 1) < 361
    && OddGap(Prime(i), Prime(i + 1) - Prime(i))
  }

  lemma Entries1()
    ensures EntryOk(1) && EntryOk(2) && EntryOk(3)
  {
  }

  lemma Entries4()
    ensures EntryOk(4) && EntryOk(5) && EntryOk(6)
  {
  }

  lemma Entries7()
    ensures EntryOk(7) && EntryOk(8) && EntryOk(9)
  {
  }

  lemma Entries10()
    ensures EntryOk(10) && EntryOk(11) && EntryOk(12)
  {
  }

  lemma Entries13()
    ensures EntryOk(13) && EntryOk(14) && EntryOk(15)
  {
  }

  lemma Entries16()
    ensures EntryOk(16) && EntryOk(17) && EntryOk(18)
  {
  }

  lemma Entries19()
    ensures EntryOk(19) && EntryOk(20) && EntryOk(21)
  {
  }

  lemma Entries22()
    ensures EntryOk(22) && EntryOk(23) && EntryOk(24)
  {
  }

  lemma Entries25()
    ensures EntryOk(25) && EntryOk(26) && EntryOk(27)
  {
  }

  lemma Entries28()
    ensures EntryOk(28) && EntryOk(29) && EntryOk(30)
  {
  }

  lemma Entries31()
    ensures EntryOk(31) && EntryOk(32) && EntryOk(33)
  {
  }

  lemma Entries34()
    ensures EntryOk(34) && EntryOk(35) && EntryOk(36)
  {
  }

  lemma Entries37()
    ensures EntryOk(37) && EntryOk(38) && EntryOk(39)
  {
  }

  lemma Entries40()
    ensures EntryOk(40) && EntryOk(41) && EntryOk(42)
  {
  }

  lemma Entries43()
    ensures EntryOk(43) && EntryOk(44) && EntryOk(45)
  {
  }

  lemma Entries46()
    ensures EntryOk(46) && EntryOk(47) && EntryOk(48)
  {
  }

  lemma Entries49()
    ensures EntryOk(49) && EntryOk(50) && EntryOk(51)
  {
  }

  lemma Entries52()
    ensures EntryOk(52) && EntryOk(53) && EntryOk(54)
  {
  }

  lemma Entries55()
    ensures EntryOk(55) && EntryOk(56) && EntryOk(57)
  {
  }

  lemma Entries58()
    ensures EntryOk(58) && EntryOk(59) && EntryOk(60)
  {
  }

  lemma Entries61()
    ensures EntryOk(61) && EntryOk(62)
  {
  }

  lemma TableOk(i: nat)
    requires 0 < i < 63
    ensures EntryOk(i)
  {
    hide EntryOk;
    if i < 4 {
      Entries1();
    } else if i < 7 {
      Entries4();
    } else if i < 10 {
      Entries7();
    } else if i < 13 {
      Entries10();
    } else if i < 16 {
      Entries13();
    } else if i < 19 {
      Entries16();
    } else if i < 22 {
      Entries19();
    } else if i < 25 {
      Entries22();
    } else if i < 28 {
      Entries25();
    } else if i < 31 {
      Entries28();
    } else if i < 34 {
      Entries31();
    } else if i < 37 {
      Entries34();
    } else if i < 40 {
      Entries37();
    } else if i < 43 {
      Entries40();
    } else if i < 46 {
      Entries43();
    } else if i < 49 {
      Entries46();
    } else if i < 52 {
      Entries49();
    } else if i < 55 {
      Entries52();
    } else if i < 58 {
      Entries55();
    } else if i < 61 {
      Entries58();
    } else {
      Entries61();
    }
  }

  lemma GapIsEmpty(p: nat, g: nat, n: nat)
    requires p % 2 == 1 && p >= 3 && OddGap(p, g) && p < n < p + g
    ensures !Sieved(n)
  {
    if n % 2 == 1 {
      var d := n - p;
      assert d == 2 || d == 4 || d == 6 || d == 8 || d == 10 || d == 12;
    }
  }

  lemma {:induction false} NoPrimesBetween(a: nat, b: nat)
    requires a <= b < 361 && forall n :: a <= n < b ==> !Sieved(n)
    ensures PrimesBelow(b) == PrimesBelow(a)
    decreases b - a
  {
    hide Sieved, IsPrime;
    if a < b {
      SievedIsPrime(a);
      NoPrimesBetween(a + 1, b);
    }
  }

  lemma FirstPrimes()
    ensures Sieved(2) && Sieved(3) && Sieved(311) && PrimesBelow(2) == 0
    ensures Prime(0) == 2 && Prime(1) == 3 && Prime(63) == 311
  {
    SievedIsPrime(0);
    SievedIsPrime(1);
    assert PrimesBelow(1) == 0;
  }

  /** The table holds the primes in order: entry i is the prime with i primes below it. */
  lemma {:induction false} PrimeTable(i: nat)
    requires i < 64
    ensures IsPrime(Prime(i)) && PrimesBelow(Prime(i)) == i && Prime(i) < 361
  {
    hide Sieved, IsPrime, OddGap, Prime;
    FirstPrimes();
    if i > 1 {
      PrimeTable(i - 1);
      TableOk(i - 1);
      var p, g := Prime(i - 1), Prime(i) - Prime(i - 1);
      forall n | p + 1 <= n < p + g
        ensures !Sieved(n)
      {
        GapIsEmpty(p, g, n);
      }
      NoPrimesBetween(p + 1, p + g);
      if i < 63 {
        TableOk(i);
      }
    } else if i == 1 {
      SievedIsPrime(2);
    }
    SievedIsPrime(Prime(i));
  }

  // ----- the constants -----

  /** A number with 32 fractional bits. */
  function Fixed(q: nat, k: Word): nat {
    q * 0x1_0000_0000 + k
  }

  /** q and 32 fractional bits k are the cube root of p, rounded down. */
  predicate IsCubeRoot(k: Word, q: nat, p: nat) {
    var x := Fixed(q, k);
    x * x * x <= p * 0x1_0000_0000_0000_0000_0000_0000 < (x + 1) * (x + 1) * (x + 1)
  }

  predicate IsSquareRoot(k: Word, q: nat, p: nat) {
    var x := Fixed(q, k);
    x * x <= p * 0x1_0000_0000_0000_0000 < (x + 1) * (x + 1)
  }

  lemma Roots0()
    ensures IsCubeRoot(K(0), 1, Prime(0)) && IsCubeRoot(K(1), 1, Prime(1))
    ensures IsCubeRoot(K(2), 1, Prime(2)) && IsCubeRoot(K(3), 1, Prime(3))
  {
  }

  lemma Roots4()
    ensures IsCubeRoot(K(4), 2, Prime(4)) && IsCubeRoot(K(5), 2, Prime(5))
    ensures IsCubeRoot(K(6), 2, Prime(6)) && IsCubeRoot(K(7), 2, Prime(7))
  {
  }

  lemma Roots8()
    ensures IsCubeRoot(K(8), 2, Prime(8)) && IsCubeRoot(K(9), 3, Prime(9))
    ensures IsCubeRoot(K(10), 3, Prime(10)) && IsCubeRoot(K(11), 3, Prime(11))
  {
  }

  lemma Roots12()
    ensures IsCubeRoot(K(12), 3, Prime(12)) && IsCubeRoot(K(13), 3, Prime(13))
    ensures IsCubeRoot(K(14), 3, Prime(14)) && IsCubeRoot(K(15), 3, Prime(15))
  {
  }

  lemma Roots16()
    ensures IsCubeRoot(K(16), 3, Prime(16)) && IsCubeRoot(K(17), 3, Prime(17))
    ensures IsCubeRoot(K(18), 4, Prime(18)) && IsCubeRoot(K(19), 4, Prime(19))
  {
  }

  lemma Roots20()
    ensures IsCubeRoot(K(20), 4, Prime(20)) && IsCubeRoot(K(21), 4, Prime(21))
    ensures IsCubeRoot(K(22), 4, Prime(22)) && IsCubeRoot(K(23), 4, Prime(23))
  {
  }

  lemma Roots24()
    ensures IsCubeRoot(K(24), 4, Prime(24)) && IsCubeRoot(K(25), 4, Prime(25))
    ensures IsCubeRoot(K(26), 4, Prime(26)) && IsCubeRoot(K(27), 4, Prime(27))
  {
  }

  lemma Roots28()
    ensures IsCubeRoot(K(28), 4, Prime(28)) && IsCubeRoot(K(29), 4, Prime(29))
    ensures IsCubeRoot(K(30), 5, Prime(30)) && IsCubeRoot(K(31), 5, Prime(31))
  {
  }

  lemma Roots32()
    ensures IsCubeRoot(K(32), 5, Prime(32)) && IsCubeRoot(K(33), 5, Prime(33))
    ensures IsCubeRoot(K(34), 5, Prime(34)) && IsCubeRoot(K(35), 5, Prime(35))
  {
  }

  lemma Roots36()
    ensures IsCubeRoot(K(36), 5, Prime(36)) && IsCubeRoot(K(37), 5, Prime(37))
    ensures IsCubeRoot(K(38), 5, Prime(38)) && IsCubeRoot(K(39), 5, Prime(39))
  {
  }

  lemma Roots40()
    ensures IsCubeRoot(K(40), 5, Prime(40)) && IsCubeRoot(K(41), 5, Prime(41))
    ensures IsCubeRoot(K(42), 5, Prime(42)) && IsCubeRoot(K(43), 5, Prime(43))
  {
  }

  lemma Roots44()
    ensures IsCubeRoot(K(44), 5, Prime(44)) && IsCubeRoot(K(45), 5, Prime(45))
    ensures IsCubeRoot(K(46), 5, Prime(46)) && IsCubeRoot(K(47), 6, Prime(47))
  {
  }

  lemma Roots48()
    ensures IsCubeRoot(K(48), 6, Prime(48)) && IsCubeRoot(K(49), 6, Prime(49))
    ensures IsCubeRoot(K(50), 6, Prime(50)) && IsCubeRoot(K(51), 6, Prime(51))
  {
  }

  lemma Roots52()
    ensures IsCubeRoot(K(52), 6, Prime(52)) && IsCubeRoot(K(53), 6, Prime(53))
    ensures IsCubeRoot(K(54), 6, Prime(54)) && IsCubeRoot(K(55), 6, Prime(55))
  {
  }

  lemma Roots56()
    ensures IsCubeRoot(K(56), 6, Prime(56)) && IsCubeRoot(K(57), 6, Prime(57))
    ensures IsCubeRoot(K(58), 6, Prime(58)) && IsCubeRoot(K(59), 6, Prime(59))
  {
  }

  lemma Roots60()
    ensures IsCubeRoot(K(60), 6, Prime(60)) && IsCubeRoot(K(61), 6, Prime(61))
    ensures IsCubeRoot(K(62), 6, Prime(62)) && IsCubeRoot(K(63), 6, Prime(63))
  {
  }

  /** Section 4.2.2: constant i is the fraction of the cube root of the prime with i primes below it. */
  lemma RoundConstants(i: nat)
    requires i < 64
    ensures exists p: nat, q: nat :: IsPrime(p) && PrimesBelow(p) == i && IsCubeRoot(K(i), q, p)
  {
    hide IsCubeRoot, IsPrime, PrimesBelow, K, Prime;
    PrimeTable(i);
    if i < 4 {
      Roots0();
    } else if i < 8 {
      Roots4();
    } else if i < 12 {
      Roots8();
    } else if i < 16 {
      Roots12();
    } else if i < 20 {
      Roots16();
    } else if i < 24 {
      Roots20();
    } else if i < 28 {
      Roots24();
    } else if i < 32 {
      Roots28();
    } else if i < 36 {
      Roots32();
    } else if i < 40 {
      Roots36();
    } else if i < 44 {
      Roots40();
    } else if i < 48 {
      Roots44();
    } else if i < 52 {
      Roots48();
    } else if i < 56 {
      Roots52();
    } else if i < 60 {
      Roots56();
    } else {
      Roots60();
    }
  }

  /** Section 5.3.3: the initial value is made of the fractions of the square roots of the first eight primes. */
  lemma InitialValue()
    ensures IsSquareRoot(IV.a, 1, Prime(0)) && IsSquareRoot(IV.b, 1, Prime(1))
    ensures IsSquareRoot(IV.c, 2, Prime(2)) && IsSquareRoot(IV.d, 2, Prime(3))
    ensures IsSquareRoot(IV.e, 3, Prime(4)) && IsSquareRoot(IV.f, 3, Prime(5))
    ensures IsSquareRoot(IV.g, 4, Prime(6)) && IsSquareRoot(IV.h, 4, Prime(7))
  {
  }
}
