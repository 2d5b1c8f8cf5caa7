/**
 The RSA key relation (sections 3.2 and 5.2 of RFC 8017), derived from the
 factorisation of the modulus: raising to `e` and to `d` are inverse on every
 residue, including those that share a factor with the modulus.
 */
module Rsa {
  import opened Modular

  ghost predicate Divides(d: nat, x: int)
    requires d > 0
  {
    x % d == 0
  }

  ghost predicate Prime(p: nat)
  {
    p >= 2 && forall d :: 1 < d < p ==> !Divides(d, p)
  }

  /** What a key pair keeps: modulus and the two exponents. */
  datatype Keys = Keys(n: nat, e: nat, d: nat)

  ghost predicate RsaRelation(k: Keys, p: nat, q: nat)
  {
    && Prime(p) && Prime(q) && p != q
    && k.n == p * q
    && k.e > 0 && k.d > 0
    && Divides(p - 1, k.e * k.d - 1)
    && Divides(q - 1, k.e * k.d - 1)
  }

  ghost predicate ValidKey(k: Keys)
  {
    exists p: nat, q: nat :: RsaRelation(k, p, q)
  }

  lemma DividesMultiple(d: nat, k: int)
    requires d > 0
    ensures Divides(d, d * k)
  {
    MultipleApart(d * k, 0, k, d);
    DivisionUnique(0, 0, 0, d);
  }

  lemma DividesCongruent(d: nat, x: int, y: int)
    requires d > 0
    ensures Divides(d, x - y) <==> Congruent(x, y, d)
  {
    if Divides(d, x - y) {
      MultipleApart(x, y, (x - y) / d, d);
    }
    if Congruent(x, y, d) {
      var k := ApartMultiple(x, y, d);
      DividesMultiple(d, k);
    }
  }

  lemma MultipleFactor(d: nat, x: int, y: int)
    requires d > 0 && Divides(d, x)
    ensures Divides(d, x * y)
  {
    ReduceFactors(x, y, d);
    DivisionUnique(0, 0, 0, d);
  }

  // ---- Euclid's lemma ----

  lemma {:induction false} EuclidBelow(p: nat, a: nat, b: int)
    requires Prime(p) && 0 < a < p && Divides(p, a * b)
    ensures Divides(p, b)
    decreases a
  {
    if a > 1 {
      var q, r := p / a, p % a;
      assert !Divides(a, p);
      var k := (a * b) / p;
      assert a * b == p * k;
      calc {
        r * b;
        (p - a * q) * b;
        p * b - (a * q) * b;
        p * b - q * (a * b);
        p * b - q * (p * k);
        p * (b - q * k);
      }
      DividesMultiple(p, b - q * k);
      EuclidBelow(p, r, b);
    }
  }

  lemma Euclid(p: nat, a: int, b: int)
    requires Prime(p) && Divides(p, a * b) && !Divides(p, a)
    ensures Divides(p, b)
  {
    ReduceFactors(a, b, p);
    EuclidBelow(p, a % p, b);
  }

  /** Two different primes that divide a number divide it jointly. */
  lemma JointDivisor(p: nat, q: nat, z: int)
    requires Prime(p) && Prime(q) && p != q && Divides(p, z) && Divides(q, z)
    ensures p * q > 0 && Divides(p * q, z)
  {
    var k := z / p;
    assert z == p * k;
    assert !Divides(q, p) by {
      if q > p {
        DivisionUnique(p, 0, p, q);
      }
    }
    Euclid(q, p, k);
    var j := k / q;
    assert z == p * (q * j) == (p * q) * j;
    MultipleAtLeast(p, q);
    DividesMultiple(p * q, j);
  }

  // ---- Binomial coefficients modulo a prime ----

  function Choose(n: nat, k: nat): nat
  {
    if k == 0 then 1
    else if n == 0 then 0
    else Choose(n - 1, k - 1) + Choose(n - 1, k)
  }

  lemma {:induction false} ChooseEdge(n: nat, k: nat)
    requires k >= n
    ensures Choose(n, k) == if k == n then 1 else 0
  {
    if n > 0 {
      ChooseEdge(n - 1, k - 1);
      ChooseEdge(n - 1, k);
    }
  }

  lemma {:induction false} ChooseAbsorb(n: nat, k: nat)
    requires n >= 1 && k >= 1
    ensures k * Choose(n, k) == n * Choose(n - 1, k - 1)
  {
    if n == 1 {
      if k >= 2 {
        ChooseEdge(1, k);
        ChooseEdge(0, k - 1);
      }
    } else {
      ChooseAbsorb(n - 1, k);
      if k >= 2 {
        ChooseAbsorb(n - 1, k - 1);
        AbsorbAlgebra(n, k, Choose(n - 2, k - 2), Choose(n - 2, k - 1), Choose(n - 1, k));
      } else {
        assert Choose(n, 1) == 1 + Choose(n - 1, 1);
      }
    }
  }

  lemma AbsorbAlgebra(n: int, k: int, x: int, y: int, z: int)
    requires k * z == (n - 1) * y && (k - 1) * (x + y) == (n - 1) * x
    ensures k * (x + y + z) == n * (x + y)
  {
    calc {
      k * (x + y + z);
      k * (x + y) + k * z;
      (k - 1) * (x + y) + (x + y) + (n - 1) * y;
      (n - 1) * (x + y) + (x + y);
      n * (x + y);
    }
  }

  /** The first m terms of the expansion of (a + 1)^n. */
  function Expansion(a: nat, n: nat, m: nat): nat
  {
    if m == 0 then 0 else Expansion(a, n, m - 1) + Choose(n, m - 1) * Pow(a, m - 1)
  }

  lemma {:induction false} ExpansionStep(a: nat, n: nat, m: nat)
    ensures Expansion(a, n + 1, m + 1) == Expansion(a, n, m + 1) + a * Expansion(a, n, m)
  {
    if m > 0 {
      ExpansionStep(a, n, m - 1);
      TermAlgebra(a, Choose(n, m - 1), Choose(n, m), Pow(a, m - 1), Expansion(a, n, m - 1));
    } else {
      assert Expansion(a, n, 1) == Expansion(a, n, 0) + Choose(n, 0) * Pow(a, 0);
      assert Expansion(a, n + 1, 1) == Expansion(a, n + 1, 0) + Choose(n + 1, 0) * Pow(a, 0);
    }
  }

  lemma TermAlgebra(a: int, c: int, d: int, t: int, x: int)
    ensures (c + d) * (a * t) + a * x == d * (a * t) + a * (x + c * t)
  {
    calc {
      (c + d) * (a * t) + a * x;
      c * (a * t) + d * (a * t) + a * x;
      a * (c * t) + d * (a * t) + a * x;
      d * (a * t) + a * (x + c * t);
    }
  }

  lemma {:induction false} BinomialTheorem(a: nat, n: nat)
    ensures Pow(a + 1, n) == Expansion(a, n, n + 1)
  {
    if n == 0 {
      assert Expansion(a, 0, 1) == Expansion(a, 0, 0) + Choose(0, 0) * Pow(a, 0);
    } else {
      BinomialTheorem(a, n - 1);
      ExpansionStep(a, n - 1, n);
      ChooseEdge(n - 1, n);
      AddOne(a, Expansion(a, n - 1, n));
    }
  }

  lemma AddOne(a: int, x: int)
    ensures (a + 1) * x == x + a * x
  {
  }

  /** Between its ends, a row of prime index vanishes modulo the prime. */
  lemma {:induction false} InnerTermsVanish(a: nat, p: nat, m: nat)
    requires Prime(p) && 1 <= m <= p
    ensures Congruent(Expansion(a, p, m), 1, p)
  {
    if m == 1 {
      assert Expansion(a, p, 1) == Expansion(a, p, 0) + Choose(p, 0) * Pow(a, 0);
    } else {
      InnerTermsVanish(a, p, m - 1);
      ChooseAbsorb(p, m - 1);
      DividesMultiple(p, Choose(p - 1, m - 2));
      EuclidBelow(p, m - 1, Choose(p, m - 1));
      MultipleFactor(p, Choose(p, m - 1), Pow(a, m - 1));
      DividesCongruent(p, Expansion(a, p, m), Expansion(a, p, m - 1));
    }
  }

  /** Fermat's little theorem. */
  lemma {:induction false} Fermat(a: nat, p: nat)
    requires Prime(p)
    ensures Congruent(Pow(a, p), a, p)
  {
    if a == 0 {
      assert Pow(0, p) == 0;
    } else {
      Fermat(a - 1, p);
      BinomialTheorem(a - 1, p);
      InnerTermsVanish(a - 1, p, p);
      ChooseEdge(p, p);
      assert Pow(a, p) == Expansion(a - 1, p, p) + Pow(a - 1, p);
      CongruentAdd(Expansion(a - 1, p, p), 1, Pow(a - 1, p), a - 1, p);
    }
  }

  lemma FermatUnit(a: nat, p: nat)
    requires Prime(p) && !Divides(p, a)
    ensures Congruent(Pow(a, p - 1), 1, p)
  {
    Fermat(a, p);
    DividesCongruent(p, Pow(a, p), a);
    assert Pow(a, p) - a == a * (Pow(a, p - 1) - 1);
    Euclid(p, a, Pow(a, p - 1) - 1);
    DividesCongruent(p, Pow(a, p - 1), 1);
  }

  /** Exponents congruent to 1 modulo p - 1 act as the identity modulo p. */
  lemma IdentityExponent(x: nat, m: nat, p: nat)
    requires Prime(p) && m > 0 && Divides(p - 1, m - 1)
    ensures Congruent(Pow(x, m), x, p)
  {
    if Divides(p, x) {
      assert Congruent(x, 0, p) by { DivisionUnique(0, 0, 0, p); }
      CongruentMul(x, 0, Pow(x, m - 1), Pow(x, m - 1), p);
      assert 0 * Pow(x, m - 1) == 0;
    } else {
      var k := (m - 1) / (p - 1);
      assert m - 1 == (p - 1) * k;
      FermatUnit(x, p);
      PowPow(x, p - 1, k);
      PowCongruent(Pow(x, p - 1), 1, k, p);
      PowOne(k);
      CongruentMul(x, x, Pow(x, m - 1), 1, p);
    }
  }

  /** Signing and then verifying gives back every residue. */
  lemma RsaInverse(k: Keys, x: nat)
    requires ValidKey(k)
    ensures k.n > 0 && Congruent(Pow(x, k.e * k.d), x, k.n)
  {
    var p: nat, q: nat :| RsaRelation(k, p, q);
    var m := k.e * k.d;
    assert m > 0;
    IdentityExponent(x, m, p);
    IdentityExponent(x, m, q);
    DividesCongruent(p, Pow(x, m), x);
    DividesCongruent(q, Pow(x, m), x);
    JointDivisor(p, q, Pow(x, m) - x);
    DividesCongruent(p * q, Pow(x, m), x);
  }
}
