/**
 Powers and residues of natural numbers: the arithmetic that the tagging and
 proving functions of `ces-pdp` take from their big-integer library.
 */
module Modular {

  function Pow(b: nat, e: nat): nat
  {
    if e == 0 then 1 else b * Pow(b, e - 1)
  }

  /** The library's `modpow`: the residue of a power. */
  function ModPow(b: nat, e: nat, n: nat): nat
    requires n > 0
  {
    Pow(b, e) % n
  }

  ghost predicate Congruent(x: int, y: int, n: nat)
    requires n > 0
  {
    x % n == y % n
  }

  /** Euclidean division is unique. */
  lemma DivisionUnique(x: int, k: int, r: int, n: nat)
    requires n > 0 && 0 <= r < n && x == n * k + r
    ensures x / n == k && x % n == r
  {
    var q := x / n;
    if k > q {
      MultipleAtLeast(n, k - q);
      Distribute(n, k, q);
    } else if k < q {
      MultipleAtLeast(n, q - k);
      Distribute(n, q, k);
    }
  }

  lemma Distribute(n: int, k: int, q: int)
    ensures n * (k - q) == n * k - n * q
  {
  }

  lemma MultipleAtLeast(n: nat, k: nat)
    requires k >= 1
    ensures n * k >= n
  {
  }

  /** Numbers that differ by a multiple of n leave the same residue. */
  lemma MultipleApart(x: int, y: int, k: int, n: nat)
    requires n > 0 && x - y == n * k
    ensures Congruent(x, y, n)
  {
    var q := y / n;
    assert x == n * (q + k) + y % n;
    DivisionUnique(x, q + k, y % n, n);
  }

  /** Equal residues differ by a multiple of n. */
  lemma ApartMultiple(x: int, y: int, n: nat) returns (k: int)
    requires n > 0 && Congruent(x, y, n)
    ensures x - y == n * k
  {
    k := x / n - y / n;
    assert x == n * (x / n) + x % n;
    assert y == n * (y / n) + y % n;
    assert n * k == n * (x / n) - n * (y / n);
  }

  lemma ProductApart(a: int, b: int, c: int, d: int, j: int, k: int, n: int)
    requires a - b == n * j && c - d == n * k
    ensures a * c - b * d == n * (j * c + b * k)
  {
    calc {
      a * c - b * d;
      (a - b) * c + b * (c - d);
      (n * j) * c + b * (n * k);
      { Regroup(n, j, c); Regroup(b, n, k); Regroup(n, b, k); }
      n * (j * c) + n * (b * k);
      n * (j * c + b * k);
    }
  }

  lemma CongruentMul(a: int, b: int, c: int, d: int, n: nat)
    requires n > 0 && Congruent(a, b, n) && Congruent(c, d, n)
    ensures Congruent(a * c, b * d, n)
  {
    hide Congruent;
    var j := ApartMultiple(a, b, n);
    var k := ApartMultiple(c, d, n);
    ProductApart(a, b, c, d, j, k, n);
    MultipleApart(a * c, b * d, j * c + b * k, n);
  }

  lemma CongruentAdd(a: int, b: int, c: int, d: int, n: nat)
    requires n > 0 && Congruent(a, b, n) && Congruent(c, d, n)
    ensures Congruent(a + c, b + d, n)
  {
    var j := ApartMultiple(a, b, n);
    var k := ApartMultiple(c, d, n);
    assert n * (j + k) == n * j + n * k;
    MultipleApart(a + c, b + d, j + k, n);
  }

  lemma ResidueCongruent(x: int, n: nat)
    requires n > 0
    ensures Congruent(x % n, x, n)
  {
    DivisionUnique(x % n, 0, x % n, n);
  }

  /** Reducing the factors first does not change the residue of a product. */
  lemma ReduceFactors(x: int, y: int, n: nat)
    requires n > 0
    ensures ((x % n) * (y % n)) % n == (x * y) % n
    ensures (x * (y % n)) % n == (x * y) % n
    ensures ((x % n) * y) % n == (x * y) % n
  {
    ResidueCongruent(x, n);
    ResidueCongruent(y, n);
    CongruentMul(x % n, x, y % n, y, n);
    CongruentMul(x, x, y % n, y, n);
    CongruentMul(x % n, x, y, y, n);
  }

  lemma {:induction false} PowCongruent(a: nat, b: nat, e: nat, n: nat)
    requires n > 0 && Congruent(a, b, n)
    ensures Congruent(Pow(a, e), Pow(b, e), n)
  {
    if e > 0 {
      PowCongruent(a, b, e - 1, n);
      CongruentMul(a, b, Pow(a, e - 1), Pow(b, e - 1), n);
    }
  }

  lemma {:induction false} PowAdd(b: nat, x: nat, y: nat)
    ensures Pow(b, x + y) == Pow(b, x) * Pow(b, y)
  {
    if x > 0 {
      PowAdd(b, x - 1, y);
      Regroup(b, Pow(b, x - 1), Pow(b, y));
    }
  }

  lemma Regroup(a: int, b: int, c: int)
    ensures (a * b) * c == a * (b * c)
  {
  }

  lemma {:induction false} PowPow(b: nat, x: nat, y: nat)
    ensures Pow(Pow(b, x), y) == Pow(b, x * y)
  {
    if y == 0 {
      assert x * y == 0;
    } else {
      PowPow(b, x, y - 1);
      assert x * y == x + x * (y - 1);
      PowAdd(b, x, x * (y - 1));
    }
  }

  lemma {:induction false} PowProduct(a: nat, b: nat, e: nat)
    ensures Pow(a * b, e) == Pow(a, e) * Pow(b, e)
  {
    if e > 0 {
      PowProduct(a, b, e - 1);
      Interchange(a, b, Pow(a, e - 1), Pow(b, e - 1));
    }
  }

  lemma Interchange(a: int, b: int, s: int, t: int)
    ensures (a * b) * (s * t) == (a * s) * (b * t)
  {
    calc {
      (a * b) * (s * t);
      a * (b * (s * t));
      a * (s * (b * t));
      (a * s) * (b * t);
    }
  }

  lemma {:induction false} PowOne(e: nat)
    ensures Pow(1, e) == 1
  {
    if e > 0 {
      PowOne(e - 1);
    }
  }

  /** Swapping the two exponents of an iterated power changes nothing. */
  lemma PowCommute(b: nat, x: nat, y: nat)
    ensures Pow(Pow(b, x), y) == Pow(Pow(b, y), x)
  {
    PowPow(b, x, y);
    PowPow(b, y, x);
    assert x * y == y * x;
  }
}
