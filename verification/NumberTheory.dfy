/** The arithmetic behind textbook RSA: Euclid's lemma, the binomial theorem, Fermat's little theorem and
    the combination of two prime moduli. */
module NumberTheory {
  import opened Bytes

  function Times(a: int, b: int): int { a * b }

  ghost predicate Divides(d: int, n: int) { exists k: int :: Times(d, k) == n }

  ghost predicate Congruent(a: int, b: int, m: int) { Divides(m, a - b) }

  ghost predicate IsPrime(p: int) {
    2 <= p && forall d :: 2 <= d < p ==> !Divides(d, p)
  }

  function Pow(x: int, n: nat): int {
    if n == 0 then 1 else x * Pow(x, n - 1)
  }

  // ----- Divisibility -----

  lemma Multiple(d: int, k: int)
    ensures Divides(d, d * k)
  {
    assert Times(d, k) == d * k;
  }

  lemma Quotient(d: int, n: int) returns (k: int)
    requires Divides(d, n)
    ensures n == d * k
  {
    k :| Times(d, k) == n;
  }

  lemma DividesSum(d: int, a: int, b: int)
    requires Divides(d, a) && Divides(d, b)
    ensures Divides(d, a + b) && Divides(d, a - b)
  {
    var j := Quotient(d, a);
    var k := Quotient(d, b);
    Multiple(d, j + k);
    Multiple(d, j - k);
    assert d * (j + k) == a + b && d * (j - k) == a - b;
  }

  lemma DividesProduct(d: int, a: int, c: int)
    requires Divides(d, a)
    ensures Divides(d, c * a)
  {
    var k := Quotient(d, a);
    Multiple(d, c * k);
    assert d * (c * k) == c * (d * k);
  }

  lemma CongruentTrans(a: int, b: int, c: int, m: int)
    requires Congruent(a, b, m) && Congruent(b, c, m)
    ensures Congruent(a, c, m)
  {
    DividesSum(m, a - b, b - c);
  }

  lemma CongruentProduct(a: int, b: int, c: int, d: int, m: int)
    requires Congruent(a, b, m) && Congruent(c, d, m)
    ensures Congruent(a * c, b * d, m)
  {
    DividesProduct(m, c - d, a);
    DividesProduct(m, a - b, d);
    DividesSum(m, a * (c - d), d * (a - b));
    assert a * (c - d) + d * (a - b) == a * c - b * d;
  }

  lemma CongruentSelf(a: int, m: int)
    ensures Congruent(a, a, m)
  {
    Multiple(m, 0);
  }

  lemma {:induction false} CongruentPow(a: int, b: int, n: nat, m: int)
    requires Congruent(a, b, m)
    ensures Congruent(Pow(a, n), Pow(b, n), m)
  {
    if n == 0 {
      CongruentSelf(1, m);
    } else {
      CongruentPow(a, b, n - 1, m);
      CongruentProduct(a, b, Pow(a, n - 1), Pow(b, n - 1), m);
    }
  }

  lemma RemainderCongruent(a: nat, m: nat)
    requires m > 0
    ensures Congruent(a % m, a, m)
  {
    Multiple(m, -(a / m));
    assert a == m * (a / m) + a % m;
    assert m * -(a / m) == -(m * (a / m));
  }

  lemma ResidueUnique(a: int, b: nat, m: nat)
    requires b < m && Congruent(a, b, m)
    ensures a % m == b
  {
    var k := Quotient(m, a - b);
    RemainderIs(a, m, k, b);
  }

  /** What divides `p` and `a * b` divides the remainder of `p` by `a`, times `b`. */
  lemma RemainderTimes(p: int, a: int, q: int, r: int, b: int)
    requires p == a * q + r && Divides(p, a * b)
    ensures Divides(p, r * b)
  {
    Multiple(p, b);
    DividesProduct(p, a * b, q);
    DividesSum(p, p * b, q * (a * b));
    assert p * b == (a * q + r) * b;
    assert q * (a * b) == (a * q) * b;
  }

  /** Euclid's lemma, for a factor already reduced below the prime. */
  lemma {:induction false} EuclidReduced(p: int, a: int, b: int)
    requires IsPrime(p) && 0 < a < p && Divides(p, a * b)
    ensures Divides(p, b)
    decreases a
  {
    if a > 1 {
      var q, r := p / a, p % a;
      assert p == a * q + r;
      if r == 0 {
        Multiple(a, q);
        assert Divides(a, p);
        assert false;
      }
      RemainderTimes(p, a, q, r, b);
      EuclidReduced(p, r, b);
    }
  }

  lemma Euclid(p: int, a: int, b: int)
    requires IsPrime(p) && Divides(p, a * b)
    ensures Divides(p, a) || Divides(p, b)
  {
    var q, r := a / p, a % p;
    assert a == p * q + r;
    if r == 0 {
      Multiple(p, q);
    } else {
      Multiple(p, q * b);
      DividesSum(p, a * b, p * (q * b));
      assert a * b - p * (q * b) == r * b by {
        assert a * b == (p * q + r) * b;
        assert p * (q * b) == (p * q) * b;
      }
      EuclidReduced(p, r, b);
    }
  }

  // ----- Binomial theorem -----

  function Binom(n: nat, k: nat): nat {
    if k == 0 then 1 else if n == 0 then 0 else Binom(n - 1, k - 1) + Binom(n - 1, k)
  }

  lemma {:induction false} BinomBeyond(n: nat, k: nat)
    requires k > n
    ensures Binom(n, k) == 0
  {
    if n > 0 {
      BinomBeyond(n - 1, k - 1);
      BinomBeyond(n - 1, k);
    }
  }

  lemma {:induction false} BinomFull(n: nat)
    ensures Binom(n, n) == 1
  {
    if n > 0 {
      BinomFull(n - 1);
      BinomBeyond(n - 1, n);
    }
  }

  lemma {:induction false} Absorption(n: nat, k: nat)
    requires n >= 1 && k >= 1
    ensures k * Binom(n, k) == n * Binom(n - 1, k - 1)
  {
    if n == 1 {
      BinomBeyond(0, k);
      if k > 1 {
        BinomBeyond(0, k - 1);
        BinomBeyond(1, k);
      }
    } else if k == 1 {
      Absorption(n - 1, 1);
    } else {
      Absorption(n - 1, k - 1);
      Absorption(n - 1, k);
      var a, b, c := Binom(n - 1, k - 1), Binom(n - 2, k - 2), Binom(n - 2, k - 1);
      assert a == b + c && Binom(n, k) == a + Binom(n - 1, k);
      AbsorptionAlgebra(n, k, a, b, c, Binom(n - 1, k));
    }
  }

  lemma AbsorptionAlgebra(n: int, k: int, a: int, b: int, c: int, d: int)
    requires a == b + c && (k - 1) * a == (n - 1) * b && k * d == (n - 1) * c
    ensures k * (a + d) == n * a
  {
    assert k * (a + d) == a + (k - 1) * a + k * d;
    assert (n - 1) * b + (n - 1) * c == (n - 1) * a;
  }

  /** A prime divides every inner entry of its row of Pascal's triangle. */
  lemma PrimeDividesBinom(p: nat, k: nat)
    requires IsPrime(p) && 0 < k < p
    ensures Divides(p, Binom(p, k))
  {
    Absorption(p, k);
    Multiple(p, Binom(p - 1, k - 1));
    EuclidReduced(p, k, Binom(p, k));
  }

  function BinomSum(n: nat, x: int, k: nat): int {
    Binom(n, k) * Pow(x, k) + if k == 0 then 0 else BinomSum(n, x, k - 1)
  }

  lemma {:induction false} BinomSumStep(n: nat, x: int, k: nat)
    ensures BinomSum(n + 1, x, k) == BinomSum(n, x, k) + if k == 0 then 0 else x * BinomSum(n, x, k - 1)
  {
    if k > 0 {
      BinomSumStep(n, x, k - 1);
      BinomSumAlgebra(Binom(n, k - 1), Binom(n, k), x, Pow(x, k - 1), BinomSum(n, x, k - 1),
                      if k == 1 then 0 else BinomSum(n, x, k - 2));
    }
  }

  lemma BinomSumAlgebra(u: int, v: int, x: int, w: int, s: int, t: int)
    ensures (u + v) * (x * w) + (s + x * t) == v * (x * w) + s + x * (u * w + t)
  {
    assert x * (u * w + t) == u * (x * w) + x * t;
  }

  lemma {:induction false} BinomialTheorem(n: nat, x: int)
    ensures Pow(x + 1, n) == BinomSum(n, x, n)
  {
    if n > 0 {
      BinomialTheorem(n - 1, x);
      BinomSumStep(n - 1, x, n);
      BinomBeyond(n - 1, n);
      assert BinomSum(n - 1, x, n) == 0 * Pow(x, n) + BinomSum(n - 1, x, n - 1);
    }
  }

  lemma {:induction false} InnerTermsVanish(p: nat, x: int, k: nat)
    requires IsPrime(p) && k < p
    ensures Congruent(BinomSum(p, x, k), 1, p)
  {
    if k == 0 {
      CongruentSelf(1, p);
    } else {
      InnerTermsVanish(p, x, k - 1);
      PrimeDividesBinom(p, k);
      DividesProduct(p, Binom(p, k), Pow(x, k));
      DividesSum(p, BinomSum(p, x, k - 1) - 1, Pow(x, k) * Binom(p, k));
    }
  }

  // ----- Fermat and RSA -----

  lemma {:induction false} PowOfZero(n: nat)
    requires n > 0
    ensures Pow(0, n) == 0
  {
  }

  /** Fermat's little theorem in the form that needs no coprimality. */
  lemma {:induction false} Fermat(p: nat, a: nat)
    requires IsPrime(p)
    ensures Congruent(Pow(a, p), a, p)
  {
    if a == 0 {
      PowOfZero(p);
      CongruentSelf(0, p);
    } else {
      Fermat(p, a - 1);
      BinomialTheorem(p, a - 1);
      InnerTermsVanish(p, a - 1, p - 1);
      BinomFull(p);
      DividesSum(p, BinomSum(p, a - 1, p - 1) - 1, Pow(a - 1, p) - (a - 1));
    }
  }

  lemma {:induction false} PowSum(x: int, m: nat, n: nat)
    ensures Pow(x, m + n) == Pow(x, m) * Pow(x, n)
  {
    if m > 0 {
      PowSum(x, m - 1, n);
      assert x * (Pow(x, m - 1) * Pow(x, n)) == (x * Pow(x, m - 1)) * Pow(x, n);
    }
  }

  lemma {:induction false} PowPow(x: int, m: nat, n: nat)
    ensures Pow(Pow(x, m), n) == Pow(x, m * n)
  {
    if n > 0 {
      PowPow(x, m, n - 1);
      PowSum(x, m, m * (n - 1));
      assert m + m * (n - 1) == m * n;
    } else {
      assert m * n == 0;
    }
  }

  /** Raising to any exponent that is 1 modulo `p - 1` changes nothing modulo the prime `p`. */
  lemma {:induction false} FermatExponent(p: nat, m: nat, k: nat)
    requires IsPrime(p)
    ensures Congruent(Pow(m, 1 + k * (p - 1)), m, p)
  {
    if k == 0 {
      assert Pow(m, 1) == m * Pow(m, 0);
      CongruentSelf(m, p);
    } else {
      FermatExponent(p, m, k - 1);
      var e: nat := 1 + (k - 1) * (p - 1);
      assert 1 + k * (p - 1) == e + (p - 1);
      PowSum(m, e, p - 1);
      CongruentSelf(Pow(m, p - 1), p);
      CongruentProduct(Pow(m, e), m, Pow(m, p - 1), Pow(m, p - 1), p);
      Fermat(p, m);
      CongruentTrans(Pow(m, 1 + k * (p - 1)), Pow(m, p), m, p);
    }
  }

  lemma PrimesCombine(p: int, q: int, n: int)
    requires IsPrime(p) && IsPrime(q) && p != q && Divides(p, n) && Divides(q, n)
    ensures Divides(p * q, n)
  {
    var t := Quotient(p, n);
    Euclid(q, p, t);
    if Divides(q, p) {
      var u := Quotient(q, p);
      if q < p {
        assert false;
      }
      if u >= 1 {
        MulAtLeast(q, u);
      } else {
        MulAtLeast(q, 1 - u);
      }
      assert false;
    }
    var u := Quotient(q, t);
    Multiple(p * q, u);
    assert p * (q * u) == (p * q) * u;
  }

  /** The RSA identity: every residue modulo `p * q`, coprime to it or not, is a fixed point. */
  lemma RsaFixedPoint(p: nat, q: nat, e: nat, d: nat, j: nat, k: nat, m: nat)
    requires IsPrime(p) && IsPrime(q) && p != q
    requires e * d == 1 + j * (p - 1) && e * d == 1 + k * (q - 1)
    ensures Congruent(Pow(m, e * d), m, p * q)
  {
    FermatExponent(p, m, j);
    FermatExponent(q, m, k);
    PrimesCombine(p, q, Pow(m, e * d) - m);
  }
}
