/** gtest's two prime tables (third-party/googletest/googletest/samples/prime_tables.h:52-116):
    trial division with an unbounded search, and a sieve. */
module PrimeTables {

  ghost predicate Times(d: nat, k: nat, n: nat) { n == d * k }

  ghost predicate Divides(d: nat, n: nat) { exists k: nat :: Times(d, k, n) }

  ghost predicate Prime(n: int) {
    n >= 2 && forall d: nat :: 2 <= d < n ==> !Divides(d, n)
  }

  /** The smallest prime above `p`. */
  ghost predicate IsNextPrime(p: int, q: int) {
    p < q && Prime(q) && forall n :: p < n < q ==> !Prime(n)
  }

  // ---------- Arithmetic ----------

  lemma ProductMonotone(a: nat, x: nat, y: nat)
    requires x <= y
    ensures a * x <= a * y
  {
    assert a * y == a * x + a * (y - x);
  }

  lemma DivisionIsUnique(n: nat, d: nat, q: nat, r: nat)
    requires d >= 1 && n == d * q + r && r < d
    ensures n / d == q && n % d == r
  {
    var q' := n / d;
    if q > q' { ProductMonotone(d, q' + 1, q); }
    if q < q' { ProductMonotone(d, q + 1, q'); }
  }

  lemma RemainderIsDivides(d: nat, n: nat)
    requires d >= 1
    ensures n % d == 0 <==> Divides(d, n)
  {
    if n % d == 0 { assert Times(d, n / d, n); }
    if k: nat :| Times(d, k, n) { DivisionIsUnique(n, d, k, 0); }
  }

  lemma DividesTransitive(a: nat, b: nat, c: nat)
    requires Divides(a, b) && Divides(b, c)
    ensures Divides(a, c)
  {
    var x: nat :| Times(a, x, b);
    var y: nat :| Times(b, y, c);
    assert c == a * (x * y);
    assert Times(a, x * y, c);
  }

  lemma SquareLess(a: nat, b: nat)
    requires a * a < b * b
    ensures a < b
  {
  }

  lemma SquareLeast(a: nat, x: nat, y: nat)
    requires a <= x <= y
    ensures a * a <= x * y && x * y == y * x
  {
    ProductMonotone(a, a, y);
    ProductMonotone(y, a, x);
  }

  /** A divisor and its partner. */
  lemma Cofactor(d: nat, n: nat) returns (e: nat)
    requires 2 <= d < n && Divides(d, n)
    ensures n == d * e && 2 <= e < n && Divides(e, n)
  {
    e :| Times(d, e, n);
    assert Times(e, d, n);
  }

  /** Every number from two on has a prime divisor. */
  lemma {:induction false} PrimeDivisor(n: nat) returns (q: nat)
    requires n >= 2
    ensures Prime(q) && Divides(q, n) && q <= n
    decreases n
  {
    if Prime(n) {
      q := n;
      assert Times(n, 1, n);
    } else {
      var d: nat :| 2 <= d < n && Divides(d, n);
      q := PrimeDivisor(d);
      DividesTransitive(q, d, n);
    }
  }

  /** A composite number has a prime divisor whose square does not exceed it. */
  lemma SmallPrimeDivisor(n: nat) returns (q: nat)
    requires n >= 2 && !Prime(n)
    ensures Prime(q) && Divides(q, n) && q * q <= n
  {
    var d: nat :| 2 <= d < n && Divides(d, n);
    var e := Cofactor(d, n);
    if d <= e {
      q := PrimeDivisor(d);
      DividesTransitive(q, d, n);
      SquareLeast(q, d, e);
    } else {
      q := PrimeDivisor(e);
      DividesTransitive(q, e, n);
      SquareLeast(q, e, d);
    }
  }

  function Factorial(n: nat): nat { if n == 0 then 1 else n * Factorial(n - 1) }

  lemma {:induction false} FactorialDivides(n: nat, d: nat)
    requires 1 <= d <= n
    ensures Divides(d, Factorial(n))
    decreases n
  {
    if d == n {
      assert Times(n, Factorial(n - 1), Factorial(n));
    } else {
      FactorialDivides(n - 1, d);
      assert Times(Factorial(n - 1), n, Factorial(n));
      DividesTransitive(d, Factorial(n - 1), Factorial(n));
    }
  }

  lemma {:induction false} FactorialPositive(n: nat)
    ensures Factorial(n) >= 1
  {
    if n > 0 { FactorialPositive(n - 1); }
  }

  lemma NeighboursShareNoDivisor(q: nat, n: nat)
    requires q >= 2 && Divides(q, n)
    ensures !Divides(q, n + 1)
  {
    var a: nat :| Times(q, a, n);
    DivisionIsUnique(n + 1, q, a, 1);
    RemainderIsDivides(q, n + 1);
  }

  /** There is always a larger prime: Euclid's argument. */
  lemma LargerPrime(n: nat) returns (q: nat)
    ensures Prime(q) && q > n
  {
    FactorialPositive(n);
    q := PrimeDivisor(Factorial(n) + 1);
    if q <= n {
      FactorialDivides(n, q);
      NeighboursShareNoDivisor(q, Factorial(n));
    }
  }

  lemma NoSmallDivisor(n: nat, i: nat)
    requires n >= 2 && i * i > n && forall d: nat :: 2 <= d < i ==> !Divides(d, n)
    ensures Prime(n)
  {
    if !Prime(n) {
      var q := SmallPrimeDivisor(n);
      SquareLess(q, i);
    }
  }

  lemma SquareExceeds(i: nat)
    requires i >= 2
    ensures i * i >= 2 * i
  {
  }

  // ---------- On the fly ----------

  method IsPrimeOnTheFly(n: int) returns (r: bool)
    ensures r <==> Prime(n)
  {
    if n <= 1 {
      return false;
    }
    var i := 2;
    while i * i <= n
      invariant i >= 2 && forall d: nat :: 2 <= d < i ==> !Divides(d, n)
      decreases n - i
    {
      SquareExceeds(i);
      RemainderIsDivides(i, n);
      if n % i == 0 {
        return false;
      }
      i := i + 1;
    }
    NoSmallDivisor(n, i);
    return true;
  }

  /** The unbounded search ends because there is a larger prime. */
  method GetNextPrimeOnTheFly(p: int) returns (q: int)
    ensures p < 0 ==> q == -1
    ensures p >= 0 ==> IsNextPrime(p, q)
  {
    if p < 0 {
      return -1;
    }
    ghost var bound := LargerPrime(p);
    var n := p + 1;
    while true
      invariant p < n <= bound && forall m :: p < m < n ==> !Prime(m)
      decreases bound - n
    {
      var prime := IsPrimeOnTheFly(n);
      if prime {
        return n;
      }
      n := n + 1;
    }
  }

  // ---------- The sieve ----------

  ghost predicate Strikes(d: nat, m: nat) {
    Prime(d) && d * d <= m && Divides(d, m)
  }

  /** Struck out by a prime below `i`. */
  ghost predicate Marked(m: nat, i: nat) {
    exists d: nat :: d < i && Strikes(d, m)
  }

  /** Once every prime whose square fits was used, exactly the composites are struck out. */
  lemma MarkedIsComposite(m: nat, i: nat)
    requires m >= 2 && m < i * i
    ensures Marked(m, i) <==> !Prime(m)
  {
    if d: nat :| d < i && Strikes(d, m) {
      SquareExceeds(d);
    }
    if !Prime(m) {
      var q := SmallPrimeDivisor(m);
      SquareLess(q, i);
      assert Strikes(q, m);
    }
  }

  /** A number that is not prime strikes nothing, so skipping it loses nothing. */
  lemma SkipComposite(i: nat)
    requires !Prime(i)
    ensures forall m: nat :: Marked(m, i + 1) <==> Marked(m, i)
  {
    forall m: nat ensures Marked(m, i + 1) <==> Marked(m, i) {
      if d: nat :| d < i + 1 && Strikes(d, m) { assert d != i; }
    }
  }

  lemma EvenIsComposite(i: nat)
    requires i > 2 && i % 2 == 0
    ensures !Prime(i)
  {
    assert Times(2, i / 2, i);
    assert Divides(2, i);
  }

  /** One prime more: it strikes its multiples from its square on. */
  lemma StrikePrime(i: nat, m: nat)
    requires Prime(i)
    ensures Marked(m, i + 1) <==> Marked(m, i) || (i * i <= m && Divides(i, m))
  {
    if d: nat :| d < i + 1 && Strikes(d, m) {
      if d != i { assert Marked(m, i); }
    }
    if i * i <= m && Divides(i, m) { assert Strikes(i, m); }
  }

  /** Between two neighbouring multiples there is no other. */
  lemma NextMultiple(i: nat, k: nat, m: nat)
    requires i >= 1 && i * k < m < i * k + i
    ensures !Divides(i, m)
  {
    DivisionIsUnique(m, i, k, m - i * k);
    RemainderIsDivides(i, m);
  }

  class PreCalculatedPrimeTable {
    const table: array<bool>

    /** True exactly for the primes that fit the table. */
    ghost predicate Valid()
      reads this, table
    {
      table.Length >= 2 && forall n :: 0 <= n < table.Length ==> (table[n] <==> Prime(n))
    }

    constructor (max: int)
      requires max >= 1
      ensures Valid() && table.Length == max + 1 && fresh(table)
    {
      table := new bool[max + 1];
      new;
      CalculatePrimesUpTo(max);
    }

    /** `m` numbers above one are left exactly if no prime below `i` strikes them. */
    ghost predicate SievedBelow(i: nat)
      reads this, table
    {
      table.Length >= 2 && !table[0] && !table[1] && forall m: nat :: 2 <= m < table.Length ==>
        (table[m] <==> !Marked(m, i))
    }

    method CalculatePrimesUpTo(max: int)
      requires max >= 1 && table.Length == max + 1
      modifies table
      ensures Valid()
    {
      forall n | 0 <= n < table.Length {
        table[n] := true;
      }
      table[0] := false;
      table[1] := false;
      NothingBelowTwo();
      var i := 2;
      while i * i <= max
        invariant i >= 2 && (i == 2 || i % 2 == 1) && SievedBelow(i)
        decreases max - i
      {
        SquareExceeds(i);
        MarkedIsComposite(i, i);
        if table[i] {
          StrikeMultiples(i);
        } else {
          SkipComposite(i);
        }
        assert SievedBelow(i + 1);
        if i % 2 == 1 {
          EvenIsComposite(i + 1);
          SkipComposite(i + 1);
        }
        i := i + i % 2 + 1;
      }
      forall m | 2 <= m < table.Length ensures table[m] <==> Prime(m) {
        MarkedIsComposite(m, i);
      }
    }

    /** The inner loop. */
    method StrikeMultiples(i: nat)
      requires i >= 2 && Prime(i) && SievedBelow(i)
      modifies table
      ensures SievedBelow(i + 1)
    {
      var j := i * i;
      ghost var k := i;
      SquareExceeds(i);
      while j < table.Length
        invariant j == i * k && k >= i && j >= i * i
        invariant table.Length >= 2 && !table[0] && !table[1]
        invariant forall m: nat :: 2 <= m < table.Length ==>
                    (table[m] <==> !Marked(m, i) && !(i * i <= m < j && Divides(i, m)))
        decreases table.Length - j
      {
        assert Times(i, k, j);
        forall m: nat | j < m < j + i ensures !Divides(i, m) { NextMultiple(i, k, m); }
        table[j] := false;
        assert i * (k + 1) == j + i;
        j, k := j + i, k + 1;
      }
      forall m: nat | 2 <= m < table.Length ensures table[m] <==> !Marked(m, i + 1) {
        StrikePrime(i, m);
      }
    }

    method IsPrime(n: int) returns (r: bool)
      requires Valid()
      ensures r <==> Prime(n) && n < table.Length
    {
      r := 0 <= n < table.Length && table[n];
    }

    /** The on-the-fly table's answer, or -1 when that lies beyond the table. */
    method GetNextPrime(p: int) returns (q: int)
      requires Valid() && p >= -1
      ensures q != -1 ==> IsNextPrime(p, q) && q < table.Length
      ensures q == -1 <==> forall n :: p < n < table.Length ==> !Prime(n)
    {
      var n := p + 1;
      while n < table.Length
        invariant p < n && forall m :: p < m < n ==> !Prime(m)
      {
        if table[n] {
          return n;
        }
        n := n + 1;
      }
      return -1;
    }
  }

  lemma NothingBelowTwo()
    ensures forall m: nat :: !Marked(m, 2)
  {
  }

  lemma NextPrimeIsUnique(p: int, q: int, r: int)
    requires IsNextPrime(p, q) && IsNextPrime(p, r)
    ensures q == r
  {
  }

  lemma TwoIsFirstPrime()
    ensures Prime(2) && IsNextPrime(-1, 2)
  {
  }

  /** Wherever the sieved table knows an answer both tables give the same one, exactly when `p`
      is not negative or the table has no prime: below zero only the sieved table searches. */
  method TablesAgree(table: PreCalculatedPrimeTable, p: int) returns (a: int, b: int)
    requires table.Valid() && p >= -1
    ensures (a == b || (a == -1 && b >= table.table.Length)) <==> (p >= 0 || table.table.Length <= 2)
    ensures p == -1 ==> b == -1 && a == if table.table.Length > 2 then 2 else -1
  {
    a := table.GetNextPrime(p);
    b := GetNextPrimeOnTheFly(p);
    if p == -1 {
      TwoIsFirstPrime();
      if a != -1 { NextPrimeIsUnique(p, a, 2); }
    } else if a != -1 {
      NextPrimeIsUnique(p, a, b);
    } else {
      assert Prime(b) && b >= table.table.Length;
    }
  }
}
