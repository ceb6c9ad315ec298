/** The CPU benchmark plugin: the sieve of Eratosthenes over a byte array, and the validation before it. */
module Sieve {
  import opened Foundations

  const MAX_LIMIT := 10_000_000
  const DEFAULT_LIMIT := 100_000

  // ---------------------------------------------------------------------------------------------
  // Number theory
  // ---------------------------------------------------------------------------------------------

  ghost predicate IsProduct(n: nat, d: nat, k: nat) {
    n == d * k
  }

  ghost predicate Divides(d: nat, n: nat) {
    exists k: nat :: IsProduct(n, d, k)
  }

  ghost predicate IsPrime(n: nat) {
    n >= 2 && forall d :: 2 <= d < n ==> !Divides(d, n)
  }

  /** The primes of [2, limit]. */
  ghost function PrimesUpTo(limit: int): set<nat> {
    set n: nat | 2 <= n <= limit && IsPrime(n)
  }

  lemma DividesTransitive(d: nat, i: nat, n: nat)
    requires Divides(d, i) && Divides(i, n)
    ensures Divides(d, n)
  {
    var a: nat :| IsProduct(i, d, a);
    var b: nat :| IsProduct(n, i, b);
    assert (d * a) * b == d * (a * b);
    assert IsProduct(n, d, a * b);
  }

  lemma ProductMonotone(d: nat, a: nat, b: nat)
    requires a <= b
    ensures d * a <= d * b && a * a <= b * b
  {
  }

  /** No divisor among those whose square does not exceed n and that are below the bound. */
  ghost predicate NoSmallDivisor(n: nat, bound: nat) {
    forall d :: 2 <= d < bound && d * d <= n ==> !Divides(d, n)
  }

  lemma CofactorIsSmall(d: nat, n: nat) returns (c: nat)
    requires 2 <= d < n && Divides(d, n) && n < d * d
    ensures 2 <= c && c * c <= n && Divides(c, n)
  {
    c :| IsProduct(n, d, c);
    if c >= d {
      ProductMonotone(d, d, c);
    } else if c >= 2 {
      ProductMonotone(c, c, d);
      assert IsProduct(n, c, d);
    } else {
      ProductMonotone(d, c, 1);
    }
  }

  /** Testing divisors up to the square root is enough. */
  lemma PrimeIffNoSmallDivisor(n: nat, bound: nat)
    requires n >= 2 && n < bound * bound
    ensures IsPrime(n) <==> NoSmallDivisor(n, bound)
  {
    if !NoSmallDivisor(n, bound) {
      var d :| 2 <= d < bound && d * d <= n && Divides(d, n);
      ProductMonotone(d, 2, d);
    }
    if !IsPrime(n) {
      var c: nat :| 2 <= c < n && Divides(c, n);
      if n < c * c {
        c := CofactorIsSmall(c, n);
      }
      if c >= bound {
        ProductMonotone(1, bound, c);
      }
    }
  }

  /** The integer square root. */
  method Isqrt(n: nat) returns (r: nat)
    ensures r * r <= n < (r + 1) * (r + 1)
  {
    r := 0;
    while (r + 1) * (r + 1) <= n
      invariant r * r <= n
      decreases n - r
    {
      r := r + 1;
    }
  }

  // ---------------------------------------------------------------------------------------------
  // The array
  // ---------------------------------------------------------------------------------------------

  /** The flags after all factors below the bound were used. */
  ghost predicate Sieved(flags: seq<byte>, bound: nat) {
    && |flags| >= 2
    && flags[0] == 0 && flags[1] == 0
    && forall n :: 2 <= n < |flags| ==> flags[n] == if NoSmallDivisor(n, bound) then 1 else 0
  }

  /** One more factor: exactly its multiples from the square on change. */
  lemma NextBound(n: nat, i: nat)
    requires 2 <= i
    ensures NoSmallDivisor(n, i + 1) <==> NoSmallDivisor(n, i) && !(i * i <= n && Divides(i, n))
  {
  }

  /** A factor that was struck out itself has no multiple left to strike out. */
  lemma CompositeFactorIsRedundant(n: nat, i: nat)
    requires 2 <= i && !NoSmallDivisor(i, i) && i * i <= n && Divides(i, n)
    ensures !NoSmallDivisor(n, i)
  {
    var d :| 2 <= d < i && d * d <= i && Divides(d, i);
    DividesTransitive(d, i, n);
    ProductMonotone(i, 1, i);
  }

  method MarkMultiples(flags: array<byte>, i: nat)
    requires 2 <= i
    modifies flags
    ensures forall n :: 0 <= n < flags.Length ==>
      flags[n] == if i * i <= n && Divides(i, n) then 0 else old(flags[n])
  {
    var m, k := i * i, i;
    while m < flags.Length
      invariant m == i * k && k >= i
      invariant forall n :: 0 <= n < flags.Length ==>
        flags[n] == if i * i <= n < m && Divides(i, n) then 0 else old(flags[n])
      decreases flags.Length - m
    {
      flags[m] := 0;
      assert IsProduct(m, i, k);
      forall n | m < n < m + i ensures !Divides(i, n) {
        NothingBetween(i, k, n);
      }
      assert i * (k + 1) == m + i;
      m, k := m + i, k + 1;
    }
  }

  lemma NothingBetween(i: nat, k: nat, n: nat)
    requires i > 0 && i * k < n < i * k + i
    ensures !Divides(i, n)
  {
    if Divides(i, n) {
      var q: nat :| IsProduct(n, i, q);
      if q <= k {
        ProductMonotone(i, q, k);
      } else {
        ProductMonotone(i, k + 1, q);
      }
    }
  }

  /** The flags after a turn of the loop: multiples of i go, and they go only if i itself still stands. */
  ghost predicate Marked(before: seq<byte>, after: seq<byte>, i: nat)
    requires 2 <= i < |before|
  {
    && |after| == |before|
    && forall n :: 0 <= n < |after| ==>
      after[n] == if before[i] != 0 && i * i <= n && Divides(i, n) then 0 else before[n]
  }

  lemma OneMoreFactor(before: seq<byte>, after: seq<byte>, i: nat)
    requires 2 <= i < |before| && Sieved(before, i) && Marked(before, after, i)
    ensures Sieved(after, i + 1)
  {
    forall n | 2 <= n < |after| ensures after[n] == if NoSmallDivisor(n, i + 1) then 1 else 0 {
      NextBound(n, i);
      if before[i] == 0 && i * i <= n && Divides(i, n) {
        CompositeFactorIsRedundant(n, i);
      }
    }
    ProductMonotone(i, 2, i);
  }

  lemma SievedToRoot(flags: seq<byte>, root: nat)
    requires Sieved(flags, root + 1) && |flags| <= (root + 1) * (root + 1)
    ensures SetFlags(flags, |flags|) == PrimesUpTo(|flags| - 1)
  {
    forall n: nat ensures n in SetFlags(flags, |flags|) <==> n in PrimesUpTo(|flags| - 1) {
      if 2 <= n < |flags| {
        PrimeIffNoSmallDivisor(n, root + 1);
      }
    }
  }

  /** The indices of the set flags. */
  ghost function SetFlags(flags: seq<byte>, upTo: nat): set<nat>
    requires upTo <= |flags|
  {
    set n: nat | n < upTo && flags[n] == 1
  }

  method SumFlags(flags: array<byte>) returns (sum: nat)
    requires forall n :: 0 <= n < flags.Length ==> flags[n] == 0 || flags[n] == 1
    ensures sum == |SetFlags(flags[..], flags.Length)|
  {
    sum := 0;
    for k := 0 to flags.Length
      invariant sum == |SetFlags(flags[..], k)|
    {
      var before, after := SetFlags(flags[..], k), SetFlags(flags[..], k + 1);
      if flags[k] == 1 {
        assert after == before + {k};
      } else {
        assert after == before;
      }
      sum := sum + flags[k] as nat;
    }
  }

  method SieveOfEratosthenes(limit: int) returns (count: nat)
    ensures count == |PrimesUpTo(limit)|
  {
    if limit < 2 {
      assert PrimesUpTo(limit) == {};
      return 0;
    }
    var isPrime := new byte[limit + 1](_ => 1);
    isPrime[0] := 0;
    isPrime[1] := 0;
    var root := Isqrt(limit);
    forall n | 2 <= n < isPrime.Length ensures NoSmallDivisor(n, 2) {
    }
    var i: nat := 2;
    while i < root + 1
      invariant 2 <= i <= root + 1
      invariant Sieved(isPrime[..], i)
    {
      ProductMonotone(root, i, root);
      ProductMonotone(i, 2, i);
      ghost var before := isPrime[..];
      if isPrime[i] != 0 {
        MarkMultiples(isPrime, i);
      }
      OneMoreFactor(before, isPrime[..], i);
      i := i + 1;
    }
    count := SumFlags(isPrime);
    SievedToRoot(isPrime[..], root);
  }

  // ---------------------------------------------------------------------------------------------
  // The plugin
  // ---------------------------------------------------------------------------------------------

  /** The "limit" entry of the payload: absent, a value that int() accepts, or one that it rejects. */
  datatype RawLimit = Missing | Number(n: int) | Unparsable

  datatype Refusal = InvalidLimit | LimitTooSmall(limit: int) | LimitTooLarge(limit: int)

  datatype BenchmarkResult =
    | Success(primesFound: nat, limit: int)
    | Failure(reason: Refusal)

  method Execute(raw: RawLimit) returns (result: BenchmarkResult)
    ensures result == Failure(InvalidLimit) <==> raw == Unparsable
    ensures raw == Missing ==> result == Success(|PrimesUpTo(100_000)|, 100_000)
    ensures raw.Number? && raw.n < 2 ==> result == Failure(LimitTooSmall(raw.n))
    ensures raw.Number? && raw.n > 10_000_000 ==> result == Failure(LimitTooLarge(raw.n))
    ensures raw.Number? && 2 <= raw.n <= 10_000_000 ==> result == Success(|PrimesUpTo(raw.n)|, raw.n)
  {
    var limit;
    match raw {
      case Missing => limit := DEFAULT_LIMIT;
      case Number(n) => limit := n;
      case Unparsable => return Failure(InvalidLimit);
    }
    if limit < 2 {
      return Failure(LimitTooSmall(limit));
    }
    if limit > MAX_LIMIT {
      return Failure(LimitTooLarge(limit));
    }
    var primesFound := SieveOfEratosthenes(limit);
    return Success(primesFound, limit);
  }
}
