/** `isPrime` and `getTwoLargestFactors` of the prime-slicer game: trial
    division by 2, 3 and the numbers 6i ± 1, and a downward search for the
    divisor closest to the square root. */
module Primes {
  import opened Common

  /** The mathematical notion: greater than one, with no divisor strictly
      between one and itself. */
  predicate Prime(n: int) {
    n > 1 && forall d :: 1 < d < n ==> n % d != 0
  }

  /** No proper divisor of `num` lies in `[2, i)`. */
  predicate NoDivisorBelow(num: int, i: int) {
    forall d :: 1 < d < i && d < num ==> num % d != 0
  }

  /** `isPrime(num)`: small cases first, then trial division by `i` and
      `i + 2` for `i = 5, 11, 17, ...` while `i * i <= num`. */
  function IsPrime(num: int): (r: bool)
    ensures r <==> Prime(num)
  {
    if num <= 1 then false
    else if num <= 3 then
      true
    else if num % 2 == 0 || num % 3 == 0 then
      assert num % (if num % 2 == 0 then 2 else 3) == 0;
      false
    else
      Scan(num, 5)
  }

  /** The `for` loop of `isPrime`, one iteration per call; its precondition is
      the loop invariant. */
  function Scan(num: int, i: int): (r: bool)
    requires num > 3 && num % 2 != 0 && num % 3 != 0
    requires i >= 5 && i % 6 == 5
    requires NoDivisorBelow(num, i)
    ensures r <==> Prime(num)
    decreases num - i
  {
    if i * i > num then
      NoSmallDivisorMeansPrime(num, i);
      true
    else
      SquareBound(i, num);
      if num % i == 0 || num % (i + 2) == 0 then
        assert num % (if num % i == 0 then i else i + 2) == 0;
        false
      else
        StepSix(num, i);
        Scan(num, i + 6)
  }

  /** While `i * i <= num` (and `i >= 5`), both candidates are proper. */
  lemma SquareBound(i: int, num: int)
    requires i >= 5 && i * i <= num
    ensures i + 6 < num
  {
    assert i * i >= 5 * i;
  }

  /** Of the six numbers `i .. i + 5` (with `i = 6q + 5`), all but `i` and
      `i + 2` are multiples of 2 or 3, which do not divide `num`. */
  lemma StepSix(num: int, i: int)
    requires num > 3 && num % 2 != 0 && num % 3 != 0
    requires i >= 5 && i % 6 == 5 && i + 6 < num
    requires NoDivisorBelow(num, i)
    requires num % i != 0 && num % (i + 2) != 0
    ensures NoDivisorBelow(num, i + 6)
  {
    forall d | 1 < d < i + 6 && d < num
      ensures num % d != 0
    {
      if d >= i && d != i && d != i + 2 {
        var f := SmallPrimeFactor(i, d);
        if num % d == 0 {
          DivisorOfDivisor(f, d, num);
        }
      }
    }
  }

  /** Between `i = 6q + 5` and `i + 5`, every number other than `i` and `i + 2`
      is a multiple of 2 or of 3; returns which. */
  lemma SmallPrimeFactor(i: int, d: int) returns (f: int)
    requires i >= 5 && i % 6 == 5
    requires i < d < i + 6 && d != i + 2
    ensures (f == 2 || f == 3) && d % f == 0
  {
    var q := i / 6;
    assert i == 6 * q + 5;
    if d == i + 4 {
      f := 3;
      assert d == 3 * (2 * q + 3);
      MultipleRem(3, 2 * q + 3);
    } else {
      f := 2;
      var h := (d - i - 1) / 2;
      assert d == 2 * (3 * q + 3 + h);
      MultipleRem(2, 3 * q + 3 + h);
    }
  }

  /** Divisibility is transitive. */
  lemma DivisorOfDivisor(a: int, b: int, n: int)
    requires a > 0 && b > 0
    requires b % a == 0 && n % b == 0
    ensures n % a == 0
  {
    var p := b / a;
    var q := n / b;
    assert b == a * p;
    assert n == b * q;
    assert n == a * (p * q);
    MultipleRem(a, p * q);
  }

  /** Once `i * i > num`, a number with no proper divisor below `i` is prime:
      a proper divisor at or above `i` would have a cofactor below `i`. */
  lemma NoSmallDivisorMeansPrime(num: int, i: int)
    requires num > 1 && i >= 2 && i * i > num
    requires NoDivisorBelow(num, i)
    ensures Prime(num)
  {
    forall d | 1 < d < num
      ensures num % d != 0
    {
      if num % d == 0 && d >= i {
        var c := Cofactor(num, d, i);
      }
    }
  }

  /** The partner of a proper divisor `d >= bound` of `num`, when
      `num < bound * bound`: a proper divisor below `bound`. */
  lemma Cofactor(num: int, d: int, bound: int) returns (c: int)
    requires 1 < d < num && num % d == 0
    requires 1 <= bound <= d && num < bound * bound
    ensures 1 < c < bound && c < num && num % c == 0
  {
    c := num / d;
    assert c * d == num;
    if c <= 1 {
      MulLe(c, 1, d);
    }
    if c >= bound {
      MulLe(bound, c, d);
      MulLe(bound, d, bound);
    }
    MultipleRem(c, d);
  }

  /** The first few answers, as the early returns of `isPrime` give them. */
  lemma IsPrimeSmallCases(num: int)
    ensures num <= 1 ==> !IsPrime(num)
    ensures num == 2 || num == 3 ==> IsPrime(num)
    ensures num > 3 && (num % 2 == 0 || num % 3 == 0) ==> !IsPrime(num)
  {
  }

  /** `Math.floor(Math.sqrt(n))`, exactly. */
  function FloorSqrt(n: nat): (s: nat)
    ensures s * s <= n < (s + 1) * (s + 1)
  {
    if n == 0 then 0
    else
      var s := FloorSqrt(n - 1);
      if (s + 1) * (s + 1) <= n then s + 1 else s
  }

  /** The `for` loop of `getTwoLargestFactors`: tries `i, i - 1, ..., 1` and
      returns `[num / i, i]` for the first `i` that divides `num`. */
  function Descend(num: int, i: int): (r: Option<(int, int)>)
    requires num >= 1 && i >= 0
    ensures r.None? <==> i == 0
    ensures r.Some? ==>
      && 1 <= r.value.1 <= i
      && num % r.value.1 == 0
      && r.value.0 * r.value.1 == num
      && forall d :: r.value.1 < d <= i ==> num % d != 0
    decreases i
  {
    if i < 1 then None
    else if num % i == 0 then Some((num / i, i))
    else Descend(num, i - 1)
  }

  /** `getTwoLargestFactors(num)`: null for primes and numbers up to one;
      otherwise the pair `[a, b]` with `b` the largest divisor of `num` that does
      not exceed its square root and `a = num / b`. */
  function GetTwoLargestFactors(num: int): (r: Option<(int, int)>)
    ensures r.None? <==> num <= 1 || Prime(num)
    ensures r.Some? ==> var (a, b) := r.value;
      && a * b == num
      && 2 <= b <= a
      && b <= FloorSqrt(num)
      && forall d :: b < d <= FloorSqrt(num) ==> num % d != 0
  {
    if IsPrime(num) || num <= 1 then None
    else
      var s := FloorSqrt(num);
      CompositeHasSmallDivisor(num, s);
      var r := Descend(num, s);
      PairOrdered(num, r.value.0, r.value.1, s);
      r
  }

  /** The cofactor of a divisor no larger than the square root is at least as
      large as the divisor. */
  lemma PairOrdered(num: int, a: int, b: int, s: int)
    requires a * b == num && 1 <= b <= s && s * s <= num
    ensures b <= a
  {
    if a < b {
      MulLe(a, b - 1, b);
      MulLe(b, s, b);
      MulLe(b, s, s);
    }
  }

  /** A composite number has a divisor in `[2, ⌊√num⌋]`, so the downward search
      stops at some `b >= 2` (and never reaches the trailing `return null`). */
  lemma CompositeHasSmallDivisor(num: int, s: nat)
    requires num > 1 && !Prime(num)
    requires s * s <= num < (s + 1) * (s + 1)
    ensures Descend(num, s).Some? && Descend(num, s).value.1 >= 2
  {
    var d :| 1 < d < num && num % d == 0;
    var small := d;
    if d > s {
      small := Cofactor(num, d, s + 1);
    }
    assert 2 <= small <= s && num % small == 0;
  }
}
