/**
 The `myfactor` built-in: the number is printed, then its prime factors by
 trial division, smallest first, each as often as it divides the number.
 The printed numbers are modelled as a sequence of integers.
 */
module FactorBuiltin {

  predicate IsPrime(p: int) {
    p >= 2 && forall q :: 2 <= q < p ==> p % q != 0
  }

  function Product(s: seq<int>): int
    decreases |s|
  {
    if s == [] then 1 else Product(s[..|s| - 1]) * s[|s| - 1]
  }

  predicate Sorted(s: seq<int>) {
    forall i, j :: 0 <= i < j < |s| ==> s[i] <= s[j]
  }

  /** The factorisation `myfactor` promises for `n`: non-decreasing primes whose product is `n`. */
  predicate Factorisation(s: seq<int>, n: int) {
    && (forall i :: 0 <= i < |s| ==> IsPrime(s[i]))
    && Sorted(s)
    && Product(s) == n
  }

  /** No divisor of `n` in `[2, d)`: every smaller factor has been divided out. */
  predicate NoFactorBelow(n: int, d: int) {
    forall p :: 2 <= p < d ==> n % p != 0
  }

  /**
   What the loop keeps while it runs on `n0 >= 2`: the factors found so far
   times the rest `n` give `n0`, the factors are primes up to `d` in order,
   and every factor of the rest below `d` has been divided out.
   */
  predicate Progress(n0: int, fs: seq<int>, n: int, d: int) {
    && n >= 1 && Product(fs) * n == n0
    && Sorted(fs)
    && (forall i :: 0 <= i < |fs| ==> IsPrime(fs[i]) && fs[i] <= d)
    && NoFactorBelow(n, d)
  }

  /**
   The loop of `solve_myfactor`. The bound `d <= n - 1` is tested against the
   current, already divided, `n`; a factor left over when the loop ends is
   printed last. For `n0 >= 2` the printed numbers after the first are the
   prime factorisation of `n0`; `1` prints only itself, and a number below 1
   is printed twice, since it is not 1 and the loop never runs.
   */
  method Factor(n0: int) returns (out: seq<int>)
    ensures out != [] && out[0] == n0
    ensures n0 >= 2 ==> Factorisation(out[1..], n0)
    ensures n0 == 1 ==> out == [1]
    ensures n0 <= 0 ==> out == [n0, n0]
  {
    var n := n0;
    out := [n0];
    ghost var fs: seq<int> := [];
    var d := 2;
    if n0 >= 2 {
      StartProgress(n0);
    }
    while d <= n - 1
      invariant 2 <= d
      invariant |out| >= 1 && out[0] == n0 && out[1..] == fs
      invariant n0 < 2 ==> n == n0 && fs == []
      invariant n0 >= 2 ==> Progress(n0, fs, n, d)
      decreases n - d
    {
      if n % d == 0 {
        SmallestFactorIsPrime(n, d);
        while n % d == 0
          invariant |out| >= 1 && out[0] == n0 && out[1..] == fs
          invariant Progress(n0, fs, n, d)
          decreases n
        {
          DivideOut(n0, fs, n, d);
          TailSnoc(out, d);
          out := out + [d];
          fs := fs + [d];
          n := n / d;
        }
      }
      d := d + 1;
    }
    if n != 1 {
      if n0 >= 2 {
        Finish(n0, fs, n, d);
      }
      TailSnoc(out, n);
      out := out + [n];
    } else if n0 >= 2 {
      FinishOne(n0, fs, d);
    }
  }

  // ---------------------------------------------------------------------------
  // Arithmetic the loop relies on

  lemma TailSnoc(s: seq<int>, x: int)
    requires |s| >= 1
    ensures (s + [x])[0] == s[0] && (s + [x])[1..] == s[1..] + [x]
  {
  }

  /** Before the loop nothing is divided out and nothing lies below 2. */
  lemma StartProgress(n0: int)
    requires n0 >= 2
    ensures Progress(n0, [], n0, 2)
  {
  }

  /**
   A rest left over when the loop ends is the last factor: it has no factor
   below itself, so it is prime, and it is at least every factor found.
   */
  lemma Finish(n0: int, fs: seq<int>, n: int, d: int)
    requires Progress(n0, fs, n, d) && d >= 2 && n - 1 < d && n != 1
    ensures Factorisation(fs + [n], n0)
  {
    DivUnique(n, n, 1, 0);
    assert n >= d;
    SmallestFactorIsPrime(n, n);
    ProductSnoc(fs, n);
  }

  /** A rest of 1 leaves the factors found as the whole factorisation. */
  lemma FinishOne(n0: int, fs: seq<int>, d: int)
    requires Progress(n0, fs, 1, d)
    ensures Factorisation(fs, n0)
  {
  }

  lemma ProductSnoc(s: seq<int>, x: int)
    ensures Product(s + [x]) == Product(s) * x
  {
    assert (s + [x])[..|s|] == s;
  }

  /**
   Dividing the rest `n` by its smallest factor `d` keeps the loop's
   progress, with `d` as one more factor, and makes the rest smaller.
   */
  lemma DivideOut(n0: int, fs: seq<int>, n: int, d: int)
    requires 2 <= d && n % d == 0 && IsPrime(d)
    requires Progress(n0, fs, n, d)
    ensures 1 <= n / d < n
    ensures Progress(n0, fs + [d], n / d, d)
  {
    var k := n / d;
    DivUnique(n, d, k, 0);
    QuotientBounds(n, d, k);
    ProductSnoc(fs, d);
    Regroup(Product(fs), d, k);
    forall p | 2 <= p < d
      ensures k % p != 0
    {
      if k % p == 0 {
        MultipleMod(k, d, p);
      }
    }
  }

  lemma Regroup(q: int, d: int, k: int)
    ensures q * d * k == q * (d * k)
  {
  }

  /** An exact quotient by at least 2 of a positive number is positive and smaller. */
  lemma QuotientBounds(n: int, d: int, k: int)
    requires d >= 2 && n >= 1 && n == d * k
    ensures 1 <= k < n
  {
    if k <= 0 {
      MulNonPositive(d, k);
    } else {
      MulMonotone(k, d - 1);
      assert k * (d - 1) == d * k - k;
    }
  }

  /** A product with a positive factor is at least the other factor. */
  lemma {:induction false} MulMonotone(p: int, t: int)
    requires p >= 1 && t >= 1
    ensures p * t >= p
    decreases t
  {
    if t > 1 {
      MulMonotone(p, t - 1);
      assert p * t == p * (t - 1) + p;
    }
  }

  /** A positive number times a non-positive one is not positive. */
  lemma {:induction false} MulNonPositive(p: int, t: int)
    requires p >= 1 && t <= 0
    ensures p * t <= 0
    decreases -t
  {
    if t < 0 {
      MulNonPositive(p, t + 1);
      assert p * t == p * (t + 1) - p;
    }
  }

  /** A positive number times a negative one is at most its negation. */
  lemma MulBelow(p: int, t: int)
    requires p >= 1 && t <= -1
    ensures p * t <= -p
  {
    MulNonPositive(p, t + 1);
    assert p * t == p * (t + 1) - p;
  }

  /** Euclidean division is unique: a quotient and remainder that rebuild `x` are `x / p` and `x % p`. */
  lemma DivUnique(x: int, p: int, q: int, r: int)
    requires p >= 1 && 0 <= r < p && x == p * q + r
    ensures x / p == q && x % p == r
  {
    var t := x / p - q;
    assert x == p * (x / p) + x % p;
    assert p * t == r - x % p;
    if t >= 1 {
      MulMonotone(p, t);
    } else if t <= -1 {
      MulBelow(p, t);
    }
  }

  /** A multiple of a multiple of `p` is a multiple of `p`. */
  lemma MultipleMod(k: int, d: int, p: int)
    requires p >= 1 && k % p == 0
    ensures (d * k) % p == 0
  {
    var j := k / p;
    assert k == p * j + k % p;
    assert d * k == p * (d * j);
    DivUnique(d * k, p, d * j, 0);
  }

  /**
   The least divisor of `n` that is at least 2 is prime: `d` divides `n` and
   nothing in `[2, d)` does.
   */
  lemma SmallestFactorIsPrime(n: int, d: int)
    requires 2 <= d && n >= 1 && n % d == 0
    requires NoFactorBelow(n, d)
    ensures IsPrime(d)
  {
    forall q | 2 <= q < d
      ensures d % q != 0
    {
      if d % q == 0 {
        var k := n / d;
        assert n == k * d;
        MultipleMod(d, k, q);
      }
    }
  }
}
