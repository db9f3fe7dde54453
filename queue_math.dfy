/** Arithmetic shared by the queue calculators: `Math.pow` with a natural
    exponent and the recursive `factorial` that two of the calculators carry. */
module QueueMath {

  /** `Math.pow(x, k)` for a natural exponent k, over exact reals
      (`Math.pow(x, 0)` is 1 for every x, 0 included). */
  function Pow(x: real, k: nat): (r: real)
    ensures 0.0 <= x ==> 0.0 <= r
    ensures 0.0 < x ==> 0.0 < r
  {
    if k == 0 then 1.0 else x * Pow(x, k - 1)
  }

  /** `factorial(n)`: 1 for every n <= 1 (negative n included, the code does not
      reject it), n * factorial(n - 1) above. */
  function Factorial(n: int): (r: int)
    ensures 1 <= r
    ensures 1 <= n ==> n <= r
    decreases n
  {
    if n <= 1 then 1 else n * Factorial(n - 1)
  }

  /** n! as a real, the value the calculators multiply and divide by. */
  function RealFactorial(n: int): (r: real)
    ensures 1.0 <= r
  {
    Factorial(n) as real
  }

  /** The recurrence k! = k * (k-1)! holds from k = 1 on, since 0! = 1! = 1. */
  lemma FactorialStep(k: int)
    requires 1 <= k
    ensures Factorial(k) == k * Factorial(k - 1)
  {
    if k == 1 {
      assert Factorial(0) == 1;
    }
  }

  /** Sample values of `factorial`; -1 yields 1 rather than an error. */
  lemma FactorialValues()
    ensures Factorial(-1) == 1 && Factorial(0) == 1 && Factorial(1) == 1
    ensures Factorial(5) == 120
  {
    assert Factorial(2) == 2;
    assert Factorial(3) == 6;
    assert Factorial(4) == 24;
  }

  // Sign facts about products and quotients of reals. Each is stated with
  // requires rather than as an implication: the solver chains them reliably
  // only in that form.

  /** A product with a positive factor has the sign of the other factor. */
  lemma MulSign(x: real, b: real)
    requires 0.0 < b
    ensures x < 0.0 <==> x * b < 0.0
    ensures 0.0 < x <==> 0.0 < x * b
  {
  }

  lemma PositiveProduct(x: real, y: real)
    requires 0.0 < x && 0.0 < y
    ensures 0.0 < x * y
  {
    MulSign(x, y);
  }

  lemma NonNegativeProduct(x: real, y: real)
    requires 0.0 <= x && 0.0 <= y
    ensures 0.0 <= x * y
  {
    if x != 0.0 && y != 0.0 {
      PositiveProduct(x, y);
    }
  }

  lemma NegativeProduct(x: real, y: real)
    requires 0.0 < x && y < 0.0
    ensures x * y < 0.0
  {
    MulSign(y, x);
  }

  lemma NonZeroProduct(x: real, y: real)
    requires x != 0.0 && y != 0.0
    ensures x * y != 0.0
  {
  }

  lemma PositiveQuotient(a: real, b: real)
    requires 0.0 < a && 0.0 < b
    ensures 0.0 < a / b
  {
    assert (a / b) * b == a;
    MulSign(a / b, b);
  }

  lemma NonNegativeQuotient(a: real, b: real)
    requires 0.0 <= a && 0.0 < b
    ensures 0.0 <= a / b
  {
    if a != 0.0 {
      PositiveQuotient(a, b);
    }
  }

  lemma NegativeQuotient(a: real, b: real)
    requires 0.0 < a && b < 0.0
    ensures a / b < 0.0
  {
    assert (a / b) * (-b) == -a;
    MulSign(a / b, -b);
  }

  /** A quotient of a positive number by a larger one lies below 1. */
  lemma QuotientBelowOne(a: real, b: real)
    requires 0.0 < b && a < b
    ensures a / b < 1.0
  {
    assert (a / b - 1.0) * b == a - b;
    MulSign(a / b - 1.0, b);
  }

  /** For a positive divisor b, a / b lies strictly between 0 and 1 exactly
      when a lies strictly between 0 and b. */
  lemma UnitQuotient(a: real, b: real)
    requires 0.0 < b
    ensures 0.0 < a < b <==> 0.0 < a / b < 1.0
  {
    assert (a / b) * b == a;
    assert (a / b - 1.0) * b == a - b;
    MulSign(a / b, b);
    MulSign(a / b - 1.0, b);
  }

  // The figures that the calculators derive from the queue length Lq or
  // the queue wait Wq in the same way.

  /** L = Lq + lambda / mu: the queue plus the customers in service. */
  function NumberInSystem(lq: real, lambda: real, mu: real): real
    requires mu != 0.0
  {
    lq + lambda / mu
  }

  /** Wq = Lq / lambda */
  function TimeInQueue(lq: real, lambda: real): real
    requires lambda != 0.0
  {
    lq / lambda
  }

  /** W = Wq + 1 / mu: the wait plus one mean service time. */
  function TimeInSystem(wq: real, mu: real): real
    requires mu != 0.0
  {
    wq + 1.0 / mu
  }

  /** The mean number of customers that arrive at rate lambda during a time
      w. Little's law says that a queue holds as many customers on average
      as arrive during one average stay. */
  function Arrivals(lambda: real, w: real): real
  {
    lambda * w
  }

  /** Little's law for the queue when Wq is derived from Lq as above. */
  lemma QueueWaitLittle(lq: real, lambda: real)
    requires lambda != 0.0
    ensures lq == Arrivals(lambda, TimeInQueue(lq, lambda))
  {
    assert lambda * (lq / lambda) == lq;
  }

  /** Conversely, the wait derived from a queue length lambda wq is wq. */
  lemma WaitFromLength(lq: real, lambda: real, wq: real)
    requires lambda != 0.0 && lq == Arrivals(lambda, wq)
    ensures TimeInQueue(lq, lambda) == wq
  {
  }

  /** Little's law carries over from the queue to the whole system when L
      and W are derived from Lq and Wq as above: from Lq = lambda Wq follows
      L = lambda W, and the system exceeds the queue by lambda / mu
      customers and 1 / mu time units. */
  lemma LittleFromQueue(lq: real, wq: real, l: real, w: real, lambda: real, mu: real)
    requires mu != 0.0 && lq == Arrivals(lambda, wq)
    requires l == NumberInSystem(lq, lambda, mu) && w == TimeInSystem(wq, mu)
    ensures l == Arrivals(lambda, w)
    ensures l - lq == lambda / mu && w - wq == 1.0 / mu
  {
    assert lambda * (1.0 / mu) == lambda / mu;
  }

  /** `Math.pow(x, 2)` over a divisor is the square over that divisor. */
  lemma SquareQuotient(x: real, d: real)
    requires d != 0.0
    ensures Pow(x, 2) / d == (x * x) / d
  {
    assert Pow(x, 2) == x * x by {
      assert Pow(x, 1) == x;
    }
  }

  /** The gap between a quotient by mu - lam and one by mu:
      n / (mu - lam) - n / mu = n lam / (mu (mu - lam)). */
  lemma GapIdentity(n: real, lam: real, mu: real)
    requires mu != 0.0 && mu != lam
    ensures mu * (mu - lam) != 0.0
    ensures n / (mu - lam) - n / mu == (n * lam) / (mu * (mu - lam))
  {
    GapResidue(n, lam, mu, mu - lam, mu * (mu - lam),
      n / (mu - lam) - n / mu - (n * lam) / (mu * (mu - lam)));
  }

  /** The residue x of the gap identity vanishes: multiplied by the divisor
      d = mu e, with e = mu - lam, it is n mu - n e - n lam = 0, and d is
      not zero. */
  lemma GapResidue(n: real, lam: real, mu: real, e: real, d: real, x: real)
    requires mu != 0.0 && e != 0.0 && e == mu - lam && d == mu * (mu - lam)
    requires x == n / (mu - lam) - n / mu - (n * lam) / (mu * (mu - lam))
    ensures d != 0.0 && x == 0.0
  {
    assert mu * e == d;
    NonZeroProduct(mu, e);
    assert (n / (mu - lam)) * d == n * mu;
    assert (n / mu) * d == n * (mu - lam);
    assert ((n * lam) / (mu * (mu - lam))) * d == n * lam;
    assert x * d == (n / (mu - lam)) * d - (n / mu) * d - ((n * lam) / (mu * (mu - lam))) * d;
    ZeroFactor(x, d);
  }

  /** A product with a non-zero factor is zero only if the other factor is. */
  lemma ZeroFactor(x: real, d: real)
    requires d != 0.0 && x * d == 0.0
    ensures x == 0.0
  {
  }

  /** Doubling the divisor halves the quotient. */
  lemma HalvedQuotient(a: real, d2: real, d: real)
    requires d != 0.0 && d2 == 2.0 * d
    ensures a / d2 == (a / d) / 2.0
  {
  }

  /** A factor of the numerator can be taken out of a quotient. */
  lemma ScaledQuotient(a: real, b: real, d: real)
    requires d != 0.0
    ensures (a * b) / d == Arrivals(a, b / d)
  {
  }

  // Identities over the reals behind the finite-source lemmas.

  lemma QuotientAtMostOne(a: real, b: real)
    requires 0.0 < b && a <= b
    ensures a / b <= 1.0
  {
    assert (a / b - 1.0) * b == a - b;
    MulSign(a / b - 1.0, b);
  }

  lemma SelfQuotient(x: real)
    requires x != 0.0
    ensures x / x == 1.0
  {
  }

  /** k! = k (k-1)! for k >= 1, over the reals. */
  lemma RealFactorialStep(k: int)
    requires 1 <= k
    ensures RealFactorial(k) == k as real * RealFactorial(k - 1)
  {
    FactorialStep(k);
    CastProduct(k, Factorial(k - 1), Factorial(k));
  }

  lemma CastProduct(a: int, b: int, c: int)
    requires c == a * b
    ensures c as real == a as real * b as real
  {
  }
}
