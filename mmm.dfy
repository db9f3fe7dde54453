/** The multi-server M/M/m queue: Poisson arrivals at rate lambda, m identical
    exponential servers at rate mu each, unbounded waiting room. The idle
    probability P0 comes from the Erlang-C normalisation, which the code
    accumulates in a loop; the other metrics are closed forms over P0. */
module MMM {

  import opened QueueMath
  import MM1

  /** The calculator holds its two rates and its server count m. */
  datatype MMMQueue = MMMQueue(lambda: real, mu: real, m: nat) {

    /** Positive rates, at least one server and arrivals below the total
        service capacity m mu. The code checks none of it; the metrics below
        that depend on P0 are modelled only where it holds. */
    predicate Stable() {
      0.0 < lambda && 0.0 < mu && 1 <= m && lambda < Capacity()
    }

    /** The total service rate m mu of all the servers together. */
    function Capacity(): (c: real)
      ensures 0.0 < mu && 1 <= m ==> 0.0 < c
    {
      m as real * mu
    }

    /** rho = lambda / (m mu) */
    function Utilization(): real
      requires Capacity() != 0.0
    {
      lambda / Capacity()
    }

    /** (lambda/mu)^j / j!, the j-th term of the Erlang-C sum. */
    function ErlangTerm(j: nat): (t: real)
      requires 0.0 <= lambda && 0.0 < mu
      ensures 0.0 <= t
    {
      NonNegativeQuotient(Pow(lambda / mu, j), Factorial(j) as real);
      Pow(lambda / mu, j) / Factorial(j) as real
    }

    /** The first k terms of the Erlang-C sum: the value of the code's
        accumulator `sum` after k rounds. Its j = 0 term is 1, so it is at
        least 1 as soon as it has a term. */
    function ErlangSum(k: nat): (s: real)
      requires 0.0 <= lambda && 0.0 < mu
      ensures 0.0 <= s
      ensures 1 <= k ==> 1.0 <= s
    {
      if k == 0 then 0.0 else ErlangSum(k - 1) + ErlangTerm(k - 1)
    }

    /** The code's `term`: (lambda/mu)^m / (m! (1 - rho)), the weight of all
        the states in which every server is busy. */
    function BusyTerm(): (t: real)
      requires Stable()
      ensures 0.0 < t
    {
      StableUtilization(this);
      PositiveProduct(Factorial(m) as real, 1.0 - Utilization());
      PositiveQuotient(Pow(lambda / mu, m), Factorial(m) as real * (1.0 - Utilization()));
      Pow(lambda / mu, m) / (Factorial(m) as real * (1.0 - Utilization()))
    }

    /** P0 = 1 / (ErlangSum(m) + BusyTerm()). The sum is at least 1 and the
        busy term positive, so P0 is a probability strictly between 0 and 1. */
    function IdleProbability(): (p0: real)
      requires Stable()
      ensures 0.0 < p0 < 1.0
    {
      var n := ErlangSum(m) + BusyTerm();
      PositiveQuotient(1.0, n);
      QuotientBelowOne(1.0, n);
      1.0 / n
    }

    /** `probabilityOfZero`: accumulates the Erlang-C sum over k = 0 .. m-1,
        adds the busy term and inverts. */
    method ProbabilityOfZero() returns (p0: real)
      requires Stable()
      ensures p0 == IdleProbability()
      ensures 0.0 < p0 < 1.0
    {
      var sum := 0.0;
      for k := 0 to m
        invariant sum == ErlangSum(k)
      {
        sum := sum + ErlangTerm(k);
      }
      var term := BusyTerm();
      p0 := 1.0 / (sum + term);
    }

    /** Lq = (lambda/mu)^m rho / (m! (1 - rho)^2) P0 (Erlang C) */
    function AverageNumberInQueue(): (lq: real)
      requires Stable()
      ensures 0.0 < lq
    {
      StableUtilization(this);
      PositiveQuotient(lambda, mu);
      ErlangQueueLength(Pow(lambda / mu, m), Utilization(), Factorial(m) as real, IdleProbability())
    }

    /** L = Lq + lambda / mu */
    function AverageNumberInSystem(): real
      requires Stable()
    {
      NumberInSystem(AverageNumberInQueue(), lambda, mu)
    }

    /** Wq = Lq / lambda */
    function AverageTimeInQueue(): real
      requires Stable()
    {
      TimeInQueue(AverageNumberInQueue(), lambda)
    }

    /** W = Wq + 1 / mu */
    function AverageTimeInSystem(): real
      requires Stable()
    {
      TimeInSystem(AverageTimeInQueue(), mu)
    }
  }

  /** For positive rates and at least one server, the queue is stable exactly
      when the utilisation lies strictly between 0 and 1. */
  lemma StableUtilization(q: MMMQueue)
    requires 0.0 < q.lambda && 0.0 < q.mu && 1 <= q.m
    ensures q.Stable() <==> 0.0 < q.Utilization() < 1.0
  {
    UnitQuotient(q.lambda, q.Capacity());
  }

  /** The Erlang-C queue length x rho / (f (1 - rho)^2) p0, with x the weight
      (lambda/mu)^m, rho the utilisation, f = m! and p0 the idle probability.
      It is well defined and positive for positive x and p0, f >= 1 and
      0 < rho < 1. */
  function ErlangQueueLength(x: real, rho: real, f: real, p0: real): (lq: real)
    requires 0.0 < x && 0.0 < rho < 1.0 && 1.0 <= f && 0.0 < p0
    ensures 0.0 < lq
  {
    assert Pow(1.0 - rho, 1) == 1.0 - rho;
    assert Pow(1.0 - rho, 2) == (1.0 - rho) * (1.0 - rho);
    PositiveProduct(1.0 - rho, 1.0 - rho);
    PositiveProduct(f, Pow(1.0 - rho, 2));
    PositiveProduct(x, rho);
    PositiveQuotient(x * rho, f * Pow(1.0 - rho, 2));
    PositiveProduct(x * rho / (f * Pow(1.0 - rho, 2)), p0);
    x * rho / (f * Pow(1.0 - rho, 2)) * p0
  }

  /** Little's law and the split between queue and service:
      L = lambda W, Lq = lambda Wq, L - Lq = lambda / mu, W - Wq = 1 / mu. */
  lemma LittlesLaw(q: MMMQueue)
    requires q.Stable()
    ensures q.AverageNumberInSystem() == Arrivals(q.lambda, q.AverageTimeInSystem())
    ensures q.AverageNumberInQueue() == Arrivals(q.lambda, q.AverageTimeInQueue())
    ensures q.AverageNumberInSystem() - q.AverageNumberInQueue() == q.lambda / q.mu
    ensures q.AverageTimeInSystem() - q.AverageTimeInQueue() == 1.0 / q.mu
  {
    LawFor(q, q.AverageNumberInQueue(), q.AverageTimeInQueue(),
           q.AverageNumberInSystem(), q.AverageTimeInSystem());
  }

  // Little's law holds whatever the value lq of Lq, since W, Wq and L are
  // all derived from it. The lemma below names the four figures, which
  // keeps the Erlang-C formula behind lq out of the argument.
  lemma LawFor(q: MMMQueue, lq: real, wq: real, l: real, w: real)
    requires q.Stable() && lq == q.AverageNumberInQueue()
    requires wq == q.AverageTimeInQueue()
    requires l == q.AverageNumberInSystem() && w == q.AverageTimeInSystem()
    ensures lq == Arrivals(q.lambda, wq) && l == Arrivals(q.lambda, w)
    ensures l - lq == q.lambda / q.mu && w - wq == 1.0 / q.mu
  {
    FiguresFor(q, lq, wq, l, w);
    QueueWaitLittle(lq, q.lambda);
    LittleFromQueue(lq, wq, l, w, q.lambda, q.mu);
  }

  lemma FiguresFor(q: MMMQueue, lq: real, wq: real, l: real, w: real)
    requires q.Stable() && lq == q.AverageNumberInQueue()
    requires wq == q.AverageTimeInQueue()
    requires l == q.AverageNumberInSystem() && w == q.AverageTimeInSystem()
    ensures wq == TimeInQueue(lq, q.lambda)
    ensures l == NumberInSystem(lq, q.lambda, q.mu) && w == TimeInSystem(wq, q.mu)
  {
  }

  /** With a single server the calculator collapses to M/M/1: the same
      utilisation, the same P0, the same Lq and hence the same L, W and Wq. */
  lemma SingleServerIsMM1(q: MMMQueue)
    requires q.m == 1 && 0.0 < q.lambda < q.mu
    ensures q.Stable()
    ensures var s := MM1.MM1Queue(q.lambda, q.mu);
      && q.Utilization() == s.Utilization()
      && q.IdleProbability() == s.ProbabilityOfZero()
      && q.AverageNumberInQueue() == s.AverageNumberInQueue()
      && q.AverageNumberInSystem() == s.AverageNumberInSystem()
      && q.AverageTimeInQueue() == s.AverageTimeInQueue()
      && q.AverageTimeInSystem() == s.AverageTimeInSystem()
  {
    SingleServerQueueLength(q);
    MM1.ServiceSplit(MM1.MM1Queue(q.lambda, q.mu));
    MM1.LittlesLaw(MM1.MM1Queue(q.lambda, q.mu));
    WaitFromLength(MM1.MM1Queue(q.lambda, q.mu).AverageNumberInQueue(), q.lambda,
      MM1.MM1Queue(q.lambda, q.mu).AverageTimeInQueue());
  }

  /** With one server the utilisation is lambda / mu, as for M/M/1. */
  lemma SingleServerUtilization(q: MMMQueue)
    requires q.m == 1 && 0.0 < q.lambda < q.mu
    ensures q.Stable()
    ensures q.Utilization() == q.lambda / q.mu
  {
    assert q.Capacity() == q.mu;
  }

  /** With one server the Erlang-C sum is 1 and the busy term a / (1 - a),
      with a = lambda / mu, so P0 = 1 / (1 + a / (1 - a)) = 1 - a. */
  lemma SingleServerIdle(q: MMMQueue)
    requires q.m == 1 && 0.0 < q.lambda < q.mu
    ensures q.Stable()
    ensures q.IdleProbability() == 1.0 - q.lambda / q.mu
  {
    SingleServerUtilization(q);
    UnitQuotient(q.lambda, q.mu);
    assert Factorial(0) == 1 && Factorial(1) == 1;
    assert Pow(q.lambda / q.mu, 0) == 1.0 && Pow(q.lambda / q.mu, 1) == q.lambda / q.mu;
    assert q.ErlangSum(1) == 1.0;
    assert q.BusyTerm() == (q.lambda / q.mu) / (1.0 * (1.0 - q.lambda / q.mu));
    OneServerIdle(q.lambda / q.mu);
  }

  /** 1 / (1 + a / (1! (1 - a))) = 1 - a, with the factor 1.0 standing for
      the 1! = 1 of the busy term's divisor m! (1 - rho) for m = 1. */
  lemma OneServerIdle(a: real)
    requires a < 1.0
    ensures 1.0 / (1.0 + a / (1.0 * (1.0 - a))) == 1.0 - a
  {
    assert (a / (1.0 * (1.0 - a))) * (1.0 - a) == a;
    assert (1.0 + a / (1.0 * (1.0 - a))) * (1.0 - a) == 1.0;
    assert (1.0 / (1.0 + a / (1.0 * (1.0 - a)))) * (1.0 + a / (1.0 * (1.0 - a))) == 1.0;
    assert (1.0 / (1.0 + a / (1.0 * (1.0 - a))) - (1.0 - a)) * (1.0 + a / (1.0 * (1.0 - a))) == 0.0;
  }

  /** With one server Lq = lambda^2 / (mu (mu - lambda)), as for M/M/1. */
  lemma SingleServerQueueLength(q: MMMQueue)
    requires q.m == 1 && 0.0 < q.lambda < q.mu
    ensures q.Stable()
    ensures q.Utilization() == q.lambda / q.mu
    ensures q.IdleProbability() == 1.0 - q.lambda / q.mu
    ensures q.AverageNumberInQueue() == (q.lambda * q.lambda) / (q.mu * (q.mu - q.lambda))
  {
    SingleServerIdle(q);
    assert Factorial(1) == 1;
    assert Pow(q.lambda / q.mu, 1) == q.lambda / q.mu;
    OneServerQueue(q.lambda, q.mu);
  }

  /** The Erlang-C queue length with x = rho = a = lambda / mu, f = 1 and
      p0 = 1 - a is lambda^2 / (mu (mu - lambda)). */
  lemma OneServerQueue(lam: real, mu: real)
    requires 0.0 < lam < mu
    ensures 0.0 < lam / mu < 1.0
    ensures ErlangQueueLength(lam / mu, lam / mu, 1.0, 1.0 - lam / mu)
         == (lam * lam) / (mu * (mu - lam))
  {
    UnitQuotient(lam, mu);
    assert Pow(1.0 - lam / mu, 1) == 1.0 - lam / mu;
    assert Pow(1.0 - lam / mu, 2) == (1.0 - lam / mu) * (1.0 - lam / mu);
    OneServerResidue(lam, mu, lam / mu, Pow(1.0 - lam / mu, 2), mu - lam, mu * (mu - lam),
      ErlangQueueLength(lam / mu, lam / mu, 1.0, 1.0 - lam / mu) - (lam * lam) / (mu * (mu - lam)));
  }

  /** The residue x of the single-server queue length vanishes. With
      a = lambda / mu, p = (1 - a)^2, e = mu - lambda and d = mu e: the
      queue length a^2 / p (1 - a), multiplied by d, is a^2 mu^2 = lambda^2. */
  lemma OneServerResidue(lam: real, mu: real, a: real, p: real, e: real, d: real, x: real)
    requires 0.0 < lam < mu && a == lam / mu && e == mu - lam && d == mu * (mu - lam)
    requires 0.0 < p && p == (1.0 - a) * (1.0 - a)
    requires x == (a * a) / (1.0 * p) * (1.0 - a) - (lam * lam) / (mu * (mu - lam))
    ensures x == 0.0
  {
    assert a * mu == lam;
    assert (1.0 - a) * mu == e;
    assert p * (mu * mu) == e * e;
    assert ((a * a) / (1.0 * p)) * p == a * a;
    assert ((a * a) / (1.0 * p)) * (e * e) == lam * lam;
    assert mu * e == d;
    NonZeroProduct(mu, e);
    assert ((a * a) / (1.0 * p)) * (1.0 - a) * d == lam * lam;
    assert ((lam * lam) / (mu * (mu - lam))) * d == lam * lam;
    assert x * d == ((a * a) / (1.0 * p)) * (1.0 - a) * d - ((lam * lam) / (mu * (mu - lam))) * d;
    ZeroFactor(x, d);
  }
}
