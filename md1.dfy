/** The M/D/1 queue: Poisson arrivals at rate lambda, one server whose service
    time is always exactly 1 / mu. The queue metrics are the Pollaczek-Khinchine
    mean-value formula with zero service-time variance. */
module MD1 {

  import opened QueueMath
  import MM1

  /** The calculator holds only its two rates. */
  datatype MD1Queue = MD1Queue(lambda: real, mu: real) {

    /** The stability condition; the code does not check it. */
    predicate Stable() {
      0.0 < lambda < mu
    }

    /** P0 = 1 - lambda / mu */
    function ProbabilityOfZero(): real
      requires mu != 0.0
    {
      var rho := lambda / mu;
      1.0 - rho
    }

    /** L = Lq + lambda / mu */
    function AverageNumberInSystem(): real
      requires mu != 0.0 && mu != lambda
    {
      NumberInSystem(AverageNumberInQueue(), lambda, mu)
    }

    /** W = Wq + 1 / mu */
    function AverageTimeInSystem(): real
      requires mu != 0.0 && mu != lambda
    {
      TimeInSystem(AverageTimeInQueue(), mu)
    }

    /** Wq = lambda / (2 mu (mu - lambda)) */
    function AverageTimeInQueue(): real
      requires mu != 0.0 && mu != lambda
    {
      lambda / Divisor()
    }

    /** Lq = lambda^2 / (2 mu (mu - lambda)) */
    function AverageNumberInQueue(): real
      requires mu != 0.0 && mu != lambda
    {
      Pow(lambda, 2) / Divisor()
    }

    /** The divisor (mu * 2) (mu - lambda) that Wq and Lq share: twice the
        divisor mu (mu - lambda) of the M/M/1 figures, and never 0 where
        the figures are defined. */
    function Divisor(): (d: real)
      requires mu != 0.0 && mu != lambda
      ensures d == 2.0 * (mu * (mu - lambda)) && d != 0.0
    {
      NonZeroProduct(mu, mu - lambda);
      (mu * 2.0) * (mu - lambda)
    }
  }

  /** Deterministic service halves the waiting: Lq and Wq are exactly half
      of the M/M/1 values for the same rates, and P0 is the same. */
  lemma HalfOfMM1(q: MD1Queue)
    requires q.mu != 0.0 && q.mu != q.lambda
    ensures q.AverageNumberInQueue() == MM1.MM1Queue(q.lambda, q.mu).AverageNumberInQueue() / 2.0
    ensures q.AverageTimeInQueue() == MM1.MM1Queue(q.lambda, q.mu).AverageTimeInQueue() / 2.0
    ensures q.ProbabilityOfZero() == MM1.MM1Queue(q.lambda, q.mu).ProbabilityOfZero()
  {
    HalfQueue(q);
    HalvedQuotient(q.lambda, q.Divisor(), q.mu * (q.mu - q.lambda));
  }

  /** The Lq half of the comparison: lambda^2 over twice the M/M/1 divisor. */
  lemma HalfQueue(q: MD1Queue)
    requires q.mu != 0.0 && q.mu != q.lambda
    ensures q.AverageNumberInQueue() == MM1.MM1Queue(q.lambda, q.mu).AverageNumberInQueue() / 2.0
  {
    HalvedQuotient(Pow(q.lambda, 2), q.Divisor(), q.mu * (q.mu - q.lambda));
    SquareQuotient(q.lambda, q.mu * (q.mu - q.lambda));
  }

  /** Little's law for the queue, Lq = lambda Wq, read off the two formulas:
      they share their divisor and the numerators differ by the factor
      lambda. */
  lemma QueueLittlesLaw(q: MD1Queue)
    requires q.mu != 0.0 && q.mu != q.lambda
    ensures q.AverageNumberInQueue() == Arrivals(q.lambda, q.AverageTimeInQueue())
  {
    SquareQuotient(q.lambda, q.Divisor());
    ScaledQuotient(q.lambda, q.lambda, q.Divisor());
  }

  /** Little's law, L = lambda W and Lq = lambda Wq, and the split between
      queue and service, L - Lq = lambda / mu and W - Wq = 1 / mu. */
  lemma LittlesLaw(q: MD1Queue)
    requires q.mu != 0.0 && q.mu != q.lambda
    ensures q.AverageNumberInSystem() == Arrivals(q.lambda, q.AverageTimeInSystem())
    ensures q.AverageNumberInQueue() == Arrivals(q.lambda, q.AverageTimeInQueue())
    ensures q.AverageNumberInSystem() - q.AverageNumberInQueue() == q.lambda / q.mu
    ensures q.AverageTimeInSystem() - q.AverageTimeInQueue() == 1.0 / q.mu
  {
    QueueLittlesLaw(q);
    LittleFromQueue(q.AverageNumberInQueue(), q.AverageTimeInQueue(),
      q.AverageNumberInSystem(), q.AverageTimeInSystem(), q.lambda, q.mu);
  }

  /** In a stable queue P0 is a probability strictly between 0 and 1, the
      queue metrics are positive, and the system holds fewer customers on
      average than the M/M/1 queue with the same rates. */
  lemma StableMetrics(q: MD1Queue)
    requires q.Stable()
    ensures 0.0 < q.ProbabilityOfZero() < 1.0
    ensures 0.0 < q.AverageNumberInQueue() && 0.0 < q.AverageTimeInQueue()
    ensures q.lambda / q.mu < q.AverageNumberInSystem()
    ensures 1.0 / q.mu < q.AverageTimeInSystem()
    ensures q.AverageNumberInSystem() < MM1.MM1Queue(q.lambda, q.mu).AverageNumberInSystem()
  {
    var s := MM1.MM1Queue(q.lambda, q.mu);
    HalfOfMM1(q);
    MM1.UtilizationInUnitInterval(s);
    MM1.StableMetricsPositive(s);
    MM1.ServiceSplit(s);
  }
}
