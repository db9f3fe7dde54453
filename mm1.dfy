/** The single-server M/M/1 queue: Poisson arrivals at rate lambda, exponential
    service at rate mu, one server, unbounded waiting room. Every metric is a
    closed form over the two stored rates. */
module MM1 {

  import opened QueueMath

  /** The calculator holds only its two rates; the code never reassigns them. */
  datatype MM1Queue = MM1Queue(lambda: real, mu: real) {

    /** The stability condition under which the metrics mean what they say.
        The code does not check it: it evaluates the formulas regardless. */
    predicate Stable() {
      0.0 < lambda < mu
    }

    /** rho = lambda / mu */
    function Utilization(): real
      requires mu != 0.0
    {
      lambda / mu
    }

    /** L = lambda / (mu - lambda) */
    function AverageNumberInSystem(): real
      requires mu != lambda
    {
      lambda / (mu - lambda)
    }

    /** Lq = lambda^2 / (mu (mu - lambda)) */
    function AverageNumberInQueue(): real
      requires mu != 0.0 && mu != lambda
    {
      (lambda * lambda) / (mu * (mu - lambda))
    }

    /** W = 1 / (mu - lambda) */
    function AverageTimeInSystem(): real
      requires mu != lambda
    {
      1.0 / (mu - lambda)
    }

    /** Wq = lambda / (mu (mu - lambda)) */
    function AverageTimeInQueue(): real
      requires mu != 0.0 && mu != lambda
    {
      lambda / (mu * (mu - lambda))
    }

    /** P0 = 1 - rho */
    function ProbabilityOfZero(): real
      requires mu != 0.0
    {
      1.0 - Utilization()
    }
  }

  /** With a positive service rate, the utilisation lies strictly between 0
      and 1 exactly when the queue is stable, and so does P0 = 1 - rho. */
  lemma UtilizationInUnitInterval(q: MM1Queue)
    requires 0.0 < q.mu
    ensures q.Stable() <==> 0.0 < q.Utilization() < 1.0
    ensures q.Stable() <==> 0.0 < q.ProbabilityOfZero() < 1.0
  {
    UnitQuotient(q.lambda, q.mu);
  }

  /** In a stable queue every occupancy and every waiting time is positive. */
  lemma StableMetricsPositive(q: MM1Queue)
    requires q.Stable()
    ensures 0.0 < q.AverageNumberInSystem() && 0.0 < q.AverageNumberInQueue()
    ensures 0.0 < q.AverageTimeInSystem() && 0.0 < q.AverageTimeInQueue()
  {
    var lam, mu := q.lambda, q.mu;
    PositiveQuotient(lam, mu - lam);
    PositiveQuotient(1.0, mu - lam);
    PositiveProduct(mu, mu - lam);
    PositiveProduct(lam, lam);
    PositiveQuotient(lam * lam, mu * (mu - lam));
    PositiveQuotient(lam, mu * (mu - lam));
  }

  /** When arrivals outpace service the code does not fail: it returns
      negative occupancies and negative waiting times. */
  lemma UnstableMetricsNegative(q: MM1Queue)
    requires 0.0 < q.mu < q.lambda
    ensures q.AverageNumberInSystem() < 0.0 && q.AverageNumberInQueue() < 0.0
    ensures q.AverageTimeInSystem() < 0.0 && q.AverageTimeInQueue() < 0.0
  {
    var lam, mu := q.lambda, q.mu;
    NegativeQuotient(lam, mu - lam);
    NegativeQuotient(1.0, mu - lam);
    NegativeProduct(mu, mu - lam);
    PositiveProduct(lam, lam);
    NegativeQuotient(lam * lam, mu * (mu - lam));
    NegativeQuotient(lam, mu * (mu - lam));
  }

  /** Little's law, for the system and for the queue: L = lambda W and
      Lq = lambda Wq. It is pure algebra, so it holds whenever the formulas
      are defined, stable or not. */
  lemma LittlesLaw(q: MM1Queue)
    requires q.mu != 0.0 && q.mu != q.lambda
    ensures q.AverageNumberInSystem() == Arrivals(q.lambda, q.AverageTimeInSystem())
    ensures q.AverageNumberInQueue() == Arrivals(q.lambda, q.AverageTimeInQueue())
  {
    NonZeroProduct(q.mu, q.mu - q.lambda);
    ScaledQuotient(q.lambda, 1.0, q.mu - q.lambda);
    ScaledQuotient(q.lambda, q.lambda, q.mu * (q.mu - q.lambda));
  }

  /** The customers in service make up the difference between system and
      queue (L - Lq = rho), and one mean service time the difference between
      the two waits (W - Wq = 1 / mu). */
  lemma ServiceSplit(q: MM1Queue)
    requires q.mu != 0.0 && q.mu != q.lambda
    ensures q.AverageNumberInSystem() - q.AverageNumberInQueue() == q.Utilization()
    ensures q.AverageTimeInSystem() - q.AverageTimeInQueue() == 1.0 / q.mu
  {
    GapIdentity(q.lambda, q.lambda, q.mu);
    GapIdentity(1.0, q.lambda, q.mu);
  }

  /** A worked example: lambda = 2, mu = 5. */
  lemma Example()
    ensures var q := MM1Queue(2.0, 5.0);
      && q.Utilization() == 0.4 && q.ProbabilityOfZero() == 0.6
      && q.AverageNumberInSystem() == 2.0 / 3.0
      && q.AverageNumberInQueue() == 4.0 / 15.0
      && q.AverageTimeInSystem() == 1.0 / 3.0
      && q.AverageTimeInQueue() == 2.0 / 15.0
  {
  }
}
