/** The finite-source M/M/1 queue, the machine-repair model: N sources, each
    of which, while it is not in the system, generates arrivals at rate
    lambda; one server working at rate mu. State n (n customers in the
    system) has the weight rho^n N! / (N - n)! with rho = lambda / mu, and
    its probability is that weight over the sum of the weights of the states
    0 .. N. The code recomputes that sum in a loop for every state and sums
    n Pn in another loop. */
module FiniteSource {

  import opened QueueMath
  import opened Sums

  /** The calculator holds its two rates and the population size N. */
  datatype MM1FiniteSourceQueue = MM1FiniteSourceQueue(lambda: real, mu: real, N: nat) {

    /** A non-negative arrival rate and a positive service rate. The code
        checks neither; under them every weight is non-negative and the
        normalising sum is at least 1, so nothing divides by zero. */
    predicate Valid() {
      0.0 <= lambda && 0.0 < mu
    }

    /** rho = lambda / mu, the code's local `rho` */
    function Rho(): (rho: real)
      requires Valid()
      ensures 0.0 <= rho
    {
      Load(lambda, mu)
    }

    /** The weight of state n, the code's `numerator` and the term its loop
        adds for k = n: rho^n N! / (N - n)!. For n > N the code's factorial
        of the negative N - n is 1. */
    function Weight(n: nat): (w: real)
      requires Valid()
      ensures 0.0 <= w
    {
      StateWeight(Rho(), N, n)
    }

    /** The weights of the states 0 .. N, the terms of the code's
        `denominator`. */
    function Weights(): (ws: seq<real>)
      requires Valid()
      ensures |ws| == N + 1 && NonNegative(ws)
    {
      StateWeights(Rho(), N)
    }

    /** The code's `denominator`: the sum of the weights of the states
        0 .. N. The weight of state 0 is 1, so it is at least 1. */
    function Normaliser(): (z: real)
      requires Valid()
      ensures 1.0 <= z
    {
      WeightZero(this);
      TermWithinTotal(Weights(), 0, N + 1);
      Total(Weights(), N + 1)
    }

    /** Pn: the weight of state n over the weights of all the states 0 .. N. */
    function StateProbability(n: nat): (p: real)
      requires Valid()
      ensures 0.0 <= p
    {
      NonNegativeQuotient(Weight(n), Normaliser());
      Weight(n) / Normaliser()
    }

    /** `probabilityOfN`: the weight of state n over the sum of the weights,
        which the code accumulates in a loop over k = 0 .. N. For a state of
        the population it is a probability. */
    method ProbabilityOfN(n: nat) returns (p: real)
      requires Valid()
      ensures p == StateProbability(n)
      ensures n <= N ==> 0.0 <= p <= 1.0
    {
      var numerator := Weight(n);
      var denominator := 0.0;
      for k := 0 to N + 1
        invariant denominator == Total(Weights(), k)
      {
        denominator := denominator + Weight(k);
      }
      assert denominator == Normaliser();
      if n <= N {
        ProbabilityBounds(this, n);
      }
      p := numerator / denominator;
    }

    /** `probabilityOfZero`: probabilityOfN(0), never 0. */
    method ProbabilityOfZero() returns (p0: real)
      requires Valid()
      ensures p0 == StateProbability(0)
      ensures 0.0 < p0 <= 1.0
    {
      p0 := ProbabilityOfN(0);
      ProbabilityBounds(this, 0);
    }

    /** P0 .. PN */
    function Probabilities(): (ps: seq<real>)
      requires Valid()
      ensures |ps| == N + 1 && NonNegative(ps)
    {
      seq(N + 1, n requires 0 <= n => StateProbability(n))
    }

    /** L = sum of n Pn over n = 0 .. N, the value `averageNumberInSystem`
        computes. */
    function MeanNumber(): real
      requires Valid()
    {
      Moment(Probabilities(), N + 1)
    }

    /** `averageNumberInSystem`: accumulates n Pn over n = 0 .. N, asking
        probabilityOfN for each state. The result is at least the
        probability 1 - P0 that the server is busy and at most N times it. */
    method AverageNumberInSystem() returns (l: real)
      requires Valid()
      ensures l == MeanNumber()
      ensures 1.0 - StateProbability(0) <= l <= N as real * (1.0 - StateProbability(0))
    {
      l := 0.0;
      for n := 0 to N + 1
        invariant l == Moment(Probabilities(), n)
      {
        var p := ProbabilityOfN(n);
        l := l + n as real * p;
      }
      OccupancyBounds(this);
    }

    /** lambda_e = lambda (N - L) / N, as `effectiveArrivalRate` computes it. */
    function EffectiveArrivalRate(): real
      requires Valid() && 1 <= N
    {
      Throughput() / N as real
    }

    /** Lq = L - (1 - P0): the customers present less the one in service. */
    function AverageNumberInQueue(): real
      requires Valid()
    {
      MeanNumber() - (1.0 - StateProbability(0))
    }

    /** Wq = Lq / (N - L) * lambda, evaluated left to right as written:
        the quotient is multiplied by lambda, not divided by it. N - L is
        positive for N >= 1. */
    function AverageTimeInQueue(): real
      requires Valid() && 1 <= N
    {
      PopulationBounds(this);
      QueueWaitAsWritten(AverageNumberInQueue(), N as real, MeanNumber(), lambda)
    }

    /** W = Wq + 1 / mu */
    function AverageTimeInSystem(): real
      requires Valid() && 1 <= N
    {
      TimeInSystem(AverageTimeInQueue(), mu)
    }

    /** The rate at which customers join the system: on average N - L
        sources are outside it, each arriving at rate lambda. It is N times
        the code's per-source lambda_e. */
    function Throughput(): real
      requires Valid()
    {
      JoinRate(lambda, N as real, MeanNumber())
    }

    /** The rate at which the server completes customers: mu while it is
        busy, which it is with probability 1 - P0. */
    function ServiceRate(): real
      requires Valid()
    {
      CompletionRate(mu, StateProbability(0))
    }

    /** The queue wait Little's law gives, Wq = Lq / ((N - L) lambda): the
        queue length over the rate at which customers join. */
    function IntendedTimeInQueue(): real
      requires Valid() && 0.0 < lambda && 1 <= N
    {
      ThroughputPositive(this);
      TimeInQueue(AverageNumberInQueue(), Throughput())
    }

    /** W = Wq + 1 / mu with the queue wait above. */
    function IntendedTimeInSystem(): real
      requires Valid() && 0.0 < lambda && 1 <= N
    {
      TimeInSystem(IntendedTimeInQueue(), mu)
    }
  }

  /** lambda / mu, the offered load rho */
  function Load(lambda: real, mu: real): (rho: real)
    requires 0.0 <= lambda && 0.0 < mu
    ensures 0.0 <= rho
  {
    NonNegativeQuotient(lambda, mu);
    lambda / mu
  }

  /** lambda (n - l): the rate at which the n - l sources outside the
      system send customers, each at rate lambda. */
  function JoinRate(lambda: real, n: real, l: real): real
  {
    lambda * (n - l)
  }

  /** mu (1 - p0): the rate at which a server that is busy with
      probability 1 - p0 completes customers at rate mu. */
  function CompletionRate(mu: real, p0: real): real
  {
    mu * (1.0 - p0)
  }

  /** lq / (n - l) * lambda, evaluated left to right as the code evaluates
      `averageNumberInQueue / (N - averageNumberInSystem) * lambda`. */
  function QueueWaitAsWritten(lq: real, n: real, l: real, lambda: real): real
    requires l < n
  {
    lq / (n - l) * lambda
  }

  /** x f / g, evaluated left to right as the code evaluates
      `Math.pow(rho, n) * factorial(N) / factorial(N - n)`. */
  function WeightTerm(x: real, f: real, g: real): (w: real)
    requires 0.0 <= x && 0.0 <= f && 0.0 < g
    ensures 0.0 <= w
  {
    NonNegativeProduct(x, f);
    NonNegativeQuotient(x * f, g);
    x * f / g
  }

  /** The weight rho^n N! / (N - n)! of state n of a population of N with
      load r = rho. */
  function StateWeight(r: real, N: nat, n: nat): (w: real)
    requires 0.0 <= r
    ensures 0.0 <= w
  {
    WeightTerm(Pow(r, n), RealFactorial(N), RealFactorial(N - n))
  }

  /** The weights of the states 0 .. N. */
  function StateWeights(r: real, N: nat): (ws: seq<real>)
    requires 0.0 <= r
    ensures |ws| == N + 1 && NonNegative(ws)
  {
    seq(N + 1, n requires 0 <= n => StateWeight(r, N, n))
  }

  /** Consecutive weights are in the ratio r (N - n), since r^(n+1) =
      r^n r and (N - n)! = (N - n) (N - n - 1)!. */
  lemma StateWeightsInRatio(r: real, N: nat, n: nat)
    requires 0.0 <= r && n < N
    ensures InRatio(StateWeights(r, N), r, N, n)
  {
    WeightTermStep(r, n, n + 1, N - n, N - (n + 1), RealFactorial(N), StateWeight(r, N, n), StateWeight(r, N, n + 1),
      Pow(r, n), Pow(r, n + 1), RealFactorial(N - n), RealFactorial(N - (n + 1)), (N - n) as real);
  }

  /** The same over the reals, for w = r^k f / m! and w2 = r^(k+1) f / (m-1)!
      given by their parts. */
  lemma WeightTermStep(r: real, k: nat, k1: nat, m: int, j: int, f: real, w: real, w2: real,
                       p: real, p1: real, g: real, g1: real, c: real)
    requires 0.0 <= r && 1 <= m && 0.0 <= f && k1 == k + 1 && j == m - 1
    requires p == Pow(r, k) && p1 == Pow(r, k1) && g == RealFactorial(m) && g1 == RealFactorial(j)
    requires c == m as real
    requires w == WeightTerm(p, f, g) && w2 == WeightTerm(p1, f, g1)
    ensures Ratio(w, w2, r, c)
  {
    PowScales(r, k, k1);
    FactorialScales(m, j);
    WeightRatio(w, w2, p, p1, r, f, g, g1, c);
  }

  /** y = c x */
  predicate Scales(x: real, y: real, c: real)
  {
    y == c * x
  }

  lemma PowScales(r: real, k: nat, k1: nat)
    requires k1 == k + 1
    ensures Scales(Pow(r, k), Pow(r, k1), r)
  {
  }

  lemma FactorialScales(m: int, j: int)
    requires 1 <= m && j == m - 1
    ensures Scales(RealFactorial(j), RealFactorial(m), m as real)
  {
    RealFactorialStep(m);
    assert Scales(RealFactorial(m - 1), RealFactorial(m), m as real);
  }

  /** The weight ratio over the reals: for w = a f / g and w2 = a2 f / g2
      with a2 = r a and g = c g2, w2 = w r c. */
  lemma WeightRatio(w: real, w2: real, a: real, a2: real, r: real, f: real, g: real, g2: real, c: real)
    requires 0.0 <= a && 0.0 <= a2 && 0.0 <= f && 0.0 < g && 0.0 < g2
    requires c != 0.0 && Scales(a, a2, r) && Scales(g2, g, c)
    requires w == WeightTerm(a, f, g) && w2 == WeightTerm(a2, f, g2)
    ensures Ratio(w, w2, r, c)
  {
    assert a * f / g * r * c == (a * f * r) * (c / g);
    assert c / g == 1.0 / g2;
  }

  /** State 0 has weight rho^0 N! / N! = 1. */
  lemma WeightZero(q: MM1FiniteSourceQueue)
    requires q.Valid()
    ensures q.Weight(0) == 1.0
  {
    UnitWeight(Pow(q.Rho(), 0), RealFactorial(q.N), RealFactorial(q.N - 0));
  }

  lemma UnitWeight(x: real, f: real, g: real)
    requires x == 1.0 && f == g && 0.0 < g
    ensures WeightTerm(x, f, g) == 1.0
  {
  }

  /** Each Pn of a state of the population lies in [0, 1], and P0 is
      positive. */
  lemma ProbabilityBounds(q: MM1FiniteSourceQueue, n: nat)
    requires q.Valid() && n <= q.N
    ensures 0.0 <= q.StateProbability(n) <= 1.0
    ensures 0.0 < q.StateProbability(0)
  {
    TermWithinTotal(q.Weights(), n, q.N + 1);
    QuotientAtMostOne(q.Weight(n), q.Normaliser());
    WeightZero(q);
    PositiveQuotient(q.Weight(0), q.Normaliser());
  }

  /** The probabilities of the states 0 .. N sum to 1. */
  lemma ProbabilitiesSumToOne(q: MM1FiniteSourceQueue)
    requires q.Valid()
    ensures Total(q.Probabilities(), q.N + 1) == 1.0
  {
    TotalOfShares(q.Weights(), q.Probabilities(), q.Normaliser(), q.N + 1);
    SelfQuotient(q.Normaliser());
  }

  /** The occupancy bounds 1 - P0 <= L <= N (1 - P0): every customer counts
      at least once when the server is busy and at most N times. */
  lemma OccupancyBounds(q: MM1FiniteSourceQueue)
    requires q.Valid()
    ensures 1.0 - q.StateProbability(0) <= q.MeanNumber()
    ensures q.MeanNumber() <= q.N as real * (1.0 - q.StateProbability(0))
  {
    ProbabilitiesSumToOne(q);
    ProbabilityBounds(q, 0);
    MeanBounds(q.Probabilities(), q.N, q.StateProbability(0));
  }

  /** Hence L lies in [0, N], the queue length Lq = L - (1 - P0) is
      non-negative, and N - L is positive once there is a source. */
  lemma PopulationBounds(q: MM1FiniteSourceQueue)
    requires q.Valid()
    ensures 0.0 <= q.MeanNumber() <= q.N as real
    ensures 0.0 <= q.AverageNumberInQueue()
    ensures 1 <= q.N ==> q.MeanNumber() < q.N as real
  {
    ProbabilitiesSumToOne(q);
    ProbabilityBounds(q, 0);
    MeanBounds(q.Probabilities(), q.N, q.StateProbability(0));
  }

  /** Consecutive weights: w(n+1) = w(n) rho (N - n) for n < N. */
  lemma WeightStep(q: MM1FiniteSourceQueue, n: nat)
    requires q.Valid() && n < q.N
    ensures InRatio(q.Weights(), q.Rho(), q.N, n)
  {
    StateWeightsInRatio(q.Rho(), q.N, n);
  }

  /** The recurrence P(n+1) = P(n) rho (N - n) for n < N: the balance of
      the flow lambda (N - n) Pn from state n up with the flow mu P(n+1)
      from state n + 1 down. */
  lemma ProbabilityStep(q: MM1FiniteSourceQueue, n: nat)
    requires q.Valid() && n < q.N
    ensures InRatio(q.Probabilities(), q.Rho(), q.N, n)
  {
    WeightStep(q, n);
    SharesInRatio(q.Weights(), q.Probabilities(), q.Normaliser(), q.Rho(), q.N, n);
  }

  /** Customers join at the rate mu (1 - P0) at which the server completes
      them: summed over the states, the balance of each pair of
      neighbouring states gives rho (N - L) = 1 - P0. */
  lemma ServiceBalance(q: MM1FiniteSourceQueue)
    requires q.Valid()
    ensures q.Throughput() == q.ServiceRate()
  {
    var ps := q.Probabilities();
    forall i | 0 <= i < q.N
      ensures InRatio(ps, q.Rho(), q.N, i)
    {
      ProbabilityStep(q, i);
    }
    ProbabilitiesSumToOne(q);
    BalanceSum(ps, q.Rho(), q.N, q.N as real, 1.0, q.MeanNumber());
    RatesFromFlow(q.lambda, q.mu, q.N as real, q.MeanNumber(), q.StateProbability(0));
  }

  /** The balance over the reals: rho (n - l) = 1 - p0 with rho = lambda / mu
      gives lambda (n - l) = mu (1 - p0). */
  lemma RatesFromFlow(lam: real, mu: real, n: real, l: real, p0: real)
    requires 0.0 <= lam && 0.0 < mu && UpwardFlow(Load(lam, mu), n, 1.0, l) == 1.0 - p0
    ensures JoinRate(lam, n, l) == CompletionRate(mu, p0)
  {
    assert lam == mu * Load(lam, mu);
  }

  /** The code's lambda_e = lambda (N - L) / N, the rate at which one
      source sends customers on average, lies in [0, lambda], and N times
      it is the throughput. */
  lemma EffectiveRateBounds(q: MM1FiniteSourceQueue)
    requires q.Valid() && 1 <= q.N
    ensures 0.0 <= q.EffectiveArrivalRate() <= q.lambda
    ensures q.N as real * q.EffectiveArrivalRate() == q.Throughput()
  {
    PopulationBounds(q);
    RateWithin(q.lambda, q.N as real, q.MeanNumber());
  }

  /** lambda_e is at least lambda P0: a source is outside the system at
      least while the system is empty. */
  lemma EffectiveRateAboveIdle(q: MM1FiniteSourceQueue)
    requires q.Valid() && 1 <= q.N
    ensures q.lambda * q.StateProbability(0) <= q.EffectiveArrivalRate()
  {
    OccupancyBounds(q);
    RateAbove(q.lambda, q.N as real, q.MeanNumber(), q.StateProbability(0));
  }

  /** lambda (n - l) / n >= lambda p0 when l <= n (1 - p0). */
  lemma RateAbove(lam: real, n: real, l: real, p0: real)
    requires 0.0 <= lam && 1.0 <= n && l <= n * (1.0 - p0)
    ensures lam * p0 <= JoinRate(lam, n, l) / n
  {
    var e := JoinRate(lam, n, l) / n;
    assert e * n == lam * (n - l);
    assert n * p0 <= n - l;
    assert (e - lam * p0) * n == lam * (n - l - n * p0);
    NonNegativeProduct(lam, n - l - n * p0);
    MulSign(e - lam * p0, n);
  }

  /** lambda (n - l) / n lies in [0, lambda] for l in [0, n]. */
  lemma RateWithin(lam: real, n: real, l: real)
    requires 0.0 <= lam && 1.0 <= n && 0.0 <= l <= n
    ensures 0.0 <= JoinRate(lam, n, l) / n <= lam
    ensures n * (JoinRate(lam, n, l) / n) == JoinRate(lam, n, l)
  {
    var t := JoinRate(lam, n, l);
    var e := t / n;
    NonNegativeProduct(lam, n - l);
    NonNegativeQuotient(t, n);
    NonNegativeProduct(lam, l);
    assert t == lam * n - lam * l;
    assert (lam - e) * n == lam * n - t;
    MulSign(lam - e, n);
    assert n * e == t;
  }

  /** With a positive arrival rate and N >= 1 customers join at a positive
      rate, since fewer than N of them are in the system on average. */
  lemma ThroughputPositive(q: MM1FiniteSourceQueue)
    requires q.Valid() && 0.0 < q.lambda && 1 <= q.N
    ensures 0.0 < q.Throughput()
  {
    PopulationBounds(q);
    JoinPositive(q.lambda, q.N as real, q.MeanNumber());
  }

  lemma JoinPositive(lam: real, n: real, l: real)
    requires 0.0 < lam && l < n
    ensures 0.0 < JoinRate(lam, n, l)
  {
    PositiveProduct(lam, n - l);
  }

  /** Little's law holds for the queue wait Lq / ((N - L) lambda): Lq is
      the throughput times that wait. With the server busy a fraction
      1 - P0 = throughput / mu of the time, it holds for the system too:
      L = Lq + throughput / mu, and W is that wait plus 1 / mu. */
  lemma IntendedLittlesLaw(q: MM1FiniteSourceQueue)
    requires q.Valid() && 0.0 < q.lambda && 1 <= q.N
    ensures q.AverageNumberInQueue() == Arrivals(q.Throughput(), q.IntendedTimeInQueue())
    ensures q.MeanNumber() == Arrivals(q.Throughput(), q.IntendedTimeInSystem())
  {
    ThroughputPositive(q);
    QueueWaitLittle(q.AverageNumberInQueue(), q.Throughput());
    ServiceBalance(q);
    BusyFraction(q.Throughput(), q.mu, q.StateProbability(0));
    assert q.MeanNumber() == NumberInSystem(q.AverageNumberInQueue(), q.Throughput(), q.mu);
    LittleFromQueue(q.AverageNumberInQueue(), q.IntendedTimeInQueue(), q.MeanNumber(),
      q.IntendedTimeInSystem(), q.Throughput(), q.mu);
  }

  /** A server completing customers at rate t = mu (1 - p0) is busy the
      fraction t / mu = 1 - p0 of the time. */
  lemma BusyFraction(t: real, mu: real, p0: real)
    requires 0.0 < mu && t == CompletionRate(mu, p0)
    ensures t / mu == 1.0 - p0
  {
    assert (t / mu) * mu == t;
    assert (t / mu - (1.0 - p0)) * mu == 0.0;
    ZeroFactor(t / mu - (1.0 - p0), mu);
  }

  /** The code's queue wait multiplies by lambda where Little's law divides
      by it: the throughput times that wait is lambda^2 Lq, not Lq. So the
      code's Wq satisfies Little's law only when lambda = 1 or the queue is
      empty. */
  lemma AsWrittenWaitBreaksLittle(q: MM1FiniteSourceQueue)
    requires q.Valid() && 1 <= q.N
    ensures Arrivals(q.Throughput(), q.AverageTimeInQueue()) == Arrivals(q.lambda * q.lambda, q.AverageNumberInQueue())
    ensures q.lambda != 1.0 && q.AverageNumberInQueue() != 0.0 ==>
      Arrivals(q.Throughput(), q.AverageTimeInQueue()) != q.AverageNumberInQueue()
  {
    PopulationBounds(q);
    AsWrittenArrivals(q.AverageNumberInQueue(), q.N as real, q.MeanNumber(), q.lambda);
  }

  /** The code's W = Wq + 1 / mu inherits the error: the throughput times
      W misses L by exactly what the throughput times Wq misses Lq, which
      is (lambda^2 - 1) Lq. So Little's law L = throughput W fails for the
      code's W whenever lambda != 1 and the queue is not empty. */
  lemma AsWrittenSystemWait(q: MM1FiniteSourceQueue)
    requires q.Valid() && 1 <= q.N
    ensures Arrivals(q.Throughput(), q.AverageTimeInSystem()) - q.MeanNumber()
         == Arrivals(q.Throughput(), q.AverageTimeInQueue()) - q.AverageNumberInQueue()
    ensures Arrivals(q.Throughput(), q.AverageTimeInSystem()) - q.MeanNumber()
         == Arrivals(q.lambda * q.lambda, q.AverageNumberInQueue()) - q.AverageNumberInQueue()
    ensures q.lambda != 1.0 && q.AverageNumberInQueue() != 0.0 ==>
      Arrivals(q.Throughput(), q.AverageTimeInSystem()) != q.MeanNumber()
  {
    BusyShare(q);
    AsWrittenWaitBreaksLittle(q);
    SystemArrivals(q.Throughput(), q.AverageTimeInQueue(), q.mu,
      q.AverageNumberInQueue(), q.MeanNumber(), q.StateProbability(0));
  }

  /** Over the reals: if t / mu = 1 - p0 and lq = l - (1 - p0), then
      t (wq + 1 / mu) - l = t wq - lq. */
  lemma SystemArrivals(t: real, wq: real, mu: real, lq: real, l: real, p0: real)
    requires mu != 0.0 && t / mu == 1.0 - p0 && lq == l - (1.0 - p0)
    ensures Arrivals(t, TimeInSystem(wq, mu)) - l == Arrivals(t, wq) - lq
  {
    assert t * (1.0 / mu) == t / mu;
  }

  /** The server is busy the fraction 1 - P0 = throughput / mu of the time. */
  lemma BusyShare(q: MM1FiniteSourceQueue)
    requires q.Valid()
    ensures q.Throughput() / q.mu == 1.0 - q.StateProbability(0)
  {
    ServiceBalance(q);
    BusyFraction(q.Throughput(), q.mu, q.StateProbability(0));
  }

  /** The throughput lambda (n - l) times lq / (n - l) * lambda is
      lambda^2 lq, which differs from lq unless lambda = 1 or lq = 0. */
  lemma AsWrittenArrivals(lq: real, n: real, l: real, lam: real)
    requires 0.0 <= lam && l < n
    ensures Arrivals(JoinRate(lam, n, l), QueueWaitAsWritten(lq, n, l, lam)) == Arrivals(lam * lam, lq)
    ensures lam != 1.0 && lq != 0.0 ==> Arrivals(lam * lam, lq) != lq
  {
    CancelGap(lq, n - l, lam, JoinRate(lam, n, l), QueueWaitAsWritten(lq, n, l, lam));
    if lam != 1.0 && lq != 0.0 {
      SquareNotOne(lam);
      NonZeroProduct(lam * lam - 1.0, lq);
      assert Arrivals(lam * lam, lq) - lq == (lam * lam - 1.0) * lq;
    }
  }

  /** (lam d) (lq / d * lam) = lam^2 lq for d != 0. */
  lemma CancelGap(lq: real, d: real, lam: real, t: real, w: real)
    requires d != 0.0 && t == lam * d && w == lq / d * lam
    ensures t * w == lam * lam * lq
  {
    var x := lq / d;
    assert x * d == lq;
    assert t * w == lam * lam * (x * d);
  }

  /** lam^2 = 1 only for lam = 1 among the non-negative reals. */
  lemma SquareNotOne(lam: real)
    requires 0.0 <= lam && lam != 1.0
    ensures lam * lam != 1.0
  {
    if lam < 1.0 {
      assert lam * lam <= lam * 1.0;
    } else {
      assert lam * lam > lam * 1.0;
    }
  }

  /** A concrete case: lambda = 1/2, mu = 1, N = 2. The states 0, 1, 2
      have weights 1, 1, 1/2, so P0 = P1 = 2/5 and P2 = 1/5, L = 4/5,
      Lq = 1/5 and the throughput is 3/5. The code's Wq is 1/12, which gives
      3/5 * 1/12 = 1/20 customers in the queue by Little's law instead of
      1/5; the wait Lq / throughput is 1/3. The code's W = 13/12 likewise
      gives 3/5 * 13/12 = 13/20 customers in the system instead of 4/5. */
  lemma AsWrittenCounterexample()
    ensures var q := MM1FiniteSourceQueue(0.5, 1.0, 2);
      q.AverageNumberInQueue() == 0.2 && q.Throughput() == 0.6 &&
      q.AverageTimeInQueue() == 1.0 / 12.0 && q.IntendedTimeInQueue() == 1.0 / 3.0 &&
      Arrivals(q.Throughput(), q.AverageTimeInQueue()) != q.AverageNumberInQueue() &&
      q.AverageTimeInSystem() == 13.0 / 12.0 &&
      Arrivals(q.Throughput(), q.AverageTimeInSystem()) != q.MeanNumber()
  {
    var q := MM1FiniteSourceQueue(0.5, 1.0, 2);
    ExampleFigures(q);
    assert q.Throughput() == JoinRate(0.5, 2.0, 0.8) == 0.6;
    assert q.AverageTimeInQueue() == QueueWaitAsWritten(0.2, 2.0, 0.8, 0.5) == 1.0 / 12.0;
    assert q.IntendedTimeInQueue() == TimeInQueue(0.2, 0.6) == 1.0 / 3.0;
    assert Arrivals(0.6, 1.0 / 12.0) == 0.05;
    assert q.AverageTimeInSystem() == TimeInSystem(1.0 / 12.0, 1.0) == 13.0 / 12.0;
    assert Arrivals(0.6, 13.0 / 12.0) == 0.65;
  }

  /** L and P0 of the example above. */
  lemma ExampleFigures(q: MM1FiniteSourceQueue)
    requires q == MM1FiniteSourceQueue(0.5, 1.0, 2)
    ensures q.MeanNumber() == 0.8 && q.StateProbability(0) == 0.4
    ensures q.AverageNumberInQueue() == 0.2
  {
    ExampleWeights(q);
    var ps := q.Probabilities();
    assert ps[0] == 0.4 && ps[1] == 0.4 && ps[2] == 0.2;
    assert Moment(ps, 1) == 0.0 by {
      assert Scaled(0, ps[0]) == 0.0;
    }
    assert Moment(ps, 2) == 0.4;
    assert Moment(ps, 3) == 0.8;
  }

  /** The weights 1, 1, 1/2 of the example above and their sum 5/2. */
  lemma ExampleWeights(q: MM1FiniteSourceQueue)
    requires q == MM1FiniteSourceQueue(0.5, 1.0, 2)
    ensures q.Weight(0) == 1.0 && q.Weight(1) == 1.0 && q.Weight(2) == 0.5
    ensures q.Normaliser() == 2.5
  {
    assert q.Rho() == 0.5;
    assert Pow(0.5, 1) == 0.5 && Pow(0.5, 2) == 0.25;
    assert RealFactorial(2) == 2.0 && RealFactorial(1) == 1.0 && RealFactorial(0) == 1.0;
    var ws := q.Weights();
    assert ws[0] == 1.0 && ws[1] == 1.0 && ws[2] == 0.5;
    assert Total(ws, 3) == 2.5;
  }
}
