# Queueing calculators

A model of the four steady-state queueing calculators in `js/script.js`:

- **M/M/1**: one exponential server, unbounded queue.
- **M/M/m**: m exponential servers. Its idle probability P0 comes from the Erlang-C sum, which the code accumulates in a loop.
- **Finite-source M/M/1**: the machine-repair model. N sources each arrive at rate λ while outside the system, and there is one server. The code computes the state probabilities Pn and the mean number L in two loops.
- **M/D/1**: one server with deterministic service, using the Pollaczek-Khinchine mean-value formulas.

Each JavaScript class becomes an immutable `datatype` holding its rates, and each of its methods becomes a member function.

The code has three loops: `MMMQueue.probabilityOfZero`, and `probabilityOfN` and `averageNumberInSystem` of the finite-source class. Each is a `method` with a loop invariant. The invariant ties the accumulator to a recursive sum function, so each method is proved equal to the function that specifies it. The formulas that use those values use the functions, since a function cannot call a method.

The code computes over IEEE doubles. The model computes over exact reals.

Modules:

- `QueueMath` (`queue_math.dfy`): `Math.pow` with a natural exponent, the recursive `factorial` (both classes that carry it share one definition), sign facts about products and quotients, and the derivations L = Lq + λ/μ, Wq = Lq/λ and W = Wq + 1/μ with Little's law for them.
- `Sums` (`sums.dfy`): index-based totals and first moments of a sequence of reals, the shape of the finite-source loops, with their bounds and the summed detailed balance.
- `MM1`, `MMM`, `FiniteSource`, `MD1` (`mm1.dfy`, `mmm.dfy`, `finite_source.dfy`, `md1.dfy`): the four calculators.

## Model

| member | source | states |
|---|---|---|
| QueueMath.Pow | js/script.js:109 | `Math.pow(x, k)` is non-negative for non-negative x and positive for positive x |
| QueueMath.Factorial | js/script.js:102-104 | `factorial(n)` is at least 1 for every n, negative n included, and at least n for n ≥ 1 |
| QueueMath.FactorialStep | js/script.js:55-57 | the recurrence n! = n·(n−1)! holds from n = 1 on, including 1! = 1·0! |
| QueueMath.FactorialValues | js/script.js:102-104 | factorial(−1) = factorial(0) = factorial(1) = 1 and factorial(5) = 120; a negative argument yields 1, not an error |
| QueueMath.RealFactorialStep | js/script.js:109 | the same recurrence for the factorials as reals, the values the weights divide by |
| QueueMath.QueueWaitLittle | js/script.js:82-84 | a wait derived as Wq = Lq/λ satisfies Little's law Lq = λ·Wq |
| QueueMath.WaitFromLength | js/script.js:82-84 | conversely, Lq/λ returns the wait wq whenever Lq = λ·wq |
| QueueMath.LittleFromQueue | js/script.js:77-89 | if Lq = λ·Wq, then L = Lq + λ/μ and W = Wq + 1/μ satisfy L = λ·W, and the system exceeds the queue by λ/μ customers and 1/μ time |
| QueueMath.NumberInSystem | js/script.js:78 | L = Lq + λ/μ, the derivation M/M/m and M/D/1 share; LittleFromQueue proves what it preserves |
| QueueMath.TimeInQueue | js/script.js:83 | Wq = Lq/λ; QueueWaitLittle and WaitFromLength prove that it inverts Lq = λ·Wq |
| QueueMath.TimeInSystem | js/script.js:88 | W = Wq + 1/μ; LittleFromQueue proves that W − Wq = 1/μ and L = λ·W follow |
| MM1.UtilizationInUnitInterval | js/script.js:10-37 | for μ > 0, 0 < λ < μ holds exactly when 0 < ρ < 1, and exactly when 0 < P0 = 1 − ρ < 1 (both directions) |
| MM1.MM1Queue.Utilization | js/script.js:10-12 | ρ = λ/μ; UtilizationInUnitInterval proves 0 < ρ < 1 exactly for stable queues |
| MM1.MM1Queue.AverageNumberInSystem | js/script.js:15-17 | L = λ/(μ−λ); its sign is proved by StableMetricsPositive and UnstableMetricsNegative, and L = λ·W by LittlesLaw |
| MM1.MM1Queue.AverageNumberInQueue | js/script.js:20-22 | Lq = λ²/(μ(μ−λ)); Lq = λ·Wq is proved by LittlesLaw and L − Lq = ρ by ServiceSplit |
| MM1.MM1Queue.AverageTimeInSystem | js/script.js:25-27 | W = 1/(μ−λ); LittlesLaw and ServiceSplit relate it to L and Wq |
| MM1.MM1Queue.AverageTimeInQueue | js/script.js:30-32 | Wq = λ/(μ(μ−λ)); LittlesLaw relates it to Lq |
| MM1.MM1Queue.ProbabilityOfZero | js/script.js:35-37 | P0 = 1 − ρ; UtilizationInUnitInterval proves 0 < P0 < 1 exactly for stable queues |
| MM1.StableMetricsPositive | js/script.js:15-32 | in a stable queue L, Lq, W and Wq are all positive |
| MM1.UnstableMetricsNegative | js/script.js:15-32 | for 0 < μ < λ the code returns negative L, Lq, W and Wq instead of failing |
| MM1.LittlesLaw | js/script.js:15-32 | L = λ·W and Lq = λ·Wq wherever the formulas are defined |
| MM1.ServiceSplit | js/script.js:15-32 | L − Lq = ρ and W − Wq = 1/μ |
| MM1.Example | js/script.js:3-37 | for λ = 2 and μ = 5: ρ = 0.4, P0 = 0.6, L = 2/3, Lq = 4/15, W = 1/3 and Wq = 2/15 |
| MMM.MMMQueue.Capacity | js/script.js:50-52 | the capacity m·μ that ρ divides by is positive for μ > 0 and m ≥ 1 |
| MMM.StableUtilization | js/script.js:50-52 | for positive rates and m ≥ 1, the queue is stable exactly when 0 < ρ = λ/(mμ) < 1 |
| MMM.MMMQueue.Utilization | js/script.js:50-52 | ρ = λ/(mμ); StableUtilization proves 0 < ρ < 1 exactly for stable queues |
| MMM.MMMQueue.ErlangTerm | js/script.js:63 | each summand (λ/μ)^k / k! is non-negative |
| MMM.MMMQueue.ErlangSum | js/script.js:61-64 | the partial Erlang-C sum is non-negative, and at least 1 once it has its k = 0 term |
| MMM.MMMQueue.BusyTerm | js/script.js:65 | the term (λ/μ)^m / (m!·(1−ρ)) is positive in a stable queue |
| MMM.MMMQueue.IdleProbability | js/script.js:60-67 | P0 = 1/(sum + term) lies strictly between 0 and 1 |
| MMM.MMMQueue.ProbabilityOfZero | js/script.js:60-67 | the loop over k = 0 .. m−1 followed by the inversion returns exactly IdleProbability, so 0 < P0 < 1 |
| MMM.ErlangQueueLength | js/script.js:73 | the Erlang-C expression x·ρ/(f·(1−ρ)²)·p0 is positive for positive weight x and p0, f ≥ 1 and 0 < ρ < 1 |
| MMM.MMMQueue.AverageNumberInQueue | js/script.js:70-74 | Lq is positive in a stable queue |
| MMM.LittlesLaw | js/script.js:77-89 | L = λ·W, Lq = λ·Wq, L − Lq = λ/μ and W − Wq = 1/μ |
| MMM.MMMQueue.AverageNumberInSystem | js/script.js:77-79 | L = Lq + λ/μ; LittlesLaw proves L = λ·W and L − Lq = λ/μ |
| MMM.MMMQueue.AverageTimeInQueue | js/script.js:82-84 | Wq = Lq/λ; LittlesLaw proves Lq = λ·Wq |
| MMM.MMMQueue.AverageTimeInSystem | js/script.js:87-89 | W = Wq + 1/μ; LittlesLaw proves W − Wq = 1/μ |
| MMM.SingleServerUtilization | js/script.js:50-52 | with m = 1, ρ = λ/μ, as for M/M/1 |
| MMM.SingleServerIdle | js/script.js:60-67 | with m = 1 the Erlang-C P0 equals 1 − λ/μ |
| MMM.SingleServerQueueLength | js/script.js:70-74 | with m = 1 the Erlang-C Lq equals λ²/(μ(μ−λ)) |
| MMM.OneServerQueue | js/script.js:73 | the Erlang-C expression with one server and P0 = 1 − λ/μ equals λ²/(μ(μ−λ)) |
| MMM.SingleServerIsMM1 | js/script.js:42-91 | with one server every figure (ρ, P0, Lq, L, Wq, W) equals the M/M/1 calculator's |
| FiniteSource.Load | js/script.js:108 | ρ = λ/μ is non-negative |
| FiniteSource.MM1FiniteSourceQueue.Rho | js/script.js:108 | the code's local ρ = λ/μ is non-negative |
| FiniteSource.JoinRate | js/script.js:134 | λ·(n − l), the numerator of the code's λe; EffectiveRateBounds and ServiceBalance state its properties |
| FiniteSource.QueueWaitAsWritten | js/script.js:154 | lq/(n − l)·λ evaluated left to right, as line 154 does; AsWrittenWaitBreaksLittle states what it computes |
| FiniteSource.WeightTerm | js/script.js:109 | the left-to-right product-then-quotient of the weight is non-negative |
| FiniteSource.StateWeight | js/script.js:109 | the weight ρ^n·N!/(N−n)! of state n is non-negative |
| FiniteSource.StateWeights | js/script.js:111-113 | the N+1 weights of the states 0 .. N are non-negative |
| FiniteSource.StateWeightsInRatio | js/script.js:109 | consecutive weights satisfy w(n+1) = w(n)·ρ·(N−n) for n < N |
| FiniteSource.MM1FiniteSourceQueue.Weight | js/script.js:109 | the code's `numerator` for state n is non-negative |
| FiniteSource.MM1FiniteSourceQueue.Weights | js/script.js:111-113 | the terms the `denominator` loop adds are N+1 non-negative weights |
| FiniteSource.MM1FiniteSourceQueue.Normaliser | js/script.js:110-113 | the `denominator` is at least 1, so the division never divides by 0 |
| FiniteSource.WeightZero | js/script.js:109 | state 0 has weight ρ^0·N!/N! = 1 |
| FiniteSource.MM1FiniteSourceQueue.StateProbability | js/script.js:114 | Pn is non-negative |
| FiniteSource.MM1FiniteSourceQueue.ProbabilityOfN | js/script.js:107-115 | the loop's result is Pn, the weight of n over the summed weights, and for 0 ≤ n ≤ N it lies in [0, 1] |
| FiniteSource.MM1FiniteSourceQueue.ProbabilityOfZero | js/script.js:118-120 | P0 = probabilityOfN(0), and 0 < P0 ≤ 1 |
| FiniteSource.MM1FiniteSourceQueue.Probabilities | js/script.js:107-115 | P0 .. PN are N+1 non-negative values |
| FiniteSource.ProbabilityBounds | js/script.js:107-115 | every Pn with n ≤ N lies in [0, 1], and P0 > 0 |
| FiniteSource.ProbabilitiesSumToOne | js/script.js:107-115 | the probabilities of the states 0 .. N sum to 1 |
| FiniteSource.WeightStep | js/script.js:109 | the weights of the calculator satisfy w(n+1) = w(n)·ρ·(N−n) |
| FiniteSource.ProbabilityStep | js/script.js:107-115 | the state probabilities satisfy P(n+1) = P(n)·ρ·(N−n) for n < N (detailed balance) |
| FiniteSource.MM1FiniteSourceQueue.AverageNumberInSystem | js/script.js:123-129 | the loop computes L = Σ n·Pn, and 1 − P0 ≤ L ≤ N·(1 − P0) |
| FiniteSource.MM1FiniteSourceQueue.MeanNumber | js/script.js:123-129 | L = Σ n·Pn over n = 0 .. N; OccupancyBounds and PopulationBounds bound it |
| FiniteSource.OccupancyBounds | js/script.js:123-129 | 1 − P0 ≤ L ≤ N·(1 − P0) |
| FiniteSource.PopulationBounds | js/script.js:123-142 | 0 ≤ L ≤ N, Lq = L − (1 − P0) ≥ 0, and L < N once N ≥ 1, so N − L never vanishes |
| FiniteSource.MM1FiniteSourceQueue.AverageNumberInQueue | js/script.js:138-142 | Lq = L − (1 − P0); PopulationBounds proves Lq ≥ 0 |
| FiniteSource.MM1FiniteSourceQueue.Throughput | js/script.js:134 | the joining rate λ·(N − L), N times the code's λe; ServiceBalance proves it equals μ·(1 − P0) |
| FiniteSource.MM1FiniteSourceQueue.EffectiveArrivalRate | js/script.js:132-135 | λe = λ·(N − L)/N; EffectiveRateBounds and EffectiveRateAboveIdle put it in [λ·P0, λ] |
| FiniteSource.ServiceBalance | js/script.js:107-129 | customers join at rate λ·(N − L), which equals the rate μ·(1 − P0) at which the server completes them |
| FiniteSource.EffectiveRateBounds | js/script.js:132-135 | λe = λ·(N − L)/N lies in [0, λ], and N·λe is the joining rate λ·(N − L) |
| FiniteSource.EffectiveRateAboveIdle | js/script.js:132-135 | λe ≥ λ·P0 |
| FiniteSource.ThroughputPositive | js/script.js:132-135 | for λ > 0 and N ≥ 1 the joining rate λ·(N − L) is positive |
| FiniteSource.BusyShare | js/script.js:118-134 | the server is busy the fraction 1 − P0 = λ·(N − L)/μ of the time |
| FiniteSource.MM1FiniteSourceQueue.IntendedTimeInQueue | js/script.js:151-155 | the corrected Wq = Lq/(λ·(N − L)); IntendedLittlesLaw proves Little's law for it |
| FiniteSource.MM1FiniteSourceQueue.IntendedTimeInSystem | js/script.js:145-148 | W = Wq + 1/μ over the corrected Wq; IntendedLittlesLaw proves L = λ·(N − L)·W |
| FiniteSource.IntendedLittlesLaw | js/script.js:138-155 | with Wq = Lq/(λ·(N − L)) and W = Wq + 1/μ, Little's law holds for the queue and for the whole system |
| FiniteSource.MM1FiniteSourceQueue.AverageTimeInQueue | js/script.js:151-155 | the code's Wq = Lq/(N − L)·λ, kept as written; AsWrittenWaitBreaksLittle proves that it breaks Little's law |
| FiniteSource.MM1FiniteSourceQueue.AverageTimeInSystem | js/script.js:145-148 | the code's W = Wq + 1/μ over the code's Wq; AsWrittenSystemWait proves that it breaks Little's law for the system |
| FiniteSource.AsWrittenWaitBreaksLittle | js/script.js:151-155 | the code's Wq times the joining rate is λ²·Lq, so Little's law fails whenever λ ≠ 1 and Lq ≠ 0 |
| FiniteSource.AsWrittenSystemWait | js/script.js:145-155 | the joining rate times the code's W misses L by exactly what it misses Lq with the code's Wq, namely (λ² − 1)·Lq, so L ≠ λ·(N − L)·W whenever λ ≠ 1 and Lq ≠ 0 |
| FiniteSource.AsWrittenCounterexample | js/script.js:145-155 | for λ = 0.5, μ = 1 and N = 2: Lq = 0.2 and the joining rate is 0.6, but the code's Wq is 1/12 rather than 1/3, and its W = 13/12 gives 0.65 customers in the system by Little's law instead of L = 0.8 |
| Sums.TermWithinTotal | js/script.js:111-113 | the total of non-negative terms is non-negative and at least each of its terms |
| Sums.TotalOfShares | js/script.js:114 | dividing every term by d divides their total by d |
| Sums.MeanBounds | js/script.js:123-129 | for a distribution over 0 .. m, the mean lies between 1 − p0 and m·(1 − p0), and below m when m ≥ 1 |
| Sums.BalanceSum | js/script.js:107-129 | if consecutive terms are in the ratio r·(m − i), then r·(m·Total − Moment) = Total − s[0] |
| MD1.MD1Queue.Divisor | js/script.js:187-193 | the shared divisor (2μ)·(μ−λ) is twice the M/M/1 divisor μ·(μ−λ) and is not 0 |
| MD1.MD1Queue.ProbabilityOfZero | js/script.js:167-170 | P0 = 1 − λ/μ; HalfOfMM1 proves it equals the M/M/1 P0 and StableMetrics puts it in (0, 1) |
| MD1.MD1Queue.AverageNumberInSystem | js/script.js:173-177 | L = Lq + λ/μ; LittlesLaw proves L = λ·W and StableMetrics compares it with M/M/1 |
| MD1.MD1Queue.AverageTimeInSystem | js/script.js:180-183 | W = Wq + 1/μ; LittlesLaw proves W − Wq = 1/μ |
| MD1.MD1Queue.AverageTimeInQueue | js/script.js:186-188 | Wq = λ/((2μ)(μ−λ)); HalfOfMM1 proves it is half the M/M/1 Wq |
| MD1.MD1Queue.AverageNumberInQueue | js/script.js:191-194 | Lq = λ²/((2μ)(μ−λ)); HalfQueue proves it is half the M/M/1 Lq and QueueLittlesLaw that Lq = λ·Wq |
| MD1.HalfOfMM1 | js/script.js:167-194 | Lq and Wq are exactly half the M/M/1 values, and P0 is the same |
| MD1.HalfQueue | js/script.js:191-194 | λ²/((2μ)·(μ−λ)) is half of M/M/1's Lq |
| MD1.QueueLittlesLaw | js/script.js:186-194 | Lq = λ·Wq |
| MD1.LittlesLaw | js/script.js:173-194 | L = λ·W, Lq = λ·Wq, L − Lq = λ/μ and W − Wq = 1/μ |
| MD1.StableMetrics | js/script.js:167-194 | in a stable queue 0 < P0 < 1, Lq and Wq are positive, L > λ/μ, W > 1/μ, and L is below the M/M/1 value |

## Left out

- IEEE doubles are modelled as exact reals. Rounding, overflow of `factorial` for large arguments, `Infinity` and `NaN` are not modelled.
- A stricter calculator would signal errors on unstable input and on n outside [0, N]. The code throws nothing: it evaluates the formulas regardless, and the model follows the code.
- MM1 and MD1 functions require only that their divisors are non-zero. `UnstableMetricsNegative` records what the code returns for λ > μ. The cases μ = 0 and μ = λ divide by zero in JavaScript, giving `Infinity` or `NaN`, and are excluded.
- MMM.MMMQueue.IdleProbability: modelled only for stable queues (λ, μ > 0, m ≥ 1, λ < m·μ). Outside that range the Erlang-C denominator can be 0 or negative, and the code then returns `Infinity`, `NaN` or a negative value. The same precondition bounds `ProbabilityOfZero`, `BusyTerm`, `AverageNumberInQueue`, `AverageNumberInSystem`, `AverageTimeInQueue` and `AverageTimeInSystem` of `MMMQueue`.
- FiniteSource.MM1FiniteSourceQueue.Valid: requires λ ≥ 0 and μ > 0, which keeps every weight non-negative. Members that divide by N or by N − L also require N ≥ 1.
- FiniteSource.MM1FiniteSourceQueue.ProbabilityOfN: accepts every natural n. For n > N the code's factorial of the negative N − n is 1, and the model computes the same value. Negative n, a non-integer n and a non-integer N are not modelled.
- The limit N → ∞, in which the finite-source figures approach the M/M/1 ones, is not modelled.
- The code recomputes the normalising sum for every call of `probabilityOfN`, which is quadratic work in `averageNumberInSystem`. The model proves what the loops compute, not their cost.
- The unused local `rho` in M/D/1's `averageNumberInQueue` (js/script.js:192) has no counterpart.
- The loop bodies use the specification functions `Weight` and `ErlangTerm` for each term.
- The recurrence P(n+1) = P(n)·ρ·(N−n) is stated through the predicate `Sums.InRatio`.
- λe in the code is a per-source rate λ·(N − L)/N. The total joining rate λ·(N − L), which Little's law divides by, is the separate function `Throughput`.
- FiniteSource.MM1FiniteSourceQueue.AverageTimeInQueue: kept as the code writes it. The corrected wait is the separate function `IntendedTimeInQueue` (see Findings), and `AverageTimeInSystem` is the code's W built on the code's Wq.

## Findings

| source | as written | input that shows it | evidently intended | confidence | as-written member | corrected member |
|---|---|---|---|---|---|---|
| js/script.js:154 | Wq = Lq / (N − L) * λ, evaluated left to right, so Lq/(N − L) is multiplied by λ | λ = 0.5, μ = 1, N = 2: P = (0.4, 0.4, 0.2), L = 0.8, Lq = 0.2, joining rate λ(N − L) = 0.6, code's Wq = 1/12, and 0.6 · 1/12 = 0.05 ≠ Lq | Wq = Lq / (λ(N − L)) = 1/3, Little's law with the joining rate | not executed | FiniteSource.AsWrittenCounterexample | FiniteSource.IntendedLittlesLaw |

`FiniteSource.AsWrittenWaitBreaksLittle` proves the general form for every input: the code's Wq times the joining rate is λ²·Lq. It is therefore right only for λ = 1 or an empty queue. The code's W = Wq + 1/μ (js/script.js:145-148) inherits the error: `FiniteSource.AsWrittenSystemWait` proves that the joining rate times it misses L by the same (λ² − 1)·Lq.

`FiniteSource.IntendedLittlesLaw` proves Little's law for the corrected wait `MM1FiniteSourceQueue.IntendedTimeInQueue` and for W = Wq + 1/μ built on it. The system-level half relies on `ServiceBalance`: customers join at the rate λ(N − L) at which the server completes them, μ(1 − P0).
