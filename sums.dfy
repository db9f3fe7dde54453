/** Finite sums over the first k terms of a sequence s of reals, the shape
    of the finite-source calculator's two loops: the total of the s[n] for
    n < k, and the first moment, the total of the n s[n]. Both are defined
    by their last term, as the loops add it. */
module Sums {

  import opened QueueMath

  /** s[0] + .. + s[k-1] */
  function Total(s: seq<real>, k: nat): real
    requires k <= |s|
  {
    if k == 0 then 0.0 else Total(s, k - 1) + s[k - 1]
  }

  /** 0 s[0] + 1 s[1] + .. + (k-1) s[k-1] */
  function Moment(s: seq<real>, k: nat): real
    requires k <= |s|
  {
    if k == 0 then 0.0 else Moment(s, k - 1) + Scaled(k - 1, s[k - 1])
  }

  /** n x, the term of state n in a moment. */
  function Scaled(n: nat, x: real): real
  {
    n as real * x
  }

  predicate NonNegative(s: seq<real>)
  {
    forall n :: 0 <= n < |s| ==> 0.0 <= s[n]
  }

  /** Each of the first k terms of a sequence of non-negative terms is at
      most their total, and the total is non-negative. */
  lemma {:induction false} TermWithinTotal(s: seq<real>, n: nat, k: nat)
    requires NonNegative(s) && k <= |s|
    ensures 0.0 <= Total(s, k)
    ensures n < k ==> s[n] <= Total(s, k)
  {
    if k > 0 {
      TermWithinTotal(s, n, k - 1);
    }
  }

  /** Dividing every term by d divides the total by d. */
  lemma {:induction false} TotalOfShares(s: seq<real>, t: seq<real>, d: real, k: nat)
    requires d != 0.0 && k <= |s| == |t|
    requires forall n :: 0 <= n < |t| ==> t[n] == s[n] / d
    ensures Total(t, k) == Total(s, k) / d
  {
    if k > 0 {
      TotalOfShares(s, t, d, k - 1);
      AddQuotients(Total(s, k - 1), s[k - 1], Total(s, k), d);
    }
  }

  lemma AddQuotients(a: real, b: real, c: real, d: real)
    requires d != 0.0 && c == a + b
    ensures a / d + b / d == c / d
  {
  }

  /** For non-negative terms and n at least the largest index k-1, the
      moment lies between the total without the first term and n times
      that: Total - s[0] <= Moment and Moment + n s[0] <= n Total. */
  lemma {:induction false} MomentBounds(s: seq<real>, n: real, k: nat)
    requires NonNegative(s) && 1 <= k <= |s| && (k - 1) as real <= n
    ensures Total(s, k) - s[0] <= Moment(s, k)
    ensures Moment(s, k) + n * s[0] <= n * Total(s, k)
  {
    if k == 1 {
      assert Moment(s, 0) == 0.0 && Scaled(0, s[0]) == 0.0 && Total(s, 0) == 0.0;
      BaseBounds(Moment(s, 1), Total(s, 1), s[0], n);
    } else {
      MomentBounds(s, n, k - 1);
      BoundsStep(Moment(s, k - 1), Total(s, k - 1), s[0], k - 1, n, s[k - 1], Moment(s, k), Total(s, k));
    }
  }

  /** For a distribution s over the states 0 .. m (non-negative terms that
      sum to 1, with p0 = s[0] > 0) the mean state lies between 1 - p0 and
      m (1 - p0), so in [0, m], and below m when m >= 1. */
  lemma MeanBounds(s: seq<real>, m: nat, p0: real)
    requires NonNegative(s) && |s| == m + 1 && Total(s, m + 1) == 1.0
    requires p0 == s[0] && 0.0 < p0
    ensures 1.0 - p0 <= Moment(s, m + 1) <= m as real * (1.0 - p0)
    ensures 0.0 <= Moment(s, m + 1) <= m as real
    ensures 1 <= m ==> Moment(s, m + 1) < m as real
  {
    MomentBounds(s, m as real, m + 1);
    TermWithinTotal(s, 0, m + 1);
    CountBounds(Moment(s, m + 1), m as real, s[0], Total(s, m + 1));
  }

  /** The bounds above over the reals: with 0 < p0 <= 1, total t = 1 and
      t - p0 <= l, l + n p0 <= n t, l lies in [0, n], and below n for
      n >= 1. */
  lemma CountBounds(l: real, n: real, p0: real, t: real)
    requires 0.0 <= n && 0.0 < p0 <= 1.0 && t == 1.0
    requires t - p0 <= l && l + n * p0 <= n * t
    ensures 1.0 - p0 <= l <= n * (1.0 - p0)
    ensures 0.0 <= l <= n
    ensures 1.0 <= n ==> l < n
  {
    assert n * (1.0 - p0) == n - n * p0;
    if 1.0 <= n {
      PositiveProduct(n, p0);
    } else {
      NonNegativeProduct(n, p0);
    }
  }

  /** The first term of the induction above: C = 0 and S = p0. */
  lemma BaseBounds(c: real, s: real, p0: real, n: real)
    requires c == 0.0 && s == p0
    ensures s - p0 <= c && c + n * p0 <= n * s
  {
  }

  /** One step of the induction above: adding i p to the moment c and p to
      the total s keeps the bounds when 1 <= i <= n and p >= 0. */
  lemma BoundsStep(c: real, s: real, p0: real, i: nat, n: real, p: real, c2: real, s2: real)
    requires s - p0 <= c && c + n * p0 <= n * s
    requires 1 <= i && i as real <= n && 0.0 <= p
    requires c2 == c + Scaled(i, p) && s2 == s + p
    ensures s2 - p0 <= c2 && c2 + n * p0 <= n * s2
  {
    assert n * s2 == n * s + n * p;
    MulMonotone(p, i as real, n);
  }

  /** p <= x p <= n p for p >= 0 and 1 <= x <= n. */
  lemma MulMonotone(p: real, x: real, n: real)
    requires 0.0 <= p && 1.0 <= x <= n
    ensures p <= x * p <= n * p
  {
    assert x * p - p == (x - 1.0) * p;
    assert n * p - x * p == (n - x) * p;
    NonNegativeProduct(x - 1.0, p);
    NonNegativeProduct(n - x, p);
  }

  /** y = x r c: y is x scaled by the rate r and the count c. */
  predicate Ratio(x: real, y: real, r: real, c: real)
  {
    y == x * r * c
  }

  /** Consecutive terms i and i+1 are in the ratio r (m - i), as
      successive state probabilities of a finite population of m are. */
  predicate InRatio(s: seq<real>, r: real, m: nat, i: nat)
    requires i < m < |s|
  {
    Ratio(s[i], s[i + 1], r, (m - i) as real)
  }

  /** Dividing every term by d keeps consecutive terms in their ratio. */
  lemma SharesInRatio(s: seq<real>, t: seq<real>, d: real, r: real, m: nat, i: nat)
    requires d != 0.0 && i < m < |s| == |t|
    requires forall n :: 0 <= n < |t| ==> t[n] == s[n] / d
    requires InRatio(s, r, m, i)
    ensures InRatio(t, r, m, i)
  {
    ShareRatio(s[i], s[i + 1], d, r, (m - i) as real, t[i], t[i + 1]);
  }

  lemma ShareRatio(w: real, w2: real, z: real, r: real, c: real, p: real, p2: real)
    requires z != 0.0 && Ratio(w, w2, r, c) && p == w / z && p2 == w2 / z
    ensures Ratio(p, p2, r, c)
  {
  }

  /** r (m t - mo): for terms s[i] with total t and first moment mo, the
      sum of the flows r (m - i) s[i]. */
  function UpwardFlow(r: real, m: real, t: real, mo: real): real
  {
    r * (m * t - mo)
  }

  /** Detailed balance summed over the states. When consecutive terms
      satisfy s[i+1] = s[i] r (m - i), the flow r (m - i) s[i] out of each
      state i, summed over the states 0 .. m, is the total without s[0]. */
  lemma BalanceSum(s: seq<real>, r: real, m: nat, mr: real, t: real, mo: real)
    requires |s| == m + 1 && mr == m as real && t == Total(s, m + 1) && mo == Moment(s, m + 1)
    requires forall i :: 0 <= i < m ==> InRatio(s, r, m, i)
    ensures UpwardFlow(r, mr, t, mo) == t - s[0]
  {
    BalancePrefix(s, r, m, m);
    BalanceLast(r, m, mr, Total(s, m), Moment(s, m), s[m], t, mo, t - s[0]);
  }

  /** The sum above over the states 0 .. k-1, for k <= m: it is the total of
      s[1] .. s[k]. */
  lemma {:induction false} BalancePrefix(s: seq<real>, r: real, m: nat, k: nat)
    requires |s| == m + 1 && k <= m
    requires forall i :: 0 <= i < m ==> InRatio(s, r, m, i)
    ensures r * (m as real * Total(s, k) - Moment(s, k)) == Total(s, k + 1) - s[0]
  {
    if k == 0 {
      assert Total(s, 1) == s[0];
    } else {
      BalancePrefix(s, r, m, k - 1);
      assert InRatio(s, r, m, k - 1);
      BalanceStep(r, m as real, k - 1, (m - (k - 1)) as real, Total(s, k - 1), Moment(s, k - 1),
        s[k - 1], Total(s, k), Moment(s, k), s[k], Total(s, k) - s[0]);
    }
  }

  /** One step of the induction above, over the reals. */
  lemma BalanceStep(r: real, m: real, i: nat, f: real, t: real, mo: real, x: real,
                    t2: real, mo2: real, y: real, e: real)
    requires f == m - i as real && Ratio(x, y, r, f)
    requires t2 == t + x && mo2 == mo + Scaled(i, x)
    requires r * (m * t - mo) == e
    ensures r * (m * t2 - mo2) == e + y
  {
    assert m * t2 - mo2 == (m * t - mo) + f * x;
  }

  /** The last state m adds nothing: its flow r (m - m) s[m] is 0. */
  lemma BalanceLast(r: real, m: nat, mr: real, t: real, mo: real, x: real, t2: real, mo2: real, e: real)
    requires mr == m as real && t2 == t + x && mo2 == mo + Scaled(m, x)
    requires r * (m as real * t - mo) == e
    ensures UpwardFlow(r, mr, t2, mo2) == e
  {
    assert m as real * t2 - mo2 == m as real * t - mo;
  }
}
