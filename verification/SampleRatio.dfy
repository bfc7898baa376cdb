/**
  The check for a sample ratio mismatch: the chi-squared statistic of observed against expected counts,
  and its survival function for integer degrees of freedom.
 */
module SampleRatio {
  import opened Statistics

  // ----- The statistic -----

  function Total(observed: seq<nat>): nat
  {
    if observed == [] then 0 else Total(observed[..|observed| - 1]) + observed[|observed| - 1]
  }

  /** The squared gap between a count and what was expected, scaled by what was expected. */
  function Gap(count: real, expected: real): real
    requires expected > 0.0
  {
    Square(count - expected) / expected
  }

  ghost predicate Aligned(observed: seq<nat>, shares: seq<real>)
  {
    |observed| == |shares| && forall i :: 0 <= i < |shares| ==> shares[i] > 0.0
  }

  function Expected(total: real, share: real): (e: real)
    requires total > 0.0 && share > 0.0
    ensures e > 0.0
  {
    PositiveProduct(total, share, total * share);
    total * share
  }

  function Gaps(observed: seq<nat>, shares: seq<real>, total: real): seq<real>
    requires Aligned(observed, shares) && total > 0.0
  {
    seq(|observed|, i requires 0 <= i < |observed| => Gap(observed[i] as real, Expected(total, shares[i])))
  }

  function Statistic(observed: seq<nat>, shares: seq<real>, total: real): real
    requires Aligned(observed, shares) && total > 0.0
  {
    Sum(Gaps(observed, shares, total))
  }

  /** The squared counts over what was expected. */
  function Ratios(observed: seq<nat>, shares: seq<real>, total: real): seq<real>
    requires Aligned(observed, shares) && total > 0.0
  {
    seq(|observed|, i requires 0 <= i < |observed| => Square(observed[i] as real) / Expected(total, shares[i]))
  }

  function Counts(observed: seq<nat>): seq<real>
  {
    seq(|observed|, i requires 0 <= i < |observed| => observed[i] as real)
  }

  function ExpectedCounts(shares: seq<real>, total: real): seq<real>
    requires total > 0.0 && forall i :: 0 <= i < |shares| ==> shares[i] > 0.0
  {
    seq(|shares|, i requires 0 <= i < |shares| => Expected(total, shares[i]))
  }

  lemma {:induction false} SumsAgree(gaps: seq<real>, ratios: seq<real>, counts: seq<real>, expected: seq<real>)
    requires |gaps| == |ratios| == |counts| == |expected|
    requires forall i :: 0 <= i < |gaps| ==> gaps[i] == ratios[i] - 2.0 * counts[i] + expected[i]
    ensures Sum(gaps) == Sum(ratios) - 2.0 * Sum(counts) + Sum(expected)
  {
    if gaps != [] {
      var n := |gaps| - 1;
      SumsAgree(gaps[..n], ratios[..n], counts[..n], expected[..n]);
    }
  }

  lemma SharesStep(total: real, sum: real, share: real, sum': real, expected: real, before: real, after: real)
    requires sum' == sum + share && expected == total * share && before == total * sum && after == before + expected
    ensures after == total * sum'
  {
  }

  lemma {:induction false} ExpectedSum(shares: seq<real>, total: real, sum: real, expected: seq<real>)
    requires total > 0.0 && (forall i :: 0 <= i < |shares| ==> shares[i] > 0.0) &&
             expected == ExpectedCounts(shares, total)
    requires sum == Sum(shares)
    ensures Sum(expected) == total * sum
  {
    if shares != [] {
      var n := |shares| - 1;
      assert expected[..n] == ExpectedCounts(shares[..n], total);
      ExpectedSum(shares[..n], total, Sum(shares[..n]), expected[..n]);
      SharesStep(total, Sum(shares[..n]), shares[n], sum, expected[n], Sum(expected[..n]), Sum(expected));
    }
  }

  lemma {:induction false} CountSum(observed: seq<nat>)
    ensures Sum(Counts(observed)) == Total(observed) as real
  {
    if observed != [] {
      var n := |observed| - 1;
      CountSum(observed[..n]);
      assert Counts(observed)[..n] == Counts(observed[..n]);
    }
  }

  lemma PointwiseGaps(observed: seq<nat>, shares: seq<real>, total: real, i: nat)
    requires Aligned(observed, shares) && total > 0.0 && i < |observed|
    ensures Gaps(observed, shares, total)[i] ==
            Ratios(observed, shares, total)[i] - 2.0 * Counts(observed)[i] + ExpectedCounts(shares, total)[i]
  {
  }

  /** With shares that sum to one, the statistic is the sum of O²/E less the number of identities. */
  lemma StatisticIsRatios(observed: seq<nat>, shares: seq<real>, total: real)
    requires Aligned(observed, shares) && Sum(shares) == 1.0 && Total(observed) > 0 && total == Total(observed) as real
    ensures Statistic(observed, shares, total) == Sum(Ratios(observed, shares, total)) - total
  {
    forall i: nat | i < |observed|
      ensures Gaps(observed, shares, total)[i] ==
              Ratios(observed, shares, total)[i] - 2.0 * Counts(observed)[i] + ExpectedCounts(shares, total)[i]
    {
      PointwiseGaps(observed, shares, total, i);
    }
    SumsAgree(Gaps(observed, shares, total), Ratios(observed, shares, total), Counts(observed),
              ExpectedCounts(shares, total));
    CountSum(observed);
    ExpectedSum(shares, total, 1.0, ExpectedCounts(shares, total));
  }

  lemma {:induction false} NonNegativeSum(xs: seq<real>)
    requires forall i :: 0 <= i < |xs| ==> xs[i] >= 0.0
    ensures Sum(xs) >= 0.0
    ensures Sum(xs) == 0.0 <==> forall i :: 0 <= i < |xs| ==> xs[i] == 0.0
  {
    if xs != [] {
      var n := |xs| - 1;
      NonNegativeSum(xs[..n]);
      assert (forall i :: 0 <= i < n ==> xs[i] == 0.0) <==> forall i :: 0 <= i < n ==> xs[..n][i] == 0.0;
    }
  }

  lemma GapSpec(count: real, expected: real)
    requires expected > 0.0
    ensures Gap(count, expected) >= 0.0 && (Gap(count, expected) == 0.0 <==> count == expected)
  {
  }

  /** It is never negative, and zero exactly when traffic was split as configured. */
  lemma StatisticSpec(observed: seq<nat>, shares: seq<real>, total: real)
    requires Aligned(observed, shares) && total > 0.0
    ensures Statistic(observed, shares, total) >= 0.0
    ensures Statistic(observed, shares, total) == 0.0 <==>
            forall i :: 0 <= i < |observed| ==> observed[i] as real == Expected(total, shares[i])
  {
    var gaps := Gaps(observed, shares, total);
    forall i: nat | i < |observed|
      ensures gaps[i] >= 0.0 && (gaps[i] == 0.0 <==> observed[i] as real == Expected(total, shares[i]))
    {
      GapSpec(observed[i] as real, Expected(total, shares[i]));
    }
    NonNegativeSum(gaps);
  }

  // ----- The survival function -----

  /** The special functions it is computed from, about which nothing is assumed. */
  datatype Special = Special(sqrt: real -> real, exp: real -> real, log: real -> real, lgamma: real -> real,
                             erfc: real -> real)

  /** The logarithm of y^a e^-y / Gamma(a + 1). */
  function LogTerm(f: Special, a: real, y: real): real
  {
    a * f.log(y) - y - f.lgamma(a + 1.0)
  }

  /** The recurrence's step from Q(a, y) to Q(a + 1, y). */
  function StepTerm(f: Special, a: real, y: real): real
  {
    f.exp(LogTerm(f, a, y))
  }

  /** Q(df / 2, y) by its base cases and its recurrence. */
  function Q(f: Special, df: nat, y: real): real
    requires df >= 1
  {
    if df == 1 then f.erfc(f.sqrt(y))
    else if df == 2 then f.exp(-y)
    else Q(f, df - 2, y) + StepTerm(f, (df - 2) as real / 2.0, y)
  }

  method ChiSquaredSurvival(f: Special, statistic: real, degreesOfFreedom: nat) returns (survival: real)
    requires degreesOfFreedom >= 1
    ensures survival == if statistic <= 0.0 then 1.0 else Q(f, degreesOfFreedom, statistic / 2.0)
  {
    if statistic <= 0.0 {
      return 1.0;
    }
    var y := statistic / 2.0;
    var a: real;
    if degreesOfFreedom % 2 != 0 {
      a := 0.5;
      survival := f.erfc(f.sqrt(y));
    } else {
      a := 1.0;
      survival := f.exp(-y);
    }
    ghost var df: nat := if degreesOfFreedom % 2 != 0 then 1 else 2;
    ghost var left: nat := (degreesOfFreedom - df) / 2;
    while a + 1.0 <= degreesOfFreedom as real / 2.0
      invariant df >= 1 && df + 2 * left == degreesOfFreedom
      invariant a == df as real / 2.0 && survival == Q(f, df, y)
      decreases left
    {
      survival := survival + StepTerm(f, a, y);
      a := a + 1.0;
      df, left := df + 2, left - 1;
    }
  }

  // ----- The p-value -----

  /** Lists of different lengths are an error, but only once the check is worth making. */
  datatype PValue = Meaningless | LengthMismatch | P(p: real)

  predicate WorthChecking(observed: seq<nat>, shares: seq<real>)
  {
    |observed| >= 2 && Total(observed) != 0 && forall i :: 0 <= i < |shares| ==> shares[i] > 0.0
  }

  function PValueOf(f: Special, observed: seq<nat>, shares: seq<real>): PValue
  {
    if !WorthChecking(observed, shares) then Meaningless
    else if |observed| != |shares| then LengthMismatch
    else
      var statistic := Statistic(observed, shares, Total(observed) as real);
      P(if statistic <= 0.0 then 1.0 else Q(f, |observed| - 1, statistic / 2.0))
  }

  /** The p-value is one when every count is as expected, and else the survival of a positive statistic. */
  lemma PValueSpec(f: Special, observed: seq<nat>, shares: seq<real>, total: real)
    requires WorthChecking(observed, shares) && |observed| == |shares| && total == Total(observed) as real
    ensures if forall i :: 0 <= i < |observed| ==> observed[i] as real == Expected(total, shares[i])
            then PValueOf(f, observed, shares) == P(1.0)
            else Statistic(observed, shares, total) > 0.0 &&
                 PValueOf(f, observed, shares) == P(Q(f, |observed| - 1, Statistic(observed, shares, total) / 2.0))
  {
    StatisticSpec(observed, shares, total);
  }

  method SrmPValue(f: Special, observed: seq<nat>, shares: seq<real>) returns (r: PValue)
    ensures r == PValueOf(f, observed, shares)
  {
    if !WorthChecking(observed, shares) {
      return Meaningless;
    }
    if |observed| != |shares| {
      return LengthMismatch;
    }
    var total := Total(observed) as real;
    var statistic := 0.0;
    ghost var gaps := Gaps(observed, shares, total);
    for i := 0 to |observed|
      invariant statistic == Sum(gaps[..i])
    {
      assert gaps[..i + 1][..i] == gaps[..i];
      statistic := statistic + Gap(observed[i] as real, Expected(total, shares[i]));
    }
    assert gaps[..|observed|] == gaps;
    var p := ChiSquaredSurvival(f, statistic, |observed| - 1);
    return P(p);
  }

  // ----- What the survival function is -----

  predicate ExpOfSum(f: Special, x: real, y: real, sum: real)
  {
    sum == x + y ==> f.exp(sum) == f.exp(x) * f.exp(y)
  }

  predicate ExpOfLog(f: Special, y: real)
  {
    y > 0.0 ==> f.exp(f.log(y)) == y
  }

  predicate GammaGrows(f: Special, a: real, next: real)
  {
    a > 0.0 && next == a + 1.0 ==> f.exp(f.lgamma(next)) == a * f.exp(f.lgamma(a))
  }

  /** The laws of the logarithm, the exponential function and the logarithm of the gamma function that are used. */
  ghost predicate Lawful(f: Special)
  {
    && (forall x, y, sum :: ExpOfSum(f, x, y, sum)) && f.exp(0.0) == 1.0
    && (forall y :: ExpOfLog(f, y))
    && (forall a, next :: GammaGrows(f, a, next)) && f.exp(f.lgamma(1.0)) == 1.0
  }

  /** y^k / k! */
  function PoissonTerm(y: real, k: nat): real
  {
    if k == 0 then 1.0 else PoissonTerm(y, k - 1) * y / k as real
  }

  function PoissonSum(y: real, k: nat): real
  {
    if k == 0 then 0.0 else PoissonSum(y, k - 1) + PoissonTerm(y, k - 1)
  }

  lemma ExpInverse(f: Special, x: real)
    requires Lawful(f)
    ensures f.exp(x) * f.exp(-x) == 1.0
  {
    assert ExpOfSum(f, x, -x, 0.0);
  }

  function LogPower(f: Special, a: real, y: real): real
  {
    a * f.log(y)
  }

  function LogGamma(f: Special, a: real): real
  {
    f.lgamma(a + 1.0)
  }

  lemma CancelFactor(a: real, b: real, c: real, r: real)
    requires r == a * b && c * b == 1.0
    ensures r * c == a
  {
    assert r * c == a * (c * b);
  }

  /** A step of the recurrence adds y^a e^-y / Gamma(a + 1). */
  lemma StepTermIs(f: Special, a: real, y: real)
    requires Lawful(f)
    ensures StepTerm(f, a, y) * f.exp(LogGamma(f, a)) == f.exp(LogPower(f, a, y)) * f.exp(-y)
    ensures StepTerm(f, a, y) == f.exp(LogPower(f, a, y)) * f.exp(-y) * f.exp(-LogGamma(f, a))
  {
    var power, gamma := LogPower(f, a, y), LogGamma(f, a);
    assert LogTerm(f, a, y) == power - y - gamma;
    assert ExpOfSum(f, power, -y, power - y);
    assert ExpOfSum(f, power - y, -gamma, LogTerm(f, a, y));
    ExpInverse(f, gamma);
    CancelFactor(f.exp(power - y), f.exp(-gamma), f.exp(gamma), StepTerm(f, a, y));
  }

  /** y^k by its logarithm. */
  lemma PowerStep(f: Special, y: real, k: real, before: real)
    requires Lawful(f) && y > 0.0 && k == before + 1.0
    ensures f.exp(LogPower(f, k, y)) == f.exp(LogPower(f, before, y)) * y
  {
    assert LogPower(f, k, y) == LogPower(f, before, y) + f.log(y);
    assert ExpOfSum(f, LogPower(f, before, y), f.log(y), LogPower(f, k, y));
    assert ExpOfLog(f, y);
  }

  lemma InverseStep(a: real, a': real, b: real, b': real, k: real)
    requires a * a' == 1.0 && b * b' == 1.0 && b == k * a
    ensures b' * k == a'
  {
    assert k * a * b' == 1.0;
    assert a' == a' * (k * a * b');
    assert a' * (k * a * b') == (a * a') * (k * b');
  }

  lemma FactorialStep(f: Special, k: real, before: real)
    requires Lawful(f) && before >= 0.0 && k == before + 1.0
    ensures f.exp(-LogGamma(f, k)) * k == f.exp(-LogGamma(f, before))
  {
    assert GammaGrows(f, k, k + 1.0);
    assert LogGamma(f, before) == f.lgamma(k);
    ExpInverse(f, LogGamma(f, before));
    ExpInverse(f, LogGamma(f, k));
    InverseStep(f.exp(LogGamma(f, before)), f.exp(-LogGamma(f, before)), f.exp(LogGamma(f, k)),
                f.exp(-LogGamma(f, k)), k);
  }

  lemma SameFactor(a: real, b: real, k: real)
    requires k > 0.0 && a * k == b * k
    ensures a == b
  {
    assert (a - b) * k == 0.0;
  }

  lemma TermStep(power: real, power': real, y: real, inverse: real, inverse': real, k: real, term: real, term': real)
    requires k > 0.0 && power' == power * y && inverse' * k == inverse
    requires term == power * inverse && term' == term * y / k
    ensures term' == power' * inverse'
  {
    assert term' * k == term * y;
    assert term * y == power' * inverse' * k;
    SameFactor(term', power' * inverse', k);
  }

  lemma PoissonStep(y: real, k: nat, before: real)
    requires k > 0 && before == PoissonTerm(y, k - 1)
    ensures PoissonTerm(y, k) == before * y / k as real
  {
  }

  lemma NoEvents(f: Special, y: real)
    requires Lawful(f)
    ensures f.exp(LogPower(f, 0.0, y)) == 1.0 && f.exp(-LogGamma(f, 0.0)) == 1.0
  {
    assert LogPower(f, 0.0, y) == 0.0;
    assert LogGamma(f, 0.0) == f.lgamma(1.0);
    ExpInverse(f, LogGamma(f, 0.0));
  }

  lemma {:induction false} PoissonTermIs(f: Special, y: real, k: nat, a: real)
    requires Lawful(f) && y > 0.0 && a == k as real
    ensures PoissonTerm(y, k) == f.exp(LogPower(f, a, y)) * f.exp(-LogGamma(f, a))
  {
    if k == 0 {
      NoEvents(f, y);
    } else {
      var before := a - 1.0;
      PoissonTermIs(f, y, k - 1, before);
      PowerStep(f, y, a, before);
      FactorialStep(f, a, before);
      PoissonStep(y, k, PoissonTerm(y, k - 1));
      TermStep(f.exp(LogPower(f, before, y)), f.exp(LogPower(f, a, y)), y, f.exp(-LogGamma(f, before)),
               f.exp(-LogGamma(f, a)), a, PoissonTerm(y, k - 1), PoissonTerm(y, k));
    }
  }

  lemma Reorder(a: real, b: real, c: real, ac: real, r: real)
    requires ac == a * c && r == a * b * c
    ensures r == b * ac
  {
  }

  lemma EvenStep(f: Special, y: real, k: nat, a: real)
    requires Lawful(f) && y > 0.0 && a == k as real
    ensures StepTerm(f, a, y) == f.exp(-y) * PoissonTerm(y, k)
  {
    StepTermIs(f, a, y);
    PoissonTermIs(f, y, k, a);
    Reorder(f.exp(LogPower(f, a, y)), f.exp(-y), f.exp(-LogGamma(f, a)), PoissonTerm(y, k), StepTerm(f, a, y));
  }

  lemma AddTerm(e: real, sum: real, term: real)
    ensures e * sum + e * term == e * (sum + term)
  {
  }

  lemma OneTerm(y: real)
    ensures PoissonSum(y, 1) == 1.0
  {
    assert PoissonSum(y, 0) == 0.0;
  }

  lemma EvenDegrees(f: Special, k: nat, y: real, a: real)
    requires k >= 2 && a == (k - 1) as real
    ensures Q(f, 2 * k, y) == Q(f, 2 * (k - 1), y) + StepTerm(f, a, y)
  {
  }

  /**
    With an even number of degrees of freedom, the survival function is the chance of fewer than half as
    many events of a Poisson distribution with mean y.
   */
  lemma {:induction false} SurvivalIsPoisson(f: Special, k: nat, y: real)
    requires Lawful(f) && y > 0.0 && k >= 1
    ensures Q(f, 2 * k, y) == f.exp(-y) * PoissonSum(y, k)
  {
    if k == 1 {
      OneTerm(y);
    } else {
      SurvivalIsPoisson(f, k - 1, y);
      EvenDegrees(f, k, y, (k - 1) as real);
      EvenStep(f, y, k - 1, (k - 1) as real);
      AddTerm(f.exp(-y), PoissonSum(y, k - 1), PoissonTerm(y, k - 1));
    }
  }

  /** With any number, two more degrees add y^a e^-y / Gamma(a + 1), where a is half the number. */
  lemma SurvivalStep(f: Special, df: nat, y: real, a: real)
    requires Lawful(f) && df >= 1 && a == df as real / 2.0
    ensures (Q(f, df + 2, y) - Q(f, df, y)) * f.exp(LogGamma(f, a)) == f.exp(LogPower(f, a, y)) * f.exp(-y)
    ensures Q(f, 1, y) == f.erfc(f.sqrt(y)) && Q(f, 2, y) == f.exp(-y)
  {
    StepTermIs(f, a, y);
  }

  /**
    A p-value is computed exactly on two or more lists of one length with some traffic and no share of
    zero or less.
   */
  lemma CheckedIff(f: Special, observed: seq<nat>, shares: seq<real>)
    ensures PValueOf(f, observed, shares).Meaningless? <==>
            |observed| < 2 || Total(observed) == 0 || exists i :: 0 <= i < |shares| && shares[i] <= 0.0
    ensures PValueOf(f, observed, shares).P? ==> |observed| == |shares|
  {
  }
}
