/** From the aggregates of an experiment to its stored results: the mismatch check and the inferences. */
module ResultsSummary {
  import opened Options
  import opened ResultsQuery
  import opened Statistics
  import SampleRatio
  import ExpectedShares

  const RESULTS_MIN_IDENTITIES_PER_VARIANT := 50
  const RESULTS_MIN_CONVERSIONS_PER_VARIANT := 5.0
  const SRM_MIN_TOTAL_IDENTITIES := 100

  // ----- Inference for one treatment -----

  predicate EnoughData(spec: MetricSpec, control: VariantStats, treatment: VariantStats)
  {
    && control.n >= RESULTS_MIN_IDENTITIES_PER_VARIANT && treatment.n >= RESULTS_MIN_IDENTITIES_PER_VARIANT
    && (spec.aggregation == Occurrence ==>
          control.sum >= RESULTS_MIN_CONVERSIONS_PER_VARIANT && treatment.sum >= RESULTS_MIN_CONVERSIONS_PER_VARIANT)
  }

  function InferTreatment(spec: MetricSpec, control: Option<VariantStats>, treatment: VariantStats,
                          maths: Maths): Option<Inference>
  {
    if control.None? || !EnoughData(spec, control.value, treatment) then None
    else
      var inference := CompareToControl(control.value, treatment, maths);
      if inference.Some? && spec.lowerIsBetter
      then Some(inference.value.(chanceToWin := 1.0 - inference.value.chanceToWin))
      else inference
  }

  /**
    An inference is shown exactly if control is there, both arms have 50 identities and, for an occurrence
    metric, five conversions, and control's total is positive.
   */
  lemma InferenceShownIff(spec: MetricSpec, control: Option<VariantStats>, treatment: VariantStats, maths: Maths)
    ensures InferTreatment(spec, control, treatment, maths).Some? <==>
            && control.Some? && control.value.n >= 50 && treatment.n >= 50 && control.value.sum > 0.0
            && (spec.aggregation == Occurrence ==> control.value.sum >= 5.0 && treatment.sum >= 5.0)
  {
  }

  /** For a lower-is-better metric, the chance to win is the one of the opposite lift. */
  lemma LowerIsBetterFlips(spec: MetricSpec, control: VariantStats, treatment: VariantStats, maths: Maths, lift: real,
                           variance: real)
    requires spec.lowerIsBetter && InferTreatment(spec, Some(control), treatment, maths).Some?
    requires forall z :: maths.cdf(-z) == 1.0 - maths.cdf(z)
    requires lift == Lift(Mean(control), Mean(treatment))
    requires variance == LiftVariance(control.n as real, Mean(control), Variance(control),
                                      treatment.n as real, Mean(treatment), Variance(treatment))
    ensures var shown, opposite := InferTreatment(spec, Some(control), treatment, maths).value,
            Inferred(-lift, variance, maths);
            && shown.chanceToWin == opposite.chanceToWin && shown.lift == lift
            && shown.ciLow == -opposite.ciHigh && shown.ciHigh == -opposite.ciLow
  {
    OppositeLift(lift, variance, maths);
  }

  /**
    What is shown is the comparison with control; only the chance to win is turned round if lower is
    better, so that it is above a half exactly if the treatment's mean is on the better side.
   */
  lemma ShownInference(spec: MetricSpec, control: VariantStats, treatment: VariantStats, maths: Maths)
    requires InferTreatment(spec, Some(control), treatment, maths).Some?
    ensures var compared := CompareToControl(control, treatment, maths);
            var shown := InferTreatment(spec, Some(control), treatment, maths);
            && compared.Some?
            && shown.value.lift == compared.value.lift
            && shown.value.ciLow == compared.value.ciLow && shown.value.ciHigh == compared.value.ciHigh
            && shown.value.chanceToWin ==
               if spec.lowerIsBetter then 1.0 - compared.value.chanceToWin else compared.value.chanceToWin
    ensures var mc, mt := control.sum / control.n as real, treatment.sum / treatment.n as real;
            Proper(maths) ==>
              (InferTreatment(spec, Some(control), treatment, maths).value.chanceToWin > 0.5 <==>
               if spec.lowerIsBetter then mt < mc else mt > mc)
  {
    if Proper(maths) {
      ChanceFollowsMeans(control, treatment, maths);
    }
  }

  // ----- The mismatch check -----

  /** A dictionary of the identities per variant. */
  type Counts = seq<(string, nat)>

  function CountOf(counts: Counts, variant: string): nat
  {
    if counts == [] then 0 else if counts[0].0 == variant then counts[0].1 else CountOf(counts[1..], variant)
  }

  /** What is found under a variant, and 0 where there is nothing. */
  lemma {:induction false} CountOfIs(counts: Counts, variant: string)
    requires forall i, j :: 0 <= i < j < |counts| ==> counts[i].0 != counts[j].0
    ensures forall i :: 0 <= i < |counts| && counts[i].0 == variant ==> CountOf(counts, variant) == counts[i].1
    ensures (forall i :: 0 <= i < |counts| ==> counts[i].0 != variant) ==> CountOf(counts, variant) == 0
  {
    if counts != [] {
      CountOfIs(counts[1..], variant);
      assert forall i :: 1 <= i < |counts| ==> counts[i] == counts[1..][i - 1];
    }
  }

  function AllCounts(counts: Counts): nat
  {
    if counts == [] then 0 else AllCounts(counts[..|counts| - 1]) + counts[|counts| - 1].1
  }

  /** The counts of the expected variants, in the order of the shares. */
  function Observed(counts: Counts, shares: ExpectedShares.Shares): seq<nat>
  {
    seq(|shares|, i requires 0 <= i < |shares| => CountOf(counts, shares[i].0))
  }

  function Fractions(shares: ExpectedShares.Shares): seq<real>
  {
    seq(|shares|, i requires 0 <= i < |shares| => shares[i].1)
  }

  lemma OneCount(entry: (string, nat))
    ensures AllCounts([entry]) == entry.1
  {
    var none: Counts := [];
    assert [entry][..0] == none && AllCounts(none) == 0;
  }

  /** The total of two parts of a dictionary is the sum of their totals, and that of one entry its count. */
  lemma {:induction false} AllCountsAdd(a: Counts, b: Counts, entry: (string, nat))
    ensures AllCounts(a + b) == AllCounts(a) + AllCounts(b)
    ensures AllCounts([entry]) == entry.1
  {
    OneCount(entry);
    if b == [] {
      assert a + b == a;
    } else {
      var n, all := |b| - 1, a + b;
      AllCountsAdd(a, b[..n], entry);
      assert all[..|all| - 1] == a + b[..n] && all[|all| - 1] == b[n];
    }
  }

  /** `build_results_summary`'s check: skipped without shares or below the traffic floor. */
  method CheckRatio(f: SampleRatio.Special, counts: Counts, shares: ExpectedShares.Shares)
    returns (r: SampleRatio.PValue)
    ensures r == if shares == [] || AllCounts(counts) < 100 then SampleRatio.Meaningless
                 else SampleRatio.PValueOf(f, Observed(counts, shares), Fractions(shares))
    ensures r != SampleRatio.LengthMismatch
  {
    var total := 0;
    for i := 0 to |counts|
      invariant total == AllCounts(counts[..i])
    {
      assert counts[..i + 1][..i] == counts[..i];
      total := total + counts[i].1;
    }
    assert counts[..|counts|] == counts;
    if shares == [] || total < SRM_MIN_TOTAL_IDENTITIES {
      return SampleRatio.Meaningless;
    }
    r := SampleRatio.SrmPValue(f, Observed(counts, shares), Fractions(shares));
  }
}
