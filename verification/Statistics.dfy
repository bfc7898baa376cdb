/**
  Sufficient statistics of a variant, and the comparison of a treatment with control, over the real
  numbers.
 */
module Statistics {
  import opened Options

  // ----- Arithmetic -----

  lemma PositiveProduct(a: real, b: real, r: real)
    requires r == a * b
    ensures a > 0.0 && b > 0.0 ==> r > 0.0
    ensures a < 0.0 && b < 0.0 ==> r > 0.0
    ensures a >= 0.0 && b >= 0.0 ==> r >= 0.0
    ensures a == 0.0 ==> r == 0.0
  {
  }

  function Square(x: real): (r: real)
    ensures x == 0.0 ==> r == 0.0
    ensures x != 0.0 ==> r > 0.0
  {
    var r := x * x;
    PositiveProduct(x, x, r);
    r
  }

  lemma QuotientSign(a: real, b: real)
    requires a >= 0.0 && b > 0.0
    ensures a / b >= 0.0 && (a / b == 0.0 <==> a == 0.0)
  {
  }

  lemma QuotientScales(a: real, b: real, q: real, f: real, a': real, q': real)
    requires b != 0.0 && q == a / b && a' == f * a && q' == a' / b
    ensures q' == f * q
  {
  }

  lemma SquareOfProduct(k: real, x: real)
    ensures Square(k * x) == Square(k) * Square(x)
  {
  }

  // ----- Running totals of one variant -----

  datatype VariantStats = VariantStats(n: nat, sum: real, sumSquares: real)

  function Mean(s: VariantStats): real
    requires s.n > 0
  {
    s.sum / s.n as real
  }

  /** The spread before negative results are cut off. */
  function RawVariance(s: VariantStats): real
    requires s.n > 1
  {
    (s.sumSquares - Square(s.sum) / s.n as real) / (s.n as real - 1.0)
  }

  function Variance(s: VariantStats): (v: real)
    requires s.n > 1
    ensures v >= 0.0
  {
    if RawVariance(s) > 0.0 then RawVariance(s) else 0.0
  }

  function Sum(xs: seq<real>): real
  {
    if xs == [] then 0.0 else Sum(xs[..|xs| - 1]) + xs[|xs| - 1]
  }

  function SumSquares(xs: seq<real>): real
  {
    if xs == [] then 0.0 else SumSquares(xs[..|xs| - 1]) + Square(xs[|xs| - 1])
  }

  /** The squared deviations from `m`. */
  function Deviations(xs: seq<real>, m: real): real
  {
    if xs == [] then 0.0 else Deviations(xs[..|xs| - 1], m) + Square(xs[|xs| - 1] - m)
  }

  function StatsOf(xs: seq<real>): VariantStats
  {
    VariantStats(|xs|, Sum(xs), SumSquares(xs))
  }

  lemma {:induction false} DeviationsSpec(xs: seq<real>, m: real)
    ensures Deviations(xs, m) >= 0.0
    ensures Deviations(xs, m) == 0.0 <==> forall i :: 0 <= i < |xs| ==> xs[i] == m
  {
    if xs != [] {
      var n := |xs| - 1;
      DeviationsSpec(xs[..n], m);
      assert (forall i :: 0 <= i < n ==> xs[i] == m) <==> forall i :: 0 <= i < n ==> xs[..n][i] == m;
    }
  }

  lemma ExpandStep(n: real, sum: real, squares: real, deviations: real, m: real, x: real,
                   n': real, sum': real, squares': real, deviations': real)
    requires deviations == squares - 2.0 * (m * sum) + n * Square(m)
    requires n' == n + 1.0 && sum' == sum + x && squares' == squares + Square(x) &&
             deviations' == deviations + Square(x - m)
    ensures deviations' == squares' - 2.0 * (m * sum') + n' * Square(m)
  {
  }

  lemma {:induction false} DeviationsExpand(xs: seq<real>, n: real, sum: real, squares: real, deviations: real, m: real)
    requires n == |xs| as real && sum == Sum(xs) && squares == SumSquares(xs) && deviations == Deviations(xs, m)
    ensures deviations == squares - 2.0 * (m * sum) + n * Square(m)
  {
    if xs != [] {
      var init, x := xs[..|xs| - 1], xs[|xs| - 1];
      DeviationsExpand(init, n - 1.0, Sum(init), SumSquares(init), Deviations(init, m), m);
      ExpandStep(n - 1.0, Sum(init), SumSquares(init), Deviations(init, m), m, x, n, sum, squares, deviations);
    }
  }

  /** With m the mean, the totals give the squared deviations. */
  lemma TotalsGiveDeviations(n: real, sum: real, squares: real, deviations: real, m: real)
    requires n > 0.0 && m == sum / n && deviations == squares - 2.0 * (m * sum) + n * Square(m)
    ensures deviations == squares - Square(sum) / n
    ensures n * deviations == n * squares - Square(sum)
  {
  }

  /** The three totals recover the sample variance, which is never negative. */
  lemma VarianceIsSampleVariance(xs: seq<real>, s: VariantStats, deviations: real)
    requires |xs| >= 2 && s == StatsOf(xs) && deviations == Deviations(xs, Mean(s))
    ensures Variance(s) == RawVariance(s) == deviations / (s.n as real - 1.0)
    ensures s.n as real * s.sumSquares >= Square(s.sum)
  {
    var n, m := s.n as real, Mean(s);
    DeviationsExpand(xs, n, s.sum, s.sumSquares, deviations, m);
    TotalsGiveDeviations(n, s.sum, s.sumSquares, deviations, m);
    DeviationsSpec(xs, m);
    PositiveProduct(n, deviations, n * deviations);
    QuotientSign(deviations, s.n as real - 1.0);
  }

  /** There is no spread exactly when all values are equal. */
  lemma NoSpreadIffConstant(xs: seq<real>, s: VariantStats)
    requires |xs| >= 2 && s == StatsOf(xs)
    ensures Variance(s) == 0.0 <==> forall i :: 0 <= i < |xs| ==> xs[i] == Mean(s)
  {
    var deviations := Deviations(xs, Mean(s));
    VarianceIsSampleVariance(xs, s, deviations);
    DeviationsSpec(xs, Mean(s));
    QuotientSign(deviations, s.n as real - 1.0);
  }

  // ----- Treatment against control -----

  /** The special functions of the standard library, about which nothing is assumed. */
  datatype Maths = Maths(sqrt: real -> real, cdf: real -> real)

  datatype Inference = Inference(lift: real, ciLow: real, ciHigh: real, chanceToWin: real)

  const Z_95 := 1.959963984540054

  function Lift(control: real, treatment: real): real
    requires control != 0.0
  {
    (treatment - control) / control
  }

  lemma Denominators(n: real, m: real)
    requires n > 0.0 && m != 0.0
    ensures n * Square(m) > 0.0 && n * Square(Square(m)) > 0.0
  {
  }

  /** The delta method: both arms' sizes, means and variances. */
  function LiftVariance(nc: real, mc: real, vc: real, nt: real, mt: real, vt: real): real
    requires nc > 0.0 && nt > 0.0 && mc != 0.0
  {
    Denominators(nt, mc);
    Denominators(nc, mc);
    vt / (nt * Square(mc)) + Square(mt) * vc / (nc * Square(Square(mc)))
  }

  function Inferred(lift: real, variance: real, maths: Maths): Inference
  {
    var standardError := maths.sqrt(variance);
    if standardError == 0.0 then
      Inference(lift, lift, lift, if lift == 0.0 then 0.5 else if lift > 0.0 then 1.0 else 0.0)
    else
      Inference(lift, lift - Z_95 * standardError, lift + Z_95 * standardError, maths.cdf(lift / standardError))
  }

  lemma OppositeQuotient(a: real, b: real)
    requires b != 0.0
    ensures -a / b == -(a / b)
  {
  }

  /** The opposite lift turns the interval round, and with a symmetric distribution the chance. */
  lemma OppositeLift(lift: real, variance: real, maths: Maths)
    requires forall z :: maths.cdf(-z) == 1.0 - maths.cdf(z)
    ensures var a, b := Inferred(lift, variance, maths), Inferred(-lift, variance, maths);
            a.ciLow == -b.ciHigh && a.ciHigh == -b.ciLow && 1.0 - a.chanceToWin == b.chanceToWin
  {
    var standardError := maths.sqrt(variance);
    if standardError != 0.0 {
      OppositeQuotient(lift, standardError);
    }
  }

  function CompareToControl(control: VariantStats, treatment: VariantStats, maths: Maths): Option<Inference>
  {
    if control.n < 2 || treatment.n < 2 || Mean(control) <= 0.0 then None
    else
      var variance := LiftVariance(control.n as real, Mean(control), Variance(control),
                                   treatment.n as real, Mean(treatment), Variance(treatment));
      Some(Inferred(Lift(Mean(control), Mean(treatment)), variance, maths))
  }

  // ----- What the comparison means -----

  lemma TermOfTreatment(v: real, n: real, m: real, term: real)
    requires n > 0.0 && m > 0.0 && term == v / n
    ensures n * Square(m) > 0.0 && v / (n * Square(m)) * Square(m) == term
  {
  }

  lemma SameQuotient(a: real, b: real, q: real)
    requires q > 0.0 && a * q == b * q
    ensures a == b
  {
    assert (a - b) * q == 0.0;
  }

  lemma CancelSquare(a: real, q: real, n: real, r: real)
    requires q > 0.0 && n > 0.0 && n * (q * q) != 0.0 && r == a * q / (n * (q * q))
    ensures r * q == a / n
  {
    assert r * (n * (q * q)) == a * q;
    assert r * (n * (q * q)) == (r * q * n) * q;
    SameQuotient(r * q * n, a, q);
  }

  lemma TermOfControl(t: real, m: real, ratio: real, v: real, n: real, term: real)
    requires n > 0.0 && m > 0.0 && t == ratio * m && term == Square(ratio) * v / n
    ensures n * Square(Square(m)) > 0.0 && Square(t) * v / (n * Square(Square(m))) * Square(m) == term
  {
    SquareOfProduct(ratio, m);
    var q := Square(m);
    assert Square(t) == Square(ratio) * q && Square(q) == q * q && q > 0.0;
    assert Square(t) * v == Square(ratio) * v * q;
    CancelSquare(Square(ratio) * v, q, n, Square(t) * v / (n * Square(q)));
  }

  lemma AddTerms(a: real, b: real, q: real, aq: real, bq: real)
    requires a * q == aq && b * q == bq
    ensures (a + b) * q == aq + bq
  {
  }

  /**
    The variance of the lift, times the square of control's mean, is the treatment's variance over its own
    size, plus control's over its own size, magnified by the square of the ratio of the means.
   */
  lemma LiftVarianceIs(nc: real, mc: real, vc: real, nt: real, mt: real, vt: real, lift: real, v: real)
    requires nc > 0.0 && nt > 0.0 && mc > 0.0 && lift == (mt - mc) / mc
    requires v * Square(mc) == vt / nt + Square(1.0 + lift) * vc / nc
    ensures LiftVariance(nc, mc, vc, nt, mt, vt) == v
  {
    assert lift * mc == mt - mc;
    assert (1.0 + lift) * mc == mt;
    TermOfTreatment(vt, nt, mc, vt / nt);
    TermOfControl(mt, mc, 1.0 + lift, vc, nc, Square(1.0 + lift) * vc / nc);
    AddTerms(vt / (nt * Square(mc)), Square(mt) * vc / (nc * Square(Square(mc))), Square(mc),
             vt / nt, Square(1.0 + lift) * vc / nc);
    SameQuotient(LiftVariance(nc, mc, vc, nt, mt, vt), v, Square(mc));
  }

  /** There is a comparison exactly if both arms have two identities and control's total is positive. */
  lemma ComparedIff(control: VariantStats, treatment: VariantStats, maths: Maths)
    ensures CompareToControl(control, treatment, maths).Some? <==>
            control.n >= 2 && treatment.n >= 2 && control.sum > 0.0
  {
  }

  /**
    The comparison, from the totals: the lift of the treatment's mean over control's, an interval around
    it of 1.96 standard errors either way, and the chance that the normal curve gives to a positive lift.
    `v` is what the delta method makes of the spread of both arms; without any error the result is exact.
   */
  lemma ComparisonIs(control: VariantStats, treatment: VariantStats, maths: Maths, mc: real, mt: real, lift: real,
                     v: real, error: real)
    requires control.n >= 2 && treatment.n >= 2 && control.sum > 0.0
    requires mc == control.sum / control.n as real && mt == treatment.sum / treatment.n as real
    requires mc > 0.0 && lift == (mt - mc) / mc
    requires v * Square(mc) ==
             Variance(treatment) / treatment.n as real + Square(1.0 + lift) * Variance(control) / control.n as real
    requires error == maths.sqrt(v)
    ensures var result := CompareToControl(control, treatment, maths);
            && result.Some? && result.value.lift == lift
            && result.value.ciHigh - lift == lift - result.value.ciLow == 1.959963984540054 * error
            && result.value.chanceToWin ==
               if error != 0.0 then maths.cdf(lift / error) else if lift > 0.0 then 1.0 else if lift < 0.0 then 0.0
               else 0.5
  {
    LiftVarianceIs(control.n as real, mc, Variance(control), treatment.n as real, mt, Variance(treatment), lift, v);
  }

  /** An increasing distribution function around zero, and roots that are not negative. */
  ghost predicate Proper(maths: Maths)
  {
    && (forall x :: maths.sqrt(x) >= 0.0)
    && (forall x, y :: x < y ==> maths.cdf(x) < maths.cdf(y)) && maths.cdf(0.0) == 0.5
  }

  lemma QuotientSigns(a: real, b: real, q: real)
    requires b > 0.0 && q == a / b
    ensures (q > 0.0 <==> a > 0.0) && (q < 0.0 <==> a < 0.0)
  {
    assert q * b == a;
    PositiveProduct(q, b, a);
    PositiveProduct(-q, b, -a);
  }

  lemma InferredChance(lift: real, variance: real, maths: Maths)
    requires Proper(maths)
    ensures var chance := Inferred(lift, variance, maths).chanceToWin;
            && (chance > 0.5 <==> lift > 0.0) && (chance < 0.5 <==> lift < 0.0)
  {
    var error := maths.sqrt(variance);
    if error != 0.0 {
      QuotientSigns(lift, error, lift / error);
    }
  }

  /** The chance to win is above a half exactly if the treatment's mean is above control's. */
  lemma ChanceFollowsMeans(control: VariantStats, treatment: VariantStats, maths: Maths)
    requires Proper(maths) && CompareToControl(control, treatment, maths).Some?
    ensures var chance := CompareToControl(control, treatment, maths).value.chanceToWin;
            var mc, mt := control.sum / control.n as real, treatment.sum / treatment.n as real;
            && (chance > 0.5 <==> mt > mc) && (chance < 0.5 <==> mt < mc)
  {
    var mc, mt := Mean(control), Mean(treatment);
    QuotientSigns(mt - mc, mc, Lift(mc, mt));
    InferredChance(Lift(mc, mt),
                   LiftVariance(control.n as real, mc, Variance(control), treatment.n as real, mt, Variance(treatment)),
                   maths);
  }

  /** A change of unit. */
  function Scaled(s: VariantStats, k: real): VariantStats
  {
    VariantStats(s.n, k * s.sum, Square(k) * s.sumSquares)
  }

  function ScaledValues(xs: seq<real>, k: real): seq<real>
  {
    if xs == [] then [] else ScaledValues(xs[..|xs| - 1], k) + [k * xs[|xs| - 1]]
  }

  lemma ScaleStep(k: real, sum: real, squares: real, x: real)
    ensures k * (sum + x) == k * sum + k * x
    ensures Square(k) * (squares + Square(x)) == Square(k) * squares + Square(k * x)
  {
  }

  /** The totals of values measured in another unit. */
  lemma {:induction false} StatsScale(xs: seq<real>, k: real)
    ensures StatsOf(ScaledValues(xs, k)) == Scaled(StatsOf(xs), k)
  {
    if xs != [] {
      var init, x := xs[..|xs| - 1], xs[|xs| - 1];
      StatsScale(init, k);
      assert ScaledValues(xs, k)[..|init|] == ScaledValues(init, k);
      ScaleStep(k, Sum(init), SumSquares(init), x);
    }
  }

  lemma MeanScales(s: VariantStats, k: real)
    requires s.n > 0
    ensures Mean(Scaled(s, k)) == k * Mean(s)
  {
  }

  lemma DifferenceScales(a: real, b: real, d: real, f: real, a': real, b': real, d': real)
    requires d == a - b && a' == f * a && b' == f * b && d' == a' - b'
    ensures d' == f * d
  {
  }

  lemma RawVarianceScales(s: VariantStats, k: real, t: VariantStats)
    requires s.n > 1 && t == Scaled(s, k)
    ensures RawVariance(t) == Square(k) * RawVariance(s)
  {
    var n, f := s.n as real, Square(k);
    var q, q' := Square(s.sum) / n, Square(t.sum) / n;
    SquareOfProduct(k, s.sum);
    QuotientScales(Square(s.sum), n, q, f, Square(t.sum), q');
    DifferenceScales(s.sumSquares, q, s.sumSquares - q, f, t.sumSquares, q', t.sumSquares - q');
    QuotientScales(s.sumSquares - q, n - 1.0, RawVariance(s), f, t.sumSquares - q', RawVariance(t));
  }

  lemma CutOffScales(f: real, v: real, fv: real)
    requires f >= 0.0 && fv == f * v
    ensures (if fv > 0.0 then fv else 0.0) == f * (if v > 0.0 then v else 0.0)
  {
  }

  lemma VarianceScales(s: VariantStats, k: real)
    requires s.n > 1
    ensures Variance(Scaled(s, k)) == Square(k) * Variance(s)
  {
    RawVarianceScales(s, k, Scaled(s, k));
    CutOffScales(Square(k), RawVariance(s), RawVariance(Scaled(s, k)));
  }

  lemma LiftScales(mc: real, mt: real, k: real, mc': real, mt': real)
    requires k > 0.0 && mc > 0.0 && mc' == k * mc && mt' == k * mt
    ensures mc' > 0.0 && Lift(mc', mt') == Lift(mc, mt)
  {
  }

  lemma TreatmentTerm(v: real, n: real, m: real, k: real, v': real, m': real)
    requires n > 0.0 && m > 0.0 && k > 0.0 && v' == Square(k) * v && m' == k * m
    ensures n * Square(m) != 0.0 && n * Square(m') != 0.0
    ensures v' / (n * Square(m')) == v / (n * Square(m))
  {
  }

  lemma ControlTerm(t: real, v: real, n: real, m: real, k: real, t': real, v': real, m': real)
    requires n > 0.0 && m > 0.0 && k > 0.0 && t' == k * t && v' == Square(k) * v && m' == k * m
    ensures n * Square(Square(m)) != 0.0 && n * Square(Square(m')) != 0.0
    ensures Square(t') * v' / (n * Square(Square(m'))) == Square(t) * v / (n * Square(Square(m)))
  {
  }

  lemma LiftVarianceScales(nc: real, mc: real, vc: real, nt: real, mt: real, vt: real, k: real,
                           mc': real, vc': real, mt': real, vt': real)
    requires nc > 0.0 && nt > 0.0 && mc > 0.0 && k > 0.0
    requires mc' == k * mc && vc' == Square(k) * vc && mt' == k * mt && vt' == Square(k) * vt
    ensures mc' != 0.0 && LiftVariance(nc, mc', vc', nt, mt', vt') == LiftVariance(nc, mc, vc, nt, mt, vt)
  {
    PositiveProduct(k, mc, mc');
    TreatmentTerm(vt, nt, mc, k, vt', mc');
    ControlTerm(mt, vc, nc, mc, k, mt', vc', mc');
  }

  /** Measuring both arms in another unit changes nothing in the comparison. */
  lemma ComparisonIsScaleFree(control: VariantStats, treatment: VariantStats, k: real, maths: Maths)
    requires k > 0.0
    ensures CompareToControl(Scaled(control, k), Scaled(treatment, k), maths) ==
            CompareToControl(control, treatment, maths)
  {
    if control.n >= 2 && treatment.n >= 2 {
      var c, t := Scaled(control, k), Scaled(treatment, k);
      MeanScales(control, k);
      MeanScales(treatment, k);
      if Mean(control) > 0.0 {
        VarianceScales(control, k);
        VarianceScales(treatment, k);
        LiftScales(Mean(control), Mean(treatment), k, Mean(c), Mean(t));
        LiftVarianceScales(c.n as real, Mean(control), Variance(control), t.n as real, Mean(treatment),
                           Variance(treatment), k,
                           Mean(c), Variance(c), Mean(t), Variance(t));
      } else {
        PositiveProduct(k, -Mean(control), k * -Mean(control));
        assert k * -Mean(control) == -Mean(c);
      }
    }
  }
}
