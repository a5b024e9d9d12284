/**
 * The pass/fail decision of the analysis: a per-test check of the change
 * map against the threshold, then, only if that passes, a check of the
 * change of the total duration. The exceptions the program raises to fail
 * the run become outcomes carrying the same payload maps.
 */
module ThresholdCheck {
  import opened JunitReport
  import opened PercentChange
  import opened Totals

  /** The percentage increase allowed when none is given on the command line. */
  const DefaultThreshold: real := 10.0

  datatype Outcome =
    | Ok
      /** Some test grew by more than the threshold: those tests and their changes. */
    | PerTestExceeded(overThreshold: map<string, real>)
      /** The total grew by more than the threshold: the tests new in the compare run and their durations. */
    | TotalExceeded(addedTime: map<string, real>)
      /** The base run's total duration is 0, and the total change divides by it. */
    | DivByZero

  /** The entries of the change map strictly above the threshold. */
  function OverThreshold(changed: map<string, real>, threshold: real): map<string, real>
  {
    map k | k in changed && changed[k] > threshold :: changed[k]
  }

  /** The tests of the compare run absent from the base run ("additive" tests), with their durations. */
  function AddedTime(base: map<string, real>, compare: map<string, real>): map<string, real>
  {
    map k | k in compare.Keys - base.Keys :: compare[k]
  }

  /** The change of the total duration, in percent of the base total (which must not be 0). */
  ghost function TotalChange(base: map<string, real>, compare: map<string, real>): real
    requires Total(base) != 0.0
  {
    (Total(compare) - Total(base)) / Total(base) * 100.0
  }

  /** The decision, from the two runs, their change map and the threshold. */
  ghost function Check(base: map<string, real>, compare: map<string, real>,
                       changed: map<string, real>, threshold: real): Outcome
  {
    var over := OverThreshold(changed, threshold);
    if over != map[] then PerTestExceeded(over)
    else if Total(base) == 0.0 then DivByZero
    else if TotalChange(base, compare) > threshold then TotalExceeded(AddedTime(base, compare))
    else Ok
  }

  // ---------------------------------------------------------------------------
  // Properties of the decision
  // ---------------------------------------------------------------------------

  /**
   * The run fails per test exactly when some change is strictly above the
   * threshold, and then the payload is exactly the changes above it.
   */
  lemma PerTestOutcome(base: map<string, real>, compare: map<string, real>,
                       changed: map<string, real>, threshold: real)
    ensures Check(base, compare, changed, threshold).PerTestExceeded? <==>
            exists k :: k in changed && changed[k] > threshold
    ensures Check(base, compare, changed, threshold).PerTestExceeded? ==>
            var payload := Check(base, compare, changed, threshold).overThreshold;
            (forall k :: k in payload <==> k in changed && changed[k] > threshold) &&
            (forall k :: k in payload ==> payload[k] == changed[k])
  {
    var over := OverThreshold(changed, threshold);
    if exists k :: k in changed && changed[k] > threshold {
      var k :| k in changed && changed[k] > threshold;
      assert k in over;
    }
  }

  /** A change exactly equal to the threshold never fails the run on its own. */
  lemma AtThresholdPasses(base: map<string, real>, compare: map<string, real>,
                          changed: map<string, real>, threshold: real)
    requires forall k :: k in changed ==> changed[k] <= threshold
    ensures !Check(base, compare, changed, threshold).PerTestExceeded?
  {
    assert OverThreshold(changed, threshold) == map[];
  }

  /**
   * Once some test is over the threshold, the totals are never looked at:
   * the outcome is the same whatever the two runs hold.
   */
  lemma PerTestShortCircuits(base: map<string, real>, compare: map<string, real>,
                             otherBase: map<string, real>, otherCompare: map<string, real>,
                             changed: map<string, real>, threshold: real, k: string)
    requires k in changed && changed[k] > threshold
    ensures Check(base, compare, changed, threshold) == Check(otherBase, otherCompare, changed, threshold)
    ensures Check(base, compare, changed, threshold) == PerTestExceeded(OverThreshold(changed, threshold))
  {
    assert k in OverThreshold(changed, threshold);
  }

  /**
   * The run fails on the total exactly when no test is over the threshold,
   * the base total is not 0 and the total grew by strictly more than the
   * threshold; the payload is then exactly the tests new in the compare
   * run, with their compare durations.
   */
  lemma TotalOutcome(base: map<string, real>, compare: map<string, real>,
                     changed: map<string, real>, threshold: real)
    ensures Check(base, compare, changed, threshold).TotalExceeded? <==>
            (forall k :: k in changed ==> changed[k] <= threshold) &&
            Total(base) != 0.0 && TotalChange(base, compare) > threshold
    ensures Check(base, compare, changed, threshold).TotalExceeded? ==>
            var payload := Check(base, compare, changed, threshold).addedTime;
            (forall k :: k in payload <==> k in compare && k !in base) &&
            (forall k :: k in payload ==> payload[k] == compare[k])
  {
    PerTestOutcome(base, compare, changed, threshold);
  }

  /**
   * The total check divides by the base total unguarded: with no test over
   * the threshold and a base total of 0, the decision is a division by zero,
   * never a pass.
   */
  lemma DivByZeroOutcome(base: map<string, real>, compare: map<string, real>,
                         changed: map<string, real>, threshold: real)
    ensures Check(base, compare, changed, threshold) == DivByZero <==>
            (forall k :: k in changed ==> changed[k] <= threshold) && Total(base) == 0.0
  {
    PerTestOutcome(base, compare, changed, threshold);
  }

  /**
   * In particular an empty base run, or one whose durations are all 0,
   * ends in a division by zero once the per-test check has passed.
   */
  lemma ZeroBaseDividesByZero(base: map<string, real>, compare: map<string, real>,
                              changed: map<string, real>, threshold: real)
    requires forall k :: k in base ==> base[k] == 0.0
    requires forall k :: k in changed ==> changed[k] <= threshold
    ensures Check(base, compare, changed, threshold) == DivByZero
  {
    TotalAllZero(base);
    DivByZeroOutcome(base, compare, changed, threshold);
  }

  /** The run passes exactly when neither check fires and the division is defined. */
  lemma OkOutcome(base: map<string, real>, compare: map<string, real>,
                  changed: map<string, real>, threshold: real)
    ensures Check(base, compare, changed, threshold) == Ok <==>
            (forall k :: k in changed ==> changed[k] <= threshold) &&
            Total(base) != 0.0 && TotalChange(base, compare) <= threshold
  {
    PerTestOutcome(base, compare, changed, threshold);
  }

  // ---------------------------------------------------------------------------
  // Worked scenarios, on the change map computed from the two runs
  // ---------------------------------------------------------------------------

  /** A test 10% slower with threshold 10 passes: neither check is strict enough to fire. */
  lemma ScenarioExactlyAtThreshold()
    ensures var base, compare := map["S.C.t1" := 10.0], map["S.C.t1" := 11.0];
            Changed(base, compare) == map["S.C.t1" := 10.0] &&
            Check(base, compare, Changed(base, compare), DefaultThreshold) == Ok
  {
    var base, compare := map["S.C.t1" := 10.0], map["S.C.t1" := 11.0];
    assert Changed(base, compare) == map["S.C.t1" := 10.0];
    TotalSingle("S.C.t1", 10.0);
    TotalSingle("S.C.t1", 11.0);
  }

  /** A test 15% slower with threshold 10 fails per test, carrying its change. */
  lemma ScenarioPerTestFailure()
    ensures var base, compare := map["S.C.t1" := 10.0], map["S.C.t1" := 11.5];
            Check(base, compare, Changed(base, compare), DefaultThreshold) ==
            PerTestExceeded(map["S.C.t1" := 15.0])
  {
    var base, compare := map["S.C.t1" := 10.0], map["S.C.t1" := 11.5];
    assert Changed(base, compare) == map["S.C.t1" := 15.0];
    assert OverThreshold(map["S.C.t1" := 15.0], DefaultThreshold) == map["S.C.t1" := 15.0];
    assert "S.C.t1" in OverThreshold(map["S.C.t1" := 15.0], DefaultThreshold);
  }

  /**
   * An unchanged test passes per test, but a new 100-second test makes the
   * total grow by 2000%: the run fails on the total, naming the new test.
   */
  lemma ScenarioNewTestFailsTotal()
    ensures var base := map["S.C.t1" := 5.0];
            var compare := map["S.C.t1" := 5.0, "S.C.t2" := 100.0];
            Check(base, compare, Changed(base, compare), DefaultThreshold) ==
            TotalExceeded(map["S.C.t2" := 100.0])
  {
    var base := map["S.C.t1" := 5.0];
    var compare := map["S.C.t1" := 5.0, "S.C.t2" := 100.0];
    assert "S.C.t1" != "S.C.t2";
    assert Changed(base, compare) == map["S.C.t1" := 0.0];
    assert OverThreshold(map["S.C.t1" := 0.0], DefaultThreshold) == map[];
    TotalSingle("S.C.t1", 5.0);
    TotalPick(compare, "S.C.t2");
    assert compare - {"S.C.t2"} == map["S.C.t1" := 5.0];
    TotalSingle("S.C.t1", 5.0);
    assert Total(compare) == 105.0;
    assert TotalChange(base, compare) == 2000.0;
    assert AddedTime(base, compare) == map["S.C.t2" := 100.0];
  }

  /**
   * A test whose base duration is 0 shows no change however slow it gets,
   * and the base total of 0 then makes the total check divide by zero.
   */
  lemma ScenarioZeroBase()
    ensures var base, compare := map["S.C.t1" := 0.0], map["S.C.t1" := 5.0];
            Changed(base, compare) == map["S.C.t1" := 0.0] &&
            Check(base, compare, Changed(base, compare), DefaultThreshold) == DivByZero
  {
    var base, compare := map["S.C.t1" := 0.0], map["S.C.t1" := 5.0];
    assert Changed(base, compare) == map["S.C.t1" := 0.0];
    ZeroBaseDividesByZero(base, compare, Changed(base, compare), DefaultThreshold);
  }

  // ---------------------------------------------------------------------------
  // The operation
  // ---------------------------------------------------------------------------

  /**
   * The body of the program after the two runs are read: computes the change
   * map, fails per test if any change is above the threshold, otherwise
   * sums both runs and fails on the total if it grew by more than the
   * threshold.
   */
  method Analyze(base: map<string, real>, compare: map<string, real>, threshold: real)
    returns (outcome: Outcome)
    ensures outcome == Check(base, compare, Changed(base, compare), threshold)
  {
    var changed := CalculateChanged(base, compare);
    var overThreshold := map k | k in changed && changed[k] > threshold :: changed[k];
    if overThreshold != map[] {
      return PerTestExceeded(overThreshold);
    }
    var additive := compare.Keys - base.Keys;
    var totalTimeBase := SumValues(base);
    var totalTimeCompare := SumValues(compare);
    if totalTimeBase == 0.0 {
      return DivByZero;
    }
    var totalPercentageChanged := (totalTimeCompare - totalTimeBase) / totalTimeBase * 100.0;
    if totalPercentageChanged > threshold {
      return TotalExceeded(map k | k in additive :: compare[k]);
    }
    return Ok;
  }

  /**
   * The whole analysis from the two report trees: each is flattened into
   * its map, then the decision is taken on the two maps.
   */
  method AnalyzeReports(baseReport: Suite, compareReport: Suite, threshold: real)
    returns (outcome: Outcome)
    ensures var base, compare := Flatten(baseReport), Flatten(compareReport);
            outcome == Check(base, compare, Changed(base, compare), threshold)
  {
    var base := ConvertJunitToDict(baseReport);
    var compare := ConvertJunitToDict(compareReport);
    outcome := Analyze(base, compare, threshold);
  }
}
