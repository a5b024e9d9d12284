/**
 * Per-test percentage change between a base run and a compare run
 * (calculate_changed). Durations and percentages are exact reals.
 */
module PercentChange {

  /**
   * The change of one test from base duration `b` to compare duration `c`,
   * in percent of `b`; 0 when `b` is 0, so that nothing divides by zero.
   */
  function Change(b: real, c: real): real
  {
    if b == 0.0 then 0.0 else (c - b) / b * 100.0
  }

  /** The change map: one entry per test present in both runs. */
  function Changed(base: map<string, real>, compare: map<string, real>): map<string, real>
  {
    map k | k in base.Keys * compare.Keys :: Change(base[k], compare[k])
  }

  /** A base duration of 0 gives a change of 0, whatever the compare duration. */
  lemma ZeroBaseNoChange(c: real)
    ensures Change(0.0, c) == 0.0
  {
  }

  /**
   * With a nonzero base the change determines the compare duration: it is
   * the base grown by that many percent. So distinct compare durations give
   * distinct changes.
   */
  lemma ChangeRecoversCompare(b: real, c: real)
    requires b != 0.0
    ensures c == b + b * Change(b, c) / 100.0
  {
    var r := Change(b, c);
    assert r == (c - b) / b * 100.0;
    assert r / 100.0 == (c - b) / b;
    assert b * (r / 100.0) == c - b;
  }

  /**
   * With a positive base, the change is positive exactly when the test got
   * slower, zero exactly when it took as long, and negative exactly when it
   * got faster.
   */
  lemma ChangeSign(b: real, c: real)
    requires b > 0.0
    ensures Change(b, c) > 0.0 <==> c > b
    ensures Change(b, c) == 0.0 <==> c == b
    ensures Change(b, c) < 0.0 <==> c < b
  {
    ChangeRecoversCompare(b, c);
  }

  /**
   * With a positive base, the change grows with the compare duration: a
   * slower compare run never shows a smaller change.
   */
  lemma ChangeMonotonic(b: real, c1: real, c2: real)
    requires b > 0.0 && c1 <= c2
    ensures Change(b, c1) <= Change(b, c2)
  {
    var r1, r2 := Change(b, c1), Change(b, c2);
    ChangeRecoversCompare(b, c1);
    ChangeRecoversCompare(b, c2);
    assert b * (r2 - r1) / 100.0 == c2 - c1;
  }

  /**
   * calculate_changed: intersects the key sets and, taking the shared keys
   * in whatever order the set yields them, stores the change of each. The
   * result holds exactly the shared keys, each with its change, so it does
   * not depend on that order.
   */
  method CalculateChanged(base: map<string, real>, compare: map<string, real>)
    returns (changed: map<string, real>)
    ensures changed.Keys == base.Keys * compare.Keys
    ensures forall k :: k in changed ==> changed[k] == Change(base[k], compare[k])
    ensures changed == Changed(base, compare)
  {
    var both := base.Keys * compare.Keys;
    changed := map[];
    var todo := both;
    while todo != {}
      invariant todo <= both
      invariant changed.Keys == both - todo
      invariant forall k :: k in changed ==> changed[k] == Change(base[k], compare[k])
      decreases todo
    {
      var key :| key in todo;
      if base[key] == 0.0 {
        changed := changed[key := 0.0];
      } else {
        changed := changed[key := (compare[key] - base[key]) / base[key] * 100.0];
      }
      todo := todo - {key};
    }
  }
}
