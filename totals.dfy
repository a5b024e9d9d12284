/**
 * The total duration of a run: the sum of the values of its map, as
 * Python's sum(d.values()) gives it. Every value counts once per key, so
 * two tests with the same duration both count.
 */
module Totals {

  /**
   * The sum of the values of `m`, taking its keys in an arbitrary order;
   * TotalPick shows that the order does not matter.
   */
  ghost function Total(m: map<string, real>): real
    decreases |m|
  {
    if m == map[] then 0.0
    else
      var k :| k in m;
      assert |m - {k}| < |m| by { assert m.Keys - {k} < m.Keys; }
      m[k] + Total(m - {k})
  }

  /** The total of a map is any one of its values plus the total of the rest. */
  lemma {:induction false} TotalPick(m: map<string, real>, k: string)
    requires k in m
    ensures Total(m) == m[k] + Total(m - {k})
    decreases |m|
  {
    var j :| j in m && Total(m) == m[j] + Total(m - {j});
    if j != k {
      assert (m - {j}) - {k} == (m - {k}) - {j};
      assert |m - {j}| < |m| by { assert m.Keys - {j} < m.Keys; }
      assert |m - {k}| < |m| by { assert m.Keys - {k} < m.Keys; }
      TotalPick(m - {j}, k);
      TotalPick(m - {k}, j);
    }
  }

  /** A run whose durations are all zero (an empty run included) has total 0. */
  lemma {:induction false} TotalAllZero(m: map<string, real>)
    requires forall k :: k in m ==> m[k] == 0.0
    ensures Total(m) == 0.0
    decreases |m|
  {
    if m != map[] {
      var k :| k in m;
      assert |m - {k}| < |m| by { assert m.Keys - {k} < m.Keys; }
      TotalPick(m, k);
      TotalAllZero(m - {k});
    }
  }

  /**
   * Durations are never negative; then the total is not negative either,
   * and it is 0 exactly when every duration is 0.
   */
  lemma {:induction false} TotalZeroIff(m: map<string, real>)
    requires forall k :: k in m ==> m[k] >= 0.0
    ensures Total(m) >= 0.0
    ensures Total(m) == 0.0 <==> forall k :: k in m ==> m[k] == 0.0
    decreases |m|
  {
    if m != map[] {
      var k :| k in m;
      assert |m - {k}| < |m| by { assert m.Keys - {k} < m.Keys; }
      TotalPick(m, k);
      TotalZeroIff(m - {k});
      if Total(m) == 0.0 {
        forall j | j in m
          ensures m[j] == 0.0
        {
          if j != k {
            assert j in m - {k};
          }
        }
      } else {
        if forall j :: j in m ==> m[j] == 0.0 {
          TotalAllZero(m);
        }
      }
    }
  }

  /** The total of a single test is its duration. */
  lemma TotalSingle(k: string, v: real)
    ensures Total(map[k := v]) == v
  {
    TotalPick(map[k := v], k);
    assert map[k := v] - {k} == map[];
  }

  /**
   * sum(d.values()): adds the values up one key at a time, in whatever
   * order the map yields its keys.
   */
  method SumValues(m: map<string, real>) returns (s: real)
    ensures s == Total(m)
  {
    s := 0.0;
    var rest := m;
    while rest != map[]
      invariant s + Total(rest) == Total(m)
      decreases |rest|
    {
      var k :| k in rest;
      TotalPick(rest, k);
      assert |rest - {k}| < |rest| by { assert rest.Keys - {k} < rest.Keys; }
      s := s + rest[k];
      rest := rest - {k};
    }
  }
}
