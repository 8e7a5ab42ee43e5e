/** Per-name counting of draw results: the loop shared by
    `GachaEngine.get_statistics` and `History._update_statistics`. Both walk
    the results in order and, for each prize name, start a counter at zero the
    first time the name is seen and add one. */
module Tally {

  /** The counters after the loop has seen every name in `names`. */
  function Count(names: seq<string>): (m: map<string, nat>)
    ensures forall n :: n in m <==> n in names
    ensures forall n :: n in m ==> m[n] == multiset(names)[n] >= 1
  {
    if names == [] then map[]
    else
      var before := names[..|names| - 1];
      var n := names[|names| - 1];
      assert names == before + [n];
      var m := Count(before);
      if n in m then m[n := m[n] + 1] else m[n := 1]
  }

  /** The sum of all counters of a map. */
  ghost function SumValues(m: map<string, nat>): nat
    decreases |m|
  {
    if m == map[] then 0
    else
      var k :| k in m;
      assert |(m - {k}).Keys| < |m.Keys|;
      m[k] + SumValues(m - {k})
  }

  /** The sum does not depend on which key is taken off first. */
  lemma SumValuesPick(m: map<string, nat>, k: string)
    requires k in m
    ensures SumValues(m) == m[k] + SumValues(m - {k})
    decreases |m|
  {
    var j :| j in m && SumValues(m) == m[j] + SumValues(m - {j});
    if j != k {
      assert |(m - {j}).Keys| < |m.Keys|;
      assert |(m - {k}).Keys| < |m.Keys|;
      SumValuesPick(m - {j}, k);
      SumValuesPick(m - {k}, j);
      assert m - {j} - {k} == m - {k} - {j};
    }
  }

  /** Setting one counter changes the sum by the difference. */
  lemma SumValuesUpdate(m: map<string, nat>, k: string, v: nat)
    ensures SumValues(m[k := v]) == SumValues(m) - (if k in m then m[k] else 0) + v
  {
    SumValuesPick(m[k := v], k);
    assert m[k := v] - {k} == m - {k};
    if k in m {
      SumValuesPick(m, k);
    } else {
      assert m - {k} == m;
    }
  }

  /** Every counted name is counted once per occurrence: the counters add up
      to the number of names. */
  lemma {:induction false} CountSum(names: seq<string>)
    ensures SumValues(Count(names)) == |names|
  {
    if names != [] {
      var before := names[..|names| - 1];
      var n := names[|names| - 1];
      CountSum(before);
      var m := Count(before);
      if n in m {
        SumValuesUpdate(m, n, m[n] + 1);
      } else {
        SumValuesUpdate(m, n, 1);
      }
    }
  }
}
