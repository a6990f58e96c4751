/** The short-term rolling statistic of a reading: the newest values, at most `Capacity` of them. */
module Statistics {

  /** Size of the statistics buffer of every reading. */
  const Capacity: nat := 10

  function Sum(s: seq<real>): real {
    if s == [] then 0.0 else s[0] + Sum(s[1..])
  }

  function Mean(s: seq<real>): real
    requires |s| > 0
  {
    Sum(s) / |s| as real
  }

  predicate IsFull(s: seq<real>) {
    |s| == Capacity
  }

  /** Adding a value keeps the newest `Capacity` values, the new one last. */
  function Add(s: seq<real>, v: real): (r: seq<real>)
    requires |s| <= Capacity
    ensures |r| == if |s| < Capacity then |s| + 1 else Capacity
    ensures r == (s + [v])[|s| + 1 - |r|..]
  {
    if |s| < Capacity then s + [v] else s[1..] + [v]
  }

  predicate AllWithin(s: seq<real>, lo: real, hi: real) {
    forall i :: 0 <= i < |s| ==> lo <= s[i] <= hi
  }

  lemma {:induction false} SumWithin(s: seq<real>, lo: real, hi: real)
    requires AllWithin(s, lo, hi)
    ensures |s| as real * lo <= Sum(s) <= |s| as real * hi
  {
    if s != [] {
      assert AllWithin(s[1..], lo, hi) by {
        forall i | 0 <= i < |s[1..]| ensures lo <= s[1..][i] <= hi {
          assert s[1..][i] == s[i + 1];
        }
      }
      SumWithin(s[1..], lo, hi);
      assert lo <= s[0] <= hi;
    }
  }

  /** The mean of values inside [lo, hi] is inside [lo, hi]. */
  lemma MeanWithin(s: seq<real>, lo: real, hi: real)
    requires |s| > 0 && AllWithin(s, lo, hi)
    ensures lo <= Mean(s) <= hi
  {
    SumWithin(s, lo, hi);
    var n := |s| as real;
    assert Sum(s) / n - lo == (Sum(s) - n * lo) / n;
    assert hi - Sum(s) / n == (n * hi - Sum(s)) / n;
  }

  /** Adding a value inside [lo, hi] to a buffer inside [lo, hi] keeps it inside. */
  lemma AddWithin(s: seq<real>, v: real, lo: real, hi: real)
    requires |s| <= Capacity && AllWithin(s, lo, hi) && lo <= v <= hi
    ensures AllWithin(Add(s, v), lo, hi)
  {
    var r := Add(s, v);
    var d := |s| + 1 - |r|;
    forall i | 0 <= i < |r| ensures lo <= r[i] <= hi {
      assert r[i] == (s + [v])[d + i];
    }
  }
}
