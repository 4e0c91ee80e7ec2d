/**
 The result statistics of the faasmspeed load generator (async_main and
 print_stats in faasmspeed/src/main.rs): start times are turned into intervals in
 place, and the summary is computed in unsigned 128-bit arithmetic, which wraps
 around in a release build.
 */
module LatencyStats {
  import opened Wrappers

  datatype RequestResult = RequestResult(usRequest: nat, usStatus: nat, numBytes: nat, startTime: nat)

  // ---- Intervals between requests

  predicate SortedByStart(s: seq<RequestResult>) {
    forall i, j :: 0 <= i <= j < |s| ==> s[i].startTime <= s[j].startTime
  }

  /** Every start time minus the one before it; the first is kept. */
  function Differences(s: seq<RequestResult>): (d: seq<RequestResult>)
    requires SortedByStart(s)
    ensures |d| == |s|
  {
    seq(|s|, i requires 0 <= i < |s| => if i == 0 then s[0] else s[i].(startTime := s[i].startTime - s[i - 1].startTime))
  }

  /** With more than two results the first slot takes the first interval. */
  function Intervals(s: seq<RequestResult>): (d: seq<RequestResult>)
    requires SortedByStart(s)
    ensures |d| == |s|
  {
    var d := Differences(s);
    if |s| > 2 then d[0 := d[0].(startTime := d[1].startTime)] else d
  }

  /** The pass runs backwards, so every subtraction still sees the original start
      time before it and never goes below zero. */
  method TakeIntervals(results: array<RequestResult>)
    requires SortedByStart(results[..])
    modifies results
    ensures results[..] == Intervals(old(results[..]))
  {
    hide Differences, Intervals, SortedByStart;
    ghost var before := results[..];
    ghost var d := Differences(before);
    var i := results.Length;
    while i > 1
      invariant (results.Length == 0 && i == 0) || 1 <= i <= results.Length
      invariant forall k :: 0 <= k < i && k < results.Length ==> results[k] == before[k]
      invariant forall k :: i <= k < results.Length ==> results[k] == d[k]
    {
      i := i - 1;
      DifferenceAt(before, i);
      results[i] := results[i].(startTime := results[i].startTime - results[i - 1].startTime);
    }
    if results.Length > 0 {
      DifferenceAt(before, 0);
    }
    assert results[..] == d;
    IntervalsAre(before);
    if results.Length > 2 {
      results[0] := results[0].(startTime := results[1].startTime);
      assert results[..] == d[0 := d[0].(startTime := d[1].startTime)];
    }
  }

  lemma DifferenceAt(s: seq<RequestResult>, k: nat)
    requires SortedByStart(s) && k < |s|
    ensures k > 0 ==> s[k].startTime >= s[k - 1].startTime
    ensures Differences(s)[k] == if k == 0 then s[0] else s[k].(startTime := s[k].startTime - s[k - 1].startTime)
  {
  }

  lemma IntervalsAre(s: seq<RequestResult>)
    requires SortedByStart(s)
    ensures var d := Differences(s);
            Intervals(s) == if |s| > 2 then d[0 := d[0].(startTime := d[1].startTime)] else d
  {
  }

  function StartSum(s: seq<RequestResult>): nat {
    if s == [] then 0 else StartSum(Init(s)) + Last(s).startTime
  }

  /** Summing the differences up rebuilds every original start time. */
  lemma {:induction false} DifferencesRebuild(s: seq<RequestResult>, k: nat)
    requires SortedByStart(s) && k < |s|
    ensures StartSum(Differences(s)[..k + 1]) == s[k].startTime
  {
    var d := Differences(s);
    assert Init(d[..k + 1]) == d[..k] && Last(d[..k + 1]) == d[k];
    if k > 0 {
      DifferencesRebuild(s, k - 1);
    }
  }

  lemma {:induction false} StartSumUpdate(s: seq<RequestResult>, i: nat, r: RequestResult)
    requires i < |s|
    ensures StartSum(s[i := r]) == StartSum(s) - s[i].startTime + r.startTime
  {
    var u := s[i := r];
    if i == |s| - 1 {
      assert Init(u) == Init(s);
    } else {
      assert Init(u) == Init(s)[i := r];
      StartSumUpdate(Init(s), i, r);
    }
  }

  /** The sum of the reported intervals: the time from the first to the last
      request, plus the first interval a second time. With one or two results it
      is the last start time. */
  lemma IntervalSum(s: seq<RequestResult>)
    requires SortedByStart(s) && |s| > 0
    ensures StartSum(Intervals(s))
            == if |s| > 2 then (Last(s).startTime - s[0].startTime) + (s[1].startTime - s[0].startTime)
               else Last(s).startTime
  {
    hide StartSum;
    var d := Differences(s);
    DifferencesRebuild(s, |s| - 1);
    assert d[..|s|] == d;
    if |s| > 2 {
      StartSumUpdate(d, 0, d[0].(startTime := d[1].startTime));
    }
  }

  // ---- The other fields

  type Rest = (nat, nat, nat)

  function Rests(s: seq<RequestResult>): (r: seq<Rest>)
    ensures |r| == |s|
  {
    seq(|s|, i requires 0 <= i < |s| => (s[i].usRequest, s[i].usStatus, s[i].numBytes))
  }

  lemma RestsRemove(s: seq<RequestResult>, i: nat)
    requires i < |s|
    ensures multiset(Rests(s)) == multiset(Rests(s[..i] + s[i + 1..])) + multiset{Rests(s)[i]}
    ensures multiset(s) == multiset(s[..i] + s[i + 1..]) + multiset{s[i]}
  {
    var r := Rests(s);
    assert s == s[..i] + [s[i]] + s[i + 1..];
    assert r == r[..i] + [r[i]] + r[i + 1..];
    assert Rests(s[..i] + s[i + 1..]) == r[..i] + r[i + 1..];
  }

  lemma {:induction false} RestsOfPermutation(a: seq<RequestResult>, b: seq<RequestResult>)
    requires multiset(a) == multiset(b)
    ensures multiset(Rests(a)) == multiset(Rests(b))
    decreases |a|
  {
    if a == [] {
      assert multiset(b) == multiset{};
      assert b == [];
    } else {
      assert a[0] in multiset(b);
      var j :| 0 <= j < |b| && b[j] == a[0];
      RestsRemove(a, 0);
      RestsRemove(b, j);
      assert multiset(a[..0] + a[1..]) == multiset(a) - multiset{a[0]};
      assert multiset(b[..j] + b[j + 1..]) == multiset(b) - multiset{a[0]};
      RestsOfPermutation(a[..0] + a[1..], b[..j] + b[j + 1..]);
    }
  }

  /** Sorting, taking intervals and sorting again never mixes up or loses the
      latencies and sizes: sorted is any sort of the results by start time, and
      final any later reordering of their intervals. */
  lemma OtherFieldsSurvive(results: seq<RequestResult>, sorted: seq<RequestResult>, final: seq<RequestResult>)
    requires multiset(sorted) == multiset(results) && SortedByStart(sorted)
    requires multiset(final) == multiset(Intervals(sorted))
    ensures multiset(Rests(final)) == multiset(Rests(results))
  {
    RestsOfPermutation(results, sorted);
    RestsOfPermutation(final, Intervals(sorted));
    assert Rests(Intervals(sorted)) == Rests(sorted);
  }

  // ---- Summary statistics

  const TWO128: nat := 0x1_0000_0000_0000_0000_0000_0000_0000_0000

  function Wrap128(x: int): nat {
    x % 0x1_0000_0000_0000_0000_0000_0000_0000_0000
  }

  function Product(x: int, y: int): int {
    x * y
  }

  function WrappedSum(data: seq<nat>): nat {
    if data == [] then 0 else Wrap128(WrappedSum(Init(data)) + Last(data))
  }

  function PlainSum(data: seq<nat>): nat {
    if data == [] then 0 else PlainSum(Init(data)) + Last(data)
  }

  /** The squared deviations as the program computes them. */
  function WrappedSquares(data: seq<nat>, avg: nat): nat {
    if data == [] then 0
    else
      var deviation := Wrap128(Last(data) - avg);
      Wrap128(WrappedSquares(Init(data), avg) + Wrap128(Product(deviation, deviation)))
  }

  function TrueSquares(data: seq<nat>, avg: nat): int {
    if data == [] then 0 else TrueSquares(Init(data), avg) + Product(Last(data) - avg, Last(data) - avg)
  }

  datatype Summary = Summary(min: nat, q01: nat, q1: nat, med: nat, q3: nat, q99: nat, max: nat, avg: nat, variance: nat)

  function Nth(data: seq<nat>, i: nat): nat {
    if i < |data| then data[i] else 0
  }

  function Quotient(x: nat, n: nat): nat
    requires n > 0
  {
    x / n
  }

  function Summarize(data: seq<nat>): Summary {
    var n := |data|;
    var cnt := if n == 0 then 1 else n;
    var avg := Quotient(WrappedSum(data), cnt);
    Summary(Nth(data, 0), Nth(data, n / 100), Nth(data, n / 4), Nth(data, n / 2), Nth(data, 3 * n / 4),
            Nth(data, 99 * n / 100), if n == 0 then 0 else Last(data), avg, Quotient(WrappedSquares(data, avg), cnt))
  }

  lemma WrapShift(x: int, k: int)
    ensures Wrap128(x + 0x1_0000_0000_0000_0000_0000_0000_0000_0000 * k) == Wrap128(x)
  {
  }

  lemma WrapIsShift(x: int) returns (k: int)
    ensures Wrap128(x) == x + 0x1_0000_0000_0000_0000_0000_0000_0000_0000 * k
  {
    k := -(x / 0x1_0000_0000_0000_0000_0000_0000_0000_0000);
  }

  lemma WrapSum(a: int, b: int)
    ensures Wrap128(Wrap128(a) + Wrap128(b)) == Wrap128(a + b)
    ensures Wrap128(Wrap128(a) + b) == Wrap128(a + b)
  {
    hide Wrap128;
    var j := WrapIsShift(a);
    var k := WrapIsShift(b);
    WrapShift(a + b, j + k);
    WrapShift(a + b, j);
  }

  lemma SquareOfShift(d: int, m: int, k: int)
    ensures Product(d + m * k, d + m * k) == Product(d, d) + m * (2 * (d * k) + m * (k * k))
  {
    var e := m * k;
    assert Product(d + e, d + e) == d * d + 2 * (d * e) + e * e;
    assert d * e == m * (d * k);
    assert e * e == m * (m * (k * k));
  }

  /** A deviation below zero wraps to a huge number, but its square wraps back. */
  lemma WrappedSquare(d: int)
    ensures Wrap128(Product(Wrap128(d), Wrap128(d))) == Wrap128(Product(d, d))
  {
    hide Wrap128, Product;
    var k := WrapIsShift(d);
    var m := 0x1_0000_0000_0000_0000_0000_0000_0000_0000;
    SquareOfShift(d, m, k);
    WrapShift(Product(d, d), 2 * (d * k) + m * (k * k));
  }

  lemma {:induction false} SquaresAgree(data: seq<nat>, avg: nat)
    ensures WrappedSquares(data, avg) == Wrap128(TrueSquares(data, avg))
  {
    hide Wrap128, Product;
    if data == [] {
      WrapSmall(0);
    } else {
      SquaresAgree(Init(data), avg);
      var d := Last(data) - avg;
      WrappedSquare(d);
      WrapSum(TrueSquares(Init(data), avg), Product(d, d));
    }
  }

  lemma WrapSmall(x: int)
    ensures 0 <= x < TWO128 ==> Wrap128(x) == x
    ensures 0 <= Wrap128(x) < TWO128
  {
  }

  lemma SquareNonNegative(d: int)
    ensures Product(d, d) >= 0
  {
  }

  lemma {:induction false} SquaresNonNegative(data: seq<nat>, avg: nat)
    ensures TrueSquares(data, avg) >= 0
  {
    hide Product;
    if data != [] {
      SquareNonNegative(Last(data) - avg);
      SquaresNonNegative(Init(data), avg);
    }
  }

  /** The variance is right although single deviations wrap: the wrapped sum of
      squares is the true one exactly when that is below 2^128. */
  lemma SumOfSquaresExact(data: seq<nat>, avg: nat)
    ensures WrappedSquares(data, avg) == TrueSquares(data, avg) <==> TrueSquares(data, avg) < TWO128
  {
    hide Wrap128, TrueSquares, WrappedSquares;
    SquaresAgree(data, avg);
    SquaresNonNegative(data, avg);
    WrapSmall(TrueSquares(data, avg));
  }

  lemma {:induction false} SumsAgree(data: seq<nat>)
    ensures WrappedSum(data) == Wrap128(PlainSum(data))
  {
    hide Wrap128;
    if data == [] {
      WrapSmall(0);
    } else {
      SumsAgree(Init(data));
      WrapSum(PlainSum(Init(data)), Last(data));
    }
  }

  predicate Sorted(data: seq<nat>) {
    forall i, j :: 0 <= i <= j < |data| ==> data[i] <= data[j]
  }

  lemma {:induction false} SumBounds(data: seq<nat>, lo: nat, hi: nat)
    requires forall i :: 0 <= i < |data| ==> lo <= data[i] <= hi
    ensures Product(|data|, lo) <= PlainSum(data) <= Product(|data|, hi)
  {
    if data != [] {
      var front := Init(data);
      forall i | 0 <= i < |front| ensures lo <= front[i] <= hi {
        assert front[i] == data[i];
      }
      SumBounds(front, lo, hi);
      ProductStep(|front|, lo);
      ProductStep(|front|, hi);
    }
  }

  lemma ProductStep(n: nat, x: nat)
    ensures Product(n + 1, x) == Product(n, x) + x
  {
  }

  lemma AverageBounds(sum: nat, n: nat, lo: nat, hi: nat)
    requires n > 0 && Product(n, lo) <= sum <= Product(n, hi)
    ensures lo <= Quotient(sum, n) <= hi
  {
    var q := Quotient(sum, n);
    assert sum == n * q + sum % n;
    ProductRight(n, q);
    ProductRight(n, hi);
    if q < lo {
      ProductMonotone(n, q + 1, lo);
    }
    if q > hi {
      ProductMonotone(n, hi + 1, q);
    }
  }

  lemma ProductRight(n: nat, x: nat)
    ensures Product(n, x) == n * x && Product(n, x + 1) == n * x + n
  {
  }

  lemma ProductMonotone(n: nat, x: nat, y: nat)
    requires x <= y
    ensures Product(n, x) <= Product(n, y)
  {
  }

  /** For sorted, non-empty data every quantile is an element, the quantiles are in
      order, and the average lies between the extremes if the plain sum fits. */
  lemma SummaryInOrder(data: seq<nat>)
    requires Sorted(data) && data != []
    ensures var s := Summarize(data);
            && {s.min, s.q01, s.q1, s.med, s.q3, s.q99, s.max} <= set x | x in data
            && s.min <= s.q01 <= s.q1 <= s.med <= s.q3 <= s.q99 <= s.max
            && (PlainSum(data) < TWO128 ==> s.min <= s.avg <= s.max)
  {
    hide WrappedSum, WrappedSquares, PlainSum, Product, Wrap128, Quotient;
    var n := |data|;
    assert 0 <= n / 100 <= n / 4 <= n / 2 <= 3 * n / 4 <= 99 * n / 100 < n;
    if PlainSum(data) < TWO128 {
      SumsAgree(data);
      WrapSmall(PlainSum(data));
      SumBounds(data, data[0], Last(data));
      AverageBounds(PlainSum(data), n, data[0], Last(data));
    }
  }

  lemma {:induction false} PlainSumIs(data: seq<nat>)
    ensures PlainSum(data) == SumOf(data, (x: nat) => x)
  {
    if data != [] {
      PlainSumIs(Init(data));
    }
  }

  lemma {:induction false} TrueSquaresAre(data: seq<nat>, avg: nat)
    ensures TrueSquares(data, avg) == SumOf(data, (x: nat) => (x - avg) * (x - avg))
  {
    if data != [] {
      TrueSquaresAre(Init(data), avg);
    }
  }

  /** Every entry of the summary of non-empty data: the quantiles are the elements at their
      positions, the average is the sum divided by the number of elements if the sum fits
      128 bits, and the variance the sum of the squared deviations from that average
      divided by it, if that sum fits. */
  lemma SummaryByPosition(data: seq<nat>)
    requires data != []
    ensures var s, n := Summarize(data), |data|;
            && s.min == data[0] && s.max == data[n - 1]
            && s.q01 == data[n / 100] && s.q1 == data[n / 4] && s.med == data[n / 2]
            && s.q3 == data[3 * n / 4] && s.q99 == data[99 * n / 100]
            && (PlainSum(data) < TWO128 ==> s.avg == PlainSum(data) / n)
            && (TrueSquares(data, s.avg) < TWO128 ==> s.variance == TrueSquares(data, s.avg) / n)
  {
    hide WrappedSum, WrappedSquares, PlainSum, TrueSquares, Wrap128;
    SumsAgree(data);
    WrapSmall(PlainSum(data));
    SumOfSquaresExact(data, Summarize(data).avg);
  }

  /** Without data the summary is all zeros. */
  lemma SummaryOfNothing()
    ensures Summarize([]) == Summary(0, 0, 0, 0, 0, 0, 0, 0, 0)
  {
  }
}
