/** `detectThresholds`: the three intensity levels and the classification
    margin. Binning is done by a foreign library (`binByDouble`), so it is a
    parameter; the steps after it are modelled over `real`, not `Double`. */
module ThresholdDiscovery {
  import opened Optional

  /** `lowThreshold`, `highThreshold`, `stopBitThreshold` and `thresholdMargin`
      of an identification record. */
  datatype Thresholds = Thresholds(low: real, high: real, stop: real, margin: real)

  /** `binByDouble(values, binSize, rangeStart)`: the values grouped into
      consecutive bins of `binSize` starting at `rangeStart`, in range order. */
  type Binning = (seq<real>, real, real) -> seq<seq<real>>

  function MinOf(s: seq<real>): (r: real)
    requires |s| > 0
    ensures r in s
    ensures forall i :: 0 <= i < |s| ==> r <= s[i]
    decreases |s|
  {
    if |s| == 1 then s[0]
    else
      var m := MinOf(s[1..]);
      if s[0] <= m then s[0] else m
  }

  function MaxOf(s: seq<real>): (r: real)
    requires |s| > 0
    ensures r in s
    ensures forall i :: 0 <= i < |s| ==> s[i] <= r
    decreases |s|
  {
    if |s| == 1 then s[0]
    else
      var m := MaxOf(s[1..]);
      if s[0] >= m then s[0] else m
  }

  /** The bin layout `detectThresholds` asks the library for: bins start at
      the smallest intensity, and six of them span the range up to the
      largest one. */
  function BinLayout(intensities: seq<real>): (r: (real, real))
    requires |intensities| > 0
    ensures r.1 in intensities && forall i :: 0 <= i < |intensities| ==> r.1 <= intensities[i]
    ensures r.1 + 6.0 * r.0 in intensities
    ensures forall i :: 0 <= i < |intensities| ==> intensities[i] <= r.1 + 6.0 * r.0
    ensures r.0 >= 0.0
  {
    var lo := MinOf(intensities);
    ((MaxOf(intensities) - lo) / 6.0, lo)
  }

  /** The bins the library returns for the sampled intensities. */
  function Bins(intensities: seq<real>, binByDouble: Binning): seq<seq<real>>
    requires |intensities| > 0
  {
    var layout := BinLayout(intensities);
    binByDouble(intensities, layout.0, layout.1)
  }

  /** The bins of exactly `k` values, in their order in `s`. Comparing these
      subsequences states which bins keep their relative order. */
  function OfSize(s: seq<seq<real>>, k: nat): (r: seq<seq<real>>)
    ensures forall i :: 0 <= i < |r| ==> |r[i]| == k
    decreases |s|
  {
    if s == [] then []
    else (if |s[0]| == k then [s[0]] else []) + OfSize(s[1..], k)
  }

  /** Cutting a list short cuts each of its size classes short. */
  lemma {:induction false} OfSizeOfPrefix(s: seq<seq<real>>, n: nat, k: nat)
    requires n <= |s|
    ensures OfSize(s[..n], k) <= OfSize(s, k)
    decreases |s|
  {
    if n > 0 {
      assert s[..n][0] == s[0];
      assert s[..n][1..] == s[1..][..n - 1];
      OfSizeOfPrefix(s[1..], n - 1, k);
    }
  }

  /** `filter { it.value.isNotEmpty() }`. */
  function NonEmpty(bins: seq<seq<real>>): (r: seq<seq<real>>)
    ensures forall i :: 0 <= i < |r| ==> |r[i]| > 0
    ensures forall i :: 0 <= i < |r| ==> r[i] in bins
    ensures |r| <= |bins|
    decreases |bins|
  {
    if bins == [] then []
    else (if |bins[0]| > 0 then [bins[0]] else []) + NonEmpty(bins[1..])
  }

  /** Every non-empty bin survives the filter. */
  lemma {:induction false} NonEmptyKeeps(bins: seq<seq<real>>, b: seq<real>)
    requires b in bins && |b| > 0
    ensures b in NonEmpty(bins)
    decreases |bins|
  {
    if bins[0] != b {
      NonEmptyKeeps(bins[1..], b);
    }
  }

  /** The filter keeps the order of the bins: each size class but the empty
      one passes through unchanged. */
  lemma {:induction false} NonEmptyKeepsOrder(bins: seq<seq<real>>, k: nat)
    ensures OfSize(NonEmpty(bins), k) == if k == 0 then [] else OfSize(bins, k)
    decreases |bins|
  {
    if bins != [] {
      var head := if |bins[0]| > 0 then [bins[0]] else [];
      NonEmptyKeepsOrder(bins[1..], k);
      OfSizeAppend(head, NonEmpty(bins[1..]), k);
    }
  }

  lemma {:induction false} OfSizeAppend(a: seq<seq<real>>, b: seq<seq<real>>, k: nat)
    ensures OfSize(a + b, k) == OfSize(a, k) + OfSize(b, k)
    decreases |a|
  {
    if a == [] {
      assert a + b == b;
    } else {
      assert (a + b)[1..] == a[1..] + b;
      OfSizeAppend(a[1..], b, k);
    }
  }

  /** Bins ordered by descending number of values. */
  predicate SortedBySize(s: seq<seq<real>>)
  {
    forall i, j :: 0 <= i < j < |s| ==> |s[i]| >= |s[j]|
  }

  /** One step of a stable insertion sort: `b` precedes the bins of `s` that
      are no larger than it. */
  function Insert(b: seq<real>, s: seq<seq<real>>): (r: seq<seq<real>>)
    requires SortedBySize(s)
    ensures SortedBySize(r)
    ensures multiset(r) == multiset(s) + multiset{b}
    ensures |r| == |s| + 1
    ensures r[0] == if s == [] || |b| >= |s[0]| then b else s[0]
    decreases |s|
  {
    if s == [] || |b| >= |s[0]| then [b] + s
    else
      var t := Insert(b, s[1..]);
      assert s == [s[0]] + s[1..];
      var r := [s[0]] + t;
      forall i, j | 0 <= i < j < |r|
        ensures |r[i]| >= |r[j]|
      {
        if i == 0 {
          assert |t[0]| <= |s[0]|;
          assert |t[j - 1]| <= |t[0]|;
        }
      }
      r
  }

  /** `sortedByDescending { it.value.size }`: a stable sort, so bins of equal
      size keep the library's order. */
  function SortBySizeDesc(bins: seq<seq<real>>): (r: seq<seq<real>>)
    ensures SortedBySize(r)
    ensures multiset(r) == multiset(bins)
    ensures |r| == |bins|
    decreases |bins|
  {
    if bins == [] then []
    else
      assert bins == [bins[0]] + bins[1..];
      Insert(bins[0], SortBySizeDesc(bins[1..]))
  }

  /** Inserting `b` places it ahead of the bins of its own size: the sort is
      stable. */
  lemma {:induction false} InsertIsStable(b: seq<real>, s: seq<seq<real>>, k: nat)
    requires SortedBySize(s)
    ensures OfSize(Insert(b, s), k) == (if |b| == k then [b] else []) + OfSize(s, k)
    decreases |s|
  {
    if s == [] || |b| >= |s[0]| {
      OfSizeAppend([b], s, k);
    } else {
      SortedTail(s);
      InsertIsStable(b, s[1..], k);
      assert s == [s[0]] + s[1..];
      PassLarger(s[0], b, Insert(b, s[1..]), s[1..], k);
    }
  }

  lemma SortedTail(s: seq<seq<real>>)
    requires |s| > 0 && SortedBySize(s)
    ensures SortedBySize(s[1..])
  {
    forall i, j | 0 <= i < j < |s| - 1
      ensures |s[1..][i]| >= |s[1..][j]|
    {
      assert s[1..][i] == s[i + 1] && s[1..][j] == s[j + 1];
    }
  }

  /** Putting a bin larger than `b` in front does not change where `b`
      stands among the bins of its size. */
  lemma PassLarger(x: seq<real>, b: seq<real>, t: seq<seq<real>>, rest: seq<seq<real>>, k: nat)
    requires |x| > |b|
    requires OfSize(t, k) == (if |b| == k then [b] else []) + OfSize(rest, k)
    ensures OfSize([x] + t, k) == (if |b| == k then [b] else []) + OfSize([x] + rest, k)
  {
    OfSizeAppend([x], t, k);
    OfSizeAppend([x], rest, k);
    assert [x][1..] == [];
    assert OfSize([x], k) == if |x| == k then [x] else [];
  }

  /** `sortedByDescending` is stable: bins of equal size keep their order. */
  lemma {:induction false} SortBySizeDescIsStable(bins: seq<seq<real>>, k: nat)
    ensures OfSize(SortBySizeDesc(bins), k) == OfSize(bins, k)
    decreases |bins|
  {
    if bins != [] {
      SortBySizeDescIsStable(bins[1..], k);
      InsertIsStable(bins[0], SortBySizeDesc(bins[1..]), k);
    }
  }

  /** A prefix of a sorted permutation of non-empty bins of `bins`. */
  lemma PrefixOfSorted(sorted: seq<seq<real>>, src: seq<seq<real>>, bins: seq<seq<real>>, n: nat)
    requires n <= |sorted| && SortedBySize(sorted)
    requires multiset(sorted) == multiset(src)
    requires forall i :: 0 <= i < |src| ==> |src[i]| > 0 && src[i] in bins
    ensures forall i :: 0 <= i < n ==> |sorted[..n][i]| > 0 && sorted[..n][i] in bins
    ensures multiset(sorted[..n]) <= multiset(src)
    ensures SortedBySize(sorted[..n])
  {
    var r := sorted[..n];
    assert sorted == r + sorted[n..];
    assert multiset(sorted) == multiset(r) + multiset(sorted[n..]);
    forall i | 0 <= i < n
      ensures |r[i]| > 0 && r[i] in bins
    {
      assert r[i] in multiset(src);
    }
  }

  /** `.take(3)` of the non-empty bins, most populated first. */
  function TopBins(bins: seq<seq<real>>): (r: seq<seq<real>>)
    ensures |r| == if |NonEmpty(bins)| < 3 then |NonEmpty(bins)| else 3
    ensures forall i :: 0 <= i < |r| ==> |r[i]| > 0 && r[i] in bins
    ensures multiset(r) <= multiset(NonEmpty(bins))
    ensures SortedBySize(r)
  {
    var sorted := SortBySizeDesc(NonEmpty(bins));
    var n := if |sorted| < 3 then |sorted| else 3;
    PrefixOfSorted(sorted, NonEmpty(bins), bins, n);
    sorted[..n]
  }

  /** On a tie in size the bins kept are the earliest in range order: of
      every size class, `TopBins` keeps a prefix. */
  lemma TopBinsKeepEarliest(bins: seq<seq<real>>, k: nat)
    ensures OfSize(TopBins(bins), k) <= OfSize(bins, k)
  {
    var sorted := SortBySizeDesc(NonEmpty(bins));
    var r := TopBins(bins);
    assert r == sorted[..|r|];
    OfSizeOfPrefix(sorted, |r|, k);
    SortBySizeDescIsStable(NonEmpty(bins), k);
    NonEmptyKeepsOrder(bins, k);
  }

  /** No bin left out of `TopBins` holds more values than a bin kept. */
  lemma TopBinsAreLargest(bins: seq<seq<real>>, i: nat, b: seq<real>)
    requires i < |TopBins(bins)|
    requires b in bins && |b| > |TopBins(bins)[i]|
    ensures b in TopBins(bins)
  {
    var sorted := SortBySizeDesc(NonEmpty(bins));
    var r := TopBins(bins);
    var n := |r|;
    assert r == sorted[..n];
    NonEmptyKeeps(bins, b);
    assert b in multiset(sorted);
    var p :| 0 <= p < |sorted| && sorted[p] == b;
    assert forall x :: n <= x < |sorted| ==> |sorted[x]| <= |sorted[i]|;
    assert r[p] == b;
  }

  function Sum(s: seq<real>): real
    decreases |s|
  {
    if s == [] then 0.0 else s[0] + Sum(s[1..])
  }

  /** `average()` of a bin: its values' sum over their number, which lies
      between the smallest and the largest value. */
  function Average(b: seq<real>): (r: real)
    requires |b| > 0
    ensures MinOf(b) <= r <= MaxOf(b)
  {
    AverageBetween(b, MinOf(b), MaxOf(b));
    Sum(b) / |b| as real
  }

  /** An average lies within any bounds of its values. */
  lemma AverageBetween(b: seq<real>, lo: real, hi: real)
    requires |b| > 0
    requires forall i :: 0 <= i < |b| ==> lo <= b[i] <= hi
    ensures lo <= Sum(b) / |b| as real <= hi
  {
    SumBounds(b, lo, hi);
    DivideBounds(Sum(b), |b| as real, lo, hi);
  }

  lemma {:induction false} SumBounds(b: seq<real>, lo: real, hi: real)
    requires forall i :: 0 <= i < |b| ==> lo <= b[i] <= hi
    ensures |b| as real * lo <= Sum(b) <= |b| as real * hi
    decreases |b|
  {
    if b != [] {
      SumBounds(b[1..], lo, hi);
      assert |b| as real * lo == lo + |b[1..]| as real * lo;
      assert |b| as real * hi == hi + |b[1..]| as real * hi;
    }
  }

  lemma DivideBounds(x: real, n: real, lo: real, hi: real)
    requires n > 0.0 && n * lo <= x <= n * hi
    ensures lo <= x / n <= hi
  {
  }

  /** `sorted()` of three values. */
  function Sort3(a: real, b: real, c: real): (r: (real, real, real))
    ensures r.0 <= r.1 <= r.2
    ensures multiset{r.0, r.1, r.2} == multiset{a, b, c}
  {
    if a <= b then
      if b <= c then (a, b, c) else if a <= c then (a, c, b) else (c, a, b)
    else
      if a <= c then (b, a, c) else if b <= c then (b, c, a) else (c, b, a)
  }

  function Min(a: real, b: real): (r: real)
    ensures r <= a && r <= b && (r == a || r == b)
  {
    if a <= b then a else b
  }

  /** The margin is half the smallest distance between neighbouring
      thresholds, scaled by `factor`. */
  predicate ScaledMargin(t: Thresholds, factor: real)
  {
    t.margin == Min(t.high - t.low, t.stop - t.high) / 2.0 * factor
  }

  /** The thresholds are the sorted bin averages; the margin is half the
      smallest distance between neighbouring thresholds, scaled by `factor`. */
  function FromAverages(a0: real, a1: real, a2: real, factor: real): (t: Thresholds)
    ensures t.low <= t.high <= t.stop
    ensures multiset{t.low, t.high, t.stop} == multiset{a0, a1, a2}
    ensures ScaledMargin(t, factor)
    ensures factor >= 0.0 ==> t.margin >= 0.0
  {
    var a := Sort3(a0, a1, a2);
    var minDistance := Min(a.1 - a.0, a.2 - a.1);
    Thresholds(a.0, a.1, a.2, minDistance / 2.0 * factor)
  }

  /** `detectThresholds`; the source reads `intensities.min()!!`, so at least
      one sample is needed. `None` is the `false` return. */
  function DetectThresholds(intensities: seq<real>, factor: real, binByDouble: Binning): (r: Option<Thresholds>)
    requires |intensities| > 0
    ensures r.None? <==> |NonEmpty(Bins(intensities, binByDouble))| < 3
    ensures r.Some? ==> r.value.low <= r.value.high <= r.value.stop
    ensures r.Some? ==>
      var top := TopBins(Bins(intensities, binByDouble));
      |top| == 3 &&
      multiset{r.value.low, r.value.high, r.value.stop}
        == multiset{Average(top[0]), Average(top[1]), Average(top[2])}
    ensures r.Some? ==> ScaledMargin(r.value, factor)
    ensures r.Some? && factor >= 0.0 ==> r.value.margin >= 0.0
  {
    var top := TopBins(Bins(intensities, binByDouble));
    if |top| != 3 then None
    else
      Some(FromAverages(Average(top[0]), Average(top[1]), Average(top[2]), factor))
  }
}
