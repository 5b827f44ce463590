/** `interpolateFlanks`: frame selection between two Stop flanks and the
    synthesis of flanks lost to under-sampling. Timestamps are unbounded
    integers; the source's `Long` arithmetic does not overflow for
    millisecond clock readings. */
module Interpolation {
  import opened Optional
  import opened Signal

  /** Positions of the Stop flanks, ascending. */
  function StopIndices(flanks: seq<Flank>): (r: seq<nat>)
    ensures forall j :: 0 <= j < |r| ==> r[j] < |flanks| && flanks[r[j]].kind == Stop
    ensures forall a, b :: 0 <= a < b < |r| ==> r[a] < r[b]
    decreases |flanks|
  {
    if flanks == [] then []
    else
      var init := StopIndices(flanks[..|flanks| - 1]);
      if flanks[|flanks| - 1].kind == Stop then init + [|flanks| - 1] else init
  }

  /** Every Stop flank is listed. */
  lemma {:induction false} StopIndicesComplete(flanks: seq<Flank>, i: nat)
    requires i < |flanks| && flanks[i].kind == Stop
    ensures i in StopIndices(flanks)
    decreases |flanks|
  {
    if i < |flanks| - 1 {
      StopIndicesComplete(flanks[..|flanks| - 1], i);
    }
  }

  /** `zipWithNext { a, b -> b - a }` over the Stop positions. */
  function Spacings(stops: seq<int>): (d: seq<int>)
    ensures |d| == if |stops| < 2 then 0 else |stops| - 1
    ensures forall j :: 0 <= j < |d| ==> d[j] == stops[j + 1] - stops[j]
  {
    if |stops| < 2 then []
    else seq(|stops| - 1, j requires 0 <= j < |stops| - 1 => stops[j + 1] - stops[j])
  }

  /** Kotlin's `maxBy`: the position of the first largest element. */
  function FirstMaxIndex(d: seq<int>): (k: nat)
    requires |d| > 0
    ensures k < |d|
    ensures forall j :: 0 <= j < |d| ==> d[j] <= d[k]
    ensures forall j :: 0 <= j < k ==> d[j] < d[k]
    decreases |d|
  {
    if |d| == 1 then 0
    else
      var k := FirstMaxIndex(d[..|d| - 1]);
      if d[|d| - 1] > d[k] then |d| - 1 else k
  }

  /** The consecutive pair `k, k + 1` of Stop positions that frames the
      payload: the widest pair, the first one on ties. */
  function SelectedPair(stops: seq<int>): (k: nat)
    requires |stops| >= 2
    ensures k + 1 < |stops|
    ensures Spacings(stops)[k] == stops[k + 1] - stops[k]
    ensures forall j :: 0 <= j < |Spacings(stops)| ==> Spacings(stops)[j] <= Spacings(stops)[k]
    ensures forall j :: 0 <= j < k ==> Spacings(stops)[j] < Spacings(stops)[k]
  {
    FirstMaxIndex(Spacings(stops))
  }

  /** In ascending positions, a pair that starts before the selected one is
      one of the pairs it beats strictly. */
  lemma WidestPairIsFirst(stops: seq<int>, k: nat)
    requires |stops| >= 2 && k == SelectedPair(stops)
    requires forall a, b :: 0 <= a < b < |stops| ==> stops[a] < stops[b]
    ensures forall j :: 0 <= j < |Spacings(stops)| ==> Spacings(stops)[j] <= stops[k + 1] - stops[k]
    ensures forall j :: 0 <= j < |Spacings(stops)| && stops[j] < stops[k] ==>
      Spacings(stops)[j] < stops[k + 1] - stops[k]
  {
    assert forall j :: k < j < |stops| ==> stops[k] < stops[j];
  }

  lemma NoStopsBetween(flanks: seq<Flank>, k: nat)
    requires k + 1 < |StopIndices(flanks)|
    ensures forall p :: StopIndices(flanks)[k] < p < StopIndices(flanks)[k + 1] ==> flanks[p].kind != Stop
  {
    forall p | StopIndices(flanks)[k] < p < StopIndices(flanks)[k + 1]
      ensures flanks[p].kind != Stop
    {
      NoStopBetween(flanks, k, p);
    }
  }

  /** Between two consecutive Stop positions there is no Stop flank. */
  lemma NoStopBetween(flanks: seq<Flank>, k: nat, p: nat)
    requires k + 1 < |StopIndices(flanks)|
    requires StopIndices(flanks)[k] < p < StopIndices(flanks)[k + 1]
    ensures flanks[p].kind != Stop
  {
    var stops := StopIndices(flanks);
    if flanks[p].kind == Stop {
      StopIndicesComplete(flanks, p);
    }
    forall m | 0 <= m < |stops|
      ensures stops[m] != p
    {
      if m < k {
        assert stops[m] < stops[k];
      } else if m > k + 1 {
        assert stops[k + 1] < stops[m];
      }
    }
  }

  /** The positions of the two Stop flanks that frame the payload: two
      Stop flanks with no Stop flank between them, at least as far apart as
      any other two consecutive Stop flanks, and strictly farther apart than
      every consecutive pair that starts earlier. */
  function Frame(flanks: seq<Flank>): (b: (nat, nat))
    requires |StopIndices(flanks)| >= 2
    ensures b.0 < b.1 < |flanks|
    ensures flanks[b.0].kind == Stop && flanks[b.1].kind == Stop
    ensures forall p :: b.0 < p < b.1 ==> flanks[p].kind != Stop
    ensures forall j :: 0 <= j < |Spacings(StopIndices(flanks))| ==>
      Spacings(StopIndices(flanks))[j] <= b.1 - b.0
    ensures forall j :: 0 <= j < |Spacings(StopIndices(flanks))| && StopIndices(flanks)[j] < b.0 ==>
      Spacings(StopIndices(flanks))[j] < b.1 - b.0
  {
    var stops := StopIndices(flanks);
    var k := SelectedPair(stops);
    NoStopsBetween(flanks, k);
    WidestPairIsFirst(stops, k);
    (stops[k], stops[k + 1])
  }

  /** `flankPattern`: the flanks from the selected Stop to the next Stop,
      both included. */
  function Window(flanks: seq<Flank>): (w: seq<Flank>)
    requires |StopIndices(flanks)| >= 2
    ensures |w| >= 2
    ensures w[0].kind == Stop && w[|w| - 1].kind == Stop
    ensures w == flanks[Frame(flanks).0..Frame(flanks).1 + 1]
  {
    flanks[Frame(flanks).0..Frame(flanks).1 + 1]
  }

  /** Inside the window there is no Stop flank. */
  lemma WindowInteriorHasNoStop(flanks: seq<Flank>)
    requires |StopIndices(flanks)| >= 2
    ensures forall i :: 0 < i < |Window(flanks)| - 1 ==> Window(flanks)[i].kind != Stop
  {
  }

  /** The window has no flank of a type the whole list lacks. */
  lemma WindowKeepsAbsentKind(flanks: seq<Flank>, t: FlankType)
    requires |StopIndices(flanks)| >= 2
    requires forall i :: 0 <= i < |flanks| ==> flanks[i].kind != t
    ensures forall i :: 0 <= i < |Window(flanks)| ==> Window(flanks)[i].kind != t
  {
  }

  /** `zipWithNext { a, b -> b.timestamp - a.timestamp }`. */
  function Steps(q: seq<Flank>): (g: seq<int>)
    ensures |g| == if |q| < 2 then 0 else |q| - 1
    ensures forall j {:trigger g[j]} :: 0 <= j < |g| ==> g[j] == q[j + 1].timestamp - q[j].timestamp
  {
    if |q| < 2 then []
    else seq(|q| - 1, j requires 0 <= j < |q| - 1 => q[j + 1].timestamp - q[j].timestamp)
  }

  lemma StepsTail(q: seq<Flank>)
    requires |q| >= 2
    ensures Steps(q[1..]) == Steps(q)[1..]
  {
  }

  /** `gaps.min() ?: 0`. */
  function MinOrZero(g: seq<int>): (r: int)
    ensures |g| == 0 ==> r == 0
    ensures |g| > 0 ==> r in g
    ensures forall j :: 0 <= j < |g| ==> r <= g[j]
    decreases |g|
  {
    if |g| == 0 then 0
    else if |g| == 1 then g[0]
    else
      var m := MinOrZero(g[1..]);
      if g[0] <= m then g[0] else m
  }

  /** `(minGap * 1.5).roundToLong()`: the nearest integer to 1.5 * minGap,
      ties rounded up. */
  function MarginGap(minGap: int): (m: int)
    ensures m > 0 <==> minGap > 0
    ensures minGap >= 0 ==> m >= minGap
  {
    (3 * minGap + 1) / 2
  }

  /** `roundToLong` rounds half up: the margin is the integer `m` with
      `m <= 1.5 * minGap + 0.5 < m + 1`. */
  lemma MarginGapRounds(minGap: int)
    ensures MarginGap(minGap) as real <= 1.5 * minGap as real + 0.5 < MarginGap(minGap) as real + 1.0
  {
  }

  /** The flanks the inner `while` loop adds after `f` for a gap of `gap` to
      the next flank: while the remaining gap exceeds `m`, subtract `m` and
      add a flank of `f`'s type at `f`'s timestamp plus the remainder. The
      loop only ends when `m > 0` or when it does not run at all. */
  function Synthetic(f: Flank, gap: int, m: int): (r: seq<Flank>)
    requires m > 0 || gap <= m
    ensures gap <= m ==> r == []
    ensures forall k :: 0 <= k < |r| ==> r[k].kind == f.kind
    decreases if gap > 0 then gap else 0
  {
    if gap <= m then []
    else [Flank(f.kind, f.timestamp + gap - m)] + Synthetic(f, gap - m, m)
  }

  /** The number of synthetic flanks is the number of whole margins that fit
      strictly below the gap, `ceil(gap / m) - 1`, and the `k`-th of them
      sits `(k + 1) * m` before the next flank. */
  lemma {:induction false} SyntheticShape(f: Flank, gap: int, m: int)
    requires m > 0
    ensures gap > 0 ==> |Synthetic(f, gap, m)| * m < gap <= (|Synthetic(f, gap, m)| + 1) * m
    ensures gap <= 0 ==> |Synthetic(f, gap, m)| == 0
    ensures forall k :: 0 <= k < |Synthetic(f, gap, m)| ==>
      Synthetic(f, gap, m)[k] == Flank(f.kind, f.timestamp + gap - (k + 1) * m)
    decreases if gap > 0 then gap else 0
  {
    if gap > m {
      SyntheticShape(f, gap - m, m);
      var rest := Synthetic(f, gap - m, m);
      assert |rest| * m + m == (|rest| + 1) * m;
      assert (|rest| + 1) * m + m == (|rest| + 2) * m;
      forall k | 0 <= k < |rest|
        ensures rest[k] == Flank(f.kind, f.timestamp + gap - (k + 2) * m)
      {
        assert (k + 1) * m + m == (k + 2) * m;
      }
    }
  }

  /** `ceil(gap / m) - 1` for a positive gap, 0 otherwise: the number of
      whole margins that fit strictly below the gap. */
  function SyntheticCount(gap: int, m: int): (n: nat)
    requires m > 0
    ensures gap > 0 ==> n * m < gap <= (n + 1) * m
    ensures gap <= 0 ==> n == 0
  {
    if gap <= 0 then 0
    else
      var x := gap - 1;
      assert x == x / m * m + x % m;
      assert (x / m + 1) * m == x / m * m + m;
      x / m
  }

  lemma {:induction false} MulMonotone(a: int, b: int, m: int)
    requires a <= b && m > 0
    ensures a * m <= b * m
    decreases b - a
  {
    if a < b {
      MulMonotone(a, b - 1, m);
      assert (b - 1) * m + m == b * m;
    }
  }

  /** The inner loop adds exactly `ceil(gap / m) - 1` flanks. */
  lemma SyntheticCountIs(f: Flank, gap: int, m: int)
    requires m > 0 || gap <= m
    ensures m > 0 ==> |Synthetic(f, gap, m)| == SyntheticCount(gap, m)
  {
    if m <= 0 {
      return;
    }
    SyntheticShape(f, gap, m);
    var n, n' := |Synthetic(f, gap, m)|, SyntheticCount(gap, m);
    if gap > 0 {
      if n < n' {
        MulMonotone(n + 1, n', m);
      } else if n' < n {
        MulMonotone(n' + 1, n, m);
      }
    }
  }

  /** The synthetic flanks all gaps of `g` call for. */
  function TotalSynthetic(g: seq<int>, m: int): nat
    requires m > 0
    decreases |g|
  {
    if g == [] then 0 else SyntheticCount(g[0], m) + TotalSynthetic(g[1..], m)
  }

  /** No gap between consecutive flanks of `q` exceeds `m`. */
  predicate NoGapExceeds(q: seq<Flank>, m: int)
  {
    forall j :: 0 <= j < |Steps(q)| ==> Steps(q)[j] <= m
  }

  /** The inner loop would not end for some flank of `q`: it would append
      flanks until memory runs out. */
  predicate Hangs(q: seq<Flank>, m: int)
  {
    m <= 0 && !NoGapExceeds(q, m)
  }

  /** The outer `for` loop over a window without its opening Stop: every
      flank but the last is emitted, followed by its synthetic flanks. With
      a positive margin its length is the walked flanks plus
      `ceil(gap / m) - 1` for every gap. */
  function Fill(q: seq<Flank>, m: int): (r: seq<Flank>)
    requires m > 0 || NoGapExceeds(q, m)
    ensures m > 0 && |q| >= 1 ==> |r| == |q| - 1 + TotalSynthetic(Steps(q), m)
    decreases |q|
  {
    if |q| < 2 then []
    else
      StepsTail(q);
      assert Steps(q)[0] == q[1].timestamp - q[0].timestamp;
      SyntheticCountIs(q[0], q[1].timestamp - q[0].timestamp, m);
      [q[0]] + Synthetic(q[0], q[1].timestamp - q[0].timestamp, m) + Fill(q[1..], m)
  }

  /** The flanks the loop emits for each walked flank of `q`: the flank
      itself, then its synthetic flanks. */
  function Runs(q: seq<Flank>, m: int): (runs: seq<seq<Flank>>)
    requires m > 0 || NoGapExceeds(q, m)
    ensures |runs| == if |q| < 2 then 0 else |q| - 1
    ensures forall j :: 0 <= j < |runs| ==>
      runs[j] == [q[j]] + Synthetic(q[j], Steps(q)[j], m)
    decreases |q|
  {
    if |q| < 2 then []
    else
      StepsTail(q);
      var runs := [[q[0]] + Synthetic(q[0], Steps(q)[0], m)] + Runs(q[1..], m);
      forall j | 0 < j < |runs|
        ensures runs[j] == [q[j]] + Synthetic(q[j], Steps(q)[j], m)
      {
        assert q[1..][j - 1] == q[j] && Steps(q[1..])[j - 1] == Steps(q)[j];
      }
      runs
  }

  function Concat(runs: seq<seq<Flank>>): seq<Flank>
    decreases |runs|
  {
    if runs == [] then [] else runs[0] + Concat(runs[1..])
  }

  /** The loop's output is, walked flank after walked flank, that flank
      followed by its synthetic flanks. */
  lemma {:induction false} FillIsRuns(q: seq<Flank>, m: int)
    requires m > 0 || NoGapExceeds(q, m)
    ensures Fill(q, m) == Concat(Runs(q, m))
    decreases |q|
  {
    if |q| >= 2 {
      StepsTail(q);
      FillIsRuns(q[1..], m);
      assert Runs(q, m)[1..] == Runs(q[1..], m);
    }
  }

  /** The flanks of the window, but the closing Stop, all appear in the
      result, in their order. */
  lemma {:induction false} FillKeepsInterior(q: seq<Flank>, m: int)
    requires m > 0 || NoGapExceeds(q, m)
    requires |q| >= 1
    ensures IsSubsequence(q[..|q| - 1], Fill(q, m))
    decreases |q|
  {
    if |q| >= 2 {
      StepsTail(q);
      assert Steps(q)[0] == q[1].timestamp - q[0].timestamp;
      var extra := Synthetic(q[0], q[1].timestamp - q[0].timestamp, m);
      var tail := Fill(q[1..], m);
      FillKeepsInterior(q[1..], m);
      assert q[1..][..|q[1..]| - 1] == q[..|q| - 1][1..];
      SubsequenceOfLonger(q[..|q| - 1][1..], extra, tail);
      assert ([q[0]] + extra + tail)[1..] == extra + tail;
    } else {
      assert q[..|q| - 1] == [];
    }
  }

  /** A type that no flank of the window but the closing one has does not
      appear in the result: synthetic flanks copy the type before them. */
  lemma {:induction false} FillAvoidsKind(q: seq<Flank>, m: int, t: FlankType)
    requires m > 0 || NoGapExceeds(q, m)
    requires forall i :: 0 <= i < |q| - 1 ==> q[i].kind != t
    ensures forall j :: 0 <= j < |Fill(q, m)| ==> Fill(q, m)[j].kind != t
    decreases |q|
  {
    if |q| >= 2 {
      StepsTail(q);
      assert Steps(q)[0] == q[1].timestamp - q[0].timestamp;
      FillAvoidsKind(q[1..], m, t);
    }
  }

  /** The minimal inter-flank gap of the window after its opening Stop and
      the margin derived from it. */
  function Margin(w: seq<Flank>): (m: int)
    requires |w| >= 1
    ensures m > 0 <==> |Steps(w[1..])| > 0 && forall j :: 0 <= j < |Steps(w[1..])| ==> Steps(w[1..])[j] > 0
    ensures forall j :: 0 <= j < |Steps(w[1..])| && Steps(w[1..])[j] >= 0 ==> m <= 2 * Steps(w[1..])[j]
    ensures |Steps(w[1..])| == 0 ==> m == 0
    ensures |Steps(w[1..])| > 0 ==>
      (exists j :: 0 <= j < |Steps(w[1..])| &&
        (forall i :: 0 <= i < |Steps(w[1..])| ==> Steps(w[1..])[j] <= Steps(w[1..])[i]) &&
        m as real <= 1.5 * Steps(w[1..])[j] as real + 0.5 < m as real + 1.0)
  {
    var g := Steps(w[1..]);
    var minGap := MinOrZero(g);
    MarginGapRounds(minGap);
    MarginGap(minGap)
  }

  /** The interpolated flanks hold no Stop: the window has none between its
      two Stop flanks, and synthetic flanks copy the type before them. */
  lemma FillHasNoStop(w: seq<Flank>, m: int)
    requires |w| >= 2 && (m > 0 || NoGapExceeds(w[1..], m))
    requires forall i :: 0 < i < |w| - 1 ==> w[i].kind != Stop
    ensures forall j :: 0 <= j < |Fill(w[1..], m)| ==> Fill(w[1..], m)[j].kind != Stop
  {
    var q := w[1..];
    forall i | 0 <= i < |q| - 1
      ensures q[i].kind != Stop
    {
      assert q[i] == w[i + 1];
    }
    FillAvoidsKind(q, m, Stop);
  }

  /** Interpolating a window of in-range flanks yields only Low and High
      flanks. */
  lemma FillIsLowOrHigh(w: seq<Flank>, m: int)
    requires |w| >= 2 && (m > 0 || NoGapExceeds(w[1..], m))
    requires forall i :: 0 < i < |w| - 1 ==> w[i].kind != Stop
    requires forall i :: 0 <= i < |w| ==> w[i].kind != OutOfRange
    ensures forall j :: 0 <= j < |Fill(w[1..], m)| ==>
      Fill(w[1..], m)[j].kind == Low || Fill(w[1..], m)[j].kind == High
  {
    FillHasNoStop(w, m);
    FillAvoidsKind(w[1..], m, OutOfRange);
  }

  /** The window's interior survives interpolation, in order. */
  lemma FillKeepsWindow(w: seq<Flank>, m: int)
    requires |w| >= 2 && (m > 0 || NoGapExceeds(w[1..], m))
    ensures IsSubsequence(w[1..|w| - 1], Fill(w[1..], m))
  {
    var q := w[1..];
    FillKeepsInterior(q, m);
    assert q[..|q| - 1] == w[1..|w| - 1];
  }

  /** `interpolateFlanks`, given at least two Stop flanks (the source calls
      `maxBy(...)!!`, which fails without them). `None` stands for the call
      never returning normally: the inner loop keeps appending flanks until
      memory runs out. */
  function InterpolateFlanks(flanks: seq<Flank>): (r: Option<seq<Flank>>)
    requires |StopIndices(flanks)| >= 2
    ensures r.None? <==> Hangs(Window(flanks)[1..], Margin(Window(flanks)))
    ensures r.Some? ==> r.value == Fill(Window(flanks)[1..], Margin(Window(flanks)))
    ensures r.Some? ==> forall j :: 0 <= j < |r.value| ==> r.value[j].kind != Stop
    ensures r.Some? && (forall i :: 0 <= i < |flanks| ==> flanks[i].kind != OutOfRange) ==>
      forall j :: 0 <= j < |r.value| ==> r.value[j].kind == Low || r.value[j].kind == High
    ensures r.Some? ==> IsSubsequence(Window(flanks)[1..|Window(flanks)| - 1], r.value)
  {
    var w := Window(flanks);
    var q := w[1..];
    var m := Margin(w);
    if Hangs(q, m) then None
    else
      WindowInteriorHasNoStop(flanks);
      FillHasNoStop(w, m);
      FillKeepsWindow(w, m);
      if forall i :: 0 <= i < |flanks| ==> flanks[i].kind != OutOfRange then
        WindowKeepsAbsentKind(flanks, OutOfRange);
        FillIsLowOrHigh(w, m);
        Some(Fill(q, m))
      else
        Some(Fill(q, m))
  }

  /** Timestamps never decrease along `q`. */
  predicate InTimeOrder(q: seq<Flank>)
  {
    forall i, j :: 0 <= i < j < |q| ==> q[i].timestamp <= q[j].timestamp
  }

  /** With flanks in time order, the inner loop fails to end exactly when two
      consecutive flanks share a timestamp (the minimal gap, and with it the
      margin, is 0) while some other gap is positive. */
  lemma HangsIffSharedTimestamp(q: seq<Flank>)
    requires InTimeOrder(q)
    ensures Hangs(q, MarginGap(MinOrZero(Steps(q)))) <==>
      (exists j :: 0 <= j < |Steps(q)| && Steps(q)[j] == 0) &&
      (exists j :: 0 <= j < |Steps(q)| && Steps(q)[j] > 0)
  {
  }

  /** Without a gap above the margin nothing is synthesised: the result is
      the window's interior, unchanged. */
  lemma {:induction false} FillWithoutLongGaps(q: seq<Flank>, m: int)
    requires NoGapExceeds(q, m)
    requires |q| >= 1
    ensures Fill(q, m) == q[..|q| - 1]
    decreases |q|
  {
    if |q| >= 2 {
      StepsTail(q);
      assert Steps(q)[0] == q[1].timestamp - q[0].timestamp;
      FillWithoutLongGaps(q[1..], m);
      assert q[..|q| - 1] == [q[0]] + q[1..][..|q[1..]| - 1];
    }
  }

  lemma WholeWindow(f: seq<Flank>)
    requires f == [Flank(Stop, 0), Flank(Low, 10), Flank(High, 10), Flank(Stop, 20)]
    ensures |StopIndices(f)| >= 2 && Window(f) == f
  {
    assert f[..1][..0] == [];
    assert StopIndices(f[..1]) == [0];
    assert f[..2][..1] == f[..1];
    assert StopIndices(f[..2]) == [0];
    assert f[..3][..2] == f[..2];
    assert StopIndices(f[..3]) == [0];
    assert f[..3] == f[..|f| - 1];
    assert StopIndices(f) == [0, 3];
    assert SelectedPair([0, 3]) == 0;
  }

  /** Two flanks of the window share a timestamp, a later gap is positive:
      `minGap` is 0, `marginGap` is 0 and the inner loop appends flanks
      until memory runs out. */
  lemma InterpolationHangsOnSharedTimestamp()
    ensures var f := [Flank(Stop, 0), Flank(Low, 10), Flank(High, 10), Flank(Stop, 20)];
      |StopIndices(f)| >= 2 && InterpolateFlanks(f).None?
  {
    var f := [Flank(Stop, 0), Flank(Low, 10), Flank(High, 10), Flank(Stop, 20)];
    WholeWindow(f);
    SharedTimestampHangs(f);
  }

  lemma SharedTimestampHangs(w: seq<Flank>)
    requires w == [Flank(Stop, 0), Flank(Low, 10), Flank(High, 10), Flank(Stop, 20)]
    ensures Hangs(w[1..], Margin(w))
  {
    var q := w[1..];
    assert Steps(q) == [0, 10];
    assert MinOrZero([0, 10]) == 0;
    assert Steps(q)[1] > 0;
  }

  /** A gap of 2.4 bit periods against a margin of 1.5 periods yields one
      synthetic flank (the remaining 0.9 periods stop the loop); 3.1
      periods yield two, 1.5 periods none. */
  lemma SyntheticCountExamples(f: Flank)
    ensures |Synthetic(f, 24, 15)| == 1
    ensures |Synthetic(f, 31, 15)| == 2
    ensures |Synthetic(f, 15, 15)| == 0
    ensures |Synthetic(f, 45, 15)| == 2
  {
  }
}
