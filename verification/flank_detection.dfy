/** `detectFlanks`: turns the buffered samples into the list of level changes.
    The classifier `getFlank` is a parameter; the flank it yields for a sample
    carries that sample's timestamp. */
module FlankDetection {
  import opened Signal

  /** The flank `getFlank` yields for one sample. */
  function FlankOf(classify: Sample -> FlankType, s: Sample): Flank
  {
    Flank(classify(s), s.timestamp)
  }

  /** Every sample classified, in sample order. */
  function Classified(samples: seq<Sample>, classify: Sample -> FlankType): (r: seq<Flank>)
    ensures |r| == |samples|
    decreases |samples|
  {
    if samples == [] then []
    else [FlankOf(classify, samples[0])] + Classified(samples[1..], classify)
  }

  /** The loop over `samples[1..]`: `last` is the type of the last emitted
      flank (or of the first sample, when nothing has been emitted). */
  function Follow(rest: seq<Sample>, last: FlankType, classify: Sample -> FlankType): (r: seq<Flank>)
    ensures forall i :: 0 <= i < |r| ==> r[i].kind != OutOfRange
    ensures |r| > 0 ==> r[0].kind != last
    ensures forall i :: 0 < i < |r| ==> r[i].kind != r[i - 1].kind
    ensures IsSubsequence(r, Classified(rest, classify))
    decreases |rest|
  {
    if rest == [] then []
    else
      var f := FlankOf(classify, rest[0]);
      if f.kind == OutOfRange then Follow(rest[1..], last, classify)
      else if f.kind != last then [f] + Follow(rest[1..], f.kind, classify)
      else Follow(rest[1..], f.kind, classify)
  }

  /** `detectFlanks`; the source reads `samples[0]`, so it needs a sample. */
  function DetectFlanks(samples: seq<Sample>, classify: Sample -> FlankType): (r: seq<Flank>)
    requires |samples| > 0
    ensures forall i :: 0 <= i < |r| ==> r[i].kind != OutOfRange
    ensures forall i :: 0 < i < |r| ==> r[i].kind != r[i - 1].kind
    ensures IsSubsequence(r, Classified(samples, classify))
    ensures |r| <= |samples|
  {
    var first := FlankOf(classify, samples[0]);
    assert Classified(samples, classify)[1..] == Classified(samples[1..], classify);
    if first.kind != OutOfRange then [first] + Follow(samples[1..], first.kind, classify)
    else Follow(samples[1..], first.kind, classify)
  }

  // An independent description of the same output: drop the out-of-range
  // classifications, then keep only the first flank of every run.

  function InRange(fs: seq<Flank>): seq<Flank>
    decreases |fs|
  {
    if fs == [] then []
    else (if fs[0].kind != OutOfRange then [fs[0]] else []) + InRange(fs[1..])
  }

  function Dedup(fs: seq<Flank>): seq<Flank>
    decreases |fs|
  {
    if |fs| <= 1 then fs
    else if fs[1].kind == fs[0].kind then Dedup([fs[0]] + fs[2..])
    else [fs[0]] + Dedup(fs[1..])
  }

  lemma {:induction false} DedupAfter(x: Flank, rest: seq<Sample>, classify: Sample -> FlankType)
    requires x.kind != OutOfRange
    ensures Dedup([x] + InRange(Classified(rest, classify))) == [x] + Follow(rest, x.kind, classify)
    decreases |rest|
  {
    if rest != [] {
      var f := FlankOf(classify, rest[0]);
      var c := Classified(rest, classify);
      var t := InRange(Classified(rest[1..], classify));
      assert c[0] == f && c[1..] == Classified(rest[1..], classify);
      if f.kind == OutOfRange {
        assert InRange(c) == t;
        DedupAfter(x, rest[1..], classify);
      } else {
        assert InRange(c) == [f] + t;
        if f.kind == x.kind {
          assert ([x] + ([f] + t))[2..] == t;
          DedupAfter(x, rest[1..], classify);
        } else {
          assert ([x] + ([f] + t))[1..] == [f] + t;
          DedupAfter(f, rest[1..], classify);
        }
      }
    }
  }

  lemma {:induction false} DedupFromOutOfRange(rest: seq<Sample>, classify: Sample -> FlankType)
    ensures Dedup(InRange(Classified(rest, classify))) == Follow(rest, OutOfRange, classify)
    decreases |rest|
  {
    if rest != [] {
      var f := FlankOf(classify, rest[0]);
      var c := Classified(rest, classify);
      var t := InRange(Classified(rest[1..], classify));
      assert c[0] == f && c[1..] == Classified(rest[1..], classify);
      if f.kind == OutOfRange {
        assert InRange(c) == t;
        DedupFromOutOfRange(rest[1..], classify);
      } else {
        assert InRange(c) == [f] + t;
        DedupAfter(f, rest[1..], classify);
      }
    }
  }

  /** `detectFlanks` emits exactly the first flank of every run of equal
      in-range classifications, out-of-range samples neither emitted nor
      breaking a run. */
  lemma DetectFlanksIsRunStarts(samples: seq<Sample>, classify: Sample -> FlankType)
    requires |samples| > 0
    ensures DetectFlanks(samples, classify) == Dedup(InRange(Classified(samples, classify)))
  {
    var first := FlankOf(classify, samples[0]);
    var c := Classified(samples, classify);
    assert c[0] == first && c[1..] == Classified(samples[1..], classify);
    if first.kind != OutOfRange {
      assert InRange(c) == [first] + InRange(Classified(samples[1..], classify));
      DedupAfter(first, samples[1..], classify);
    } else {
      assert InRange(c) == InRange(Classified(samples[1..], classify));
      DedupFromOutOfRange(samples[1..], classify);
    }
  }
}
