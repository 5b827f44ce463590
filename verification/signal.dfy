/** The value types of the decoder: intensity samples and flanks. */
module Signal {

  /** The level a sample is classified as. */
  datatype FlankType = Low | High | Stop | OutOfRange

  /** One intensity observation of a tracked object. */
  datatype Sample = Sample(intensity: real, timestamp: int)

  /** The first sample of a run of one classified level. */
  datatype Flank = Flank(kind: FlankType, timestamp: int)

  /** `a` can be obtained from `b` by deleting elements, keeping the order. */
  predicate IsSubsequence(a: seq<Flank>, b: seq<Flank>)
    decreases |b|
  {
    && |a| <= |b|
    && (|| a == []
        || (a[0] == b[0] && IsSubsequence(a[1..], b[1..]))
        || IsSubsequence(a, b[1..]))
  }

  /** Inserting elements in front of the larger sequence keeps a subsequence. */
  lemma {:induction false} SubsequenceOfLonger(a: seq<Flank>, extra: seq<Flank>, b: seq<Flank>)
    requires IsSubsequence(a, b)
    ensures IsSubsequence(a, extra + b)
    decreases |extra|
  {
    if extra != [] {
      SubsequenceOfLonger(a, extra[1..], b);
      assert (extra + b)[1..] == extra[1..] + b;
      assert IsSubsequence(a, (extra + b)[1..]);
    } else {
      assert extra + b == b;
    }
  }
}
