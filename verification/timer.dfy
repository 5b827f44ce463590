/** The interval timer `ElapsedTimer`: a duration and a reference timestamp.
    The wall clock is not modelled; every clock reading is a parameter. */
module Timer {

  /** `duration` is a settable field; `timestamp` is the private reference
      point that `elapsed()` and `reset()` move. */
  datatype ElapsedTimer = ElapsedTimer(duration: int, timestamp: int)

  /** `elapsed()` reads the clock twice: once to compare (`check`) and once
      to store the new reference point (`reset`). */
  datatype Readings = Readings(check: int, reset: int)

  /** A new timer takes its reference point from the clock at construction. */
  function New(duration: int, now: int): (t: ElapsedTimer)
    ensures t.duration == duration
    ensures t.timestamp == now
  {
    ElapsedTimer(duration, now)
  }

  /** `elapsed()`: reports whether at least `duration` passed since the
      reference point, and moves the reference point whatever it reports. */
  function Elapsed(t: ElapsedTimer, clock: Readings): (r: (bool, ElapsedTimer))
    ensures r.0 <==> clock.check - t.timestamp >= t.duration
    ensures r.1.timestamp == clock.reset
    ensures r.1.duration == t.duration
  {
    (clock.check - t.timestamp >= t.duration, t.(timestamp := clock.reset))
  }

  /** `reset()`: moves the reference point to `now` and evaluates nothing. */
  function Reset(t: ElapsedTimer, now: int): (t': ElapsedTimer)
    ensures t'.timestamp == now
    ensures t'.duration == t.duration
  {
    t.(timestamp := now)
  }

  /** The results of calling `elapsed()` once per clock reading in `polls`,
      and the timer left behind. */
  function Poll(t: ElapsedTimer, polls: seq<Readings>): (r: (seq<bool>, ElapsedTimer))
    ensures |r.0| == |polls|
    ensures r.1.duration == t.duration
    ensures |polls| > 0 ==> r.1.timestamp == polls[|polls| - 1].reset
    decreases |polls|
  {
    if polls == [] then ([], t)
    else
      var first := Elapsed(t, polls[0]);
      var rest := Poll(first.1, polls[1..]);
      ([first.0] + rest.0, rest.1)
  }

  /** The time from the reference point in force at poll `k` to that poll's
      comparison reading. */
  function SincePrevious(t: ElapsedTimer, polls: seq<Readings>, k: nat): int
    requires k < |polls|
  {
    polls[k].check - (if k == 0 then t.timestamp else polls[k - 1].reset)
  }

  /** After `reset()` at `now`, the next `elapsed()` depends only on how long
      ago that reset was, not on any earlier reading. */
  lemma ElapsedAfterReset(t: ElapsedTimer, now: int, clock: Readings)
    ensures Elapsed(Reset(t, now), clock).0 <==> clock.check - now >= t.duration
  {
  }

  /** Because every call moves the reference point, a sequence of polls
      reports `true` exactly at the polls that come at least `duration`
      after the previous poll, however long the sequence lasts in total. */
  lemma {:induction false} PollFiresOnlyAfterLongGap(t: ElapsedTimer, polls: seq<Readings>)
    ensures forall k :: 0 <= k < |polls| ==>
      (Poll(t, polls).0[k] <==> SincePrevious(t, polls, k) >= t.duration)
    decreases |polls|
  {
    if polls != [] {
      var first := Elapsed(t, polls[0]);
      PollFiresOnlyAfterLongGap(first.1, polls[1..]);
      forall k | 0 < k < |polls|
        ensures Poll(t, polls).0[k] <==> SincePrevious(t, polls, k) >= t.duration
      {
        assert Poll(t, polls).0[k] == Poll(first.1, polls[1..]).0[k - 1];
        assert SincePrevious(t, polls, k) == SincePrevious(first.1, polls[1..], k - 1);
      }
    }
  }

  /** Polled more often than its duration, the timer never fires, however
      much time passes over the whole sequence. */
  lemma FrequentPollingNeverFires(t: ElapsedTimer, polls: seq<Readings>)
    requires forall k :: 0 <= k < |polls| ==> SincePrevious(t, polls, k) < t.duration
    ensures forall k :: 0 <= k < |polls| ==> !Poll(t, polls).0[k]
  {
    PollFiresOnlyAfterLongGap(t, polls);
  }
}
