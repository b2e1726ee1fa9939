/** The default breaker policies (breaker/default.go): IsOpen decides on the
    rolling window whether a closed breaker opens, IsClosed decides on the
    recovery bucket whether a half-open breaker closes or reopens.

    IsOpen's loop keeps uint32 accumulators. Reduction modulo 2^32 commutes
    with addition and doubling, so the model accumulates exact naturals and
    reduces them once, after the loop (`Wrap`). */
module BreakerPolicy {
  import opened Breaker

  /** Exact accumulators for the four counters. */
  datatype Sums = Sums(succeed: nat, failed: nat, timeout: nat, reject: nat)

  /** The accumulators as the uint32 values the loop ends with. */
  function Wrap(t: Sums): Bucket
  {
    Bucket(t.succeed % U32, t.failed % U32, t.timeout % U32, t.reject % U32)
  }

  /** Counters below 2^32 are not changed by the reduction. */
  lemma WrapExact(t: Sums)
    requires t.succeed < U32 && t.failed < U32 && t.timeout < U32 && t.reject < U32
    ensures Wrap(t) == Bucket(t.succeed, t.failed, t.timeout, t.reject)
  {
  }

  /** IsOpen's loop, as written: `succeed` is a running sum, but each failure
      counter is added to itself before the bucket's count is added, so it
      doubles on every later bucket. Against the plain sums of `Summed`, the
      successes agree and no failure counter is ever undercounted. */
  function Accumulated(s: seq<Bucket>): (r: Sums)
    ensures r.succeed == Summed(s).succeed
    ensures Summed(s).failed <= r.failed && Summed(s).timeout <= r.timeout && Summed(s).reject <= r.reject
  {
    if s == [] then Sums(0, 0, 0, 0)
    else
      var a, b := Accumulated(s[..|s| - 1]), s[|s| - 1];
      Sums(a.succeed + b.succeed, 2 * a.failed + b.failed, 2 * a.timeout + b.timeout, 2 * a.reject + b.reject)
  }

  /** IsOpen's decision on the aggregated counters: HOLD without failures, TRUE
      when the failures are more than half of successes plus failures (all
      uint32 sums). The source's float64 ratio test is replaced by the exact
      integer test, with which it agrees on uint32 operands. */
  function Judge(acc: Bucket): (r: Verdict)
    ensures r != No
    ensures r == Yes ==> acc.Faileds() != 0
  {
    var allFailed := acc.Faileds();
    if allFailed == 0 then Hold
    else if 2 * allFailed > Add(acc.succeed, allFailed) then Yes
    else Hold
  }

  /** On counters that do not wrap, Judge opens exactly on a strict majority of
      failures and holds without failures. */
  lemma JudgeOnExactCounts(acc: Bucket)
    requires acc.Events() < U32
    ensures Judge(acc) == Yes <==> 2 * acc.Failures() > acc.Events()
    ensures acc.Failures() == 0 ==> Judge(acc) == Hold
  {
    AllSplits(acc);
  }

  /** IsOpen, as written. */
  function IsOpen(buckets: seq<Bucket>): (r: Verdict)
    ensures r != No
  {
    Judge(Wrap(Accumulated(buckets)))
  }

  /** A window without failures never opens the breaker, whatever its successes. */
  lemma {:induction false} QuietWindowHolds(s: seq<Bucket>)
    requires forall i :: 0 <= i < |s| ==> s[i].Failures() == 0
    ensures Accumulated(s).failed == Accumulated(s).timeout == Accumulated(s).reject == 0
    ensures IsOpen(s) == Hold
  {
    if s != [] {
      QuietWindowHolds(s[..|s| - 1]);
    }
  }

  /** On a one-bucket window the aggregate is the bucket itself, and IsOpen
      opens exactly when failures are a strict majority of its events. */
  lemma IsOpenOnOneBucket(b: Bucket)
    requires b.Events() < U32
    ensures Wrap(Accumulated([b])) == b
    ensures IsOpen([b]) == Yes <==> 2 * b.Failures() > b.Events()
  {
    assert [b][..0] == [];
    AllSplits(b);
  }

  /** The doubling weighs older buckets more: two buckets of one success and one
      failure each open the breaker, although half of the events succeeded. */
  lemma DoublingOpensEarly()
    ensures IsOpen([Bucket(1, 1, 0, 0), Bucket(1, 1, 0, 0)]) == Yes
    ensures IsOpenIntended([Bucket(1, 1, 0, 0), Bucket(1, 1, 0, 0)]) == Hold
  {
    var b := Bucket(1, 1, 0, 0);
    var s := [b, b];
    assert s[..1] == [b] && [b][..0] == [];
    assert Accumulated([b]) == Sums(1, 1, 0, 0);
    assert Accumulated(s) == Sums(2, 3, 0, 0);
    assert Wrap(Sums(2, 3, 0, 0)) == Bucket(2, 3, 0, 0);
    assert Summed([b]) == Sums(1, 1, 0, 0);
    assert Summed(s) == Sums(2, 2, 0, 0);
    assert Wrap(Sums(2, 2, 0, 0)) == Bucket(2, 2, 0, 0);
  }

  /** The exact number of events of a window. */
  function Total(s: seq<Bucket>): nat
  {
    if s == [] then 0 else Total(s[..|s| - 1]) + s[|s| - 1].Events()
  }

  /** The exact number of failed, timed-out and rejected events of a window. */
  function Failures(s: seq<Bucket>): nat
  {
    if s == [] then 0 else Failures(s[..|s| - 1]) + s[|s| - 1].Failures()
  }

  /** The evidently intended loop: every counter is a plain running sum. */
  function Summed(s: seq<Bucket>): Sums
  {
    if s == [] then Sums(0, 0, 0, 0)
    else
      var a, b := Summed(s[..|s| - 1]), s[|s| - 1];
      Sums(a.succeed + b.succeed, a.failed + b.failed, a.timeout + b.timeout, a.reject + b.reject)
  }

  /** The plain running sums count every event of the window once. */
  lemma {:induction false} SummedCountsEvents(s: seq<Bucket>)
    ensures Summed(s).failed + Summed(s).timeout + Summed(s).reject == Failures(s)
    ensures Summed(s).succeed + Failures(s) == Total(s)
  {
    if s != [] {
      SummedCountsEvents(s[..|s| - 1]);
    }
  }

  /** IsOpen as evidently intended. */
  function IsOpenIntended(buckets: seq<Bucket>): (r: Verdict)
    ensures r != No
  {
    Judge(Wrap(Summed(buckets)))
  }

  /** The intended IsOpen opens exactly when the window's failures are a strict
      majority of its events, and holds on a window without failures. */
  lemma IntendedOpensOnMajority(buckets: seq<Bucket>)
    requires Total(buckets) < U32
    ensures IsOpenIntended(buckets) == Yes <==> 2 * Failures(buckets) > Total(buckets)
    ensures Failures(buckets) == 0 ==> IsOpenIntended(buckets) == Hold
  {
    var t := Summed(buckets);
    SummedCountsEvents(buckets);
    var w := Bucket(t.succeed, t.failed, t.timeout, t.reject);
    WrapExact(t);
    assert w.Events() == Total(buckets) && w.Failures() == Failures(buckets);
    JudgeOnExactCounts(w);
  }

  /** IsClosed: FALSE on more than two failures, HOLD below ten events, TRUE otherwise. */
  function IsClosed(recoveryBucket: Bucket): Verdict
  {
    if recoveryBucket.Faileds() > 2 then No
    else if recoveryBucket.All() < 10 then Hold
    else Yes
  }

  /** IsClosed's three answers in terms of the bucket's exact counts; closing
      takes at least eight successes. */
  lemma IsClosedVerdicts(b: Bucket)
    requires b.Events() < U32
    ensures IsClosed(b) == No <==> b.Failures() > 2
    ensures IsClosed(b) == Hold <==> b.Failures() <= 2 && b.Events() < 10
    ensures IsClosed(b) == Yes <==> b.Failures() <= 2 && 10 <= b.Events()
    ensures IsClosed(b) == Yes ==> 8 <= b.succeed
  {
    AllSplits(b);
  }

  /** The IsClosed cases of default_test.go. */
  lemma IsClosedExamples()
    ensures IsClosed(Bucket(1, 3, 0, 0)) == No
    ensures IsClosed(Bucket(1, 2, 0, 0)) == Hold
    ensures IsClosed(Bucket(10, 0, 0, 0)) == Yes
  {
    IsClosedVerdicts(Bucket(1, 3, 0, 0));
    IsClosedVerdicts(Bucket(1, 2, 0, 0));
    IsClosedVerdicts(Bucket(10, 0, 0, 0));
  }
}
