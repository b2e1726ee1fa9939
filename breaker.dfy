/** The circuit breaker (breaker/breaker.go): a rolling window of counter
    buckets, a recovery bucket, and a three-state machine. The bodies of the
    goroutine loops are modelled as one step method each; the counters that the
    receiving loop keeps in local variables are the fields `pending` and
    `recoveryPending`. */
module Breaker {

  const U32: nat := 0x1_0000_0000

  /** A uint32 counter. */
  type Count = x: nat | x < 0x1_0000_0000

  /** A uint8 event code or rolling-window length. */
  type Byte = x: nat | x < 256

  /** Event codes sent to the breaker. */
  const SUCCEED: Byte := 0
  const FAILED: Byte := 1
  const TIMEOUT: Byte := 2
  const REJECT: Byte := 3

  datatype State = Closed | Open | HalfOpen

  /** The answer of a policy: HOLD, TRUE or FALSE. */
  datatype Verdict = Hold | Yes | No

  /** uint32 addition, wrapping around past 2^32-1. */
  function Add(a: Count, b: Count): Count
  {
    if a + b < U32 then a + b else a + b - U32
  }

  /** A counter bucket. */
  datatype Bucket = Bucket(succeed: Count, failed: Count, timeout: Count, reject: Count)
  {
    /** faileds: the uint32 sum of the three failure counters. */
    function Faileds(): Count
    {
      Add(Add(failed, timeout), reject)
    }

    /** all: the uint32 sum of all four counters. */
    function All(): Count
    {
      Add(Add(Add(succeed, failed), timeout), reject)
    }

    /** The exact number of failed, timed-out and rejected events. */
    function Failures(): nat
    {
      failed + timeout + reject
    }

    /** The exact number of events the bucket holds. */
    function Events(): nat
    {
      succeed + failed + timeout + reject
    }
  }

  /** The bucket after `reset`. */
  const Zero := Bucket(0, 0, 0, 0)

  /** While the counters do not overflow, `all` is the successes plus `faileds`. */
  lemma AllSplits(b: Bucket)
    requires b.Events() < U32
    ensures b.Faileds() == b.Failures()
    ensures b.All() == b.succeed + b.Faileds() == b.Events()
  {
  }

  /** The receiving loop's `switch` on an event code: the matching counter of
      the pending bucket is incremented, an unknown code is ignored. */
  function Tally(b: Bucket, code: Byte): Bucket
  {
    if code == SUCCEED then b.(succeed := Add(b.succeed, 1))
    else if code == FAILED then b.(failed := Add(b.failed, 1))
    else if code == TIMEOUT then b.(timeout := Add(b.timeout, 1))
    else if code == REJECT then b.(reject := Add(b.reject, 1))
    else b
  }

  /** Every known event is counted exactly once, as a success or as a failure;
      an unknown code leaves the bucket as it is. */
  lemma TallyCountsOne(b: Bucket, code: Byte)
    requires b.Events() + 1 < U32
    ensures code > REJECT ==> Tally(b, code) == b
    ensures code <= REJECT ==> Tally(b, code).Events() == b.Events() + 1
    ensures code == SUCCEED ==> Tally(b, code).Failures() == b.Failures()
    ensures SUCCEED < code <= REJECT ==> Tally(b, code).Failures() == b.Failures() + 1
  {
  }

  /** The receive tick: the pending counters are added into a bucket, field by field. */
  function Merge(b: Bucket, p: Bucket): Bucket
  {
    Bucket(Add(b.succeed, p.succeed), Add(b.failed, p.failed), Add(b.timeout, p.timeout), Add(b.reject, p.reject))
  }

  /** While the counters fit, merging loses no event and no failure. */
  lemma MergeAddsUp(b: Bucket, p: Bucket)
    requires b.Events() + p.Events() < U32
    ensures Merge(b, p).Events() == b.Events() + p.Events()
    ensures Merge(b, p).Failures() == b.Failures() + p.Failures()
  {
  }

  /** Merging nothing changes nothing, so an idle receive tick is harmless. */
  lemma MergeZero(b: Bucket)
    ensures Merge(b, Zero) == b
  {
  }

  /** The state changes that changeState performs; every other request is ignored. */
  const Moves: set<(State, State)> := {(Closed, Open), (Open, HalfOpen), (HalfOpen, Open), (HalfOpen, Closed)}

  /** changeState's switch on the current state. */
  function Transition(from: State, request: State): (r: State)
    ensures r != from <==> (from, request) in Moves
    ensures r != from ==> r == request
  {
    match from
    case Closed => if request == Open then Open else from
    case Open => if request == HalfOpen then HalfOpen else from
    case HalfOpen => if request == Open then Open else if request == Closed then Closed else from
  }

  /** The request the updateState step makes, and the state it leads to:
      CLOSED opens when isOpen says TRUE; HALFOPEN closes on TRUE, reopens on
      FALSE and waits on HOLD; OPEN waits for the recovery tick. */
  function Updated(s: State, openVerdict: Verdict, closedVerdict: Verdict): (r: State)
    ensures s == Closed ==> (r == Open <==> openVerdict == Yes) && (r != Open ==> r == Closed)
    ensures s == HalfOpen ==> r == (match closedVerdict case Yes => Closed case No => Open case Hold => HalfOpen)
    ensures s == Open ==> r == Open
  {
    match s
    case Open => s
    case HalfOpen =>
      (match closedVerdict
       case Yes => Transition(s, Closed)
       case No => Transition(s, Open)
       case Hold => s)
    case Closed => if openVerdict == Yes then Transition(s, Open) else s
  }

  /** The window after one metrics tick: every bucket moves one place towards
      the front and the last bucket starts again from zero. */
  function Slid(s: seq<Bucket>): seq<Bucket>
    requires 1 <= |s|
  {
    s[1..] + [Zero]
  }

  /** The window after `k` metrics ticks. */
  function SlidTimes(s: seq<Bucket>, k: nat): (r: seq<Bucket>)
    requires 1 <= |s|
    ensures |r| == |s|
  {
    if k == 0 then s else Slid(SlidTimes(s, k - 1))
  }

  /** After `k` ticks, bucket `i` holds what bucket `i+k` held, and the buckets
      past that are zero: a bucket's counts leave the window after as many
      ticks as the window is long. */
  lemma {:induction false} WindowForgets(s: seq<Bucket>, k: nat)
    requires 1 <= |s|
    ensures forall i :: 0 <= i < |s| ==> SlidTimes(s, k)[i] == if i + k < |s| then s[i + k] else Zero
  {
    if k > 0 {
      WindowForgets(s, k - 1);
    }
  }

  class Breaker {
    const rollingCount: Byte
    const buckets: array<Bucket>
    var recoveryBucket: Bucket
    var state: State
    const isOpen: seq<Bucket> -> Verdict
    const isClosed: Bucket -> Verdict
    /** The receiving loop's pending counters for the window and for recovery. */
    var pending: Bucket
    var recoveryPending: Bucket

    predicate Valid()
      reads this
    {
      buckets.Length == rollingCount
    }

    /** NewBreaker: `rollingCount` zero buckets, CLOSED, with the given policies. */
    constructor (rollingCount: Byte, isOpen: seq<Bucket> -> Verdict, isClosed: Bucket -> Verdict)
      ensures Valid() && fresh(buckets)
      ensures this.rollingCount == rollingCount && this.isOpen == isOpen && this.isClosed == isClosed
      ensures state == Closed && recoveryBucket == Zero && pending == Zero && recoveryPending == Zero
      ensures forall i :: 0 <= i < buckets.Length ==> buckets[i] == Zero
    {
      this.rollingCount := rollingCount;
      buckets := new Bucket[rollingCount](_ => Zero);
      recoveryBucket := Zero;
      state := Closed;
      this.isOpen := isOpen;
      this.isClosed := isClosed;
      pending := Zero;
      recoveryPending := Zero;
    }

    /** Active: whether the breaker is open. */
    predicate Active()
      reads this
    {
      state == Open
    }

    method SetStateClosed()
      modifies this`state
      ensures state == Closed
    {
      state := Closed;
    }

    /** setStateOpen: OPEN, with every bucket of the window reset. */
    method SetStateOpen()
      requires Valid()
      modifies this`state, buckets
      ensures state == Open
      ensures forall i :: 0 <= i < buckets.Length ==> buckets[i] == Zero
    {
      state := Open;
      for i := 0 to rollingCount
        modifies buckets
        invariant forall m :: 0 <= m < i ==> buckets[m] == Zero
      {
        buckets[i] := Zero;
      }
    }

    method SetStateHalfOpen()
      modifies this`state
      ensures state == HalfOpen
    {
      state := HalfOpen;
    }

    /** changeState: follow the transition table; entering OPEN wipes the window. */
    method ChangeState(request: State)
      requires Valid()
      modifies this`state, buckets
      ensures state == Transition(old(state), request)
      ensures state == Open && old(state) != Open ==> forall i :: 0 <= i < buckets.Length ==> buckets[i] == Zero
      ensures !(state == Open && old(state) != Open) ==> buckets[..] == old(buckets[..])
    {
      match state
      case Closed =>
        if request == Open {
          SetStateOpen();
        }
      case Open =>
        if request == HalfOpen {
          SetStateHalfOpen();
        }
      case HalfOpen =>
        if request == Open {
          SetStateOpen();
        }
        if request == Closed {
          SetStateClosed();
        }
    }

    /** The recovery tick: request HALFOPEN, which only an open breaker takes. */
    method Recover()
      requires Valid()
      modifies this`state, buckets
      ensures state == (if old(state) == Open then HalfOpen else old(state))
      ensures !Active()
      ensures buckets[..] == old(buckets[..])
    {
      ChangeState(HalfOpen);
    }

    /** The metrics tick of Start: slide the window by one bucket. */
    method Slide()
      requires Valid() && 1 <= rollingCount
      modifies buckets
      ensures buckets[..] == Slid(old(buckets[..]))
    {
      for i := 0 to rollingCount - 1
        invariant forall m :: 0 <= m < i ==> buckets[m] == old(buckets[m + 1])
        invariant forall m :: i <= m < rollingCount ==> buckets[m] == old(buckets[m])
      {
        buckets[i] := buckets[i + 1];
      }
      buckets[rollingCount - 1] := Zero;
    }

    /** An event arriving at the receiving loop: counted for the window when
        CLOSED, for recovery when HALFOPEN, and dropped when OPEN. */
    method Receive(code: Byte)
      modifies this`pending, this`recoveryPending
      ensures state == Closed ==> pending == Tally(old(pending), code) && recoveryPending == old(recoveryPending)
      ensures state == HalfOpen ==> recoveryPending == Tally(old(recoveryPending), code) && pending == old(pending)
      ensures state == Open ==> pending == old(pending) && recoveryPending == old(recoveryPending)
    {
      match state
      case Open =>
      case HalfOpen =>
        recoveryPending := Tally(recoveryPending, code);
      case Closed =>
        pending := Tally(pending, code);
    }

    /** The receive tick: add the pending counters into the newest bucket and
        into the recovery bucket, and start counting again from zero. */
    method Flush()
      requires Valid() && 1 <= rollingCount
      modifies buckets, this`pending, this`recoveryPending, this`recoveryBucket
      ensures buckets[..] == old(buckets[..])[rollingCount - 1 := Merge(old(buckets[rollingCount - 1]), old(pending))]
      ensures recoveryBucket == Merge(old(recoveryBucket), old(recoveryPending))
      ensures pending == Zero && recoveryPending == Zero
    {
      buckets[rollingCount - 1] := Merge(buckets[rollingCount - 1], pending);
      pending := Zero;
      recoveryBucket := Merge(recoveryBucket, recoveryPending);
      recoveryPending := Zero;
    }

    /** The updateState tick: consult the policy for the current state and
        request the state change it calls for. */
    method UpdateStep()
      requires Valid()
      modifies this`state, buckets
      ensures state == Updated(old(state), isOpen(old(buckets[..])), isClosed(recoveryBucket))
      ensures Active() <==>
        (|| old(Active())
         || (old(state) == Closed && isOpen(old(buckets[..])) == Yes)
         || (old(state) == HalfOpen && isClosed(recoveryBucket) == No))
      ensures state == Open && old(state) != Open ==> forall i :: 0 <= i < buckets.Length ==> buckets[i] == Zero
      ensures !(state == Open && old(state) != Open) ==> buckets[..] == old(buckets[..])
    {
      match state
      case Open =>
      case HalfOpen =>
        var res := isClosed(recoveryBucket);
        match res {
          case Yes =>
            ChangeState(Closed);
          case No =>
            ChangeState(Open);
          case Hold =>
        }
      case Closed =>
        var res := isOpen(buckets[..]);
        if res == Yes {
          ChangeState(Open);
        }
    }
  }
}
