/** A two-tier timing wheel (timer/timer.go).
    Tier 1 (`t1`) has one slot per pulse; tier 2 (`t2`) has one slot per full
    rotation of tier 1. The cursor `pos` is the tier-1 slot that the next pulse
    fires. A task's `done` channel is modelled by the flag `fired`, which is set
    where the source closes the channel. */
module Timer {

  /** A scheduled delay request. `delay` is the requested offset until the task
      is placed; placement rewrites it to a tier-1 slot index. */
  class Task {
    var delay: nat
    var fired: bool

    /** newTask: an unfired task with the requested delay. */
    constructor (delay: nat)
      ensures this.delay == delay && !fired
    {
      this.delay := delay;
      fired := false;
    }

    /** Done: whether the completion signal has been given. */
    predicate Done()
      reads this
    {
      fired
    }
  }

  /** The slot a queued task occupies. A tier-2 slot also records the tier-1
      slot (`target`) that the task is promoted into. */
  datatype Slot = Near(index: nat) | Far(index: nat, target: nat)

  /** What `addTask` does with a task: queue it in a slot, fire it at once
      (the out-of-capacity fallback), or index tier 2 out of range (a panic). */
  datatype Placement = Placed(at: Slot) | FiredAtOnce | IndexOutOfRange(index: int)

  /** The bound check of `Task`: the largest accepted delay is t1Size*(t2Size+1)-1. */
  predicate Admits(delay: nat, n1: nat, n2: nat)
  {
    delay <= n1 * (n2 + 1) - 1
  }

  /** The tier-1 slot a task is due in, stored in its `delay` on placement. */
  function Rewritten(delay: nat, pos: nat, n1: nat): (r: nat)
    requires 1 <= n1
    ensures r < n1
  {
    (delay + pos) % n1
  }

  /** The tier-2 index as the source computes it, with the divisor t1Size+1. */
  function FarIndex(delay: nat, pos: nat, n1: nat): int
  {
    (delay + pos) / (n1 + 1) - 1
  }

  /** The decision of addTask, as written. */
  function Place(delay: nat, pos: nat, n1: nat, n2: nat): (r: Placement)
    requires 1 <= n1 && pos < n1
    ensures r.Placed? && r.at.Near? <==> delay < n1
    ensures r.Placed? && r.at.Near? ==> r.at.index == Rewritten(delay, pos, n1)
    ensures r.Placed? && r.at.Far? ==>
      n1 <= delay < n1 * (n2 + 1) && r.at.index < n2 && r.at.target == Rewritten(delay, pos, n1)
    ensures r.FiredAtOnce? <==> n1 * (n2 + 1) <= delay
    ensures r.IndexOutOfRange? ==> n1 <= delay < n1 * (n2 + 1) && (r.index < 0 || n2 <= r.index)
  {
    if delay < n1 then
      Placed(Near(Rewritten(delay, pos, n1)))
    else if delay < n1 * (n2 + 1) then
      var idx := FarIndex(delay, pos, n1);
      if 0 <= idx < n2 then Placed(Far(idx, Rewritten(delay, pos, n1))) else IndexOutOfRange(idx)
    else
      FiredAtOnce
  }

  /** Tick.register: the slot with `task` appended after the tasks already in it. */
  function Register(tick: seq<Task>, task: Task): (r: seq<Task>)
    ensures |r| == |tick| + 1 && r[..|tick|] == tick && r[|tick|] == task
  {
    tick + [task]
  }

  /** The cursor after one `next`. */
  function NextPos(n1: nat, pos: nat): (r: nat)
    requires pos < n1
    ensures r < n1
    ensures r == 0 <==> pos == n1 - 1
  {
    if pos == n1 - 1 then 0 else pos + 1
  }

  /** The tier-1 slot a queued task's `delay` names. */
  function Stored(at: Slot): nat
  {
    match at
    case Near(i) => i
    case Far(_, d) => d
  }

  /** Where a task at `at` sits after `shift`: tier-2 slot 0 goes to its target
      tier-1 slot, every other tier-2 slot moves down one. */
  function Promoted(at: Slot): (r: Slot)
    ensures Stored(r) == Stored(at)
  {
    match at
    case Near(i) => Near(i)
    case Far(j, d) => if j == 0 then Near(d) else Far(j - 1, d)
  }

  /** Where a task at `at` sits after one `next` from cursor `pos`. */
  function After(n1: nat, pos: nat, at: Slot): Slot
  {
    if pos == n1 - 1 then Promoted(at) else at
  }

  /** The number of pulses until a task at `at` fires when the cursor is at
      `pos`: 1 means the next pulse fires it. */
  function Due(n1: nat, pos: nat, at: Slot): nat
    requires pos < n1
  {
    match at
    case Near(i) => if pos <= i then i - pos + 1 else i + n1 - pos + 1
    case Far(j, d) => (n1 - pos) + n1 * j + d + 1
  }

  /** A slot inside the wheel. */
  predicate Fits(at: Slot, n1: nat, n2: nat)
  {
    match at
    case Near(i) => i < n1
    case Far(j, d) => j < n2 && d < n1
  }

  /** A task fires on the next pulse exactly when it sits in the cursor's slot. */
  lemma DueIsOne(n1: nat, n2: nat, pos: nat, at: Slot)
    requires pos < n1 && Fits(at, n1, n2)
    ensures Due(n1, pos, at) == 1 <==> at == Near(pos)
  {
  }

  /** One `next` brings every task outside the cursor's slot one pulse closer. */
  lemma DueDecrements(n1: nat, n2: nat, pos: nat, at: Slot)
    requires pos < n1 && Fits(at, n1, n2) && at != Near(pos)
    ensures Fits(After(n1, pos, at), n1, n2)
    ensures Due(n1, NextPos(n1, pos), After(n1, pos, at)) + 1 == Due(n1, pos, at)
  {
    if pos == n1 - 1 && at.Far? && at.index > 0 {
      assert n1 * at.index == n1 * (at.index - 1) + n1;
    }
  }

  /** No slot of the wheel is further away than the wheel's reach from `pos`. */
  lemma DueBound(n1: nat, n2: nat, pos: nat, at: Slot)
    requires pos < n1 && 1 <= n2 && Fits(at, n1, n2)
    ensures Due(n1, pos, at) <= n1 * (n2 + 1) - pos
  {
    assert n1 * (n2 + 1) == n1 * (n2 - 1) + 2 * n1;
    if at.Far? {
      MulMono(n1, at.index, n2 - 1);
    }
  }

  lemma MulMono(n: nat, a: nat, b: nat)
    requires a <= b
    ensures n * a <= n * b
  {
    assert n * b == n * a + n * (b - a);
  }

  lemma ModSmall(x: nat, n: nat)
    requires 0 < n && x < 2 * n
    ensures x % n == if x < n then x else x - n
  {
    if x >= n {
      assert (x - n) % n == x % n;
    }
  }

  /** A task placed in tier 1 fires after exactly delay+1 pulses (the pulse that
      fires the cursor's own slot counts as the first). */
  lemma NearPlacementIsTimely(delay: nat, pos: nat, n1: nat)
    requires pos < n1 && delay < n1
    ensures Due(n1, pos, Near(Rewritten(delay, pos, n1))) == delay + 1
  {
    ModSmall(delay + pos, n1);
  }

  /** The fallback branch of addTask is unreachable for a delay that `Task` admits. */
  lemma AdmittedNeverFallsBack(delay: nat, pos: nat, n1: nat, n2: nat)
    requires 1 <= n1 && pos < n1 && Admits(delay, n1, n2)
    ensures !Place(delay, pos, n1, n2).FiredAtOnce?
  {
  }

  /** The tier-2 placement as written fires early: with t1Size 1000 and cursor 0,
      delay 2000 goes to tier-2 slot 0 and fires after 1001 pulses, not 2001. */
  lemma QuirkFiresEarly()
    ensures Place(2000, 0, 1000, 59) == Placed(Far(0, 0))
    ensures Due(1000, 0, Far(0, 0)) == 1001
  {
  }

  /** Delay 1000 at cursor 0 gives tier-2 index 1000/1001-1 = -1, which wraps
      around as an unsigned value and indexes out of range. */
  lemma QuirkUnderflows()
    ensures Admits(1000, 1000, 59)
    ensures Place(1000, 0, 1000, 59) == IndexOutOfRange(-1)
  {
  }

  /** Delay 59999 is admitted, but at cursor 999 its tier-2 index is 59, one past
      the last slot of a 59-slot tier. */
  lemma QuirkIndexesPastEnd()
    ensures Admits(59999, 1000, 59)
    ensures Place(59999, 999, 1000, 59) == IndexOutOfRange(59)
  {
  }

  /** How many pulses early the as-written tier-2 placement fires: t1Size
      times the rotations between the true one, (delay+pos)/t1Size, and the one
      that the divisor t1Size+1 computes. */
  function Lateness(delay: nat, pos: nat, n1: nat): (r: int)
    requires 1 <= n1
    ensures 0 <= r
  {
    DivAntitone(delay + pos, n1);
    MulMono(n1, (delay + pos) / (n1 + 1), (delay + pos) / n1);
    n1 * ((delay + pos) / n1 - (delay + pos) / (n1 + 1))
  }

  lemma DivAntitone(x: nat, n: nat)
    requires 1 <= n
    ensures x / (n + 1) <= x / n
  {
    var a, b := x / (n + 1), x / n;
    assert (n + 1) * a <= x && x < n * (b + 1);
    assert n * a <= (n + 1) * a;
    if a > b {
      MulMono(n, b + 1, a);
      assert false;
    }
  }

  lemma FarDueArithmetic(x: nat, pos: nat, n1: nat, q: int, j: int, k: nat)
    requires 1 <= n1 && pos < n1 && pos <= x && x == n1 * q + k && 0 <= j
    ensures (n1 - pos) + n1 * j + k + 1 + n1 * (q - (j + 1)) == x - pos + 1
  {
    assert n1 * (q - (j + 1)) == n1 * q - n1 * j - n1;
  }

  /** The as-written tier-2 placement fires `Lateness` pulses before delay+1. */
  lemma AsWrittenFarDue(delay: nat, pos: nat, n1: nat, n2: nat, j: nat, k: nat)
    requires 1 <= n1 && pos < n1 && Place(delay, pos, n1, n2) == Placed(Far(j, k))
    ensures Due(n1, pos, Far(j, k)) + Lateness(delay, pos, n1) == delay + 1
  {
    var x := delay + pos;
    assert j == x / (n1 + 1) - 1 && k == x % n1;
    FarDueArithmetic(x, pos, n1, x / n1, j, k);
  }

  /** The case of timer_test.go: delay 59999 at cursor 0 goes to tier-2 slot 58
      with tier-1 target 999. */
  lemma AsWrittenTestCase()
    ensures Place(59999, 0, 1000, 59) == Placed(Far(58, 999))
  {
  }

  /** addTask as evidently intended: divide by t1Size, and fall back when the
      delay reaches past the last tier-2 slot as seen from the cursor. */
  function PlaceIntended(delay: nat, pos: nat, n1: nat, n2: nat): (r: Placement)
    requires 1 <= n1 && 1 <= n2 && pos < n1
    ensures r.Placed? ==> Fits(r.at, n1, n2) && Due(n1, pos, r.at) == delay + 1
    ensures !r.IndexOutOfRange?
    ensures r.FiredAtOnce? <==> n1 * (n2 + 1) <= delay + pos
  {
    if delay < n1 then
      NearPlacementIsTimely(delay, pos, n1);
      MulMono(n1, 2, n2 + 1);
      Placed(Near(Rewritten(delay, pos, n1)))
    else if delay + pos < n1 * (n2 + 1) then
      FarPlacementIsTimely(delay, pos, n1, n2);
      Placed(Far((delay + pos) / n1 - 1, Rewritten(delay, pos, n1)))
    else
      FiredAtOnce
  }

  lemma FarPlacementIsTimely(delay: nat, pos: nat, n1: nat, n2: nat)
    requires 1 <= n1 && pos < n1 && n1 <= delay && delay + pos < n1 * (n2 + 1)
    ensures 1 <= (delay + pos) / n1 <= n2
    ensures Due(n1, pos, Far((delay + pos) / n1 - 1, Rewritten(delay, pos, n1))) == delay + 1
  {
    var x := delay + pos;
    var q, r := x / n1, x % n1;
    assert x == n1 * q + r && r < n1;
    if q > n2 {
      MulMono(n1, n2 + 1, q);
    }
    assert n1 * (q - 1) == n1 * q - n1;
  }

  /** An intended placement that falls back is beyond every slot of the wheel:
      no slot fires it after delay+1 pulses. */
  lemma IntendedFallbackIsUnavoidable(delay: nat, pos: nat, n1: nat, n2: nat, at: Slot)
    requires 1 <= n1 && 1 <= n2 && pos < n1 && PlaceIntended(delay, pos, n1, n2).FiredAtOnce?
    requires Fits(at, n1, n2)
    ensures Due(n1, pos, at) < delay + 1
  {
    DueBound(n1, n2, pos, at);
  }

  /** The tasks of `s` whose stored tier-1 slot is `d`, in order: the tasks that
      `shift` moves from tier-2 slot 0 into tier-1 slot `d`. */
  ghost function Promotes(s: seq<Task>, home: map<Task, Slot>, d: nat): seq<Task>
  {
    if s == [] then []
    else
      var last := s[|s| - 1];
      Promotes(s[..|s| - 1], home, d) + (if last in home && Stored(home[last]) == d then [last] else [])
  }

  /** No task occurs twice. */
  ghost predicate Distinct(s: seq<Task>)
  {
    forall a, b :: 0 <= a < b < |s| ==> s[a] != s[b]
  }

  lemma {:induction false} PromotesMember(s: seq<Task>, home: map<Task, Slot>, d: nat, x: Task)
    ensures x in Promotes(s, home, d) <==> x in s && x in home && Stored(home[x]) == d
  {
    if s != [] {
      PromotesMember(s[..|s| - 1], home, d, x);
      assert s == s[..|s| - 1] + [s[|s| - 1]];
    }
  }

  lemma {:induction false} PromotesDistinct(s: seq<Task>, home: map<Task, Slot>, d: nat)
    requires Distinct(s)
    ensures Distinct(Promotes(s, home, d))
  {
    if s != [] {
      var init, last := s[..|s| - 1], s[|s| - 1];
      PromotesDistinct(init, home, d);
      PromotesMember(init, home, d, last);
    }
  }

  lemma DistinctAppend(a: seq<Task>, b: seq<Task>)
    requires Distinct(a) && Distinct(b)
    requires forall x :: x in a ==> x !in b
    ensures Distinct(a + b)
  {
    forall p, q | 0 <= p < q < |a + b|
      ensures (a + b)[p] != (a + b)[q]
    {
      if p < |a| && |a| <= q {
        assert (a + b)[p] in a && (a + b)[q] in b;
      }
    }
  }

  predicate InSlot(t: Task, at: Slot, s1: seq<seq<Task>>, s2: seq<seq<Task>>)
  {
    match at
    case Near(i) => i < |s1| && t in s1[i]
    case Far(j, _) => j < |s2| && t in s2[j]
  }

  /** The shape of the wheel: sizes and cursor range; every task in tier-1 slot
      `i` is mapped to Near(i) and every task in tier-2 slot `j` to a Far(j, _),
      so no task is queued in two slots; no slot repeats a task; every mapped
      task is in the slot it is mapped to, and that slot is inside the wheel. */
  ghost predicate Wheel(n1: nat, n2: nat, pos: nat, s1: seq<seq<Task>>, s2: seq<seq<Task>>, home: map<Task, Slot>)
  {
    && 1 <= n1 && 1 <= n2 && |s1| == n1 && |s2| == n2 && pos < n1
    && (forall i, k :: 0 <= i < |s1| && 0 <= k < |s1[i]| ==> s1[i][k] in home && home[s1[i][k]] == Near(i))
    && (forall j, k :: 0 <= j < |s2| && 0 <= k < |s2[j]| ==> s2[j][k] in home && home[s2[j][k]].Far? && home[s2[j][k]].index == j)
    && (forall i :: 0 <= i < |s1| ==> Distinct(s1[i]))
    && (forall j :: 0 <= j < |s2| ==> Distinct(s2[j]))
    && (forall t :: t in home ==> Fits(home[t], n1, n2) && InSlot(t, home[t], s1, s2))
  }

  /** Every queued task is unfired and its `delay` names the tier-1 slot it is due in. */
  ghost predicate TasksAgree(home: map<Task, Slot>)
    reads home.Keys
  {
    forall t :: t in home ==> !t.fired && t.delay == Stored(home[t])
  }

  /** Every slot's tasks after `shift`. */
  ghost function PromoteAll(home: map<Task, Slot>): map<Task, Slot>
  {
    map t | t in home :: Promoted(home[t])
  }

  /** The queued tasks after the cursor's slot fired. */
  ghost function Unfired(home: map<Task, Slot>, pos: nat): map<Task, Slot>
  {
    map t | t in home && home[t] != Near(pos) :: home[t]
  }

  /** Every queued task's slot after one `next` from cursor `pos`. */
  ghost function AdvanceAll(n1: nat, pos: nat, home: map<Task, Slot>): map<Task, Slot>
  {
    map t | t in home :: After(n1, pos, home[t])
  }

  /** Only tasks mapped to a tier-2 slot count in a promotion, so dropping the
      fired tier-1 tasks from the map does not change it. */
  lemma {:induction false} PromotesUnfired(s: seq<Task>, home: map<Task, Slot>, pos: nat, d: nat)
    requires forall m :: 0 <= m < |s| ==> s[m] in home && home[s[m]].Far?
    ensures Promotes(s, Unfired(home, pos), d) == Promotes(s, home, d)
  {
    if s != [] {
      PromotesUnfired(s[..|s| - 1], home, pos, d);
    }
  }

  /** `shift` keeps the shape: tier-2 slot 0 is spread over tier 1 by target,
      tier 2 slides down one and gains an empty last slot. */
  lemma ShiftKeepsWheel(n1: nat, n2: nat, pos: nat, pos': nat, s1: seq<seq<Task>>, s2: seq<seq<Task>>,
                        home: map<Task, Slot>, s1': seq<seq<Task>>, s2': seq<seq<Task>>)
    requires Wheel(n1, n2, pos, s1, s2, home) && pos' < n1
    requires |s1'| == n1 && forall i :: 0 <= i < n1 ==> s1'[i] == s1[i] + Promotes(s2[0], home, i)
    requires s2' == s2[1..] + [[]]
    ensures Wheel(n1, n2, pos', s1', s2', PromoteAll(home))
  {
    var home' := PromoteAll(home);
    forall i, k | 0 <= i < |s1'| && 0 <= k < |s1'[i]|
      ensures s1'[i][k] in home' && home'[s1'[i][k]] == Near(i)
    {
      if k >= |s1[i]| {
        var x := s1'[i][k];
        assert x == Promotes(s2[0], home, i)[k - |s1[i]|];
        PromotesMember(s2[0], home, i, x);
        var m :| 0 <= m < |s2[0]| && s2[0][m] == x;
        assert home[s2[0][m]].index == 0;
      } else {
        assert s1'[i][k] == s1[i][k];
      }
    }
    forall j, k | 0 <= j < |s2'| && 0 <= k < |s2'[j]|
      ensures s2'[j][k] in home' && home'[s2'[j][k]].Far? && home'[s2'[j][k]].index == j
    {
      assert s2'[j][k] == s2[j + 1][k];
    }
    forall i | 0 <= i < |s1'|
      ensures Distinct(s1'[i])
    {
      PromotesDistinct(s2[0], home, i);
      forall x | x in s1[i]
        ensures x !in Promotes(s2[0], home, i)
      {
        var k :| 0 <= k < |s1[i]| && s1[i][k] == x;
        assert home[x] == Near(i);
        assert forall m :: 0 <= m < |s2[0]| ==> home[s2[0][m]].Far?;
        PromotesMember(s2[0], home, i, x);
      }
      DistinctAppend(s1[i], Promotes(s2[0], home, i));
    }
    forall j | 0 <= j < |s2'|
      ensures Distinct(s2'[j])
    {
      if j < n2 - 1 {
        assert s2'[j] == s2[j + 1];
      }
    }
    forall t | t in home'
      ensures Fits(home'[t], n1, n2) && InSlot(t, home'[t], s1', s2')
    {
      match home[t]
      case Near(i) =>
        assert t in s1'[i];
      case Far(j, d) =>
        if j == 0 {
          PromotesMember(s2[0], home, d, t);
          assert t in s1'[d];
        } else {
          assert s2'[j - 1] == s2[j];
        }
    }
  }

  /** Emptying the cursor's slot and dropping its tasks from the map keeps the shape. */
  lemma FireKeepsWheel(n1: nat, n2: nat, pos: nat, s1: seq<seq<Task>>, s2: seq<seq<Task>>, home: map<Task, Slot>)
    requires Wheel(n1, n2, pos, s1, s2, home)
    ensures Wheel(n1, n2, pos, s1[pos := []], s2, Unfired(home, pos))
  {
    var s1' := s1[pos := []];
    forall t | t in Unfired(home, pos)
      ensures InSlot(t, home[t], s1', s2)
    {
      if home[t].Near? {
        assert s1'[home[t].index] == s1[home[t].index];
      }
    }
  }

  /** Appending a new task to the slot it is mapped to keeps the shape. */
  lemma AddKeepsWheel(n1: nat, n2: nat, pos: nat, s1: seq<seq<Task>>, s2: seq<seq<Task>>, home: map<Task, Slot>,
                      task: Task, at: Slot)
    requires Wheel(n1, n2, pos, s1, s2, home) && task !in home && Fits(at, n1, n2)
    ensures at.Near? ==> Wheel(n1, n2, pos, s1[at.index := s1[at.index] + [task]], s2, home[task := at])
    ensures at.Far? ==> Wheel(n1, n2, pos, s1, s2[at.index := s2[at.index] + [task]], home[task := at])
  {
    var home' := home[task := at];
    if at.Near? {
      var s1' := s1[at.index := s1[at.index] + [task]];
      assert forall k :: 0 <= k < |s1[at.index]| ==> s1[at.index][k] != task;
      forall t | t in home'
        ensures InSlot(t, home'[t], s1', s2)
      {
        if t != task && home[t].Near? {
          assert s1[home[t].index] <= s1'[home[t].index];
        }
      }
    } else {
      var s2' := s2[at.index := s2[at.index] + [task]];
      assert forall k :: 0 <= k < |s2[at.index]| ==> s2[at.index][k] != task;
      forall t | t in home'
        ensures InSlot(t, home'[t], s1, s2')
      {
        if t != task && home[t].Far? {
          assert s2[home[t].index] <= s2'[home[t].index];
        }
      }
    }
  }

  class Timer {
    const t1Size: nat
    const t2Size: nat
    const t1: array<seq<Task>>
    const t2: array<seq<Task>>
    var pos: nat
    /** The slot each queued task occupies. */
    ghost var Home: map<Task, Slot>

    ghost predicate Valid()
      reads this, t1, t2, Home.Keys
    {
      && t1 != t2 && t1.Length == t1Size && t2.Length == t2Size
      && Wheel(t1Size, t2Size, pos, t1[..], t2[..], Home)
      && TasksAgree(Home)
    }

    /** NewTimer: every slot empty, cursor at 0. */
    constructor (t1Size: nat, t2Size: nat)
      requires 1 <= t1Size && 1 <= t2Size
      ensures Valid() && fresh(t1) && fresh(t2)
      ensures this.t1Size == t1Size && this.t2Size == t2Size && pos == 0 && Home == map[]
      ensures forall i :: 0 <= i < t1.Length ==> t1[i] == []
      ensures forall j :: 0 <= j < t2.Length ==> t2[j] == []
    {
      this.t1Size := t1Size;
      this.t2Size := t2Size;
      t1 := new seq<Task>[t1Size];
      t2 := new seq<Task>[t2Size];
      pos := 0;
      Home := map[];
      new;
      for i := 0 to t1Size
        modifies t1
        invariant forall m :: 0 <= m < i ==> t1[m] == []
      {
        t1[i] := [];
      }
      for j := 0 to t2Size
        modifies t2
        invariant forall m :: 0 <= m < j ==> t2[m] == []
      {
        t2[j] := [];
      }
    }

    /** addTask, with the corrected tier-2 placement: a task placed in the
        wheel fires after exactly delay+1 pulses; one the wheel cannot hold
        from the current cursor fires at once. */
    method AddTask(task: Task) returns (outcome: Placement)
      requires Valid() && task !in Home && !task.fired
      modifies t1, t2, this`Home, task
      ensures Valid()
      ensures outcome == PlaceIntended(old(task.delay), pos, t1Size, t2Size)
      ensures outcome.Placed? ==>
        && !task.fired && Home == old(Home)[task := outcome.at]
        && task.delay == Stored(outcome.at)
        && Due(t1Size, pos, outcome.at) == old(task.delay) + 1
      ensures outcome.Placed? && outcome.at.Near? ==>
        && t1[..] == old(t1[..])[outcome.at.index := old(t1[outcome.at.index]) + [task]]
        && t2[..] == old(t2[..])
      ensures outcome.Placed? && outcome.at.Far? ==>
        && t2[..] == old(t2[..])[outcome.at.index := old(t2[outcome.at.index]) + [task]]
        && t1[..] == old(t1[..])
      ensures outcome.FiredAtOnce? ==>
        task.fired && task.delay == old(task.delay) && Home == old(Home) && t1[..] == old(t1[..]) && t2[..] == old(t2[..])
    {
      outcome := PlaceIntended(task.delay, pos, t1Size, t2Size);
      if task.delay < t1Size {
        var s := Rewritten(task.delay, pos, t1Size);
        AddKeepsWheel(t1Size, t2Size, pos, t1[..], t2[..], Home, task, Near(s));
        t1[s] := Register(t1[s], task);
        task.delay := s;
        Home := Home[task := Near(s)];
        return;
      }
      if task.delay + pos < t1Size * (t2Size + 1) {
        var idx := (task.delay + pos) / t1Size - 1;
        task.delay := Rewritten(task.delay, pos, t1Size);
        AddKeepsWheel(t1Size, t2Size, pos, t1[..], t2[..], Home, task, Far(idx, task.delay));
        t2[idx] := Register(t2[idx], task);
        Home := Home[task := Far(idx, task.delay)];
        return;
      }
      task.fired := true;
    }

    /** addTask as written: the tier-2 index divides by t1Size+1 and may fall
        outside the tier, where the source panics after rewriting the delay;
        the model then leaves the wheel as it was. */
    method AddTaskAsWritten(task: Task) returns (outcome: Placement)
      requires Valid() && task !in Home && !task.fired
      modifies t1, t2, this`Home, task
      ensures Valid()
      ensures outcome == Place(old(task.delay), pos, t1Size, t2Size)
      ensures outcome.Placed? ==> !task.fired && Home == old(Home)[task := outcome.at]
      ensures outcome.Placed? && outcome.at.Near? ==>
        && t1[..] == old(t1[..])[outcome.at.index := old(t1[outcome.at.index]) + [task]]
        && t2[..] == old(t2[..])
        && task.delay == outcome.at.index
        && Due(t1Size, pos, outcome.at) == old(task.delay) + 1
      ensures outcome.Placed? && outcome.at.Far? ==>
        && t2[..] == old(t2[..])[outcome.at.index := old(t2[outcome.at.index]) + [task]]
        && t1[..] == old(t1[..])
        && task.delay == Rewritten(old(task.delay), pos, t1Size)
        && Due(t1Size, pos, outcome.at) + Lateness(old(task.delay), pos, t1Size) == old(task.delay) + 1
      ensures outcome.FiredAtOnce? ==>
        task.fired && task.delay == old(task.delay) && Home == old(Home) && t1[..] == old(t1[..]) && t2[..] == old(t2[..])
      ensures outcome.IndexOutOfRange? ==>
        && !task.fired && task.delay == Rewritten(old(task.delay), pos, t1Size)
        && Home == old(Home) && t1[..] == old(t1[..]) && t2[..] == old(t2[..])
    {
      outcome := Place(task.delay, pos, t1Size, t2Size);
      if task.delay < t1Size {
        var s := Rewritten(task.delay, pos, t1Size);
        NearPlacementIsTimely(task.delay, pos, t1Size);
        AddKeepsWheel(t1Size, t2Size, pos, t1[..], t2[..], Home, task, Near(s));
        t1[s] := Register(t1[s], task);
        task.delay := s;
        Home := Home[task := Near(s)];
        return;
      }
      if task.delay < t1Size * (t2Size + 1) {
        var idx := FarIndex(task.delay, pos, t1Size);
        ghost var d0 := task.delay;
        task.delay := Rewritten(task.delay, pos, t1Size);
        if 0 <= idx < t2Size {
          AsWrittenFarDue(d0, pos, t1Size, t2Size, idx, task.delay);
          AddKeepsWheel(t1Size, t2Size, pos, t1[..], t2[..], Home, task, Far(idx, task.delay));
          t2[idx] := Register(t2[idx], task);
          Home := Home[task := Far(idx, task.delay)];
        }
        return;
      }
      task.fired := true;
    }

    /** Task followed by addTask as written: every admitted delay is queued
        unless its tier-2 index falls outside the tier; none fires at once. */
    method ScheduleAsWritten(delay: nat) returns (task: Task?)
      requires Valid()
      modifies t1, t2, this`Home
      ensures Valid()
      ensures task == null <==> !Admits(delay, t1Size, t2Size)
      ensures task == null ==> Home == old(Home) && t1[..] == old(t1[..]) && t2[..] == old(t2[..])
      ensures task != null ==> fresh(task) && !task.fired
      ensures task != null && Place(delay, pos, t1Size, t2Size).Placed? ==>
        Home == old(Home)[task := Place(delay, pos, t1Size, t2Size).at]
      ensures task != null && Place(delay, pos, t1Size, t2Size).IndexOutOfRange? ==> Home == old(Home)
    {
      if delay > t1Size * (t2Size + 1) - 1 {
        return null;
      }
      task := new Task(delay);
      AdmittedNeverFallsBack(delay, pos, t1Size, t2Size);
      var outcome := AddTaskAsWritten(task);
    }

    /** next: advance the cursor; on wrapping round to 0, shift. */
    method Next()
      requires Valid()
      modifies this`pos, this`Home, t1, t2
      ensures Valid()
      ensures pos == NextPos(t1Size, old(pos))
      ensures Home == AdvanceAll(t1Size, old(pos), old(Home))
      ensures old(pos) < t1Size - 1 ==> t1[..] == old(t1[..]) && t2[..] == old(t2[..])
      ensures old(pos) == t1Size - 1 ==>
        && (forall i :: 0 <= i < t1.Length ==> t1[i] == old(t1[i]) + Promotes(old(t2[0]), old(Home), i))
        && t2[..] == old(t2[1..]) + [[]]
    {
      if pos == t1Size - 1 {
        pos := 0;
        Shift();
        assert Home == AdvanceAll(t1Size, old(pos), old(Home));
      } else {
        pos := pos + 1;
      }
    }

    /** onTicker: give the completion signal to every task of the cursor's
        slot, empty that slot, and advance. A queued task fires exactly when it
        was one pulse away; every other queued task comes one pulse closer and
        keeps its place in the wheel. */
    method OnTicker()
      requires Valid()
      modifies this`pos, this`Home, t1, t2, Home.Keys
      ensures Valid()
      ensures pos == NextPos(t1Size, old(pos))
      ensures forall t :: t in old(Home) ==> t.delay == old(t.delay)
      ensures forall t :: t in old(Home) ==> (t.fired <==> Due(t1Size, old(pos), old(Home)[t]) == 1)
      ensures Home == AdvanceAll(t1Size, old(pos), Unfired(old(Home), old(pos)))
      ensures forall t :: t in Home ==> Due(t1Size, pos, Home[t]) + 1 == Due(t1Size, old(pos), old(Home)[t])
      ensures old(pos) < t1Size - 1 ==> t1[..] == old(t1[..])[old(pos) := []] && t2[..] == old(t2[..])
      ensures old(pos) == t1Size - 1 ==>
        && (forall i :: 0 <= i < t1.Length ==>
              t1[i] == old(t1[..])[old(pos) := []][i] + Promotes(old(t2[0]), old(Home), i))
        && t2[..] == old(t2[1..]) + [[]]
    {
      ghost var home0, s2 := Home, t2[..];
      FireSlot();
      Next();
      forall t | t in home0
        ensures t.fired <==> Due(t1Size, old(pos), home0[t]) == 1
      {
        DueIsOne(t1Size, t2Size, old(pos), home0[t]);
      }
      forall t | t in Home
        ensures Due(t1Size, pos, Home[t]) + 1 == Due(t1Size, old(pos), home0[t])
      {
        DueDecrements(t1Size, t2Size, old(pos), home0[t]);
      }
      forall i | 0 <= i < t1Size
        ensures Promotes(s2[0], Unfired(home0, old(pos)), i) == Promotes(s2[0], home0, i)
      {
        PromotesUnfired(s2[0], home0, old(pos), i);
      }
    }

    /** The first half of onTicker: the tasks of the cursor's slot fire and the
        slot is emptied; they leave the wheel. */
    method FireSlot()
      requires Valid()
      modifies t1, this`Home, Home.Keys
      ensures Valid() && pos == old(pos)
      ensures Home == Unfired(old(Home), pos)
      ensures t1[..] == old(t1[..])[pos := []] && t2[..] == old(t2[..])
      ensures forall t :: t in old(Home) ==> t.delay == old(t.delay)
      ensures forall t :: t in old(Home) ==> (t.fired <==> old(Home)[t] == Near(pos))
    {
      ghost var home0, s1 := Home, t1[..];
      var slot := t1[pos];
      assert forall m :: 0 <= m < |slot| ==> s1[pos][m] in home0 && home0[slot[m]] == Near(pos);
      FireAll(slot);
      assert forall t :: t in home0 && home0[t] != Near(pos) ==> t !in slot;
      t1[pos] := [];
      FireKeepsWheel(t1Size, t2Size, pos, s1, t2[..], home0);
      Home := Unfired(Home, pos);
      forall t | t in home0 && home0[t] == Near(pos)
        ensures t.fired
      {
        assert t in slot;
      }
    }

    /** The loop of onTicker: close every task's channel in turn. No channel is
        closed twice, since the slot holds distinct unfired tasks. */
    method FireAll(slot: seq<Task>)
      requires Distinct(slot) && forall m :: 0 <= m < |slot| ==> !slot[m].fired
      modifies set t | t in slot
      ensures forall m :: 0 <= m < |slot| ==> slot[m].fired && slot[m].delay == old(slot[m].delay)
    {
      for k := 0 to |slot|
        invariant forall m :: 0 <= m < k ==> slot[m].fired
        invariant forall m :: k <= m < |slot| ==> !slot[m].fired
        invariant forall m :: 0 <= m < |slot| ==> slot[m].delay == old(slot[m].delay)
      {
        slot[k].fired := true;
      }
    }

    /** Task: refuse a delay beyond the wheel's capacity; otherwise make an
        unfired task and place it with addTask. */
    method Schedule(delay: nat) returns (task: Task?)
      requires Valid()
      modifies t1, t2, this`Home
      ensures Valid()
      ensures task == null <==> !Admits(delay, t1Size, t2Size)
      ensures task == null ==> Home == old(Home) && t1[..] == old(t1[..]) && t2[..] == old(t2[..])
      ensures task != null ==> fresh(task)
      ensures task != null && PlaceIntended(delay, pos, t1Size, t2Size).Placed? ==>
        && !task.fired && Home == old(Home)[task := PlaceIntended(delay, pos, t1Size, t2Size).at]
        && Due(t1Size, pos, Home[task]) == delay + 1
      ensures task != null && PlaceIntended(delay, pos, t1Size, t2Size).FiredAtOnce? ==>
        task.fired && Home == old(Home)
    {
      if delay > t1Size * (t2Size + 1) - 1 {
        return null;
      }
      task := new Task(delay);
      var outcome := AddTask(task);
    }

    /** shift: promote tier-2 slot 0 into tier 1 by stored delay, slide tier 2
        down by one and install an empty last slot. */
    method Shift()
      requires Valid()
      modifies t1, t2, this`Home
      ensures Valid()
      ensures forall i :: 0 <= i < t1.Length ==> t1[i] == old(t1[i]) + Promotes(old(t2[0]), old(Home), i)
      ensures t2[..] == old(t2[1..]) + [[]]
      ensures Home == PromoteAll(old(Home))
    {
      ghost var s1, s2 := t1[..], t2[..];
      assert forall m :: 0 <= m < |t2[0]| ==> t2[..][0][m] in Home;
      PromoteHead();
      SlideFar();
      ShiftKeepsWheel(t1Size, t2Size, pos, pos, s1, s2, Home, t1[..], t2[..]);
      Home := PromoteAll(Home);
    }

    /** The first loop of shift: every task of tier-2 slot 0 is registered in the
        tier-1 slot its delay names, in order. */
    method PromoteHead()
      requires t1 != t2 && t1.Length == t1Size && t2.Length == t2Size && 1 <= t2Size
      requires forall m :: 0 <= m < |t2[0]| ==> t2[0][m] in Home && t2[0][m].delay == Stored(Home[t2[0][m]]) < t1Size
      modifies t1
      ensures forall i :: 0 <= i < t1.Length ==> t1[i] == old(t1[i]) + Promotes(t2[0], Home, i)
    {
      var moving := t2[0];
      for k := 0 to |moving|
        invariant forall i :: 0 <= i < t1.Length ==> t1[i] == old(t1[i]) + Promotes(moving[..k], Home, i)
      {
        var task := moving[k];
        t1[task.delay] := Register(t1[task.delay], task);
        assert moving[..k + 1][..k] == moving[..k];
      }
      assert moving[..|moving|] == moving;
    }

    /** The second loop of shift: tier-2 slot i takes slot i+1, and the last slot
        becomes empty. */
    method SlideFar()
      requires t2.Length == t2Size && 1 <= t2Size
      modifies t2
      ensures t2[..] == old(t2[1..]) + [[]]
    {
      for i := 0 to t2Size - 1
        invariant forall m :: 0 <= m < i ==> t2[m] == old(t2[m + 1])
        invariant forall m :: i <= m < t2.Length ==> t2[m] == old(t2[m])
      {
        t2[i] := t2[i + 1];
      }
      t2[t2Size - 1] := [];
    }
  }
}
