# A verified model of the timing wheel, circuit breaker, rate-limiter store and read/close test double

This project models five Go components and proves properties of them in Dafny.

- **Timing wheel (`timer/timer.go`)**, in `timer.dfy`. The wheel has two tiers.
  - Tier 1 has one slot per pulse. Tier 2 has one slot per full rotation of tier 1.
  - `addTask` places a task by its delay relative to the cursor.
  - `onTicker` gives the completion signal to the tasks of the cursor's slot, then advances the cursor.
  - When the cursor wraps round, `shift` promotes tier-2 slot 0 into tier 1 and slides tier 2 down by one.
  - The model is a `Timer` class whose slots are arrays of task sequences. A ghost map `Home` records each queued task's slot.
  - The central result is in `OnTicker`'s contract. `Due` is the number of pulses until a task fires. A pulse fires exactly the queued tasks whose `Due` is 1. Every other queued task's `Due` drops by one, and the wheel's shape invariant is kept.
- **Circuit breaker (`breaker/breaker.go`)**, in `breaker.dfy`. It has a rolling window of uint32 counter buckets, a recovery bucket, and a CLOSED/OPEN/HALFOPEN state machine.
  - The bodies of the goroutine loops are step methods: receive an event, flush the pending counters, update the state, recover, and slide the window.
  - The counters that the receiving loop keeps in local variables are fields of the class.
- **Default policies (`breaker/default.go`)**, in `breaker_policy.dfy`. `IsOpen` decides on the window and `IsClosed` on the recovery bucket.
- **Token-bucket store (`limiter/limiter.go`)**, in `limiter.dfy`. It is a bounded least-recently-used table.
  - The linked list is a sequence whose front is index 0. The element map is a map from key to stored value.
  - The rate limiter is the opaque type parameter `V`.
  - The request and byte key builders are modelled too.
- **Read/close test double (`testkit/io.go`)**, in `testkit_io.dfy`. A panic is a distinct outcome, `Panicked`.

Integer widths are explicit:
- uint32 counters are `Count` (values below 2^32), and their sums wrap round through `Add`;
- uint8 codes are `Byte`;
- Go's unsigned tier-2 index is an `int`, so that its underflow is visible.

## Model

| member | source | states |
|---|---|---|
| Timer.Task.constructor | timer/timer.go:12-17 | A new task is unfired and keeps the requested delay. |
| Timer.Task.Done | timer/timer.go:19-21 | Definition: a task's done channel is closed exactly when the task has fired. Timer.Timer.FireSlot, Timer.Timer.OnTicker and Timer.Timer.AddTask state when that happens. |
| Timer.Rewritten | timer/timer.go:114-115 | The tier-1 slot stored in a placed task is inside tier 1. |
| Timer.Admits | timer/timer.go:148 | Definition of Task's bound check: delays up to t1Size*(t2Size+1)-1 are admitted. Timer.AdmittedNeverFallsBack and Timer.Timer.ScheduleAsWritten state its properties. |
| Timer.FarIndex | timer/timer.go:120 | Definition of the as-written tier-2 index (delay+pos)/(t1Size+1)-1, as a signed value so that its underflow shows. Timer.AsWrittenFarDue, Timer.QuirkUnderflows and Timer.QuirkIndexesPastEnd state its properties. |
| Timer.Place | timer/timer.go:110-128 | addTask's decision as written. A delay below t1Size goes to tier-1 slot (delay+pos) mod t1Size. A delay in [t1Size, t1Size*(t2Size+1)) goes to tier 2, where the index may fall outside the tier. A delay of t1Size*(t2Size+1) or more fires at once. |
| Timer.Register | timer/timer.go:33-35 | register appends the task after the tasks already in the slot. |
| Timer.NextPos | timer/timer.go:89-96 | next keeps the cursor inside tier 1 and wraps to 0 exactly from t1Size-1. |
| Timer.Promoted | timer/timer.go:75-78 | shift moves a task without changing the tier-1 slot its delay names. |
| Timer.DueIsOne | timer/timer.go:98-108 | A queued task is one pulse from firing exactly when it sits in the cursor's tier-1 slot. |
| Timer.DueDecrements | timer/timer.go:89-96 | One next, with its shift on wrap-around, brings every other queued task one pulse closer and keeps it inside the wheel. |
| Timer.DueBound | timer/timer.go:147-150 | No slot of the wheel is more than t1Size*(t2Size+1)-pos pulses away. |
| Timer.NearPlacementIsTimely | timer/timer.go:113-116 | A task placed in tier 1 fires after exactly delay+1 pulses. |
| Timer.AdmittedNeverFallsBack | timer/timer.go:119-127 | As written, a delay that Task admits never reaches addTask's fire-at-once fallback. |
| Timer.QuirkFiresEarly | timer/timer.go:119-123 | With t1Size 1000 and the cursor at 0, delay 2000 lands in tier-2 slot 0 and fires after 1001 pulses. |
| Timer.QuirkUnderflows | timer/timer.go:120 | Delay 1000 at cursor 0 is admitted but gets tier-2 index -1. |
| Timer.QuirkIndexesPastEnd | timer/timer.go:120-122 | Delay 59999 at cursor 999 is admitted but gets index 59 in a 59-slot tier 2. |
| Timer.Lateness | timer/timer.go:119-123 | The as-written tier-2 divisor t1Size+1 never computes a later rotation than the true one, so the as-written placement is never late. |
| Timer.AsWrittenFarDue | timer/timer.go:119-123 | For every input, an as-written tier-2 placement fires exactly Lateness pulses before delay+1. Lateness is t1Size times the gap between (delay+pos)/t1Size and (delay+pos)/(t1Size+1). |
| Timer.AsWrittenTestCase | timer/timer.go:119-123 | Delay 59999 at cursor 0 goes to tier-2 slot 58 with tier-1 target 999. |
| Timer.PlaceIntended | timer/timer.go:119-127 | Corrected placement. Every placed task fits the wheel and fires after exactly delay+1 pulses. No index is out of range. The task fires at once exactly when delay+pos reaches the wheel's capacity. |
| Timer.FarPlacementIsTimely | timer/timer.go:119-123 | With divisor t1Size, the tier-2 index is within the tier and the task fires after delay+1 pulses. |
| Timer.IntendedFallbackIsUnavoidable | timer/timer.go:126-127 | When the corrected placement fires at once, every slot of the wheel would fire the task too early. |
| Timer.PromotesDistinct | timer/timer.go:76-78 | shift's promotion never queues a task twice. |
| Timer.ShiftKeepsWheel | timer/timer.go:75-87 | shift keeps the wheel's shape. Each tier-1 task is in the slot its delay names, each tier-2 task in its tier-2 slot, no task is queued twice, and tier 2 gains an empty last slot. |
| Timer.FireKeepsWheel | timer/timer.go:101-105 | Emptying the cursor's slot and forgetting its tasks keeps the wheel's shape. |
| Timer.AddKeepsWheel | timer/timer.go:110-123 | Appending a new task to its slot keeps the wheel's shape. |
| Timer.Timer.constructor | timer/timer.go:49-73 | NewTimer: every slot is empty, the cursor is 0 and no task is queued. |
| Timer.Timer.AddTask | timer/timer.go:110-128 | addTask with the corrected placement. A placed task is appended to exactly one slot, its delay is rewritten to its tier-1 slot, and it fires after delay+1 pulses. Otherwise the task fires at once and nothing else changes. |
| Timer.Timer.AddTaskAsWritten | timer/timer.go:110-128 | addTask as written. The outcome is Place. A near task is appended to its tier-1 slot and fires after delay+1 pulses. A far task is appended to tier-2 slot (delay+pos)/(t1Size+1)-1 and fires Lateness pulses early. On an out-of-range index only the delay is rewritten, before the source's panic. A delay beyond capacity fires at once. |
| Timer.Timer.ScheduleAsWritten | timer/timer.go:147-157 | Task with addTask as written: nil exactly above t1Size*(t2Size+1)-1; an admitted task is never fired at once and is queued where Place says, unless its index is out of range. |
| Timer.Timer.Next | timer/timer.go:89-96 | next advances the cursor and runs shift exactly on wrap-around, keeping the wheel's shape. |
| Timer.Timer.OnTicker | timer/timer.go:98-108 | The tasks that fire are exactly those whose Due is 1, that is, the ones in the cursor's slot. That slot is emptied, every remaining task's Due drops by one, and no task's delay changes. |
| Timer.Timer.FireSlot | timer/timer.go:99-105 | Every task of the cursor's slot fires, the slot is emptied, and the other slots and tasks are untouched. |
| Timer.Timer.FireAll | timer/timer.go:101-103 | The loop closes every task of the slot once and leaves delays alone. |
| Timer.Timer.Schedule | timer/timer.go:147-157 | Task returns nil exactly for a delay above t1Size*(t2Size+1)-1, and then nothing is queued. Otherwise the new task is placed and fires after delay+1 pulses, or fires at once. |
| Timer.Timer.Shift | timer/timer.go:75-87 | Each tier-1 slot gains the tier-2 slot-0 tasks whose delay names it, in order. Tier 2 slides down by one with an empty last slot. Every task's slot is promoted. |
| Timer.Timer.PromoteHead | timer/timer.go:76-78 | The first loop of shift registers each tier-2 slot-0 task in the tier-1 slot its delay names, in order. |
| Timer.Timer.SlideFar | timer/timer.go:80-86 | Tier-2 slot i takes slot i+1, and the last slot becomes empty. |
| Breaker.Bucket.Faileds | breaker/breaker.go:42-44 | Definition of faileds: the uint32 sum of the three failure counters. Breaker.AllSplits states its properties. |
| Breaker.Bucket.All | breaker/breaker.go:46-48 | Definition of all: the uint32 sum of the four counters. Breaker.AllSplits states its properties. |
| Breaker.Tally | breaker/breaker.go:173-193 | Definition of the per-code counter switch of the receiving loop. Breaker.TallyCountsOne states its properties. |
| Breaker.Merge | breaker/breaker.go:158-166 | Definition of the tick that adds the pending counters into a bucket, with uint32 wrap-around. Breaker.MergeAddsUp and Breaker.MergeZero state its properties. |
| Breaker.AllSplits | breaker/breaker.go:42-48 | faileds is failed+timeout+reject and all is succeed+faileds, while the sum fits in 32 bits. |
| Breaker.TallyCountsOne | breaker/breaker.go:168-194 | A known event code adds exactly one event, counted as a failure unless it is SUCCEED. An unknown code changes nothing. |
| Breaker.MergeAddsUp | breaker/breaker.go:157-167 | The receive tick loses no event and no failure when it adds the pending counters in. |
| Breaker.MergeZero | breaker/breaker.go:157-167 | Adding zero pending counters leaves a bucket unchanged. |
| Breaker.Transition | breaker/breaker.go:125-146 | The state changes exactly for CLOSED→OPEN, OPEN→HALFOPEN, HALFOPEN→OPEN and HALFOPEN→CLOSED, and then to the requested state. |
| Breaker.Updated | breaker/breaker.go:205-223 | CLOSED opens exactly on TRUE from isOpen. HALFOPEN closes on TRUE, reopens on FALSE and stays on HOLD. OPEN stays. |
| Breaker.WindowForgets | breaker/breaker.go:251-256 | After k metrics ticks, bucket i holds what bucket i+k held, and zero past the end of the window. |
| Breaker.Breaker.constructor | breaker/breaker.go:74-91 | NewBreaker: rollingCount zero buckets, CLOSED, with the given policies. |
| Breaker.Breaker.Active | breaker/breaker.go:232-238 | Definition: the breaker is active exactly when it is OPEN. Breaker.Breaker.Recover states that it is never active after a recovery tick. Breaker.Breaker.UpdateStep states that it becomes active only on a TRUE verdict of isOpen while CLOSED or a FALSE verdict of isClosed while HALFOPEN. |
| Breaker.Breaker.SetStateClosed | breaker/breaker.go:107-109 | The state becomes CLOSED. |
| Breaker.Breaker.SetStateOpen | breaker/breaker.go:111-119 | The state becomes OPEN and every bucket of the window is reset. |
| Breaker.Breaker.SetStateHalfOpen | breaker/breaker.go:121-123 | The state becomes HALFOPEN. |
| Breaker.Breaker.ChangeState | breaker/breaker.go:125-146 | The state follows Transition. Entering OPEN wipes the window, and any other request leaves the window as it was. |
| Breaker.Breaker.Recover | breaker/breaker.go:99-102 | The recovery tick moves OPEN to HALFOPEN, leaves any other state, and keeps the window. Afterwards the breaker is never active. |
| Breaker.Breaker.Slide | breaker/breaker.go:251-256 | The metrics tick shifts every bucket one place towards the front and resets the last. |
| Breaker.Breaker.Receive | breaker/breaker.go:168-194 | An event is tallied into the window's pending counters when CLOSED, into recovery's when HALFOPEN, and dropped when OPEN. |
| Breaker.Breaker.Flush | breaker/breaker.go:157-167 | The pending counters are added into the newest bucket and into the recovery bucket, then zeroed. |
| Breaker.Breaker.UpdateStep | breaker/breaker.go:205-223 | The state becomes Updated of the old state and the two policies' verdicts. The breaker is active afterwards exactly when it was active, or isOpen said TRUE while CLOSED, or isClosed said FALSE while HALFOPEN. The window is wiped exactly when the breaker newly opens. |
| BreakerPolicy.Accumulated | breaker/default.go:6-11 | IsOpen's loop as written. Its success sum equals the plain sum of Summed, and each failure accumulator is never below its plain sum. BreakerPolicy.DoublingOpensEarly shows that it can be above. |
| BreakerPolicy.IsOpen | breaker/default.go:3-23 | IsOpen as written: Judge of the wrapped accumulators, which is never FALSE. BreakerPolicy.QuietWindowHolds, BreakerPolicy.IsOpenOnOneBucket and BreakerPolicy.DoublingOpensEarly state its properties. |
| BreakerPolicy.Judge | breaker/default.go:13-22 | IsOpen's decision never answers FALSE, and answers TRUE only when there are failures. |
| BreakerPolicy.JudgeOnExactCounts | breaker/default.go:13-22 | On counters that do not wrap, the decision opens exactly when failures are a strict majority of events, and holds without failures. |
| BreakerPolicy.QuietWindowHolds | breaker/default.go:3-23 | A window without failures never opens the breaker. |
| BreakerPolicy.IsOpenOnOneBucket | breaker/default.go:3-23 | On a one-bucket window IsOpen opens exactly when failures are a strict majority of the bucket's events. |
| BreakerPolicy.DoublingOpensEarly | breaker/default.go:8-10 | As written, two buckets of one success and one failure each open the breaker. The corrected IsOpen holds on the same window. |
| BreakerPolicy.SummedCountsEvents | breaker/default.go:6-11 | Plain running sums count every event and every failure of the window once. |
| BreakerPolicy.IsOpenIntended | breaker/default.go:3-23 | The corrected IsOpen never answers FALSE. |
| BreakerPolicy.IntendedOpensOnMajority | breaker/default.go:3-23 | The corrected IsOpen opens exactly when the window's failures are a strict majority of its events, and holds without failures. |
| BreakerPolicy.IsClosed | breaker/default.go:25-35 | Definition of IsClosed on the uint32 faileds and all. BreakerPolicy.IsClosedVerdicts and BreakerPolicy.IsClosedExamples state its properties. |
| BreakerPolicy.IsClosedVerdicts | breaker/default.go:25-35 | FALSE exactly on more than two failures. HOLD exactly on at most two failures and fewer than ten events. TRUE otherwise, which takes at least eight successes. |
| BreakerPolicy.IsClosedExamples | breaker/default.go:25-35 | The buckets (1,3), (1,2) and (10,0) give FALSE, HOLD and TRUE. |
| Limiter.StoreSize | limiter/limiter.go:36-40 | The store size is the requested size, raised to MINSIZE when smaller. |
| Limiter.ClipFor | limiter/limiter.go:42-45 | clip is the size shifted right by 8 bits, capped at MAXCLIP. |
| Limiter.ClipOfStoreSize | limiter/limiter.go:33-53 | A store from newStore evicts at least one and at most size entries per overflow. clip is MAXCLIP exactly from size 262144. |
| Limiter.StoreSizeExamples | limiter/limiter.go:36-45 | Sizes 0, MINSIZE+1 and 300000 give the stores the tests expect. |
| Limiter.MoveToFrontPermutes | limiter/limiter.go:72 | MoveToFront keeps the same nodes and keys. |
| Limiter.MoveToFrontKeepsDistinct | limiter/limiter.go:72 | MoveToFront keeps every key on the list once. |
| Limiter.Accessed | limiter/limiter.go:59-73 | Definition of the list after getSet: a hit moves the key to the front; a miss pushes a new node and evicts clip nodes from the back past size. Limiter.HitMovesToFront, Limiter.MissPushesFront, Limiter.AccessedKeepsDistinct and Limiter.AccessedStaysBounded state its properties. |
| Limiter.HitMovesToFront | limiter/limiter.go:71-73 | A hit moves the key's node to the front, keeps the others in order, and changes neither the keys nor the length. |
| Limiter.MissPushesFront | limiter/limiter.go:59-70 | A miss pushes a node for the key in front. When the list then exceeds size, exactly clip nodes are dropped from the back. |
| Limiter.AccessedKeepsDistinct | limiter/limiter.go:55-76 | getSet never puts a key on the list twice. |
| Limiter.AccessedStaysBounded | limiter/limiter.go:59-70 | With clip at least 1, the list never grows beyond size. |
| Limiter.EvictionExample | limiter/limiter.go:55-76 | With size 2 and clip 2, inserting test1, test2 and test3 leaves only test3, and a hit on test3 keeps it so. |
| Limiter.DropLastKeepsIndexed | limiter/limiter.go:65-69 | Removing the back node and its key keeps the map and the list in agreement. |
| Limiter.PushKeepsIndexed | limiter/limiter.go:61-62 | Pushing a new key's node and recording it in the map keeps them in agreement. |
| Limiter.HitKeepsIndexed | limiter/limiter.go:71-73 | A hit keeps the map and the list in agreement. |
| Limiter.Store.constructor | limiter/limiter.go:33-53 | newStore: size and clip as above, with an empty list and map. |
| Limiter.Store.GetSet | limiter/limiter.go:55-76 | The list becomes Accessed of the old list. The returned value is the stored one on a hit and the new one on a miss. The key ends at the front and in the map, and the map keeps agreeing with the list. |
| Limiter.Store.Evict | limiter/limiter.go:64-70 | The eviction loop removes exactly the last clip nodes and their keys. |
| Limiter.RequestKey | limiter/limiter.go:92-94 | Definition of LimitByRequests's key, the request prefix then the address then the path. Limiter.RequestAndBytesKeysDiffer and Limiter.RequestKeyInjective state its properties. |
| Limiter.BytesKey | limiter/limiter.go:96-98 | Definition of LimitByBytes's key, the byte prefix then the address. Limiter.RequestAndBytesKeysDiffer and Limiter.BytesKeyInjective state its properties. |
| Limiter.RequestAndBytesKeysDiffer | limiter/limiter.go:92-98 | A request key and a byte key are never equal. |
| Limiter.BytesKeyInjective | limiter/limiter.go:96-98 | Distinct addresses get distinct byte keys. |
| Limiter.RequestKeyInjective | limiter/limiter.go:92-94 | The key determines the address and the path, for an address without '/' and a path starting with '/'. |
| TestkitIo.Consume | testkit/io.go:34-45 | A read takes min(len(p), len(Cnt)) bytes, and the taken bytes followed by the rest are the old content. EOF comes exactly when the content is shorter than p, and then nothing remains. |
| TestkitIo.EmptyBufferTakesNothing | testkit/io.go:39-41 | Reading into an empty buffer takes nothing, keeps the content and reports no error. |
| TestkitIo.ReadsConcatenate | testkit/io.go:34-45 | Two successive reads hand out consecutive bytes of the content, and what remains is the rest. |
| TestkitIo.CloseOutcome | testkit/io.go:49-59 | Close returns CloseError if set, otherwise panics exactly when ClosePanic is set, otherwise returns nil. |
| TestkitIo.ReadCloserMock.constructor | testkit/io.go:15-23 | NewReadCloserMock stores its arguments. |
| TestkitIo.ReadCloserMock.Read | testkit/io.go:25-47 | ReadError gives (0, ReadError), and a panic comes next. Neither changes anything. Otherwise p receives the first n bytes, the rest of p is untouched, and Cnt keeps the remainder, with EOF as Consume says. |
| TestkitIo.ReadCloserMock.Close | testkit/io.go:49-59 | The outcome is CloseOutcome of the configured error and panic flag. |
| TestkitIo.Copy | testkit/io.go:37 | copy writes the first min(len(dst), len(src)) bytes and leaves the rest of dst untouched. |

## Findings

| source | as written | input that shows it | evidently intended | confidence | as-written member | corrected member |
|---|---|---|---|---|---|---|
| timer/timer.go:119-123 | The tier-2 index divides delay+pos by t1Size+1, and the guard bounds delay alone. | With t1Size 1000 and t2Size 59: delay 2000 at cursor 0 fires after 1001 pulses; delay 1000 at cursor 0 gives index -1; delay 59999 at cursor 999 gives index 59, past the last slot. | Divide by t1Size, so that tier-2 slot j holds the tasks due in rotation j+1. The guard is not evident: Task admits every delay up to t1Size*(t2Size+1)-1 without looking at the cursor, and from a cursor above 0 the largest of these lie beyond the last tier-2 slot. The corrected member fires those at once, and Timer.IntendedFallbackIsUnavoidable shows that no slot could hold them. | high for the divisor, not executed | Timer.AsWrittenFarDue | Timer.PlaceIntended |
| breaker/default.go:8-10 | Each failure accumulator is added to itself before the bucket's count is added, so it doubles on every later bucket. | Two buckets with one success and one failure each give failures 3 against successes 2, so TRUE is returned although only half of the events failed. | Plain running sums, as for the successes. | high, not executed | BreakerPolicy.DoublingOpensEarly | BreakerPolicy.IntendedOpensOnMajority |

`Timer.Timer.AddTask` and `Timer.Timer.Schedule` use the corrected placement. `Timer.Timer.AddTaskAsWritten` and `Timer.Timer.ScheduleAsWritten` apply the placement as written (`Timer.Place`). The lemmas `Timer.QuirkFiresEarly`, `Timer.QuirkUnderflows` and `Timer.QuirkIndexesPastEnd` show its three effects on concrete inputs.

## Left out

- The goroutines, tickers, channels, `select` loops, context cancellation and mutexes of all three packages are left out. This covers `Timer.Start`/`Stop`, the channel send in `Task`, `Breaker.Start`/`Stop`/`Chan`, and the goroutine that `setStateOpen` spawns. Each loop body is modelled as one step method, and the interleaving of the steps is not modelled.
- A task's `done` channel is the flag `fired`. Closing the channel sets the flag. The model does not show a receiver being woken.
- Timer.Timer.AddTask: applies the corrected placement, not the source's. It differs from the source in three ways: a tier-2 index computed with divisor t1Size instead of t1Size+1 (delay 2000 at cursor 0 goes to slot 1, not 0); no out-of-range index, so no panic; and an admitted delay with delay+pos at least t1Size*(t2Size+1) fires at once instead of being queued. Timer.Timer.AddTaskAsWritten models the source's behaviour.
- Timer.Timer.Schedule: places with the corrected placement, so it has the three differences above. For example, after one pulse of a (1000, 59) wheel, 59999 comes back already fired, where the source queues it in tier-2 slot 58. Timer.Timer.ScheduleAsWritten models the source's behaviour. Task's bound check ignores the cursor, and the two cannot agree from a cursor above 0.
- Timer.Timer.AddTaskAsWritten: the source panics on an out-of-range tier-2 index. The model returns IndexOutOfRange with the wheel unchanged and only the delay rewritten, as the source leaves it before the panic.
- Timer.Timer.constructor: requires both tier sizes to be at least 1. The source would panic on its first pulse or shift otherwise.
- Breaker.Breaker.Slide: requires a window of at least one bucket. With none, the source indexes bucket 255 and panics.
- Breaker.Breaker.Flush: requires a window of at least one bucket, for the same reason.
- Breaker.Breaker.ChangeState: the request is one of the three states. The source's `uint` parameter would accept other values, which the switch ignores in the same way.
- Breaker.TallyCountsOne: the count identities are stated only while the counters do not wrap round 2^32. `Tally` itself wraps.
- Breaker.MergeAddsUp: stated only while the sums fit in 32 bits. `Merge` itself wraps.
- Breaker.AllSplits: stated only while the bucket's events fit in 32 bits.
- BreakerPolicy.IsOpenOnOneBucket: for the as-written IsOpen, the exact majority property is stated for a one-bucket window only, because on longer windows the doubling breaks it.
- The floating-point ratio test in `IsOpen` is replaced by the integer test `2*allFailed > succeed+allFailed` on the uint32 values. The two agree on every pair of uint32 operands, including the wrapped sum of zero, where the float division gives +Inf.
- Limiter.Store.GetSet: requires clip to be at most size, which every store from newStore satisfies. A store whose fields are set so that clip exceeds size+1 would make the source panic on an empty list.
- `limitReached`, `AllowN`, `rate.NewLimiter`, `rate.Every` and `time.Now` are left out, because they belong to an external rate-limiting library. The stored limiter is the opaque value `made` passed to `GetSet`. `Config` and `NewLimiter` only pass the size through.
- `NewTick` is not modelled as a member. An empty tick is the empty sequence.
- `testkit/net.go` and `testkit/http.go` are not part of this model, because they open sockets and serve HTTP.
- Go strings are byte strings and are modelled as Dafny strings. The key lemmas only compare characters, so the encoding does not matter.
