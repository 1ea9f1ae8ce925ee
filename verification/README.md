# Verified model of the vmhook test harness

The harness drives a running JVM from a native worker thread. For every feature a Java fixture
registers a probe; the worker raises the probe's `go` flag, the Java main loop runs the probe's
action and latches `done`, and the worker polls `done` a bounded number of times. All checks of
the harness rest on this handshake and on a few pieces of fixture code whose results have to be
known in advance. This project models both and proves what they promise.

* `Handshake.dfy` is the two-thread step system: the worker's setup writes and `run_java_probe`,
  the Java loop with its inline probes and the fixtures' probes, the calls an action makes,
  throwing actions, any poll bound. Each access of a shared flag and each call of a hookable method
  is one step; in particular the reads of `go` and `done` in `pending()` are two steps. Accesses are
  taken as sequentially consistent (the flags are Java volatiles, section 17.4.5 of the Java
  Language Specification; the native accesses and the non-volatile `stopJVM` are assumed to behave
  alike).
* `HandshakePrograms.dfy` writes the two programs down a second time, as grammars of their accesses
  without any state, and proves that the runs of the step system are exactly the interleavings of the
  two in which every read sees the last write.
* `HandshakeSafety.dfy`, `HandshakeFreshness.dfy` and `Campaign.dfy` prove properties of all runs;
  `NativeWorker.dfy` holds the worker's code and the drivers of the test modules, run against an
  arbitrary Java thread, and `HookBasic.dfy` tells what the detours see in a run.
* `Harness.dfy` is the probe list, the tick and the discovery of fixtures.
* `CollidingKeys.dfy` and `Checksums.dfy` are the builders of CollSet and CollMap.
* `StackTrace.dfy` is the call chains of ReturnStackTrace and ReturnCaller and the stack walk.
* `ForEachThreadPrograms.dfy` does for the ForEachThread fixture what `HandshakePrograms.dfy` does for
  the handshake: its step system is the interleavings of startWorker, the workers and the native
  thread.
* `ForEachThread.dfy`, `WarmLoop.dfy`, `FieldStatic.dfy`, `FieldWatcher.dfy` and
  `VerdictLoops.dfy` are the fixture or test loop of the same name; `JavaInt.dfy` is Java's
  fixed-width arithmetic and `Wrappers.dfy` an optional value.

## Findings

Where the code does less than its comments or the native checks assume, the model follows the
code and the exact condition is proved:

* A successful cycle has exactly one completion, always. But the action need not have been started
  by that cycle: it was if and only if the Java thread was outside the probe at the reset of
  `done` (`FreshIffQuiescent`). Even a success in the cycle before does not give this: the thread
  may then stand between its two reads (`SuccessDoesNotQuiesce`).
* The mode is weaker, and depends on the order in which a driver writes. Twenty-six test modules
  write `done`, `mode`, `go`, all on the rising edge of `go` (tests/jvm/modules/hook_basic.cpp:152-162
  and its likes), although the comment of CollMap.java:34-36 gives `mode`, `done`, `go`. One module,
  return_value_cancel.cpp, does write the mode first. Three write `mode`, `go` and no reset, for a
  probe that is used once (method_call_object.cpp:334, field_object_ref.cpp:541,
  method_overload.cpp:452).
  * Whatever the order, a probe completes its action at least once for each success and at most once
    for each request, timed-out cycles included (`CompletionsAreBounded`), hence exactly once for
    each request when all succeed (`OneCompletionPerRequest`).
  * With the mode written first it is the one the action reads unless an action that read another
    mode is under way (`ModeIffNoOldAction`), which a successful cycle before excludes.
  * In the rising-edge order every success runs under the mode asked for if and only if at the reset
    the Java thread is outside the probe, or the mode that the action there has read, or would read
    from what is in force, is already the same (`RisingEdgeIff`, between any two cycles). Before the
    first cycle and after a successful one this comes down to the mode in force
    (`RisingEdgeAfterSuccess`); after timed-out cycles it does not: an action can still be under way
    under the mode of two requests before (`TimedOutModeReturns`). A successful cycle before does
    not help either: two rising-edge cycles in a row can both report success and both run under the
    mode of the first (`SecondModeCanBeLost`). After a successful cycle, writing the mode before the
    reset would remove this (`DriveModeFirst`, `CompletionsAreRequests`).
* What a detour counts is the calls of all starts, those that threw included. Without exceptions,
  and with the modes the drivers asked for, it is the sum of the promised calls; otherwise it
  exceeds it by exactly the calls the throwing starts had already made (`TotalDispatches`), and
  their number has no bound (`ThrowingActionRestarts`).
* `Harness.tickAll` isolates a throwing probe, `Main.runProbe` does not: one inline action that
  throws ends the Java loop and fails every later cycle (`InlineThrowFailsEveryLaterCycle`).
* `collidingKeys(n)` does not return for n above 2^30: the shifted one wraps to the sign bit and
  then starts over (`ShiftLoopStopsIff`).
* The size check of the map probes compares the size truncated to 32 bits, so together with the
  loop it is wrong about some list of n entries exactly when n is not 3 but 3 modulo 2^32
  (`RightSizes`). Such a list has to repeat a key, so no faithful walk of a Java map returns it
  (`DistinctKeysSuffice`); only a faulty walker could.
* The watcher's monotonicity flag is cleared by one thread alone when the counter passes the
  largest int (`OneThreadIff`). With several ticking threads an increment is four accesses: the
  read and the write of `counter++`, and in the trap handler the load of the field and the exchange
  with `last_seen`. The flag is kept exactly by the schedules in which every write is by a thread
  that read after the write before and finds no handler that has yet to load the field, and in which
  the handlers exchange in the order in which they loaded (`DisciplineIff`). So it can be lost
  although no increment is (`LateHandlerCanClear`); the comment at example.cpp:3139-3141 takes for
  granted that it cannot.
* A `stop` raised before `startWorker` has cleared the flag can be lost
  (`StopReachesNextWorkerIff`). And a `startWorker` that finds the old worker alive starts nothing;
  if that worker has already retracted `threadUp`, no worker comes up at all (`NoOpStartIsLostIff`).
* `guard(d, ...)` leaves d + 1 guard frames, one more than its comment counts.

## Model

| member | source | states |
|---|---|---|
| HandshakePrograms.RunsAreInterleavings | example/vmhook/Main.java:48-275 | a sequence of accesses is a run of the step system from program start iff its Java part follows the main loop (test, then every probe's go, done, action, completion or exception), its worker part follows the worker's program (setup writes; raise, at most maxPolls polls up to the first hit, lower, re-read), and every read returns the value last written |
| HandshakePrograms.FlagsAreLastWrites | example/vmhook/fixtures/Pilot.java:39-53 | after any run every flag has the value of the last write to it, or its first value |
| HandshakeSafety.InvRun | example/vmhook/fixtures/Pilot.java:39-53 | in every run a latched `done` excludes an action under way, an action makes no more than its calls, and `go` is up exactly while run_java_probe is between raising and lowering it |
| HandshakeSafety.ExactlyOnce | vmhook/src/example.cpp:1526-1545 | in every interleaving and for every poll bound, run_java_probe returns true iff exactly one completion, and false iff none, happened since the reset of `done`; nothing is assumed about earlier cycles or the Java thread |
| HandshakeSafety.RunLedger | vmhook/src/example.cpp:1680-1698 | over whole runs with timeouts, every completion is still latched or was wiped by exactly one reset |
| HandshakeSafety.StartsAreConserved | example/vmhook/Harness.java:50-63 | starts of an action equal its completions plus its exceptions plus the one under way |
| HandshakeSafety.StartsWhileLowered | example/vmhook/fixtures/Pilot.java:40-43 | while `go` stays down an action can start at most once, and only if the thread had already read `go`, resets or not |
| HandshakeSafety.AfterLowering | vmhook/src/example.cpp:1543-1544 | after a cycle, timed out or not, `go` stays down until raised again and at most one more start and one more completion occur |
| HandshakeSafety.InlineThrowFailsEveryLaterCycle | example/vmhook/Main.java:289-298 | after an inline action threw, every later cycle of every probe returns false |
| HandshakeSafety.ExitHasACause | example/vmhook/Harness.java:52-63 | the Java loop ends only by the stop flag or an inline exception; fixture exceptions never end it |
| HandshakeSafety.StopEndsTheLoop | example/vmhook/Main.java:48 | after the worker set the stop flag, in any state, the loop begins no further round, its next test ends it for good, and each action starts at most once more |
| HandshakeSafety.ThrowingActionRestarts | example/vmhook/Harness.java:44-64 | for every n, and every number of calls the action makes before it throws, there is a run in which it is started n times within one raising of `go`, makes its calls n times and never completes |
| HandshakeSafety.DispatchLedger | example/vmhook/Harness.java:10-15 | in every run the calls a detour sees are, in order, those of the actions that ended - all of a completed one, the first few of one that threw - and those of the action under way |
| HandshakeSafety.OneRoundSuffices | example/vmhook/Main.java:48-275 | a cycle whose window contains one whole round of the Java loop, in which neither this action nor an inline one throws, returns true |
| HandshakeSafety.FailureMadeAllPolls | vmhook/src/example.cpp:1532-1541 | run_java_probe never gives up early: a false return means that exactly maxPolls polls were made, and no call makes more |
| HandshakeSafety.LoweredForAReason | vmhook/src/example.cpp:1533-1543 | `go` is lowered only when the action has completed or all polls were made |
| HandshakeSafety.PollsOnlyWhileDown | vmhook/src/example.cpp:1535-1538 | a further poll is made only if the one before found `done` down |
| HandshakeFreshness.QuiescentIsFresh | example/vmhook/Harness.java:48-65 | if the thread is outside the probe while `go` is down, every later completion was started after `go` was raised |
| HandshakeFreshness.StaleCycleSucceeds | example/vmhook/fixtures/Pilot.java:39-53 | from inside the probe there is a successful cycle whose completion was started before `go` was raised, for every poll bound |
| HandshakeFreshness.FreshIffQuiescent | vmhook/src/example.cpp:1680-1698 | at a reset in any run, all successful continuations are fresh iff the Java thread is outside the probe |
| HandshakeFreshness.SuccessDoesNotQuiesce | vmhook/src/example.cpp:2813-2828 | for every poll bound there is a run in which a successful cycle is followed at once by a reset that finds the thread between its two reads |
| HandshakeFreshness.ModeIffNoOldAction | tests/jvm/modules/return_value_cancel.cpp:130-134 | for a driver that writes the mode before the reset: at a reset in any run, all successful continuations run under the mode then in force iff no action that read another mode is under way |
| HandshakeFreshness.LatchedDoneMeansModeSafe | tests/jvm/modules/return_value_cancel.cpp:153-157 | a reset that finds `done` latched, as after a successful cycle, meets the condition of the mode-first driver for every mode |
| HandshakeFreshness.LateModeIffQuiescent | tests/jvm/modules/hook_basic.cpp:152-162 | with the mode written only after the reset, all successes for all modes run under it iff the thread was outside the probe at the reset |
| Campaign.CompletionsAreBounded | vmhook/src/example.cpp:1526-1545 | over any run of cycles on any number of probes, successful or timed out, in whatever order the drivers write `done` and `mode` and wherever the Java thread is: successes <= completions <= requests, apart from one completion owed at the start or still owed at the end |
| Campaign.OneCompletionPerRequest | tests/jvm/modules/hook_basic.cpp:146-164 | when all cycles of a probe succeed, whatever those of the other probes do, it completes its action exactly once per request |
| Campaign.CompletionsAreRequests | tests/jvm/modules/hook_basic.cpp:146-164 | and it completes exactly the requested modes in their order when, at each of its resets, the thread is outside the probe or the mode is already the requested one, as it always is for a mode-first driver |
| Campaign.WholeRun | example/vmhook/fixtures/HookBasic.java:20-27 | from program start: successes <= completions <= requests, starts are completions plus exceptions plus the action under way, and the calls are those of the ended actions and of that one; with all cycles of the probe successful, one completion per request, and of the requested modes under the condition above |
| Campaign.RisingEdgeIff | tests/jvm/modules/hook_basic.cpp:152-162 | for a rising-edge driver between any two cycles, timed-out ones included: every success runs under the requested mode iff at the reset the thread is outside the probe or the mode its action has read, or would read as things stand, is already the requested one |
| Campaign.RisingEdgeAfterSuccess | tests/jvm/modules/hook_basic.cpp:152-162 | before the first cycle and after a successful one: iff the thread is outside the probe at the reset or the mode in force is already the requested one, and the whole job has no other completion |
| Campaign.TimedOutModeReturns | vmhook/src/example.cpp:1526-1545 | from program start, for every poll bound and any two modes, two rising-edge cycles time out such that a third finds its own mode in force at the reset, reports success and has run under the mode of the first |
| Campaign.SecondModeCanBeLost | tests/jvm/modules/hook_basic.cpp:152-162 | from program start, for every poll bound and any two modes, two rising-edge cycles in a row report success and both run under the first mode |
| NativeWorker.World.RunJavaProbe | vmhook/src/example.cpp:1526-1545 | the worker's poll loop against an arbitrary Java thread is a run of the step system from raising `go` to reporting the re-read `done`, and a false report means that all maxPolls polls were made |
| NativeWorker.World.ProbeCycle | vmhook/src/example.cpp:1675-1698 | a probe test, which clears both flags and sets no mode, reports true iff exactly one completion followed its reset of `done`, and false iff none did |
| NativeWorker.World.Drive | tests/jvm/modules/hook_basic.cpp:148-164 | a rising-edge drive, successful or not, is a job of the campaign: reset, mode, run_java_probe, with Java steps anywhere between |
| NativeWorker.World.DriveModeFirst | tests/jvm/modules/return_value_cancel.cpp:128-137 | a mode-first drive is a job that meets the condition for its mode, wherever the Java thread was |
| NativeWorker.World.DriveAll | tests/jvm/modules/hook_basic.cpp:167-235 | a program of drivers of both kinds from program start, which goes on after a failed one, has completed each probe's action at least once per success and at most once per driver that asked for it, whatever the Java thread did; a probe whose drivers all set the mode first and succeed has completed exactly the modes asked for, in order |
| NativeWorker.World.JavaRuns | example/vmhook/Main.java:48-275 | any number of steps of the Java loop, throwing or not, is a run of the step system and leaves the worker's position alone |
| Harness.Registry.TickAll | example/vmhook/Harness.java:48-65 | a tick visits each probe of its snapshot exactly once in registration order, runs exactly the pending ones, whatever throws; probes registered meanwhile, by a run that then throws too, are appended, not visited |
| Harness.Registry.RunTicks | example/vmhook/Main.java:271-275 | over any number of ticks, whatever is registered and whatever throws, the probe visited at a position of one tick is visited at that position of every later tick |
| Harness.AttemptsAre | example/vmhook/Main.java:318-330 | the scan tries vmhook.fixtures.B exactly for the files B.class whose B has no dollar sign |
| Harness.NonNullInOrder | example/vmhook/Harness.java:36-42 | registrations are kept in their order and null probes are dropped |
| Harness.Fixtures.ForName | example/vmhook/Main.java:328-337 | a class initializes at most once, and a missing or badly initialized class throws |
| Harness.Fixtures.LoadFixtures | example/vmhook/Main.java:307-341 | each fixture's probe is registered at most once however often the classpath repeats it, and exactly when its class was found and registers, in the order of the first attempts; `loaded` counts the repetitions |
| Harness.DiscoveredAre | example/vmhook/Main.java:307-341 | a scan registers the probes of the classes it tries that exist, were not begun before and register, each behind everything that earlier attempts registered |
| Harness.ScanOrder | example/vmhook/Main.java:307-341 | directories, and the files of each, are tried in their order; an entry that is no directory or cannot be listed contributes nothing |
| HookBasic.Fixture.RunInstanceTouch | example/vmhook/fixtures/HookBasic.java:154-169 | touch(7), touch(11), touch(42) on the receiver with seed 1000, and their results 1042, 3060 and 3 |
| HookBasic.Fixture.RunStaticTouch | example/vmhook/fixtures/HookBasic.java:171-182 | four dispatches with the documented argument |
| HookBasic.Fixture.RunTwoInstances | example/vmhook/fixtures/HookBasic.java:196-206 | one dispatch on each of two receivers, whose published seeds are those the detour sees |
| HookBasic.Fixture.Run | example/vmhook/fixtures/HookBasic.java:236-266 | for each of the modes 1 to 7 exactly the documented dispatches with their receivers and arguments, the original results, then `done`; no dispatch in any other mode |
| HookBasic.TotalDispatches | tests/jvm/modules/hook_basic.cpp:193-201 | over any run of cycles the detours see the dispatches of the ended actions in order and those of the one under way; if the cycles of the probe succeeded with safe modes, touch() is dispatched as often as the requested modes call it plus exactly the calls of the starts that threw; without exceptions the dispatches are those of the requests in their order |
| JavaInt.ShiftOneWraps | example/vmhook/fixtures/CollSet.java:411 | the shifted one is the wrapped power of two at the distance modulo 32 and never exceeds 2^30 |
| CollidingKeys.HashCodeIs | example/vmhook/fixtures/CollSet.java:400-406 | the stepwise wrapping hash of any text is the wrapped value of the polynomial s[0] 31^(n-1) + ... + s[n-1] |
| CollidingKeys.BlocksCollide | example/vmhook/fixtures/CollSet.java:400-409 | the two blocks act alike on String.hashCode from every intermediate value, under 32-bit wrapping |
| CollidingKeys.KeyHash | example/vmhook/fixtures/CollSet.java:400-426 | keys of equally many blocks have equal hash codes, from every initial value |
| CollidingKeys.KeyRoundTrip | example/vmhook/fixtures/CollMap.java:334-342 | a key is a text of blocks and determines its index below 2^blocks |
| CollidingKeys.IndexRoundTrip | example/vmhook/fixtures/CollMap.java:334-342 | every string of blocks is the key of an index below 2^blocks |
| CollidingKeys.ShiftLoopStopsIff | example/vmhook/fixtures/CollSet.java:410-414 | the block-counting loop has a stopping point iff n <= 2^30 |
| CollidingKeys.CountBlocks | example/vmhook/fixtures/CollSet.java:410-414 | it stops at the least positive block count whose power of two reaches n |
| CollidingKeys.Generate | example/vmhook/fixtures/CollSet.java:407-426 | for every n on which the loop stops: an exception for negative n, otherwise the keys of 0 .. n-1 in order |
| CollidingKeys.KeysCollideAndDiffer | example/vmhook/fixtures/CollMap.java:316-344 | the n keys share one hash code, the wrapped 2112 (1 + 961 + ... + 961^(blocks-1)), and one length, differ pairwise, and make a set of exactly n elements |
| CollidingKeys.ComputeCodeUnitSum | example/vmhook/fixtures/CollSet.java:262-270 | the wrapped sum of the 16-bit code units of any text |
| CollidingKeys.KeySum | example/vmhook/fixtures/CollSet.java:262-270 | the code units of a key of k blocks add up to 162 k - 30 popcount(index) |
| CollidingKeys.ChecksumClosedForm | example/vmhook/fixtures/CollSet.java:311-321 | the accumulated checksum is 162 k n - 30 (sum of popcounts below n) |
| CollidingKeys.ChecksumOfPower | example/vmhook/fixtures/CollSet.java:311-321 | for n = 2^k it is 147 k 2^k |
| CollidingKeys.ChecksumFits | example/vmhook/fixtures/CollSet.java:226-227 | it never overflows a long |
| CollidingKeys.BuildTreeified | example/vmhook/fixtures/CollSet.java:311-321 | the published set has exactly n elements, the keys, and the published checksum is the closed form |
| Checksums.OrderIndependent | example/vmhook/fixtures/CollMap.java:137-146 | sums and XORs over entries depend only on the multiset of the entries |
| Checksums.WalksAgree | example/vmhook/fixtures/CollMap.java:137-146 | any two complete walks of a map visit the same multiset |
| Checksums.DecimalRoundTrip | example/vmhook/fixtures/CollMap.java:223 | the decimal rendering in a key can be read back, so keys of different numbers differ |
| Checksums.IdSum | example/vmhook/fixtures/CollMap.java:221-228 | the id sum is n (n - 1) / 2 |
| Checksums.IdXor | example/vmhook/fixtures/CollMap.java:221-228 | the id XOR is 0, n - 1, 1 or n by n mod 4 |
| Checksums.CollMap.BuildHashMany | example/vmhook/fixtures/CollMap.java:219-231 | the map has exactly n entries and the three published witnesses equal those of every walk of it, in any order; closed forms for sum and XOR |
| StackTrace.MachineComputes | example/vmhook/fixtures/ReturnStackTrace.java:125-203 | the explicit-stack machine, started on any call above any stack, returns the recursive methods' value to that stack, enters the leaf exactly once, with exactly the documented chain above it |
| StackTrace.ReturnedValues | example/vmhook/fixtures/ReturnCaller.java:101-169 | the values returned by the non-recursive methods as functions of their argument |
| StackTrace.NamedChains | example/vmhook/fixtures/ReturnStackTrace.java:125-155 | the methods between the leaf and the caller of inner, mid, outer and shallow, immediate caller first |
| StackTrace.CallerChains | example/vmhook/fixtures/ReturnCaller.java:101-169 | the same for the callers of ReturnCaller |
| StackTrace.RecursiveChains | example/vmhook/fixtures/ReturnStackTrace.java:175-203 | the values of guard and recurse, and the names on their chains: the tail's named methods, then one frame more than the depth |
| StackTrace.ReturnCaller.DoOuterA | example/vmhook/fixtures/ReturnCaller.java:108-111 | the machine's value, the wrapped 2x + 3, its counters and its chain at the leaf, from any stack |
| StackTrace.ReturnCaller.DoOuterB | example/vmhook/fixtures/ReturnCaller.java:116-125 | the same, two levels above the leaf, with value 2x + 6 |
| StackTrace.ReturnCaller.RunTwoCallers | example/vmhook/fixtures/ReturnCaller.java:256-262 | two leaf calls with their own two chains, observed 31 |
| StackTrace.Fixture.DoOuter | example/vmhook/fixtures/ReturnStackTrace.java:135-144 | the machine's value, the wrapped 2x + 6, its counters and its chain at the leaf, from any stack |
| StackTrace.Fixture.DoGuard | example/vmhook/fixtures/ReturnStackTrace.java:175-186 | the same for every depth and tail: the recursion returns the depth plus 403 or 206, wrapped, and enters the leaf exactly once, below exactly the machine's chain |
| StackTrace.Fixture.DoRecurse | example/vmhook/fixtures/ReturnStackTrace.java:196-203 | the same for every depth of the plain recursion |
| StackTrace.Fixture.Run | example/vmhook/fixtures/ReturnStackTrace.java:249-272 | for every mode the observed sum, as many leaf calls as fires, and their chains: 102 and one, 1 and one, 303 and two |
| StackTrace.Walk | README.md:459-480 | the walk returns the interpreted prefix, immediate caller first, cut at max_depth or at 64 for 0, and looks at one compiled frame only if the cap is not reached before |
| StackTrace.GuardedFire | example/vmhook/fixtures/ReturnStackTrace.java:98-116 | for guard(d, tail) called from any stack, every depth d, both tails and every cap up to the length of the chain, the walk over the stack recorded at the leaf returns exactly cap frames - the named ones, then guards - and looks at nothing else; it looks at the compiled frame above iff the cap exceeds all interpreted frames |
| StackTrace.CallerIsFirst | example/vmhook/fixtures/ReturnStackTrace.java:8-28 | index 0 of every walk is caller(), and both are empty together |
| StackTrace.TwoCalls | example/vmhook/fixtures/ReturnCaller.java:256-262 | two calls from one frame fire with their own two chains, in order, and nothing of the first is left in the second |
| StackTrace.TwoChainsDiffer | example/vmhook/fixtures/ReturnStackTrace.java:224-236 | at every depth d the two fires of the machine have different immediate callers, although every cap up to d + 2, the default one included at the fixture's depth, gives both walks the same length |
| ForEachThreadPrograms.RunsAreInterleavings | example/vmhook/fixtures/ForEachThread.java:74-116 | a sequence of steps is a run from program start iff the tick thread's part is startWorker again and again, the part of each worker is its run(), a worker runs only after its start, isAlive() tells of the worker started last, and every read of `stop` returns the last write |
| ForEachThreadPrograms.FlagsAreLastWrites | example/vmhook/fixtures/ForEachThread.java:60-66 | after any run `stop` and `threadUp` have the value of the last write to them |
| ForEachThreadPrograms.BodiesAreSleeps | example/vmhook/fixtures/ForEachThread.java:97-107 | every entry of a worker into its loop body is a sleep, over or not |
| ForEachThread.AtMostOneWorker | example/vmhook/fixtures/ForEachThread.java:74-116 | in every interleaving at most one worker is alive, and threadUp is true iff a worker is between its announcement and its retraction |
| ForEachThread.StopIsHonoured | example/vmhook/fixtures/ForEachThread.java:96-109 | a stop raised while the worker lives, and not lowered by the native side, stays up until it is dead; it enters its loop body at most once more and takes at most five more steps |
| ForEachThread.WaysOut | example/vmhook/fixtures/ForEachThread.java:96-109 | a stop seen, a deadline passed and a sleep interrupted each end the worker's loop for good |
| ForEachThread.StopReachesNextWorkerIff | example/vmhook/fixtures/ForEachThread.java:74-116 | a stop raised while no worker lives, and not lowered by the native side, reaches the next worker in every continuation iff startWorker is past its clearing of stop |
| ForEachThread.NoOpStartIsLostIff | example/vmhook/fixtures/ForEachThread.java:74-80 | after a startWorker that found a live worker, threadUp stays down in every continuation without a further start iff that worker had already retracted it |
| ForEachThread.NoOpStartCanBeLost | tests/jvm/modules/for_each_thread.cpp:425-433 | such a moment is reached from program start |
| WarmLoop.Accumulator | example/vmhook/fixtures/DeoptProbe.java:116-133 | after n iterations the accumulator is the XOR of the last n mod 4 results, in closed form 0, last, 1 or last + 1 |
| WarmLoop.DeoptProbe.RunWarmSelected | example/vmhook/fixtures/DeoptProbe.java:116-133 | for every iteration count the published last result, XOR and call count |
| WarmLoop.DeoptProbe.RunWarmUnselected | example/vmhook/fixtures/DeoptProbe.java:135-152 | the same for the other method, leaving the first one's fields alone |
| FieldStatic.FreshAscii | example/vmhook/fixtures/FieldStatic.java:264-267 | a string over a private backing with the same characters |
| FieldStatic.WriteJavaString | example/vmhook/fixtures/FieldStatic.java:98-117 | an in-place write keeps the length and the tail |
| FieldStatic.Fixture.TakeSnapshot | example/vmhook/fixtures/FieldStatic.java:296-300 | seenStrEqWorld is a true comparison of the content with world; seenStr shares the target's string |
| FieldStatic.Fixture.ResetTargets | example/vmhook/fixtures/FieldStatic.java:321-328 | both contents restored on fresh backings, whatever was written |
| FieldStatic.Fixture.RunAll | example/vmhook/fixtures/FieldStatic.java:269-333 | after any sequence of writes, snapshots and resets all literals are intact, both targets hold what the sequence says and do not share a backing, and the witnesses give both lengths and the true comparison of the texts at the last snapshot and, until a reset, are the targets themselves; without a snapshot they are untouched |
| FieldStatic.LiteralTargetIsCorrupted | example/vmhook/fixtures/FieldStatic.java:101-109 | without the private backing the write corrupts the literal, reassigning it restores nothing and the comparison is true by identity |
| FieldWatcher.Watcher.Feed | vmhook/src/example.cpp:3131-3148 | over any sequence of callbacks the wrapped count, the last value, and the flag as the absence of an objection between neighbours |
| FieldWatcher.MonotonicIff | vmhook/src/example.cpp:3142-3146 | for non-negative values the flag is true iff the sequence strictly increases |
| FieldWatcher.OneThreadIff | example/vmhook/TickerProbe.java:18-21 | k increments from c keep the flag iff the counter does not pass the largest int; a counter starting there survives one whole turn |
| FieldWatcher.WatchTicks | vmhook/src/example.cpp:3150-3158 | k ticks give count k and last value c + k, and the flag by that condition |
| FieldWatcher.AloneWrites | example/vmhook/TickerProbe.java:14-21 | a thread that ticks alone - read, write, load, exchange - hands c + 1, c + 2, ... to the callback |
| FieldWatcher.DisciplineIff | vmhook/ext/vmhook/vmhook.hpp:16378-16389 | for any number of ticking threads and any schedule of their reads, writes, handler loads and handler exchanges that does not pass the largest int, the flag is kept iff each write is by a thread that read after the write before and finds no handler still to load, and handlers exchange in the order of their loads |
| FieldWatcher.TwoThreadsCanClear | example/vmhook/TickerProbe.java:18-21 | with two ticking threads there is a schedule of two increments that raises the counter by one only and clears the flag |
| FieldWatcher.LateHandlerCanClear | vmhook/src/example.cpp:3137-3148 | and one that raises it by two and clears the flag all the same, because the second write precedes the first handler |
| VerdictLoops.MapVerdict | vmhook/src/example.cpp:2058-2080 | accepts iff all entries are non-null with expected keys and every expected key occurs |
| VerdictLoops.MapProbeVerdict | vmhook/src/example.cpp:2058-2080 | accepts iff no key or value is null, no key is other than k0, k1, k2, and each of them occurs |
| VerdictLoops.HashMapProbeVerdict | vmhook/src/example.cpp:2110-2130 | the same for h0, h1, h2 |
| VerdictLoops.RightSizes | vmhook/src/example.cpp:2054-2080 | for every size n the size check and the loop together are right about all lists of n entries - they accept exactly the permutations of the three - iff n is 3 or not 3 modulo 2^32 |
| VerdictLoops.DistinctKeysSuffice | vmhook/src/example.cpp:2054-2080 | on lists without repeated keys they are right at every size |
| VerdictLoops.TruncatedSizeIsFooled | vmhook/src/example.cpp:2055 | at every other size that truncates to 3 both accept a list that is no permutation |
| VerdictLoops.TreeMapVerdict | vmhook/src/example.cpp:2155-2189 | accepts a list of any length iff it is exactly t0, t1, t2 in order with non-null values, despite the wrapping digit |

## Left out

- The implementation header vmhook/ext/vmhook/vmhook.hpp is not part of this model, except for the two accesses of its field-watch handler: hooks, field and method proxies, string decoding, collection walkers, heap scan, deoptimization. The stack walk and the in-place string write are modelled as documented.
- The wrapper classes of example.cpp, the injector and the speed test: forwards, process plumbing and timing.
- Fixtures that return constants or copy arguments; OnClassLoaded, which counts its loads, and ForEachInstance, which fills an array once.
- The internals of the JDK collections: a hash map is a map, a walk is any complete enumeration of it.
- Real time: a sleep is nothing, a deadline may pass at any moment, a poll loop has any bound.
- Stack overflow and out-of-memory errors of the Java thread.
- The `recurse` of ReturnCaller, whose text is that of ReturnStackTrace, the arithmetic of its `warmCaller` and its long-descriptor and long-argument callers.
- The primitive and reference targets of FieldStatic, and a String target set to null.
- A watched write is taken to be in memory when its handler loads the field, and all ticking threads to have the watch armed.
- The two warm loops of DeoptProbe are written once, as their texts differ only in the method called and the two hot methods have the same body.
- A visit of a probe is described by what it does rather than by a callback object, so a probe that itself ticks the harness is not modelled.
