/** The step system of ForEachThread against the text of its threads: its runs are exactly the
    interleavings of startWorker on the tick thread, of the run() of each worker, and of a native
    thread that raises and lowers `stop` as it likes. */
module ForEachThreadPrograms {
  import opened ForEachThread

  // ---- What the threads see of each other --------------------------------------

  /** The value of `stop` after `es`: that of the last write, or the first value. */
  function StopAfter(es: seq<Event>, first: bool): bool {
    if es == [] then first
    else match es[|es| - 1]
      case RaiseStop => true
      case LowerStop => false
      case ClearStop => false
      case _ => StopAfter(es[..|es| - 1], first)
  }

  function UpAfter(es: seq<Event>, first: bool): bool {
    if es == [] then first
    else match es[|es| - 1]
      case Announce(_) => true
      case Retract(_) => false
      case ClearUp => false
      case _ => UpAfter(es[..|es| - 1], first)
  }

  /** How many workers have been started. */
  function Starts(es: seq<Event>): nat {
    if es == [] then 0 else (if es[0] == Start then 1 else 0) + Starts(es[1..])
  }

  function StartedIn(s: State): nat {
    if s.tick == Published && s.workers != [] then |s.workers| - 1 else |s.workers|
  }

  predicate DiedIn(s: State, i: nat) { i < |s.workers| && s.workers[i] == Dead }

  /** `e` fits what the other threads did before: a read of `stop` returns the last write, a worker
      runs only after it was started, and isAlive() tells of the worker started last. */
  predicate Fits(s: State, before: seq<Event>, e: Event) {
    var n := StartedIn(s) + Starts(before);
    match e
    case SeeAlive => n > 0 && !DiedIn(s, n - 1) && Die(n - 1) !in before
    case SeeNone => n == 0 || DiedIn(s, n - 1) || Die(n - 1) in before
    case ReadStop(i, v) => i < n && v == StopAfter(before, s.stop)
    case Announce(i) => i < n
    case ReadClock(i, _) => i < n
    case Wake(i, _) => i < n
    case Retract(i) => i < n
    case Die(i) => i < n
    case _ => true
  }

  predicate Consistent(s: State, es: seq<Event>) {
    forall k :: 0 <= k < |es| ==> Fits(s, es[..k], es[k])
  }

  // ---- The threads -------------------------------------------------------------

  predicate IsTick(e: Event) { e.SeeAlive? || e.SeeNone? || e.ClearStop? || e.ClearUp? || e.Publish? || e.Start? }

  function TickOf(es: seq<Event>): seq<Event> {
    if es == [] then [] else (if IsTick(es[0]) then [es[0]] else []) + TickOf(es[1..])
  }

  function WorkerOf(i: nat, es: seq<Event>): seq<Event> {
    if es == [] then [] else (if IsOwn(i, es[0]) then [es[0]] else []) + WorkerOf(i, es[1..])
  }

  /** startWorker again and again; the program may have been cut off anywhere. */
  predicate Requests(es: seq<Event>)
    decreases |es|
  {
    es == []
    || (es[0] == SeeAlive && Requests(es[1..]))
    || (es[0] == SeeNone && NewWorker(0, es[1..]))
  }

  /** The rest of a startWorker that found no live worker, after `k` of its steps. */
  predicate NewWorker(k: nat, es: seq<Event>)
    decreases |es|
  {
    es == []
    || (k < 3 && es[0] == [ClearStop, ClearUp, Publish][k] && NewWorker(k + 1, es[1..]))
    || (k == 3 && es[0] == Start && Requests(es[1..]))
  }

  predicate Body(i: nat, es: seq<Event>) {
    es == [] || (es[0] == Announce(i) && Parked(i, es[1..]))
  }

  predicate Parked(i: nat, es: seq<Event>) {
    es == [] || (es[0] == ReadStop(i, true) && Left(i, es[1..])) || (es[0] == ReadStop(i, false) && Timed(i, es[1..]))
  }

  predicate Timed(i: nat, es: seq<Event>) {
    es == [] || (es[0] == ReadClock(i, true) && Left(i, es[1..])) || (es[0] == ReadClock(i, false) && Asleep(i, es[1..]))
  }

  predicate Asleep(i: nat, es: seq<Event>) {
    es == [] || (es[0] == Wake(i, true) && Left(i, es[1..])) || (es[0] == Wake(i, false) && Parked(i, es[1..]))
  }

  predicate Left(i: nat, es: seq<Event>) { [Retract(i), Die(i)][..if |es| < 2 then |es| else 2] == es }

  // ---- The step system is the interleavings --------------------------------------

  predicate TickFrom(pc: TickPc, es: seq<Event>) {
    match pc
    case Outside => Requests(es)
    case Checked => NewWorker(0, es)
    case StopCleared => NewWorker(1, es)
    case UpCleared => NewWorker(2, es)
    case Published => NewWorker(3, es)
  }

  predicate WorkerFrom(i: nat, pc: WorkerPc, es: seq<Event>) {
    match pc
    case NotStarted => Body(i, es)
    case Begin => Body(i, es)
    case TestStop => Parked(i, es)
    case TestTime => Timed(i, es)
    case Sleeping => Asleep(i, es)
    case Leaving => Left(i, es)
    case Ending => es == [] || es == [Die(i)]
    case Dead => es == []
  }

  function PcOf(s: State, i: nat): WorkerPc { if i < |s.workers| then s.workers[i] else NotStarted }

  lemma TickStep(s: State, e: Event, rest: seq<Event>)
    requires Inv(s) && IsTick(e) && Fits(s, [], e)
    ensures TickFrom(s.tick, [e] + rest) <==> Enabled(s, e) && TickFrom(Apply(s, e).tick, rest)
  {
    var es := [e] + rest;
    assert es[0] == e && es[1..] == rest;
  }

  lemma WorkerStep(s: State, e: Event, i: nat, rest: seq<Event>)
    requires Inv(s) && IsOwn(i, e) && Fits(s, [], e)
    ensures WorkerFrom(i, PcOf(s, i), [e] + rest) <==> Enabled(s, e) && WorkerFrom(i, PcOf(Apply(s, e), i), rest)
  {
    var es := [e] + rest;
    assert es != [] && es[0] == e && es[1..] == rest;
    assert Left(i, es) <==> e == Retract(i) && (rest == [] || rest == [Die(i)]) by {
      if |es| >= 2 {
        assert es[1] == rest[0];
        assert [Retract(i), Die(i)][..2] == [Retract(i), Die(i)];
      }
    }
    assert es == [Die(i)] <==> e == Die(i) && rest == [];
  }

  /** No step of another thread moves worker `i` within its program. */
  lemma OthersStay(s: State, e: Event, i: nat, es: seq<Event>)
    requires Inv(s) && Enabled(s, e) && !IsOwn(i, e)
    ensures WorkerFrom(i, PcOf(s, i), es) <==> WorkerFrom(i, PcOf(Apply(s, e), i), es)
  {
  }

  lemma StepFits(s: State, e: Event)
    requires Inv(s) && Enabled(s, e)
    ensures Fits(s, [], e)
  {
  }

  lemma {:induction false} WrittenFirst(e: Event, es: seq<Event>, stop: bool, up: bool)
    ensures StopAfter([e] + es, stop) == StopAfter(es, StopAfter([e], stop))
    ensures UpAfter([e] + es, up) == UpAfter(es, UpAfter([e], up))
    decreases |es|
  {
    if es == [] {
      assert [e] + es == [e];
    } else {
      var n := |es| - 1;
      assert ([e] + es)[..n + 1] == [e] + es[..n];
      WrittenFirst(e, es[..n], stop, up);
    }
  }

  lemma OneStep(s: State, e: Event)
    requires Inv(s) && Enabled(s, e)
    ensures var s' := Apply(s, e);
      && s'.stop == StopAfter([e], s.stop) && s'.threadUp == UpAfter([e], s.threadUp)
      && StartedIn(s') == StartedIn(s) + (if e == Start then 1 else 0)
      && forall i: nat :: DiedIn(s', i) <==> DiedIn(s, i) || e == Die(i)
  {
    assert [e][..0] == [];
  }

  lemma FitsAfterStep(s: State, e: Event, before: seq<Event>, next: Event)
    requires Inv(s) && Enabled(s, e)
    ensures Fits(s, [e] + before, next) <==> Fits(Apply(s, e), before, next)
  {
    OneStep(s, e);
    SameStarted(s, e, before);
    if next.ReadStop? {
      WrittenFirst(e, before, s.stop, s.threadUp);
    }
  }

  lemma SameStarted(s: State, e: Event, before: seq<Event>)
    requires Inv(s) && Enabled(s, e)
    ensures StartedIn(s) + Starts([e] + before) == StartedIn(Apply(s, e)) + Starts(before)
  {
    OneStep(s, e);
    assert ([e] + before)[1..] == before;
  }

  lemma ConsistentStep(s: State, e: Event, rest: seq<Event>)
    requires Inv(s) && Enabled(s, e)
    ensures Consistent(s, [e] + rest) <==> Consistent(Apply(s, e), rest)
  {
    var es, s' := [e] + rest, Apply(s, e);
    StepFits(s, e);
    forall k | 0 <= k < |rest| ensures Fits(s, es[..k + 1], es[k + 1]) <==> Fits(s', rest[..k], rest[k]) {
      assert es[..k + 1] == [e] + rest[..k];
      FitsAfterStep(s, e, rest[..k], rest[k]);
    }
    assert es[..0] == [] && es[0] == e;
    if Consistent(s, es) {
      forall k | 0 <= k < |rest| ensures Fits(s', rest[..k], rest[k]) {
        assert Fits(s, es[..k + 1], es[k + 1]);
      }
    }
    if Consistent(s', rest) {
      forall k | 0 <= k < |es| ensures Fits(s, es[..k], es[k]) {
        if k > 0 {
          assert Fits(s', rest[..k - 1], rest[k - 1]);
        }
      }
    }
  }

  lemma Parts(e: Event, rest: seq<Event>, i: nat)
    ensures TickOf([e] + rest) == if IsTick(e) then [e] + TickOf(rest) else TickOf(rest)
    ensures WorkerOf(i, [e] + rest) == if IsOwn(i, e) then [e] + WorkerOf(i, rest) else WorkerOf(i, rest)
  {
    assert ([e] + rest)[1..] == rest;
    assert [] + TickOf(rest) == TickOf(rest) && [] + WorkerOf(i, rest) == WorkerOf(i, rest);
  }

  predicate WorkerIn(s: State, i: nat, es: seq<Event>) { WorkerFrom(i, PcOf(s, i), WorkerOf(i, es)) }

  /** `s` is inside all programs, which go on with their parts of `es`. */
  ghost predicate Programs(s: State, es: seq<Event>) {
    TickFrom(s.tick, TickOf(es)) && forall i: nat :: WorkerIn(s, i, es)
  }

  lemma WorkerInStep(s: State, e: Event, i: nat, rest: seq<Event>)
    requires Inv(s) && Enabled(s, e)
    ensures WorkerIn(s, i, [e] + rest) <==> WorkerIn(Apply(s, e), i, rest)
  {
    Parts(e, rest, i);
    if IsOwn(i, e) {
      StepFits(s, e);
      WorkerStep(s, e, i, WorkerOf(i, rest));
    } else {
      OthersStay(s, e, i, WorkerOf(i, rest));
    }
  }

  lemma ProgramsStep(s: State, e: Event, rest: seq<Event>)
    requires Inv(s) && Fits(s, [], e)
    ensures Programs(s, [e] + rest) <==> Enabled(s, e) && Programs(Apply(s, e), rest)
  {
    Parts(e, rest, 0);
    if IsTick(e) {
      TickStep(s, e, TickOf(rest));
    }
    if Enabled(s, e) {
      var s' := Apply(s, e);
      assert IsTick(e) || s'.tick == s.tick;
      forall i: nat ensures WorkerIn(s, i, [e] + rest) <==> WorkerIn(s', i, rest) {
        WorkerInStep(s, e, i, rest);
      }
    } else if !IsTick(e) {
      assert IsOwn(e.i, e);
      Parts(e, rest, e.i);
      WorkerStep(s, e, e.i, WorkerOf(e.i, rest));
      assert !WorkerIn(s, e.i, [e] + rest);
    }
  }

  /** The same from any state. */
  lemma {:induction false} InterleavingsFrom(s: State, es: seq<Event>)
    requires Inv(s)
    ensures Run(s, es) <==> Programs(s, es) && Consistent(s, es)
    decreases |es|
  {
    if es == [] {
    } else {
      var e, rest := es[0], es[1..];
      assert es == [e] + rest;
      if Fits(s, [], e) {
        ProgramsStep(s, e, rest);
      } else {
        assert es[..0] == [];
      }
      if Enabled(s, e) {
        StepFits(s, e);
        InvStep(s, e);
        ConsistentStep(s, e, rest);
        InterleavingsFrom(Apply(s, e), rest);
      }
    }
  }

  /** The part of worker `i` is a part of its run(). */
  predicate IsBody(i: nat, es: seq<Event>) { Body(i, WorkerOf(i, es)) }

  /** From the start of the program: a sequence of events is a run exactly when the tick thread's part
      is startWorker again and again, the part of each worker is its run(), and every step fits what
      the other threads did before. */
  lemma RunsAreInterleavings(s0: State, es: seq<Event>)
    requires Init(s0)
    ensures Run(s0, es) <==>
      && Requests(TickOf(es))
      && (forall i: nat :: IsBody(i, es))
      && Consistent(State(false, false, [], Outside), es)
  {
    assert s0 == State(false, false, [], Outside);
    if Programs(s0, es) {
      forall i: nat ensures IsBody(i, es) {
        assert WorkerIn(s0, i, es);
      }
    }
    if forall i: nat :: IsBody(i, es) {
      forall i: nat ensures WorkerIn(s0, i, es) {
        assert IsBody(i, es);
      }
    }
    InterleavingsFrom(s0, es);
  }

  /** After every run both flags have the value last written. */
  lemma {:induction false} FlagsAreLastWrites(s: State, es: seq<Event>)
    requires Inv(s) && Run(s, es)
    ensures After(s, es).stop == StopAfter(es, s.stop) && After(s, es).threadUp == UpAfter(es, s.threadUp)
    decreases |es|
  {
    if es != [] {
      OneStep(s, es[0]);
      InvStep(s, es[0]);
      FlagsAreLastWrites(Apply(s, es[0]), es[1..]);
      assert es == [es[0]] + es[1..];
      WrittenFirst(es[0], es[1..], s.stop, s.threadUp);
    }
  }

  /** How often worker `i` comes out of a sleep. */
  function Wakes(i: nat, es: seq<Event>): nat {
    if es == [] then 0 else (if es[0].Wake? && es[0].i == i then 1 else 0) + Wakes(i, es[1..])
  }

  lemma SleepStep(s: State, e: Event, i: nat)
    requires Inv(s) && Enabled(s, e)
    ensures (if e == ReadClock(i, false) then 1 else 0) + (if PcOf(s, i) == Sleeping then 1 else 0)
         == (if e.Wake? && e.i == i then 1 else 0) + (if PcOf(Apply(s, e), i) == Sleeping then 1 else 0)
  {
  }

  /** Every entry into the loop body is a sleep. */
  lemma {:induction false} BodiesAreSleeps(s: State, es: seq<Event>, i: nat)
    requires Inv(s) && Run(s, es)
    ensures Bodies(i, es) + (if PcOf(s, i) == Sleeping then 1 else 0)
         == Wakes(i, es) + (if PcOf(After(s, es), i) == Sleeping then 1 else 0)
    decreases |es|
  {
    if es != [] {
      InvStep(s, es[0]);
      SleepStep(s, es[0], i);
      BodiesAreSleeps(Apply(s, es[0]), es[1..], i);
    }
  }
}
