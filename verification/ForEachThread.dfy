/** The worker thread of the ForEachThread fixture: the tick thread that starts it, the worker
    itself, and a native thread that raises and lowers `stop`, as a step system. */
module ForEachThread {

  /** Where one worker thread is. A thread is alive from start() until Dead. */
  datatype WorkerPc =
    | NotStarted
    | Begin         // started, about to announce threadUp := true
    | TestStop      // about to read stop
    | TestTime      // read stop == false, about to compare the clock with the deadline
    | Sleeping      // inside the loop body
    | Leaving       // loop left, about to write threadUp := false
    | Ending        // threadUp retracted, the thread is still alive
    | Dead

  predicate Alive(w: WorkerPc) { w != NotStarted && w != Dead }

  /** Between its announcement and its retraction of threadUp. */
  predicate Announced(w: WorkerPc) { w == TestStop || w == TestTime || w == Sleeping || w == Leaving }

  /** Where the tick thread is inside startWorker. */
  datatype TickPc = Outside | Checked | StopCleared | UpCleared | Published

  /** `workers` holds every thread object created so far; only the last one is in the `worker`
      field. */
  datatype State = State(stop: bool, threadUp: bool, workers: seq<WorkerPc>, tick: TickPc)

  datatype Event =
    // tick thread
    | SeeAlive              // startWorker finds a live worker and returns
    | SeeNone               // no worker, or a dead one
    | ClearStop
    | ClearUp
    | Publish               // the worker field gets the new thread
    | Start
    // native thread
    | RaiseStop
    | LowerStop
    // worker `i`
    | Announce(i: nat)
    | ReadStop(i: nat, value: bool)
    | ReadClock(i: nat, expired: bool)  // not expired: the loop body is entered
    | Wake(i: nat, interrupted: bool)
    | Retract(i: nat)
    | Die(i: nat)

  predicate Init(s: State) { !s.stop && !s.threadUp && s.workers == [] && s.tick == Outside }

  predicate LastAlive(s: State) { s.workers != [] && Alive(s.workers[|s.workers| - 1]) }

  predicate At(s: State, i: nat, w: WorkerPc) { i < |s.workers| && s.workers[i] == w }

  predicate Enabled(s: State, e: Event) {
    match e
    case SeeAlive => s.tick == Outside && LastAlive(s)
    case SeeNone => s.tick == Outside && !LastAlive(s)
    case ClearStop => s.tick == Checked
    case ClearUp => s.tick == StopCleared
    case Publish => s.tick == UpCleared
    case Start => s.tick == Published && s.workers != [] && s.workers[|s.workers| - 1] == NotStarted
    case RaiseStop => true
    case LowerStop => true
    case Announce(i) => At(s, i, Begin)
    case ReadStop(i, v) => At(s, i, TestStop) && v == s.stop
    case ReadClock(i, _) => At(s, i, TestTime)
    case Wake(i, _) => At(s, i, Sleeping)
    case Retract(i) => At(s, i, Leaving)
    case Die(i) => At(s, i, Ending)
  }

  function Apply(s: State, e: Event): State
    requires Enabled(s, e)
  {
    match e
    case SeeAlive => s
    case SeeNone => s.(tick := Checked)
    case ClearStop => s.(stop := false, tick := StopCleared)
    case ClearUp => s.(threadUp := false, tick := UpCleared)
    case Publish => s.(workers := s.workers + [NotStarted], tick := Published)
    case Start => s.(workers := s.workers[|s.workers| - 1 := Begin], tick := Outside)
    case RaiseStop => s.(stop := true)
    case LowerStop => s.(stop := false)
    case Announce(i) => s.(threadUp := true, workers := s.workers[i := TestStop])
    case ReadStop(i, v) => s.(workers := s.workers[i := if v then Leaving else TestTime])
    case ReadClock(i, expired) => s.(workers := s.workers[i := if expired then Leaving else Sleeping])
    case Wake(i, interrupted) => s.(workers := s.workers[i := if interrupted then Leaving else TestStop])
    case Retract(i) => s.(threadUp := false, workers := s.workers[i := Ending])
    case Die(i) => s.(workers := s.workers[i := Dead])
  }

  predicate Run(s: State, es: seq<Event>)
    decreases |es|
  {
    es == [] || (Enabled(s, es[0]) && Run(Apply(s, es[0]), es[1..]))
  }

  function After(s: State, es: seq<Event>): State
    requires Run(s, es)
    decreases |es|
  {
    if es == [] then s else After(Apply(s, es[0]), es[1..])
  }

  /** Only the last worker may be alive, and only while the tick thread is not replacing it;
      threadUp is true exactly while that worker has announced and not yet retracted it. */
  predicate Inv(s: State) {
    var n := |s.workers|;
    && (forall i :: 0 <= i < n - 1 ==> s.workers[i] == Dead)
    && (s.tick == Checked || s.tick == StopCleared || s.tick == UpCleared ==> n == 0 || s.workers[n - 1] == Dead)
    && (s.tick == Published <==> n > 0 && s.workers[n - 1] == NotStarted)
    && (s.threadUp <==> n > 0 && Announced(s.workers[n - 1]))
  }

  lemma InvStep(s: State, e: Event)
    requires Inv(s) && Enabled(s, e)
    ensures Inv(Apply(s, e))
  {
  }

  lemma {:induction false} InvRun(s: State, es: seq<Event>)
    requires Inv(s) && Run(s, es)
    ensures Inv(After(s, es))
    decreases |es|
  {
    if es != [] {
      InvStep(s, es[0]);
      InvRun(Apply(s, es[0]), es[1..]);
    }
  }

  /** At every moment of every run at most one worker is alive, and threadUp tells that one is
      alive and parked or on its way out. */
  lemma AtMostOneWorker(s0: State, es: seq<Event>)
    requires Init(s0) && Run(s0, es)
    ensures var s := After(s0, es);
      && (forall i, j :: 0 <= i < j < |s.workers| ==> !(Alive(s.workers[i]) && Alive(s.workers[j])))
      && (s.threadUp <==> exists i :: 0 <= i < |s.workers| && Announced(s.workers[i]))
  {
    InvRun(s0, es);
    var s := After(s0, es);
    if s.threadUp {
      assert Announced(s.workers[|s.workers| - 1]);
    }
  }

  /** How often worker `i` enters its loop body. */
  function Bodies(i: nat, es: seq<Event>): nat {
    if es == [] then 0 else (if es[0] == ReadClock(i, false) then 1 else 0) + Bodies(i, es[1..])
  }

  /** The steps worker `i` itself takes. */
  function Own(i: nat, es: seq<Event>): nat {
    if es == [] then 0 else (if IsOwn(i, es[0]) then 1 else 0) + Own(i, es[1..])
  }

  predicate IsOwn(i: nat, e: Event) {
    match e
    case Announce(j) => i == j
    case ReadStop(j, _) => i == j
    case ReadClock(j, _) => i == j
    case Wake(j, _) => i == j
    case Retract(j) => i == j
    case Die(j) => i == j
    case _ => false
  }

  /** An upper bound on the steps a worker still takes once stop is up. */
  function Remaining(w: WorkerPc): nat {
    match w
    case TestTime => 5
    case Sleeping => 4
    case Begin => 4
    case TestStop => 3
    case Leaving => 2
    case Ending => 1
    case _ => 0
  }

  lemma StopStep(s: State, e: Event, i: nat)
    requires Inv(s) && Enabled(s, e) && e != LowerStop
    requires i < |s.workers| && Alive(s.workers[i]) && s.stop
    ensures var s' := Apply(s, e);
      && Inv(s') && s'.stop && i < |s'.workers| && s'.workers[i] != NotStarted
      && Remaining(s'.workers[i]) + (if IsOwn(i, e) then 1 else 0) <= Remaining(s.workers[i])
      && (s'.workers[i] == TestTime || e == ReadClock(i, false) ==> s.workers[i] == TestTime)
      && (e == ReadClock(i, false) ==> s'.workers[i] == Sleeping)
  {
    InvStep(s, e);
  }

  /** A stop raised while the worker lives is not lost unless the native side itself lowers it: it
      stays up until the worker is dead, the worker enters its loop body at most once more, and it
      is dead after at most five further steps of its own, whatever the other threads do. */
  lemma {:induction false} StopIsHonoured(s: State, es: seq<Event>, i: nat)
    requires Inv(s) && Run(s, es) && i < |s.workers| && Alive(s.workers[i]) && s.stop && LowerStop !in es
    ensures var s' := After(s, es);
      i < |s'.workers| && s'.workers[i] != NotStarted && (Alive(s'.workers[i]) ==> s'.stop && Remaining(s'.workers[i]) + Own(i, es) <= Remaining(s.workers[i]))
    ensures Bodies(i, es) <= if s.workers[i] == TestTime then 1 else 0
    ensures Own(i, es) <= Remaining(s.workers[i]) <= 5
    decreases |es|
  {
    if es != [] {
      var s1 := Apply(s, es[0]);
      StopStep(s, es[0], i);
      if s1.workers[i] == Dead {
        DeadStays(s1, es[1..], i);
      } else {
        StopIsHonoured(s1, es[1..], i);
      }
    }
  }

  lemma {:induction false} DeadStays(s: State, es: seq<Event>, i: nat)
    requires Run(s, es) && i < |s.workers| && s.workers[i] == Dead && Inv(s)
    ensures var s' := After(s, es); i < |s'.workers| && s'.workers[i] == Dead
    ensures Bodies(i, es) == 0 && Own(i, es) == 0
    decreases |es|
  {
    if es != [] {
      InvStep(s, es[0]);
      DeadStays(Apply(s, es[0]), es[1..], i);
    }
  }

  /** The loop is left for good: worker `i` has no further step in its body. */
  predicate LeftLoop(w: WorkerPc) { w == Leaving || w == Ending || w == Dead }

  lemma {:induction false} LeftLoopStays(s: State, es: seq<Event>, i: nat)
    requires Run(s, es) && Inv(s) && i < |s.workers| && LeftLoop(s.workers[i])
    ensures var s' := After(s, es); i < |s'.workers| && LeftLoop(s'.workers[i])
    ensures Bodies(i, es) == 0
    decreases |es|
  {
    if es != [] {
      InvStep(s, es[0]);
      LeftLoopStays(Apply(s, es[0]), es[1..], i);
    }
  }

  /** Each of the three ways out of the loop is final: a stop seen, a deadline passed, a sleep
      interrupted. */
  lemma WaysOut(s: State, e: Event, es: seq<Event>, i: nat)
    requires Inv(s) && Run(s, [e] + es) && (e == ReadStop(i, true) || e == ReadClock(i, true) || e == Wake(i, true))
    ensures Bodies(i, es) == 0
  {
    assert ([e] + es)[0] == e && ([e] + es)[1..] == es;
    InvStep(s, e);
    LeftLoopStays(Apply(s, e), es, i);
  }

  // ---- A stop raised while no worker lives -----------------------------------

  /** startWorker has cleared stop for the worker it is about to start. */
  predicate PastClearing(s: State) { s.tick == StopCleared || s.tick == UpCleared || s.tick == Published }

  /** The index of the worker that is started next. */
  function NextWorker(s: State): nat {
    if s.tick == Published && s.workers != [] then |s.workers| - 1 else |s.workers|
  }

  /** Worker `n` does not run, or still has to run, without the stop. */
  predicate Kept(s: State, n: nat) { n >= |s.workers| || s.workers[n] == Dead || s.stop }

  lemma {:induction false} KeptWhenPastClearing(s: State, es: seq<Event>)
    requires Inv(s) && Run(s, es) && s.stop && PastClearing(s) && LowerStop !in es
    ensures Kept(After(s, es), NextWorker(s))
    decreases |es|
  {
    if es != [] {
      InvStep(s, es[0]);
      var s1 := Apply(s, es[0]);
      if es[0].Start? {
        StopIsHonoured(s1, es[1..], NextWorker(s));
      } else {
        KeptWhenPastClearing(s1, es[1..]);
      }
    }
  }

  lemma FirstStep(s: State, e: Event, end: State, rest: seq<Event>)
    requires Enabled(s, e) && Run(Apply(s, e), rest) && After(Apply(s, e), rest) == end
    ensures Run(s, [e] + rest) && After(s, [e] + rest) == end
  {
    assert ([e] + rest)[1..] == rest;
  }

  lemma StartsWithoutStop(s: State)
    requires Inv(s) && s.tick == UpCleared && !s.stop
    ensures exists es :: Run(s, es) && LowerStop !in es && !Kept(After(s, es), |s.workers|)
  {
    var i := |s.workers|;
    var s2 := s.(workers := s.workers + [Begin], tick := Outside);
    var s3 := Apply(s2, Announce(i));
    FirstStep(s2, Announce(i), s3, []);
    NextWorkerBegins(s, [Announce(i)] + [], s3);
    assert !Kept(s3, i);
  }

  lemma NextWorkerBegins(s: State, rest: seq<Event>, end: State)
    requires s.tick == UpCleared
    requires var begun := s.(workers := s.workers + [Begin], tick := Outside); Run(begun, rest) && After(begun, rest) == end
    ensures Run(s, [Publish] + ([Start] + rest)) && After(s, [Publish] + ([Start] + rest)) == end
  {
    var s1 := Apply(s, Publish);
    assert Apply(s1, Start) == s.(workers := s.workers + [Begin], tick := Outside);
    FirstStep(s1, Start, end, rest);
    FirstStep(s, Publish, end, [Start] + rest);
  }

  lemma LostFromCheck(s: State)
    requires Inv(s) && s.tick == Checked
    ensures exists es :: Run(s, es) && LowerStop !in es && !Kept(After(s, es), |s.workers|)
  {
    var s1 := Apply(s, ClearStop);
    InvStep(s, ClearStop);
    var s2 := Apply(s1, ClearUp);
    InvStep(s1, ClearUp);
    StartsWithoutStop(s2);
    var es :| Run(s2, es) && LowerStop !in es && !Kept(After(s2, es), |s2.workers|);
    FirstStep(s1, ClearUp, After(s2, es), es);
    FirstStep(s, ClearStop, After(s2, es), [ClearUp] + es);
  }

  /** A stop raised while no worker lives reaches the worker started next exactly when startWorker
      is already past its clearing of stop; otherwise there is a run in which that worker is up
      and running with the stop gone, although the native side has not lowered it. */
  lemma StopReachesNextWorkerIff(s0: State, before: seq<Event>)
    requires Init(s0) && Run(s0, before)
    ensures var s := After(s0, before);
      s.stop && !LastAlive(s) ==>
        (PastClearing(s) <==> forall es :: Run(s, es) && LowerStop !in es ==> Kept(After(s, es), NextWorker(s)))
  {
    InvRun(s0, before);
    var s := After(s0, before);
    if s.stop && !LastAlive(s) {
      if PastClearing(s) {
        forall es | Run(s, es) && LowerStop !in es ensures Kept(After(s, es), NextWorker(s)) {
          KeptWhenPastClearing(s, es);
        }
      } else if s.tick == Checked {
        LostFromCheck(s);
      } else {
        var s1 := Apply(s, SeeNone);
        InvStep(s, SeeNone);
        LostFromCheck(s1);
        var es :| Run(s1, es) && LowerStop !in es && !Kept(After(s1, es), |s1.workers|);
        FirstStep(s, SeeNone, After(s1, es), es);
      }
    }
  }

  // ---- A start that finds the old worker on its way out ------------------------

  /** No new worker is begun: the tick thread at most finds the old one alive. */
  predicate NoNewWorker(es: seq<Event>) { SeeNone !in es }

  /** However long the native side waits, threadUp stays down. */
  ghost predicate NeverUp(s: State) { forall es :: Run(s, es) && NoNewWorker(es) ==> !After(s, es).threadUp }

  lemma {:induction false} EndingStaysDown(s: State, es: seq<Event>)
    requires Inv(s) && Run(s, es) && NoNewWorker(es)
    requires s.tick == Outside && (LastAlive(s) ==> s.workers[|s.workers| - 1] == Ending)
    ensures !After(s, es).threadUp
    decreases |es|
  {
    if es != [] {
      InvStep(s, es[0]);
      EndingStaysDown(Apply(s, es[0]), es[1..]);
    }
  }

  /** A live worker that has not retracted is announced, or can announce itself. */
  lemma CanBeUp(s: State)
    requires Inv(s) && LastAlive(s) && s.workers[|s.workers| - 1] != Ending
    ensures !NeverUp(s)
  {
    var i := |s.workers| - 1;
    if s.workers[i] == Begin {
      var s1 := Apply(s, Announce(i));
      FirstStep(s, Announce(i), s1, []);
      assert After(s, [Announce(i)] + []).threadUp && NoNewWorker([Announce(i)] + []);
    } else {
      assert Run(s, []) && After(s, []) == s && NoNewWorker([]);
    }
  }

  /** A second request for a worker is a no-op while the first one is alive. It leaves the native
      side without any worker, waiting for a threadUp that does not come, exactly when the old
      worker has already retracted threadUp and not yet died. */
  lemma NoOpStartIsLostIff(s0: State, before: seq<Event>)
    requires Init(s0) && Run(s0, before + [SeeAlive])
    ensures var s := After(s0, before + [SeeAlive]);
      LastAlive(s) &&
      (NeverUp(s) <==> s.workers[|s.workers| - 1] == Ending)
  {
    InvRun(s0, before + [SeeAlive]);
    var s := After(s0, before + [SeeAlive]);
    LastStep(s0, before, SeeAlive);
    if s.workers[|s.workers| - 1] == Ending {
      forall es | Run(s, es) && NoNewWorker(es) ensures !After(s, es).threadUp {
        EndingStaysDown(s, es);
      }
    } else {
      CanBeUp(s);
    }
  }

  lemma {:induction false} LastStep(s: State, es: seq<Event>, e: Event)
    requires Run(s, es + [e])
    ensures Run(s, es) && Enabled(After(s, es), e) && After(s, es + [e]) == Apply(After(s, es), e)
    decreases |es|
  {
    if es == [] {
      assert es + [e] == [e] && [e][1..] == [];
    } else {
      assert (es + [e])[1..] == es[1..] + [e];
      LastStep(Apply(s, es[0]), es[1..], e);
    }
  }

  /** Such a moment is reached: the first worker is stopped, and the next request comes before it
      is dead. */
  lemma NoOpStartCanBeLost(s0: State)
    requires Init(s0)
    ensures exists before :: Run(s0, before + [SeeAlive]) && NeverUp(After(s0, before + [SeeAlive]))
  {
    var before := BeginFirst(StopFirst([]));
    var dying := State(true, false, [Ending], Outside);
    FirstStep(dying, SeeAlive, dying, []);
    StopFirstRuns(State(false, false, [Begin], Outside), [SeeAlive] + [], dying);
    BeginFirstRuns(s0, StopFirst([SeeAlive] + []), dying);
    ThenSeeAlive();
    NoOpStartIsLostIff(s0, before);
  }

  /** The first request of the program, up to the start of the worker. */
  function BeginFirst(rest: seq<Event>): seq<Event> {
    [SeeNone] + ([ClearStop] + ([ClearUp] + ([Publish] + ([Start] + rest))))
  }

  lemma BeginFirstRuns(s0: State, rest: seq<Event>, end: State)
    requires Init(s0)
    requires Run(State(false, false, [Begin], Outside), rest) && After(State(false, false, [Begin], Outside), rest) == end
    ensures Run(s0, BeginFirst(rest)) && After(s0, BeginFirst(rest)) == end
  {
    var s1 := Apply(s0, SeeNone);
    var s2 := Apply(s1, ClearStop);
    var s3 := Apply(s2, ClearUp);
    var s4 := Apply(s3, Publish);
    assert Apply(s4, Start) == State(false, false, [Begin], Outside);
    FirstStep(s4, Start, end, rest);
    FirstStep(s3, Publish, end, [Start] + rest);
    FirstStep(s2, ClearUp, end, [Publish] + ([Start] + rest));
    FirstStep(s1, ClearStop, end, [ClearUp] + ([Publish] + ([Start] + rest)));
    FirstStep(s0, SeeNone, end, [ClearStop] + ([ClearUp] + ([Publish] + ([Start] + rest))));
  }

  lemma ThenSeeAlive()
    ensures BeginFirst(StopFirst([])) + [SeeAlive] == BeginFirst(StopFirst([SeeAlive] + []))
  {
  }

  /** The first worker announces itself, is stopped and retracts the announcement. */
  function StopFirst(rest: seq<Event>): seq<Event> {
    [Announce(0)] + ([RaiseStop] + ([ReadStop(0, true)] + ([Retract(0)] + rest)))
  }

  lemma StopFirstRuns(s: State, rest: seq<Event>, end: State)
    requires s == State(false, false, [Begin], Outside)
    requires Run(State(true, false, [Ending], Outside), rest) && After(State(true, false, [Ending], Outside), rest) == end
    ensures Run(s, StopFirst(rest)) && After(s, StopFirst(rest)) == end
  {
    var s1 := Apply(s, Announce(0));
    var s2 := Apply(s1, RaiseStop);
    var s3 := Apply(s2, ReadStop(0, true));
    assert Apply(s3, Retract(0)) == State(true, false, [Ending], Outside);
    FirstStep(s3, Retract(0), end, rest);
    FirstStep(s2, ReadStop(0, true), end, [Retract(0)] + rest);
    FirstStep(s1, RaiseStop, end, [ReadStop(0, true)] + ([Retract(0)] + rest));
    FirstStep(s, Announce(0), end, [RaiseStop] + ([ReadStop(0, true)] + ([Retract(0)] + rest)));
  }
}
