/** Whole runs of probe cycles, over any number of probes. */
module Campaign {
  import opened Handshake
  import opened HandshakeSafety
  import opened HandshakeFreshness

  /** One cycle of probe `p`, which is meant to run under `mode`: whatever happens in `setup`, the
      reset of `done` where the driver makes one, whatever happens in `arm`, then run_java_probe up
      to its return, which reports `ok`. All parts hold steps of both threads, interleaved in any
      way. */
  datatype Job = Job(p: nat, mode: int, resets: bool, setup: seq<Event>, arm: seq<Event>, cycle: seq<Event>, ok: bool)
  {
    function Opening(): seq<Event> { setup + (if resets then [ResetDone(p)] else []) }

    function Call(): seq<Event> { [RaiseGo(p)] + (cycle + [Return(p, ok)]) }

    function Events(): seq<Event> { Opening() + (arm + Call()) }

    /** The worker makes no other reset and raises no other `go`; `done` is down before it arms
        the probe, and the mode is the job's when it raises `go`, wherever it was set. */
    predicate WellFormed(cfg: Config, s: State)
      requires |s.flags| == cfg.probes
    {
      && p < cfg.probes
      && Run(cfg, s, Events())
      && NoResetOrRaise(setup) && NoResetOrRaise(arm) && (forall e <- cycle :: InCall(e))
      && Run(cfg, s, Opening()) && !After(cfg, s, Opening()).flags[p].done
      && Run(cfg, After(cfg, s, Opening()), arm) && After(cfg, After(cfg, s, Opening()), arm).flags[p].mode == mode
    }

    /** Before the probe is armed, either the Java thread is outside it, or the mode is already
        the job's and stays so. A driver that sets the mode before the reset always is in the
        second case. */
    predicate Safe(cfg: Config, s: State)
      requires |s.flags| == cfg.probes && WellFormed(cfg, s)
    {
      var ready := After(cfg, s, Opening());
      Quiescent(ready, p) || (ready.flags[p].mode == mode && SetsOnly(p, mode, arm))
    }

    /** The worker's own steps of a rising-edge driver: clear `done`, set the mode, run_java_probe. */
    predicate RisingEdge() {
      && resets
      && (forall e <- setup :: IsJava(e))
      && exists k :: 0 <= k < |arm| && arm[k] == SetMode(p, mode) && forall i :: 0 <= i < |arm| && i != k ==> IsJava(arm[i])
    }
  }

  predicate NoResetOrRaise(es: seq<Event>) { forall e <- es :: !e.ResetDone? && !e.RaiseGo? }

  /** The jobs can be run one after the other from `s`. */
  predicate Jobs(cfg: Config, s: State, jobs: seq<Job>)
    requires |s.flags| == cfg.probes
    decreases |jobs|
  {
    jobs == [] || (jobs[0].WellFormed(cfg, s) && Jobs(cfg, After(cfg, s, jobs[0].Events()), jobs[1..]))
  }

  lemma FirstJob(cfg: Config, s: State, j: Job, rest: seq<Job>)
    requires |s.flags| == cfg.probes && j.WellFormed(cfg, s)
    ensures Jobs(cfg, s, [j] + rest) <==> Jobs(cfg, After(cfg, s, j.Events()), rest)
    ensures AllEvents([j] + rest) == j.Events() + AllEvents(rest)
  {
    assert ([j] + rest)[1..] == rest;
  }

  /** All jobs of `q` are safe where they are run. */
  predicate SafeJobs(cfg: Config, s: State, jobs: seq<Job>, q: nat)
    requires |s.flags| == cfg.probes && Jobs(cfg, s, jobs)
    decreases |jobs|
  {
    jobs == [] || ((jobs[0].p == q ==> jobs[0].Safe(cfg, s)) && SafeJobs(cfg, After(cfg, s, jobs[0].Events()), jobs[1..], q))
  }

  function AllEvents(jobs: seq<Job>): seq<Event> {
    if jobs == [] then [] else jobs[0].Events() + AllEvents(jobs[1..])
  }

  /** The modes requested of probe `q`, in order. */
  function Requested(q: nat, jobs: seq<Job>): seq<int> {
    if jobs == [] then [] else (if jobs[0].p == q then [jobs[0].mode] else []) + Requested(q, jobs[1..])
  }

  /** The cycles of `q` all reported success. */
  predicate AllOk(q: nat, jobs: seq<Job>) { forall j <- jobs :: j.p == q ==> j.ok }

  /** How many of them did. */
  function Successes(q: nat, jobs: seq<Job>): nat {
    if jobs == [] then 0 else (if jobs[0].p == q && jobs[0].ok then 1 else 0) + Successes(q, jobs[1..])
  }

  lemma {:induction false} SuccessesOfAll(q: nat, jobs: seq<Job>)
    requires AllOk(q, jobs)
    ensures Successes(q, jobs) == |Requested(q, jobs)|
  {
    if jobs != [] {
      assert jobs[0] in jobs;
      SuccessesOfAll(q, jobs[1..]);
    }
  }

  /** `done` is latched or the Java thread is outside the probe: so it is before the first cycle
      and after a successful one. */
  predicate Settled(cfg: Config, s: State, q: nat) {
    Inv(cfg, s, q) && !s.flags[q].go && (s.flags[q].done || Quiescent(s, q))
  }

  lemma {:induction false} SettledStretch(cfg: Config, s: State, es: seq<Event>, q: nat)
    requires Settled(cfg, s, q) && Run(cfg, s, es) && NoReset(q, es) && NoRaise(q, es)
    ensures Settled(cfg, After(cfg, s, es), q) && Completed(q, es) == []
    decreases |es|
  {
    if es != [] {
      SettledStretch(cfg, Apply(cfg, s, es[0]), es[1..], q);
    }
  }

  /** A completion of `q` that may still come before its next cycle. */
  function Owed(cfg: Config, s: State, q: nat): nat {
    if Settled(cfg, s, q) then 0 else 1
  }

  /** Between two cycles. */
  predicate Between(cfg: Config, s: State, q: nat) { Inv(cfg, s, q) && s.native.Setup? }

  /** While `q` has no cycle, it completes at most what is owed. */
  lemma IdleStretch(cfg: Config, s: State, es: seq<Event>, q: nat)
    requires Between(cfg, s, q) && Run(cfg, s, es) && NoReset(q, es) && NoRaise(q, es)
    ensures Inv(cfg, After(cfg, s, es), q) && !After(cfg, s, es).flags[q].go
    ensures |Completed(q, es)| + Owed(cfg, After(cfg, s, es), q) <= Owed(cfg, s, q)
  {
    InvRun(cfg, s, es, q);
    StartsWhileLowered(cfg, s, es, q);
    CompletionLedger(cfg, s, es, q);
    if Settled(cfg, s, q) {
      SettledStretch(cfg, s, es, q);
    }
  }

  // ---- One job ---------------------------------------------------------------

  /** The state when the probe is about to be armed. */
  lemma Opened(cfg: Config, s: State, j: Job)
    requires j.p < cfg.probes && Settled(cfg, s, j.p) && j.WellFormed(cfg, s)
    ensures var s1 := After(cfg, s, j.Opening());
      Inv(cfg, s1, j.p) && !s1.flags[j.p].go && !InAction(s1, j.p) && (j.resets || Quiescent(s1, j.p))
    ensures Completed(j.p, j.Opening()) == []
  {
    var reset := if j.resets then [ResetDone(j.p)] else [];
    RunSplit(cfg, s, j.setup, reset);
    SettledStretch(cfg, s, j.setup, j.p);
    CompletedSplit(j.p, j.setup, reset);
    if j.resets {
      var s1 := After(cfg, s, j.setup);
      assert reset[0] == ResetDone(j.p) && reset[1..] == [];
      InvStep(cfg, s1, ResetDone(j.p), j.p);
    }
  }

  lemma AfterOpening(cfg: Config, s: State, j: Job)
    requires |s.flags| == cfg.probes && j.WellFormed(cfg, s)
    ensures var s1 := After(cfg, s, j.Opening());
      && Run(cfg, s1, j.arm + j.Call()) && After(cfg, s, j.Events()) == After(cfg, s1, j.arm + j.Call())
      && Run(cfg, After(cfg, s1, j.arm), j.Call())
    ensures j.Call() == ([RaiseGo(j.p)] + j.cycle) + [Return(j.p, j.ok)]
    ensures j.arm + j.Call() == (j.arm + ([RaiseGo(j.p)] + j.cycle)) + [Return(j.p, j.ok)]
    ensures NoReset(j.p, j.arm + ([RaiseGo(j.p)] + j.cycle)) && NoReset(j.p, [RaiseGo(j.p)] + j.cycle)
  {
    RunSplit(cfg, s, j.Opening(), j.arm + j.Call());
    RunSplit(cfg, After(cfg, s, j.Opening()), j.arm, j.Call());
  }

  /** A stretch from a state in which `done` is down completes as often as its return reports, and
      settles if it reports success. */
  lemma CallReports(cfg: Config, s: State, p: nat, es: seq<Event>, ok: bool)
    requires Inv(cfg, s, p) && !s.flags[p].done && Run(cfg, s, es + [Return(p, ok)]) && NoReset(p, es)
    ensures |Completed(p, es)| == Bit(ok) && Completed(p, es + [Return(p, ok)]) == Completed(p, es)
    ensures var s' := After(cfg, s, es + [Return(p, ok)]); Between(cfg, s', p) && (ok ==> Settled(cfg, s', p))
  {
    var ret := [Return(p, ok)];
    RunSplit(cfg, s, es, ret);
    CompletionLedger(cfg, s, es, p);
    InvRun(cfg, s, es, p);
    var s1 := After(cfg, s, es);
    assert ret[0] == Return(p, ok) && ret[1..] == [];
    InvStep(cfg, s1, Return(p, ok), p);
    assert After(cfg, s1, ret) == Apply(cfg, s1, Return(p, ok));
    CompletedSplit(p, es, ret);
  }

  /** What is owed may complete before the reset of the next cycle, or not at all. */
  lemma OpeningPays(cfg: Config, s: State, j: Job)
    requires j.p < cfg.probes && Between(cfg, s, j.p) && j.WellFormed(cfg, s)
    ensures Inv(cfg, After(cfg, s, j.Opening()), j.p) && |Completed(j.p, j.Opening())| <= Owed(cfg, s, j.p)
  {
    var reset := if j.resets then [ResetDone(j.p)] else [];
    RunSplit(cfg, s, j.setup, reset);
    IdleStretch(cfg, s, j.setup, j.p);
    CompletedSplit(j.p, j.setup, reset);
    if j.resets {
      var s1 := After(cfg, s, j.setup);
      assert reset[0] == ResetDone(j.p) && reset[1..] == [];
      InvStep(cfg, s1, ResetDone(j.p), j.p);
    }
  }

  /** A cycle of `q` completes its action at least once if it succeeds, and at most once apart from
      what was owed; one that fails may owe a completion. */
  lemma OwnJobCount(cfg: Config, s: State, j: Job)
    requires j.p < cfg.probes && Between(cfg, s, j.p) && j.WellFormed(cfg, s)
    ensures Between(cfg, After(cfg, s, j.Events()), j.p) && (j.ok ==> Settled(cfg, After(cfg, s, j.Events()), j.p))
    ensures Bit(j.ok) <= |Completed(j.p, j.Events())|
    ensures |Completed(j.p, j.Events())| + Owed(cfg, After(cfg, s, j.Events()), j.p) <= 1 + Owed(cfg, s, j.p)
    ensures |Completed(j.p, j.arm + ([RaiseGo(j.p)] + j.cycle))| == Bit(j.ok)
    ensures Completed(j.p, j.Events()) == Completed(j.p, j.Opening()) + Completed(j.p, j.arm + ([RaiseGo(j.p)] + j.cycle))
  {
    OpeningPays(cfg, s, j);
    AfterOpening(cfg, s, j);
    CallReports(cfg, After(cfg, s, j.Opening()), j.p, j.arm + ([RaiseGo(j.p)] + j.cycle), j.ok);
    CompletedSplit(j.p, j.Opening(), j.arm + j.Call());
  }

  /** From a settled state a successful cycle completes the action exactly once. */
  lemma OwnJobOnce(cfg: Config, s: State, j: Job)
    requires j.p < cfg.probes && Settled(cfg, s, j.p) && s.native.Setup? && j.WellFormed(cfg, s) && j.ok
    ensures Settled(cfg, After(cfg, s, j.Events()), j.p) && After(cfg, s, j.Events()).native.Setup?
    ensures |Completed(j.p, j.Events())| == 1
    ensures Completed(j.p, j.Events()) == Completed(j.p, j.arm + ([RaiseGo(j.p)] + j.cycle))
  {
    OwnJobCount(cfg, s, j);
    Opened(cfg, s, j);
  }

  /** From outside the probe nothing happens while it is armed. */
  lemma QuietArm(cfg: Config, s: State, p: nat, arm: seq<Event>)
    requires Inv(cfg, s, p) && !s.flags[p].go && !s.flags[p].done && Quiescent(s, p)
    requires Run(cfg, s, arm) && NoResetOrRaise(arm)
    ensures Completed(p, arm) == []
    ensures var s' := After(cfg, s, arm); Inv(cfg, s', p) && !s'.flags[p].done && Quiescent(s', p)
  {
    SettledStretch(cfg, s, arm, p);
    CompletionLedger(cfg, s, arm, p);
  }

  /** While `go` is down, an action that is under way under `m`, or that can only read `m`, is the
      only one that completes. */
  lemma {:induction false} ArmKeepsMode(cfg: Config, s: State, p: nat, m: int, arm: seq<Event>)
    requires |s.flags| == cfg.probes && p < cfg.probes && !s.flags[p].go
    requires Run(cfg, s, arm) && NoRaise(p, arm) && SetsOnly(p, m, arm)
    requires ModeSafe(s, p, m) && (s.flags[p].mode == m || (s.java != SeenGo(p) && s.java != Entered(p)))
    ensures ModeSafe(After(cfg, s, arm), p, m) && forall x <- Completed(p, arm) :: x == m
    decreases |arm|
  {
    if arm != [] {
      ArmKeepsMode(cfg, Apply(cfg, s, arm[0]), p, m, arm[1..]);
    }
  }

  /** From an armed probe, the call completes the action under its mode: at the arming the Java
      thread is outside the probe, or what it does there reads `m` and the worker sets only `m`. */
  lemma SafeCall(cfg: Config, s: State, p: nat, m: int, arm: seq<Event>, call: seq<Event>)
    requires Inv(cfg, s, p) && !s.flags[p].go && !s.flags[p].done
    requires Succeeds(cfg, s, p, arm + call) && NoResetOrRaise(arm) && NoSetMode(p, call)
    requires Run(cfg, s, arm) && After(cfg, s, arm).flags[p].mode == m && Succeeds(cfg, After(cfg, s, arm), p, call)
    requires Quiescent(s, p) || (ModeRead(s, p) == m && SetsOnly(p, m, arm))
    ensures Completed(p, arm + call) == [m]
  {
    if Quiescent(s, p) {
      QuietArm(cfg, s, p, arm);
      SucceedsUnder(cfg, After(cfg, s, arm), p, m, call);
      CompletedSplit(p, arm, call);
    } else {
      InsideCall(cfg, s, p, m, arm, call);
    }
  }

  lemma InsideCall(cfg: Config, s: State, p: nat, m: int, arm: seq<Event>, call: seq<Event>)
    requires Inv(cfg, s, p) && !s.flags[p].go && !s.flags[p].done && !Quiescent(s, p)
    requires Succeeds(cfg, s, p, arm + call) && NoResetOrRaise(arm) && NoSetMode(p, call)
    requires Run(cfg, s, arm) && After(cfg, s, arm).flags[p].mode == m && Succeeds(cfg, After(cfg, s, arm), p, call)
    requires ModeRead(s, p) == m && SetsOnly(p, m, arm)
    ensures Completed(p, arm + call) == [m]
  {
    var armed := After(cfg, s, arm);
    ArmKeepsMode(cfg, s, p, m, arm);
    RunSplit(cfg, armed, call, [Return(p, true)]);
    ModesAre(cfg, armed, call, p, m);
    CompletedSplit(p, arm, call);
    CallReports(cfg, s, p, arm + call, true);
    OneOf(Completed(p, arm), Completed(p, call), m);
  }

  lemma OneOf(a: seq<int>, b: seq<int>, m: int)
    requires |a + b| == 1 && (forall x <- a :: x == m) && (forall x <- b :: x == m)
    ensures a + b == [m]
  {
    var all := a + b;
    assert all[0] == if a == [] then b[0] else a[0];
    assert a == [] || a[0] in a;
    assert b == [] || b[0] in b;
    assert all[0] == m;
    assert all == [all[0]];
  }

  /** A safe job completes it under the job's mode. */
  lemma OwnJobMode(cfg: Config, s: State, j: Job)
    requires j.p < cfg.probes && Settled(cfg, s, j.p) && s.native.Setup? && j.WellFormed(cfg, s) && j.ok && j.Safe(cfg, s)
    ensures Completed(j.p, j.Events()) == [j.mode]
  {
    OwnJobOnce(cfg, s, j);
    Opened(cfg, s, j);
    AfterOpening(cfg, s, j);
    SafeCall(cfg, After(cfg, s, j.Opening()), j.p, j.mode, j.arm, [RaiseGo(j.p)] + j.cycle);
  }

  /** A cycle of another probe, successful or not, adds at most what is owed to `q`. */
  lemma OtherJob(cfg: Config, s: State, j: Job, q: nat)
    requires q != j.p && Between(cfg, s, q) && j.WellFormed(cfg, s)
    ensures Between(cfg, After(cfg, s, j.Events()), q)
    ensures |Completed(q, j.Events())| + Owed(cfg, After(cfg, s, j.Events()), q) <= Owed(cfg, s, q)
  {
    var es := j.Events();
    forall e <- es ensures e != ResetDone(q) && e != RaiseGo(q) {
      if e in j.setup {} else if e in j.arm {} else if e in j.cycle {}
    }
    IdleStretch(cfg, s, es, q);
    EndsInSetup(cfg, s, j);
  }

  lemma EndsInSetup(cfg: Config, s: State, j: Job)
    requires |s.flags| == cfg.probes && j.WellFormed(cfg, s)
    ensures After(cfg, s, j.Events()).native.Setup?
  {
    var most, ret := j.Opening() + (j.arm + ([RaiseGo(j.p)] + j.cycle)), [Return(j.p, j.ok)];
    assert j.Events() == most + ret;
    RunSplit(cfg, s, most, ret);
    assert ret[0] == Return(j.p, j.ok) && ret[1..] == [];
    assert After(cfg, After(cfg, s, most), ret) == Apply(cfg, After(cfg, s, most), ret[0]);
  }

  // ---- Whole runs ------------------------------------------------------------

  /** Over any run of cycles, some successful and some timed out, in whatever order the drivers
      write their flags and wherever the Java thread is when they do, a probe completes its action
      at least once for each success and at most once for each request, apart from what was owed at
      the start and is still owed at the end. */
  lemma {:induction false} CompletionsAreBounded(cfg: Config, s: State, jobs: seq<Job>, q: nat)
    requires Between(cfg, s, q) && Jobs(cfg, s, jobs)
    ensures Run(cfg, s, AllEvents(jobs)) && Between(cfg, After(cfg, s, AllEvents(jobs)), q)
    ensures Successes(q, jobs) <= |Completed(q, AllEvents(jobs))|
    ensures |Completed(q, AllEvents(jobs))| + Owed(cfg, After(cfg, s, AllEvents(jobs)), q) <= |Requested(q, jobs)| + Owed(cfg, s, q)
    decreases |jobs|
  {
    if jobs != [] {
      var j, rest := jobs[0], AllEvents(jobs[1..]);
      if j.p == q {
        OwnJobCount(cfg, s, j);
      } else {
        OtherJob(cfg, s, j, q);
      }
      CompletionsAreBounded(cfg, After(cfg, s, j.Events()), jobs[1..], q);
      RunSplit(cfg, s, j.Events(), rest);
      CompletedSplit(q, j.Events(), rest);
    }
  }

  /** So when all cycles of `q` succeed, whatever those of the other probes do, it completes its
      action exactly once for each request. */
  lemma OneCompletionPerRequest(cfg: Config, s: State, jobs: seq<Job>, q: nat)
    requires Settled(cfg, s, q) && s.native.Setup? && Jobs(cfg, s, jobs) && AllOk(q, jobs)
    ensures |Completed(q, AllEvents(jobs))| == |Requested(q, jobs)|
    ensures Run(cfg, s, AllEvents(jobs)) && Settled(cfg, After(cfg, s, AllEvents(jobs)), q)
  {
    CompletionsAreBounded(cfg, s, jobs, q);
    SuccessesOfAll(q, jobs);
  }

  /** When they are also safe it completes exactly the requested modes, in the order of the
      requests. */
  lemma {:induction false} CompletionsAreRequests(cfg: Config, s: State, jobs: seq<Job>, q: nat)
    requires Settled(cfg, s, q) && s.native.Setup? && Jobs(cfg, s, jobs) && AllOk(q, jobs) && SafeJobs(cfg, s, jobs, q)
    ensures Completed(q, AllEvents(jobs)) == Requested(q, jobs)
    decreases |jobs|
  {
    if jobs != [] {
      var j := jobs[0];
      assert j in jobs;
      if j.p == q {
        OwnJobOnce(cfg, s, j);
        OwnJobMode(cfg, s, j);
      } else {
        OtherJob(cfg, s, j, q);
      }
      CompletionsAreRequests(cfg, After(cfg, s, j.Events()), jobs[1..], q);
      CompletedSplit(q, j.Events(), AllEvents(jobs[1..]));
    }
  }

  /** From the start of the program: completions lie between the successes and the requests; each
      start ended by a completion or an exception or is under way; and the calls a detour has seen
      are those of the actions that ended and of the one under way. If all cycles of the probe
      succeeded, completions are the requests, no action is under way and, if the jobs were safe,
      the completed modes are the requested ones. */
  lemma WholeRun(cfg: Config, s0: State, jobs: seq<Job>, q: nat)
    requires Init(cfg, s0) && q < cfg.probes && Jobs(cfg, s0, jobs)
    ensures var es := AllEvents(jobs);
      && Successes(q, jobs) <= |Completed(q, es)| <= |Requested(q, jobs)| && Run(cfg, s0, es)
      && Starts(q, es) == |Completed(q, es)| + Throws(q, es) + Bit(InAction(After(cfg, s0, es), q))
      && Dispatched(q, es) == AllCalls(Ended(cfg, q, es)) + InFlight(After(cfg, s0, es), q)
    ensures AllOk(q, jobs) ==>
      && |Completed(q, AllEvents(jobs))| == |Requested(q, jobs)| && !InAction(After(cfg, s0, AllEvents(jobs)), q)
      && (SafeJobs(cfg, s0, jobs, q) ==> Completed(q, AllEvents(jobs)) == Requested(q, jobs))
  {
    var es := AllEvents(jobs);
    CompletionsAreBounded(cfg, s0, jobs, q);
    StartsAreConserved(cfg, s0, es, q);
    CallsFromOutside(cfg, s0, es, q);
    if AllOk(q, jobs) {
      OneCompletionPerRequest(cfg, s0, jobs, q);
      if SafeJobs(cfg, s0, jobs, q) {
        CompletionsAreRequests(cfg, s0, jobs, q);
      }
    }
  }

  lemma CallsFromOutside(cfg: Config, s: State, es: seq<Event>, q: nat)
    requires |s.flags| == cfg.probes && Run(cfg, s, es) && !InAction(s, q)
    ensures Dispatched(q, es) == AllCalls(Ended(cfg, q, es)) + InFlight(After(cfg, s, es), q)
  {
    DispatchLedger(cfg, s, es, q);
    assert [] + Dispatched(q, es) == Dispatched(q, es);
  }

  // ---- The rising-edge order -------------------------------------------------

  /** A rising-edge job in which an old start finishes before the mode is set. `ready` is the
      state after the reset. */
  function OldModeJob(cfg: Config, ready: State, p: nat, m: int, setup: seq<Event>): Job
    requires Inv(cfg, ready, p) && !Quiescent(ready, p)
  {
    Job(p, m, true, setup, Finish(cfg, ready, p) + [SetMode(p, m)], HitAndLower(cfg, p), true)
  }

  lemma OldModeJobShape(cfg: Config, ready: State, p: nat, m: int, setup: seq<Event>)
    requires Inv(cfg, ready, p) && !Quiescent(ready, p) && forall e <- setup :: IsJava(e)
    ensures var j := OldModeJob(cfg, ready, p, m, setup);
      && j.RisingEdge() && NoResetOrRaise(j.setup) && NoResetOrRaise(j.arm) && forall e <- j.cycle :: InCall(e)
  {
    var j := OldModeJob(cfg, ready, p, m, setup);
    var fin := Finish(cfg, ready, p);
    assert j.arm[|fin|] == SetMode(p, m);
    assert forall i :: 0 <= i < |fin| ==> j.arm[i] == fin[i];
  }

  lemma OldModeJobFits(cfg: Config, s: State, p: nat, m: int, setup: seq<Event>)
    requires |s.flags| == cfg.probes && p < cfg.probes
    requires (forall e <- setup :: IsJava(e)) && Run(cfg, s, setup + [ResetDone(p)])
    requires Inv(cfg, After(cfg, s, setup + [ResetDone(p)]), p) && !Quiescent(After(cfg, s, setup + [ResetDone(p)]), p)
    ensures var ready := After(cfg, s, setup + [ResetDone(p)]);
      var j := OldModeJob(cfg, ready, p, m, setup);
      j.RisingEdge() && j.WellFormed(cfg, s) && Completed(p, j.arm + ([RaiseGo(p)] + j.cycle)) == [ModeRead(ready, p)]
  {
    var ready := After(cfg, s, setup + [ResetDone(p)]);
    var j := OldModeJob(cfg, ready, p, m, setup);
    ResetAt(cfg, s, setup, p);
    OldModeJobShape(cfg, ready, p, m, setup);
    OldModeJobCall(cfg, ready, p, m, j);
    RunSplit(cfg, s, j.Opening(), j.arm + j.Call());
  }

  lemma OldModeJobCall(cfg: Config, ready: State, p: nat, m: int, j: Job)
    requires Inv(cfg, ready, p) && ready.native.Setup? && !ready.flags[p].done && !Quiescent(ready, p)
    requires j.p == p && j.ok && j.arm == Finish(cfg, ready, p) + [SetMode(p, m)] && j.cycle == HitAndLower(cfg, p)
    ensures Run(cfg, ready, j.arm) && After(cfg, ready, j.arm).flags[p].mode == m && Run(cfg, ready, j.arm + j.Call())
    ensures Completed(p, j.arm + ([RaiseGo(p)] + j.cycle)) == [ModeRead(ready, p)]
  {
    OldModeRuns(cfg, ready, p, m);
    assert j.Call() == NativeOnly(cfg, p) + [Return(p, true)];
    RunSplit(cfg, ready, j.arm, j.Call());
    CompletedSplit(p, j.arm, NativeOnly(cfg, p));
  }

  lemma OldModeJobRuns(cfg: Config, s: State, p: nat, m: int, setup: seq<Event>)
    requires p < cfg.probes && Settled(cfg, s, p) && s.native.Setup?
    requires (forall e <- setup :: IsJava(e)) && Run(cfg, s, setup + [ResetDone(p)])
    requires Inv(cfg, After(cfg, s, setup + [ResetDone(p)]), p) && !Quiescent(After(cfg, s, setup + [ResetDone(p)]), p)
    ensures var ready := After(cfg, s, setup + [ResetDone(p)]);
      var j := OldModeJob(cfg, ready, p, m, setup);
      j.RisingEdge() && j.WellFormed(cfg, s) && Completed(p, j.Events()) == [ready.flags[p].mode]
  {
    var j := OldModeJob(cfg, After(cfg, s, setup + [ResetDone(p)]), p, m, setup);
    OldModeJobFits(cfg, s, p, m, setup);
    OwnJobOnce(cfg, s, j);
    Opened(cfg, s, j);
  }

  /** A reset leaves `done` down and finds the worker outside run_java_probe. */
  lemma ResetAt(cfg: Config, s: State, setup: seq<Event>, p: nat)
    requires |s.flags| == cfg.probes && p < cfg.probes && Run(cfg, s, setup + [ResetDone(p)])
    ensures var ready := After(cfg, s, setup + [ResetDone(p)]); ready.native.Setup? && !ready.flags[p].done
  {
    var reset := [ResetDone(p)];
    RunSplit(cfg, s, setup, reset);
    assert reset[0] == ResetDone(p) && reset[1..] == [];
  }

  lemma ReadyAt(cfg: Config, s: State, setup: seq<Event>, p: nat)
    requires Between(cfg, s, p) && (forall e <- setup :: IsJava(e)) && Run(cfg, s, setup + [ResetDone(p)])
    ensures var ready := After(cfg, s, setup + [ResetDone(p)]);
      Inv(cfg, ready, p) && ready.native.Setup? && !ready.flags[p].done && !ready.flags[p].go
  {
    InvRun(cfg, s, setup + [ResetDone(p)], p);
    ResetAt(cfg, s, setup, p);
  }

  lemma ReadyJobMode(cfg: Config, s: State, j: Job)
    requires Between(cfg, s, j.p) && j.RisingEdge() && j.WellFormed(cfg, s) && j.ok
    requires var ready := After(cfg, s, j.Opening()); Quiescent(ready, j.p) || ModeRead(ready, j.p) == j.mode
    ensures Completed(j.p, j.arm + ([RaiseGo(j.p)] + j.cycle)) == [j.mode]
  {
    assert j.Opening() == j.setup + [ResetDone(j.p)];
    ReadyAt(cfg, s, j.setup, j.p);
    AfterOpening(cfg, s, j);
    OneModeSet(j);
    NothingSetInCall(j.p, j.cycle);
    SafeCall(cfg, After(cfg, s, j.Opening()), j.p, j.mode, j.arm, [RaiseGo(j.p)] + j.cycle);
  }

  lemma OneModeSet(j: Job)
    requires j.RisingEdge()
    ensures SetsOnly(j.p, j.mode, j.arm)
  {
  }

  lemma NothingSetInCall(p: nat, cycle: seq<Event>)
    requires forall e <- cycle :: InCall(e)
    ensures NoSetMode(p, [RaiseGo(p)] + cycle)
  {
  }

  /** Exactly when a rising-edge driver gets the mode it asks for, between any two cycles, timed-out
      ones before included: every success of such a job runs under its mode if and only if at the
      reset the Java thread is outside the probe, or the mode that the action there has read, or
      will read if the worker writes nothing, is already the same. */
  lemma RisingEdgeIff(cfg: Config, s: State, p: nat, m: int, setup: seq<Event>)
    requires Between(cfg, s, p)
    requires (forall e <- setup :: IsJava(e)) && Run(cfg, s, setup + [ResetDone(p)])
    ensures var ready := After(cfg, s, setup + [ResetDone(p)]);
      Quiescent(ready, p) || ModeRead(ready, p) == m <==>
      forall arm, cycle :: var j := Job(p, m, true, setup, arm, cycle, true);
        j.RisingEdge() && j.WellFormed(cfg, s) ==> Completed(p, arm + ([RaiseGo(p)] + cycle)) == [m]
  {
    var ready := After(cfg, s, setup + [ResetDone(p)]);
    ReadyAt(cfg, s, setup, p);
    if Quiescent(ready, p) || ModeRead(ready, p) == m {
      forall arm, cycle | Job(p, m, true, setup, arm, cycle, true).RisingEdge() && Job(p, m, true, setup, arm, cycle, true).WellFormed(cfg, s)
        ensures Completed(p, arm + ([RaiseGo(p)] + cycle)) == [m]
      {
        ReadyJobMode(cfg, s, Job(p, m, true, setup, arm, cycle, true));
      }
    } else {
      OldModeJobFits(cfg, s, p, m, setup);
      var j := OldModeJob(cfg, ready, p, m, setup);
      assert j == Job(p, m, true, setup, j.arm, j.cycle, true);
      assert [ModeRead(ready, p)][0] != [m][0];
    }
  }

  /** Before the first cycle and after a successful one no action is under way at the reset, so what
      counts besides the thread's position is the mode in force there; and the job has no other
      completion. */
  lemma RisingEdgeAfterSuccess(cfg: Config, s: State, p: nat, m: int, setup: seq<Event>)
    requires p < cfg.probes && Settled(cfg, s, p) && s.native.Setup?
    requires (forall e <- setup :: IsJava(e)) && Run(cfg, s, setup + [ResetDone(p)])
    ensures var ready := After(cfg, s, setup + [ResetDone(p)]);
      Quiescent(ready, p) || ready.flags[p].mode == m <==>
      forall arm, cycle :: var j := Job(p, m, true, setup, arm, cycle, true);
        j.RisingEdge() && j.WellFormed(cfg, s) ==> Completed(p, j.Events()) == [m]
  {
    var ready := After(cfg, s, setup + [ResetDone(p)]);
    if Quiescent(ready, p) || ready.flags[p].mode == m {
      forall arm, cycle | Job(p, m, true, setup, arm, cycle, true).RisingEdge() && Job(p, m, true, setup, arm, cycle, true).WellFormed(cfg, s)
        ensures Completed(p, Job(p, m, true, setup, arm, cycle, true).Events()) == [m]
      {
        var j := Job(p, m, true, setup, arm, cycle, true);
        assert j.Opening() == setup + [ResetDone(p)];
        OwnJobMode(cfg, s, j);
      }
    } else {
      InvRun(cfg, s, setup + [ResetDone(p)], p);
      OldModeJobRuns(cfg, s, p, m, setup);
      var j := OldModeJob(cfg, ready, p, m, setup);
      assert j == Job(p, m, true, setup, j.arm, j.cycle, true);
      assert [ready.flags[p].mode][0] != [m][0];
    }
  }

  /** And a successful cycle before does not help: from the start of the program, for every poll
      bound and any two modes, there are two rising-edge jobs, one right after the other, that
      both report success and both run under the mode of the first. */
  lemma SecondModeCanBeLost(cfg: Config, s0: State, m1: int, m2: int)
    requires Init(cfg, s0) && cfg.probes == 1
    ensures exists jobs: seq<Job> ::
      && |jobs| == 2 && Jobs(cfg, s0, jobs) && (forall j <- jobs :: j.RisingEdge() && j.ok)
      && Requested(0, jobs) == [m1, m2] && Completed(0, AllEvents(jobs)) == [m1, m1]
  {
    var first := FirstWithMode(cfg, s0, m1);
    var s := After(cfg, s0, first.Events());
    var second := AgainWithOldMode(cfg, s, m2);
    TwoJobs(cfg, s0, first, second);
    assert Jobs(cfg, s0, [first, second]);
  }

  lemma AgainWithOldMode(cfg: Config, s: State, m: int) returns (j: Job)
    requires cfg.probes == 1 && Settled(cfg, s, 0) && s.java == SeenGo(0) && s.native.Setup?
    ensures j.p == 0 && j.mode == m && j.ok && j.RisingEdge() && j.WellFormed(cfg, s)
    ensures Completed(0, j.Events()) == [s.flags[0].mode]
  {
    var reset: seq<Event> := [] + [ResetDone(0)];
    FirstStep(cfg, s, ResetDone(0), []);
    assert [ResetDone(0)] + [] == reset;
    InvStep(cfg, s, ResetDone(0), 0);
    OldModeJobRuns(cfg, s, 0, m, []);
    j := OldModeJob(cfg, After(cfg, s, reset), 0, m, []);
  }

  lemma TwoJobs(cfg: Config, s: State, a: Job, b: Job)
    requires |s.flags| == cfg.probes && a.WellFormed(cfg, s) && b.WellFormed(cfg, After(cfg, s, a.Events()))
    requires a.p == b.p
    ensures Jobs(cfg, s, [a, b]) && Requested(a.p, [a, b]) == [a.mode, b.mode]
    ensures AllEvents([a, b]) == a.Events() + b.Events()
    ensures Completed(a.p, AllEvents([a, b])) == Completed(a.p, a.Events()) + Completed(a.p, b.Events())
  {
    assert [a, b][1..] == [b] && [b][1..] == [];
    assert Requested(a.p, [b]) == [b.mode] + [];
    assert AllEvents([b]) == b.Events() + [];
    assert AllEvents([a, b]) == a.Events() + b.Events();
    CompletedSplit(a.p, a.Events(), b.Events());
  }

  lemma FirstWithMode(cfg: Config, s0: State, m: int) returns (j: Job)
    requires Init(cfg, s0) && cfg.probes == 1
    ensures j.p == 0 && j.mode == m && j.ok && j.RisingEdge() && j.WellFormed(cfg, s0)
    ensures Completed(0, j.Events()) == [m]
    ensures var s := After(cfg, s0, j.Events());
      Settled(cfg, s, 0) && s.java == SeenGo(0) && s.native.Setup? && s.flags[0].mode == m
  {
    j := Job(0, m, true, [], [SetMode(0, m)], BusyCall(cfg, m), true);
    FirstJobRuns(cfg, s0, m, j);
    assert j.arm[0] == SetMode(0, m);
    BusyCallEvents(cfg, m);
    OwnJobOnce(cfg, s0, j);
    OwnJobMode(cfg, s0, j);
  }

  lemma FirstJobRuns(cfg: Config, s0: State, m: int, j: Job)
    requires Init(cfg, s0) && cfg.probes == 1 && j == Job(0, m, true, [], [SetMode(0, m)], BusyCall(cfg, m), true)
    ensures Run(cfg, s0, j.Opening()) && After(cfg, s0, j.Opening()) == s0
    ensures Run(cfg, s0, j.arm) && After(cfg, s0, j.arm).flags[0].mode == m
    ensures Run(cfg, s0, j.Events())
    ensures After(cfg, s0, j.Events()) == s0.(java := SeenGo(0), flags := [Flags(false, true, m)])
  {
    assert j.Opening() == [ResetDone(0)] + [] && j.arm == [SetMode(0, m)] + [] && j.Call() == WholeCall(cfg, m);
    assert Apply(cfg, s0, ResetDone(0)) == s0;
    FirstStep(cfg, s0, ResetDone(0), []);
    FirstStep(cfg, s0, SetMode(0, m), []);
    WholeCallRuns(cfg, Apply(cfg, s0, SetMode(0, m)), m);
    FirstStep(cfg, s0, SetMode(0, m), j.Call());
    FirstStep(cfg, s0, ResetDone(0), [SetMode(0, m)] + j.Call());
  }

  lemma BusyCallEvents(cfg: Config, m: int)
    ensures forall e <- BusyCall(cfg, m) :: InCall(e)
  {
  }

  // ---- Timed-out cycles ------------------------------------------------------

  /** run_java_probe after the raising of `go`, up to its last read, with no hit. */
  function MissAndLower(p: nat, polls: nat): seq<Event> {
    if polls == 0 then [LowerGo(p)] else [Poll(p, false)] + MissAndLower(p, polls - 1)
  }

  lemma {:induction false} MissAndLowerRuns(cfg: Config, s: State, p: nat, polls: nat)
    requires |s.flags| == cfg.probes && p < cfg.probes && !s.flags[p].done && s.native == Polling(p, polls)
    ensures Run(cfg, s, MissAndLower(p, polls))
    ensures After(cfg, s, MissAndLower(p, polls)) == s.(native := Rereading(p), flags := s.flags[p := s.flags[p].(go := false)])
    ensures forall e <- MissAndLower(p, polls) :: InCall(e)
    decreases polls
  {
    if polls == 0 {
      FirstStep(cfg, s, LowerGo(p), []);
      assert [LowerGo(p)] + [] == [LowerGo(p)];
    } else {
      MissAndLowerRuns(cfg, s.(native := Polling(p, polls - 1)), p, polls - 1);
      FirstStep(cfg, s, Poll(p, false), MissAndLower(p, polls - 1));
    }
  }

  /** A rising-edge cycle of the only probe in which the Java thread does `java` right after the
      raising of `go`, and which then times out. */
  function TimedOut(cfg: Config, m: int, java: seq<Event>): Job {
    Job(0, m, true, [], [SetMode(0, m)], java + MissAndLower(0, cfg.maxPolls), false)
  }

  /** The state when `go` has just been raised for mode `m`. */
  function Raised(cfg: Config, s: State, m: int): State {
    s.(flags := [Flags(true, false, m)], native := Polling(0, cfg.maxPolls))
  }

  lemma TimedOutCallRuns(cfg: Config, s: State, m: int, java: seq<Event>, pc: JavaPc)
    requires cfg.probes == 1 && Between(cfg, s, 0) && s.flags == [Flags(false, false, m)]
    requires Run(cfg, Raised(cfg, s, m), java) && After(cfg, Raised(cfg, s, m), java) == Raised(cfg, s, m).(java := pc)
    ensures Run(cfg, s, TimedOut(cfg, m, java).Call()) && After(cfg, s, TimedOut(cfg, m, java).Call()) == s.(java := pc)
  {
    var miss, ret := MissAndLower(0, cfg.maxPolls), [Return(0, false)];
    var up := Raised(cfg, s, m);
    var waiting := up.(java := pc);
    MissAndLowerRuns(cfg, waiting, 0, cfg.maxPolls);
    var low := After(cfg, waiting, miss);
    FirstStep(cfg, low, Return(0, false), []);
    assert ret + [] == ret;
    RunSplit(cfg, waiting, miss, ret);
    RunSplit(cfg, up, java, miss + ret);
    assert (java + miss) + ret == java + (miss + ret);
    assert Apply(cfg, s, RaiseGo(0)) == up;
    FirstStep(cfg, s, RaiseGo(0), (java + miss) + ret);
  }

  lemma TimedOutRuns(cfg: Config, s: State, m: int, java: seq<Event>, pc: JavaPc)
    requires cfg.probes == 1 && Between(cfg, s, 0) && forall e <- java :: IsJava(e)
    requires Run(cfg, Raised(cfg, s, m), java) && After(cfg, Raised(cfg, s, m), java) == Raised(cfg, s, m).(java := pc)
    ensures var j := TimedOut(cfg, m, java);
      && j.RisingEdge() && j.WellFormed(cfg, s)
      && After(cfg, s, j.Events()) == s.(java := pc, flags := [Flags(false, false, m)])
  {
    var j := TimedOut(cfg, m, java);
    var cleared := Apply(cfg, s, ResetDone(0));
    var set1 := Apply(cfg, cleared, SetMode(0, m));
    InvStep(cfg, s, ResetDone(0), 0);
    InvStep(cfg, cleared, SetMode(0, m), 0);
    assert set1 == s.(flags := [Flags(false, false, m)]);
    TimedOutCallRuns(cfg, set1, m, java, pc);
    assert j.Opening() == [ResetDone(0)] + [] && j.arm == [SetMode(0, m)] + [];
    FirstStep(cfg, s, ResetDone(0), []);
    FirstStep(cfg, cleared, SetMode(0, m), []);
    FirstStep(cfg, cleared, SetMode(0, m), j.Call());
    FirstStep(cfg, s, ResetDone(0), [SetMode(0, m)] + j.Call());
    MissAndLowerRuns(cfg, Raised(cfg, s, m).(java := pc), 0, cfg.maxPolls);
    assert j.arm[0] == SetMode(0, m);
  }

  /** Why the mode in force at the reset is not enough after timed-out cycles: from the start of the
      program, for every poll bound and any two modes, two rising-edge cycles can time out, the
      first while its action is under way, so that a third one finds its own mode already in force
      at the reset, reports success, and has run under the mode of the first. */
  lemma TimedOutModeReturns(cfg: Config, s0: State, m1: int, m2: int) returns (before: seq<Job>, last: Job)
    requires Init(cfg, s0) && cfg.probes == 1
    ensures |before| == 2 && Jobs(cfg, s0, before) && Requested(0, before) == [m1, m2]
    ensures Run(cfg, s0, AllEvents(before)) && forall j <- before :: j.RisingEdge() && !j.ok
    ensures var s := After(cfg, s0, AllEvents(before));
      && s.flags[0].mode == m2 && last.p == 0 && last.mode == m2 && last.setup == []
      && last.RisingEdge() && last.WellFormed(cfg, s) && last.ok && Completed(0, last.Events()) == [m1]
  {
    var java, pc := Begin(m1), Acting(0, m1, 0);
    BeginRuns(cfg, Raised(cfg, s0, m1));
    assert Between(cfg, s0, 0);
    TimedOutRuns(cfg, s0, m1, java, pc);
    var first := TimedOut(cfg, m1, java);
    var s1 := After(cfg, s0, first.Events());
    OwnJobCount(cfg, s0, first);
    TimedOutRuns(cfg, s1, m2, [], pc);
    var second := TimedOut(cfg, m2, []);
    var s2 := After(cfg, s1, second.Events());
    OwnJobCount(cfg, s1, second);
    TwoJobs(cfg, s0, first, second);
    before := [first, second];
    RunSplit(cfg, s0, first.Events(), second.Events());
    last := AfterTimeouts(cfg, s2, m2);
  }

  lemma AfterTimeouts(cfg: Config, s: State, m: int) returns (j: Job)
    requires cfg.probes == 1 && Between(cfg, s, 0) && s.java.Acting? && s.java.p == 0
    ensures j.p == 0 && j.mode == m && j.setup == [] && j.ok && j.RisingEdge() && j.WellFormed(cfg, s)
    ensures Completed(0, j.Events()) == [s.java.mode]
  {
    var reset: seq<Event> := [] + [ResetDone(0)];
    FirstStep(cfg, s, ResetDone(0), []);
    assert [ResetDone(0)] + [] == reset;
    InvStep(cfg, s, ResetDone(0), 0);
    OldModeJobFits(cfg, s, 0, m, []);
    j := OldModeJob(cfg, After(cfg, s, reset), 0, m, []);
    OwnJobCount(cfg, s, j);
    NothingCompletes(0, j.Opening());
  }
}
