/** The native worker's own code, run against an arbitrary Java thread. */
module NativeWorker {
  import opened Handshake
  import opened HandshakeSafety
  import opened HandshakeFreshness
  import opened Campaign

  /** The shared flags and both threads. `trace` is the history of all steps. */
  class World {
    const cfg: Config
    var s: State
    ghost const s0: State
    ghost var trace: seq<Event>

    ghost predicate Valid()
      reads this
    {
      Init(cfg, s0) && |s.flags| == cfg.probes && Run(cfg, s0, trace) && After(cfg, s0, trace) == s
    }

    constructor (cfg: Config, modes: seq<int>)
      requires |modes| == cfg.probes
      ensures Valid() && this.cfg == cfg && trace == []
    {
      this.cfg := cfg;
      var start := State(seq(cfg.probes, i requires 0 <= i < |modes| => Flags(false, false, modes[i])), LoopHead, NativePc.Setup, false);
      this.s, this.s0 := start, start;
      this.trace := [];
    }

    method Do(e: Event)
      requires Valid() && Enabled(cfg, s, e)
      modifies this
      ensures Valid() && s == Apply(cfg, old(s), e) && trace == old(trace) + [e]
    {
      ghost var was := s;
      s := Apply(cfg, s, e);
      RunSplit(cfg, s0, trace, [e]);
      FirstStep(cfg, was, e, []);
      assert [e] + [] == [e];
      trace := trace + [e];
    }

    /** The Java thread takes any number of steps; whether an action throws is arbitrary. */
    method JavaRuns() returns (ghost java: seq<Event>)
      requires Valid()
      modifies this
      ensures Valid() && s.native == old(s.native) && s.stopJvm == old(s.stopJvm)
      ensures trace == old(trace) + java && forall e <- java :: IsJava(e)
    {
      java := [];
      var steps: nat := *;
      while steps > 0
        invariant Valid() && s.native == old(s.native) && s.stopJvm == old(s.stopJvm)
        invariant trace == old(trace) + java && forall e <- java :: IsJava(e)
      {
        steps := steps - 1;
        var throws: bool := *;
        match s.java
        case LoopHead => java := JavaDoes(java, LoopTest(!s.stopJvm));
        case AtProbe(p) => if p < cfg.probes { java := JavaDoes(java, ReadGo(p, s.flags[p].go)); }
        case SeenGo(p) => if p < cfg.probes { java := JavaDoes(java, ReadDone(p, s.flags[p].done)); }
        case Entered(p) => if p < cfg.probes { java := JavaDoes(java, if throws then Throw(p, s.flags[p].mode, 0) else ReadMode(p, s.flags[p].mode)); }
        case Acting(p, m, made) =>
          if p < cfg.probes && made <= cfg.calls(p, m) {
            java := JavaDoes(java, if throws then Throw(p, m, made) else if made < cfg.calls(p, m) then Dispatch(p, m, made) else Complete(p, m));
          }
        case Exited => steps := 0;
      }
    }

    method JavaDoes(ghost java: seq<Event>, e: Event) returns (ghost java': seq<Event>)
      requires Valid() && Enabled(cfg, s, e) && IsJava(e)
      modifies this
      ensures Valid() && s == Apply(cfg, old(s), e)
      ensures trace == old(trace) + [e] && java' == java + [e]
    {
      Do(e);
      java' := java + [e];
    }

    /** One look of the worker at `done`, and whatever the Java thread does then. */
    method PollDone(p: nat) returns (hit: bool, ghost steps: seq<Event>)
      requires Valid() && p < cfg.probes && s.native.Polling? && s.native.q == p && s.native.left > 0
      modifies this
      ensures Valid() && s.native == if hit then Lowering(p) else Polling(p, old(s.native.left) - 1)
      ensures trace == old(trace) + steps && forall e <- steps :: InCall(e)
    {
      hit := s.flags[p].done;
      Do(Poll(p, hit));
      ghost var java := JavaRuns();
      steps := [Poll(p, hit)] + java;
    }

    /** run_java_probe. Between any two accesses of the worker the Java thread may run. */
    method RunJavaProbe(p: nat) returns (ok: bool, ghost cycle: seq<Event>)
      requires Valid() && p < cfg.probes && s.native.Setup?
      modifies this
      ensures Valid() && s.native.Setup?
      ensures trace == old(trace) + ([RaiseGo(p)] + (cycle + [Return(p, ok)])) && forall e <- cycle :: InCall(e)
      ensures Polls(p, cycle) <= cfg.maxPolls && (!ok ==> Polls(p, cycle) == cfg.maxPolls)
    {
      ghost var past := trace;
      Do(RaiseGo(p));
      cycle := JavaRuns();
      var hit := false;
      var i := 0;
      while i < cfg.maxPolls && !hit
        invariant 0 <= i <= cfg.maxPolls && Valid()
        invariant s.native == if hit then Lowering(p) else Polling(p, cfg.maxPolls - i)
        invariant trace == old(trace) + [RaiseGo(p)] + cycle && forall e <- cycle :: InCall(e)
      {
        ghost var steps;
        hit, steps := PollDone(p);
        cycle := cycle + steps;
        i := i + 1;
      }
      Do(LowerGo(p));
      ghost var java := JavaRuns();
      cycle := cycle + [LowerGo(p)] + java;
      ok := s.flags[p].done;
      Do(Return(p, ok));
      assert trace == past + ([RaiseGo(p)] + (cycle + [Return(p, ok)]));
      PollsAfter(cfg, s0, past, cycle, p, ok);
    }

    /** A probe test of the worker: clear both flags, then run_java_probe. `test` is everything
        that happens from the clearing of `done` on. It reports success exactly when the action
        completed since then, and then it completed exactly once. */
    method ProbeCycle(p: nat) returns (ok: bool, ghost test: seq<Event>)
      requires Valid() && p < cfg.probes && s.native.Setup?
      modifies this
      ensures Valid() && s.native.Setup? && trace == old(trace) + ([ResetDone(p)] + test)
      ensures |Completed(p, test)| == if ok then 1 else 0
      ensures ok ==> s.flags[p].done
    {
      ghost var past := trace;
      Do(ResetDone(p));
      ghost var java1 := JavaRuns();
      Do(ClearGo(p));
      ghost var java2 := JavaRuns();
      ghost var cycle;
      ok, cycle := RunJavaProbe(p);
      ghost var body := java1 + ([ClearGo(p)] + (java2 + ([RaiseGo(p)] + cycle)));
      test := body + [Return(p, ok)];
      Flatten(past, ResetDone(p), java1, ClearGo(p), java2, RaiseGo(p), cycle, Return(p, ok));
      TestReport(cfg, s0, past, body, p, ok);
    }

    /** A rising-edge driver: on the raising of `go` it clears `done` and sets the mode first. What
        happens is a job of the campaign, successful or not. */
    method Drive(p: nat, mode: int) returns (ok: bool, ghost j: Job)
      requires Valid() && p < cfg.probes && s.native.Setup?
      modifies this
      ensures Valid() && s.native.Setup?
      ensures j.p == p && j.mode == mode && j.ok == ok && j.RisingEdge() && j.WellFormed(cfg, old(s))
      ensures trace == old(trace) + j.Events()
    {
      ghost var past := trace;
      ghost var java0 := JavaRuns();
      Do(ResetDone(p));
      ghost var java1 := JavaRuns();
      Do(SetMode(p, mode));
      ghost var java2 := JavaRuns();
      ghost var cycle;
      ok, cycle := RunJavaProbe(p);
      j := Job(p, mode, true, java0, java1 + ([SetMode(p, mode)] + java2), cycle, ok);
      LateEvents(past, java0, ResetDone(p), java1, SetMode(p, mode), java2, j.Call());
      LateJob(cfg, s0, past, j, java1, java2);
    }

    /** A driver that sets the mode before it clears `done`. */
    method DriveModeFirst(p: nat, mode: int) returns (ok: bool, ghost j: Job)
      requires Valid() && p < cfg.probes && s.native.Setup?
      modifies this
      ensures Valid() && s.native.Setup?
      ensures j.p == p && j.mode == mode && j.ok == ok && j.WellFormed(cfg, old(s)) && j.Safe(cfg, old(s))
      ensures trace == old(trace) + j.Events()
    {
      ghost var past := trace;
      ghost var java0 := JavaRuns();
      Do(SetMode(p, mode));
      ghost var java1 := JavaRuns();
      Do(ResetDone(p));
      ghost var java2 := JavaRuns();
      ghost var cycle;
      ok, cycle := RunJavaProbe(p);
      j := Job(p, mode, true, java0 + ([SetMode(p, mode)] + java1), java2, cycle, ok);
      EarlyEvents(past, java0, SetMode(p, mode), java1, ResetDone(p), java2, j.Call());
      EarlyJob(cfg, s0, past, j, java0, java1);
    }

    method DriveOne(r: Request) returns (ok: bool, ghost j: Job)
      requires Valid() && r.p < cfg.probes && s.native.Setup?
      modifies this
      ensures Valid() && s.native.Setup?
      ensures j.p == r.p && j.mode == r.mode && j.ok == ok && j.WellFormed(cfg, old(s)) && trace == old(trace) + j.Events()
      ensures r.modeFirst ==> j.Safe(cfg, old(s))
    {
      if r.modeFirst {
        ok, j := DriveModeFirst(r.p, r.mode);
      } else {
        ok, j := Drive(r.p, r.mode);
      }
    }

    /** A program of drivers, run from the start against an arbitrary Java thread; a driver that
        fails does not stop it. Every probe completes its action at least once for each driver that
        succeeded and at most once for each driver that asked for it; and if all its drivers set the
        mode first and succeed, exactly under the modes they asked for, in this order. */
    method DriveAll(requests: seq<Request>) returns (oks: seq<bool>, ghost jobs: seq<Job>)
      requires Valid() && trace == [] && s.native.Setup? && forall r <- requests :: r.p < cfg.probes
      modifies this
      ensures Valid() && Jobs(cfg, s0, jobs) && trace == AllEvents(jobs) && Asked(requests, oks, jobs)
      ensures forall q: nat :: q < cfg.probes ==> CountOk(q, requests, oks) <= |Completed(q, trace)| <= Count(q, requests)
      ensures forall q: nat :: q < cfg.probes && AllModeFirst(q, requests) && CountOk(q, requests, oks) == Count(q, requests)
                ==> Completed(q, trace) == ModesAsked(q, requests)
    {
      oks, jobs := [], [];
      for i := 0 to |requests|
        invariant Valid() && s.native.Setup?
        invariant Jobs(cfg, s0, jobs) && trace == AllEvents(jobs) && Asked(requests[..i], oks, jobs)
        invariant SafeAsAsked(cfg, s0, requests[..i], jobs)
      {
        var ok;
        ghost var j;
        ok, j := DriveOne(requests[i]);
        JobsAppend(cfg, s0, jobs, j);
        AskedAppend(requests, oks, jobs, ok, j, i);
        SafeAsAskedAppend(cfg, s0, requests, jobs, j, i);
        oks, jobs := oks + [ok], jobs + [j];
      }
      assert requests[..|requests|] == requests;
      EachAskedInBounds(cfg, s0, requests, oks, jobs);
      EachModeAsked(cfg, s0, requests, oks, jobs);
    }
  }

  /** One use of a driver. */
  datatype Request = Request(p: nat, mode: int, modeFirst: bool)

  /** The jobs are those of the drivers, with their reports. */
  predicate Asked(requests: seq<Request>, oks: seq<bool>, jobs: seq<Job>) {
    && |requests| == |oks| == |jobs|
    && forall i :: 0 <= i < |jobs| ==> jobs[i].p == requests[i].p && jobs[i].mode == requests[i].mode && jobs[i].ok == oks[i]
  }

  lemma PollsAfter(cfg: Config, s0: State, past: seq<Event>, cycle: seq<Event>, p: nat, ok: bool)
    requires |s0.flags| == cfg.probes && Run(cfg, s0, past) && |After(cfg, s0, past).flags| == cfg.probes && (forall e <- cycle :: InCall(e))
    requires Run(cfg, s0, past + ([RaiseGo(p)] + (cycle + [Return(p, ok)])))
    ensures Polls(p, cycle) <= cfg.maxPolls && (!ok ==> Polls(p, cycle) == cfg.maxPolls)
  {
    RunSplit(cfg, s0, past, [RaiseGo(p)] + (cycle + [Return(p, ok)]));
    FailureMadeAllPolls(cfg, After(cfg, s0, past), cycle, p, ok);
  }

  lemma AskedAppend(requests: seq<Request>, oks: seq<bool>, jobs: seq<Job>, ok: bool, j: Job, i: nat)
    requires i < |requests| && Asked(requests[..i], oks, jobs)
    requires j.p == requests[i].p && j.mode == requests[i].mode && j.ok == ok
    ensures Asked(requests[..i + 1], oks + [ok], jobs + [j])
  {
    assert requests[..i + 1] == requests[..i] + [requests[i]];
  }

  /** How many drivers ask for probe `q`. */
  function Count(q: nat, requests: seq<Request>): nat {
    if requests == [] then 0 else (if requests[0].p == q then 1 else 0) + Count(q, requests[1..])
  }

  /** How many of them report success. */
  function CountOk(q: nat, requests: seq<Request>, oks: seq<bool>): nat
    requires |requests| == |oks|
  {
    if requests == [] then 0 else (if requests[0].p == q && oks[0] then 1 else 0) + CountOk(q, requests[1..], oks[1..])
  }

  lemma {:induction false} CountAsked(q: nat, requests: seq<Request>, oks: seq<bool>, jobs: seq<Job>)
    requires Asked(requests, oks, jobs)
    ensures |Requested(q, jobs)| == Count(q, requests) && Successes(q, jobs) == CountOk(q, requests, oks)
    decreases |jobs|
  {
    if jobs != [] {
      CountAsked(q, requests[1..], oks[1..], jobs[1..]);
    }
  }

  /** All drivers of `q` set the mode first. */
  predicate AllModeFirst(q: nat, requests: seq<Request>) { forall r <- requests :: r.p == q ==> r.modeFirst }

  /** The modes that drivers ask of `q`, in order. */
  function ModesAsked(q: nat, requests: seq<Request>): seq<int> {
    if requests == [] then [] else (if requests[0].p == q then [requests[0].mode] else []) + ModesAsked(q, requests[1..])
  }

  lemma {:induction false} ModesOfAsked(q: nat, requests: seq<Request>, oks: seq<bool>, jobs: seq<Job>)
    requires Asked(requests, oks, jobs)
    ensures Requested(q, jobs) == ModesAsked(q, requests)
    ensures CountOk(q, requests, oks) <= Count(q, requests)
    ensures CountOk(q, requests, oks) == Count(q, requests) ==> AllOk(q, jobs)
    decreases |jobs|
  {
    if jobs != [] {
      ModesOfAsked(q, requests[1..], oks[1..], jobs[1..]);
      assert jobs == [jobs[0]] + jobs[1..];
    }
  }

  /** The jobs of mode-first drivers are safe where they are run. */
  ghost predicate SafeAsAsked(cfg: Config, s: State, requests: seq<Request>, jobs: seq<Job>)
    requires |s.flags| == cfg.probes && Jobs(cfg, s, jobs)
  {
    |requests| == |jobs| && forall q: nat :: AllModeFirst(q, requests) ==> SafeJobs(cfg, s, jobs, q)
  }

  lemma {:induction false} SafeAppend(cfg: Config, s: State, jobs: seq<Job>, j: Job, q: nat)
    requires |s.flags| == cfg.probes && Jobs(cfg, s, jobs) && SafeJobs(cfg, s, jobs, q) && Run(cfg, s, AllEvents(jobs))
    requires j.WellFormed(cfg, After(cfg, s, AllEvents(jobs))) && (j.p == q ==> j.Safe(cfg, After(cfg, s, AllEvents(jobs))))
    ensures Jobs(cfg, s, jobs + [j]) && SafeJobs(cfg, s, jobs + [j], q)
    decreases |jobs|
  {
    JobsAppend(cfg, s, jobs, j);
    if jobs == [] {
      assert jobs + [j] == [j] && [j][1..] == [];
    } else {
      var first, rest := jobs[0].Events(), jobs[1..];
      assert (jobs + [j])[1..] == rest + [j];
      RunSplit(cfg, s, first, AllEvents(rest));
      SafeAppend(cfg, After(cfg, s, first), rest, j, q);
    }
  }

  lemma SafeAsAskedAppend(cfg: Config, s: State, requests: seq<Request>, jobs: seq<Job>, j: Job, i: nat)
    requires |s.flags| == cfg.probes && Jobs(cfg, s, jobs) && Run(cfg, s, AllEvents(jobs)) && i < |requests|
    requires j.WellFormed(cfg, After(cfg, s, AllEvents(jobs))) && j.p == requests[i].p
    requires requests[i].modeFirst ==> j.Safe(cfg, After(cfg, s, AllEvents(jobs)))
    requires SafeAsAsked(cfg, s, requests[..i], jobs)
    ensures Jobs(cfg, s, jobs + [j]) && SafeAsAsked(cfg, s, requests[..i + 1], jobs + [j])
  {
    JobsAppend(cfg, s, jobs, j);
    assert requests[..i + 1] == requests[..i] + [requests[i]];
    forall q: nat | AllModeFirst(q, requests[..i + 1]) ensures SafeJobs(cfg, s, jobs + [j], q) {
      assert requests[i] in requests[..i + 1];
      assert AllModeFirst(q, requests[..i]);
      SafeAppend(cfg, s, jobs, j, q);
    }
  }

  lemma EachModeAsked(cfg: Config, s0: State, requests: seq<Request>, oks: seq<bool>, jobs: seq<Job>)
    requires Init(cfg, s0) && Jobs(cfg, s0, jobs) && Asked(requests, oks, jobs) && SafeAsAsked(cfg, s0, requests, jobs)
    ensures forall q: nat :: q < cfg.probes && AllModeFirst(q, requests) && CountOk(q, requests, oks) == Count(q, requests)
              ==> Completed(q, AllEvents(jobs)) == ModesAsked(q, requests)
  {
    forall q: nat | q < cfg.probes && AllModeFirst(q, requests) && CountOk(q, requests, oks) == Count(q, requests)
      ensures Completed(q, AllEvents(jobs)) == ModesAsked(q, requests)
    {
      ModesOfAsked(q, requests, oks, jobs);
      WholeRun(cfg, s0, jobs, q);
    }
  }

  lemma EachAskedInBounds(cfg: Config, s0: State, requests: seq<Request>, oks: seq<bool>, jobs: seq<Job>)
    requires Init(cfg, s0) && Jobs(cfg, s0, jobs) && Asked(requests, oks, jobs)
    ensures forall q: nat :: q < cfg.probes ==> CountOk(q, requests, oks) <= |Completed(q, AllEvents(jobs))| <= Count(q, requests)
  {
    forall q: nat | q < cfg.probes ensures CountOk(q, requests, oks) <= |Completed(q, AllEvents(jobs))| <= Count(q, requests) {
      WholeRun(cfg, s0, jobs, q);
      CountAsked(q, requests, oks, jobs);
    }
  }

  lemma Reassociate<T>(a: seq<T>, b: seq<T>, c: seq<T>, ab: seq<T>)
    requires ab == a + b
    ensures ab + c == a + (b + c)
  {
  }

  lemma {:induction false} JobsAppend(cfg: Config, s: State, jobs: seq<Job>, j: Job)
    requires |s.flags| == cfg.probes && Jobs(cfg, s, jobs) && Run(cfg, s, AllEvents(jobs))
    requires j.WellFormed(cfg, After(cfg, s, AllEvents(jobs)))
    ensures Jobs(cfg, s, jobs + [j]) && AllEvents(jobs + [j]) == AllEvents(jobs) + j.Events()
    decreases |jobs|
  {
    if jobs == [] {
      FirstJob(cfg, s, j, []);
      assert jobs + [j] == [j] + [];
    } else {
      var first, rest := jobs[0].Events(), jobs[1..];
      RunSplit(cfg, s, first, AllEvents(rest));
      JobsAppend(cfg, After(cfg, s, first), rest, j);
      FirstJob(cfg, s, jobs[0], rest + [j]);
      Reassociate([jobs[0]], rest, [j], jobs);
      Reassociate(first, AllEvents(rest), j.Events(), AllEvents(jobs));
    }
  }

  lemma Flatten<T>(past: seq<T>, a: T, s1: seq<T>, b: T, s2: seq<T>, c: T, s3: seq<T>, d: T)
    ensures past + [a] + s1 + [b] + s2 + ([c] + (s3 + [d]))
         == past + ([a] + (s1 + ([b] + (s2 + ([c] + s3)))) + [d])
    ensures past + ([a] + (s1 + ([b] + (s2 + ([c] + s3)))) + [d])
         == past + ([a] + ((s1 + ([b] + (s2 + ([c] + s3)))) + [d]))
  {
  }

  lemma LateEvents<T>(past: seq<T>, s0: seq<T>, a: T, s1: seq<T>, b: T, s2: seq<T>, call: seq<T>)
    ensures past + s0 + [a] + s1 + [b] + s2 + call == past + ((s0 + [a]) + ((s1 + ([b] + s2)) + call))
  {
  }

  lemma EarlyEvents<T>(past: seq<T>, s0: seq<T>, a: T, s1: seq<T>, b: T, s2: seq<T>, call: seq<T>)
    ensures past + s0 + [a] + s1 + [b] + s2 + call == past + (((s0 + ([a] + s1)) + [b]) + (s2 + call))
  {
  }

  /** What the history of one probe test says, whatever the Java thread did in it. */
  lemma TestReport(cfg: Config, s0: State, past: seq<Event>, body: seq<Event>, p: nat, ok: bool)
    requires Init(cfg, s0) && NoReset(p, body)
    requires Run(cfg, s0, past + ([ResetDone(p)] + body + [Return(p, ok)]))
    ensures |Completed(p, body + [Return(p, ok)])| == if ok then 1 else 0
    ensures p < cfg.probes && (ok ==> After(cfg, s0, past + ([ResetDone(p)] + body + [Return(p, ok)])).flags[p].done)
  {
    var ret := [Return(p, ok)];
    ExactlyOnce(cfg, s0, past, body, p, ok);
    CompletedSplit(p, body, ret);
    var all := past + ([ResetDone(p)] + body);
    assert past + ([ResetDone(p)] + body + ret) == all + ret;
    RunSplit(cfg, s0, all, ret);
    assert ret[0] == Return(p, ok) && ret[1..] == [];
    assert Enabled(cfg, After(cfg, s0, all), ret[0]);
  }

  lemma {:induction false} JavaKeepsModes(cfg: Config, s: State, es: seq<Event>, p: nat)
    requires |s.flags| == cfg.probes && p < cfg.probes && Run(cfg, s, es)
    requires forall e <- es :: IsJava(e)
    ensures After(cfg, s, es).flags[p].mode == s.flags[p].mode
    decreases |es|
  {
    if es != [] {
      assert IsJava(es[0]);
      JavaKeepsModes(cfg, Apply(cfg, s, es[0]), es[1..], p);
    }
  }

  lemma ModeAfterSet(cfg: Config, s: State, java1: seq<Event>, java2: seq<Event>, p: nat, m: int)
    requires |s.flags| == cfg.probes && p < cfg.probes && Run(cfg, s, java1 + ([SetMode(p, m)] + java2))
    requires forall e <- java2 :: IsJava(e)
    ensures After(cfg, s, java1 + ([SetMode(p, m)] + java2)).flags[p].mode == m
  {
    RunSplit(cfg, s, java1, [SetMode(p, m)] + java2);
    var s1 := After(cfg, s, java1);
    assert ([SetMode(p, m)] + java2)[0] == SetMode(p, m);
    FirstStep(cfg, s1, SetMode(p, m), java2);
    JavaKeepsModes(cfg, Apply(cfg, s1, SetMode(p, m)), java2, p);
  }

  /** The pieces of a job that was run after `past`. */
  lemma JobRuns(cfg: Config, s0: State, past: seq<Event>, j: Job)
    requires |s0.flags| == cfg.probes && j.resets && j.p < cfg.probes && Run(cfg, s0, past + j.Events())
    ensures Run(cfg, s0, past) && Run(cfg, After(cfg, s0, past), j.Events())
    ensures var s := After(cfg, s0, past);
      && Run(cfg, s, j.Opening()) && Run(cfg, After(cfg, s, j.Opening()), j.arm)
      && Run(cfg, s, j.setup) && After(cfg, s, j.Opening()).flags[j.p] == After(cfg, s, j.setup).flags[j.p].(done := false)
  {
    RunSplit(cfg, s0, past, j.Events());
    var s := After(cfg, s0, past);
    RunSplit(cfg, s, j.Opening(), j.arm + j.Call());
    RunSplit(cfg, After(cfg, s, j.Opening()), j.arm, j.Call());
    RunSplit(cfg, s, j.setup, [ResetDone(j.p)]);
    assert [ResetDone(j.p)][1..] == [];
  }

  lemma LateJob(cfg: Config, s0: State, past: seq<Event>, j: Job, java1: seq<Event>, java2: seq<Event>)
    requires |s0.flags| == cfg.probes && j.resets && j.p < cfg.probes && Run(cfg, s0, past + j.Events())
    requires j.arm == java1 + ([SetMode(j.p, j.mode)] + java2)
    requires (forall e <- java1 :: IsJava(e)) && (forall e <- java2 :: IsJava(e))
    requires (forall e <- j.setup :: IsJava(e)) && (forall e <- j.cycle :: InCall(e))
    ensures Run(cfg, s0, past) && j.WellFormed(cfg, After(cfg, s0, past)) && j.RisingEdge()
  {
    JobRuns(cfg, s0, past, j);
    var s := After(cfg, s0, past);
    ModeAfterSet(cfg, After(cfg, s, j.Opening()), java1, java2, j.p, j.mode);
    LateShape(j, java1, java2);
  }

  lemma LateShape(j: Job, java1: seq<Event>, java2: seq<Event>)
    requires j.resets && j.arm == java1 + ([SetMode(j.p, j.mode)] + java2)
    requires (forall e <- java1 :: IsJava(e)) && (forall e <- java2 :: IsJava(e)) && (forall e <- j.setup :: IsJava(e))
    ensures j.RisingEdge() && NoResetOrRaise(j.setup) && NoResetOrRaise(j.arm)
  {
    assert j.arm[|java1|] == SetMode(j.p, j.mode);
  }

  lemma EarlyJob(cfg: Config, s0: State, past: seq<Event>, j: Job, java0: seq<Event>, java1: seq<Event>)
    requires |s0.flags| == cfg.probes && j.resets && j.p < cfg.probes && Run(cfg, s0, past + j.Events())
    requires j.setup == java0 + ([SetMode(j.p, j.mode)] + java1)
    requires (forall e <- java0 :: IsJava(e)) && (forall e <- java1 :: IsJava(e))
    requires (forall e <- j.arm :: IsJava(e)) && (forall e <- j.cycle :: InCall(e))
    ensures Run(cfg, s0, past) && j.WellFormed(cfg, After(cfg, s0, past)) && j.Safe(cfg, After(cfg, s0, past))
  {
    JobRuns(cfg, s0, past, j);
    var s := After(cfg, s0, past);
    ModeAfterSet(cfg, s, java0, java1, j.p, j.mode);
    JavaKeepsModes(cfg, After(cfg, s, j.Opening()), j.arm, j.p);
    EarlyShape(j, java0, java1);
  }

  lemma EarlyShape(j: Job, java0: seq<Event>, java1: seq<Event>)
    requires j.setup == java0 + ([SetMode(j.p, j.mode)] + java1)
    requires (forall e <- java0 :: IsJava(e)) && (forall e <- java1 :: IsJava(e)) && (forall e <- j.arm :: IsJava(e))
    ensures NoResetOrRaise(j.setup) && NoResetOrRaise(j.arm) && SetsOnly(j.p, j.mode, j.arm)
  {
  }
}
