/** Which cycle a completed action belongs to: when it was started, and which mode it read. */
module HandshakeFreshness {
  import opened Handshake
  import opened HandshakeSafety

  /** Index of the first event that raises `go` for `p`, or |es| when there is none. */
  function FirstRaise(p: nat, es: seq<Event>): (k: nat)
    ensures k <= |es|
  {
    if es == [] then 0 else if es[0] == RaiseGo(p) then 0 else 1 + FirstRaise(p, es[1..])
  }

  /** Index of the last event that starts the action of `p`, or -1 when there is none. */
  function LastStart(p: nat, es: seq<Event>): (k: int)
    ensures -1 <= k < |es|
    ensures k >= 0 ==> IsStart(p, es[k])
  {
    if es == [] then -1
    else if IsStart(p, es[|es| - 1]) then |es| - 1
    else LastStart(p, es[..|es| - 1])
  }

  /** Each completion in the cycle belongs to a start that follows the raising of `go` in the
      same cycle. */
  predicate Fresh(p: nat, cycle: seq<Event>) {
    forall k :: 0 <= k < |cycle| && cycle[k].Complete? && cycle[k].p == p ==>
      FirstRaise(p, cycle) < LastStart(p, cycle[..k])
  }

  /** The Java thread is not inside the probe: neither between its two reads nor in its action. */
  predicate Quiescent(s: State, p: nat) {
    s.java != SeenGo(p) && !InAction(s, p)
  }

  /** `cycle` runs from `s`, which has just been reset, and ends with run_java_probe reporting
      success. */
  predicate Succeeds(cfg: Config, s: State, p: nat, cycle: seq<Event>)
    requires |s.flags| == cfg.probes
  {
    Run(cfg, s, cycle + [Return(p, true)]) && NoReset(p, cycle)
  }

  // ---- Quiescence gives freshness -------------------------------------------

  lemma {:induction false} FirstRaiseIs(p: nat, es: seq<Event>, k: nat)
    requires k < |es| && es[k] == RaiseGo(p) && forall i :: 0 <= i < k ==> es[i] != RaiseGo(p)
    ensures FirstRaise(p, es) == k
    decreases |es|
  {
    if k > 0 {
      assert es[0] != RaiseGo(p);
      FirstRaiseIs(p, es[1..], k - 1);
    }
  }

  lemma {:induction false} FirstRaiseBound(p: nat, es: seq<Event>, k: nat)
    requires k < |es| && es[k] == RaiseGo(p)
    ensures FirstRaise(p, es) <= k
    decreases |es|
  {
    if es[0] != RaiseGo(p) {
      FirstRaiseBound(p, es[1..], k - 1);
    }
  }

  /** The state reached before step `k` of a run. */
  function At(cfg: Config, s: State, es: seq<Event>, k: nat): (s': State)
    requires |s.flags| == cfg.probes && k <= |es| && Run(cfg, s, es)
    ensures |s'.flags| == cfg.probes
  {
    assert es == es[..k] + es[k..];
    RunSplit(cfg, s, es[..k], es[k..]);
    After(cfg, s, es[..k])
  }

  lemma OneMore(cfg: Config, s: State, a: seq<Event>, e: Event, rest: seq<Event>)
    requires |s.flags| == cfg.probes && Run(cfg, s, a + ([e] + rest))
    ensures Run(cfg, s, a) && Enabled(cfg, After(cfg, s, a), e)
    ensures Run(cfg, s, a + [e]) && After(cfg, s, a + [e]) == Apply(cfg, After(cfg, s, a), e)
  {
    RunSplit(cfg, s, a, [e] + rest);
    assert ([e] + rest)[0] == e;
    FirstStep(cfg, After(cfg, s, a), e, []);
    assert [e] + [] == [e];
    RunSplit(cfg, s, a, [e]);
  }

  lemma AtStep(cfg: Config, s: State, es: seq<Event>, k: nat)
    requires |s.flags| == cfg.probes && k < |es| && Run(cfg, s, es)
    ensures Enabled(cfg, At(cfg, s, es, k), es[k])
    ensures At(cfg, s, es, k + 1) == Apply(cfg, At(cfg, s, es, k), es[k])
  {
    CutAt(es, k);
    OneMore(cfg, s, es[..k], es[k], es[k + 1..]);
  }

  lemma CutAt(es: seq<Event>, k: nat)
    requires k < |es|
    ensures es == es[..k] + ([es[k]] + es[k + 1..]) && es[..k + 1] == es[..k] + [es[k]]
  {
  }

  /** What holds before step `k` of a cycle that began quiescent with `go` down. */
  lemma {:induction false} QuiescentPrefix(cfg: Config, s: State, es: seq<Event>, p: nat, k: nat)
    requires |s.flags| == cfg.probes && p < cfg.probes && Run(cfg, s, es) && k <= |es|
    requires !s.flags[p].go && Quiescent(s, p)
    ensures At(cfg, s, es, k).flags[p].go || At(cfg, s, es, k).java == SeenGo(p) ==> FirstRaise(p, es) < k
    ensures InAction(At(cfg, s, es, k), p) ==> FirstRaise(p, es) < LastStart(p, es[..k])
  {
    if k == 0 {
      assert es[..0] == [];
    } else {
      QuiescentPrefix(cfg, s, es, p, k - 1);
      AtStep(cfg, s, es, k - 1);
      var e := es[k - 1];
      assert es[..k][..k - 1] == es[..k - 1] && es[..k][k - 1] == e;
      if e == RaiseGo(p) {
        FirstRaiseBound(p, es, k - 1);
      }
    }
  }

  lemma QuiescentIsFresh(cfg: Config, s: State, p: nat, cycle: seq<Event>)
    requires |s.flags| == cfg.probes && p < cfg.probes && !s.flags[p].go && Quiescent(s, p)
    requires Run(cfg, s, cycle)
    ensures Fresh(p, cycle)
  {
    forall k | 0 <= k < |cycle| && cycle[k].Complete? && cycle[k].p == p
      ensures FirstRaise(p, cycle) < LastStart(p, cycle[..k])
    {
      QuiescentPrefix(cfg, s, cycle, p, k);
      AtStep(cfg, s, cycle, k);
    }
  }

  // ---- Without quiescence a stale success is possible ------------------------

  /** The mode under which an action of `p` will run that is under way, or about to start. */
  function ModeRead(s: State, p: nat): int
    requires p < |s.flags|
  {
    if s.java.Acting? then s.java.mode else s.flags[p].mode
  }

  /** The Java steps that finish the action of `p` from inside the probe. */
  function Finish(cfg: Config, s: State, p: nat): (es: seq<Event>)
    requires Inv(cfg, s, p) && !Quiescent(s, p)
    ensures |es| > 0 && forall e <- es :: IsJava(e)
    ensures es[|es| - 1].Complete? && es[|es| - 1].p == p
  {
    var m := ModeRead(s, p);
    if s.java.Acting? then FinishActing(cfg, p, m, s.java.made)
    else if s.java.Entered? then [ReadMode(p, m)] + FinishActing(cfg, p, m, 0)
    else [ReadDone(p, false)] + ([ReadMode(p, m)] + FinishActing(cfg, p, m, 0))
  }

  /** The remaining calls of an action, and its completion. */
  function FinishActing(cfg: Config, p: nat, m: int, made: nat): (es: seq<Event>)
    requires made <= cfg.calls(p, m)
    ensures |es| > 0 && forall e <- es :: IsJava(e)
    ensures es[|es| - 1].Complete? && es[|es| - 1].p == p
  {
    Calls(p, m, made, cfg.calls(p, m) - made) + [Complete(p, m)]
  }

  lemma FinishActingRuns(cfg: Config, s: State, p: nat, m: int, made: nat)
    requires |s.flags| == cfg.probes && p < cfg.probes && s.java == Acting(p, m, made) && made <= cfg.calls(p, m)
    ensures Run(cfg, s, FinishActing(cfg, p, m, made))
    ensures After(cfg, s, FinishActing(cfg, p, m, made))
         == s.(java := NextProbe(cfg, p + 1), flags := s.flags[p := s.flags[p].(done := true)])
    ensures Completed(p, FinishActing(cfg, p, m, made)) == [m]
  {
    var n := cfg.calls(p, m) - made;
    var calls := Calls(p, m, made, n);
    var s1 := s.(java := Acting(p, m, made + n));
    CallsRun(cfg, s, p, m, made, n);
    CallsCount(p, m, made, n);
    FirstStep(cfg, s1, Complete(p, m), []);
    assert [Complete(p, m)] + [] == [Complete(p, m)];
    RunSplit(cfg, s, calls, [Complete(p, m)]);
    CompletedSplit(p, calls, [Complete(p, m)]);
  }

  /** Finishing first, then a whole run_java_probe that finds `done` already latched. */
  function StaleCycle(cfg: Config, s: State, p: nat): seq<Event>
    requires Inv(cfg, s, p) && !Quiescent(s, p)
  {
    Finish(cfg, s, p) + NativeOnly(cfg, p)
  }

  /** run_java_probe up to its last read, with a hit at its first poll if it polls at all. */
  function NativeOnly(cfg: Config, p: nat): seq<Event> {
    [RaiseGo(p)] + HitAndLower(cfg, p)
  }

  function HitAndLower(cfg: Config, p: nat): seq<Event> {
    (if cfg.maxPolls == 0 then [] else [Poll(p, true)]) + [LowerGo(p)]
  }

  lemma FinishRuns(cfg: Config, s: State, p: nat)
    requires Inv(cfg, s, p) && !s.flags[p].done && !Quiescent(s, p)
    ensures Run(cfg, s, Finish(cfg, s, p))
    ensures After(cfg, s, Finish(cfg, s, p))
         == s.(java := NextProbe(cfg, p + 1), flags := s.flags[p := s.flags[p].(done := true)])
    ensures Completed(p, Finish(cfg, s, p)) == [ModeRead(s, p)]
  {
    var m := ModeRead(s, p);
    if s.java.Acting? {
      FinishActingRuns(cfg, s, p, m, s.java.made);
    } else {
      var rest := FinishActing(cfg, p, m, 0);
      FinishActingRuns(cfg, s.(java := Acting(p, m, 0)), p, m, 0);
      FirstStep(cfg, s.(java := Entered(p)), ReadMode(p, m), rest);
      if s.java.SeenGo? {
        FirstStep(cfg, s, ReadDone(p, false), [ReadMode(p, m)] + rest);
      }
    }
  }

  lemma {:induction false} NothingCompletes(p: nat, es: seq<Event>)
    requires forall e <- es :: !e.Complete?
    ensures Completed(p, es) == []
  {
    if es != [] {
      NothingCompletes(p, es[1..]);
    }
  }

  lemma HitAndLowerRuns(cfg: Config, s: State, p: nat)
    requires |s.flags| == cfg.probes && p < cfg.probes && s.flags[p].done && s.native == Polling(p, cfg.maxPolls)
    ensures Run(cfg, s, HitAndLower(cfg, p))
    ensures After(cfg, s, HitAndLower(cfg, p)) == s.(native := Rereading(p), flags := s.flags[p := s.flags[p].(go := false)])
    ensures Completed(p, HitAndLower(cfg, p)) == []
  {
    NothingCompletes(p, HitAndLower(cfg, p));
    var hit := if cfg.maxPolls == 0 then s else s.(native := Lowering(p));
    FirstStep(cfg, hit, LowerGo(p), []);
    assert [LowerGo(p)] + [] == [LowerGo(p)];
    if cfg.maxPolls == 0 {
      assert HitAndLower(cfg, p) == [LowerGo(p)];
    } else {
      FirstStep(cfg, s, Poll(p, true), [LowerGo(p)]);
    }
  }

  lemma NativeOnlyRuns(cfg: Config, s: State, p: nat)
    requires |s.flags| == cfg.probes && p < cfg.probes && s.flags[p].done && s.native.Setup?
    ensures Run(cfg, s, NativeOnly(cfg, p) + [Return(p, true)])
    ensures Completed(p, NativeOnly(cfg, p)) == []
  {
    var ret, rest := [Return(p, true)], HitAndLower(cfg, p);
    NothingCompletes(p, NativeOnly(cfg, p));
    var up := Apply(cfg, s, RaiseGo(p));
    HitAndLowerRuns(cfg, up, p);
    FirstStep(cfg, After(cfg, up, rest), Return(p, true), []);
    assert ret + [] == ret;
    RunSplit(cfg, up, rest, ret);
    FirstStep(cfg, s, RaiseGo(p), rest + ret);
    assert NativeOnly(cfg, p) + ret == [RaiseGo(p)] + (rest + ret);
  }

  /** From inside the probe there is a successful cycle whose action was not started by it. */
  lemma StaleCycleSucceeds(cfg: Config, s: State, p: nat)
    requires Inv(cfg, s, p) && s.native.Setup?
    requires !s.flags[p].done && !Quiescent(s, p)
    ensures Succeeds(cfg, s, p, StaleCycle(cfg, s, p))
    ensures !Fresh(p, StaleCycle(cfg, s, p))
    ensures Completed(p, StaleCycle(cfg, s, p)) == [ModeRead(s, p)]
  {
    var fin, call := Finish(cfg, s, p), NativeOnly(cfg, p);
    var cycle := fin + call;
    FinishRuns(cfg, s, p);
    NativeOnlyRuns(cfg, After(cfg, s, fin), p);
    RunSplit(cfg, s, fin, call + [Return(p, true)]);
    assert cycle + [Return(p, true)] == fin + (call + [Return(p, true)]);
    CompletedSplit(p, fin, call);
    CompletedFirst(p, fin, call);
  }

  lemma CompletedFirst(p: nat, java: seq<Event>, call: seq<Event>)
    requires |java| > 0 && (forall e <- java :: IsJava(e)) && java[|java| - 1].Complete? && java[|java| - 1].p == p
    requires |call| > 0 && call[0] == RaiseGo(p)
    ensures !Fresh(p, java + call)
  {
    var cycle, k := java + call, |java| - 1;
    assert cycle[k] == java[k];
    assert forall i :: 0 <= i < |java| ==> cycle[i] == java[i] && IsJava(java[i]);
    FirstRaiseIs(p, cycle, |java|);
    assert LastStart(p, cycle[..k]) < k;
  }

  /** Exactly when a success proves that the action was started by this cycle. At the reset
      `done := false` of a probe, every successful continuation is fresh if and only if the
      Java thread is then outside the probe. In particular a thread that read `go` during the
      previous, successful cycle and has not yet read `done` is enough to break it. */
  lemma FreshIffQuiescent(cfg: Config, s0: State, before: seq<Event>, p: nat)
    requires Init(cfg, s0) && Run(cfg, s0, before + [ResetDone(p)])
    ensures var s := After(cfg, s0, before + [ResetDone(p)]);
      Quiescent(s, p) <==> forall cycle :: Succeeds(cfg, s, p, cycle) ==> Fresh(p, cycle)
  {
    var s := After(cfg, s0, before + [ResetDone(p)]);
    ResetState(cfg, s0, before, p);
    if Quiescent(s, p) {
      forall cycle | Succeeds(cfg, s, p, cycle) ensures Fresh(p, cycle) {
        RunSplit(cfg, s, cycle, [Return(p, true)]);
        QuiescentIsFresh(cfg, s, p, cycle);
      }
    } else {
      StaleCycleSucceeds(cfg, s, p);
    }
  }

  /** One whole action of a single probe, and the return of the Java loop to that probe. */
  function ActAndReturn(cfg: Config, m: int): seq<Event> {
    Begin(m) + (FinishActing(cfg, 0, m, 0) + ([LoopTest(true)] + ([ReadGo(0, true)] + [])))
  }

  lemma ActAndReturnRuns(cfg: Config, s: State, m: int)
    requires cfg.probes == 1 && |s.flags| == 1 && s.java == LoopHead && !s.stopJvm
    requires s.flags[0] == Flags(true, false, m)
    ensures var es := ActAndReturn(cfg, m);
      && Run(cfg, s, es) && After(cfg, s, es) == s.(java := SeenGo(0), flags := [Flags(true, true, m)])
      && Completed(0, es) == [m]
  {
    var fin, again := FinishActing(cfg, 0, m, 0), [LoopTest(true)] + ([ReadGo(0, true)] + []);
    BeginRuns(cfg, s);
    var acting := s.(java := Acting(0, m, 0));
    FinishActingRuns(cfg, acting, 0, m, 0);
    var s2 := After(cfg, acting, fin);
    assert s2 == s.(flags := [Flags(true, true, m)]);
    FirstStep(cfg, s2.(java := AtProbe(0)), ReadGo(0, true), []);
    FirstStep(cfg, s2, LoopTest(true), [ReadGo(0, true)] + []);
    RunSplit(cfg, acting, fin, again);
    RunSplit(cfg, s, Begin(m), fin + again);
    CompletedSplit(0, fin, again);
    CompletedSplit(0, Begin(m), fin + again);
  }

  /** The part of run_java_probe after the raising of `go` in which the action runs once and the
      Java thread is already back at the probe, having read `go`, when the worker lowers it. */
  function BusyCall(cfg: Config, m: int): seq<Event> {
    ActAndReturn(cfg, m) + HitAndLower(cfg, 0)
  }

  lemma BusyCallRuns(cfg: Config, s: State, m: int)
    requires cfg.probes == 1 && |s.flags| == 1 && s.java == LoopHead && !s.stopJvm
    requires s.flags[0] == Flags(true, false, m) && s.native == Polling(0, cfg.maxPolls)
    ensures var es := BusyCall(cfg, m);
      && Run(cfg, s, es) && After(cfg, s, es) == s.(java := SeenGo(0), native := Rereading(0), flags := [Flags(false, true, m)])
      && Completed(0, es) == [m]
  {
    ActAndReturnRuns(cfg, s, m);
    var s1 := After(cfg, s, ActAndReturn(cfg, m));
    HitAndLowerRuns(cfg, s1, 0);
    RunSplit(cfg, s, ActAndReturn(cfg, m), HitAndLower(cfg, 0));
    CompletedSplit(0, ActAndReturn(cfg, m), HitAndLower(cfg, 0));
  }

  /** The same with the raising of `go` and the return: a whole run_java_probe. */
  function WholeCall(cfg: Config, m: int): (es: seq<Event>)
    ensures |es| > 0 && es[|es| - 1] == Return(0, true)
  {
    [RaiseGo(0)] + (BusyCall(cfg, m) + [Return(0, true)])
  }

  lemma WholeCallRuns(cfg: Config, s: State, m: int)
    requires cfg.probes == 1 && |s.flags| == 1 && s.java == LoopHead && !s.stopJvm && s.native.Setup?
    requires s.flags[0] == Flags(false, false, m)
    ensures var es := WholeCall(cfg, m);
      && Run(cfg, s, es) && After(cfg, s, es) == s.(java := SeenGo(0), flags := [Flags(false, true, m)])
  {
    var call, ret := BusyCall(cfg, m), [Return(0, true)];
    var up := Apply(cfg, s, RaiseGo(0));
    BusyCallRuns(cfg, up, m);
    FirstStep(cfg, After(cfg, up, call), Return(0, true), []);
    assert ret + [] == ret;
    RunSplit(cfg, up, call, ret);
    FirstStep(cfg, s, RaiseGo(0), call + ret);
  }

  /** A successful cycle does not make the next reset quiescent: for every poll bound there is a
      run from the start in which the first cycle succeeds, the next reset follows at once, and
      the Java thread then stands between its two reads. */
  lemma SuccessDoesNotQuiesce(cfg: Config, s0: State)
    requires Init(cfg, s0) && cfg.probes == 1
    ensures exists before ::
      && |before| > 0 && before[|before| - 1] == Return(0, true)
      && Run(cfg, s0, before + [ResetDone(0)])
      && !Quiescent(After(cfg, s0, before + [ResetDone(0)]), 0)
  {
    var m := s0.flags[0].mode;
    var before := WholeCall(cfg, m);
    WholeCallRuns(cfg, s0, m);
    var ret := After(cfg, s0, before);
    FirstStep(cfg, ret, ResetDone(0), []);
    assert [ResetDone(0)] + [] == [ResetDone(0)];
    RunSplit(cfg, s0, before, [ResetDone(0)]);
  }

  lemma ResetState(cfg: Config, s0: State, before: seq<Event>, p: nat)
    requires Init(cfg, s0) && Run(cfg, s0, before + [ResetDone(p)])
    ensures var s := After(cfg, s0, before + [ResetDone(p)]);
      Inv(cfg, s, p) && s.native.Setup? && !s.flags[p].done && !s.flags[p].go
  {
    RunSplit(cfg, s0, before, [ResetDone(p)]);
    var s := After(cfg, s0, before);
    assert Enabled(cfg, s, [ResetDone(p)][0]);
    InvRun(cfg, s0, before, p);
    InvStep(cfg, s, ResetDone(p), p);
    assert [ResetDone(p)][1..] == [];
  }

  // ---- Which mode the completed action read ----------------------------------

  /** No action of `p` is under way with a mode other than `m`. */
  predicate ModeSafe(s: State, p: nat, m: int) {
    s.java.Acting? && s.java.p == p ==> s.java.mode == m
  }

  lemma {:induction false} ModesAre(cfg: Config, s: State, es: seq<Event>, p: nat, m: int)
    requires |s.flags| == cfg.probes && p < cfg.probes && Run(cfg, s, es)
    requires s.flags[p].mode == m && ModeSafe(s, p, m) && SetsOnly(p, m, es)
    ensures forall x <- Completed(p, es) :: x == m
    decreases |es|
  {
    if es != [] {
      ModesAre(cfg, Apply(cfg, s, es[0]), es[1..], p, m);
    }
  }

  lemma SucceedsUnder(cfg: Config, s: State, p: nat, m: int, cycle: seq<Event>)
    requires Inv(cfg, s, p) && !s.flags[p].done && s.flags[p].mode == m && ModeSafe(s, p, m)
    requires Succeeds(cfg, s, p, cycle) && SetsOnly(p, m, cycle)
    ensures Completed(p, cycle) == [m]
  {
    RunSplit(cfg, s, cycle, [Return(p, true)]);
    ModesAre(cfg, s, cycle, p, m);
    CompletionLedger(cfg, s, cycle, p);
    assert Enabled(cfg, After(cfg, s, cycle), [Return(p, true)][0]);
    var modes := Completed(p, cycle);
    assert |modes| == 1;
    assert modes[0] in Completed(p, cycle) && modes[0] == m;
    assert modes == [modes[0]];
  }

  /** Exactly when a success proves that the action ran under the cycle's mode, for a driver that
      sets the mode before the reset: if and only if no action is then under way that already read another
      mode. A thread caught between its two reads of the flags does no harm here. */
  lemma ModeIffNoOldAction(cfg: Config, s0: State, before: seq<Event>, p: nat)
    requires Init(cfg, s0) && Run(cfg, s0, before + [ResetDone(p)])
    requires p < cfg.probes
    ensures var s := After(cfg, s0, before + [ResetDone(p)]);
      ModeSafe(s, p, s.flags[p].mode) <==>
      forall cycle :: Succeeds(cfg, s, p, cycle) && NoSetMode(p, cycle)
                      ==> Completed(p, cycle) == [s.flags[p].mode]
  {
    var s := After(cfg, s0, before + [ResetDone(p)]);
    var m := s.flags[p].mode;
    ResetState(cfg, s0, before, p);
    if ModeSafe(s, p, m) {
      forall cycle | Succeeds(cfg, s, p, cycle) && NoSetMode(p, cycle)
        ensures Completed(p, cycle) == [m]
      {
        SucceedsUnder(cfg, s, p, m, cycle);
      }
    } else {
      StaleCycleSucceeds(cfg, s, p);
      NoSetModeInStale(cfg, s, p);
    }
  }

  lemma NoSetModeInStale(cfg: Config, s: State, p: nat)
    requires Inv(cfg, s, p) && !Quiescent(s, p)
    ensures NoSetMode(p, StaleCycle(cfg, s, p))
  {
    FinishIsJava(cfg, s, p);
  }

  lemma FinishIsJava(cfg: Config, s: State, p: nat)
    requires Inv(cfg, s, p) && !Quiescent(s, p)
    ensures var fin := Finish(cfg, s, p); NoSetMode(p, fin) && NoRaise(p, fin) && NoReset(p, fin)
    ensures var call := NativeOnly(cfg, p); NoSetMode(p, call) && NoReset(p, call)
  {
  }

  /** For such a driver a successful cycle is followed by one that runs under its own mode: `done`
      is still latched when the worker resets it, so no old action can be under way. */
  lemma LatchedDoneMeansModeSafe(cfg: Config, s0: State, before: seq<Event>, p: nat, m: int)
    requires Init(cfg, s0) && Run(cfg, s0, before + [ResetDone(p)])
    requires p < cfg.probes
    requires Run(cfg, s0, before) && After(cfg, s0, before).flags[p].done
    ensures ModeSafe(After(cfg, s0, before + [ResetDone(p)]), p, m)
  {
    RunSplit(cfg, s0, before, [ResetDone(p)]);
    InvRun(cfg, s0, before, p);
    assert [ResetDone(p)][1..] == [];
  }

  /** The order of the rising-edge drivers, which set the mode only after the reset: `setup` ends by
      setting it to `m`, still before `go` is raised, and `cycle` then succeeds. */
  predicate LateModeCycle(cfg: Config, s: State, p: nat, m: int, setup: seq<Event>, cycle: seq<Event>)
    requires |s.flags| == cfg.probes
  {
    && |setup| > 0 && setup[|setup| - 1] == SetMode(p, m)
    && NoRaise(p, setup) && NoReset(p, setup) && Run(cfg, s, setup)
    && Succeeds(cfg, After(cfg, s, setup), p, cycle) && NoSetMode(p, cycle)
  }

  lemma {:induction false} QuiescentStays(cfg: Config, s: State, es: seq<Event>, p: nat)
    requires |s.flags| == cfg.probes && p < cfg.probes && Run(cfg, s, es)
    requires !s.flags[p].go && Quiescent(s, p) && NoRaise(p, es)
    ensures Quiescent(After(cfg, s, es), p)
    decreases |es|
  {
    if es != [] {
      QuiescentStays(cfg, Apply(cfg, s, es[0]), es[1..], p);
    }
  }

  lemma LateModeWhenQuiescent(cfg: Config, s: State, p: nat, m: int, setup: seq<Event>, cycle: seq<Event>)
    requires Inv(cfg, s, p) && s.native.Setup? && !s.flags[p].done && Quiescent(s, p)
    requires LateModeCycle(cfg, s, p, m, setup, cycle)
    ensures Completed(p, setup + cycle) == [m]
  {
    var s1 := After(cfg, s, setup);
    QuiescentStays(cfg, s, setup, p);
    StartsWhileLowered(cfg, s, setup, p);
    StartsAreConserved(cfg, s, setup, p);
    CompletionLedger(cfg, s, setup, p);
    var last := |setup| - 1;
    assert setup == setup[..last] + [SetMode(p, m)];
    RunSplit(cfg, s, setup[..last], [SetMode(p, m)]);
    assert [SetMode(p, m)][1..] == [];
    assert s1.flags[p].mode == m;
    InvRun(cfg, s, setup, p);
    SucceedsUnder(cfg, s1, p, m, cycle);
    CompletedSplit(p, setup, cycle);
  }

  lemma LateModeFailsInside(cfg: Config, s: State, p: nat)
    requires Inv(cfg, s, p) && s.native.Setup? && !s.flags[p].done && !Quiescent(s, p)
    ensures exists m, setup, cycle :: LateModeCycle(cfg, s, p, m, setup, cycle) && Completed(p, setup + cycle) != [m]
  {
    var x := ModeRead(s, p);
    var setup, cycle := Finish(cfg, s, p) + [SetMode(p, x + 1)], NativeOnly(cfg, p);
    OldModeRuns(cfg, s, p, x + 1);
    OldModeIsLate(cfg, s, p, x + 1);
    CompletedSplit(p, setup, cycle);
    assert [x] != [x + 1] by { assert [x][0] != [x + 1][0]; }
  }

  lemma OldModeIsLate(cfg: Config, s: State, p: nat, m: int)
    requires Inv(cfg, s, p) && s.native.Setup? && !s.flags[p].done && !Quiescent(s, p)
    ensures LateModeCycle(cfg, s, p, m, Finish(cfg, s, p) + [SetMode(p, m)], NativeOnly(cfg, p))
  {
    OldModeRuns(cfg, s, p, m);
    FinishIsJava(cfg, s, p);
    var fin := Finish(cfg, s, p);
    assert (fin + [SetMode(p, m)])[|fin|] == SetMode(p, m);
  }

  /** From inside the probe the action can finish before the worker sets the mode. */
  lemma OldModeRuns(cfg: Config, s: State, p: nat, m: int)
    requires Inv(cfg, s, p) && s.native.Setup? && !s.flags[p].done && !Quiescent(s, p)
    ensures var setup := Finish(cfg, s, p) + [SetMode(p, m)];
      && Run(cfg, s, setup) && After(cfg, s, setup).native.Setup? && After(cfg, s, setup).flags[p] == Flags(s.flags[p].go, true, m)
      && Completed(p, setup) == [ModeRead(s, p)] && Completed(p, NativeOnly(cfg, p)) == []
      && Run(cfg, After(cfg, s, setup), NativeOnly(cfg, p) + [Return(p, true)])
  {
    var fin, set1 := Finish(cfg, s, p), [SetMode(p, m)];
    FinishRuns(cfg, s, p);
    RunSplit(cfg, s, fin, set1);
    var s1 := After(cfg, s, fin);
    FirstStep(cfg, s1, SetMode(p, m), []);
    assert set1 + [] == set1;
    NativeOnlyRuns(cfg, After(cfg, s1, set1), p);
    CompletedSplit(p, fin, set1);
    NothingCompletes(p, set1);
  }

  /** For the rising-edge drivers the condition is the stronger one: every success then ran under
      the late mode if and only if the Java thread was outside the probe at the reset. */
  lemma LateModeIffQuiescent(cfg: Config, s0: State, before: seq<Event>, p: nat)
    requires Init(cfg, s0) && Run(cfg, s0, before + [ResetDone(p)])
    ensures var s := After(cfg, s0, before + [ResetDone(p)]);
      Quiescent(s, p) <==>
      forall m, setup, cycle :: LateModeCycle(cfg, s, p, m, setup, cycle) ==> Completed(p, setup + cycle) == [m]
  {
    var s := After(cfg, s0, before + [ResetDone(p)]);
    ResetState(cfg, s0, before, p);
    if Quiescent(s, p) {
      forall m, setup, cycle | LateModeCycle(cfg, s, p, m, setup, cycle)
        ensures Completed(p, setup + cycle) == [m]
      {
        LateModeWhenQuiescent(cfg, s, p, m, setup, cycle);
      }
    } else {
      LateModeFailsInside(cfg, s, p);
    }
  }
}
