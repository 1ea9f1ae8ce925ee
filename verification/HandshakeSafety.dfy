/** What every run of the handshake keeps, and what one probe cycle reports. */
module HandshakeSafety {
  import opened Handshake

  /** The action of `p` has been entered and has not ended. */
  predicate InAction(s: State, p: nat) {
    s.java == Entered(p) || (s.java.Acting? && s.java.p == p)
  }

  /** The invariant of one probe: `done` rules out an action under way, an action makes no more
      than its calls, and `go` is up exactly while the native worker is inside run_java_probe for
      this probe, before lowering it. */
  predicate Inv(cfg: Config, s: State, p: nat) {
    && |s.flags| == cfg.probes
    && p < cfg.probes
    && (s.flags[p].done ==> !InAction(s, p))
    && (s.java.Acting? && s.java.p == p ==> s.java.made <= cfg.calls(p, s.java.mode))
    && (s.flags[p].go <==> (s.native.Polling? || s.native.Lowering?) && s.native.q == p)
  }

  lemma InvStep(cfg: Config, s: State, e: Event, p: nat)
    requires Inv(cfg, s, p) && Enabled(cfg, s, e)
    ensures Inv(cfg, Apply(cfg, s, e), p)
  {
  }

  lemma {:induction false} InvRun(cfg: Config, s: State, es: seq<Event>, p: nat)
    requires Inv(cfg, s, p) && Run(cfg, s, es)
    ensures Inv(cfg, After(cfg, s, es), p)
    decreases |es|
  {
    if es != [] {
      InvStep(cfg, s, es[0], p);
      InvRun(cfg, Apply(cfg, s, es[0]), es[1..], p);
    }
  }

  function Bit(b: bool): int { if b then 1 else 0 }

  predicate NoReset(p: nat, es: seq<Event>) { ResetDone(p) !in es }
  predicate NoRaise(p: nat, es: seq<Event>) { RaiseGo(p) !in es }
  predicate NoSetMode(p: nat, es: seq<Event>) { forall e <- es :: !(e.SetMode? && e.p == p) }
  predicate SetsOnly(p: nat, m: int, es: seq<Event>) { forall e <- es :: e.SetMode? && e.p == p ==> e.mode == m }

  /** Without a reset, `done` counts the completions. */
  lemma {:induction false} CompletionLedger(cfg: Config, s: State, es: seq<Event>, p: nat)
    requires Inv(cfg, s, p) && Run(cfg, s, es) && NoReset(p, es)
    ensures |Completed(p, es)| == Bit(After(cfg, s, es).flags[p].done) - Bit(s.flags[p].done)
    decreases |es|
  {
    if es != [] {
      InvStep(cfg, s, es[0], p);
      CompletionLedger(cfg, Apply(cfg, s, es[0]), es[1..], p);
    }
  }

  /** A probe cycle reports success exactly when its action completed, and then it completed
      exactly once: in every interleaving, for every poll bound, whatever happened before the
      reset, and even when an action of an earlier cycle is still under way at the reset. */
  lemma ExactlyOnce(cfg: Config, s0: State, before: seq<Event>, cycle: seq<Event>, p: nat, ok: bool)
    requires Init(cfg, s0) && NoReset(p, cycle)
    requires Run(cfg, s0, before + ([ResetDone(p)] + cycle + [Return(p, ok)]))
    ensures |Completed(p, cycle)| == if ok then 1 else 0
  {
    var rest := [ResetDone(p)] + cycle + [Return(p, ok)];
    RunSplit(cfg, s0, before, rest);
    var s := After(cfg, s0, before);
    assert rest[0] == ResetDone(p) && p < cfg.probes;
    InvRun(cfg, s0, before, p);
    CycleFrom(cfg, s, cycle, p, ok);
  }

  /** The same from any state that satisfies the invariant. */
  lemma CycleFrom(cfg: Config, s: State, cycle: seq<Event>, p: nat, ok: bool)
    requires Inv(cfg, s, p) && NoReset(p, cycle)
    requires Run(cfg, s, [ResetDone(p)] + cycle + [Return(p, ok)])
    ensures |Completed(p, cycle)| == if ok then 1 else 0
  {
    var reset := [ResetDone(p)];
    assert reset + cycle + [Return(p, ok)] == reset + (cycle + [Return(p, ok)]);
    RunSplit(cfg, s, reset, cycle + [Return(p, ok)]);
    var s1 := After(cfg, s, reset);
    assert s1 == Apply(cfg, s, ResetDone(p)) by { assert reset[1..] == []; }
    InvStep(cfg, s, ResetDone(p), p);
    RunSplit(cfg, s1, cycle, [Return(p, ok)]);
    CompletionLedger(cfg, s1, cycle, p);
    var s2 := After(cfg, s1, cycle);
    assert Enabled(cfg, s2, [Return(p, ok)][0]);
  }

  /** The resets of `p` that wiped a latched `done`. */
  function EffectiveResets(cfg: Config, s: State, es: seq<Event>, p: nat): nat
    requires |s.flags| == cfg.probes && p < cfg.probes && Run(cfg, s, es)
    decreases |es|
  {
    if es == [] then 0
    else
      (if es[0] == ResetDone(p) && s.flags[p].done then 1 else 0)
      + EffectiveResets(cfg, Apply(cfg, s, es[0]), es[1..], p)
  }

  /** Over a whole run, timeouts included, nothing completes unaccounted for: each completion
      is either still latched in `done` or was wiped by exactly one later reset. */
  lemma {:induction false} RunLedger(cfg: Config, s: State, es: seq<Event>, p: nat)
    requires Inv(cfg, s, p) && Run(cfg, s, es)
    ensures Bit(s.flags[p].done) + |Completed(p, es)|
         == EffectiveResets(cfg, s, es, p) + Bit(After(cfg, s, es).flags[p].done)
    decreases |es|
  {
    if es != [] {
      InvStep(cfg, s, es[0], p);
      RunLedger(cfg, Apply(cfg, s, es[0]), es[1..], p);
    }
  }

  /** Every started action ends by one completion or one exception, or is still under way. */
  lemma {:induction false} StartsAreConserved(cfg: Config, s: State, es: seq<Event>, p: nat)
    requires |s.flags| == cfg.probes && Run(cfg, s, es)
    ensures Bit(InAction(s, p)) + Starts(p, es)
         == |Completed(p, es)| + Throws(p, es) + Bit(InAction(After(cfg, s, es), p))
    decreases |es|
  {
    if es != [] {
      StartsAreConserved(cfg, Apply(cfg, s, es[0]), es[1..], p);
    }
  }

  /** Once `go` is down, an action can start only if the Java thread had already read `go`, and
      then at most once, for as long as `go` is not raised again, resets or not. */
  lemma {:induction false} StartsWhileLowered(cfg: Config, s: State, es: seq<Event>, p: nat)
    requires |s.flags| == cfg.probes && p < cfg.probes && Run(cfg, s, es)
    requires !s.flags[p].go && NoRaise(p, es)
    ensures !After(cfg, s, es).flags[p].go
    ensures Starts(p, es) + Bit(After(cfg, s, es).java == SeenGo(p)) <= Bit(s.java == SeenGo(p))
    decreases |es|
  {
    if es != [] {
      StartsWhileLowered(cfg, Apply(cfg, s, es[0]), es[1..], p);
    }
  }

  /** After the worker lowers `go`, in particular after a timeout, `go` stays down until it is
      raised again, at most one further action starts and at most one completes. */
  lemma AfterLowering(cfg: Config, s0: State, before: seq<Event>, after: seq<Event>, p: nat)
    requires Init(cfg, s0) && NoRaise(p, after) && p < cfg.probes
    requires Run(cfg, s0, before + ([LowerGo(p)] + after))
    ensures !After(cfg, s0, before + ([LowerGo(p)] + after)).flags[p].go
    ensures Starts(p, after) <= 1 && |Completed(p, after)| <= 1
  {
    var low := [LowerGo(p)];
    RunSplit(cfg, s0, before, low + after);
    var s := After(cfg, s0, before);
    RunSplit(cfg, s, low, after);
    var s1 := After(cfg, s, low);
    assert s1 == Apply(cfg, s, LowerGo(p)) by { assert low[1..] == []; }
    StartsWhileLowered(cfg, s1, after, p);
    StartsAreConserved(cfg, s1, after, p);
  }

  // ---- What a throwing action does ------------------------------------------

  lemma {:induction false} ExitedStays(cfg: Config, s: State, es: seq<Event>, p: nat)
    requires |s.flags| == cfg.probes && Run(cfg, s, es) && s.java.Exited?
    ensures After(cfg, s, es).java.Exited? && Completed(p, es) == [] && Starts(p, es) == 0
    decreases |es|
  {
    if es != [] {
      ExitedStays(cfg, Apply(cfg, s, es[0]), es[1..], p);
    }
  }

  /** Main.runProbe has no handler: one throwing inline action ends the Java loop, and every
      later cycle of every probe reports failure. */
  lemma InlineThrowFailsEveryLaterCycle(cfg: Config, s0: State, before: seq<Event>, thrown: Event,
                                        between: seq<Event>, cycle: seq<Event>, p: nat, ok: bool)
    requires Init(cfg, s0) && thrown.Throw? && thrown.p < cfg.inlineProbes && NoReset(p, cycle)
    requires Run(cfg, s0, (before + [thrown] + between) + ([ResetDone(p)] + cycle + [Return(p, ok)]))
    ensures !ok
  {
    var pre := before + [thrown] + between;
    ExactlyOnce(cfg, s0, pre, cycle, p, ok);
    RunSplit(cfg, s0, pre, [ResetDone(p)] + cycle + [Return(p, ok)]);
    RunSplit(cfg, s0, before + [thrown], between);
    RunSplit(cfg, s0, before, [thrown]);
    var s1 := After(cfg, s0, before);
    var dead := After(cfg, s0, before + [thrown]);
    assert dead == Apply(cfg, s1, thrown) by { assert [thrown][1..] == []; }
    ExitedStays(cfg, dead, between, p);
    var s2 := After(cfg, s0, pre);
    ExitedStays(cfg, s2, [ResetDone(p)] + cycle + [Return(p, ok)], p);
    CompletedSplit(p, [ResetDone(p)] + cycle, [Return(p, ok)]);
    CompletedSplit(p, [ResetDone(p)], cycle);
  }

  /** Harness.tickAll isolates a throwing probe: the Java loop ends only by the stop flag or by
      an inline action that threw. */
  lemma {:induction false} ExitHasACause(cfg: Config, s: State, es: seq<Event>)
    requires |s.flags| == cfg.probes && Run(cfg, s, es) && !s.java.Exited?
    requires After(cfg, s, es).java.Exited?
    ensures s.stopJvm || StopJvm in es || exists e :: e in es && e.Throw? && e.p < cfg.inlineProbes
    decreases |es|
  {
    assert es != [];
    var s' := Apply(cfg, s, es[0]);
    if es[0].Throw? && es[0].p < cfg.inlineProbes {
      assert es[0] in es;
    } else if !s'.java.Exited? {
      ExitHasACause(cfg, s', es[1..]);
      if StopJvm in es[1..] {
        assert StopJvm in es;
      } else if e :| e in es[1..] && e.Throw? && e.p < cfg.inlineProbes {
        assert e in es;
      }
    }
  }

  lemma FirstStep(cfg: Config, s: State, e: Event, rest: seq<Event>)
    requires |s.flags| == cfg.probes && Enabled(cfg, s, e)
    ensures Run(cfg, s, [e] + rest) <==> Run(cfg, Apply(cfg, s, e), rest)
    ensures Run(cfg, s, [e] + rest) ==> After(cfg, s, [e] + rest) == After(cfg, Apply(cfg, s, e), rest)
    ensures forall p: nat :: Starts(p, [e] + rest) == (if IsStart(p, e) then 1 else 0) + Starts(p, rest)
    ensures forall p: nat :: Completed(p, [e] + rest)
                          == (if e.Complete? && e.p == p then [e.mode] else []) + Completed(p, rest)
  {
    assert ([e] + rest)[1..] == rest;
  }

  /** The next `n` calls, from number `from` on, of an action that read `mode`. */
  function Calls(p: nat, mode: int, from: nat, n: nat): (es: seq<Event>)
    ensures |es| == n && forall e <- es :: e.Dispatch?
    decreases n
  {
    if n == 0 then [] else [Dispatch(p, mode, from)] + Calls(p, mode, from + 1, n - 1)
  }

  lemma {:induction false} CallsRun(cfg: Config, s: State, p: nat, mode: int, from: nat, n: nat)
    requires |s.flags| == cfg.probes && p < cfg.probes && s.java == Acting(p, mode, from)
    requires from + n <= cfg.calls(p, mode)
    ensures Run(cfg, s, Calls(p, mode, from, n))
    ensures After(cfg, s, Calls(p, mode, from, n)) == s.(java := Acting(p, mode, from + n))
    decreases n
  {
    if n > 0 {
      CallsRun(cfg, s.(java := Acting(p, mode, from + 1)), p, mode, from + 1, n - 1);
      FirstStep(cfg, s, Dispatch(p, mode, from), Calls(p, mode, from + 1, n - 1));
    }
  }

  lemma {:induction false} CallsCount(p: nat, mode: int, from: nat, n: nat)
    ensures Completed(p, Calls(p, mode, from, n)) == [] && Starts(p, Calls(p, mode, from, n)) == 0
    ensures |Dispatched(p, Calls(p, mode, from, n))| == n
    decreases n
  {
    if n > 0 {
      CallsCount(p, mode, from + 1, n - 1);
      var es := Calls(p, mode, from, n);
      assert es[0] == Dispatch(p, mode, from) && es[1..] == Calls(p, mode, from + 1, n - 1);
    }
  }

  /** One round of a single fixture probe whose action throws after `made` calls. */
  function ThrowingRound(mode: int, made: nat): seq<Event> {
    Begin(mode) + (Calls(0, mode, 0, made) + [Throw(0, mode, made)])
  }

  /** From the head of the main loop into the action of the first probe. */
  function Begin(mode: int): seq<Event> {
    [LoopTest(true)] + ([ReadGo(0, true)] + ([ReadDone(0, false)] + ([ReadMode(0, mode)] + [])))
  }

  lemma BeginRuns(cfg: Config, s: State)
    requires cfg.probes > 0 && |s.flags| == cfg.probes && s.java == LoopHead && !s.stopJvm && s.flags[0].go && !s.flags[0].done
    ensures var es := Begin(s.flags[0].mode);
      && Run(cfg, s, es) && After(cfg, s, es) == s.(java := Acting(0, s.flags[0].mode, 0))
      && Starts(0, es) == 1 && Completed(0, es) == []
  {
    var m := s.flags[0].mode;
    var r3 := [ReadMode(0, m)] + [];
    var r2 := [ReadDone(0, false)] + r3;
    FirstStep(cfg, s.(java := Entered(0)), ReadMode(0, m), []);
    FirstStep(cfg, s.(java := SeenGo(0)), ReadDone(0, false), r3);
    FirstStep(cfg, s.(java := AtProbe(0)), ReadGo(0, true), r2);
    FirstStep(cfg, s, LoopTest(true), [ReadGo(0, true)] + r2);
  }

  function ThrowingRounds(mode: int, made: nat, n: nat): seq<Event> {
    if n == 0 then [] else ThrowingRound(mode, made) + ThrowingRounds(mode, made, n - 1)
  }

  lemma OneThrowingRound(cfg: Config, s: State, made: nat)
    requires cfg.probes == 1 && cfg.inlineProbes == 0
    requires |s.flags| == 1 && s.java == LoopHead && !s.stopJvm && s.flags[0].go && !s.flags[0].done
    requires made <= cfg.calls(0, s.flags[0].mode)
    ensures var es := ThrowingRound(s.flags[0].mode, made);
      && Run(cfg, s, es) && After(cfg, s, es) == s
      && Starts(0, es) == 1 && |Dispatched(0, es)| == made && Completed(0, es) == []
  {
    var m := s.flags[0].mode;
    var calls, throw := Calls(0, m, 0, made), [Throw(0, m, made)];
    BeginRuns(cfg, s);
    var s1 := s.(java := Acting(0, m, 0));
    CallsRun(cfg, s1, 0, m, 0, made);
    FirstStep(cfg, s.(java := Acting(0, m, made)), Throw(0, m, made), []);
    assert throw + [] == throw;
    RunSplit(cfg, s1, calls, throw);
    RunSplit(cfg, s, Begin(m), calls + throw);
    ThrowingRoundCounts(m, made);
  }

  lemma ThrowingRoundCounts(m: int, made: nat)
    ensures Starts(0, ThrowingRound(m, made)) == Starts(0, Begin(m)) && Completed(0, ThrowingRound(m, made)) == Completed(0, Begin(m))
    ensures |Dispatched(0, ThrowingRound(m, made))| == made
  {
    var calls, throw := Calls(0, m, 0, made), [Throw(0, m, made)];
    CallsCount(0, m, 0, made);
    OneThrowCounts(m, made);
    CountsSplit(0, calls, throw);
    CountsSplit(0, Begin(m), calls + throw);
    CompletedSplit(0, calls, throw);
    CompletedSplit(0, Begin(m), calls + throw);
    ThrowingRoundDispatches(m, made);
  }

  lemma ThrowingRoundDispatches(m: int, made: nat)
    ensures |Dispatched(0, ThrowingRound(m, made))| == made
  {
    var calls, throw := Calls(0, m, 0, made), [Throw(0, m, made)];
    CallsCount(0, m, 0, made);
    OneThrowCounts(m, made);
    DispatchedSplit(0, calls, throw);
    DispatchedSplit(0, Begin(m), calls + throw);
    NoDispatch(0, Begin(m));
  }

  lemma OneThrowCounts(m: int, made: nat)
    ensures var throw := [Throw(0, m, made)];
      Starts(0, throw) == 0 && Completed(0, throw) == [] && Dispatched(0, throw) == []
  {
    assert [Throw(0, m, made)][1..] == [];
  }

  lemma {:induction false} NoDispatch(p: nat, es: seq<Event>)
    requires forall e <- es :: !e.Dispatch?
    ensures Dispatched(p, es) == []
  {
    if es != [] {
      NoDispatch(p, es[1..]);
    }
  }

  /** A throwing action leaves `done` down, so while `go` is up it is started again in every
      round: no bound on its starts, nor on the calls they make, holds inside one cycle. */
  lemma {:induction false} ThrowingActionRestarts(cfg: Config, s: State, made: nat, n: nat)
    requires cfg.probes == 1 && cfg.inlineProbes == 0
    requires |s.flags| == 1 && s.java == LoopHead && !s.stopJvm && s.flags[0].go && !s.flags[0].done
    requires made <= cfg.calls(0, s.flags[0].mode)
    ensures var es := ThrowingRounds(s.flags[0].mode, made, n);
      && Run(cfg, s, es) && After(cfg, s, es) == s
      && Starts(0, es) == n && |Dispatched(0, es)| == n * made && Completed(0, es) == []
    decreases n
  {
    if n > 0 {
      var mode := s.flags[0].mode;
      var round, rest := ThrowingRound(mode, made), ThrowingRounds(mode, made, n - 1);
      OneThrowingRound(cfg, s, made);
      ThrowingActionRestarts(cfg, s, made, n - 1);
      RunSplit(cfg, s, round, rest);
      CountsSplit(0, round, rest);
      CompletedSplit(0, round, rest);
      DispatchedSplit(0, round, rest);
      assert n * made == made + (n - 1) * made;
    }
  }

  // ---- Whose calls a detour sees ---------------------------------------------

  /** How an action ended: under which mode, after how many calls, by latching `done` or not. */
  datatype Outcome = Outcome(mode: int, made: nat, completed: bool)

  /** The actions of `p` that ended, in order. */
  function Ended(cfg: Config, p: nat, es: seq<Event>): seq<Outcome> {
    if es == [] then []
    else EndedBy(cfg, p, es[0]) + Ended(cfg, p, es[1..])
  }

  function EndedBy(cfg: Config, p: nat, e: Event): seq<Outcome> {
    match e
    case Complete(q, m) => if q == p then [Outcome(m, cfg.calls(p, m), true)] else []
    case Throw(q, m, made) => if q == p then [Outcome(m, made, false)] else []
    case _ => []
  }

  /** The first `made` calls of an action under `mode`. */
  function CallsOf(mode: int, made: nat): seq<(int, nat)> {
    seq(made, i => (mode, i))
  }

  function AllCalls(ended: seq<Outcome>): seq<(int, nat)> {
    if ended == [] then [] else CallsOf(ended[0].mode, ended[0].made) + AllCalls(ended[1..])
  }

  /** The calls already made by an action of `p` under way. */
  function InFlight(s: State, p: nat): seq<(int, nat)> {
    if s.java.Acting? && s.java.p == p then CallsOf(s.java.mode, s.java.made) else []
  }

  lemma DispatchStep(cfg: Config, s: State, e: Event, p: nat)
    requires |s.flags| == cfg.probes && Enabled(cfg, s, e)
    ensures InFlight(s, p) + (if e.Dispatch? && e.p == p then [(e.mode, e.index)] else [])
         == AllCalls(EndedBy(cfg, p, e)) + InFlight(Apply(cfg, s, e), p)
  {
    var ended := EndedBy(cfg, p, e);
    if ended != [] {
      assert ended[1..] == [];
      assert AllCalls(ended) == CallsOf(ended[0].mode, ended[0].made) + [];
    }
  }

  lemma {:induction false} AllCallsSplit(a: seq<Outcome>, b: seq<Outcome>)
    ensures AllCalls(a + b) == AllCalls(a) + AllCalls(b)
  {
    if a == [] {
      assert a + b == b;
    } else {
      assert (a + b)[1..] == a[1..] + b;
      AllCallsSplit(a[1..], b);
    }
  }

  /** In every run the calls that a detour sees are, in this order, the calls of the actions that
      ended, all of them for one that completed and the first few for one that threw, followed by
      those of the action still under way. */
  lemma {:induction false} DispatchLedger(cfg: Config, s: State, es: seq<Event>, p: nat)
    requires |s.flags| == cfg.probes && Run(cfg, s, es)
    ensures InFlight(s, p) + Dispatched(p, es) == AllCalls(Ended(cfg, p, es)) + InFlight(After(cfg, s, es), p)
    decreases |es|
  {
    if es != [] {
      var s' := Apply(cfg, s, es[0]);
      var call := if es[0].Dispatch? && es[0].p == p then [(es[0].mode, es[0].index)] else [];
      var ended, rest := EndedBy(cfg, p, es[0]), Ended(cfg, p, es[1..]);
      DispatchStep(cfg, s, es[0], p);
      DispatchLedger(cfg, s', es[1..], p);
      AllCallsSplit(ended, rest);
      Regroup(InFlight(s, p), call, Dispatched(p, es[1..]), AllCalls(ended), InFlight(s', p), AllCalls(rest), InFlight(After(cfg, s, es), p));
    }
  }

  lemma Regroup<T>(x: seq<T>, head: seq<T>, tail: seq<T>, done: seq<T>, mid: seq<T>, rest: seq<T>, end: seq<T>)
    requires x + head == done + mid && mid + tail == rest + end
    ensures x + (head + tail) == (done + rest) + end
  {
    assert x + (head + tail) == (x + head) + tail;
    assert (done + mid) + tail == done + (mid + tail);
    assert done + (rest + end) == (done + rest) + end;
  }

  // ---- How the worker polls ----------------------------------------------------

  /** What happens inside run_java_probe, between raising `go` and returning. */
  predicate InCall(e: Event) { IsJava(e) || e.Poll? || e.LowerGo? }

  function Polls(p: nat, es: seq<Event>): nat {
    if es == [] then 0 else (if es[0].Poll? && es[0].p == p then 1 else 0) + Polls(p, es[1..])
  }

  /** As long as `done` stays down, the worker uses up its polls one by one, and lowers `go` only
      when none is left. */
  lemma {:induction false} PollsWhileDown(cfg: Config, s: State, es: seq<Event>, p: nat, left: nat)
    requires |s.flags| == cfg.probes && p < cfg.probes && Run(cfg, s, es) && (forall e <- es :: InCall(e))
    requires s.native == Polling(p, left) || (s.native == Rereading(p) && left == 0)
    requires !After(cfg, s, es).flags[p].done
    ensures Polls(p, es) <= left
    ensures After(cfg, s, es).native == Polling(p, left - Polls(p, es)) || (After(cfg, s, es).native == Rereading(p) && Polls(p, es) == left)
    decreases |es|
  {
    if es != [] {
      if s.flags[p].done {
        DoneStays(cfg, s, es, p);
      }
      var s' := Apply(cfg, s, es[0]);
      assert InCall(es[0]);
      PollsWhileDown(cfg, s', es[1..], p, if es[0].Poll? then left - 1 else left);
    }
  }

  lemma {:induction false} PollsBounded(cfg: Config, s: State, es: seq<Event>, p: nat, left: nat)
    requires |s.flags| == cfg.probes && Run(cfg, s, es) && (forall e <- es :: InCall(e))
    requires s.native == Polling(p, left) || ((s.native == Lowering(p) || s.native == Rereading(p)) && left == 0)
    ensures Polls(p, es) <= left
    decreases |es|
  {
    if es != [] {
      var s' := Apply(cfg, s, es[0]);
      assert InCall(es[0]);
      PollsBounded(cfg, s', es[1..], p, if s'.native.Polling? then s'.native.left else 0);
    }
  }

  lemma AfterRaise(cfg: Config, s: State, p: nat, es: seq<Event>)
    requires |s.flags| == cfg.probes && Run(cfg, s, [RaiseGo(p)] + es)
    ensures p < cfg.probes && Enabled(cfg, s, RaiseGo(p)) && Run(cfg, Apply(cfg, s, RaiseGo(p)), es)
    ensures After(cfg, s, [RaiseGo(p)] + es) == After(cfg, Apply(cfg, s, RaiseGo(p)), es)
  {
    assert ([RaiseGo(p)] + es)[0] == RaiseGo(p);
    FirstStep(cfg, s, RaiseGo(p), es);
  }

  /** run_java_probe never gives up early: when it reports failure it has made all its polls. */
  lemma FailureMadeAllPolls(cfg: Config, s: State, cycle: seq<Event>, p: nat, ok: bool)
    requires |s.flags| == cfg.probes && (forall e <- cycle :: InCall(e))
    requires Run(cfg, s, [RaiseGo(p)] + (cycle + [Return(p, ok)]))
    ensures Polls(p, cycle) <= cfg.maxPolls && (!ok ==> Polls(p, cycle) == cfg.maxPolls)
  {
    AfterRaise(cfg, s, p, cycle + [Return(p, ok)]);
    var up := Apply(cfg, s, RaiseGo(p));
    RunSplit(cfg, up, cycle, [Return(p, ok)]);
    assert Enabled(cfg, After(cfg, up, cycle), [Return(p, ok)][0]);
    PollsBounded(cfg, up, cycle, p, cfg.maxPolls);
    if !ok {
      PollsWhileDown(cfg, up, cycle, p, cfg.maxPolls);
    }
  }

  /** It lowers `go` only when the action has completed or all polls were made. */
  lemma LoweredForAReason(cfg: Config, s: State, cycle: seq<Event>, p: nat)
    requires |s.flags| == cfg.probes && (forall e <- cycle :: InCall(e))
    requires Run(cfg, s, [RaiseGo(p)] + (cycle + [LowerGo(p)]))
    ensures Run(cfg, s, [RaiseGo(p)] + cycle)
    ensures After(cfg, s, [RaiseGo(p)] + cycle).flags[p].done || Polls(p, cycle) == cfg.maxPolls
  {
    AfterRaise(cfg, s, p, cycle + [LowerGo(p)]);
    var up := Apply(cfg, s, RaiseGo(p));
    RunSplit(cfg, up, cycle, [LowerGo(p)]);
    assert Enabled(cfg, After(cfg, up, cycle), [LowerGo(p)][0]);
    FirstStep(cfg, s, RaiseGo(p), cycle);
    if !After(cfg, up, cycle).flags[p].done {
      PollsWhileDown(cfg, up, cycle, p, cfg.maxPolls);
    }
  }

  /** And it polls again only if the poll before found `done` down. */
  lemma PollsOnlyWhileDown(cfg: Config, s: State, p: nat, hit: bool, rest: seq<Event>, again: bool)
    requires |s.flags| == cfg.probes && p < cfg.probes && (forall e <- rest :: InCall(e))
    requires Run(cfg, s, [Poll(p, hit)] + (rest + [Poll(p, again)]))
    ensures !s.flags[p].done
  {
    assert ([Poll(p, hit)] + (rest + [Poll(p, again)]))[0] == Poll(p, hit);
    FirstStep(cfg, s, Poll(p, hit), rest + [Poll(p, again)]);
    var s1 := Apply(cfg, s, Poll(p, hit));
    RunSplit(cfg, s1, rest, [Poll(p, again)]);
    assert Enabled(cfg, After(cfg, s1, rest), [Poll(p, again)][0]);
    if s.flags[p].done {
      StaysBehindPolling(cfg, s1, rest, p);
    }
  }

  lemma {:induction false} StaysBehindPolling(cfg: Config, s: State, es: seq<Event>, p: nat)
    requires |s.flags| == cfg.probes && Run(cfg, s, es) && (forall e <- es :: InCall(e))
    requires s.native == Lowering(p) || s.native == Rereading(p)
    ensures !After(cfg, s, es).native.Polling?
    decreases |es|
  {
    if es != [] {
      assert InCall(es[0]);
      StaysBehindPolling(cfg, Apply(cfg, s, es[0]), es[1..], p);
    }
  }

  // ---- What the stop flag does ---------------------------------------------------

  /** The Java thread can still reach the start of `p`'s action before its next loop test. */
  predicate Ahead(s: State, p: nat) {
    ((s.java.AtProbe? || s.java.SeenGo?) && s.java.p <= p) || ((s.java.Entered? || s.java.Acting?) && s.java.p < p)
  }

  lemma {:induction false} StoppedLoop(cfg: Config, s: State, es: seq<Event>, p: nat)
    requires |s.flags| == cfg.probes && Run(cfg, s, es) && s.stopJvm
    ensures Rounds(es) == 0 && Starts(p, es) <= Bit(Ahead(s, p))
    ensures (exists e :: e in es && e.LoopTest?) ==> After(cfg, s, es).java.Exited?
    decreases |es|
  {
    if es != [] {
      var s' := Apply(cfg, s, es[0]);
      StoppedLoop(cfg, s', es[1..], p);
      if es[0].LoopTest? {
        ExitedStays(cfg, s', es[1..], p);
      } else if e :| e in es && e.LoopTest? {
        assert e in es[1..];
      }
    }
  }

  /** A stop is final: after it the Java loop begins no further round, its next loop test ends it,
      and until then each action starts at most once more. */
  lemma StopEndsTheLoop(cfg: Config, s: State, es: seq<Event>, p: nat)
    requires |s.flags| == cfg.probes && Run(cfg, s, [StopJvm] + es)
    ensures Rounds(es) == 0 && Starts(p, es) <= 1
    ensures (exists e :: e in es && e.LoopTest?) ==> After(cfg, s, [StopJvm] + es).java.Exited?
  {
    assert ([StopJvm] + es)[0] == StopJvm;
    FirstStep(cfg, s, StopJvm, es);
    StoppedLoop(cfg, Apply(cfg, s, StopJvm), es, p);
  }

  // ---- One full round inside the poll window is enough ----------------------

  /** The Java thread is beyond probe `p` in its round. */
  predicate Beyond(s: State, p: nat) {
    match s.java
    case LoopHead => true
    case AtProbe(q) => q > p
    case SeenGo(q) => q > p
    case Entered(q) => q > p
    case Acting(q, _, _) => q > p
    case Exited => false
  }

  /** No lowering, and no exception that would take `p` or the whole loop down. */
  predicate Quiet(cfg: Config, p: nat, es: seq<Event>) {
    forall e <- es :: !e.LowerGo? && !e.ClearGo? && !(e.Throw? && (e.p == p || e.p < cfg.inlineProbes))
  }

  /** Once a round has begun with `go` up, the thread cannot get beyond `p` without `done`. */
  lemma {:induction false} RoundLatches(cfg: Config, s: State, es: seq<Event>, p: nat)
    requires |s.flags| == cfg.probes && p < cfg.probes && Run(cfg, s, es)
    requires s.flags[p].go && NoReset(p, es) && Quiet(cfg, p, es)
    requires Beyond(s, p) ==> s.flags[p].done
    ensures Rounds(es) > 0 ==> After(cfg, s, es).flags[p].done
    decreases |es|
  {
    if es != [] {
      var s' := Apply(cfg, s, es[0]);
      RoundLatches(cfg, s', es[1..], p);
      if s.flags[p].done {
        DoneStays(cfg, s, es, p);
      }
    }
  }

  lemma {:induction false} DoneStays(cfg: Config, s: State, es: seq<Event>, p: nat)
    requires |s.flags| == cfg.probes && p < cfg.probes && Run(cfg, s, es)
    requires s.flags[p].done && NoReset(p, es)
    ensures After(cfg, s, es).flags[p].done
    decreases |es|
  {
    if es != [] {
      DoneStays(cfg, Apply(cfg, s, es[0]), es[1..], p);
    }
  }

  /** Two loop tests, hence one whole round, while `go` is up. */
  lemma {:induction false} TwoRoundsLatch(cfg: Config, s: State, es: seq<Event>, p: nat)
    requires |s.flags| == cfg.probes && p < cfg.probes && Run(cfg, s, es)
    requires s.flags[p].go && NoReset(p, es) && Quiet(cfg, p, es)
    ensures Rounds(es) >= 2 ==> After(cfg, s, es).flags[p].done
    decreases |es|
  {
    if es != [] {
      var s' := Apply(cfg, s, es[0]);
      if es[0] == LoopTest(true) {
        RoundLatches(cfg, s', es[1..], p);
      } else {
        TwoRoundsLatch(cfg, s', es[1..], p);
      }
    }
  }

  /** A cycle cannot time out when the Java loop makes one whole round between raising and
      lowering `go` and nothing throws meanwhile: run_java_probe then returns true. */
  lemma OneRoundSuffices(cfg: Config, s: State, window: seq<Event>, tail: seq<Event>, p: nat, ok: bool)
    requires Inv(cfg, s, p) && NoReset(p, window) && NoReset(p, tail)
    requires forall e <- window :: !e.LowerGo? && !e.ClearGo? && (e.Throw? ==> e.p != p && e.p >= cfg.inlineProbes)
    requires Rounds(window) >= 2
    requires Run(cfg, s, [RaiseGo(p)] + window + [LowerGo(p)] + tail + [Return(p, ok)])
    ensures ok
  {
    var a, b := [RaiseGo(p)], [LowerGo(p)] + tail + [Return(p, ok)];
    assert [RaiseGo(p)] + window + [LowerGo(p)] + tail + [Return(p, ok)] == a + (window + b);
    RunSplit(cfg, s, a, window + b);
    var s1 := After(cfg, s, a);
    assert s1 == Apply(cfg, s, RaiseGo(p)) by { assert a[1..] == []; }
    RunSplit(cfg, s1, window, b);
    TwoRoundsLatch(cfg, s1, window, p);
    var s2 := After(cfg, s1, window);
    RunSplit(cfg, s2, [LowerGo(p)] + tail, [Return(p, ok)]);
    DoneStays(cfg, s2, [LowerGo(p)] + tail, p);
    assert Enabled(cfg, After(cfg, s2, [LowerGo(p)] + tail), [Return(p, ok)][0]);
  }
}
