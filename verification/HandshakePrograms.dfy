/** What the step system stands for: its runs are exactly the sequentially consistent interleavings of
    the two programs, written down here without any state. */
module HandshakePrograms {
  import opened Handshake
  import opened HandshakeSafety

  // ---- The shared memory -----------------------------------------------------

  /** The value that `go` of `p` has after `es`: that of the last write, or the first value. */
  function GoAfter(p: nat, es: seq<Event>, first: bool): bool {
    if es == [] then first
    else match es[|es| - 1]
      case RaiseGo(q) => if q == p then true else GoAfter(p, es[..|es| - 1], first)
      case LowerGo(q) => if q == p then false else GoAfter(p, es[..|es| - 1], first)
      case ClearGo(q) => if q == p then false else GoAfter(p, es[..|es| - 1], first)
      case _ => GoAfter(p, es[..|es| - 1], first)
  }

  function DoneAfter(p: nat, es: seq<Event>, first: bool): bool {
    if es == [] then first
    else match es[|es| - 1]
      case Complete(q, _) => if q == p then true else DoneAfter(p, es[..|es| - 1], first)
      case ResetDone(q) => if q == p then false else DoneAfter(p, es[..|es| - 1], first)
      case _ => DoneAfter(p, es[..|es| - 1], first)
  }

  function ModeAfter(p: nat, es: seq<Event>, first: int): int {
    if es == [] then first
    else match es[|es| - 1]
      case SetMode(q, m) => if q == p then m else ModeAfter(p, es[..|es| - 1], first)
      case _ => ModeAfter(p, es[..|es| - 1], first)
  }

  predicate StoppedAfter(es: seq<Event>, first: bool) {
    first || StopJvm in es
  }

  lemma FlagsAreLastWrites(cfg: Config, s: State, es: seq<Event>, p: nat)
    requires |s.flags| == cfg.probes && p < cfg.probes && Run(cfg, s, es)
    ensures After(cfg, s, es).flags[p]
         == Flags(GoAfter(p, es, s.flags[p].go), DoneAfter(p, es, s.flags[p].done), ModeAfter(p, es, s.flags[p].mode))
    ensures After(cfg, s, es).stopJvm == StoppedAfter(es, s.stopJvm)
    decreases |es|
  {
    if es != [] {
      var n := |es| - 1;
      var a, e := es[..n], es[n];
      assert es == a + ([e] + []) && es == a + [e];
      RunSplit(cfg, s, a, [e] + []);
      FirstStep(cfg, After(cfg, s, a), e, []) by { assert ([e] + [])[0] == e; }
      FlagsAreLastWrites(cfg, s, a, p);
    }
  }

  /** The value that `e` reads, if it reads one, is the one last written in `before`. */
  predicate ReadsLast(s: State, before: seq<Event>, e: Event) {
    match e
    case LoopTest(running) => running == !StoppedAfter(before, s.stopJvm)
    case ReadGo(p, v) => p < |s.flags| && v == GoAfter(p, before, s.flags[p].go)
    case ReadDone(p, v) => p < |s.flags| && v == DoneAfter(p, before, s.flags[p].done)
    case ReadMode(p, m) => p < |s.flags| && m == ModeAfter(p, before, s.flags[p].mode)
    case Poll(p, hit) => p < |s.flags| && hit == DoneAfter(p, before, s.flags[p].done)
    case Return(p, ok) => p < |s.flags| && ok == DoneAfter(p, before, s.flags[p].done)
    case _ => true
  }

  /** Sequential consistency: every read of the interleaving sees the last write before it. */
  predicate Consistent(s: State, es: seq<Event>) {
    forall k :: 0 <= k < |es| ==> ReadsLast(s, es[..k], es[k])
  }

  // ---- The two programs ------------------------------------------------------

  function JavaOf(es: seq<Event>): seq<Event> {
    if es == [] then [] else (if IsJava(es[0]) then [es[0]] else []) + JavaOf(es[1..])
  }

  function WorkerOf(es: seq<Event>): seq<Event> {
    if es == [] then [] else (if IsJava(es[0]) then [] else [es[0]]) + WorkerOf(es[1..])
  }

  /** The main loop, from its test on; the program may have been cut off anywhere. */
  predicate Loop(cfg: Config, es: seq<Event>)
    decreases |es|, 0
  {
    es == []
    || (es[0] == LoopTest(false) && es[1..] == [])
    || (es[0] == LoopTest(true) && Visits(cfg, 0, es[1..]))
  }

  /** The probes from `p` on, then the loop again. */
  predicate Visits(cfg: Config, p: nat, es: seq<Event>)
    decreases |es|, if p < cfg.probes then cfg.probes - p + 1 else 1
  {
    if p >= cfg.probes then Loop(cfg, es)
    else
      es == []
      || (es[0] == ReadGo(p, false) && Visits(cfg, p + 1, es[1..]))
      || (es[0] == ReadGo(p, true) && Pending(cfg, p, es[1..]))
  }

  /** The second half of pending(): `done` is read only if `go` was up. */
  predicate Pending(cfg: Config, p: nat, es: seq<Event>)
    decreases |es|, 0
  {
    es == []
    || (es[0] == ReadDone(p, true) && Visits(cfg, p + 1, es[1..]))
    || (es[0] == ReadDone(p, false) && Action(cfg, p, es[1..]))
  }

  predicate Action(cfg: Config, p: nat, es: seq<Event>)
    decreases |es|, 0
  {
    es == []
    || (es[0].ReadMode? && es[0].p == p && Body(cfg, p, es[0].mode, 0, es[1..]))
    || (es[0].Throw? && es[0].p == p && es[0].made == 0 && Thrown(cfg, p, es[1..]))
  }

  /** The calls of the action from number `made` on, then `done`. */
  predicate Body(cfg: Config, p: nat, m: int, made: nat, es: seq<Event>)
    decreases |es|, 0
  {
    es == []
    || (made < cfg.calls(p, m) && es[0] == Dispatch(p, m, made) && Body(cfg, p, m, made + 1, es[1..]))
    || (made == cfg.calls(p, m) && es[0] == Complete(p, m) && Visits(cfg, p + 1, es[1..]))
    || (es[0] == Throw(p, m, made) && Thrown(cfg, p, es[1..]))
  }

  /** An exception ends the main loop unless Harness.tickAll catches it. */
  predicate Thrown(cfg: Config, p: nat, es: seq<Event>)
    decreases |es|, if p < cfg.probes then cfg.probes - p + 2 else 2
  {
    if p < cfg.inlineProbes then es == [] else Visits(cfg, p + 1, es)
  }

  /** The worker outside run_java_probe. */
  predicate Worker(cfg: Config, es: seq<Event>)
    decreases |es|, 0
  {
    es == []
    || ((es[0].SetMode? || es[0].ResetDone? || es[0].ClearGo?) && es[0].p < cfg.probes && Worker(cfg, es[1..]))
    || (es[0] == StopJvm && Worker(cfg, es[1..]))
    || (es[0].RaiseGo? && es[0].p < cfg.probes && PollLoop(cfg, es[0].p, cfg.maxPolls, es[1..]))
  }

  /** The poll loop of run_java_probe with `left` iterations to go: it is left by a hit or when
      they are used up. */
  predicate PollLoop(cfg: Config, p: nat, left: nat, es: seq<Event>)
    decreases |es|, 1
  {
    es == []
    || (left > 0 && es[0] == Poll(p, false) && PollLoop(cfg, p, left - 1, es[1..]))
    || (left > 0 && es[0] == Poll(p, true) && LowerThenRead(cfg, p, es[1..]))
    || (left == 0 && LowerThenRead(cfg, p, es))
  }

  predicate LowerThenRead(cfg: Config, p: nat, es: seq<Event>)
    decreases |es|, 0
  {
    es == [] || (es[0] == LowerGo(p) && Reread(cfg, p, es[1..]))
  }

  predicate Reread(cfg: Config, p: nat, es: seq<Event>)
    decreases |es|, 0
  {
    es == [] || (es[0].Return? && es[0].p == p && Worker(cfg, es[1..]))
  }

  // ---- The step system is the interleavings ------------------------------------

  predicate JavaFrom(cfg: Config, pc: JavaPc, es: seq<Event>) {
    match pc
    case LoopHead => Loop(cfg, es)
    case AtProbe(p) => Visits(cfg, p, es)
    case SeenGo(p) => Pending(cfg, p, es)
    case Entered(p) => Action(cfg, p, es)
    case Acting(p, m, made) => Body(cfg, p, m, made, es)
    case Exited => es == []
  }

  predicate WorkerFrom(cfg: Config, pc: NativePc, es: seq<Event>) {
    match pc
    case Setup => Worker(cfg, es)
    case Polling(p, left) => PollLoop(cfg, p, left, es)
    case Lowering(p) => LowerThenRead(cfg, p, es)
    case Rereading(p) => Reread(cfg, p, es)
  }

  predicate InProgram(cfg: Config, s: State) {
    && |s.flags| == cfg.probes
    && (s.java.AtProbe? || s.java.SeenGo? || s.java.Entered? || s.java.Acting? ==> s.java.p < cfg.probes)
    && (s.native.Polling? || s.native.Lowering? || s.native.Rereading? ==> s.native.q < cfg.probes)
  }

  lemma VisitsNext(cfg: Config, p: nat, es: seq<Event>)
    ensures Visits(cfg, p, es) <==> JavaFrom(cfg, NextProbe(cfg, p), es)
  {
  }

  lemma ThrownNext(cfg: Config, p: nat, es: seq<Event>)
    ensures Thrown(cfg, p, es) <==> JavaFrom(cfg, if p < cfg.inlineProbes then Exited else NextProbe(cfg, p + 1), es)
  {
    VisitsNext(cfg, p + 1, es);
  }

  /** One step of the main loop outside an action, and one inside. */
  lemma LoopStep(cfg: Config, s: State, e: Event, rest: seq<Event>)
    requires InProgram(cfg, s) && IsJava(e) && ReadsLast(s, [], e) && !s.java.Entered? && !s.java.Acting?
    ensures JavaFrom(cfg, s.java, [e] + rest) <==> Enabled(cfg, s, e) && JavaFrom(cfg, Apply(cfg, s, e).java, rest)
  {
    var es := [e] + rest;
    assert es[0] == e && es[1..] == rest;
    match s.java
    case LoopHead => VisitsNext(cfg, 0, rest);
    case AtProbe(p) => VisitsNext(cfg, p + 1, rest);
    case SeenGo(p) => VisitsNext(cfg, p + 1, rest);
    case Exited =>
  }

  lemma ActionStep(cfg: Config, s: State, e: Event, rest: seq<Event>)
    requires InProgram(cfg, s) && IsJava(e) && ReadsLast(s, [], e) && (s.java.Entered? || s.java.Acting?)
    ensures JavaFrom(cfg, s.java, [e] + rest) <==> Enabled(cfg, s, e) && JavaFrom(cfg, Apply(cfg, s, e).java, rest)
  {
    var es := [e] + rest;
    assert es[0] == e && es[1..] == rest;
    ThrownNext(cfg, s.java.p, rest);
    VisitsNext(cfg, s.java.p + 1, rest);
  }

  lemma JavaStep(cfg: Config, s: State, e: Event, rest: seq<Event>)
    requires InProgram(cfg, s) && IsJava(e) && ReadsLast(s, [], e)
    ensures JavaFrom(cfg, s.java, [e] + rest) <==> Enabled(cfg, s, e) && JavaFrom(cfg, Apply(cfg, s, e).java, rest)
    ensures Enabled(cfg, s, e) ==> Apply(cfg, s, e).native == s.native
  {
    if s.java.Entered? || s.java.Acting? {
      ActionStep(cfg, s, e, rest);
    } else {
      LoopStep(cfg, s, e, rest);
    }
  }

  lemma WorkerStep(cfg: Config, s: State, e: Event, rest: seq<Event>)
    requires InProgram(cfg, s) && !IsJava(e) && ReadsLast(s, [], e)
    ensures WorkerFrom(cfg, s.native, [e] + rest) <==> Enabled(cfg, s, e) && WorkerFrom(cfg, Apply(cfg, s, e).native, rest)
    ensures Enabled(cfg, s, e) ==> Apply(cfg, s, e).java == s.java
  {
    var es := [e] + rest;
    assert es != [] && es[0] == e && es[1..] == rest;
    match s.native
    case Setup =>
    case Polling(p, left) => assert LowerThenRead(cfg, p, es) <==> e == LowerGo(p) && Reread(cfg, p, rest);
    case Lowering(p) =>
    case Rereading(p) =>
  }

  lemma StepReadsLast(cfg: Config, s: State, e: Event)
    requires |s.flags| == cfg.probes && Enabled(cfg, s, e)
    ensures ReadsLast(s, [], e) && (InProgram(cfg, s) ==> InProgram(cfg, Apply(cfg, s, e)))
  {
  }

  /** A write before the rest of the interleaving is as good as a first value. */
  lemma {:induction false} WrittenFirst(p: nat, e: Event, es: seq<Event>, go: bool, done: bool, mode: int)
    ensures GoAfter(p, [e] + es, go) == GoAfter(p, es, GoAfter(p, [e], go))
    ensures DoneAfter(p, [e] + es, done) == DoneAfter(p, es, DoneAfter(p, [e], done))
    ensures ModeAfter(p, [e] + es, mode) == ModeAfter(p, es, ModeAfter(p, [e], mode))
    decreases |es|
  {
    if es == [] {
      assert [e] + es == [e];
    } else {
      var n := |es| - 1;
      assert ([e] + es)[..n + 1] == [e] + es[..n];
      WrittenFirst(p, e, es[..n], go, done, mode);
    }
  }

  lemma OneWrite(cfg: Config, s: State, e: Event, p: nat)
    requires |s.flags| == cfg.probes && p < cfg.probes && Enabled(cfg, s, e)
    ensures Apply(cfg, s, e).flags[p]
         == Flags(GoAfter(p, [e], s.flags[p].go), DoneAfter(p, [e], s.flags[p].done), ModeAfter(p, [e], s.flags[p].mode))
    ensures Apply(cfg, s, e).stopJvm == StoppedAfter([e], s.stopJvm)
  {
    assert [e][..0] == [];
  }

  lemma ReadsAfterStep(cfg: Config, s: State, e: Event, before: seq<Event>, next: Event)
    requires |s.flags| == cfg.probes && Enabled(cfg, s, e)
    ensures ReadsLast(s, [e] + before, next) <==> ReadsLast(Apply(cfg, s, e), before, next)
  {
    if next.ReadGo? || next.ReadDone? || next.ReadMode? || next.Poll? || next.Return? {
      var p := next.p;
      if p < cfg.probes {
        OneWrite(cfg, s, e, p);
        WrittenFirst(p, e, before, s.flags[p].go, s.flags[p].done, s.flags[p].mode);
      }
    }
  }

  lemma ConsistentStep(cfg: Config, s: State, e: Event, rest: seq<Event>)
    requires |s.flags| == cfg.probes && Enabled(cfg, s, e)
    ensures Consistent(s, [e] + rest) <==> Consistent(Apply(cfg, s, e), rest)
  {
    var es, s' := [e] + rest, Apply(cfg, s, e);
    StepReadsLast(cfg, s, e);
    forall k | 0 <= k < |rest| ensures ReadsLast(s, es[..k + 1], es[k + 1]) <==> ReadsLast(s', rest[..k], rest[k]) {
      assert es[..k + 1] == [e] + rest[..k];
      ReadsAfterStep(cfg, s, e, rest[..k], rest[k]);
    }
    assert es[..0] == [] && es[0] == e;
    if Consistent(s, es) {
      forall k | 0 <= k < |rest| ensures ReadsLast(s', rest[..k], rest[k]) {
        assert ReadsLast(s, es[..k + 1], es[k + 1]);
      }
    }
    if Consistent(s', rest) {
      forall k | 0 <= k < |es| ensures ReadsLast(s, es[..k], es[k]) {
        if k > 0 {
          assert ReadsLast(s', rest[..k - 1], rest[k - 1]);
        }
      }
    }
  }

  /** The same from any state. */
  lemma {:induction false} InterleavingsFrom(cfg: Config, s: State, es: seq<Event>)
    requires InProgram(cfg, s)
    ensures Run(cfg, s, es) <==>
      JavaFrom(cfg, s.java, JavaOf(es)) && WorkerFrom(cfg, s.native, WorkerOf(es)) && Consistent(s, es)
    decreases |es|
  {
    if es != [] {
      var e, rest := es[0], es[1..];
      assert es == [e] + rest;
      Parts(e, rest);
      if ReadsLast(s, [], e) {
        if IsJava(e) {
          JavaStep(cfg, s, e, JavaOf(rest));
        } else {
          WorkerStep(cfg, s, e, WorkerOf(rest));
        }
      } else {
        assert es[..0] == [];
      }
      if Enabled(cfg, s, e) {
        StepReadsLast(cfg, s, e);
        ConsistentStep(cfg, s, e, rest);
        InterleavingsFrom(cfg, Apply(cfg, s, e), rest);
      }
    }
  }

  lemma Parts(e: Event, rest: seq<Event>)
    ensures JavaOf([e] + rest) == if IsJava(e) then [e] + JavaOf(rest) else JavaOf(rest)
    ensures WorkerOf([e] + rest) == if IsJava(e) then WorkerOf(rest) else [e] + WorkerOf(rest)
  {
    assert ([e] + rest)[1..] == rest;
    assert [] + JavaOf(rest) == JavaOf(rest) && [] + WorkerOf(rest) == WorkerOf(rest);
  }

  /** From the start of the program: a sequence of events is a run exactly when the Java thread's
      part is a prefix of the main loop, the worker's part is one of the worker's program, and every
      read sees the last write. */
  lemma RunsAreInterleavings(cfg: Config, s0: State, es: seq<Event>)
    requires Init(cfg, s0)
    ensures Run(cfg, s0, es) <==> Loop(cfg, JavaOf(es)) && Worker(cfg, WorkerOf(es)) && Consistent(s0, es)
  {
    InterleavingsFrom(cfg, s0, es);
  }
}
