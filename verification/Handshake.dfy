/** The probe handshake between the native worker and the Java main loop, as a step system.

    Two threads share, for every probe, the flags `go`, `done` and `mode`. Each read or
    write of a shared flag is one step, and any interleaving of the two threads is a run.
    The probe list is the inline probes of Main's loop followed by the fixtures' probes of
    Harness.tickAll; they differ only in what a throwing action does.
*/
module Handshake {

  /** `inlineProbes` probes are run by Main.runProbe, the other ones by Harness.tickAll.
      `maxPolls` is the bound of the poll loop of run_java_probe. The action of probe `p` under a
      mode makes `calls(p, mode)` calls of hookable methods. */
  datatype Config = Config(probes: nat, inlineProbes: nat, maxPolls: nat, calls: (nat, int) -> nat)

  datatype Flags = Flags(go: bool, done: bool, mode: int)

  /** Where the Java thread is. */
  datatype JavaPc =
    | LoopHead                       // about to test stopJVM
    | AtProbe(p: nat)                // about to read go of probe p
    | SeenGo(p: nat)                 // read go == true, about to read done
    | Entered(p: nat)                // read done == false, action entered, mode not read yet
    | Acting(p: nat, mode: int, made: nat)  // action under way with the mode it read, `made` calls made
    | Exited                         // main loop left, or killed by an uncaught exception

  /** Where the native worker is. */
  datatype NativePc =
    | Setup                          // outside run_java_probe
    | Polling(q: nat, left: nat)     // go raised, at most `left` more polls
    | Lowering(q: nat)               // poll loop left by a hit
    | Rereading(q: nat)              // go lowered, about to re-read done

  datatype State = State(flags: seq<Flags>, java: JavaPc, native: NativePc, stopJvm: bool)

  datatype Event =
    // native worker, outside run_java_probe
    | SetMode(p: nat, mode: int)
    | ResetDone(p: nat)
    | ClearGo(p: nat)
    | StopJvm
    // native worker, run_java_probe
    | RaiseGo(p: nat)
    | Poll(p: nat, hit: bool)
    | LowerGo(p: nat)
    | Return(p: nat, ok: bool)
    // Java thread
    | LoopTest(running: bool)
    | ReadGo(p: nat, value: bool)
    | ReadDone(p: nat, value: bool)  // value == false starts the action
    | ReadMode(p: nat, mode: int)
    | Dispatch(p: nat, mode: int, index: nat)  // the action calls its next hookable method
    | Complete(p: nat, mode: int)    // the action has made all its calls and latches done
    | Throw(p: nat, mode: int, made: nat)      // the action ends by an exception after `made` calls

  predicate IsJava(e: Event) {
    e.LoopTest? || e.ReadGo? || e.ReadDone? || e.ReadMode? || e.Dispatch? || e.Complete? || e.Throw?
  }

  predicate IsStart(p: nat, e: Event) {
    e == ReadDone(p, false)
  }

  predicate Init(cfg: Config, s: State) {
    && |s.flags| == cfg.probes
    && s.java == LoopHead
    && s.native == Setup
    && !s.stopJvm
    && forall p :: 0 <= p < cfg.probes ==> !s.flags[p].go && !s.flags[p].done
  }

  predicate Enabled(cfg: Config, s: State, e: Event)
    requires |s.flags| == cfg.probes
  {
    match e
    case SetMode(p, _) => s.native.Setup? && p < cfg.probes
    case ResetDone(p) => s.native.Setup? && p < cfg.probes
    case ClearGo(p) => s.native.Setup? && p < cfg.probes
    case StopJvm => s.native.Setup?
    case RaiseGo(p) => s.native.Setup? && p < cfg.probes
    case Poll(p, hit) => s.native.Polling? && s.native.q == p && s.native.left > 0 && p < cfg.probes && hit == s.flags[p].done
    case LowerGo(p) => (s.native == Lowering(p) || s.native == Polling(p, 0)) && p < cfg.probes
    case Return(p, ok) => s.native == Rereading(p) && p < cfg.probes && ok == s.flags[p].done
    case LoopTest(running) => s.java.LoopHead? && running == !s.stopJvm
    case ReadGo(p, v) => s.java == AtProbe(p) && p < cfg.probes && v == s.flags[p].go
    case ReadDone(p, v) => s.java == SeenGo(p) && p < cfg.probes && v == s.flags[p].done
    case ReadMode(p, m) => s.java == Entered(p) && p < cfg.probes && m == s.flags[p].mode
    case Dispatch(p, m, i) => s.java == Acting(p, m, i) && p < cfg.probes && i < cfg.calls(p, m)
    case Complete(p, m) => s.java == Acting(p, m, cfg.calls(p, m)) && p < cfg.probes
    case Throw(p, m, made) => (s.java == Acting(p, m, made) || (s.java == Entered(p) && made == 0)) && p < cfg.probes
  }

  /** The position after probe `p - 1`; after the last probe the loop starts over. */
  function NextProbe(cfg: Config, p: nat): JavaPc {
    if p < cfg.probes then AtProbe(p) else LoopHead
  }

  function Apply(cfg: Config, s: State, e: Event): (s': State)
    requires |s.flags| == cfg.probes
    requires Enabled(cfg, s, e)
    ensures |s'.flags| == cfg.probes
  {
    match e
    case SetMode(p, m) => s.(flags := s.flags[p := s.flags[p].(mode := m)])
    case ResetDone(p) => s.(flags := s.flags[p := s.flags[p].(done := false)])
    case ClearGo(p) => s.(flags := s.flags[p := s.flags[p].(go := false)])
    case StopJvm => s.(stopJvm := true)
    case RaiseGo(p) => s.(flags := s.flags[p := s.flags[p].(go := true)], native := Polling(p, cfg.maxPolls))
    case Poll(p, hit) => s.(native := if hit then Lowering(p) else Polling(p, s.native.left - 1))
    case LowerGo(p) => s.(flags := s.flags[p := s.flags[p].(go := false)], native := Rereading(p))
    case Return(p, ok) => s.(native := Setup)
    case LoopTest(running) => s.(java := if running then NextProbe(cfg, 0) else Exited)
    case ReadGo(p, v) => s.(java := if v then SeenGo(p) else NextProbe(cfg, p + 1))
    case ReadDone(p, v) => s.(java := if v then NextProbe(cfg, p + 1) else Entered(p))
    case ReadMode(p, m) => s.(java := Acting(p, m, 0))
    case Dispatch(p, m, i) => s.(java := Acting(p, m, i + 1))
    case Complete(p, m) => s.(flags := s.flags[p := s.flags[p].(done := true)], java := NextProbe(cfg, p + 1))
    case Throw(p, _, _) => s.(java := if p < cfg.inlineProbes then Exited else NextProbe(cfg, p + 1))
  }

  /** The events `es` can happen one after the other from `s`. */
  predicate Run(cfg: Config, s: State, es: seq<Event>)
    requires |s.flags| == cfg.probes
    decreases |es|
  {
    es == [] || (Enabled(cfg, s, es[0]) && Run(cfg, Apply(cfg, s, es[0]), es[1..]))
  }

  function After(cfg: Config, s: State, es: seq<Event>): (s': State)
    requires |s.flags| == cfg.probes
    requires Run(cfg, s, es)
    ensures |s'.flags| == cfg.probes
    decreases |es|
  {
    if es == [] then s else After(cfg, Apply(cfg, s, es[0]), es[1..])
  }

  /** The modes under which probe `p` completed its action, in order. */
  function Completed(p: nat, es: seq<Event>): seq<int> {
    if es == [] then []
    else (if es[0].Complete? && es[0].p == p then [es[0].mode] else []) + Completed(p, es[1..])
  }

  function Starts(p: nat, es: seq<Event>): nat {
    if es == [] then 0 else (if IsStart(p, es[0]) then 1 else 0) + Starts(p, es[1..])
  }

  function Throws(p: nat, es: seq<Event>): nat {
    if es == [] then 0 else (if es[0].Throw? && es[0].p == p then 1 else 0) + Throws(p, es[1..])
  }

  /** The calls of hookable methods by the action of `p`, in order: the mode the action read, and
      the position of the call in the action. */
  function Dispatched(p: nat, es: seq<Event>): seq<(int, nat)> {
    if es == [] then []
    else (if es[0].Dispatch? && es[0].p == p then [(es[0].mode, es[0].index)] else []) + Dispatched(p, es[1..])
  }

  /** How often the Java loop began a new round. */
  function Rounds(es: seq<Event>): nat {
    if es == [] then 0 else (if es[0] == LoopTest(true) then 1 else 0) + Rounds(es[1..])
  }

  lemma {:induction false} RunSplit(cfg: Config, s: State, a: seq<Event>, b: seq<Event>)
    requires |s.flags| == cfg.probes
    ensures Run(cfg, s, a + b) <==> Run(cfg, s, a) && Run(cfg, After(cfg, s, a), b)
    ensures Run(cfg, s, a + b) ==> After(cfg, s, a + b) == After(cfg, After(cfg, s, a), b)
    decreases |a|
  {
    if a == [] {
      assert a + b == b;
    } else {
      assert (a + b)[1..] == a[1..] + b;
      if Enabled(cfg, s, a[0]) {
        RunSplit(cfg, Apply(cfg, s, a[0]), a[1..], b);
      }
    }
  }

  lemma {:induction false} CountsSplit(p: nat, a: seq<Event>, b: seq<Event>)
    ensures Starts(p, a + b) == Starts(p, a) + Starts(p, b)
    ensures Throws(p, a + b) == Throws(p, a) + Throws(p, b)
  {
    if a == [] {
      assert a + b == b;
    } else {
      assert (a + b)[1..] == a[1..] + b;
      CountsSplit(p, a[1..], b);
    }
  }

  lemma {:induction false} DispatchedSplit(p: nat, a: seq<Event>, b: seq<Event>)
    ensures Dispatched(p, a + b) == Dispatched(p, a) + Dispatched(p, b)
  {
    if a == [] {
      assert a + b == b;
    } else {
      assert (a + b)[1..] == a[1..] + b;
      DispatchedSplit(p, a[1..], b);
    }
  }

  lemma {:induction false} CompletedSplit(p: nat, a: seq<Event>, b: seq<Event>)
    ensures Completed(p, a + b) == Completed(p, a) + Completed(p, b)
  {
    if a == [] {
      assert a + b == b;
    } else {
      assert (a + b)[1..] == a[1..] + b;
      CompletedSplit(p, a[1..], b);
    }
  }
}
