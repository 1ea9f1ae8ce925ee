/** The HookBasic fixture: a mode selects how often, on which receiver and with which arguments
    the hooked methods are dispatched. */
module HookBasic {
  import opened JavaInt
  import opened Handshake
  import opened HandshakeSafety
  import opened Campaign

  const INSTANCE_CALLS: nat := 3
  const STATIC_CALLS: nat := 4

  /** One dispatch of a hookable method as a detour sees it; instance methods carry the seed of
      their receiver. */
  datatype Dispatch =
    | Touch(seed: int, delta: int)
    | StaticTouch(delta: int)
    | Combine(seed: int, a: int, b: int, c: int)
    | StaticCombine(a: int, b: int, c: int)
    | WideArgs(seed: int, flag: bool, d: real, s: string, i: int)

  const COMBINE_B: int := 0x1122334455667788

  /** The dispatches that the documentation promises for each mode. */
  function Promised(mode: int): seq<Dispatch> {
    match mode
    case 1 => [Touch(1000, 7), Touch(1000, 11), Touch(1000, 42)]
    case 2 => [StaticTouch(99), StaticTouch(99), StaticTouch(99), StaticTouch(99)]
    case 3 => [Combine(1000, 5, COMBINE_B, -13)]
    case 4 => [StaticCombine(5, COMBINE_B, -13)]
    case 5 => [Touch(2000, 3), Touch(30000, 4)]
    case 6 => [WideArgs(0, true, 2.5, "vmhook", 77)]
    case 7 => [Touch(500, 1)]
    case _ => []
  }

  class Fixture {
    var done: bool
    var mode: int
    var lastTouchResult: int
    var touchResultSum: int
    var instanceCallsMade: int
    var staticCallsMade: int
    var combineResult: int
    var staticCombineResult: int
    var wideResult: real
    var instanceASeed: int
    var instanceBSeed: int
    var twoInstanceResultA: int
    var twoInstanceResultB: int
    ghost var dispatched: seq<Dispatch>

    method DoTouch(seed: int, delta: int) returns (r: int)
      modifies this`dispatched
      ensures r == Wrap32(seed + delta) && dispatched == old(dispatched) + [Touch(seed, delta)]
    {
      dispatched := dispatched + [Touch(seed, delta)];
      r := Wrap32(seed + delta);
    }

    method DoStaticTouch(delta: int) returns (r: int)
      modifies this`dispatched
      ensures r == Wrap32(delta * 2) && dispatched == old(dispatched) + [StaticTouch(delta)]
    {
      dispatched := dispatched + [StaticTouch(delta)];
      r := Wrap32(delta * 2);
    }

    method RunInstanceTouch()
      modifies this`dispatched, this`lastTouchResult, this`touchResultSum, this`instanceCallsMade
      ensures dispatched == old(dispatched) + [Touch(1000, 7), Touch(1000, 11), Touch(1000, 42)] == old(dispatched) + Promised(1)
      ensures instanceCallsMade == 3 && lastTouchResult == 1042 && touchResultSum == 3060
    {
      var made, sum := 0, 0;
      var r0 := DoTouch(1000, 7);
      sum, made := Wrap64(sum + r0), made + 1;
      var r1 := DoTouch(1000, 11);
      sum, made := Wrap64(sum + r1), made + 1;
      var r2 := DoTouch(1000, 42);
      sum, made := Wrap64(sum + r2), made + 1;
      lastTouchResult, touchResultSum, instanceCallsMade := r2, sum, made;
    }

    method RunStaticTouch()
      modifies this`dispatched, this`lastTouchResult, this`staticCallsMade
      ensures dispatched == old(dispatched) + Promised(2) && Promised(2) == [StaticTouch(99), StaticTouch(99), StaticTouch(99), StaticTouch(99)]
      ensures staticCallsMade == 4 && lastTouchResult == 198
    {
      var made, last := 0, 0;
      for n := 0 to STATIC_CALLS
        invariant dispatched == old(dispatched) + Promised(2)[..n]
        invariant made == n && (n > 0 ==> last == 198)
      {
        assert Promised(2)[..n + 1] == Promised(2)[..n] + [StaticTouch(99)];
        last := DoStaticTouch(99);
        made := made + 1;
      }
      lastTouchResult, staticCallsMade := last, made;
    }

    method RunTwoInstances()
      modifies this`dispatched, this`instanceASeed, this`instanceBSeed, this`twoInstanceResultA, this`twoInstanceResultB
      ensures dispatched == old(dispatched) + [Touch(instanceASeed, 3), Touch(instanceBSeed, 4)] == old(dispatched) + Promised(5)
      ensures twoInstanceResultA == 2003 && twoInstanceResultB == 30004
      ensures instanceASeed == 2000 && instanceBSeed == 30000
    {
      instanceASeed, instanceBSeed := 2000, 30000;
      twoInstanceResultA := DoTouch(2000, 3);
      twoInstanceResultB := DoTouch(30000, 4);
    }

    /** The probe's run(): whatever the mode, exactly the promised dispatches, then `done`. */
    method Run()
      modifies this
      ensures done && mode == old(mode)
      ensures dispatched == old(dispatched) + Promised(mode)
      ensures mode == 1 ==> dispatched == old(dispatched) + [Touch(1000, 7), Touch(1000, 11), Touch(1000, 42)]
      ensures mode == 2 ==> dispatched == old(dispatched) + [StaticTouch(99), StaticTouch(99), StaticTouch(99), StaticTouch(99)]
      ensures mode == 3 ==> dispatched == old(dispatched) + [Combine(1000, 5, 0x1122334455667788, -13)]
      ensures mode == 4 ==> dispatched == old(dispatched) + [StaticCombine(5, 0x1122334455667788, -13)]
      ensures mode == 5 ==> dispatched == old(dispatched) + [Touch(2000, 3), Touch(30000, 4)]
      ensures mode == 6 ==> dispatched == old(dispatched) + [WideArgs(0, true, 2.5, "vmhook", 77)]
      ensures mode == 7 ==> dispatched == old(dispatched) + [Touch(500, 1)]
      ensures mode !in {1, 2, 3, 4, 5, 6, 7} ==> dispatched == old(dispatched)
      ensures mode == 1 ==> lastTouchResult == 1042 && touchResultSum == 3060 && instanceCallsMade == 3
      ensures mode == 2 ==> lastTouchResult == 198 && staticCallsMade == 4
      ensures mode == 5 ==> twoInstanceResultA == 2003 && twoInstanceResultB == 30004
      ensures mode == 5 ==> instanceASeed == 2000 && instanceBSeed == 30000
      ensures mode == 3 ==> combineResult == 0x1122334455667788 + 992
      ensures mode == 4 ==> staticCombineResult == 0x1122334455667788 - 8
      ensures mode == 6 ==> wideResult == 86.5
      ensures mode == 7 ==> lastTouchResult == 501 && instanceCallsMade == 1
      ensures mode !in {1, 2, 7} ==> lastTouchResult == old(lastTouchResult)
      ensures mode !in {1, 7} ==> instanceCallsMade == old(instanceCallsMade)
      ensures mode != 1 ==> touchResultSum == old(touchResultSum)
      ensures mode != 2 ==> staticCallsMade == old(staticCallsMade)
      ensures mode != 3 ==> combineResult == old(combineResult)
      ensures mode != 4 ==> staticCombineResult == old(staticCombineResult)
      ensures mode != 5 ==> twoInstanceResultA == old(twoInstanceResultA) && twoInstanceResultB == old(twoInstanceResultB)
      ensures mode != 5 ==> instanceASeed == old(instanceASeed) && instanceBSeed == old(instanceBSeed)
      ensures mode != 6 ==> wideResult == old(wideResult)
    {
      match mode {
        case 1 => RunInstanceTouch();
        case 2 => RunStaticTouch();
        case 3 =>
          dispatched := dispatched + [Combine(1000, 5, COMBINE_B, -13)];
          combineResult := Wrap64(Wrap64(Wrap32(1000 + 5) + COMBINE_B) - 13);
        case 4 =>
          dispatched := dispatched + [StaticCombine(5, COMBINE_B, -13)];
          staticCombineResult := Wrap64(Wrap64(5 + COMBINE_B) - 13);
        case 5 => RunTwoInstances();
        case 6 =>
          dispatched := dispatched + [WideArgs(0, true, 2.5, "vmhook", 77)];
          wideResult := 1.0 + 2.5 + 6.0 + 77.0;
        case 7 =>
          lastTouchResult := DoTouch(500, 1);
          instanceCallsMade := 1;
        case _ =>
      }
      done := true;
    }
  }

  // ---- Dispatch totals over whole runs ---------------------------------------

  /** All dispatches of a list of completed actions. */
  function AllDispatches(modes: seq<int>): seq<Dispatch> {
    if modes == [] then [] else Promised(modes[0]) + AllDispatches(modes[1..])
  }

  function Touches(ds: seq<Dispatch>): nat {
    if ds == [] then 0 else (if ds[0].Touch? then 1 else 0) + Touches(ds[1..])
  }

  /** How often a mode calls touch(). */
  function TouchCalls(mode: int): nat {
    match mode
    case 1 => INSTANCE_CALLS
    case 5 => 2
    case 7 => 1
    case _ => 0
  }

  function TotalTouchCalls(modes: seq<int>): nat {
    if modes == [] then 0 else TouchCalls(modes[0]) + TotalTouchCalls(modes[1..])
  }

  lemma {:induction false} TouchesSplit(a: seq<Dispatch>, b: seq<Dispatch>)
    ensures Touches(a + b) == Touches(a) + Touches(b)
  {
    if a == [] {
      assert a + b == b;
    } else {
      assert (a + b)[1..] == a[1..] + b;
      TouchesSplit(a[1..], b);
    }
  }

  lemma {:induction false} NoTouches(ds: seq<Dispatch>)
    requires forall d <- ds :: !d.Touch?
    ensures Touches(ds) == 0
  {
    if ds != [] {
      NoTouches(ds[1..]);
    }
  }

  lemma OneTouch(d: Dispatch)
    ensures Touches([d]) == if d.Touch? then 1 else 0
  {
    assert [d][1..] == [];
  }

  lemma TouchesPromised(mode: int)
    ensures Touches(Promised(mode)) == TouchCalls(mode)
  {
    var p := Promised(mode);
    if mode == 1 {
      assert p == [p[0]] + ([p[1]] + [p[2]]);
      TouchesSplit([p[0]], [p[1]] + [p[2]]);
      TouchesSplit([p[1]], [p[2]]);
      OneTouch(p[0]);
      OneTouch(p[1]);
      OneTouch(p[2]);
    } else if mode == 5 {
      assert p == [p[0]] + [p[1]];
      TouchesSplit([p[0]], [p[1]]);
      OneTouch(p[0]);
      OneTouch(p[1]);
    } else if mode != 7 {
      NoTouches(p);
    }
  }

  // ---- What the detours see in a run -------------------------------------------

  /** The action of probe `q` is the one of this fixture. */
  ghost predicate IsFixtureProbe(cfg: Config, q: nat) {
    q < cfg.probes && forall mode :: cfg.calls(q, mode) == |Promised(mode)|
  }

  /** The dispatches behind the calls of a run. */
  function Seen(calls: seq<(int, nat)>): seq<Dispatch> {
    if calls == [] then [] else DispatchAt(calls[0].0, calls[0].1) + Seen(calls[1..])
  }

  function DispatchAt(mode: int, i: nat): seq<Dispatch> {
    if i < |Promised(mode)| then [Promised(mode)[i]] else []
  }

  lemma {:induction false} SeenSplit(a: seq<(int, nat)>, b: seq<(int, nat)>)
    ensures Seen(a + b) == Seen(a) + Seen(b)
  {
    if a == [] {
      assert a + b == b;
    } else {
      assert (a + b)[1..] == a[1..] + b;
      SeenSplit(a[1..], b);
    }
  }

  lemma {:induction false} SeenOfCalls(mode: int, made: nat)
    requires made <= |Promised(mode)|
    ensures Seen(CallsOf(mode, made)) == Promised(mode)[..made]
  {
    if made > 0 {
      var i: nat := made - 1;
      SeenOfCalls(mode, i);
      SeenSplit(CallsOf(mode, i), [(mode, i)]);
      SeenOfOne(mode, i);
      assert CallsOf(mode, made) == CallsOf(mode, i) + [(mode, i)];
    }
  }

  lemma SeenOfOne(mode: int, i: nat)
    requires i < |Promised(mode)|
    ensures Seen([(mode, i)]) == [Promised(mode)[i]]
    ensures Promised(mode)[..i + 1] == Promised(mode)[..i] + [Promised(mode)[i]]
  {
    assert [(mode, i)][1..] == [];
    assert Seen([(mode, i)]) == [Promised(mode)[i]] + [];
  }

  /** An action makes no more than its promised calls, and all of them when it completes. */
  predicate InBounds(o: Outcome) {
    o.made <= |Promised(o.mode)| && (o.completed ==> o.made == |Promised(o.mode)|)
  }

  predicate AllInBounds(ended: seq<Outcome>) { forall i :: 0 <= i < |ended| ==> InBounds(ended[i]) }
  predicate AllComplete(ended: seq<Outcome>) { forall i :: 0 <= i < |ended| ==> ended[i].completed }

  lemma {:induction false} EndedInBounds(cfg: Config, s: State, es: seq<Event>, q: nat)
    requires IsFixtureProbe(cfg, q) && Inv(cfg, s, q) && Run(cfg, s, es)
    ensures AllInBounds(Ended(cfg, q, es))
    decreases |es|
  {
    if es != [] {
      InvStep(cfg, s, es[0], q);
      EndedInBounds(cfg, Apply(cfg, s, es[0]), es[1..], q);
    }
  }

  function CompletedModes(ended: seq<Outcome>): seq<int> {
    if ended == [] then [] else (if ended[0].completed then [ended[0].mode] else []) + CompletedModes(ended[1..])
  }

  lemma {:induction false} EndedModes(cfg: Config, q: nat, es: seq<Event>)
    ensures CompletedModes(Ended(cfg, q, es)) == Completed(q, es)
    ensures Throws(q, es) == 0 ==> AllComplete(Ended(cfg, q, es))
  {
    if es != [] {
      EndedModes(cfg, q, es[1..]);
      var one, rest := EndedBy(cfg, q, es[0]), Ended(cfg, q, es[1..]);
      if one != [] {
        assert (one + rest)[1..] == rest;
      } else {
        assert one + rest == rest;
      }
    }
  }

  /** The dispatches of the actions that ended: all of a completed one, the first few of one that
      threw. */
  function SeenOfEnded(ended: seq<Outcome>): seq<Dispatch>
    requires AllInBounds(ended)
  {
    if ended == [] then [] else Promised(ended[0].mode)[..ended[0].made] + SeenOfEnded(ended[1..])
  }

  lemma {:induction false} SeenAllCalls(ended: seq<Outcome>)
    requires AllInBounds(ended)
    ensures Seen(AllCalls(ended)) == SeenOfEnded(ended)
  {
    if ended != [] {
      SeenAllCalls(ended[1..]);
      SeenOfCalls(ended[0].mode, ended[0].made);
      SeenSplit(CallsOf(ended[0].mode, ended[0].made), AllCalls(ended[1..]));
    }
  }

  /** The calls of touch() made by actions that threw. */
  function ThrownTouches(ended: seq<Outcome>): nat
    requires AllInBounds(ended)
  {
    if ended == [] then 0
    else (if ended[0].completed then 0 else Touches(Promised(ended[0].mode)[..ended[0].made])) + ThrownTouches(ended[1..])
  }

  lemma {:induction false} EndedTouches(ended: seq<Outcome>)
    requires AllInBounds(ended)
    ensures Touches(SeenOfEnded(ended)) == TotalTouchCalls(CompletedModes(ended)) + ThrownTouches(ended)
  {
    if ended != [] {
      var o, rest := ended[0], CompletedModes(ended[1..]);
      EndedTouches(ended[1..]);
      TouchesSplit(Promised(o.mode)[..o.made], SeenOfEnded(ended[1..]));
      if o.completed {
        TouchesPromised(o.mode);
        assert Promised(o.mode)[..o.made] == Promised(o.mode);
        assert CompletedModes(ended) == [o.mode] + rest && ([o.mode] + rest)[1..] == rest;
      } else {
        assert [] + rest == rest;
        assert CompletedModes(ended) == rest;
      }
    }
  }

  lemma {:induction false} AllCompleted(ended: seq<Outcome>)
    requires AllInBounds(ended) && AllComplete(ended)
    ensures SeenOfEnded(ended) == AllDispatches(CompletedModes(ended)) && ThrownTouches(ended) == 0
  {
    if ended != [] {
      var o := ended[0];
      AllCompleted(ended[1..]);
      assert Promised(o.mode)[..o.made] == Promised(o.mode);
      assert CompletedModes(ended) == [o.mode] + CompletedModes(ended[1..]);
    }
  }

  /** The dispatches of an action of `q` under way. */
  function SeenInFlight(s: State, q: nat): seq<Dispatch> { Seen(InFlight(s, q)) }

  /** What the detours on the fixture's methods see over any run of cycles, interleaved in any way
      with the Java loop and with cycles of other probes, successful or not. The dispatches are
      those of the actions that ended, in order, and of the one under way. If the cycles of this
      probe succeeded and its jobs are safe, touch() is dispatched as often as the requested modes
      call it, plus exactly what the actions that threw had already called; and if none threw, the
      dispatches are those of the requests, in their order. */
  lemma TotalDispatches(cfg: Config, s0: State, jobs: seq<Job>, q: nat)
    requires Init(cfg, s0) && IsFixtureProbe(cfg, q) && Jobs(cfg, s0, jobs)
    ensures Run(cfg, s0, AllEvents(jobs)) && AllInBounds(Ended(cfg, q, AllEvents(jobs)))
    ensures var seen, ended := Seen(Dispatched(q, AllEvents(jobs))), Ended(cfg, q, AllEvents(jobs));
      && seen == SeenOfEnded(ended) + SeenInFlight(After(cfg, s0, AllEvents(jobs)), q)
      && (AllOk(q, jobs) && SafeJobs(cfg, s0, jobs, q) ==>
            Touches(seen) == TotalTouchCalls(Requested(q, jobs)) + ThrownTouches(ended))
      && (AllOk(q, jobs) && SafeJobs(cfg, s0, jobs, q) && Throws(q, AllEvents(jobs)) == 0 ==>
            seen == AllDispatches(Requested(q, jobs)) && Touches(seen) == TotalTouchCalls(Requested(q, jobs)))
  {
    var es := AllEvents(jobs);
    var ended := Ended(cfg, q, es);
    WholeRun(cfg, s0, jobs, q);
    EndedInBounds(cfg, s0, es, q);
    EndedModes(cfg, q, es);
    SeenAllCalls(ended);
    SeenSplit(AllCalls(ended), InFlight(After(cfg, s0, es), q));
    if AllOk(q, jobs) {
      assert SeenOfEnded(ended) + [] == SeenOfEnded(ended);
      EndedTouches(ended);
      if Throws(q, es) == 0 {
        AllCompleted(ended);
      }
    }
  }
}
