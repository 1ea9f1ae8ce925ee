/** The call chains of ReturnStackTrace and ReturnCaller, and the walk that a detour on their
    common leaf makes over the stack. */
module StackTrace {
  import opened JavaInt

  const TAIL_OUTER: int := 0
  const TAIL_SHALLOW: int := 1
  const ARG_OUTER: int := 100
  const ARG_SHALLOW: int := 200
  const ARG_RECURSE_LEAF: int := 1
  const GUARD_DEPTH: int := 80
  const DEEP_RECURSION: int := 120
  const DEFAULT_DEPTH: nat := 64

  datatype Method = InnerM | MidM | OuterM | ShallowM | GuardM | RecurseM | OuterAM | MiddleM | OuterBM | AlphaM | BetaM | OtherM(id: nat)

  /** A method entry. */
  datatype Call =
    | Inner(x: int)
    | Mid(x: int)
    | Outer(x: int)
    | Shallow(x: int)
    | Guard(depth: int, tail: int)
    | Recurse(depth: int)
    | OuterA(x: int)
    | Middle(x: int)
    | OuterB(x: int)
    | Alpha(x: int)
    | Beta(x: int)

  /** A frame waiting for the call it made; it will return that result plus `adds`. */
  datatype Frame = Frame(name: Method, adds: int, compiled: bool)

  /** The one call a non-leaf method makes, and the frame it leaves on the stack meanwhile. */
  function Callee(c: Call): Call
    requires !c.Inner?
  {
    match c
    case Mid(x) => Inner(Wrap32(x + 1))
    case Outer(x) => Mid(Wrap32(x + 1))
    case Shallow(x) => Inner(Wrap32(x + 1))
    case Guard(d, t) => if d <= 0 then (if t == TAIL_SHALLOW then Shallow(ARG_SHALLOW) else Outer(ARG_OUTER)) else Guard(d - 1, t)
    case Recurse(d) => if d <= 0 then Inner(ARG_RECURSE_LEAF) else Recurse(d - 1)
    case OuterA(x) => Inner(Wrap32(x + 1))
    case Middle(x) => Inner(Wrap32(x + 1))
    case OuterB(x) => Middle(Wrap32(x + 1))
    case Alpha(x) => Inner(x)
    case Beta(x) => Inner(x)
  }

  function Pushed(c: Call): Frame
    requires !c.Inner?
  {
    match c
    case Mid(_) => Frame(MidM, 1, false)
    case Outer(_) => Frame(OuterM, 1, false)
    case Shallow(_) => Frame(ShallowM, 1, false)
    case Guard(d, _) => Frame(GuardM, if d <= 0 then 0 else 1, false)
    case Recurse(d) => Frame(RecurseM, if d <= 0 then 0 else 1, false)
    case OuterA(_) => Frame(OuterAM, 1, false)
    case Middle(_) => Frame(MiddleM, 1, false)
    case OuterB(_) => Frame(OuterBM, 1, false)
    case Alpha(_) => Frame(AlphaM, 1, false)
    case Beta(_) => Frame(BetaM, 2, false)
  }

  // ---- The explicit-stack machine --------------------------------------------

  datatype Control = Enter(call: Call) | Return(value: int)

  /** `stack` is innermost frame first. `fires` records the stack at every entry to the leaf:
      that is where the detour runs. */
  datatype Machine = Machine(control: Control, stack: seq<Frame>, observed: int, innerCalls: int, fires: seq<seq<Frame>>)

  function Step(m: Machine): Machine {
    match m.control
    case Enter(Inner(x)) =>
      m.(control := Return(Wrap32(x * 2)), observed := Wrap32(m.observed + x),
         innerCalls := Wrap32(m.innerCalls + 1), fires := m.fires + [m.stack])
    case Enter(c) => m.(control := Enter(Callee(c)), stack := [Pushed(c)] + m.stack)
    case Return(v) => if m.stack == [] then m else m.(control := Return(Wrap32(v + m.stack[0].adds)), stack := m.stack[1..])
  }

  function Run(n: nat, m: Machine): Machine {
    if n == 0 then m else Run(n - 1, Step(m))
  }

  lemma {:induction false} RunAdd(a: nat, b: nat, m: Machine)
    ensures Run(a + b, m) == Run(b, Run(a, m))
  {
    if a > 0 {
      RunAdd(a - 1, b, Step(m));
    }
  }

  // ---- Closed forms ----------------------------------------------------------

  function Down(d: int): nat { if d < 0 then 0 else d }

  function Repeat(f: Frame, n: nat): (s: seq<Frame>)
    ensures |s| == n && forall i :: 0 <= i < n ==> s[i] == f
  {
    seq(n, _ => f)
  }

  /** The argument the leaf receives. */
  function LeafArg(c: Call): int {
    match c
    case Inner(x) => x
    case Mid(x) => x + 1
    case Outer(x) => x + 2
    case Shallow(x) => x + 1
    case Guard(_, t) => if t == TAIL_SHALLOW then ARG_SHALLOW + 1 else ARG_OUTER + 2
    case Recurse(_) => ARG_RECURSE_LEAF
    case OuterA(x) => x + 1
    case Middle(x) => x + 1
    case OuterB(x) => x + 2
    case Alpha(x) => x
    case Beta(x) => x
  }

  /** What the frames between the leaf and the caller add up to. */
  function Added(c: Call): int {
    match c
    case Inner(_) => 0
    case Mid(_) => 1
    case Outer(_) => 2
    case Shallow(_) => 1
    case Guard(d, t) => Down(d) + if t == TAIL_SHALLOW then 1 else 2
    case Recurse(d) => Down(d)
    case OuterA(_) => 1
    case Middle(_) => 1
    case OuterB(_) => 2
    case Alpha(_) => 1
    case Beta(_) => 2
  }

  function Value(c: Call): int { Wrap32(2 * LeafArg(c) + Added(c)) }

  const MID := Frame(MidM, 1, false)
  const OUTER := Frame(OuterM, 1, false)
  const SHALLOW := Frame(ShallowM, 1, false)

  /** The frames between the leaf and the caller, immediate caller first. */
  function Chain(c: Call): seq<Frame> {
    match c
    case Inner(_) => []
    case Mid(_) => [MID]
    case Outer(_) => [MID, OUTER]
    case Shallow(_) => [SHALLOW]
    case Guard(d, t) =>
      (if t == TAIL_SHALLOW then [SHALLOW] else [MID, OUTER]) + [Frame(GuardM, 0, false)] + Repeat(Frame(GuardM, 1, false), Down(d))
    case Recurse(d) => [Frame(RecurseM, 0, false)] + Repeat(Frame(RecurseM, 1, false), Down(d))
    case OuterA(_) => [Frame(OuterAM, 1, false)]
    case Middle(_) => [Frame(MiddleM, 1, false)]
    case OuterB(_) => [Frame(MiddleM, 1, false), Frame(OuterBM, 1, false)]
    case Alpha(_) => [Frame(AlphaM, 1, false)]
    case Beta(_) => [Frame(BetaM, 2, false)]
  }

  lemma OneCall(c: Call)
    requires !c.Inner?
    ensures Chain(c) == Chain(Callee(c)) + [Pushed(c)]
    ensures Added(c) == Added(Callee(c)) + Pushed(c).adds
    ensures Wrap32(LeafArg(Callee(c))) == Wrap32(LeafArg(c))
  {
    if c.Guard? && c.depth > 0 {
      RepeatOnce(Frame(GuardM, 1, false), Down(c.depth - 1));
    } else if c.Recurse? && c.depth > 0 {
      RepeatOnce(Frame(RecurseM, 1, false), Down(c.depth - 1));
    } else if c.Outer? || c.OuterB? {
      Wrap32Step(1, c.x + 1, 1);
    }
  }

  lemma RepeatOnce(f: Frame, n: nat)
    ensures Repeat(f, n + 1) == Repeat(f, n) + [f]
  {
  }

  lemma WrapValue(leaf: int, leaf': int, added: int, adds: int)
    requires Wrap32(leaf') == Wrap32(leaf)
    ensures Wrap32(Wrap32(2 * leaf' + added) + adds) == Wrap32(2 * leaf + (added + adds))
  {
    Wrap32Step(1, 2 * leaf' + added, adds);
    Wrap32Step(2, leaf', added + adds);
    Wrap32Step(2, leaf, added + adds);
  }

  lemma EnterStep(c: Call, m: Machine)
    requires !c.Inner? && m.control == Enter(c)
    ensures Step(m) == m.(control := Enter(Callee(c)), stack := [Pushed(c)] + m.stack)
  {
  }

  /** If the machine comes back to the pushed frame after `n` steps, two more steps surround it:
      the call before and the return after. */
  lemma Surround(n: nat, m: Machine, m': Machine, f: Frame, v: int)
    requires Run(n, Step(m)) == m' && m'.control == Return(v) && m'.stack == [f] + m.stack
    ensures Run(n + 2, m) == m'.(control := Return(Wrap32(v + f.adds)), stack := m.stack)
  {
    RunAdd(n, 1, Step(m));
    assert Run(1, m') == Run(0, Step(m'));
    assert ([f] + m.stack)[1..] == m.stack;
  }

  /** The outcome of a call above `rest`. */
  function Outcome(c: Call, m: Machine): Machine {
    Machine(Return(Value(c)), m.stack, Wrap32(m.observed + LeafArg(c)), Wrap32(m.innerCalls + 1), m.fires + [Chain(c) + m.stack])
  }

  lemma OutcomeOfCall(c: Call, m: Machine)
    requires !c.Inner? && m.control == Enter(c)
    ensures Outcome(c, m)
         == Outcome(Callee(c), Step(m)).(control := Return(Wrap32(Value(Callee(c)) + Pushed(c).adds)), stack := m.stack)
  {
    EnterStep(c, m);
    ChainOnStack(c, m.stack);
    ValueOfCall(c);
    LeafArgOfCall(c, m.observed);
  }

  lemma ChainOnStack(c: Call, stack: seq<Frame>)
    requires !c.Inner?
    ensures Chain(Callee(c)) + ([Pushed(c)] + stack) == Chain(c) + stack
  {
    OneCall(c);
  }

  lemma ValueOfCall(c: Call)
    requires !c.Inner?
    ensures Value(c) == Wrap32(Value(Callee(c)) + Pushed(c).adds)
  {
    OneCall(c);
    ValueByParts(c, LeafArg(c), Added(c), Callee(c), LeafArg(Callee(c)), Added(Callee(c)), Pushed(c).adds);
  }

  lemma ValueByParts(c: Call, leaf: int, added: int, c': Call, leaf': int, added': int, adds: int)
    requires leaf == LeafArg(c) && added == Added(c) && leaf' == LeafArg(c') && added' == Added(c')
    requires Wrap32(leaf') == Wrap32(leaf) && added == added' + adds
    ensures Value(c) == Wrap32(Value(c') + adds)
  {
    WrapValue(leaf, leaf', added', adds);
  }

  lemma LeafArgOfCall(c: Call, observed: int)
    requires !c.Inner?
    ensures Wrap32(observed + LeafArg(Callee(c))) == Wrap32(observed + LeafArg(c))
  {
    OneCall(c);
    WrapSum(observed, LeafArg(c), LeafArg(Callee(c)));
  }

  lemma LeafOutcome(m: Machine)
    requires m.control.Enter? && m.control.call.Inner?
    ensures Run(1, m) == Outcome(m.control.call, m)
  {
    assert Run(1, m) == Run(0, Step(m));
    assert Chain(m.control.call) + m.stack == m.stack;
  }

  lemma OneLonger(c: Call)
    requires !c.Inner?
    ensures |Chain(c)| == |Chain(Callee(c))| + 1
  {
    OneCall(c);
  }

  lemma AroundCallee(c: Call, m: Machine, n: nat)
    requires !c.Inner? && m.control == Enter(c) && Run(n, Step(m)) == Outcome(Callee(c), Step(m))
    ensures Run(n + 2, m) == Outcome(c, m)
  {
    EnterStep(c, m);
    Surround(n, m, Outcome(Callee(c), Step(m)), Pushed(c), Value(Callee(c)));
    OutcomeOfCall(c, m);
  }

  /** The machine, started on any call above any stack, returns the closed-form value to that
      stack, having entered the leaf exactly once, with exactly the closed-form chain above it. */
  lemma {:induction false} MachineComputes(c: Call, m: Machine)
    requires m.control == Enter(c)
    ensures Run(2 * |Chain(c)| + 1, m)
         == Machine(Return(Value(c)), m.stack, Wrap32(m.observed + LeafArg(c)), Wrap32(m.innerCalls + 1),
                    m.fires + [Chain(c) + m.stack])
    decreases |Chain(c)|
  {
    if c.Inner? {
      LeafOutcome(m);
    } else {
      OneLonger(c);
      EnterStep(c, m);
      MachineComputes(Callee(c), Step(m));
      AroundCallee(c, m, 2 * |Chain(Callee(c))| + 1);
    }
  }

  lemma WrapSum(a: int, x: int, y: int)
    requires Wrap32(x) == Wrap32(y)
    ensures Wrap32(a + x) == Wrap32(a + y)
  {
    Wrap32Step(1, x, a);
    Wrap32Step(1, y, a);
  }

  function Names(frames: seq<Frame>): (names: seq<Method>)
    ensures |names| == |frames|
  {
    seq(|frames|, i requires 0 <= i < |frames| => frames[i].name)
  }

  /** What each method returns. */
  lemma ReturnedValues(x: int)
    ensures Value(Inner(x)) == Wrap32(2 * x)
    ensures Value(Mid(x)) == Value(Shallow(x)) == Value(OuterA(x)) == Value(Middle(x)) == Wrap32(2 * (x + 1) + 1)
    ensures Value(Outer(x)) == Value(OuterB(x)) == Wrap32(2 * (x + 2) + 2)
    ensures Value(Alpha(x)) == Wrap32(2 * x + 1) && Value(Beta(x)) == Wrap32(2 * x + 2)
  {
  }

  /** Which methods the detour finds between the leaf and the method's caller, immediate caller
      first. */
  lemma NamedChains(x: int)
    ensures Names(Chain(Inner(x))) == []
    ensures Names(Chain(Mid(x))) == [MidM] && Names(Chain(Outer(x))) == [MidM, OuterM] && Names(Chain(Shallow(x))) == [ShallowM]
  {
  }

  lemma CallerChains(x: int)
    ensures Names(Chain(OuterA(x))) == [OuterAM] && Names(Chain(Middle(x))) == [MiddleM]
    ensures Names(Chain(OuterB(x))) == [MiddleM, OuterBM]
    ensures Names(Chain(Alpha(x))) == [AlphaM] && Names(Chain(Beta(x))) == [BetaM]
  {
  }

  /** The same for the two recursions: a run of equal frames above the named ones, one more than
      the depth. */
  lemma RecursiveChains(d: int, tail: int)
    ensures Value(Guard(d, tail)) == Wrap32((if d > 0 then d else 0) + if tail == 1 then 2 * 201 + 1 else 2 * 102 + 2)
    ensures Names(Chain(Guard(d, tail))) == (if tail == 1 then [ShallowM] else [MidM, OuterM]) + seq(1 + Down(d), _ => GuardM)
    ensures Value(Recurse(d)) == Wrap32((if d > 0 then d else 0) + 2)
    ensures Names(Chain(Recurse(d))) == seq(1 + Down(d), _ => RecurseM)
    ensures Down(d) == if d > 0 then d else 0
  {
  }

  // ---- The recursive methods themselves --------------------------------------

  /** The common leaf of the two fixtures. `fires` records the stack at every entry, as the machine
      does; the methods carry the stack above them as a ghost argument. */
  class Leaf {
    var observed: int
    var innerCalls: int
    ghost var fires: seq<seq<Frame>>

    /** The call `c` above `stack` has returned `r`, with the effects of exactly one leaf call. */
    twostate predicate Ran(c: Call, stack: seq<Frame>, r: int)
      reads this
    {
      && r == Value(c)
      && observed == Wrap32(old(observed) + LeafArg(c)) && innerCalls == Wrap32(old(innerCalls) + 1)
      && fires == old(fires) + [Chain(c) + stack]
    }

    method Inner(x: int, ghost stack: seq<Frame>) returns (r: int)
      modifies this
      ensures Ran(Call.Inner(x), stack, r)
    {
      fires := fires + [stack];
      innerCalls := Wrap32(innerCalls + 1);
      observed := Wrap32(observed + x);
      assert Chain(Call.Inner(x)) + stack == stack;
      r := Wrap32(x * 2);
    }

    method Clear()
      modifies this
      ensures observed == 0 && innerCalls == 0 && fires == []
    {
      observed, innerCalls := 0, 0;
      fires := [];
    }
  }

  /** What the frame of `c` makes of the return of its callee. */
  lemma CallReturns(c: Call, observed: int, stack: seq<Frame>)
    requires !c.Inner?
    ensures Value(c) == Wrap32(Value(Callee(c)) + Pushed(c).adds)
    ensures Pushed(c).adds == 0 ==> Value(c) == Value(Callee(c))
    ensures Wrap32(observed + LeafArg(Callee(c))) == Wrap32(observed + LeafArg(c))
    ensures Chain(Callee(c)) + ([Pushed(c)] + stack) == Chain(c) + stack
  {
    ValueOfCall(c);
    LeafArgOfCall(c, observed);
    ChainOnStack(c, stack);
    Wrap32Step(1, 2 * LeafArg(Callee(c)) + Added(Callee(c)), 0);
  }

  class Fixture {
    const leaf: Leaf
    var done: bool

    constructor ()
      ensures fresh(leaf)
    {
      leaf := new Leaf;
      done := false;
    }

    method DoMid(x: int, ghost stack: seq<Frame>) returns (r: int)
      modifies leaf
      ensures leaf.Ran(Mid(x), stack, r)
    {
      r := leaf.Inner(Wrap32(x + 1), [Pushed(Mid(x))] + stack);
      CallReturns(Mid(x), old(leaf.observed), stack);
      r := Wrap32(r + 1);
    }

    method DoOuter(x: int, ghost stack: seq<Frame>) returns (r: int)
      modifies leaf
      ensures leaf.Ran(Outer(x), stack, r)
      ensures r == Wrap32(2 * (x + 2) + 2)
    {
      assert Value(Outer(x)) == Wrap32(2 * (x + 2) + 2) by { ReturnedValues(x); }
      r := DoMid(Wrap32(x + 1), [Pushed(Outer(x))] + stack);
      CallReturns(Outer(x), old(leaf.observed), stack);
      r := Wrap32(r + 1);
    }

    method DoShallow(x: int, ghost stack: seq<Frame>) returns (r: int)
      modifies leaf
      ensures leaf.Ran(Shallow(x), stack, r)
    {
      r := leaf.Inner(Wrap32(x + 1), [Pushed(Shallow(x))] + stack);
      CallReturns(Shallow(x), old(leaf.observed), stack);
      r := Wrap32(r + 1);
    }

    method DoGuard(depth: int, tail: int, ghost stack: seq<Frame>) returns (r: int)
      modifies leaf
      ensures leaf.Ran(Guard(depth, tail), stack, r)
      ensures r == Wrap32((if depth > 0 then depth else 0) + if tail == 1 then 403 else 206)
      decreases Down(depth)
    {
      RecursiveChains(depth, tail);
      ghost var above := [Pushed(Guard(depth, tail))] + stack;
      CallReturns(Guard(depth, tail), leaf.observed, stack);
      if depth <= 0 {
        if tail == TAIL_SHALLOW {
          r := DoShallow(ARG_SHALLOW, above);
          return;
        }
        r := DoOuter(ARG_OUTER, above);
        return;
      }
      r := DoGuard(depth - 1, tail, above);
      r := Wrap32(r + 1);
    }

    method DoRecurse(depth: int, ghost stack: seq<Frame>) returns (r: int)
      modifies leaf
      ensures leaf.Ran(Recurse(depth), stack, r)
      ensures r == Wrap32((if depth > 0 then depth else 0) + 2)
      decreases Down(depth)
    {
      RecursiveChains(depth, 0);
      ghost var above := [Pushed(Recurse(depth))] + stack;
      CallReturns(Recurse(depth), leaf.observed, stack);
      if depth <= 0 {
        r := leaf.Inner(ARG_RECURSE_LEAF, above);
        return;
      }
      r := DoRecurse(depth - 1, above);
      r := Wrap32(r + 1);
    }

    method RunKnownDepth(ghost stack: seq<Frame>)
      modifies leaf
      ensures leaf.observed == 102 && leaf.innerCalls == 1
      ensures leaf.fires == [Chain(Guard(80, 0)) + stack]
    {
      leaf.Clear();
      var _ := DoGuard(GUARD_DEPTH, TAIL_OUTER, stack);
    }

    method RunDeepRecursion(ghost stack: seq<Frame>)
      modifies leaf
      ensures leaf.observed == 1 && leaf.innerCalls == 1
      ensures leaf.fires == [Chain(Recurse(120)) + stack]
    {
      leaf.Clear();
      var _ := DoRecurse(DEEP_RECURSION, stack);
    }

    method RunTwoChains(ghost stack: seq<Frame>)
      modifies leaf
      ensures leaf.observed == 303 && leaf.innerCalls == 2
      ensures leaf.fires == [Chain(Guard(80, 1)) + stack, Chain(Guard(80, 0)) + stack]
    {
      leaf.Clear();
      var _ := DoGuard(GUARD_DEPTH, TAIL_SHALLOW, stack);
      var _ := DoGuard(GUARD_DEPTH, TAIL_OUTER, stack);
    }

    /** The probe's run(). Whatever the mode, the counters agree with the fires of the leaf. */
    method Run(mode: int, ghost stack: seq<Frame>)
      modifies this`done, leaf
      ensures done
      ensures mode !in {1, 2, 3, 4} ==> leaf.fires == old(leaf.fires) && leaf.innerCalls == old(leaf.innerCalls)
      ensures mode in {1, 2, 3, 4} ==> leaf.innerCalls == |leaf.fires|
      ensures mode == 1 || mode == 2 ==> leaf.observed == 102 && leaf.fires == [Chain(Guard(80, 0)) + stack]
      ensures mode == 3 ==> leaf.observed == 1 && leaf.fires == [Chain(Recurse(120)) + stack]
      ensures mode == 4 ==> leaf.observed == 303
      ensures mode == 4 ==> leaf.fires == [Chain(Guard(80, 1)) + stack, Chain(Guard(80, 0)) + stack]
    {
      match mode {
        case 1 => RunKnownDepth(stack);
        case 2 => RunKnownDepth(stack);
        case 3 => RunDeepRecursion(stack);
        case 4 => RunTwoChains(stack);
        case _ =>
      }
      done := true;
    }
  }

  const ARG_ALPHA: int := 15
  const ARG_BETA: int := 16

  /** The callers of the ReturnCaller fixture. */
  class ReturnCaller {
    const leaf: Leaf

    constructor ()
      ensures fresh(leaf)
    {
      leaf := new Leaf;
    }

    method DoOuterA(x: int, ghost stack: seq<Frame>) returns (r: int)
      modifies leaf
      ensures leaf.Ran(OuterA(x), stack, r)
      ensures r == Wrap32(2 * (x + 1) + 1)
    {
      assert Value(OuterA(x)) == Wrap32(2 * (x + 1) + 1) by { ReturnedValues(x); }
      r := leaf.Inner(Wrap32(x + 1), [Pushed(OuterA(x))] + stack);
      CallReturns(OuterA(x), old(leaf.observed), stack);
      r := Wrap32(r + 1);
    }

    method DoMiddle(x: int, ghost stack: seq<Frame>) returns (r: int)
      modifies leaf
      ensures leaf.Ran(Middle(x), stack, r)
    {
      r := leaf.Inner(Wrap32(x + 1), [Pushed(Middle(x))] + stack);
      CallReturns(Middle(x), old(leaf.observed), stack);
      r := Wrap32(r + 1);
    }

    method DoOuterB(x: int, ghost stack: seq<Frame>) returns (r: int)
      modifies leaf
      ensures leaf.Ran(OuterB(x), stack, r)
      ensures r == Wrap32(2 * (x + 2) + 2)
    {
      assert Value(OuterB(x)) == Wrap32(2 * (x + 2) + 2) by { ReturnedValues(x); }
      r := DoMiddle(Wrap32(x + 1), [Pushed(OuterB(x))] + stack);
      CallReturns(OuterB(x), old(leaf.observed), stack);
      r := Wrap32(r + 1);
    }

    method DoAlpha(x: int, ghost stack: seq<Frame>) returns (r: int)
      modifies leaf
      ensures leaf.Ran(Alpha(x), stack, r)
    {
      r := leaf.Inner(x, [Pushed(Alpha(x))] + stack);
      CallReturns(Alpha(x), old(leaf.observed), stack);
      r := Wrap32(r + 1);
    }

    method DoBeta(x: int, ghost stack: seq<Frame>) returns (r: int)
      modifies leaf
      ensures leaf.Ran(Beta(x), stack, r)
    {
      r := leaf.Inner(x, [Pushed(Beta(x))] + stack);
      CallReturns(Beta(x), old(leaf.observed), stack);
      r := Wrap32(r + 2);
    }

    /** The runner of the two distinct callers. */
    method RunTwoCallers(ghost stack: seq<Frame>)
      modifies leaf
      ensures leaf.observed == 31 && leaf.innerCalls == 2
      ensures leaf.fires == [Chain(Alpha(15)) + stack, Chain(Beta(16)) + stack]
    {
      leaf.Clear();
      var _ := DoAlpha(ARG_ALPHA, stack);
      var _ := DoBeta(ARG_BETA, stack);
    }
  }

  // ---- The stack walk --------------------------------------------------------

  function Cap(maxDepth: nat): nat { if maxDepth == 0 then DEFAULT_DEPTH else maxDepth }

  /** How many frames precede the first compiled one. */
  function Interpreted(frames: seq<Frame>): (n: nat)
    ensures n <= |frames|
    ensures forall i :: 0 <= i < n ==> !frames[i].compiled
    ensures n < |frames| ==> frames[n].compiled
  {
    if frames == [] || frames[0].compiled then 0 else 1 + Interpreted(frames[1..])
  }

  /** What stack_trace(max_depth) is documented to return: the names of the interpreted frames,
      immediate caller first, at most the cap. `inspected` counts the frames the walk looked at,
      the compiled one that stopped it included. */
  predicate IsWalk(frames: seq<Frame>, maxDepth: nat, trace: seq<Method>, inspected: nat) {
    var n := Interpreted(frames);
    && |trace| == (if n < Cap(maxDepth) then n else Cap(maxDepth))
    && (forall i :: 0 <= i < |trace| ==> trace[i] == frames[i].name)
    && inspected == |trace| + if n < Cap(maxDepth) && n < |frames| then 1 else 0
  }

  /** The walk itself: the cap is tested before the next frame is looked at. */
  method Walk(frames: seq<Frame>, maxDepth: nat) returns (trace: seq<Method>, inspected: nat)
    ensures IsWalk(frames, maxDepth, trace, inspected)
    ensures var n := Interpreted(frames);
      && (maxDepth == 0 ==> |trace| == if n < 64 then n else 64)
      && (maxDepth > 0 ==> |trace| == if n < maxDepth then n else maxDepth)
  {
    trace, inspected := [], 0;
    var cap := Cap(maxDepth);
    while inspected < cap && inspected < |frames|
      invariant inspected == |trace| <= cap && |trace| <= Interpreted(frames)
      invariant forall i :: 0 <= i < |trace| ==> trace[i] == frames[i].name
    {
      var f := frames[inspected];
      inspected := inspected + 1;
      if f.compiled {
        break;
      }
      trace := trace + [f.name];
    }
  }

  lemma {:induction false} InterpretedAbove(a: seq<Frame>, rest: seq<Frame>)
    requires forall i :: 0 <= i < |a| ==> !a[i].compiled
    ensures Interpreted(a + rest) == |a| + Interpreted(rest)
  {
    if a == [] {
      assert a + rest == rest;
    } else {
      assert (a + rest)[1..] == a[1..] + rest;
      InterpretedAbove(a[1..], rest);
    }
  }

  /** The stack at the leaf when the machine is started on a call. */
  function LeafStack(c: Call, m: Machine): seq<Frame>
    requires m.control == Enter(c)
  {
    MachineComputes(c, m);
    Run(2 * |Chain(c)| + 1, m).fires[|m.fires|]
  }

  /** The names of the chain below `d + 1` guard frames. */
  function GuardedName(tail: int, i: nat): Method {
    if tail == 1 then (if i == 0 then ShallowM else GuardM)
    else if i == 0 then MidM else if i == 1 then OuterM else GuardM
  }

  lemma GuardedWalk(d: nat, tail: int, maxDepth: nat, rest: seq<Frame>, trace: seq<Method>, inspected: nat)
    requires IsWalk(Chain(Guard(d, tail)) + rest, maxDepth, trace, inspected)
    ensures var n := d + if tail == TAIL_SHALLOW then 2 else 3;
      && (Cap(maxDepth) <= n ==> |trace| == inspected == Cap(maxDepth))
      && (forall i :: 0 <= i < |trace| && i < n ==> trace[i] == GuardedName(tail, i))
      && (Interpreted(rest) < |rest| ==> (inspected > n + Interpreted(rest) <==> Cap(maxDepth) > n + Interpreted(rest)))
  {
    GuardedNames(d, tail);
    InterpretedAbove(Chain(Guard(d, tail)), rest);
  }

  lemma GuardedNames(d: nat, tail: int)
    ensures var chain := Chain(Guard(d, tail));
      && |chain| == d + (if tail == TAIL_SHALLOW then 2 else 3)
      && forall i :: 0 <= i < |chain| ==> !chain[i].compiled && chain[i].name == GuardedName(tail, i)
  {
  }

  /** The walk that the detour makes when the program calls guard(d, tail) from any stack; it sees
      the stack recorded by the machine at its entry to the leaf. Below `d + 1` guard frames a cap
      that does not exceed the chain is exhausted on it, so the walk returns exactly that many
      frames, the named ones first, and looks at nothing else. And it looks at the first compiled
      frame above exactly when its cap exceeds all the interpreted frames. */
  lemma GuardedFire(d: nat, tail: int, maxDepth: nat, m: Machine, trace: seq<Method>, inspected: nat)
    requires m.control == Enter(Guard(d, tail))
    requires IsWalk(LeafStack(Guard(d, tail), m), maxDepth, trace, inspected)
    ensures var n := d + if tail == 1 then 2 else 3;
      var cap := if maxDepth == 0 then 64 else maxDepth;
      && (cap <= n ==> |trace| == inspected == cap)
      && (forall i :: 0 <= i < |trace| && i < n ==> trace[i] == GuardedName(tail, i))
      && (Interpreted(m.stack) < |m.stack| ==> (inspected > n + Interpreted(m.stack) <==> cap > n + Interpreted(m.stack)))
  {
    MachineComputes(Guard(d, tail), m);
    GuardedWalk(d, tail, maxDepth, m.stack, trace, inspected);
  }

  /** What caller() reports: the immediate caller, unless its frame is compiled. */
  function Caller(frames: seq<Frame>): (r: seq<Method>) {
    if frames != [] && !frames[0].compiled then [frames[0].name] else []
  }

  /** Index 0 of any walk is caller(), and an empty walk means that caller() is empty. */
  lemma CallerIsFirst(frames: seq<Frame>, maxDepth: nat, trace: seq<Method>, inspected: nat)
    requires IsWalk(frames, maxDepth, trace, inspected)
    ensures Caller(frames) == if |trace| > 0 then [trace[0]] else []
  {
    if frames != [] && !frames[0].compiled {
      assert Interpreted(frames) > 0;
    }
  }

  /** Two calls made one after the other from the same frame are seen by the detour as two
      independent chains: nothing of the first is left when the second fires. */
  lemma TwoCalls(c1: Call, c2: Call, rest: seq<Frame>)
    ensures var m1 := Run(2 * |Chain(c1)| + 1, Machine(Enter(c1), rest, 0, 0, []));
      var m2 := Run(2 * |Chain(c2)| + 1, m1.(control := Enter(c2)));
      && m2.fires == [Chain(c1) + rest, Chain(c2) + rest]
      && m2.stack == rest && m2.control == Return(Value(c2)) && m2.innerCalls == 2
      && m2.observed == Wrap32(LeafArg(c1) + LeafArg(c2))
  {
    MachineComputes(c1, Machine(Enter(c1), rest, 0, 0, []));
    var m1 := Run(2 * |Chain(c1)| + 1, Machine(Enter(c1), rest, 0, 0, []));
    MachineComputes(c2, m1.(control := Enter(c2)));
    Wrap32Step(1, LeafArg(c1), LeafArg(c2));
  }

  /** The machine after the calls `c1` and `c2`, made one after the other above `rest`. */
  function AfterTwo(c1: Call, c2: Call, rest: seq<Frame>): Machine {
    MachineComputes(c1, Machine(Enter(c1), rest, 0, 0, []));
    Run(2 * |Chain(c2)| + 1, Run(2 * |Chain(c1)| + 1, Machine(Enter(c1), rest, 0, 0, [])).(control := Enter(c2)))
  }

  /** The freshness signal of the two-chain scenario, at every depth: the two fires have different
      immediate callers, although every cap up to `d + 2` gives both walks the same length. The
      default cap is such a one at the depth of the fixture. */
  lemma TwoChainsDiffer(d: nat, rest: seq<Frame>, maxDepth: nat, trace1: seq<Method>, n1: nat, trace2: seq<Method>, n2: nat)
    ensures var fires := AfterTwo(Guard(d, TAIL_SHALLOW), Guard(d, TAIL_OUTER), rest).fires;
      && |fires| == 2 && Caller(fires[0]) == [ShallowM] && Caller(fires[1]) == [MidM]
      && (IsWalk(fires[0], maxDepth, trace1, n1) && IsWalk(fires[1], maxDepth, trace2, n2) && (if maxDepth == 0 then 64 else maxDepth) <= d + 2 ==>
            |trace1| == |trace2| == n1 == n2 == (if maxDepth == 0 then 64 else maxDepth) && trace1[0] == ShallowM && trace2[0] == MidM)
    ensures d == 80 ==> 64 <= d + 2
  {
    TwoCalls(Guard(d, TAIL_SHALLOW), Guard(d, TAIL_OUTER), rest);
    var a, b := Chain(Guard(d, TAIL_SHALLOW)) + rest, Chain(Guard(d, TAIL_OUTER)) + rest;
    if IsWalk(a, maxDepth, trace1, n1) && IsWalk(b, maxDepth, trace2, n2) {
      GuardedWalk(d, TAIL_SHALLOW, maxDepth, rest, trace1, n1);
      GuardedWalk(d, TAIL_OUTER, maxDepth, rest, trace2, n2);
    }
  }
}
