/** The field-watcher test: the callback of test_field_watcher over the writes of
    TickerProbe.tick. */
module FieldWatcher {
  import opened JavaInt

  /** The adjacent values the callback objects to. */
  predicate Objects(previous: int, next: int) { previous >= 0 && next <= previous }

  /** The values of last_seen in exchange order, its initial value in front. */
  predicate NoObjection(seen: seq<int>) {
    forall i, j :: 0 <= i < |seen| && j == i + 1 && j < |seen| ==> !Objects(seen[i], seen[j])
  }

  class Watcher {
    var changeCount: int
    var changeMonotonic: bool
    var lastSeen: int

    constructor ()
      ensures changeCount == 0 && changeMonotonic && lastSeen == -1
    {
      changeCount, changeMonotonic, lastSeen := 0, true, -1;
    }

    method Callback(next: int)
      modifies this
      ensures lastSeen == next && changeCount == Wrap32(old(changeCount) + 1)
      ensures changeMonotonic == (old(changeMonotonic) && !Objects(old(lastSeen), next))
    {
      var previous := lastSeen;
      lastSeen := next;
      if previous >= 0 && next <= previous {
        changeMonotonic := false;
      }
      changeCount := Wrap32(changeCount + 1);
    }

    /** A sequence of callbacks, one per write. */
    method Feed(nexts: seq<int>)
      requires IsInt(changeCount)
      modifies this
      ensures changeCount == Wrap32(old(changeCount) + |nexts|)
      ensures lastSeen == if nexts == [] then old(lastSeen) else nexts[|nexts| - 1]
      ensures changeMonotonic == (old(changeMonotonic) && NoObjection([old(lastSeen)] + nexts))
    {
      for i := 0 to |nexts|
        invariant changeCount == Wrap32(old(changeCount) + i)
        invariant lastSeen == if i == 0 then old(lastSeen) else nexts[i - 1]
        invariant changeMonotonic == (old(changeMonotonic) && NoObjection([old(lastSeen)] + nexts[..i]))
      {
        NextSeen(old(lastSeen), nexts, i);
        Wrap32Step(1, old(changeCount) + i, 1);
        Callback(nexts[i]);
      }
      assert nexts[..|nexts|] == nexts;
    }
  }

  lemma NextSeen(first: int, nexts: seq<int>, i: nat)
    requires i < |nexts|
    ensures NoObjection([first] + nexts[..i + 1])
       <==> NoObjection([first] + nexts[..i]) && !Objects(if i == 0 then first else nexts[i - 1], nexts[i])
  {
    NoObjectionStep([first] + nexts[..i], nexts[i]);
    assert [first] + nexts[..i + 1] == [first] + nexts[..i] + [nexts[i]];
    assert ([first] + nexts[..i])[i] == if i == 0 then first else nexts[i - 1];
  }

  lemma NoObjectionStep(seen: seq<int>, next: int)
    requires seen != []
    ensures NoObjection(seen + [next]) <==> NoObjection(seen) && !Objects(seen[|seen| - 1], next)
  {
    var all := seen + [next];
    if NoObjection(all) {
      forall i, j | 0 <= i && j == i + 1 && j < |seen| ensures !Objects(seen[i], seen[j]) {
        assert !Objects(all[i], all[j]);
      }
      assert !Objects(all[|seen| - 1], all[|seen|]);
    }
  }

  predicate StrictlyIncreasing(s: seq<int>) {
    forall i, j :: 0 <= i < j < |s| ==> s[i] < s[j]
  }

  /** For non-negative values the flag means what its name says. */
  lemma {:induction false} MonotonicIff(nexts: seq<int>)
    requires forall x <- nexts :: x >= 0
    ensures NoObjection([-1] + nexts) <==> StrictlyIncreasing(nexts)
    decreases |nexts|
  {
    if nexts != [] {
      var n := |nexts| - 1;
      var front, last := nexts[..n], nexts[n];
      assert forall x <- front :: x in nexts;
      MonotonicIff(front);
      NoObjectionStep([-1] + front, last);
      assert [-1] + nexts == [-1] + front + [last];
      assert n > 0 ==> front[n - 1] in nexts;
      IncreasingStep(front, last);
      assert nexts == front + [last];
    }
  }

  lemma IncreasingStep(front: seq<int>, last: int)
    ensures StrictlyIncreasing(front + [last])
        <==> StrictlyIncreasing(front) && (front == [] || front[|front| - 1] < last)
  {
    var all := front + [last];
    if StrictlyIncreasing(all) {
      forall i, j | 0 <= i < j < |front| ensures front[i] < front[j] {
        assert all[i] < all[j];
      }
      assert front != [] ==> all[|front| - 1] < all[|front|];
    }
  }

  // ---- One ticking thread ----------------------------------------------------

  /** The values that `k` increments of the int counter write, from `c` on. */
  function Written(c: int, k: nat): seq<int> {
    seq(k, i => Wrap32(c + 1 + i))
  }

  method Tick(c: int, k: nat) returns (counter: int, writes: seq<int>)
    requires IsInt(c)
    ensures writes == Written(c, k) && counter == Wrap32(c + k)
  {
    counter, writes := c, [];
    for i := 0 to k
      invariant counter == Wrap32(c + i) && writes == Written(c, i)
    {
      Wrap32Step(1, c + i, 1);
      counter := Wrap32(counter + 1);
      writes := writes + [counter];
    }
  }

  lemma WrapNext(x: int)
    ensures Wrap32(x + 1) == if Wrap32(x) == MAX_INT then MIN_INT else Wrap32(x) + 1
  {
    Wrap32Step(1, x, 1);
  }

  lemma ReachesMax(c: int, i: nat)
    requires IsInt(c) && Wrap32(c + 1 + i) == MAX_INT
    ensures c < MAX_INT ==> i >= MAX_INT - c - 1
    ensures c == MAX_INT ==> i >= TWO_32 - 1
  {
    var x := c + 1 + i;
    assert x % TWO_32 == MAX_INT;
  }

  /** Exactly when a single ticking thread keeps the flag: as long as the counter does not run
      over the largest int. A counter that is already there starts over unnoticed, because the
      first write has no predecessor, and survives one whole turn. */
  lemma OneThreadIff(c: int, k: nat)
    requires IsInt(c)
    ensures NoObjection([-1] + Written(c, k)) <==> c + k <= MAX_INT || (c == MAX_INT && k <= TWO_32)
  {
    var w := Written(c, k);
    var seen := [-1] + w;
    if c + k <= MAX_INT || (c == MAX_INT && k <= TWO_32) {
      forall i, j | 0 <= i && j == i + 1 && j < |seen| ensures !Objects(seen[i], seen[j]) {
        if i > 0 {
          WrapNext(c + i);
          if seen[i] == MAX_INT {
            ReachesMax(c, i - 1);
          }
        }
      }
    } else {
      var i := if c == MAX_INT then TWO_32 else MAX_INT - c;
      assert 0 < i < k;
      assert seen[i] == Wrap32(c + i) == MAX_INT;
      assert seen[i + 1] == w[i] == Wrap32(c + 1 + i) <= MAX_INT;
      assert Objects(seen[i], seen[i + 1]);
    }
  }

  /** The probe of the test: `k` ticks with the callback on every write. */
  method WatchTicks(c: int, k: nat) returns (w: Watcher)
    requires IsInt(c) && k <= MAX_INT
    ensures fresh(w) && w.changeCount == k
    ensures w.lastSeen == if k > 0 then Wrap32(c + k) else -1
    ensures w.changeMonotonic <==> c + k <= MAX_INT || c == MAX_INT
  {
    w := new Watcher();
    var counter, writes := Tick(c, k);
    w.Feed(writes);
    OneThreadIff(c, k);
  }

  // ---- Several ticking threads -------------------------------------------------

  /** The four accesses of one increment under the watch, in the order in which a thread makes
      them: `counter++` is a read and a write; the write traps, and the handler on the same thread
      loads the field and then exchanges the value with last_seen. */
  datatype Access = Read(thread: nat) | Write(thread: nat) | Load(thread: nat) | Exchange(thread: nat)

  /** Where a thread is: what it has read, or that its handler has not loaded yet, or what its
      handler has loaded. */
  datatype Phase = Idle | Held(value: int) | Stored | Loaded(value: int)

  datatype Race = Race(counter: int, threads: seq<Phase>)

  function Start(threads: nat, c: int): Race { Race(c, seq(threads, _ => Idle)) }

  predicate Enabled(r: Race, a: Access) {
    && a.thread < |r.threads|
    && match a
       case Read(t) => r.threads[t].Idle?
       case Write(t) => r.threads[t].Held?
       case Load(t) => r.threads[t].Stored?
       case Exchange(t) => r.threads[t].Loaded?
  }

  function Apply(r: Race, a: Access): Race
    requires Enabled(r, a)
  {
    match a
    case Read(t) => r.(threads := r.threads[t := Held(r.counter)])
    case Write(t) => Race(Wrap32(r.threads[t].value + 1), r.threads[t := Stored])
    case Load(t) => r.(threads := r.threads[t := Loaded(r.counter)])
    case Exchange(t) => r.(threads := r.threads[t := Idle])
  }

  predicate Outstanding(p: Phase) { p.Stored? || p.Loaded? }

  /** Each thread follows its program, and in the end every handler has delivered. */
  predicate Schedule(r: Race, schedule: seq<Access>)
    decreases |schedule|
  {
    if schedule == [] then forall p <- r.threads :: !Outstanding(p)
    else Enabled(r, schedule[0]) && Schedule(Apply(r, schedule[0]), schedule[1..])
  }

  /** What one access hands to the callback. */
  function Handed(r: Race, a: Access): seq<int>
    requires Enabled(r, a)
  {
    if a.Exchange? then [r.threads[a.thread].value] else []
  }

  /** The values that the callbacks exchange with last_seen, in this order. */
  function Exchanged(r: Race, schedule: seq<Access>): seq<int>
    requires Schedule(r, schedule)
    decreases |schedule|
  {
    if schedule == [] then []
    else Handed(r, schedule[0]) + Exchanged(Apply(r, schedule[0]), schedule[1..])
  }

  /** The race after the schedule. */
  function End(r: Race, schedule: seq<Access>): Race
    requires Schedule(r, schedule)
    decreases |schedule|
  {
    if schedule == [] then r else End(Apply(r, schedule[0]), schedule[1..])
  }

  function Increments(schedule: seq<Access>): nat {
    if schedule == [] then 0 else (if schedule[0].Write? then 1 else 0) + Increments(schedule[1..])
  }

  lemma FirstAccess(r: Race, a: Access, rest: seq<Access>)
    requires Enabled(r, a)
    ensures Schedule(r, [a] + rest) <==> Schedule(Apply(r, a), rest)
    ensures Schedule(r, [a] + rest) ==> Exchanged(r, [a] + rest) == Handed(r, a) + Exchanged(Apply(r, a), rest)
    ensures Schedule(r, [a] + rest) && !a.Exchange? ==> Exchanged(r, [a] + rest) == Exchanged(Apply(r, a), rest)
    ensures Schedule(r, [a] + rest) ==> End(r, [a] + rest) == End(Apply(r, a), rest)
    ensures Increments([a] + rest) == (if a.Write? then 1 else 0) + Increments(rest)
  {
    assert ([a] + rest)[1..] == rest;
  }

  /** One increment of thread `t`, not interrupted by other threads. */
  function Tick4(t: nat, rest: seq<Access>): seq<Access> {
    [Read(t)] + ([Write(t)] + ([Load(t)] + ([Exchange(t)] + rest)))
  }

  /** `k` increments of one thread. */
  function Alone(t: nat, k: nat): seq<Access> {
    if k == 0 then [] else Tick4(t, Alone(t, k - 1))
  }

  lemma Tick4Runs(r: Race, t: nat, rest: seq<Access>)
    requires t < |r.threads| && r.threads[t].Idle?
    requires Schedule(r.(counter := Wrap32(r.counter + 1)), rest)
    ensures Schedule(r, Tick4(t, rest))
    ensures Exchanged(r, Tick4(t, rest)) == [Wrap32(r.counter + 1)] + Exchanged(r.(counter := Wrap32(r.counter + 1)), rest)
  {
    var r1 := Apply(r, Read(t));
    var r2 := Apply(r1, Write(t));
    var r3 := Apply(r2, Load(t));
    assert Apply(r3, Exchange(t)) == r.(counter := Wrap32(r.counter + 1));
    FirstAccess(r3, Exchange(t), rest);
    FirstAccess(r2, Load(t), [Exchange(t)] + rest);
    FirstAccess(r1, Write(t), [Load(t)] + ([Exchange(t)] + rest));
    FirstAccess(r, Read(t), [Write(t)] + ([Load(t)] + ([Exchange(t)] + rest)));
  }

  /** A thread that ticks alone hands the written values to the callback, one after the other. */
  lemma {:induction false} AloneWrites(t: nat, r: Race, k: nat)
    requires IsInt(r.counter) && t < |r.threads| && forall p <- r.threads :: p.Idle?
    ensures Schedule(r, Alone(t, k)) && Exchanged(r, Alone(t, k)) == Written(r.counter, k)
    decreases k
  {
    if k > 0 {
      AloneWrites(t, r.(counter := Wrap32(r.counter + 1)), k - 1);
      Tick4Runs(r, t, Alone(t, k - 1));
      WrittenStep(r.counter, k);
    }
  }

  lemma WrittenStep(c: int, k: nat)
    requires k > 0
    ensures [Wrap32(c + 1)] + Written(Wrap32(c + 1), k - 1) == Written(c, k)
  {
    var next := Wrap32(c + 1);
    forall i | 0 <= i < k ensures ([next] + Written(next, k - 1))[i] == Written(c, k)[i] {
      if i > 0 {
        Wrap32Step(1, c + 1, i);
      }
    }
  }

  // ---- Which schedules keep the flag -------------------------------------------

  /** Each write is by a thread that read after the write before and finds no handler that has
      not loaded the field yet, and the handlers exchange in the order in which they loaded. Only
      the order of the accesses counts: `upToDate` are the threads that read after the last write,
      `waiting` tells whether its handler has still to load, `loaded` are the handlers that have
      loaded and not yet exchanged. */
  predicate Disciplined(upToDate: set<nat>, waiting: bool, loaded: seq<nat>, schedule: seq<Access>)
    decreases |schedule|
  {
    schedule == [] ||
    match schedule[0]
    case Read(t) => Disciplined(upToDate + {t}, waiting, loaded, schedule[1..])
    case Write(t) => t in upToDate && !waiting && Disciplined({}, true, loaded, schedule[1..])
    case Load(t) => Disciplined(upToDate, false, loaded + [t], schedule[1..])
    case Exchange(t) => loaded != [] && loaded[0] == t && Disciplined(upToDate, waiting, loaded[1..], schedule[1..])
  }

  /** The values are in range, with room for `n` more increments. */
  predicate InRange(r: Race, n: nat) {
    && -1 <= r.counter <= MAX_INT - n
    && forall t :: 0 <= t < |r.threads| ==>
         match r.threads[t]
         case Idle => true
         case Held(v) => -1 <= v <= MAX_INT - n
         case Stored => r.counter >= 0
         case Loaded(v) => v >= 0
  }

  lemma InRangeStep(r: Race, a: Access, n: nat)
    requires Enabled(r, a) && InRange(r, n) && (a.Write? ==> n > 0)
    ensures InRange(Apply(r, a), if a.Write? then n - 1 else n)
    ensures a.Write? ==> Apply(r, a).counter == r.threads[a.thread].value + 1
  {
  }

  lemma FirstHanded(last: int, handed: seq<int>, rest: seq<int>)
    requires |handed| <= 1
    ensures NoObjection([last] + (handed + rest)) <==>
      if handed == [] then NoObjection([last] + rest) else !Objects(last, handed[0]) && NoObjection(handed + rest)
  {
    if handed == [] {
      assert [last] + (handed + rest) == [last] + rest;
    } else {
      var all, tail := [last] + (handed + rest), handed + rest;
      assert all[0] == last && all[1] == handed[0];
      assert forall i :: 0 <= i < |tail| ==> all[i + 1] == tail[i];
      if NoObjection(all) {
        forall i, j | 0 <= i && j == i + 1 && j < |tail| ensures !Objects(tail[i], tail[j]) {
          assert !Objects(all[i + 1], all[j + 1]);
        }
        assert !Objects(all[0], all[1]);
      }
      if !Objects(last, handed[0]) && NoObjection(tail) {
        forall i, j | 0 <= i && j == i + 1 && j < |all| ensures !Objects(all[i], all[j]) {
          if i > 0 {
            assert !Objects(tail[i - 1], tail[j - 1]);
          }
        }
      }
    }
  }

  // ---- A lost race stays lost ----------------------------------------------------

  predicate LoadedOld(r: Race, last: int, t: nat) {
    t < |r.threads| && r.threads[t].Loaded? && r.threads[t].value <= last
  }

  predicate LoadedTwice(r: Race, t: nat, u: nat) {
    t < |r.threads| && u < |r.threads| && t != u && r.threads[t].Loaded? && r.threads[t] == r.threads[u]
  }

  /** The handler of `t` would load a value that was exchanged, or that the one of `u` loaded. */
  predicate WillLoadOld(r: Race, last: int, t: nat, u: nat) {
    t < |r.threads| && r.threads[t].Stored? && (r.counter <= last || (u < |r.threads| && r.threads[u] == Loaded(r.counter)))
  }

  predicate TwoWaiting(r: Race, t: nat, u: nat) {
    t < |r.threads| && u < |r.threads| && t != u && r.threads[t].Stored? && r.threads[u].Stored?
  }

  /** Two handlers are bound to hand over values that do not increase. */
  predicate Lost(r: Race, last: int, t: nat, u: nat) {
    LoadedOld(r, last, t) || LoadedTwice(r, t, u) || WillLoadOld(r, last, t, u) || TwoWaiting(r, t, u)
  }

  /** The last value handed over after one more access. */
  function LastAfter(r: Race, last: int, a: Access): int
    requires Enabled(r, a)
  {
    if a.Exchange? then r.threads[a.thread].value else last
  }

  lemma LostStep(r: Race, last: int, t: nat, u: nat, a: Access) returns (t': nat, u': nat)
    requires Enabled(r, a) && Lost(r, last, t, u) && InRange(r, if a.Write? then 1 else 0) && last >= -1
    ensures (a.Exchange? && Objects(last, r.threads[a.thread].value)) || Lost(Apply(r, a), LastAfter(r, last, a), t', u')
  {
    var x := a.thread;
    t', u' := t, u;
    match a
    case Read(_) =>
    case Write(_) =>
      if WillLoadOld(r, last, t, u) {
        u' := x;
      }
    case Load(_) =>
      if TwoWaiting(r, t, u) && x == t {
        t', u' := u, t;
      }
    case Exchange(_) =>
      if LoadedTwice(r, t, u) && x == t {
        t' := u;
      }
  }

  lemma {:induction false} LostStays(r: Race, last: int, t: nat, u: nat, schedule: seq<Access>)
    requires Schedule(r, schedule) && Lost(r, last, t, u) && InRange(r, Increments(schedule)) && last >= -1
    ensures !NoObjection([last] + Exchanged(r, schedule))
    decreases |schedule|
  {
    if schedule == [] {
      assert Outstanding(r.threads[t]);
    } else {
      var a, rest := schedule[0], schedule[1..];
      var r', last' := Apply(r, a), LastAfter(r, last, a);
      InRangeStep(r, a, Increments(schedule));
      FirstHanded(last, Handed(r, a), Exchanged(r', rest));
      var t', u' := LostStep(r, last, t, u, a);
      if Lost(r', last', t', u') {
        LostStays(r', last', t', u', rest);
      }
    }
  }

  // ---- A disciplined race --------------------------------------------------------

  /** The value up to which all handlers have exchanged; the loaded ones follow it one by one. */
  function Base(r: Race, waiting: bool, loaded: seq<nat>): int {
    r.counter - |loaded| - if waiting then 1 else 0
  }

  /** The loaded handlers, in order, have the values after `base`, and there are no others. */
  predicate Queued(r: Race, base: int, loaded: seq<nat>) {
    && (forall i :: 0 <= i < |loaded| ==> loaded[i] < |r.threads| && r.threads[loaded[i]] == Loaded(base + 1 + i))
    && (forall t :: 0 <= t < |r.threads| && r.threads[t].Loaded? ==> t in loaded)
  }

  /** Threads that are up to date hold the counter's value, the other ones less; as long as nothing
      was exchanged they hold no less than the start. */
  predicate Readers(r: Race, upToDate: set<nat>, base: int, last: int) {
    forall t :: 0 <= t < |r.threads| && r.threads[t].Held? ==>
      && (if t in upToDate then r.threads[t].value == r.counter else r.threads[t].value < r.counter)
      && (last == base || r.threads[t].value >= base)
  }

  /** There is at most one handler that has not loaded. */
  predicate Waiting(r: Race, waiting: bool) {
    && (waiting <==> exists t :: 0 <= t < |r.threads| && r.threads[t].Stored?)
    && forall t, u :: 0 <= t < u < |r.threads| ==> !(r.threads[t].Stored? && r.threads[u].Stored?)
  }

  predicate Live(r: Race, last: int, upToDate: set<nat>, waiting: bool, loaded: seq<nat>) {
    var base := Base(r, waiting, loaded);
    && Queued(r, base, loaded) && Readers(r, upToDate, base, last) && Waiting(r, waiting)
    && base >= -1 && (last == base || last == -1)
  }

  lemma LiveRead(r: Race, last: int, upToDate: set<nat>, waiting: bool, loaded: seq<nat>, t: nat)
    requires Live(r, last, upToDate, waiting, loaded) && Enabled(r, Read(t))
    ensures Live(Apply(r, Read(t)), last, upToDate + {t}, waiting, loaded)
  {
    var r' := Apply(r, Read(t));
    assert forall u :: 0 <= u < |r.threads| && u != t ==> r'.threads[u] == r.threads[u];
  }

  lemma LiveWrite(r: Race, last: int, upToDate: set<nat>, loaded: seq<nat>, t: nat)
    requires Live(r, last, upToDate, false, loaded) && Enabled(r, Write(t)) && t in upToDate
    requires InRange(r, 1)
    ensures Live(Apply(r, Write(t)), last, {}, true, loaded)
  {
    var r' := Apply(r, Write(t));
    assert r'.counter == r.counter + 1 && r'.threads[t].Stored?;
    assert forall u :: 0 <= u < |r.threads| && u != t ==> r'.threads[u] == r.threads[u];
  }

  lemma LiveLoad(r: Race, last: int, upToDate: set<nat>, waiting: bool, loaded: seq<nat>, t: nat)
    requires Live(r, last, upToDate, waiting, loaded) && Enabled(r, Load(t))
    ensures Live(Apply(r, Load(t)), last, upToDate, false, loaded + [t])
  {
    var r' := Apply(r, Load(t));
    assert waiting;
    assert forall u :: 0 <= u < |r.threads| && u != t ==> r'.threads[u] == r.threads[u];
    assert forall u :: u in loaded ==> u in loaded + [t];
    assert t in loaded + [t];
  }

  lemma LiveExchange(r: Race, last: int, upToDate: set<nat>, waiting: bool, loaded: seq<nat>, t: nat)
    requires Live(r, last, upToDate, waiting, loaded) && Enabled(r, Exchange(t))
    requires loaded != [] && loaded[0] == t
    ensures !Objects(last, r.threads[t].value)
    ensures Live(Apply(r, Exchange(t)), r.threads[t].value, upToDate, waiting, loaded[1..])
  {
    var r' := Apply(r, Exchange(t));
    assert forall u :: 0 <= u < |r.threads| && u != t ==> r'.threads[u] == r.threads[u];
    assert forall i :: 0 <= i < |loaded| - 1 ==> loaded[1..][i] == loaded[i + 1];
    forall u | 0 <= u < |r.threads| && r'.threads[u].Loaded? ensures u in loaded[1..] {
      assert u in loaded;
    }
  }

  /** A write on an old read, or before the last handler has loaded, loses the race. */
  lemma BadWrite(r: Race, last: int, upToDate: set<nat>, waiting: bool, loaded: seq<nat>, t: nat) returns (u: nat, v: nat)
    requires Live(r, last, upToDate, waiting, loaded) && Enabled(r, Write(t)) && (waiting || t !in upToDate)
    requires InRange(r, 1)
    ensures Lost(Apply(r, Write(t)), last, u, v)
  {
    var base := Base(r, waiting, loaded);
    u, v := t, t;
    if waiting {
      v :| 0 <= v < |r.threads| && r.threads[v].Stored?;
      assert TwoWaiting(Apply(r, Write(t)), t, v);
    } else {
      var w := r.threads[t].value + 1;
      if w > last {
        var i := w - base - 1;
        v := loaded[i];
        assert r.threads[v] == Loaded(w);
      }
    }
  }

  /** So does an exchange out of turn. */
  lemma BadExchange(r: Race, last: int, upToDate: set<nat>, waiting: bool, loaded: seq<nat>, t: nat)
    requires Live(r, last, upToDate, waiting, loaded) && Enabled(r, Exchange(t))
    requires loaded == [] || loaded[0] != t
    ensures loaded != [] && Lost(Apply(r, Exchange(t)), r.threads[t].value, loaded[0], t)
  {
    assert t in loaded;
    var i :| 0 <= i < |loaded| && loaded[i] == t;
    assert r.threads[loaded[0]].Loaded?;
  }

  /** From any point of a race in which the order has been kept so far. */
  lemma {:induction false} DisciplineFrom(r: Race, last: int, upToDate: set<nat>, waiting: bool, loaded: seq<nat>, schedule: seq<Access>)
    requires Schedule(r, schedule) && InRange(r, Increments(schedule)) && last >= -1
    requires Live(r, last, upToDate, waiting, loaded)
    ensures NoObjection([last] + Exchanged(r, schedule)) <==> Disciplined(upToDate, waiting, loaded, schedule)
    decreases |schedule|
  {
    if schedule != [] {
      var a, rest := schedule[0], schedule[1..];
      var r', last' := Apply(r, a), LastAfter(r, last, a);
      InRangeStep(r, a, Increments(schedule));
      FirstHanded(last, Handed(r, a), Exchanged(r', rest));
      match a
      case Read(t) =>
        LiveRead(r, last, upToDate, waiting, loaded, t);
        DisciplineFrom(r', last', upToDate + {t}, waiting, loaded, rest);
      case Write(t) =>
        if t in upToDate && !waiting {
          LiveWrite(r, last, upToDate, loaded, t);
          DisciplineFrom(r', last', {}, true, loaded, rest);
        } else {
          var u, v := BadWrite(r, last, upToDate, waiting, loaded, t);
          LostStays(r', last', u, v, rest);
        }
      case Load(t) =>
        LiveLoad(r, last, upToDate, waiting, loaded, t);
        DisciplineFrom(r', last', upToDate, false, loaded + [t], rest);
      case Exchange(t) =>
        if loaded != [] && loaded[0] == t {
          LiveExchange(r, last, upToDate, waiting, loaded, t);
          DisciplineFrom(r', last', upToDate, waiting, loaded[1..], rest);
        } else {
          BadExchange(r, last, upToDate, waiting, loaded, t);
          LostStays(r', last', loaded[0], t, rest);
        }
    }
  }

  /** Exactly the disciplined schedules keep the flag, for any number of ticking threads and from
      any non-negative counter value (or -1, whose first increment is 0), as long as the counter
      does not pass the largest int. */
  lemma DisciplineIff(c: int, threads: nat, schedule: seq<Access>)
    requires Schedule(Start(threads, c), schedule)
    requires -1 <= c && c + Increments(schedule) <= MAX_INT
    ensures NoObjection([-1] + Exchanged(Start(threads, c), schedule)) <==> Disciplined({}, false, [], schedule)
  {
    var r := Start(threads, c);
    assert Base(r, false, []) == c;
    DisciplineFrom(r, -1, {}, false, [], schedule);
  }

  /** The whole handler of thread `t`, then that of thread `u`. */
  function Handlers(t: nat, u: nat): seq<Access> {
    [Load(t)] + ([Exchange(t)] + ([Load(u)] + ([Exchange(u)] + [])))
  }

  lemma HandlersRun(r: Race, t: nat, u: nat)
    requires |r.threads| == 2 && t < 2 && u < 2 && t != u && r.threads[t].Stored? && r.threads[u].Stored?
    ensures Schedule(r, Handlers(t, u)) && Exchanged(r, Handlers(t, u)) == [r.counter, r.counter]
    ensures End(r, Handlers(t, u)).counter == r.counter && Increments(Handlers(t, u)) == 0
  {
    var r1 := Apply(r, Load(t));
    var r2 := Apply(r1, Exchange(t));
    var r3 := Apply(r2, Load(u));
    var r4 := Apply(r3, Exchange(u));
    FirstAccess(r3, Exchange(u), []);
    FirstAccess(r2, Load(u), [Exchange(u)] + []);
    FirstAccess(r1, Exchange(t), [Load(u)] + ([Exchange(u)] + []));
    FirstAccess(r, Load(t), [Exchange(t)] + ([Load(u)] + ([Exchange(u)] + [])));
  }

  lemma SameTwice(x: int)
    requires x >= 0
    ensures !NoObjection([-1] + [x, x])
  {
    var seen := [-1] + [x, x];
    assert Objects(seen[1], seen[2]);
  }

  /** Both threads read, then both write. */
  function LostIncrement(): seq<Access> {
    [Read(0)] + ([Read(1)] + ([Write(0)] + ([Write(1)] + Handlers(0, 1))))
  }

  /** So with a second ticking thread the flag can be lost, from any counter value below the
      largest that is not negative after the increment: of two increments one is lost, and the
      callback gets the same value twice. */
  lemma TwoThreadsCanClear(c: int)
    requires -1 <= c < MAX_INT
    ensures Schedule(Start(2, c), LostIncrement()) && Increments(LostIncrement()) == 2
    ensures End(Start(2, c), LostIncrement()).counter == c + 1
    ensures !NoObjection([-1] + Exchanged(Start(2, c), LostIncrement()))
  {
    var rest := Handlers(0, 1);
    var r0 := Start(2, c);
    var r1 := Apply(r0, Read(0));
    var r2 := Apply(r1, Read(1));
    var r3 := Apply(r2, Write(0));
    var r4 := Apply(r3, Write(1));
    HandlersRun(r4, 0, 1);
    FirstAccess(r3, Write(1), rest);
    FirstAccess(r2, Write(0), [Write(1)] + rest);
    FirstAccess(r1, Read(1), [Write(0)] + ([Write(1)] + rest));
    FirstAccess(r0, Read(0), [Read(1)] + ([Write(0)] + ([Write(1)] + rest)));
    assert r4.counter == c + 1;
    SameTwice(c + 1);
  }

  /** The second thread reads after the first one has written, but writes before the handler of the
      first has loaded the field. */
  function LateHandler(): seq<Access> {
    [Read(0)] + ([Write(0)] + ([Read(1)] + ([Write(1)] + Handlers(1, 0))))
  }

  /** And it can be lost although no increment is: two increments raise the counter by two, but the
      callback gets the same value twice. */
  lemma LateHandlerCanClear(c: int)
    requires -1 <= c < MAX_INT - 1
    ensures Schedule(Start(2, c), LateHandler()) && Increments(LateHandler()) == 2
    ensures End(Start(2, c), LateHandler()).counter == c + 2
    ensures !NoObjection([-1] + Exchanged(Start(2, c), LateHandler()))
  {
    var rest := Handlers(1, 0);
    var r0 := Start(2, c);
    var r1 := Apply(r0, Read(0));
    var r2 := Apply(r1, Write(0));
    var r3 := Apply(r2, Read(1));
    var r4 := Apply(r3, Write(1));
    HandlersRun(r4, 1, 0);
    FirstAccess(r3, Write(1), rest);
    FirstAccess(r2, Read(1), [Write(1)] + rest);
    FirstAccess(r1, Write(0), [Read(1)] + ([Write(1)] + rest));
    FirstAccess(r0, Read(0), [Write(0)] + ([Read(1)] + ([Write(1)] + rest)));
    assert r4.counter == c + 2;
    SameTwice(c + 2);
  }
}
