/** The Java-side coordination: probe registration, the tick, and the loading of fixtures. */
module Harness {

  import opened Wrappers

  /** What one visit of a probe does: pending() may throw or answer, run() may register further
      probes (a null one is ignored) and may then throw. */
  datatype Visit = Visit(pendingThrows: bool, pending: bool, registers: seq<Option<nat>>, runThrows: bool)
  {
    predicate Runs() { !pendingThrows && pending }
  }

  datatype Entry = Entry(probe: nat, ran: bool, threw: bool)

  /** The non-null probes that the first `n` visits of a tick register, in order. */
  function Registered(visits: nat -> Visit, n: nat): seq<nat> {
    if n == 0 then []
    else Registered(visits, n - 1) + RegisteredBy(visits(n - 1))
  }

  function NonNull(ps: seq<Option<nat>>): seq<nat> {
    if ps == [] then [] else (if ps[0].Some? then [ps[0].value] else []) + NonNull(ps[1..])
  }

  /** The registered probes before tick `t` of a program that starts with `ps`. */
  function ProbesBefore(ps: seq<nat>, ticks: nat -> nat -> Visit, t: nat): seq<nat> {
    if t == 0 then ps
    else
      var was := ProbesBefore(ps, ticks, t - 1);
      was + Registered(ticks(t - 1), |was|)
  }

  /** The lists that the ticks of the program visit. */
  function VisitLists(ps: seq<nat>, ticks: nat -> nat -> Visit): nat -> seq<nat> {
    (t: nat) => ProbesBefore(ps, ticks, t)
  }

  lemma AfterTick(ps: seq<nat>, ticks: nat -> nat -> Visit, t: nat, was: seq<nat>)
    requires was == ProbesBefore(ps, ticks, t)
    ensures ProbesBefore(ps, ticks, t + 1) == was + Registered(ticks(t), |was|)
  {
  }

  predicate Grows<T(==)>(lists: nat -> seq<T>, t: nat) { lists(t) <= lists(t + 1) }

  lemma {:induction false} GrowsOn<T>(lists: nat -> seq<T>, t: nat, later: nat)
    requires t <= later && forall u: nat :: Grows(lists, u)
    ensures lists(t) <= lists(later)
    decreases later - t
  {
    if t < later {
      GrowsOn(lists, t, later - 1);
      assert Grows(lists, later - 1);
    }
  }

  /** Ticks never drop or move a probe: whatever is registered, and whatever throws, the list a
      tick visits is a prefix of the list every later tick visits. */
  lemma RegistrationOrderIsStable(ps: seq<nat>, ticks: nat -> nat -> Visit, t: nat, later: nat)
    requires t <= later
    ensures VisitLists(ps, ticks)(t) <= VisitLists(ps, ticks)(later)
  {
    forall u: nat ensures Grows(VisitLists(ps, ticks), u) {
      AfterTick(ps, ticks, u, ProbesBefore(ps, ticks, u));
    }
    GrowsOn(VisitLists(ps, ticks), t, later);
  }

  /** `entry` tells what the visit `v` of the probe did. */
  predicate IsVisit(entry: Entry, probe: nat, v: Visit) {
    entry.probe == probe && entry.ran == v.Runs() && entry.threw == (v.pendingThrows || (v.Runs() && v.runThrows))
  }

  predicate IsLog(log: seq<Entry>, snapshot: seq<nat>, visits: nat -> Visit) {
    |log| <= |snapshot| && forall k :: 0 <= k < |log| ==> IsVisit(log[k], snapshot[k], visits(k))
  }

  lemma OneMoreVisit(log: seq<Entry>, entry: Entry, snapshot: seq<nat>, visits: nat -> Visit)
    requires |log| < |snapshot| && IsLog(log, snapshot, visits) && IsVisit(entry, snapshot[|log|], visits(|log|))
    ensures IsLog(log + [entry], snapshot, visits)
  {
  }

  function RegisteredBy(v: Visit): seq<nat> { if v.Runs() then NonNull(v.registers) else [] }

  lemma RegisteredNext(snapshot: seq<nat>, visits: nat -> Visit, n: nat)
    ensures snapshot + Registered(visits, n) + RegisteredBy(visits(n)) == snapshot + Registered(visits, n + 1)
  {
    var all, one := Registered(visits, n), RegisteredBy(visits(n));
    assert Registered(visits, n + 1) == all + one;
    Regroup(snapshot, all, one);
  }

  lemma Regroup<T>(a: seq<T>, b: seq<T>, c: seq<T>)
    ensures a + b + c == a + (b + c)
  {
  }

  lemma LogTells(log: seq<Entry>, snapshot: seq<nat>, visits: nat -> Visit)
    requires IsLog(log, snapshot, visits)
    ensures forall i :: 0 <= i < |log| ==> log[i].probe == snapshot[i] && log[i].ran == visits(i).Runs()
    ensures forall i :: 0 <= i < |log| ==> log[i].threw == (visits(i).pendingThrows || (visits(i).Runs() && visits(i).runThrows))
  {
  }

  lemma {:induction false} NonNullHas(ps: seq<Option<nat>>, p: nat)
    requires Some(p) in ps
    ensures p in NonNull(ps)
  {
    if ps[0] != Some(p) {
      assert Some(p) in ps[1..];
      NonNullHas(ps[1..], p);
    }
  }

  lemma RegisteredGrows(visits: nat -> Visit, m: nat, n: nat)
    requires m <= n
    ensures Registered(visits, m) <= Registered(visits, n)
  {
    var lists := (k: nat) => Registered(visits, k);
    forall k: nat ensures Grows(lists, k) {
      assert lists(k + 1) == lists(k) + RegisteredBy(visits(k));
    }
    GrowsOn(lists, m, n);
  }

  /** A run registers its probes even if it throws in the end. */
  lemma RegisteredInTick(visits: nat -> Visit, i: nat, n: nat, p: nat)
    requires i < n && !visits(i).pendingThrows && visits(i).pending && Some(p) in visits(i).registers
    ensures p in Registered(visits, n)
  {
    var before, own := Registered(visits, i), RegisteredBy(visits(i));
    NonNullHas(visits(i).registers, p);
    RegisteredGrows(visits, i + 1, n);
    InPart(p, before, own, Registered(visits, n)) by { assert before + own == Registered(visits, i + 1); }
  }

  lemma InPart(p: nat, a: seq<nat>, b: seq<nat>, whole: seq<nat>)
    requires p in b && a + b <= whole
    ensures p in whole
  {
    var j :| 0 <= j < |b| && b[j] == p;
    assert (a + b)[|a| + j] == p;
  }

  /** A run registers its probes in their order, the null ones left out. */
  lemma {:induction false} NonNullInOrder(a: seq<Option<nat>>, b: seq<Option<nat>>, p: nat)
    ensures NonNull(a + b) == NonNull(a) + NonNull(b)
    ensures NonNull([Some(p)]) == [p] && NonNull([None]) == []
    decreases |a|
  {
    if a == [] {
      assert a + b == b;
    } else {
      assert (a + b)[1..] == a[1..] + b && (a + b)[0] == a[0];
      NonNullInOrder(a[1..], b, p);
      Regroup(if a[0].Some? then [a[0].value] else [], NonNull(a[1..]), NonNull(b));
    }
  }

  /** The probes that a tick visited, in order. */
  function Visited(log: seq<Entry>): seq<nat> {
    seq(|log|, i requires 0 <= i < |log| => log[i].probe)
  }

  class Registry {
    var probes: seq<nat>

    constructor ()
      ensures probes == []
    {
      probes := [];
    }

    method Register(probe: Option<nat>)
      modifies this
      ensures probes == old(probes) + if probe.Some? then [probe.value] else []
    {
      if probe.Some? {
        probes := probes + [probe.value];
      }
    }

    method RegisterAll(ps: seq<Option<nat>>)
      modifies this
      ensures probes == old(probes) + NonNull(ps)
    {
      var i := 0;
      while i < |ps|
        invariant 0 <= i <= |ps|
        invariant probes + NonNull(ps[i..]) == old(probes) + NonNull(ps)
      {
        Register(ps[i]);
        i := i + 1;
      }
    }

    /** The visit of one probe: pending(), run() if it is pending, and the handler around both. */
    method VisitProbe(probe: nat, v: Visit) returns (entry: Entry)
      modifies this
      ensures IsVisit(entry, probe, v)
      ensures probes == old(probes) + if !v.pendingThrows && v.pending then NonNull(v.registers) else []
    {
      var ran, threw := false, v.pendingThrows;
      if !threw && v.pending {
        ran := true;
        RegisterAll(v.registers);
        threw := v.runThrows;
      }
      entry := Entry(probe, ran, threw);
    }

    /** One tick over the snapshot taken at its start: every probe of the snapshot is visited
        exactly once, in registration order, whatever throws; probes registered meanwhile are
        appended and not visited. */
    method TickAll(visits: nat -> Visit) returns (log: seq<Entry>)
      modifies this
      ensures |log| == |old(probes)|
      ensures forall i :: 0 <= i < |log| ==> log[i].probe == old(probes)[i]
      ensures forall i :: 0 <= i < |log| ==> log[i].ran == (!visits(i).pendingThrows && visits(i).pending)
      ensures forall i :: 0 <= i < |log| ==> log[i].threw == (visits(i).pendingThrows || (visits(i).pending && visits(i).runThrows))
      ensures probes == old(probes) + Registered(visits, |old(probes)|)
      ensures forall i, p :: 0 <= i < |log| && log[i].ran && Some(p) in visits(i).registers ==> p in probes
    {
      var snapshot := probes;
      log := [];
      for i := 0 to |snapshot|
        invariant |log| == i && IsLog(log, snapshot, visits)
        invariant probes == snapshot + Registered(visits, i)
      {
        var entry := VisitProbe(snapshot[i], visits(i));
        OneMoreVisit(log, entry, snapshot, visits);
        RegisteredNext(snapshot, visits, i);
        log := log + [entry];
      }
      LogTells(log, snapshot, visits);
      forall i, p | 0 <= i < |log| && log[i].ran && Some(p) in visits(i).registers ensures p in probes {
        RegisteredInTick(visits, i, |snapshot|, p);
      }
    }

    /** `n` ticks of the main loop. A probe keeps its place: whatever is registered and whatever
        throws, the probe visited at some position of one tick is visited at the same position of
        every later tick. */
    method RunTicks(ticks: nat -> nat -> Visit, n: nat) returns (logs: seq<seq<Entry>>)
      modifies this
      ensures |logs| == n && probes == ProbesBefore(old(probes), ticks, n)
      ensures VisitsOf(VisitLists(old(probes), ticks), logs)
      ensures forall t, later :: 0 <= t <= later < n ==> Visited(logs[t]) <= Visited(logs[later])
    {
      logs := [];
      for t := 0 to n
        invariant |logs| == t && probes == ProbesBefore(old(probes), ticks, t)
        invariant VisitsOf(VisitLists(old(probes), ticks), logs)
      {
        ghost var was := probes;
        var log := TickAll(ticks(t));
        VisitedIs(log, was);
        OneMoreTick(VisitLists(old(probes), ticks), logs, log);
        AfterTick(old(probes), ticks, t, was);
        logs := logs + [log];
      }
      PlacesKept(old(probes), ticks, logs);
    }
  }

  /** The logs are those of ticks that visit these lists. */
  predicate VisitsOf(lists: nat -> seq<nat>, logs: seq<seq<Entry>>) {
    forall t :: 0 <= t < |logs| ==> Visited(logs[t]) == lists(t)
  }

  lemma VisitedIs(log: seq<Entry>, ps: seq<nat>)
    requires |log| == |ps| && forall i :: 0 <= i < |log| ==> log[i].probe == ps[i]
    ensures Visited(log) == ps
  {
  }

  lemma OneMoreTick(lists: nat -> seq<nat>, logs: seq<seq<Entry>>, log: seq<Entry>)
    requires VisitsOf(lists, logs) && Visited(log) == lists(|logs|)
    ensures VisitsOf(lists, logs + [log])
  {
  }

  lemma PlacesKept(ps: seq<nat>, ticks: nat -> nat -> Visit, logs: seq<seq<Entry>>)
    requires VisitsOf(VisitLists(ps, ticks), logs)
    ensures forall t, later :: 0 <= t <= later < |logs| ==> Visited(logs[t]) <= Visited(logs[later])
  {
    forall t, later | 0 <= t <= later < |logs| ensures Visited(logs[t]) <= Visited(logs[later]) {
      RegistrationOrderIsStable(ps, ticks, t, later);
    }
  }

  // ---- Fixture discovery ----------------------------------------------------

  /** What the static initializer of a fixture does when it runs. */
  datatype StaticInit = StaticInit(registers: bool, throws: bool)

  predicate EndsWith(s: string, suffix: string) {
    |suffix| <= |s| && s[|s| - |suffix|..] == suffix
  }

  /** The file filter: a top-level class file. */
  predicate IsFixtureFile(name: string) {
    EndsWith(name, ".class") && '$' !in name
  }

  function ClassName(file: string): string
    requires IsFixtureFile(file)
  {
    "vmhook.fixtures." + file[..|file| - |".class"|]
  }

  function FileAttempt(file: string): seq<string> {
    if IsFixtureFile(file) then [ClassName(file)] else []
  }

  function FileAttempts(files: seq<string>): seq<string> {
    if files == [] then [] else FileAttempt(files[0]) + FileAttempts(files[1..])
  }

  /** The scan tries exactly the classes whose file has the suffix and no dollar sign. */
  lemma {:induction false} AttemptsAre(files: seq<string>, name: string)
    ensures name in FileAttempts(files) <==>
      exists base: string :: base + ".class" in files && '$' !in base && name == "vmhook.fixtures." + base
  {
    if files != [] {
      AttemptsAre(files[1..], name);
      OneAttempt(files[0], name);
      if base: string :| base + ".class" in files && '$' !in base && name == "vmhook.fixtures." + base {
        assert base + ".class" == files[0] || base + ".class" in files[1..];
      }
      if base: string :| base + ".class" in files[1..] && '$' !in base && name == "vmhook.fixtures." + base {
        assert base + ".class" in files;
      }
    }
  }

  lemma OneAttempt(file: string, name: string)
    ensures name in FileAttempt(file) <==>
      exists base: string :: base + ".class" == file && '$' !in base && name == "vmhook.fixtures." + base
  {
    if IsFixtureFile(file) {
      var base := file[..|file| - |".class"|];
      assert base + ".class" == file;
      assert forall c <- base :: c in file;
    }
    if base: string :| base + ".class" == file && '$' !in base && name == "vmhook.fixtures." + base {
      assert file[|file| - |".class"|..] == ".class" && file[..|file| - |".class"|] == base;
      assert forall c <- file :: c in base || c in ".class";
    }
  }

  /** An entry without a vmhook/fixtures directory, or whose listing fails, contributes no names. */
  function EntryAttempts(entry: Option<seq<string>>): seq<string> {
    if entry.Some? then FileAttempts(entry.value) else []
  }

  /** The class names tried by the scan, in order. */
  function Attempts(classpath: seq<Option<seq<string>>>): seq<string> {
    if classpath == [] then [] else EntryAttempts(classpath[0]) + Attempts(classpath[1..])
  }

  predicate Loads(classes: map<string, StaticInit>, name: string) {
    name in classes && !classes[name].throws
  }

  function LoadCount(classes: map<string, StaticInit>, names: seq<string>): nat {
    if names == [] then 0 else (if Loads(classes, names[0]) then 1 else 0) + LoadCount(classes, names[1..])
  }

  predicate NoDuplicates(s: seq<string>) {
    forall i, j :: 0 <= i < j < |s| ==> s[i] != s[j]
  }

  /** The classes of the JVM. Each class initializes at most once (section 12.4.2 of the Java
      Language Specification); a fixture's probe is named after its class. */
  class Fixtures {
    const classes: map<string, StaticInit>
    var begun: set<string>      // classes whose static initializer has run, well or badly
    var probes: seq<string>

    ghost predicate Valid()
      reads this
    {
      && NoDuplicates(probes)
      && begun <= classes.Keys
      && forall n :: n in probes <==> n in begun && classes[n].registers
    }

    constructor (classes: map<string, StaticInit>)
      ensures Valid() && this.classes == classes && begun == {}
    {
      this.classes := classes;
      begun := {};
      probes := [];
    }

    /** Class.forName: runs the static initializer the first time; a class that is missing, or
        whose initializer threw at any time, makes it throw. */
    method ForName(name: string) returns (ok: bool)
      requires Valid()
      modifies this
      ensures Valid()
      ensures ok <==> name in classes && !classes[name].throws
      ensures begun == old(begun) + ({name} * classes.Keys)
      ensures probes == old(probes) + FirstTime(classes, old(begun), name)
    {
      if name !in classes {
        return false;
      }
      if name !in begun {
        begun := begun + {name};
        if classes[name].registers {
          probes := probes + [name];
        }
      }
      ok := !classes[name].throws;
    }

    method LoadFile(file: string) returns (loaded: nat)
      requires Valid()
      modifies this
      ensures Valid()
      ensures begun == old(begun) + Tried(classes, FileAttempt(file))
      ensures probes == old(probes) + Discovered(classes, old(begun), FileAttempt(file))
      ensures loaded == LoadCount(classes, FileAttempt(file))
    {
      loaded := 0;
      if IsFixtureFile(file) {
        var name := ClassName(file);
        TriedFirst(classes, name, []);
        DiscoveredFirst(classes, begun, name, []);
        assert [name] + [] == [name];
        var ok := ForName(name);
        if ok {
          loaded := 1;
        }
      }
    }

    method LoadDirectory(files: seq<string>) returns (loaded: nat)
      requires Valid()
      modifies this
      ensures Valid()
      ensures begun == old(begun) + Tried(classes, FileAttempts(files))
      ensures probes == old(probes) + Discovered(classes, old(begun), FileAttempts(files))
      ensures loaded == LoadCount(classes, FileAttempts(files))
    {
      loaded := 0;
      ghost var was := Scan(begun, probes, 0);
      var i := 0;
      while i < |files|
        invariant 0 <= i <= |files| && Valid()
        invariant Progress(classes, Scan(begun, probes, loaded), was, FileAttempts(files), FileAttempts(files[i..]))
      {
        NextFile(files, i);
        Advance(classes, Scan(begun, probes, loaded), was, FileAttempts(files), FileAttempt(files[i]), FileAttempts(files[i + 1..]));
        var n := LoadFile(files[i]);
        loaded := loaded + n;
        i := i + 1;
      }
      Arrived(classes, Scan(begun, probes, loaded), was, FileAttempts(files), FileAttempts(files[i..]));
    }

    method LoadEntry(entry: Option<seq<string>>) returns (loaded: nat)
      requires Valid()
      modifies this
      ensures Valid()
      ensures begun == old(begun) + Tried(classes, EntryAttempts(entry))
      ensures probes == old(probes) + Discovered(classes, old(begun), EntryAttempts(entry))
      ensures loaded == LoadCount(classes, EntryAttempts(entry))
    {
      loaded := 0;
      if entry.Some? {
        loaded := LoadDirectory(entry.value);
      }
    }

    method ScanClasspath(classpath: seq<Option<seq<string>>>) returns (loaded: nat)
      requires Valid()
      modifies this
      ensures Valid()
      ensures begun == old(begun) + Tried(classes, Attempts(classpath))
      ensures probes == old(probes) + Discovered(classes, old(begun), Attempts(classpath))
      ensures loaded == LoadCount(classes, Attempts(classpath))
    {
      loaded := 0;
      ghost var was := Scan(begun, probes, 0);
      var i := 0;
      while i < |classpath|
        invariant 0 <= i <= |classpath| && Valid()
        invariant Progress(classes, Scan(begun, probes, loaded), was, Attempts(classpath), Attempts(classpath[i..]))
      {
        NextEntry(classpath, i);
        Advance(classes, Scan(begun, probes, loaded), was, Attempts(classpath), EntryAttempts(classpath[i]), Attempts(classpath[i + 1..]));
        var n := LoadEntry(classpath[i]);
        loaded := loaded + n;
        i := i + 1;
      }
      Arrived(classes, Scan(begun, probes, loaded), was, Attempts(classpath), Attempts(classpath[i..]));
    }

    /** Each fixture's probe is registered at most once, however often the classpath repeats it,
        and it is registered exactly when its class was found and its initializer got that far, in
        the order of the first attempts; `loaded` on the other hand counts the repetitions. */
    method LoadFixtures(classpath: seq<Option<seq<string>>>) returns (loaded: nat)
      requires Valid()
      modifies this
      ensures Valid() && forall i, j :: 0 <= i < j < |probes| ==> probes[i] != probes[j]
      ensures forall n :: n in probes <==>
                (n in old(probes) || (n in Attempts(classpath) && n in classes && classes[n].registers))
      ensures loaded == LoadCount(classes, Attempts(classpath))
    {
      loaded := ScanClasspath(classpath);
    }
  }

  function FirstTime(classes: map<string, StaticInit>, begun: set<string>, name: string): seq<string> {
    if name in classes && name !in begun && classes[name].registers then [name] else []
  }

  /** The probes that a list of attempts registers, in order. */
  function Discovered(classes: map<string, StaticInit>, begun: set<string>, names: seq<string>): seq<string>
    decreases |names|
  {
    if names == [] then []
    else FirstTime(classes, begun, names[0]) + Discovered(classes, begun + ({names[0]} * classes.Keys), names[1..])
  }

  lemma DiscoveredFirst(classes: map<string, StaticInit>, begun: set<string>, name: string, rest: seq<string>)
    ensures Discovered(classes, begun, [name] + rest)
         == FirstTime(classes, begun, name) + Discovered(classes, begun + ({name} * classes.Keys), rest)
  {
    assert ([name] + rest)[1..] == rest;
  }

  lemma {:induction false} DiscoveredSplit(classes: map<string, StaticInit>, begun: set<string>, a: seq<string>, b: seq<string>)
    ensures Discovered(classes, begun, a + b)
         == Discovered(classes, begun, a) + Discovered(classes, begun + Tried(classes, a), b)
    decreases |a|
  {
    if a == [] {
      assert a + b == b && begun + Tried(classes, a) == begun;
    } else {
      var begun' := begun + ({a[0]} * classes.Keys);
      assert a + b == [a[0]] + (a[1..] + b) && a == [a[0]] + a[1..];
      TriedFirst(classes, a[0], a[1..]);
      assert begun + Tried(classes, a) == begun' + Tried(classes, a[1..]);
      DiscoveredSplit(classes, begun', a[1..], b);
      DiscoveredFirst(classes, begun, a[0], a[1..] + b);
      DiscoveredFirst(classes, begun, a[0], a[1..]);
      Regroup(FirstTime(classes, begun, a[0]), Discovered(classes, begun', a[1..]), Discovered(classes, begun' + Tried(classes, a[1..]), b));
    }
  }

  /** What is registered, and where: a probe is registered iff its class is tried, exists, was not
      begun before and registers, and it comes behind everything that earlier attempts registered. */
  lemma {:induction false} DiscoveredAre(classes: map<string, StaticInit>, begun: set<string>, names: seq<string>, k: nat)
    requires k <= |names|
    ensures forall n :: n in Discovered(classes, begun, names) <==> n in names && n in classes && n !in begun && classes[n].registers
    ensures Discovered(classes, begun, names[..k]) <= Discovered(classes, begun, names)
    decreases |names|
  {
    assert names == names[..k] + names[k..];
    DiscoveredSplit(classes, begun, names[..k], names[k..]);
    if names != [] {
      assert names == [names[0]] + names[1..];
      DiscoveredFirst(classes, begun, names[0], names[1..]);
      DiscoveredAre(classes, begun + ({names[0]} * classes.Keys), names[1..], 0);
    }
  }

  lemma {:induction false} FilesInOrder(a: seq<string>, b: seq<string>)
    ensures FileAttempts(a + b) == FileAttempts(a) + FileAttempts(b)
    decreases |a|
  {
    if a == [] {
      assert a + b == b;
    } else {
      assert (a + b)[1..] == a[1..] + b;
      FilesInOrder(a[1..], b);
    }
  }

  lemma {:induction false} EntriesInOrder(a: seq<Option<seq<string>>>, b: seq<Option<seq<string>>>)
    ensures Attempts(a + b) == Attempts(a) + Attempts(b)
    decreases |a|
  {
    if a == [] {
      assert a + b == b;
    } else {
      assert (a + b)[1..] == a[1..] + b;
      EntriesInOrder(a[1..], b);
      Regroup(EntryAttempts(a[0]), Attempts(a[1..]), Attempts(b));
    }
  }

  lemma OneEntry(entry: Option<seq<string>>)
    ensures Attempts([entry]) == EntryAttempts(entry)
  {
    assert [entry][1..] == [];
    assert EntryAttempts(entry) + [] == EntryAttempts(entry);
  }

  /** The scan goes through the directories and the files of each in their order. */
  lemma ScanOrder(a: seq<Option<seq<string>>>, b: seq<Option<seq<string>>>, files1: seq<string>, files2: seq<string>)
    ensures Attempts(a + b) == Attempts(a) + Attempts(b)
    ensures Attempts([Some(files1)]) == FileAttempts(files1) && Attempts([None]) == []
    ensures FileAttempts(files1 + files2) == FileAttempts(files1) + FileAttempts(files2)
  {
    EntriesInOrder(a, b);
    OneEntry(Some(files1));
    OneEntry(None);
    FilesInOrder(files1, files2);
  }

  /** The classes that a list of attempts initializes. */
  function Tried(classes: map<string, StaticInit>, names: seq<string>): set<string> {
    set n | n in names && n in classes
  }

  lemma TriedFirst(classes: map<string, StaticInit>, name: string, rest: seq<string>)
    ensures Tried(classes, [name] + rest) == ({name} * classes.Keys) + Tried(classes, rest)
    ensures LoadCount(classes, [name] + rest) == (if Loads(classes, name) then 1 else 0) + LoadCount(classes, rest)
  {
    assert ([name] + rest)[1..] == rest;
  }

  lemma {:induction false} TriedSplit(classes: map<string, StaticInit>, a: seq<string>, b: seq<string>)
    ensures Tried(classes, a + b) == Tried(classes, a) + Tried(classes, b)
    ensures LoadCount(classes, a + b) == LoadCount(classes, a) + LoadCount(classes, b)
  {
    if a == [] {
      assert a + b == b;
    } else {
      assert a + b == [a[0]] + (a[1..] + b) && a == [a[0]] + a[1..];
      TriedSplit(classes, a[1..], b);
      TriedFirst(classes, a[0], a[1..] + b);
      TriedFirst(classes, a[0], a[1..]);
    }
  }

  lemma NextFile(files: seq<string>, i: nat)
    requires i < |files|
    ensures FileAttempts(files[i..]) == FileAttempt(files[i]) + FileAttempts(files[i + 1..])
  {
    assert files[i..][1..] == files[i + 1..];
  }

  lemma NextEntry(classpath: seq<Option<seq<string>>>, i: nat)
    requires i < |classpath|
    ensures Attempts(classpath[i..]) == EntryAttempts(classpath[i]) + Attempts(classpath[i + 1..])
  {
    assert classpath[i..][1..] == classpath[i + 1..];
  }

  /** What a scan has done so far. */
  datatype Scan = Scan(begun: set<string>, probes: seq<string>, loaded: nat)

  /** From `s0`, a scan over `all` has `rest` still to try. */
  predicate Progress(classes: map<string, StaticInit>, s: Scan, s0: Scan, all: seq<string>, rest: seq<string>) {
    && s.begun + Tried(classes, rest) == s0.begun + Tried(classes, all)
    && s.probes + Discovered(classes, s.begun, rest) == s0.probes + Discovered(classes, s0.begun, all)
    && s.loaded + LoadCount(classes, rest) == s0.loaded + LoadCount(classes, all)
  }

  lemma Advance(classes: map<string, StaticInit>, s: Scan, s0: Scan, all: seq<string>, head: seq<string>, rest: seq<string>)
    requires Progress(classes, s, s0, all, head + rest)
    ensures var s' := Scan(s.begun + Tried(classes, head), s.probes + Discovered(classes, s.begun, head), s.loaded + LoadCount(classes, head));
      Progress(classes, s', s0, all, rest)
  {
    TriedSplit(classes, head, rest);
    DiscoveredSplit(classes, s.begun, head, rest);
    Regroup(s.probes, Discovered(classes, s.begun, head), Discovered(classes, s.begun + Tried(classes, head), rest));
  }

  lemma Arrived(classes: map<string, StaticInit>, s: Scan, s0: Scan, all: seq<string>, rest: seq<string>)
    requires Progress(classes, s, s0, all, rest) && rest == []
    ensures s.begun == s0.begun + Tried(classes, all) && s.loaded == s0.loaded + LoadCount(classes, all)
    ensures s.probes == s0.probes + Discovered(classes, s0.begun, all)
  {
  }
}
