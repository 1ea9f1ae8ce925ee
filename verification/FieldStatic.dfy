/** The String targets of FieldStatic. The native side overwrites the backing array of a String
    in place, so what matters is which strings share a backing. */
module FieldStatic {
  import opened Wrappers

  /** A java.lang.String: an object over a backing array. */
  class JString {
    const value: array<char>

    constructor (chars: string)
      ensures fresh(value) && value[..] == chars
    {
      value := new char[|chars|](i requires 0 <= i < |chars| => chars[i]);
      new;
      assert value[..] == chars;
    }
  }

  /** The content of a backing `text` after the native in-place write of `chars`: the length is
      kept, so a shorter write leaves the tail and a longer one is cut. */
  function Overwrite(text: string, chars: string): (r: string)
    ensures |r| == |text|
    ensures |chars| == |text| ==> r == chars
    ensures forall i :: 0 <= i < |r| ==> r[i] == if i < |chars| then chars[i] else text[i]
  {
    var n := if |chars| < |text| then |chars| else |text|;
    chars[..n] + text[n..]
  }

  /** write_java_string. */
  method WriteJavaString(target: JString, chars: string)
    modifies target.value
    ensures target.value[..] == Overwrite(old(target.value[..]), chars)
  {
    var n := if |chars| < target.value.Length then |chars| else target.value.Length;
    var i := 0;
    while i < n
      invariant 0 <= i <= n
      invariant forall k :: 0 <= k < i ==> target.value[k] == chars[k]
      invariant forall k :: i <= k < target.value.Length ==> target.value[k] == old(target.value[k])
    {
      target.value[i] := chars[i];
      i := i + 1;
    }
    assert target.value[..n] == chars[..n];
    assert target.value[n..] == old(target.value[..])[n..];
  }

  /** freshAscii: a string over a private copy of the characters. */
  method FreshAscii(text: JString) returns (s: JString)
    ensures fresh(s) && fresh(s.value) && s.value[..] == text.value[..]
  {
    s := new JString(text.value[..]);
  }

  /** String.equals: the identity test first, then the contents. */
  method StringEquals(a: JString, b: JString) returns (eq: bool)
    ensures eq == (a == b || a.value[..] == b.value[..])
  {
    eq := a == b || a.value[..] == b.value[..];
  }

  /** What the native module and the probe can do with the targets. */
  datatype Op = WriteStr(chars: string) | WriteShort(chars: string) | Snapshot | Reset

  function StrStep(text: string, op: Op): string {
    match op
    case WriteStr(chars) => Overwrite(text, chars)
    case Reset => "AAAAA"
    case _ => text
  }

  function ShortStep(text: string, op: Op): string {
    match op
    case WriteShort(chars) => Overwrite(text, chars)
    case Reset => "world"
    case _ => text
  }

  /** The content of the first target after `ops`, starting from `text`. */
  function StrAfter(text: string, ops: seq<Op>): string {
    if ops == [] then text else StrStep(StrAfter(text, ops[..|ops| - 1]), ops[|ops| - 1])
  }

  function ShortAfter(text: string, ops: seq<Op>): string {
    if ops == [] then text else ShortStep(ShortAfter(text, ops[..|ops| - 1]), ops[|ops| - 1])
  }

  /** What was done before the last snapshot in `ops`, if there is one. */
  function BeforeSnapshot(ops: seq<Op>): (r: Option<seq<Op>>)
    ensures r.Some? ==> |r.value| < |ops|
  {
    if ops == [] then None
    else if ops[|ops| - 1].Snapshot? then Some(ops[..|ops| - 1])
    else BeforeSnapshot(ops[..|ops| - 1])
  }

  /** What a snapshot of the String targets records. */
  datatype Seen = Seen(str: JString?, len: int, eqWorld: bool, short: JString?, shortLen: int)

  /** The witnesses against what was done before the last snapshot, from the contents `str` and
      `short` and the witnesses `was`; the targets are now `target` and `shortTarget`. */
  predicate Records(str: string, short: string, was: Seen, ops: seq<Op>, seen: Seen, target: JString, shortTarget: JString) {
    match BeforeSnapshot(ops)
    case None => seen == was
    case Some(before) =>
      && (seen.eqWorld <==> StrAfter(str, before) == "world")
      && seen.len == |StrAfter(str, before)| && seen.shortLen == |ShortAfter(short, before)|
      && (Reset !in ops[|before|..] ==> seen.str == target && seen.short == shortTarget)
  }

  /** What the witnesses tell, by the place of the last snapshot. */
  lemma {:induction false} RecordsTell(str: string, short: string, was: Seen, ops: seq<Op>, seen: Seen, target: JString, shortTarget: JString)
    requires Records(str, short, was, ops, seen, target, shortTarget)
    ensures Snapshot !in ops ==> seen == was
    ensures forall k :: 0 <= k < |ops| && ops[k] == Snapshot && Snapshot !in ops[k + 1..] ==>
      && (seen.eqWorld <==> StrAfter(str, ops[..k]) == "world")
      && seen.len == |StrAfter(str, ops[..k])| && seen.shortLen == |ShortAfter(short, ops[..k])|
      && (Reset !in ops[k + 1..] ==> seen.str == target && seen.short == shortTarget)
  {
    if Snapshot !in ops {
      LastSnapshot(ops, -1);
    }
    forall k | 0 <= k < |ops| && ops[k] == Snapshot && Snapshot !in ops[k + 1..]
      ensures BeforeSnapshot(ops) == Some(ops[..k]) && (Reset in ops[k..] ==> Reset in ops[k + 1..])
    {
      forall j | k < j < |ops| ensures ops[j] != Snapshot {
        assert ops[j] == ops[k + 1..][j - k - 1];
      }
      LastSnapshot(ops, k);
      assert ops[k..] == [ops[k]] + ops[k + 1..];
    }
  }

  lemma {:induction false} LastSnapshot(ops: seq<Op>, k: int)
    requires -1 <= k < |ops| && (k >= 0 ==> ops[k] == Snapshot) && forall j :: k < j < |ops| ==> ops[j] != Snapshot
    ensures BeforeSnapshot(ops) == if k < 0 then None else Some(ops[..k])
    decreases |ops|
  {
    var n := |ops| - 1;
    if k < n {
      var front := ops[..n];
      LastSnapshot(front, k);
      assert k >= 0 ==> front[..k] == ops[..k];
    }
  }

  lemma RecordsOne(str: string, short: string, was: Seen, ops: seq<Op>, op: Op,
                   seen: Seen, target: JString, shortTarget: JString, seen': Seen, target': JString, shortTarget': JString)
    requires Records(str, short, was, ops, seen, target, shortTarget)
    requires if op.Snapshot? then
               var text := StrAfter(str, ops);
               seen' == Seen(target', |text|, text == "world", shortTarget', |ShortAfter(short, ops)|)
             else seen' == seen && (op.Reset? || (target' == target && shortTarget' == shortTarget))
    ensures Records(str, short, was, ops + [op], seen', target', shortTarget')
  {
    AfterOne(str, short, ops, op);
    if !op.Snapshot? && BeforeSnapshot(ops).Some? {
      var n := |BeforeSnapshot(ops).value|;
      assert (ops + [op])[n..] == ops[n..] + [op];
    }
  }

  class Fixture {
    /** The interned literals of the JVM; the first two are "AAAAA" and "world". */
    const literals: seq<JString>
    ghost const texts: seq<string>
    var setStr: JString
    var setStrShort: JString
    var seenStr: JString?
    var seenStrLen: int
    var seenStrEqWorld: bool
    var seenStrShort: JString?
    var seenStrShortLen: int

    ghost predicate LiteralsIntact()
      reads set l <- literals :: l.value
    {
      && |literals| == |texts| && |literals| >= 2 && texts[0] == "AAAAA" && texts[1] == "world"
      && forall i :: 0 <= i < |literals| ==> literals[i].value[..] == texts[i]
    }

    /** All that a snapshot of the String targets records. */
    ghost function Witnesses(): Seen
      reads this
    {
      Seen(seenStr, seenStrLen, seenStrEqWorld, seenStrShort, seenStrShortLen)
    }

    /** Every literal still reads its text, and the two targets have backings of their own. */
    ghost predicate Valid()
      reads this, set l <- literals :: l.value
    {
      && LiteralsIntact()
      && (forall l <- literals :: l.value != setStr.value && l.value != setStrShort.value)
      && setStr.value != setStrShort.value
    }

    constructor (literals: seq<JString>, ghost texts: seq<string>)
      requires |literals| == |texts| && |literals| >= 2 && texts[0] == "AAAAA" && texts[1] == "world"
      requires forall i :: 0 <= i < |literals| ==> literals[i].value[..] == texts[i]
      ensures Valid() && this.literals == literals && this.texts == texts
      ensures setStr.value[..] == "AAAAA" && setStrShort.value[..] == "world"
      ensures fresh(setStr.value) && fresh(setStrShort.value)
    {
      this.literals := literals;
      this.texts := texts;
      this.setStr := literals[0];
      this.setStrShort := literals[1];
      this.seenStr, this.seenStrShort := null, null;
      new;
      var a := FreshAscii(literals[0]);
      var w := FreshAscii(literals[1]);
      this.setStr, this.setStrShort := a, w;
    }

    method NativeWriteStr(chars: string)
      requires Valid()
      modifies setStr.value
      ensures Valid()
      ensures setStr.value[..] == Overwrite(old(setStr.value[..]), chars)
      ensures setStrShort.value[..] == old(setStrShort.value[..])
    {
      WriteJavaString(setStr, chars);
    }

    method NativeWriteShort(chars: string)
      requires Valid()
      modifies setStrShort.value
      ensures Valid()
      ensures setStrShort.value[..] == Overwrite(old(setStrShort.value[..]), chars)
      ensures setStr.value[..] == old(setStr.value[..])
    {
      WriteJavaString(setStrShort, chars);
    }

    /** The String part of snapshot(). The comparison is a true comparison with the text world,
        because the literal it goes through has never been overwritten. */
    method TakeSnapshot()
      requires Valid()
      modifies this`seenStr, this`seenStrLen, this`seenStrEqWorld, this`seenStrShort, this`seenStrShortLen
      ensures Valid()
      ensures seenStrEqWorld <==> setStr.value[..] == "world"
      ensures seenStr == setStr && seenStrLen == setStr.value.Length
      ensures seenStrShort == setStrShort && seenStrShortLen == setStrShort.value.Length
    {
      seenStr := setStr;
      seenStrLen := setStr.value.Length;
      seenStrEqWorld := StringEquals(literals[1], setStr);
      seenStrShort := setStrShort;
      seenStrShortLen := setStrShort.value.Length;
    }

    /** The String part of resetTargets(): both contents are restored, whatever was written. */
    method ResetTargets()
      requires Valid()
      modifies this`setStr, this`setStrShort
      ensures Valid()
      ensures setStr.value[..] == "AAAAA" && setStrShort.value[..] == "world"
      ensures fresh(setStr.value) && fresh(setStrShort.value)
    {
      setStr := FreshAscii(literals[0]);
      setStrShort := FreshAscii(literals[1]);
    }

    method Do(op: Op)
      requires Valid()
      modifies this, setStr.value, setStrShort.value
      ensures Valid()
      ensures setStr.value[..] == StrStep(old(setStr.value[..]), op)
      ensures setStrShort.value[..] == ShortStep(old(setStrShort.value[..]), op)
      ensures op.Reset? ==> fresh(setStr.value) && fresh(setStrShort.value)
      ensures !op.Reset? ==> setStr == old(setStr) && setStrShort == old(setStrShort)
      ensures !op.Snapshot? ==> Witnesses() == old(Witnesses())
      ensures op.Snapshot? ==>
                Witnesses() == Seen(setStr, setStr.value.Length, setStr.value[..] == "world", setStrShort, setStrShort.value.Length)
    {
      match op {
        case WriteStr(chars) => NativeWriteStr(chars);
        case WriteShort(chars) => NativeWriteShort(chars);
        case Snapshot => TakeSnapshot();
        case Reset => ResetTargets();
      }
    }

    /** The targets and the witnesses are those after `ops`. */
    ghost predicate IsAfter(str: string, short: string, was: Seen, ops: seq<Op>)
      reads this, setStr.value, setStrShort.value
    {
      && setStr.value[..] == StrAfter(str, ops)
      && setStrShort.value[..] == ShortAfter(short, ops)
      && Records(str, short, was, ops, Witnesses(), setStr, setStrShort)
    }

    method DoNext(ghost str: string, ghost short: string, ghost was: Seen, ghost ops: seq<Op>, op: Op)
      requires Valid() && IsAfter(str, short, was, ops)
      modifies this, setStr.value, setStrShort.value
      ensures Valid() && IsAfter(str, short, was, ops + [op])
      ensures setStr.value == old(setStr.value) || fresh(setStr.value)
      ensures setStrShort.value == old(setStrShort.value) || fresh(setStrShort.value)
    {
      ghost var seen, target, shortTarget := Witnesses(), setStr, setStrShort;
      AfterOne(str, short, ops, op);
      Do(op);
      RecordsOne(str, short, was, ops, op, seen, target, shortTarget, Witnesses(), setStr, setStrShort);
    }

    method DoAll(ops: seq<Op>)
      requires Valid()
      modifies this, setStr.value, setStrShort.value
      ensures Valid() && IsAfter(old(setStr.value[..]), old(setStrShort.value[..]), old(Witnesses()), ops)
    {
      ghost var str, short, was := setStr.value[..], setStrShort.value[..], Witnesses();
      var i := 0;
      while i < |ops|
        invariant 0 <= i <= |ops| && Valid() && IsAfter(str, short, was, ops[..i])
        invariant setStr.value == old(setStr.value) || fresh(setStr.value)
        invariant setStrShort.value == old(setStrShort.value) || fresh(setStrShort.value)
      {
        DoNext(str, short, was, ops[..i], ops[i]);
        assert ops[..i + 1] == ops[..i] + [ops[i]];
        i := i + 1;
      }
      assert ops[..|ops|] == ops;
    }

    /** Any sequence of writes, snapshots and resets: all literals stay intact, the targets hold
        exactly what the sequence says, and the witnesses tell the lengths and the comparison of the
        contents at the last snapshot, however often they were overwritten since. The two string
        witnesses are the targets themselves, so they show later writes, until a reset. */
    method RunAll(ops: seq<Op>)
      requires Valid()
      modifies this, setStr.value, setStrShort.value
      ensures Valid()
      ensures setStr.value[..] == StrAfter(old(setStr.value[..]), ops)
      ensures setStrShort.value[..] == ShortAfter(old(setStrShort.value[..]), ops)
      ensures Snapshot !in ops ==> Witnesses() == old(Witnesses())
      ensures var seen := Witnesses();
        forall k :: 0 <= k < |ops| && ops[k] == Snapshot && Snapshot !in ops[k + 1..] ==>
          && (seen.eqWorld <==> StrAfter(old(setStr.value[..]), ops[..k]) == "world")
          && seen.len == |StrAfter(old(setStr.value[..]), ops[..k])| && seen.shortLen == |ShortAfter(old(setStrShort.value[..]), ops[..k])|
          && (Reset !in ops[k + 1..] ==> seen.str == setStr && seen.short == setStrShort)
    {
      ghost var str, short, was := setStr.value[..], setStrShort.value[..], Witnesses();
      DoAll(ops);
      RecordsTell(str, short, was, ops, Witnesses(), setStr, setStrShort);
    }
  }

  lemma AfterOne(str: string, short: string, ops: seq<Op>, op: Op)
    ensures StrAfter(str, ops + [op]) == StrStep(StrAfter(str, ops), op)
    ensures ShortAfter(short, ops + [op]) == ShortStep(ShortAfter(short, ops), op)
    ensures BeforeSnapshot(ops + [op]) == if op.Snapshot? then Some(ops) else BeforeSnapshot(ops)
  {
    assert (ops + [op])[..|ops|] == ops;
  }

  /** Why the targets are not initialised with literals: a write through a target that is the
      literal itself corrupts the literal for everyone, a later assignment of the literal does
      not restore the text, and the comparison with the literal holds by identity. */
  method LiteralTargetIsCorrupted(world: JString, chars: string) returns (setStr: JString, eqWorld: bool)
    requires world.value[..] == "world"
    modifies world.value
    ensures setStr == world && eqWorld
    ensures world.value[..] == Overwrite("world", chars)
    ensures |chars| == 5 && chars != "world" ==> setStr.value[..] != "world"
  {
    setStr := world;
    WriteJavaString(setStr, chars);
    setStr := world;
    eqWorld := StringEquals(world, setStr);
  }
}
