/** The order-independent witnesses of CollMap: sums and an XOR accumulated in insertion order,
    compared by the native side with a walk in another order. */
module Checksums {
  import opened JavaInt
  import CollidingKeys

  datatype Box = Box(id: int, name: CollidingKeys.Text)
  datatype Entry = Entry(key: CollidingKeys.Text, value: Box)

  // ---- Folds over entries, and their independence of the order ---------------

  function SumBy(f: Entry -> int, es: seq<Entry>): int {
    if es == [] then 0 else SumBy(f, es[..|es| - 1]) + f(es[|es| - 1])
  }

  function XorBy(f: Entry -> int, es: seq<Entry>): int {
    if es == [] then 0 else Xor(XorBy(f, es[..|es| - 1]), f(es[|es| - 1]))
  }

  function Without(es: seq<Entry>, i: nat): seq<Entry>
    requires i < |es|
  {
    es[..i] + es[i + 1..]
  }

  lemma {:induction false} SumWithout(f: Entry -> int, es: seq<Entry>, i: nat)
    requires i < |es|
    ensures SumBy(f, es) == SumBy(f, Without(es, i)) + f(es[i])
    decreases |es|
  {
    var last := |es| - 1;
    if i < last {
      SumWithout(f, es[..last], i);
      assert Without(es, i)[..last - 1] == Without(es[..last], i);
    } else {
      assert Without(es, i) == es[..last];
    }
  }

  lemma XorSwapLast(x: int, y: int, z: int)
    ensures Xor(Xor(x, y), z) == Xor(Xor(x, z), y)
  {
    XorAssociates(x, y, z);
    XorCommutes(y, z);
    XorAssociates(x, z, y);
  }

  lemma XorAppend(f: Entry -> int, es: seq<Entry>, e: Entry)
    ensures XorBy(f, es + [e]) == Xor(XorBy(f, es), f(e))
  {
    assert (es + [e])[..|es|] == es;
  }

  lemma {:induction false} XorWithout(f: Entry -> int, es: seq<Entry>, i: nat)
    requires i < |es|
    ensures XorBy(f, es) == Xor(XorBy(f, Without(es, i)), f(es[i]))
    decreases |es|
  {
    var last := |es| - 1;
    if i < last {
      var front := es[..last];
      XorWithout(f, front, i);
      assert es == front + [es[last]] && Without(es, i) == Without(front, i) + [es[last]];
      XorAppend(f, front, es[last]);
      XorAppend(f, Without(front, i), es[last]);
      XorSwapLast(XorBy(f, Without(front, i)), f(es[i]), f(es[last]));
    } else {
      assert Without(es, i) == es[..last];
    }
  }

  /** Sums and XORs see only the multiset of the entries. */
  lemma {:induction false} OrderIndependent(f: Entry -> int, a: seq<Entry>, b: seq<Entry>)
    requires multiset(a) == multiset(b)
    ensures SumBy(f, a) == SumBy(f, b) && XorBy(f, a) == XorBy(f, b)
    decreases |a|
  {
    if a == [] {
      assert |b| == |multiset(b)| == 0;
    } else {
      var last := |a| - 1;
      assert a[last] in multiset(b);
      var i :| 0 <= i < |b| && b[i] == a[last];
      assert a == a[..last] + [a[last]];
      assert b == b[..i] + [b[i]] + b[i + 1..];
      assert multiset(Without(b, i)) == multiset(b) - multiset{b[i]};
      OrderIndependent(f, a[..last], Without(b, i));
      SumWithout(f, b, i);
      XorWithout(f, b, i);
    }
  }

  // ---- Walks of a map --------------------------------------------------------

  /** `walk` visits every entry of `m` exactly once, in any order. */
  predicate Enumerates(walk: seq<Entry>, m: map<CollidingKeys.Text, Box>) {
    && (forall i, j :: 0 <= i < j < |walk| ==> walk[i].key != walk[j].key)
    && (forall e <- walk :: e.key in m && m[e.key] == e.value)
    && (forall k <- m :: Entry(k, m[k]) in walk)
  }

  lemma {:induction false} CountInWalk(walk: seq<Entry>, e: Entry)
    requires forall i, j :: 0 <= i < j < |walk| ==> walk[i].key != walk[j].key
    ensures multiset(walk)[e] == if e in walk then 1 else 0
  {
    if walk != [] {
      var last := |walk| - 1;
      CountInWalk(walk[..last], e);
      assert walk == walk[..last] + [walk[last]];
    }
  }

  lemma WalksAgree(a: seq<Entry>, b: seq<Entry>, m: map<CollidingKeys.Text, Box>)
    requires Enumerates(a, m) && Enumerates(b, m)
    ensures multiset(a) == multiset(b)
  {
    forall e ensures multiset(a)[e] == multiset(b)[e] {
      CountInWalk(a, e);
      CountInWalk(b, e);
      if e in a {
        assert Entry(e.key, m[e.key]) in b;
      }
      if e in b {
        assert Entry(e.key, m[e.key]) in a;
      }
    }
  }

  // ---- The keys of the build loop ---------------------------------------------

  function Digit(d: nat): CollidingKeys.CodeUnit
    requires d < 10
  {
    48 + d
  }

  /** Java's decimal rendering of a non-negative int. */
  function Decimal(n: nat): (s: CollidingKeys.Text)
    ensures |s| > 0 && forall u <- s :: 48 <= u <= 57
    ensures n > 0 ==> s[0] != 48
  {
    if n < 10 then [Digit(n)] else Decimal(n / 10) + [Digit(n % 10)]
  }

  function Parse(s: CollidingKeys.Text): int {
    if s == [] then 0 else 10 * Parse(s[..|s| - 1]) + s[|s| - 1] - 48
  }

  lemma {:induction false} DecimalRoundTrip(n: nat)
    ensures Parse(Decimal(n)) == n
  {
    var s := Decimal(n);
    if n < 10 {
      assert s[..|s| - 1] == [];
    } else {
      DecimalRoundTrip(n / 10);
      assert s[..|s| - 1] == Decimal(n / 10);
    }
  }

  /** The letter k and the number; the value carries the letter v instead. */
  function Key(i: nat): CollidingKeys.Text { [107] + Decimal(i) }

  function Name(i: nat): CollidingKeys.Text { [118] + Decimal(i) }

  lemma KeysDiffer(i: nat, j: nat)
    requires Key(i) == Key(j)
    ensures i == j
  {
    assert Key(i)[1..] == Decimal(i) && Key(j)[1..] == Decimal(j);
    DecimalRoundTrip(i);
    DecimalRoundTrip(j);
  }

  function EntryOf(i: nat): Entry { Entry(Key(i), Box(i, Name(i))) }

  /** The entries in insertion order. */
  function Inserted(n: nat): (es: seq<Entry>)
    ensures |es| == n
  {
    seq(n, i requires 0 <= i < n => EntryOf(i))
  }

  function KeyUnits(e: Entry): int { CollidingKeys.CodeUnitSum(e.key) }

  function IdOf(e: Entry): int { e.value.id }

  lemma InsertedStep(n: nat)
    ensures Inserted(n + 1)[..n] == Inserted(n) && Inserted(n + 1)[n] == EntryOf(n)
  {
  }

  /** Sum and XOR of the ids 0 .. n - 1 in closed form. */
  lemma {:induction false} IdSum(n: nat)
    ensures 2 * SumBy(IdOf, Inserted(n)) == n * (n - 1)
  {
    if n > 0 {
      IdSum(n - 1);
      InsertedStep(n - 1);
      assert n * (n - 1) == (n - 1) * (n - 2) + 2 * (n - 1);
    }
  }

  function XorBelow(n: nat): int {
    if n % 4 == 0 then 0 else if n % 4 == 1 then n - 1 else if n % 4 == 2 then 1 else n
  }

  lemma XorOneMore(n: nat, acc: int, acc': int)
    requires XorBy(IdOf, Inserted(n)) == acc && IsXor(acc, n, acc')
    ensures XorBy(IdOf, Inserted(n + 1)) == acc'
  {
    InsertedStep(n);
  }

  lemma {:induction false} IdXorQuads(h: nat)
    ensures XorBy(IdOf, Inserted(4 * h)) == 0
    ensures XorBy(IdOf, Inserted(4 * h + 1)) == 4 * h
    ensures XorBy(IdOf, Inserted(4 * h + 2)) == 1
    ensures XorBy(IdOf, Inserted(4 * h + 3)) == 4 * h + 3
    ensures XorBy(IdOf, Inserted(4 * h + 4)) == 0
  {
    if h > 0 {
      IdXorQuads(h - 1);
    }
    Quad(h);
    XorOneMore(4 * h, 0, 4 * h);
    XorOneMore(4 * h + 1, 4 * h, 1);
    XorOneMore(4 * h + 2, 1, 4 * h + 3);
    XorOneMore(4 * h + 3, 4 * h + 3, 0);
  }

  lemma IdXorAt(n: nat, m: nat, x: int)
    requires n == m && XorBy(IdOf, Inserted(m)) == x && XorBelow(n) == x
    ensures XorBy(IdOf, Inserted(n)) == XorBelow(n)
  {
  }

  lemma IdXor(n: nat)
    ensures XorBy(IdOf, Inserted(n)) == XorBelow(n)
  {
    var h := n / 4;
    IdXorQuads(h);
    if n % 4 == 0 {
      IdXorAt(n, 4 * h, 0);
    } else if n % 4 == 1 {
      IdXorAt(n, 4 * h + 1, 4 * h);
    } else if n % 4 == 2 {
      IdXorAt(n, 4 * h + 2, 1);
    } else {
      IdXorAt(n, 4 * h + 3, 4 * h + 3);
    }
  }

  // ---- The build loop ---------------------------------------------------------

  /** The map and the three accumulators after `n` iterations. */
  predicate Built(n: nat, m: map<CollidingKeys.Text, Box>, keySum: int, idSum: int, idXor: int) {
    && Enumerates(Inserted(n), m) && |m| == n
    && keySum == Wrap64(SumBy(KeyUnits, Inserted(n)))
    && idSum == SumBy(IdOf, Inserted(n))
    && idXor == XorBy(IdOf, Inserted(n))
  }

  class CollMap {
    var hashMany: map<CollidingKeys.Text, Box>
    var hashManyKeyCharSum: int
    var hashManyIdSum: int
    var hashManyIdXor: int

    /** The hashMany part of buildAll. The published witnesses are those of every walk of the
        map, in whatever order it visits the entries. */
    method BuildHashMany(n: nat)
      requires n <= MAX_INT
      modifies this
      ensures |hashMany| == n && Enumerates(Inserted(n), hashMany)
      ensures forall walk :: Enumerates(walk, hashMany) ==>
                && hashManyKeyCharSum == Wrap64(SumBy(KeyUnits, walk))
                && hashManyIdSum == SumBy(IdOf, walk)
                && hashManyIdXor == XorBy(IdOf, walk)
      ensures forall i :: 0 <= i < n ==> [107] + Decimal(i) in hashMany && hashMany[[107] + Decimal(i)] == Box(i, [118] + Decimal(i))
      ensures 2 * hashManyIdSum == n * (n - 1) && hashManyIdXor == XorBelow(n)
    {
      hashMany := map[];
      var hmKey, hmId, hmXor := 0, 0, 0;
      for i := 0 to n
        invariant Built(i, hashMany, hmKey, hmId, hmXor)
      {
        var k := Key(i);
        var units := CollidingKeys.ComputeCodeUnitSum(k);
        BuiltStep(i, hashMany, hmKey, hmId, hmXor, units);
        hashMany := hashMany[k := Box(i, Name(i))];
        hmKey := Wrap64(hmKey + units);
        hmId := Wrap64(hmId + i);
        hmXor := Xor(hmXor, i);
      }
      hashManyKeyCharSum, hashManyIdSum, hashManyIdXor := hmKey, hmId, hmXor;
      AllBuilt(n, hashMany, hmKey, hmId, hmXor);
    }
  }

  lemma AllBuilt(n: nat, m: map<CollidingKeys.Text, Box>, keySum: int, idSum: int, idXor: int)
    requires n <= MAX_INT && Built(n, m, keySum, idSum, idXor)
    ensures |m| == n && Enumerates(Inserted(n), m)
    ensures forall walk :: Enumerates(walk, m) ==>
              keySum == Wrap64(SumBy(KeyUnits, walk)) && idSum == SumBy(IdOf, walk) && idXor == XorBy(IdOf, walk)
    ensures forall i :: 0 <= i < n ==> [107] + Decimal(i) in m && m[[107] + Decimal(i)] == Box(i, [118] + Decimal(i))
    ensures 2 * idSum == n * (n - 1) && idXor == XorBelow(n)
  {
    IdSum(n);
    IdXor(n);
    BuiltForEveryWalk(n, m, keySum, idSum, idXor);
    HoldsAll(n, m);
  }

  /** The keys are the letter k and a number, the names the letter v and the same number. */
  lemma HoldsAll(n: nat, m: map<CollidingKeys.Text, Box>)
    requires Enumerates(Inserted(n), m)
    ensures forall i :: 0 <= i < n ==> [107] + Decimal(i) in m && m[[107] + Decimal(i)] == Box(i, [118] + Decimal(i))
  {
    forall i | 0 <= i < n ensures [107] + Decimal(i) in m && m[[107] + Decimal(i)] == Box(i, [118] + Decimal(i)) {
      assert Inserted(n)[i] == EntryOf(i) && EntryOf(i) in Inserted(n);
    }
  }

  lemma BuiltForEveryWalk(n: nat, m: map<CollidingKeys.Text, Box>, keySum: int, idSum: int, idXor: int)
    requires Built(n, m, keySum, idSum, idXor)
    ensures forall walk :: Enumerates(walk, m) ==>
              keySum == Wrap64(SumBy(KeyUnits, walk)) && idSum == SumBy(IdOf, walk) && idXor == XorBy(IdOf, walk)
  {
    forall walk | Enumerates(walk, m)
      ensures keySum == Wrap64(SumBy(KeyUnits, walk)) && idSum == SumBy(IdOf, walk) && idXor == XorBy(IdOf, walk)
    {
      WalksAgree(walk, Inserted(n), m);
      OrderIndependent(KeyUnits, walk, Inserted(n));
      OrderIndependent(IdOf, walk, Inserted(n));
    }
  }

  lemma BuiltStep(i: nat, m: map<CollidingKeys.Text, Box>, keySum: int, idSum: int, idXor: int, units: int)
    requires Built(i, m, keySum, idSum, idXor) && i < MAX_INT
    requires units == Wrap64(KeyUnits(EntryOf(i)))
    ensures Built(i + 1, m[Key(i) := EntryOf(i).value], Wrap64(keySum + units), Wrap64(idSum + i), Xor(idXor, i))
  {
    PutFresh(m, i);
    KeySumStep(i, keySum, units);
    IdSumStep(i, idSum);
    IdXorStep(i, idXor);
  }

  lemma KeySumStep(i: nat, keySum: int, units: int)
    requires keySum == Wrap64(SumBy(KeyUnits, Inserted(i))) && units == Wrap64(KeyUnits(EntryOf(i)))
    ensures Wrap64(keySum + units) == Wrap64(SumBy(KeyUnits, Inserted(i + 1)))
  {
    InsertedStep(i);
    CollidingKeys.AddWrapped(keySum, SumBy(KeyUnits, Inserted(i)), units, KeyUnits(EntryOf(i)));
  }

  lemma IdSumStep(i: nat, idSum: int)
    requires idSum == SumBy(IdOf, Inserted(i)) && i < MAX_INT
    ensures Wrap64(idSum + i) == SumBy(IdOf, Inserted(i + 1))
  {
    InsertedStep(i);
    assert SumBy(IdOf, Inserted(i + 1)) == idSum + i;
    SumFits(i + 1);
  }

  lemma IdXorStep(i: nat, idXor: int)
    requires idXor == XorBy(IdOf, Inserted(i))
    ensures Xor(idXor, i) == XorBy(IdOf, Inserted(i + 1))
  {
    InsertedStep(i);
  }

  lemma HalfProductFits(a: nat, b: nat, half: int)
    requires a <= MAX_INT && b <= MAX_INT && 2 * half == a * b
    ensures IsLong(half)
  {
    CollidingKeys.ProductBound(a, b, MAX_INT, MAX_INT);
    CollidingKeys.ProductBound(0, 0, a, b);
  }

  lemma SumFits(n: nat)
    requires n <= MAX_INT
    ensures IsLong(SumBy(IdOf, Inserted(n)))
  {
    IdSum(n);
    if n > 0 {
      HalfProductFits(n, n - 1, SumBy(IdOf, Inserted(n)));
    }
  }

  /** The next key is new, so put() adds an entry and replaces none. */
  lemma PutFresh(m: map<CollidingKeys.Text, Box>, i: nat)
    requires Enumerates(Inserted(i), m)
    ensures Key(i) !in m
    ensures Enumerates(Inserted(i + 1), m[Key(i) := EntryOf(i).value])
  {
    InsertedStep(i);
    var es := Inserted(i);
    forall j: nat | j < i ensures es[j].key != Key(i) {
      if Key(j) == Key(i) {
        KeysDiffer(j, i);
      }
    }
    forall k <- m ensures k != Key(i) {
      assert Entry(k, m[k]) in es;
    }
    var m' := m[Key(i) := EntryOf(i).value];
    var es' := Inserted(i + 1);
    assert es' == es + [EntryOf(i)];
    forall k <- m' ensures Entry(k, m'[k]) in es' {
      if k != Key(i) {
        assert Entry(k, m[k]) in es;
      }
    }
  }
}
