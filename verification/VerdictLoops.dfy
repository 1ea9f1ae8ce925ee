/** The loops of example.cpp that decide whether the entries decoded from a Java map are the
    expected ones. */
module VerdictLoops {
  import opened JavaInt
  import opened Wrappers

  /** A C++ char, as the unsigned value of its byte. */
  type Byte = b: int | 0 <= b < 256

  /** A decoded entry: the key's text, when the key wrapper is non-null, and whether the value
      wrapper is non-null. */
  datatype Entry = Entry(key: Option<seq<Byte>>, value: bool)
  {
    predicate NonNull() { key.Some? && value }
  }

  /** static_cast<std::int32_t>(size) == 3, for a size of any magnitude. */
  predicate SizeCheck(size: nat) { size % TWO_32 == 3 }

  /** static_cast<char>('0' + i): only the low byte survives. */
  function DigitChar(i: nat): (d: Byte)
    ensures i < 10 ==> d == 48 + i
  {
    (48 + i) % 256
  }

  /** The key `c0`, `c1` or `c2` of the map whose keys start with the letter `c`. */
  function KeyOf(c: Byte, i: nat): (key: seq<Byte>)
    ensures i < 10 ==> key == [c, 48 + i]
  {
    [c, DigitChar(i)]
  }

  // ---- HashMap and LinkedHashMap ---------------------------------------------

  /** Some entry before `n` carries the key. */
  predicate Seen(es: seq<Entry>, n: nat, key: seq<Byte>)
    requires n <= |es|
  {
    exists j :: 0 <= j < n && es[j] == Entry(Some(key), true)
  }

  predicate AllExpected(es: seq<Entry>, c: Byte) {
    forall e <- es :: e.NonNull() && (e.key.value == KeyOf(c, 0) || e.key.value == KeyOf(c, 1) || e.key.value == KeyOf(c, 2))
  }

  /** Every entry is expected and every expected key occurs. */
  predicate Accepts(es: seq<Entry>, c: Byte) {
    AllExpected(es, c) && Seen(es, |es|, KeyOf(c, 0)) && Seen(es, |es|, KeyOf(c, 1)) && Seen(es, |es|, KeyOf(c, 2))
  }

  /** The verdict of test_map_probe (letter k) and test_hash_map_probe (letter h). The loop
      accepts exactly the entry lists whose keys, as a set, are the three expected ones. */
  method MapVerdict(es: seq<Entry>, c: Byte) returns (correct: bool)
    ensures correct <==> Accepts(es, c)
  {
    correct := false;
    if es != [] {
      var elementsOk, keysOk := true, true;
      var seen0, seen1, seen2 := false, false, false;
      for i := 0 to |es|
        invariant seen0 <==> Seen(es, i, KeyOf(c, 0))
        invariant seen1 <==> Seen(es, i, KeyOf(c, 1))
        invariant seen2 <==> Seen(es, i, KeyOf(c, 2))
        invariant elementsOk && keysOk <==> AllExpected(es[..i], c)
      {
        assert es[..i + 1] == es[..i] + [es[i]];
        var kv := es[i];
        if !kv.NonNull() {
          elementsOk := false;
          continue;
        }
        var key := kv.key.value;
        if key == KeyOf(c, 0) {
          seen0 := true;
        } else if key == KeyOf(c, 1) {
          seen1 := true;
        } else if key == KeyOf(c, 2) {
          seen2 := true;
        } else {
          keysOk := false;
        }
      }
      assert es[..|es|] == es;
      correct := elementsOk && keysOk && seen0 && seen1 && seen2;
    }
  }

  /** The verdicts of the two tests, whose keys are k0, k1, k2 and h0, h1, h2. */
  method MapProbeVerdict(es: seq<Entry>) returns (correct: bool)
    ensures correct <==> ShowsKeys(es, [107, 48], [107, 49], [107, 50])
  {
    correct := MapVerdict(es, 107);
  }

  method HashMapProbeVerdict(es: seq<Entry>) returns (correct: bool)
    ensures correct <==> ShowsKeys(es, [104, 48], [104, 49], [104, 50])
  {
    correct := MapVerdict(es, 104);
  }

  /** No null key or value, no other key, and each of the three keys. */
  predicate ShowsKeys(es: seq<Entry>, k0: seq<Byte>, k1: seq<Byte>, k2: seq<Byte>) {
    && (forall e <- es :: e.value && e.key in {Some(k0), Some(k1), Some(k2)})
    && Entry(Some(k0), true) in es && Entry(Some(k1), true) in es && Entry(Some(k2), true) in es
  }

  /** The three entries are the expected ones in some order. */
  predicate IsPermutation(es: seq<Entry>, c: Byte) {
    multiset(es) == multiset{Entry(Some(KeyOf(c, 0)), true), Entry(Some(KeyOf(c, 1)), true), Entry(Some(KeyOf(c, 2)), true)}
  }

  function Expected(c: Byte, i: nat): Entry { Entry(Some(KeyOf(c, i)), true) }

  lemma AcceptedIsPermutation(es: seq<Entry>, c: Byte)
    requires |es| == 3 && Accepts(es, c)
    ensures IsPermutation(es, c)
  {
    assert KeyOf(c, 0)[1] == 48 && KeyOf(c, 1)[1] == 49 && KeyOf(c, 2)[1] == 50;
    assert Expected(c, 0) in es && Expected(c, 1) in es && Expected(c, 2) in es;
    ThreeDifferent(es, Expected(c, 0), Expected(c, 1), Expected(c, 2));
  }

  lemma ThreeDifferent(es: seq<Entry>, x: Entry, y: Entry, z: Entry)
    requires |es| == 3 && x in es && y in es && z in es && x != y && y != z && x != z
    ensures multiset(es) == multiset{x, y, z}
  {
    var all := multiset(es);
    var three := multiset{x, y, z};
    assert x in all && y in all && z in all;
    assert three <= all;
    assert |all - three| == 0;
    assert all == three + (all - three);
  }

  lemma PermutationIsAccepted(es: seq<Entry>, c: Byte)
    requires IsPermutation(es, c)
    ensures Accepts(es, c)
  {
    assert Expected(c, 0) in multiset(es) && Expected(c, 1) in multiset(es) && Expected(c, 2) in multiset(es);
    assert Expected(c, 0) in es && Expected(c, 1) in es && Expected(c, 2) in es;
    forall e <- es ensures e == Expected(c, 0) || e == Expected(c, 1) || e == Expected(c, 2) {
      assert e in multiset(es);
    }
  }

  lemma PermutationHasThree(es: seq<Entry>, c: Byte)
    requires IsPermutation(es, c)
    ensures |es| == 3
  {
    assert |es| == |multiset(es)|;
  }

  /** Both checks together accept exactly the permutations of the three entries, except that the
      size is compared after truncation to 32 bits: a list they accept wrongly has at least
      2^32 + 3 entries. */
  lemma BothChecksIff(es: seq<Entry>, c: Byte)
    ensures SizeCheck(|es|) && Accepts(es, c) && |es| < TWO_32 + 3 <==> IsPermutation(es, c)
  {
    if IsPermutation(es, c) {
      PermutationHasThree(es, c);
      PermutationIsAccepted(es, c);
    }
    if |es| == 3 && Accepts(es, c) {
      AcceptedIsPermutation(es, c);
    }
  }

  /** A list of `n` entries that holds the three expected ones, the last of them over and over. */
  function Padded(n: nat, c: Byte): (es: seq<Entry>)
    ensures |es| == n
  {
    seq(n, j => Expected(c, if j == 0 then 0 else if j == 1 then 1 else 2))
  }

  /** Every other size that truncates to 3 lets a list through that is no permutation. */
  lemma TruncatedSizeIsFooled(n: nat, c: Byte)
    requires n != 3 && n % TWO_32 == 3
    ensures var es := Padded(n, c);
      |es| == n && SizeCheck(n) && Accepts(es, c) && !IsPermutation(es, c)
  {
    var es := Padded(n, c);
    assert es[0] == Expected(c, 0) && es[1] == Expected(c, 1) && es[2] == Expected(c, 2);
    assert Seen(es, n, KeyOf(c, 0)) && Seen(es, n, KeyOf(c, 1)) && Seen(es, n, KeyOf(c, 2));
    assert AllExpected(es, c);
    if IsPermutation(es, c) {
      PermutationHasThree(es, c);
    }
  }

  /** The two checks are together right about all lists of a size exactly when the size is 3 or
      does not truncate to 3. */
  lemma RightSizes(n: nat, c: Byte)
    ensures (forall es: seq<Entry> :: |es| == n ==> (SizeCheck(n) && Accepts(es, c) <==> IsPermutation(es, c)))
       <==> n == 3 || n % TWO_32 != 3
  {
    if n == 3 || n % TWO_32 != 3 {
      forall es: seq<Entry> | |es| == n ensures SizeCheck(n) && Accepts(es, c) <==> IsPermutation(es, c) {
        if IsPermutation(es, c) {
          PermutationHasThree(es, c);
        }
        BothChecksIff(es, c);
        SmallTruncation(n);
      }
    } else {
      TruncatedSizeIsFooled(n, c);
    }
  }

  lemma SmallTruncation(n: nat)
    ensures n < TWO_32 + 3 ==> (n % TWO_32 == 3 <==> n == 3)
  {
  }

  /** A faithful walk of a Java map never repeats a key, and on such lists the checks are right at
      every size: a wrong verdict takes a walker that repeats keys. */
  lemma DistinctKeysSuffice(es: seq<Entry>, c: Byte)
    requires forall i, j :: 0 <= i < j < |es| ==> es[i].key != es[j].key
    ensures SizeCheck(|es|) && Accepts(es, c) <==> IsPermutation(es, c)
    ensures Accepts(es, c) ==> |es| == 3
  {
    if Accepts(es, c) {
      var three := {Expected(c, 0), Expected(c, 1), Expected(c, 2)};
      DistinctEntries(es);
      assert KeyOf(c, 0)[1] == 48 && KeyOf(c, 1)[1] == 49 && KeyOf(c, 2)[1] == 50;
      assert Expected(c, 0) in es && Expected(c, 1) in es && Expected(c, 2) in es;
      assert (set e | e in es) == three;
    }
    BothChecksIff(es, c);
  }

  lemma {:induction false} DistinctEntries(es: seq<Entry>)
    requires forall i, j :: 0 <= i < j < |es| ==> es[i].key != es[j].key
    ensures |set e | e in es| == |es|
  {
    if es != [] {
      var last := |es| - 1;
      DistinctEntries(es[..last]);
      assert es == es[..last] + [es[last]];
      assert es[last] !in es[..last];
      assert (set e | e in es) == (set e | e in es[..last]) + {es[last]};
    }
  }

  // ---- TreeMap ---------------------------------------------------------------

  const LETTER_T: Byte := 116

  /** The order check of entry `i`. */
  predicate InOrder(key: seq<Byte>, i: nat) {
    |key| == 2 && key[0] == LETTER_T && key[1] == DigitChar(i)
  }

  /** The verdict of test_tree_map_probe accepts exactly one list: t0, t1, t2 in this order, all
      values present. The wrapping of the expected digit lets nothing longer through, because
      the fourth entry would have to be `t3`, which is no expected key; so here the loop alone
      implies the size. */
  method TreeMapVerdict(es: seq<Entry>) returns (correct: bool)
    ensures correct <==>
      es == [Entry(Some([116, 48]), true), Entry(Some([116, 49]), true), Entry(Some([116, 50]), true)]
  {
    correct := false;
    if es != [] {
      var elementsOk, keysOk := true, true;
      var seen0, seen1, seen2 := false, false, false;
      for i := 0 to |es|
        invariant elementsOk && keysOk ==> i <= 3 && forall j :: 0 <= j < i ==> es[j] == Entry(Some(KeyOf(LETTER_T, j)), true)
        invariant !(elementsOk && keysOk) ==> exists j :: 0 <= j < i && (j >= 3 || es[j] != Entry(Some(KeyOf(LETTER_T, j)), true))
        invariant elementsOk && keysOk ==> (seen0 <==> i > 0) && (seen1 <==> i > 1) && (seen2 <==> i > 2)
      {
        var kv := es[i];
        if !kv.NonNull() {
          elementsOk := false;
          continue;
        }
        var key := kv.key.value;
        if key == KeyOf(LETTER_T, 0) {
          seen0 := true;
        } else if key == KeyOf(LETTER_T, 1) {
          seen1 := true;
        } else if key == KeyOf(LETTER_T, 2) {
          seen2 := true;
        } else {
          keysOk := false;
        }
        if !InOrder(key, i) {
          keysOk := false;
        } else {
          assert key == KeyOf(LETTER_T, i);
        }
      }
      correct := elementsOk && keysOk && seen0 && seen1 && seen2;
    }
  }
}
