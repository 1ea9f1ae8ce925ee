/** The generator of equal-hash strings used by CollSet and CollMap to force a bucket to
    treeify, and the code-unit checksum over its output. */
module CollidingKeys {
  import opened JavaInt

  /** A UTF-16 code unit, and the text of a java.lang.String as a sequence of them. */
  type CodeUnit = u: int | 0 <= u < 0x1_0000
  type Text = seq<CodeUnit>

  datatype Result<T> = Success(value: T) | NegativeArraySize

  // ---- String.hashCode ------------------------------------------------------

  /** Continues String.hashCode from `h` over the code units of `s`, wrapping at every step. */
  function HashFrom(h: int, s: Text): int
    decreases |s|
  {
    if s == [] then h else HashFrom(Wrap32(31 * h + s[0]), s[1..])
  }

  function HashCode(s: Text): int { HashFrom(0, s) }

  function Power(b: nat, n: nat): nat { if n == 0 then 1 else b * Power(b, n - 1) }

  /** s[0] * 31^(n-1) + s[1] * 31^(n-2) + ... + s[n-1], as a mathematical integer. */
  function Polynomial(s: Text): nat {
    if s == [] then 0 else s[0] * Power(31, |s| - 1) + Polynomial(s[1..])
  }

  lemma Distribute(b: int, h: int, c: int, p: int)
    ensures p * (b * h + c) == h * (b * p) + c * p
  {
  }

  lemma HornerStep(b: int, h: int, c: int, p: int, q: int, rest: int)
    requires q == b * p
    ensures Wrap32(Wrap32(b * h + c) * p + rest) == Wrap32(h * q + (c * p + rest))
  {
    WrapFactor(b * h + c, p, rest);
    Distribute(b, h, c, p);
  }

  lemma WrapFactor(x: int, p: int, rest: int)
    ensures Wrap32(Wrap32(x) * p + rest) == Wrap32(p * x + rest)
  {
    Wrap32Step(p, x, rest);
    Commute(Wrap32(x), p);
  }

  lemma Commute(x: int, p: int)
    ensures x * p == p * x
  {
  }

  lemma {:induction false} HashFromIs(h: int, s: Text)
    requires IsInt(h)
    ensures HashFrom(h, s) == Wrap32(h * Power(31, |s|) + Polynomial(s))
    decreases |s|
  {
    if s == [] {
      assert HashFrom(h, s) == h == Wrap32(h);
    } else {
      HashFromIs(Wrap32(31 * h + s[0]), s[1..]);
      HornerStep(31, h, s[0], Power(31, |s| - 1), Power(31, |s|), Polynomial(s[1..]));
    }
  }

  /** String.hashCode, computed step by step with wrapping, is the wrapped value of the documented
      polynomial. */
  lemma HashCodeIs(s: Text)
    ensures HashCode(s) == Wrap32(Polynomial(s))
  {
    HashFromIs(0, s);
  }

  lemma {:induction false} HashFromSplit(h: int, a: Text, b: Text)
    ensures HashFrom(h, a + b) == HashFrom(HashFrom(h, a), b)
    decreases |a|
  {
    if a == [] {
      assert a + b == b;
    } else {
      assert (a + b)[1..] == a[1..] + b;
      HashFromSplit(Wrap32(31 * h + a[0]), a[1..], b);
    }
  }

  /** The blocks Aa and BB. */
  const AA: Text := [65, 97]
  const BB: Text := [66, 66]

  function Block(bit: nat): Text { if bit == 0 then AA else BB }

  lemma HashOfTwo(h: int, c: CodeUnit, d: CodeUnit)
    ensures HashFrom(h, [c, d]) == Wrap32(961 * h + 31 * c + d)
  {
    var x := 31 * h + c;
    assert [c, d][1..] == [d] && [d][1..] == [];
    assert HashFrom(h, [c, d]) == HashFrom(Wrap32(x), [d]) == Wrap32(31 * Wrap32(x) + d);
    Wrap32Step(31, x, d);
  }

  /** The two blocks are interchangeable at every point of a hash computation. */
  lemma BlocksCollide(h: int, bit: nat)
    ensures HashFrom(h, Block(bit)) == Wrap32(961 * h + 2112)
  {
    if bit == 0 {
      HashOfTwo(h, 65, 97);
    } else {
      HashOfTwo(h, 66, 66);
    }
  }

  // ---- The keys -------------------------------------------------------------

  /** The key of index `i`: one block per bit of `i`, lowest bit first, `k` blocks in all. */
  function Key(i: nat, k: nat): (s: Text)
    ensures |s| == 2 * k
  {
    if k == 0 then [] else Block(i % 2) + Key(i / 2, k - 1)
  }

  /** Reads a key back: the inverse of Key. */
  function Index(s: Text): nat {
    if |s| < 2 then 0 else (if s[..2] == BB then 1 else 0) + 2 * Index(s[2..])
  }

  /** A text of `k` blocks. */
  predicate IsBlocks(s: Text, k: nat) {
    |s| == 2 * k && (k > 0 ==> (s[..2] == AA || s[..2] == BB) && IsBlocks(s[2..], k - 1))
  }

  lemma {:induction false} KeyRoundTrip(i: nat, k: nat)
    requires i < Pow2(k)
    ensures Index(Key(i, k)) == i && IsBlocks(Key(i, k), k)
  {
    if k > 0 {
      var s := Key(i, k);
      assert s[..2] == Block(i % 2) && s[2..] == Key(i / 2, k - 1);
      KeyRoundTrip(i / 2, k - 1);
    }
  }

  /** Every text of `k` blocks is a key, of an index below 2^k: the generator misses none. */
  lemma {:induction false} IndexRoundTrip(s: Text, k: nat)
    requires IsBlocks(s, k)
    ensures Index(s) < Pow2(k) && Key(Index(s), k) == s
  {
    if k > 0 {
      IndexRoundTrip(s[2..], k - 1);
      BlockRoundTrip(s, k);
    }
  }

  lemma BlockRoundTrip(s: Text, k: nat)
    requires IsBlocks(s, k) && k > 0 && Index(s[2..]) < Pow2(k - 1) && Key(Index(s[2..]), k - 1) == s[2..]
    ensures Index(s) < Pow2(k) && Key(Index(s), k) == s
  {
    var bit := if s[..2] == BB then 1 else 0;
    FirstBlock(s, k, bit);
    PrependBlock(s, s[2..], bit, Index(s[2..]), Index(s), k);
  }

  lemma PrependBlock(s: Text, rest: Text, bit: nat, i: nat, x: nat, k: nat)
    requires k > 0 && bit < 2 && s == Block(bit) + rest && Key(i, k - 1) == rest && i < Pow2(k - 1) && x == bit + 2 * i
    ensures Key(x, k) == s && x < Pow2(k)
  {
    LowBit(bit, i);
    KeyUnfold(x, bit, i, k);
    BelowTwice(bit, i, k);
  }

  lemma FirstBlock(s: Text, k: nat, bit: nat)
    requires IsBlocks(s, k) && k > 0 && bit == if s[..2] == BB then 1 else 0
    ensures s == Block(bit) + s[2..] && IsBlocks(s[2..], k - 1) && Index(s) == bit + 2 * Index(s[2..])
  {
  }

  lemma LowBit(bit: nat, i: nat)
    requires bit < 2
    ensures (bit + 2 * i) % 2 == bit && (bit + 2 * i) / 2 == i
  {
  }

  lemma KeyUnfold(x: nat, bit: nat, i: nat, k: nat)
    requires x % 2 == bit && x / 2 == i && k > 0
    ensures Key(x, k) == Block(bit) + Key(i, k - 1)
  {
  }

  lemma BelowTwice(bit: nat, i: nat, k: nat)
    requires bit < 2 && k > 0 && i < Pow2(k - 1)
    ensures bit + 2 * i < Pow2(k)
  {
  }

  /** 1 + b + ... + b^(k-1). */
  function SumOfPowers(b: nat, k: nat): nat { if k == 0 then 0 else SumOfPowers(b, k - 1) + Power(b, k - 1) }

  /** The hash after `k` more blocks of either kind. */
  function AfterBlocks(h: int, k: nat): int
    decreases k
  {
    if k == 0 then h else AfterBlocks(Wrap32(961 * h + 2112), k - 1)
  }

  lemma {:induction false} HashFromKey(h: int, i: nat, k: nat)
    ensures HashFrom(h, Key(i, k)) == AfterBlocks(h, k)
    decreases k
  {
    if k > 0 {
      HashFromSplit(h, Block(i % 2), Key(i / 2, k - 1));
      BlocksCollide(h, i % 2);
      HashFromKey(Wrap32(961 * h + 2112), i / 2, k - 1);
    }
  }

  lemma KeyHash(h: int, i: nat, j: nat, k: nat)
    ensures HashFrom(h, Key(i, k)) == HashFrom(h, Key(j, k))
  {
    HashFromKey(h, i, k);
    HashFromKey(h, j, k);
  }

  /** The closed form of the same. */
  function BlocksHash(h: int, k: nat): int { Wrap32(h * Power(961, k) + 2112 * SumOfPowers(961, k)) }

  lemma OneBlockMore(h: int, k: nat)
    requires k > 0
    ensures BlocksHash(Wrap32(961 * h + 2112), k - 1) == BlocksHash(h, k)
  {
    HornerStep(961, h, 2112, Power(961, k - 1), Power(961, k), 2112 * SumOfPowers(961, k - 1));
  }

  lemma {:induction false} AfterBlocksIs(h: int, k: nat)
    requires IsInt(h)
    ensures AfterBlocks(h, k) == BlocksHash(h, k)
    decreases k
  {
    if k > 0 {
      AfterBlocksIs(Wrap32(961 * h + 2112), k - 1);
      OneBlockMore(h, k);
    }
  }

  /** The common hash code of all keys of `k` blocks. */
  lemma KeyHashCode(i: nat, k: nat)
    ensures HashCode(Key(i, k)) == Wrap32(2112 * SumOfPowers(961, k))
  {
    HashFromKey(0, i, k);
    AfterBlocksIs(0, k);
  }

  // ---- How many blocks ------------------------------------------------------

  /** The number of blocks the shift loop arrives at when it stops. */
  predicate IsBlockCount(n: int, k: nat) {
    k >= 1 && Pow2(k) >= n && (k == 1 || Pow2(k - 1) < n)
  }

  function BlocksFrom(n: int, k: nat): (r: nat)
    requires k >= 1 && (k == 1 || Pow2(k - 1) < n)
    ensures IsBlockCount(n, r)
    decreases if n > Pow2(k) then n - Pow2(k) else 0
  {
    if Pow2(k) >= n then k else BlocksFrom(n, k + 1)
  }

  function Blocks(n: int): (r: nat)
    ensures IsBlockCount(n, r)
  {
    BlocksFrom(n, 1)
  }

  lemma BlockCountUnique(n: int, j: nat, k: nat)
    requires IsBlockCount(n, j) && IsBlockCount(n, k)
    ensures j == k
  {
    if j < k {
      Pow2Monotone(j, k - 1);
    } else if k < j {
      Pow2Monotone(k, j - 1);
    }
  }

  /** The loop that counts blocks stops for exactly the requests up to 2^30: above that the
      shifted one, which wraps to a negative number and then starts over, never reaches `n`. */
  lemma ShiftLoopStopsIff(n: int)
    ensures (exists k: nat :: k >= 1 && ShiftOne(k) >= n) <==> n <= 0x4000_0000
  {
    Pow2At30();
    assert ShiftOne(30) == 0x4000_0000;
    if k: nat :| k >= 1 && ShiftOne(k) >= n {
      ShiftOneWraps(k, k % 32);
    }
  }

  lemma LargePower(k: nat)
    ensures k >= 30 ==> Pow2(k) >= 0x4000_0000
  {
    Pow2At30();
    if k >= 30 {
      Pow2Monotone(30, k);
    }
  }

  method CountBlocks(n: int) returns (blockCount: nat)
    requires IsInt(n) && n <= 0x4000_0000
    ensures blockCount == Blocks(n) && 1 <= blockCount <= 30
  {
    blockCount := 1;
    while ShiftOne(blockCount) < n
      invariant 1 <= blockCount <= 30 && (blockCount == 1 || Pow2(blockCount - 1) < n)
      decreases 31 - blockCount
    {
      OneMoreBlock(n, blockCount);
      blockCount := blockCount + 1;
    }
    EnoughBlocks(n, blockCount);
  }

  lemma OneMoreBlock(n: int, k: nat)
    requires n <= 0x4000_0000 && 1 <= k <= 30 && ShiftOne(k) < n
    ensures k < 30 && Pow2(k) < n
  {
    ShiftOneSmall(k);
    LargePower(k);
  }

  lemma EnoughBlocks(n: int, k: nat)
    requires 1 <= k <= 30 && ShiftOne(k) >= n && (k == 1 || Pow2(k - 1) < n)
    ensures k == Blocks(n)
  {
    ShiftOneSmall(k);
    BlockCountUnique(n, k, Blocks(n));
  }

  function Keys(n: nat): (keys: seq<Text>)
    ensures |keys| == n
  {
    seq(n, i requires 0 <= i < n => Key(i, Blocks(n)))
  }

  /** `sb` holds the first `b` blocks of the key. */
  predicate FirstBlocks(sb: Text, i: nat, b: nat, k: nat) {
    b <= k && sb + Key(ShiftRight(i, b), k - b) == Key(i, k)
  }

  lemma NextBlock(sb: Text, i: nat, b: nat, k: nat)
    requires FirstBlocks(sb, i, b, k) && b < k
    ensures FirstBlocks(sb + Block(ShiftRight(i, b) % 2), i, b + 1, k)
  {
    var rest, tail := ShiftRight(i, b), Key(ShiftRight(i, b) / 2, k - b - 1);
    ShiftRightOnce(i, b);
    assert Key(rest, k - b) == Block(rest % 2) + tail;
    assert sb + (Block(rest % 2) + tail) == (sb + Block(rest % 2)) + tail;
  }

  lemma AllBlocks(sb: Text, i: nat, k: nat)
    requires FirstBlocks(sb, i, k, k)
    ensures sb == Key(i, k)
  {
    assert sb + [] == sb;
  }

  /** The inner loop: one block per bit, lowest bit first. */
  method BuildKey(i: nat, blockCount: nat) returns (sb: Text)
    ensures sb == Key(i, blockCount)
  {
    sb := [];
    assert FirstBlocks(sb, i, 0, blockCount);
    for b := 0 to blockCount
      invariant FirstBlocks(sb, i, b, blockCount)
    {
      NextBlock(sb, i, b, blockCount);
      sb := sb + Block(ShiftRight(i, b) % 2);
    }
    AllBlocks(sb, i, blockCount);
  }

  /** collidingKeys, for every request on which its first loop stops. */
  method Generate(n: int) returns (r: Result<array<Text>>)
    requires IsInt(n) && n <= 0x4000_0000
    ensures r.Success? <==> n >= 0
    ensures r.Success? ==> fresh(r.value) && r.value[..] == Keys(n)
  {
    var blockCount := CountBlocks(n);
    if n < 0 {
      return NegativeArraySize;
    }
    var out := new Text[n];
    for i := 0 to n
      invariant forall j :: 0 <= j < i ==> out[j] == Key(j, blockCount)
    {
      out[i] := BuildKey(i, blockCount);
    }
    assert out[..] == Keys(n);
    r := Success(out);
  }

  /** What the keys are for: one common hash code, one common length, pairwise different, so a
      hash set that receives them holds exactly `n` elements, all in one bucket. */
  lemma KeysCollideAndDiffer(n: nat)
    ensures forall i, j :: 0 <= i < n && 0 <= j < n ==> HashCode(Keys(n)[i]) == HashCode(Keys(n)[j])
    ensures forall i :: 0 <= i < n ==> HashCode(Keys(n)[i]) == Wrap32(2112 * SumOfPowers(961, Blocks(n)))
    ensures forall i :: 0 <= i < n ==> |Keys(n)[i]| == 2 * Blocks(n)
    ensures forall i, j :: 0 <= i < j < n ==> Keys(n)[i] != Keys(n)[j]
    ensures |set key | key in Keys(n)| == n
  {
    var keys, k := Keys(n), Blocks(n);
    forall i, j | 0 <= i < n && 0 <= j < n
      ensures HashCode(keys[i]) == HashCode(keys[j])
      ensures i != j ==> keys[i] != keys[j]
    {
      KeyHash(0, i, j, k);
      KeyRoundTrip(i, k);
      KeyRoundTrip(j, k);
    }
    forall i | 0 <= i < n ensures HashCode(keys[i]) == Wrap32(2112 * SumOfPowers(961, k)) {
      KeyHashCode(i, k);
    }
    DistinctCount(keys);
  }

  lemma {:induction false} DistinctCount(s: seq<Text>)
    requires forall i, j :: 0 <= i < j < |s| ==> s[i] != s[j]
    ensures |set x | x in s| == |s|
  {
    if s != [] {
      var last := |s| - 1;
      DistinctCount(s[..last]);
      assert (set x | x in s) == (set x | x in s[..last]) + {s[last]};
    }
  }

  // ---- The code-unit checksum -----------------------------------------------

  /** Sum of the UTF-16 code units, as a mathematical integer. */
  function CodeUnitSum(s: Text): nat {
    if s == [] then 0 else s[0] + CodeUnitSum(s[1..])
  }

  lemma {:induction false} CodeUnitSumSplit(a: Text, b: Text)
    ensures CodeUnitSum(a + b) == CodeUnitSum(a) + CodeUnitSum(b)
  {
    if a == [] {
      assert a + b == b;
    } else {
      assert (a + b)[1..] == a[1..] + b;
      CodeUnitSumSplit(a[1..], b);
    }
  }

  /** codeUnitSum, in wrapping long arithmetic. */
  method ComputeCodeUnitSum(s: Text) returns (sum: int)
    ensures sum == Wrap64(CodeUnitSum(s))
  {
    sum := 0;
    for i := 0 to |s|
      invariant sum == Wrap64(CodeUnitSum(s[..i]))
    {
      assert s[..i + 1] == s[..i] + [s[i]];
      CodeUnitSumSplit(s[..i], [s[i]]);
      assert CodeUnitSum([s[i]]) == s[i];
      Wrap64Add(CodeUnitSum(s[..i]), s[i]);
      sum := Wrap64(sum + s[i]);
    }
    assert s[..|s|] == s;
  }

  function PopCount(i: nat): nat {
    if i == 0 then 0 else i % 2 + PopCount(i / 2)
  }

  lemma {:induction false} KeySum(i: nat, k: nat)
    requires i < Pow2(k)
    ensures CodeUnitSum(Key(i, k)) == 162 * k - 30 * PopCount(i)
  {
    if k > 0 {
      KeySum(i / 2, k - 1);
      CodeUnitSumSplit(Block(i % 2), Key(i / 2, k - 1));
      assert CodeUnitSum(AA) == 162;
      assert CodeUnitSum(BB) == 132;
    }
  }

  /** Sum of the bit counts of all numbers below `n`. */
  function PopSum(n: nat): nat {
    if n == 0 then 0 else PopSum(n - 1) + PopCount(n - 1)
  }

  function TotalSum(keys: seq<Text>): nat {
    if keys == [] then 0 else TotalSum(keys[..|keys| - 1]) + CodeUnitSum(keys[|keys| - 1])
  }

  lemma {:induction false} TotalIs(n: nat, k: nat, keys: seq<Text>)
    requires n <= Pow2(k) && |keys| == n && forall i :: 0 <= i < n ==> keys[i] == Key(i, k)
    ensures TotalSum(keys) == 162 * (k * n) - 30 * PopSum(n)
  {
    if n > 0 {
      var front := keys[..n - 1];
      TotalIs(n - 1, k, front);
      KeySum(n - 1, k);
      AddKey(TotalSum(front), CodeUnitSum(keys[n - 1]), PopSum(n - 1), PopCount(n - 1), k, n);
    }
  }

  lemma AddKey(total: int, units: int, pops: int, pop: int, k: nat, n: nat)
    requires n > 0 && total == 162 * (k * (n - 1)) - 30 * pops && units == 162 * k - 30 * pop
    ensures total + units == 162 * (k * n) - 30 * (pops + pop)
  {
    OneMore(k, n);
  }

  lemma OneMore(k: nat, n: nat)
    requires n > 0
    ensures k * n == k * (n - 1) + k
  {
  }

  lemma PopCountPair(i: nat)
    ensures PopCount(2 * i) == PopCount(i) && PopCount(2 * i + 1) == PopCount(i) + 1
  {
  }

  lemma PopSumTwo(n: nat)
    ensures PopSum(n + 2) == PopSum(n) + PopCount(n) + PopCount(n + 1)
  {
    assert PopSum(n + 2) == PopSum(n + 1) + PopCount(n + 1);
  }

  /** The two numbers 2 m and 2 m + 1 together have twice the bits of m, and one more. */
  lemma PopSumNext(m: nat)
    ensures PopSum(2 * m + 2) == PopSum(2 * m) + 2 * PopCount(m) + 1
  {
    PopSumTwo(2 * m);
    PopCountPair(m);
  }

  lemma {:induction false} PopSumDouble(m: nat)
    ensures PopSum(2 * m) == 2 * PopSum(m) + m
  {
    if m > 0 {
      PopSumDouble(m - 1);
      PopSumNext(m - 1);
      assert 2 * (m - 1) + 2 == 2 * m;
    }
  }

  lemma {:induction false} PopSumPower(k: nat)
    requires k >= 1
    ensures 2 * PopSum(Pow2(k)) == k * Pow2(k)
  {
    var p := Pow2(k - 1);
    PopSumDouble(p);
    if k == 1 {
      assert PopSum(1) == 0;
    } else {
      PopSumPower(k - 1);
      assert 2 * PopSum(p) == (k - 1) * p;
    }
    Doubling(k, p, PopSum(p), PopSum(2 * p));
  }

  lemma Doubling(k: nat, p: int, half: int, whole: int)
    requires k >= 1 && 2 * half == (k - 1) * p && whole == 2 * half + p
    ensures 2 * whole == k * (2 * p)
  {
    assert (k - 1) * p + p == k * p;
  }

  lemma PowerBlocks(k: nat)
    requires k >= 1
    ensures Blocks(Pow2(k)) == k
  {
    BlockCountUnique(Pow2(k), k, Blocks(Pow2(k)));
  }

  /** The checksum of the colliding keys in closed form. */
  lemma ChecksumClosedForm(n: nat)
    ensures TotalSum(Keys(n)) == 162 * (Blocks(n) * n) - 30 * PopSum(n)
  {
    TotalIs(n, Blocks(n), Keys(n));
  }

  /** The checksum never overflows a long. */
  lemma ChecksumFits(n: nat)
    requires n <= 0x4000_0000
    ensures IsLong(TotalSum(Keys(n)))
  {
    ChecksumClosedForm(n);
    var k := Blocks(n);
    Pow2At30();
    if k > 30 {
      Pow2Monotone(30, k - 1);
    }
    ProductBound(k, n, 30, 0x4000_0000);
  }

  lemma ProductBound(a: nat, b: nat, c: nat, d: nat)
    requires a <= c && b <= d
    ensures a * b <= c * d
  {
    assert a * b <= c * b <= c * d;
  }

  lemma ChecksumOfPower(k: nat)
    requires k >= 1
    ensures TotalSum(Keys(Pow2(k))) == 147 * (k * Pow2(k))
  {
    ChecksumClosedForm(Pow2(k));
    PowerBlocks(k);
    PopSumPower(k);
  }

  /** The accumulation loop of buildAll, in wrapping long arithmetic. */
  method FillSet(coll: array<Text>) returns (elements: set<Text>, charSum: int)
    ensures elements == set key | key in coll[..]
    ensures charSum == Wrap64(TotalSum(coll[..]))
  {
    elements, charSum := {}, 0;
    for i := 0 to coll.Length
      invariant elements == set key | key in coll[..i]
      invariant charSum == Wrap64(TotalSum(coll[..i]))
    {
      elements := elements + {coll[i]};
      var units := ComputeCodeUnitSum(coll[i]);
      assert coll[..i + 1][..i] == coll[..i];
      AddWrapped(charSum, TotalSum(coll[..i]), units, CodeUnitSum(coll[i]));
      charSum := Wrap64(charSum + units);
    }
    assert coll[..coll.Length] == coll[..];
  }

  /** The part of buildAll that fills the treeified set and publishes its checksum. */
  method BuildTreeified(n: int) returns (hashTreeified: set<Text>, charSum: int)
    requires 0 <= n <= 0x4000_0000
    ensures hashTreeified == (set key | key in Keys(n)) && |hashTreeified| == n
    ensures charSum == 162 * (Blocks(n) * n) - 30 * PopSum(n)
  {
    var r := Generate(n);
    hashTreeified, charSum := FillSet(r.value);
    ChecksumClosedForm(n);
    ChecksumFits(n);
    KeysCollideAndDiffer(n);
  }

  lemma AddWrapped(a: int, x: int, b: int, y: int)
    requires a == Wrap64(x) && b == Wrap64(y)
    ensures Wrap64(a + b) == Wrap64(x + y)
  {
    Wrap64Add(x, Wrap64(y));
    Wrap64Add(y, x);
  }
}
