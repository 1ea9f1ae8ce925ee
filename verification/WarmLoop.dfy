/** The JIT-warming loops of DeoptProbe and their XOR accumulator. */
module WarmLoop {
  import opened JavaInt

  const SEED: int := 1000

  /** The result of the hot method in iteration `i`. */
  function Result(i: nat): int { SEED + i % 256 }

  /** XOR of the results of the iterations from `lo` up to, not including, `hi`. */
  function XorRange(lo: nat, hi: nat): int
    requires lo <= hi
    decreases hi - lo
  {
    if lo == hi then 0 else Xor(XorRange(lo, hi - 1), Result(hi - 1))
  }

  lemma RangeStep(lo: nat, hi: nat, acc: int, x: int, acc': int)
    requires lo <= hi && XorRange(lo, hi) == acc && Result(hi) == x && IsXor(acc, x, acc')
    ensures XorRange(lo, hi + 1) == acc'
  {
  }

  lemma Mod256(x: nat, k: nat, m: nat)
    requires x == 256 * k + m && m < 256
    ensures x % 256 == m
  {
  }

  /** SEED is a multiple of 4 and the argument mask preserves the low two bits. */
  lemma ResultInQuad(q: nat, j: nat)
    requires j < 4
    ensures Result(4 * q + j) == 4 * (250 + q % 64) + j
  {
    Mod256(4 * q + j, q / 64, 4 * (q % 64) + j);
  }

  /** The accumulator over the first `j` iterations of a group, whose low bits are 0, 1, 2, 3. */
  function InGroupXor(q: nat, j: nat): int {
    var h := 250 + q % 64;
    if j == 1 then 4 * h else if j == 2 then 1 else if j == 3 then 4 * h + 3 else 0
  }

  lemma GroupXor(q: nat, j: nat)
    requires j < 4
    ensures IsXor(InGroupXor(q, j), 4 * (250 + q % 64) + j, InGroupXor(q, j + 1))
  {
    Quad(250 + q % 64);
  }

  lemma InGroup(lo: nat, q: nat, j: nat)
    requires lo <= 4 * q && j < 4 && XorRange(lo, 4 * q + j) == InGroupXor(q, j)
    ensures XorRange(lo, 4 * q + (j + 1)) == InGroupXor(q, j + 1)
  {
    ResultInQuad(q, j);
    GroupXor(q, j);
    RangeStep(lo, 4 * q + j, InGroupXor(q, j), Result(4 * q + j), InGroupXor(q, j + 1));
  }

  /** One group of four iterations, begun with a clear accumulator. */
  lemma {:induction false} Group(lo: nat, q: nat, j: nat)
    requires lo <= 4 * q && j <= 4 && XorRange(lo, 4 * q) == 0
    ensures XorRange(lo, 4 * q + j) == InGroupXor(q, j)
  {
    if j > 0 {
      Group(lo, q, j - 1);
      InGroup(lo, q, j - 1);
    }
  }

  lemma {:induction false} GroupsCancel(q: nat)
    ensures XorRange(0, 4 * q) == 0
  {
    if q > 0 {
      GroupsCancel(q - 1);
      Group(0, q - 1, 4);
      assert 4 * (q - 1) + 4 == 4 * q;
    }
  }

  /** The value of the accumulator after `n` iterations whose last result was `last`. */
  function Closed(n: nat, last: int): int {
    if n % 4 == 0 then 0 else if n % 4 == 1 then last else if n % 4 == 2 then 1 else last + 1
  }

  /** The accumulator depends only on the last incomplete group of four iterations. */
  lemma Accumulator(n: nat)
    ensures n > 0 ==> XorRange(0, n) == Closed(n, Result(n - 1))
    ensures XorRange(0, n) == XorRange(n - n % 4, n)
  {
    var q, j := n / 4, n % 4;
    assert n == 4 * q + j;
    GroupsCancel(q);
    AfterGroups(n, q, j);
    if n > 0 {
      ClosedInGroup(n, q, j);
    }
  }

  lemma AfterGroups(n: nat, q: nat, j: nat)
    requires n == 4 * q + j && j < 4 && XorRange(0, 4 * q) == 0
    ensures XorRange(0, n) == InGroupXor(q, j) && XorRange(4 * q, n) == InGroupXor(q, j)
  {
    Group(0, q, j);
    Group(4 * q, q, j);
  }

  lemma ClosedInGroup(n: nat, q: nat, j: nat)
    requires n == 4 * q + j && j < 4 && n > 0
    ensures InGroupXor(q, j) == Closed(n, Result(n - 1))
  {
    if j > 0 {
      ResultInQuad(q, j - 1);
    }
  }

  class DeoptProbe {
    var lastSelectedResult: int
    var selectedXor: int
    var selectedCallsMade: nat
    var lastUnselectedResult: int
    var unselectedXor: int
    var unselectedCallsMade: nat

    function HotMethod(delta: int): int { Wrap32(SEED + delta) }

    /** The loop shared by runWarmSelected and runWarmUnselected. */
    method Warm(iterations: int) returns (last: int, acc: int, made: nat)
      requires IsInt(iterations)
      ensures made == if iterations > 0 then iterations else 0
      ensures last == if made > 0 then SEED + (made - 1) % 256 else 0
      ensures acc == Closed(made, last)
      ensures IsLong(acc)
    {
      made, acc, last := 0, 0, 0;
      var i := 0;
      while i < iterations
        invariant 0 <= i && (i <= iterations || i == 0) && made == i
        invariant acc == XorRange(0, i)
        invariant last == if i > 0 then Result(i - 1) else 0
      {
        var d := i % 256;
        last := HotMethod(d);
        acc := Xor(acc, last);
        made := made + 1;
        i := i + 1;
      }
      Accumulator(i);
    }

    method RunWarmSelected(iterations: int)
      requires IsInt(iterations)
      modifies this
      ensures selectedCallsMade == if iterations > 0 then iterations else 0
      ensures lastSelectedResult == if selectedCallsMade > 0 then SEED + (selectedCallsMade - 1) % 256 else 0
      ensures selectedXor == Closed(selectedCallsMade, lastSelectedResult)
      ensures lastUnselectedResult == old(lastUnselectedResult)
      ensures unselectedXor == old(unselectedXor) && unselectedCallsMade == old(unselectedCallsMade)
    {
      lastSelectedResult, selectedXor, selectedCallsMade := Warm(iterations);
    }

    method RunWarmUnselected(iterations: int)
      requires IsInt(iterations)
      modifies this
      ensures unselectedCallsMade == if iterations > 0 then iterations else 0
      ensures lastUnselectedResult == if unselectedCallsMade > 0 then SEED + (unselectedCallsMade - 1) % 256 else 0
      ensures unselectedXor == Closed(unselectedCallsMade, lastUnselectedResult)
      ensures lastSelectedResult == old(lastSelectedResult)
      ensures selectedXor == old(selectedXor) && selectedCallsMade == old(selectedCallsMade)
    {
      lastUnselectedResult, unselectedXor, unselectedCallsMade := Warm(iterations);
    }
  }
}
