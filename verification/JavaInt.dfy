/** Java's fixed-width integer arithmetic on unbounded integers: wrapping, shifts and XOR. */
module JavaInt {

  const TWO_31: int := 0x8000_0000
  const TWO_32: int := 0x1_0000_0000
  const TWO_63: int := 0x8000_0000_0000_0000
  const TWO_64: int := 0x1_0000_0000_0000_0000

  const MIN_INT: int := -TWO_31
  const MAX_INT: int := TWO_31 - 1

  predicate IsInt(x: int) { MIN_INT <= x <= MAX_INT }
  predicate IsLong(x: int) { -TWO_63 <= x < TWO_63 }

  /** The int congruent to `x` modulo 2^32. */
  function Wrap32(x: int): (r: int)
    ensures IsInt(r) && (IsInt(x) ==> r == x)
  {
    var m := x % TWO_32;
    if m < TWO_31 then m else m - TWO_32
  }

  /** The long congruent to `x` modulo 2^64. */
  function Wrap64(x: int): (r: int)
    ensures IsLong(r) && (IsLong(x) ==> r == x)
  {
    var m := x % TWO_64;
    if m < TWO_63 then m else m - TWO_64
  }

  lemma Wrap32Congruent(x: int, k: int)
    ensures Wrap32(x + k * TWO_32) == Wrap32(x)
  {
  }

  /** Wrapping early changes nothing: every int operand may be reduced first. */
  lemma Wrap32Step(a: int, x: int, b: int)
    ensures Wrap32(a * Wrap32(x) + b) == Wrap32(a * x + b)
  {
    var k := (x - Wrap32(x)) / TWO_32;
    assert x == Wrap32(x) + k * TWO_32;
    assert a * x + b == a * Wrap32(x) + b + (a * k) * TWO_32 by {
      assert a * (Wrap32(x) + k * TWO_32) == a * Wrap32(x) + (a * k) * TWO_32;
    }
    Wrap32Congruent(a * Wrap32(x) + b, a * k);
  }

  lemma Wrap64Add(x: int, y: int)
    ensures Wrap64(Wrap64(x) + y) == Wrap64(x + y)
  {
  }

  function Pow2(k: nat): (r: int)
    ensures r >= 1
  {
    if k == 0 then 1 else 2 * Pow2(k - 1)
  }

  lemma {:induction false} Pow2Monotone(a: nat, b: nat)
    requires a <= b
    ensures Pow2(a) <= Pow2(b)
    decreases b - a
  {
    if a < b {
      Pow2Monotone(a, b - 1);
    }
  }

  lemma Pow2At30()
    ensures Pow2(30) == 0x4000_0000 && Pow2(31) == TWO_31
  {
    assert Pow2(10) == 1024;
    assert Pow2(20) == 1024 * 1024;
    assert Pow2(30) == 1024 * 1024 * 1024;
  }

  /** Java's `1 << k`: the shift distance is taken modulo 32, and distance 31 reaches the sign. */
  function ShiftOne(k: nat): int {
    if k % 32 == 31 then MIN_INT else Pow2(k % 32)
  }

  lemma ShiftOneSmall(k: nat)
    requires k <= 30
    ensures ShiftOne(k) == Pow2(k)
  {
    assert k % 32 == k;
  }

  lemma SmallPower(j: nat)
    requires j <= 30
    ensures Pow2(j) <= 0x4000_0000
  {
    Pow2At30();
    Pow2Monotone(j, 30);
  }

  /** The shifted one is the wrapped power of two. */
  lemma ShiftOneWraps(k: nat, j: nat)
    requires j == k % 32
    ensures ShiftOne(k) == Wrap32(Pow2(j)) <= 0x4000_0000
  {
    if j == 31 {
      Pow2At30();
    } else {
      SmallPower(j);
    }
  }

  /** Java's `x >> k` for a non-negative x and k < 32: the lowest bit is dropped k times. */
  function ShiftRight(x: nat, k: nat): nat {
    if k == 0 then x else ShiftRight(x / 2, k - 1)
  }

  lemma {:induction false} ShiftRightOnce(x: nat, k: nat)
    ensures ShiftRight(x, k + 1) == ShiftRight(x, k) / 2
  {
    if k > 0 {
      ShiftRightOnce(x / 2, k - 1);
    }
  }

  // ---- XOR on two's complement integers of any width -------------------------

  function Size(x: int): nat { if x < 0 then -x - 1 else x }

  function Half(x: int): (h: int)
    ensures x == 2 * h + Low(x)
  {
    x / 2
  }

  function Low(x: int): (bit: int)
    ensures 0 <= bit < 2
  {
    x % 2
  }

  /** Bitwise exclusive or. A negative number has infinitely many leading ones, as a Java long
      has after sign extension. */
  function Xor(a: int, b: int): int
    decreases Size(a) + Size(b)
  {
    if (a == 0 || a == -1) && (b == 0 || b == -1) then (if a == b then 0 else -1)
    else 2 * Xor(a / 2, b / 2) + if a % 2 == b % 2 then 0 else 1
  }

  lemma XorUnfold(a: int, b: int, h: int, g: int, i: int, j: int)
    requires a == 2 * h + i && b == 2 * g + j && 0 <= i < 2 && 0 <= j < 2
    ensures Xor(a, b) == 2 * Xor(h, g) + if i == j then 0 else 1
  {
    assert a / 2 == h && b / 2 == g;
  }

  predicate IsXor(a: int, b: int, c: int) { Xor(a, b) == c }

  lemma XorStep(a: int, b: int, c: int)
    requires IsXor(a, b, c)
    ensures IsXor(Half(a), Half(b), Half(c))
    ensures Low(c) == if Low(a) == Low(b) then 0 else 1
  {
    XorUnfold(a, b, Half(a), Half(b), Low(a), Low(b));
  }

  lemma {:induction false} XorCommutes(a: int, b: int)
    ensures Xor(a, b) == Xor(b, a)
    decreases Size(a) + Size(b)
  {
    if Size(a) + Size(b) > 0 {
      XorCommutes(a / 2, b / 2);
    }
  }

  lemma {:induction false} XorZero(a: int)
    ensures Xor(a, 0) == a
    decreases Size(a)
  {
    if Size(a) > 0 {
      XorZero(a / 2);
    }
  }

  lemma {:induction false} XorSelf(a: int)
    ensures Xor(a, a) == 0
    decreases Size(a)
  {
    if Size(a) > 0 {
      XorSelf(a / 2);
    }
  }

  lemma XorEnds(a: int, b: int, c: int, ab: int, bc: int, l: int, r: int)
    requires -1 <= a <= 0 && -1 <= b <= 0 && -1 <= c <= 0
    requires IsXor(a, b, ab) && IsXor(b, c, bc) && IsXor(ab, c, l) && IsXor(a, bc, r)
    ensures l == r
  {
    assert -1 <= ab <= 0 && -1 <= bc <= 0;
  }

  lemma XorLowBits(a: int, b: int, c: int, ab: int, bc: int, l: int, r: int)
    requires IsXor(a, b, ab) && IsXor(b, c, bc) && IsXor(ab, c, l) && IsXor(a, bc, r)
    ensures IsXor(Half(a), Half(b), Half(ab)) && IsXor(Half(b), Half(c), Half(bc))
    ensures IsXor(Half(ab), Half(c), Half(l)) && IsXor(Half(a), Half(bc), Half(r))
    ensures Half(l) == Half(r) ==> l == r
  {
    XorStep(a, b, ab);
    XorStep(b, c, bc);
    XorStep(ab, c, l);
    XorStep(a, bc, r);
  }

  lemma {:induction false} XorChain(a: int, b: int, c: int, ab: int, bc: int, l: int, r: int)
    requires IsXor(a, b, ab) && IsXor(b, c, bc) && IsXor(ab, c, l) && IsXor(a, bc, r)
    ensures l == r
    decreases Size(a) + Size(b) + Size(c)
  {
    if Size(a) + Size(b) + Size(c) > 0 {
      XorLowBits(a, b, c, ab, bc, l, r);
      XorChain(Half(a), Half(b), Half(c), Half(ab), Half(bc), Half(l), Half(r));
    } else {
      XorEnds(a, b, c, ab, bc, l, r);
    }
  }

  lemma XorAssociates(a: int, b: int, c: int)
    ensures Xor(Xor(a, b), c) == Xor(a, Xor(b, c))
  {
    var ab, bc := Xor(a, b), Xor(b, c);
    XorChain(a, b, c, ab, bc, Xor(ab, c), Xor(a, bc));
  }

  /** Four consecutive numbers from a multiple of 4 cancel; the steps on the way. */
  lemma Quad(h: int)
    ensures IsXor(0, 4 * h, 4 * h)
    ensures IsXor(4 * h, 4 * h + 1, 1)
    ensures IsXor(1, 4 * h + 2, 4 * h + 3)
    ensures IsXor(4 * h + 3, 4 * h + 3, 0)
  {
    XorCommutes(0, 4 * h);
    XorZero(4 * h);
    XorUnfold(4 * h, 4 * h + 1, 2 * h, 2 * h, 0, 1);
    XorSelf(2 * h);
    XorUnfold(1, 4 * h + 2, 0, 2 * h + 1, 1, 0);
    XorCommutes(0, 2 * h + 1);
    XorZero(2 * h + 1);
    XorSelf(4 * h + 3);
  }
}
