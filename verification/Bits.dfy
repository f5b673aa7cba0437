/** Powers of two and the C bit operators on unsigned values, defined bit by bit. */
module Bits {

  function Pow2(n: nat): (r: nat)
    ensures r >= 1
  {
    if n == 0 then 1 else 2 * Pow2(n - 1)
  }

  /** `a ^ b`. */
  function Xor(a: nat, b: nat): nat
    decreases a + b
  {
    if a == 0 && b == 0 then 0
    else 2 * Xor(a / 2, b / 2) + (a % 2 + b % 2) % 2
  }

  /** `a & b`. */
  function And(a: nat, b: nat): nat
    decreases a + b
  {
    if a == 0 && b == 0 then 0
    else 2 * And(a / 2, b / 2) + (if a % 2 == 1 && b % 2 == 1 then 1 else 0)
  }

  /** `a | b`. */
  function Or(a: nat, b: nat): nat
    decreases a + b
  {
    if a == 0 && b == 0 then 0
    else 2 * Or(a / 2, b / 2) + (if a % 2 == 1 || b % 2 == 1 then 1 else 0)
  }

  /** `a & ~b`. */
  function AndNot(a: nat, b: nat): nat
    decreases a + b
  {
    if a == 0 && b == 0 then 0
    else 2 * AndNot(a / 2, b / 2) + (if a % 2 == 1 && b % 2 == 0 then 1 else 0)
  }

  /** `a << n`, without overflow. */
  function Shl(a: int, n: nat): int {
    if n == 0 then a else 2 * Shl(a, n - 1)
  }

  /** `a >> n`. */
  function Shr(a: nat, n: nat): nat {
    if n == 0 then a else Shr(a / 2, n - 1)
  }

  /** The weight-2^n bit of a. */
  predicate Bit(a: nat, n: nat) {
    if n == 0 then a % 2 == 1 else Bit(a / 2, n - 1)
  }

  /** The low n bits of a are zero. */
  predicate Aligned(a: nat, n: nat) {
    n == 0 || (a % 2 == 0 && Aligned(a / 2, n - 1))
  }

  lemma {:induction false} Pow2Monotone(a: nat, b: nat)
    requires a <= b
    ensures Pow2(a) <= Pow2(b)
    ensures a < b ==> 2 * Pow2(a) <= Pow2(b)
    decreases b
  {
    if a < b { Pow2Monotone(a, b - 1); }
  }

  lemma {:induction false} Pow2Add(a: nat, b: nat)
    ensures Pow2(a + b) == Pow2(a) * Pow2(b)
  {
    if a > 0 {
      Pow2Add(a - 1, b);
      assert Pow2(a + b) == 2 * (Pow2(a - 1) * Pow2(b));
    }
  }

  lemma {:induction false} ZeroOperand(a: nat)
    ensures And(a, 0) == 0 && And(0, a) == 0
    ensures AndNot(a, 0) == a && Xor(a, 0) == a
  {
    if a != 0 { ZeroOperand(a / 2); }
  }

  lemma {:induction false} FlipBit(a: nat, n: nat)
    ensures Bit(a, n) ==> a >= Pow2(n)
    ensures Xor(a, Pow2(n)) == if Bit(a, n) then a - Pow2(n) else a + Pow2(n)
    decreases n
  {
    hide Xor;
    if n == 0 {
      XorOne(a);
    } else {
      FlipBit(a / 2, n - 1);
      XorDouble(a, Pow2(n - 1));
    }
  }

  lemma XorOne(a: nat)
    ensures Xor(a, 1) == if a % 2 == 1 then a - 1 else a + 1
  {
    ZeroOperand(a / 2);
  }

  lemma XorDouble(a: nat, b: nat)
    ensures Xor(a, 2 * b) == 2 * Xor(a / 2, b) + a % 2
  {}

  lemma {:induction false} ClearBit(a: nat, n: nat)
    ensures Bit(a, n) ==> a >= Pow2(n)
    ensures AndNot(a, Pow2(n)) == if Bit(a, n) then a - Pow2(n) else a
    decreases n
  {
    if n == 0 { ZeroOperand(a / 2); } else { ClearBit(a / 2, n - 1); }
  }

  /** Flipping one bit adds or subtracts its weight; clearing it subtracts it when set. */
  lemma SingleBit(a: nat, n: nat)
    ensures !Bit(a, n) ==> Xor(a, Pow2(n)) == a + Pow2(n) && AndNot(a, Pow2(n)) == a
    ensures Bit(a, n) ==>
      a >= Pow2(n) && Xor(a, Pow2(n)) == a - Pow2(n) && AndNot(a, Pow2(n)) == a - Pow2(n)
  {
    hide Xor, AndNot, Bit, Pow2;
    FlipBit(a, n);
    ClearBit(a, n);
  }

  /** Masking with 2^n - 1 keeps the low n bits and drops an aligned multiple of 2^n. */
  lemma {:induction false} LowMask(a: nat, n: nat)
    ensures And(a, Pow2(n) - 1) < Pow2(n)
    ensures And(a, Pow2(n) - 1) <= a && Aligned(a - And(a, Pow2(n) - 1), n)
    ensures Aligned(a, n) <==> And(a, Pow2(n) - 1) == 0
    decreases n
  {
    if n == 0 {
      ZeroOperand(a);
    } else {
      LowMask(a / 2, n - 1);
      var low := And(a / 2, Pow2(n - 1) - 1);
      assert (Pow2(n) - 1) / 2 == Pow2(n - 1) - 1 && (Pow2(n) - 1) % 2 == 1;
      assert And(a, Pow2(n) - 1) == 2 * low + a % 2;
      assert (a - And(a, Pow2(n) - 1)) / 2 == a / 2 - low;
    }
  }

  /** Masking does not change the bits below the mask's width. */
  lemma {:induction false} MaskKeepsBit(a: nat, n: nat, i: nat)
    requires i < n
    ensures Bit(And(a, Pow2(n) - 1), i) == Bit(a, i)
    decreases n
  {
    assert (Pow2(n) - 1) / 2 == Pow2(n - 1) - 1 && (Pow2(n) - 1) % 2 == 1;
    if i > 0 {
      MaskKeepsBit(a / 2, n - 1, i - 1);
    }
  }

  lemma {:induction false} ShlAdd(a: int, b: int, n: nat)
    ensures Shl(a + b, n) == Shl(a, n) + Shl(b, n)
    ensures Shl(1, n) == Pow2(n) && Shl(-1, n) + Pow2(n) == 0
  {
    if n > 0 { ShlAdd(a, b, n - 1); }
  }

  lemma {:induction false} MaskClears(a: nat, n: nat, i: nat)
    requires i < n && Bit(a, i)
    ensures a >= Pow2(i)
    ensures And(a - Pow2(i), Pow2(n) - 1) == And(a, Pow2(n) - 1) - Pow2(i)
    decreases n
  {
    assert (Pow2(n) - 1) / 2 == Pow2(n - 1) - 1 && (Pow2(n) - 1) % 2 == 1;
    if i > 0 {
      MaskClears(a / 2, n - 1, i - 1);
    }
  }

  lemma {:induction false} OrZero(a: nat)
    ensures Or(a, 0) == a
  {
    if a != 0 { OrZero(a / 2); }
  }

  /** Setting bit j of a number whose bits from j up to n are clear adds its weight. */
  lemma {:induction false} OrSetsBit(base: nat, n: nat, x: nat, j: nat)
    requires Aligned(base, n) && j < n && x < Pow2(j)
    ensures Or(base + x, Pow2(j)) == base + x + Pow2(j)
    decreases j
  {
    if j == 0 {
      OrZero(base / 2);
    } else {
      OrSetsBit(base / 2, n - 1, x / 2, j - 1);
      assert (base + x) / 2 == base / 2 + x / 2;
    }
  }

  lemma {:induction false} ShlNat(a: nat, n: nat)
    ensures Shl(a, n) >= 0
  {
    if n > 0 { ShlNat(a, n - 1); }
  }

  lemma DivMod(a: nat, m: nat, q: nat, r: nat)
    requires a == q * m + r && r < m
    ensures a / m == q && a % m == r
  {
    var k := a / m - q;
    assert k * m == r - a % m;
    Multiple(k, m);
  }

  lemma Multiple(k: int, m: nat)
    ensures k >= 1 ==> k * m >= m
    ensures k <= -1 ==> k * m + m <= 0
  {}

  /** The shifts and the mask as arithmetic. */
  lemma {:induction false} ShlTimes(a: int, n: nat)
    ensures Shl(a, n) == a * Pow2(n)
  {
    if n > 0 { ShlTimes(a, n - 1); }
  }

  lemma {:induction false} ShrDivides(a: nat, n: nat)
    ensures Shr(a, n) == a / Pow2(n) && And(a, Pow2(n) - 1) == a % Pow2(n)
    decreases n
  {
    if n == 0 {
      ZeroOperand(a);
    } else {
      ShrDivides(a / 2, n - 1);
      assert (Pow2(n) - 1) / 2 == Pow2(n - 1) - 1 && (Pow2(n) - 1) % 2 == 1;
      var b := Pow2(n - 1);
      HalfDivMod(a, b);
    }
  }

  lemma HalfDivMod(a: nat, b: nat)
    requires b >= 1
    ensures a / (2 * b) == a / 2 / b && a % (2 * b) == 2 * (a / 2 % b) + a % 2
  {
    var q, r := a / 2 / b, a / 2 % b;
    assert a / 2 == q * b + r;
    assert q * (2 * b) == 2 * (q * b);
    DivMod(a, 2 * b, q, 2 * r + a % 2);
  }

  lemma {:induction false} ShlZero(n: nat)
    ensures Shl(0, n) == 0
  {
    if n > 0 { ShlZero(n - 1); }
  }

  lemma {:induction false} ShrNextBlock(a: nat, k: nat)
    ensures Shr(a + Pow2(k), k) == Shr(a, k) + 1
  {
    if k > 0 {
      ShrNextBlock(a / 2, k - 1);
      assert (a + Pow2(k)) / 2 == a / 2 + Pow2(k - 1);
    }
  }

  /** Clearing the low n bits leaves the start of the aligned run of 2^n that a lies in. */
  lemma {:induction false} RunStart(a: nat, n: nat)
    ensures AndNot(a, Pow2(n) - 1) == Shl(Shr(a, n), n)
    decreases n
  {
    if n == 0 {
      ZeroOperand(a);
    } else {
      RunStart(a / 2, n - 1);
      assert (Pow2(n) - 1) / 2 == Pow2(n - 1) - 1 && (Pow2(n) - 1) % 2 == 1;
    }
  }

  /** That run is the numbers whose higher bits are the same. */
  lemma {:induction false} RunHolds(x: nat, n: nat, a: nat)
    ensures Shl(x, n) <= a < Shl(x, n) + Pow2(n) <==> Shr(a, n) == x
    decreases n
  {
    if n > 0 { RunHolds(x, n - 1, a / 2); }
  }
}
