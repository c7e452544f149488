/** 32-bit words and bytes as integers, with the bitwise operators the C code
    applies to them.  Shifts and masks by constants are written as division and
    remainder by powers of two; `&` and `^` on whole words are defined bit by bit. */
module Words {

  type Word = x: int | 0 <= x < 0x1_0000_0000

  type Byte = x: int | 0 <= x < 256

  function Pow2(k: nat): (r: nat)
    ensures r > 0
  {
    if k == 0 then 1 else 2 * Pow2(k - 1)
  }

  /** Bitwise exclusive or of the low `n` bits. */
  function XorBits(x: nat, y: nat, n: nat): (r: nat)
    ensures r < Pow2(n)
  {
    if n == 0 then 0
    else (x % 2 + y % 2) % 2 + 2 * XorBits(x / 2, y / 2, n - 1)
  }

  /** Bitwise and of the low `n` bits. */
  function AndBits(x: nat, y: nat, n: nat): (r: nat)
    ensures r < Pow2(n)
  {
    if n == 0 then 0
    else (x % 2) * (y % 2) + 2 * AndBits(x / 2, y / 2, n - 1)
  }

  lemma {:induction false} Pow2Monotone(j: nat, k: nat)
    requires j <= k
    ensures Pow2(j) <= Pow2(k)
    decreases k
  {
    if j < k { Pow2Monotone(j, k - 1); }
  }

  lemma Pow2Of32()
    ensures Pow2(32) == 0x1_0000_0000
  {
    assert Pow2(8) == 256;
    assert Pow2(16) == 0x1_0000;
    assert Pow2(24) == 0x100_0000;
  }

  function Xor(x: Word, y: Word): Word {
    Pow2Of32();
    XorBits(x, y, 32)
  }

  function And(x: Word, y: Word): Word {
    Pow2Of32();
    AndBits(x, y, 32)
  }

  /** C's unsigned subtraction. */
  function WrapSub(x: Word, y: Word): Word {
    if x >= y then x - y else x - y + 0x1_0000_0000
  }

  /** C's unsigned addition. */
  function WrapAdd(x: Word, y: Word): Word {
    if x + y < 0x1_0000_0000 then x + y else x + y - 0x1_0000_0000
  }

  lemma {:induction false} XorSelfBits(x: nat, y: nat, n: nat)
    requires y < Pow2(n)
    ensures XorBits(x, XorBits(x, y, n), n) == y
  {
    if n > 0 {
      XorSelfBits(x / 2, y / 2, n - 1);
      var low, high := (x % 2 + y % 2) % 2, XorBits(x / 2, y / 2, n - 1);
      Halves(low, high);
      assert XorBits(x, y, n) == low + 2 * high;
      Parity(x % 2, y % 2);
    }
  }

  lemma Halves(low: nat, high: nat)
    requires low < 2
    ensures (low + 2 * high) % 2 == low && (low + 2 * high) / 2 == high
  {
  }

  lemma Parity(x: nat, y: nat)
    requires x < 2 && y < 2
    ensures (x + (x + y) % 2) % 2 == y
  {
  }

  /** Masking with 2^k - 1 is the remainder by 2^k. */
  lemma {:induction false} AndLowBits(x: nat, m: nat, k: nat, n: nat)
    requires k <= n && m == Pow2(k)
    ensures AndBits(x, m - 1, n) == x % m
    decreases n
  {
    if k == 0 {
      AndZeroBits(x, n);
    } else {
      AndLowBits(x / 2, Pow2(k - 1), k - 1, n - 1);
      LowBitsStep(x, Pow2(k - 1), m, n);
    }
  }

  lemma LowBitsStep(x: nat, m: nat, m2: nat, n: nat)
    requires m > 0 && n > 0 && m2 == 2 * m && AndBits(x / 2, m - 1, n - 1) == (x / 2) % m
    ensures AndBits(x, m2 - 1, n) == x % m2
  {
    AndOdd(x, m, n);
    HalfRemainder(x, m);
  }

  lemma AndOdd(x: nat, m: nat, n: nat)
    requires m > 0 && n > 0
    ensures AndBits(x, 2 * m - 1, n) == x % 2 + 2 * AndBits(x / 2, m - 1, n - 1)
  {
    OddHalves(m);
  }

  lemma OddHalves(m: nat)
    requires m > 0
    ensures (2 * m - 1) % 2 == 1 && (2 * m - 1) / 2 == m - 1
  {
  }

  lemma {:induction false} AndZeroBits(x: nat, n: nat)
    ensures AndBits(x, 0, n) == 0
  {
    if n > 0 { AndZeroBits(x / 2, n - 1); }
  }

  lemma HalfRemainder(x: nat, m: nat)
    requires m > 0
    ensures x % 2 + 2 * ((x / 2) % m) == x % (2 * m)
  {
    var h, b := x / 2, x % 2;
    var q, r := h / m, h % m;
    assert x == (2 * m) * q + (2 * r + b) by {
      assert h == m * q + r;
      assert 2 * (m * q) == (2 * m) * q;
    }
    RemainderUnique(x, 2 * m, q, 2 * r + b);
  }

  lemma RemainderUnique(x: int, m: int, q: int, r: int)
    requires m > 0 && 0 <= r < m && x == m * q + r
    ensures x % m == r
  {
    var d := x / m - q;
    assert m * d == r - x % m by {
      assert m * (x / m) == x - x % m;
      assert m * d == m * (x / m) - m * q;
    }
    SmallMultiple(m, d);
  }

  lemma SmallMultiple(m: int, d: int)
    requires m > 0 && -m < m * d < m
    ensures d == 0
  {
  }

  lemma {:induction false} XorZeroBits(x: nat, n: nat)
    requires x < Pow2(n)
    ensures XorBits(x, 0, n) == x
  {
    if n > 0 {
      XorZeroBits(x / 2, n - 1);
    }
  }

  lemma {:induction false} AndMaskBits(x: nat, n: nat)
    requires x < Pow2(n)
    ensures AndBits(Pow2(n) - 1, x, n) == x
    ensures AndBits(0, x, n) == 0
  {
    if n > 0 {
      assert (Pow2(n) - 1) % 2 == 1 && (Pow2(n) - 1) / 2 == Pow2(n - 1) - 1;
      AndMaskBits(x / 2, n - 1);
    }
  }

  /** `x ^ (mask & (x ^ y))` picks `x` when the mask is zero and `y` when it is all ones. */
  lemma MaskSelects(x: Word, y: Word, mask: Word)
    requires mask == 0 || mask == 0xFFFF_FFFF
    ensures Xor(x, And(mask, Xor(x, y))) == if mask == 0 then x else y
  {
    Pow2Of32();
    XorSelfBits(x, y, 32);
    XorZeroBits(x, 32);
    AndMaskBits(Xor(x, y), 32);
  }

  lemma {:induction false} XorCommutes(x: nat, y: nat, n: nat)
    ensures XorBits(x, y, n) == XorBits(y, x, n)
  {
    if n > 0 {
      XorCommutes(x / 2, y / 2, n - 1);
    }
  }
}
