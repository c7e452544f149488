/** Arithmetic modulo 2^255 - 19 on 32 radix-256 limbs held in 32-bit words
    (src/curve25519.c).  Every assignment to a `Word` is checked to stay below 2^32. */
module Field25519 {
  import opened Words
  import opened Limbs
  import opened Rfc7748

  const LIMBS: nat := 32

  /** What `mult`, `square`, `add` and `mult121665` accept. */
  ghost predicate Loose(s: seq<int>) {
    |s| == LIMBS && forall i :: 0 <= i < LIMBS ==> 0 <= s[i] <= 512
  }

  /** What `squeeze` leaves behind. */
  ghost predicate Squeezed(s: seq<int>) {
    |s| == LIMBS && (forall i :: 0 <= i < 31 ==> 0 <= s[i] <= 255) && 0 <= s[31] <= 128
  }

  /** The field element a limb vector represents. */
  ghost function Res(s: seq<int>): int { Value(s) % P }

  lemma ModShift(x: int, k: int)
    ensures (x + k * P) % P == x % P
  {
  }

  lemma ResAdd(x: int, y: int)
    ensures (x + y) % P == FAdd(x % P, y % P)
    ensures (x - y) % P == FSub(x % P, y % P)
  {
    var qx, rx := x / P, x % P;
    var qy, ry := y / P, y % P;
    assert x + y == (rx + ry) + (qx + qy) * P && x - y == (rx - ry) + (qx - qy) * P;
    ModShift(rx + ry, qx + qy);
    ModShift(rx - ry, qx - qy);
  }

  lemma ResMul(x: int, y: int)
    ensures (x * y) % P == FMul(x % P, y % P)
  {
    var qx, rx := x / P, x % P;
    var qy, ry := y / P, y % P;
    assert x * y == (qx * y + rx * qy) * P + rx * ry by {
      assert x * y == (qx * P + rx) * y == qx * y * P + rx * y;
      assert rx * y == rx * (qy * P + ry) == rx * qy * P + rx * ry;
    }
    ModShift(rx * ry, qx * y + rx * qy);
  }

  /** 2^248, the weight of limb 31. */
  const TOP_WEIGHT: int := 0x1_00000000_00000000_00000000_00000000_00000000_00000000_00000000_000000

  lemma RadixTop()
    ensures Radix(31) == TOP_WEIGHT
    ensures 128 * Radix(31) == P + 19
    ensures Radix(32) == 2 * P + 38
  {
    assert Radix(8) == 0x1_0000_0000_0000_0000;
    assert Radix(16) == 0x1_0000_0000_0000_0000_0000_0000_0000_0000;
    assert Radix(24) == Radix(16) * Radix(8);
  }

  lemma {:induction false} ValueOfBias(n: nat, x: seq<int>)
    requires |x| == n + 1 && x[n] == 0
    requires forall i :: 0 <= i < n ==> x[i] == 65280
    ensures Value(x) == Radix(n + 1) - 256
  {
    if n == 0 {
      assert Value(x[1..]) == 0;
    } else {
      ValueOfBias(n - 1, x[1..]);
    }
  }

  /** 128 units of the top limb weigh p + 19. */
  lemma TopWeight(d: seq<int>, q: int)
    requires |d| == LIMBS
    ensures Value(d[31 := d[31] + 128 * q]) == Value(d) + q * P + 19 * q
  {
    ValueTop(d, 128 * q);
    RadixTop();
    assert (128 * q) * Radix(31) == q * (128 * Radix(31));
  }

  /** Dropping multiples of 2^255 from the top limb and re-adding 19 of each. */
  lemma FoldValue(x: seq<int>, t: int, d: seq<int>, out: seq<int>)
    requires |x| == |d| == |out| == LIMBS
    requires Digits(x, 0, |x| - 1, d) && t == Carry(x, 0, |x| - 1) + x[31] && d[31] == t % 128
    requires Digits(d, 19 * (t / 128), |d| - 1, out)
    requires out[31] == Carry(d, 19 * (t / 128), |d| - 1) + d[31]
    ensures Value(out) == Value(x) - (t / 128) * P
    ensures Value(out) % P == Value(x) % P
  {
    var q := t / 128;
    CarryTotal(x, 0, d[31 := t]);
    TopWeight(d, q);
    assert d[31] + 128 * q == t;
    CarryTotal(d, 19 * q, out);
    ModShift(Value(x), -q);
  }

  /** After four columns of bytes only a carry bit is left. */
  lemma {:induction false} CarryFades(x: seq<int>, u: int, j: nat)
    requires 4 <= j <= |x| && 0 <= u <= 0x2600_0000
    requires forall i :: 0 <= i < |x| ==> 0 <= x[i] <= 255
    ensures 0 <= Carry(x, u, j) <= 1
  {
    if j > 4 {
      CarryFades(x, u, j - 1);
    } else {
      assert Carry(x, u, 1) == (u + x[0]) / 256 <= 0x26_0001;
      assert Carry(x, u, 2) == (Carry(x, u, 1) + x[1]) / 256 <= 0x2601;
      assert Carry(x, u, 3) == (Carry(x, u, 2) + x[2]) / 256 <= 0x27;
      assert Carry(x, u, 4) == (Carry(x, u, 3) + x[3]) / 256;
    }
  }

  /** add: exact on the values. */
  method Add(out: array<Word>, a: array<Word>, b: array<Word>)
    requires out.Length == a.Length == b.Length == LIMBS
    requires Loose(a[..]) && Loose(b[..])
    modifies out
    ensures Value(out[..]) == old(Value(a[..])) + old(Value(b[..]))
    ensures Res(out[..]) == FAdd(old(Res(a[..])), old(Res(b[..])))
    ensures forall i :: 0 <= i < 31 ==> out[i] <= 255
    ensures out[31] <= old(a[31]) + old(b[31]) + 4
  {
    ghost var A, B := a[..], b[..];
    ghost var x: seq<int> := seq(LIMBS, j requires 0 <= j < LIMBS => A[j] + B[j]);
    var u: Word := 0;
    for j := 0 to out.Length - 1
      invariant u == Carry(x, 0, j) <= 4
      invariant forall k :: j <= k < 32 ==> a[k] == A[k] && b[k] == B[k]
      invariant Digits(x, 0, j, out[..])
    {
      ghost var done: seq<int> := out[..];
      CarryStaysBelow(u, a[j] + b[j], 4);
      u := u + (a[j] + b[j]);
      out[j] := LowByte(u);
      assert out[..] == done[j := LowByte(u)];
      DigitsStep(x, 0, j, u, done, out[..]);
      u := Shr8(u);
    }
    u := u + (a[31] + b[31]);
    out[31] := u;
    CarryTotal(x, 0, out[..]);
    ValueLinear(A, 1, B, x);
    ResAdd(Value(A), Value(B));
  }

  /** The columns `sub` adds up: 65280 is 255 * 256, and 218 plus all of them is 2p. */
  ghost function SubColumns(a: seq<int>, b: seq<int>): (x: seq<int>)
    requires |a| == |b| == LIMBS
    ensures |x| == LIMBS && x[31] == a[31] - b[31]
    ensures forall j :: 0 <= j < 31 ==> x[j] == a[j] + 65280 - b[j]
  {
    seq(LIMBS, j requires 0 <= j < LIMBS => if j < 31 then a[j] + 65280 - b[j] else a[j] - b[j])
  }

  lemma SubColumnsValue(a: seq<int>, b: seq<int>)
    requires |a| == |b| == LIMBS
    ensures Value(SubColumns(a, b)) + 218 == Value(a) - Value(b) + 2 * P
  {
    var bias := seq(LIMBS, j => if j < 31 then 65280 else 0);
    var diff := seq(LIMBS, j requires 0 <= j < LIMBS => a[j] - b[j]);
    ValueLinear(a, -1, b, diff);
    ValueLinear(diff, 1, bias, SubColumns(a, b));
    ValueOfBias(31, bias);
    RadixTop();
  }

  /** sub: exactly a - b + 2p.  Only the last step may wrap below zero in between. */
  method Sub(out: array<Word>, a: array<Word>, b: array<Word>)
    requires out.Length == a.Length == b.Length == LIMBS
    requires Squeezed(a[..]) && Squeezed(b[..])
    modifies out
    ensures Value(out[..]) == old(Value(a[..])) - old(Value(b[..])) + 2 * P
    ensures Res(out[..]) == FSub(old(Res(a[..])), old(Res(b[..])))
    ensures Loose(out[..])
  {
    ghost var A, B := a[..], b[..];
    ghost var x := SubColumns(A, B);
    var u := SubCarries(out, a, b, x);
    u := WrapAdd(u, WrapSub(a[31], b[31]));
    out[31] := u;
    SubTotal(A, B, out[..]);
  }

  lemma SubTotal(a: seq<int>, b: seq<int>, out: seq<int>)
    requires |a| == |b| == |out| == LIMBS && Digits(SubColumns(a, b), 218, 31, out)
    requires out[31] == Carry(SubColumns(a, b), 218, 31) + a[31] - b[31]
    ensures Value(out) == Value(a) - Value(b) + 2 * P
    ensures Value(out) % P == FSub(Value(a) % P, Value(b) % P)
  {
    CarryTotal(SubColumns(a, b), 218, out);
    SubColumnsValue(a, b);
    SubResidue(Value(out), Value(a), Value(b));
  }

  lemma SubResidue(v: int, a: int, b: int)
    requires v == a - b + 2 * P
    ensures v % P == FSub(a % P, b % P)
  {
    ResAdd(a, b);
    ModShift(a - b, 2);
  }

  /** The loop of sub over all limbs but the last. */
  method SubCarries(out: array<Word>, a: array<Word>, b: array<Word>, ghost x: seq<int>) returns (u: Word)
    requires out.Length == a.Length == b.Length == LIMBS
    requires Squeezed(a[..]) && Squeezed(b[..]) && x == SubColumns(a[..], b[..])
    modifies out
    ensures 218 <= u == Carry(x, 218, 31) <= 256 && Digits(x, 218, 31, out[..])
    ensures a[31] == old(a[31]) && b[31] == old(b[31])
  {
    ghost var A, B := a[..], b[..];
    u := 218;
    for j := 0 to out.Length - 1
      invariant 218 <= u == Carry(x, 218, j) <= 256
      invariant forall k :: j <= k < 32 ==> a[k] == A[k] && b[k] == B[k]
      invariant Digits(x, 218, j, out[..])
    {
      ghost var done: seq<int> := out[..];
      CarryStaysBelow(u, a[j] + 65280 - b[j], 256);
      u := u + (a[j] + 65280 - b[j]);
      out[j] := LowByte(u);
      assert out[..] == done[j := LowByte(u)];
      DigitsStep(x, 218, j, u, done, out[..]);
      u := Shr8(u);
    }
  }

  lemma CarryStaysBelow(u: int, x: int, hi: int)
    requires 0 <= u <= hi && 0 <= x <= 255 * hi + 255
    ensures Shr8(u + x) <= hi
  {
  }

  /** The carry loop that `squeeze` runs twice and `mult121665` once. */
  method CarryPass(a: array<Word>, u0: Word, ghost hi: int, ghost top: int) returns (u: Word)
    requires a.Length == LIMBS
    requires u0 <= hi && top <= 255 * hi + 255 && hi + top < 0x1_0000_0000
    requires forall i :: 0 <= i < LIMBS ==> a[i] <= top
    modifies a
    ensures u == Carry(old(a[..]), u0, a.Length - 1) <= hi
    ensures Digits(old(a[..]), u0, a.Length - 1, a[..])
    ensures a[31] == old(a[31])
  {
    ghost var x := a[..];
    u := u0;
    for j := 0 to a.Length - 1
      invariant u == Carry(x, u0, j) <= hi
      invariant forall k :: j <= k < 32 ==> a[k] == x[k]
      invariant Digits(x, u0, j, a[..])
    {
      ghost var done: seq<int> := a[..];
      CarryStaysBelow(u, a[j], hi);
      u := u + a[j];
      a[j] := LowByte(u);
      assert a[..] == done[j := LowByte(u)];
      DigitsStep(x, u0, j, u, done, a[..]);
      u := Shr8(u);
    }
  }

  /** The tail of `squeeze` and `mult121665`: `t` is the unreduced top limb. */
  method FoldTop(a: array<Word>, t: Word, ghost x: seq<int>)
    requires a.Length == |x| == LIMBS
    requires Digits(x, 0, |x| - 1, a[..]) && t == Carry(x, 0, |x| - 1) + x[31]
    modifies a
    ensures Squeezed(a[..])
    ensures Res(a[..]) == Value(x) % P
  {
    a[31] := t % 128;
    ghost var d := a[..];
    var u := CarryPass(a, 19 * (t / 128), 0x2600_0000, 255);
    CarryFades(d, 19 * (t / 128), |d| - 1);
    u := u + a[31];
    a[31] := u;
    FoldValue(x, t, d, a[..]);
  }

  /** squeeze: same field element, limbs back to bytes and a top limb of at most 128. */
  method Squeeze(a: array<Word>)
    requires a.Length == LIMBS
    requires forall i :: 0 <= i < LIMBS ==> a[i] <= 0xF000_0000
    modifies a
    ensures Squeezed(a[..])
    ensures Res(a[..]) == old(Res(a[..]))
  {
    ghost var x := a[..];
    var u := CarryPass(a, 0, 0x100_0000, 0xF000_0000);
    FoldTop(a, u + a[31], x);
  }

  /** mult121665: the curve constant (A - 2) / 4 times a field element. */
  method Mult121665(out: array<Word>, a: array<Word>)
    requires out.Length == a.Length == LIMBS && out != a
    requires Loose(a[..])
    modifies out
    ensures Squeezed(out[..])
    ensures Res(out[..]) == FMul(121665, Res(a[..]))
  {
    ghost var x := Scaled(a[..]);
    var u: Word := 0;
    for j := 0 to out.Length - 1
      invariant u == Carry(x, 0, j) <= 0x4_0000
      invariant Digits(x, 0, j, out[..])
    {
      ghost var done: seq<int> := out[..];
      CarryStaysBelow(u, 121665 * a[j], 0x4_0000);
      u := u + 121665 * a[j];
      out[j] := LowByte(u);
      assert out[..] == done[j := LowByte(u)];
      DigitsStep(x, 0, j, u, done, out[..]);
      u := Shr8(u);
    }
    u := u + 121665 * a[31];
    FoldTop(out, u, x);
    Scaled121665(a[..], x);
  }

  ghost function Scaled(a: seq<int>): (x: seq<int>)
    ensures |x| == |a| && forall j :: 0 <= j < |a| ==> x[j] == 121665 * a[j]
  {
    seq(|a|, j requires 0 <= j < |a| => 121665 * a[j])
  }

  lemma Scaled121665(a: seq<int>, x: seq<int>)
    requires |a| == |x| && forall j :: 0 <= j < |a| ==> x[j] == 121665 * a[j]
    ensures Value(x) % P == FMul(121665, Value(a) % P)
  {
    var zero := seq(|a|, _ => 0);
    ValueZero(zero);
    ValueLinear(zero, 121665, a, x);
    ResMul(121665, Value(a));
  }

  // ---- multiplication ----

  /** Multiplying by 256 modulo 2^256 - 38: limb 31 comes back at the bottom, 38-fold. */
  ghost function Shift(v: seq<int>): (r: seq<int>)
    requires |v| == LIMBS
    ensures |r| == LIMBS
  {
    [38 * v[31]] + v[..31]
  }

  lemma ShiftValue(v: seq<int>)
    requires |v| == LIMBS
    ensures Value(Shift(v)) == 256 * Value(v) - v[31] * (2 * P)
  {
    assert Shift(v)[1..] == v[..31];
    assert v == v[..31] + [v[31]];
    ValuePush(v[..31], v[31]);
    RadixTop();
    assert 256 * (v[31] * Radix(31)) == v[31] * (256 * Radix(31));
  }

  /** Limb `i` of the schoolbook product of `a` and `v`, rows shifted one limb at a time. */
  ghost function Column(a: seq<int>, v: seq<int>, i: nat): int
    requires |v| == LIMBS && i < LIMBS
  {
    if a == [] then 0 else a[0] * v[i] + Column(a[1..], Shift(v), i)
  }

  ghost function Columns(a: seq<int>, v: seq<int>): (r: seq<int>)
    requires |v| == LIMBS
    ensures |r| == LIMBS && forall i :: 0 <= i < LIMBS ==> r[i] == Column(a, v, i)
  {
    seq(LIMBS, i requires 0 <= i < LIMBS => Column(a, v, i))
  }

  /** The columns weigh the product of the values, up to a multiple of p. */
  lemma {:induction false} ColumnsValue(a: seq<int>, v: seq<int>) returns (k: int)
    requires |v| == LIMBS
    ensures Value(Columns(a, v)) == Value(a) * Value(v) + k * P
  {
    if a == [] {
      ValueZero(Columns(a, v));
      k := 0;
    } else {
      var k' := ColumnsValue(a[1..], Shift(v));
      var rest := Columns(a[1..], Shift(v));
      ValueLinear(rest, a[0], v, Columns(a, v));
      ShiftValue(v);
      k := k' - Value(a[1..]) * (2 * v[31]);
      RowAlgebra(a[0], Value(a[1..]), Value(v), v[31], k');
    }
  }

  lemma RowAlgebra(a0: int, va: int, vv: int, top: int, k: int)
    ensures va * (256 * vv - top * (2 * P)) + k * P + a0 * vv
         == (a0 + 256 * va) * vv + (k - va * (2 * top)) * P
  {
    assert va * (256 * vv - top * (2 * P)) == 256 * (va * vv) - (va * top) * (2 * P);
    assert (a0 + 256 * va) * vv == a0 * vv + 256 * (va * vv);
  }

  /** Summand `j` of output limb `i`, as the two inner loops of `mult` form it. */
  ghost function Term(a: seq<int>, b: seq<int>, i: int, j: int): int
    requires |a| == |b| == LIMBS && 0 <= i < LIMBS && 0 <= j < LIMBS
  {
    if j <= i then a[j] * b[i - j] else 38 * (a[j] * b[i + 32 - j])
  }

  ghost function Sum(a: seq<int>, b: seq<int>, i: int, lo: int, hi: int): int
    requires |a| == |b| == LIMBS && 0 <= i < LIMBS && 0 <= lo && hi <= LIMBS
    decreases hi - lo
  {
    if lo >= hi then 0 else Sum(a, b, i, lo, hi - 1) + Term(a, b, i, hi - 1)
  }

  lemma {:induction false} SumHead(a: seq<int>, b: seq<int>, i: int, lo: int, hi: int)
    requires |a| == |b| == LIMBS && 0 <= i < LIMBS && 0 <= lo < hi <= LIMBS
    ensures Sum(a, b, i, lo, hi) == Term(a, b, i, lo) + Sum(a, b, i, lo + 1, hi)
    decreases hi - lo
  {
    if lo + 1 < hi {
      SumHead(a, b, i, lo, hi - 1);
    }
  }

  lemma {:induction false} SumSplit(a: seq<int>, b: seq<int>, i: int, lo: int, mid: int, hi: int)
    requires |a| == |b| == LIMBS && 0 <= i < LIMBS && 0 <= lo <= mid <= hi <= LIMBS
    ensures Sum(a, b, i, lo, hi) == Sum(a, b, i, lo, mid) + Sum(a, b, i, mid, hi)
    decreases hi - mid
  {
    if mid < hi {
      SumSplit(a, b, i, lo, mid, hi - 1);
    }
  }

  /** Row `j`: `b` shifted `j` times, in closed form. */
  ghost function Rotated(b: seq<int>, j: nat): (r: seq<int>)
    requires |b| == LIMBS && j <= LIMBS
    ensures |r| == LIMBS
  {
    seq(LIMBS, i requires 0 <= i < LIMBS => if j <= i then b[i - j] else 38 * b[i + 32 - j])
  }

  lemma RotatedStep(b: seq<int>, j: nat)
    requires |b| == LIMBS && j < LIMBS
    ensures Shift(Rotated(b, j)) == Rotated(b, j + 1)
    ensures Rotated(b, 0) == b
  {
  }

  lemma {:induction false} ColumnIsSum(a: seq<int>, b: seq<int>, i: int, j: nat)
    requires |a| == |b| == LIMBS && 0 <= i < LIMBS && j <= LIMBS
    ensures Column(a[j..], Rotated(b, j), i) == Sum(a, b, i, j, LIMBS)
    decreases LIMBS - j
  {
    if j < LIMBS {
      ColumnIsSum(a, b, i, j + 1);
      RotatedStep(b, j);
      assert a[j..][1..] == a[j + 1..] && a[j..][0] == a[j];
      SumHead(a, b, i, j, LIMBS);
      assert a[j] * Rotated(b, j)[i] == Term(a, b, i, j);
    }
  }

  lemma ProductBound(x: int, y: int)
    requires 0 <= x <= 512 && 0 <= y <= 512
    ensures 0 <= x * y <= 512 * 512
  {
    assert 0 <= (512 - x) * y;
  }

  lemma TermBound(a: seq<int>, b: seq<int>, i: int, j: int)
    requires Loose(a) && Loose(b) && 0 <= i < LIMBS && 0 <= j < LIMBS
    ensures 0 <= Term(a, b, i, j) <= 38 * 512 * 512
  {
    ProductBound(a[j], b[if j <= i then i - j else i + 32 - j]);
  }

  lemma {:induction false} SumBound(a: seq<int>, b: seq<int>, i: int, lo: int, hi: int)
    requires Loose(a) && Loose(b) && 0 <= i < LIMBS && 0 <= lo <= hi <= LIMBS
    ensures 0 <= Sum(a, b, i, lo, hi) <= (hi - lo) * (38 * 512 * 512)
    decreases hi
  {
    if lo < hi {
      SumBound(a, b, i, lo, hi - 1);
      TermBound(a, b, i, hi - 1);
    }
  }

  /** The limbs both `mult` and `square` compute before squeezing. */
  ghost predicate ProductLimbs(a: seq<int>, b: seq<int>, n: nat, out: seq<int>) {
    |a| == |b| == |out| == LIMBS && n <= LIMBS
    && forall i {:trigger out[i]} :: 0 <= i < n ==> out[i] == Sum(a, b, i, 0, LIMBS)
  }

  lemma ProductResidue(a: seq<int>, b: seq<int>, out: seq<int>)
    requires ProductLimbs(a, b, LIMBS, out)
    ensures Res(out) == FMul(Res(a), Res(b))
  {
    forall i | 0 <= i < LIMBS
      ensures out[i] == Columns(a, b)[i]
    {
      ColumnIsSum(a, b, i, 0);
      RotatedStep(b, 0);
      assert a[0..] == a;
    }
    assert out == Columns(a, b);
    var k := ColumnsValue(a, b);
    ModShift(Value(a) * Value(b), k);
    ResMul(Value(a), Value(b));
  }

  lemma NextTerm(a: seq<int>, b: seq<int>, i: int, lo: int, j: int, x: int, y: int)
    requires Loose(a) && Loose(b) && 0 <= i < LIMBS && 0 <= lo <= j < LIMBS
    requires x == a[j] && y == b[if j <= i then i - j else i + 32 - j]
    ensures Sum(a, b, i, lo, j + 1) == Sum(a, b, i, lo, j) + if j <= i then x * y else 38 * x * y
    ensures 0 <= x * y <= 38 * x * y <= 38 * 512 * 512
    ensures 0 <= Sum(a, b, i, lo, j + 1) <= (j + 1) * (38 * 512 * 512)
  {
    SumBound(a, b, i, lo, j + 1);
    ProductBound(x, y);
    Regroup(x, y);
  }

  lemma Regroup(x: int, y: int)
    ensures 38 * x * y == 38 * (x * y)
  {
  }

  /** The body of `mult`'s outer loop: output limb `i` before squeezing. */
  method MultLimb(a: array<Word>, b: array<Word>, i: nat) returns (u: Word)
    requires a.Length == b.Length == LIMBS && i < LIMBS
    requires Loose(a[..]) && Loose(b[..])
    ensures u == Sum(a[..], b[..], i, 0, LIMBS) <= 0xF000_0000
  {
    ghost var A, B := a[..], b[..];
    u := 0;
    for j := 0 to i + 1
      invariant u == Sum(A, B, i, 0, j)
    {
      var x, y := a[j], b[i - j];
      NextTerm(A, B, i, 0, j, x, y);
      u := u + x * y;
    }
    for j := i + 1 to LIMBS
      invariant u == Sum(A, B, i, 0, j)
    {
      var x, y := a[j], b[i + 32 - j];
      NextTerm(A, B, i, 0, j, x, y);
      u := u + 38 * x * y;
    }
    SumBound(A, B, i, 0, LIMBS);
  }

  /** mult: the product of the field elements, squeezed. */
  method Mult(out: array<Word>, a: array<Word>, b: array<Word>)
    requires out.Length == a.Length == b.Length == LIMBS && out != a && out != b
    requires Loose(a[..]) && Loose(b[..])
    modifies out
    ensures Squeezed(out[..])
    ensures Res(out[..]) == FMul(Res(a[..]), Res(b[..]))
  {
    ghost var A, B := a[..], b[..];
    for i := 0 to LIMBS
      invariant a[..] == A && b[..] == B
      invariant ProductLimbs(A, B, i, out[..])
      invariant forall k :: 0 <= k < i ==> out[k] <= 0xF000_0000
    {
      var u := MultLimb(a, b, i);
      out[i] := u;
    }
    ProductResidue(A, B, out[..]);
    Squeeze(out);
  }

  /** A run of summands that reads the same from both ends is twice its first half plus the middle. */
  lemma {:induction false} SymmetricSum(a: seq<int>, i: int, lo: int, mid: int, hi: int)
    requires |a| == LIMBS && 0 <= i < LIMBS && 0 <= lo <= hi <= LIMBS
    requires forall j :: lo <= j < hi ==> Term(a, a, i, j) == Term(a, a, i, lo + hi - 1 - j)
    requires mid == lo + (hi - lo) / 2
    ensures Sum(a, a, i, lo, hi)
         == 2 * Sum(a, a, i, lo, mid) + if (hi - lo) % 2 == 1 then Term(a, a, i, mid) else 0
    decreases hi - lo
  {
    if hi - lo >= 2 {
      SymmetricSum(a, i, lo + 1, mid, hi - 1);
      SumHead(a, a, i, lo, hi - 1);
      if lo < mid {
        SumHead(a, a, i, lo, mid);
      }
      assert Term(a, a, i, lo) == Term(a, a, i, hi - 1);
    }
  }

  lemma LowerHalf(a: seq<int>, i: int)
    requires |a| == LIMBS && 0 <= i < LIMBS
    ensures Sum(a, a, i, 0, i + 1)
         == 2 * Sum(a, a, i, 0, (i + 1) / 2) + if i % 2 == 0 then Term(a, a, i, i / 2) else 0
  {
    forall j | 0 <= j < i + 1
      ensures Term(a, a, i, j) == Term(a, a, i, i - j)
    {
      assert a[j] * a[i - j] == a[i - j] * a[j];
    }
    SymmetricSum(a, i, 0, (i + 1) / 2, i + 1);
  }

  lemma UpperHalf(a: seq<int>, i: int)
    requires |a| == LIMBS && 0 <= i < LIMBS
    ensures Sum(a, a, i, i + 1, LIMBS)
         == 2 * Sum(a, a, i, i + 1, (i + 33) / 2) + if i % 2 == 0 then Term(a, a, i, i / 2 + 16) else 0
  {
    forall j | i + 1 <= j < LIMBS
      ensures Term(a, a, i, j) == Term(a, a, i, i + 1 + LIMBS - 1 - j)
    {
      assert a[j] * a[i + 32 - j] == a[i + 32 - j] * a[j];
    }
    SymmetricSum(a, i, i + 1, (i + 33) / 2, LIMBS);
  }

  lemma SquareSum(a: seq<int>, i: int)
    requires Loose(a) && 0 <= i < LIMBS
    ensures Sum(a, a, i, 0, LIMBS)
         == 2 * (Sum(a, a, i, 0, (i + 1) / 2) + Sum(a, a, i, i + 1, (i + 33) / 2))
            + if i % 2 == 0 then Term(a, a, i, i / 2) + Term(a, a, i, i / 2 + 16) else 0
    ensures 0 <= Sum(a, a, i, 0, LIMBS) <= 0x8000_0000
    ensures i % 2 == 0 ==> 0 <= Term(a, a, i, i / 2) && 0 <= Term(a, a, i, i / 2 + 16)
  {
    SumSplit(a, a, i, 0, i + 1, LIMBS);
    LowerHalf(a, i);
    UpperHalf(a, i);
    SumBound(a, a, i, 0, LIMBS);
    if i % 2 == 0 {
      TermBound(a, a, i, i / 2);
      TermBound(a, a, i, i / 2 + 16);
    }
  }

  /** The two inner loops of `square`: each product of distinct limbs once. */
  method SquareHalves(a: array<Word>, i: nat) returns (u: Word)
    requires a.Length == LIMBS && i < LIMBS
    requires Loose(a[..])
    ensures u == Sum(a[..], a[..], i, 0, (i + 1) / 2) + Sum(a[..], a[..], i, i + 1, (i + 33) / 2)
  {
    ghost var A := a[..];
    u := 0;
    var j := 0;
    while j < i - j
      invariant 0 <= j <= (i + 1) / 2
      invariant u == Sum(A, A, i, 0, j)
    {
      var x, y := a[j], a[i - j];
      NextTerm(A, A, i, 0, j, x, y);
      u := u + x * y;
      j := j + 1;
    }
    ghost var half := u;
    SumBound(A, A, i, 0, (i + 1) / 2);
    j := i + 1;
    while j < i + 32 - j
      invariant i + 1 <= j <= (i + 33) / 2
      invariant u == half + Sum(A, A, i, i + 1, j)
    {
      var x, y := a[j], a[i + 32 - j];
      NextTerm(A, A, i, i + 1, j, x, y);
      u := u + 38 * x * y;
      j := j + 1;
    }
  }

  /** The body of `square`'s outer loop: limb `i` of `mult(a, a)` from half the products. */
  method SquareLimb(a: array<Word>, i: nat) returns (u: Word)
    requires a.Length == LIMBS && i < LIMBS
    requires Loose(a[..])
    ensures u == Sum(a[..], a[..], i, 0, LIMBS) <= 0xF000_0000
  {
    u := SquareHalves(a, i);
    SquareSum(a[..], i);
    u := u * 2;
    if i % 2 == 0 {
      u := AddMiddle(a, i, u);
    }
  }

  method AddMiddle(a: array<Word>, i: nat, u0: Word) returns (u: Word)
    requires a.Length == LIMBS && i < LIMBS && i % 2 == 0
    requires Loose(a[..]) && u0 <= 0x8000_0000
    ensures u == u0 + Term(a[..], a[..], i, i / 2) + Term(a[..], a[..], i, i / 2 + 16)
  {
    ProductBound(a[i / 2], a[i / 2]);
    ProductBound(a[i / 2 + 16], a[i / 2 + 16]);
    Regroup(a[i / 2 + 16], a[i / 2 + 16]);
    u := u0 + a[i / 2] * a[i / 2];
    u := u + 38 * a[i / 2 + 16] * a[i / 2 + 16];
  }

  /** square: the limbs before squeezing are those of `mult(a, a)`. */
  method Square(out: array<Word>, a: array<Word>)
    requires out.Length == a.Length == LIMBS && out != a
    requires Loose(a[..])
    modifies out
    ensures Squeezed(out[..])
    ensures Res(out[..]) == FMul(Res(a[..]), Res(a[..]))
  {
    ghost var A := a[..];
    for i := 0 to LIMBS
      invariant a[..] == A
      invariant ProductLimbs(A, A, i, out[..])
      invariant forall k :: 0 <= k < i ==> out[k] <= 0xF000_0000
    {
      var u := SquareLimb(a, i);
      out[i] := u;
    }
    ProductResidue(A, A, out[..]);
    Squeeze(out);
  }

  /** select on one coordinate: swaps when `b` is 1, copies when it is 0. */
  method Select(p: array<Word>, q: array<Word>, r: array<Word>, s: array<Word>, b: Word)
    requires p.Length == q.Length == r.Length == s.Length == LIMBS
    requires p != q && p != r && p != s && q != r && q != s
    requires b <= 1
    modifies p, q
    ensures p[..] == if b == 1 then s[..] else r[..]
    ensures q[..] == if b == 1 then r[..] else s[..]
  {
    var bminus1 := WrapSub(b, 1);
    for j := 0 to LIMBS
      invariant forall k :: 0 <= k < j ==> p[k] == (if b == 1 then s[k] else r[k])
      invariant forall k :: 0 <= k < j ==> q[k] == (if b == 1 then r[k] else s[k])
    {
      var t := And(bminus1, Xor(r[j], s[j]));
      MaskSelects(r[j], s[j], bminus1);
      MaskSelects(s[j], r[j], bminus1);
      XorCommutes(r[j], s[j], 32);
      p[j] := Xor(s[j], t);
      q[j] := Xor(r[j], t);
    }
  }

  // ---- canonical form ----

  /** The low byte of every limb: what the final copy to `unsigned char` keeps. */
  ghost function LowBytes(s: seq<int>): (r: seq<Byte>)
    ensures |r| == |s| && forall i :: 0 <= i < |s| ==> r[i] == LowByte(s[i])
  {
    seq(|s|, i requires 0 <= i < |s| => LowByte(s[i]))
  }

  lemma TopSplit(s: seq<int>)
    requires |s| == LIMBS && forall i :: 0 <= i < 31 ==> 0 <= s[i] <= 255
    ensures Value(s) == Value(s[31 := 0]) + s[31] * TOP_WEIGHT
    ensures 0 <= Value(s[31 := 0]) < TOP_WEIGHT
  {
    RadixTop();
    var low := s[31 := 0];
    ValueTop(low, s[31]);
    assert low[31 := low[31] + s[31]] == s;
    assert low == s[..31] + [0];
    ValuePush(s[..31], 0);
    ValueBounds(s[..31]);
  }

  /** Bit 255 of v + 2^256 - p tells whether v was below p. */
  lemma FreezeArith(lo: int, top: int, lo': int, top': int)
    requires 0 <= lo < TOP_WEIGHT && 0 <= top <= 128
    requires 0 <= lo' < TOP_WEIGHT && 0 <= top' <= 260
    requires lo' + top' * TOP_WEIGHT == lo + top * TOP_WEIGHT + P + 38
    ensures top' / 128 % 2 == 1 ==> (lo + top * TOP_WEIGHT) % P == lo + top * TOP_WEIGHT
    ensures top' / 128 % 2 == 0 ==> top' >= 256
    ensures top' / 128 % 2 == 0 ==> (lo + top * TOP_WEIGHT) % P == lo' + (top' - 256) * TOP_WEIGHT
  {
    assert top' >= 128;
    if top' < 256 {
      assert lo + top * TOP_WEIGHT < P;
    } else {
      assert P <= lo + top * TOP_WEIGHT < 2 * P;
    }
  }

  lemma LowBytesTop(s: seq<int>)
    requires |s| == LIMBS && (forall i :: 0 <= i < 31 ==> 0 <= s[i] <= 255) && 0 <= s[31] <= 260
    ensures LowBytes(s) == if s[31] < 256 then s else s[31 := s[31] - 256]
  {
    var t := if s[31] < 256 then s else s[31 := s[31] - 256];
    forall i | 0 <= i < |s|
      ensures LowByte(s[i]) == t[i]
    {
    }
  }

  lemma FreezeValue(orig: seq<int>, sum: seq<int>)
    requires Squeezed(orig)
    requires |sum| == LIMBS && (forall i :: 0 <= i < 31 ==> 0 <= sum[i] <= 255)
    requires 0 <= sum[31] <= 260 && Value(sum) == Value(orig) + P + 38
    ensures Value(LowBytes(if sum[31] / 128 % 2 == 1 then orig else sum)) == Value(orig) % P
  {
    TopSplit(orig);
    TopSplit(sum);
    FreezeArith(Value(orig[31 := 0]), orig[31], Value(sum[31 := 0]), sum[31]);
    if sum[31] / 128 % 2 == 1 {
      LowBytesTop(orig);
    } else {
      LowBytesTop(sum);
      var low := sum[31 := sum[31] - 256];
      assert low[31 := 0] == sum[31 := 0];
      TopSplit(low);
    }
  }

  lemma MinusP(m: seq<int>)
    requires |m| == LIMBS && m[0] == 19 && m[31] == 128
    requires forall i :: 1 <= i < 31 ==> m[i] == 0
    ensures Value(m) == P + 38
  {
    var z := seq(31, i => 0);
    ValueZero(z);
    assert m[1..] == z[31 - 1 := z[31 - 1] + 128];
    ValueTop(z, 128);
    RadixTop();
  }

  /** The masked copy at the end of `freeze`. */
  method Restore(a: array<Word>, aorig: array<Word>, negative: Word)
    requires a.Length == aorig.Length == LIMBS && a != aorig
    requires negative == 0 || negative == 0xFFFF_FFFF
    modifies a
    ensures a[..] == if negative == 0 then old(a[..]) else aorig[..]
  {
    for j := 0 to LIMBS
      invariant forall k :: j <= k < LIMBS ==> a[k] == old(a[k])
      invariant forall k :: 0 <= k < j ==> a[k] == if negative == 0 then old(a[k]) else aorig[k]
    {
      MaskSelects(a[j], aorig[j], negative);
      XorCommutes(a[j], aorig[j], 32);
      a[j] := Xor(a[j], And(negative, Xor(aorig[j], a[j])));
    }
  }

  /** freeze: afterwards the low bytes of the limbs are the canonical encoding. */
  method Freeze(a: array<Word>)
    requires a.Length == LIMBS && Squeezed(a[..])
    modifies a
    ensures Value(LowBytes(a[..])) == old(Res(a[..]))
  {
    var aorig := new Word[LIMBS];
    var minusp := new Word[LIMBS](i => if i == 0 then 19 else if i == 31 then 128 else 0);
    ghost var m: seq<int> := minusp[..];
    for j := 0 to LIMBS
      invariant a[..] == old(a[..]) && minusp[..] == m
      invariant aorig[..j] == a[..j]
    {
      aorig[j] := a[j];
    }
    MinusP(m);
    assert aorig[..] == a[..];
    Add(a, a, minusp);
    FreezeValue(aorig[..], a[..]);
    var negative := WrapSub(0, (a[31] / 128) % 2);
    Restore(a, aorig, negative);
  }
}
