/** Little-endian radix-256 numbers: the value of a limb vector, and how it
    behaves under limbwise sums, changes of the top limb and carry propagation. */
module Limbs {

  /** 256 to the power `k`: the weight of limb `k`. */
  function Radix(k: nat): (r: nat)
    ensures r > 0
  {
    if k == 0 then 1 else 256 * Radix(k - 1)
  }

  /** The integer a limb vector stands for; limbs need not be reduced. */
  function Value(s: seq<int>): int {
    if |s| == 0 then 0 else s[0] + 256 * Value(s[1..])
  }

  /** u & 255. */
  function LowByte(u: int): int { u % 256 }

  /** u >> 8. */
  function Shr8(u: int): int { u / 256 }

  ghost predicate IsSum(s: seq<int>, c: int, t: seq<int>, r: seq<int>) {
    |s| == |t| == |r| && forall i :: 0 <= i < |s| ==> r[i] == s[i] + c * t[i]
  }

  /** `Value` is linear in the limbs. */
  lemma {:induction false} ValueLinear(s: seq<int>, c: int, t: seq<int>, r: seq<int>)
    requires IsSum(s, c, t, r)
    ensures Value(r) == Value(s) + c * Value(t)
  {
    if |s| > 0 {
      ValueLinear(s[1..], c, t[1..], r[1..]);
      Distribute(c, t[0], Value(t[1..]));
    }
  }

  lemma Distribute(c: int, x: int, v: int)
    ensures c * (x + 256 * v) == c * x + 256 * (c * v)
  {
  }

  lemma {:induction false} ValueZero(s: seq<int>)
    requires forall i :: 0 <= i < |s| ==> s[i] == 0
    ensures Value(s) == 0
  {
    if |s| > 0 {
      ValueZero(s[1..]);
    }
  }

  /** Adding `d` to the top limb adds `d` times its weight. */
  lemma {:induction false} ValueTop(s: seq<int>, d: int)
    requires |s| > 0
    ensures Value(s[|s| - 1 := s[|s| - 1] + d]) == Value(s) + d * Radix(|s| - 1)
  {
    var n := |s| - 1;
    var t := s[n := s[n] + d];
    if n > 0 {
      ValueTop(s[1..], d);
      assert t[1..] == s[1..][n - 1 := s[1..][n - 1] + d];
      assert 256 * (d * Radix(n - 1)) == d * (256 * Radix(n - 1));
    }
  }

  lemma {:induction false} ValuePush(s: seq<int>, x: int)
    ensures Value(s + [x]) == Value(s) + x * Radix(|s|)
  {
    if |s| > 0 {
      ValuePush(s[1..], x);
      assert (s + [x])[1..] == s[1..] + [x];
      assert 256 * (x * Radix(|s| - 1)) == x * (256 * Radix(|s| - 1));
    }
  }

  lemma {:induction false} ValueBounds(s: seq<int>)
    requires forall i :: 0 <= i < |s| ==> 0 <= s[i] <= 255
    ensures 0 <= Value(s) < Radix(|s|)
  {
    if |s| > 0 {
      ValueBounds(s[1..]);
    }
  }

  /** Reduced limb vectors of equal length and equal value are equal. */
  lemma {:induction false} ValueInjective(s: seq<int>, t: seq<int>)
    requires |s| == |t| && Value(s) == Value(t)
    requires forall i :: 0 <= i < |s| ==> 0 <= s[i] <= 255
    requires forall i :: 0 <= i < |t| ==> 0 <= t[i] <= 255
    ensures s == t
  {
    if |s| > 0 {
      assert s[0] == t[0];
      ValueInjective(s[1..], t[1..]);
      assert s == [s[0]] + s[1..] && t == [t[0]] + t[1..];
    }
  }

  /** The carry into column `j` when the columns `x` are added from the right
      starting with carry `u`. */
  ghost function Carry(x: seq<int>, u: int, j: nat): int
    requires j <= |x|
    decreases j, x, u
  {
    if j == 0 then u else Shr8(Carry(x, u, j - 1) + x[j - 1])
  }

  /** The first `n` limbs of `out` are what carry propagation over `x` writes. */
  ghost predicate Digits(x: seq<int>, u: int, n: nat, out: seq<int>) {
    n <= |x| && n <= |out|
    && forall j {:trigger out[j]} :: 0 <= j < n ==> out[j] == LowByte(Carry(x, u, j) + x[j])
  }

  /** Writing column `j` extends the digits by one. */
  lemma DigitsStep(x: seq<int>, u: int, j: nat, t: int, out: seq<int>, out': seq<int>)
    requires j < |x| && j < |out| && Digits(x, u, j, out)
    requires t == Carry(x, u, j) + x[j] && out' == out[j := LowByte(t)]
    ensures Digits(x, u, j + 1, out')
    ensures Carry(x, u, j + 1) == Shr8(t)
  {
    forall k {:trigger out'[k]} | 0 <= k < j + 1
      ensures out'[k] == LowByte(Carry(x, u, k) + x[k])
    {
      if k < j {
        assert out'[k] == out[k];
      }
    }
  }

  lemma {:induction false} CarryShift(x: seq<int>, u: int, j: nat)
    requires 0 < |x| && j < |x|
    ensures Carry(x[1..], Shr8(u + x[0]), j) == Carry(x, u, j + 1)
  {
    if j > 0 {
      CarryShift(x, u, j - 1);
    }
  }

  /** Propagating carries keeps the value when the last limb absorbs the last carry. */
  lemma {:induction false} CarryTotal(x: seq<int>, u: int, out: seq<int>)
    requires |x| == |out| > 0
    requires Digits(x, u, |x| - 1, out)
    requires out[|x| - 1] == Carry(x, u, |x| - 1) + x[|x| - 1]
    ensures Value(out) == Value(x) + u
  {
    var n := |x| - 1;
    if n == 0 {
      assert Value(out[1..]) == Value(x[1..]) == 0;
    } else {
      CarryShift(x, u, n - 1);
      forall j {:trigger out[1..][j]} | 0 <= j < n - 1
        ensures out[1..][j] == LowByte(Carry(x[1..], Shr8(u + x[0]), j) + x[1..][j])
      {
        CarryShift(x, u, j);
        assert out[1..][j] == out[j + 1];
      }
      CarryTotal(x[1..], Shr8(u + x[0]), out[1..]);
      assert out[0] == LowByte(u + x[0]);
    }
  }
}
