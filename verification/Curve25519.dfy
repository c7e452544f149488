/** The Montgomery ladder, the inversion chain and the `curve25519` entry point
    (src/curve25519.c), proved against section 5 of RFC 7748. */
module Curve25519 {
  import opened Words
  import opened Limbs
  import opened Rfc7748
  import opened Field25519
  import opened Montgomery

  /** Ladder coordinates held by the limb arrays; the pending swap is always done. */
  ghost function Held(xm: seq<int>, zm: seq<int>, xm1: seq<int>, zm1: seq<int>): Ladder {
    Ladder(Res(xm), Res(zm), Res(xm1), Res(zm1), false)
  }

  ghost predicate AllSqueezed(xm: seq<int>, zm: seq<int>, xm1: seq<int>, zm1: seq<int>) {
    Squeezed(xm) && Squeezed(zm) && Squeezed(xm1) && Squeezed(zm1)
  }

  ghost method SquareOfDifference(a: int, b: int)
    ensures FMul(FSub(a, b), FSub(a, b)) == FMul(FSub(b, a), FSub(b, a))
  {
    ResMul(a - b, a - b);
    ResMul(b - a, b - a);
    assert (a - b) * (a - b) == (b - a) * (b - a);
  }

  lemma Commute(a: int, b: int)
    ensures FMul(a, b) == FMul(b, a) && FAdd(a, b) == FAdd(b, a)
  {
  }

  /** x + z and x - z. */
  method SumAndDifference(x: array<Word>, z: array<Word>) returns (plus: array<Word>, minus: array<Word>)
    requires x.Length == z.Length == LIMBS
    requires Squeezed(x[..]) && Squeezed(z[..])
    ensures fresh(plus) && fresh(minus) && plus != minus
    ensures plus.Length == minus.Length == LIMBS
    ensures Loose(plus[..]) && Loose(minus[..])
    ensures Res(plus[..]) == FAdd(Res(x[..]), Res(z[..]))
    ensures Res(minus[..]) == FSub(Res(x[..]), Res(z[..]))
  {
    plus, minus := new Word[LIMBS], new Word[LIMBS];
    Add(plus, x, z);
    Sub(minus, x, z);
  }

  /** E * (AA + a24 * E) with E = AA - BB. */
  method NextZ(aa: array<Word>, bb: array<Word>) returns (zn: array<Word>)
    requires aa.Length == bb.Length == LIMBS
    requires Squeezed(aa[..]) && Squeezed(bb[..])
    ensures fresh(zn) && zn.Length == LIMBS && Squeezed(zn[..])
    ensures var e := FSub(Res(aa[..]), Res(bb[..]));
            Res(zn[..]) == FMul(e, FAdd(Res(aa[..]), FMul(121665, e)))
  {
    var s, t, u := new Word[LIMBS], new Word[LIMBS], new Word[LIMBS];
    zn := new Word[LIMBS];
    Sub(s, aa, bb);
    Mult121665(t, s);
    Add(u, t, aa);
    Mult(zn, s, u);
    Commute(Res(t[..]), Res(aa[..]));
  }

  /** x_2 and z_2 of the next state from A = x_2 + z_2 and B = x_2 - z_2. */
  method Doubling(a: array<Word>, b: array<Word>) returns (xn: array<Word>, zn: array<Word>)
    requires a.Length == b.Length == LIMBS
    requires Loose(a[..]) && Loose(b[..])
    ensures fresh(xn) && fresh(zn) && xn != zn && xn.Length == zn.Length == LIMBS
    ensures Squeezed(xn[..]) && Squeezed(zn[..])
    ensures var aa, bb := FMul(Res(a[..]), Res(a[..])), FMul(Res(b[..]), Res(b[..]));
            Res(xn[..]) == FMul(aa, bb)
            && Res(zn[..]) == FMul(FSub(aa, bb), FAdd(aa, FMul(121665, FSub(aa, bb))))
  {
    var aa, bb := new Word[LIMBS], new Word[LIMBS];
    xn := new Word[LIMBS];
    Square(aa, a);
    Square(bb, b);
    Mult(xn, aa, bb);
    zn := NextZ(aa, bb);
  }

  /** (CB + DA)^2 and x_1 * (CB - DA)^2. */
  method SquaresOf(cb: array<Word>, da: array<Word>, work: array<Word>)
    returns (xn1: array<Word>, zn1: array<Word>)
    requires cb.Length == da.Length == work.Length == LIMBS
    requires Squeezed(cb[..]) && Squeezed(da[..]) && Squeezed(work[..])
    ensures fresh(xn1) && fresh(zn1) && xn1 != zn1 && xn1.Length == zn1.Length == LIMBS
    ensures Squeezed(xn1[..]) && Squeezed(zn1[..])
    ensures var plus, minus := FAdd(Res(cb[..]), Res(da[..])), FSub(Res(cb[..]), Res(da[..]));
            Res(xn1[..]) == FMul(plus, plus) && Res(zn1[..]) == FMul(Res(work[..]), FMul(minus, minus))
  {
    var r := new Word[LIMBS];
    xn1, zn1 := new Word[LIMBS], new Word[LIMBS];
    var plus, minus := SumAndDifference(cb, da);
    Square(r, minus);
    Square(xn1, plus);
    Mult(zn1, r, work);
    Commute(Res(r[..]), Res(work[..]));
  }

  /** x_3 and z_3 of the next state from A, B, C = x_3 + z_3, D = x_3 - z_3 and x_1. */
  method DifferentialAdd(a: array<Word>, b: array<Word>, c: array<Word>, d: array<Word>, work: array<Word>)
    returns (xn1: array<Word>, zn1: array<Word>)
    requires a.Length == b.Length == c.Length == d.Length == work.Length == LIMBS
    requires Loose(a[..]) && Loose(b[..]) && Loose(c[..]) && Loose(d[..]) && Squeezed(work[..])
    ensures fresh(xn1) && fresh(zn1) && xn1 != zn1 && xn1.Length == zn1.Length == LIMBS
    ensures Squeezed(xn1[..]) && Squeezed(zn1[..])
    ensures var da, cb := FMul(Res(d[..]), Res(a[..])), FMul(Res(c[..]), Res(b[..]));
            Res(xn1[..]) == FMul(FAdd(da, cb), FAdd(da, cb))
            && Res(zn1[..]) == FMul(Res(work[..]), FMul(FSub(da, cb), FSub(da, cb)))
  {
    var cb, da := new Word[LIMBS], new Word[LIMBS];
    Mult(cb, c, b);
    Mult(da, d, a);
    Commute(Res(cb[..]), Res(da[..]));
    SquareOfDifference(Res(cb[..]), Res(da[..]));
    xn1, zn1 := SquaresOf(cb, da, work);
  }

  /** The arithmetic of one iteration of `mainloop`, between the two selects. */
  method LadderCore(xb: array<Word>, zb: array<Word>, x1b: array<Word>, z1b: array<Word>, work: array<Word>)
    returns (xn: array<Word>, zn: array<Word>, xn1: array<Word>, zn1: array<Word>)
    requires xb.Length == zb.Length == x1b.Length == z1b.Length == work.Length == LIMBS
    requires AllSqueezed(xb[..], zb[..], x1b[..], z1b[..]) && Squeezed(work[..])
    ensures fresh(xn) && fresh(zn) && fresh(xn1) && fresh(zn1)
    ensures xn != zn && xn != xn1 && xn != zn1 && zn != xn1 && zn != zn1 && xn1 != zn1
    ensures xn.Length == zn.Length == xn1.Length == zn1.Length == LIMBS
    ensures AllSqueezed(xn[..], zn[..], xn1[..], zn1[..])
    ensures Held(xn[..], zn[..], xn1[..], zn1[..])
         == LadderArith(Res(work[..]), Held(xb[..], zb[..], x1b[..], z1b[..]))
  {
    var a0, a0' := SumAndDifference(xb, zb);
    var a1, a1' := SumAndDifference(x1b, z1b);
    xn, zn := Doubling(a0, a0');
    xn1, zn1 := DifferentialAdd(a0, a0', a1, a1', work);
  }

  /** A ladder state with its pending swap carried out. */
  ghost function Settled(s: Ladder): Ladder {
    CSwap(s.swap, s).(swap := false)
  }

  /** Swapping before and after each step is the RFC's ladder with its delayed swap. */
  lemma StepSettles(x1: int, kt: bool, s: Ladder)
    ensures Settled(LadderStep(x1, kt, s)) == CSwap(kt, LadderArith(x1, CSwap(kt, Settled(s))))
  {
  }

  /** One iteration of `mainloop`. */
  method Iteration(xm: array<Word>, zm: array<Word>, xm1: array<Word>, zm1: array<Word>,
                   work: array<Word>, b: Word)
    requires xm.Length == zm.Length == xm1.Length == zm1.Length == work.Length == LIMBS
    requires xm != zm && xm != xm1 && xm != zm1 && zm != xm1 && zm != zm1 && xm1 != zm1
    requires work != xm && work != zm && work != xm1 && work != zm1
    requires AllSqueezed(xm[..], zm[..], xm1[..], zm1[..]) && Squeezed(work[..]) && b <= 1
    modifies xm, zm, xm1, zm1
    ensures AllSqueezed(xm[..], zm[..], xm1[..], zm1[..])
    ensures Held(xm[..], zm[..], xm1[..], zm1[..])
         == CSwap(b == 1, LadderArith(Res(work[..]), CSwap(b == 1, old(Held(xm[..], zm[..], xm1[..], zm1[..])))))
  {
    var xb, zb, x1b, z1b := new Word[LIMBS], new Word[LIMBS], new Word[LIMBS], new Word[LIMBS];
    Select(xb, x1b, xm, xm1, b);
    Select(zb, z1b, zm, zm1, b);
    assert Held(xb[..], zb[..], x1b[..], z1b[..]) == CSwap(b == 1, old(Held(xm[..], zm[..], xm1[..], zm1[..])));
    var xn, zn, xn1, zn1 := LadderCore(xb, zb, x1b, z1b, work);
    Select(xm, xm1, xn, xn1, b);
    Select(zm, zm1, zn, zn1, b);
  }

  lemma {:induction false} ShrWithinByte(v: nat, b: nat, t: nat)
    requires t <= 8
    ensures Shr(b + 256 * v, t) == Shr(b, t) + Pow2(8 - t) * v
  {
    if t == 0 {
      assert Pow2(8) == 256;
    } else {
      ShrWithinByte(v, b, t - 1);
      var half := Pow2(8 - t) * v;
      assert Pow2(9 - t) * v == 2 * half;
    }
  }

  lemma BitWithinByte(v: nat, b: nat, t: nat)
    requires t < 8
    ensures Bit(b + 256 * v, t) == Bit(b, t)
  {
    ShrWithinByte(v, b, t);
    var half := Pow2(7 - t) * v;
    assert Pow2(8 - t) * v == 2 * half;
    EvenOffset(Shr(b, t), half);
  }

  lemma EvenOffset(x: int, half: int)
    ensures (x + 2 * half) % 2 == x % 2
  {
  }

  lemma {:induction false} ShrPastByte(v: nat, b: Byte, t: nat)
    requires t >= 8
    ensures Shr(b + 256 * v, t) == Shr(v, t - 8)
  {
    if t == 8 {
      ShrWithinByte(v, b, 8);
      assert Pow2(0) * v == v;
      ShrBelow(b, 8);
    } else {
      ShrPastByte(v, b, t - 1);
    }
  }

  lemma {:induction false} ShrBelow(b: nat, t: nat)
    requires t <= 8 && b < 256
    ensures Shr(b, t) < Pow2(8 - t)
  {
    if t > 0 {
      ShrBelow(b, t - 1);
      assert Pow2(9 - t) == 2 * Pow2(8 - t);
    } else {
      assert Pow2(8) == 256;
    }
  }

  /** Bit `t` of the scalar is bit `t % 8` of byte `t / 8`. */
  lemma {:induction false} ScalarBit(e: seq<Byte>, t: nat)
    requires t < 8 * |e|
    ensures 0 <= Value(e) && Bit(Value(e), t) == Bit(e[t / 8], t % 8)
  {
    ValueBounds(e);
    ValueBounds(e[1..]);
    var v: nat := Value(e[1..]);
    if t < 8 {
      BitWithinByte(v, e[0], t);
      assert t / 8 == 0 && t % 8 == t;
    } else {
      ScalarBit(e[1..], t - 8);
      ShrPastByte(v, e[0], t);
      assert t / 8 == (t - 8) / 8 + 1 && t % 8 == (t - 8) % 8;
    }
  }

  /** Initial ladder state: (1 : 0) and (x_1 : 1). */
  method StartLadder(work: array<Word>)
    returns (xm: array<Word>, zm: array<Word>, xm1: array<Word>, zm1: array<Word>)
    requires work.Length == LIMBS && Squeezed(work[..])
    ensures fresh(xm) && fresh(zm) && fresh(xm1) && fresh(zm1)
    ensures xm != zm && xm != xm1 && xm != zm1 && zm != xm1 && zm != zm1 && xm1 != zm1
    ensures xm.Length == zm.Length == xm1.Length == zm1.Length == LIMBS
    ensures AllSqueezed(xm[..], zm[..], xm1[..], zm1[..])
    ensures Held(xm[..], zm[..], xm1[..], zm1[..]) == Ladder(1, 0, Res(work[..]), 1, false)
  {
    xm1 := new Word[LIMBS](j requires 0 <= j < LIMBS reads work => work[j]);
    zm1 := new Word[LIMBS](j => if j == 0 then 1 else 0);
    xm := new Word[LIMBS](j => if j == 0 then 1 else 0);
    zm := new Word[LIMBS](j => 0);
    assert xm1[..] == work[..];
    UnitValue(xm[..]);
    UnitValue(zm1[..]);
    ValueZero(zm[..]);
  }

  /** One more scalar bit: limb state and RFC ladder advance together. */
  method LadderBit(xm: array<Word>, zm: array<Word>, xm1: array<Word>, zm1: array<Word>,
                   work: array<Word>, e: seq<Byte>, pos: nat)
    requires xm.Length == zm.Length == xm1.Length == zm1.Length == work.Length == |e| == LIMBS
    requires xm != zm && xm != xm1 && xm != zm1 && zm != xm1 && zm != zm1 && xm1 != zm1
    requires work != xm && work != zm && work != xm1 && work != zm1
    requires AllSqueezed(xm[..], zm[..], xm1[..], zm1[..]) && Squeezed(work[..]) && pos < 255
    requires 0 <= Value(e)
    requires Held(xm[..], zm[..], xm1[..], zm1[..]) == Settled(LadderRun(Res(work[..]), Value(e), pos + 1))
    modifies xm, zm, xm1, zm1
    ensures AllSqueezed(xm[..], zm[..], xm1[..], zm1[..])
    ensures Held(xm[..], zm[..], xm1[..], zm1[..]) == Settled(LadderRun(Res(work[..]), Value(e), pos))
  {
    var b := Shr(e[pos / 8], pos % 8) % 2;
    ScalarBit(e, pos);
    Iteration(xm, zm, xm1, zm1, work, b);
    RunStep(Res(work[..]), Value(e), pos);
  }

  lemma RunStep(x1: int, k: nat, t: nat)
    requires t < 255
    ensures Settled(LadderRun(x1, k, t))
         == CSwap(Bit(k, t), LadderArith(x1, CSwap(Bit(k, t), Settled(LadderRun(x1, k, t + 1)))))
  {
    StepSettles(x1, Bit(k, t), LadderRun(x1, k, t + 1));
  }

  /** The 255 iterations. */
  method LadderLoop(xm: array<Word>, zm: array<Word>, xm1: array<Word>, zm1: array<Word>,
                    work: array<Word>, e: seq<Byte>)
    requires xm.Length == zm.Length == xm1.Length == zm1.Length == work.Length == |e| == LIMBS
    requires xm != zm && xm != xm1 && xm != zm1 && zm != xm1 && zm != zm1 && xm1 != zm1
    requires work != xm && work != zm && work != xm1 && work != zm1
    requires AllSqueezed(xm[..], zm[..], xm1[..], zm1[..]) && Squeezed(work[..])
    requires 0 <= Value(e)
    requires Held(xm[..], zm[..], xm1[..], zm1[..]) == Ladder(1, 0, Res(work[..]), 1, false)
    modifies xm, zm, xm1, zm1
    ensures AllSqueezed(xm[..], zm[..], xm1[..], zm1[..])
    ensures Held(xm[..], zm[..], xm1[..], zm1[..]) == Settled(LadderRun(Res(work[..]), Value(e), 0))
  {
    ghost var W := work[..];
    var pos := 254;
    while pos >= 0
      invariant -1 <= pos <= 254
      invariant work[..] == W
      invariant AllSqueezed(xm[..], zm[..], xm1[..], zm1[..])
      invariant Held(xm[..], zm[..], xm1[..], zm1[..]) == Settled(LadderRun(Res(W), Value(e), pos + 1))
    {
      LadderBit(xm, zm, xm1, zm1, work, e, pos);
      pos := pos - 1;
    }
  }

  /** mainloop: `work` comes in as x_1; X and Z of the ladder's result go out in `work` and `work1`. */
  method MainLoop(work: array<Word>, work1: array<Word>, e: seq<Byte>)
    requires work.Length == work1.Length == |e| == LIMBS && work != work1
    requires Squeezed(work[..])
    modifies work, work1
    ensures Squeezed(work[..]) && Squeezed(work1[..])
    ensures 0 <= Value(e)
    ensures var s := Settled(LadderRun(old(Res(work[..])), Value(e), 0));
            Res(work[..]) == s.x2 && Res(work1[..]) == s.z2
  {
    ValueBounds(e);
    var xm, zm, xm1, zm1 := StartLadder(work);
    LadderLoop(xm, zm, xm1, zm1, work, e);
    Copy(work, xm);
    Copy(work1, zm);
  }

  method Copy(dst: array<Word>, src: array<Word>)
    requires dst.Length == src.Length && dst != src
    modifies dst
    ensures dst[..] == src[..]
  {
    for j := 0 to src.Length
      invariant dst[..j] == src[..j]
    {
      dst[j] := src[j];
    }
  }

  lemma UnitValue(s: seq<int>)
    requires |s| > 0 && s[0] == 1 && forall i :: 1 <= i < |s| ==> s[i] == 0
    ensures Value(s) == 1
  {
    ValueZero(s[1..]);
  }

  // ---- inversion ----

  ghost predicate IsResidue(f: int -> int, x: int) { f(x) == x % P }

  /** `f` is reduction modulo p. */
  ghost predicate Reduces(f: int -> int) { forall x {:trigger IsResidue(f, x)} :: IsResidue(f, x) }

  ghost function Residue(): int -> int { x => x % P }

  lemma MulResidues(f: int -> int, x: int, y: int)
    requires Reduces(f)
    ensures f(f(x) * y) == f(x * y) == f(x * f(y))
  {
    assert IsResidue(f, x) && IsResidue(f, y) && IsResidue(f, f(x) * y) && IsResidue(f, x * y) && IsResidue(f, x * f(y));
    ResMul(x, y);
    ResMul(x % P, y);
    ResMul(x, y % P);
    assert x % P % P == x % P && y % P % P == y % P;
  }

  lemma MulAssociates(f: int -> int, x: int, y: int, z: int)
    requires Reduces(f)
    ensures f(f(x * y) * z) == f(x * f(y * z))
  {
    var xy, yz := x * y, y * z;
    MulResidues(f, xy, z);
    MulResidues(f, x, yz);
    assert xy * z == x * yz;
  }

  lemma ResidueReduces()
    ensures Reduces(Residue())
  {
  }

  /** Exponents add. */
  lemma {:induction false} FPowAdd(a: int, e: nat, f: nat)
    ensures FPow(a, e + f) == FMul(FPow(a, e), FPow(a, f))
  {
    if f == 0 {
      FPowReduced(a, e);
    } else {
      FPowAdd(a, e, f - 1);
      ResidueReduces();
      MulAssociates(Residue(), FPow(a, e), FPow(a, f - 1), a);
    }
  }

  lemma FPowReduced(a: int, e: nat)
    ensures 0 <= FPow(a, e) < P
    ensures FMul(FPow(a, e), 1) == FPow(a, e)
  {
  }

  /** The limbs hold base^e. */
  ghost predicate Holds(s: seq<int>, base: int, e: nat) {
    Squeezed(s) && Res(s) == FPow(base, e)
  }

  /** square, seen as doubling the exponent. */
  method PowSquare(out: array<Word>, a: array<Word>, ghost base: int, ghost e: nat)
    requires out.Length == a.Length == LIMBS && out != a
    requires Holds(a[..], base, e)
    modifies out
    ensures Holds(out[..], base, 2 * e)
  {
    Square(out, a);
    FPowAdd(base, e, e);
  }

  /** mult, seen as adding exponents. */
  method PowMult(out: array<Word>, a: array<Word>, b: array<Word>, ghost base: int, ghost e: nat, ghost f: nat)
    requires out.Length == a.Length == b.Length == LIMBS && out != a && out != b
    requires Holds(a[..], base, e) && Holds(b[..], base, f)
    modifies out
    ensures Holds(out[..], base, e + f)
  {
    Mult(out, a, b);
    FPowAdd(base, e, f);
  }

  /** `n` squarings of `src`, alternating between two buffers; the result is in `t1`. */
  method PowRun(t0: array<Word>, t1: array<Word>, src: array<Word>, n: nat, ghost base: int, ghost e: nat)
    requires t0.Length == t1.Length == src.Length == LIMBS && t0 != t1 && t0 != src
    requires Holds(src[..], base, e) && n >= 2 && n % 2 == 0
    modifies t0, t1
    ensures Holds(t1[..], base, e * Pow2(n))
  {
    PowSquare(t0, src, base, e);
    PowSquare(t1, t0, base, 2 * e);
    var i := 2;
    while i < n
      invariant 2 <= i <= n && i % 2 == 0
      invariant Holds(t1[..], base, e * Pow2(i))
    {
      PowSquare(t0, t1, base, e * Pow2(i));
      PowSquare(t1, t0, base, 2 * (e * Pow2(i)));
      DoubleTwice(e, i);
      i := i + 2;
    }
  }

  lemma DoubleTwice(e: nat, i: nat)
    ensures 2 * (2 * (e * Pow2(i))) == e * Pow2(i + 2)
  {
    assert Pow2(i + 2) == 4 * Pow2(i);
  }

  /** 2^k - 1, the exponent of the chain's buffers z2_k_0. */
  ghost function Ones(k: nat): nat { Pow2(k) - 1 }

  lemma OnesGrow(j: nat, k: nat)
    ensures Ones(j) * Pow2(k) + Ones(k) == Ones(j + k)
  {
    Pow2Adds(j, k);
    assert (Pow2(j) - 1) * Pow2(k) == Pow2(j) * Pow2(k) - Pow2(k);
  }

  /** One link of the chain: `k` squarings of x = base^(2^j - 1), times y = base^(2^k - 1). */
  method Grow(out: array<Word>, x: array<Word>, y: array<Word>, k: nat, ghost base: int, ghost j: nat)
    requires out.Length == x.Length == y.Length == LIMBS && out != x && out != y
    requires Holds(x[..], base, Ones(j)) && Holds(y[..], base, Ones(k)) && k >= 2 && k % 2 == 0
    modifies out
    ensures Holds(out[..], base, Ones(j + k))
  {
    var t0, t1 := new Word[LIMBS], new Word[LIMBS];
    PowRun(t0, t1, x, k, base, Ones(j));
    PowMult(out, t1, y, base, Ones(j) * Pow2(k), Ones(k));
    OnesGrow(j, k);
  }

  /** Five squarings, as the source writes them out. */
  method FiveSquares(out: array<Word>, x: array<Word>, ghost base: int, ghost e: nat)
    requires out.Length == x.Length == LIMBS && out != x && Holds(x[..], base, e)
    modifies out
    ensures Holds(out[..], base, 32 * e)
  {
    var t := new Word[LIMBS];
    PowSquare(out, x, base, e);
    PowSquare(t, out, base, 2 * e);
    PowSquare(out, t, base, 4 * e);
    PowSquare(t, out, base, 8 * e);
    PowSquare(out, t, base, 16 * e);
  }

  /** z^11 and z^31. */
  method ChainStart(z: array<Word>) returns (z11: array<Word>, z5: array<Word>)
    requires z.Length == LIMBS && Squeezed(z[..])
    ensures fresh(z11) && fresh(z5) && z11 != z5 && z11.Length == z5.Length == LIMBS
    ensures Holds(z11[..], Res(z[..]), 11) && Holds(z5[..], Res(z[..]), Ones(5))
  {
    ghost var base := Res(z[..]);
    assert FPow(base, 1) == FMul(FPow(base, 0), base) == base;
    assert Pow2(5) == 32;
    var z2, z9, t0, t1 := new Word[LIMBS], new Word[LIMBS], new Word[LIMBS], new Word[LIMBS];
    z11, z5 := new Word[LIMBS], new Word[LIMBS];
    PowSquare(z2, z, base, 1);
    PowSquare(t1, z2, base, 2);
    PowSquare(t0, t1, base, 4);
    PowMult(z9, t0, z, base, 8, 1);
    PowMult(z11, z9, z2, base, 9, 2);
    PowSquare(t0, z11, base, 11);
    PowMult(z5, t0, z9, base, 22, 9);
  }

  /** z^(2^50 - 1) from z^31. */
  method ChainTo50(z5: array<Word>, ghost base: int) returns (z50: array<Word>)
    requires z5.Length == LIMBS && Holds(z5[..], base, Ones(5))
    ensures fresh(z50) && z50.Length == LIMBS && Holds(z50[..], base, Ones(50))
  {
    var t, z10, z20 := new Word[LIMBS], new Word[LIMBS], new Word[LIMBS];
    z50 := new Word[LIMBS];
    assert Pow2(5) == 32;
    FiveSquares(t, z5, base, Ones(5));
    PowMult(z10, t, z5, base, 32 * Ones(5), Ones(5));
    OnesGrow(5, 5);
    Grow(z20, z10, z10, 10, base, 10);
    Grow(t, z20, z20, 20, base, 20);
    Grow(z50, t, z10, 10, base, 40);
  }

  /** z^(2^250 - 1) from z^(2^50 - 1). */
  method ChainTo250(z50: array<Word>, ghost base: int) returns (z250: array<Word>)
    requires z50.Length == LIMBS && Holds(z50[..], base, Ones(50))
    ensures fresh(z250) && z250.Length == LIMBS && Holds(z250[..], base, Ones(250))
  {
    var t1, z100 := new Word[LIMBS], new Word[LIMBS];
    z250 := new Word[LIMBS];
    Grow(z100, z50, z50, 50, base, 50);
    Grow(t1, z100, z100, 100, base, 100);
    Grow(z250, t1, z50, 50, base, 200);
  }

  lemma {:induction false} Pow2Bytes(n: nat)
    ensures Pow2(8 * n) == Radix(n)
  {
    if n > 0 {
      Pow2Bytes(n - 1);
      Pow2Adds(8 * (n - 1), 8);
      assert Pow2(8) == 256;
    }
  }

  /** 2^255 - 32 + 11 is p - 2. */
  lemma ChainExponent()
    ensures 32 * Ones(250) + 11 == P - 2
  {
    Pow2Bytes(31);
    RadixTop();
    Pow2Adds(248, 2);
    assert Pow2(2) == 4;
  }

  /** recip: z^(p - 2), the inverse of z for prime p. */
  method Recip(out: array<Word>, z: array<Word>)
    requires out.Length == z.Length == LIMBS && Squeezed(z[..])
    modifies out
    ensures Holds(out[..], old(Res(z[..])), P - 2)
  {
    ghost var base := Res(z[..]);
    var z11, z5 := ChainStart(z);
    var z50 := ChainTo50(z5, base);
    var z250 := ChainTo250(z50, base);
    var t1 := new Word[LIMBS];
    FiveSquares(t1, z250, base, Ones(250));
    PowMult(out, t1, z11, base, 32 * Ones(250), 11);
    ChainExponent();
  }

  // ---- entry point ----

  /** The unique 32-byte little-endian encoding of a number below 2^256. */
  ghost predicate Encodes(q: seq<Byte>, v: int) {
    |q| == LIMBS && Value(q) == v
  }

  lemma EncodingUnique(q: seq<Byte>, q': seq<Byte>, v: int)
    requires Encodes(q, v) && Encodes(q', v)
    ensures q == q'
  {
    ValueInjective(q, q');
  }

  method LoadPoint(p: array<Byte>) returns (work: array<Word>)
    requires p.Length == LIMBS
    ensures fresh(work) && work.Length == LIMBS
    ensures work[..] == MaskPoint(p[..])
  {
    work := new Word[LIMBS];
    for i := 0 to LIMBS
      invariant forall k :: 0 <= k < i ==> work[k] == p[k]
    {
      work[i] := p[i];
    }
    work[31] := work[31] % 128;
    forall i | 0 <= i < LIMBS
      ensures work[i] == MaskPoint(p[..])[i]
    {
    }
  }

  method StoreBytes(q: array<Byte>, work: array<Word>)
    requires q.Length == work.Length == LIMBS
    modifies q
    ensures q[..] == LowBytes(old(work[..]))
  {
    ghost var W := work[..];
    for i := 0 to LIMBS
      invariant work[..] == W
      invariant forall k :: 0 <= k < i ==> q[k] == LowByte(W[k])
    {
      q[i] := LowByte(work[i]);
    }
  }

  method LoadScalar(n: array<Byte>) returns (e: seq<Byte>)
    requires n.Length == LIMBS
    ensures e == ClampScalar(n[..])
  {
    e := n[..];
    e := e[0 := e[0] / 8 * 8];
    e := e[31 := e[31] % 128];
    e := e[31 := if e[31] < 64 then e[31] + 64 else e[31]];
  }

  /** curve25519: for every scalar and every point the 32 bytes written are the encoding
      of RFC 7748's X25519, which is the x-coordinate of the multiple of the point by the scalar
      with bits 0, 1, 2 and 255 cleared and bit 254 set.  The three buffers may overlap. */
  method Curve25519(q: array<Byte>, n: array<Byte>, p: array<Byte>)
    requires q.Length == n.Length == p.Length == LIMBS
    modifies q
    ensures Encodes(q[..], X25519(old(n[..]), old(p[..])))
    ensures Value(old(n[..])) >= 0
    ensures Encodes(q[..], MultipleX(Value(old(p[..])) % TWO_255 % P, Clamped(Value(old(n[..])))))
  {
    ghost var N, U := n[..], p[..];
    X25519Is(N, U);
    var e := LoadScalar(n);
    var work0 := LoadPoint(p);
    assert Squeezed(work0[..]);
    var work1, work2 := new Word[LIMBS], new Word[LIMBS];
    MainLoop(work0, work1, e);
    Recip(work1, work1);
    Mult(work2, work0, work1);
    ghost var product := Res(work2[..]);
    Freeze(work2);
    StoreBytes(q, work2);
    assert product == X25519(N, U);
  }
}
