/** The X25519 function as section 5 of RFC 7748 defines it, over integers modulo
    2^255 - 19.  This is the reference the limb arithmetic is proved against. */
module Rfc7748 {
  import opened Words
  import opened Limbs

  const P: nat := 0x7fffffff_ffffffff_ffffffff_ffffffff_ffffffff_ffffffff_ffffffff_ffffffed

  function FAdd(a: int, b: int): int { (a + b) % P }
  function FSub(a: int, b: int): int { (a - b) % P }
  function FMul(a: int, b: int): int { (a * b) % P }

  function FPow(a: int, e: nat): int
    decreases e, a
  {
    if e == 0 then 1 else FMul(FPow(a, e - 1), a)
  }

  /** The ladder variables x_2, z_2, x_3, z_3 and the pending swap. */
  datatype Ladder = Ladder(x2: int, z2: int, x3: int, z3: int, swap: bool)

  function CSwap(swap: bool, s: Ladder): Ladder {
    if swap then s.(x2 := s.x3, z2 := s.z3, x3 := s.x2, z3 := s.z2) else s
  }

  /** The arithmetic of one ladder iteration, after the conditional swap. */
  function LadderArith(x1: int, s: Ladder): Ladder {
    var a := FAdd(s.x2, s.z2);
    var aa := FMul(a, a);
    var b := FSub(s.x2, s.z2);
    var bb := FMul(b, b);
    var e := FSub(aa, bb);
    var c := FAdd(s.x3, s.z3);
    var d := FSub(s.x3, s.z3);
    var da := FMul(d, a);
    var cb := FMul(c, b);
    Ladder(FMul(aa, bb),
           FMul(e, FAdd(aa, FMul(121665, e))),
           FMul(FAdd(da, cb), FAdd(da, cb)),
           FMul(x1, FMul(FSub(da, cb), FSub(da, cb))),
           s.swap)
  }

  /** One iteration with scalar bit `kt`. */
  function LadderStep(x1: int, kt: bool, s: Ladder): Ladder {
    LadderArith(x1, CSwap(s.swap != kt, s).(swap := kt))
  }

  /** k >> t. */
  function Shr(k: nat, t: nat): nat {
    if t == 0 then k else Shr(k, t - 1) / 2
  }

  function Bit(k: nat, t: nat): bool { Shr(k, t) % 2 == 1 }

  /** State after the iterations for bits 254 down to `t`. */
  function LadderRun(u: int, k: nat, t: nat): Ladder
    decreases 255 - t, u, k
  {
    if t >= 255 then Ladder(1, 0, u, 1, false)
    else LadderStep(u, Bit(k, t), LadderRun(u, k, t + 1))
  }

  function ClampScalar(n: seq<Byte>): seq<Byte>
    requires |n| == 32
  {
    var top := n[31] % 128;
    n[0 := n[0] / 8 * 8][31 := if top < 64 then top + 64 else top]
  }

  function MaskPoint(u: seq<Byte>): seq<Byte>
    requires |u| == 32
  {
    u[31 := u[31] % 128]
  }

  function DecodeScalar(n: seq<Byte>): nat
    requires |n| == 32
  {
    ValueBounds(ClampScalar(n));
    Value(ClampScalar(n))
  }

  function DecodeU(u: seq<Byte>): int
    requires |u| == 32
  {
    Value(MaskPoint(u)) % P
  }

  /** x_2 * z_2^(p - 2) after all 255 iterations and the final swap. */
  function X25519(n: seq<Byte>, u: seq<Byte>): (r: int)
    requires |n| == |u| == 32
    ensures 0 <= r < P
  {
    var k, x1 := DecodeScalar(n), DecodeU(u);
    var last := LadderRun(x1, k, 0);
    var s := CSwap(last.swap, last);
    FMul(s.x2, FPow(s.z2, P - 2))
  }
}
