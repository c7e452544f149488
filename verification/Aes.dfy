/** The plain C form of AES: key setup in place, table-driven encryption and decryption, and
    the context that `aes_init` fills. */
module Aes {
  import opened Fips197
  import opened AesTables
  import Cbc

  /** Words `0..n` of `rk` are the key schedule of `key`. */
  ghost predicate Scheduled(T: Tables, key: seq<Byte8>, nk: nat, rk: seq<Word>, n: nat)
    requires nk > 0 && 4 * nk <= |key|
  {
    n <= |rk| && forall j {:trigger rk[j]} :: 0 <= j < n ==> rk[j] == KeyWord(T, key, nk, j)
  }

  lemma Extend(T: Tables, key: seq<Byte8>, nk: nat, rk: seq<Word>, n: nat)
    requires nk > 0 && 4 * nk <= |key| && nk <= n < |rk|
    requires Scheduled(T, key, nk, rk, n)
    requires rk[n] == T.XorW(rk[n - nk], KeyTemp(T, nk, n, rk[n - 1]))
    ensures Scheduled(T, key, nk, rk, n + 1)
  {
    assert rk[n - nk] == KeyWord(T, key, nk, n - nk) && rk[n - 1] == KeyWord(T, key, nk, n - 1);
  }

  /** The masked lookups that open each turn of the key schedule. */
  method RotatedWord(T: Tables, k: Word, temp: Word, nk: nat, n: nat) returns (w: Word)
    requires T.Ok() && nk > 0 && n >= nk && n % nk == 0 && n / nk <= 10
    ensures w == T.XorW(k, KeyTemp(T, nk, n, temp))
  {
    var i := n / nk - 1;
    w := T.XorW(T.XorW(T.XorW(T.XorW(T.XorW(k, Mask3(Te4(T, temp.b2))), Mask2(Te4(T, temp.b1))),
                                            Mask1(Te4(T, temp.b0))), Mask0(Te4(T, temp.b3))), RconTable(i));
    RotatedWordIs(T, k, temp, RconTable(i));
    RconTableIs(i);
  }

  lemma ByteRegroups(T: Tables, k: Byte8, a: Byte8, r: Byte8)
    requires T.Ok()
    ensures T.xor(T.xor(k, a), r) == T.xor(k, T.xor(a, r))
    ensures T.xor(k, 0) == k
  {
    T.Associates(k, a, r);
    ZeroSum(T, k);
  }

  lemma RotatedWordIs(T: Tables, k: Word, temp: Word, r: Word)
    requires T.Ok()
    ensures T.XorW(T.XorW(T.XorW(T.XorW(T.XorW(k, Mask3(Te4(T, temp.b2))), Mask2(Te4(T, temp.b1))),
                                            Mask1(Te4(T, temp.b0))), Mask0(Te4(T, temp.b3))), r)
         == T.XorW(k, T.XorW(T.SubWord(Tables.Rotate(temp)), r))
  {
    var v := T.SubWord(Tables.Rotate(temp));
    ByteRegroups(T, k.b3, v.b3, r.b3);
    ByteRegroups(T, k.b2, v.b2, r.b2);
    ByteRegroups(T, k.b1, v.b1, r.b1);
    ByteRegroups(T, k.b0, v.b0, r.b0);
    ZeroSum(T, T.xor(k.b3, v.b3));
    ZeroSum(T, T.xor(k.b2, v.b2));
    ZeroSum(T, T.xor(k.b1, v.b1));
  }

  /** The middle word of a 256-bit turn, substituted but not rotated. */
  method SubstitutedWord(T: Tables, k: Word, temp: Word, n: nat) returns (w: Word)
    requires T.Ok() && n >= 8 && n % 8 == 4
    ensures w == T.XorW(k, KeyTemp(T, 8, n, temp))
  {
    w := T.XorW(T.XorW(T.XorW(T.XorW(k, Mask3(Te4(T, temp.b3))), Mask2(Te4(T, temp.b2))),
                       Mask1(Te4(T, temp.b1))), Mask0(Te4(T, temp.b0)));
    ZeroSum(T, k.b3);
    ZeroSum(T, k.b2);
    ZeroSum(T, k.b1);
    ZeroSum(T, k.b0);
    ZeroSum(T, T.xor(k.b3, T.s(temp.b3)));
    ZeroSum(T, T.xor(k.b2, T.s(temp.b2)));
    ZeroSum(T, T.xor(k.b1, T.s(temp.b1)));
  }

  /** rk[0..n] := the key, big-endian. */
  method LoadKey(T: Tables, rk: array<Word>, key: seq<Byte8>, n: nat)
    requires 0 < n && 4 * n <= |key| && n <= rk.Length
    modifies rk
    ensures Scheduled(T, key, n, rk[..], n)
    ensures forall j {:trigger rk[j]} :: n <= j < rk.Length ==> rk[j] == old(rk[j])
  {
    var i := 0;
    while i < n
      invariant i <= n
      invariant forall j {:trigger rk[j]} :: 0 <= j < i ==> rk[j] == KeyBytes(key, j)
      invariant forall j {:trigger rk[j]} :: n <= j < rk.Length ==> rk[j] == old(rk[j])
    {
      rk[i] := KeyBytes(key, i);
      i := i + 1;
    }
  }

  /** rk[n] := rk[n - nk] ^ rk[n - 1]. */
  method PlainWord(T: Tables, rk: array<Word>, ghost key: seq<Byte8>, nk: nat, n: nat)
    requires 0 < nk && 4 * nk <= |key| && nk <= n < rk.Length
    requires n % nk != 0 && (nk <= 6 || n % nk != 4)
    requires Scheduled(T, key, nk, rk[..], n)
    modifies rk
    ensures Scheduled(T, key, nk, rk[..], n + 1)
    ensures forall j {:trigger rk[j]} :: n < j < rk.Length ==> rk[j] == old(rk[j])
  {
    rk[n] := T.XorW(rk[n - nk], rk[n - 1]);
    Extend(T, key, nk, rk[..], n);
  }

  /** rk[n] := the word that starts a turn. */
  method FirstWord(T: Tables, rk: array<Word>, ghost key: seq<Byte8>, nk: nat, n: nat)
    requires T.Ok() && 0 < nk && 4 * nk <= |key| && nk <= n < rk.Length
    requires n % nk == 0 && n / nk <= 10
    requires Scheduled(T, key, nk, rk[..], n)
    modifies rk
    ensures Scheduled(T, key, nk, rk[..], n + 1)
    ensures forall j {:trigger rk[j]} :: n < j < rk.Length ==> rk[j] == old(rk[j])
  {
    var w := RotatedWord(T, rk[n - nk], rk[n - 1], nk, n);
    rk[n] := w;
    Extend(T, key, nk, rk[..], n);
  }

  method MiddleWord(T: Tables, rk: array<Word>, ghost key: seq<Byte8>, n: nat)
    requires T.Ok() && 32 <= |key| && 8 <= n < rk.Length && n % 8 == 4
    requires Scheduled(T, key, 8, rk[..], n)
    modifies rk
    ensures Scheduled(T, key, 8, rk[..], n + 1)
    ensures forall j {:trigger rk[j]} :: n < j < rk.Length ==> rk[j] == old(rk[j])
  {
    var w := SubstitutedWord(T, rk[n - 8], rk[n - 1], n);
    rk[n] := w;
    Extend(T, key, 8, rk[..], n);
  }

  /** The four words every turn of the schedule writes. */
  method FirstFour(T: Tables, rk: array<Word>, ghost key: seq<Byte8>, nk: nat, n: nat)
    requires T.Ok() && nk in {4, 6, 8} && 4 * nk <= |key| && nk <= n && n + 3 < rk.Length
    requires n % nk == 0 && n / nk <= 10
    requires Scheduled(T, key, nk, rk[..], n)
    modifies rk
    ensures Scheduled(T, key, nk, rk[..], n + 4)
    ensures forall j {:trigger rk[j]} :: n + 4 <= j < rk.Length ==> rk[j] == old(rk[j])
  {
    FirstWord(T, rk, key, nk, n);
    PlainWord(T, rk, key, nk, n + 1);
    PlainWord(T, rk, key, nk, n + 2);
    PlainWord(T, rk, key, nk, n + 3);
  }

  /** The other four of a 256-bit turn. */
  method SecondFour(T: Tables, rk: array<Word>, ghost key: seq<Byte8>, n: nat)
    requires T.Ok() && 32 <= |key| && 8 <= n && n + 3 < rk.Length && n % 8 == 4
    requires Scheduled(T, key, 8, rk[..], n)
    modifies rk
    ensures Scheduled(T, key, 8, rk[..], n + 4)
    ensures forall j {:trigger rk[j]} :: n + 4 <= j < rk.Length ==> rk[j] == old(rk[j])
  {
    MiddleWord(T, rk, key, n);
    PlainWord(T, rk, key, 8, n + 1);
    PlainWord(T, rk, key, 8, n + 2);
    PlainWord(T, rk, key, 8, n + 3);
  }

  method Setup128(T: Tables, rk: array<Word>, key: seq<Byte8>)
    requires T.Ok() && 16 <= |key| && 44 <= rk.Length
    requires Scheduled(T, key, 4, rk[..], 4)
    modifies rk
    ensures Scheduled(T, key, 4, rk[..], 44)
    ensures forall j {:trigger rk[j]} :: 44 <= j < rk.Length ==> rk[j] == old(rk[j])
  {
    var i := 0;
    while true
      invariant 0 <= i < 10
      invariant Scheduled(T, key, 4, rk[..], 4 * i + 4)
      invariant forall j {:trigger rk[j]} :: 44 <= j < rk.Length ==> rk[j] == old(rk[j])
      decreases 10 - i
    {
      var n := 4 * i + 4;
      FirstFour(T, rk, key, 4, n);
      i := i + 1;
      if i == 10 { return; }
    }
  }

  method Setup192(T: Tables, rk: array<Word>, key: seq<Byte8>)
    requires T.Ok() && 24 <= |key| && 52 <= rk.Length
    requires Scheduled(T, key, 6, rk[..], 6)
    modifies rk
    ensures Scheduled(T, key, 6, rk[..], 52)
    ensures forall j {:trigger rk[j]} :: 52 <= j < rk.Length ==> rk[j] == old(rk[j])
  {
    var i := 0;
    while true
      invariant 0 <= i < 8
      invariant Scheduled(T, key, 6, rk[..], 6 * i + 6)
      invariant forall j {:trigger rk[j]} :: 52 <= j < rk.Length ==> rk[j] == old(rk[j])
      decreases 8 - i
    {
      var n := 6 * i + 6;
      FirstFour(T, rk, key, 6, n);
      i := i + 1;
      if i == 8 { return; }
      PlainWord(T, rk, key, 6, n + 4);
      PlainWord(T, rk, key, 6, n + 5);
    }
  }

  method Setup256(T: Tables, rk: array<Word>, key: seq<Byte8>)
    requires T.Ok() && 32 <= |key| && 60 <= rk.Length
    requires Scheduled(T, key, 8, rk[..], 8)
    modifies rk
    ensures Scheduled(T, key, 8, rk[..], 60)
    ensures forall j {:trigger rk[j]} :: 60 <= j < rk.Length ==> rk[j] == old(rk[j])
  {
    var i := 0;
    while true
      invariant 0 <= i < 7
      invariant Scheduled(T, key, 8, rk[..], 8 * i + 8)
      invariant forall j {:trigger rk[j]} :: 60 <= j < rk.Length ==> rk[j] == old(rk[j])
      decreases 7 - i
    {
      var n := 8 * i + 8;
      FirstFour(T, rk, key, 8, n);
      i := i + 1;
      if i == 7 { return; }
      SecondFour(T, rk, key, n + 4);
    }
  }

  /** Nr for a key of `nk` words. */
  function RoundsFor(nk: nat): nat { nk + 6 }

  /** Whole schedule: 4 * (Nr + 1) words and not one more. */
  method KeySetupEnc(T: Tables, rk: array<Word>, key: seq<Byte8>, keyBits: int) returns (nr: nat)
    requires T.Ok() && 60 <= rk.Length
    requires |key| >= if keyBits == 128 then 16 else if keyBits == 192 then 24 else 32
    modifies rk
    ensures keyBits !in {128, 192, 256} ==> nr == 0
    ensures keyBits in {128, 192, 256} ==>
              nr == (if keyBits == 128 then 10 else if keyBits == 192 then 12 else 14)
              && nr == RoundsFor(keyBits / 32) && Scheduled(T, key, keyBits / 32, rk[..], 4 * (nr + 1))
    ensures forall j {:trigger rk[j]} :: (if nr == 0 then 8 else 4 * (nr + 1)) <= j < rk.Length ==> rk[j] == old(rk[j])
  {
    if keyBits == 128 {
      LoadKey(T, rk, key, 4);
      Setup128(T, rk, key);
      return 10;
    }
    if keyBits == 192 {
      LoadKey(T, rk, key, 6);
      Setup192(T, rk, key);
      return 12;
    }
    LoadKey(T, rk, key, 8);
    if keyBits == 256 {
      Setup256(T, rk, key);
      return 14;
    }
    return 0;
  }

  // ---- the decryption schedule ----

  method SwapWords(rk: array<Word>, i: nat, j: nat)
    requires i < j < rk.Length
    modifies rk
    ensures rk[..] == old(rk[..])[i := old(rk[j])][j := old(rk[i])]
  {
    rk[i], rk[j] := rk[j], rk[i];
  }

  ghost predicate OthersKept(old_: seq<Word>, new_: seq<Word>, a: nat, b: nat) {
    |old_| == |new_|
    && forall m {:trigger new_[m]} :: 0 <= m < |new_| && !(4 * a <= m < 4 * a + 4) && !(4 * b <= m < 4 * b + 4) ==> new_[m] == old_[m]
  }

  /** Round keys `a` and `b` trade places. */
  method SwapRoundKeys(rk: array<Word>, a: nat, b: nat)
    requires a < b && 4 * b + 3 < rk.Length
    modifies rk
    ensures RoundKey(rk[..], a) == old(RoundKey(rk[..], b)) && RoundKey(rk[..], b) == old(RoundKey(rk[..], a))
    ensures OthersKept(old(rk[..]), rk[..], a, b)
  {
    SwapWords(rk, 4 * a, 4 * b);
    SwapWords(rk, 4 * a + 1, 4 * b + 1);
    SwapWords(rk, 4 * a + 2, 4 * b + 2);
    SwapWords(rk, 4 * a + 3, 4 * b + 3);
  }

  lemma OtherRoundKeys(old_: seq<Word>, new_: seq<Word>, a: nat, b: nat, r: nat)
    requires OthersKept(old_, new_, a, b) && r != a && r != b && 4 * r + 3 < |new_|
    ensures RoundKey(new_, r) == RoundKey(old_, r)
  {
  }

  /** The round keys `i..nr-i` of `was` are still in place in `now`, the others are exchanged. */
  ghost predicate PartlyReversed(was: seq<Word>, now: seq<Word>, nr: nat, i: nat) {
    && |was| == |now| && 4 * nr + 4 <= |now|
    && (forall r {:trigger RoundKey(now, r)} :: 0 <= r <= nr && i <= r <= nr - i ==> RoundKey(now, r) == RoundKey(was, r))
    && (forall r {:trigger RoundKey(now, r)} :: 0 <= r <= nr && !(i <= r <= nr - i) ==> RoundKey(now, r) == RoundKey(was, nr - r))
    && forall m {:trigger now[m]} :: 4 * nr + 4 <= m < |now| ==> now[m] == was[m]
  }

  lemma ReversalStep(was: seq<Word>, now: seq<Word>, next: seq<Word>, nr: nat, i: nat)
    requires PartlyReversed(was, now, nr, i) && i < nr - i && OthersKept(now, next, i, nr - i)
    requires RoundKey(next, i) == RoundKey(now, nr - i) && RoundKey(next, nr - i) == RoundKey(now, i)
    ensures PartlyReversed(was, next, nr, i + 1)
  {
    forall r {:trigger RoundKey(next, r)} | 0 <= r <= nr && r != i && r != nr - i
      ensures RoundKey(next, r) == RoundKey(now, r)
    {
      OtherRoundKeys(now, next, i, nr - i, r);
    }
  }

  /** The order of the round keys inverted in place. */
  method ReverseRoundKeys(rk: array<Word>, nr: nat)
    requires 4 * nr + 4 <= rk.Length
    modifies rk
    ensures forall r {:trigger RoundKey(rk[..], r)} :: 0 <= r <= nr ==> RoundKey(rk[..], r) == old(RoundKey(rk[..], nr - r))
    ensures forall m {:trigger rk[m]} :: 4 * nr + 4 <= m < rk.Length ==> rk[m] == old(rk[m])
  {
    var i, j := 0, nr;
    while i < j
      invariant j == nr - i && 0 <= i <= j + 1
      invariant PartlyReversed(old(rk[..]), rk[..], nr, i)
    {
      ghost var now := rk[..];
      SwapRoundKeys(rk, i, j);
      ReversalStep(old(rk[..]), now, rk[..], nr, i);
      i, j := i + 1, j - 1;
    }
  }

  method InvMixWord(T: Tables, rk: array<Word>, m: nat)
    requires T.Ok() && m < rk.Length
    modifies rk
    ensures rk[..] == old(rk[..])[m := T.InvMixColumn(old(rk[m]))]
  {
    InvMixTableIs(T, rk[m]);
    rk[m] := InvMixTable(T, rk[m]);
  }

  lemma FourWords(was: seq<Word>, now: seq<Word>, i: nat, w: State)
    requires 4 * i + 3 < |was|
    requires now == was[4 * i := w.c0][4 * i + 1 := w.c1][4 * i + 2 := w.c2][4 * i + 3 := w.c3]
    ensures OthersKept(was, now, i, i) && RoundKey(now, i) == w
  {
  }

  method InvMixRoundKey(T: Tables, rk: array<Word>, i: nat)
    requires T.Ok() && 4 * i + 3 < rk.Length
    modifies rk
    ensures RoundKey(rk[..], i) == T.InvMixColumns(old(RoundKey(rk[..], i)))
    ensures OthersKept(old(rk[..]), rk[..], i, i)
  {
    ghost var k := RoundKey(rk[..], i);
    InvMixWord(T, rk, 4 * i);
    InvMixWord(T, rk, 4 * i + 1);
    InvMixWord(T, rk, 4 * i + 2);
    InvMixWord(T, rk, 4 * i + 3);
    FourWords(old(rk[..]), rk[..], i, T.InvMixColumns(k));
  }

  ghost predicate PartlyMixed(T: Tables, was: seq<Word>, now: seq<Word>, nr: nat, i: nat) {
    && |was| == |now| && 4 * nr + 4 <= |now|
    && (forall r {:trigger RoundKey(now, r)} :: 0 < r < i && r < nr ==> RoundKey(now, r) == T.InvMixColumns(RoundKey(was, r)))
    && (forall r {:trigger RoundKey(now, r)} :: 0 <= r <= nr && !(0 < r < i) ==> RoundKey(now, r) == RoundKey(was, r))
    && forall m {:trigger now[m]} :: 4 * nr + 4 <= m < |now| ==> now[m] == was[m]
  }

  lemma MixingStep(T: Tables, was: seq<Word>, now: seq<Word>, next: seq<Word>, nr: nat, i: nat)
    requires PartlyMixed(T, was, now, nr, i) && 0 < i < nr && OthersKept(now, next, i, i)
    requires RoundKey(next, i) == T.InvMixColumns(RoundKey(now, i))
    ensures PartlyMixed(T, was, next, nr, i + 1)
  {
    forall r {:trigger RoundKey(next, r)} | 0 <= r <= nr && r != i ensures RoundKey(next, r) == RoundKey(now, r) {
      OtherRoundKeys(now, next, i, i, r);
    }
  }

  /** InvMixColumns applied to all round keys but the first and the last. */
  method InvMixMiddle(T: Tables, rk: array<Word>, nr: nat)
    requires T.Ok() && 4 * nr + 4 <= rk.Length
    modifies rk
    ensures PartlyMixed(T, old(rk[..]), rk[..], nr, nr)
  {
    var i := 1;
    while i < nr
      invariant 1 <= i && (i <= nr || nr == 0)
      invariant PartlyMixed(T, old(rk[..]), rk[..], nr, i)
    {
      ghost var now := rk[..];
      InvMixRoundKey(T, rk, i);
      MixingStep(T, old(rk[..]), now, rk[..], nr, i);
      i := i + 1;
    }
  }

  /** The first `n` words of the key schedule. */
  ghost function Expansion(T: Tables, key: seq<Byte8>, nk: nat, n: nat): (w: seq<Word>)
    requires nk > 0 && 4 * nk <= |key|
    ensures |w| == n && Scheduled(T, key, nk, w, n)
  {
    seq(n, i requires 0 <= i < n => KeyWord(T, key, nk, i))
  }

  lemma ReversedAndMixed(T: Tables, i: Iterated, w: seq<Word>, turned: seq<Word>, dw: seq<Word>, nr: nat)
    requires T.Describes(i) && nr > 0 && 4 * nr + 4 <= |w| && |turned| == |dw| && 4 * nr + 4 <= |dw|
    requires forall r {:trigger RoundKey(turned, r)} :: 0 <= r <= nr ==> RoundKey(turned, r) == RoundKey(w, nr - r)
    requires PartlyMixed(T, turned, dw, nr, nr)
    ensures i.DecryptionSchedule(w, dw, nr)
  {
    forall r {:trigger RoundKey(dw, r)} | 0 <= r <= nr
      ensures RoundKey(dw, r) == if r == 0 || r == nr then RoundKey(w, nr - r) else i.invKey(RoundKey(w, nr - r))
    {
      assert RoundKey(turned, r) == RoundKey(w, nr - r);
      assert T.DescribesAt(i, RoundKey(turned, r), RoundKey(turned, r));
    }
  }

  method KeySetupDec(T: Tables, ghost i: Iterated, rk: array<Word>, key: seq<Byte8>, keyBits: int) returns (nr: nat)
    requires T.Ok() && T.Describes(i) && 60 <= rk.Length
    requires |key| >= if keyBits == 128 then 16 else if keyBits == 192 then 24 else 32
    modifies rk
    ensures keyBits !in {128, 192, 256} ==> nr == 0
    ensures keyBits in {128, 192, 256} ==>
              nr == RoundsFor(keyBits / 32) && i.DecryptionSchedule(Expansion(T, key, keyBits / 32, 4 * (nr + 1)), rk[..], nr)
    ensures forall m {:trigger rk[m]} :: (if nr == 0 then 8 else 4 * (nr + 1)) <= m < rk.Length ==> rk[m] == old(rk[m])
  {
    nr := KeySetupEnc(T, rk, key, keyBits);
    ghost var expanded := rk[..];
    ReverseRoundKeys(rk, nr);
    ghost var turned := rk[..];
    InvMixMiddle(T, rk, nr);
    if nr > 0 {
      ghost var w := Expansion(T, key, keyBits / 32, 4 * (nr + 1));
      SameRoundKeys(T, key, keyBits / 32, expanded, w, nr);
      ReversedAndMixed(T, i, w, turned, rk[..], nr);
    }
  }

  lemma SameRoundKeys(T: Tables, key: seq<Byte8>, nk: nat, a: seq<Word>, b: seq<Word>, nr: nat)
    requires nk > 0 && 4 * nk <= |key|
    requires Scheduled(T, key, nk, a, 4 * (nr + 1)) && Scheduled(T, key, nk, b, 4 * (nr + 1))
    ensures forall r {:trigger RoundKey(a, r)} {:trigger RoundKey(b, r)} :: 0 <= r <= nr ==> RoundKey(a, r) == RoundKey(b, r)
  {
  }

  // ---- blocks ----

  /** Sixteen bytes as four big-endian words. */
  function BlockOf(b: seq<Byte8>): State
    requires |b| == 16
  {
    State(KeyBytes(b, 0), KeyBytes(b, 1), KeyBytes(b, 2), KeyBytes(b, 3))
  }

  /** PUTU32. */
  method PutWord(ct: array<Byte8>, o: nat, w: Word)
    requires o + 3 < ct.Length
    modifies ct
    ensures ct[..] == old(ct[..])[o := w.b3][o + 1 := w.b2][o + 2 := w.b1][o + 3 := w.b0]
  {
    ct[o], ct[o + 1], ct[o + 2], ct[o + 3] := w.b3, w.b2, w.b1, w.b0;
  }

  method PutBlock(ct: array<Byte8>, s: State)
    requires 16 <= ct.Length
    modifies ct
    ensures BlockOf(ct[..16]) == s && ct[16..] == old(ct[16..])
  {
    PutWord(ct, 0, s.c0);
    PutWord(ct, 4, s.c1);
    PutWord(ct, 8, s.c2);
    PutWord(ct, 12, s.c3);
  }

  /** AES_ENC_ROUND applied to the state after `round - 1` rounds. */
  method EncStep(T: Tables, ghost i: Iterated, rk: seq<Word>, round: nat, src: State, ghost p: State) returns (dst: State)
    requires T.Describes(i) && round > 0 && 4 * round + 3 < |rk| && src == i.Rounds(rk, round - 1, p)
    ensures dst == i.Rounds(rk, round, p)
  {
    dst := TableRound(T, src, RoundKey(rk, round));
    TableRoundIs(T, src, RoundKey(rk, round));
    assert T.DescribesAt(i, src, RoundKey(rk, round));
  }

  method EncLast(T: Tables, ghost i: Iterated, rk: seq<Word>, nr: nat, src: State, ghost p: State) returns (dst: State)
    requires T.Ok() && T.Describes(i) && nr > 0 && 4 * nr + 3 < |rk| && src == i.Rounds(rk, nr - 1, p)
    ensures dst == i.Cipher(rk, nr, p)
  {
    dst := LastRound(T, src, RoundKey(rk, nr));
    LastRoundIs(T, src, RoundKey(rk, nr));
    assert T.DescribesAt(i, src, RoundKey(rk, nr)) && T.DescribesAt(i, i.half(src), RoundKey(rk, nr));
  }

  method EncFirst(T: Tables, ghost i: Iterated, rk: seq<Word>, p: State) returns (dst: State)
    requires T.Describes(i) && 4 <= |rk|
    ensures dst == i.Rounds(rk, 0, p)
  {
    dst := T.XorS(p, RoundKey(rk, 0));
    assert T.DescribesAt(i, p, RoundKey(rk, 0));
  }

  /** The unrolled rounds. */
  method EncryptBlock(T: Tables, ghost i: Iterated, w: seq<Word>, nr: nat, p: State) returns (out: State)
    requires T.Ok() && T.Describes(i) && nr in {10, 12, 14} && 4 * nr + 3 < |w|
    ensures out == i.Cipher(w, nr, p)
  {
    var s := EncFirst(T, i, w, p);
    var t := EncStep(T, i, w, 1, s, p);
    s := EncStep(T, i, w, 2, t, p);
    t := EncStep(T, i, w, 3, s, p);
    s := EncStep(T, i, w, 4, t, p);
    t := EncStep(T, i, w, 5, s, p);
    s := EncStep(T, i, w, 6, t, p);
    t := EncStep(T, i, w, 7, s, p);
    s := EncStep(T, i, w, 8, t, p);
    t := EncStep(T, i, w, 9, s, p);
    if nr > 10 {
      s := EncStep(T, i, w, 10, t, p);
      t := EncStep(T, i, w, 11, s, p);
      if nr > 12 {
        s := EncStep(T, i, w, 12, t, p);
        t := EncStep(T, i, w, 13, s, p);
      }
    }
    out := EncLast(T, i, w, nr, t, p);
  }

  /** aes_internal_encrypt: the plaintext and the ciphertext buffer may be the same. */
  method Encrypt(T: Tables, ghost i: Iterated, rk: array<Word>, nr: nat, pt: array<Byte8>, ct: array<Byte8>)
    requires T.Ok() && T.Describes(i) && nr in {10, 12, 14} && 4 * nr + 3 < rk.Length
    requires 16 <= pt.Length && 16 <= ct.Length
    modifies ct
    ensures BlockOf(ct[..16]) == i.Cipher(old(rk[..]), nr, old(BlockOf(pt[..16])))
    ensures ct[16..] == old(ct[16..])
  {
    var s := EncryptBlock(T, i, rk[..], nr, BlockOf(pt[..16]));
    PutBlock(ct, s);
  }

  method DecStep(T: Tables, ghost i: Iterated, rk: seq<Word>, round: nat, src: State, ghost c: State) returns (dst: State)
    requires T.Describes(i) && round > 0 && 4 * round + 3 < |rk| && src == i.EqRounds(rk, round - 1, c)
    ensures dst == i.EqRounds(rk, round, c)
  {
    dst := TableDecRound(T, src, RoundKey(rk, round));
    TableDecRoundIs(T, src, RoundKey(rk, round));
    assert T.DescribesAt(i, src, RoundKey(rk, round));
  }

  method DecLast(T: Tables, ghost i: Iterated, rk: seq<Word>, nr: nat, src: State, ghost c: State) returns (dst: State)
    requires T.Ok() && T.Describes(i) && nr > 0 && 4 * nr + 3 < |rk| && src == i.EqRounds(rk, nr - 1, c)
    ensures dst == i.EqInvCipher(rk, nr, c)
  {
    dst := LastDecRound(T, src, RoundKey(rk, nr));
    LastDecRoundIs(T, src, RoundKey(rk, nr));
    assert T.DescribesAt(i, src, RoundKey(rk, nr)) && T.DescribesAt(i, i.unhalf(src), RoundKey(rk, nr));
  }

  method DecFirst(T: Tables, ghost i: Iterated, rk: seq<Word>, c: State) returns (dst: State)
    requires T.Describes(i) && 4 <= |rk|
    ensures dst == i.EqRounds(rk, 0, c)
  {
    dst := T.XorS(c, RoundKey(rk, 0));
    assert T.DescribesAt(i, c, RoundKey(rk, 0));
  }

  /** The unrolled rounds. */
  method DecryptBlock(T: Tables, ghost i: Iterated, w: seq<Word>, nr: nat, c: State) returns (out: State)
    requires T.Ok() && T.Describes(i) && nr in {10, 12, 14} && 4 * nr + 3 < |w|
    ensures out == i.EqInvCipher(w, nr, c)
  {
    var s := DecFirst(T, i, w, c);
    var t := DecStep(T, i, w, 1, s, c);
    s := DecStep(T, i, w, 2, t, c);
    t := DecStep(T, i, w, 3, s, c);
    s := DecStep(T, i, w, 4, t, c);
    t := DecStep(T, i, w, 5, s, c);
    s := DecStep(T, i, w, 6, t, c);
    t := DecStep(T, i, w, 7, s, c);
    s := DecStep(T, i, w, 8, t, c);
    t := DecStep(T, i, w, 9, s, c);
    if nr > 10 {
      s := DecStep(T, i, w, 10, t, c);
      t := DecStep(T, i, w, 11, s, c);
      if nr > 12 {
        s := DecStep(T, i, w, 12, t, c);
        t := DecStep(T, i, w, 13, s, c);
      }
    }
    out := DecLast(T, i, w, nr, t, c);
  }

  /** aes_internal_decrypt. */
  method Decrypt(T: Tables, ghost i: Iterated, rk: array<Word>, nr: nat, ct: array<Byte8>, pt: array<Byte8>)
    requires T.Ok() && T.Describes(i) && nr in {10, 12, 14} && 4 * nr + 3 < rk.Length
    requires 16 <= pt.Length && 16 <= ct.Length
    modifies pt
    ensures BlockOf(pt[..16]) == i.EqInvCipher(old(rk[..]), nr, old(BlockOf(ct[..16])))
    ensures pt[16..] == old(pt[16..])
  {
    var s := DecryptBlock(T, i, rk[..], nr, BlockOf(ct[..16]));
    PutBlock(pt, s);
  }

  // ---- the context ----

  class Context {
    const encRk: array<Word>
    const decRk: array<Word>
    var nr: nat

    constructor ()
      ensures fresh(encRk) && fresh(decRk) && encRk != decRk && encRk.Length == 60 && decRk.Length == 60 && nr == 0
      ensures forall j :: 0 <= j < 60 ==> encRk[j] == Word(0, 0, 0, 0) && decRk[j] == Word(0, 0, 0, 0)
    {
      encRk := new Word[60](_ => Word(0, 0, 0, 0));
      decRk := new Word[60](_ => Word(0, 0, 0, 0));
      nr := 0;
    }

    /** The context holds both schedules of `key`. */
    ghost predicate Keyed(T: Tables, i: Iterated, key: seq<Byte8>)
      reads this, encRk, decRk
    {
      && |key| in {16, 24, 32} && nr == RoundsFor(|key| / 4)
      && encRk.Length == 60 && decRk.Length == 60
      && Scheduled(T, key, |key| / 4, encRk[..], 4 * (nr + 1))
      && i.DecryptionSchedule(Expansion(T, key, |key| / 4, 4 * (nr + 1)), decRk[..], nr)
    }

    method FillKeys(T: Tables, ghost i: Iterated, key: seq<Byte8>)
      requires T.Ok() && T.Describes(i) && |key| in {16, 24, 32}
      requires encRk != decRk && encRk.Length == 60 && decRk.Length == 60
      modifies this, encRk, decRk
      ensures Keyed(T, i, key)
    {
      var bits := 8 * |key|;
      assert bits in {128, 192, 256} && bits / 32 == |key| / 4;
      var n := KeySetupEnc(T, encRk, key, bits);
      ghost var w := encRk[..];
      var _ := KeySetupDec(T, i, decRk, key, bits);
      assert encRk[..] == w;
      nr := n;
    }

    /** In a keyed context decrypting with the one schedule undoes encrypting with the other. */
    lemma RoundTrip(T: Tables, i: Iterated, key: seq<Byte8>, b: State)
      requires T.Ok() && T.Describes(i) && Keyed(T, i, key)
      ensures i.EqInvCipher(decRk[..], nr, i.Cipher(encRk[..], nr, b)) == b
    {
      var w := Expansion(T, key, |key| / 4, 4 * (nr + 1));
      T.DescribedUndoable(i);
      SameRoundKeys(T, key, |key| / 4, encRk[..], w, nr);
      i.CipherCongruent(encRk[..], w, nr, b);
      i.EqInvCipherUndoes(w, decRk[..], nr, b);
    }

    /** aes_ecb_decrypt: recovers every block that the encryption schedule enciphered. */
    method EcbDecrypt(T: Tables, ghost i: Iterated, ghost key: seq<Byte8>, out: array<Byte8>, inp: array<Byte8>) returns (n: nat)
      requires T.Ok() && T.Describes(i) && Keyed(T, i, key) && 16 <= inp.Length && 16 <= out.Length
      modifies out
      ensures n == 16 && out[16..] == old(out[16..])
      ensures forall b :: old(BlockOf(inp[..16])) == old(i.Cipher(encRk[..], nr, b)) ==> BlockOf(out[..16]) == b
    {
      forall b ensures i.EqInvCipher(decRk[..], nr, i.Cipher(encRk[..], nr, b)) == b { RoundTrip(T, i, key, b); }
      Decrypt(T, i, decRk, nr, inp, out);
      return 16;
    }

    /** The block cipher a keyed context computes, for CBC. */
    ghost function AsCipher(T: Tables, i: Iterated, key: seq<Byte8>): Cbc.BlockCipher<State>
      reads this, encRk, decRk
      requires Keyed(T, i, key)
    {
      var enc, dec, n := encRk[..], decRk[..], nr;
      Cbc.BlockCipher(b => i.Cipher(enc, n, b), b => i.EqInvCipher(dec, n, b), (a, b) => T.XorS(a, b))
    }

    /** CBC with AES decrypts what it encrypted, for every key size, IV and message. */
    lemma CbcRoundTrip(T: Tables, i: Iterated, key: seq<Byte8>, iv: State, p: seq<State>)
      requires T.Ok() && T.Describes(i) && Keyed(T, i, key)
      ensures var K := AsCipher(T, i, key); K.Ok() && K.Decrypted(iv, K.Encrypted(iv, p)) == p
    {
      var K := AsCipher(T, i, key);
      forall b ensures K.Undone(b) { RoundTrip(T, i, key, b); }
      forall a, b ensures K.Xors(a, b) { XorsAt(T, i, key, a, b); }
      K.DecryptedEncrypted(iv, p);
    }

    lemma XorsAt(T: Tables, i: Iterated, key: seq<Byte8>, a: State, b: State)
      requires T.Ok() && Keyed(T, i, key)
      ensures AsCipher(T, i, key).Xors(a, b)
    {
      T.XorSCancels(a, b);
    }
  }

  /** aes_init: 0 and a keyed context for keys of 16, 24 or 32 bytes, -1 otherwise. */
  method Init(T: Tables, ghost i: Iterated, key: seq<Byte8>) returns (rc: int, ctx: Context)
    requires T.Ok() && T.Describes(i)
    ensures fresh(ctx) && fresh(ctx.encRk) && fresh(ctx.decRk)
    ensures rc == (if |key| in {16, 24, 32} then 0 else -1)
    ensures rc == 0 ==> ctx.Keyed(T, i, key)
  {
    ctx := new Context();
    if |key| != 16 && |key| != 24 && |key| != 32 { return -1, ctx; }
    ctx.FillKeys(T, i, key);
    return 0, ctx;
  }
}
