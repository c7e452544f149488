/** Published values that fix the reference definitions of the ciphers: sections 2.1.1 and 2.3 of
    RFC 8439, and appendices A.1 and B of FIPS 197. */
module Vectors {
  import Fips197
  import AesTables
  import Rfc8439

  // ---- ChaCha20 ----

  /** Section 2.1.1 of RFC 8439. */
  lemma QuarterRoundVector()
    ensures Rfc8439.PlainOps().QuarterRound(0x11111111, 0x01020304, 0x9b8d6f43, 0x01234567)
         == Rfc8439.Quad(0xea2a92f4, 0xcb1cf8ce, 0x4581472e, 0x5881c4bb)
  {
  }

  /** The initial state of section 2.3.2 of RFC 8439: constants, key, block counter and nonce. */
  lemma InitialStateVector(key: seq<Rfc8439.B>, iv: seq<Rfc8439.B>)
    requires |key| == 32 && |iv| == 16
    requires key[..4] == [0, 1, 2, 3] && key[28..] == [0x1c, 0x1d, 0x1e, 0x1f]
    requires iv == [1, 0, 0, 0, 0, 0, 0, 9, 0, 0, 0, 0x4a, 0, 0, 0, 0]
    ensures var s := Rfc8439.PlainOps().InitialState(key, iv);
            && s[0] == 0x61707865 && s[1] == 0x3320646e && s[2] == 0x79622d32 && s[3] == 0x6b206574
            && s[4] == 0x03020100 && s[11] == 0x1f1e1d1c && s[12] == 1 && s[13] == 0x09000000 && s[14] == 0x4a000000 && s[15] == 0
  {
    var o := Rfc8439.PlainOps();
    assert key[28] == 0x1c && key[29] == 0x1d && key[30] == 0x1e && key[31] == 0x1f;
    assert o.WordAt(key, 0) == o.word(0, 1, 2, 3) && o.WordAt(key, 7) == o.word(0x1c, 0x1d, 0x1e, 0x1f);
    assert o.WordAt(iv, 0) == o.word(1, 0, 0, 0) && o.WordAt(iv, 1) == o.word(0, 0, 0, 9);
    assert o.WordAt(iv, 2) == o.word(0, 0, 0, 0x4a) && o.WordAt(iv, 3) == o.word(0, 0, 0, 0);
  }

  /** Ten double rounds, columns first, and the addition of the initial state. */
  lemma TwentyRounds(o: Rfc8439.Ops, s: seq<Rfc8439.W>, n: nat)
    requires |s| == 16
    ensures o.Block(s) == o.AddWords(o.Rounds(s, 10), s) && o.Rounds(s, 0) == s
    ensures o.Rounds(s, n + 1) == o.Diagonals(o.Columns(o.Rounds(s, n)))
  {
  }

  /** The counter is word 12, counted modulo 2^32. */
  lemma BumpOne(o: Rfc8439.Ops, s: seq<Rfc8439.W>)
    requires |s| == 16
    ensures o.Bump(s, 1) == s[12 := o.add(s[12], 1)]
  {
    assert o.Bump(s, 1) == o.Bump(s, 0)[12 := o.add(o.Bump(s, 0)[12], 1)];
  }

  /** Advancing the counter n + 1 times is advancing it once and then n times. */
  lemma {:induction false} BumpSplits(o: Rfc8439.Ops, s: seq<Rfc8439.W>, n: nat)
    requires |s| == 16
    ensures o.Bump(s, n + 1) == o.Bump(o.Bump(s, 1), n)
  {
    if n > 0 { BumpSplits(o, s, n - 1); }
  }

  // ---- AES ----

  /** The byte in row `r` of a column. */
  function Row(w: Fips197.Word, r: nat): Fips197.Byte8 {
    if r == 0 then w.b3 else if r == 1 then w.b2 else if r == 2 then w.b1 else w.b0
  }

  function Column(t: Fips197.State, c: nat): Fips197.Word {
    if c == 0 then t.c0 else if c == 1 then t.c1 else if c == 2 then t.c2 else t.c3
  }

  /** ShiftRows: row r of column c is row r of column c + r. */
  lemma ShiftRowsIs(t: Fips197.State, r: nat, c: nat)
    requires r < 4 && c < 4
    ensures Row(Column(Fips197.Tables.ShiftRows(t), c), r) == Row(Column(t, (c + r) % 4), r)
  {
  }

  /** MixColumns in the first round of appendix B of FIPS 197. */
  lemma MixColumnVector(T: Fips197.Tables)
    requires T.Ok()
    ensures T.MixColumn(Fips197.Word(0xd4, 0xbf, 0x5d, 0x30)) == Fips197.Word(0x04, 0x66, 0x81, 0xe5)
  {
    assert T.IsDouble(0xd4) && T.IsDouble(0xbf) && T.IsDouble(0x5d) && T.IsDouble(0x30);
    assert T.IsXor(0xb3, 0xd4) && T.IsXor(0x65, 0xbf) && T.IsXor(0xba, 0x5d) && T.IsXor(0x60, 0x30);
    T.NativeSum(0xb3, 0xda, 0x5d, 0x30);
    T.NativeSum(0xd4, 0x65, 0xe7, 0x30);
    T.NativeSum(0xd4, 0xbf, 0xba, 0x50);
    T.NativeSum(0x67, 0xbf, 0x5d, 0x60);
  }

  /** Word 4 of the schedule in appendix A.1 of FIPS 197, given the four entries of the S-box. */
  lemma ExpansionVector(T: Fips197.Tables)
    requires T.Ok() && T.s(0xcf) == 0x8a && T.s(0x4f) == 0x84 && T.s(0x3c) == 0xeb && T.s(0x09) == 0x01
    ensures T.XorW(Fips197.Word(0x2b, 0x7e, 0x15, 0x16), AesTables.KeyTemp(T, 4, 4, Fips197.Word(0x09, 0xcf, 0x4f, 0x3c)))
         == Fips197.Word(0xa0, 0xfa, 0xfe, 0x17)
  {
    assert AesTables.RconAt(4, 4) == Fips197.Word(1, 0, 0, 0) by { assert AesTables.XPower(0) == 1; }
    assert T.IsXor(0x8a, 0x01) && T.IsXor(0x84, 0) && T.IsXor(0xeb, 0) && T.IsXor(0x01, 0);
    assert T.IsXor(0x2b, 0x8b) && T.IsXor(0x7e, 0x84) && T.IsXor(0x15, 0xeb) && T.IsXor(0x16, 0x01);
  }

  /** With keys of eight words the word in the middle of a turn is substituted without rotation. */
  lemma MiddleVector(T: Fips197.Tables)
    requires T.Ok() && T.s(0x2e) == 0x31 && T.s(0xb1) == 0xc8 && T.s(0xc5) == 0xa6 && T.s(0x1d) == 0xa4
    ensures AesTables.KeyTemp(T, 8, 12, Fips197.Word(0x2e, 0xb1, 0xc5, 0x1d)) == Fips197.Word(0x31, 0xc8, 0xa6, 0xa4)
  {
  }
}
