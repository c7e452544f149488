/** The table-driven form of AES: lookup tables that combine the S-box with MixColumns, and
    the rounds and the key schedule written with them, against FIPS 197. */
module AesTables {
  import opened Fips197

  // the tables, each entry given by its defining equation
  function Te0(T: Tables, x: Byte8): Word { Word(T.x2(T.s(x)), T.s(x), T.s(x), T.M3(T.s(x))) }
  function Te1(T: Tables, x: Byte8): Word { Word(T.M3(T.s(x)), T.x2(T.s(x)), T.s(x), T.s(x)) }
  function Te2(T: Tables, x: Byte8): Word { Word(T.s(x), T.M3(T.s(x)), T.x2(T.s(x)), T.s(x)) }
  function Te3(T: Tables, x: Byte8): Word { Word(T.s(x), T.s(x), T.M3(T.s(x)), T.x2(T.s(x))) }
  function Te4(T: Tables, x: Byte8): Word { Word(T.s(x), T.s(x), T.s(x), T.s(x)) }
  function Td0(T: Tables, x: Byte8): Word { Word(T.ME(T.si(x)), T.M9(T.si(x)), T.MD(T.si(x)), T.MB(T.si(x))) }
  function Td1(T: Tables, x: Byte8): Word { Word(T.MB(T.si(x)), T.ME(T.si(x)), T.M9(T.si(x)), T.MD(T.si(x))) }
  function Td2(T: Tables, x: Byte8): Word { Word(T.MD(T.si(x)), T.MB(T.si(x)), T.ME(T.si(x)), T.M9(T.si(x))) }
  function Td3(T: Tables, x: Byte8): Word { Word(T.M9(T.si(x)), T.MD(T.si(x)), T.MB(T.si(x)), T.ME(T.si(x))) }
  function Td4(T: Tables, x: Byte8): Word { Word(T.si(x), T.si(x), T.si(x), T.si(x)) }

  // the byte masks 0xff000000, 0x00ff0000, 0x0000ff00, 0x000000ff
  function Mask3(w: Word): Word { Word(w.b3, 0, 0, 0) }
  function Mask2(w: Word): Word { Word(0, w.b2, 0, 0) }
  function Mask1(w: Word): Word { Word(0, 0, w.b1, 0) }
  function Mask0(w: Word): Word { Word(0, 0, 0, w.b0) }

  function Xor4(T: Tables, a: Word, b: Word, c: Word, d: Word): Word { T.XorW(T.XorW(T.XorW(a, b), c), d) }

  /** One column of a table round: the four source columns it takes its bytes from, in order. */
  function EncColumn(T: Tables, a: Word, b: Word, c: Word, d: Word, k: Word): Word {
    T.XorW(Xor4(T, Te0(T, a.b3), Te1(T, b.b2), Te2(T, c.b1), Te3(T, d.b0)), k)
  }

  function DecColumn(T: Tables, a: Word, b: Word, c: Word, d: Word, k: Word): Word {
    T.XorW(Xor4(T, Td0(T, a.b3), Td1(T, b.b2), Td2(T, c.b1), Td3(T, d.b0)), k)
  }

  /** AES_ENC_ROUND. */
  function TableRound(T: Tables, t: State, k: State): State {
    State(EncColumn(T, t.c0, t.c1, t.c2, t.c3, k.c0), EncColumn(T, t.c1, t.c2, t.c3, t.c0, k.c1),
          EncColumn(T, t.c2, t.c3, t.c0, t.c1, k.c2), EncColumn(T, t.c3, t.c0, t.c1, t.c2, k.c3))
  }

  /** AES_DEC_ROUND. */
  function TableDecRound(T: Tables, t: State, k: State): State {
    State(DecColumn(T, t.c0, t.c3, t.c2, t.c1, k.c0), DecColumn(T, t.c1, t.c0, t.c3, t.c2, k.c1),
          DecColumn(T, t.c2, t.c1, t.c0, t.c3, k.c2), DecColumn(T, t.c3, t.c2, t.c1, t.c0, k.c3))
  }

  function LastColumn(T: Tables, a: Word, b: Word, c: Word, d: Word, k: Word): Word {
    T.XorW(Xor4(T, Mask3(Te4(T, a.b3)), Mask2(Te4(T, b.b2)), Mask1(Te4(T, c.b1)), Mask0(Te4(T, d.b0))), k)
  }

  function LastDecColumn(T: Tables, a: Word, b: Word, c: Word, d: Word, k: Word): Word {
    T.XorW(Xor4(T, Mask3(Td4(T, a.b3)), Mask2(Td4(T, b.b2)), Mask1(Td4(T, c.b1)), Mask0(Td4(T, d.b0))), k)
  }

  function LastRound(T: Tables, t: State, k: State): State {
    State(LastColumn(T, t.c0, t.c1, t.c2, t.c3, k.c0), LastColumn(T, t.c1, t.c2, t.c3, t.c0, k.c1),
          LastColumn(T, t.c2, t.c3, t.c0, t.c1, k.c2), LastColumn(T, t.c3, t.c0, t.c1, t.c2, k.c3))
  }

  function LastDecRound(T: Tables, t: State, k: State): State {
    State(LastDecColumn(T, t.c0, t.c3, t.c2, t.c1, k.c0), LastDecColumn(T, t.c1, t.c0, t.c3, t.c2, k.c1),
          LastDecColumn(T, t.c2, t.c1, t.c0, t.c3, k.c2), LastDecColumn(T, t.c3, t.c2, t.c1, t.c0, k.c3))
  }

  /** INVMIXCOLRK: the substitution of Te4 and the inverse one inside the Td tables cancel. */
  function InvMixTable(T: Tables, w: Word): Word {
    Xor4(T, Td0(T, Te4(T, w.b3).b0), Td1(T, Te4(T, w.b2).b0), Td2(T, Te4(T, w.b1).b0), Td3(T, Te4(T, w.b0).b0))
  }

  // ---- the tables compute the transformations of FIPS 197 ----

  lemma EncColumnIs(T: Tables, a: Word, b: Word, c: Word, d: Word, k: Word)
    ensures EncColumn(T, a, b, c, d, k) == T.XorW(T.MixColumn(T.SubWord(Word(a.b3, b.b2, c.b1, d.b0))), k)
  {
  }

  lemma DecColumnIs(T: Tables, a: Word, b: Word, c: Word, d: Word, k: Word)
    ensures DecColumn(T, a, b, c, d, k) == T.XorW(T.InvMixColumn(T.InvSubWord(Word(a.b3, b.b2, c.b1, d.b0))), k)
  {
  }

  lemma ZeroSum(T: Tables, a: Byte8)
    requires T.Ok()
    ensures T.xor(a, 0) == a && T.xor(0, a) == a
  {
    T.Native2(a, 0);
    T.Native2(0, a);
  }

  /** Four masked words put one byte each into place. */
  lemma MasksAssemble(T: Tables, a: Word, b: Word, c: Word, d: Word)
    requires T.Ok()
    ensures Xor4(T, Mask3(a), Mask2(b), Mask1(c), Mask0(d)) == Word(a.b3, b.b2, c.b1, d.b0)
  {
    ZeroSum(T, 0);
    ZeroSum(T, a.b3);
    ZeroSum(T, b.b2);
    ZeroSum(T, c.b1);
    ZeroSum(T, d.b0);
  }

  lemma LastColumnIs(T: Tables, a: Word, b: Word, c: Word, d: Word, k: Word)
    requires T.Ok()
    ensures LastColumn(T, a, b, c, d, k) == T.XorW(T.SubWord(Word(a.b3, b.b2, c.b1, d.b0)), k)
    ensures LastDecColumn(T, a, b, c, d, k) == T.XorW(T.InvSubWord(Word(a.b3, b.b2, c.b1, d.b0)), k)
  {
    MasksAssemble(T, Te4(T, a.b3), Te4(T, b.b2), Te4(T, c.b1), Te4(T, d.b0));
    MasksAssemble(T, Td4(T, a.b3), Td4(T, b.b2), Td4(T, c.b1), Td4(T, d.b0));
  }

  /** A table round is a round of the cipher. */
  lemma TableRoundIs(T: Tables, t: State, k: State)
    ensures TableRound(T, t, k) == T.EncRound(t, k)
  {
    EncColumnIs(T, t.c0, t.c1, t.c2, t.c3, k.c0);
    EncColumnIs(T, t.c1, t.c2, t.c3, t.c0, k.c1);
    EncColumnIs(T, t.c2, t.c3, t.c0, t.c1, k.c2);
    EncColumnIs(T, t.c3, t.c0, t.c1, t.c2, k.c3);
  }

  /** A table decryption round is a round of the equivalent inverse cipher. */
  lemma TableDecRoundIs(T: Tables, t: State, k: State)
    ensures TableDecRound(T, t, k) == T.EqRound(t, k)
  {
    DecColumnIs(T, t.c0, t.c3, t.c2, t.c1, k.c0);
    DecColumnIs(T, t.c1, t.c0, t.c3, t.c2, k.c1);
    DecColumnIs(T, t.c2, t.c1, t.c0, t.c3, k.c2);
    DecColumnIs(T, t.c3, t.c2, t.c1, t.c0, k.c3);
  }

  lemma LastRoundIs(T: Tables, t: State, k: State)
    requires T.Ok()
    ensures LastRound(T, t, k) == T.XorS(Tables.ShiftRows(T.SubBytes(t)), k)
  {
    LastColumnIs(T, t.c0, t.c1, t.c2, t.c3, k.c0);
    LastColumnIs(T, t.c1, t.c2, t.c3, t.c0, k.c1);
    LastColumnIs(T, t.c2, t.c3, t.c0, t.c1, k.c2);
    LastColumnIs(T, t.c3, t.c0, t.c1, t.c2, k.c3);
  }

  lemma LastDecRoundIs(T: Tables, t: State, k: State)
    requires T.Ok()
    ensures LastDecRound(T, t, k) == T.XorS(T.InvSubBytes(Tables.InvShiftRows(t)), k)
  {
    LastColumnIs(T, t.c0, t.c3, t.c2, t.c1, k.c0);
    LastColumnIs(T, t.c1, t.c0, t.c3, t.c2, k.c1);
    LastColumnIs(T, t.c2, t.c1, t.c0, t.c3, k.c2);
    LastColumnIs(T, t.c3, t.c2, t.c1, t.c0, k.c3);
  }

  lemma InvMixTableIs(T: Tables, w: Word)
    requires T.Ok()
    ensures InvMixTable(T, w) == T.InvMixColumn(w)
  {
  }

  // ---- the key schedule, section 5.2 ----

  /** x^n in GF(2^8). */
  function XPower(n: nat): Byte8 { if n == 0 then 1 else XTime(XPower(n - 1)) }

  /** Rcon[j]. */
  function Rcon(j: nat): Word
    requires j > 0
  {
    Word(XPower(j - 1), 0, 0, 0)
  }

  function KeyBytes(key: seq<Byte8>, i: nat): Word
    requires 4 * i + 3 < |key|
  {
    Word(key[4 * i], key[4 * i + 1], key[4 * i + 2], key[4 * i + 3])
  }

  /** Word `i` of the key schedule of a key of `nk` words. */
  function KeyWord(T: Tables, key: seq<Byte8>, nk: nat, i: nat): Word
    requires nk > 0 && 4 * nk <= |key|
    decreases i, T, key, nk
  {
    if i < nk then KeyBytes(key, i)
    else T.XorW(KeyWord(T, key, nk, i - nk), KeyTemp(T, nk, i, KeyWord(T, key, nk, i - 1)))
  }

  function KeyTemp(T: Tables, nk: nat, i: nat, prev: Word): Word
    requires nk > 0 && i >= nk
  {
    if i % nk == 0 then T.XorW(T.SubWord(Tables.Rotate(prev)), RconAt(nk, i))
    else if nk > 6 && i % nk == 4 then T.SubWord(prev)
    else prev
  }

  function RconAt(nk: nat, i: nat): Word
    requires nk > 0 && i >= nk
  {
    assert i / nk > 0;
    Rcon(i / nk)
  }

  /** The table of the source. */
  function RconTable(i: nat): Word
    requires i < 10
  {
    Word(if i == 0 then 0x01 else if i == 1 then 0x02 else if i == 2 then 0x04 else if i == 3 then 0x08
         else if i == 4 then 0x10 else if i == 5 then 0x20 else if i == 6 then 0x40 else if i == 7 then 0x80
         else if i == 8 then 0x1b else 0x36, 0, 0, 0)
  }

  lemma {:induction false} RconTableIs(i: nat)
    requires i < 10
    ensures RconTable(i) == Rcon(i + 1)
  {
    if i > 0 {
      RconTableIs(i - 1);
      assert XPower(i) == XTime(XPower(i - 1));
    }
  }
}
