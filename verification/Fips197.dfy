/** AES as FIPS 197 describes it, over an arbitrary S-box: the byte operations, the round
    transformations, the cipher of section 5.1 and the inverse cipher of section 5.3. */
module Fips197 {

  type Byte8 = bv8

  /** Multiplication by {02} in GF(2^8). */
  function XTime(x: Byte8): Byte8 { (x << 1) ^ (if x & 0x80 != 0 then 0x1b else 0) }

  lemma XTimeAdd(a: Byte8, b: Byte8)
    ensures XTime(a ^ b) == XTime(a) ^ XTime(b)
  {
    ShiftAdds(a, b);
    HighBitAdds(a, b);
    var ra: Byte8, rb: Byte8 := if a & 0x80 != 0 then 0x1b else 0, if b & 0x80 != 0 then 0x1b else 0;
    Regroup(a << 1, b << 1, ra, rb);
  }

  lemma ShiftAdds(a: Byte8, b: Byte8)
    ensures (a ^ b) << 1 == (a << 1) ^ (b << 1)
  {
  }

  lemma HighBitAdds(a: Byte8, b: Byte8)
    ensures (a ^ b) & 0x80 != 0 <==> (a & 0x80 != 0) != (b & 0x80 != 0)
  {
  }

  lemma Regroup(a: Byte8, b: Byte8, c: Byte8, d: Byte8)
    ensures (a ^ b) ^ (c ^ d) == (a ^ c) ^ (b ^ d)
  {
  }

  /** A 32-bit word as its four bytes, most significant first: one column of the state. */
  datatype Word = Word(b3: Byte8, b2: Byte8, b1: Byte8, b0: Byte8)

  /** The 16 bytes of a block as four columns. */
  datatype State = State(c0: Word, c1: Word, c2: Word, c3: Word)

  /** The byte operations every table entry is built from.  They are fields so that a proof
      uses their laws one at a time; `Ok` says what they are. */
  datatype Tables = Tables(xor: (Byte8, Byte8) -> Byte8, x2: Byte8 -> Byte8,
                           s: Byte8 -> Byte8, si: Byte8 -> Byte8) {

    ghost predicate IsXor(a: Byte8, b: Byte8) { xor(a, b) == a ^ b }

    ghost predicate IsDouble(a: Byte8) { x2(a) == XTime(a) }

    /** `xor` is ^, `x2` is {02}-multiplication, `si` is the inverse of the S-box `s`. */
    ghost predicate Ok() {
      && (forall a, b {:trigger IsXor(a, b)} :: IsXor(a, b))
      && (forall a {:trigger IsDouble(a)} :: IsDouble(a))
      && (forall a {:trigger s(a)} :: si(s(a)) == a)
      && (forall a {:trigger si(a)} :: s(si(a)) == a)
    }

    lemma Commutes(a: Byte8, b: Byte8)
      requires Ok()
      ensures xor(a, b) == xor(b, a)
    {
      assert IsXor(a, b) && IsXor(b, a);
    }

    lemma Associates(a: Byte8, b: Byte8, c: Byte8)
      requires Ok()
      ensures xor(xor(a, b), c) == xor(a, xor(b, c))
    {
      assert IsXor(a, b) && IsXor(b, c);
      assert IsXor(a ^ b, c) && IsXor(a, b ^ c);
    }

    lemma Cancels(a: Byte8, b: Byte8)
      requires Ok()
      ensures xor(xor(a, b), b) == a
    {
      assert IsXor(a, b) && IsXor(a ^ b, b);
    }

    lemma DoubleAdds(a: Byte8, b: Byte8)
      requires Ok()
      ensures x2(xor(a, b)) == xor(x2(a), x2(b))
    {
      assert IsXor(a, b) && IsDouble(a) && IsDouble(b) && IsDouble(a ^ b);
      assert IsXor(XTime(a), XTime(b));
      XTimeAdd(a, b);
    }

    lemma Exchange(a: Byte8, b: Byte8, c: Byte8, d: Byte8)
      requires Ok()
      ensures xor(xor(a, b), xor(c, d)) == xor(xor(a, c), xor(b, d))
    {
      Associates(a, b, xor(c, d));
      Associates(b, c, d);
      Commutes(b, c);
      Associates(c, b, d);
      Associates(a, c, xor(b, d));
    }

    /** a ^ b ^ c ^ d. */
    function Sum4(a: Byte8, b: Byte8, c: Byte8, d: Byte8): Byte8 { xor(xor(xor(a, b), c), d) }

    lemma Sum4Adds(a: Byte8, a': Byte8, b: Byte8, b': Byte8, c: Byte8, c': Byte8, d: Byte8, d': Byte8)
      requires Ok()
      ensures Sum4(xor(a, a'), xor(b, b'), xor(c, c'), xor(d, d')) == xor(Sum4(a, b, c, d), Sum4(a', b', c', d'))
    {
      Exchange(a, a', b, b');
      Exchange(xor(a, b), xor(a', b'), c, c');
      Exchange(xor(xor(a, b), c), xor(xor(a', b'), c'), d, d');
    }

    lemma Sum4Rotates(a: Byte8, b: Byte8, c: Byte8, d: Byte8)
      requires Ok()
      ensures Sum4(a, b, c, d) == Sum4(b, c, d, a)
    {
      Associates(a, b, c);
      Associates(a, xor(b, c), d);
      Commutes(a, xor(xor(b, c), d));
    }

    // multiples by the constants of MixColumns and InvMixColumns
    function M4(x: Byte8): Byte8 { x2(x2(x)) }
    function M8(x: Byte8): Byte8 { x2(M4(x)) }
    function M3(x: Byte8): Byte8 { xor(x2(x), x) }
    function M9(x: Byte8): Byte8 { xor(M8(x), x) }
    function MB(x: Byte8): Byte8 { xor(xor(M8(x), x2(x)), x) }
    function MD(x: Byte8): Byte8 { xor(xor(M8(x), M4(x)), x) }
    function ME(x: Byte8): Byte8 { xor(xor(M8(x), M4(x)), x2(x)) }

    lemma PowersAdd(a: Byte8, b: Byte8)
      requires Ok()
      ensures x2(xor(a, b)) == xor(x2(a), x2(b))
      ensures M4(xor(a, b)) == xor(M4(a), M4(b))
      ensures M8(xor(a, b)) == xor(M8(a), M8(b))
    {
      DoubleAdds(a, b);
      DoubleAdds(x2(a), x2(b));
      DoubleAdds(M4(a), M4(b));
    }

    lemma OddMultiplesAdd(a: Byte8, b: Byte8)
      requires Ok()
      ensures M9(xor(a, b)) == xor(M9(a), M9(b)) && MB(xor(a, b)) == xor(MB(a), MB(b))
    {
      PowersAdd(a, b);
      Exchange(M8(a), M8(b), a, b);
      Exchange(M8(a), M8(b), x2(a), x2(b));
      Exchange(xor(M8(a), x2(a)), xor(M8(b), x2(b)), a, b);
    }

    lemma MultiplesAdd(a: Byte8, b: Byte8)
      requires Ok()
      ensures M9(xor(a, b)) == xor(M9(a), M9(b)) && MB(xor(a, b)) == xor(MB(a), MB(b))
      ensures MD(xor(a, b)) == xor(MD(a), MD(b)) && ME(xor(a, b)) == xor(ME(a), ME(b))
    {
      OddMultiplesAdd(a, b);
      PowersAdd(a, b);
      Exchange(M8(a), M8(b), M4(a), M4(b));
      Exchange(xor(M8(a), M4(a)), xor(M8(b), M4(b)), a, b);
      Exchange(xor(M8(a), M4(a)), xor(M8(b), M4(b)), x2(a), x2(b));
    }

    // ---- columns ----

    function XorW(a: Word, b: Word): Word {
      Word(xor(a.b3, b.b3), xor(a.b2, b.b2), xor(a.b1, b.b1), xor(a.b0, b.b0))
    }

    /** One column of MixColumns: the circulant (02 03 01 01). */
    function MixColumn(w: Word): Word {
      Word(Sum4(x2(w.b3), M3(w.b2), w.b1, w.b0), Sum4(w.b3, x2(w.b2), M3(w.b1), w.b0),
           Sum4(w.b3, w.b2, x2(w.b1), M3(w.b0)), Sum4(M3(w.b3), w.b2, w.b1, x2(w.b0)))
    }

    /** One column of InvMixColumns: the circulant (0e 0b 0d 09). */
    function InvMixColumn(w: Word): Word {
      Word(Sum4(ME(w.b3), MB(w.b2), MD(w.b1), M9(w.b0)), Sum4(M9(w.b3), ME(w.b2), MB(w.b1), MD(w.b0)),
           Sum4(MD(w.b3), M9(w.b2), ME(w.b1), MB(w.b0)), Sum4(MB(w.b3), MD(w.b2), M9(w.b1), ME(w.b0)))
    }

    lemma InvMixColumnAdds(a: Word, b: Word)
      requires Ok()
      ensures InvMixColumn(XorW(a, b)) == XorW(InvMixColumn(a), InvMixColumn(b))
    {
      MultiplesAdd(a.b3, b.b3);
      MultiplesAdd(a.b2, b.b2);
      MultiplesAdd(a.b1, b.b1);
      MultiplesAdd(a.b0, b.b0);
      Sum4Adds(ME(a.b3), ME(b.b3), MB(a.b2), MB(b.b2), MD(a.b1), MD(b.b1), M9(a.b0), M9(b.b0));
      Sum4Adds(M9(a.b3), M9(b.b3), ME(a.b2), ME(b.b2), MB(a.b1), MB(b.b1), MD(a.b0), MD(b.b0));
      Sum4Adds(MD(a.b3), MD(b.b3), M9(a.b2), M9(b.b2), ME(a.b1), ME(b.b1), MB(a.b0), MB(b.b0));
      Sum4Adds(MB(a.b3), MB(b.b3), MD(a.b2), MD(b.b2), M9(a.b1), M9(b.b1), ME(a.b0), ME(b.b0));
    }

    // identities in few variables, decided on bits

    lemma Native3(a: Byte8, b: Byte8, c: Byte8)
      requires Ok()
      ensures xor(xor(a, b), c) == a ^ b ^ c
    {
      assert IsXor(a, b) && IsXor(a ^ b, c);
    }

    lemma Native4(a: Byte8, b: Byte8, c: Byte8, d: Byte8)
      requires Ok()
      ensures xor(xor(a, b), xor(c, d)) == (a ^ b) ^ (c ^ d)
    {
      assert IsXor(a, b) && IsXor(c, d) && IsXor(a ^ b, c ^ d);
    }

    lemma NativeSum(a: Byte8, b: Byte8, c: Byte8, d: Byte8)
      requires Ok()
      ensures Sum4(a, b, c, d) == a ^ b ^ c ^ d
    {
      assert IsXor(a, b) && IsXor(a ^ b, c) && IsXor(a ^ b ^ c, d);
    }

    lemma Native2(a: Byte8, b: Byte8)
      requires Ok()
      ensures xor(a, b) == a ^ b
    {
      assert IsXor(a, b);
    }

    lemma Native6(a: Byte8, b: Byte8, c: Byte8, d: Byte8, e: Byte8, f: Byte8)
      requires Ok()
      ensures xor(xor(xor(a, b), c), xor(xor(d, e), f)) == (a ^ b ^ c) ^ (d ^ e ^ f)
    {
      Native3(a, b, c);
      Native3(d, e, f);
      assert IsXor(a ^ b ^ c, d ^ e ^ f);
    }

    lemma GroupDiagonal(x: Byte8, p2: Byte8, p4: Byte8, p8: Byte8, p16: Byte8, a: Byte8, b: Byte8, c: Byte8, d: Byte8)
      requires Ok()
      requires a == xor(xor(p16, p8), p4) && b == xor(xor(p8, p2), x) && c == xor(xor(p8, p4), x)
      requires d == xor(xor(p16, p2), xor(p8, x))
      ensures Sum4(a, b, c, d) == x
    {
      Native3(p16, p8, p4);
      Native3(p8, p2, x);
      Native3(p8, p4, x);
      Native4(p16, p2, p8, x);
      NativeSum(a, b, c, d);
      BitsDiagonal(x, p2, p4, p8, p16, a, b, c, d);
    }

    lemma Group1(x: Byte8, p2: Byte8, p4: Byte8, p8: Byte8, p16: Byte8, a: Byte8, b: Byte8, c: Byte8, d: Byte8)
      requires Ok()
      requires a == xor(xor(xor(p16, p8), p4), xor(xor(p8, p4), p2)) && b == xor(xor(p16, p4), p2)
      requires c == xor(xor(p8, p4), x) && d == xor(p8, x)
      ensures Sum4(a, b, c, d) == 0
    {
      Native6(p16, p8, p4, p8, p4, p2);
      Native3(p16, p4, p2);
      Native3(p8, p4, x);
      Native2(p8, x);
      NativeSum(a, b, c, d);
      Bits1(x, p2, p4, p8, p16, a, b, c, d);
    }

    lemma Group2(x: Byte8, p2: Byte8, p4: Byte8, p8: Byte8, p16: Byte8, a: Byte8, b: Byte8, c: Byte8, d: Byte8)
      requires Ok()
      requires a == xor(xor(p8, p4), p2) && b == xor(xor(xor(p16, p4), p2), xor(xor(p8, p2), x))
      requires c == xor(xor(p16, p8), p2) && d == xor(p8, x)
      ensures Sum4(a, b, c, d) == 0
    {
      Native3(p8, p4, p2);
      Native6(p16, p4, p2, p8, p2, x);
      Native3(p16, p8, p2);
      Native2(p8, x);
      NativeSum(a, b, c, d);
      Bits2(x, p2, p4, p8, p16, a, b, c, d);
    }

    lemma Group3(x: Byte8, p2: Byte8, p4: Byte8, p8: Byte8, p16: Byte8, a: Byte8, b: Byte8, c: Byte8, d: Byte8)
      requires Ok()
      requires a == xor(xor(p8, p4), p2) && b == xor(xor(p8, p2), x)
      requires c == xor(xor(xor(p16, p8), p2), xor(xor(p8, p4), x)) && d == xor(p16, p2)
      ensures Sum4(a, b, c, d) == 0
    {
      Native3(p8, p4, p2);
      Native3(p8, p2, x);
      Native6(p16, p8, p2, p8, p4, x);
      Native2(p16, p2);
      NativeSum(a, b, c, d);
      Bits3(x, p2, p4, p8, p16, a, b, c, d);
    }

    /** The entries of the product of the two circulants: 0e*02 + 0b*01 + 0d*01 + 09*03 == 01,
        and the three others of the row are 00. */
    lemma RowTimesColumns(x: Byte8)
      requires Ok()
      ensures Sum4(ME(x2(x)), MB(x), MD(x), M9(M3(x))) == x
      ensures Sum4(ME(M3(x)), MB(x2(x)), MD(x), M9(x)) == 0
      ensures Sum4(ME(x), MB(M3(x)), MD(x2(x)), M9(x)) == 0
      ensures Sum4(ME(x), MB(x), MD(M3(x)), M9(x2(x))) == 0
    {
      var p2, p4, p8, p16 := x2(x), M4(x), M8(x), x2(M8(x));
      MultiplesAdd(p2, x);
      GroupDiagonal(x, p2, p4, p8, p16, ME(p2), MB(x), MD(x), M9(M3(x)));
      Group1(x, p2, p4, p8, p16, ME(M3(x)), MB(p2), MD(x), M9(x));
      Group2(x, p2, p4, p8, p16, ME(x), MB(M3(x)), MD(p2), M9(x));
      Group3(x, p2, p4, p8, p16, ME(x), MB(x), MD(M3(x)), M9(p2));
    }

    lemma MultiplesAdd4(a: Byte8, b: Byte8, c: Byte8, d: Byte8)
      requires Ok()
      ensures ME(Sum4(a, b, c, d)) == Sum4(ME(a), ME(b), ME(c), ME(d))
      ensures MB(Sum4(a, b, c, d)) == Sum4(MB(a), MB(b), MB(c), MB(d))
      ensures MD(Sum4(a, b, c, d)) == Sum4(MD(a), MD(b), MD(c), MD(d))
      ensures M9(Sum4(a, b, c, d)) == Sum4(M9(a), M9(b), M9(c), M9(d))
    {
      MultiplesAdd(a, b);
      MultiplesAdd(xor(a, b), c);
      MultiplesAdd(xor(xor(a, b), c), d);
    }

    /** Adding up rows first or columns first. */
    lemma Transpose(a1: Byte8, a2: Byte8, a3: Byte8, a4: Byte8, b1: Byte8, b2: Byte8, b3: Byte8, b4: Byte8,
                    c1: Byte8, c2: Byte8, c3: Byte8, c4: Byte8, d1: Byte8, d2: Byte8, d3: Byte8, d4: Byte8)
      requires Ok()
      ensures Sum4(Sum4(a1, a2, a3, a4), Sum4(b1, b2, b3, b4), Sum4(c1, c2, c3, c4), Sum4(d1, d2, d3, d4))
           == Sum4(Sum4(a1, b1, c1, d1), Sum4(a2, b2, c2, d2), Sum4(a3, b3, c3, d3), Sum4(a4, b4, c4, d4))
    {
      Sum4Adds(a1, a2, b1, b2, c1, c2, d1, d2);
      Sum4Adds(xor(a1, a2), a3, xor(b1, b2), b3, xor(c1, c2), c3, xor(d1, d2), d3);
      Sum4Adds(xor(xor(a1, a2), a3), a4, xor(xor(b1, b2), b3), b4, xor(xor(c1, c2), c3), c4, xor(xor(d1, d2), d3), d4);
    }

    lemma FirstByteRestored(w: Word)
      requires Ok()
      ensures InvMixColumn(MixColumn(w)).b3 == w.b3
    {
      var a, b, c, d := w.b3, w.b2, w.b1, w.b0;
      MultiplesAdd4(x2(a), M3(b), c, d);
      MultiplesAdd4(a, x2(b), M3(c), d);
      MultiplesAdd4(a, b, x2(c), M3(d));
      MultiplesAdd4(M3(a), b, c, x2(d));
      Transpose(ME(x2(a)), ME(M3(b)), ME(c), ME(d), MB(a), MB(x2(b)), MB(M3(c)), MB(d),
                MD(a), MD(b), MD(x2(c)), MD(M3(d)), M9(M3(a)), M9(b), M9(c), M9(x2(d)));
      RowTimesColumns(a);
      RowTimesColumns(b);
      RowTimesColumns(c);
      RowTimesColumns(d);
      SumWithZeros(a);
    }

    lemma SumWithZeros(a: Byte8)
      requires Ok()
      ensures Sum4(a, 0, 0, 0) == a
    {
      Cancels(a, 0);
      Native2(a, 0);
    }

    static function Rotate(w: Word): Word { Word(w.b2, w.b1, w.b0, w.b3) }

    lemma MixColumnRotates(w: Word)
      requires Ok()
      ensures MixColumn(Rotate(w)) == Rotate(MixColumn(w))
      ensures InvMixColumn(Rotate(w)) == Rotate(InvMixColumn(w))
    {
      Sum4Rotates(w.b3, x2(w.b2), M3(w.b1), w.b0);
      Sum4Rotates(w.b3, w.b2, x2(w.b1), M3(w.b0));
      Sum4Rotates(M3(w.b3), w.b2, w.b1, x2(w.b0));
      Sum4Rotates(x2(w.b3), M3(w.b2), w.b1, w.b0);
      Sum4Rotates(M9(w.b3), ME(w.b2), MB(w.b1), MD(w.b0));
      Sum4Rotates(MD(w.b3), M9(w.b2), ME(w.b1), MB(w.b0));
      Sum4Rotates(MB(w.b3), MD(w.b2), M9(w.b1), ME(w.b0));
      Sum4Rotates(ME(w.b3), MB(w.b2), MD(w.b1), M9(w.b0));
    }

    /** InvMixColumns undoes MixColumns. */
    lemma InvMixColumnInverse(w: Word)
      requires Ok()
      ensures InvMixColumn(MixColumn(w)) == w
    {
      var w1 := Rotate(w);
      var w2 := Rotate(w1);
      var w3 := Rotate(w2);
      MixColumnRotates(w);
      MixColumnRotates(w1);
      MixColumnRotates(w2);
      MixColumnRotates(MixColumn(w));
      MixColumnRotates(MixColumn(w1));
      MixColumnRotates(MixColumn(w2));
      FirstByteRestored(w);
      FirstByteRestored(w1);
      FirstByteRestored(w2);
      FirstByteRestored(w3);
    }

    // ---- the state ----

    function SubWord(w: Word): Word { Word(s(w.b3), s(w.b2), s(w.b1), s(w.b0)) }

    function InvSubWord(w: Word): Word { Word(si(w.b3), si(w.b2), si(w.b1), si(w.b0)) }

    function SubBytes(t: State): State { State(SubWord(t.c0), SubWord(t.c1), SubWord(t.c2), SubWord(t.c3)) }

    function InvSubBytes(t: State): State {
      State(InvSubWord(t.c0), InvSubWord(t.c1), InvSubWord(t.c2), InvSubWord(t.c3))
    }

    /** Row r moves r columns to the left. */
    static function ShiftRows(t: State): State {
      State(Word(t.c0.b3, t.c1.b2, t.c2.b1, t.c3.b0), Word(t.c1.b3, t.c2.b2, t.c3.b1, t.c0.b0),
            Word(t.c2.b3, t.c3.b2, t.c0.b1, t.c1.b0), Word(t.c3.b3, t.c0.b2, t.c1.b1, t.c2.b0))
    }

    static function InvShiftRows(t: State): State {
      State(Word(t.c0.b3, t.c3.b2, t.c2.b1, t.c1.b0), Word(t.c1.b3, t.c0.b2, t.c3.b1, t.c2.b0),
            Word(t.c2.b3, t.c1.b2, t.c0.b1, t.c3.b0), Word(t.c3.b3, t.c2.b2, t.c1.b1, t.c0.b0))
    }

    function MixColumns(t: State): State {
      State(MixColumn(t.c0), MixColumn(t.c1), MixColumn(t.c2), MixColumn(t.c3))
    }

    function InvMixColumns(t: State): State {
      State(InvMixColumn(t.c0), InvMixColumn(t.c1), InvMixColumn(t.c2), InvMixColumn(t.c3))
    }

    /** AddRoundKey, and the block-wise exclusive or of CBC. */
    function XorS(t: State, k: State): State {
      State(XorW(t.c0, k.c0), XorW(t.c1, k.c1), XorW(t.c2, k.c2), XorW(t.c3, k.c3))
    }

    lemma XorWCancels(a: Word, b: Word)
      requires Ok()
      ensures XorW(XorW(a, b), b) == a
      ensures XorW(a, b) == XorW(b, a)
    {
      Cancels(a.b3, b.b3);
      Cancels(a.b2, b.b2);
      Cancels(a.b1, b.b1);
      Cancels(a.b0, b.b0);
      Commutes(a.b3, b.b3);
      Commutes(a.b2, b.b2);
      Commutes(a.b1, b.b1);
      Commutes(a.b0, b.b0);
    }

    lemma XorSCancels(t: State, k: State)
      requires Ok()
      ensures XorS(XorS(t, k), k) == t
      ensures XorS(t, k) == XorS(k, t)
    {
      XorWCancels(t.c0, k.c0);
      XorWCancels(t.c1, k.c1);
      XorWCancels(t.c2, k.c2);
      XorWCancels(t.c3, k.c3);
    }

    lemma InverseSteps(t: State)
      requires Ok()
      ensures InvMixColumns(MixColumns(t)) == t
      ensures InvSubBytes(InvShiftRows(ShiftRows(SubBytes(t)))) == t
      ensures InvSubBytes(InvShiftRows(t)) == InvShiftRows(InvSubBytes(t))
    {
      InvMixColumnInverse(t.c0);
      InvMixColumnInverse(t.c1);
      InvMixColumnInverse(t.c2);
      InvMixColumnInverse(t.c3);
    }

    lemma InvMixColumnsAdd(t: State, k: State)
      requires Ok()
      ensures InvMixColumns(XorS(t, k)) == XorS(InvMixColumns(t), InvMixColumns(k))
    {
      InvMixColumnAdds(t.c0, k.c0);
      InvMixColumnAdds(t.c1, k.c1);
      InvMixColumnAdds(t.c2, k.c2);
      InvMixColumnAdds(t.c3, k.c3);
    }

    // ---- the rounds ----

    // one full round of the cipher, of the inverse cipher and of the equivalent inverse cipher
    function EncRound(t: State, k: State): State { XorS(MixColumns(ShiftRows(SubBytes(t))), k) }
    function DecRound(t: State, k: State): State { InvMixColumns(XorS(InvSubBytes(InvShiftRows(t)), k)) }
    function EqRound(t: State, k: State): State { XorS(InvMixColumns(InvSubBytes(InvShiftRows(t))), k) }

    /** AES as an iterated cipher. */
    function Steps(): Iterated {
      Iterated((t, k) => XorS(t, k), t => ShiftRows(SubBytes(t)), t => InvSubBytes(InvShiftRows(t)),
               (t, k) => EncRound(t, k), (t, k) => DecRound(t, k), (t, k) => EqRound(t, k), k => InvMixColumns(k))
    }

    ghost predicate DescribesAt(i: Iterated, t: State, k: State) {
      && i.add(t, k) == XorS(t, k) && i.half(t) == ShiftRows(SubBytes(t)) && i.unhalf(t) == InvSubBytes(InvShiftRows(t))
      && i.enc(t, k) == EncRound(t, k) && i.dec(t, k) == DecRound(t, k) && i.eq(t, k) == EqRound(t, k)
      && i.invKey(k) == InvMixColumns(k)
    }

    /** `i` consists of the rounds of AES. */
    ghost predicate Describes(i: Iterated) { forall t, k {:trigger DescribesAt(i, t, k)} :: DescribesAt(i, t, k) }

    /** There is such an iterated cipher. */
    lemma DescribesSteps()
      ensures Describes(Steps())
    {
      DescribesStepsEverywhere();
    }

    lemma DescribesStepsEverywhere()
      ensures forall t, k :: DescribesAt(Steps(), t, k)
    {
      forall t, k ensures DescribesAt(Steps(), t, k) { DescribesStepsAt(t, k); }
    }

    lemma DescribesStepsAt(t: State, k: State)
      ensures DescribesAt(Steps(), t, k)
    {
    }

    /** A decryption round carries the shifted substitution of one state to that of the state before. */
    lemma RoundUndone(t: State, k: State)
      requires Ok()
      ensures DecRound(ShiftRows(SubBytes(EncRound(t, k))), k) == ShiftRows(SubBytes(t))
    {
      var mixed := ShiftRows(SubBytes(t));
      InverseSteps(XorS(MixColumns(mixed), k));
      XorSCancels(MixColumns(mixed), k);
      InverseSteps(mixed);
    }

    lemma EqRoundIsDecRound(t: State, k: State)
      requires Ok()
      ensures EqRound(t, InvMixColumns(k)) == DecRound(t, k)
    {
      InvMixColumnsAdd(InvSubBytes(InvShiftRows(t)), k);
    }

    lemma AddUndone(i: Iterated, t: State, k: State)
      requires Ok() && Describes(i)
      ensures i.AddUndone(t, k)
    {
      assert DescribesAt(i, t, k) && DescribesAt(i, XorS(t, k), k);
      XorSCancels(t, k);
    }

    lemma HalfUndone(i: Iterated, t: State)
      requires Ok() && Describes(i)
      ensures i.HalfUndone(t)
    {
      assert DescribesAt(i, t, t) && DescribesAt(i, ShiftRows(SubBytes(t)), t);
      InverseSteps(t);
    }

    lemma EncUndone(i: Iterated, t: State, k: State)
      requires Ok() && Describes(i)
      ensures i.EncUndone(t, k)
    {
      var r := EncRound(t, k);
      assert DescribesAt(i, t, k) && DescribesAt(i, r, k) && DescribesAt(i, ShiftRows(SubBytes(r)), k);
      RoundUndone(t, k);
    }

    lemma EqIsDec(i: Iterated, t: State, k: State)
      requires Ok() && Describes(i)
      ensures i.EqIsDec(t, k)
    {
      assert DescribesAt(i, t, k) && DescribesAt(i, t, InvMixColumns(k));
      EqRoundIsDecRound(t, k);
    }

    /** AES decryption rounds undo AES rounds. */
    lemma DescribedUndoable(i: Iterated)
      requires Ok() && Describes(i)
      ensures i.Undoable()
    {
      forall t, k ensures i.AddUndone(t, k) && i.EncUndone(t, k) && i.EqIsDec(t, k) {
        AddUndone(i, t, k);
        EncUndone(i, t, k);
        EqIsDec(i, t, k);
      }
      forall t ensures i.HalfUndone(t) { HalfUndone(i, t); }
    }
  }

  /** Tables over any invertible S-box. */
  function TablesFor(s: Byte8 -> Byte8, si: Byte8 -> Byte8): Tables {
    Tables((a: Byte8, b: Byte8) => a ^ b, (a: Byte8) => XTime(a), s, si)
  }

  lemma TablesForOk(s: Byte8 -> Byte8, si: Byte8 -> Byte8)
    requires (forall a {:trigger s(a)} :: si(s(a)) == a) && forall a {:trigger si(a)} :: s(si(a)) == a
    ensures TablesFor(s, si).Ok()
  {
  }

  // ---- iterated ciphers ----

  function RoundKey(w: seq<Word>, r: nat): State
    requires 4 * r + 3 < |w|
  {
    State(w[4 * r], w[4 * r + 1], w[4 * r + 2], w[4 * r + 3])
  }

  /** The rounds a cipher is composed of: adding a key, the part of a round without keys and
      without mixing (`half`) with its inverse (`unhalf`), a full round of the cipher (`enc`),
      of the inverse cipher (`dec`) and of the equivalent inverse cipher (`eq`), whose round
      keys are transformed by `invKey`. */
  datatype Iterated = Iterated(add: (State, State) -> State, half: State -> State, unhalf: State -> State,
                               enc: (State, State) -> State, dec: (State, State) -> State,
                               eq: (State, State) -> State, invKey: State -> State) {

    ghost predicate AddUndone(t: State, k: State) { add(add(t, k), k) == t }
    ghost predicate HalfUndone(t: State) { unhalf(half(t)) == t }
    ghost predicate EncUndone(t: State, k: State) { dec(half(enc(t, k)), k) == half(t) }
    ghost predicate EqIsDec(t: State, k: State) { eq(t, invKey(k)) == dec(t, k) }


    ghost predicate Undoable() {
      && (forall t, k {:trigger AddUndone(t, k)} :: AddUndone(t, k))
      && (forall t {:trigger HalfUndone(t)} :: HalfUndone(t))
      && (forall t, k {:trigger EncUndone(t, k)} :: EncUndone(t, k))
      && (forall t, k {:trigger EqIsDec(t, k)} :: EqIsDec(t, k))
    }

    /** The state after the initial AddRoundKey and `n` full rounds. */
    function Rounds(w: seq<Word>, n: nat, t: State): State
      requires 4 * n + 3 < |w|
      decreases n, w, t
    {
      if n == 0 then add(t, RoundKey(w, 0))
      else enc(Rounds(w, n - 1, t), RoundKey(w, n))
    }

    /** Cipher, section 5.1. */
    function Cipher(w: seq<Word>, nr: nat, t: State): State
      requires nr > 0 && 4 * nr + 3 < |w|
    {
      add(half(Rounds(w, nr - 1, t)), RoundKey(w, nr))
    }

    lemma {:induction false} RoundsCongruent(v: seq<Word>, w: seq<Word>, n: nat, t: State)
      requires 4 * n + 3 < |v| && 4 * n + 3 < |w|
      requires forall r {:trigger RoundKey(w, r)} :: 0 <= r <= n ==> RoundKey(v, r) == RoundKey(w, r)
      ensures Rounds(v, n, t) == Rounds(w, n, t)
    {
      assert RoundKey(v, n) == RoundKey(w, n);
      if n > 0 { RoundsCongruent(v, w, n - 1, t); }
    }

    /** Only the 4 * (nr + 1) words of the schedule matter. */
    lemma CipherCongruent(v: seq<Word>, w: seq<Word>, nr: nat, t: State)
      requires nr > 0 && 4 * nr + 3 < |v| && 4 * nr + 3 < |w|
      requires forall r {:trigger RoundKey(w, r)} :: 0 <= r <= nr ==> RoundKey(v, r) == RoundKey(w, r)
      ensures Cipher(v, nr, t) == Cipher(w, nr, t)
    {
      RoundsCongruent(v, w, nr - 1, t);
      assert RoundKey(v, nr) == RoundKey(w, nr);
    }

    /** The inverse cipher's state after `n` of its full rounds. */
    function InvRounds(w: seq<Word>, nr: nat, n: nat, t: State): State
      requires n <= nr && 4 * nr + 3 < |w|
      decreases n, w, nr, t
    {
      if n == 0 then add(t, RoundKey(w, nr))
      else dec(InvRounds(w, nr, n - 1, t), RoundKey(w, nr - n))
    }

    /** InvCipher, section 5.3. */
    function InvCipher(w: seq<Word>, nr: nat, t: State): State
      requires nr > 0 && 4 * nr + 3 < |w|
    {
      add(unhalf(InvRounds(w, nr, nr - 1, t)), RoundKey(w, 0))
    }

    lemma {:induction false} InvRoundsUndo(w: seq<Word>, nr: nat, n: nat, t: State)
      requires Undoable() && n < nr && 4 * nr + 3 < |w|
      ensures InvRounds(w, nr, n, Cipher(w, nr, t)) == half(Rounds(w, nr - 1 - n, t))
    {
      if n == 0 {
        assert AddUndone(half(Rounds(w, nr - 1, t)), RoundKey(w, nr));
      } else {
        InvRoundsUndo(w, nr, n - 1, t);
        assert EncUndone(Rounds(w, nr - 1 - n, t), RoundKey(w, nr - n));
      }
    }

    /** The inverse cipher undoes the cipher, for any round keys. */
    lemma InvCipherUndoes(w: seq<Word>, nr: nat, t: State)
      requires Undoable() && nr > 0 && 4 * nr + 3 < |w|
      ensures InvCipher(w, nr, Cipher(w, nr, t)) == t
    {
      InvRoundsUndo(w, nr, nr - 1, t);
      assert HalfUndone(Rounds(w, 0, t)) && AddUndone(t, RoundKey(w, 0));
    }

    // ---- the equivalent inverse cipher, section 5.3.5 ----

    /** `dw` is the schedule of `w` reversed, with InvMixColumns applied to all round keys
        but the first and the last. */
    ghost predicate DecryptionSchedule(w: seq<Word>, dw: seq<Word>, nr: nat) {
      4 * nr + 3 < |w| && 4 * nr + 3 < |dw|
      && forall r {:trigger RoundKey(dw, r)} :: 0 <= r <= nr ==>
           RoundKey(dw, r) == if r == 0 || r == nr then RoundKey(w, nr - r) else invKey(RoundKey(w, nr - r))
    }

    function EqRounds(dw: seq<Word>, n: nat, t: State): State
      requires 4 * n + 3 < |dw|
      decreases n, dw, t
    {
      if n == 0 then add(t, RoundKey(dw, 0))
      else eq(EqRounds(dw, n - 1, t), RoundKey(dw, n))
    }

    function EqInvCipher(dw: seq<Word>, nr: nat, t: State): State
      requires nr > 0 && 4 * nr + 3 < |dw|
    {
      add(unhalf(EqRounds(dw, nr - 1, t)), RoundKey(dw, nr))
    }

    lemma {:induction false} EqRoundsAgree(w: seq<Word>, dw: seq<Word>, nr: nat, n: nat, t: State)
      requires Undoable() && DecryptionSchedule(w, dw, nr) && n < nr
      ensures EqRounds(dw, n, t) == InvRounds(w, nr, n, t)
    {
      assert RoundKey(dw, n) == if n == 0 then RoundKey(w, nr) else invKey(RoundKey(w, nr - n));
      if n > 0 {
        EqRoundsAgree(w, dw, nr, n - 1, t);
        assert EqIsDec(InvRounds(w, nr, n - 1, t), RoundKey(w, nr - n));
      }
    }

    /** With its own schedule the equivalent inverse cipher is the inverse cipher, so it
        undoes the cipher. */
    lemma EqInvCipherUndoes(w: seq<Word>, dw: seq<Word>, nr: nat, t: State)
      requires Undoable() && nr > 0 && DecryptionSchedule(w, dw, nr)
      ensures EqInvCipher(dw, nr, t) == InvCipher(w, nr, t)
      ensures EqInvCipher(dw, nr, Cipher(w, nr, t)) == t
    {
      EqRoundsAgree(w, dw, nr, nr - 1, t);
      EqRoundsAgree(w, dw, nr, nr - 1, Cipher(w, nr, t));
      InvCipherUndoes(w, nr, t);
      assert RoundKey(dw, nr) == RoundKey(w, 0);
    }
  }

  lemma BitsDiagonal(x: Byte8, p2: Byte8, p4: Byte8, p8: Byte8, p16: Byte8, a: Byte8, b: Byte8, c: Byte8, d: Byte8)
    requires a == p16 ^ p8 ^ p4 && b == p8 ^ p2 ^ x && c == p8 ^ p4 ^ x && d == (p16 ^ p2) ^ (p8 ^ x)
    ensures a ^ b ^ c ^ d == x
  {
  }

  lemma Bits1(x: Byte8, p2: Byte8, p4: Byte8, p8: Byte8, p16: Byte8, a: Byte8, b: Byte8, c: Byte8, d: Byte8)
    requires a == (p16 ^ p8 ^ p4) ^ (p8 ^ p4 ^ p2) && b == p16 ^ p4 ^ p2 && c == p8 ^ p4 ^ x && d == p8 ^ x
    ensures a ^ b ^ c ^ d == 0
  {
  }

  lemma Bits2(x: Byte8, p2: Byte8, p4: Byte8, p8: Byte8, p16: Byte8, a: Byte8, b: Byte8, c: Byte8, d: Byte8)
    requires a == p8 ^ p4 ^ p2 && b == (p16 ^ p4 ^ p2) ^ (p8 ^ p2 ^ x) && c == p16 ^ p8 ^ p2 && d == p8 ^ x
    ensures a ^ b ^ c ^ d == 0
  {
  }

  lemma Bits3(x: Byte8, p2: Byte8, p4: Byte8, p8: Byte8, p16: Byte8, a: Byte8, b: Byte8, c: Byte8, d: Byte8)
    requires a == p8 ^ p4 ^ p2 && b == p8 ^ p2 ^ x && c == (p16 ^ p8 ^ p2) ^ (p8 ^ p4 ^ x) && d == p16 ^ p2
    ensures a ^ b ^ c ^ d == 0
  {
  }
}
