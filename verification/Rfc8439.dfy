/** ChaCha20 as RFC 8439 describes it in sections 2.1 to 2.4. */
module Rfc8439 {

  type W = bv32
  type B = bv8

  datatype Quad = Quad(a: W, b: W, c: W, d: W)

  /** Byte `j` of a word, counted from the least significant one. */
  function ByteOf(w: W, j: nat): B
    requires j < 4
  {
    if j == 0 then Byte0(w) else if j == 1 then Byte1(w) else if j == 2 then Byte2(w) else Byte3(w)
  }

  function Byte0(w: W): B { (w & 0xff) as B }
  function Byte1(w: W): B { ((w >> 8) & 0xff) as B }
  function Byte2(w: W): B { ((w >> 16) & 0xff) as B }
  function Byte3(w: W): B { ((w >> 24) & 0xff) as B }

  /** The little-endian word of four bytes. */
  function WordOf(b0: B, b1: B, b2: B, b3: B): W {
    (b0 as W) | ((b1 as W) << 8) | ((b2 as W) << 16) | ((b3 as W) << 24)
  }

  /** The operations on words and bytes.  They are fields so that a proof uses their laws one
      at a time; `Ok` says what they are. */
  datatype Ops = Ops(add: (W, W) -> W, xor: (W, W) -> W, rol16: W -> W, rol12: W -> W, rol8: W -> W, rol7: W -> W,
                     byte: (W, nat) -> B, word: (B, B, B, B) -> W, bxor: (B, B) -> B) {

    ghost predicate AddIs(a: W, b: W) { add(a, b) == a + b }
    ghost predicate XorIs(a: W, b: W) { xor(a, b) == a ^ b }
    ghost predicate RolIs(x: W) {
      && rol16(x) == x.RotateLeft(16) && rol12(x) == x.RotateLeft(12)
      && rol8(x) == x.RotateLeft(8) && rol7(x) == x.RotateLeft(7)
    }
    ghost predicate ByteIs(w: W, j: nat) { j < 4 ==> byte(w, j) == ByteOf(w, j) }
    ghost predicate WordIs(b0: B, b1: B, b2: B, b3: B) { word(b0, b1, b2, b3) == WordOf(b0, b1, b2, b3) }
    ghost predicate BxorIs(a: B, b: B) { bxor(a, b) == a ^ b }

    /** Addition modulo 2^32, exclusive or, the four rotations, and little-endian bytes. */
    ghost predicate Ok() {
      && (forall a, b {:trigger AddIs(a, b)} :: AddIs(a, b))
      && (forall a, b {:trigger XorIs(a, b)} :: XorIs(a, b))
      && (forall x {:trigger RolIs(x)} :: RolIs(x))
      && (forall w, j {:trigger ByteIs(w, j)} :: ByteIs(w, j))
      && (forall b0, b1, b2, b3 {:trigger WordIs(b0, b1, b2, b3)} :: WordIs(b0, b1, b2, b3))
      && (forall a, b {:trigger BxorIs(a, b)} :: BxorIs(a, b))
    }

    // ---- laws ----

    lemma XorByBytes(v: W, w: W, j: nat)
      requires Ok() && j < 4
      ensures byte(xor(v, w), j) == bxor(byte(v, j), byte(w, j))
    {
      assert XorIs(v, w) && ByteIs(v, j) && ByteIs(w, j) && ByteIs(v ^ w, j) && BxorIs(ByteOf(v, j), ByteOf(w, j));
      BytesOfXor(v, w, j);
    }

    lemma ByteOfWord(b0: B, b1: B, b2: B, b3: B)
      requires Ok()
      ensures byte(word(b0, b1, b2, b3), 0) == b0 && byte(word(b0, b1, b2, b3), 1) == b1
      ensures byte(word(b0, b1, b2, b3), 2) == b2 && byte(word(b0, b1, b2, b3), 3) == b3
    {
      assert WordIs(b0, b1, b2, b3);
      var w := WordOf(b0, b1, b2, b3);
      assert ByteIs(w, 0) && ByteIs(w, 1) && ByteIs(w, 2) && ByteIs(w, 3);
      BytesOfWord(b0, b1, b2, b3);
    }

    lemma BxorCancels(a: B, b: B)
      requires Ok()
      ensures bxor(bxor(a, b), b) == a
    {
      assert BxorIs(a, b) && BxorIs(a ^ b, b);
    }

    lemma AddNative(a: W, b: W)
      requires Ok()
      ensures add(a, b) == a + b
    {
      assert AddIs(a, b);
    }

    lemma AddInner(a: W, b: W, c: W)
      requires Ok()
      ensures add(add(a, b), c) == add(a + b, c)
    {
      AddNative(a, b);
    }

    lemma AddThree(a: W, b: W, c: W)
      requires Ok()
      ensures add(add(a, b), c) == (a + b) + c
    {
      AddInner(a, b, c);
      assert AddIs(a + b, c);
    }

    lemma AddCommutes(a: W, b: W)
      requires Ok()
      ensures add(a, b) == add(b, a)
    {
      AddNative(a, b);
      AddNative(b, a);
    }

    lemma AddAssociates(a: W, b: W, c: W)
      requires Ok()
      ensures add(add(a, b), c) == add(a, add(b, c))
    {
      AddThree(a, b, c);
      AddThree(b, c, a);
      AddCommutes(a, add(b, c));
    }

    lemma AddSmall(a: W)
      requires Ok()
      ensures add(a, 0) == a && add(a, 2) == add(add(a, 1), 1)
    {
      assert AddIs(a, 0) && AddIs(a, 1) && AddIs(a, 2) && AddIs(a + 1, 1);
    }

    // ---- section 2.1 ----

    function QuarterRound(a: W, b: W, c: W, d: W): Quad {
      var a1 := add(a, b);
      var d1 := rol16(xor(d, a1));
      var c1 := add(c, d1);
      var b1 := rol12(xor(b, c1));
      var a2 := add(a1, b1);
      var d2 := rol8(xor(d1, a2));
      var c2 := add(c1, d2);
      Quad(a2, rol7(xor(b1, c2)), c2, d2)
    }

    // ---- section 2.2 ----

    static predicate Distinct(a: nat, b: nat, c: nat, d: nat) {
      a < 16 && b < 16 && c < 16 && d < 16 && a != b && a != c && a != d && b != c && b != d && c != d
    }

    /** QUARTERROUND on four words of the state. */
    function Qround(s: seq<W>, a: nat, b: nat, c: nat, d: nat): (r: seq<W>)
      requires |s| == 16 && Distinct(a, b, c, d)
      ensures |r| == 16
    {
      var q := QuarterRound(s[a], s[b], s[c], s[d]);
      s[a := q.a][b := q.b][c := q.c][d := q.d]
    }

    // ---- section 2.3 ----

    function Columns(s: seq<W>): (r: seq<W>)
      requires |s| == 16
      ensures |r| == 16
    {
      Qround(Qround(Qround(Qround(s, 0, 4, 8, 12), 1, 5, 9, 13), 2, 6, 10, 14), 3, 7, 11, 15)
    }

    function Diagonals(s: seq<W>): (r: seq<W>)
      requires |s| == 16
      ensures |r| == 16
    {
      Qround(Qround(Qround(Qround(s, 0, 5, 10, 15), 1, 6, 11, 12), 2, 7, 8, 13), 3, 4, 9, 14)
    }

    /** `n` double rounds. */
    function Rounds(s: seq<W>, n: nat): (r: seq<W>)
      requires |s| == 16
      ensures |r| == 16
      decreases n, s
    {
      if n == 0 then s else Diagonals(Columns(Rounds(s, n - 1)))
    }

    function AddWords(r: seq<W>, s: seq<W>): (t: seq<W>)
      requires |r| == 16 && |s| == 16
      ensures |t| == 16 && forall i {:trigger t[i]} :: 0 <= i < 16 ==> t[i] == add(r[i], s[i])
    {
      seq(16, i requires 0 <= i < 16 => add(r[i], s[i]))
    }

    static function DoubleRounds(): nat { 10 }

    /** The ChaCha20 block function on an initial state. */
    function Block(s: seq<W>): (r: seq<W>)
      requires |s| == 16
      ensures |r| == 16
    {
      AddWords(Rounds(s, DoubleRounds()), s)
    }

    /** The little-endian word `i` of a byte string. */
    function WordAt(b: seq<B>, i: nat): W
      requires 4 * i + 3 < |b|
    {
      word(b[4 * i], b[4 * i + 1], b[4 * i + 2], b[4 * i + 3])
    }

    static function Constant(i: nat): W
      requires i < 4
    {
      if i == 0 then 0x61707865 else if i == 1 then 0x3320646e else if i == 2 then 0x79622d32 else 0x6b206574
    }

    /** Constants, key, and the 16 bytes of block counter and nonce. */
    function InitialState(key: seq<B>, iv: seq<B>): (s: seq<W>)
      requires |key| == 32 && |iv| == 16
      ensures |s| == 16
    {
      seq(16, i requires 0 <= i < 16 =>
        if i < 4 then Constant(i) else if i < 12 then WordAt(key, i - 4) else WordAt(iv, i - 12))
    }

    /** The counter advanced `n` times, modulo 2^32. */
    function Bump(s: seq<W>, n: nat): (r: seq<W>)
      requires |s| == 16
      ensures |r| == 16
      decreases n, s
    {
      if n == 0 then s else var r := Bump(s, n - 1); r[12 := add(r[12], 1)]
    }

    // ---- section 2.4 ----

    /** Byte `i` of a serialized block. */
    function SerialByte(block: seq<W>, i: nat): B
      requires |block| == 16 && i < 64
    {
      byte(block[i / 4], i % 4)
    }

    /** Byte `i` of the key stream that starts in state `s`. */
    function StreamByte(s: seq<W>, i: nat): B
      requires |s| == 16
    {
      SerialByte(Block(Bump(s, i / 64)), i % 64)
    }

    /** The message exclusive-ored with the key stream. */
    function Crypted(s: seq<W>, m: seq<B>): (r: seq<B>)
      requires |s| == 16
      ensures |r| == |m|
    {
      seq(|m|, i requires 0 <= i < |m| => bxor(m[i], StreamByte(s, i)))
    }

    /** Encrypting twice is the identity. */
    lemma CryptedTwice(s: seq<W>, m: seq<B>)
      requires Ok() && |s| == 16
      ensures Crypted(s, Crypted(s, m)) == m
    {
      var c := Crypted(s, m);
      forall i | 0 <= i < |m| ensures Crypted(s, c)[i] == m[i] {
        BxorCancels(m[i], StreamByte(s, i));
      }
    }

    /** Only the counter word changes. */
    lemma {:induction false} BumpOthers(s: seq<W>, n: nat)
      requires |s| == 16
      ensures forall j {:trigger Bump(s, n)[j]} :: 0 <= j < 16 && j != 12 ==> Bump(s, n)[j] == s[j]
    {
      if n > 0 { BumpOthers(s, n - 1); }
    }
  }

  lemma BytesOfXor(v: W, w: W, j: nat)
    requires j < 4
    ensures ByteOf(v ^ w, j) == ByteOf(v, j) ^ ByteOf(w, j)
  {
    if j == 0 { Byte0OfXor(v, w); }
    else if j == 1 { Byte1OfXor(v, w); }
    else if j == 2 { Byte2OfXor(v, w); }
    else { Byte3OfXor(v, w); }
  }

  lemma Byte0OfXor(v: W, w: W)
    ensures Byte0(v ^ w) == Byte0(v) ^ Byte0(w)
  {
  }

  lemma Byte1OfXor(v: W, w: W)
    ensures Byte1(v ^ w) == Byte1(v) ^ Byte1(w)
  {
  }

  lemma Byte2OfXor(v: W, w: W)
    ensures Byte2(v ^ w) == Byte2(v) ^ Byte2(w)
  {
  }

  lemma Byte3OfXor(v: W, w: W)
    ensures Byte3(v ^ w) == Byte3(v) ^ Byte3(w)
  {
  }

  lemma BytesOfWord(b0: B, b1: B, b2: B, b3: B)
    ensures ByteOf(WordOf(b0, b1, b2, b3), 0) == b0 && ByteOf(WordOf(b0, b1, b2, b3), 1) == b1
    ensures ByteOf(WordOf(b0, b1, b2, b3), 2) == b2 && ByteOf(WordOf(b0, b1, b2, b3), 3) == b3
  {
  }

  // ---- the operations as the two forms of the source write them ----

  /** ROL32 of the plain C form. */
  function RolOr(x: W, r: nat): W
    requires 0 < r < 32
  {
    (x << r) | (x >> (32 - r))
  }

  /** ROL of the SSE2 form. */
  function RolXor(x: W, r: nat): W
    requires 0 < r < 32
  {
    (x << r) ^ (x >> (32 - r))
  }

  /** ROL8 and ROL16 of the SSSE3 form: byte shuffles within each lane, L8 and L16. */
  function Shuffle8(x: W): W { WordOf(ByteOf(x, 3), ByteOf(x, 0), ByteOf(x, 1), ByteOf(x, 2)) }
  function Shuffle16(x: W): W { WordOf(ByteOf(x, 2), ByteOf(x, 3), ByteOf(x, 0), ByteOf(x, 1)) }

  function PlainOps(): Ops {
    Ops((a, b) => a + b, (a, b) => a ^ b, x => RolOr(x, 16), x => RolOr(x, 12), x => RolOr(x, 8), x => RolOr(x, 7),
        (w: W, j: nat) => if j < 4 then ByteOf(w, j) else 0, (b0, b1, b2, b3) => WordOf(b0, b1, b2, b3), (a, b) => a ^ b)
  }

  function SseOps(): Ops {
    PlainOps().(rol16 := x => RolXor(x, 16), rol12 := x => RolXor(x, 12), rol8 := x => RolXor(x, 8), rol7 := x => RolXor(x, 7))
  }

  function Ssse3Ops(): Ops { SseOps().(rol16 := x => Shuffle16(x), rol8 := x => Shuffle8(x)) }

  lemma RolOrRotates(x: W)
    ensures RolOr(x, 16) == x.RotateLeft(16) && RolOr(x, 12) == x.RotateLeft(12)
    ensures RolOr(x, 8) == x.RotateLeft(8) && RolOr(x, 7) == x.RotateLeft(7)
  {
  }

  lemma RolXorRotates(x: W)
    ensures RolXor(x, 16) == x.RotateLeft(16) && RolXor(x, 12) == x.RotateLeft(12)
    ensures RolXor(x, 8) == x.RotateLeft(8) && RolXor(x, 7) == x.RotateLeft(7)
  {
  }

  lemma ShufflesRotate(x: W)
    ensures Shuffle16(x) == x.RotateLeft(16) && Shuffle8(x) == x.RotateLeft(8)
  {
  }

  lemma PlainOk()
    ensures PlainOps().Ok()
  {
    forall x ensures PlainOps().RolIs(x) { RolOrRotates(x); }
    OthersOk(PlainOps());
  }

  /** The operations all forms share. */
  lemma OthersOk(o: Ops)
    requires o.add == PlainOps().add && o.xor == PlainOps().xor && o.bxor == PlainOps().bxor
    requires o.byte == PlainOps().byte && o.word == PlainOps().word
    requires forall x {:trigger o.RolIs(x)} :: o.RolIs(x)
    ensures o.Ok()
  {
  }

  lemma SseOk()
    ensures SseOps().Ok()
  {
    forall x ensures SseOps().RolIs(x) { RolXorRotates(x); }
    OthersOk(SseOps());
  }

  lemma Ssse3Ok()
    ensures Ssse3Ops().Ok()
  {
    forall x ensures Ssse3Ops().RolIs(x) {
      RolXorRotates(x);
      ShufflesRotate(x);
    }
    OthersOk(Ssse3Ops());
  }
}
