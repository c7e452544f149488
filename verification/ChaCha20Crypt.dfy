/** `cc20_crypt` in both forms, on byte buffers that may coincide. */
module ChaCha20Crypt {
  import opened Rfc8439
  import opened ChaCha20

  /** The first `n` bytes of `m` have been exclusive-ored with the key stream `ks` into `now`;
      the rest of the output is as in `was`, and the rest of the message is still in `rest`. */
  ghost predicate Progress(o: Ops, ks: nat -> B, m: seq<B>, n: nat, now: seq<B>, rest: seq<B>, was: seq<B>) {
    && n <= |m| <= |rest| && |m| <= |now| == |was|
    && (forall j: nat {:trigger now[j]} :: j < n ==> now[j] == o.bxor(m[j], ks(j)))
    && (forall j {:trigger now[j]} :: n <= j < |now| ==> now[j] == was[j])
    && (forall j {:trigger rest[j]} :: n <= j < |m| ==> rest[j] == m[j])
  }

  /** From position `n` on the key stream consists of the bytes of `w`. */
  ghost predicate WordAt(o: Ops, ks: nat -> B, n: nat, w: W) {
    ks(n) == o.byte(w, 0) && ks(n + 1) == o.byte(w, 1) && ks(n + 2) == o.byte(w, 2) && ks(n + 3) == o.byte(w, 3)
  }

  ghost predicate BlockAt(o: Ops, ks: nat -> B, n: nat, z: seq<W>) {
    |z| == 16 && forall k: nat {:trigger IsWordOf(o, ks, n, z, k)} :: IsWordOf(o, ks, n, z, k)
  }

  ghost predicate IsWordOf(o: Ops, ks: nat -> B, n: nat, z: seq<W>, k: nat) {
    k < |z| ==> WordAt(o, ks, n + 4 * k, z[k])
  }

  /** `ks` is the concatenation of the blocks. */
  ghost predicate Streams(o: Ops, blk: nat -> seq<W>, ks: nat -> B) {
    forall b: nat {:trigger blk(b)} :: BlockAt(o, ks, 64 * b, blk(b))
  }

  ghost function Concatenated(o: Ops, blk: nat -> seq<W>): nat -> B
    requires forall b {:trigger blk(b)} :: |blk(b)| == 16
  {
    (i: nat) => o.SerialByte(blk(i / 64), i % 64)
  }

  lemma StreamByteIs(o: Ops, blk: nat -> seq<W>, b: nat, k: nat, j: nat)
    requires k < 16 && j < 4 && forall b {:trigger blk(b)} :: |blk(b)| == 16
    ensures Concatenated(o, blk)(64 * b + (4 * k + j)) == o.byte(blk(b)[k], j)
  {
    SplitAt64(b, 4 * k + j);
    SplitAt4(k, j);
  }

  lemma SplitAt64(q: nat, r: nat)
    requires r < 64
    ensures (64 * q + r) / 64 == q && (64 * q + r) % 64 == r
  {
  }

  lemma SplitAt4(q: nat, r: nat)
    requires r < 4
    ensures (4 * q + r) / 4 == q && (4 * q + r) % 4 == r
  {
  }

  lemma StreamsIs(o: Ops, blk: nat -> seq<W>)
    requires forall b {:trigger blk(b)} :: |blk(b)| == 16
    ensures Streams(o, blk, Concatenated(o, blk))
  {
    var ks := Concatenated(o, blk);
    forall b: nat {:trigger blk(b)} ensures BlockAt(o, ks, 64 * b, blk(b)) {
      var z := blk(b);
      forall k: nat | k < 16 ensures IsWordOf(o, ks, 64 * b, z, k) {
        StreamByteIs(o, blk, b, k, 0);
        StreamByteIs(o, blk, b, k, 1);
        StreamByteIs(o, blk, b, k, 2);
        StreamByteIs(o, blk, b, k, 3);
      }
    }
  }

  lemma WordXor(o: RfcOps, b0: B, b1: B, b2: B, b3: B, w: W)
    ensures var x := o.xor(o.word(b0, b1, b2, b3), w);
            o.byte(x, 0) == o.bxor(b0, o.byte(w, 0)) && o.byte(x, 1) == o.bxor(b1, o.byte(w, 1))
            && o.byte(x, 2) == o.bxor(b2, o.byte(w, 2)) && o.byte(x, 3) == o.bxor(b3, o.byte(w, 3))
  {
    var v := o.word(b0, b1, b2, b3);
    o.ByteOfWord(b0, b1, b2, b3);
    o.XorByBytes(v, w, 0);
    o.XorByBytes(v, w, 1);
    o.XorByBytes(v, w, 2);
    o.XorByBytes(v, w, 3);
  }

  /** One word of the message, exclusive-ored with a word of the key stream. */
  method PutWord(o: RfcOps, out: array<B>, inp: array<B>, n: nat, w: W, ghost ks: nat -> B, ghost m: seq<B>, ghost was: seq<B>)
    requires n + 4 <= |m| && WordAt(o, ks, n, w)
    requires Progress(o, ks, m, n, out[..], inp[..], was)
    modifies out
    ensures Progress(o, ks, m, n + 4, out[..], inp[..], was)
  {
    var x := o.xor(o.word(inp[n], inp[n + 1], inp[n + 2], inp[n + 3]), w);
    WordXor(o, m[n], m[n + 1], m[n + 2], m[n + 3], w);
    PutByte(o, out, inp, n, o.byte(x, 0), ks, m, was);
    PutByte(o, out, inp, n + 1, o.byte(x, 1), ks, m, was);
    PutByte(o, out, inp, n + 2, o.byte(x, 2), ks, m, was);
    PutByte(o, out, inp, n + 3, o.byte(x, 3), ks, m, was);
  }

  method PutByte(o: RfcOps, out: array<B>, inp: array<B>, n: nat, v: B, ghost ks: nat -> B, ghost m: seq<B>, ghost was: seq<B>)
    requires n < |m| && v == o.bxor(m[n], ks(n))
    requires Progress(o, ks, m, n, out[..], inp[..], was)
    modifies out
    ensures Progress(o, ks, m, n + 1, out[..], inp[..], was)
  {
    out[n] := v;
  }

  function LaneOf(x: Row, l: nat): W { if l == 0 then x.x0 else if l == 1 then x.x1 else if l == 2 then x.x2 else x.x3 }

  ghost predicate RowAt(o: Ops, ks: nat -> B, n: nat, x: Row) {
    forall l {:trigger LaneOf(x, l)} :: 0 <= l < 4 ==> WordAt(o, ks, n + 4 * l, LaneOf(x, l))
  }

  /** STOREXOR: the four lanes of a row. */
  method PutRow(o: RfcOps, out: array<B>, inp: array<B>, n: nat, x: Row, ghost ks: nat -> B, ghost m: seq<B>, ghost was: seq<B>)
    requires n + 16 <= |m| && RowAt(o, ks, n, x)
    requires Progress(o, ks, m, n, out[..], inp[..], was)
    modifies out
    ensures Progress(o, ks, m, n + 16, out[..], inp[..], was)
  {
    for l := 0 to 4
      invariant Progress(o, ks, m, n + 4 * l, out[..], inp[..], was)
    {
      PutWord(o, out, inp, n + 4 * l, LaneOf(x, l), ks, m, was);
    }
  }

  lemma LaneIs(z: seq<W>, k: nat, l: nat)
    requires k + 4 <= |z| && l < 4
    ensures LaneOf(Row(z[k], z[k + 1], z[k + 2], z[k + 3]), l) == z[k + l]
  {
  }

  lemma RowFromBlock(o: Ops, ks: nat -> B, n: nat, z: seq<W>, k: nat, y: Row)
    requires BlockAt(o, ks, n, z) && k + 4 <= 16 && y == Row(z[k], z[k + 1], z[k + 2], z[k + 3])
    ensures RowAt(o, ks, n + 4 * k, y)
  {
    forall l {:trigger LaneOf(y, l)} | 0 <= l < 4 ensures WordAt(o, ks, n + 4 * k + 4 * l, LaneOf(y, l)) {
      LaneIs(z, k, l);
      assert IsWordOf(o, ks, n, z, k + l);
      assert n + 4 * (k + l) == n + 4 * k + 4 * l;
    }
  }

  /** One row of a block. */
  method PutRowOf(o: RfcOps, out: array<B>, inp: array<B>, n: nat, y: Row, ghost base: nat, ghost k: nat, ghost z: seq<W>,
                  ghost ks: nat -> B, ghost m: seq<B>, ghost was: seq<B>)
    requires k + 4 <= 16 && n == base + 4 * k && n + 16 <= |m| && BlockAt(o, ks, base, z)
    requires y == Row(z[k], z[k + 1], z[k + 2], z[k + 3])
    requires Progress(o, ks, m, n, out[..], inp[..], was)
    modifies out
    ensures Progress(o, ks, m, n + 16, out[..], inp[..], was)
  {
    RowFromBlock(o, ks, base, z, k, y);
    PutRow(o, out, inp, n, y, ks, m, was);
  }

  /** A whole block of 64 bytes: the four rows. */
  method PutBlock(o: RfcOps, out: array<B>, inp: array<B>, n: nat, x: Rows, ghost z: seq<W>, ghost ks: nat -> B, ghost m: seq<B>, ghost was: seq<B>)
    requires n + 64 <= |m| && Holds(x, z) && BlockAt(o, ks, n, z)
    requires Progress(o, ks, m, n, out[..], inp[..], was)
    modifies out
    ensures Progress(o, ks, m, n + 64, out[..], inp[..], was)
  {
    PutRowOf(o, out, inp, n, x.a, n, 0, z, ks, m, was);
    PutRowOf(o, out, inp, n + 16, x.b, n, 4, z, ks, m, was);
    PutRowOf(o, out, inp, n + 32, x.c, n, 8, z, ks, m, was);
    PutRowOf(o, out, inp, n + 48, x.d, n, 12, z, ks, m, was);
  }

  /** The rows loaded from the constants, the key and the counter with nonce. */
  method LoadRows(o: Ops, key: seq<B>, iv: seq<B>) returns (m: Rows)
    requires |key| == 32 && |iv| == 16
    ensures Holds(m, o.InitialState(key, iv))
  {
    m := Rows(Row(0x61707865, 0x3320646e, 0x79622d32, 0x6b206574),
              Row(o.WordAt(key, 0), o.WordAt(key, 1), o.WordAt(key, 2), o.WordAt(key, 3)),
              Row(o.WordAt(key, 4), o.WordAt(key, 5), o.WordAt(key, 6), o.WordAt(key, 7)),
              Row(o.WordAt(iv, 0), o.WordAt(iv, 1), o.WordAt(iv, 2), o.WordAt(iv, 3)));
  }

  /** The 16 bytes "expand 32-byte k" are the four constants of RFC 8439. */
  lemma MagicConstant(o: RfcOps)
    ensures var magic: seq<B> := [0x65, 0x78, 0x70, 0x61, 0x6e, 0x64, 0x20, 0x33, 0x32, 0x2d, 0x62, 0x79, 0x74, 0x65, 0x20, 0x6b];
            o.WordAt(magic, 0) == 0x61707865 && o.WordAt(magic, 1) == 0x3320646e
            && o.WordAt(magic, 2) == 0x79622d32 && o.WordAt(magic, 3) == 0x6b206574
  {
    assert o.WordIs(0x65, 0x78, 0x70, 0x61) && o.WordIs(0x6e, 0x64, 0x20, 0x33);
    assert o.WordIs(0x32, 0x2d, 0x62, 0x79) && o.WordIs(0x74, 0x65, 0x20, 0x6b);
  }

  lemma BumpTwice(o: Ops, s: seq<W>, b: nat)
    requires |s| == 16
    ensures o.Bump(o.Bump(s, b), 1) == o.Bump(s, b + 1)
    ensures o.Bump(o.Bump(o.Bump(s, b), 1), 1) == o.Bump(s, b + 2)
  {
    var t := o.Bump(s, b);
    assert o.Bump(t, 0) == t;
    var u := o.Bump(t, 1);
    assert o.Bump(u, 0) == u;
  }

  /** The blocks of RFC 8439 that start from state `s`. */
  ghost predicate BlocksOf(o: Ops, s: seq<W>, blk: nat -> seq<W>) {
    |s| == 16 && forall b: nat {:trigger IsBlock(o, s, blk, b)} :: IsBlock(o, s, blk, b)
  }

  ghost predicate IsBlock(o: Ops, s: seq<W>, blk: nat -> seq<W>, b: nat)
    requires |s| == 16
  {
    blk(b) == o.Block(o.Bump(s, b))
  }

  /** The rows hold the state for block `b`. */
  ghost predicate At(o: Ops, s: seq<W>, b: nat, x: Rows) { |s| == 16 && Holds(x, o.Bump(s, b)) }

  method RowBlock(o: RfcOps, x: Rows, ghost s: seq<W>, ghost b: nat, ghost blk: nat -> seq<W>) returns (k: Rows)
    requires BlocksOf(o, s, blk) && At(o, s, b, x)
    ensures Holds(k, blk(b))
  {
    k := BlockRows(o, x, o.Bump(s, b));
    assert IsBlock(o, s, blk, b);
  }

  method SecondRowBlock(o: RfcOps, x: Rows, ghost s: seq<W>, ghost b: nat, ghost blk: nat -> seq<W>) returns (k: Rows)
    requires BlocksOf(o, s, blk) && At(o, s, b, x)
    ensures Holds(k, blk(b + 1))
  {
    k := SecondBlock(o, x, o.Bump(s, b));
    BumpTwice(o, s, b);
    assert IsBlock(o, s, blk, b + 1);
  }

  method NextCounter(o: RfcOps, x: Rows, ghost s: seq<W>, ghost b: nat) returns (y: Rows)
    requires At(o, s, b, x)
    ensures At(o, s, b + 1, y)
  {
    y := x.(d := AddRows(o, x.d, ONE));
    CounterRow(o, x, o.Bump(s, b), x.d);
    BumpTwice(o, s, b);
  }

  method SecondCounter(o: RfcOps, x: Rows, ghost s: seq<W>, ghost b: nat) returns (y: Rows)
    requires At(o, s, b, x)
    ensures At(o, s, b + 2, y)
  {
    y := x.(d := AddRows(o, x.d, TWO));
    ghost var z := x.(d := AddRows(o, x.d, ONE));
    CounterRow(o, x, o.Bump(s, b), x.d);
    BumpTwice(o, s, b);
    CounterRow(o, z, o.Bump(s, b + 1), x.d);
  }

  method StoreRow(keystream: array<W>, k: nat, x: Row, ghost z: seq<W>)
    requires keystream.Length == |z| == 16 && k + 4 <= 16 && keystream[..k] == z[..k]
    requires x == Row(z[k], z[k + 1], z[k + 2], z[k + 3])
    modifies keystream
    ensures keystream[..k + 4] == z[..k + 4]
  {
    keystream[k], keystream[k + 1], keystream[k + 2], keystream[k + 3] := x.x0, x.x1, x.x2, x.x3;
    assert forall j :: 0 <= j < k ==> keystream[j] == old(keystream[..k])[j];
  }

  /** The key stream words stored for the tail. */
  method StoreRows(keystream: array<W>, x: Rows, ghost z: seq<W>)
    requires keystream.Length == 16 && Holds(x, z)
    modifies keystream
    ensures keystream[..] == z
  {
    StoreRow(keystream, 0, x.a, z);
    StoreRow(keystream, 4, x.b, z);
    StoreRow(keystream, 8, x.c, z);
    StoreRow(keystream, 12, x.d, z);
    assert keystream[..16] == keystream[..] && z[..16] == z;
  }

  /** Byte `j` of the stored words, for the loops over the tail. */
  lemma TailByte(o: Ops, ks: nat -> B, n: nat, z: seq<W>, j: nat)
    requires BlockAt(o, ks, n, z) && j < 64
    ensures ks(n + j) == o.SerialByte(z, j)
  {
    var k := j / 4;
    assert IsWordOf(o, ks, n, z, k);
    assert j == 4 * k + j % 4;
  }

  /** Fewer than 64 bytes, from the last one down. */
  method TailDown(o: Ops, out: array<B>, inp: array<B>, n: nat, len: nat, keystream: seq<W>,
                  ghost ks: nat -> B, ghost m: seq<B>, ghost was: seq<B>)
    requires n + len == |m| && len < 64 && BlockAt(o, ks, n, keystream)
    requires Progress(o, ks, m, n, out[..], inp[..], was)
    modifies out
    ensures Progress(o, ks, m, |m|, out[..], inp[..], was)
  {
    var left := len;
    while left > 0
      invariant 0 <= left <= len
      invariant forall j: nat {:trigger out[j]} :: j < n ==> out[j] == o.bxor(m[j], ks(j))
      invariant forall j: nat {:trigger out[j]} :: n + left <= j < |m| ==> out[j] == o.bxor(m[j], ks(j))
      invariant forall j {:trigger out[j]} :: |m| <= j < out.Length ==> out[j] == was[j]
      invariant forall j {:trigger inp[j]} :: n <= j < n + left ==> inp[j] == m[j]
    {
      left := left - 1;
      TailByte(o, ks, n, keystream, left);
      out[n + left] := o.bxor(inp[n + left], o.SerialByte(keystream, left));
    }
  }

  /** Block `b` of the message. */
  method PutNumbered(o: RfcOps, out: array<B>, inp: array<B>, n: nat, x: Rows,
                     ghost b: nat, ghost blk: nat -> seq<W>, ghost ks: nat -> B, ghost m: seq<B>, ghost was: seq<B>)
    requires n == 64 * b && n + 64 <= |m| && Holds(x, blk(b)) && Streams(o, blk, ks)
    requires Progress(o, ks, m, n, out[..], inp[..], was)
    modifies out
    ensures Progress(o, ks, m, n + 64, out[..], inp[..], was)
  {
    PutBlock(o, out, inp, n, x, blk(b), ks, m, was);
  }

  method PutTail(o: RfcOps, out: array<B>, inp: array<B>, n: nat, len: nat, x: Rows, keystream: array<W>,
                 ghost b: nat, ghost blk: nat -> seq<W>, ghost ks: nat -> B, ghost m: seq<B>, ghost was: seq<B>)
    requires n == 64 * b && n + len == |m| && len < 64 && Holds(x, blk(b)) && Streams(o, blk, ks) && keystream.Length == 16
    requires Progress(o, ks, m, n, out[..], inp[..], was)
    modifies out, keystream
    ensures Progress(o, ks, m, |m|, out[..], inp[..], was)
  {
    StoreRows(keystream, x, blk(b));
    TailDown(o, out, inp, n, len, keystream[..], ks, m, was);
  }

  /** 128 bytes: two blocks computed side by side. */
  method TwoBlocks(o: RfcOps, out: array<B>, inp: array<B>, n: nat, x: Rows, ghost s: seq<W>, ghost b: nat,
                   ghost blk: nat -> seq<W>, ghost ks: nat -> B, ghost m: seq<B>, ghost was: seq<B>) returns (y: Rows)
    requires n == 64 * b && n + 128 <= |m| && At(o, s, b, x) && BlocksOf(o, s, blk) && Streams(o, blk, ks)
    requires Progress(o, ks, m, n, out[..], inp[..], was)
    modifies out
    ensures At(o, s, b + 2, y) && Progress(o, ks, m, n + 128, out[..], inp[..], was)
  {
    var k := RowBlock(o, x, s, b, blk);
    var l := SecondRowBlock(o, x, s, b, blk);
    PutNumbered(o, out, inp, n, k, b, blk, ks, m, was);
    PutNumbered(o, out, inp, n + 64, l, b + 1, blk, ks, m, was);
    y := SecondCounter(o, x, s, b);
  }

  /** 64 bytes. */
  method OneBlock(o: RfcOps, out: array<B>, inp: array<B>, n: nat, x: Rows, ghost s: seq<W>, ghost b: nat,
                  ghost blk: nat -> seq<W>, ghost ks: nat -> B, ghost m: seq<B>, ghost was: seq<B>) returns (y: Rows)
    requires n == 64 * b && n + 64 <= |m| && At(o, s, b, x) && BlocksOf(o, s, blk) && Streams(o, blk, ks)
    requires Progress(o, ks, m, n, out[..], inp[..], was)
    modifies out
    ensures At(o, s, b + 1, y) && Progress(o, ks, m, n + 64, out[..], inp[..], was)
  {
    var k := RowBlock(o, x, s, b, blk);
    PutNumbered(o, out, inp, n, k, b, blk, ks, m, was);
    y := NextCounter(o, x, s, b);
  }

  /** The last whole block and the remaining bytes. */
  method CryptRest(o: RfcOps, out: array<B>, inp: array<B>, n0: nat, left0: nat, x0: Rows, keystream: array<W>,
                   ghost s: seq<W>, ghost b0: nat, ghost blk: nat -> seq<W>, ghost ks: nat -> B, ghost m: seq<B>, ghost was: seq<B>)
    requires keystream.Length == 16 && n0 == 64 * b0 && n0 + left0 == |m| && left0 < 128
    requires At(o, s, b0, x0) && BlocksOf(o, s, blk) && Streams(o, blk, ks)
    requires Progress(o, ks, m, n0, out[..], inp[..], was)
    modifies out, keystream
    ensures Progress(o, ks, m, |m|, out[..], inp[..], was)
  {
    var x, n, left := x0, n0, left0;
    ghost var b := b0;
    if left >= 64 {
      x := OneBlock(o, out, inp, n, x, s, b, blk, ks, m, was);
      n, left, b := n + 64, left - 64, b + 1;
    }
    if left > 0 {
      var k := RowBlock(o, x, s, b, blk);
      PutTail(o, out, inp, n, left, k, keystream, b, blk, ks, m, was);
    }
  }

  /** The loops of `cc20_crypt` over 128, 64 and the remaining bytes. */
  method CryptLoops(o: RfcOps, out: array<B>, inp: array<B>, inLen: nat, x0: Rows, keystream: array<W>,
                    ghost s: seq<W>, ghost blk: nat -> seq<W>, ghost ks: nat -> B, ghost m: seq<B>)
    requires inLen <= inp.Length && inLen <= out.Length && keystream.Length == 16
    requires At(o, s, 0, x0) && BlocksOf(o, s, blk) && Streams(o, blk, ks) && m == inp[..inLen]
    modifies out, keystream
    ensures Progress(o, ks, m, inLen, out[..], inp[..], old(out[..]))
  {
    var x, n, left := x0, 0, inLen;
    ghost var b, was := 0, out[..];
    while left >= 128
      invariant n + left == inLen && n == 64 * b && At(o, s, b, x)
      invariant Progress(o, ks, m, n, out[..], inp[..], was)
    {
      x := TwoBlocks(o, out, inp, n, x, s, b, blk, ks, m, was);
      n, left, b := n + 128, left - 128, b + 2;
    }
    CryptRest(o, out, inp, n, left, x, keystream, s, b, blk, ks, m, was);
  }

  ghost function Blocks(o: Ops, s: seq<W>): nat -> seq<W>
    requires |s| == 16
  {
    (b: nat) => o.Block(o.Bump(s, b))
  }

  lemma FinishedIsCrypted(o: Ops, s: seq<W>, m: seq<B>, now: seq<B>, rest: seq<B>, was: seq<B>)
    requires |s| == 16 && Progress(o, Concatenated(o, Blocks(o, s)), m, |m|, now, rest, was)
    ensures now == o.Crypted(s, m) + was[|m|..]
  {
    forall j: nat | j < |m| ensures now[j] == o.Crypted(s, m)[j] { ConcatenatedIs(o, s, j); }
  }

  lemma ConcatenatedIs(o: Ops, s: seq<W>, j: nat)
    requires |s| == 16
    ensures Concatenated(o, Blocks(o, s))(j) == o.StreamByte(s, j)
  {
  }

  /** cc20_crypt of the SSE2 form; `keystream` is the buffer of the context. */
  method CryptRows(o: RfcOps, out: array<B>, inp: array<B>, inLen: nat, iv: seq<B>, key: seq<B>, keystream: array<W>) returns (ret: int)
    requires inLen <= inp.Length && inLen <= out.Length && |iv| == 16 && |key| == 32 && keystream.Length == 16
    modifies out, keystream
    ensures ret == 0
    ensures out[..] == o.Crypted(o.InitialState(key, iv), old(inp[..inLen])) + old(out[inLen..])
  {
    ghost var s, m, was := o.InitialState(key, iv), inp[..inLen], out[..];
    var x := LoadRows(o, key, iv);
    ghost var blk := Blocks(o, s);
    StreamsIs(o, blk);
    CryptLoops(o, out, inp, inLen, x, keystream, s, blk, Concatenated(o, blk), m);
    FinishedIsCrypted(o, s, m, out[..], inp[..], was);
    return 0;
  }
}
