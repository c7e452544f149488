/** The plain C form of ChaCha20: a context whose arrays are updated in place. */
module ChaCha20Plain {
  import opened Rfc8439
  import opened ChaCha20
  import opened ChaCha20Crypt

  /** CC20_QUARTERROUND. */
  method QuarterRoundAt(o: Ops, x: array<W>, a: nat, b: nat, c: nat, d: nat)
    requires x.Length == 16 && Ops.Distinct(a, b, c, d)
    modifies x
    ensures x[..] == o.Qround(old(x[..]), a, b, c, d)
  {
    MixAt(o, x, a, b, d, o.rol16);
    MixAt(o, x, c, d, b, o.rol12);
    MixAt(o, x, a, b, d, o.rol8);
    MixAt(o, x, c, d, b, o.rol7);
    ghost var s := old(x[..]);
    ghost var a1 := o.add(s[a], s[b]);
    ghost var d1 := o.rol16(o.xor(s[d], a1));
    ghost var c1 := o.add(s[c], d1);
    ghost var b1 := o.rol12(o.xor(s[b], c1));
    LastUpdates(s, x[..], a, b, c, d, a1, b1, c1, d1, o.QuarterRound(s[a], s[b], s[c], s[d]));
  }

  /** Each word is written twice; only the second time counts. */
  lemma LastUpdates(s: seq<W>, r: seq<W>, a: nat, b: nat, c: nat, d: nat, a1: W, b1: W, c1: W, d1: W, q: Quad)
    requires |s| == 16 && Ops.Distinct(a, b, c, d)
    requires r == s[a := a1][d := d1][c := c1][b := b1][a := q.a][d := q.d][c := q.c][b := q.b]
    ensures r == s[a := q.a][b := q.b][c := q.c][d := q.d]
  {
  }

  /** x[a] += x[b]; x[d] = rotation of x[d] ^ x[a]. */
  method MixAt(o: Ops, x: array<W>, a: nat, b: nat, d: nat, rol: W -> W)
    requires x.Length == 16 && a < 16 && b < 16 && d < 16 && a != d
    modifies x
    ensures var sum := o.add(old(x[a]), old(x[b]));
            x[..] == old(x[..])[a := sum][d := rol(o.xor(old(x[d]), sum))]
  {
    x[a] := o.add(x[a], x[b]);
    x[d] := rol(o.xor(x[d], x[a]));
  }

  method ColumnRound(o: Ops, x: array<W>)
    requires x.Length == 16
    modifies x
    ensures x[..] == o.Columns(old(x[..]))
  {
    QuarterRoundAt(o, x, 0, 4, 8, 12);
    QuarterRoundAt(o, x, 1, 5, 9, 13);
    QuarterRoundAt(o, x, 2, 6, 10, 14);
    QuarterRoundAt(o, x, 3, 7, 11, 15);
  }

  method DiagonalRound(o: Ops, x: array<W>)
    requires x.Length == 16
    modifies x
    ensures x[..] == o.Diagonals(old(x[..]))
  {
    QuarterRoundAt(o, x, 0, 5, 10, 15);
    QuarterRoundAt(o, x, 1, 6, 11, 12);
    QuarterRoundAt(o, x, 2, 7, 8, 13);
    QuarterRoundAt(o, x, 3, 4, 9, 14);
  }

  /** CC20_DOUBLE_ROUND, applied to the state after `n` double rounds. */
  method DoubleRoundAt(o: Ops, x: array<W>, ghost s: seq<W>, ghost n: nat)
    requires x.Length == 16 && |s| == 16 && x[..] == o.Rounds(s, n)
    modifies x
    ensures x[..] == o.Rounds(s, n + 1)
  {
    ColumnRound(o, x);
    DiagonalRound(o, x);
  }

  lemma OffsetInBlock(n: nat, k: nat)
    requires n % 64 == 0 && k < 64
    ensures (n + k) % 64 == k
  {
  }

  class Context {
    const keystream: array<W>
    const state: array<W>
    const key: seq<B>

    ghost predicate Valid() {
      keystream.Length == 16 && state.Length == 16 && keystream != state && |key| == 32
    }

    /** cc20_init. */
    constructor (k: seq<B>)
      requires |k| == 32
      ensures Valid() && key == k && fresh(keystream) && fresh(state)
    {
      keystream := new W[16](_ => 0);
      state := new W[16](_ => 0);
      key := k;
    }

    /** cc20_init_block. */
    method InitBlock(o: RfcOps, nonce: seq<B>)
      requires Valid() && |nonce| == 16
      modifies state
      ensures state[..] == o.InitialState(key, nonce)
    {
      var magic: seq<B> := [0x65, 0x78, 0x70, 0x61, 0x6e, 0x64, 0x20, 0x33, 0x32, 0x2d, 0x62, 0x79, 0x74, 0x65, 0x20, 0x6b];
      ghost var s := o.InitialState(key, nonce);
      MagicConstant(o);
      CopyWords(o, 0, magic, s);
      CopyWords(o, 4, key, s);
      CopyWords(o, 12, nonce, s);
      assert state[..16] == state[..] && s[..16] == s;
    }

    ghost predicate IsCopy(o: Ops, at: nat, b: seq<B>, s: seq<W>, i: nat) {
      4 * i + 3 < |b| && at + i < |s| && s[at + i] == o.WordAt(b, i)
    }

    /** memcpy of little-endian words into the state from word `at` on. */
    method CopyWords(o: Ops, at: nat, b: seq<B>, ghost s: seq<W>)
      requires Valid() && |s| == 16 && |b| % 4 == 0 && at + |b| / 4 <= 16 && state[..at] == s[..at]
      requires forall i: nat {:trigger IsCopy(o, at, b, s, i)} :: i < |b| / 4 ==> IsCopy(o, at, b, s, i)
      modifies state
      ensures state[..at + |b| / 4] == s[..at + |b| / 4]
    {
      var i := 0;
      while i < |b| / 4
        invariant 0 <= i <= |b| / 4
        invariant forall j {:trigger state[j]} :: 0 <= j < at + i ==> state[j] == s[j]
      {
        assert IsCopy(o, at, b, s, i);
        state[at + i] := o.WordAt(b, i);
        i := i + 1;
      }
    }

    method CopyState()
      requires Valid()
      modifies keystream
      ensures keystream[..] == state[..]
    {
      var i := 0;
      while i < 16
        invariant 0 <= i <= 16
        invariant forall j {:trigger keystream[j]} :: 0 <= j < i ==> keystream[j] == state[j]
      {
        keystream[i] := state[i];
        i := i + 1;
      }
    }

    method AddState(o: Ops)
      requires Valid()
      modifies keystream
      ensures keystream[..] == o.AddWords(old(keystream[..]), state[..])
    {
      var i := 0;
      while i < 16
        invariant 0 <= i <= 16
        invariant forall j {:trigger keystream[j]} :: 0 <= j < i ==> keystream[j] == o.add(old(keystream[j]), state[j])
        invariant forall j {:trigger keystream[j]} :: i <= j < 16 ==> keystream[j] == old(keystream[j])
      {
        keystream[i] := o.add(keystream[i], state[i]);
        i := i + 1;
      }
    }

    /** cc20_block_next: the key stream block of the present counter; then the counter goes up. */
    method BlockNext(o: Ops)
      requires Valid()
      modifies keystream, state
      ensures keystream[..] == o.Block(old(state[..])) && state[..] == o.Bump(old(state[..]), 1)
    {
      ghost var s := state[..];
      CopyState();
      assert o.Rounds(s, 0) == s;
      DoubleRoundAt(o, keystream, s, 0);
      DoubleRoundAt(o, keystream, s, 1);
      DoubleRoundAt(o, keystream, s, 2);
      DoubleRoundAt(o, keystream, s, 3);
      DoubleRoundAt(o, keystream, s, 4);
      DoubleRoundAt(o, keystream, s, 5);
      DoubleRoundAt(o, keystream, s, 6);
      DoubleRoundAt(o, keystream, s, 7);
      DoubleRoundAt(o, keystream, s, 8);
      DoubleRoundAt(o, keystream, s, 9);
      AddState(o);
      state[12] := o.add(state[12], 1);
      assert o.Bump(s, 0) == s;
    }

    /** Fewer than 64 bytes, from the first one up. */
    method TailUp(o: Ops, out: array<B>, inp: array<B>, n: nat, len: nat, ghost ks: nat -> B, ghost m: seq<B>, ghost was: seq<B>)
      requires Valid() && n + len == |m| && len < 64 && n % 64 == 0 && BlockAt(o, ks, n, keystream[..])
      requires Progress(o, ks, m, n, out[..], inp[..], was)
      modifies out
      ensures Progress(o, ks, m, |m|, out[..], inp[..], was)
    {
      var words := keystream[..];
      var tmpLen, left := n, len;
      while left > 0
        invariant 0 <= left <= len && tmpLen == n + len - left
        invariant Progress(o, ks, m, tmpLen, out[..], inp[..], was)
      {
        OffsetInBlock(n, tmpLen - n);
        TailByte(o, ks, n, words, tmpLen - n);
        out[tmpLen] := o.bxor(inp[tmpLen], o.SerialByte(words, tmpLen % 64));
        tmpLen := tmpLen + 1;
        left := left - 1;
      }
    }

    method NextBlock(o: Ops, ghost s: seq<W>, ghost b: nat, ghost blk: nat -> seq<W>)
      requires Valid() && BlocksOf(o, s, blk) && state[..] == o.Bump(s, b)
      modifies keystream, state
      ensures keystream[..] == blk(b) && state[..] == o.Bump(s, b + 1)
    {
      BlockNext(o);
      BumpTwice(o, s, b);
      assert IsBlock(o, s, blk, b);
    }

    /** The 16 words of the key stream, exclusive-ored into the output one after the other. */
    method PutWords(o: RfcOps, out: array<B>, inp: array<B>, n: nat, ghost ks: nat -> B, ghost m: seq<B>, ghost was: seq<B>)
      requires Valid() && n + 64 <= |m| && BlockAt(o, ks, n, keystream[..])
      requires Progress(o, ks, m, n, out[..], inp[..], was)
      modifies out
      ensures Progress(o, ks, m, n + 64, out[..], inp[..], was)
    {
      var words := keystream[..];
      for k := 0 to 16
        invariant Progress(o, ks, m, n + 4 * k, out[..], inp[..], was)
      {
        assert IsWordOf(o, ks, n, words, k);
        PutWord(o, out, inp, n + 4 * k, words[k], ks, m, was);
      }
    }

    /** The loop of `cc20_crypt`. */
    method CryptBlocks(o: RfcOps, out: array<B>, inp: array<B>, inLen: nat, ghost s: seq<W>, ghost blk: nat -> seq<W>, ghost ks: nat -> B, ghost m: seq<B>)
      requires Valid() && inLen <= inp.Length && inLen <= out.Length && m == inp[..inLen]
      requires BlocksOf(o, s, blk) && Streams(o, blk, ks) && state[..] == s
      modifies out, keystream, state
      ensures Progress(o, ks, m, inLen, out[..], inp[..], old(out[..]))
    {
      var left, n := inLen, 0;
      ghost var b, was := 0, out[..];
      assert o.Bump(s, 0) == s;
      while left >= 64
        invariant n + left == inLen && n == 64 * b
        invariant state[..] == o.Bump(s, b)
        invariant Progress(o, ks, m, n, out[..], inp[..], was)
      {
        NextBlock(o, s, b, blk);
        PutWords(o, out, inp, n, ks, m, was);
        n, left, b := n + 64, left - 64, b + 1;
      }
      if left > 0 {
        NextBlock(o, s, b, blk);
        TailUp(o, out, inp, n, left, ks, m, was);
      }
    }

    /** cc20_crypt of the plain C form. */
    method Crypt(o: RfcOps, out: array<B>, inp: array<B>, inLen: nat, iv: seq<B>) returns (ret: int)
      requires Valid() && inLen <= inp.Length && inLen <= out.Length && |iv| == 16
      modifies out, keystream, state
      ensures ret == 0
      ensures out[..] == o.Crypted(o.InitialState(key, iv), old(inp[..inLen])) + old(out[inLen..])
    {
      ghost var s, m, was := o.InitialState(key, iv), inp[..inLen], out[..];
      InitBlock(o, iv);
      ghost var blk := Blocks(o, s);
      StreamsIs(o, blk);
      CryptBlocks(o, out, inp, inLen, s, blk, Concatenated(o, blk), m);
      FinishedIsCrypted(o, s, m, out[..], inp[..], was);
      return 0;
    }
  }
}
