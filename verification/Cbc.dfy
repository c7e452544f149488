/** CBC mode (section 6.2 of NIST SP 800-38A) over any block permutation: the one-block-at-a-time
    loops of the plain C form and the 4/2/1-rail decryptor of the AES-NI form.  Buffers are
    arrays of 16-byte blocks, and input and output may be the same buffer. */
module Cbc {

  const BLOCK_SIZE := 16

  /** Block encryption, its inverse and the bitwise exclusive or of blocks. */
  datatype BlockCipher<!B(!new)> = BlockCipher(enc: B -> B, dec: B -> B, xor: (B, B) -> B) {
    ghost predicate Undone(b: B) { dec(enc(b)) == b }

    ghost predicate Redone(b: B) { enc(dec(b)) == b }

    ghost predicate Xors(a: B, b: B) { xor(xor(a, b), b) == a && xor(a, b) == xor(b, a) }

    ghost predicate Ok() {
      (forall b {:trigger Undone(b)} :: Undone(b)) && forall a, b {:trigger Xors(a, b)} :: Xors(a, b)
    }

    /** The block that is chained into block `i`. */
    function Chained(iv: B, c: seq<B>, i: nat): B
      requires i <= |c|
    {
      if i == 0 then iv else c[i - 1]
    }

    /** CBC encryption. */
    function Encrypted(iv: B, p: seq<B>): (c: seq<B>)
      ensures |c| == |p|
    {
      if p == [] then []
      else
        var n := |p| - 1;
        var c := Encrypted(iv, p[..n]);
        c + [enc(xor(p[n], Chained(iv, c, n)))]
    }

    /** CBC decryption: every block on its own. */
    function Decrypted(iv: B, c: seq<B>): (p: seq<B>)
      ensures |p| == |c|
    {
      seq(|c|, i requires 0 <= i < |c| => xor(dec(c[i]), Chained(iv, c, i)))
    }

    /** Decryption undoes encryption. */
    lemma {:induction false} DecryptedEncrypted(iv: B, p: seq<B>)
      requires Ok()
      ensures Decrypted(iv, Encrypted(iv, p)) == p
    {
      if p != [] {
        var n := |p| - 1;
        var d := Encrypted(iv, p[..n]);
        DecryptedEncrypted(iv, p[..n]);
        var last := xor(p[n], Chained(iv, d, n));
        var c := d + [enc(last)];
        assert Undone(last) && Xors(p[n], Chained(iv, d, n));
        assert Chained(iv, c, n) == Chained(iv, d, n);
        forall i | 0 <= i < n ensures Decrypted(iv, c)[i] == p[i] {
          assert Decrypted(iv, d)[i] == p[..n][i];
          assert Chained(iv, c, i) == Chained(iv, d, i);
        }
      }
    }

    /** Encryption undoes decryption. */
    lemma {:induction false} EncryptedDecrypted(iv: B, c: seq<B>)
      requires Ok() && forall b {:trigger Redone(b)} :: Redone(b)
      ensures Encrypted(iv, Decrypted(iv, c)) == c
    {
      if c != [] {
        var n := |c| - 1;
        EncryptedDecrypted(iv, c[..n]);
        var p := Decrypted(iv, c);
        DecryptedPrefix(iv, c, n);
        assert Redone(c[n]) && Xors(dec(c[n]), Chained(iv, c, n));
        assert Encrypted(iv, p) == c[..n] + [enc(xor(p[n], Chained(iv, c[..n], n)))];
        assert c == c[..n] + [c[n]];
      }
    }

    lemma DecryptedPrefix(iv: B, c: seq<B>, n: nat)
      requires n <= |c|
      ensures Decrypted(iv, c)[..n] == Decrypted(iv, c[..n]) && Chained(iv, c[..n], n) == Chained(iv, c, n)
    {
      var p, q := Decrypted(iv, c)[..n], Decrypted(iv, c[..n]);
      forall i | 0 <= i < n ensures p[i] == q[i] { assert Chained(iv, c[..n], i) == Chained(iv, c, i); }
    }

    /** The first block is chained to the IV, and after some blocks the last of them takes its place. */
    lemma {:induction false} EncryptedSplits(iv: B, p: seq<B>, q: seq<B>)
      requires p != []
      ensures var c := Encrypted(iv, p); Encrypted(iv, p + q) == c + Encrypted(c[|c| - 1], q)
      ensures Encrypted(iv, [p[0]]) == [enc(xor(p[0], iv))]
      decreases |q|
    {
      var c := Encrypted(iv, p);
      assert Encrypted(iv, [p[0]]) == Encrypted(iv, [p[0]][..0]) + [enc(xor(p[0], iv))];
      if q == [] {
        assert p + q == p;
      } else {
        var n := |q| - 1;
        EncryptedSplits(iv, p, q[..n]);
        assert (p + q)[..|p| + n] == p + q[..n] && (p + q)[|p| + n] == q[n];
        var d := Encrypted(c[|c| - 1], q[..n]);
        assert Chained(iv, c + d, |p| + n) == Chained(c[|c| - 1], d, n);
      }
    }

    lemma DecryptedSplits(iv: B, c: seq<B>, d: seq<B>)
      requires c != []
      ensures Decrypted(iv, c + d) == Decrypted(iv, c) + Decrypted(c[|c| - 1], d)
    {
      forall i | 0 <= i < |c + d| ensures Decrypted(iv, c + d)[i] == (Decrypted(iv, c) + Decrypted(c[|c| - 1], d))[i] {
        if i >= |c| {
          assert Chained(iv, c + d, i) == Chained(c[|c| - 1], d, i - |c|);
        } else {
          assert Chained(iv, c + d, i) == Chained(iv, c, i);
        }
      }
    }

    /** One more block in front of the loop. */
    lemma EncryptedNext(iv: B, p: seq<B>, i: nat)
      requires i < |p|
      ensures Encrypted(iv, p[..i + 1]) == Encrypted(iv, p[..i]) + [enc(xor(p[i], Chained(iv, Encrypted(iv, p[..i]), i)))]
    {
      assert p[..i + 1][..i] == p[..i];
    }
  }

  /** An encryptor's buffers after |c| of the blocks `p`: the output starts with `c`, the rest
      of it is untouched and the rest of the input still there. */
  ghost predicate Filled<B(!new)>(c: seq<B>, p: seq<B>, now: seq<B>, rest: seq<B>, was: seq<B>) {
    && |c| <= |p| <= |rest| && |c| <= |now| == |was|
    && (forall j {:trigger now[j]} :: 0 <= j < |c| ==> now[j] == c[j])
    && (forall j {:trigger now[j]} :: |c| <= j < |now| ==> now[j] == was[j])
    && (forall j {:trigger rest[j]} :: |c| <= j < |p| ==> rest[j] == p[j])
  }

  /** The plain C encryptor. */
  method EncryptLoop<B(!new)>(K: BlockCipher<B>, out: array<B>, inp: array<B>, inLen: nat, iv: B) returns (ret: nat)
    requires K.Ok() && inLen / BLOCK_SIZE <= inp.Length && inLen / BLOCK_SIZE <= out.Length
    modifies out
    ensures ret == inLen - inLen % BLOCK_SIZE
    ensures out[..] == K.Encrypted(iv, old(inp[..inLen / BLOCK_SIZE])) + old(out[inLen / BLOCK_SIZE..])
  {
    var tmp := iv;
    var n := inLen / BLOCK_SIZE;
    ghost var p := inp[..n];
    var i := 0;
    while i < n
      invariant i <= n
      invariant tmp == K.Chained(iv, K.Encrypted(iv, p[..i]), i)
      invariant Filled(K.Encrypted(iv, p[..i]), p, out[..], inp[..], old(out[..]))
    {
      assert K.Xors(inp[i], tmp);
      K.EncryptedNext(iv, p, i);
      tmp := K.xor(tmp, inp[i]);
      tmp := K.enc(tmp);
      out[i] := tmp;
      i := i + 1;
    }
    assert p[..n] == p;
    return n * BLOCK_SIZE;
  }

  /** The AES-NI encryptor: the same loop, counting down, with the other return value. */
  method EncryptNi<B(!new)>(K: BlockCipher<B>, out: array<B>, inp: array<B>, inLen: nat, iv: B) returns (ret: nat)
    requires inLen / BLOCK_SIZE <= inp.Length && inLen / BLOCK_SIZE <= out.Length
    modifies out
    ensures ret == inLen % BLOCK_SIZE
    ensures out[..] == K.Encrypted(iv, old(inp[..inLen / BLOCK_SIZE])) + old(out[inLen / BLOCK_SIZE..])
  {
    var ivec, n, i := iv, inLen / BLOCK_SIZE, 0;
    ghost var total := n;
    ghost var p := inp[..n];
    while n != 0
      invariant 0 <= i && i + n == total
      invariant ivec == K.Chained(iv, K.Encrypted(iv, p[..i]), i)
      invariant Filled(K.Encrypted(iv, p[..i]), p, out[..], inp[..], old(out[..]))
    {
      K.EncryptedNext(iv, p, i);
      var tmp := K.enc(K.xor(inp[i], ivec));
      ivec := tmp;
      out[i] := tmp;
      i, n := i + 1, n - 1;
    }
    assert p[..i] == p;
    return inLen % BLOCK_SIZE;
  }

  /** What a decryptor has done after `i` of the blocks `c`: the first `i` are plain, the rest
      of the input is still there, the rest of the output untouched. */
  ghost predicate Done<B(!new)>(K: BlockCipher<B>, iv: B, c: seq<B>, i: nat, now: seq<B>, rest: seq<B>, was: seq<B>) {
    && i <= |c| && i <= |now| == |was| && |c| <= |rest|
    && (forall j {:trigger now[j]} :: 0 <= j < i ==> now[j] == K.xor(K.dec(c[j]), K.Chained(iv, c, j)))
    && (forall j {:trigger now[j]} :: i <= j < |now| ==> now[j] == was[j])
    && (forall j {:trigger rest[j]} :: i <= j < |c| ==> rest[j] == c[j])
  }

  /** The plain C decryptor. */
  method DecryptLoop<B(!new)>(K: BlockCipher<B>, out: array<B>, inp: array<B>, inLen: nat, iv: B) returns (ret: nat)
    requires inLen / BLOCK_SIZE <= inp.Length && inLen / BLOCK_SIZE <= out.Length
    modifies out
    ensures ret == inLen - inLen % BLOCK_SIZE
    ensures out[..] == K.Decrypted(iv, old(inp[..inLen / BLOCK_SIZE])) + old(out[inLen / BLOCK_SIZE..])
  {
    var tmp := iv;
    var n := inLen / BLOCK_SIZE;
    ghost var c := inp[..n];
    var i := 0;
    while i < n
      invariant i <= n
      invariant tmp == K.Chained(iv, c, i)
      invariant Done(K, iv, c, i, out[..], inp[..], old(out[..]))
    {
      var old_ := inp[i];
      out[i] := K.dec(inp[i]);
      out[i] := K.xor(out[i], tmp);
      tmp := old_;
      i := i + 1;
    }
    return n * BLOCK_SIZE;
  }

  /** The AES-NI decryptor: four rails while four blocks are left, then two, then one. */
  method DecryptRails<B(!new)>(K: BlockCipher<B>, out: array<B>, inp: array<B>, inLen: nat, iv: B) returns (ret: nat)
    requires inLen / BLOCK_SIZE <= inp.Length && inLen / BLOCK_SIZE <= out.Length
    modifies out
    ensures ret == inLen % BLOCK_SIZE
    ensures out[..] == K.Decrypted(iv, old(inp[..inLen / BLOCK_SIZE])) + old(out[inLen / BLOCK_SIZE..])
  {
    var ivec, n, i := iv, inLen / BLOCK_SIZE, 0;
    ghost var c := inp[..n];
    while n > 3
      invariant 0 <= i && i + n == |c|
      invariant ivec == K.Chained(iv, c, i)
      invariant Done(K, iv, c, i, out[..], inp[..], old(out[..]))
    {
      ivec := FourRails(K, out, inp, i, ivec, iv, c, old(out[..]));
      i, n := i + 4, n - 4;
    }
    if n > 1 {
      n := n - 2;
      ivec := TwoRails(K, out, inp, i, ivec, iv, c, old(out[..]));
      i := i + 2;
    }
    if n != 0 {
      var tmp := K.dec(inp[i]);
      tmp := K.xor(tmp, ivec);
      out[i] := tmp;
    }
    return inLen % BLOCK_SIZE;
  }

  method FourRails<B(!new)>(K: BlockCipher<B>, out: array<B>, inp: array<B>, i: nat, ivec: B,
                         ghost iv: B, ghost c: seq<B>, ghost was: seq<B>) returns (next: B)
    requires i + 4 <= |c| <= inp.Length && |c| <= out.Length && ivec == K.Chained(iv, c, i)
    requires Done(K, iv, c, i, out[..], inp[..], was)
    modifies out
    ensures next == K.Chained(iv, c, i + 4)
    ensures Done(K, iv, c, i + 4, out[..], inp[..], was)
  {
    var old1, old2, old3, old4 := inp[i], inp[i + 1], inp[i + 2], inp[i + 3];
    var tmp1, tmp2, tmp3, tmp4 := K.dec(old1), K.dec(old2), K.dec(old3), K.dec(old4);
    tmp1, tmp2, tmp3, tmp4 := K.xor(tmp1, ivec), K.xor(tmp2, old1), K.xor(tmp3, old2), K.xor(tmp4, old3);
    next := old4;
    out[i] := tmp1;
    out[i + 1] := tmp2;
    out[i + 2] := tmp3;
    out[i + 3] := tmp4;
  }

  method TwoRails<B(!new)>(K: BlockCipher<B>, out: array<B>, inp: array<B>, i: nat, ivec: B,
                        ghost iv: B, ghost c: seq<B>, ghost was: seq<B>) returns (next: B)
    requires i + 2 <= |c| <= inp.Length && |c| <= out.Length && ivec == K.Chained(iv, c, i)
    requires Done(K, iv, c, i, out[..], inp[..], was)
    modifies out
    ensures next == K.Chained(iv, c, i + 2)
    ensures Done(K, iv, c, i + 2, out[..], inp[..], was)
  {
    var old1, old2 := inp[i], inp[i + 1];
    var tmp1, tmp2 := K.dec(old1), K.dec(old2);
    tmp1, tmp2 := K.xor(tmp1, ivec), K.xor(tmp2, old1);
    next := old2;
    out[i] := tmp1;
    out[i + 1] := tmp2;
  }
}
