/** The form of the rotations does not matter: operations that are those of RFC 8439 give the
    same key stream, so the SSE2, the SSSE3 and the plain C code compute the same function. */
module ChaCha20Forms {
  import opened Rfc8439
  import opened ChaCha20

  lemma SameWords(o: RfcOps, p: RfcOps, a: W, b: W)
    ensures o.add(a, b) == p.add(a, b) && o.xor(a, b) == p.xor(a, b)
    ensures o.rol16(a) == p.rol16(a) && o.rol12(a) == p.rol12(a) && o.rol8(a) == p.rol8(a) && o.rol7(a) == p.rol7(a)
  {
    assert o.AddIs(a, b) && p.AddIs(a, b) && o.XorIs(a, b) && p.XorIs(a, b) && o.RolIs(a) && p.RolIs(a);
  }

  lemma SameMix(o: RfcOps, p: RfcOps, a: W, b: W, d: W)
    ensures o.add(a, b) == p.add(a, b)
    ensures var sum := o.add(a, b);
            o.rol16(o.xor(d, sum)) == p.rol16(p.xor(d, sum)) && o.rol12(o.xor(d, sum)) == p.rol12(p.xor(d, sum))
            && o.rol8(o.xor(d, sum)) == p.rol8(p.xor(d, sum)) && o.rol7(o.xor(d, sum)) == p.rol7(p.xor(d, sum))
  {
    SameWords(o, p, a, b);
    var sum := o.add(a, b);
    SameWords(o, p, d, sum);
    SameWords(o, p, o.xor(d, sum), d);
  }

  lemma SameQuarterRound(o: RfcOps, p: RfcOps, a: W, b: W, c: W, d: W)
    ensures o.QuarterRound(a, b, c, d) == p.QuarterRound(a, b, c, d)
  {
    SameMix(o, p, a, b, d);
    var a1 := o.add(a, b);
    var d1 := o.rol16(o.xor(d, a1));
    SameMix(o, p, c, d1, b);
    var c1 := o.add(c, d1);
    var b1 := o.rol12(o.xor(b, c1));
    SameMix(o, p, a1, b1, d1);
    var a2 := o.add(a1, b1);
    var d2 := o.rol8(o.xor(d1, a2));
    SameMix(o, p, c1, d2, b1);
  }

  lemma SameOdd(o: RfcOps, p: RfcOps, m: Rows)
    ensures OddRound(o, m) == OddRound(p, m)
  {
    OddRoundLanes(o, m);
    OddRoundLanes(p, m);
    SameQuarterRound(o, p, m.a.x0, m.b.x0, m.c.x0, m.d.x0);
    SameQuarterRound(o, p, m.a.x1, m.b.x1, m.c.x1, m.d.x1);
    SameQuarterRound(o, p, m.a.x2, m.b.x2, m.c.x2, m.d.x2);
    SameQuarterRound(o, p, m.a.x3, m.b.x3, m.c.x3, m.d.x3);
    SameLanes(OddRound(o, m), OddRound(p, m));
  }

  lemma SameLanes(m: Rows, n: Rows)
    requires Lane0(m) == Lane0(n) && Lane1(m) == Lane1(n) && Lane2(m) == Lane2(n) && Lane3(m) == Lane3(n)
    ensures m == n
  {
  }

  lemma SameDouble(o: RfcOps, p: RfcOps, m: Rows)
    ensures DoubleRound(o, m) == DoubleRound(p, m)
  {
    SameOdd(o, p, m);
    SameOdd(o, p, Permute(OddRound(o, m)));
  }

  lemma HeldOnce(m: Rows, s: seq<W>, t: seq<W>)
    requires Holds(m, s) && Holds(m, t)
    ensures s == t
  {
  }

  function RowsOf(s: seq<W>): (m: Rows)
    requires |s| == 16
    ensures Holds(m, s)
  {
    Rows(Row(s[0], s[1], s[2], s[3]), Row(s[4], s[5], s[6], s[7]), Row(s[8], s[9], s[10], s[11]), Row(s[12], s[13], s[14], s[15]))
  }

  /** One double round, on any state. */
  lemma SameNext(o: RfcOps, p: RfcOps, t: seq<W>)
    requires |t| == 16
    ensures o.Diagonals(o.Columns(t)) == p.Diagonals(p.Columns(t))
  {
    var m := RowsOf(t);
    SameDouble(o, p, m);
    DoubleRoundAgrees(o, m, t);
    DoubleRoundAgrees(p, m, t);
    HeldOnce(DoubleRound(o, m), o.Diagonals(o.Columns(t)), p.Diagonals(p.Columns(t)));
  }

  lemma RoundsNext(o: RfcOps, s: seq<W>, n: nat, t: seq<W>, u: seq<W>)
    requires |s| == 16 && t == o.Rounds(s, n) && u == o.Diagonals(o.Columns(t))
    ensures o.Rounds(s, n + 1) == u
  {
  }

  ghost predicate Agrees(o: RfcOps, p: RfcOps, s: seq<W>, n: nat)
    requires |s| == 16
  {
    o.Rounds(s, n) == p.Rounds(s, n)
  }

  lemma SameStep(o: RfcOps, p: RfcOps, s: seq<W>, n: nat)
    requires |s| == 16 && Agrees(o, p, s, n)
    ensures Agrees(o, p, s, n + 1)
  {
    var t := o.Rounds(s, n);
    SameNext(o, p, t);
    var u := o.Diagonals(o.Columns(t));
    RoundsNext(o, s, n, t, u);
    RoundsNext(p, s, n, t, u);
  }

  lemma SameAtFirst(o: RfcOps, p: RfcOps, s: seq<W>)
    requires |s| == 16
    ensures Agrees(o, p, s, 0)
  {
  }

  lemma SameRounds(o: RfcOps, p: RfcOps, s: seq<W>, n: nat)
    requires |s| == 16
    ensures Agrees(o, p, s, n)
  {
    SameAtFirst(o, p, s);
    var k := 0;
    while k < n
      invariant 0 <= k <= n && Agrees(o, p, s, k)
    {
      SameStep(o, p, s, k);
      k := k + 1;
    }
  }

  lemma SameBlock(o: RfcOps, p: RfcOps, s: seq<W>)
    requires |s| == 16
    ensures o.Block(s) == p.Block(s)
  {
    SameRounds(o, p, s, 10);
    SameSums(o, p, o.Rounds(s, 10), s);
  }

  lemma SameSums(o: RfcOps, p: RfcOps, r: seq<W>, s: seq<W>)
    requires |r| == 16 && |s| == 16
    ensures o.AddWords(r, s) == p.AddWords(r, s)
  {
    forall i | 0 <= i < 16 ensures o.AddWords(r, s)[i] == p.AddWords(r, s)[i] { SameWords(o, p, r[i], s[i]); }
  }

  lemma {:induction false} SameBump(o: RfcOps, p: RfcOps, s: seq<W>, n: nat)
    requires |s| == 16
    ensures o.Bump(s, n) == p.Bump(s, n)
  {
    if n > 0 {
      SameBump(o, p, s, n - 1);
      SameWords(o, p, o.Bump(s, n - 1)[12], 1);
    }
  }

  lemma SameSerial(o: RfcOps, p: RfcOps, z: seq<W>, i: nat)
    requires |z| == 16 && i < 64
    ensures o.SerialByte(z, i) == p.SerialByte(z, i)
  {
    assert o.ByteIs(z[i / 4], i % 4) && p.ByteIs(z[i / 4], i % 4);
  }

  lemma SameStreamByte(o: RfcOps, p: RfcOps, s: seq<W>, i: nat)
    requires |s| == 16
    ensures o.StreamByte(s, i) == p.StreamByte(s, i)
  {
    SameBump(o, p, s, i / 64);
    SameBlock(o, p, o.Bump(s, i / 64));
    SameSerial(o, p, o.Block(o.Bump(s, i / 64)), i % 64);
  }

  lemma SameWordAt(o: RfcOps, p: RfcOps, b: seq<B>, i: nat)
    requires 4 * i + 3 < |b|
    ensures o.WordAt(b, i) == p.WordAt(b, i)
  {
    assert o.WordIs(b[4 * i], b[4 * i + 1], b[4 * i + 2], b[4 * i + 3]);
    assert p.WordIs(b[4 * i], b[4 * i + 1], b[4 * i + 2], b[4 * i + 3]);
  }

  lemma SameInitialState(o: RfcOps, p: RfcOps, key: seq<B>, iv: seq<B>)
    requires |key| == 32 && |iv| == 16
    ensures o.InitialState(key, iv) == p.InitialState(key, iv)
  {
    forall i | 0 <= i < 16 ensures o.InitialState(key, iv)[i] == p.InitialState(key, iv)[i] {
      if 4 <= i < 12 { SameWordAt(o, p, key, i - 4); }
      if 12 <= i { SameWordAt(o, p, iv, i - 12); }
    }
  }

  /** What `cc20_crypt` computes does not depend on the form it is built in. */
  lemma SameCrypted(o: RfcOps, p: RfcOps, key: seq<B>, iv: seq<B>, m: seq<B>)
    requires |key| == 32 && |iv| == 16
    ensures o.Crypted(o.InitialState(key, iv), m) == p.Crypted(p.InitialState(key, iv), m)
  {
    SameInitialState(o, p, key, iv);
    var s := o.InitialState(key, iv);
    forall i | 0 <= i < |m| ensures o.Crypted(s, m)[i] == p.Crypted(s, m)[i] {
      SameStreamByte(o, p, s, i);
      assert o.BxorIs(m[i], o.StreamByte(s, i)) && p.BxorIs(m[i], o.StreamByte(s, i));
    }
  }
}
