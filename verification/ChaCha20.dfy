/** The two forms of the ChaCha20 code: rows of four words handled in parallel (SSE2), and a
    16-word array updated in place (plain C). */
module ChaCha20 {
  import opened Rfc8439

  /** Operations that are those of RFC 8439. */
  type RfcOps = o: Ops | o.Ok() ghost witness (PlainOk(); PlainOps())

  // ---- the row form ----

  datatype Row = Row(x0: W, x1: W, x2: W, x3: W)

  /** The state as four rows. */
  datatype Rows = Rows(a: Row, b: Row, c: Row, d: Row)

  /** The rows hold the words of `s` in order. */
  ghost predicate Holds(m: Rows, s: seq<W>) {
    && |s| == 16
    && s[0] == m.a.x0 && s[1] == m.a.x1 && s[2] == m.a.x2 && s[3] == m.a.x3
    && s[4] == m.b.x0 && s[5] == m.b.x1 && s[6] == m.b.x2 && s[7] == m.b.x3
    && s[8] == m.c.x0 && s[9] == m.c.x1 && s[10] == m.c.x2 && s[11] == m.c.x3
    && s[12] == m.d.x0 && s[13] == m.d.x1 && s[14] == m.d.x2 && s[15] == m.d.x3
  }

  /** ADD. */
  function AddRows(o: Ops, x: Row, y: Row): Row {
    Row(o.add(x.x0, y.x0), o.add(x.x1, y.x1), o.add(x.x2, y.x2), o.add(x.x3, y.x3))
  }

  /** XOR. */
  function XorRows(o: Ops, x: Row, y: Row): Row {
    Row(o.xor(x.x0, y.x0), o.xor(x.x1, y.x1), o.xor(x.x2, y.x2), o.xor(x.x3, y.x3))
  }

  function Each(f: W -> W, x: Row): Row { Row(f(x.x0), f(x.x1), f(x.x2), f(x.x3)) }

  /** CC20_ODD_ROUND. */
  function OddRound(o: Ops, m: Rows): Rows {
    var a1 := AddRows(o, m.a, m.b);
    var d1 := Each(o.rol16, XorRows(o, m.d, a1));
    var c1 := AddRows(o, m.c, d1);
    var b1 := Each(o.rol12, XorRows(o, m.b, c1));
    var a2 := AddRows(o, a1, b1);
    var d2 := Each(o.rol8, XorRows(o, d1, a2));
    var c2 := AddRows(o, c1, d2);
    Rows(a2, Each(o.rol7, XorRows(o, b1, c2)), c2, d2)
  }

  // the three shuffles: lanes one, two and three to the left
  function Left1(x: Row): Row { Row(x.x1, x.x2, x.x3, x.x0) }
  function Left2(x: Row): Row { Row(x.x2, x.x3, x.x0, x.x1) }
  function Left3(x: Row): Row { Row(x.x3, x.x0, x.x1, x.x2) }

  /** CC20_PERMUTE_ROWS and its inverse. */
  function Permute(m: Rows): Rows { Rows(m.a, Left1(m.b), Left2(m.c), Left3(m.d)) }
  function PermuteInv(m: Rows): Rows { Rows(m.a, Left3(m.b), Left2(m.c), Left1(m.d)) }

  /** CC20_EVEN_ROUND. */
  function EvenRound(o: Ops, m: Rows): Rows { PermuteInv(OddRound(o, Permute(m))) }

  // ---- row rounds are the column and diagonal rounds ----

  function Lane0(m: Rows): Quad { Quad(m.a.x0, m.b.x0, m.c.x0, m.d.x0) }
  function Lane1(m: Rows): Quad { Quad(m.a.x1, m.b.x1, m.c.x1, m.d.x1) }
  function Lane2(m: Rows): Quad { Quad(m.a.x2, m.b.x2, m.c.x2, m.d.x2) }
  function Lane3(m: Rows): Quad { Quad(m.a.x3, m.b.x3, m.c.x3, m.d.x3) }

  function Turn(o: Ops, q: Quad): Quad { o.QuarterRound(q.a, q.b, q.c, q.d) }

  /** The odd round is a quarter round in every lane. */
  lemma OddRoundLanes(o: Ops, m: Rows)
    ensures Lane0(OddRound(o, m)) == Turn(o, Lane0(m)) && Lane1(OddRound(o, m)) == Turn(o, Lane1(m))
    ensures Lane2(OddRound(o, m)) == Turn(o, Lane2(m)) && Lane3(OddRound(o, m)) == Turn(o, Lane3(m))
  {
  }

  /** `r` is `s` with the words a, b, c, d replaced by those of `q`. */
  ghost predicate Replaced(s: seq<W>, r: seq<W>, a: nat, b: nat, c: nat, d: nat, q: Quad)
    requires |s| == 16 && Ops.Distinct(a, b, c, d)
  {
    && |r| == 16 && r[a] == q.a && r[b] == q.b && r[c] == q.c && r[d] == q.d
    && forall j {:trigger r[j]} :: 0 <= j < 16 && j != a && j != b && j != c && j != d ==> r[j] == s[j]
  }

  lemma QroundReplaces(o: Ops, s: seq<W>, a: nat, b: nat, c: nat, d: nat)
    requires |s| == 16 && Ops.Distinct(a, b, c, d)
    ensures Replaced(s, o.Qround(s, a, b, c, d), a, b, c, d, Turn(o, Quad(s[a], s[b], s[c], s[d])))
  {
  }

  ghost predicate InLanes(s: seq<W>, p: Quad, q: Quad, r: Quad, t: Quad) {
    && |s| == 16
    && s[0] == p.a && s[4] == p.b && s[8] == p.c && s[12] == p.d
    && s[1] == q.a && s[5] == q.b && s[9] == q.c && s[13] == q.d
    && s[2] == r.a && s[6] == r.b && s[10] == r.c && s[14] == r.d
    && s[3] == t.a && s[7] == t.b && s[11] == t.c && s[15] == t.d
  }

  ghost predicate InDiagonals(s: seq<W>, p: Quad, q: Quad, r: Quad, t: Quad) {
    && |s| == 16
    && s[0] == p.a && s[5] == p.b && s[10] == p.c && s[15] == p.d
    && s[1] == q.a && s[6] == q.b && s[11] == q.c && s[12] == q.d
    && s[2] == r.a && s[7] == r.b && s[8] == r.c && s[13] == r.d
    && s[3] == t.a && s[4] == t.b && s[9] == t.c && s[14] == t.d
  }

  // one quarter round at a time

  lemma Column0(o: Ops, s: seq<W>, p: Quad, q: Quad, r: Quad, t: Quad)
    requires InLanes(s, p, q, r, t)
    ensures InLanes(o.Qround(s, 0, 4, 8, 12), Turn(o, p), q, r, t)
  {
    QroundReplaces(o, s, 0, 4, 8, 12);
  }

  lemma Column1(o: Ops, s: seq<W>, p: Quad, q: Quad, r: Quad, t: Quad)
    requires InLanes(s, p, q, r, t)
    ensures InLanes(o.Qround(s, 1, 5, 9, 13), p, Turn(o, q), r, t)
  {
    QroundReplaces(o, s, 1, 5, 9, 13);
  }

  lemma Column2(o: Ops, s: seq<W>, p: Quad, q: Quad, r: Quad, t: Quad)
    requires InLanes(s, p, q, r, t)
    ensures InLanes(o.Qround(s, 2, 6, 10, 14), p, q, Turn(o, r), t)
  {
    QroundReplaces(o, s, 2, 6, 10, 14);
  }

  lemma Column3(o: Ops, s: seq<W>, p: Quad, q: Quad, r: Quad, t: Quad)
    requires InLanes(s, p, q, r, t)
    ensures InLanes(o.Qround(s, 3, 7, 11, 15), p, q, r, Turn(o, t))
  {
    QroundReplaces(o, s, 3, 7, 11, 15);
  }

  lemma Diagonal0(o: Ops, s: seq<W>, p: Quad, q: Quad, r: Quad, t: Quad)
    requires InDiagonals(s, p, q, r, t)
    ensures InDiagonals(o.Qround(s, 0, 5, 10, 15), Turn(o, p), q, r, t)
  {
    QroundReplaces(o, s, 0, 5, 10, 15);
  }

  lemma Diagonal1(o: Ops, s: seq<W>, p: Quad, q: Quad, r: Quad, t: Quad)
    requires InDiagonals(s, p, q, r, t)
    ensures InDiagonals(o.Qround(s, 1, 6, 11, 12), p, Turn(o, q), r, t)
  {
    QroundReplaces(o, s, 1, 6, 11, 12);
  }

  lemma Diagonal2(o: Ops, s: seq<W>, p: Quad, q: Quad, r: Quad, t: Quad)
    requires InDiagonals(s, p, q, r, t)
    ensures InDiagonals(o.Qround(s, 2, 7, 8, 13), p, q, Turn(o, r), t)
  {
    QroundReplaces(o, s, 2, 7, 8, 13);
  }

  lemma Diagonal3(o: Ops, s: seq<W>, p: Quad, q: Quad, r: Quad, t: Quad)
    requires InDiagonals(s, p, q, r, t)
    ensures InDiagonals(o.Qround(s, 3, 4, 9, 14), p, q, r, Turn(o, t))
  {
    QroundReplaces(o, s, 3, 4, 9, 14);
  }

  lemma ColumnsTurn(o: Ops, s: seq<W>, p: Quad, q: Quad, r: Quad, t: Quad)
    requires InLanes(s, p, q, r, t)
    ensures InLanes(o.Columns(s), Turn(o, p), Turn(o, q), Turn(o, r), Turn(o, t))
  {
    Column0(o, s, p, q, r, t);
    var s1 := o.Qround(s, 0, 4, 8, 12);
    Column1(o, s1, Turn(o, p), q, r, t);
    var s2 := o.Qround(s1, 1, 5, 9, 13);
    Column2(o, s2, Turn(o, p), Turn(o, q), r, t);
    var s3 := o.Qround(s2, 2, 6, 10, 14);
    Column3(o, s3, Turn(o, p), Turn(o, q), Turn(o, r), t);
  }

  lemma DiagonalsTurn(o: Ops, s: seq<W>, p: Quad, q: Quad, r: Quad, t: Quad)
    requires InDiagonals(s, p, q, r, t)
    ensures InDiagonals(o.Diagonals(s), Turn(o, p), Turn(o, q), Turn(o, r), Turn(o, t))
  {
    Diagonal0(o, s, p, q, r, t);
    var s1 := o.Qround(s, 0, 5, 10, 15);
    Diagonal1(o, s1, Turn(o, p), q, r, t);
    var s2 := o.Qround(s1, 1, 6, 11, 12);
    Diagonal2(o, s2, Turn(o, p), Turn(o, q), r, t);
    var s3 := o.Qround(s2, 2, 7, 8, 13);
    Diagonal3(o, s3, Turn(o, p), Turn(o, q), Turn(o, r), t);
  }

  lemma LanesOf(m: Rows, s: seq<W>)
    ensures Holds(m, s) <==> InLanes(s, Lane0(m), Lane1(m), Lane2(m), Lane3(m))
    ensures Holds(PermuteInv(m), s) <==> InDiagonals(s, Lane0(m), Lane1(m), Lane2(m), Lane3(m))
    ensures PermuteInv(Permute(m)) == m
  {
  }

  lemma OddAgrees(o: Ops, m: Rows, s: seq<W>)
    requires Holds(m, s)
    ensures Holds(OddRound(o, m), o.Columns(s))
  {
    LanesOf(m, s);
    ColumnsTurn(o, s, Lane0(m), Lane1(m), Lane2(m), Lane3(m));
    OddRoundLanes(o, m);
    LanesOf(OddRound(o, m), o.Columns(s));
  }

  lemma EvenAgrees(o: Ops, m: Rows, s: seq<W>)
    requires Holds(m, s)
    ensures Holds(EvenRound(o, m), o.Diagonals(s))
  {
    var n := Permute(m);
    LanesOf(m, s);
    LanesOf(n, s);
    DiagonalsTurn(o, s, Lane0(n), Lane1(n), Lane2(n), Lane3(n));
    OddRoundLanes(o, n);
    LanesOf(OddRound(o, n), o.Diagonals(s));
  }

  /** CC20_DOUBLE_ROUND. */
  function DoubleRound(o: Ops, m: Rows): Rows { EvenRound(o, OddRound(o, m)) }

  /** The row-permuted double round is the double round of RFC 8439. */
  lemma DoubleRoundAgrees(o: Ops, m: Rows, s: seq<W>)
    requires Holds(m, s)
    ensures Holds(DoubleRound(o, m), o.Diagonals(o.Columns(s)))
  {
    OddAgrees(o, m, s);
    EvenAgrees(o, OddRound(o, m), o.Columns(s));
  }

  method OneMore(o: Ops, m: Rows, ghost s: seq<W>, ghost n: nat) returns (k: Rows)
    requires |s| == 16 && Holds(m, o.Rounds(s, n))
    ensures Holds(k, o.Rounds(s, n + 1))
  {
    k := DoubleRound(o, m);
    DoubleRoundAgrees(o, m, o.Rounds(s, n));
  }

  method TenDoubleRounds(o: Ops, m: Rows, ghost s: seq<W>) returns (k: Rows)
    requires Holds(m, s)
    ensures Holds(k, o.Rounds(s, 10))
  {
    k := OneMore(o, m, s, 0);
    k := OneMore(o, k, s, 1);
    k := OneMore(o, k, s, 2);
    k := OneMore(o, k, s, 3);
    k := OneMore(o, k, s, 4);
    k := OneMore(o, k, s, 5);
    k := OneMore(o, k, s, 6);
    k := OneMore(o, k, s, 7);
    k := OneMore(o, k, s, 8);
    k := OneMore(o, k, s, 9);
  }

  function AddAll(o: Ops, k: Rows, m: Rows): Rows {
    Rows(AddRows(o, k.a, m.a), AddRows(o, k.b, m.b), AddRows(o, k.c, m.c), AddRows(o, k.d, m.d))
  }

  lemma AddAgrees(o: Ops, k: Rows, m: Rows, r: seq<W>, s: seq<W>)
    requires Holds(k, r) && Holds(m, s)
    ensures Holds(AddAll(o, k, m), o.AddWords(r, s))
  {
  }

  /** One key stream block in rows. */
  method BlockRows(o: Ops, m: Rows, ghost s: seq<W>) returns (k: Rows)
    requires Holds(m, s)
    ensures Holds(k, o.Block(s))
  {
    k := TenDoubleRounds(o, m, s);
    AddAgrees(o, k, m, o.Rounds(s, 10), s);
    k := AddAll(o, k, m);
  }

  const ONE := Row(1, 0, 0, 0)
  const TWO := Row(2, 0, 0, 0)

  /** Adding ONE to the counter row advances the counter, adding TWO advances it twice, and ONE
      may be added before or after the row itself. */
  lemma CounterRow(o: RfcOps, m: Rows, s: seq<W>, k: Row)
    requires Holds(m, s)
    ensures Holds(m.(d := AddRows(o, m.d, ONE)), o.Bump(s, 1))
    ensures AddRows(o, m.d, TWO) == AddRows(o, AddRows(o, m.d, ONE), ONE)
    ensures AddRows(o, AddRows(o, k, m.d), ONE) == AddRows(o, k, AddRows(o, m.d, ONE))
  {
    o.AddSmall(m.d.x0);
    o.AddSmall(m.d.x1);
    o.AddSmall(m.d.x2);
    o.AddSmall(m.d.x3);
    o.AddAssociates(k.x0, m.d.x0, 1);
    o.AddAssociates(k.x1, m.d.x1, 0);
    o.AddAssociates(k.x2, m.d.x2, 0);
    o.AddAssociates(k.x3, m.d.x3, 0);
    assert o.Bump(s, 1) == s[12 := o.add(s[12], 1)] by { assert o.Bump(s, 0) == s; }
  }

  /** The second of two parallel blocks: the counter is one ahead, and ONE is added again last. */
  method SecondBlock(o: RfcOps, m: Rows, ghost s: seq<W>) returns (k: Rows)
    requires Holds(m, s)
    ensures Holds(k, o.Block(o.Bump(s, 1)))
  {
    var n := m.(d := AddRows(o, m.d, ONE));
    CounterRow(o, m, s, m.d);
    k := TenDoubleRounds(o, n, o.Bump(s, 1));
    AddAgrees(o, k, n, o.Rounds(o.Bump(s, 1), 10), o.Bump(s, 1));
    CounterRow(o, m, s, k.d);
    k := AddAll(o, k, m);
    k := k.(d := AddRows(o, k.d, ONE));
  }
}
