/** What the ladder of RFC 7748 computes, said without its intermediate values, its swaps and its
    bit loop: the doubling and differential addition formulas of the curve
    y^2 = x^3 + 486662 x^2 + x, applied along the binary digits of the scalar. */
module Montgomery {
  import opened Words
  import opened Limbs
  import opened Rfc7748
  import opened Field25519

  /** The coefficient of the curve. */
  const A: int := 486662

  /** The x-coordinate X/Z of a point. */
  datatype Point = Point(x: int, z: int)

  function Sq(x: int): int { x * x }

  function Double(p: Point): Point {
    Point(Sq(Sq(p.x) - Sq(p.z)) % P, (4 * (p.x * p.z) * (Sq(p.x) + A * (p.x * p.z) + Sq(p.z))) % P)
  }

  /** The sum of two points whose difference has the x-coordinate `u`. */
  function DiffAdd(u: int, p: Point, q: Point): Point {
    Point((4 * Sq(p.x * q.x - p.z * q.z)) % P, (4 * (u * Sq(p.x * q.z - p.z * q.x))) % P)
  }

  // ---- one step ----

  ghost method MulRes(x: int, y: int)
    ensures FMul(x % P, y % P) == (x * y) % P
  {
    ResMul(x, y);
  }

  lemma AddRes(x: int, y: int)
    ensures FAdd(x % P, y % P) == (x + y) % P && FSub(x % P, y % P) == (x - y) % P
  {
    ResAdd(x, y);
  }

  lemma ModTwice(x: int)
    ensures x % P % P == x % P
  {
  }

  ghost method ScaleRes(c: int, x: int)
    ensures FMul(c, x % P) == (c * x) % P
  {
    var r := x % P;
    ModTwice(x);
    ResMul(c, x);
    ResMul(c, r);
  }

  /** (x + z)^2 (x - z)^2, and the other product, with e = (x + z)^2 - (x - z)^2. */
  ghost method DoubleForms(x: int, z: int)
    ensures Sq(x + z) * Sq(x - z) == Sq(Sq(x) - Sq(z))
    ensures var e := Sq(x + z) - Sq(x - z);
            e == 4 * (x * z) && Sq(x + z) + 121665 * e == Sq(x) + A * (x * z) + Sq(z)
  {
    assert (x + z) * (x - z) == x * x - z * z;
    SquareOfProduct(x + z, x - z);
    Binomials(x, z);
  }

  ghost method SquareOfProduct(a: int, b: int)
    ensures Sq(a) * Sq(b) == Sq(a * b)
  {
  }

  ghost method Binomials(x: int, z: int)
    ensures Sq(x + z) == Sq(x) + 2 * (x * z) + Sq(z) && Sq(x - z) == Sq(x) - 2 * (x * z) + Sq(z)
  {
  }

  ghost method AddForms(x2: int, z2: int, x3: int, z3: int)
    ensures var da, cb := (x3 - z3) * (x2 + z2), (x3 + z3) * (x2 - z2);
            Sq(da + cb) == 4 * Sq(x2 * x3 - z2 * z3) && Sq(da - cb) == 4 * Sq(x2 * z3 - z2 * x3)
  {
    var da, cb := (x3 - z3) * (x2 + z2), (x3 + z3) * (x2 - z2);
    assert da == x3 * x2 + x3 * z2 - z3 * x2 - z3 * z2;
    assert cb == x3 * x2 - x3 * z2 + z3 * x2 - z3 * z2;
    SquareOfTwice(x2 * x3 - z2 * z3);
    SquareOfTwice(x2 * z3 - z2 * x3);
    assert da + cb == 2 * (x2 * x3 - z2 * z3) && cb - da == 2 * (x2 * z3 - z2 * x3);
    assert Sq(da - cb) == Sq(cb - da);
  }

  ghost method SquareOfTwice(a: int)
    ensures Sq(2 * a) == 4 * Sq(a)
  {
  }

  /** The doubling half of a ladder step is the closed form. */
  ghost method DoubleHalf(s: Ladder, x1: int)
    ensures var t := LadderArith(x1, s); Point(t.x2, t.z2) == Double(Point(s.x2, s.z2))
  {
    var x, z := s.x2, s.z2;
    var aa, bb := Sq(x + z), Sq(x - z);
    MulRes(x + z, x + z);
    MulRes(x - z, x - z);
    AddRes(aa, bb);
    MulRes(aa, bb);
    var e := aa - bb;
    ScaleRes(121665, e);
    AddRes(aa, 121665 * e);
    MulRes(e, aa + 121665 * e);
    DoubleForms(x, z);
  }

  ghost method SquareOfSum(a: int, b: int)
    ensures FMul(FAdd(a % P, b % P), FAdd(a % P, b % P)) == Sq(a + b) % P
  {
    AddRes(a, b);
    MulRes(a + b, a + b);
  }

  ghost method SquareOfDifference(a: int, b: int)
    ensures FMul(FSub(a % P, b % P), FSub(a % P, b % P)) == Sq(a - b) % P
  {
    AddRes(a, b);
    MulRes(a - b, a - b);
  }

  ghost method FourOut(x: int, q: int)
    ensures x * (4 * q) == 4 * (x * q)
  {
  }

  /** And so is its addition half. */
  ghost method AddHalf(s: Ladder, x1: int)
    ensures var t := LadderArith(x1, s); Point(t.x3, t.z3) == DiffAdd(x1, Point(s.x2, s.z2), Point(s.x3, s.z3))
  {
    var da, cb := (s.x3 - s.z3) * (s.x2 + s.z2), (s.x3 + s.z3) * (s.x2 - s.z2);
    MulRes(s.x3 - s.z3, s.x2 + s.z2);
    MulRes(s.x3 + s.z3, s.x2 - s.z2);
    SquareOfSum(da, cb);
    SquareOfDifference(da, cb);
    AddForms(s.x2, s.z2, s.x3, s.z3);
    var q := Sq(s.x2 * s.z3 - s.z2 * s.x3);
    ScaleRes(x1, 4 * q);
    FourOut(x1, q);
  }


  // ---- the formulas on the curve ----

  /** x^3 + 486662 x^2 + x. */
  function Cubic(x: int): int { x * (Sq(x) + A * x + 1) }

  ghost predicate OnCurve(x: int, y: int) { Sq(y) % P == Cubic(x) % P }

  /** Numerator of the x-coordinate of the tangent's third intersection, over 4 v, with v = y^2. */
  function TangentX(x: int, v: int): int { Sq(3 * Sq(x) + 2 * A * x + 1) - (A + 2 * x) * (4 * v) }

  /** The same for the chord through (x1, y1) and (x2, y2), over (x1 - x2)^2. */
  function ChordX(x1: int, y1: int, x2: int, y2: int): int { Sq(y1 - y2) - (A + x1 + x2) * Sq(x1 - x2) }

  ghost method TangentIdentity(x: int)
    ensures Sq(3 * Sq(x) + 2 * A * x + 1) - (A + 2 * x) * (4 * Cubic(x)) == Sq(Sq(x) - 1)
  {
  }

  ghost method Associates(a: int, b: int, c: int)
    ensures (a * b) * c == a * (b * c)
  {
  }

  ghost method DoubleAffine(x: int)
    ensures Double(Point(x, 1)) == Point(Sq(Sq(x) - 1) % P, (4 * Cubic(x)) % P)
  {
    Associates(4, x, Sq(x) + A * x + 1);
    assert x * 1 == x && Sq(1) == 1;
  }

  ghost method TangentResidue(x: int, v: int)
    ensures v % P == Cubic(x) % P ==> TangentX(x, v) % P == Sq(Sq(x) - 1) % P && (4 * v) % P == (4 * Cubic(x)) % P
  {
    if v % P == Cubic(x) % P {
      TangentIdentity(x);
      var k, c := A + 2 * x, Cubic(x);
      SameProduct(4, v, 4, c);
      SameProduct(k, 4 * v, k, 4 * c);
      SameDifference(Sq(3 * Sq(x) + 2 * A * x + 1), k * (4 * v), Sq(3 * Sq(x) + 2 * A * x + 1), k * (4 * c));
    }
  }

  /** Doubling is the tangent rule. */
  ghost method DoubleIsTangent(x: int, y: int)
    ensures OnCurve(x, y) ==> Double(Point(x, 1)) == Point(TangentX(x, Sq(y)) % P, (4 * Sq(y)) % P)
  {
    DoubleAffine(x);
    TangentResidue(x, Sq(y));
  }

  /** With s = x1 + x2 and m = x1 x2. */
  ghost method ChordIdentity(x1: int, x2: int)
    ensures Sq(Cubic(x1) + Cubic(x2) - (A + x1 + x2) * Sq(x1 - x2)) - 4 * (Cubic(x1) * Cubic(x2))
         == Sq(x1 * x2 - 1) * Sq(x1 - x2)
  {
    ChordSum(x1, x2);
    ChordProduct(x1, x2);
    Monomials(x1, x2);
    ChordFrom(x1 + x2, x1 * x2, Cubic(x1) + Cubic(x2) - (A + x1 + x2) * Sq(x1 - x2), Cubic(x1) * Cubic(x2), Sq(x1 - x2));
  }

  ghost method ChordFrom(s: int, m: int, f: int, c: int, d: int)
    ensures f == s * (m + 1) + 2 * A * m && d == Sq(s) - 4 * m
            && c == m * (Sq(m) + A * (m * s) + (Sq(s) - 2 * m) + A * A * m + A * s + 1)
            ==> Sq(f) - 4 * c == Sq(m - 1) * d
  {
    FirstSquare(s, m);
    InnerTerms(m, Sq(m), m * s, Sq(s), s);
    LastProduct(s, m);
  }

  /** Products of the coordinates in terms of s and m. */
  ghost method Monomials(x1: int, x2: int)
    ensures x2 * Sq(x1) == x1 * (x1 * x2) && x1 * Sq(x2) == x2 * (x1 * x2)
    ensures Sq(x1) * Sq(x2) == Sq(x1 * x2) && Sq(x1) + Sq(x2) == Sq(x1 + x2) - 2 * (x1 * x2)
    ensures Sq(x1 - x2) == Sq(x1) + Sq(x2) - 2 * (x1 * x2)
  {
  }

  ghost method ChordSum(x1: int, x2: int)
    ensures Cubic(x1) + Cubic(x2) - (A + x1 + x2) * Sq(x1 - x2) == (x1 + x2) * (x1 * x2 + 1) + 2 * A * (x1 * x2)
  {
    Monomials(x1, x2);
    ChordSumFrom(x1, x2, Sq(x1), Sq(x2), x1 * x2);
  }

  ghost method ChordSumFrom(x1: int, x2: int, p: int, q: int, m: int)
    ensures x2 * p == x1 * m && x1 * q == x2 * m ==>
              x1 * (p + A * x1 + 1) + x2 * (q + A * x2 + 1) - (A + x1 + x2) * (p + q - 2 * m)
              == (x1 + x2) * (m + 1) + 2 * A * m + A * (x1 * x1 - p) + A * (x2 * x2 - q)
  {
    Distributes(x1, p, x1);
    Distributes(x2, q, x2);
    ChordTerms(x1, x2, p, q, m);
    assert (x1 + x2) * (m + 1) == x1 * m + x2 * m + x1 + x2;
  }

  ghost method Distributes(x: int, p: int, y: int)
    ensures x * (p + A * y + 1) == x * p + A * (x * y) + x
  {
  }

  ghost method ChordTerms(x1: int, x2: int, p: int, q: int, m: int)
    ensures (A + x1 + x2) * (p + q - 2 * m)
         == A * p + A * q - 2 * A * m + x1 * p + x1 * q + x2 * p + x2 * q - 2 * (x1 * m) - 2 * (x2 * m)
  {
  }

  ghost method ChordProduct(x1: int, x2: int)
    ensures var s, m := x1 + x2, x1 * x2;
            Cubic(x1) * Cubic(x2) == m * (Sq(m) + A * (m * s) + (Sq(s) - 2 * m) + A * A * m + A * s + 1)
  {
    var a, b := Sq(x1) + A * x1 + 1, Sq(x2) + A * x2 + 1;
    Interchange(x1, a, x2, b);
    Monomials(x1, x2);
    ProductFrom(x1, x2, Sq(x1), Sq(x2), x1 * x2);
  }

  ghost method Interchange(a: int, b: int, c: int, d: int)
    ensures (a * b) * (c * d) == (a * c) * (b * d)
  {
  }

  ghost method ProductFrom(x1: int, x2: int, p: int, q: int, m: int)
    ensures x2 * p == x1 * m && x1 * q == x2 * m && x1 * x2 == m ==>
            (p + A * x1 + 1) * (q + A * x2 + 1) == p * q + A * (m * (x1 + x2)) + (p + q) + A * A * m + A * (x1 + x2) + 1
  {
    assert (p + A * x1 + 1) * (q + A * x2 + 1)
        == p * q + A * (x2 * p) + p + A * (x1 * q) + A * A * (x1 * x2) + A * x1 + q + A * x2 + 1;
  }

  ghost method FirstSquare(s: int, m: int)
    ensures Sq(s * (m + 1) + 2 * A * m)
         == Sq(s) * Sq(m) + 2 * (m * Sq(s)) + Sq(s) + 4 * A * (m * (m * s)) + 4 * A * (m * s) + 4 * A * A * Sq(m)
  {
    Binomials(s * (m + 1), 2 * A * m);
    SquareOfProduct(s, m + 1);
    Binomials(m, 1);
    Spread(Sq(s), Sq(m), 2 * m, 1);
    CrossTerm(s, m);
    SquareOfProduct(2 * A, m);
  }

  ghost method LastProduct(s: int, m: int)
    ensures Sq(m - 1) * (Sq(s) - 4 * m) == Sq(s) * Sq(m) - 4 * (m * Sq(m)) - 2 * (m * Sq(s)) + 8 * Sq(m) + Sq(s) - 4 * m
  {
    Binomials(m, 1);
    Spread(Sq(s) - 4 * m, Sq(m), -2 * m, 1);
    OuterTerms(Sq(s), m, Sq(m));
  }

  ghost method Spread(x: int, a: int, b: int, c: int)
    ensures (a + b + c) * x == x * (a + b + c) == x * a + x * b + x * c
  {
  }

  ghost method CrossTerm(s: int, m: int)
    ensures (s * (m + 1)) * (2 * A * m) == 2 * A * (m * (m * s)) + 2 * A * (m * s)
  {
    var ms := m * s;
    assert s * (m + 1) == ms + s;
    assert (ms + s) * m == ms * m + ms;
    assert (ms + s) * (2 * A * m) == 2 * A * ((ms + s) * m);
  }

  ghost method InnerTerms(m: int, m2: int, ms: int, s2: int, s: int)
    ensures m2 == m * m && ms == m * s ==>
              m * (m2 + A * ms + (s2 - 2 * m) + A * A * m + A * s + 1)
              == m * m2 + A * (m * ms) + m * s2 - 2 * m2 + A * A * m2 + A * ms + m
  {
  }

  ghost method OuterTerms(s2: int, m: int, m2: int)
    ensures m2 == m * m ==>
            (s2 - 4 * m) * m2 == s2 * m2 - 4 * (m * m2) && (s2 - 4 * m) * (-2 * m) == -2 * (m * s2) + 8 * m2
  {
  }

  ghost method ChordProductFrom(g: int, v1: int, v2: int, y1: int, y2: int)
    ensures v1 == Sq(y1) && v2 == Sq(y2) ==>
            (Sq(y1 - y2) - g) * (Sq(y1 + y2) - g) == Sq(v1 + v2 - g) - 4 * (v1 * v2)
  {
    if v1 == Sq(y1) && v2 == Sq(y2) {
      var w := y1 * y2;
      assert Sq(y1 - y2) == v1 + v2 - 2 * w && Sq(y1 + y2) == v1 + v2 + 2 * w;
      DifferenceOfSquares(v1 + v2 - g, 2 * w);
      assert Sq(2 * w) == 4 * Sq(w);
      Interchange(y1, y2, y1, y2);
    }
  }

  ghost method DifferenceOfSquares(a: int, b: int)
    ensures (a - b) * (a + b) == Sq(a) - Sq(b)
  {
  }

  ghost method SameProduct(a: int, b: int, c: int, d: int)
    requires a % P == c % P && b % P == d % P
    ensures (a * b) % P == (c * d) % P
  {
    ResMul(a, b);
    ResMul(c, d);
  }

  lemma SameDifference(a: int, b: int, c: int, d: int)
    requires a % P == c % P && b % P == d % P
    ensures (a - b) % P == (c - d) % P && (a + b) % P == (c + d) % P
  {
    ResAdd(a, b);
    ResAdd(c, d);
  }

  /** Equal residues of the sum and of the product carry over. */
  ghost method SameDiscriminant(a: int, w: int, b: int, z: int)
    requires a % P == b % P && w % P == z % P
    ensures (Sq(a) - 4 * w) % P == (Sq(b) - 4 * z) % P
  {
    SameProduct(a, a, b, b);
    SameProduct(4, w, 4, z);
    SameDifference(Sq(a), 4 * w, Sq(b), 4 * z);
  }

  /** Replacing the squares of the ordinates by the cubics, modulo p. */
  ghost method ReplaceSquares(v1: int, v2: int, c1: int, c2: int, g: int)
    requires v1 % P == c1 % P && v2 % P == c2 % P
    ensures (Sq(v1 + v2 - g) - 4 * (v1 * v2)) % P == (Sq(c1 + c2 - g) - 4 * (c1 * c2)) % P
  {
    SameDifference(v1, v2, c1, c2);
    SameDifference(v1 + v2, g, c1 + c2, g);
    SameProduct(v1, v2, c1, c2);
    SameDiscriminant(v1 + v2 - g, v1 * v2, c1 + c2 - g, c1 * c2);
  }

  ghost method ChordPair(x1: int, y1: int, x2: int, y2: int)
    ensures var g := (A + x1 + x2) * Sq(x1 - x2);
            ChordX(x1, y1, x2, y2) * ChordX(x1, y1, x2, -y2) == Sq(Sq(y1) + Sq(y2) - g) - 4 * (Sq(y1) * Sq(y2))
  {
    assert y1 - -y2 == y1 + y2;
    ChordProductFrom((A + x1 + x2) * Sq(x1 - x2), Sq(y1), Sq(y2), y1, y2);
  }

  /** The chord rule for the sum and for the difference: the product of the two x-coordinates. */
  ghost method ChordsMultiply(x1: int, y1: int, x2: int, y2: int)
    ensures OnCurve(x1, y1) && OnCurve(x2, y2) ==>
              (ChordX(x1, y1, x2, y2) * ChordX(x1, y1, x2, -y2)) % P == (Sq(x1 * x2 - 1) * Sq(x1 - x2)) % P
  {
    if OnCurve(x1, y1) && OnCurve(x2, y2) {
      var g := (A + x1 + x2) * Sq(x1 - x2);
      var v1, v2, c1, c2 := Sq(y1), Sq(y2), Cubic(x1), Cubic(x2);
      ChordPair(x1, y1, x2, y2);
      ReplaceSquares(v1, v2, c1, c2, g);
      ChordIdentity(x1, x2);
      SameThrough(ChordX(x1, y1, x2, y2) * ChordX(x1, y1, x2, -y2), Sq(v1 + v2 - g) - 4 * (v1 * v2),
                  Sq(c1 + c2 - g) - 4 * (c1 * c2), Sq(x1 * x2 - 1) * Sq(x1 - x2));
    }
  }

  lemma SameThrough(a: int, b: int, c: int, d: int)
    requires a == b && b % P == c % P && c == d
    ensures a % P == d % P
  {
  }

  /** Differential addition is the chord rule: if the chord of the difference has x-coordinate `u`,
      the sum's x-coordinate by the chord rule is the quotient that DiffAdd gives. */
  ghost method DiffAddIsChord(u: int, x1: int, y1: int, x2: int, y2: int)
    ensures var r := DiffAdd(u, Point(x1, 1), Point(x2, 1));
            OnCurve(x1, y1) && OnCurve(x2, y2) && ChordX(x1, y1, x2, -y2) % P == (u * Sq(x1 - x2)) % P ==>
              (ChordX(x1, y1, x2, y2) * r.z) % P == (Sq(x1 - x2) * r.x) % P
  {
    ChordsMultiply(x1, y1, x2, y2);
    DiffAddAffine(u, x1, x2);
    CrossMultiplied(ChordX(x1, y1, x2, y2), ChordX(x1, y1, x2, -y2), Sq(x1 - x2), Sq(x1 * x2 - 1), u);
    ScaleRes(ChordX(x1, y1, x2, y2), 4 * (u * Sq(x1 - x2)));
    ScaleRes(Sq(x1 - x2), 4 * Sq(x1 * x2 - 1));
  }

  ghost method DiffAddAffine(u: int, x1: int, x2: int)
    ensures DiffAdd(u, Point(x1, 1), Point(x2, 1)) == Point((4 * Sq(x1 * x2 - 1)) % P, (4 * (u * Sq(x1 - x2))) % P)
  {
    assert x1 * 1 - 1 * x2 == x1 - x2 && 1 * 1 == 1;
  }

  ghost method CrossMultiplied(n: int, n': int, d: int, m: int, u: int)
    ensures (n * n') % P == (m * d) % P && n' % P == (u * d) % P ==> (n * (4 * (u * d))) % P == (d * (4 * m)) % P
  {
    if (n * n') % P == (m * d) % P && n' % P == (u * d) % P {
      SameProduct(n, u * d, n, n');
      assert d * m == m * d;
      SameProduct(4, n * (u * d), 4, d * m);
      FourOut(n, u * d);
      FourOut(d, m);
    }
  }

  // ---- the whole ladder ----

  /** The multiples n and n + 1 of the point with x-coordinate `u`, along the binary digits of n. */
  function Multiples(u: int, n: nat): (Point, Point)
    decreases n, u
  {
    if n == 0 then (Point(1, 0), Point(u, 1))
    else
      var (p, q) := Multiples(u, n / 2);
      if n % 2 == 0 then (Double(p), DiffAdd(u, p, q)) else (DiffAdd(u, p, q), Double(q))
  }

  function Pair(s: Ladder): (Point, Point) { (Point(s.x2, s.z2), Point(s.x3, s.z3)) }

  ghost method DiffAddSymmetric(u: int, p: Point, q: Point)
    ensures DiffAdd(u, p, q) == DiffAdd(u, q, p)
  {
    assert p.x * q.x - p.z * q.z == q.x * p.x - q.z * p.z;
    SquareOfNegated(p.x * q.z - p.z * q.x);
    assert q.x * p.z - q.z * p.x == -(p.x * q.z - p.z * q.x);
  }

  ghost method SquareOfNegated(a: int)
    ensures Sq(a) == Sq(-a)
  {
  }

  /** What a step with its swaps does to the pair. */
  ghost method SettledStep(u: int, kt: bool, s: Ladder)
    ensures var t := LadderStep(u, kt, s); var (p, q) := Pair(CSwap(s.swap, s));
            Pair(CSwap(t.swap, t)) == if kt then (DiffAdd(u, p, q), Double(q)) else (Double(p), DiffAdd(u, p, q))
  {
    var c := CSwap(s.swap != kt, s).(swap := kt);
    var (p, q) := Pair(CSwap(s.swap, s));
    assert Pair(c) == if kt then (q, p) else (p, q);
    DoubleHalf(c, u);
    AddHalf(c, u);
    DiffAddSymmetric(u, p, q);
  }

  /** It goes from n to 2 n + kt. */
  ghost method StepMultiplies(u: int, kt: bool, s: Ladder, n: nat)
    ensures var t := LadderStep(u, kt, s);
            Pair(CSwap(s.swap, s)) == Multiples(u, n) && (n > 0 || kt) ==>
              Pair(CSwap(t.swap, t)) == Multiples(u, 2 * n + if kt then 1 else 0)
  {
    SettledStep(u, kt, s);
    var k := 2 * n + if kt then 1 else 0;
    assert k / 2 == n && (k % 2 == 0 <==> !kt);
  }

  lemma ShrNext(k: nat, t: nat)
    ensures Shr(k, t) == 2 * Shr(k, t + 1) + if Bit(k, t) then 1 else 0
  {
  }

  /** A number whose highest bit is bit `m`. */
  lemma {:induction false} ShrBounds(k: nat, t: nat, m: nat)
    requires t <= m && Pow2(m) <= k < 2 * Pow2(m)
    ensures Pow2(m - t) <= Shr(k, t) < 2 * Pow2(m - t)
    decreases t
  {
    if t > 0 { ShrBounds(k, t - 1, m); }
  }

  /** The pair after the bits down to `t`. */
  ghost predicate Reached(u: int, k: nat, t: nat) {
    var s := LadderRun(u, k, t);
    Pair(CSwap(s.swap, s)) == Multiples(u, Shr(k, t))
  }

  ghost method ReachedFirst(u: int, k: nat, t: nat)
    requires t == 254 && Shr(k, t) == 1
    ensures Reached(u, k, t)
  {
    StepMultiplies(u, true, Ladder(1, 0, u, 1, false), 0);
  }

  ghost method ReachedNext(u: int, k: nat, t: nat)
    requires t < 254 && Shr(k, t + 1) > 0
    ensures Reached(u, k, t + 1) ==> Reached(u, k, t)
  {
    ShrNext(k, t);
    StepMultiplies(u, Bit(k, t), LadderRun(u, k, t + 1), Shr(k, t + 1));
  }

  ghost method RunMultiplies(u: int, k: nat, t: nat, m: nat)
    requires t <= m == 254 && Pow2(m) <= k < 2 * Pow2(m)
    ensures Reached(u, k, t)
    decreases 255 - t
  {
    if t == m {
      ShrBounds(k, m, m);
      ReachedFirst(u, k, t);
    } else {
      ShrBounds(k, t + 1, m);
      RunMultiplies(u, k, t + 1, m);
      ReachedNext(u, k, t);
    }
  }

  // ---- the inputs ----

  const TWO_254: nat := 64 * TOP_WEIGHT
  const TWO_255: nat := 128 * TOP_WEIGHT

  /** 2^255 - 19 is the modulus. */
  lemma PowersOfTwo(k: nat, m: nat)
    requires k == 32 && m == 8 * k - 2
    ensures Pow2(m) == TWO_254 && 2 * Pow2(m) == TWO_255 && P == Pow2(m + 1) - 19
  {
    Pow2Of32();
    Pow2Adds(k, k);
    Pow2Adds(2 * k, 2 * k);
    Pow2Adds(4 * k, 4 * k);
    assert Pow2(m + 2) == 2 * Pow2(m + 1) == 4 * Pow2(m);
  }

  lemma TwiceOut(x: int, y: int)
    ensures x * (2 * y) == 2 * (x * y)
  {
  }

  lemma {:induction false} Pow2Adds(a: nat, b: nat)
    ensures Pow2(a + b) == Pow2(a) * Pow2(b)
  {
    if b > 0 {
      Pow2Adds(a, b - 1);
      TwiceOut(Pow2(a), Pow2(b - 1));
    }
  }

  /** A number with its highest byte apart. */
  lemma TopByte(b: seq<Byte>)
    requires |b| == 32
    ensures Value(b) == Value(b[..31]) + TOP_WEIGHT * b[31] && 0 <= Value(b[..31]) < TOP_WEIGHT
  {
    RadixTop();
    assert b == b[..31] + [b[31]];
    ValuePush(b[..31], b[31]);
    ValueBounds(b[..31]);
  }

  lemma LowByteOf(b: seq<int>, x: int)
    requires |b| > 0
    ensures Value(b[0 := x]) == Value(b) - b[0] + x && Value(b) % 8 == b[0] % 8
  {
    assert b[0 := x][1..] == b[1..];
    MultipleOfEight(b[0], 32 * Value(b[1..]));
  }

  lemma TopBits(low: int, t: int)
    requires 0 <= low < TOP_WEIGHT && 0 <= t
    ensures (low + TOP_WEIGHT * t) % (64 * TOP_WEIGHT) == low + TOP_WEIGHT * (t % 64)
    ensures (low + TOP_WEIGHT * t) % (128 * TOP_WEIGHT) == low + TOP_WEIGHT * (t % 128)
  {
    RemainderUnique(low + TOP_WEIGHT * t, 64 * TOP_WEIGHT, t / 64, low + TOP_WEIGHT * (t % 64));
    RemainderUnique(low + TOP_WEIGHT * t, 128 * TOP_WEIGHT, t / 128, low + TOP_WEIGHT * (t % 128));
  }

  lemma Eighths(low: int, t: int)
    ensures (low + TOP_WEIGHT * t) % 8 == low % 8
  {
    assert TOP_WEIGHT * t == 8 * (TOP_WEIGHT / 8 * t);
    MultipleOfEight(low, TOP_WEIGHT / 8 * t);
  }

  lemma MultipleOfEight(low: int, k: int)
    ensures (low + 8 * k) % 8 == low % 8
  {
  }

  /** The number a scalar stands for: bits 0, 1, 2 and 255 are cleared and bit 254 is set. */
  function Clamped(v: nat): (k: nat)
    ensures TWO_254 <= k < TWO_255 && k % 8 == 0
  {
    ClampedBounds(v % TWO_254);
    TWO_254 + (v % TWO_254 - v % TWO_254 % 8)
  }

  lemma ClampedBounds(w: nat)
    requires w < TWO_254
    ensures 0 <= w - w % 8 < TWO_254 && (TWO_254 + (w - w % 8)) % 8 == 0
  {
  }

  lemma ClampArith(low: int, t: int, low': int, b0: int)
    requires 0 <= low < TOP_WEIGHT && 0 <= t && low % 8 == b0 % 8 && low' == low - b0 % 8
    ensures low + TOP_WEIGHT * t >= 0 && low' + TOP_WEIGHT * (64 + t % 64) == Clamped(low + TOP_WEIGHT * t)
  {
    TopBits(low, t);
    Eighths(low, t % 64);
  }

  lemma ClampedTop(b: int)
    requires 0 <= b < 256
    ensures (if b % 128 < 64 then b % 128 + 64 else b % 128) == 64 + b % 64
  {
  }

  lemma ClampedBytes(n: seq<Byte>)
    requires |n| == 32
    ensures ClampScalar(n)[..31] == n[..31][0 := n[0] / 8 * 8] && ClampScalar(n)[31] == 64 + n[31] % 64
  {
    ClampedTop(n[31]);
  }

  lemma EightsOf(b: int)
    ensures b / 8 * 8 == b - b % 8
  {
  }

  /** The scalar and its clamped form, each with the highest byte apart. */
  lemma ScalarParts(n: seq<Byte>) returns (low: int, low': int)
    requires |n| == 32
    ensures Value(n) == low + TOP_WEIGHT * n[31] && 0 <= low < TOP_WEIGHT
    ensures DecodeScalar(n) == low' + TOP_WEIGHT * (64 + n[31] % 64)
    ensures low % 8 == n[0] % 8 && low' == low - n[0] % 8
  {
    var b, x := n[..31], n[0] / 8 * 8;
    ClampedBytes(n);
    TopByte(n);
    TopByte(ClampScalar(n));
    LowByteOf(b, x);
    EightsOf(n[0]);
    assert b[0] == n[0];
    low, low' := Value(b), Value(b[0 := x]);
  }

  lemma ScalarIs(n: seq<Byte>)
    requires |n| == 32
    ensures Value(n) >= 0 && DecodeScalar(n) == Clamped(Value(n))
  {
    var low, low' := ScalarParts(n);
    ClampEquals(Value(n), DecodeScalar(n), low, n[31], low', n[0]);
  }

  lemma ClampEquals(v: int, d: int, low: int, t: int, low': int, b0: int)
    requires v == low + TOP_WEIGHT * t && d == low' + TOP_WEIGHT * (64 + t % 64)
    requires 0 <= low < TOP_WEIGHT && 0 <= t && low % 8 == b0 % 8 && low' == low - b0 % 8
    ensures v >= 0 && d == Clamped(v)
  {
    ClampArith(low, t, low', b0);
  }

  /** Decoding a point: bit 255 is ignored. */
  lemma PointIs(u: seq<Byte>)
    requires |u| == 32
    ensures DecodeU(u) == Value(u) % TWO_255 % P
  {
    var m := MaskPoint(u);
    TopByte(u);
    TopByte(m);
    assert m[..31] == u[..31] && m[31] == u[31] % 128;
    MaskEquals(Value(u), Value(m), Value(u[..31]), u[31]);
  }

  lemma MaskEquals(v: int, w: int, low: int, t: int)
    requires v == low + TOP_WEIGHT * t && w == low + TOP_WEIGHT * (t % 128) && 0 <= low < TOP_WEIGHT && 0 <= t
    ensures w == v % TWO_255
  {
    TopBits(low, t);
  }

  /** The x-coordinate of the multiple `k` of the point `u`, as a number modulo p. */
  function MultipleX(u: int, k: nat): (r: int)
    ensures 0 <= r < P
  {
    var p := Multiples(u, k).0;
    FMul(p.x, FPow(p.z, P - 2))
  }

  ghost method RunIsMultiple(u: int, k: nat, m: nat)
    requires m == 254 && TWO_254 <= k < TWO_255
    ensures var s := LadderRun(u, k, 0);
            FMul(CSwap(s.swap, s).x2, FPow(CSwap(s.swap, s).z2, P - 2)) == MultipleX(u, k)
  {
    PowersOfTwo((m + 2) / 8, m);
    RunMultiplies(u, k, 0, m);
  }

  /** X25519 is the x-coordinate of the multiple that the clamped scalar asks for. */
  ghost method X25519Is(n: seq<Byte>, u: seq<Byte>)
    requires |n| == |u| == 32
    ensures Value(n) >= 0 && X25519(n, u) == MultipleX(Value(u) % TWO_255 % P, Clamped(Value(n)))
  {
    ScalarIs(n);
    PointIs(u);
    RunIsMultiple(DecodeU(u), DecodeScalar(n), 254);
  }
}
