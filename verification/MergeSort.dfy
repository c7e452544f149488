/** What the bottom-up list mergesort of include/uthash.h computes, on sequences of
    handles: merges of adjacent runs, passes that double the run length, and the proof
    that the result is sorted, a permutation and stable. */
module MergeSort {

  /** A handle address in the node pool; 0 is NULL. */
  type Ptr = nat

  /** `cmpfcn`: negative, zero or positive. */
  type Comparator = (Ptr, Ptr) -> int

  ghost predicate Leq(cmp: Comparator, x: Ptr, y: Ptr) { cmp(x, y) <= 0 }

  ghost predicate TotalPreorder(cmp: Comparator) {
    && (forall x, y :: Leq(cmp, x, y) || Leq(cmp, y, x))
    && (forall x, y, z :: Leq(cmp, x, y) && Leq(cmp, y, z) ==> Leq(cmp, x, z))
  }

  ghost predicate Equivalent(cmp: Comparator, x: Ptr, y: Ptr) {
    Leq(cmp, x, y) && Leq(cmp, y, x)
  }

  ghost predicate Sorted(cmp: Comparator, s: seq<Ptr>) {
    forall i, j :: 0 <= i < j < |s| ==> Leq(cmp, s[i], s[j])
  }

  /** The elements equivalent to `x`, in order of appearance. */
  ghost function Class(cmp: Comparator, x: Ptr, s: seq<Ptr>): seq<Ptr> {
    if s == [] then []
    else (if Equivalent(cmp, x, s[0]) then [s[0]] else []) + Class(cmp, x, s[1..])
  }

  /** `t` rearranges `s` and keeps equivalent elements in their order. */
  ghost predicate StablePermutation(cmp: Comparator, s: seq<Ptr>, t: seq<Ptr>) {
    multiset(s) == multiset(t) && forall x :: Class(cmp, x, s) == Class(cmp, x, t)
  }

  /** Merging two runs: the left one wins ties. */
  function Merge(cmp: Comparator, a: seq<Ptr>, b: seq<Ptr>): seq<Ptr>
    decreases |a| + |b|
  {
    if a == [] then b
    else if b == [] then a
    else if cmp(a[0], b[0]) <= 0 then [a[0]] + Merge(cmp, a[1..], b)
    else [b[0]] + Merge(cmp, a, b[1..])
  }

  function Min(x: nat, y: nat): nat { if x <= y then x else y }

  /** One pass over the list with runs of length `k`. */
  function Pass(cmp: Comparator, s: seq<Ptr>, k: nat): seq<Ptr>
    requires k > 0
    decreases |s|
  {
    if s == [] then []
    else
      var m, n := Min(k, |s|), Min(2 * k, |s|);
      Merge(cmp, s[..m], s[m..n]) + Pass(cmp, s[n..], k)
  }

  /** Passes with run lengths k, 2k, 4k, ... until one merge covers the list. */
  function SortFrom(cmp: Comparator, s: seq<Ptr>, k: nat): seq<Ptr>
    requires k > 0
    decreases |s| - k, 0
  {
    if |s| <= 2 * k then Pass(cmp, s, k)
    else
      PassLength(cmp, s, k);
      SortFrom(cmp, Pass(cmp, s, k), 2 * k)
  }

  lemma {:induction false} MergeElements(cmp: Comparator, a: seq<Ptr>, b: seq<Ptr>)
    ensures multiset(Merge(cmp, a, b)) == multiset(a) + multiset(b)
    decreases |a| + |b|
  {
    if a != [] && b != [] {
      assert a == [a[0]] + a[1..] && b == [b[0]] + b[1..];
      if cmp(a[0], b[0]) <= 0 {
        MergeElements(cmp, a[1..], b);
      } else {
        MergeElements(cmp, a, b[1..]);
      }
    }
  }

  lemma ThreeParts(s: seq<Ptr>, m: nat, n: nat)
    requires m <= n <= |s|
    ensures s == (s[..m] + s[m..n]) + s[n..]
    ensures multiset(s) == multiset(s[..m]) + multiset(s[m..n]) + multiset(s[n..])
  {
    assert s == (s[..m] + s[m..n]) + s[n..];
  }

  lemma {:induction false} PassElements(cmp: Comparator, s: seq<Ptr>, k: nat)
    requires k > 0
    ensures multiset(Pass(cmp, s, k)) == multiset(s)
    decreases |s|
  {
    if s != [] {
      var m, n := Min(k, |s|), Min(2 * k, |s|);
      ThreeParts(s, m, n);
      MergeElements(cmp, s[..m], s[m..n]);
      PassElements(cmp, s[n..], k);
      var front, back := Merge(cmp, s[..m], s[m..n]), Pass(cmp, s[n..], k);
      assert Pass(cmp, s, k) == front + back;
      assert multiset(front + back) == multiset(front) + multiset(back);
    }
  }

  lemma PassLength(cmp: Comparator, s: seq<Ptr>, k: nat)
    requires k > 0
    ensures |Pass(cmp, s, k)| == |s|
  {
    PassElements(cmp, s, k);
    assert |multiset(Pass(cmp, s, k))| == |multiset(s)|;
  }

  /** Whatever the comparator does, no handle is lost or duplicated. */
  lemma {:induction false} SortFromElements(cmp: Comparator, s: seq<Ptr>, k: nat)
    requires k > 0
    ensures multiset(SortFrom(cmp, s, k)) == multiset(s)
    decreases |s| - k
  {
    PassElements(cmp, s, k);
    PassLength(cmp, s, k);
    if |s| > 2 * k {
      SortFromElements(cmp, Pass(cmp, s, k), 2 * k);
    }
  }

  // ---- sortedness ----

  lemma SortedCons(cmp: Comparator, x: Ptr, s: seq<Ptr>)
    requires Sorted(cmp, s) && forall y :: y in s ==> Leq(cmp, x, y)
    ensures Sorted(cmp, [x] + s)
  {
  }

  lemma {:induction false} MergeSorted(cmp: Comparator, a: seq<Ptr>, b: seq<Ptr>)
    requires TotalPreorder(cmp) && Sorted(cmp, a) && Sorted(cmp, b)
    ensures Sorted(cmp, Merge(cmp, a, b))
    decreases |a| + |b|
  {
    if a != [] && b != [] {
      if cmp(a[0], b[0]) <= 0 {
        MergeSorted(cmp, a[1..], b);
        FirstIsLeast(cmp, a[0], a[1..], b);
        SortedCons(cmp, a[0], Merge(cmp, a[1..], b));
      } else {
        MergeSorted(cmp, a, b[1..]);
        FirstIsLeast(cmp, b[0], a, b[1..]);
        SortedCons(cmp, b[0], Merge(cmp, a, b[1..]));
      }
    }
  }

  lemma FirstIsLeast(cmp: Comparator, x: Ptr, a: seq<Ptr>, b: seq<Ptr>)
    requires TotalPreorder(cmp) && Sorted(cmp, a) && Sorted(cmp, b)
    requires a != [] ==> Leq(cmp, x, a[0])
    requires b != [] ==> Leq(cmp, x, b[0])
    ensures forall y :: y in Merge(cmp, a, b) ==> Leq(cmp, x, y)
  {
    MergeElements(cmp, a, b);
    forall y | y in Merge(cmp, a, b)
      ensures Leq(cmp, x, y)
    {
      assert y in multiset(Merge(cmp, a, b));
      if y in a {
        var i :| 0 <= i < |a| && a[i] == y;
        assert i == 0 || Leq(cmp, a[0], y);
      } else {
        var i :| 0 <= i < |b| && b[i] == y;
        assert i == 0 || Leq(cmp, b[0], y);
      }
    }
  }

  /** Every block of `k` elements, counted from the front, is sorted. */
  ghost predicate RunsSorted(cmp: Comparator, s: seq<Ptr>, k: nat)
    requires k > 0
    decreases |s|
  {
    s == [] || (Sorted(cmp, s[..Min(k, |s|)]) && RunsSorted(cmp, s[Min(k, |s|)..], k))
  }

  lemma RunsConcat(cmp: Comparator, a: seq<Ptr>, b: seq<Ptr>, k: nat)
    requires k > 0 && |a| == k && Sorted(cmp, a) && RunsSorted(cmp, b, k)
    ensures RunsSorted(cmp, a + b, k)
  {
    assert (a + b)[..k] == a && (a + b)[k..] == b;
  }

  lemma {:induction false} PassSortsRuns(cmp: Comparator, s: seq<Ptr>, k: nat)
    requires k > 0 && TotalPreorder(cmp) && RunsSorted(cmp, s, k)
    ensures RunsSorted(cmp, Pass(cmp, s, k), 2 * k)
    decreases |s|
  {
    if s != [] {
      var m, n := Min(k, |s|), Min(2 * k, |s|);
      var a, b := s[..m], s[m..n];
      var rest := s[m..];
      if rest != [] {
        assert rest[..Min(k, |rest|)] == b && rest[Min(k, |rest|)..] == s[n..];
      } else {
        assert b == [] && s[n..] == [];
      }
      MergeSorted(cmp, a, b);
      MergeElements(cmp, a, b);
      assert |Merge(cmp, a, b)| == |multiset(Merge(cmp, a, b))| == n;
      PassSortsRuns(cmp, s[n..], k);
      if n == 2 * k {
        RunsConcat(cmp, Merge(cmp, a, b), Pass(cmp, s[n..], k), 2 * k);
      } else {
        assert s[n..] == [];
        var r := Pass(cmp, s, k);
        assert r == Merge(cmp, a, b);
        assert r[..Min(2 * k, |r|)] == r && r[Min(2 * k, |r|)..] == [];
      }
    }
  }

  lemma {:induction false} RunsOfOne(cmp: Comparator, s: seq<Ptr>)
    ensures RunsSorted(cmp, s, 1)
  {
    if s != [] {
      RunsOfOne(cmp, s[1..]);
    }
  }

  // ---- stability ----

  lemma Associate(a: seq<Ptr>, b: seq<Ptr>, c: seq<Ptr>)
    ensures a + (b + c) == (a + b) + c
  {
  }

  lemma {:induction false} ClassConcat(cmp: Comparator, x: Ptr, a: seq<Ptr>, b: seq<Ptr>)
    ensures Class(cmp, x, a + b) == Class(cmp, x, a) + Class(cmp, x, b)
  {
    if a == [] {
      assert a + b == b;
    } else {
      ClassConcat(cmp, x, a[1..], b);
      assert (a + b)[1..] == a[1..] + b && (a + b)[0] == a[0];
      var first := if Equivalent(cmp, x, a[0]) then [a[0]] else [];
      Associate(first, Class(cmp, x, a[1..]), Class(cmp, x, b));
    }
  }

  lemma {:induction false} ClassEmpty(cmp: Comparator, x: Ptr, s: seq<Ptr>)
    requires forall y :: y in s ==> !Equivalent(cmp, x, y)
    ensures Class(cmp, x, s) == []
  {
    if s != [] {
      ClassEmpty(cmp, x, s[1..]);
    }
  }

  lemma ClassHead(cmp: Comparator, x: Ptr, s: seq<Ptr>, t: seq<Ptr>)
    requires s != []
    ensures Class(cmp, x, [s[0]] + t) == (if Equivalent(cmp, x, s[0]) then [s[0]] else []) + Class(cmp, x, t)
    ensures Class(cmp, x, s) == (if Equivalent(cmp, x, s[0]) then [s[0]] else []) + Class(cmp, x, s[1..])
  {
    assert ([s[0]] + t)[1..] == t;
  }

  lemma {:induction false} MergeStable(cmp: Comparator, x: Ptr, a: seq<Ptr>, b: seq<Ptr>)
    requires TotalPreorder(cmp) && Sorted(cmp, a)
    ensures Class(cmp, x, Merge(cmp, a, b)) == Class(cmp, x, a) + Class(cmp, x, b)
    decreases |a| + |b|
  {
    if a != [] && b != [] {
      if cmp(a[0], b[0]) <= 0 {
        MergeStable(cmp, x, a[1..], b);
        ClassHead(cmp, x, a, Merge(cmp, a[1..], b));
      } else {
        MergeStable(cmp, x, a, b[1..]);
        ClassHead(cmp, x, b, Merge(cmp, a, b[1..]));
        if Equivalent(cmp, x, b[0]) {
          forall y | y in a
            ensures !Equivalent(cmp, x, y)
          {
            assert Leq(cmp, a[0], y);
            assert !Leq(cmp, a[0], b[0]);
          }
          ClassEmpty(cmp, x, a);
        }
      }
    }
  }

  /** A pass merges the first two runs and goes on with the rest. */
  lemma PassParts(cmp: Comparator, s: seq<Ptr>, k: nat) returns (a: seq<Ptr>, b: seq<Ptr>, c: seq<Ptr>)
    requires k > 0 && s != [] && RunsSorted(cmp, s, k)
    ensures s == (a + b) + c && |c| < |s| && Sorted(cmp, a) && RunsSorted(cmp, c, k)
    ensures Pass(cmp, s, k) == Merge(cmp, a, b) + Pass(cmp, c, k)
  {
    var m, n := Min(k, |s|), Min(2 * k, |s|);
    a, b, c := s[..m], s[m..n], s[n..];
    var rest := s[m..];
    if rest != [] {
      assert rest[Min(k, |rest|)..] == c;
    }
    ThreeParts(s, m, n);
  }

  lemma {:induction false} PassStable(cmp: Comparator, x: Ptr, s: seq<Ptr>, k: nat)
    requires k > 0 && TotalPreorder(cmp) && RunsSorted(cmp, s, k)
    ensures Class(cmp, x, Pass(cmp, s, k)) == Class(cmp, x, s)
    decreases |s|
  {
    if s != [] {
      var a, b, c := PassParts(cmp, s, k);
      PassStable(cmp, x, c, k);
      MergedClass(cmp, x, a, b, c, Pass(cmp, c, k));
    }
  }

  lemma MergedClass(cmp: Comparator, x: Ptr, a: seq<Ptr>, b: seq<Ptr>, c: seq<Ptr>, d: seq<Ptr>)
    requires TotalPreorder(cmp) && Sorted(cmp, a) && Class(cmp, x, d) == Class(cmp, x, c)
    ensures Class(cmp, x, Merge(cmp, a, b) + d) == Class(cmp, x, (a + b) + c)
  {
    MergeStable(cmp, x, a, b);
    ClassConcat(cmp, x, Merge(cmp, a, b), d);
    ClassConcat(cmp, x, a, b);
    ClassConcat(cmp, x, a + b, c);
  }

  /** The sort ends with one run that is the whole list: sorted, same elements, stable. */
  lemma {:induction false} SortFromCorrect(cmp: Comparator, s: seq<Ptr>, k: nat)
    requires k > 0 && TotalPreorder(cmp) && RunsSorted(cmp, s, k)
    ensures Sorted(cmp, SortFrom(cmp, s, k))
    ensures StablePermutation(cmp, s, SortFrom(cmp, s, k))
    decreases |s| - k
  {
    var t := Pass(cmp, s, k);
    PassElements(cmp, s, k);
    PassLength(cmp, s, k);
    PassSortsRuns(cmp, s, k);
    forall x ensures Class(cmp, x, s) == Class(cmp, x, t) {
      PassStable(cmp, x, s, k);
    }
    if |s| <= 2 * k {
      assert t != [] ==> t[..Min(2 * k, |t|)] == t;
    } else {
      SortFromCorrect(cmp, t, 2 * k);
    }
  }

  /** HASH_SRT starts with runs of length one. */
  lemma SortCorrect(cmp: Comparator, s: seq<Ptr>)
    requires TotalPreorder(cmp)
    ensures Sorted(cmp, SortFrom(cmp, s, 1))
    ensures StablePermutation(cmp, s, SortFrom(cmp, s, 1))
  {
    RunsOfOne(cmp, s);
    SortFromCorrect(cmp, s, 1);
  }

  // ---- the stable sort is unique ----

  /** A plain sort: insert from the back, before the first element that is not smaller. */
  function Insert(cmp: Comparator, x: Ptr, t: seq<Ptr>): seq<Ptr> {
    if t == [] || cmp(x, t[0]) <= 0 then [x] + t else [t[0]] + Insert(cmp, x, t[1..])
  }

  function InsertionSort(cmp: Comparator, s: seq<Ptr>): seq<Ptr> {
    if s == [] then [] else Insert(cmp, s[0], InsertionSort(cmp, s[1..]))
  }

  lemma {:induction false} InsertElements(cmp: Comparator, x: Ptr, t: seq<Ptr>)
    ensures multiset(Insert(cmp, x, t)) == multiset([x]) + multiset(t)
  {
    if t != [] && cmp(x, t[0]) > 0 {
      InsertElements(cmp, x, t[1..]);
      assert t == [t[0]] + t[1..];
    }
  }

  lemma {:induction false} InsertSorted(cmp: Comparator, x: Ptr, t: seq<Ptr>)
    requires TotalPreorder(cmp) && Sorted(cmp, t)
    ensures Sorted(cmp, Insert(cmp, x, t))
  {
    if t == [] {
    } else if cmp(x, t[0]) <= 0 {
      assert Leq(cmp, x, t[0]);
      forall y | y in t ensures Leq(cmp, x, y) {
        var i :| 0 <= i < |t| && t[i] == y;
        if i > 0 { assert Leq(cmp, t[0], t[i]); }
      }
      SortedCons(cmp, x, t);
    } else {
      assert Leq(cmp, t[0], x);
      InsertSorted(cmp, x, t[1..]);
      var rest := Insert(cmp, x, t[1..]);
      InsertElements(cmp, x, t[1..]);
      forall y | y in rest ensures Leq(cmp, t[0], y) {
        assert y in multiset(rest);
        if y != x {
          assert y in multiset(t[1..]);
          var i :| 0 <= i < |t[1..]| && t[1..][i] == y;
          assert t[i + 1] == y;
        }
      }
      SortedCons(cmp, t[0], rest);
    }
  }

  lemma Swap(a: seq<Ptr>, b: seq<Ptr>, c: seq<Ptr>)
    requires a == [] || b == []
    ensures a + (b + c) == b + (a + c)
  {
  }

  lemma ClassCons(cmp: Comparator, c: Ptr, x: Ptr, t: seq<Ptr>)
    ensures Class(cmp, c, [x] + t) == Only(cmp, c, x) + Class(cmp, c, t)
  {
    assert ([x] + t)[1..] == t;
  }

  /** `[x]` if `x` belongs to the class of `c`. */
  ghost function Only(cmp: Comparator, c: Ptr, x: Ptr): seq<Ptr> {
    if Equivalent(cmp, c, x) then [x] else []
  }

  lemma Apart(cmp: Comparator, c: Ptr, x: Ptr, y: Ptr)
    requires TotalPreorder(cmp) && !Leq(cmp, x, y)
    ensures Only(cmp, c, x) == [] || Only(cmp, c, y) == []
  {
  }

  lemma {:induction false} InsertClass(cmp: Comparator, c: Ptr, x: Ptr, t: seq<Ptr>)
    requires TotalPreorder(cmp)
    ensures Class(cmp, c, Insert(cmp, x, t)) == Only(cmp, c, x) + Class(cmp, c, t)
  {
    if t == [] || cmp(x, t[0]) <= 0 {
      ClassCons(cmp, c, x, t);
    } else {
      var y, rest := t[0], t[1..];
      InsertClass(cmp, c, x, rest);
      ClassCons(cmp, c, y, Insert(cmp, x, rest));
      ClassCons(cmp, c, y, rest);
      assert t == [y] + rest;
      Apart(cmp, c, x, y);
      Swap(Only(cmp, c, y), Only(cmp, c, x), Class(cmp, c, rest));
    }
  }

  lemma {:induction false} InsertionSortCorrect(cmp: Comparator, s: seq<Ptr>)
    requires TotalPreorder(cmp)
    ensures Sorted(cmp, InsertionSort(cmp, s)) && StablePermutation(cmp, s, InsertionSort(cmp, s))
  {
    if s != [] {
      var x, t := s[0], InsertionSort(cmp, s[1..]);
      InsertionSortCorrect(cmp, s[1..]);
      InsertSorted(cmp, x, t);
      InsertElements(cmp, x, t);
      assert s == [x] + s[1..];
      forall c ensures Class(cmp, c, s) == Class(cmp, c, Insert(cmp, x, t)) {
        InsertClass(cmp, c, x, t);
        ClassCons(cmp, c, x, s[1..]);
      }
    }
  }

  lemma SameTail(h: seq<Ptr>, a: seq<Ptr>, b: seq<Ptr>)
    requires h + a == h + b
    ensures a == b
  {
    assert (h + a)[|h|..] == a && (h + b)[|h|..] == b;
  }

  /** Two sorted sequences with the same classes are the same. */
  lemma {:induction false} SortedUnique(cmp: Comparator, s: seq<Ptr>, t: seq<Ptr>)
    requires TotalPreorder(cmp) && Sorted(cmp, s) && Sorted(cmp, t) && StablePermutation(cmp, s, t)
    ensures s == t
  {
    if s == [] {
      assert |multiset(t)| == 0;
    } else {
      assert |multiset(t)| == |multiset(s)| == |s|;
      FirstEqual(cmp, s, t);
      assert s == [s[0]] + s[1..] && t == [t[0]] + t[1..];
      forall x ensures Class(cmp, x, s[1..]) == Class(cmp, x, t[1..]) {
        ClassCons(cmp, x, s[0], s[1..]);
        ClassCons(cmp, x, s[0], t[1..]);
        SameTail(Only(cmp, x, s[0]), Class(cmp, x, s[1..]), Class(cmp, x, t[1..]));
      }
      assert multiset(s[1..]) == multiset(s) - multiset([s[0]]) == multiset(t[1..]);
      SortedUnique(cmp, s[1..], t[1..]);
    }
  }

  lemma FirstEqual(cmp: Comparator, s: seq<Ptr>, t: seq<Ptr>)
    requires TotalPreorder(cmp) && Sorted(cmp, s) && Sorted(cmp, t) && StablePermutation(cmp, s, t) && s != [] && t != []
    ensures s[0] == t[0]
  {
    assert t[0] in multiset(t) && t[0] in multiset(s) && s[0] in multiset(s) && s[0] in multiset(t);
    var i :| 0 <= i < |s| && s[i] == t[0];
    var j :| 0 <= j < |t| && t[j] == s[0];
    assert Leq(cmp, s[0], s[i]) && Leq(cmp, t[0], t[j]);
    ClassHead(cmp, s[0], s, s[1..]);
    ClassHead(cmp, s[0], t, t[1..]);
    assert Class(cmp, s[0], s) == Class(cmp, s[0], t);
    assert Class(cmp, s[0], s)[0] == s[0] && Class(cmp, s[0], t)[0] == t[0];
  }

  /** For every total preorder the passes of HASH_SRT give the same list as insertion sort. */
  lemma SortIsInsertionSort(cmp: Comparator, s: seq<Ptr>)
    requires TotalPreorder(cmp)
    ensures SortFrom(cmp, s, 1) == InsertionSort(cmp, s)
  {
    SortCorrect(cmp, s);
    InsertionSortCorrect(cmp, s);
    var a, b := SortFrom(cmp, s, 1), InsertionSort(cmp, s);
    forall x ensures Class(cmp, x, a) == Class(cmp, x, b) {
      assert Class(cmp, x, s) == Class(cmp, x, a);
      assert Class(cmp, x, s) == Class(cmp, x, b);
    }
    SortedUnique(cmp, a, b);
  }
}
