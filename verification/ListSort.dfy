/** HASH_SRT of include/uthash.h: the bottom-up mergesort on the application-order
    links, proved to compute `MergeSort.SortFrom` on the list it is given. */
module ListSort {
  import opened MergeSort
  import opened PoolList

  /** `next` runs through `s`; where the last handle points is left open. */
  ghost predicate Path(nx: seq<Ptr>, s: seq<Ptr>) {
    InPool(|nx|, s)
    && forall i {:trigger nx[s[i]]} :: 0 <= i < |s| - 1 ==> nx[s[i]] == s[i + 1]
  }

  /** The list built so far in a pass, with its first and last handle. */
  ghost predicate Built(nx: seq<Ptr>, pv: seq<Ptr>, out: seq<Ptr>, list: Ptr, tail: Ptr) {
    |nx| == |pv| && Path(nx, out) && Backward(pv, out) && list == First(out) && tail == Last(out)
  }

  lemma PathFrame(nx: seq<Ptr>, nx': seq<Ptr>, s: seq<Ptr>)
    requires Path(nx, s) && |nx'| == |nx|
    requires forall i :: 0 <= i < |s| ==> nx'[s[i]] == nx[s[i]]
    ensures Path(nx', s)
    ensures Forward(nx, s) ==> Forward(nx', s)
  {
  }

  /** Appending `e` to the list built so far: `tail->next = e` and `e->prev = tail`. */
  lemma Emit(nx: seq<Ptr>, pv: seq<Ptr>, out: seq<Ptr>, list: Ptr, tail: Ptr, e: Ptr, nx': seq<Ptr>)
    requires Built(nx, pv, out, list, tail) && Distinct(out) && e !in out && 0 < e < |nx|
    requires nx' == if tail != 0 then nx[tail := e] else nx
    ensures Built(nx', pv[e := tail], out + [e], if tail != 0 then list else e, e)
  {
    var t := out + [e];
    var pv' := pv[e := tail];
    forall i | 0 <= i < |t|
      ensures 0 < t[i] < |nx|
      ensures i + 1 < |t| ==> nx'[t[i]] == t[i + 1]
      ensures pv'[t[i]] == if i > 0 then t[i - 1] else 0
    {
      if i < |out| {
        assert t[i] == out[i] != e;
        assert i + 1 < |out| ==> nx[out[i]] == out[i + 1];
        assert pv[out[i]] == if i > 0 then out[i - 1] else 0;
        assert out[|out| - 1] > 0;
      }
    }
    assert out != [] ==> out[0] > 0;
  }

  /** The handles of `s` keep their `next` when `tail`, which is not among them, is written. */
  lemma KeepsNext(nx: seq<Ptr>, s: seq<Ptr>, tail: Ptr, e: Ptr, nx': seq<Ptr>)
    requires Path(nx, s) && tail < |nx| && tail !in s
    requires nx' == if tail != 0 then nx[tail := e] else nx
    ensures Path(nx', s)
    ensures Forward(nx, s) ==> Forward(nx', s)
  {
    forall i | 0 <= i < |s|
      ensures nx'[s[i]] == nx[s[i]]
    {
      assert s[i] in s;
    }
    PathFrame(nx, nx', s);
  }

  /** Everything known in the middle of merging two runs: `out` is built, `a` and `b` are
      what is left of the runs, `c` follows them. */
  ghost predicate Merging(nx: seq<Ptr>, pv: seq<Ptr>, out: seq<Ptr>, list: Ptr, tail: Ptr,
                          a: seq<Ptr>, b: seq<Ptr>, c: seq<Ptr>,
                          p: Ptr, psize: nat, q: Ptr, qsize: nat) {
    && Built(nx, pv, out, list, tail)
    && Path(nx, a) && psize == |a| && (a != [] ==> p == a[0])
    && Forward(nx, b + c) && q == First(b + c)
    && (|b| == qsize || (c == [] && |b| <= qsize))
    && Distinct(out + a + (b + c))
  }

  lemma DistinctParts(x: seq<Ptr>, y: seq<Ptr>, z: seq<Ptr>)
    requires Distinct(x + y + z)
    ensures Distinct(x) && Distinct(y) && Distinct(z)
    ensures forall p :: p in x ==> p !in y && p !in z
    ensures forall p :: p in y ==> p !in z
  {
    var s := x + y + z;
    assert forall i :: 0 <= i < |x| ==> s[i] == x[i];
    assert forall i :: 0 <= i < |y| ==> s[|x| + i] == y[i];
    assert forall i :: 0 <= i < |z| ==> s[|x| + |y| + i] == z[i];
  }

  /** Taking the next handle from the left run. */
  lemma TakeLeft(nx: seq<Ptr>, pv: seq<Ptr>, out: seq<Ptr>, list: Ptr, tail: Ptr,
                 a: seq<Ptr>, b: seq<Ptr>, c: seq<Ptr>, p: Ptr, q: Ptr, qsize: nat, nx': seq<Ptr>)
    requires Merging(nx, pv, out, list, tail, a, b, c, p, |a|, q, qsize) && a != []
    requires nx' == if tail != 0 && tail < |nx| then nx[tail := p] else nx
    ensures p < |nx| && (tail != 0 ==> tail < |nx|)
    ensures Merging(nx', pv[p := tail], out + [p], if tail != 0 then list else p, p,
                    a[1..], b, c, nx[p], |a| - 1, q, qsize)
  {
    DistinctParts(out, a, b + c);
    assert a[0] in a && InPool(|nx|, out);
    if out != [] {
      assert out[|out| - 1] in out;
      assert 0 < out[|out| - 1] < |nx|;
    }
    Emit(nx, pv, out, list, tail, p, nx');
    assert Path(nx, a[1..]) by {
      forall i | 0 <= i < |a[1..]|
        ensures 0 < a[1..][i] < |nx|
        ensures i < |a[1..]| - 1 ==> nx[a[1..][i]] == a[1..][i + 1]
      {
        assert a[1..][i] == a[i + 1];
      }
    }
    KeepsNext(nx, a[1..], tail, p, nx');
    assert Path(nx, b + c);
    KeepsNext(nx, b + c, tail, p, nx');
    assert |a| > 1 ==> nx[a[0]] == a[1];
    assert (out + [p]) + a[1..] + (b + c) == out + a + (b + c);
  }

  /** Taking the next handle from the right run. */
  lemma TakeRight(nx: seq<Ptr>, pv: seq<Ptr>, out: seq<Ptr>, list: Ptr, tail: Ptr,
                  a: seq<Ptr>, b: seq<Ptr>, c: seq<Ptr>, p: Ptr, q: Ptr, qsize: nat, nx': seq<Ptr>)
    requires Merging(nx, pv, out, list, tail, a, b, c, p, |a|, q, qsize) && b != []
    requires nx' == if tail != 0 && tail < |nx| then nx[tail := q] else nx
    ensures q < |nx| && (tail != 0 ==> tail < |nx|) && qsize > 0
    ensures Merging(nx', pv[q := tail], out + [q], if tail != 0 then list else q, q,
                    a, b[1..], c, p, |a|, nx[q], qsize - 1)
  {
    DistinctParts(out, a, b + c);
    var d := b + c;
    assert d[0] in d && q == d[0] && d[1..] == b[1..] + c;
    if out != [] {
      assert out[|out| - 1] in out;
      assert 0 < out[|out| - 1] < |nx|;
    }
    Emit(nx, pv, out, list, tail, q, nx');
    KeepsNext(nx, a, tail, q, nx');
    assert Forward(nx, d[1..]) by {
      forall i | 0 <= i < |d[1..]|
        ensures 0 < d[1..][i] < |nx|
        ensures nx[d[1..][i]] == if i + 1 < |d[1..]| then d[1..][i + 1] else 0
      {
        assert d[1..][i] == d[i + 1];
      }
    }
    KeepsNext(nx, d[1..], tail, q, nx');
    assert nx[d[0]] == First(d[1..]);
    MoveOut(out, a, d);
  }

  lemma MoveOut(out: seq<Ptr>, a: seq<Ptr>, d: seq<Ptr>)
    requires Distinct(out + a + d) && d != []
    ensures Distinct((out + [d[0]]) + a + d[1..])
  {
    var s, t := out + a + d, (out + [d[0]]) + a + d[1..];
    var n := |out|;
    forall i, j | 0 <= i < j < |t|
      ensures t[i] != t[j]
    {
      var i' := if i < n then i else if i == n then n + |a| else if i <= n + |a| then i - 1 else i;
      var j' := if j < n then j else if j == n then n + |a| else if j <= n + |a| then j - 1 else j;
      assert t[i] == s[i'] && t[j] == s[j'] && i' != j';
    }
  }

  /** Step over at most `insize` handles: the left run is `s[..psize]`, `q` starts the rest. */
  method SplitRun(nx: seq<Ptr>, p: Ptr, insize: nat, ghost s: seq<Ptr>) returns (q: Ptr, psize: nat)
    requires Forward(nx, s) && s != [] && p == s[0] && insize > 0
    ensures psize == Min(insize, |s|) && q == First(s[psize..])
  {
    q, psize := p, 0;
    var i := 0;
    while i < insize
      invariant 0 <= i == psize <= insize && psize < |s| + 1
      invariant q == First(s[psize..])
      invariant i < insize ==> psize < |s|
    {
      psize := psize + 1;
      assert nx[s[i]] == if i + 1 < |s| then s[i + 1] else 0;
      q := nx[q];
      assert i + 1 < |s| ==> 0 < s[i + 1];
      if q == 0 {
        break;
      }
      i := i + 1;
    }
  }

  /** Merging until both runs are used up. */
  method MergeLoop(nx0: seq<Ptr>, pv0: seq<Ptr>, cmp: Comparator, p0: Ptr, psize0: nat, q0: Ptr, qsize0: nat,
                   list0: Ptr, tail0: Ptr,
                   ghost out: seq<Ptr>, ghost a0: seq<Ptr>, ghost b0: seq<Ptr>, ghost c: seq<Ptr>)
    returns (nx: seq<Ptr>, pv: seq<Ptr>, q: Ptr, list: Ptr, tail: Ptr)
    requires Merging(nx0, pv0, out, list0, tail0, a0, b0, c, p0, psize0, q0, qsize0)
    ensures |nx| == |nx0|
    ensures Built(nx, pv, out + Merge(cmp, a0, b0), list, tail) && Forward(nx, c) && q == First(c)
    ensures Distinct(out + Merge(cmp, a0, b0) + c)
  {
    nx, pv, q, list, tail := nx0, pv0, q0, list0, tail0;
    var p, psize, qsize := p0, psize0, qsize0;
    ghost var a, b, o := a0, b0, out;
    while psize != 0 || (qsize != 0 && q != 0)
      invariant |nx| == |nx0|
      invariant Merging(nx, pv, o, list, tail, a, b, c, p, psize, q, qsize)
      invariant o + Merge(cmp, a, b) == out + Merge(cmp, a0, b0)
      decreases |a| + |b|
    {
      QueueEmpty(nx, b, c, q, qsize);
      if psize != 0 && (qsize == 0 || q == 0 || cmp(p, q) <= 0) {
        MergeTakesLeft(cmp, o, a, b);
        ghost var e := p;
        p, nx, pv, list, tail := TakeP(nx, pv, list, tail, p, o, a, b, c, q, qsize);
        psize := psize - 1;
        o, a := o + [e], a[1..];
      } else {
        MergeTakesRight(cmp, o, a, b);
        ghost var e := q;
        q, nx, pv, list, tail := TakeQ(nx, pv, list, tail, q, o, a, b, c, p, qsize);
        qsize := qsize - 1;
        o, b := o + [e], b[1..];
      }
    }
    QueueEmpty(nx, b, c, q, qsize);
    MergeDone(nx, pv, o, list, tail, c, p, q, qsize);
    assert a == [] && b == [];
    assert o + Merge(cmp, a, b) == o;
  }

  lemma MergeDone(nx: seq<Ptr>, pv: seq<Ptr>, out: seq<Ptr>, list: Ptr, tail: Ptr, c: seq<Ptr>,
                  p: Ptr, q: Ptr, qsize: nat)
    ensures Merging(nx, pv, out, list, tail, [], [], c, p, 0, q, qsize) ==>
              Forward(nx, c) && q == First(c) && Distinct(out + c)
  {
    assert [] + c == c && out + [] + c == out + c;
  }

  /** One turn of the middle loop of HASH_SRT: merges the two runs at the front of `s` onto `out`. */
  method MergePair(nx0: seq<Ptr>, pv0: seq<Ptr>, cmp: Comparator, p0: Ptr, insize: nat, list0: Ptr, tail0: Ptr,
                   ghost out: seq<Ptr>, ghost s: seq<Ptr>)
    returns (nx: seq<Ptr>, pv: seq<Ptr>, p: Ptr, list: Ptr, tail: Ptr)
    requires Built(nx0, pv0, out, list0, tail0) && Forward(nx0, s) && s != [] && p0 == s[0] && insize > 0
    requires Distinct(out + s)
    ensures |nx| == |nx0|
    ensures var m, n := Min(insize, |s|), Min(2 * insize, |s|);
            var out' := out + Merge(cmp, s[..m], s[m..n]);
            Built(nx, pv, out', list, tail) && Forward(nx, s[n..]) && p == First(s[n..])
            && Distinct(out' + s[n..])
  {
    var q, psize := SplitRun(nx0, p0, insize, s);
    ghost var n := Min(2 * insize, |s|);
    StartMerge(nx0, pv0, out, list0, tail0, s, psize, n, p0, q, insize);
    nx, pv, p, list, tail := MergeLoop(nx0, pv0, cmp, p0, psize, q, insize, list0, tail0,
                                       out, s[..psize], s[psize..n], s[n..]);
  }

  /** `e = p; p = p->next`, then `e` is appended. */
  method TakeP(nx0: seq<Ptr>, pv0: seq<Ptr>, list0: Ptr, tail0: Ptr, p0: Ptr,
               ghost out: seq<Ptr>, ghost a: seq<Ptr>, ghost b: seq<Ptr>, ghost c: seq<Ptr>, ghost q: Ptr, ghost qsize: nat)
    returns (p: Ptr, nx: seq<Ptr>, pv: seq<Ptr>, list: Ptr, tail: Ptr)
    requires Merging(nx0, pv0, out, list0, tail0, a, b, c, p0, |a|, q, qsize) && a != []
    ensures |nx| == |nx0|
    ensures Merging(nx, pv, out + [p0], list, tail, a[1..], b, c, p, |a| - 1, q, qsize)
  {
    ghost var nx' := if tail0 != 0 && tail0 < |nx0| then nx0[tail0 := p0] else nx0;
    TakeLeft(nx0, pv0, out, list0, tail0, a, b, c, p0, q, qsize, nx');
    nx, pv, list := nx0, pv0, list0;
    p := nx[p0];
    if tail0 != 0 {
      nx := nx[tail0 := p0];
    } else {
      list := p0;
    }
    pv := pv[p0 := tail0];
    tail := p0;
  }

  /** `e = q; q = q->next`, then `e` is appended. */
  method TakeQ(nx0: seq<Ptr>, pv0: seq<Ptr>, list0: Ptr, tail0: Ptr, q0: Ptr,
               ghost out: seq<Ptr>, ghost a: seq<Ptr>, ghost b: seq<Ptr>, ghost c: seq<Ptr>, ghost p: Ptr, ghost qsize: nat)
    returns (q: Ptr, nx: seq<Ptr>, pv: seq<Ptr>, list: Ptr, tail: Ptr)
    requires Merging(nx0, pv0, out, list0, tail0, a, b, c, p, |a|, q0, qsize) && b != []
    ensures |nx| == |nx0| && qsize > 0
    ensures Merging(nx, pv, out + [q0], list, tail, a, b[1..], c, p, |a|, q, qsize - 1)
  {
    ghost var nx' := if tail0 != 0 && tail0 < |nx0| then nx0[tail0 := q0] else nx0;
    TakeRight(nx0, pv0, out, list0, tail0, a, b, c, p, q0, qsize, nx');
    nx, pv, list := nx0, pv0, list0;
    q := nx[q0];
    if tail0 != 0 {
      nx := nx[tail0 := q0];
    } else {
      list := q0;
    }
    pv := pv[q0 := tail0];
    tail := q0;
  }

  lemma StartMerge(nx: seq<Ptr>, pv: seq<Ptr>, out: seq<Ptr>, list: Ptr, tail: Ptr, s: seq<Ptr>,
                   m: nat, n: nat, p: Ptr, q: Ptr, k: nat)
    requires Built(nx, pv, out, list, tail) && Forward(nx, s) && s != [] && p == s[0] && Distinct(out + s)
    requires k > 0 && m == Min(k, |s|) && n == Min(2 * k, |s|) && q == First(s[m..])
    ensures Merging(nx, pv, out, list, tail, s[..m], s[m..n], s[n..], p, m, q, k)
  {
    assert s[m..n] + s[n..] == s[m..];
    assert out + s[..m] + s[m..] == out + s;
    ForwardSuffix(nx, s, m);
    PathPrefix(nx, s, m);
  }

  lemma ForwardSuffix(nx: seq<Ptr>, s: seq<Ptr>, m: nat)
    requires Forward(nx, s) && m <= |s|
    ensures Forward(nx, s[m..])
  {
    var t := s[m..];
    forall i {:trigger nx[t[i]]} | 0 <= i < |t| ensures nx[t[i]] == if i + 1 < |t| then t[i + 1] else 0 {
      assert t[i] == s[m + i];
      assert nx[s[m + i]] == if m + i + 1 < |s| then s[m + i + 1] else 0;
    }
  }

  lemma PathPrefix(nx: seq<Ptr>, s: seq<Ptr>, m: nat)
    requires Forward(nx, s) && m <= |s|
    ensures Path(nx, s[..m])
  {
    var t := s[..m];
    assert forall i {:trigger t[i]} :: 0 <= i < |t| ==> t[i] == s[i];
  }

  /** `q` is exhausted exactly when nothing of the right run is left. */
  lemma QueueEmpty(nx: seq<Ptr>, b: seq<Ptr>, c: seq<Ptr>, q: Ptr, qsize: nat)
    requires Forward(nx, b + c) && q == First(b + c)
    requires |b| == qsize || (c == [] && |b| <= qsize)
    ensures b != [] <==> qsize != 0 && q != 0
    ensures b != [] ==> q == b[0]
  {
    if b + c != [] {
      assert (b + c)[0] > 0;
    }
  }

  lemma MergeTakesLeft(cmp: Comparator, o: seq<Ptr>, a: seq<Ptr>, b: seq<Ptr>)
    requires a != [] && (b == [] || cmp(a[0], b[0]) <= 0)
    ensures (o + [a[0]]) + Merge(cmp, a[1..], b) == o + Merge(cmp, a, b)
  {
    if b == [] {
      assert a == [a[0]] + a[1..];
      assert Merge(cmp, a[1..], b) == a[1..];
    }
  }

  lemma MergeTakesRight(cmp: Comparator, o: seq<Ptr>, a: seq<Ptr>, b: seq<Ptr>)
    requires b != [] && (a == [] || cmp(a[0], b[0]) > 0)
    ensures (o + [b[0]]) + Merge(cmp, a, b[1..]) == o + Merge(cmp, a, b)
  {
    if a == [] {
      assert b == [b[0]] + b[1..];
    }
  }

  /** Between two merges of a pass: `out` has been merged, `rest` is still as it was, and the pass
      will end with `goal`. */
  ghost predicate InPass(nx: seq<Ptr>, pv: seq<Ptr>, cmp: Comparator, p: Ptr, insize: nat, list: Ptr, tail: Ptr,
                         out: seq<Ptr>, rest: seq<Ptr>, goal: seq<Ptr>) {
    && insize > 0 && Built(nx, pv, out, list, tail) && Forward(nx, rest) && p == First(rest) && Distinct(out + rest)
    && out + Pass(cmp, rest, insize) == goal
  }

  /** One turn of the middle loop, in terms of what the rest of the pass will do. */
  method PassTurn(nx0: seq<Ptr>, pv0: seq<Ptr>, cmp: Comparator, p0: Ptr, insize: nat, list0: Ptr, tail0: Ptr,
                  ghost out: seq<Ptr>, ghost rest: seq<Ptr>, ghost goal: seq<Ptr>)
    returns (nx: seq<Ptr>, pv: seq<Ptr>, p: Ptr, list: Ptr, tail: Ptr, ghost out': seq<Ptr>, ghost rest': seq<Ptr>)
    requires InPass(nx0, pv0, cmp, p0, insize, list0, tail0, out, rest, goal) && p0 != 0
    ensures |nx| == |nx0| && InPass(nx, pv, cmp, p, insize, list, tail, out', rest', goal)
    ensures |rest'| == |rest| - Min(2 * insize, |rest|) && rest != []
  {
    ghost var m, n := Min(insize, |rest|), Min(2 * insize, |rest|);
    ghost var merged := Merge(cmp, rest[..m], rest[m..n]);
    nx, pv, p, list, tail := MergePair(nx0, pv0, cmp, p0, insize, list0, tail0, out, rest);
    Associate(out, merged, Pass(cmp, rest[n..], insize));
    out', rest' := out + merged, rest[n..];
  }

  /** One pass over the list. */
  method OnePass(nx0: seq<Ptr>, pv0: seq<Ptr>, cmp: Comparator, list0: Ptr, insize: nat, ghost s: seq<Ptr>)
    returns (nx: seq<Ptr>, pv: seq<Ptr>, list: Ptr, tail: Ptr, nmerges: nat)
    requires Forward(nx0, s) && Distinct(s) && s != [] && list0 == First(s) && |nx0| == |pv0| && insize > 0
    ensures |nx| == |pv| == |nx0|
    ensures Linked(nx, pv, Pass(cmp, s, insize))
    ensures list == First(Pass(cmp, s, insize)) && tail == Last(Pass(cmp, s, insize))
    ensures nmerges <= 1 <==> |s| <= 2 * insize
  {
    nx, pv, list, tail, nmerges := PassLoop(nx0, pv0, cmp, list0, insize, s);
    if tail != 0 {
      Terminate(nx, pv, Pass(cmp, s, insize), list, tail);
      nx := nx[tail := 0];
    }
  }

  /** The middle loop: all merges of a pass. */
  method PassLoop(nx0: seq<Ptr>, pv0: seq<Ptr>, cmp: Comparator, list0: Ptr, insize: nat, ghost s: seq<Ptr>)
    returns (nx: seq<Ptr>, pv: seq<Ptr>, list: Ptr, tail: Ptr, nmerges: nat)
    requires Forward(nx0, s) && Distinct(s) && s != [] && list0 == First(s) && |nx0| == |pv0| && insize > 0
    ensures |nx| == |nx0| && Built(nx, pv, Pass(cmp, s, insize), list, tail) && Distinct(Pass(cmp, s, insize))
    ensures nmerges <= 1 <==> |s| <= 2 * insize
  {
    nx, pv := nx0, pv0;
    var p := list0;
    list, tail, nmerges := 0, 0, 0;
    ghost var out, rest, goal := [], s, Pass(cmp, s, insize);
    assert out + rest == s && out + goal == goal;
    while p != 0
      invariant |nx| == |nx0| && InPass(nx, pv, cmp, p, insize, list, tail, out, rest, goal)
      invariant Counted(nmerges, insize, |s|, |rest|)
      decreases |rest|
    {
      FirstNull(nx, rest);
      CountStep(nmerges, insize, |s|, |rest|);
      nmerges := nmerges + 1;
      nx, pv, p, list, tail, out, rest := PassTurn(nx, pv, cmp, p, insize, list, tail, out, rest, goal);
    }
    FirstNull(nx, rest);
    PassOver(cmp, insize, out, rest);
    CountEnd(nmerges, insize, |s|);
  }

  lemma PassOver(cmp: Comparator, insize: nat, out: seq<Ptr>, rest: seq<Ptr>)
    requires insize > 0 && rest == []
    ensures out + Pass(cmp, rest, insize) == out && out + rest == out
  {
    assert Pass(cmp, rest, insize) == [];
  }

  /** The merges so far, `total` the length of the list and `left` what is still to be merged. */
  ghost predicate Counted(n: nat, k: nat, total: nat, left: nat) {
    && (n == 0 ==> left == total)
    && (n == 1 ==> left == total - Min(2 * k, total))
    && (n > 1 ==> total > 2 * k)
  }

  lemma CountStep(n: nat, k: nat, total: nat, left: nat)
    requires Counted(n, k, total, left) && 0 < left && k > 0
    ensures Counted(n + 1, k, total, left - Min(2 * k, left))
  {
  }

  lemma CountEnd(n: nat, k: nat, total: nat)
    requires Counted(n, k, total, 0) && total > 0 && k > 0
    ensures n <= 1 <==> total <= 2 * k
  {
  }

  lemma FirstNull(nx: seq<Ptr>, s: seq<Ptr>)
    requires Forward(nx, s)
    ensures First(s) == 0 <==> s == []
  {
    if s != [] {
      assert s[0] > 0;
    }
  }

  lemma Terminate(nx: seq<Ptr>, pv: seq<Ptr>, out: seq<Ptr>, list: Ptr, tail: Ptr)
    requires Built(nx, pv, out, list, tail) && Distinct(out) && tail != 0
    ensures tail < |nx| && Linked(nx[tail := 0], pv, out)
  {
    assert 0 < out[|out| - 1] < |nx|;
    var nx' := nx[tail := 0];
    forall i | 0 <= i < |out|
      ensures nx'[out[i]] == if i + 1 < |out| then out[i + 1] else 0
    {
      assert i + 1 < |out| ==> nx[out[i]] == out[i + 1];
    }
  }

  /** HASH_SRT on a non-empty list: passes with run lengths 1, 2, 4, ... until one merge
      covers the list.  Run lengths are 32-bit; they never wrap while the sort goes on. */
  method SortList(nx0: seq<Ptr>, pv0: seq<Ptr>, cmp: Comparator, head0: Ptr, ghost s: seq<Ptr>)
    returns (nx: seq<Ptr>, pv: seq<Ptr>, head: Ptr, tail: Ptr)
    requires Linked(nx0, pv0, s) && s != [] && head0 == s[0] && |nx0| == |pv0| && |s| < 0x1_0000_0000
    ensures |nx| == |pv| == |nx0|
    ensures Linked(nx, pv, SortFrom(cmp, s, 1))
    ensures head == First(SortFrom(cmp, s, 1)) && tail == Last(SortFrom(cmp, s, 1))
  {
    nx, pv, head, tail := nx0, pv0, head0, 0;
    var list, insize, looping := head0, 1, true;
    ghost var cur, goal := s, SortFrom(cmp, s, 1);
    while looping
      invariant |nx| == |pv| == |nx0| && |cur| == |s| && insize > 0
      invariant looping ==> Linked(nx, pv, cur) && list == First(cur) && SortFrom(cmp, cur, insize) == goal
      invariant !looping ==> Linked(nx, pv, goal) && head == First(goal) && tail == Last(goal)
      decreases looping, |cur| - insize
    {
      var last, nmerges;
      SortFromStep(cmp, cur, insize);
      nx, pv, list, last, nmerges := OnePass(nx, pv, cmp, list, insize, cur);
      cur := Pass(cmp, cur, insize);
      if nmerges <= 1 {
        looping := false;
        tail, head := last, list;
      } else {
        insize := Double32(insize);
      }
    }
  }

  /** 32-bit doubling. */
  function Double32(x: nat): (r: nat)
    ensures 2 * x < 0x1_0000_0000 ==> r == 2 * x
  {
    (2 * x) % 0x1_0000_0000
  }

  lemma SortFromStep(cmp: Comparator, s: seq<Ptr>, k: nat)
    requires k > 0
    ensures |Pass(cmp, s, k)| == |s|
    ensures SortFrom(cmp, s, k) == if |s| <= 2 * k then Pass(cmp, s, k) else SortFrom(cmp, Pass(cmp, s, k), 2 * k)
  {
    PassLength(cmp, s, k);
  }
}
