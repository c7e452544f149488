/** Doubly linked lists threaded through a pool of handles by `next` and `prev`
    fields, seen as sequences: what appending, pushing, unlinking and foreign
    writes do to them. */
module PoolList {
  import opened MergeSort

  function First(s: seq<Ptr>): Ptr { if s == [] then 0 else s[0] }

  function Last(s: seq<Ptr>): Ptr { if s == [] then 0 else s[|s| - 1] }

  /** The handles of a list. */
  ghost function Members(s: seq<Ptr>): set<Ptr> { set p | p in s }

  ghost predicate InPool(n: nat, s: seq<Ptr>) {
    forall i {:trigger s[i]} :: 0 <= i < |s| ==> 0 < s[i] < n
  }

  ghost predicate Distinct(s: seq<Ptr>) {
    forall i, j :: 0 <= i < j < |s| ==> s[i] != s[j]
  }

  /** `next` runs through `s` in order and ends in NULL. */
  ghost predicate Forward(nx: seq<Ptr>, s: seq<Ptr>) {
    InPool(|nx|, s)
    && forall i {:trigger nx[s[i]]} :: 0 <= i < |s| ==> nx[s[i]] == (if i + 1 < |s| then s[i + 1] else 0)
  }

  /** `prev` runs back through `s` and ends in NULL. */
  ghost predicate Backward(pv: seq<Ptr>, s: seq<Ptr>) {
    InPool(|pv|, s)
    && forall i {:trigger pv[s[i]]} :: 0 <= i < |s| ==> pv[s[i]] == (if i > 0 then s[i - 1] else 0)
  }

  ghost predicate Linked(nx: seq<Ptr>, pv: seq<Ptr>, s: seq<Ptr>) {
    Forward(nx, s) && Backward(pv, s) && Distinct(s)
  }

  /** Writes to handles outside a list leave it linked. */
  lemma LinkedFrame(nx: seq<Ptr>, pv: seq<Ptr>, nx': seq<Ptr>, pv': seq<Ptr>, s: seq<Ptr>)
    requires Linked(nx, pv, s) && |nx'| == |nx| && |pv'| == |pv|
    requires forall p :: p in s ==> nx'[p] == nx[p] && pv'[p] == pv[p]
    ensures Linked(nx', pv', s)
  {
    forall i | 0 <= i < |s|
      ensures nx'[s[i]] == nx[s[i]] && pv'[s[i]] == pv[s[i]]
    {
      assert s[i] in s;
    }
  }

  lemma LinkedAppend(nx: seq<Ptr>, pv: seq<Ptr>, s: seq<Ptr>, p: Ptr)
    requires Linked(nx, pv, s) && |nx| == |pv| && 0 < p < |nx| && p !in s && s != []
    ensures Linked(nx[p := 0][Last(s) := p], pv[p := Last(s)], s + [p])
  {
    var nx', pv', t := nx[p := 0][Last(s) := p], pv[p := Last(s)], s + [p];
    forall i | 0 <= i < |t|
      ensures 0 < t[i] < |nx|
      ensures nx'[t[i]] == (if i + 1 < |t| then t[i + 1] else 0)
      ensures pv'[t[i]] == (if i > 0 then t[i - 1] else 0)
    {
      if i < |s| {
        assert t[i] == s[i] != p;
        assert nx[s[i]] == (if i + 1 < |s| then s[i + 1] else 0);
        assert pv[s[i]] == (if i > 0 then s[i - 1] else 0);
      }
    }
  }

  lemma LinkedPush(nx: seq<Ptr>, pv: seq<Ptr>, s: seq<Ptr>, p: Ptr, pv': seq<Ptr>)
    requires Linked(nx, pv, s) && |nx| == |pv| && 0 < p < |nx| && p !in s
    requires pv' == if s == [] then pv[p := 0] else pv[p := 0][s[0] := p]
    ensures Linked(nx[p := First(s)], pv', [p] + s)
  {
    var nx', t := nx[p := First(s)], [p] + s;
    forall i | 0 <= i < |t|
      ensures 0 < t[i] < |nx|
      ensures nx'[t[i]] == (if i + 1 < |t| then t[i + 1] else 0)
      ensures pv'[t[i]] == (if i > 0 then t[i - 1] else 0)
    {
      if i > 0 {
        assert t[i] == s[i - 1] && s[i - 1] != p;
        assert nx[s[i - 1]] == (if i < |s| then s[i] else 0);
        assert pv[s[i - 1]] == (if i - 1 > 0 then s[i - 2] else 0);
      }
    }
  }

  function Without(s: seq<Ptr>, i: nat): seq<Ptr>
    requires i < |s|
  {
    s[..i] + s[i + 1..]
  }

  lemma LinkedRemove(nx: seq<Ptr>, pv: seq<Ptr>, s: seq<Ptr>, i: nat, nx': seq<Ptr>, pv': seq<Ptr>)
    requires Linked(nx, pv, s) && |nx| == |pv| && i < |s|
    requires nx' == if i > 0 then nx[s[i - 1] := nx[s[i]]] else nx
    requires pv' == if i + 1 < |s| then pv[s[i + 1] := pv[s[i]]] else pv
    ensures Linked(nx', pv', Without(s, i))
  {
    var t := Without(s, i);
    forall j {:trigger nx'[t[j]]} | 0 <= j < |t|
      ensures 0 < t[j] < |nx| && nx'[t[j]] == (if j + 1 < |t| then t[j + 1] else 0)
    {
      NextAfterRemove(nx, s, i, nx', j);
    }
    forall j {:trigger pv'[t[j]]} | 0 <= j < |t|
      ensures 0 < t[j] < |pv| && pv'[t[j]] == (if j > 0 then t[j - 1] else 0)
    {
      PrevAfterRemove(pv, s, i, pv', j);
    }
    DistinctWithout(s, i);
  }

  lemma DistinctWithout(s: seq<Ptr>, i: nat)
    requires Distinct(s) && i < |s|
    ensures Distinct(Without(s, i))
  {
  }

  lemma NextAfterRemove(nx: seq<Ptr>, s: seq<Ptr>, i: nat, nx': seq<Ptr>, j: nat)
    requires Forward(nx, s) && Distinct(s) && i < |s| && j < |s| - 1
    requires nx' == if i > 0 then nx[s[i - 1] := nx[s[i]]] else nx
    ensures var t := Without(s, i); 0 < t[j] < |nx| && nx'[t[j]] == (if j + 1 < |t| then t[j + 1] else 0)
  {
    var k := if j < i then j else j + 1;
    assert Without(s, i)[j] == s[k];
    assert nx[s[k]] == (if k + 1 < |s| then s[k + 1] else 0);
    assert nx[s[i]] == (if i + 1 < |s| then s[i + 1] else 0);
  }

  lemma PrevAfterRemove(pv: seq<Ptr>, s: seq<Ptr>, i: nat, pv': seq<Ptr>, j: nat)
    requires Backward(pv, s) && Distinct(s) && i < |s| && j < |s| - 1
    requires pv' == if i + 1 < |s| then pv[s[i + 1] := pv[s[i]]] else pv
    ensures var t := Without(s, i); 0 < t[j] < |pv| && pv'[t[j]] == (if j > 0 then t[j - 1] else 0)
  {
    var k := if j < i then j else j + 1;
    assert Without(s, i)[j] == s[k];
    assert pv[s[k]] == (if k > 0 then s[k - 1] else 0);
    assert pv[s[i]] == (if i > 0 then s[i - 1] else 0);
  }

  lemma WithoutMembers(s: seq<Ptr>, i: nat)
    requires i < |s| && Distinct(s)
    ensures forall p :: p in Without(s, i) <==> p in s && p != s[i]
  {
    forall p | p in s && p != s[i]
      ensures p in Without(s, i)
    {
      var j :| 0 <= j < |s| && s[j] == p;
      assert p == Without(s, i)[if j < i then j else j - 1];
    }
  }
}
