/** Whole runs of a uthash table against a plain map and a plain list: any sequence of
    lookups, find-then-add, find-then-delete and sorts gives the answers the map gives
    and the application order the list has. */
module UthashRuns {
  import opened Words
  import opened MergeSort
  import opened PoolList
  import opened HashChains
  import opened Uthash

  datatype Op<!Key> = Put(k: Key, p: Ptr) | Del(k: Key) | Get(k: Key) | Srt(cmp: Comparator)

  /** The reference: a map from keys to handles and the plain list of the handles. */
  datatype Ref<!Key> = Ref(items: map<Key, Ptr>, order: seq<Ptr>)

  ghost function Remove(s: seq<Ptr>, p: Ptr): seq<Ptr> {
    if s == [] then [] else if s[0] == p then s[1..] else [s[0]] + Remove(s[1..], p)
  }

  /** Insertion sort where the comparator is a total preorder; whatever the passes give otherwise. */
  ghost function PlainSort(cmp: Comparator, s: seq<Ptr>): seq<Ptr> {
    if TotalPreorder(cmp) then InsertionSort(cmp, s) else SortFrom(cmp, s, 1)
  }

  /** One operation on the reference, the handles being those of a pool of `n` slots. */
  ghost function Step<Key>(r: Ref<Key>, op: Op<Key>, n: nat): Ref<Key> {
    match op
    case Put(k, p) =>
      if k !in r.items && p !in r.order && 0 < p < n then Ref(r.items[k := p], r.order + [p]) else r
    case Del(k) =>
      if k in r.items then Ref(r.items - {k}, Remove(r.order, r.items[k])) else r
    case Get(_) => r
    case Srt(cmp) => r.(order := PlainSort(cmp, r.order))
  }

  ghost function Answer<Key>(r: Ref<Key>, op: Op<Key>): Ptr {
    match op
    case Put(k, _) => if k in r.items then r.items[k] else 0
    case Del(k) => if k in r.items then r.items[k] else 0
    case Get(k) => if k in r.items then r.items[k] else 0
    case Srt(_) => 0
  }

  ghost function After<Key>(ops: seq<Op<Key>>, n: nat): Ref<Key> {
    if ops == [] then Ref(map[], []) else Step(After(ops[..|ops| - 1], n), ops[|ops| - 1], n)
  }

  lemma WithoutTail(s: seq<Ptr>, i: nat)
    requires 0 < i < |s|
    ensures Without(s, i) == [s[0]] + Without(s[1..], i - 1)
  {
  }

  lemma {:induction false} RemoveAt(s: seq<Ptr>, i: nat)
    requires Distinct(s) && i < |s|
    ensures Remove(s, s[i]) == Without(s, i)
  {
    if i > 0 {
      assert s[0] != s[i];
      RemoveAt(s[1..], i - 1);
      WithoutTail(s, i);
    }
  }

  lemma SortsPlainly(cmp: Comparator, s: seq<Ptr>)
    ensures SortFrom(cmp, s, 1) == PlainSort(cmp, s)
  {
    if TotalPreorder(cmp) {
      SortIsInsertionSort(cmp, s);
    }
  }

  /** The map and the items agree; in particular no two items share a key. */
  ghost predicate Agrees<Key>(m: map<Key, Ptr>, key: seq<Key>, app: seq<Ptr>) {
    && InPool(|key|, app)
    && (forall k :: k in m ==> m[k] in app && m[k] < |key| && key[m[k]] == k)
    && (forall p :: p in app ==> p < |key| && key[p] in m && m[key[p]] == p)
  }

  lemma AgreesPut<Key>(m: map<Key, Ptr>, key: seq<Key>, app: seq<Ptr>, k: Key, p: Ptr)
    requires Agrees(m, key, app) && k !in m && p !in app && 0 < p < |key|
    ensures Agrees(m[k := p], key[p := k], app + [p])
  {
    var m', key', app' := m[k := p], key[p := k], app + [p];
    assert app'[|app|] == p;
    forall q | q in app'
      ensures q < |key'| && key'[q] in m' && m'[key'[q]] == q
    {
      if q != p {
        assert q in app;
      }
    }
    forall j | j in m'
      ensures m'[j] in app' && m'[j] < |key'| && key'[m'[j]] == j
    {
      if j != k {
        assert m[j] in app;
      }
    }
  }

  lemma AgreesDel<Key>(m: map<Key, Ptr>, key: seq<Key>, app: seq<Ptr>, k: Key, i: nat)
    requires Agrees(m, key, app) && Distinct(app) && i < |app| && k in m && m[k] == app[i]
    ensures Agrees(m - {k}, key, Without(app, i))
  {
    WithoutMembers(app, i);
    var app' := Without(app, i);
    forall j | 0 <= j < |app'|
      ensures 0 < app'[j] < |key|
    {
      assert app'[j] == app[if j < i then j else j + 1];
    }
  }

  lemma AgreesSort<Key>(m: map<Key, Ptr>, key: seq<Key>, app: seq<Ptr>, app': seq<Ptr>)
    requires Agrees(m, key, app) && multiset(app) == multiset(app')
    ensures Agrees(m, key, app')
  {
    forall p
      ensures p in app <==> p in app'
    {
      assert p in app <==> p in multiset(app);
      assert p in app' <==> p in multiset(app');
    }
    forall i | 0 <= i < |app'|
      ensures 0 < app'[i] < |key|
    {
      assert app'[i] in app;
      var j :| 0 <= j < |app| && app[j] == app'[i];
    }
  }

  lemma FindAgrees<Key>(m: map<Key, Ptr>, key: seq<Key>, app: seq<Ptr>, k: Key, out: Ptr)
    requires Agrees(m, key, app)
    requires out == 0 <==> forall p :: p in app ==> key[p] != k
    requires out != 0 ==> out in app && key[out] == k
    ensures out == if k in m then m[k] else 0
  {
    if k in m {
      assert m[k] in app && key[m[k]] == k;
    }
  }

  lemma NotNull<Key>(m: map<Key, Ptr>, key: seq<Key>, app: seq<Ptr>, k: Key)
    requires Agrees(m, key, app)
    ensures k in m ==> m[k] != 0
    ensures k !in m ==> m - {k} == m
  {
    if k in m {
      var i :| 0 <= i < |app| && app[i] == m[k];
    }
  }

  ghost function Slots(n: nat): set<Ptr> {
    if n <= 1 then {} else Slots(n - 1) + {n - 1}
  }

  lemma {:induction false} SlotsSize(n: nat, p: Ptr)
    ensures p in Slots(n) <==> 0 < p < n
    ensures n > 0 ==> |Slots(n)| == n - 1
  {
    if n > 1 {
      SlotsSize(n - 1, p);
      SlotsSize(n - 1, n - 1);
    }
  }

  /** A pool of `n` slots holds fewer than `n` items. */
  lemma FitsPool(n: nat, app: seq<Ptr>)
    requires InPool(n, app) && Distinct(app) && n > 0
    ensures |app| < n
  {
    DistinctSize(app);
    SlotsSize(n, 0);
    forall p | p in Members(app)
      ensures p in Slots(n)
    {
      var i :| 0 <= i < |app| && app[i] == p;
      SlotsSize(n, p);
    }
    SubsetSize(Members(app), Slots(n));
  }

  lemma {:induction false} SubsetSize(a: set<Ptr>, b: set<Ptr>)
    requires a <= b
    ensures |a| <= |b|
  {
    if a != {} {
      var x :| x in a;
      SubsetSize(a - {x}, b - {x});
    }
  }

  /** The table, the bookkeeping of used handles and the map are in step. */
  ghost predicate InStep<Key>(t: Table<Key>, used: set<Ptr>, r: Ref<Key>, n: nat)
    reads t
  {
    t.Valid() && Agrees(r.items, t.key, t.app) && t.app == r.order && used == Members(t.app) && |t.key| == n
  }

  /** HASH_FIND, then HASH_ADD if the key was absent and the handle is free. */
  method DoPut<Key(==)>(t: Table<Key>, k: Key, p: Ptr, used: set<Ptr>, ghost r: Ref<Key>, ghost n: nat)
    returns (out: Ptr, used': set<Ptr>)
    requires InStep(t, used, r, n)
    modifies t
    ensures InStep(t, used', Step(r, Put(k, p), n), n) && out == Answer(r, Put(k, p))
  {
    used' := used;
    out := t.Find(k);
    FindAgrees(r.items, t.key, t.app, k, out);
    NotNull(r.items, t.key, t.app, k);
    if out == 0 && p !in used && 0 < p < |t.key| {
      AgreesPut(r.items, t.key, t.app, k, p);
      t.Add(p, k);
      used' := used + {p};
    }
  }

  lemma DelStep<Key>(r: Ref<Key>, key: seq<Key>, app: seq<Ptr>, k: Key, i: nat, n: nat)
    requires Agrees(r.items, key, app) && Distinct(app) && app == r.order
    requires i < |app| && k in r.items && r.items[k] == app[i]
    ensures Step(r, Del(k), n) == Ref(r.items - {k}, Without(app, i))
    ensures Agrees(r.items - {k}, key, Without(app, i))
    ensures Members(Without(app, i)) == Members(app) - {app[i]}
  {
    AgreesDel(r.items, key, app, k, i);
    WithoutMembers(app, i);
    RemoveAt(app, i);
  }

  /** HASH_FIND, then HASH_DEL if the key was present. */
  method DoDel<Key(==)>(t: Table<Key>, k: Key, used: set<Ptr>, ghost r: Ref<Key>, ghost n: nat)
    returns (out: Ptr, used': set<Ptr>)
    requires InStep(t, used, r, n)
    modifies t
    ensures InStep(t, used', Step(r, Del(k), n), n) && out == Answer(r, Del(k))
  {
    used' := used;
    out := t.Find(k);
    FindAgrees(r.items, t.key, t.app, k, out);
    NotNull(r.items, t.key, t.app, k);
    if out != 0 {
      ghost var i :| 0 <= i < |t.app| && t.app[i] == out;
      DelStep(r, t.key, t.app, k, i, n);
      t.Delete(out, i);
      used' := used - {out};
    }
  }

  method DoSort<Key(==)>(t: Table<Key>, cmp: Comparator, ghost used: set<Ptr>, ghost r: Ref<Key>, ghost n: nat)
    requires InStep(t, used, r, n) && n <= 0x1_0000_0000
    modifies t
    ensures InStep(t, used, Step(r, Srt(cmp), n), n)
  {
    ghost var before := t.app;
    FitsPool(n, t.app);
    t.Sort(cmp);
    SortsPlainly(cmp, before);
    AgreesSort(r.items, t.key, before, t.app);
    t.SameItems(before, t.app);
  }

  method Perform<Key(==)>(t: Table<Key>, op: Op<Key>, used: set<Ptr>, ghost r: Ref<Key>, ghost n: nat)
    returns (out: Ptr, used': set<Ptr>)
    requires InStep(t, used, r, n) && n <= 0x1_0000_0000
    modifies t
    ensures InStep(t, used', Step(r, op, n), n) && out == Answer(r, op)
  {
    match op
    case Put(k, p) =>
      out, used' := DoPut(t, k, p, used, r, n);
    case Del(k) =>
      out, used' := DoDel(t, k, used, r, n);
    case Get(k) =>
      out := t.Find(k);
      used' := used;
      FindAgrees(r.items, t.key, t.app, k, out);
    case Srt(cmp) =>
      DoSort(t, cmp, used, r, n);
      out, used' := 0, used;
  }

  ghost predicate Answered<Key>(outs: seq<Ptr>, ops: seq<Op<Key>>, n: nat) {
    |outs| <= |ops|
    && forall i {:trigger outs[i]} :: 0 <= i < |outs| ==> outs[i] == Answer(After(ops[..i], n), ops[i])
  }

  lemma AfterNext<Key>(ops: seq<Op<Key>>, i: nat, n: nat)
    requires i < |ops|
    ensures After(ops[..i + 1], n) == Step(After(ops[..i], n), ops[i], n)
  {
    assert ops[..i + 1][..i] == ops[..i];
  }

  /** From an empty table, every run of operations answers as the plain map does and
      leaves the application order that the plain list has. */
  method Run<Key(==)>(hash: Key -> Word, keys: seq<Key>, ops: seq<Op<Key>>) returns (outs: seq<Ptr>, order: seq<Ptr>)
    requires 0 < |keys| <= 0x1_0000_0000
    ensures |outs| == |ops| && Answered(outs, ops, |keys|)
    ensures order == After(ops, |keys|).order
  {
    var t := new Table(hash, keys);
    var used: set<Ptr> := {};
    outs := [];
    for i := 0 to |ops|
      invariant |outs| == i && Answered(outs, ops, |keys|)
      invariant InStep(t, used, After(ops[..i], |keys|), |keys|)
    {
      var out;
      AfterNext(ops, i, |keys|);
      out, used := Perform(t, ops[i], used, After(ops[..i], |keys|), |keys|);
      outs := outs + [out];
    }
    order := t.Iterate();
    assert ops[..|ops|] == ops;
  }
}
