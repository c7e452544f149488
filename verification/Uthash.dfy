/** A uthash table (include/uthash.h): an application-order list and hashed bucket
    chains threaded through a pool of handles.  A pointer is an index into the pool,
    0 is NULL, and each handle field is a sequence over the pool. */
module Uthash {
  import opened Words
  import opened MergeSort
  import opened PoolList
  import opened HashChains
  import opened ListSort

  const HASH_INITIAL_NUM_BUCKETS: nat := 32
  const HASH_INITIAL_NUM_BUCKETS_LOG2: nat := 5
  const HASH_BKT_CAPACITY_THRESH: nat := 10

  class Table<Key(==)> {
    const hash: Key -> Word

    // handle fields
    var key: seq<Key>
    var hashv: seq<Word>
    var prev: seq<Ptr>
    var next: seq<Ptr>
    var hhPrev: seq<Ptr>
    var hhNext: seq<Ptr>

    // the user's head pointer and the table
    var head: Ptr
    var tail: Ptr
    var buckets: seq<Bucket>
    var log2NumBuckets: nat
    var numItems: nat
    var idealChainMaxlen: nat
    var nonidealItems: nat
    var ineffExpands: nat
    var noexpand: bool

    /** Handles in application order, and handles of each bucket. */
    ghost var app: seq<Ptr>
    ghost var chains: seq<seq<Ptr>>

    ghost predicate PoolOk()
      reads this`key, this`hashv, this`prev, this`next, this`hhPrev, this`hhNext
    {
      |key| == |hashv| == |prev| == |next| == |hhPrev| == |hhNext| > 0
    }

    ghost predicate AppOk()
      reads this`next, this`prev, this`app, this`head, this`tail, this`numItems
    {
      Linked(next, prev, app) && head == First(app) && numItems == |app|
      && (app != [] ==> tail == Last(app))
    }

    ghost predicate BucketsOk()
      reads this`buckets, this`log2NumBuckets, this`hashv, this`hhNext, this`hhPrev, this`chains, this`app
    {
      |buckets| == Pow2(log2NumBuckets)
      && ChainsOk(hashv, hhNext, hhPrev, buckets, chains)
      && Partition(hashv, chains, Members(app))
    }

    ghost predicate KeysOk()
      reads this`key, this`hashv, this`prev, this`next, this`hhPrev, this`hhNext, this`app
      requires PoolOk()
    {
      forall p :: p in app ==> p < |key| && hashv[p] == hash(key[p])
    }

    /** What HASH_FSCK checks, and that every handle is in the bucket it hashes to. */
    ghost predicate Valid()
      reads this
    {
      PoolOk() && AppOk() && KeysOk() && (app != [] ==> BucketsOk())
    }

    constructor (hash: Key -> Word, keys: seq<Key>)
      requires |keys| > 0
      ensures Valid() && app == [] && this.hash == hash && key == keys
    {
      this.hash := hash;
      key := keys;
      hashv := seq(|keys|, _ => 0);
      prev := seq(|keys|, _ => 0);
      next := seq(|keys|, _ => 0);
      hhPrev := seq(|keys|, _ => 0);
      hhNext := seq(|keys|, _ => 0);
      head, tail, buckets, log2NumBuckets, numItems := 0, 0, [], 0, 0;
      idealChainMaxlen, nonidealItems, ineffExpands, noexpand := 0, 0, 0, false;
      app, chains := [], [];
    }

    /** HASH_FIND: NULL exactly when no item has the key, else an item that has it. */
    method Find(k: Key) returns (out: Ptr)
      requires Valid()
      ensures out == 0 <==> forall p :: p in app ==> key[p] != k
      ensures out != 0 ==> out in app && key[out] == k
    {
      out := 0;
      if head != 0 {
        var hashval := hash(k);
        var b := ToBucket(hashval, |buckets|);
        ghost var c := chains[b];
        assert ChainOk(hashv, hhNext, hhPrev, buckets[b], c, b, |buckets|);
        ghost var i := 0;
        out := buckets[b].hhHead;
        while out != 0
          invariant 0 <= i <= |c|
          invariant out == if i < |c| then c[i] else 0
          invariant forall j :: 0 <= j < i ==> key[c[j]] != k
          decreases |c| - i
        {
          assert c[i] in c;
          if hashv[out] == hashval && key[out] == k {
            return;
          }
          assert hhNext[c[i]] == if i + 1 < |c| then c[i + 1] else 0;
          out := hhNext[out];
          i := i + 1;
        }
        forall p | p in app
          ensures key[p] != k
        {
          assert p in Members(app);
          assert p in chains[ToBucket(hashv[p], |buckets|)];
        }
      }
    }

    // ---- expansion ----

    /** The multipliers and the nonideal count of a half-filled new bucket array. */
    ghost predicate StatsOk(bs: seq<Bucket>, cs: seq<seq<Ptr>>)
      reads this`nonidealItems, this`idealChainMaxlen
    {
      nonidealItems == Nonideal(cs, idealChainMaxlen)
      && forall b :: 0 <= b < |bs| ==> bs[b].expandMult == ExpandMult(bs[b].count, idealChainMaxlen)
    }

    /** The body of the expansion's inner loop: one handle moves to its new bucket. */
    method MoveHandle(thh: Ptr, bs: seq<Bucket>, ghost cs: seq<seq<Ptr>>, ghost done: set<Ptr>)
      returns (bs': seq<Bucket>, ghost cs': seq<seq<Ptr>>)
      requires PoolOk() && 0 < thh < |key| && thh !in done
      requires ChainsOk(hashv, hhNext, hhPrev, bs, cs) && Partition(hashv, cs, done) && StatsOk(bs, cs)
      modifies this`hhNext, this`hhPrev, this`nonidealItems
      ensures PoolOk() && |bs'| == |bs|
      ensures ChainsOk(hashv, hhNext, hhPrev, bs', cs') && Partition(hashv, cs', done + {thh}) && StatsOk(bs', cs')
      ensures forall q :: 0 <= q < |hhNext| && q != thh ==> hhNext[q] == old(hhNext)[q]
    {
      var b := ToBucket(hashv[thh], |bs|);
      ghost var c := cs[b];
      assert ChainOk(hashv, hhNext, hhPrev, bs[b], c, b, |bs|);
      var newbkt := bs[b].(count := bs[b].count + 1);
      var nonideal := nonidealItems;
      if newbkt.count > idealChainMaxlen {
        nonideal := nonideal + 1;
        if newbkt.count > newbkt.expandMult * idealChainMaxlen {
          newbkt := newbkt.(expandMult := newbkt.expandMult + 1);
        }
      }
      PushOk(hashv, hhNext, hhPrev, bs, cs, thh, newbkt.(hhHead := thh));
      PushPartition(hashv, cs, done, thh);
      NonidealGrows(cs, idealChainMaxlen, b, [thh] + c);
      var pv := hhPrev[thh := 0];
      if newbkt.hhHead != 0 {
        pv := pv[newbkt.hhHead := thh];
      }
      hhPrev, hhNext, nonidealItems := pv, hhNext[thh := newbkt.hhHead], nonideal;
      newbkt := newbkt.(hhHead := thh);
      bs', cs' := bs[b := newbkt], cs[b := [thh] + c];
    }

    /** Handles already moved when bucket `i` has been emptied down to position `j`. */
    ghost predicate Progress(done: set<Ptr>, i: nat, j: nat)
      reads this`chains, this`app, this`hashv
    {
      |chains| > 0
      && (forall p :: p in done ==> p in app)
      && forall p {:trigger p in done} {:trigger p in app} :: p in app && p < |hashv| ==>
           var b := ToBucket(hashv[p], |chains|);
           p in done <==> b < i || (b == i && j <= |chains[b]| && p in chains[b][..j])
    }

    lemma ProgressStep(done: set<Ptr>, i: nat, j: nat)
      requires i < |chains| && j < |chains[i]| && Distinct(chains[i]) && Progress(done, i, j)
      requires chains[i][j] in app && chains[i][j] < |hashv| && ToBucket(hashv[chains[i][j]], |chains|) == i
      ensures chains[i][j] !in done
      ensures Progress(done + {chains[i][j]}, i, j + 1)
    {
      var c := chains[i];
      assert c[j] !in c[..j];
      assert c[..j + 1] == c[..j] + [c[j]];
    }

    lemma ProgressBucket(done: set<Ptr>, i: nat)
      requires i < |chains| && Progress(done, i, |chains[i]|)
      requires Partition(hashv, chains, Members(app))
      ensures Progress(done, i + 1, 0)
    {
      var c := chains[i];
      assert c[..|c|] == c;
      forall p | p in app && p < |hashv|
        ensures ToBucket(hashv[p], |chains|) == i ==> p in c
      {
        assert p in Members(app);
      }
    }

    /** The state in the middle of an expansion: `bs` heads the chains `cs` of the moved
        handles `done`; every other handle still has its old `hh_next`. */
    ghost predicate Moving(bs: seq<Bucket>, cs: seq<seq<Ptr>>, done: set<Ptr>, oldNx: seq<Ptr>)
      reads this`key, this`hashv, this`prev, this`next, this`hhPrev, this`hhNext, this`nonidealItems, this`idealChainMaxlen
    {
      PoolOk() && |oldNx| == |hhNext|
      && ChainsOk(hashv, hhNext, hhPrev, bs, cs) && Partition(hashv, cs, done) && StatsOk(bs, cs)
      && forall q :: 0 <= q < |hhNext| && q !in done ==> hhNext[q] == oldNx[q]
    }

    /** Emptying one old bucket. */
    method MoveBucket(i: nat, bs: seq<Bucket>, ghost cs: seq<seq<Ptr>>, ghost done: set<Ptr>,
                      ghost oldNx: seq<Ptr>, ghost oldPv: seq<Ptr>)
      returns (bs': seq<Bucket>, ghost cs': seq<seq<Ptr>>, ghost done': set<Ptr>)
      requires i < |buckets|
      requires ChainsOk(hashv, oldNx, oldPv, buckets, chains) && Partition(hashv, chains, Members(app))
      requires Moving(bs, cs, done, oldNx) && Progress(done, i, 0)
      modifies this`hhNext, this`hhPrev, this`nonidealItems
      ensures |bs'| == |bs| && Moving(bs', cs', done', oldNx) && Progress(done', i + 1, 0)
    {
      bs', cs', done' := bs, cs, done;
      ghost var c := chains[i];
      assert ChainOk(hashv, oldNx, oldPv, buckets[i], c, i, |buckets|);
      var thh := buckets[i].hhHead;
      ghost var j := 0;
      while thh != 0
        invariant 0 <= j <= |c| && thh == (if j < |c| then c[j] else 0)
        invariant |bs'| == |bs| && Moving(bs', cs', done', oldNx) && Progress(done', i, j)
        decreases |c| - j
      {
        assert c[j] in c;
        assert thh in Members(app);
        ProgressStep(done', i, j);
        var nxt := hhNext[thh];
        assert oldNx[c[j]] == if j + 1 < |c| then c[j + 1] else 0;
        bs', cs' := MoveHandle(thh, bs', cs', done');
        done' := done' + {thh};
        thh := nxt;
        j := j + 1;
      }
      ProgressBucket(done', i);
    }

    lemma AllMoved(done: set<Ptr>)
      requires Progress(done, |chains|, 0) && Partition(hashv, chains, Members(app))
      ensures done == Members(app)
    {
      forall p | p in app
        ensures p in done
      {
        assert p in Members(app);
      }
    }

    /** The loop over all old buckets. */
    method Redistribute() returns (newBuckets: seq<Bucket>, ghost cs: seq<seq<Ptr>>)
      requires PoolOk() && BucketsOk() && nonidealItems == 0
      modifies this`hhNext, this`hhPrev, this`nonidealItems
      ensures PoolOk() && |newBuckets| == 2 * |buckets|
      ensures ChainsOk(hashv, hhNext, hhPrev, newBuckets, cs) && Partition(hashv, cs, Members(app))
      ensures StatsOk(newBuckets, cs)
    {
      var n2 := 2 * |buckets|;
      newBuckets := seq(n2, _ => EMPTY_BUCKET);
      cs := seq(n2, _ => []);
      ghost var done: set<Ptr> := {};
      ghost var oldNx, oldPv := hhNext, hhPrev;
      FreshBuckets(hashv, hhNext, hhPrev, n2, newBuckets, cs);
      NonidealEmpty(cs, idealChainMaxlen);
      for i := 0 to |buckets|
        invariant |newBuckets| == n2 && Moving(newBuckets, cs, done, oldNx) && Progress(done, i, 0)
      {
        newBuckets, cs, done := MoveBucket(i, newBuckets, cs, done, oldNx, oldPv);
      }
      AllMoved(done);
    }

    /** Two ineffective expansions in a row switch expansion off. */
    method UpdateNoexpand()
      modifies this`ineffExpands, this`noexpand
      ensures ineffExpands == (if nonidealItems > numItems / 2 then old(ineffExpands) + 1 else 0)
      ensures noexpand == (old(noexpand) || ineffExpands > 1)
    {
      ineffExpands := if nonidealItems > numItems / 2 then ineffExpands + 1 else 0;
      if ineffExpands > 1 {
        noexpand := true;
      }
    }

    method SetIdeal()
      requires |buckets| == Pow2(log2NumBuckets)
      modifies this`idealChainMaxlen, this`nonidealItems
      ensures idealChainMaxlen == CeilDiv(numItems, 2 * |buckets|) && nonidealItems == 0
    {
      assert Pow2(log2NumBuckets + 1) == 2 * |buckets| == |buckets| * 2;
      idealChainMaxlen := numItems / Pow2(log2NumBuckets + 1) + (if numItems % (|buckets| * 2) != 0 then 1 else 0);
      nonidealItems := 0;
    }

    /** HASH_EXPAND_BUCKETS: twice the buckets, every handle in its new bucket, and the
        statistics recomputed. */
    method ExpandBuckets()
      requires PoolOk() && BucketsOk()
      modifies this`hhNext, this`hhPrev, this`buckets, this`log2NumBuckets, this`idealChainMaxlen,
               this`nonidealItems, this`ineffExpands, this`noexpand, this`chains
      ensures PoolOk() && BucketsOk() && StatsOk(buckets, chains)
      ensures |buckets| == 2 * |old(buckets)|
      ensures idealChainMaxlen == CeilDiv(numItems, |buckets|)
      ensures ineffExpands == (if nonidealItems > numItems / 2 then old(ineffExpands) + 1 else 0)
      ensures noexpand == (old(noexpand) || ineffExpands > 1)
    {
      SetIdeal();
      var newBuckets;
      ghost var cs;
      newBuckets, cs := Redistribute();
      buckets, chains, log2NumBuckets := newBuckets, cs, log2NumBuckets + 1;
      UpdateNoexpand();
    }

    // ---- adding ----

    /** HASH_ADD_TO_BKT. */
    method AddToBucket(p: Ptr)
      requires PoolOk() && 0 < p < |key| && |buckets| == Pow2(log2NumBuckets)
      requires ChainsOk(hashv, hhNext, hhPrev, buckets, chains)
      requires p !in app && Partition(hashv, chains, Members(app))
      modifies this`hhNext, this`hhPrev, this`buckets, this`log2NumBuckets, this`idealChainMaxlen,
               this`nonidealItems, this`ineffExpands, this`noexpand, this`chains, this`app
      ensures PoolOk() && BucketsOk() && app == old(app) + [p]
      ensures var b := ToBucket(hashv[p], |old(buckets)|);
              |buckets| == (if |old(chains[b])| + 1 >= (old(buckets[b].expandMult) + 1) * HASH_BKT_CAPACITY_THRESH
                               && !old(noexpand)
                            then 2 * |old(buckets)| else |old(buckets)|)
      ensures |buckets| != |old(buckets)| ==>
                StatsOk(buckets, chains) && idealChainMaxlen == CeilDiv(numItems, |buckets|)
    {
      var b := ToBucket(hashv[p], |buckets|);
      ghost var c := chains[b];
      assert ChainOk(hashv, hhNext, hhPrev, buckets[b], c, b, |buckets|);
      var bkt := buckets[b].(count := buckets[b].count + 1);
      PushOk(hashv, hhNext, hhPrev, buckets, chains, p, bkt.(hhHead := p));
      PushPartition(hashv, chains, Members(app), p);
      var nx, pv := hhNext[p := bkt.hhHead], hhPrev[p := 0];
      if bkt.hhHead != 0 {
        pv := pv[bkt.hhHead := p];
      }
      bkt := bkt.(hhHead := p);
      assert Members(app + [p]) == Members(app) + {p};
      hhNext, hhPrev, buckets := nx, pv, buckets[b := bkt];
      chains, app := chains[b := [p] + c], app + [p];
      if bkt.count >= (bkt.expandMult + 1) * HASH_BKT_CAPACITY_THRESH && !noexpand {
        ExpandBuckets();
      }
    }

    lemma HeadIsNull()
      requires Valid()
      ensures head == 0 <==> app == []
    {
      if app != [] {
        assert next[app[0]] >= 0;
      }
    }

    /** HASH_MAKE_TABLE: 32 empty buckets. */
    method MakeTable()
      requires PoolOk() && app == []
      modifies this`buckets, this`chains, this`log2NumBuckets,
               this`idealChainMaxlen, this`nonidealItems, this`ineffExpands, this`noexpand
      ensures BucketsOk() && |buckets| == HASH_INITIAL_NUM_BUCKETS && !noexpand
    {
      idealChainMaxlen, nonidealItems, ineffExpands, noexpand := 0, 0, 0, false;
      buckets := seq(HASH_INITIAL_NUM_BUCKETS, _ => EMPTY_BUCKET);
      log2NumBuckets := HASH_INITIAL_NUM_BUCKETS_LOG2;
      chains := seq(HASH_INITIAL_NUM_BUCKETS, _ => []);
      FreshBuckets(hashv, hhNext, hhPrev, HASH_INITIAL_NUM_BUCKETS, buckets, chains);
      assert Members(app) == {};
      assert Pow2(5) == 32;
    }

    /** HASH_APPEND_LIST. */
    method AppendList(p: Ptr)
      requires PoolOk() && AppOk() && app != [] && 0 < p < |key| && p !in app
      modifies this`next, this`prev, this`tail
      ensures PoolOk() && Linked(next, prev, app + [p]) && tail == p
    {
      LinkedAppend(next, prev, app, p);
      next := next[p := 0];
      prev := prev[p := tail];
      next := next[tail := p];
      tail := p;
    }

    /** The application-order half of HASH_ADD. */
    method LinkApp(p: Ptr)
      requires Valid() && 0 < p < |key| && p !in app
      modifies this`next, this`prev, this`head, this`tail, this`buckets, this`chains, this`log2NumBuckets,
               this`idealChainMaxlen, this`nonidealItems, this`ineffExpands, this`noexpand
      ensures PoolOk() && Linked(next, prev, app + [p]) && head == First(app + [p]) && tail == p
      ensures BucketsOk()
      ensures app != [] ==> buckets == old(buckets) && chains == old(chains) && noexpand == old(noexpand)
      ensures app == [] ==> |buckets| == HASH_INITIAL_NUM_BUCKETS && !noexpand
    {
      HeadIsNull();
      if head == 0 {
        next, prev := next[p := 0], prev[p := 0];
        tail := p;
        MakeTable();
        head := p;
      } else {
        AppendList(p);
      }
    }

    /** Storing key and hash in a handle that is not in the table. */
    method SetKey(p: Ptr, k: Key)
      requires Valid() && 0 < p < |key| && p !in app
      modifies this`key, this`hashv
      ensures Valid() && key == old(key)[p := k] && hashv == old(hashv)[p := hash(k)]
    {
      if app != [] {
        RehashOutsider(hashv, hhNext, hhPrev, buckets, chains, Members(app), p, hash(k));
      }
      hashv, key := hashv[p := hash(k)], key[p := k];
    }

    /** HASH_ADD_TO_TABLE. */
    method AddToTable(p: Ptr)
      requires PoolOk() && BucketsOk() && 0 < p < |key| && p !in app
      requires KeysOk() && hashv[p] == hash(key[p])
      modifies this`hhNext, this`hhPrev, this`buckets, this`log2NumBuckets, this`idealChainMaxlen,
               this`nonidealItems, this`ineffExpands, this`noexpand, this`chains, this`app, this`numItems
      ensures PoolOk() && BucketsOk() && KeysOk()
      ensures numItems == old(numItems) + 1 && app == old(app) + [p]
      ensures |buckets| != |old(buckets)| ==>
                |buckets| == 2 * |old(buckets)| && StatsOk(buckets, chains)
                && idealChainMaxlen == CeilDiv(numItems, |buckets|)
    {
      numItems := numItems + 1;
      AddToBucket(p);
    }

    /** HASH_ADD: the handle `p` with key `k` becomes the last item. */
    method Add(p: Ptr, k: Key)
      requires Valid() && 0 < p < |key| && p !in app
      modifies this
      ensures Valid()
      ensures app == old(app) + [p] && key == old(key)[p := k]
      ensures old(app) != [] && |buckets| != |old(buckets)| ==>
                |buckets| == 2 * |old(buckets)| && StatsOk(buckets, chains)
                && idealChainMaxlen == CeilDiv(numItems, |buckets|)
    {
      SetKey(p, k);
      LinkApp(p);
      AddToTable(p);
    }

    // ---- deleting ----

    /** HASH_DEL_IN_BKT. */
    method DelInBucket(b: nat, del: Ptr, ghost i: nat)
      requires PoolOk() && b < |buckets| && ChainsOk(hashv, hhNext, hhPrev, buckets, chains)
      requires i < |chains[b]| && chains[b][i] == del
      modifies this`hhNext, this`hhPrev, this`buckets, this`chains
      ensures PoolOk() && |buckets| == |old(buckets)|
      ensures chains == old(chains)[b := Without(old(chains)[b], i)]
      ensures ChainsOk(hashv, hhNext, hhPrev, buckets, chains)
    {
      ghost var c := chains[b];
      assert ChainOk(hashv, hhNext, hhPrev, buckets[b], c, b, |buckets|);
      assert hhNext[c[i]] == (if i + 1 < |c| then c[i + 1] else 0);
      assert hhPrev[c[i]] == (if i > 0 then c[i - 1] else 0);
      var bkt := buckets[b].(count := buckets[b].count - 1);
      if bkt.hhHead == del {
        bkt := bkt.(hhHead := hhNext[del]);
      }
      var nx, pv := hhNext, hhPrev;
      if hhPrev[del] != 0 {
        nx := nx[hhPrev[del] := hhNext[del]];
      }
      if hhNext[del] != 0 {
        pv := pv[hhNext[del] := hhPrev[del]];
      }
      UnlinkOk(hashv, hhNext, hhPrev, buckets, chains, b, i, bkt, nx, pv);
      hhNext, hhPrev, buckets, chains := nx, pv, buckets[b := bkt], chains[b := Without(c, i)];
    }

    /** The application-order half of HASH_DELETE_HH when other items remain. */
    method UnlinkApp(del: Ptr, ghost i: nat)
      requires PoolOk() && AppOk() && i < |app| && app[i] == del && |app| > 1
      modifies this`next, this`prev, this`head, this`tail
      ensures PoolOk() && Linked(next, prev, Without(app, i))
      ensures head == First(Without(app, i)) && tail == Last(Without(app, i))
    {
      assert next[app[i]] == (if i + 1 < |app| then app[i + 1] else 0);
      assert prev[app[i]] == (if i > 0 then app[i - 1] else 0);
      var nx, pv, first, last := next, prev, head, tail;
      if del == tail {
        last := prev[del];
      }
      if prev[del] != 0 {
        nx := nx[prev[del] := next[del]];
      } else {
        first := next[del];
      }
      if next[del] != 0 {
        pv := pv[next[del] := prev[del]];
      }
      LinkedRemove(next, prev, app, i, nx, pv);
      next, prev, head, tail := nx, pv, first, last;
    }

    /** The bucket half of HASH_DELETE_HH. */
    method UnlinkBucket(del: Ptr)
      requires PoolOk() && BucketsOk() && del in app
      modifies this`hhNext, this`hhPrev, this`buckets, this`chains
      ensures PoolOk() && |buckets| == |old(buckets)|
      ensures ChainsOk(hashv, hhNext, hhPrev, buckets, chains) && Partition(hashv, chains, Members(app) - {del})
    {
      assert del in Members(app);
      var b := ToBucket(hashv[del], |buckets|);
      ghost var j :| 0 <= j < |chains[b]| && chains[b][j] == del;
      UnlinkPartition(hashv, hhNext, hhPrev, buckets, chains, Members(app), b, j);
      DelInBucket(b, del, j);
    }

    /** HASH_DELETE_HH when other items remain. */
    method DeleteOther(del: Ptr, ghost i: nat)
      requires Valid() && i < |app| && app[i] == del && |app| > 1
      modifies this`next, this`prev, this`head, this`tail, this`hhNext, this`hhPrev, this`buckets, this`chains,
               this`numItems, this`app
      ensures Valid() && app == Without(old(app), i)
    {
      UnlinkApp(del, i);
      UnlinkBucket(del);
      WithoutMembers(app, i);
      assert Members(Without(app, i)) == Members(app) - {del};
      numItems, app := numItems - 1, Without(app, i);
    }

    /** HASH_DELETE: `del` leaves the list; deleting the last item frees the table. */
    method Delete(del: Ptr, ghost i: nat)
      requires Valid() && i < |app| && app[i] == del
      modifies this
      ensures Valid() && app == Without(old(app), i) && key == old(key)
    {
      assert next[app[i]] == (if i + 1 < |app| then app[i + 1] else 0);
      assert prev[app[i]] == (if i > 0 then app[i - 1] else 0);
      if prev[del] == 0 && next[del] == 0 {
        buckets, head, tail, numItems, app, chains := [], 0, 0, 0, [], [];
      } else {
        DeleteOther(del, i);
      }
    }

    // ---- sorting ----

    lemma SameItems(s: seq<Ptr>, t: seq<Ptr>)
      requires multiset(s) == multiset(t)
      ensures Members(s) == Members(t) && |s| == |t|
    {
      forall p
        ensures p in s <==> p in t
      {
        assert p in s <==> p in multiset(s);
        assert p in t <==> p in multiset(t);
      }
      assert |multiset(s)| == |s| && |multiset(t)| == |t|;
    }

    /** The links after HASH_SRT run through the merged list; the buckets are untouched. */
    method SortLinks(cmp: Comparator)
      requires Valid() && |app| < 0x1_0000_0000
      modifies this`next, this`prev, this`head, this`tail, this`app
      ensures Valid() && app == SortFrom(cmp, old(app), 1)
    {
      HeadIsNull();
      if head != 0 {
        ghost var sorted := SortFrom(cmp, app, 1);
        SortFromElements(cmp, app, 1);
        SameItems(app, sorted);
        var nx, pv, first, last := SortList(next, prev, cmp, head, app);
        assert forall p :: p in sorted ==> p in Members(app);
        next, prev, head, tail, app := nx, pv, first, last, sorted;
      }
    }

    /** HASH_SRT: the application list becomes a sorted, stable permutation of itself. */
    method Sort(cmp: Comparator)
      requires Valid() && |app| < 0x1_0000_0000
      modifies this`next, this`prev, this`head, this`tail, this`app
      ensures Valid() && app == SortFrom(cmp, old(app), 1)
      ensures multiset(app) == multiset(old(app))
      ensures TotalPreorder(cmp) ==> Sorted(cmp, app) && StablePermutation(cmp, old(app), app)
    {
      SortFromElements(cmp, app, 1);
      if TotalPreorder(cmp) {
        SortCorrect(cmp, app);
      }
      SortLinks(cmp);
    }

    ghost function At(i: nat): Ptr
      reads this`app
    {
      if i < |app| then app[i] else 0
    }

    /** HASH_ITER: the items in application order, `tmp` being one step ahead. */
    method Iterate() returns (items: seq<Ptr>)
      requires Valid()
      ensures items == app
    {
      items := [];
      HeadIsNull();
      var el, tmp := head, if head != 0 then next[head] else 0;
      while el != 0
        invariant |items| <= |app| && items == app[..|items|]
        invariant el == At(|items|) && tmp == At(|items| + 1)
        decreases |app| - |items|
      {
        ghost var i := |items|;
        assert i + 1 < |app| ==> next[app[i + 1]] == At(i + 2);
        items := items + [el];
        el, tmp := tmp, if tmp != 0 then next[tmp] else 0;
      }
    }
  }
}
