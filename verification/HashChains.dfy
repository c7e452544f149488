/** The bucket side of a uthash table as pure data: buckets, the chains they head,
    and the statistics a bucket expansion computes (include/uthash.h). */
module HashChains {
  import opened Words
  import opened MergeSort
  import opened PoolList

  datatype Bucket = Bucket(hhHead: Ptr, count: nat, expandMult: nat)

  const EMPTY_BUCKET: Bucket := Bucket(0, 0, 0)

  /** HASH_TO_BKT; the bucket count is a power of two, so the mask is a remainder (`BucketIsMask`). */
  function ToBucket(hashv: Word, numBuckets: nat): (b: nat)
    requires numBuckets > 0
    ensures b < numBuckets
  {
    hashv % numBuckets
  }

  /** HASH_TO_BKT as the source writes it: hashv & (num_buckets - 1). */
  lemma BucketIsMask(hashv: Word, log2: nat)
    requires log2 <= 32
    ensures Pow2(log2) <= 0x1_0000_0000 && And(hashv, Pow2(log2) - 1) == ToBucket(hashv, Pow2(log2))
  {
    Pow2Of32();
    Pow2Monotone(log2, 32);
    AndLowBits(hashv, Pow2(log2), log2, 32);
  }

  /** Bucket `b` heads the chain `c`, whose handles all hash to it. */
  ghost predicate ChainOk(hashv: seq<Word>, nx: seq<Ptr>, pv: seq<Ptr>, k: Bucket, c: seq<Ptr>, b: nat, n: nat)
    requires n > 0
  {
    |hashv| == |nx| == |pv|
    && Linked(nx, pv, c)
    && k.hhHead == First(c) && k.count == |c|
    && forall p {:trigger p in c} :: p in c ==> p < |hashv| && ToBucket(hashv[p], n) == b
  }

  ghost predicate ChainsOk(hashv: seq<Word>, nx: seq<Ptr>, pv: seq<Ptr>, bs: seq<Bucket>, chains: seq<seq<Ptr>>) {
    |bs| == |chains| > 0
    && forall b {:trigger chains[b]} :: 0 <= b < |bs| ==> ChainOk(hashv, nx, pv, bs[b], chains[b], b, |bs|)
  }

  /** The chains hold exactly the handles of `items`. */
  ghost predicate Partition(hashv: seq<Word>, chains: seq<seq<Ptr>>, items: set<Ptr>) {
    |chains| > 0
    && (forall p :: p in items ==> p < |hashv| && p in chains[ToBucket(hashv[p], |chains|)])
    && (forall b {:trigger chains[b]} :: 0 <= b < |chains| ==> forall p :: p in chains[b] ==> p in items)
  }

  /** Replacing one bucket and its chain, with writes confined to old and new chain. */
  lemma ReplaceChain(hashv: seq<Word>, nx: seq<Ptr>, pv: seq<Ptr>, bs: seq<Bucket>, chains: seq<seq<Ptr>>,
                     b: nat, k: Bucket, c: seq<Ptr>, nx': seq<Ptr>, pv': seq<Ptr>)
    requires ChainsOk(hashv, nx, pv, bs, chains) && b < |bs|
    requires ChainOk(hashv, nx', pv', k, c, b, |bs|)
    requires |nx'| == |nx| && |pv'| == |pv|
    requires forall p :: 0 <= p < |nx| && (nx'[p] != nx[p] || pv'[p] != pv[p]) ==> ToBucket(hashv[p], |bs|) == b
    ensures ChainsOk(hashv, nx', pv', bs[b := k], chains[b := c])
  {
    var bs', chains' := bs[b := k], chains[b := c];
    forall d {:trigger chains'[d]} | 0 <= d < |bs|
      ensures ChainOk(hashv, nx', pv', bs'[d], chains'[d], d, |bs|)
    {
      if d != b {
        assert ChainOk(hashv, nx, pv, bs[d], chains[d], d, |bs|);
        LinkedFrame(nx, pv, nx', pv', chains[d]);
      }
    }
  }

  /** Changing the stored hash of a handle that is in no chain. */
  lemma RehashOutsider(hashv: seq<Word>, nx: seq<Ptr>, pv: seq<Ptr>, bs: seq<Bucket>, chains: seq<seq<Ptr>>,
                       items: set<Ptr>, p: Ptr, h: Word)
    requires ChainsOk(hashv, nx, pv, bs, chains) && Partition(hashv, chains, items)
    requires p < |hashv| && p !in items
    ensures ChainsOk(hashv[p := h], nx, pv, bs, chains) && Partition(hashv[p := h], chains, items)
  {
    forall b {:trigger chains[b]} | 0 <= b < |bs|
      ensures ChainOk(hashv[p := h], nx, pv, bs[b], chains[b], b, |bs|)
    {
      assert ChainOk(hashv, nx, pv, bs[b], chains[b], b, |bs|);
    }
  }

  /** Fresh buckets head empty chains. */
  lemma FreshBuckets(hashv: seq<Word>, nx: seq<Ptr>, pv: seq<Ptr>, n: nat, bs: seq<Bucket>, cs: seq<seq<Ptr>>)
    requires |hashv| == |nx| == |pv| && |bs| == |cs| == n > 0
    requires forall b :: 0 <= b < n ==> bs[b] == EMPTY_BUCKET && cs[b] == []
    ensures ChainsOk(hashv, nx, pv, bs, cs) && Partition(hashv, cs, {})
  {
  }

  ghost function PushPrev(pv: seq<Ptr>, c: seq<Ptr>, p: Ptr): seq<Ptr>
    requires p < |pv| && (c != [] ==> c[0] < |pv|)
  {
    if c == [] then pv[p := 0] else pv[p := 0][c[0] := p]
  }

  /** Pushing handle `p` on the front of its bucket's chain. */
  lemma PushOk(hashv: seq<Word>, nx: seq<Ptr>, pv: seq<Ptr>, bs: seq<Bucket>, chains: seq<seq<Ptr>>,
               p: Ptr, k: Bucket)
    requires ChainsOk(hashv, nx, pv, bs, chains) && 0 < p < |hashv| == |nx| == |pv|
    requires var b := ToBucket(hashv[p], |bs|);
             p !in chains[b] && k.hhHead == p && k.count == bs[b].count + 1
    ensures var b := ToBucket(hashv[p], |bs|);
            (chains[b] != [] ==> 0 < chains[b][0] < |pv|)
            && bs[b].hhHead == First(chains[b])
            && ChainsOk(hashv, nx[p := bs[b].hhHead], PushPrev(pv, chains[b], p),
                        bs[b := k], chains[b := [p] + chains[b]])
  {
    var b := ToBucket(hashv[p], |bs|);
    var c := chains[b];
    assert ChainOk(hashv, nx, pv, bs[b], c, b, |bs|);
    if c != [] {
      assert c[0] in c;
    }
    var nx', pv' := nx[p := bs[b].hhHead], PushPrev(pv, c, p);
    LinkedPush(nx, pv, c, p, pv');
    assert ChainOk(hashv, nx', pv', k, [p] + c, b, |bs|);
    ReplaceChain(hashv, nx, pv, bs, chains, b, k, [p] + c, nx', pv');
  }

  lemma PushPartition(hashv: seq<Word>, chains: seq<seq<Ptr>>, items: set<Ptr>, p: Ptr)
    requires Partition(hashv, chains, items) && p < |hashv|
    ensures var b := ToBucket(hashv[p], |chains|);
            Partition(hashv, chains[b := [p] + chains[b]], items + {p})
  {
    var b := ToBucket(hashv[p], |chains|);
    var chains' := chains[b := [p] + chains[b]];
    forall q | q in items + {p}
      ensures q < |hashv| && q in chains'[ToBucket(hashv[q], |chains'|)]
    {
      if q == p {
        assert chains'[b][0] == p;
      }
    }
    forall d | 0 <= d < |chains'|
      ensures forall q :: q in chains'[d] ==> q in items + {p}
    {
      assert forall q :: q in chains[d] ==> q in items;
    }
  }

  /** Unlinking handle `chains[b][i]` from its chain. */
  lemma UnlinkOk(hashv: seq<Word>, nx: seq<Ptr>, pv: seq<Ptr>, bs: seq<Bucket>, chains: seq<seq<Ptr>>,
                 b: nat, i: nat, k: Bucket, nx': seq<Ptr>, pv': seq<Ptr>)
    requires ChainsOk(hashv, nx, pv, bs, chains) && b < |bs| && i < |chains[b]|
    requires |hashv| == |nx| == |pv| && InPool(|nx|, chains[b])
    requires nx' == if i > 0 then nx[chains[b][i - 1] := nx[chains[b][i]]] else nx
    requires pv' == if i + 1 < |chains[b]| then pv[chains[b][i + 1] := pv[chains[b][i]]] else pv
    requires bs[b].count > 0 && k.count == bs[b].count - 1 && k.hhHead == First(Without(chains[b], i))
    ensures ChainsOk(hashv, nx', pv', bs[b := k], chains[b := Without(chains[b], i)])
  {
    var c := chains[b];
    assert ChainOk(hashv, nx, pv, bs[b], c, b, |bs|);
    LinkedRemove(nx, pv, c, i, nx', pv');
    WithoutMembers(c, i);
    if i > 0 {
      assert c[i - 1] in c;
    }
    if i + 1 < |c| {
      assert c[i + 1] in c;
    }
    assert ChainOk(hashv, nx', pv', k, Without(c, i), b, |bs|);
    ReplaceChain(hashv, nx, pv, bs, chains, b, k, Without(c, i), nx', pv');
  }

  lemma UnlinkPartition(hashv: seq<Word>, nx: seq<Ptr>, pv: seq<Ptr>, bs: seq<Bucket>, chains: seq<seq<Ptr>>,
                        items: set<Ptr>, b: nat, i: nat)
    requires ChainsOk(hashv, nx, pv, bs, chains) && Partition(hashv, chains, items)
    requires b < |bs| && i < |chains[b]|
    ensures Partition(hashv, chains[b := Without(chains[b], i)], items - {chains[b][i]})
  {
    var c, del := chains[b], chains[b][i];
    assert ChainOk(hashv, nx, pv, bs[b], c, b, |bs|);
    assert del in c;
    WithoutMembers(c, i);
    var chains' := chains[b := Without(c, i)];
    forall d {:trigger chains'[d]} | 0 <= d < |chains'|
      ensures forall p :: p in chains'[d] ==> p in items - {del}
    {
      assert forall p :: p in chains[d] ==> p in items;
      if d != b {
        assert ChainOk(hashv, nx, pv, bs[d], chains[d], d, |bs|);
      }
    }
  }

  // ---- statistics ----

  function CeilDiv(n: nat, b: nat): nat
    requires b > 0
  {
    n / b + if n % b != 0 then 1 else 0
  }

  /** Ceiling: the least chain length that lets `b` buckets hold `n` items. */
  lemma CeilDivLeast(n: nat, b: nat, k: nat)
    requires b > 0
    ensures n <= CeilDiv(n, b) * b
    ensures k < CeilDiv(n, b) ==> k * b < n
  {
    var q, r := n / b, n % b;
    assert n == q * b + r;
    assert (q + 1) * b == q * b + b;
    if k < CeilDiv(n, b) {
      if r == 0 {
        assert k * b <= (q - 1) * b == q * b - b;
      } else {
        assert k * b <= q * b;
      }
    }
  }

  /** Items beyond position `ideal` of their chain. */
  ghost function Nonideal(chains: seq<seq<Ptr>>, ideal: nat): nat {
    if chains == [] then 0
    else (if |chains[0]| > ideal then |chains[0]| - ideal else 0) + Nonideal(chains[1..], ideal)
  }

  lemma {:induction false} NonidealGrows(chains: seq<seq<Ptr>>, ideal: nat, b: nat, c: seq<Ptr>)
    requires b < |chains| && |c| == |chains[b]| + 1
    ensures Nonideal(chains[b := c], ideal) == Nonideal(chains, ideal) + if |c| > ideal then 1 else 0
  {
    if b == 0 {
      assert chains[b := c][1..] == chains[1..];
    } else {
      NonidealGrows(chains[1..], ideal, b - 1, c);
      assert chains[b := c][1..] == chains[1..][b - 1 := c];
    }
  }

  lemma {:induction false} NonidealEmpty(chains: seq<seq<Ptr>>, ideal: nat)
    requires forall b :: 0 <= b < |chains| ==> chains[b] == []
    ensures Nonideal(chains, ideal) == 0
  {
    if chains != [] {
      NonidealEmpty(chains[1..], ideal);
    }
  }

  /** The threshold multiplier a bucket has after receiving `count` items in an expansion. */
  ghost function ExpandMult(count: nat, ideal: nat): nat {
    if count <= ideal then 0
    else
      var e := ExpandMult(count - 1, ideal);
      if count > e * ideal then e + 1 else e
  }

  /** A bucket is given a positive multiplier exactly when it exceeds the ideal length,
      and the multiplier then covers all but one of its items. */
  lemma {:induction false} ExpandMultCovers(count: nat, ideal: nat)
    ensures ExpandMult(count, ideal) > 0 <==> count > ideal
    ensures ideal > 0 && count > ideal ==> count - 1 <= ExpandMult(count, ideal) * ideal
  {
    if count > ideal {
      ExpandMultCovers(count - 1, ideal);
      var e := ExpandMult(count - 1, ideal);
      assert (e + 1) * ideal == e * ideal + ideal;
    }
  }

  // ---- totals ----

  ghost function Total(chains: seq<seq<Ptr>>): nat {
    if chains == [] then 0 else Total(chains[..|chains| - 1]) + |chains[|chains| - 1]|
  }

  lemma {:induction false} DistinctSize(s: seq<Ptr>)
    requires Distinct(s)
    ensures |Members(s)| == |s|
  {
    if s != [] {
      var t := s[..|s| - 1];
      DistinctSize(t);
      assert Members(s) == Members(t) + {s[|s| - 1]};
      assert s[|s| - 1] !in t;
    }
  }

  ghost function UpTo(hashv: seq<Word>, chains: seq<seq<Ptr>>, items: set<Ptr>, n: nat): set<Ptr>
    requires |chains| > 0 && forall p :: p in items ==> p < |hashv|
  {
    set p | p in items && ToBucket(hashv[p], |chains|) < n
  }

  lemma UpToStep(hashv: seq<Word>, nx: seq<Ptr>, pv: seq<Ptr>, bs: seq<Bucket>,
                 chains: seq<seq<Ptr>>, items: set<Ptr>, n: nat)
    requires ChainsOk(hashv, nx, pv, bs, chains) && Partition(hashv, chains, items) && n < |chains|
    ensures |UpTo(hashv, chains, items, n + 1)| == |UpTo(hashv, chains, items, n)| + |chains[n]|
  {
    var c := chains[n];
    assert ChainOk(hashv, nx, pv, bs[n], c, n, |bs|);
    DistinctSize(c);
    var lower := UpTo(hashv, chains, items, n);
    assert UpTo(hashv, chains, items, n + 1) == lower + Members(c);
    assert lower !! Members(c);
  }

  lemma {:induction false} TotalUpTo(hashv: seq<Word>, nx: seq<Ptr>, pv: seq<Ptr>, bs: seq<Bucket>,
                                     chains: seq<seq<Ptr>>, items: set<Ptr>, n: nat)
    requires ChainsOk(hashv, nx, pv, bs, chains) && Partition(hashv, chains, items) && n <= |chains|
    ensures |UpTo(hashv, chains, items, n)| == Total(chains[..n])
  {
    if n == 0 {
      assert UpTo(hashv, chains, items, 0) == {};
    } else {
      TotalUpTo(hashv, nx, pv, bs, chains, items, n - 1);
      UpToStep(hashv, nx, pv, bs, chains, items, n - 1);
      assert chains[..n][..n - 1] == chains[..n - 1];
    }
  }

  /** The bucket counts add up to the number of items. */
  lemma TotalIsItems(hashv: seq<Word>, nx: seq<Ptr>, pv: seq<Ptr>, bs: seq<Bucket>,
                     chains: seq<seq<Ptr>>, app: seq<Ptr>)
    requires ChainsOk(hashv, nx, pv, bs, chains) && Partition(hashv, chains, Members(app)) && Distinct(app)
    ensures Total(chains) == |app|
  {
    TotalUpTo(hashv, nx, pv, bs, chains, Members(app), |chains|);
    DistinctSize(app);
    assert UpTo(hashv, chains, Members(app), |chains|) == Members(app);
    assert chains[..|chains|] == chains;
  }
}
