/** Paged traversal of a table's key range in TiKV: Count and Clean of the raw driver
    (db/tikv/raw.go) and of the transactional driver (db/tikv/txn.go). */
module TikvRange {
  import opened ByteStrings
  import RawRows

  type Store = map<Bytes, Bytes>

  const FENCE: Bytes := [0xFF, 0xFF, 0xFF, 0xFF]

  /** getRowKey(table, ""), where the table's range starts. */
  function StartKey(table: Bytes): Bytes {
    table + [COLON]
  }

  function EndKey(table: Bytes): Bytes {
    StartKey(table) + FENCE
  }

  /** The keys k of `keys` with lo <= k < hi in byte order. */
  function Between(keys: set<Bytes>, lo: Bytes, hi: Bytes): set<Bytes> {
    set k | k in keys && !Less(k, lo) && Less(k, hi)
  }

  function RangeOf(keys: set<Bytes>, table: Bytes): set<Bytes> {
    Between(keys, StartKey(table), EndKey(table))
  }

  /** rawkv Scan: the first `limit` keys of the range, in order.  A txn iterator over the
      range yields the same keys one by one. */
  function Scan(keys: set<Bytes>, lo: Bytes, hi: Bytes, limit: nat): seq<Bytes> {
    Smallest(Between(keys, lo, hi), limit)
  }

  // ---------- One page ----------

  /** Continuing after the last key of a page, at that key plus a zero byte, leaves exactly
      the keys the page did not return. */
  lemma NextPage(keys: set<Bytes>, lo: Bytes, hi: Bytes, limit: nat)
    requires Scan(keys, lo, hi, limit) != []
    ensures var page := Scan(keys, lo, hi, limit);
            Between(keys, page[|page| - 1] + [0], hi) == Between(keys, lo, hi) - Elements(page)
  {
    var s := Between(keys, lo, hi);
    var page := Scan(keys, lo, hi, limit);
    var last := page[|page| - 1];
    SmallestSize(s, limit);
    SmallestIsSorted(s, limit);
    assert last in page;
    forall k
      ensures k in Between(keys, last + [0], hi) <==> k in s - Elements(page)
    {
      Successor(last, k);
      if k in Between(keys, last + [0], hi) {
        if Less(k, lo) { Transitive(last, k, lo); }
        if k in page { PageUpToLast(page, k); Asymmetric(last, k); Irreflexive(last); }
      }
    }
  }

  lemma PageUpToLast(page: seq<Bytes>, k: Bytes)
    requires Increasing(page) && k in page
    ensures k == page[|page| - 1] || Less(k, page[|page| - 1])
  {
    var i :| 0 <= i < |page| && page[i] == k;
  }

  /** A page's keys are distinct, so its length is the number of keys it takes away. */
  lemma PageSize(s: set<Bytes>, limit: nat)
    ensures Elements(Smallest(s, limit)) <= s
    ensures |Elements(Smallest(s, limit))| == |Smallest(s, limit)|
    ensures |s - Elements(Smallest(s, limit))| == |s| - |Smallest(s, limit)|
    ensures |Smallest(s, limit)| < limit ==> s - Elements(Smallest(s, limit)) == {}
    ensures limit > 0 && s != {} ==> Smallest(s, limit) != []
  {
    SmallestSize(s, limit);
    SmallestIsSorted(s, limit);
    DistinctSize(Smallest(s, limit));
  }

  lemma {:induction false} DistinctSize(ks: seq<Bytes>)
    requires Increasing(ks)
    ensures |Elements(ks)| == |ks|
    decreases |ks|
  {
    if ks != [] {
      DistinctSize(ks[1..]);
      Irreflexive(ks[0]);
      assert ks == [ks[0]] + ks[1..];
      assert Elements(ks) == {ks[0]} + Elements(ks[1..]);
    }
  }

  /** All keys of the range in order, as a txn iterator yields them. */
  function Iterator(keys: set<Bytes>, lo: Bytes, hi: Bytes): seq<Bytes> {
    Smallest(Between(keys, lo, hi), |Between(keys, lo, hi)|)
  }

  lemma IteratorSize(keys: set<Bytes>, lo: Bytes, hi: Bytes)
    ensures |Iterator(keys, lo, hi)| == |Between(keys, lo, hi)|
  {
    SmallestSize(Between(keys, lo, hi), |Between(keys, lo, hi)|);
  }

  /** The first `m` keys of an iterator are a page, and the range after them is the rest. */
  lemma IteratorBatch(keys: set<Bytes>, lo: Bytes, hi: Bytes, m: nat)
    requires m <= |Iterator(keys, lo, hi)|
    ensures Iterator(keys, lo, hi)[..m] == Scan(keys, lo, hi, m)
    ensures 0 < m ==> var after := Between(keys, Iterator(keys, lo, hi)[m - 1] + [0], hi);
                      && after == Between(keys, lo, hi) - Elements(Scan(keys, lo, hi, m))
                      && |after| == |Between(keys, lo, hi)| - m
  {
    var s := Between(keys, lo, hi);
    var iter := Iterator(keys, lo, hi);
    IteratorSize(keys, lo, hi);
    SmallestSplit(s, m, |s| - m);
    SmallestSize(s, m);
    assert iter[..m] == Scan(keys, lo, hi, m);
    if 0 < m {
      assert iter[m - 1] == iter[..m][m - 1];
      NextPage(keys, lo, hi, m);
      PageSize(s, m);
    }
  }

  // ---------- Count ----------

  /** Raw Count: pages of `batchSize` keys. */
  method RawCount(store: Store, table: Bytes, batchSize: nat) returns (count: nat)
    requires 0 < batchSize
    ensures count == |RangeOf(store.Keys, table)|
  {
    var startKey := StartKey(table);
    var endKey := EndKey(table);
    count := 0;
    while true
      invariant count + |Between(store.Keys, startKey, endKey)| == |RangeOf(store.Keys, table)|
      decreases |Between(store.Keys, startKey, endKey)|
    {
      var keys := Scan(store.Keys, startKey, endKey, batchSize);
      PageSize(Between(store.Keys, startKey, endKey), batchSize);
      if |keys| == 0 {
        break;
      }
      count := count + |keys|;
      if |keys| < batchSize {
        break;
      }
      NextPage(store.Keys, startKey, endKey, batchSize);
      startKey := keys[|keys| - 1] + [0x00];
    }
  }

  /** Txn Count: a new iterator for each batch, the start key moved after every key. */
  method TxnCount(store: Store, table: Bytes, batchSize: nat) returns (count: nat)
    requires 0 < batchSize
    ensures count == |RangeOf(store.Keys, table)|
  {
    var startKey := StartKey(table);
    var endKey := EndKey(table);
    count := 0;
    while true
      invariant count + |Between(store.Keys, startKey, endKey)| == |RangeOf(store.Keys, table)|
      decreases |Between(store.Keys, startKey, endKey)|
    {
      ghost var lo := startKey;
      var iter := Iterator(store.Keys, startKey, endKey);
      IteratorSize(store.Keys, startKey, endKey);
      var batchCount := 0;
      ghost var before := count;
      while batchCount < |iter| && batchCount < batchSize
        invariant batchCount <= |iter| && batchCount <= batchSize
        invariant count == before + batchCount
        invariant 0 < batchCount ==> startKey == iter[batchCount - 1] + [0x00]
        invariant batchCount == 0 ==> startKey == lo
      {
        count := count + 1;
        batchCount := batchCount + 1;
        startKey := iter[batchCount - 1] + [0x00];
      }
      IteratorBatch(store.Keys, lo, endKey, batchCount);
      if batchCount < batchSize {
        break;
      }
    }
  }

  // ---------- Clean ----------

  /** Raw Clean: one DeleteRange. */
  function DeleteRange(store: Store, lo: Bytes, hi: Bytes): Store {
    map k | k in store && !(!Less(k, lo) && Less(k, hi)) :: store[k]
  }

  function RawClean(store: Store, table: Bytes): Store {
    DeleteRange(store, StartKey(table), EndKey(table))
  }

  /** Txn Clean: each transaction collects and deletes one batch.  It ends, and leaves the
      same store as the single DeleteRange. */
  method TxnClean(initial: Store, table: Bytes, batchSize: nat) returns (store: Store)
    requires 0 < batchSize
    ensures store == RawClean(initial, table)
  {
    store := initial;
    var startKey := StartKey(table);
    var endKey := EndKey(table);
    while true
      invariant CleanInv(initial, table, store, startKey)
      decreases |Between(store.Keys, startKey, endKey)|
    {
      var keysToDelete := CollectBatch(store.Keys, startKey, endKey, batchSize);
      if |keysToDelete| == 0 {
        CleanDone(initial, table, store, startKey);
        break;
      }
      ghost var before := store;
      store := DeleteKeys(store, keysToDelete);
      var next := keysToDelete[|keysToDelete| - 1] + [0x00];
      CleanBatch(initial, table, before, startKey, keysToDelete, store, next);
      if |keysToDelete| < batchSize {
        CleanDone(initial, table, store, next);
        break;
      }
      startKey := next;
    }
  }

  /** The keys one transaction reads from its iterator. */
  method CollectBatch(keys: set<Bytes>, lo: Bytes, hi: Bytes, batchSize: nat) returns (batch: seq<Bytes>)
    requires 0 < batchSize
    ensures batch == Scan(keys, lo, hi, |batch|)
    ensures |batch| <= batchSize
    ensures batch != [] ==> Between(keys, batch[|batch| - 1] + [0], hi) == Between(keys, lo, hi) - Elements(batch)
    ensures |batch| < batchSize ==> |batch| == |Between(keys, lo, hi)|
  {
    var iter := Iterator(keys, lo, hi);
    IteratorSize(keys, lo, hi);
    batch := [];
    while |batch| < |iter| && |batch| < batchSize
      invariant |batch| <= |iter| && |batch| <= batchSize
      invariant batch == iter[..|batch|]
    {
      batch := batch + [iter[|batch|]];
    }
    IteratorBatch(keys, lo, hi, |batch|);
  }

  method DeleteKeys(initial: Store, keys: seq<Bytes>) returns (store: Store)
    ensures store == initial - Elements(keys)
  {
    store := initial;
    for i := 0 to |keys|
      invariant store == initial - Elements(keys[..i])
    {
      store := store - {keys[i]};
      assert Elements(keys[..i + 1]) == Elements(keys[..i]) + {keys[i]};
    }
    assert keys[..|keys|] == keys;
  }

  /** What is gone is in the table's range; what is left of the range is still ahead. */
  ghost predicate CleanInv(initial: Store, table: Bytes, store: Store, startKey: Bytes) {
    && (forall k :: k in store ==> k in initial && store[k] == initial[k])
    && (forall k :: k in initial && k !in store ==> k in RangeOf(initial.Keys, table))
    && RangeOf(store.Keys, table) == Between(store.Keys, startKey, EndKey(table))
  }

  lemma CleanDone(initial: Store, table: Bytes, store: Store, startKey: Bytes)
    requires CleanInv(initial, table, store, startKey)
    requires Between(store.Keys, startKey, EndKey(table)) == {}
    ensures store == RawClean(initial, table)
  {
    assert forall k :: k in store ==> k !in RangeOf(store.Keys, table);
    assert store.Keys == RawClean(initial, table).Keys;
  }

  lemma CleanBatch(initial: Store, table: Bytes, before: Store, startKey: Bytes, page: seq<Bytes>,
                   store: Store, next: Bytes)
    requires CleanInv(initial, table, before, startKey)
    requires store == before - Elements(page)
    requires 0 < |page| && page == Scan(before.Keys, startKey, EndKey(table), |page|)
    requires Between(before.Keys, next, EndKey(table))
          == Between(before.Keys, startKey, EndKey(table)) - Elements(page)
    ensures CleanInv(initial, table, store, next)
    ensures |Between(store.Keys, next, EndKey(table))|
         == |Between(before.Keys, startKey, EndKey(table))| - |page|
  {
    PageSize(Between(before.Keys, startKey, EndKey(table)), |page|);
    CleanRanges(table, before, startKey, Elements(page), store, next);
    forall k | k in initial && k !in store ensures k in RangeOf(initial.Keys, table) {
      if k in before { assert k in RangeOf(before.Keys, table); }
    }
  }

  lemma CleanRanges(table: Bytes, before: Store, startKey: Bytes, gone: set<Bytes>, store: Store, next: Bytes)
    requires RangeOf(before.Keys, table) == Between(before.Keys, startKey, EndKey(table))
    requires store == before - gone
    requires Between(before.Keys, next, EndKey(table)) == Between(before.Keys, startKey, EndKey(table)) - gone
    ensures RangeOf(store.Keys, table) == Between(store.Keys, next, EndKey(table))
    ensures Between(store.Keys, next, EndKey(table)) == Between(before.Keys, startKey, EndKey(table)) - gone
  {
    assert store.Keys == before.Keys - gone;
    BetweenMinus(before.Keys, gone, next, EndKey(table));
    BetweenMinus(before.Keys, gone, StartKey(table), EndKey(table));
    var s := Between(before.Keys, startKey, EndKey(table));
    assert s - gone - gone == s - gone;
  }

  lemma BetweenMinus(keys: set<Bytes>, gone: set<Bytes>, lo: Bytes, hi: Bytes)
    ensures Between(keys - gone, lo, hi) == Between(keys, lo, hi) - gone
  {
  }

  // ---------- What the range is ----------

  lemma PrefixTail(k: Bytes, p: Bytes)
    requires k != [] && p != [] && k[0] == p[0]
    ensures HasPrefix(k, p) <==> HasPrefix(k[1..], p[1..])
    ensures |p| <= |k| ==> k[|p|..] == k[1..][|p| - 1..]
  {
    assert k == [k[0]] + k[1..] && p == [p[0]] + p[1..];
    if HasPrefix(k[1..], p[1..]) {
      assert k[..|p|] == [k[0]] + k[1..][..|p| - 1];
    }
    if HasPrefix(k, p) {
      assert k[1..][..|p| - 1] == k[..|p|][1..];
    }
  }

  lemma {:induction false} PrefixSandwich(p: Bytes, fence: Bytes, k: Bytes)
    ensures (!Less(k, p) && Less(k, p + fence)) <==> (HasPrefix(k, p) && Less(k[|p|..], fence))
    decreases |p|
  {
    if p == [] {
      assert p + fence == fence && k[0..] == k;
    } else if k != [] {
      assert (p + fence)[1..] == p[1..] + fence;
      PrefixSandwich(p[1..], fence, k[1..]);
      if k[0] == p[0] {
        PrefixTail(k, p);
      }
    }
  }

  lemma {:induction false} BelowFence(r: Bytes, n: nat)
    ensures Less(r, seq(n, _ => 0xFF)) <==> !HasPrefix(r, seq(n, _ => 0xFF))
    decreases n
  {
    var fence: Bytes := seq(n, _ => 0xFF);
    if n == 0 {
      assert fence == [];
    } else if r != [] {
      var rest: Bytes := seq(n - 1, _ => 0xFF);
      assert fence[1..] == rest && fence[0] == 0xFF;
      BelowFence(r[1..], n - 1);
      if r[0] == 0xFF {
        PrefixTail(r, fence);
      }
    }
  }

  /** A key is in a table's range iff it starts with "table:" and what follows does not
      start with FF FF FF FF. */
  lemma InRangeIff(keys: set<Bytes>, table: Bytes, k: Bytes)
    ensures k in RangeOf(keys, table) <==>
            k in keys && HasPrefix(k, StartKey(table)) && !HasPrefix(k[|StartKey(table)|..], FENCE)
  {
    PrefixSandwich(StartKey(table), FENCE, k);
    if HasPrefix(k, StartKey(table)) {
      assert FENCE == seq(4, _ => 0xFF);
      BelowFence(k[|StartKey(table)|..], 4);
    }
  }

  /** The row of a record lies in the range of its table iff its key does not start with the
      four bytes FF. */
  lemma RecordInRangeIff(table: Bytes, key: Bytes)
    ensures RawRows.RowKey(table, key) in RangeOf({RawRows.RowKey(table, key)}, table) <==> !HasPrefix(key, FENCE)
    ensures StartKey(table) == RawRows.RowKey(table, [])
  {
    var k := RawRows.RowKey(table, key);
    InRangeIff({k}, table, k);
    assert k[..|table| + 1] == StartKey(table) && k[|table| + 1..] == key;
  }

  /** Two tables share no key, whatever is stored, iff neither range contains the start of
      the other. */
  lemma DisjointIff(a: Bytes, b: Bytes)
    ensures (forall keys :: RangeOf(keys, a) !! RangeOf(keys, b)) <==>
            StartKey(a) !in RangeOf({StartKey(a)}, b) && StartKey(b) !in RangeOf({StartKey(b)}, a)
  {
    var pa, pb := StartKey(a), StartKey(b);
    InRangeIff({pa}, a, pa);
    InRangeIff({pb}, b, pb);
    if forall keys :: RangeOf(keys, a) !! RangeOf(keys, b) {
      assert RangeOf({pa}, a) !! RangeOf({pa}, b) && RangeOf({pb}, a) !! RangeOf({pb}, b);
    } else {
      var keys :| !(RangeOf(keys, a) !! RangeOf(keys, b));
      var k :| k in RangeOf(keys, a) && k in RangeOf(keys, b);
      InRangeIff(keys, a, k);
      InRangeIff(keys, b, k);
      if |pa| <= |pb| { ShorterStart(a, b, k); } else { ShorterStart(b, a, k); }
    }
  }

  /** If both starts are prefixes of a key of table `a`, the longer start is in the range. */
  lemma ShorterStart(a: Bytes, b: Bytes, k: Bytes)
    requires |StartKey(a)| <= |StartKey(b)|
    requires HasPrefix(k, StartKey(a)) && HasPrefix(k, StartKey(b))
    requires !HasPrefix(k[|StartKey(a)|..], FENCE)
    ensures StartKey(b) in RangeOf({StartKey(b)}, a)
  {
    var pa, pb := StartKey(a), StartKey(b);
    assert pb[..|pa|] == k[..|pa|] == pa;
    InRangeIff({pb}, a, pb);
    assert k[|pa|..][..|pb| - |pa|] == k[..|pb|][|pa|..];
    if HasPrefix(pb[|pa|..], FENCE) { PrefixTrans(FENCE, pb[|pa|..], k[|pa|..]); }
  }

  /** Tables whose names contain no ':' have disjoint ranges. */
  lemma PlainTablesDisjoint(a: Bytes, b: Bytes)
    requires a != b && COLON !in a && COLON !in b
    ensures forall keys :: RangeOf(keys, a) !! RangeOf(keys, b)
  {
    DisjointIff(a, b);
    InRangeIff({StartKey(a)}, b, StartKey(a));
    InRangeIff({StartKey(b)}, a, StartKey(b));
    if HasPrefix(StartKey(b), StartKey(a)) { PlainPrefix(a, b); }
    if HasPrefix(StartKey(a), StartKey(b)) { PlainPrefix(b, a); }
  }

  lemma PlainPrefix(a: Bytes, b: Bytes)
    requires COLON !in b && HasPrefix(StartKey(b), StartKey(a))
    ensures a == b
  {
    assert StartKey(b)[..|a| + 1][|a|] == COLON;
    assert a == StartKey(b)[..|a| + 1][..|a|];
  }

  /** After cleaning a table its count is zero, and the count of every table with a
      disjoint range is what it was. */
  lemma CleanThenCount(store: Store, table: Bytes, other: Bytes)
    ensures RangeOf(RawClean(store, table).Keys, table) == {}
    ensures forall k :: k in store && k !in RangeOf(store.Keys, table) ==>
              k in RawClean(store, table) && RawClean(store, table)[k] == store[k]
    ensures (forall keys :: RangeOf(keys, table) !! RangeOf(keys, other)) ==>
              RangeOf(RawClean(store, table).Keys, other) == RangeOf(store.Keys, other)
  {
    if forall keys :: RangeOf(keys, table) !! RangeOf(keys, other) {
      assert RangeOf(store.Keys, table) !! RangeOf(store.Keys, other);
      forall k | k in RangeOf(store.Keys, other) ensures k in RawClean(store, table) {
        assert k !in RangeOf(store.Keys, table);
      }
    }
  }

  /** With a ':' in a name the ranges can overlap: cleaning "a" empties "a:b" too. */
  lemma ColonTablesOverlap(rest: Bytes)
    requires !HasPrefix(rest, FENCE)
    ensures var a: Bytes := [0x61];
            var ab: Bytes := [0x61, COLON, 0x62];
            var k := StartKey(ab) + rest;
            k in RangeOf({k}, a) && k in RangeOf({k}, ab)
  {
    var a: Bytes := [0x61];
    var ab: Bytes := [0x61, COLON, 0x62];
    var k := StartKey(ab) + rest;
    InRangeIff({k}, a, k);
    InRangeIff({k}, ab, k);
    assert k[|StartKey(ab)|..] == rest;
    assert k[|StartKey(a)|..][0] == 0x62;
  }
}
