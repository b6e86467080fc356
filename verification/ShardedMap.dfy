/** The shard choice of pkg/util/concurrent_map.go. */
module ShardHash {
  import opened Varints
  import opened Bits

  /** key >> n on a signed 64-bit word. */
  function ShiftRight(x: bv64, n: nat): bv64
    requires n < 64
  {
    if x < 0x8000_0000_0000_0000 then x >> n else !(!x >> n)
  }

  function Scramble(key: bv64): bv64 {
    var a := (key + 0x7ED5_5D16) + (key << 12);
    var b := (a ^ 0xC761_C23C) ^ ShiftRight(a, 19);
    var c := (b + 0x1656_67B1) + (b << 5);
    var d := (c + 0xD3A2_646C) ^ (c << 9);
    var e := (d + 0xFD70_46C5) + (d << 3);
    (e ^ 0xB55A_4F09) ^ ShiftRight(e, 16)
  }

  /** The scrambled words of 0, 1 and -1. */
  lemma KnownScrambles()
    ensures Scramble(0) == 0x1_B0C4_DB8B_D927 && Scramble(1) == 0x1_B0C7_0440_81B6
    ensures Scramble(0xFFFF_FFFF_FFFF_FFFF) == 0x1_B0C7_4EA2_C182
  {
  }

  function Signed(x: bv64): int {
    if x < 0x8000_0000_0000_0000 then x as int else x as int - TWO64
  }

  /** Go's %: the remainder has the sign of the dividend. */
  function Remainder(a: int, n: int): (r: int)
    requires 0 < n
    ensures -n < r < n && (a < 0 ==> r <= 0) && (0 <= a ==> 0 <= r)
  {
    if a < 0 then -(-a % n) else a % n
  }

  /** fnv32: the remainder may be negative, and wraps when converted to uint32. */
  function Fnv32(key: int64, shardCount: int): (h: int)
    requires 0 < shardCount
    ensures 0 <= h < 0x1_0000_0000
  {
    Remainder(Signed(Scramble(ToUint64(key) as bv64)), shardCount) % 0x1_0000_0000
  }

  function ShardIndex(key: int64, shardCount: int): (i: int)
    requires 0 < shardCount
    ensures 0 <= i < shardCount
  {
    Fnv32(key, shardCount) % shardCount
  }

  /** For a shard count that divides 2^32 the truncated remainder, its conversion to 32 bits
      and the second reduction cancel out: the index is the plain residue of the scrambled
      key, also when that is negative. */
  lemma ShardIsResidue(key: int64, shardCount: int, m: int)
    requires 0 < shardCount && m * shardCount == 0x1_0000_0000
    ensures ShardIndex(key, shardCount) == Signed(Scramble(ToUint64(key) as bv64)) % shardCount
  {
    ReduceTwice(Signed(Scramble(ToUint64(key) as bv64)), shardCount, m);
  }

  lemma ReduceTwice(x: int, n: int, m: int)
    requires 0 < n && 0 < m * n
    ensures Remainder(x, n) % (m * n) % n == x % n
  {
    var r := Remainder(x, n);
    var h := r % (m * n);
    var q := QuotientOf(x, n);
    Regroup(x, q, r / (m * n), m, h / n, n, h % n);
    RemainderUnique(x, q + r / (m * n) * m + h / n, n, h % n);
  }

  lemma QuotientOf(x: int, n: int) returns (q: int)
    requires 0 < n
    ensures x == q * n + Remainder(x, n)
  {
    q := if x < 0 then -(-x / n) else x / n;
  }

  lemma Regroup(x: int, q: int, p: int, m: int, k: int, n: int, d: int)
    requires x == q * n + (p * (m * n) + (k * n + d))
    ensures x == (q + p * m + k) * n + d
  {
    assert p * (m * n) == p * m * n;
  }

  /** GetShard, as a function of the key. */
  function ChoiceOf(shardCount: int): (f: int64 -> int)
    requires 0 < shardCount
    ensures forall k :: 0 <= f(k) < shardCount
  {
    (k: int64) => ShardIndex(k, shardCount)
  }
}

/** The sharded map of pkg/util/concurrent_map.go.  Every method works on one shard under
    that shard's lock, or walks the shards one by one; each runs to completion here.  What
    is proved of the map holds for every shard choice that stays in range. */
module ShardedMaps {
  import opened Varints
  import ShardHash

  type Items = map<int64, int64>

  /** Which of the shards a key belongs to. */
  type Choice = int64 -> int

  // ---------- Shards as one map ----------

  /** Every key lives in its own shard only. */
  ghost predicate Placed(c: Choice, shards: seq<Items>) {
    && (forall k :: 0 <= c(k) < |shards|)
    && (forall i, k :: 0 <= i < |shards| && k in shards[i] ==> c(k) == i)
  }

  ghost function Union(shards: seq<Items>): Items {
    if shards == [] then map[] else Union(shards[..|shards| - 1]) + shards[|shards| - 1]
  }

  lemma {:induction false} UnionKeys(shards: seq<Items>, k: int64)
    ensures k in Union(shards) <==> exists i :: 0 <= i < |shards| && k in shards[i]
    decreases |shards|
  {
    if shards != [] {
      var front := shards[..|shards| - 1];
      UnionKeys(front, k);
      if k in Union(front) {
        var i :| 0 <= i < |front| && k in front[i];
        assert k in shards[i];
      }
      if i :| 0 <= i < |shards| && k in shards[i] && i < |front| {
        assert k in front[i];
      }
    }
  }

  lemma {:induction false} UnionAtIndex(shards: seq<Items>, j: nat, k: int64)
    requires j < |shards| && forall i :: 0 <= i < |shards| && k in shards[i] ==> i == j
    ensures k in Union(shards) <==> k in shards[j]
    ensures k in shards[j] ==> Union(shards)[k] == shards[j][k]
    decreases |shards|
  {
    UnionKeys(shards, k);
    var front := shards[..|shards| - 1];
    UnionKeys(front, k);
    if j < |front| {
      assert forall i :: 0 <= i < |front| ==> front[i] == shards[i];
      UnionAtIndex(front, j, k);
    }
  }

  lemma EmptyShards(c: Choice, shards: seq<Items>)
    requires (forall k :: 0 <= c(k) < |shards|) && (forall i :: 0 <= i < |shards| ==> shards[i] == map[])
    ensures Placed(c, shards) && Union(shards) == map[]
  {
    forall k ensures k !in Union(shards) { UnionKeys(shards, k); }
  }

  /** The single map agrees with the key's own shard. */
  lemma Lookup(c: Choice, shards: seq<Items>, k: int64)
    requires Placed(c, shards)
    ensures var i := c(k);
            (k in Union(shards) <==> k in shards[i]) && (k in shards[i] ==> Union(shards)[k] == shards[i][k])
  {
    UnionAtIndex(shards, c(k), k);
  }

  /** Changing what one shard holds under one of its keys changes the single map there. */
  lemma Change(c: Choice, shards: seq<Items>, k: int64, items: Items)
    requires Placed(c, shards)
    requires var old' := shards[c(k)];
             forall x :: x != k ==> (x in items <==> x in old') && (x in items ==> items[x] == old'[x])
    ensures var shards' := shards[c(k) := items];
            && Placed(c, shards')
            && Union(shards') == if k in items then Union(shards)[k := items[k]] else Union(shards) - {k}
  {
    var j := c(k);
    var shards' := shards[j := items];
    forall i, x | 0 <= i < |shards'| && x in shards'[i] ensures c(x) == i {
      if i == j && x != k { assert x in shards[j]; }
    }
    forall x
      ensures x != k ==> (x in Union(shards') <==> x in Union(shards))
      ensures x != k && x in Union(shards) ==> Union(shards')[x] == Union(shards)[x]
      ensures k in Union(shards') <==> k in items
      ensures k in items ==> Union(shards')[k] == items[k]
    {
      Lookup(c, shards, x);
      Lookup(c, shards', x);
      Lookup(c, shards', k);
    }
  }

  lemma UnionSize(c: Choice, shards: seq<Items>, n: nat)
    requires Placed(c, shards) && n < |shards|
    ensures |Union(shards[..n + 1])| == |Union(shards[..n])| + |shards[n]|
  {
    var front, last := shards[..n], shards[n];
    assert shards[..n + 1][..n] == front && shards[..n + 1][n] == last;
    forall k | k in Union(front) ensures k !in last {
      UnionKeys(front, k);
      var i :| 0 <= i < |front| && k in front[i];
      assert k in shards[i] && c(k) == i;
      assert k in shards[n] ==> c(k) == n;
    }
    var whole := Union(shards[..n + 1]);
    assert whole == Union(front) + last;
    assert whole.Keys == Union(front).Keys + last.Keys;
    assert |whole| == |whole.Keys| && |Union(front)| == |Union(front).Keys| && |last| == |last.Keys|;
  }

  /** Goroutines with their own pending keys send them over a common channel: any
      interleaving, each key once. */
  method Gather(c: Choice, pending0: seq<set<int64>>, ghost all: set<int64>) returns (keys: seq<int64>)
    requires forall k :: 0 <= c(k) < |pending0|
    requires forall i, k :: 0 <= i < |pending0| && k in pending0[i] ==> c(k) == i
    requires forall k :: k in all <==> k in pending0[c(k)]
    ensures forall k :: k in keys <==> k in all
    ensures forall i, j :: 0 <= i < j < |keys| ==> keys[i] != keys[j]
  {
    var pending := pending0;
    ghost var left := all;
    keys := [];
    while exists i :: 0 <= i < |pending| && pending[i] != {}
      invariant |pending| == |pending0|
      invariant forall k :: k in all <==> k in left || k in keys
      invariant forall k :: k in keys ==> k !in left
      invariant forall i, j :: 0 <= i < j < |keys| ==> keys[i] != keys[j]
      invariant forall i, k :: 0 <= i < |pending| && k in pending[i] ==> c(k) == i
      invariant forall k :: k in left <==> k in pending[c(k)]
      decreases |left|
    {
      var i :| 0 <= i < |pending| && pending[i] != {};
      var k :| k in pending[i];
      assert k in left;
      pending := pending[i := pending[i] - {k}];
      keys := keys + [k];
      left := left - {k};
    }
  }

  // ---------- The object ----------

  class ConcurrentMap {
    const shardCount: int
    const shards: array<Items>
    const shardOf: Choice

    ghost predicate Valid()
      reads shards
    {
      shards.Length == shardCount && Placed(shardOf, shards[..])
    }

    /** The single map that the shards stand for. */
    ghost function Contents(): Items
      requires Valid()
      reads shards
    {
      Union(shards[..])
    }

    constructor (shardCount: int)
      requires 0 < shardCount
      ensures Valid() && fresh(shards) && this.shardCount == shardCount && Contents() == map[]
      ensures shardOf == ShardHash.ChoiceOf(shardCount)
    {
      this.shardCount := shardCount;
      shardOf := ShardHash.ChoiceOf(shardCount);
      shards := new Items[shardCount](_ => map[]);
      new;
      EmptyShards(shardOf, shards[..]);
    }

    method Store(key: int64, items: Items)
      requires Valid()
      requires var was := shards[shardOf(key)];
               forall x :: x != key ==> (x in items <==> x in was) && (x in items ==> items[x] == was[x])
      modifies shards
      ensures Valid()
      ensures Contents() == if key in items then old(Contents())[key := items[key]] else old(Contents()) - {key}
    {
      Change(shardOf, shards[..], key, items);
      ghost var before := shards[..];
      shards[shardOf(key)] := items;
      assert shards[..] == before[shardOf(key) := items];
    }

    method Set(key: int64, value: int64)
      requires Valid()
      modifies shards
      ensures Valid() && Contents() == old(Contents())[key := value]
    {
      var shard := shards[shardOf(key)];
      Store(key, shard[key := value]);
    }

    /** An absent value is passed to the callback as 0. */
    method Upsert(key: int64, value: int64, cb: (bool, int64, int64) -> int64) returns (res: int64)
      requires Valid()
      modifies shards
      ensures Valid()
      ensures res == if key in old(Contents()) then cb(true, old(Contents())[key], value) else cb(false, 0, value)
      ensures Contents() == old(Contents())[key := res]
    {
      Lookup(shardOf, shards[..], key);
      var shard := shards[shardOf(key)];
      res := if key in shard then cb(true, shard[key], value) else cb(false, 0, value);
      Store(key, shard[key := res]);
    }

    method SetIfAbsent(key: int64, value: int64) returns (absent: bool)
      requires Valid()
      modifies shards
      ensures Valid() && absent == (key !in old(Contents()))
      ensures Contents() == if absent then old(Contents())[key := value] else old(Contents())
    {
      Lookup(shardOf, shards[..], key);
      var shard := shards[shardOf(key)];
      absent := key !in shard;
      if absent {
        Store(key, shard[key := value]);
      }
    }

    method Get(key: int64) returns (value: int64, ok: bool)
      requires Valid()
      ensures ok == (key in Contents()) && value == if ok then Contents()[key] else 0
    {
      Lookup(shardOf, shards[..], key);
      var shard := shards[shardOf(key)];
      ok := key in shard;
      value := if ok then shard[key] else 0;
    }

    method Remove(key: int64)
      requires Valid()
      modifies shards
      ensures Valid() && Contents() == old(Contents()) - {key}
    {
      Store(key, shards[shardOf(key)] - {key});
    }

    /** Returns what the callback says even if there is nothing to remove. */
    method RemoveCb(key: int64, cb: (int64, int64, bool) -> bool) returns (remove: bool)
      requires Valid()
      modifies shards
      ensures Valid()
      ensures remove == if key in old(Contents()) then cb(key, old(Contents())[key], true) else cb(key, 0, false)
      ensures Contents() == if remove then old(Contents()) - {key} else old(Contents())
    {
      Lookup(shardOf, shards[..], key);
      var shard := shards[shardOf(key)];
      remove := if key in shard then cb(key, shard[key], true) else cb(key, 0, false);
      if remove && key in shard {
        Store(key, shard - {key});
      }
    }

    method Pop(key: int64) returns (value: int64, found: bool)
      requires Valid()
      modifies shards
      ensures Valid() && Contents() == old(Contents()) - {key}
      ensures found == (key in old(Contents())) && value == if found then old(Contents())[key] else 0
    {
      value, found := Get(key);
      Remove(key);
    }

    method Count() returns (count: nat)
      requires Valid()
      ensures count == |Contents()|
    {
      count := 0;
      for i := 0 to shardCount
        invariant count == |Union(shards[..][..i])|
      {
        UnionSize(shardOf, shards[..], i);
        count := count + |shards[i]|;
      }
      assert shards[..][..shardCount] == shards[..];
    }

    method Keys() returns (keys: seq<int64>)
      requires Valid()
      ensures forall k :: k in keys <==> k in Contents()
      ensures forall i, j :: 0 <= i < j < |keys| ==> keys[i] != keys[j]
    {
      var snapshot := shards[..];
      var pending := seq(|snapshot|, i requires 0 <= i < |snapshot| => snapshot[i].Keys);
      forall k ensures k in Contents() <==> k in pending[shardOf(k)] { Lookup(shardOf, snapshot, k); }
      keys := Gather(shardOf, pending, Contents().Keys);
    }

    /** Items fills a map with the entries of all shards, in the order they arrive. */
    method Items() returns (items: Items)
      requires Valid()
      ensures items == Contents()
    {
      items := map[];
      var keys := Keys();
      for i := 0 to |keys|
        invariant forall k :: k in items <==> k in keys[..i]
        invariant forall k :: k in items ==> items[k] == Contents()[k]
      {
        Lookup(shardOf, shards[..], keys[i]);
        assert keys[i] in Contents();
        items := items[keys[i] := shards[shardOf(keys[i])][keys[i]]];
      }
      assert keys[..|keys|] == keys;
    }
  }
}
