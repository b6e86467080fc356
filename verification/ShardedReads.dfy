/** Count, Keys and Items of the sharded map while writers are at work.  They lock one shard
    at a time, in any order, so every write of any key may come between two shards. */
module ShardedReads {
  import opened Varints
  import opened Options
  import opened ShardedMaps

  /** A writer sets or removes a key, or the reader takes all entries of a shard under that
      shard's lock. */
  datatype Label = Write(key: int64, value: Option<int64>) | Visit(shard: nat)

  /** `seen` holds the entries the reader has taken, `sent` counts them as they come. */
  datatype State = State(shards: seq<Items>, seen: Items, sent: nat, visited: set<int>)

  function Init(shards: seq<Items>): State {
    State(shards, map[], 0, {})
  }

  function Changed(items: Items, key: int64, value: Option<int64>): Items {
    if value.Some? then items[key := value.value] else items - {key}
  }

  function Step(c: Choice, s: State, l: Label): State {
    match l
    case Write(key, value) =>
      if 0 <= c(key) < |s.shards| then s.(shards := s.shards[c(key) := Changed(s.shards[c(key)], key, value)]) else s
    case Visit(i) =>
      if i < |s.shards| && i !in s.visited
      then s.(seen := s.seen + s.shards[i], sent := s.sent + |s.shards[i]|, visited := s.visited + {i})
      else s
  }

  function Run(c: Choice, s: State, labels: seq<Label>): State
    decreases |labels|
  {
    if labels == [] then s else Run(c, Step(c, s, labels[0]), labels[1..])
  }

  function At(m: Items, k: int64): Option<int64> {
    if k in m then Some(m[k]) else None
  }

  /** The single map after the first `j` labels of a run. */
  ghost function MapAt(c: Choice, s: State, labels: seq<Label>, j: nat): Items
    requires j <= |labels|
  {
    Union(Run(c, s, labels[..j]).shards)
  }

  /** The reader has been to every shard. */
  ghost predicate Complete(s: State) {
    forall i :: 0 <= i < |s.shards| ==> i in s.visited
  }

  ghost predicate Inv(c: Choice, s: State) {
    && Placed(c, s.shards) && s.sent == |s.seen|
    && (forall k :: k in s.seen ==> c(k) in s.visited)
  }

  lemma WriteChanges(c: Choice, shards: seq<Items>, key: int64, value: Option<int64>)
    requires Placed(c, shards)
    ensures var shards' := shards[c(key) := Changed(shards[c(key)], key, value)];
            Placed(c, shards') && Union(shards') == Changed(Union(shards), key, value)
  {
    Change(c, shards, key, Changed(shards[c(key)], key, value));
  }

  lemma DisjointSum(a: Items, b: Items)
    requires forall k :: k in a ==> k !in b
    ensures |a + b| == |a| + |b|
  {
    assert (a + b).Keys == a.Keys + b.Keys;
    assert |a + b| == |(a + b).Keys| && |a| == |a.Keys| && |b| == |b.Keys|;
  }

  lemma StepInv(c: Choice, s: State, l: Label)
    requires Inv(c, s)
    ensures Inv(c, Step(c, s, l)) && |Step(c, s, l).shards| == |s.shards|
  {
    match l
    case Write(key, value) => WriteChanges(c, s.shards, key, value);
    case Visit(i) =>
      if i < |s.shards| && i !in s.visited {
        assert forall k :: k in s.shards[i] ==> c(k) == i;
        DisjointSum(s.seen, s.shards[i]);
      }
  }

  lemma {:induction false} RunInv(c: Choice, s: State, labels: seq<Label>)
    requires Inv(c, s)
    ensures Inv(c, Run(c, s, labels)) && |Run(c, s, labels).shards| == |s.shards|
    decreases |labels|
  {
    if labels != [] {
      StepInv(c, s, labels[0]);
      RunInv(c, Step(c, s, labels[0]), labels[1..]);
    }
  }

  lemma VisitTakes(c: Choice, s: State, i: nat, k: int64)
    requires Inv(c, s) && i < |s.shards| && i !in s.visited
    ensures var seen := s.seen + s.shards[i];
            At(seen, k) == if i == c(k) then At(Union(s.shards), k) else At(s.seen, k)
  {
    Lookup(c, s.shards, k);
    assert i == c(k) ==> k !in s.seen;
    assert k in s.shards[i] ==> i == c(k);
  }

  /** A step takes key `k` exactly if it visits its shard for the first time. */
  lemma StepTakes(c: Choice, s: State, l: Label, k: int64)
    requires Inv(c, s)
    ensures var s' := Step(c, s, l);
            if l == Visit(c(k)) && c(k) !in s.visited
            then c(k) in s'.visited && At(s'.seen, k) == At(Union(s.shards), k)
            else (c(k) in s'.visited <==> c(k) in s.visited) && At(s'.seen, k) == At(s.seen, k)
  {
    if l.Visit? && l.shard < |s.shards| && l.shard !in s.visited { VisitTakes(c, s, l.shard, k); }
  }

  lemma {:induction false} SeenStays(c: Choice, s: State, labels: seq<Label>, k: int64)
    requires Inv(c, s) && c(k) in s.visited
    ensures At(Run(c, s, labels).seen, k) == At(s.seen, k)
    decreases |labels|
  {
    if labels != [] {
      StepTakes(c, s, labels[0], k);
      StepInv(c, s, labels[0]);
      SeenStays(c, Step(c, s, labels[0]), labels[1..], k);
    }
  }

  lemma {:induction false} SeenAt(c: Choice, s: State, labels: seq<Label>, k: int64) returns (j: nat)
    requires Inv(c, s) && c(k) !in s.visited && c(k) in Run(c, s, labels).visited
    ensures j <= |labels| && At(Run(c, s, labels).seen, k) == At(MapAt(c, s, labels, j), k)
    decreases |labels|
  {
    var s' := Step(c, s, labels[0]);
    StepTakes(c, s, labels[0], k);
    StepInv(c, s, labels[0]);
    if c(k) in s'.visited {
      j := 0;
      SeenStays(c, s', labels[1..], k);
      assert labels[..0] == [];
    } else {
      var m := SeenAt(c, s', labels[1..], k);
      j := m + 1;
      assert labels[..j][1..] == labels[1..][..m];
    }
  }

  lemma InitInv(c: Choice, shards: seq<Items>)
    requires Placed(c, shards)
    ensures Inv(c, Init(shards))
  {
  }

  /** Whatever writers do between the shards, in whatever order these are visited: for every
      key the reader reports what the single map held under it at one moment of the call, so
      every returned entry was there at some moment and a key that was absent throughout is
      not returned; and every returned key is delivered once. */
  lemma EachKeyAtOneMoment(c: Choice, shards: seq<Items>, labels: seq<Label>, k: int64) returns (j: nat)
    requires Placed(c, shards) && Complete(Run(c, Init(shards), labels))
    ensures var e := Run(c, Init(shards), labels);
            && j <= |labels| && At(e.seen, k) == At(MapAt(c, Init(shards), labels, j), k)
            && e.sent == |e.seen|
  {
    InitInv(c, shards);
    RunInv(c, Init(shards), labels);
    j := SeenAt(c, Init(shards), labels, k);
  }

  /** The reader alone, shard after shard. */
  function VisitAll(n: nat): seq<Label> {
    seq(n, i requires 0 <= i < n => Visit(i))
  }

  lemma {:induction false} RunConcat(c: Choice, s: State, a: seq<Label>, b: seq<Label>)
    ensures Run(c, s, a + b) == Run(c, Run(c, s, a), b)
    decreases |a|
  {
    if a == [] {
      assert a + b == b;
    } else {
      assert (a + b)[1..] == a[1..] + b;
      RunConcat(c, Step(c, s, a[0]), a[1..], b);
    }
  }

  lemma VisitNext(c: Choice, s: State, i: nat)
    requires i < |s.shards| && i !in s.visited
    ensures Run(c, s, [Visit(i)]) ==
            s.(seen := s.seen + s.shards[i], sent := s.sent + |s.shards[i]|, visited := s.visited + {i})
  {
    var none: seq<Label> := [];
    assert [Visit(i)][1..] == none;
    assert Run(c, Step(c, s, Visit(i)), none) == Step(c, s, Visit(i));
  }

  lemma UnionNext(shards: seq<Items>, n: nat)
    requires n < |shards|
    ensures Union(shards[..n + 1]) == Union(shards[..n]) + shards[n]
  {
    assert shards[..n + 1][..n] == shards[..n];
  }

  lemma VisitAllNext(n: nat)
    ensures VisitAll(n + 1) == VisitAll(n) + [Visit(n)]
  {
  }

  /** The reader has taken exactly the first `n` shards. */
  ghost predicate ReadTo(s: State, shards: seq<Items>, n: nat) {
    && n <= |shards| && s.shards == shards && s.seen == Union(shards[..n])
    && (forall i :: i in s.visited <==> 0 <= i < n)
  }

  lemma ReadOneMore(c: Choice, s: State, shards: seq<Items>, n: nat)
    requires n < |shards| && ReadTo(s, shards, n)
    ensures ReadTo(Run(c, s, [Visit(n)]), shards, n + 1)
  {
    VisitNext(c, s, n);
    ReadToNext(s, Run(c, s, [Visit(n)]), shards, n);
  }

  lemma ReadToNext(s: State, e: State, shards: seq<Items>, n: nat)
    requires n < |shards| && ReadTo(s, shards, n)
    requires e.shards == shards && e.seen == s.seen + shards[n] && e.visited == s.visited + {n}
    ensures ReadTo(e, shards, n + 1)
  {
    UnionNext(shards, n);
  }

  lemma ReadNothing(c: Choice, shards: seq<Items>, labels: seq<Label>)
    requires labels == []
    ensures ReadTo(Run(c, Init(shards), labels), shards, 0)
  {
    assert shards[..0] == [];
  }

  lemma {:induction false} VisitsAlone(c: Choice, shards: seq<Items>, n: nat)
    requires n <= |shards|
    ensures ReadTo(Run(c, Init(shards), VisitAll(n)), shards, n)
    decreases n
  {
    if n == 0 {
      ReadNothing(c, shards, VisitAll(n));
    } else {
      VisitsAlone(c, shards, n - 1);
      VisitAllNext(n - 1);
      RunConcat(c, Init(shards), VisitAll(n - 1), [Visit(n - 1)]);
      ReadOneMore(c, Run(c, Init(shards), VisitAll(n - 1)), shards, n - 1);
    }
  }

  /** Without writers the reader gets to the end, and has read the single map. */
  lemma QuietReadIsExact(c: Choice, shards: seq<Items>)
    requires Placed(c, shards)
    ensures var e := Run(c, Init(shards), VisitAll(|shards|));
            Complete(e) && e.seen == Union(shards) && e.sent == |Union(shards)|
  {
    VisitsAlone(c, shards, |shards|);
    assert shards[..|shards|] == shards;
    InitInv(c, shards);
    RunInv(c, Init(shards), VisitAll(|shards|));
  }

  ghost predicate Untouched(k: int64, labels: seq<Label>) {
    forall i :: 0 <= i < |labels| && labels[i].Write? ==> labels[i].key != k
  }

  lemma UntouchedStep(c: Choice, s: State, l: Label, k: int64)
    requires Inv(c, s) && (l.Write? ==> l.key != k)
    ensures At(Union(Step(c, s, l).shards), k) == At(Union(s.shards), k)
  {
    if l.Write? { WriteChanges(c, s.shards, l.key, l.value); }
  }

  lemma {:induction false} UntouchedStays(c: Choice, s: State, labels: seq<Label>, k: int64)
    requires Inv(c, s) && Untouched(k, labels)
    ensures At(Union(Run(c, s, labels).shards), k) == At(Union(s.shards), k)
    decreases |labels|
  {
    if labels != [] {
      UntouchedStep(c, s, labels[0], k);
      StepInv(c, s, labels[0]);
      UntouchedStays(c, Step(c, s, labels[0]), labels[1..], k);
    }
  }

  /** A key that no writer touches is returned exactly if it is there, with its value. */
  lemma UntouchedKeyIsRead(c: Choice, shards: seq<Items>, labels: seq<Label>, k: int64)
    requires Placed(c, shards) && Complete(Run(c, Init(shards), labels)) && Untouched(k, labels)
    ensures At(Run(c, Init(shards), labels).seen, k) == At(Union(shards), k)
  {
    InitInv(c, shards);
    var j := EachKeyAtOneMoment(c, shards, labels, k);
    UntouchedStays(c, Init(shards), labels[..j], k);
  }

  lemma SubsetSize(a: set<int64>, b: set<int64>)
    requires a <= b
    ensures |a| <= |b|
  {
    assert b == a + (b - a);
  }

  /** The count lies between the number of keys that are always there and the number of keys
      that are ever there. */
  lemma CountIsBetween(c: Choice, shards: seq<Items>, labels: seq<Label>, always: set<int64>, ever: set<int64>)
    requires Placed(c, shards) && Complete(Run(c, Init(shards), labels))
    requires forall j, k :: 0 <= j <= |labels| && k in always ==> k in MapAt(c, Init(shards), labels, j)
    requires forall j, k :: 0 <= j <= |labels| && k in MapAt(c, Init(shards), labels, j) ==> k in ever
    ensures |always| <= Run(c, Init(shards), labels).sent <= |ever|
  {
    var e := Run(c, Init(shards), labels);
    InitInv(c, shards);
    RunInv(c, Init(shards), labels);
    forall k
      ensures k in always ==> k in e.seen
      ensures k in e.seen ==> k in ever
    {
      var j := EachKeyAtOneMoment(c, shards, labels, k);
    }
    SubsetSize(always, e.seen.Keys);
    SubsetSize(e.seen.Keys, ever);
    assert |e.seen| == |e.seen.Keys|;
  }
}
