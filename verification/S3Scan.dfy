/** Scan of the S3 driver (db/s3/db.go) over a bucket that does not change meanwhile. */
module S3Scan {
  import opened ByteStrings
  import opened Options

  type Record = map<Bytes, Bytes>

  /** What Read makes of an object, for the requested fields: an error, a nil map (the
      payload was an encoded nil), or a record. */
  datatype Outcome = Unreadable | Null | Rec(rec: Record)

  type Bucket = map<Bytes, Outcome>

  const SLASH: byte := 0x2F
  const MAX_PAGE: nat := 1000

  function Prefix(table: Bytes): Bytes {
    if table == [] then [] else table + [SLASH]
  }

  function ComposeObjectKey(table: Bytes, key: Bytes): Bytes {
    if table == [] then key else table + [SLASH] + key
  }

  function Read(bucket: Bucket, table: Bytes, key: Bytes): Outcome {
    var objectKey := ComposeObjectKey(table, key);
    if objectKey in bucket then bucket[objectKey] else Unreadable
  }

  /** Object keys of one table compare as their record keys do. */
  lemma ObjectOrder(table: Bytes, a: Bytes, b: Bytes)
    ensures Less(ComposeObjectKey(table, a), ComposeObjectKey(table, b)) <==> Less(a, b)
    ensures HasPrefix(ComposeObjectKey(table, a), Prefix(table))
  {
    LessCommonPrefix(Prefix(table), a, b);
    assert ComposeObjectKey(table, a) == Prefix(table) + a;
    assert ComposeObjectKey(table, b) == Prefix(table) + b;
  }

  /** Tables whose names hold no slash share no object. */
  lemma TablesShareNoObject(t: Bytes, u: Bytes, a: Bytes, b: Bytes)
    requires t != [] && u != [] && SLASH !in t && SLASH !in u
    requires ComposeObjectKey(t, a) == ComposeObjectKey(u, b)
    ensures t == u && a == b
  {
    var o := ComposeObjectKey(t, a);
    assert o[|t|] == SLASH && o[|u|] == SLASH;
    assert forall i :: 0 <= i < |t| ==> o[i] == t[i];
    assert forall i :: 0 <= i < |u| ==> o[i] == u[i];
    assert |t| == |u|;
    assert t == o[..|t|] == u && a == o[|t| + 1..] == b;
  }

  /** "t/a" */
  lemma ObjectKeyOfTA()
    ensures ComposeObjectKey([0x74], [0x61]) == [0x74, 0x2F, 0x61] && ComposeObjectKey([], [0x61]) == [0x61]
  {
  }

  // ---------- ListObjectsV2 ----------

  /** The keys a listing still has to return: those with the prefix after `after`. */
  function Listing(bucket: Bucket, prefix: Bytes, after: Bytes): set<Bytes> {
    set o | o in bucket && HasPrefix(o, prefix) && Less(after, o)
  }

  /** One page: the next keys in order, at most `maxKeys` and otherwise as many as the
      server likes; the token stands for the last key returned. */
  method ListObjects(bucket: Bucket, prefix: Bytes, startAfter: Bytes, token: Option<Bytes>, maxKeys: nat)
    returns (contents: seq<Bytes>, truncated: bool, next: Option<Bytes>)
    requires 0 < maxKeys
    ensures var s := Listing(bucket, prefix, if token.Some? then token.value else startAfter);
            && (exists n :: 0 < n <= maxKeys && contents == Smallest(s, n))
            && (truncated <==> |contents| < |s|)
            && (contents != [] ==> next == Some(contents[|contents| - 1]))
  {
    var s := Listing(bucket, prefix, if token.Some? then token.value else startAfter);
    var n: nat :| 0 < n <= maxKeys;
    contents := Smallest(s, n);
    truncated := |contents| < |s|;
    next := if contents == [] then None else Some(contents[|contents| - 1]);
  }

  // ---------- Specification ----------

  /** The objects a scan may return: the start object if it reads as a record (the empty
      record key is never looked up), and every later readable object of the table. */
  function Eligible(bucket: Bucket, table: Bytes, startKey: Bytes): set<Bytes> {
    var first := ComposeObjectKey(table, startKey);
    set o | o in bucket && HasPrefix(o, Prefix(table)) &&
            ((o == first && startKey != [] && bucket[o].Rec?) || (Less(first, o) && bucket[o] != Unreadable))
  }

  /** In terms of record keys: a record is eligible iff its key is not empty, not before the
      start key, and it is readable; an encoded nil counts only after the start key. */
  lemma EligibleIff(bucket: Bucket, table: Bytes, startKey: Bytes, k: Bytes)
    ensures ComposeObjectKey(table, k) in Eligible(bucket, table, startKey) <==>
            (&& k != [] && !Less(k, startKey)
             && Read(bucket, table, k) != Unreadable
             && (Read(bucket, table, k) == Null ==> k != startKey))
    ensures forall o :: o in Eligible(bucket, table, startKey) ==>
              HasPrefix(o, Prefix(table)) && ComposeObjectKey(table, o[|Prefix(table)|..]) == o
  {
    ObjectOrder(table, startKey, k);
    Asymmetric(k, startKey);
    Irreflexive(k);
    if !Less(k, startKey) && !Less(startKey, k) { Trichotomy(k, startKey); }
    if ComposeObjectKey(table, k) == ComposeObjectKey(table, startKey) {
      ObjectOrder(table, k, startKey);
      Irreflexive(ComposeObjectKey(table, k));
    }
    forall o | o in Eligible(bucket, table, startKey) ensures ComposeObjectKey(table, o[|Prefix(table)|..]) == o {
      assert o == Prefix(table) + o[|Prefix(table)|..];
    }
  }

  /** For example, a table whose only record has the empty key has nothing to scan, although
      that record can be read. */
  lemma EmptyKeyIsNeverScanned(table: Bytes, startKey: Bytes, rec: Record)
    ensures var bucket: Bucket := map[ComposeObjectKey(table, []) := Rec(rec)];
            Read(bucket, table, []) == Rec(rec) && Eligible(bucket, table, startKey) == {}
  {
    var o := ComposeObjectKey(table, []);
    var bucket: Bucket := map[o := Rec(rec)];
    EligibleIff(bucket, table, startKey, []);
    assert o !in Eligible(bucket, table, startKey);
  }

  function RecordOf(outcome: Outcome): Option<Record> {
    if outcome.Rec? then Some(outcome.rec) else None
  }

  function RecordsOf(bucket: Bucket, keys: seq<Bytes>): seq<Option<Record>>
    requires forall k :: k in keys ==> k in bucket
  {
    seq(|keys|, i requires 0 <= i < |keys| => RecordOf(bucket[keys[i]]))
  }

  // ---------- The scan ----------

  /** `keys` are the eligible objects up to `cursor`, in order. */
  ghost predicate Collected(bucket: Bucket, table: Bytes, startKey: Bytes, keys: seq<Bytes>, cursor: Bytes) {
    && Increasing(keys)
    && (forall k :: k in keys ==> k in Eligible(bucket, table, startKey) && !Less(cursor, k))
    && (forall e :: e in Eligible(bucket, table, startKey) && !Less(cursor, e) ==> e in keys)
  }

  /** Moving the cursor to the next listed object, which is taken iff it is readable. */
  lemma Advance(bucket: Bucket, table: Bytes, startKey: Bytes, keys: seq<Bytes>, cursor: Bytes, o: Bytes)
    requires Collected(bucket, table, startKey, keys, cursor)
    requires !Less(cursor, ComposeObjectKey(table, startKey))
    requires o in Listing(bucket, Prefix(table), cursor)
    requires forall x :: x in Listing(bucket, Prefix(table), cursor) ==> !Less(x, o)
    ensures Collected(bucket, table, startKey, if bucket[o] == Unreadable then keys else keys + [o], o)
    ensures !Less(o, ComposeObjectKey(table, startKey))
    ensures o in Eligible(bucket, table, startKey) <==> bucket[o] != Unreadable
  {
    var first := ComposeObjectKey(table, startKey);
    AtOrAfter(first, cursor, o);
    Irreflexive(o);
    forall k | k in keys ensures Less(k, o) { AtOrAfter(k, cursor, o); }
    forall k | k in keys ensures !Less(o, k) { Asymmetric(o, k); }
    forall e | e in Eligible(bucket, table, startKey) && !Less(o, e) ensures e in keys || e == o {
      if Less(cursor, e) {
        assert HasPrefix(e, Prefix(table));
        assert e in Listing(bucket, Prefix(table), cursor);
        if !Less(e, o) { Trichotomy(e, o); }
      }
    }
    Asymmetric(first, o);
  }

  lemma AtOrAfter(a: Bytes, b: Bytes, c: Bytes)
    requires !Less(b, a) && Less(b, c)
    ensures Less(a, c)
  {
    if Less(a, b) { Transitive(a, b, c); } else { Trichotomy(a, b); }
  }

  /** Enough collected, or nothing left to list: the collected keys are the answer. */
  lemma Finish(bucket: Bucket, table: Bytes, startKey: Bytes, keys: seq<Bytes>, cursor: Bytes, count: nat)
    requires Collected(bucket, table, startKey, keys, cursor) && |keys| <= count
    requires !Less(cursor, ComposeObjectKey(table, startKey))
    requires |keys| == count || Listing(bucket, Prefix(table), cursor) == {}
    ensures keys == Smallest(Eligible(bucket, table, startKey), count)
  {
    var e := Eligible(bucket, table, startKey);
    forall k, x | k in keys && x in e && x !in keys ensures Less(k, x) { AtOrAfter(k, cursor, x); }
    InitialSegment(keys, e);
    if |keys| < count {
      forall x | x in e ensures x in keys {
        assert Less(cursor, x) ==> x in Listing(bucket, Prefix(table), cursor);
      }
      SmallestSize(e, |keys|);
      SmallestIsSorted(e, |keys|);
      CoverSize(keys, e);
      SmallestAll(e, count);
    }
  }

  lemma {:induction false} CoverSize(keys: seq<Bytes>, e: set<Bytes>)
    requires Increasing(keys) && (forall k :: k in keys <==> k in e)
    ensures |keys| == |e|
    decreases |keys|
  {
    if keys == [] {
      assert e == {};
    } else {
      Irreflexive(keys[0]);
      assert keys == [keys[0]] + keys[1..];
      CoverSize(keys[1..], e - {keys[0]});
    }
  }

  /** Where the listing stands before the `i`-th key of a page. */
  ghost function CursorAt(after: Bytes, contents: seq<Bytes>, i: nat): Bytes
    requires i <= |contents|
  {
    if i == 0 then after else contents[i - 1]
  }

  /** Each key of a page is the least of what is listed after the key before it. */
  lemma PageStep(bucket: Bucket, prefix: Bytes, after: Bytes, n: nat, contents: seq<Bytes>, i: nat)
    requires contents == Smallest(Listing(bucket, prefix, after), n) && i < |contents|
    ensures var rest := Listing(bucket, prefix, CursorAt(after, contents, i));
            contents[i] in rest && forall x :: x in rest ==> !Less(x, contents[i])
  {
    var s := Listing(bucket, prefix, after);
    SmallestSize(s, n);
    SmallestIsSorted(s, n);
    assert contents[i] in contents;
    var cursor := CursorAt(after, contents, i);
    if 0 < i { assert contents[i - 1] in contents && Less(contents[i - 1], contents[i]); }
    forall x | x in Listing(bucket, prefix, cursor) ensures !Less(x, contents[i]) {
      if 0 < i { Transitive(after, cursor, x); }
      assert x in s;
      Asymmetric(x, contents[i]);
      if x in contents { NotBefore(contents, cursor, i, x); }
    }
  }

  lemma NotBefore(contents: seq<Bytes>, cursor: Bytes, i: nat, x: Bytes)
    requires Increasing(contents) && i < |contents| && x in contents
    requires 0 < i ==> cursor == contents[i - 1] && Less(cursor, x)
    ensures !Less(x, contents[i])
  {
    var j :| 0 <= j < |contents| && contents[j] == x;
    if 0 < i { Asymmetric(cursor, x); Irreflexive(cursor); }
    if j != i { Asymmetric(contents[i], x); } else { Irreflexive(x); }
  }

  /** After a whole page the listing is shorter, and it is empty if the page was the last. */
  lemma PageEnd(bucket: Bucket, prefix: Bytes, after: Bytes, n: nat, contents: seq<Bytes>)
    requires contents == Smallest(Listing(bucket, prefix, after), n) && contents != []
    ensures var rest := Listing(bucket, prefix, contents[|contents| - 1]);
            && |rest| < |Listing(bucket, prefix, after)|
            && (|contents| == |Listing(bucket, prefix, after)| ==> rest == {})
  {
    var s := Listing(bucket, prefix, after);
    var last := contents[|contents| - 1];
    var rest := Listing(bucket, prefix, last);
    SmallestSize(s, n);
    SmallestIsSorted(s, n);
    assert last in contents && last in s;
    Irreflexive(last);
    forall x | x in rest ensures x in s - {last} && x !in contents {
      Transitive(after, last, x);
      if x in contents { LastIsLargest(contents, x); }
    }
    SubsetSize(rest, s - {last});
  }

  lemma LastIsLargest(contents: seq<Bytes>, x: Bytes)
    requires Increasing(contents) && x in contents
    ensures !Less(contents[|contents| - 1], x)
  {
    var j :| 0 <= j < |contents| && contents[j] == x;
    Asymmetric(contents[|contents| - 1], x);
    Irreflexive(x);
  }

  lemma {:induction false} SubsetSize(a: set<Bytes>, b: set<Bytes>)
    requires a <= b
    ensures |a| <= |b|
    decreases a
  {
    if a != {} {
      var x :| x in a;
      SubsetSize(a - {x}, b - {x});
    }
  }

  /** The next key of a page: it lies after the start object, names an object of the bucket,
      and belongs to the result exactly if it is readable. */
  lemma ListedStep(bucket: Bucket, table: Bytes, startKey: Bytes, after: Bytes, n: nat, contents: seq<Bytes>,
                   i: nat, keys: seq<Bytes>)
    requires contents == Smallest(Listing(bucket, Prefix(table), after), n) && i < |contents|
    requires Collected(bucket, table, startKey, keys, CursorAt(after, contents, i))
    requires !Less(CursorAt(after, contents, i), ComposeObjectKey(table, startKey))
    ensures var o := contents[i];
            && o in bucket && o != ComposeObjectKey(table, startKey)
            && !Less(o, ComposeObjectKey(table, startKey))
            && HasPrefix(o, Prefix(table))
            && ComposeObjectKey(table, RecordKey(table, o)) == o
            && Collected(bucket, table, startKey, if bucket[o] == Unreadable then keys else keys + [o], o)
  {
    var o, cursor := contents[i], CursorAt(after, contents, i);
    PageStep(bucket, Prefix(table), after, n, contents, i);
    Advance(bucket, table, startKey, keys, cursor, o);
    AtOrAfter(ComposeObjectKey(table, startKey), cursor, o);
    Irreflexive(o);
    ListedKey(table, startKey, o);
  }

  /** The object key without the table prefix. */
  function RecordKey(table: Bytes, key: Bytes): Bytes {
    if Prefix(table) != [] && |key| > |Prefix(table)| then key[|Prefix(table)|..] else key
  }

  /** The scan has reached `cursor` with the results for `keys`. */
  ghost predicate Reached(bucket: Bucket, table: Bytes, startKey: Bytes, keys: seq<Bytes>,
                          results: seq<Option<Record>>, cursor: Bytes) {
    && Collected(bucket, table, startKey, keys, cursor)
    && !Less(cursor, ComposeObjectKey(table, startKey))
    && (forall k :: k in keys ==> k in bucket) && results == RecordsOf(bucket, keys)
  }

  /** One more listed key: passed over if it is unreadable, taken otherwise. */
  lemma ReachNext(bucket: Bucket, table: Bytes, startKey: Bytes, after: Bytes, n: nat, contents: seq<Bytes>,
                  i: nat, keys: seq<Bytes>, results: seq<Option<Record>>)
    requires contents == Smallest(Listing(bucket, Prefix(table), after), n) && i < |contents|
    requires Reached(bucket, table, startKey, keys, results, CursorAt(after, contents, i))
    ensures var o := contents[i];
            && o in bucket && o != ComposeObjectKey(table, startKey)
            && HasPrefix(o, Prefix(table)) && ComposeObjectKey(table, RecordKey(table, o)) == o
            && if bucket[o] == Unreadable then Reached(bucket, table, startKey, keys, results, o)
               else Reached(bucket, table, startKey, keys + [o], results + [RecordOf(bucket[o])], o)
  {
    ListedStep(bucket, table, startKey, after, n, contents, i, keys);
    var o := contents[i];
    if bucket[o] != Unreadable { ReachedMore(bucket, table, startKey, keys, results, o); }
  }

  lemma ReachedMore(bucket: Bucket, table: Bytes, startKey: Bytes, keys: seq<Bytes>,
                    results: seq<Option<Record>>, o: Bytes)
    requires o in bucket && (forall k :: k in keys ==> k in bucket) && results == RecordsOf(bucket, keys)
    requires Collected(bucket, table, startKey, keys + [o], o) && !Less(o, ComposeObjectKey(table, startKey))
    ensures Reached(bucket, table, startKey, keys + [o], results + [RecordOf(bucket[o])], o)
  {
    assert RecordsOf(bucket, keys + [o]) == RecordsOf(bucket, keys) + [RecordOf(bucket[o])];
  }

  /** Cuts the table prefix off a listed object key and reads the record. */
  method ReadListed(bucket: Bucket, table: Bytes, key: Bytes) returns (rec: Outcome)
    requires key in bucket && HasPrefix(key, Prefix(table)) && ComposeObjectKey(table, RecordKey(table, key)) == key
    ensures rec == bucket[key]
  {
    var prefix := Prefix(table);
    var recordKey := key;
    if prefix != [] && |key| > |prefix| && key[..|prefix|] == prefix {
      recordKey := key[|prefix|..];
    }
    rec := Read(bucket, table, recordKey);
  }

  /** The loop over one page: skips unreadable objects, stops when enough is collected. */
  method TakePage(bucket: Bucket, table: Bytes, startKey: Bytes, after: Bytes, ghost n: nat, contents: seq<Bytes>,
                  results0: seq<Option<Record>>, remaining0: nat, ghost keys0: seq<Bytes>)
    returns (results: seq<Option<Record>>, remaining: nat, ghost keys: seq<Bytes>, ghost cursor: Bytes)
    requires Reached(bucket, table, startKey, keys0, results0, after)
    requires contents == Smallest(Listing(bucket, Prefix(table), after), n)
    ensures Reached(bucket, table, startKey, keys, results, cursor)
    ensures |keys| + remaining == |keys0| + remaining0
    ensures remaining == 0 || cursor == CursorAt(after, contents, |contents|)
  {
    var startAfter := ComposeObjectKey(table, startKey);
    results, remaining, keys, cursor := results0, remaining0, keys0, after;
    for i := 0 to |contents|
      invariant cursor == CursorAt(after, contents, i)
      invariant Reached(bucket, table, startKey, keys, results, cursor)
      invariant |keys| + remaining == |keys0| + remaining0
    {
      if remaining == 0 {
        break;
      }
      var key := contents[i];
      ReachNext(bucket, table, startKey, after, n, contents, i, keys, results);
      cursor := key;
      if key == startAfter {
        continue;
      }
      var rec := ReadListed(bucket, table, key);
      if rec == Unreadable {
        continue;
      }
      results := results + [RecordOf(rec)];
      keys := keys + [key];
      remaining := remaining - 1;
    }
  }

  /** The record key cut from a listed object key names that object. */
  lemma ListedKey(table: Bytes, startKey: Bytes, key: Bytes)
    requires HasPrefix(key, Prefix(table)) && Less(ComposeObjectKey(table, startKey), key)
    ensures ComposeObjectKey(table, RecordKey(table, key)) == key
  {
    var p := Prefix(table);
    if table != [] {
      assert key == p + key[|p|..];
      assert ComposeObjectKey(table, startKey) == p + startKey;
      LessCommonPrefix(p, startKey, key[|p|..]);
    }
  }

  /** `results` are the records of `keys`, one by one; an encoded nil is no record. */
  ghost predicate ReadsOf(bucket: Bucket, keys: seq<Bytes>, results: seq<Option<Record>>) {
    && |results| == |keys|
    && forall i :: 0 <= i < |keys| ==>
         && keys[i] in bucket
         && (forall r :: bucket[keys[i]] == Rec(r) ==> results[i] == Some(r))
         && (bucket[keys[i]] == Null ==> results[i] == None)
         && bucket[keys[i]] != Unreadable
  }

  lemma RecordsAreReads(bucket: Bucket, table: Bytes, startKey: Bytes, n: nat)
    ensures var keys := Smallest(Eligible(bucket, table, startKey), n);
            (forall k :: k in keys ==> k in bucket) && ReadsOf(bucket, keys, RecordsOf(bucket, keys))
  {
    var keys := Smallest(Eligible(bucket, table, startKey), n);
    SmallestSize(Eligible(bucket, table, startKey), n);
    assert forall i :: 0 <= i < |keys| ==> keys[i] in keys;
  }

  /** For every bucket, page split and set of unreadable objects: the scan ends and returns
      the first `count` eligible records in byte order, each once, as they are stored. */
  method Scan(bucket: Bucket, table: Bytes, startKey: Bytes, count: int) returns (results: seq<Option<Record>>)
    requires count < 0x8000_0000
    ensures count <= 0 ==> results == []
    ensures 0 < count ==>
              var keys := Smallest(Eligible(bucket, table, startKey), count);
              (forall k :: k in keys ==> k in bucket) && results == RecordsOf(bucket, keys)
    ensures 0 < count ==> ReadsOf(bucket, Smallest(Eligible(bucket, table, startKey), count), results)
  {
    if count <= 0 {
      return [];
    }
    RecordsAreReads(bucket, table, startKey, count);
    results := [];
    ghost var keys: seq<Bytes> := [];
    var startAfter := ComposeObjectKey(table, startKey);
    Irreflexive(startAfter);
    ObjectOrder(table, startKey, startKey);
    if startKey != [] {
      var rec := Read(bucket, table, startKey);
      if rec.Rec? {
        results := results + [RecordOf(rec)];
        keys := [startAfter];
      }
    }
    StartCollected(bucket, table, startKey);
    if |results| >= count {
      Finish(bucket, table, startKey, keys, startAfter, count);
      return;
    }
    var prefix := Prefix(table);
    var contToken: Option<Bytes> := None;
    var remaining := count - |results|;
    ghost var cursor := startAfter;
    while remaining > 0
      invariant 0 <= remaining == count - |keys|
      invariant Collected(bucket, table, startKey, keys, cursor) && !Less(cursor, startAfter)
      invariant (forall k :: k in keys ==> k in bucket) && results == RecordsOf(bucket, keys)
      invariant remaining > 0 ==> cursor == if contToken.Some? then contToken.value else startAfter
      decreases |Listing(bucket, prefix, cursor)|, remaining
    {
      var maxKeys := if remaining > MAX_PAGE then MAX_PAGE else remaining;
      var after := if contToken.Some? then contToken.value else startAfter;
      var contents, truncated, next := ListObjects(bucket, prefix, startAfter, contToken, maxKeys);
      ghost var n: nat :| 0 < n <= maxKeys && contents == Smallest(Listing(bucket, prefix, after), n);
      SmallestSize(Listing(bucket, prefix, after), n);
      if |contents| == 0 {
        break;
      }
      PageEnd(bucket, prefix, after, n, contents);
      results, remaining, keys, cursor :=
        TakePage(bucket, table, startKey, after, n, contents, results, remaining, keys);
      if !truncated || remaining == 0 {
        break;
      }
      contToken := next;
    }
    Finish(bucket, table, startKey, keys, cursor, count);
  }

  /** What the read of the start key collects. */
  lemma StartCollected(bucket: Bucket, table: Bytes, startKey: Bytes)
    ensures var first := ComposeObjectKey(table, startKey);
            var keys := if startKey != [] && Read(bucket, table, startKey).Rec? then [first] else [];
            Collected(bucket, table, startKey, keys, first)
  {
    var first := ComposeObjectKey(table, startKey);
    Irreflexive(first);
    ObjectOrder(table, startKey, startKey);
  }
}
