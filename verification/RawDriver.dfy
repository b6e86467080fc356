/** The records of a TiKV table as the raw driver stores them: encoded rows in a shared map
    from row key to bytes. */
module RawRows {
  import opened ByteStrings
  import opened Options
  import opened Rows
  import opened RowCodecs

  type Store = map<Bytes, Bytes>
  type Table = map<Bytes, Values>

  /** fmt.Sprintf("%s:%s", table, key) */
  function RowKey(table: Bytes, key: Bytes): Bytes {
    table + [COLON] + key
  }

  /** Different records of a table have different row keys. */
  lemma RowKeyTellsKeys(table: Bytes, k: Bytes, l: Bytes)
    ensures RowKey(table, k) == RowKey(table, l) ==> k == l
  {
    assert RowKey(table, k)[|table| + 1..] == k && RowKey(table, l)[|table| + 1..] == l;
  }

  /** Neither name is the other one cut off before a colon. */
  predicate Separate(t: Bytes, u: Bytes) {
    t == u || !(HasPrefix(t + [COLON], u + [COLON]) || HasPrefix(u + [COLON], t + [COLON]))
  }

  lemma SameRowKey(t: Bytes, k: Bytes, u: Bytes, l: Bytes)
    requires RowKey(t, k) == RowKey(u, l) && |t| <= |u|
    ensures HasPrefix(u + [COLON], t + [COLON])
  {
    var r := RowKey(t, k);
    assert r[..|t| + 1] == t + [COLON] && r[..|u| + 1] == u + [COLON];
    assert r[..|u| + 1][..|t| + 1] == r[..|t| + 1];
  }

  /** Row keys tell the records of two tables apart if and only if the tables are separate. */
  lemma RowKeyTellsRecordsIff(t: Bytes, u: Bytes)
    ensures (forall k, l :: RowKey(t, k) == RowKey(u, l) ==> t == u && k == l) <==> Separate(t, u)
  {
    if Separate(t, u) {
      forall k, l | RowKey(t, k) == RowKey(u, l) ensures t == u && k == l {
        if |t| <= |u| { SameRowKey(t, k, u, l); } else { SameRowKey(u, l, t, k); }
        RowKeyTellsKeys(t, k, l);
      }
    } else {
      var k, l := SharedRowKey(t, u);
    }
  }

  /** Tables that are not separate share a row key. */
  lemma SharedRowKey(t: Bytes, u: Bytes) returns (k: Bytes, l: Bytes)
    requires !Separate(t, u)
    ensures t != u && RowKey(t, k) == RowKey(u, l)
  {
    if HasPrefix(u + [COLON], t + [COLON]) {
      k, l := (u + [COLON])[|t| + 1..], [];
      assert u + [COLON] == t + [COLON] + k;
    } else {
      k, l := [], (t + [COLON])[|u| + 1..];
      assert t + [COLON] == u + [COLON] + l;
    }
  }

  /** Names without a colon are separate. */
  lemma PlainNamesSeparate(t: Bytes, u: Bytes)
    requires COLON !in t && COLON !in u
    ensures Separate(t, u)
  {
    if HasPrefix(t + [COLON], u + [COLON]) {
      FirstColon(t, u, t + [COLON]);
    } else if HasPrefix(u + [COLON], t + [COLON]) {
      FirstColon(t, u, u + [COLON]);
    }
  }

  /** A non-empty row that decodes; every row the codec writes is one. */
  predicate GoodRow(c: RowCodec, row: Bytes) {
    row != [] && DecodeFields(c, row, []).Ok?
  }

  /** The record a row stands for. */
  function Record(c: RowCodec, row: Bytes): Values
    requires GoodRow(c, row)
  {
    DecodeFields(c, row, []).value
  }

  ghost predicate GoodStore(c: RowCodec, store: Store) {
    forall k :: k in store ==> GoodRow(c, store[k])
  }

  ghost function RecordsOf(c: RowCodec, store: Store): Table
    requires GoodStore(c, store)
  {
    map k | k in store :: Record(c, store[k])
  }

  /** The record with the fields of `values` overwritten; an absent record counts as empty. */
  function Merge(record: Values, values: Values): Values {
    record + values
  }

  function Lookup(t: Table, k: Bytes): Values {
    if k in t then t[k] else map[]
  }

  function ReadRecord(t: Table, table: Bytes, key: Bytes, fields: seq<Bytes>): Option<Values> {
    var k := RowKey(table, key);
    if k in t then Some(Restrict(t[k], fields)) else None
  }

  /** Reading a key of the store is reading the table. */
  lemma ReadRow(c: RowCodec, n: nat, store: Store, table: Bytes, key: Bytes, fields: seq<Bytes>)
    requires IsCodec(c, n) && GoodStore(c, store) && (forall f :: f in fields ==> f in c.fieldIndices)
    ensures var k := RowKey(table, key);
            if k in store
            then DecodeFields(c, store[k], fields).Ok?
              && ReadRecord(RecordsOf(c, store), table, key, fields) == Some(DecodeFields(c, store[k], fields).value)
            else ReadRecord(RecordsOf(c, store), table, key, fields) == None
  {
    var k := RowKey(table, key);
    if k in store { DecodeSome(c, n, store[k], fields); }
  }

  lemma RecordIsKnown(c: RowCodec, n: nat, row: Bytes)
    requires IsCodec(c, n) && GoodRow(c, row)
    ensures Known(c, Record(c, row))
  {
  }

  lemma EncodedRowIsGood(c: RowCodec, n: nat, values: Values, order: seq<Bytes>)
    requires IsCodec(c, n) && Known(c, values) && Enumerates(order, values)
    ensures GoodRow(c, EncodeIn(c, values, order)) && Record(c, EncodeIn(c, values, order)) == values
  {
    WholeRecordRoundTrip(c, n, values, order);
  }

  /** Decoding some fields of a row is restricting its record to them. */
  lemma DecodeSome(c: RowCodec, n: nat, row: Bytes, fields: seq<Bytes>)
    requires IsCodec(c, n) && GoodRow(c, row)
    requires forall f :: f in fields ==> f in c.fieldIndices
    ensures DecodeFields(c, row, fields) == Ok(Restrict(Record(c, row), fields))
  {
    var data := Decoded(row).value;
    assert Pick(c, data, Wanted(c, fields)) == Restrict(Pick(c, data, c.fields), fields);
  }

  /** Writing a good row writes its record. */
  lemma PutRow(c: RowCodec, store: Store, k: Bytes, row: Bytes)
    requires GoodStore(c, store) && GoodRow(c, row)
    ensures GoodStore(c, store[k := row])
    ensures RecordsOf(c, store[k := row]) == RecordsOf(c, store)[k := Record(c, row)]
  {
  }

  /** The row a Get returns, empty if there is none. */
  function Fetch(store: Store, k: Bytes): Bytes {
    if k in store then store[k] else []
  }

  /** The row read for an update: absent and empty rows decode to the empty record. */
  lemma RecordOrEmpty(c: RowCodec, n: nat, store: Store, k: Bytes)
    requires IsCodec(c, n) && GoodStore(c, store)
    ensures && DecodeFields(c, Fetch(store, k), []) == Ok(Lookup(RecordsOf(c, store), k))
            && Known(c, Lookup(RecordsOf(c, store), k))
  {
    if k in store { RecordIsKnown(c, n, store[k]); }
  }
}

/** The raw driver as an object.  Each method runs to completion, in either update mode;
    its effect is stated on the decoded table, where the byte order of rows is invisible. */
module RawDriver {
  import opened ByteStrings
  import opened Options
  import opened RowCodecs
  import opened RawRows

  /** rawDBState: the row this thread read last. */
  class ThreadState {
    var key: Bytes
    var row: Option<Bytes>

    constructor ()
      ensures row == None
    {
      key, row := [], None;
    }

    ghost predicate Valid(c: RowCodec)
      reads this
    {
      row.Some? ==> GoodRow(c, row.value)
    }
  }

  class RawDB {
    const codec: RowCodec
    const casMode: bool
    var store: Store
    ghost const fieldCount: nat

    ghost predicate Valid()
      reads this
    {
      IsCodec(codec, fieldCount) && GoodStore(codec, store)
    }

    ghost function Table(): Table
      requires Valid()
      reads this
    {
      RecordsOf(codec, store)
    }

    constructor (codec: RowCodec, ghost fieldCount: nat, casMode: bool, store: Store)
      requires IsCodec(codec, fieldCount) && GoodStore(codec, store)
      ensures Valid() && this.codec == codec && this.casMode == casMode && this.store == store
    {
      this.codec, this.fieldCount, this.casMode, this.store := codec, fieldCount, casMode, store;
    }

    method Read(state: ThreadState, table: Bytes, key: Bytes, fields: seq<Bytes>) returns (r: Option<Values>)
      requires Valid() && state.Valid(codec)
      requires forall f :: f in fields ==> f in codec.fieldIndices
      modifies state
      ensures state.Valid(codec)
      ensures r == ReadRecord(Table(), table, key, fields)
      ensures var k := RowKey(table, key);
              if casMode && k in store then state.key == k && state.row == Some(store[k])
              else state.key == old(state.key) && state.row == old(state.row)
    {
      ReadRow(codec, fieldCount, store, table, key, fields);
      var rowKey := RowKey(table, key);
      if rowKey !in store {
        return None;
      }
      var row := store[rowKey];
      if casMode {
        state.key, state.row := rowKey, Some(row);
      }
      var decoded := RowCodecs.Decode(codec, row, fields);
      r := Some(decoded.value);
    }

    method BatchRead(table: Bytes, keys: seq<Bytes>, fields: seq<Bytes>) returns (rs: seq<Option<Values>>)
      requires Valid()
      requires forall f :: f in fields ==> f in codec.fieldIndices
      ensures |rs| == |keys|
      ensures forall i :: 0 <= i < |keys| ==> rs[i] == ReadRecord(Table(), table, keys[i], fields)
    {
      rs := [];
      ghost var t := Table();
      for i := 0 to |keys|
        invariant |rs| == i
        invariant forall j :: 0 <= j < i ==> rs[j] == ReadRecord(t, table, keys[j], fields)
      {
        var r := ReadOne(table, keys[i], fields);
        rs := rs + [r];
      }
    }

    /** Get and decode, without touching the cache. */
    method ReadOne(table: Bytes, key: Bytes, fields: seq<Bytes>) returns (r: Option<Values>)
      requires Valid()
      requires forall f :: f in fields ==> f in codec.fieldIndices
      ensures r == ReadRecord(Table(), table, key, fields)
    {
      ReadRow(codec, fieldCount, store, table, key, fields);
      var rowKey := RowKey(table, key);
      if rowKey !in store {
        return None;
      }
      var decoded := RowCodecs.Decode(codec, store[rowKey], fields);
      r := Some(decoded.value);
    }

    method Insert(table: Bytes, key: Bytes, values: Values)
      requires Valid() && Known(codec, values)
      modifies this`store
      ensures Valid() && Table() == old(Table())[RowKey(table, key) := values]
    {
      var buf, order := Encode(codec, values);
      EncodedRowIsGood(codec, fieldCount, values, order);
      PutRow(codec, store, RowKey(table, key), buf.value);
      store := store[RowKey(table, key) := buf.value];
    }

    /** In CAS mode a row read by this thread is swapped against the store; a conflict, a
        missing or foreign cache entry, and the plain mode all fall back to get and put. */
    method Update(state: ThreadState, table: Bytes, key: Bytes, values: Values)
      requires Valid() && state.Valid(codec) && Known(codec, values)
      modifies this`store, state
      ensures Valid() && state.Valid(codec)
      ensures var k := RowKey(table, key);
              Table() == old(Table())[k := Merge(Lookup(old(Table()), k), values)]
      ensures if casMode && old(state.row).Some? && old(state.key) == RowKey(table, key) then state.row == None
              else state.key == old(state.key) && state.row == old(state.row)
    {
      var rowKey := RowKey(table, key);
      RecordOrEmpty(codec, fieldCount, store, rowKey);
      if casMode && state.row.Some? && state.key == rowKey {
        var prevRow := state.row.value;
        state.key, state.row := [], None;
        var success := Swap(rowKey, prevRow, values);
        if success {
          return;
        }
      }
      var row := Fetch(store, rowKey);
      var decoded := RowCodecs.Decode(codec, row, []);
      Insert(table, key, Merge(decoded.value, values));
    }

    /** The CAS attempt: merges into the cached row and swaps if the store still holds it. */
    method Swap(rowKey: Bytes, prevRow: Bytes, values: Values) returns (success: bool)
      requires Valid() && GoodRow(codec, prevRow) && Known(codec, values)
      modifies this`store
      ensures Valid()
      ensures success <==> rowKey in old(store) && old(store)[rowKey] == prevRow
      ensures success ==> Table() == old(Table())[rowKey := Merge(old(Table())[rowKey], values)]
      ensures !success ==> store == old(store)
    {
      var decoded := RowCodecs.Decode(codec, prevRow, []);
      RecordIsKnown(codec, fieldCount, prevRow);
      var data := Merge(decoded.value, values);
      var buf, order := Encode(codec, data);
      EncodedRowIsGood(codec, fieldCount, data, order);
      success := rowKey in store && store[rowKey] == prevRow;
      if success {
        PutRow(codec, store, rowKey, buf.value);
        store := store[rowKey := buf.value];
      }
    }

    method Delete(table: Bytes, key: Bytes)
      requires Valid()
      modifies this`store
      ensures Valid() && Table() == old(Table()) - {RowKey(table, key)}
    {
      store := store - {RowKey(table, key)};
    }

    /** BatchInsert and BatchUpdate are the same loop followed by one BatchPut. */
    method BatchPut(table: Bytes, rows: seq<(Bytes, Values)>)
      requires Valid()
      requires forall i :: 0 <= i < |rows| ==> Known(codec, rows[i].1)
      modifies this`store
      ensures Valid() && Table() == PutAll(old(Table()), table, rows)
    {
      for i := 0 to |rows|
        invariant Valid() && Table() == PutAll(old(Table()), table, rows[..i])
      {
        Insert(table, rows[i].0, rows[i].1);
        assert rows[..i + 1][..i] == rows[..i];
      }
      assert rows[..|rows|] == rows;
    }

    method BatchDelete(table: Bytes, keys: seq<Bytes>)
      requires Valid()
      modifies this`store
      ensures Valid() && Table() == old(Table()) - RowKeys(table, keys)
    {
      assert RowKeys(table, keys[..0]) == {};
      for i := 0 to |keys|
        invariant Valid() && Table() == old(Table()) - RowKeys(table, keys[..i])
      {
        Delete(table, keys[i]);
        RowKeysSnoc(table, keys, i);
      }
      assert keys[..|keys|] == keys;
    }
  }

  function RowKeys(table: Bytes, keys: seq<Bytes>): set<Bytes> {
    set k | k in keys :: RowKey(table, k)
  }

  lemma RowKeysSnoc(table: Bytes, keys: seq<Bytes>, i: nat)
    requires i < |keys|
    ensures RowKeys(table, keys[..i + 1]) == RowKeys(table, keys[..i]) + {RowKey(table, keys[i])}
  {
    assert keys[..i + 1] == keys[..i] + [keys[i]];
  }

  function PutAll(t: Table, table: Bytes, rows: seq<(Bytes, Values)>): Table {
    if rows == [] then t
    else
      var n := |rows| - 1;
      PutAll(t, table, rows[..n])[RowKey(table, rows[n].0) := rows[n].1]
  }

  // ---------- Runs of whole operations ----------

  datatype Op =
    | Read(table: Bytes, key: Bytes, fields: seq<Bytes>)
    | BatchRead(table: Bytes, keys: seq<Bytes>, fields: seq<Bytes>)
    | Insert(table: Bytes, key: Bytes, values: Values)
    | Update(table: Bytes, key: Bytes, values: Values)
    | Delete(table: Bytes, key: Bytes)
    | BatchPut(table: Bytes, rows: seq<(Bytes, Values)>)
    | BatchDelete(table: Bytes, keys: seq<Bytes>)

  /** An operation and the thread that issues it. */
  datatype Call = Call(thread: nat, op: Op)

  ghost predicate WellFormed(c: RowCodec, op: Op) {
    match op
    case Read(_, _, fields) => forall f :: f in fields ==> f in c.fieldIndices
    case BatchRead(_, _, fields) => forall f :: f in fields ==> f in c.fieldIndices
    case Insert(_, _, values) => Known(c, values)
    case Update(_, _, values) => Known(c, values)
    case Delete(_, _) => true
    case BatchPut(_, rows) => forall i :: 0 <= i < |rows| ==> Known(c, rows[i].1)
    case BatchDelete(_, _) => true
  }

  /** One operation on a plain table of records: no rows, no cache, no modes. */
  function TableStep(t: Table, op: Op): (Table, seq<Option<Values>>) {
    match op
    case Read(table, key, fields) => (t, [ReadRecord(t, table, key, fields)])
    case BatchRead(table, keys, fields) =>
      (t, seq(|keys|, i requires 0 <= i < |keys| => ReadRecord(t, table, keys[i], fields)))
    case Insert(table, key, values) => (t[RowKey(table, key) := values], [])
    case Update(table, key, values) =>
      var k := RowKey(table, key);
      (t[k := Merge(Lookup(t, k), values)], [])
    case Delete(table, key) => (t - {RowKey(table, key)}, [])
    case BatchPut(table, rows) => (PutAll(t, table, rows), [])
    case BatchDelete(table, keys) => (t - RowKeys(table, keys), [])
  }

  function TableRun(t: Table, calls: seq<Call>): (Table, seq<seq<Option<Values>>>) {
    if calls == [] then (t, [])
    else
      var n := |calls| - 1;
      var (t1, outs) := TableRun(t, calls[..n]);
      var (t2, out) := TableStep(t1, calls[n].op);
      (t2, outs + [out])
  }

  // ---------- The same on records named by (table, key) ----------

  /** A plain table of records, named without any row key. */
  type PairTable = map<(Bytes, Bytes), Values>

  function TableName(op: Op): Bytes {
    op.table
  }

  ghost predicate AllSeparate(names: set<Bytes>) {
    forall t, u :: t in names && u in names ==> Separate(t, u)
  }

  ghost predicate CallsOn(names: set<Bytes>, calls: seq<Call>) {
    forall i :: 0 <= i < |calls| ==> TableName(calls[i].op) in names
  }

  ghost function PairKeys(names: set<Bytes>, t: Table): set<(Bytes, Bytes)> {
    set n, r | n in names && r in t && HasPrefix(r, n + [COLON]) :: (n, r[|n| + 1..])
  }

  lemma PairKeysIff(names: set<Bytes>, t: Table, n: Bytes, k: Bytes)
    ensures (n, k) in PairKeys(names, t) <==> n in names && RowKey(n, k) in t
  {
    var r := RowKey(n, k);
    assert r[..|n| + 1] == n + [COLON] && r[|n| + 1..] == k;
    if (n, k) in PairKeys(names, t) {
      var x :| x in t && HasPrefix(x, n + [COLON]) && x[|n| + 1..] == k;
      assert x == x[..|n| + 1] + x[|n| + 1..] == r;
    }
  }

  /** The records of the named tables in a table of rows. */
  ghost function PairsOf(names: set<Bytes>, t: Table): PairTable {
    map p | p in PairKeys(names, t) && RowKey(p.0, p.1) in t :: t[RowKey(p.0, p.1)]
  }

  lemma PairsHold(names: set<Bytes>, t: Table)
    ensures forall n, k :: (n, k) in PairsOf(names, t) <==> n in names && RowKey(n, k) in t
    ensures forall n, k :: (n, k) in PairsOf(names, t) ==> PairsOf(names, t)[(n, k)] == t[RowKey(n, k)]
  {
    forall n, k ensures (n, k) in PairKeys(names, t) <==> n in names && RowKey(n, k) in t {
      PairKeysIff(names, t, n, k);
    }
  }

  function PairRead(p: PairTable, table: Bytes, key: Bytes, fields: seq<Bytes>): Option<Values> {
    if (table, key) in p then Some(Restrict(p[(table, key)], fields)) else None
  }

  function PutPairs(p: PairTable, table: Bytes, rows: seq<(Bytes, Values)>): PairTable
    decreases |rows|
  {
    if rows == [] then p else PutPairs(p[(table, rows[0].0) := rows[0].1], table, rows[1..])
  }

  /** One operation on the plain table. */
  function PairStep(p: PairTable, op: Op): (PairTable, seq<Option<Values>>) {
    match op
    case Read(table, key, fields) => (p, [PairRead(p, table, key, fields)])
    case BatchRead(table, keys, fields) =>
      (p, seq(|keys|, i requires 0 <= i < |keys| => PairRead(p, table, keys[i], fields)))
    case Insert(table, key, values) => (p[(table, key) := values], [])
    case Update(table, key, values) =>
      (p[(table, key) := if (table, key) in p then p[(table, key)] + values else values], [])
    case Delete(table, key) => (p - {(table, key)}, [])
    case BatchPut(table, rows) => (PutPairs(p, table, rows), [])
    case BatchDelete(table, keys) => (map q | q in p && !(q.0 == table && q.1 in keys) :: p[q], [])
  }

  function PairRun(p: PairTable, calls: seq<Call>): (PairTable, seq<seq<Option<Values>>>) {
    if calls == [] then (p, [])
    else
      var n := |calls| - 1;
      var (p1, outs) := PairRun(p, calls[..n]);
      var (p2, out) := PairStep(p1, calls[n].op);
      (p2, outs + [out])
  }

  /** Setting a row sets one record and no other. */
  lemma PairSet(names: set<Bytes>, t: Table, table: Bytes, key: Bytes, values: Values)
    requires AllSeparate(names) && table in names
    ensures PairsOf(names, t[RowKey(table, key) := values]) == PairsOf(names, t)[(table, key) := values]
  {
    forall n, k | n in names && RowKey(n, k) == RowKey(table, key) ensures n == table && k == key {
      RowKeyTellsRecordsIff(n, table);
    }
    PairsHold(names, t);
    PairsHold(names, t[RowKey(table, key) := values]);
  }

  lemma {:induction false} PairPutAll(names: set<Bytes>, t: Table, table: Bytes, rows: seq<(Bytes, Values)>)
    requires AllSeparate(names) && table in names
    ensures PairsOf(names, PutAll(t, table, rows)) == PutPairs(PairsOf(names, t), table, rows)
    decreases |rows|
  {
    if rows != [] {
      var front, row := rows[..|rows| - 1], rows[|rows| - 1];
      assert rows == front + [row];
      PairPutAll(names, t, table, front);
      PutAllSnoc(t, table, front, row);
      PairSet(names, PutAll(t, table, front), table, row.0, row.1);
      PutPairsSnoc(PairsOf(names, t), table, front, row);
    }
  }

  lemma PutAllSnoc(t: Table, table: Bytes, rows: seq<(Bytes, Values)>, row: (Bytes, Values))
    ensures PutAll(t, table, rows + [row]) == PutAll(t, table, rows)[RowKey(table, row.0) := row.1]
  {
    assert (rows + [row])[..|rows|] == rows;
  }

  lemma {:induction false} PutPairsSnoc(p: PairTable, table: Bytes, rows: seq<(Bytes, Values)>, row: (Bytes, Values))
    ensures PutPairs(p, table, rows + [row]) == PutPairs(p, table, rows)[(table, row.0) := row.1]
    decreases |rows|
  {
    if rows == [] {
      assert rows + [row] == [row] && [row][1..] == [];
    } else {
      assert (rows + [row])[1..] == rows[1..] + [row];
      PutPairsSnoc(p[(table, rows[0].0) := rows[0].1], table, rows[1..], row);
    }
  }

  /** Removing rows removes the records they name and no other. */
  lemma PairRemove(names: set<Bytes>, t: Table, table: Bytes, keys: seq<Bytes>)
    requires AllSeparate(names) && table in names
    ensures var p := PairsOf(names, t);
            PairsOf(names, t - RowKeys(table, keys)) == map q | q in p && !(q.0 == table && q.1 in keys) :: p[q]
  {
    forall n, k | n in names ensures RowKey(n, k) in RowKeys(table, keys) <==> n == table && k in keys {
      if RowKey(n, k) in RowKeys(table, keys) {
        var x :| x in keys && RowKey(table, x) == RowKey(n, k);
        RowKeyTellsRecordsIff(n, table);
      }
    }
    PairsHold(names, t);
    PairsHold(names, t - RowKeys(table, keys));
  }

  lemma PairReads(names: set<Bytes>, t: Table, table: Bytes, key: Bytes, fields: seq<Bytes>)
    requires table in names
    ensures ReadRecord(t, table, key, fields) == PairRead(PairsOf(names, t), table, key, fields)
  {
    PairsHold(names, t);
    assert (table, key) in PairsOf(names, t) <==> RowKey(table, key) in t;
  }

  lemma PairBatchReads(names: set<Bytes>, t: Table, table: Bytes, keys: seq<Bytes>, fields: seq<Bytes>)
    requires table in names
    ensures TableStep(t, BatchRead(table, keys, fields)).1 ==
            PairStep(PairsOf(names, t), BatchRead(table, keys, fields)).1
  {
    forall i | 0 <= i < |keys|
      ensures ReadRecord(t, table, keys[i], fields) == PairRead(PairsOf(names, t), table, keys[i], fields)
    {
      PairReads(names, t, table, keys[i], fields);
    }
  }

  lemma PairMerge(names: set<Bytes>, t: Table, table: Bytes, key: Bytes, values: Values)
    requires table in names
    ensures var p := PairsOf(names, t);
            Merge(Lookup(t, RowKey(table, key)), values) == if (table, key) in p then p[(table, key)] + values else values
  {
    PairsHold(names, t);
    assert (table, key) in PairsOf(names, t) <==> RowKey(table, key) in t;
    assert Merge(map[], values) == values;
  }

  lemma PairUpdate(names: set<Bytes>, t: Table, table: Bytes, key: Bytes, values: Values)
    requires AllSeparate(names) && table in names
    ensures PairsOf(names, TableStep(t, Update(table, key, values)).0) ==
            PairStep(PairsOf(names, t), Update(table, key, values)).0
  {
    PairSet(names, t, table, key, Merge(Lookup(t, RowKey(table, key)), values));
    PairMerge(names, t, table, key, values);
  }

  lemma PairDelete(names: set<Bytes>, t: Table, table: Bytes, key: Bytes)
    requires AllSeparate(names) && table in names
    ensures PairsOf(names, t - {RowKey(table, key)}) == PairsOf(names, t) - {(table, key)}
  {
    PairRemove(names, t, table, [key]);
    assert RowKeys(table, [key]) == {RowKey(table, key)};
  }

  lemma StepOnPairs(names: set<Bytes>, t: Table, op: Op)
    requires AllSeparate(names) && TableName(op) in names
    ensures PairsOf(names, TableStep(t, op).0) == PairStep(PairsOf(names, t), op).0
    ensures TableStep(t, op).1 == PairStep(PairsOf(names, t), op).1
  {
    match op
    case Read(table, key, fields) => PairReads(names, t, table, key, fields);
    case BatchRead(table, keys, fields) => PairBatchReads(names, t, table, keys, fields);
    case Insert(table, key, values) => PairSet(names, t, table, key, values);
    case Update(table, key, values) => PairUpdate(names, t, table, key, values);
    case Delete(table, key) => PairDelete(names, t, table, key);
    case BatchPut(table, rows) => PairPutAll(names, t, table, rows);
    case BatchDelete(table, keys) => PairRemove(names, t, table, keys);
  }

  /** On separate tables a table of rows acts as the plain table of records. */
  lemma {:induction false} RunOnPairs(names: set<Bytes>, t: Table, calls: seq<Call>)
    requires AllSeparate(names) && CallsOn(names, calls)
    ensures (PairsOf(names, TableRun(t, calls).0), TableRun(t, calls).1) == PairRun(PairsOf(names, t), calls)
    decreases |calls|
  {
    if calls != [] {
      var n := |calls| - 1;
      RunOnPairs(names, t, calls[..n]);
      StepOnPairs(names, TableRun(t, calls[..n]).0, calls[n].op);
    }
  }

  /** On tables that are not separate it does not: a record inserted into one of them is
      read back from the other. */
  lemma UnseparateTablesMix(t: Bytes, u: Bytes, values: Values) returns (k: Bytes, l: Bytes)
    requires !Separate(t, u)
    ensures t != u
    ensures var none: Table := map[];
            ReadRecord(TableStep(none, Insert(t, k, values)).0, u, l, []) == Some(values)
  {
    k, l := SharedRowKey(t, u);
  }

  method Perform(db: RawDB, state: ThreadState, op: Op) returns (out: seq<Option<Values>>)
    requires db.Valid() && state.Valid(db.codec) && WellFormed(db.codec, op)
    modifies db`store, state
    ensures db.Valid() && state.Valid(db.codec)
    ensures (db.Table(), out) == TableStep(old(db.Table()), op)
  {
    out := [];
    match op {
      case Read(table, key, fields) =>
        var r := db.Read(state, table, key, fields);
        out := [r];
      case BatchRead(table, keys, fields) =>
        out := db.BatchRead(table, keys, fields);
        assert out == TableStep(db.Table(), op).1;
      case Insert(table, key, values) => db.Insert(table, key, values);
      case Update(table, key, values) => db.Update(state, table, key, values);
      case Delete(table, key) => db.Delete(table, key);
      case BatchPut(table, rows) => db.BatchPut(table, rows);
      case BatchDelete(table, keys) => db.BatchDelete(table, keys);
    }
  }

  /** Any sequence of operations by any number of threads, each with its own cached row:
      the driver returns and stores what a table of rows does; and if the names of all its
      tables are separate, what a plain table of records named by (table, key) does. */
  method RunCalls(db: RawDB, states: seq<ThreadState>, calls: seq<Call>, ghost names: set<Bytes>)
    returns (outs: seq<seq<Option<Values>>>)
    requires db.Valid() && forall s :: s in states ==> s.Valid(db.codec)
    requires forall i :: 0 <= i < |calls| ==> calls[i].thread < |states| && WellFormed(db.codec, calls[i].op)
    modifies db`store, states
    ensures db.Valid() && forall s :: s in states ==> s.Valid(db.codec)
    ensures (db.Table(), outs) == TableRun(old(db.Table()), calls)
    ensures AllSeparate(names) && CallsOn(names, calls) ==>
              (PairsOf(names, db.Table()), outs) == PairRun(PairsOf(names, old(db.Table())), calls)
  {
    outs := [];
    for i := 0 to |calls|
      invariant db.Valid() && forall s :: s in states ==> s.Valid(db.codec)
      invariant (db.Table(), outs) == TableRun(old(db.Table()), calls[..i])
    {
      var out := Perform(db, states[calls[i].thread], calls[i].op);
      outs := outs + [out];
      assert calls[..i + 1][..i] == calls[..i];
    }
    assert calls[..|calls|] == calls;
    if AllSeparate(names) && CallsOn(names, calls) { RunOnPairs(names, old(db.Table()), calls); }
  }

  /** The two update modes, run over the same operations from the same store, both return
      the reads and leave the decoded table of the plain table, and so agree. */
  method ModesAgree(c: RowCodec, ghost n: nat, store: Store, threads: nat, calls: seq<Call>, ghost names: set<Bytes>)
    returns (cas: RawDB, plain: RawDB, casOuts: seq<seq<Option<Values>>>, plainOuts: seq<seq<Option<Values>>>)
    requires IsCodec(c, n) && GoodStore(c, store)
    requires forall i :: 0 <= i < |calls| ==> calls[i].thread < threads && WellFormed(c, calls[i].op)
    ensures cas.casMode && !plain.casMode && cas.codec == c && plain.codec == c
    ensures cas.Valid() && plain.Valid()
    ensures (cas.Table(), casOuts) == TableRun(RecordsOf(c, store), calls)
    ensures (plain.Table(), plainOuts) == TableRun(RecordsOf(c, store), calls)
    ensures AllSeparate(names) && CallsOn(names, calls) ==>
              && (PairsOf(names, cas.Table()), casOuts) == PairRun(PairsOf(names, RecordsOf(c, store)), calls)
              && (PairsOf(names, plain.Table()), plainOuts) == PairRun(PairsOf(names, RecordsOf(c, store)), calls)
  {
    cas := new RawDB(c, n, true, store);
    plain := new RawDB(c, n, false, store);
    var casStates := NewThreads(c, threads);
    casOuts := RunCalls(cas, casStates, calls, names);
    var plainStates := NewThreads(c, threads);
    plainOuts := RunCalls(plain, plainStates, calls, names);
  }

  method NewThreads(c: RowCodec, threads: nat) returns (states: seq<ThreadState>)
    ensures |states| == threads && fresh(states) && forall s :: s in states ==> s.Valid(c)
  {
    states := [];
    for i := 0 to threads
      invariant |states| == i && fresh(states) && forall s :: s in states ==> s.Valid(c)
    {
      var s := new ThreadState();
      states := states + [s];
    }
  }
}
