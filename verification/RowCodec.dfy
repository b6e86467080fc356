/** The field-name layer of pkg/util/core.go over the row format. */
module RowCodecs {
  import opened ByteStrings
  import opened Varints
  import opened Rows

  /** A record: field name to value. */
  type Values = map<Bytes, Blob>

  const FIELD: Bytes := [0x66, 0x69, 0x65, 0x6C, 0x64]

  /** fmt.Sprintf("field%d", i) */
  function FieldName(i: nat): Bytes {
    FIELD + Decimal(i)
  }

  lemma FieldNameInjective(i: nat, j: nat)
    requires FieldName(i) == FieldName(j)
    ensures i == j
  {
    assert FieldName(i)[|FIELD|..] == Decimal(i);
    assert FieldName(j)[|FIELD|..] == Decimal(j);
    DecimalInjective(i, j);
  }

  /** "field10" */
  lemma KnownFieldName()
    ensures FieldName(10) == [0x66, 0x69, 0x65, 0x6C, 0x64, 0x31, 0x30]
  {
    assert Decimal(1) == [0x31];
    assert Decimal(10) == [0x31, 0x30];
  }

  datatype RowCodec = RowCodec(fieldIndices: map<Bytes, int64>, fields: seq<Bytes>)

  /** The codec for `n` fields: the two views of the field names agree. */
  ghost predicate IsCodec(c: RowCodec, n: nat) {
    && |c.fields| == n
    && (forall i :: 0 <= i < n ==> c.fields[i] == FieldName(i))
    && (forall f :: f in c.fieldIndices <==> f in c.fields)
    && (forall i :: 0 <= i < n ==> FieldName(i) in c.fieldIndices && c.fieldIndices[FieldName(i)] == i)
  }

  /** A negative field count gives the empty map: it is only a size hint there. */
  method CreateFieldIndices(fieldCount: int64) returns (m: map<Bytes, int64>)
    ensures forall f :: f in m <==> exists i :: 0 <= i < fieldCount && FieldName(i) == f
    ensures forall i :: 0 <= i < fieldCount ==> m[FieldName(i)] == i
  {
    m := map[];
    var i := 0;
    while i < fieldCount
      invariant 0 <= i && (i <= fieldCount || i == 0)
      invariant forall f :: f in m <==> exists j :: 0 <= j < i && FieldName(j) == f
      invariant forall j :: 0 <= j < i ==> m[FieldName(j)] == j
    {
      forall j | 0 <= j < i ensures FieldName(j) != FieldName(i) {
        if FieldName(j) == FieldName(i) { FieldNameInjective(j, i); }
      }
      m := m[FieldName(i) := i];
      i := i + 1;
    }
  }

  /** A negative field count panics when the slice is made. */
  method AllFields(fieldCount: int64) returns (r: Result<seq<Bytes>>)
    ensures fieldCount < 0 <==> r == Panic
    ensures 0 <= fieldCount ==> r.Ok? && |r.value| == fieldCount
    ensures 0 <= fieldCount ==> forall i :: 0 <= i < fieldCount ==> r.value[i] == FieldName(i)
  {
    if fieldCount < 0 {
      return Panic;
    }
    var fields := [];
    var i := 0;
    while i < fieldCount
      invariant 0 <= i == |fields| <= fieldCount
      invariant forall j :: 0 <= j < i ==> fields[j] == FieldName(j)
    {
      fields := fields + [FieldName(i)];
      i := i + 1;
    }
    r := Ok(fields);
  }

  method NewRowCodec(fieldCount: int64) returns (r: Result<RowCodec>)
    ensures fieldCount < 0 <==> r == Panic
    ensures 0 <= fieldCount ==> r.Ok? && IsCodec(r.value, fieldCount)
  {
    var m := CreateFieldIndices(fieldCount);
    var fields := AllFields(fieldCount);
    if fields == Panic {
      return Panic;
    }
    r := Ok(RowCodec(m, fields.value));
  }

  /** A name that is not a field is looked up as column 0. */
  function ColumnId(c: RowCodec, f: Bytes): int64 {
    if f in c.fieldIndices then c.fieldIndices[f] else 0
  }

  /** `order` lists the keys of `values`, each once: one iteration order of the Go map. */
  ghost predicate Enumerates(order: seq<Bytes>, values: Values) {
    && (forall f :: f in order <==> f in values)
    && (forall i, j :: 0 <= i < j < |order| ==> order[i] != order[j])
  }

  function Columns(values: Values, order: seq<Bytes>): seq<Blob>
    requires forall f :: f in order ==> f in values
  {
    seq(|order|, i requires 0 <= i < |order| => values[order[i]])
  }

  function ColumnIds(c: RowCodec, order: seq<Bytes>): seq<int64> {
    seq(|order|, i requires 0 <= i < |order| => ColumnId(c, order[i]))
  }

  /** The row written when the map is iterated in `order`. */
  function EncodeIn(c: RowCodec, values: Values, order: seq<Bytes>): Bytes
    requires forall f :: f in order ==> f in values
  {
    RowBytes(Columns(values, order), ColumnIds(c, order))
  }

  /** Encode ranges over the map in an order the caller cannot choose. */
  method Encode(c: RowCodec, values: Values) returns (r: Result<Bytes>, ghost order: seq<Bytes>)
    ensures Enumerates(order, values)
    ensures r == Ok(EncodeIn(c, values, order))
  {
    var cols: seq<Blob>, ids: seq<int64> := [], [];
    var todo := values.Keys;
    order := [];
    while todo != {}
      invariant forall f :: f in values <==> f in todo || f in order
      invariant forall f :: f in order ==> f !in todo
      invariant forall i, j :: 0 <= i < j < |order| ==> order[i] != order[j]
      invariant cols == Columns(values, order) && ids == ColumnIds(c, order)
      decreases |todo|
    {
      var f :| f in todo;
      todo := todo - {f};
      cols := cols + [values[f]];
      ids := ids + [ColumnId(c, f)];
      order := order + [f];
    }
    r := EncodeRow(cols, ids);
  }

  /** The wanted fields of a row: all fields when none is named. */
  function Wanted(c: RowCodec, fields: seq<Bytes>): seq<Bytes> {
    if fields == [] then c.fields else fields
  }

  function Pick(c: RowCodec, data: map<int64, Blob>, wanted: seq<Bytes>): Values {
    map f | f in wanted && ColumnId(c, f) in data :: data[ColumnId(c, f)]
  }

  function DecodeFields(c: RowCodec, row: Bytes, fields: seq<Bytes>): Result<Values> {
    match Decoded(row)
    case Ok(data) => Ok(Pick(c, data, Wanted(c, fields)))
    case Err(e) => Err(e)
    case Panic => Panic
  }

  method Decode(c: RowCodec, row: Bytes, fields: seq<Bytes>) returns (r: Result<Values>)
    ensures r == DecodeFields(c, row, fields)
  {
    var wanted := Wanted(c, fields);
    var decoded := DecodeRow(row);
    match decoded {
      case Err(e) => return Err(e);
      case Panic => return Panic;
      case Ok(data) =>
        var res: Values := map[];
        for k := 0 to |wanted|
          invariant res == Pick(c, data, wanted[..k])
        {
          assert wanted[..k + 1] == wanted[..k] + [wanted[k]];
          var i := ColumnId(c, wanted[k]);
          if i in data {
            res := res[wanted[k] := data[i]];
          }
        }
        assert wanted[..|wanted|] == wanted;
        return Ok(res);
    }
  }

  // ---------- Round trip ----------

  ghost predicate Known(c: RowCodec, values: Values) {
    forall f :: f in values ==> f in c.fieldIndices
  }

  function Restrict(values: Values, fields: seq<Bytes>): Values {
    if fields == [] then values else map f | f in values && f in fields :: values[f]
  }

  lemma ColumnIdInjective(c: RowCodec, n: nat, f: Bytes, g: Bytes)
    requires IsCodec(c, n) && f in c.fieldIndices && g in c.fieldIndices
    requires ColumnId(c, f) == ColumnId(c, g)
    ensures f == g
  {
    var i :| 0 <= i < n && c.fields[i] == f;
    var j :| 0 <= j < n && c.fields[j] == g;
  }

  /** The decoded columns of an encoded record, whatever the iteration order. */
  lemma EncodedColumns(c: RowCodec, n: nat, values: Values, order: seq<Bytes>)
    requires IsCodec(c, n) && Known(c, values) && Enumerates(order, values)
    ensures var d := Decoded(EncodeIn(c, values, order));
            && d.Ok?
            && (forall f :: f in values ==> ColumnId(c, f) in d.value && d.value[ColumnId(c, f)] == values[f])
            && (forall id :: id in d.value ==> exists f :: f in values && ColumnId(c, f) == id)
  {
    var cols, ids := Columns(values, order), ColumnIds(c, order);
    RowRoundTrip(cols, ids);
    var m := Decoded(EncodeIn(c, values, order)).value;
    forall f | f in values ensures ColumnId(c, f) in m && m[ColumnId(c, f)] == values[f] {
      var i :| 0 <= i < |order| && order[i] == f;
      assert ids[i] == ColumnId(c, f);
      if ids[i] in ids[i + 1..] {
        var j :| i + 1 <= j < |ids| && ids[j] == ids[i];
        ColumnIdInjective(c, n, order[i], order[j]);
      }
    }
    forall id | id in m ensures exists f :: f in values && ColumnId(c, f) == id {
      var i :| 0 <= i < |ids| && ids[i] == id;
      assert order[i] in values;
    }
  }

  /** Which of the requested names come out of a row, and with what. */
  lemma PickedFields(c: RowCodec, n: nat, values: Values, order: seq<Bytes>, f: Bytes)
    requires IsCodec(c, n) && Known(c, values) && Enumerates(order, values)
    ensures var data := Decoded(EncodeIn(c, values, order));
            && data.Ok?
            && (f in c.fieldIndices ==> (ColumnId(c, f) in data.value <==> f in values))
            && (f in values ==> data.value[ColumnId(c, f)] == values[f])
            && (f !in c.fieldIndices ==> (ColumnId(c, f) in data.value <==> FieldName(0) in values))
  {
    EncodedColumns(c, n, values, order);
    var data := Decoded(EncodeIn(c, values, order)).value;
    if f in c.fieldIndices {
      if ColumnId(c, f) in data {
        var g :| g in values && ColumnId(c, g) == ColumnId(c, f);
        ColumnIdInjective(c, n, f, g);
      }
    } else {
      UnknownPicksFieldZero(c, n, values, data);
    }
  }

  /** For every record over known fields and every iteration order: decoding gives the
      record restricted to the requested fields if and only if each requested name is a
      field, or the record has no field0 for an unknown name to pick up. */
  lemma CodecRoundTrip(c: RowCodec, n: nat, values: Values, order: seq<Bytes>, fields: seq<Bytes>)
    requires IsCodec(c, n) && Known(c, values) && Enumerates(order, values)
    ensures DecodeFields(c, EncodeIn(c, values, order), fields) == Ok(Restrict(values, fields)) <==>
            ((forall f :: f in fields ==> f in c.fieldIndices) || FieldName(0) !in values)
  {
    var data := Decoded(EncodeIn(c, values, order));
    forall f ensures PicksRight(c, values, data, f) { PickedFields(c, n, values, order, f); }
    assert PicksRight(c, values, data, FieldName(0));
    RestrictedIff(c, values, data.value, fields);
  }

  /** For example, asking a record that has only field0 for the unknown name "x" returns the
      value of field0 under "x". */
  lemma UnknownNameReadsFieldZero(c: RowCodec, n: nat, v: Blob)
    requires IsCodec(c, n) && 0 < n
    ensures var x: Bytes := [0x78];
            DecodeFields(c, EncodeIn(c, map[FieldName(0) := v], [FieldName(0)]), [x]) == Ok(map[x := v])
  {
    var x: Bytes := [0x78];
    var values, order := map[FieldName(0) := v], [FieldName(0)];
    assert forall i :: 0 <= i < n ==> |c.fields[i]| > |x|;
    assert Enumerates(order, values);
    PickedFields(c, n, values, order, x);
    PickedFields(c, n, values, order, FieldName(0));
    var data := Decoded(EncodeIn(c, values, order)).value;
    assert Pick(c, data, [x]) == map[x := v];
  }

  /** What the columns of an encoded record hold under a requested name. */
  ghost predicate PicksRight(c: RowCodec, values: Values, data: Result<map<int64, Blob>>, f: Bytes) {
    && data.Ok?
    && (f in c.fieldIndices ==> (ColumnId(c, f) in data.value <==> f in values))
    && (f in values && ColumnId(c, f) in data.value ==> data.value[ColumnId(c, f)] == values[f])
    && (f !in c.fieldIndices ==> (ColumnId(c, f) in data.value <==> FieldName(0) in values))
  }

  lemma RestrictedIff(c: RowCodec, values: Values, data: map<int64, Blob>, fields: seq<Bytes>)
    requires Known(c, values) && (forall f :: f in c.fieldIndices <==> f in c.fields)
    requires forall f :: PicksRight(c, values, Ok(data), f)
    ensures Pick(c, data, Wanted(c, fields)) == Restrict(values, fields) <==>
            ((forall f :: f in fields ==> f in c.fieldIndices) || FieldName(0) !in values)
  {
    var got, want := Pick(c, data, Wanted(c, fields)), Restrict(values, fields);
    if (forall f :: f in fields ==> f in c.fieldIndices) || FieldName(0) !in values {
      forall f ensures f in got <==> f in want { assert PicksRight(c, values, Ok(data), f); }
      forall f | f in want ensures got[f] == want[f] { assert PicksRight(c, values, Ok(data), f); }
      assert got == want;
    } else {
      var u :| u in fields && u !in c.fieldIndices;
      assert PicksRight(c, values, Ok(data), u);
      assert u in got && u !in want;
    }
  }

  lemma UnknownPicksFieldZero(c: RowCodec, n: nat, values: Values, data: map<int64, Blob>)
    requires IsCodec(c, n) && Known(c, values)
    requires forall f :: f in values ==> ColumnId(c, f) in data
    requires forall id :: id in data ==> exists f :: f in values && ColumnId(c, f) == id
    ensures 0 in data <==> FieldName(0) in values
  {
    if 0 in data {
      var g :| g in values && ColumnId(c, g) == 0;
      var i :| 0 <= i < n && c.fields[i] == g;
    }
  }

  /** The case used by the drivers: a whole record comes back as it was. */
  lemma WholeRecordRoundTrip(c: RowCodec, n: nat, values: Values, order: seq<Bytes>)
    requires IsCodec(c, n) && Known(c, values) && Enumerates(order, values)
    ensures DecodeFields(c, EncodeIn(c, values, order), []) == Ok(values)
  {
    CodecRoundTrip(c, n, values, order, []);
  }
}
