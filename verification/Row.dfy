/** The TiDB-style row format of pkg/util/row.go: for each column its id as a flagged
    varint, then its value as a flag, a varint length and the bytes. */
module Rows {
  import opened ByteStrings
  import opened Varints

  datatype Result<+T> = Ok(value: T) | Err(error: string) | Panic

  /** A Go byte slice: its length fits an int64. */
  type Blob = b: Bytes | |b| < 0x8000_0000_0000_0000

  const COMPACT_BYTES_FLAG: byte := 2
  const VARINT_FLAG: byte := 8

  // ---------- Encoding ----------

  function AppendInt64(b: Bytes, v: int64): Bytes {
    b + [VARINT_FLAG] + PutVarint(v)
  }

  function AppendBytes(b: Bytes, v: Blob): Bytes {
    b + [COMPACT_BYTES_FLAG] + PutVarint(|v|) + v
  }

  function EncodeColumn(id: int64, v: Blob): Bytes {
    [VARINT_FLAG] + PutVarint(id) + [COMPACT_BYTES_FLAG] + PutVarint(|v|) + v
  }

  function EncodeColumns(cols: seq<Blob>, ids: seq<int64>): Bytes
    requires |cols| == |ids|
  {
    if cols == [] then [] else EncodeColumn(ids[0], cols[0]) + EncodeColumns(cols[1..], ids[1..])
  }

  /** The bytes of a row; the empty row is a single zero byte. */
  function RowBytes(cols: seq<Blob>, ids: seq<int64>): Bytes
    requires |cols| == |ids|
  {
    if cols == [] then [0] else EncodeColumns(cols, ids)
  }

  lemma {:induction false} EncodeColumnsSnoc(cols: seq<Blob>, ids: seq<int64>, v: Blob, id: int64)
    requires |cols| == |ids|
    ensures EncodeColumns(cols + [v], ids + [id]) == EncodeColumns(cols, ids) + EncodeColumn(id, v)
    decreases |cols|
  {
    if cols == [] {
      assert [v][1..] == [] && [id][1..] == [];
      assert cols + [v] == [v] && ids + [id] == [id];
      assert EncodeColumns([v], [id]) == EncodeColumn(id, v) + [];
    } else {
      assert (cols + [v])[1..] == cols[1..] + [v] && (ids + [id])[1..] == ids[1..] + [id];
      EncodeColumnsSnoc(cols[1..], ids[1..], v, id);
    }
  }

  lemma AppendColumn(b: Bytes, id: int64, v: Blob)
    ensures AppendBytes(AppendInt64(b, id), v) == b + EncodeColumn(id, v)
  {
  }

  /** EncodeRow appends column after column to a buffer. */
  method EncodeRow(cols: seq<Blob>, colIDs: seq<int64>) returns (r: Result<Bytes>)
    ensures r.Ok? <==> |cols| == |colIDs|
    ensures r.Ok? ==> r.value == RowBytes(cols, colIDs)
  {
    if |cols| != |colIDs| {
      return Err("EncodeRow error: cols and colIDs count not match");
    }
    var valBuf: Bytes := [];
    if |cols| == 0 {
      return Ok(valBuf + [0]);
    }
    for i := 0 to |cols|
      invariant valBuf == EncodeColumns(cols[..i], colIDs[..i])
    {
      EncodeColumnsSnoc(cols[..i], colIDs[..i], cols[i], colIDs[i]);
      assert cols[..i + 1] == cols[..i] + [cols[i]] && colIDs[..i + 1] == colIDs[..i] + [colIDs[i]];
      AppendColumn(valBuf, colIDs[i], cols[i]);
      valBuf := AppendInt64(valBuf, colIDs[i]);
      valBuf := AppendBytes(valBuf, cols[i]);
    }
    assert cols[..|cols|] == cols && colIDs[..|cols|] == colIDs;
    return Ok(valBuf);
  }

  // ---------- Decoding ----------

  function DecodeVarint(b: Bytes): Result<(Bytes, int64)> {
    UvarintRange(b, 0, 0, 1);
    match Varint(b)
    case Value(v, n) => Ok((b[n..], v))
    case Overflow => Err("value larger than 64 bits")
    case Short => Err("insufficient bytes to decode value")
  }

  /** Skips the flag byte without looking at it; slicing an empty buffer panics. */
  function DecodeInt64(b: Bytes): Result<(Bytes, int64)> {
    if b == [] then Panic else DecodeVarint(b[1..])
  }

  /** A negative length passes the length test and makes the slice expression panic. */
  function DecodeBytes(b: Bytes): Result<(Bytes, Blob)> {
    if b == [] then Panic
    else match DecodeVarint(b[1..])
      case Ok((remain, n)) =>
        if |remain| < n then Err("insufficient bytes to decode value")
        else if n < 0 then Panic
        else Ok((remain[n..], remain[..n]))
      case Err(e) => Err(e)
      case Panic => Panic
  }

  function DecodeColumn(b: Bytes): Result<(Bytes, int64, Blob)> {
    match DecodeInt64(b)
    case Ok((remain, id)) => (
      match DecodeBytes(remain)
      case Ok((rest, v)) => Ok((rest, id, v))
      case Err(e) => Err(e)
      case Panic => Panic)
    case Err(e) => Err(e)
    case Panic => Panic
  }

  lemma DecodeVarintShrinks(b: Bytes)
    ensures DecodeVarint(b).Ok? ==> |DecodeVarint(b).value.0| < |b|
  {
    UvarintRange(b, 0, 0, 1);
  }

  lemma DecodeColumnShrinks(b: Bytes)
    requires DecodeColumn(b).Ok?
    ensures |DecodeColumn(b).value.0| < |b|
  {
    DecodeVarintShrinks(b[1..]);
    var (remain, _) := DecodeInt64(b).value;
    DecodeVarintShrinks(remain[1..]);
  }

  function DecodeColumns(b: Bytes, row: map<int64, Blob>): Result<map<int64, Blob>>
    decreases |b|
  {
    if b == [] then Ok(row)
    else match DecodeColumn(b)
      case Ok((rest, id, v)) =>
        DecodeColumnShrinks(b);
        DecodeColumns(rest, row[id := v])
      case Err(e) => Err(e)
      case Panic => Panic
  }

  function Decoded(b: Bytes): Result<map<int64, Blob>> {
    if b == [] || b == [0] then Ok(map[]) else DecodeColumns(b, map[])
  }

  method DecodeRow(bytes: Bytes) returns (r: Result<map<int64, Blob>>)
    ensures r == Decoded(bytes)
  {
    var row: map<int64, Blob> := map[];
    var b := bytes;
    if |b| == 0 {
      return Ok(row);
    }
    if |b| == 1 && b[0] == 0 {
      assert b == [0];
      return Ok(row);
    }
    while |b| > 0
      invariant Decoded(bytes) == DecodeColumns(b, row)
      decreases |b|
    {
      match DecodeColumn(b) {
        case Ok((remain, id, v)) =>
          DecodeColumnShrinks(b);
          row := row[id := v];
          b := remain;
        case Err(e) => return Err(e);
        case Panic => return Panic;
      }
    }
    return Ok(row);
  }

  // ---------- Round trip ----------

  lemma Int64RoundTrip(id: int64, body: Bytes)
    ensures DecodeInt64([VARINT_FLAG] + PutVarint(id) + body) == Ok((body, id))
  {
    var b := [VARINT_FLAG] + PutVarint(id) + body;
    assert b[1..] == PutVarint(id) + body;
    VarintRoundTrip(id, body);
    assert (PutVarint(id) + body)[|PutVarint(id)|..] == body;
  }

  lemma BytesRoundTrip(v: Blob, rest: Bytes)
    ensures DecodeBytes([COMPACT_BYTES_FLAG] + PutVarint(|v|) + (v + rest)) == Ok((rest, v))
  {
    var b := [COMPACT_BYTES_FLAG] + PutVarint(|v|) + (v + rest);
    assert b[1..] == PutVarint(|v|) + (v + rest);
    VarintRoundTrip(|v|, v + rest);
    assert (PutVarint(|v|) + (v + rest))[|PutVarint(|v|)|..] == v + rest;
    assert (v + rest)[|v|..] == rest && (v + rest)[..|v|] == v;
  }

  lemma ColumnLayout(id: int64, v: Blob, rest: Bytes)
    ensures EncodeColumn(id, v) + rest
         == [VARINT_FLAG] + PutVarint(id) + ([COMPACT_BYTES_FLAG] + PutVarint(|v|) + (v + rest))
  {
  }

  /** A column is read back whatever follows it: the column code is prefix-free. */
  lemma ColumnRoundTrip(id: int64, v: Blob, rest: Bytes)
    ensures DecodeColumn(EncodeColumn(id, v) + rest) == Ok((rest, id, v))
  {
    ColumnLayout(id, v, rest);
    Int64RoundTrip(id, [COMPACT_BYTES_FLAG] + PutVarint(|v|) + (v + rest));
    BytesRoundTrip(v, rest);
  }

  /** `m` maps each id to the column at its last position, and nothing else. */
  ghost predicate IsLastWins(m: map<int64, Blob>, cols: seq<Blob>, ids: seq<int64>)
    requires |cols| == |ids|
  {
    && (forall id :: id in m <==> id in ids)
    && (forall i :: 0 <= i < |ids| && ids[i] !in ids[i + 1..] ==> m[ids[i]] == cols[i])
  }

  /** The same on top of the columns of `row`. */
  ghost predicate LastWinsOver(m: map<int64, Blob>, cols: seq<Blob>, ids: seq<int64>, row: map<int64, Blob>)
    requires |cols| == |ids|
  {
    && (forall id :: id in m <==> id in row || id in ids)
    && (forall id :: id in row && id !in ids ==> m[id] == row[id])
    && (forall i :: 0 <= i < |ids| && ids[i] !in ids[i + 1..] ==> m[ids[i]] == cols[i])
  }

  lemma LastWinsCons(m: map<int64, Blob>, cols: seq<Blob>, ids: seq<int64>, row: map<int64, Blob>)
    requires |cols| == |ids| && cols != []
    requires LastWinsOver(m, cols[1..], ids[1..], row[ids[0] := cols[0]])
    ensures LastWinsOver(m, cols, ids, row)
  {
    var c, d := cols[1..], ids[1..];
    assert ids == [ids[0]] + d;
    forall i | 0 <= i < |ids| && ids[i] !in ids[i + 1..] ensures m[ids[i]] == cols[i] {
      if i == 0 {
        assert ids[0] !in d;
      } else {
        assert d[i - 1] == ids[i] && c[i - 1] == cols[i] && d[i..] == ids[i + 1..];
      }
    }
  }

  lemma {:induction false} ColumnsRoundTrip(cols: seq<Blob>, ids: seq<int64>, row: map<int64, Blob>)
    requires |cols| == |ids|
    ensures var r := DecodeColumns(EncodeColumns(cols, ids), row);
            r.Ok? && LastWinsOver(r.value, cols, ids, row)
    decreases |cols|
  {
    if cols != [] {
      var c, d := cols[1..], ids[1..];
      var row' := row[ids[0] := cols[0]];
      var rest := EncodeColumns(c, d);
      ColumnRoundTrip(ids[0], cols[0], rest);
      ColumnsRoundTrip(c, d, row');
      assert DecodeColumns(EncodeColumns(cols, ids), row) == DecodeColumns(rest, row');
      LastWinsCons(DecodeColumns(rest, row').value, cols, ids, row);
    }
  }

  /** Every row of int64 ids and byte-slice columns, the empty row included, is decoded to
      the last-wins map from id to column. */
  lemma RowRoundTrip(cols: seq<Blob>, ids: seq<int64>)
    requires |cols| == |ids|
    ensures Decoded(RowBytes(cols, ids)).Ok?
    ensures IsLastWins(Decoded(RowBytes(cols, ids)).value, cols, ids)
  {
    if cols != [] {
      ColumnsRoundTrip(cols, ids, map[]);
      var b := RowBytes(cols, ids);
      assert b[0] == VARINT_FLAG;
    }
  }

  /** The bytes of a short value in a column with a small number: for "a" in column 1 they
      are 08 02 02 02 61. */
  lemma ShortColumn(id: int64, v: Blob)
    requires 0 <= id < 64 && |v| < 64
    ensures EncodeColumn(id, v) == [8, 2 * id, 2, 2 * |v|] + v
  {
    ShortVarints(id);
    ShortVarints(|v|);
  }

  lemma OneColumnRow(id: int64, v: Blob)
    requires 0 <= id < 64 && |v| < 64
    ensures RowBytes([v], [id]) == [8, 2 * id, 2, 2 * |v|] + v
  {
    ShortColumn(id, v);
    assert [v][1..] == [] && [id][1..] == [];
    assert EncodeColumns([v], [id]) == EncodeColumn(id, v) + [];
  }
}
