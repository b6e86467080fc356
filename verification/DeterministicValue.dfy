/** The values written and checked when `dataintegrity` is on (pkg/workload/core.go). */
module DeterministicValues {
  import opened ByteStrings
  import opened Varints
  import opened RowCodecs
  import Fnv

  /** strings.ToLower on ASCII names. */
  function ToLower(s: Bytes): Bytes {
    seq(|s|, i requires 0 <= i < |s| => if 0x41 <= s[i] <= 0x5A then s[i] + 0x20 else s[i])
  }

  /** key ':' lower(field), the first bytes of the buffer. */
  function Seed(key: Bytes, field: Bytes): Bytes {
    key + [COLON] + ToLower(field)
  }

  /** One round of the loop: ':' and the decimal hash of the buffer with that ':'. */
  function Extend(b: Bytes): (r: Bytes)
    ensures |b| + 2 <= |r| <= |b| + 21 && HasPrefix(r, b)
  {
    var c := b + [COLON];
    Uint64Digits(Fnv.Sum64(c));
    c + Decimal(Fnv.Sum64(c))
  }

  /** The buffer when the loop ends. */
  function Grow(b: Bytes, size: nat): (r: Bytes)
    ensures size <= |r| && HasPrefix(r, b)
    decreases size - |b|
  {
    if |b| < size then Grow(Extend(b), size) else b
  }

  function Value(key: Bytes, field: Bytes, size: nat): (v: Bytes)
    ensures |v| == size
  {
    Grow(Seed(key, field), size)[..size]
  }

  /** The loop ends, the value has exactly `size` bytes, and a buffer that starts within
      the allocation of size + 21 bytes never outgrows it. */
  method BuildDeterministicValue(key: Bytes, fieldKey: Bytes, size: nat) returns (v: Bytes, peak: nat)
    ensures v == Value(key, fieldKey, size)
    ensures |Seed(key, fieldKey)| <= size + 21 ==> peak <= size + 21
    ensures |Seed(key, fieldKey)| > size + 21 ==> peak == |Seed(key, fieldKey)|
  {
    var b := key;
    b := b + [COLON];
    b := b + ToLower(fieldKey);
    peak := |b|;
    while |b| < size
      invariant Grow(b, size) == Grow(Seed(key, fieldKey), size)
      invariant peak == |b|
      invariant |b| <= size + 20 || b == Seed(key, fieldKey)
      decreases size - |b|
    {
      ghost var before := b;
      b := b + [COLON];
      var n := Fnv.HashBytes(b);
      b := b + Decimal(n);
      assert b == Extend(before);
      peak := |b|;
    }
    v := b[..size];
  }

  lemma {:induction false} GrowPrefix(b: Bytes, small: nat, large: nat)
    requires small <= large
    ensures HasPrefix(Grow(b, large), Grow(b, small))
    decreases large - |b|
  {
    if |b| < small { GrowPrefix(Extend(b), small, large); }
  }

  /** The value of a smaller size is a prefix of the value of a larger one. */
  lemma ValuePrefix(key: Bytes, field: Bytes, small: nat, large: nat)
    requires small <= large
    ensures HasPrefix(Value(key, field, large), Value(key, field, small))
  {
    var seed := Seed(key, field);
    GrowPrefix(seed, small, large);
    var s, l := Grow(seed, small), Grow(seed, large);
    assert l[..large][..small] == l[..|s|][..small];
  }

  /** A value with room for key:field starts with it, and with a further colon if it is
      longer. */
  lemma ValueStart(key: Bytes, field: Bytes, size: nat)
    requires |Seed(key, field)| <= size
    ensures HasPrefix(Value(key, field, size), Seed(key, field))
    ensures |Seed(key, field)| < size ==> HasPrefix(Value(key, field, size), Seed(key, field) + [COLON])
  {
    var seed := Seed(key, field);
    var grown := Grow(seed, size);
    if |seed| < size {
      assert HasPrefix(Extend(seed), seed + [COLON]);
      PrefixTrans(seed + [COLON], Extend(seed), grown);
      assert grown[..size][..|seed| + 1] == grown[..|seed| + 1];
    }
    assert grown[..size][..|seed|] == grown[..|seed|];
  }

  /** Every round appends a colon and the decimal hash of all that stands before the digits,
      that colon included. */
  lemma RoundHashesPrefix(b: Bytes, size: nat)
    requires |b| < size
    ensures HasPrefix(Grow(b, size), b + [COLON] + Decimal(Fnv.Sum64(b + [COLON])))
  {
  }

  /** The first two rounds of a long value, written out. */
  lemma TwoRounds(key: Bytes, field: Bytes, size: nat)
    ensures var b0 := key + [COLON] + ToLower(field);
            var b1 := b0 + [COLON] + Decimal(Fnv.Sum64(b0 + [COLON]));
            var b2 := b1 + [COLON] + Decimal(Fnv.Sum64(b1 + [COLON]));
            && (|b0| <= size ==> HasPrefix(Value(key, field, size), b0))
            && (|b1| <= size ==> HasPrefix(Value(key, field, size), b1))
            && (|b2| <= size ==> HasPrefix(Value(key, field, size), b2))
  {
    var b0 := Seed(key, field);
    var b1 := Extend(b0);
    var b2 := Extend(b1);
    if |b0| <= size { CutPrefix(Grow(b0, size), b0, size); }
    if |b1| <= size {
      assert Grow(b0, size) == Grow(b1, size);
      CutPrefix(Grow(b0, size), b1, size);
    }
    if |b2| <= size {
      assert Grow(b0, size) == Grow(b1, size) == Grow(b2, size);
      CutPrefix(Grow(b0, size), b2, size);
    }
  }

  lemma CutPrefix(v: Bytes, p: Bytes, size: nat)
    requires HasPrefix(v, p) && |p| <= size <= |v|
    ensures HasPrefix(v[..size], p)
  {
    assert v[..size][..|p|] == v[..|p|];
  }

  /** "AZaz[" becomes "azaz[". */
  lemma LowerCase()
    ensures ToLower([0x41, 0x5A, 0x61, 0x7A, 0x5B]) == [0x61, 0x7A, 0x61, 0x7A, 0x5B]
  {
  }

  /** `name` is what stands in `v` before its first colon, all of `v` if it has none. */
  ghost predicate IsFirstPart(name: Bytes, v: Bytes) {
    COLON !in name && (v == name || HasPrefix(v, name + [COLON]))
  }

  lemma FirstPartUnique(a: Bytes, b: Bytes, v: Bytes)
    requires IsFirstPart(a, v) && IsFirstPart(b, v)
    ensures a == b
  {
    HasColon(a, v);
    HasColon(b, v);
    if v != a && v != b { FirstColon(a, b, v); }
  }

  lemma HasColon(name: Bytes, v: Bytes)
    ensures HasPrefix(v, name + [COLON]) ==> COLON in v
  {
    if HasPrefix(v, name + [COLON]) { assert v[..|name| + 1][|name|] == COLON; }
  }

  /** Values identify their key and field: a record stored under another key or field does
      not pass for the right one, if the value has room for key:field and names hold no
      colon. */
  lemma ValueIdentifies(key: Bytes, field: Bytes, key': Bytes, field': Bytes, size: nat)
    requires COLON !in key && COLON !in field && COLON !in key' && COLON !in field'
    requires |Seed(key, field)| <= size && |Seed(key', field')| <= size
    requires Value(key, field, size) == Value(key', field', size)
    ensures key == key' && ToLower(field) == ToLower(field')
  {
    var v := Value(key, field, size);
    SeedStart(key, field, size);
    SeedStart(key', field', size);
    FirstColon(key, key', v);
    FirstPartUnique(ToLower(field), ToLower(field'), v[|key| + 1..]);
  }

  lemma SeedStart(key: Bytes, field: Bytes, size: nat)
    requires COLON !in field && |Seed(key, field)| <= size
    ensures var v := Value(key, field, size);
            HasPrefix(v, key + [COLON]) && IsFirstPart(ToLower(field), v[|key| + 1..])
  {
    var v, seed := Value(key, field, size), Seed(key, field);
    ValueStart(key, field, size);
    assert v[..|key| + 1] == v[..|seed|][..|key| + 1] == key + [COLON];
    assert seed[|key| + 1..] == ToLower(field);
    if |seed| == size {
      assert v == seed;
    } else {
      var s := seed + [COLON];
      assert v[|key| + 1..][..|field| + 1] == v[..|s|][|key| + 1..] == ToLower(field) + [COLON];
    }
  }

  // ---------- Records ----------

  /** Every field of the record holds the deterministic value of (key, field). */
  ghost predicate Intact(key: Bytes, values: Values, size: nat) {
    forall f :: f in values ==> values[f] == Value(key, f, size)
  }

  /** buildValues: all fields of the thread's copy of the field names. */
  method BuildValues(key: Bytes, fieldNames: seq<Bytes>, size: nat) returns (values: Values)
    requires size < TWO63
    ensures forall f :: f in values <==> f in fieldNames
    ensures Intact(key, values, size)
  {
    values := map[];
    for i := 0 to |fieldNames|
      invariant forall f :: f in values <==> f in fieldNames[..i]
      invariant Intact(key, values, size)
    {
      var buf, _ := BuildDeterministicValue(key, fieldNames[i], size);
      values := values[fieldNames[i] := buf];
    }
    assert fieldNames[..|fieldNames|] == fieldNames;
  }

  /** verifyRow: reports a mismatch exactly when some value is not the deterministic one.
      The absent and the empty record pass. */
  method VerifyRow(key: Bytes, values: Values, size: nat) returns (ok: bool)
    ensures ok <==> Intact(key, values, size)
  {
    var todo := values.Keys;
    while todo != {}
      invariant todo <= values.Keys
      invariant forall f :: f in values && f !in todo ==> values[f] == Value(key, f, size)
      decreases |todo|
    {
      var f :| f in todo;
      var expected, _ := BuildDeterministicValue(key, f, size);
      if expected != values[f] {
        return false;
      }
      todo := todo - {f};
    }
    return true;
  }
}
