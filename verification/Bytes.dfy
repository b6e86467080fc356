/** Byte strings: Go strings and []byte are both sequences of bytes here. */
module ByteStrings {

  type byte = b: int | 0 <= b < 256
  type Bytes = seq<byte>

  const COLON: byte := 0x3A

  // ---------- Decimal numerals ----------

  /** strconv.FormatUint(n, 10), and the "%d" of fmt.Sprintf for n >= 0. */
  function Decimal(n: nat): Bytes {
    if n < 10 then [0x30 + n] else Decimal(n / 10) + [0x30 + n % 10]
  }

  function DecimalValue(d: Bytes): int {
    if d == [] then 0 else 10 * DecimalValue(d[..|d| - 1]) + (d[|d| - 1] as int - 0x30)
  }

  lemma {:induction false} DecimalRoundTrip(n: nat)
    ensures DecimalValue(Decimal(n)) == n
  {
    if n >= 10 {
      DecimalRoundTrip(n / 10);
      assert Decimal(n)[..|Decimal(n)| - 1] == Decimal(n / 10);
    } else {
      assert Decimal(n)[..0] == [];
    }
  }

  /** Only digits, and no leading zero but in "0". */
  lemma {:induction false} DecimalDigits(n: nat)
    ensures forall i :: 0 <= i < |Decimal(n)| ==> 0x30 <= Decimal(n)[i] <= 0x39
    ensures Decimal(n) != [] && (Decimal(n)[0] == 0x30 <==> n == 0)
  {
    if n >= 10 { DecimalDigits(n / 10); }
  }

  lemma DecimalInjective(m: nat, n: nat)
    requires Decimal(m) == Decimal(n)
    ensures m == n
  {
    DecimalRoundTrip(m);
    DecimalRoundTrip(n);
  }

  function Pow10(k: nat): nat {
    if k == 0 then 1 else 10 * Pow10(k - 1)
  }

  lemma {:induction false} DecimalLength(n: nat, k: nat)
    requires 0 < k && n < Pow10(k)
    ensures 1 <= |Decimal(n)| <= k
    decreases k
  {
    if n >= 10 {
      assert Pow10(1) == 10;
      DecimalLength(n / 10, k - 1);
    }
  }

  /** A 64-bit unsigned number has at most 20 digits. */
  lemma Uint64Digits(n: nat)
    requires n < 0x1_0000_0000_0000_0000
    ensures 1 <= |Decimal(n)| <= 20
  {
    Pow10Is20();
    DecimalLength(n, 20);
  }

  lemma Pow10Is20()
    ensures Pow10(20) == 100_000_000_000_000_000_000
  {
    assert Pow10(5) == 100_000;
    assert Pow10(10) == 10_000_000_000;
    assert Pow10(15) == 1_000_000_000_000_000;
  }

  // ---------- Prefixes ----------

  predicate HasPrefix(k: Bytes, p: Bytes) {
    |p| <= |k| && k[..|p|] == p
  }

  lemma PrefixTrans(a: Bytes, b: Bytes, c: Bytes)
    requires HasPrefix(b, a) && HasPrefix(c, b)
    ensures HasPrefix(c, a)
  {
    assert c[..|a|] == b[..|a|];
  }

  /** What stands before the first colon is determined. */
  lemma FirstColon(a: Bytes, b: Bytes, v: Bytes)
    requires COLON !in a && COLON !in b
    requires HasPrefix(v, a + [COLON]) && HasPrefix(v, b + [COLON])
    ensures a == b
  {
    assert v[..|a| + 1][|a|] == COLON && v[..|b| + 1][|b|] == COLON;
    assert a == v[..|a| + 1][..|a|] && b == v[..|b| + 1][..|b|];
  }

  // ---------- Lexicographic order (bytes.Compare) ----------

  predicate Less(a: Bytes, b: Bytes)
    decreases |a|
  {
    b != [] && (a == [] || a[0] < b[0] || (a[0] == b[0] && Less(a[1..], b[1..])))
  }

  lemma {:induction false} Irreflexive(a: Bytes)
    ensures !Less(a, a)
    decreases |a|
  {
    if a != [] { Irreflexive(a[1..]); }
  }

  lemma {:induction false} Trichotomy(a: Bytes, b: Bytes)
    requires !Less(a, b) && !Less(b, a)
    ensures a == b
    decreases |a|
  {
    if a != [] && b != [] {
      Trichotomy(a[1..], b[1..]);
      assert a == [a[0]] + a[1..] && b == [b[0]] + b[1..];
    }
  }

  lemma {:induction false} Transitive(a: Bytes, b: Bytes, c: Bytes)
    requires Less(a, b) && Less(b, c)
    ensures Less(a, c)
    decreases |a|
  {
    if a != [] && a[0] == b[0] == c[0] { Transitive(a[1..], b[1..], c[1..]); }
  }

  lemma Asymmetric(a: Bytes, b: Bytes)
    ensures !(Less(a, b) && Less(b, a))
  {
    Irreflexive(a);
    if Less(a, b) && Less(b, a) { Transitive(a, b, a); }
  }

  /** At the first difference, `a` has ended or has the smaller byte. */
  ghost predicate FirstDifference(a: Bytes, b: Bytes, i: int) {
    0 <= i <= |a| && i < |b| && a[..i] == b[..i] && (i == |a| || a[i] < b[i])
  }

  lemma {:induction false} LessIff(a: Bytes, b: Bytes)
    ensures Less(a, b) <==> exists i :: FirstDifference(a, b, i)
    decreases |a|
  {
    if a == [] {
      if b != [] { assert FirstDifference(a, b, 0); }
    } else if b != [] {
      LessIff(a[1..], b[1..]);
      if a[0] < b[0] { assert FirstDifference(a, b, 0); }
      if Less(a, b) && a[0] == b[0] {
        var i :| FirstDifference(a[1..], b[1..], i);
        assert a[..i + 1] == [a[0]] + a[1..][..i] && b[..i + 1] == [b[0]] + b[1..][..i];
        assert FirstDifference(a, b, i + 1);
      }
      if i :| FirstDifference(a, b, i) && 0 < i {
        assert a[..i][0] == b[..i][0];
        assert a[1..][..i - 1] == a[..i][1..] && b[1..][..i - 1] == b[..i][1..];
        assert FirstDifference(a[1..], b[1..], i - 1);
      }
    }
  }

  /** Nothing lies between `a` and `a` followed by a zero byte. */
  lemma {:induction false} Successor(a: Bytes, k: Bytes)
    ensures Less(a, k) <==> !Less(k, a + [0])
    decreases |a|
  {
    if a == [] {
      if k != [] { assert !Less(k[1..], []); }
    } else if k != [] {
      assert (a + [0])[1..] == a[1..] + [0];
      Successor(a[1..], k[1..]);
    }
  }

  /** Comparison looks past a common prefix. */
  lemma {:induction false} LessCommonPrefix(p: Bytes, a: Bytes, b: Bytes)
    ensures Less(p + a, p + b) <==> Less(a, b)
    decreases |p|
  {
    if p == [] {
      assert p + a == a && p + b == b;
    } else {
      assert (p + a)[1..] == p[1..] + a && (p + b)[1..] == p[1..] + b;
      LessCommonPrefix(p[1..], a, b);
    }
  }

  // ---------- Sorted listings of a finite key set ----------

  predicate Increasing(ks: seq<Bytes>) {
    forall i, j :: 0 <= i < j < |ks| ==> Less(ks[i], ks[j])
  }

  predicate IsLeast(m: Bytes, s: set<Bytes>) {
    m in s && forall k :: k in s ==> !Less(k, m)
  }

  /** Adding an element keeps the least one or becomes it. */
  lemma LeastOfMore(s: set<Bytes>, m: Bytes, x: Bytes)
    requires IsLeast(m, s)
    ensures IsLeast(if Less(x, m) then x else m, s + {x})
  {
    Irreflexive(x);
    if Less(x, m) {
      forall k | k in s ensures !Less(k, x) {
        if Less(k, x) { Transitive(k, x, m); }
      }
    }
  }

  lemma {:induction false} LeastExists(s: set<Bytes>)
    requires s != {}
    ensures exists m :: IsLeast(m, s)
    decreases |s|
  {
    var x :| x in s;
    var rest := s - {x};
    if rest == {} {
      Irreflexive(x);
      assert s == {x};
      assert IsLeast(x, {x});
    } else {
      LeastExists(rest);
      var m :| IsLeast(m, rest);
      LeastOfMore(rest, m, x);
      assert rest + {x} == s;
    }
  }

  lemma LeastUnique(s: set<Bytes>)
    ensures forall a, b :: IsLeast(a, s) && IsLeast(b, s) ==> a == b
  {
    forall a, b | IsLeast(a, s) && IsLeast(b, s) ensures a == b { Trichotomy(a, b); }
  }

  function Least(s: set<Bytes>): (m: Bytes)
    requires s != {}
    ensures IsLeast(m, s)
  {
    LeastExists(s);
    LeastUnique(s);
    var m :| m in s && IsLeast(m, s);
    m
  }

  lemma LeastIsBelow(s: set<Bytes>, k: Bytes)
    requires k in s && k != Least(s)
    ensures Less(Least(s), k)
  {
    if !Less(Least(s), k) { Trichotomy(Least(s), k); }
  }

  /** The `n` smallest elements of `s` in increasing order (all of them if there are fewer). */
  function Smallest(s: set<Bytes>, n: nat): seq<Bytes>
    decreases n
  {
    if n == 0 || s == {} then []
    else [Least(s)] + Smallest(s - {Least(s)}, n - 1)
  }

  lemma {:induction false} SmallestSize(s: set<Bytes>, n: nat)
    ensures |Smallest(s, n)| == if |s| < n then |s| else n
    ensures forall k :: k in Smallest(s, n) ==> k in s
    decreases n
  {
    if n != 0 && s != {} { SmallestSize(s - {Least(s)}, n - 1); }
  }

  /** Smallest(s, n) is increasing and everything it leaves out is larger. */
  lemma {:induction false} SmallestIsSorted(s: set<Bytes>, n: nat)
    ensures Increasing(Smallest(s, n))
    ensures forall k, x :: k in Smallest(s, n) && x in s && x !in Smallest(s, n) ==> Less(k, x)
    ensures n >= |s| ==> forall x :: x in s ==> x in Smallest(s, n)
    decreases n
  {
    if n != 0 && s != {} {
      var m := Least(s);
      SmallestIsSorted(s - {m}, n - 1);
      SmallestSize(s - {m}, n - 1);
      forall k | k in s - {m} ensures Less(m, k) { LeastIsBelow(s, k); }
    }
  }

  lemma FirstIsLeast(a: seq<Bytes>, s: set<Bytes>)
    requires Increasing(a) && a != [] && (forall k :: k in a ==> k in s)
    requires forall k, e :: k in a && e in s && e !in a ==> Less(k, e)
    ensures IsLeast(a[0], s)
  {
    var x := a[0];
    Irreflexive(x);
    forall k | k in s ensures !Less(k, x) {
      assert k == x || Less(x, k);
      Asymmetric(x, k);
    }
  }

  /** An increasing sequence below everything else of `s` is the listing of its length. */
  lemma {:induction false} InitialSegment(a: seq<Bytes>, s: set<Bytes>)
    requires Increasing(a) && (forall k :: k in a ==> k in s)
    requires forall k, e :: k in a && e in s && e !in a ==> Less(k, e)
    ensures Smallest(s, |a|) == a
    decreases |a|
  {
    if a != [] {
      var x, rest := a[0], a[1..];
      assert x in a && a == [x] + rest;
      FirstIsLeast(a, s);
      LeastUnique(s);
      Irreflexive(x);
      assert forall k :: k in rest ==> Less(x, k);
      InitialSegment(rest, s - {x});
    }
  }

  /** A listing that asks for more than there is gets all there is. */
  lemma SmallestAll(s: set<Bytes>, n: nat)
    requires |s| <= n
    ensures Smallest(s, n) == Smallest(s, |s|)
  {
    SmallestSplit(s, |s|, n - |s|);
    NothingLeft(s);
  }

  lemma NothingLeft(s: set<Bytes>)
    ensures s - Elements(Smallest(s, |s|)) == {}
  {
    SmallestIsSorted(s, |s|);
    forall x | x in s ensures x in Elements(Smallest(s, |s|)) { assert x in Smallest(s, |s|); }
  }

  /** Taking n more after m is taking m + n. */
  lemma {:induction false} SmallestSplit(s: set<Bytes>, m: nat, n: nat)
    ensures Smallest(s, m + n) == Smallest(s, m) + Smallest(s - Elements(Smallest(s, m)), n)
    decreases m
  {
    if m == 0 || s == {} {
      assert s - Elements([]) == s;
    } else {
      var x := Least(s);
      var t := Smallest(s - {x}, m - 1);
      SmallestSplit(s - {x}, m - 1, n);
      assert s - Elements([x] + t) == s - {x} - Elements(t) by {
        assert forall k :: k in [x] + t <==> k == x || k in t;
      }
    }
  }

  function Elements(ks: seq<Bytes>): set<Bytes> {
    set k | k in ks
  }
}
