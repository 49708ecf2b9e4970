/** Records, their order, and the byte format of an ETL run file. */
module EtlRecords {
  import opened Sorting

  newtype Byte = x: int | 0 <= x < 256
  type Bytes = seq<Byte>

  /** An encoded key with its compressed value. */
  datatype Record = Record(key: Bytes, value: Bytes)

  // ---- Order ----

  /** Lexicographic order on bytes, a prefix first. */
  predicate LexLe(a: Bytes, b: Bytes) {
    a == [] || (b != [] && (a[0] < b[0] || (a[0] == b[0] && LexLe(a[1..], b[1..]))))
  }

  lemma {:induction false} LexTotal(a: Bytes, b: Bytes)
    ensures LexLe(a, b) || LexLe(b, a)
  {
    if a != [] && b != [] { LexTotal(a[1..], b[1..]); }
  }

  lemma {:induction false} LexReflexive(a: Bytes)
    ensures LexLe(a, a)
  {
    if a != [] { LexReflexive(a[1..]); }
  }

  lemma {:induction false} LexTransitive(a: Bytes, b: Bytes, c: Bytes)
    requires LexLe(a, b) && LexLe(b, c)
    ensures LexLe(a, c)
  {
    if a != [] && a[0] == b[0] == c[0] { LexTransitive(a[1..], b[1..], c[1..]); }
  }

  lemma {:induction false} LexAntisymmetric(a: Bytes, b: Bytes)
    requires LexLe(a, b) && LexLe(b, a)
    ensures a == b
  {
    if a != [] {
      LexAntisymmetric(a[1..], b[1..]);
      assert a == [a[0]] + a[1..] && b == [b[0]] + b[1..];
    }
  }

  /** The order is decided by the first byte that differs, and by length when there is none. */
  lemma {:induction false} LexByFirstDifference(a: Bytes, b: Bytes)
    ensures LexLe(a, b) <==> a <= b || exists k :: 0 <= k < |a| && k < |b| && a[..k] == b[..k] && a[k] < b[k]
  {
    if a != [] && b != [] && a[0] == b[0] {
      var s, t := a[1..], b[1..];
      LexByFirstDifference(s, t);
      assert a == [a[0]] + s && b == [b[0]] + t;
      assert a <= b <==> s <= t;
      if k :| 0 <= k < |s| && k < |t| && s[..k] == t[..k] && s[k] < t[k] {
        assert a[..k + 1] == [a[0]] + s[..k] && b[..k + 1] == [b[0]] + t[..k];
      }
      if k :| 0 <= k < |a| && k < |b| && a[..k] == b[..k] && a[k] < b[k] {
        assert s[..k - 1] == a[..k][1..] && t[..k - 1] == b[..k][1..];
      }
    } else if a != [] && b != [] {
      assert a[..0] == b[..0];
      if k :| 0 < k < |a| && k < |b| && a[..k] == b[..k] { assert a[..k][0] == b[..k][0]; }
    }
  }

  /** Keys first, then values. */
  predicate RecordLe(a: Record, b: Record) {
    LexLe(a.key, b.key) && (a.key == b.key ==> LexLe(a.value, b.value))
  }

  lemma {:induction false} RecordTotal(a: Record, b: Record)
    ensures RecordLe(a, b) || RecordLe(b, a)
  {
    LexTotal(a.key, b.key);
    LexTotal(a.value, b.value);
    if LexLe(a.key, b.key) && LexLe(b.key, a.key) { LexAntisymmetric(a.key, b.key); }
  }

  lemma {:induction false} RecordTransitive(a: Record, b: Record, c: Record)
    requires RecordLe(a, b) && RecordLe(b, c)
    ensures RecordLe(a, c)
  {
    LexTransitive(a.key, b.key, c.key);
    if a.key == c.key {
      LexAntisymmetric(a.key, b.key);
      LexTransitive(a.value, b.value, c.value);
    }
  }

  lemma {:induction false} RecordAntisymmetric(a: Record, b: Record)
    requires RecordLe(a, b) && RecordLe(b, a)
    ensures a == b
  {
    LexAntisymmetric(a.key, b.key);
    LexAntisymmetric(a.value, b.value);
  }

  /** Keys do not decrease from one record to the next. */
  predicate KeySorted(rs: seq<Record>) {
    |rs| <= 1 || (LexLe(rs[0].key, rs[1].key) && KeySorted(rs[1..]))
  }

  lemma {:induction false} KeySortedPairs(rs: seq<Record>, i: nat, j: nat)
    requires KeySorted(rs) && i <= j < |rs|
    ensures LexLe(rs[i].key, rs[j].key)
    decreases |rs|, j
  {
    if i > 0 {
      KeySortedPairs(rs[1..], i - 1, j - 1);
    } else if j == 0 {
      LexReflexive(rs[0].key);
    } else {
      KeySortedPairs(rs[1..], 0, j - 1);
      LexTransitive(rs[0].key, rs[1].key, rs[j].key);
    }
  }

  lemma {:induction false} KeySortedAppend(rs: seq<Record>, r: Record)
    requires KeySorted(rs) && (rs != [] ==> LexLe(rs[|rs| - 1].key, r.key))
    ensures KeySorted(rs + [r])
  {
    if |rs| > 1 {
      assert (rs + [r])[1..] == rs[1..] + [r];
      KeySortedAppend(rs[1..], r);
    }
  }

  // ---- Counting occurrences ----

  function Count(rs: seq<Record>, x: Record): nat {
    if rs == [] then 0 else (if rs[0] == x then 1 else 0) + Count(rs[1..], x)
  }

  lemma {:induction false} CountConcat(a: seq<Record>, b: seq<Record>, x: Record)
    ensures Count(a + b, x) == Count(a, x) + Count(b, x)
  {
    if a == [] {
      assert a + b == b;
    } else {
      assert (a + b)[1..] == a[1..] + b;
      CountConcat(a[1..], b, x);
    }
  }

  lemma {:induction false} CountIsMultiset(rs: seq<Record>, x: Record)
    ensures multiset(rs)[x] == Count(rs, x)
  {
    if rs != [] {
      assert rs == [rs[0]] + rs[1..];
      CountIsMultiset(rs[1..], x);
    }
  }

  ghost predicate SameRecords(a: seq<Record>, b: seq<Record>) {
    forall x :: Count(a, x) == Count(b, x)
  }

  /** Equal counts are equal multisets, both ways. */
  lemma {:induction false} SameRecordsIsPermutation(a: seq<Record>, b: seq<Record>)
    ensures SameRecords(a, b) <==> multiset(a) == multiset(b)
  {
    forall x ensures multiset(a)[x] == Count(a, x) && multiset(b)[x] == Count(b, x) {
      CountIsMultiset(a, x);
      CountIsMultiset(b, x);
    }
    if multiset(a) == multiset(b) {
      forall x ensures Count(a, x) == Count(b, x) {
        assert multiset(a)[x] == multiset(b)[x];
      }
    }
  }

  // ---- Sorting a buffer ----

  predicate KeyLe(a: Record, b: Record) { LexLe(a.key, b.key) }

  lemma {:induction false} KeyOrder()
    ensures TotalOrder(KeyLe)
  {
    forall a, b ensures KeyLe(a, b) || KeyLe(b, a) { LexTotal(a.key, b.key); }
    forall a, b, c | KeyLe(a, b) && KeyLe(b, c) ensures KeyLe(a, c) { LexTransitive(a.key, b.key, c.key); }
  }

  lemma {:induction false} SortedByKey(rs: seq<Record>)
    requires Sorted(KeyLe, rs)
    ensures KeySorted(rs)
  {
    if |rs| > 1 {
      assert KeyLe(rs[0], rs[1]);
      SortedByKey(rs[1..]);
    }
  }

  lemma {:induction false} SortByKey(rs: seq<Record>)
    ensures KeySorted(Sort(KeyLe, rs)) && SameRecords(Sort(KeyLe, rs), rs)
  {
    KeyOrder();
    SortSorts(KeyLe, rs);
    SortedByKey(Sort(KeyLe, rs));
    SameRecordsIsPermutation(Sort(KeyLe, rs), rs);
  }

  // ---- Byte format ----

  function Pow256(w: nat): nat { if w == 0 then 1 else 256 * Pow256(w - 1) }

  /** Big-endian bytes of `n` in `w` bytes. */
  function ToBytes(n: nat, w: nat): (r: Bytes)
    ensures |r| == w
  {
    if w == 0 then [] else ToBytes(n / 256, w - 1) + [(n % 256) as Byte]
  }

  function FromBytes(s: Bytes): nat {
    if s == [] then 0 else 256 * FromBytes(s[..|s| - 1]) + s[|s| - 1] as nat
  }

  lemma {:induction false} BytesRoundTrip(n: nat, w: nat)
    requires n < Pow256(w)
    ensures FromBytes(ToBytes(n, w)) == n
  {
    if w > 0 {
      BytesRoundTrip(n / 256, w - 1);
      assert ToBytes(n, w)[..w - 1] == ToBytes(n / 256, w - 1);
    }
  }

  /** The leading byte is the most significant one. */
  lemma {:induction false} LeadingByteCountsMost(b: Byte, s: Bytes)
    ensures FromBytes([b] + s) == b as nat * Pow256(|s|) + FromBytes(s)
  {
    if s == [] {
      assert [b] + s == [b];
      assert [b][..0] == [];
    } else {
      var t := s[..|s| - 1];
      assert ([b] + s)[..|s|] == [b] + t;
      LeadingByteCountsMost(b, t);
      assert 256 * (b as nat * Pow256(|t|)) == b as nat * Pow256(|s|);
    }
  }

  const KV_LEN := 8

  /** Lengths are machine words. */
  predicate Fits(r: Record) {
    |r.key| < Pow256(KV_LEN) && |r.value| < Pow256(KV_LEN)
  }

  /** Both lengths, then both contents. */
  function Encode(r: Record): Bytes {
    ToBytes(|r.key|, KV_LEN) + ToBytes(|r.value|, KV_LEN) + r.key + r.value
  }

  function EncodeAll(rs: seq<Record>): Bytes {
    if rs == [] then [] else Encode(rs[0]) + EncodeAll(rs[1..])
  }

  lemma {:induction false} EncodeAllAppend(rs: seq<Record>, r: Record)
    ensures EncodeAll(rs + [r]) == EncodeAll(rs) + Encode(r)
  {
    if rs == [] {
      assert rs + [r] == [r];
      assert EncodeAll([r]) == Encode(r) + EncodeAll([]);
    } else {
      assert (rs + [r])[1..] == rs[1..] + [r];
      EncodeAllAppend(rs[1..], r);
    }
  }
}
