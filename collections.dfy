/** A MongoDB collection searched by one field, as a sequence of documents in natural order:
    `find_one` returns the first match, `delete_one` and `update_one` act on the first match only. */
module Collections {
  import opened Wrappers

  /** Index of the first document whose key equals `k`. */
  function FirstIndex<T, K(==)>(s: seq<T>, key: T -> K, k: K): (r: Option<nat>)
    ensures r.Some? ==> r.value < |s| && key(s[r.value]) == k
    ensures r.Some? ==> forall j :: 0 <= j < r.value ==> key(s[j]) != k
    ensures r.None? <==> forall j :: 0 <= j < |s| ==> key(s[j]) != k
  {
    if |s| == 0 then None
    else if key(s[0]) == k then Some(0)
    else match FirstIndex(s[1..], key, k)
      case None => None
      case Some(i) => Some(i + 1)
  }

  /** `find_one({key: k})` */
  function FindOne<T, K(==)>(s: seq<T>, key: T -> K, k: K): (r: Option<T>)
    ensures r.Some? ==> r.value in s && key(r.value) == k
    ensures r.Some? ==> FirstIndex(s, key, k).Some? && r.value == s[FirstIndex(s, key, k).value]
    ensures r.None? <==> forall x :: x in s ==> key(x) != k
  {
    match FirstIndex(s, key, k)
    case None => None
    case Some(i) => Some(s[i])
  }

  /** `delete_one({key: k})`: removes the first match, if any, and nothing else. */
  function DeleteOne<T, K(==)>(s: seq<T>, key: T -> K, k: K): (r: seq<T>)
    ensures FirstIndex(s, key, k).None? ==> r == s
    ensures FirstIndex(s, key, k).Some? ==>
      var i := FirstIndex(s, key, k).value;
      && |r| == |s| - 1
      && (forall j :: 0 <= j < i ==> r[j] == s[j])
      && (forall j :: i <= j < |r| ==> r[j] == s[j + 1])
    ensures multiset(r) <= multiset(s)
    ensures forall x :: x in r ==> x in s
  {
    match FirstIndex(s, key, k)
    case None => s
    case Some(i) =>
      assert s == s[..i] + [s[i]] + s[i + 1..];
      s[..i] + s[i + 1..]
  }

  /** `update_one({key: k}, {"$set": ...})`: the first match becomes `x`; no match changes nothing. */
  function UpdateOne<T, K(==)>(s: seq<T>, key: T -> K, k: K, x: T): (r: seq<T>)
    ensures |r| == |s|
    ensures FirstIndex(s, key, k).None? ==> r == s
    ensures FirstIndex(s, key, k).Some? ==>
      var i := FirstIndex(s, key, k).value;
      r[i] == x && forall j :: 0 <= j < |s| && j != i ==> r[j] == s[j]
    ensures forall y :: y in r ==> y in s || y == x
  {
    match FirstIndex(s, key, k)
    case None => s
    case Some(i) => s[i := x]
  }

  /** No two documents share a key (a unique index). */
  predicate Distinct<T, K(==)>(s: seq<T>, key: T -> K) {
    forall i, j :: 0 <= i < j < |s| ==> key(s[i]) != key(s[j])
  }

  /** Inserting only after `find_one` came back empty keeps the key unique. */
  lemma AppendKeepsDistinct<T, K>(s: seq<T>, key: T -> K, x: T)
    requires Distinct(s, key) && FirstIndex(s, key, key(x)).None?
    ensures Distinct(s + [x], key)
  {
    forall i, j | 0 <= i < j < |s + [x]|
      ensures key((s + [x])[i]) != key((s + [x])[j])
    {
      if j == |s| {
        assert key(s[i]) != key(x);
      }
    }
  }

  /** Removing a document never creates a duplicate key. */
  lemma DeleteKeepsDistinct<T, K>(s: seq<T>, key: T -> K, k: K)
    requires Distinct(s, key)
    ensures Distinct(DeleteOne(s, key, k), key)
    ensures FindOne(DeleteOne(s, key, k), key, k).None?
  {
    match FirstIndex(s, key, k)
    case None =>
    case Some(i) =>
      var r := s[..i] + s[i + 1..];
      assert r == DeleteOne(s, key, k);
      forall a, b | 0 <= a < b < |r| ensures key(r[a]) != key(r[b]) {
        var a' := if a < i then a else a + 1;
        var b' := if b < i then b else b + 1;
        assert r[a] == s[a'] && r[b] == s[b'];
      }
      forall x | x in r ensures key(x) != k {
        var a :| 0 <= a < |r| && r[a] == x;
        var a' := if a < i then a else a + 1;
        assert r[a] == s[a'];
      }
  }
}
