/** `GROUP BY key` with `COUNT(*)` and `SUM(value)` over a sequence of rows. Groups
    come out in the order their key first appears. */
module Grouping {

  /** `COUNT(*)` of the rows whose key is `k`. */
  function Count<T, K(==)>(s: seq<T>, key: T -> K, k: K): nat {
    if s == [] then 0
    else Count(s[..|s| - 1], key, k) + (if key(s[|s| - 1]) == k then 1 else 0)
  }

  /** `SUM(value)` of the rows whose key is `k`. */
  function Sum<T, K(==)>(s: seq<T>, key: T -> K, value: T -> int, k: K): int {
    if s == [] then 0
    else Sum(s[..|s| - 1], key, value, k) + (if key(s[|s| - 1]) == k then value(s[|s| - 1]) else 0)
  }

  ghost predicate Distinct<K>(ks: seq<K>) {
    forall i, j :: 0 <= i < j < |ks| ==> ks[i] != ks[j]
  }

  /** The distinct keys of `s`, in order of first appearance: every key of a row is
      there, and every key there has at least one row. */
  function Keys<T, K(==)>(s: seq<T>, key: T -> K): (ks: seq<K>)
    ensures Distinct(ks)
    ensures forall i :: 0 <= i < |s| ==> key(s[i]) in ks
    ensures forall k :: k in ks ==> Count(s, key, k) > 0
  {
    if s == [] then []
    else
      var init := s[..|s| - 1];
      var ks := Keys(init, key);
      var k := key(s[|s| - 1]);
      assert forall i :: 0 <= i < |s| - 1 ==> s[i] == init[i];
      if k in ks then ks else ks + [k]
  }

  /** The counts of the groups `ks`, added up. */
  function TotalCount<T, K(==)>(ks: seq<K>, s: seq<T>, key: T -> K): nat {
    if ks == [] then 0
    else TotalCount(ks[..|ks| - 1], s, key) + Count(s, key, ks[|ks| - 1])
  }

  lemma {:induction false} CountAppend<T, K>(s: seq<T>, x: T, key: T -> K, k: K)
    ensures Count(s + [x], key, k) == Count(s, key, k) + (if key(x) == k then 1 else 0)
  {
    assert (s + [x])[..|s|] == s;
  }

  lemma {:induction false} TotalCountAppend<T, K>(ks: seq<K>, s: seq<T>, x: T, key: T -> K)
    requires Distinct(ks)
    ensures TotalCount(ks, s + [x], key) == TotalCount(ks, s, key) + (if key(x) in ks then 1 else 0)
  {
    if ks != [] {
      var init := ks[..|ks| - 1];
      var last := ks[|ks| - 1];
      assert ks == init + [last];
      TotalCountAppend(init, s, x, key);
      CountAppend(s, x, key, last);
      assert key(x) in ks <==> key(x) in init || key(x) == last;
      assert forall i :: 0 <= i < |init| ==> init[i] == ks[i] && ks[i] != ks[|ks| - 1];
      assert last !in init;
    }
  }

  /** The group counts add up to the number of rows: grouping loses no row. */
  lemma {:induction false} GroupCountsCoverAll<T, K>(s: seq<T>, key: T -> K)
    ensures TotalCount(Keys(s, key), s, key) == |s|
  {
    if s != [] {
      var init := s[..|s| - 1];
      var x := s[|s| - 1];
      assert s == init + [x];
      var ks := Keys(init, key);
      GroupCountsCoverAll(init, key);
      TotalCountAppend(ks, init, x, key);
      var k := key(x);
      if k !in ks {
        assert forall i :: 0 <= i < |init| ==> key(init[i]) in ks;
        CountAbsent(init, key, k);
        CountAppend(init, x, key, k);
        assert (ks + [k])[..|ks|] == ks;
        assert Keys(s, key) == ks + [k];
      }
    }
  }

  /** A key no row carries has count zero. */
  lemma {:induction false} CountAbsent<T, K>(s: seq<T>, key: T -> K, k: K)
    requires forall i :: 0 <= i < |s| ==> key(s[i]) != k
    ensures Count(s, key, k) == 0
  {
    if s != [] {
      var init := s[..|s| - 1];
      assert forall i :: 0 <= i < |init| ==> init[i] == s[i];
      CountAbsent(init, key, k);
    }
  }
}
