/** Linear search and splicing over the slices the in-memory stores keep. */
module Slices {

  /** Index of the first element whose key is `k`, or -1 when there is none:
      the result of every `for ... range` search loop in the stores. */
  function FirstIndex<T, K(==)>(s: seq<T>, key: T -> K, k: K): (r: int)
    ensures -1 <= r < |s|
    ensures r == -1 <==> forall j :: 0 <= j < |s| ==> key(s[j]) != k
    ensures r >= 0 ==> key(s[r]) == k && forall j :: 0 <= j < r ==> key(s[j]) != k
    decreases |s|
  {
    if s == [] then -1
    else if key(s[0]) == k then 0
    else
      var r := FirstIndex(s[1..], key, k);
      if r == -1 then -1 else r + 1
  }

  /** `append(s[:i], s[i+1:]...)`: drop element `i`, keep the rest in order. */
  function RemoveAt<T>(s: seq<T>, i: nat): (r: seq<T>)
    requires i < |s|
    ensures |r| == |s| - 1
    ensures forall j :: 0 <= j < i ==> r[j] == s[j]
    ensures forall j :: i <= j < |r| ==> r[j] == s[j + 1]
  {
    s[..i] + s[i + 1..]
  }

  /** No two elements share a key. */
  ghost predicate DistinctKeys<T, K>(s: seq<T>, key: T -> K)
  {
    forall i, j :: 0 <= i < j < |s| ==> key(s[i]) != key(s[j])
  }

  /** Elements appear in strictly increasing order of `rank`. */
  ghost predicate IncreasingBy<T>(s: seq<T>, rank: T -> int)
  {
    forall i, j :: 0 <= i < j < |s| ==> rank(s[i]) < rank(s[j])
  }

  lemma RemoveAtKeepsDistinct<T, K>(s: seq<T>, key: T -> K, i: nat)
    requires i < |s| && DistinctKeys(s, key)
    ensures DistinctKeys(RemoveAt(s, i), key)
  {
    var r := RemoveAt(s, i);
    forall a, b | 0 <= a < b < |r| ensures key(r[a]) != key(r[b]) {
      var a' := if a < i then a else a + 1;
      var b' := if b < i then b else b + 1;
      assert r[a] == s[a'] && r[b] == s[b'];
    }
  }

  lemma RemoveAtKeepsIncreasing<T>(s: seq<T>, rank: T -> int, i: nat)
    requires i < |s| && IncreasingBy(s, rank)
    ensures IncreasingBy(RemoveAt(s, i), rank)
  {
    var r := RemoveAt(s, i);
    forall a, b | 0 <= a < b < |r| ensures rank(r[a]) < rank(r[b]) {
      var a' := if a < i then a else a + 1;
      var b' := if b < i then b else b + 1;
      assert r[a] == s[a'] && r[b] == s[b'];
    }
  }

  /** Appending an element whose key is absent keeps keys distinct. */
  lemma AppendFreshKeepsDistinct<T, K>(s: seq<T>, key: T -> K, x: T)
    requires DistinctKeys(s, key) && FirstIndex(s, key, key(x)) == -1
    ensures DistinctKeys(s + [x], key)
  {
    var r := s + [x];
    forall a, b | 0 <= a < b < |r| ensures key(r[a]) != key(r[b]) {
      if b == |s| {
        assert r[a] == s[a] && r[b] == x;
      } else {
        assert r[a] == s[a] && r[b] == s[b];
      }
    }
  }

  /** With distinct keys, removing the element found for `k` leaves nothing
      that `k` can find again. */
  lemma NoReplay<T, K>(s: seq<T>, key: T -> K, k: K)
    requires DistinctKeys(s, key) && FirstIndex(s, key, k) >= 0
    ensures FirstIndex(RemoveAt(s, FirstIndex(s, key, k)), key, k) == -1
  {
    var i := FirstIndex(s, key, k);
    var r := RemoveAt(s, i);
    forall j | 0 <= j < |r| ensures key(r[j]) != k {
      if j < i {
        assert r[j] == s[j];
      } else {
        assert r[j] == s[j + 1] && key(s[i]) != key(s[j + 1]);
      }
    }
  }
}
