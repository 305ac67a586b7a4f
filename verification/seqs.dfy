/** Sequence operations of Rust's `Vec` that several modules rely on. */
module Seqs {
  predicate Distinct<T(==)>(s: seq<T>) {
    forall i, j :: 0 <= i < j < |s| ==> s[i] != s[j]
  }

  /** `Vec::swap_remove(i)`: the last element takes slot `i` and the vector shrinks by one. */
  function SwapRemove<T>(s: seq<T>, i: nat): (r: seq<T>)
    requires i < |s|
    ensures |r| == |s| - 1
    ensures forall k :: 0 <= k < |r| && k != i ==> r[k] == s[k]
    ensures i < |r| ==> r[i] == s[|s| - 1]
  {
    s[i := s[|s| - 1]][..|s| - 1]
  }

  /** Swap-removal loses exactly the removed element. */
  lemma SwapRemovePermutes<T>(s: seq<T>, i: nat)
    requires i < |s|
    ensures multiset(SwapRemove(s, i)) + multiset{s[i]} == multiset(s)
  {
    var last := |s| - 1;
    if i == last {
      assert s == SwapRemove(s, i) + [s[i]];
    } else {
      assert s == s[..i] + [s[i]] + s[i + 1..last] + [s[last]];
      assert SwapRemove(s, i) == s[..i] + [s[last]] + s[i + 1..last];
    }
  }

  /** `Vec::retain(|x| x != v)`: every occurrence of `v` is dropped, the rest keep their order. */
  function Without<T(==)>(s: seq<T>, v: T): (r: seq<T>)
    ensures v !in r
    ensures forall k :: 0 <= k < |r| ==> r[k] in s && r[k] != v
    ensures forall k :: 0 <= k < |s| && s[k] != v ==> s[k] in r
    ensures |r| <= |s|
  {
    if s == [] then []
    else if s[0] == v then Without(s[1..], v)
    else [s[0]] + Without(s[1..], v)
  }

  /** `s` without every occurrence of each value of `vs`, removed one value after another. */
  function WithoutAll<T(==)>(s: seq<T>, vs: seq<T>): seq<T>
    decreases |vs|
  {
    if vs == [] then s else Without(WithoutAll(s, vs[..|vs| - 1]), vs[|vs| - 1])
  }

  /** A value survives the removals exactly when it was there and is not one of the removed values. */
  lemma {:induction false} InWithoutAll<T>(s: seq<T>, vs: seq<T>, x: T)
    ensures x in WithoutAll(s, vs) <==> x in s && x !in vs
    decreases |vs|
  {
    if vs != [] {
      var init := vs[..|vs| - 1];
      InWithoutAll(s, init, x);
      assert vs == init + [vs[|vs| - 1]];
    }
  }

  /** Removing the values of a prefix one more value long removes that value next. */
  lemma WithoutAllStep<T>(s: seq<T>, vs: seq<T>, k: nat)
    requires k < |vs|
    ensures vs[..k + 1] == vs[..k] + [vs[k]]
    ensures WithoutAll(s, vs[..k + 1]) == Without(WithoutAll(s, vs[..k]), vs[k])
  {
    assert vs[..k + 1][..k] == vs[..k];
  }

  /** Removal keeps a duplicate-free sequence duplicate-free. */
  lemma {:induction false} WithoutDistinct<T>(s: seq<T>, v: T)
    requires Distinct(s)
    ensures Distinct(Without(s, v))
  {
    if s != [] {
      assert Distinct(s[1..]);
      WithoutDistinct(s[1..], v);
    }
  }

  /** Appending a value that is not yet present keeps a sequence duplicate-free, and only then. */
  lemma DistinctAppend<T>(s: seq<T>, x: T)
    requires x !in s
    ensures Distinct(s + [x]) <==> Distinct(s)
  {
    var r := s + [x];
    if Distinct(s) {
      forall i, j | 0 <= i < j < |r| ensures r[i] != r[j] {
        if j == |s| {
          assert r[i] == s[i];
        }
      }
    } else {
      var i, j :| 0 <= i < j < |s| && s[i] == s[j];
      assert r[i] == r[j];
    }
  }

  /** Push `x` only when it is absent, as `Children::add` and the render-graph builders do. */
  function AppendIfAbsent<T(==)>(s: seq<T>, x: T): (r: seq<T>)
    ensures |r| == if x in s then |s| else |s| + 1
    ensures x in r && r[..|s|] == s
  {
    if x in s then s else s + [x]
  }

  /** Pushing only absent values keeps a list duplicate-free, and a second push is a no-op. */
  lemma AppendIfAbsentDistinct<T>(s: seq<T>, x: T)
    ensures Distinct(s) ==> Distinct(AppendIfAbsent(s, x))
    ensures AppendIfAbsent(AppendIfAbsent(s, x), x) == AppendIfAbsent(s, x)
  {
    if x !in s {
      DistinctAppend(s, x);
    }
  }

  /** `Vec::insert(i, v)`. */
  function InsertAt<T>(s: seq<T>, i: nat, v: T): (r: seq<T>)
    requires i <= |s|
    ensures |r| == |s| + 1 && r[i] == v
    ensures forall k :: 0 <= k < i ==> r[k] == s[k]
    ensures forall k :: i < k < |r| ==> r[k] == s[k - 1]
  {
    s[..i] + [v] + s[i..]
  }

  /** `Vec::remove(i)`: order-preserving removal. */
  function RemoveAt<T>(s: seq<T>, i: nat): (r: seq<T>)
    requires i < |s|
    ensures |r| == |s| - 1
    ensures forall k :: 0 <= k < i ==> r[k] == s[k]
    ensures forall k :: i <= k < |r| ==> r[k] == s[k + 1]
  {
    s[..i] + s[i + 1..]
  }

  predicate SortedBy<T>(s: seq<T>, key: T -> int) {
    forall i, j :: 0 <= i < j < |s| ==> key(s[i]) <= key(s[j])
  }

  /** Inserts `x` before the first element whose key is not smaller. */
  function InsertByKey<T>(x: T, s: seq<T>, key: T -> int): (r: seq<T>)
    ensures |r| == |s| + 1
    ensures multiset(r) == multiset(s) + multiset{x}
  {
    if s == [] then [x]
    else if key(x) <= key(s[0]) then [x] + s
    else
      assert s == [s[0]] + s[1..];
      [s[0]] + InsertByKey(x, s[1..], key)
  }

  /** Inserting into a sorted sequence keeps it sorted; the new head is `x` or the old head. */
  lemma {:induction false} InsertByKeySorted<T>(x: T, s: seq<T>, key: T -> int)
    requires SortedBy(s, key)
    ensures SortedBy(InsertByKey(x, s, key), key)
    ensures s != [] ==> InsertByKey(x, s, key)[0] in {x, s[0]}
  {
    if s != [] && key(x) > key(s[0]) {
      var rest := InsertByKey(x, s[1..], key);
      InsertByKeySorted(x, s[1..], key);
      assert key(s[0]) <= key(rest[0]);
      var r := [s[0]] + rest;
      forall i, j | 0 <= i < j < |r| ensures key(r[i]) <= key(r[j]) {
        if i > 0 {
          assert r[i] == rest[i - 1] && r[j] == rest[j - 1];
        } else {
          assert r[j] == rest[j - 1];
        }
      }
    }
  }

  /**
   * A stable sort by `key` (as `sort_by_key`/`sort_by` on a key comparison): the result is
   * ordered by key and is a permutation of the input.
   */
  function SortByKey<T>(s: seq<T>, key: T -> int): (r: seq<T>)
    ensures SortedBy(r, key) && |r| == |s|
    ensures multiset(r) == multiset(s)
  {
    if s == [] then []
    else
      assert s == [s[0]] + s[1..];
      var rest := SortByKey(s[1..], key);
      InsertByKeySorted(s[0], rest, key);
      InsertByKey(s[0], rest, key)
  }

  /** The sort key of a type id: its own value. */
  function Identity(x: nat): int {
    x
  }

  predicate StrictlySorted(s: seq<int>) {
    forall i, j :: 0 <= i < j < |s| ==> s[i] < s[j]
  }

  /** A strictly sorted sequence is determined by its elements. */
  lemma {:induction false} StrictlySortedUnique(a: seq<int>, b: seq<int>)
    requires StrictlySorted(a) && StrictlySorted(b) && multiset(a) == multiset(b)
    ensures a == b
  {
    if a == [] {
      assert |multiset(b)| == 0;
    } else {
      assert a[0] in multiset(b);
      HeadIsLeast(b, a[0]);
      assert b[0] in multiset(a);
      HeadIsLeast(a, b[0]);
      assert a[0] == b[0];
      var a', b' := a[1..], b[1..];
      assert a == [a[0]] + a';
      assert b == [b[0]] + b';
      assert multiset(a) == multiset{a[0]} + multiset(a');
      assert multiset(b) == multiset{b[0]} + multiset(b');
      assert multiset(a') == multiset(a) - multiset{a[0]};
      assert multiset(b') == multiset(b) - multiset{b[0]};
      assert StrictlySorted(a') && StrictlySorted(b');
      StrictlySortedUnique(a', b');
    }
  }

  lemma HeadIsLeast(s: seq<int>, x: int)
    requires StrictlySorted(s) && x in s
    ensures s[0] <= x
  {
  }

  /** Order-preserving removal keeps a strictly sorted sequence strictly sorted. */
  lemma RemoveAtStrictlySorted(s: seq<int>, i: nat)
    requires StrictlySorted(s) && i < |s|
    ensures StrictlySorted(RemoveAt(s, i))
  {
    var r := RemoveAt(s, i);
    forall a, b | 0 <= a < b < |r| ensures r[a] < r[b] {
      var a', b' := if a < i then a else a + 1, if b < i then b else b + 1;
      assert r[a] == s[a'] && r[b] == s[b'];
    }
  }

  /** Distinctness depends only on the multiset of elements. */
  lemma DistinctByMultiset<T>(s: seq<T>)
    ensures Distinct(s) <==> forall k :: 0 <= k < |s| ==> multiset(s)[s[k]] == 1
  {
    if Distinct(s) {
      forall k | 0 <= k < |s| ensures multiset(s)[s[k]] == 1 {
        DistinctCount(s, k);
      }
    } else {
      var i, j :| 0 <= i < j < |s| && s[i] == s[j];
      assert s == s[..i] + [s[i]] + s[i + 1..j] + [s[j]] + s[j + 1..];
      assert multiset(s)[s[i]] >= 2;
    }
  }

  lemma {:induction false} DistinctCount<T>(s: seq<T>, k: nat)
    requires Distinct(s) && k < |s|
    ensures multiset(s)[s[k]] == 1
  {
    assert s == s[..k] + [s[k]] + s[k + 1..];
    assert s[k] !in s[..k] && s[k] !in s[k + 1..];
  }

  /** A permutation of a duplicate-free sequence is duplicate-free. */
  lemma DistinctPermutation<T>(s: seq<T>, t: seq<T>)
    requires multiset(s) == multiset(t)
    ensures Distinct(s) <==> Distinct(t)
  {
    DistinctByMultiset(s);
    DistinctByMultiset(t);
    forall k | 0 <= k < |t| ensures t[k] in multiset(s) {
      assert t[k] in multiset(t);
    }
    forall k | 0 <= k < |s| ensures s[k] in multiset(t) {
      assert s[k] in multiset(s);
    }
  }

  /** A sorted duplicate-free sequence of naturals (type ids) is strictly sorted. */
  lemma SortedDistinctStrict(s: seq<nat>)
    requires SortedBy(s, Identity) && Distinct(s)
    ensures StrictlySorted(s)
  {
    forall i, j | 0 <= i < j < |s| ensures s[i] < s[j] {
      assert Identity(s[i]) <= Identity(s[j]);
    }
  }
}
