/** Ordered views of the repositories: the ids of a table in ascending order
    (the ORDER BY id of the list queries), and the stable sort by a numeric
    key, largest first, that Java's List.sort and Stream.sorted perform
    with a reversed Comparator.comparingLong. */
module Seqs {

  /** The keys below hi of the entries of m that satisfy keep, ascending. */
  function AscendingKeys<V>(m: map<nat, V>, keep: V -> bool, hi: nat): (r: seq<nat>)
    ensures forall i, j :: 0 <= i < j < |r| ==> r[i] < r[j]
    ensures forall k :: k in r <==> k < hi && k in m && keep(m[k])
  {
    if hi == 0 then []
    else
      var prefix := AscendingKeys(m, keep, hi - 1);
      assert forall i :: 0 <= i < |prefix| ==> prefix[i] in prefix;
      if hi - 1 in m && keep(m[hi - 1]) then prefix + [hi - 1] else prefix
  }

  /** The set of the elements of s. */
  function Elements(s: seq<nat>): (r: set<nat>)
    ensures forall x :: x in r <==> x in s
  {
    set x | x in s
  }

  /** A strictly increasing sequence lists each of its elements once, so its
      length is the size of its set of elements. */
  lemma {:induction false} AscendingCard(s: seq<nat>)
    requires forall i, j :: 0 <= i < j < |s| ==> s[i] < s[j]
    ensures |Elements(s)| == |s|
  {
    if s != [] {
      var p := s[..|s| - 1];
      var last := s[|s| - 1];
      assert s == p + [last];
      AscendingCard(p);
      LastNotEarlier(s);
      ElementsSnoc(p, last);
    }
  }

  lemma ElementsSnoc(p: seq<nat>, x: nat)
    requires x !in p
    ensures |Elements(p + [x])| == |Elements(p)| + 1
  {
    assert Elements(p + [x]) == Elements(p) + {x};
  }

  lemma LastNotEarlier(s: seq<nat>)
    requires s != []
    requires forall i, j :: 0 <= i < j < |s| ==> s[i] < s[j]
    ensures s[|s| - 1] !in s[..|s| - 1]
  {
    var p := s[..|s| - 1];
    forall i | 0 <= i < |p| ensures p[i] != s[|s| - 1] {
      assert p[i] == s[i];
    }
  }

  /** A subset is no larger than its superset, and a proper subset is smaller. */
  lemma SubsetCard<T>(a: set<T>, b: set<T>)
    requires a <= b
    ensures |a| <= |b|
    ensures a < b ==> |a| < |b|
  {
    assert b == a + (b - a);
    assert a * (b - a) == {};
  }

  /** Sequences with the same multiset have the same length and the same
      elements. */
  lemma SameMultisetSameMembers<T>(r: seq<T>, s: seq<T>)
    requires multiset(r) == multiset(s)
    ensures |r| == |s|
    ensures forall x :: x in r <==> x in s
  {
    assert |r| == |multiset(r)|;
    forall x ensures x in r <==> x in s {
      assert x in r <==> x in multiset(r);
      assert x in s <==> x in multiset(s);
    }
  }

  ghost predicate SortedDesc<T>(s: seq<T>, key: T -> int) {
    forall i, j :: 0 <= i < j < |s| ==> key(s[i]) >= key(s[j])
  }

  /** The elements of s whose key is k, in their order in s. */
  function WithKey<T>(s: seq<T>, key: T -> int, k: int): seq<T> {
    if s == [] then []
    else (if key(s[0]) == k then [s[0]] else []) + WithKey(s[1..], key, k)
  }

  /** r is s sorted by key, largest first, with elements of equal key kept in
      their order in s. */
  ghost predicate IsStableSortDesc<T>(r: seq<T>, s: seq<T>, key: T -> int) {
    && SortedDesc(r, key)
    && multiset(r) == multiset(s)
    && forall k :: WithKey(r, key, k) == WithKey(s, key, k)
  }

  /** Inserts x in front of the first element whose key does not exceed x's. */
  function InsertDesc<T>(x: T, s: seq<T>, key: T -> int): (r: seq<T>)
    ensures multiset(r) == multiset(s) + multiset{x}
  {
    if s == [] || key(s[0]) <= key(x) then [x] + s
    else
      assert s == [s[0]] + s[1..];
      [s[0]] + InsertDesc(x, s[1..], key)
  }

  lemma {:induction false} InsertDescSorted<T>(x: T, s: seq<T>, key: T -> int)
    requires SortedDesc(s, key)
    ensures SortedDesc(InsertDesc(x, s, key), key)
  {
    if s != [] && key(s[0]) > key(x) {
      var rest := InsertDesc(x, s[1..], key);
      assert SortedDesc(s[1..], key);
      InsertDescSorted(x, s[1..], key);
      var r := [s[0]] + rest;
      forall i, j | 0 <= i < j < |r| ensures key(r[i]) >= key(r[j]) {
        if i == 0 {
          InsertDescMember(x, s[1..], key, j - 1);
        } else {
          assert r[i] == rest[i - 1] && r[j] == rest[j - 1];
        }
      }
    }
  }

  /** Every element of an insertion result is x or an element of s whose key
      is at most the head's. */
  lemma {:induction false} InsertDescMember<T>(x: T, s: seq<T>, key: T -> int, j: int)
    requires 0 <= j < |InsertDesc(x, s, key)|
    ensures var y := InsertDesc(x, s, key)[j]; y == x || exists i :: 0 <= i < |s| && s[i] == y
  {
    if s != [] && key(s[0]) > key(x) && j > 0 {
      InsertDescMember(x, s[1..], key, j - 1);
      var y := InsertDesc(x, s, key)[j];
      if y != x {
        var i :| 0 <= i < |s[1..]| && s[1..][i] == y;
        assert s[i + 1] == y;
      }
    }
  }

  /** Insertion sort, largest key first. */
  function SortDesc<T>(s: seq<T>, key: T -> int): (r: seq<T>)
    ensures SortedDesc(r, key)
    ensures multiset(r) == multiset(s)
  {
    if s == [] then []
    else
      assert s == [s[0]] + s[1..];
      InsertDescSorted(s[0], SortDesc(s[1..], key), key);
      InsertDesc(s[0], SortDesc(s[1..], key), key)
  }

  /** The one-element group of x. */
  function Own<T>(x: T, key: T -> int, k: int): (r: seq<T>)
    ensures r == WithKey([x], key, k)
  {
    assert [x][1..] == [];
    if key(x) == k then [x] else []
  }

  lemma {:induction false} WithKeyConcat<T>(a: seq<T>, b: seq<T>, key: T -> int, k: int)
    ensures WithKey(a + b, key, k) == WithKey(a, key, k) + WithKey(b, key, k)
  {
    if a == [] {
      assert a + b == b;
    } else {
      var ab := a + b;
      assert ab[0] == a[0] && ab[1..] == a[1..] + b;
      var head := if key(a[0]) == k then [a[0]] else [];
      assert WithKey(ab, key, k) == head + WithKey(ab[1..], key, k);
      assert WithKey(a, key, k) == head + WithKey(a[1..], key, k);
      WithKeyConcat(a[1..], b, key, k);
    }
  }

  lemma {:induction false} WithKeyInsert<T>(x: T, s: seq<T>, key: T -> int, k: int)
    ensures WithKey(InsertDesc(x, s, key), key, k) == Own(x, key, k) + WithKey(s, key, k)
  {
    if s == [] || key(s[0]) <= key(x) {
      assert InsertDesc(x, s, key) == [x] + s;
      WithKeyConcat([x], s, key, k);
    } else {
      var rest := InsertDesc(x, s[1..], key);
      assert InsertDesc(x, s, key) == [s[0]] + rest;
      WithKeyInsert(x, s[1..], key, k);
      WithKeyConcat([s[0]], rest, key, k);
      WithKeyConcat([s[0]], s[1..], key, k);
      assert [s[0]] + s[1..] == s;
      SwapOwn(s[0], x, WithKey(s[1..], key, k), key, k);
    }
  }

  lemma SwapOwn<T>(a: T, b: T, w: seq<T>, key: T -> int, k: int)
    requires key(a) > key(b)
    ensures Own(a, key, k) + (Own(b, key, k) + w) == Own(b, key, k) + (Own(a, key, k) + w)
  {
  }

  /** The insertion sort is stable: equal keys keep their input order. */
  lemma {:induction false} SortDescIsStable<T>(s: seq<T>, key: T -> int)
    ensures IsStableSortDesc(SortDesc(s, key), s, key)
  {
    if s != [] {
      SortDescIsStable(s[1..], key);
      forall k ensures WithKey(SortDesc(s, key), key, k) == WithKey(s, key, k) {
        SortDescGroup(s, key, k);
      }
    }
  }

  /** One insertion step keeps the group of key k. */
  lemma SortDescGroup<T>(s: seq<T>, key: T -> int, k: int)
    requires s != []
    requires WithKey(SortDesc(s[1..], key), key, k) == WithKey(s[1..], key, k)
    ensures WithKey(SortDesc(s, key), key, k) == WithKey(s, key, k)
  {
    var rest := SortDesc(s[1..], key);
    calc {
      WithKey(SortDesc(s, key), key, k);
      WithKey(InsertDesc(s[0], rest, key), key, k);
      { WithKeyInsert(s[0], rest, key, k); }
      Own(s[0], key, k) + WithKey(rest, key, k);
      Own(s[0], key, k) + WithKey(s[1..], key, k);
      { WithKeyConcat([s[0]], s[1..], key, k); }
      WithKey([s[0]] + s[1..], key, k);
      { assert [s[0]] + s[1..] == s; }
      WithKey(s, key, k);
    }
  }

  /** A stable descending sort is unique: whatever satisfies the three
      conditions is the insertion sort's result. */
  lemma {:induction false} StableSortDescUnique<T>(r: seq<T>, s: seq<T>, key: T -> int)
    requires IsStableSortDesc(r, s, key)
    ensures r == SortDesc(s, key)
  {
    SortDescIsStable(s, key);
    var q := SortDesc(s, key);
    SortedWithSameGroupsEqual(r, q, key);
  }

  lemma {:induction false} SortedWithSameGroupsEqual<T>(r: seq<T>, q: seq<T>, key: T -> int)
    requires SortedDesc(r, key) && SortedDesc(q, key)
    requires forall k :: WithKey(r, key, k) == WithKey(q, key, k)
    ensures r == q
  {
    EmptyTogether(r, q, key);
    if r != [] {
      // the heads have the same key: each is the largest of both sequences
      HeadKeyIsMax(r, q, key);
      HeadKeyIsMax(q, r, key);
      assert r[0] == WithKey(r, key, key(r[0]))[0] == WithKey(q, key, key(r[0]))[0] == q[0];
      forall k ensures WithKey(r[1..], key, k) == WithKey(q[1..], key, k) {
        var head := if key(r[0]) == k then [r[0]] else [];
        assert WithKey(r, key, k) == head + WithKey(r[1..], key, k);
        assert WithKey(q, key, k) == head + WithKey(q[1..], key, k);
        assert WithKey(r[1..], key, k) == WithKey(r, key, k)[|head|..];
        assert WithKey(q[1..], key, k) == WithKey(q, key, k)[|head|..];
      }
      SortedWithSameGroupsEqual(r[1..], q[1..], key);
      assert r == [r[0]] + r[1..] && q == [q[0]] + q[1..];
    }
  }

  lemma EmptyTogether<T>(r: seq<T>, q: seq<T>, key: T -> int)
    requires forall k :: WithKey(r, key, k) == WithKey(q, key, k)
    ensures r == [] <==> q == []
  {
    if r != [] {
      assert WithKey(r, key, key(r[0])) != [];
    }
    if q != [] {
      assert WithKey(q, key, key(q[0])) != [];
    }
  }

  /** In sequences with the same groups, the head of a sorted one has a key
      at least that of the other's head. */
  lemma HeadKeyIsMax<T>(r: seq<T>, q: seq<T>, key: T -> int)
    requires r != [] && q != [] && SortedDesc(r, key)
    requires forall k :: WithKey(r, key, k) == WithKey(q, key, k)
    ensures key(r[0]) >= key(q[0])
  {
    var k := key(q[0]);
    assert WithKey(q, key, k) != [];
    WithKeyMember(r, key, k);
  }

  lemma {:induction false} WithKeyMember<T>(s: seq<T>, key: T -> int, k: int)
    requires WithKey(s, key, k) != []
    ensures exists i :: 0 <= i < |s| && key(s[i]) == k
  {
    if key(s[0]) != k {
      WithKeyMember(s[1..], key, k);
      var i :| 0 <= i < |s[1..]| && key(s[1..][i]) == k;
      assert key(s[i + 1]) == k;
    }
  }
}
