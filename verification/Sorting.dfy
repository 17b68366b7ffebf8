/** The ordered collections of the Rust standard library that the readers rely on. */
module Sorting {

  ghost predicate SortedBy<T>(s: seq<T>, key: T -> int) {
    forall i, j :: 0 <= i < j < |s| ==> key(s[i]) <= key(s[j])
  }

  ghost predicate StrictlySortedBy<T>(s: seq<T>, key: T -> int) {
    forall i, j :: 0 <= i < j < |s| ==> key(s[i]) < key(s[j])
  }

  /** Puts an element behind every element whose key is not larger. */
  function InsertByKey<T>(s: seq<T>, x: T, key: T -> int): seq<T> {
    if s == [] || key(s[|s| - 1]) <= key(x) then s + [x]
    else InsertByKey(s[..|s| - 1], x, key) + [s[|s| - 1]]
  }

  /** `slice::sort_by_key`, which is stable. */
  function SortByKey<T>(s: seq<T>, key: T -> int): seq<T> {
    if s == [] then [] else InsertByKey(SortByKey(s[..|s| - 1], key), s[|s| - 1], key)
  }

  lemma {:induction false} InsertKeepsElements<T>(s: seq<T>, x: T, key: T -> int)
    ensures multiset(InsertByKey(s, x, key)) == multiset(s) + multiset{x}
  {
    if s != [] && key(s[|s| - 1]) > key(x) {
      var n := |s| - 1;
      InsertKeepsElements(s[..n], x, key);
      assert s == s[..n] + [s[n]];
    }
  }

  /** The elements with one key, in order. */
  function WithKey<T>(s: seq<T>, key: T -> int, k: int): seq<T> {
    if s == [] then []
    else WithKey(s[..|s| - 1], key, k) + if key(s[|s| - 1]) == k then [s[|s| - 1]] else []
  }

  lemma {:induction false} InsertIsStable<T>(s: seq<T>, x: T, key: T -> int, k: int)
    ensures WithKey(InsertByKey(s, x, key), key, k) == WithKey(s, key, k) + if key(x) == k then [x] else []
  {
    if s != [] && key(s[|s| - 1]) > key(x) {
      InsertIsStable(s[..|s| - 1], x, key, k);
    } else {
      assert (s + [x])[..|s|] == s;
    }
  }

  /** Sorting leaves elements with equal keys in the order in which they were. */
  lemma {:induction false} SortIsStable<T>(s: seq<T>, key: T -> int, k: int)
    ensures WithKey(SortByKey(s, key), key, k) == WithKey(s, key, k)
  {
    if s != [] {
      SortIsStable(s[..|s| - 1], key, k);
      InsertIsStable(SortByKey(s[..|s| - 1], key), s[|s| - 1], key, k);
    }
  }

  lemma {:induction false} InsertIsSorted<T>(s: seq<T>, x: T, key: T -> int)
    requires SortedBy(s, key)
    ensures SortedBy(InsertByKey(s, x, key), key)
  {
    if s != [] && key(s[|s| - 1]) > key(x) {
      var n := |s| - 1;
      var init := InsertByKey(s[..n], x, key);
      InsertIsSorted(s[..n], x, key);
      InsertKeepsElements(s[..n], x, key);
      forall i | 0 <= i < |init| ensures key(init[i]) <= key(s[n]) {
        assert init[i] in multiset(init);
        assert init[i] in s[..n] || init[i] == x;
      }
    }
  }

  lemma {:induction false} SortKeepsElements<T>(s: seq<T>, key: T -> int)
    ensures multiset(SortByKey(s, key)) == multiset(s)
  {
    if s != [] {
      var n := |s| - 1;
      SortKeepsElements(s[..n], key);
      InsertKeepsElements(SortByKey(s[..n], key), s[n], key);
      assert s == s[..n] + [s[n]];
    }
  }

  lemma {:induction false} SortIsSorted<T>(s: seq<T>, key: T -> int)
    ensures SortedBy(SortByKey(s, key), key)
  {
    if s != [] {
      SortIsSorted(s[..|s| - 1], key);
      InsertIsSorted(SortByKey(s[..|s| - 1], key), s[|s| - 1], key);
    }
  }

  /** Sorting a sorted sequence changes nothing. */
  lemma {:induction false} SortOfSorted<T>(s: seq<T>, key: T -> int)
    requires SortedBy(s, key)
    ensures SortByKey(s, key) == s
  {
    if s != [] {
      var n := |s| - 1;
      SortOfSorted(s[..n], key);
      assert s == s[..n] + [s[n]];
      if n > 0 { assert key(s[n - 1]) <= key(s[n]); }
    }
  }

  lemma HasElement<T>(s: seq<T>)
    ensures s != [] ==> exists x :: x in s
  {
    if s != [] { assert s[0] in s; }
  }

  lemma SameLargest<T>(a: seq<T>, b: seq<T>, key: T -> int)
    requires StrictlySortedBy(a, key) && StrictlySortedBy(b, key) && a != [] && b != []
    requires forall x :: x in a <==> x in b
    ensures a[|a| - 1] == b[|b| - 1]
  {
    var n, m := |a| - 1, |b| - 1;
    assert a[n] in b && b[m] in a;
    var i :| 0 <= i <= m && b[i] == a[n];
    var j :| 0 <= j <= n && a[j] == b[m];
  }

  lemma InitElements<T>(a: seq<T>, b: seq<T>, last: T, key: T -> int)
    requires StrictlySortedBy(a + [last], key)
    requires forall x :: x in a + [last] <==> x in b + [last]
    ensures forall x :: x in a ==> x in b
  {
    forall x | x in a ensures x in b {
      var p :| 0 <= p < |a| && a[p] == x;
      assert (a + [last])[p] == x && (a + [last])[|a|] == last;
      assert x in a + [last] && x in b + [last];
    }
  }

  /** Sequences that are strictly sorted on one key and have the same elements are equal. */
  lemma {:induction false} SameElementsSameOrder<T>(a: seq<T>, b: seq<T>, key: T -> int)
    requires StrictlySortedBy(a, key) && StrictlySortedBy(b, key)
    requires forall x :: x in a <==> x in b
    ensures a == b
    decreases |a|
  {
    if a == [] {
      HasElement(b);
    } else {
      assert a[|a| - 1] in b;
      var n, m := |a| - 1, |b| - 1;
      SameLargest(a, b, key);
      assert a == a[..n] + [a[n]] && b == b[..m] + [a[n]];
      InitElements(a[..n], b[..m], a[n], key);
      InitElements(b[..m], a[..n], a[n], key);
      SameElementsSameOrder(a[..n], b[..m], key);
    }
  }

  /** Any arrangement of a strictly sorted sequence sorts back to it. */
  lemma SortOfArrangement<T>(arranged: seq<T>, s: seq<T>, key: T -> int)
    requires StrictlySortedBy(s, key) && multiset(arranged) == multiset(s)
    ensures SortByKey(arranged, key) == s
  {
    var t := SortByKey(arranged, key);
    SortIsSorted(arranged, key);
    SortKeepsElements(arranged, key);
    SortedArrangementIsStrict(t, s, key);
    forall x ensures x in t <==> x in s { assert x in multiset(t) <==> x in multiset(s); }
    SameElementsSameOrder(t, s, key);
  }

  /** Keys that occur once stay apart. */
  lemma SortedArrangementIsStrict<T>(t: seq<T>, s: seq<T>, key: T -> int)
    requires SortedBy(t, key) && StrictlySortedBy(s, key) && multiset(t) == multiset(s)
    ensures StrictlySortedBy(t, key)
  {
    forall i, j | 0 <= i < j < |t| ensures key(t[i]) < key(t[j]) {
      assert t[i] in multiset(s) && t[j] in multiset(s);
      var p :| 0 <= p < |s| && s[p] == t[i];
      var q :| 0 <= q < |s| && s[q] == t[j];
      if key(t[i]) == key(t[j]) {
        assert p == q;
        Twice(t, i, j);
        Once(s, p);
      }
    }
  }

  lemma Twice<T>(t: seq<T>, i: nat, j: nat)
    requires i < j < |t| && t[i] == t[j]
    ensures multiset(t)[t[i]] >= 2
  {
    assert t == t[..j] + [t[j]] + t[j + 1..];
    assert t[..j][i] == t[i];
    assert t[i] in multiset(t[..j]);
    assert multiset(t) == multiset(t[..j]) + multiset{t[j]} + multiset(t[j + 1..]);
  }

  lemma Once<T>(s: seq<T>, p: nat)
    requires p < |s| && forall q :: 0 <= q < |s| && q != p ==> s[q] != s[p]
    ensures multiset(s)[s[p]] == 1
  {
    assert s == s[..p] + [s[p]] + s[p + 1..];
    assert s[p] !in multiset(s[..p]) && s[p] !in multiset(s[p + 1..]);
    assert multiset(s) == multiset(s[..p]) + multiset{s[p]} + multiset(s[p + 1..]);
  }

  // ---------------------------------------------------------------- BTreeMap

  /** A non-empty set of numbers has a largest one. */
  lemma {:induction false} LargestExists(s: set<nat>) returns (k: nat)
    requires s != {}
    ensures k in s && forall j :: j in s ==> j <= k
    decreases |s|
  {
    k :| k in s;
    if s != {k} {
      assert s - {k} != {};
      var rest := LargestExists(s - {k});
      assert forall j :: j in s ==> j == k || j in s - {k};
      if rest > k { k := rest; }
    }
  }

  function Largest(s: set<nat>): (k: nat)
    requires s != {}
    ensures k in s && forall j :: j in s ==> j <= k
  {
    assert exists k :: k in s && forall j :: j in s ==> j <= k by { var k := LargestExists(s); }
    var k :| k in s && forall j :: j in s ==> j <= k;
    k
  }

  /** `BTreeMap::into_values`: the values in ascending order of their keys. */
  function ValuesByKey<T>(m: map<nat, T>): seq<T>
    decreases |m|
  {
    if m == map[] then []
    else
      var k := Largest(m.Keys);
      assert (m - {k}).Keys == m.Keys - {k};
      ValuesByKey(m - {k}) + [m[k]]
  }

  ghost predicate HasValue<T>(m: map<nat, T>, x: T) {
    exists k :: k in m && m[k] == x
  }

  /** Every listed value is a value of the map. */
  lemma {:induction false} ListedIsValue<T>(m: map<nat, T>)
    ensures forall i :: 0 <= i < |ValuesByKey(m)| ==> HasValue(m, ValuesByKey(m)[i])
    decreases |m|
  {
    if m != map[] {
      var k := Largest(m.Keys);
      var rest := m - {k};
      assert rest.Keys == m.Keys - {k};
      ListedIsValue(rest);
      var init := ValuesByKey(rest);
      forall i | 0 <= i < |init| ensures HasValue(m, init[i]) {
        assert HasValue(rest, init[i]);
        var q :| q in rest && rest[q] == init[i];
        assert q in m && m[q] == init[i];
      }
      assert HasValue(m, m[k]);
    }
  }

  lemma StrictSnoc<T>(s: seq<T>, x: T, key: T -> int)
    requires StrictlySortedBy(s, key) && forall i :: 0 <= i < |s| ==> key(s[i]) < key(x)
    ensures StrictlySortedBy(s + [x], key)
  {
  }

  /** When every value carries its key, the listing is strictly sorted and complete. */
  lemma {:induction false} ValuesByKeyListing<T>(m: map<nat, T>, key: T -> int)
    requires forall k :: k in m ==> key(m[k]) == k
    ensures StrictlySortedBy(ValuesByKey(m), key)
    ensures forall k :: k in m ==> m[k] in ValuesByKey(m)
    decreases |m|
  {
    if m != map[] {
      var k := Largest(m.Keys);
      var rest := m - {k};
      assert rest.Keys == m.Keys - {k};
      ValuesByKeyListing(rest, key);
      ListedIsValue(rest);
      var init := ValuesByKey(rest);
      forall i | 0 <= i < |init| ensures key(init[i]) < key(m[k]) {
        assert HasValue(rest, init[i]);
      }
      StrictSnoc(init, m[k], key);
      forall q | q in m ensures m[q] in init + [m[k]] {
        if q != k { assert q in rest; }
      }
    }
  }
}
