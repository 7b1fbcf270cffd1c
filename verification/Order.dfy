/** The order Go gives strings, and the sorted lists and stable sorts built on it. */
module Order {

  /** Strict lexicographic order, as strings.Compare and slices.Sort use it. */
  predicate Less(a: string, b: string) {
    |b| > 0 && (|a| == 0 || a[0] < b[0] || (a[0] == b[0] && Less(a[1..], b[1..])))
  }

  lemma {:induction false} LessTotal(a: string, b: string)
    ensures a == b || Less(a, b) || Less(b, a)
    ensures !(Less(a, b) && Less(b, a)) && !Less(a, a)
  {
    if |a| > 0 && |b| > 0 && a[0] == b[0] {
      assert a == [a[0]] + a[1..] && b == [b[0]] + b[1..];
      LessTotal(a[1..], b[1..]);
      LessTotal(a[1..], a[1..]);
    } else if |a| > 0 {
      LessTotal(a[1..], a[1..]);
    }
  }

  lemma {:induction false} LessTransitive(a: string, b: string, c: string)
    requires Less(a, b) && Less(b, c)
    ensures Less(a, c)
  {
    if |a| > 0 && a[0] == b[0] == c[0] {
      LessTransitive(a[1..], b[1..], c[1..]);
    }
  }

  ghost predicate StrictlySorted(s: seq<string>) {
    forall i, j :: 0 <= i < j < |s| ==> Less(s[i], s[j])
  }

  predicate IsMin(k: string, keys: set<string>) {
    k in keys && forall o :: o in keys ==> o == k || Less(k, o)
  }

  lemma {:induction false} MinExists(keys: set<string>)
    requires keys != {}
    ensures exists k :: IsMin(k, keys)
  {
    var x :| x in keys;
    if keys == {x} {
      assert IsMin(x, keys);
    } else {
      MinExists(keys - {x});
      var m :| IsMin(m, keys - {x});
      LessTotal(x, m);
      var k := if Less(x, m) then x else m;
      forall o | o in keys ensures o == k || Less(k, o) {
        if Less(x, m) && o != x && o != m { LessTransitive(x, m, o); }
      }
      assert IsMin(k, keys);
    }
  }

  lemma MinUnique(a: string, b: string, keys: set<string>)
    requires IsMin(a, keys) && IsMin(b, keys)
    ensures a == b
  {
    LessTotal(a, b);
  }

  function Min(keys: set<string>): (k: string)
    requires keys != {}
    ensures IsMin(k, keys)
  {
    MinExists(keys);
    assert forall a, b | IsMin(a, keys) && IsMin(b, keys) :: a == b by {
      forall a, b | IsMin(a, keys) && IsMin(b, keys) ensures a == b { MinUnique(a, b, keys); }
    }
    var k :| k in keys && IsMin(k, keys);
    k
  }

  /** slices.Sorted(maps.Keys(m)). */
  function SortedKeys(keys: set<string>): (s: seq<string>)
    ensures StrictlySorted(s)
    ensures forall k :: k in s <==> k in keys
  {
    if keys == {} then [] else
      var k := Min(keys);
      var rest := SortedKeys(keys - {k});
      assert forall i :: 0 <= i < |rest| ==> rest[i] in keys - {k};
      [k] + rest
  }

  lemma SortedDistinct(s: seq<string>)
    requires StrictlySorted(s)
    ensures forall i, j :: 0 <= i < j < |s| ==> s[i] != s[j]
  {
    forall i, j | 0 <= i < j < |s| ensures s[i] != s[j] { LessTotal(s[i], s[j]); }
  }

  // ---- sorting by any order ----

  /** A strict weak order, as a comparison of keys gives. */
  ghost predicate WeakOrder<T(!new)>(less: (T, T) -> bool) {
    && (forall a, b :: less(a, b) ==> !less(b, a))
    && forall a, b, c {:trigger less(a, b), less(b, c)} :: !less(a, b) && !less(b, c) ==> !less(a, c)
  }

  /** No element comes before one that is smaller. */
  ghost predicate SortedBy<T>(s: seq<T>, less: (T, T) -> bool) { forall i, j :: 0 <= i < j < |s| ==> !less(s[j], s[i]) }

  ghost predicate StrictlySortedBy<T>(s: seq<T>, less: (T, T) -> bool) {
    forall i, j :: 0 <= i < j < |s| ==> less(s[i], s[j])
  }

  /** Distinct elements have distinct keys. */
  ghost predicate Separates<T>(s: seq<T>, less: (T, T) -> bool) {
    forall a, b :: a in s && b in s && a != b ==> less(a, b) || less(b, a)
  }

  ghost predicate Distinct<T>(s: seq<T>) { forall i, j :: 0 <= i < j < |s| ==> s[i] != s[j] }

  function Insert<T(!new)>(x: T, s: seq<T>, less: (T, T) -> bool): (r: seq<T>)
    ensures forall a :: a in r <==> a == x || a in s
  {
    if s == [] || !less(s[0], x) then [x] + s else [s[0]] + Insert(x, s[1..], less)
  }

  function SortBy<T(!new)>(s: seq<T>, less: (T, T) -> bool): (r: seq<T>)
    ensures forall a :: a in r <==> a in s
  {
    if s == [] then [] else Insert(s[0], SortBy(s[1..], less), less)
  }

  lemma {:induction false} InsertSorted<T(!new)>(x: T, s: seq<T>, less: (T, T) -> bool)
    requires WeakOrder(less) && SortedBy(s, less)
    ensures SortedBy(Insert(x, s, less), less)
  {
    if s != [] && less(s[0], x) {
      InsertSorted(x, s[1..], less);
      var rest := Insert(x, s[1..], less);
      forall j | 0 <= j < |rest| ensures !less(rest[j], s[0]) {
        assert rest[j] in rest;
      }
    } else {
      forall j | 0 <= j < |s| ensures !less(s[j], x) {
        assert j > 0 ==> !less(s[j], s[0]) && !less(s[0], x);
      }
    }
  }

  lemma {:induction false} InsertMultiset<T(!new)>(x: T, s: seq<T>, less: (T, T) -> bool)
    ensures multiset(Insert(x, s, less)) == multiset(s) + multiset{x}
  {
    if s != [] && less(s[0], x) {
      InsertMultiset(x, s[1..], less);
      assert s == [s[0]] + s[1..];
    }
  }

  /** Sorting gives a sorted permutation. */
  lemma {:induction false} SortSorts<T(!new)>(s: seq<T>, less: (T, T) -> bool)
    requires WeakOrder(less)
    ensures SortedBy(SortBy(s, less), less) && multiset(SortBy(s, less)) == multiset(s)
  {
    if s != [] {
      SortSorts(s[1..], less);
      InsertSorted(s[0], SortBy(s[1..], less), less);
      InsertMultiset(s[0], SortBy(s[1..], less), less);
      assert s == [s[0]] + s[1..];
    }
  }

  lemma SmallestFirst<T(!new)>(a: seq<T>, b: seq<T>, less: (T, T) -> bool)
    requires WeakOrder(less) && SortedBy(a, less) && SortedBy(b, less) && Separates(a, less)
    requires a != [] && b != [] && a[0] in b && b[0] in a
    ensures a[0] == b[0]
  {
    var i :| 0 <= i < |b| && b[i] == a[0];
    var j :| 0 <= j < |a| && a[j] == b[0];
  }

  /** A sorted list of elements with distinct keys is determined by its elements, whatever sorted it. */
  lemma {:induction false} SortUnique<T(!new)>(a: seq<T>, b: seq<T>, less: (T, T) -> bool)
    requires WeakOrder(less) && SortedBy(a, less) && SortedBy(b, less) && Separates(a, less)
    requires multiset(a) == multiset(b)
    ensures a == b
    decreases |a|
  {
    assert |a| == |multiset(a)| == |multiset(b)| == |b|;
    if a != [] {
      assert a[0] in multiset(b) && b[0] in multiset(a);
      SmallestFirst(a, b, less);
      TailMultiset(a);
      TailMultiset(b);
      SortUnique(a[1..], b[1..], less);
      assert a == [a[0]] + a[1..] && b == [b[0]] + b[1..];
    }
  }

  lemma TailMultiset<T>(a: seq<T>)
    requires a != []
    ensures multiset(a[1..]) == multiset(a) - multiset{a[0]}
  {
    assert a == [a[0]] + a[1..];
  }

  lemma SortSame<T(!new)>(a: seq<T>, b: seq<T>, less: (T, T) -> bool)
    requires WeakOrder(less) && Separates(a, less) && multiset(a) == multiset(b)
    ensures SortBy(a, less) == SortBy(b, less)
  {
    SortSorts(a, less);
    SortSorts(b, less);
    SortUnique(SortBy(a, less), SortBy(b, less), less);
  }

  lemma {:induction false} NoRepeats<T>(s: seq<T>)
    requires Distinct(s)
    ensures forall x :: multiset(s)[x] <= 1
  {
    if s != [] {
      NoRepeats(s[1..]);
      assert s == [s[0]] + s[1..];
      assert multiset(s) == multiset{s[0]} + multiset(s[1..]);
      assert s[0] !in multiset(s[1..]);
    }
  }

  lemma CountsTwo<T>(t: seq<T>, i: nat, j: nat)
    requires i < j < |t| && t[i] == t[j]
    ensures multiset(t)[t[i]] >= 2
  {
    assert t == t[..j] + [t[j]] + t[j + 1..];
    assert t[i] in t[..j] && t[i] in multiset(t[..j]);
  }

  lemma DistinctSame<T>(a: seq<T>, b: seq<T>)
    requires Distinct(a) && multiset(a) == multiset(b)
    ensures Distinct(b)
  {
    NoRepeats(a);
    forall i, j | 0 <= i < j < |b| ensures b[i] != b[j] {
      if b[i] == b[j] { CountsTwo(b, i, j); }
    }
  }

  /** Sorting a list whose elements have distinct keys makes it strictly increasing. */
  lemma SortDistinct<T(!new)>(s: seq<T>, less: (T, T) -> bool)
    requires WeakOrder(less) && Separates(s, less) && Distinct(s)
    ensures StrictlySortedBy(SortBy(s, less), less)
  {
    SortSorts(s, less);
    var t := SortBy(s, less);
    DistinctSame(s, t);
    forall i, j | 0 <= i < j < |t| ensures less(t[i], t[j]) {
      assert t[i] in t && t[j] in t;
    }
  }

  /** Two strictly increasing lists with the same elements are the same list. */
  lemma {:induction false} StrictUnique<T(!new)>(a: seq<T>, b: seq<T>, less: (T, T) -> bool)
    requires WeakOrder(less) && StrictlySortedBy(a, less) && StrictlySortedBy(b, less)
    requires forall x :: x in a <==> x in b
    ensures a == b
    decreases |a|
  {
    assert (forall i :: 0 <= i < |a| ==> a[i] in b) && (forall i :: 0 <= i < |b| ==> b[i] in a);
    if a != [] && b != [] {
      assert a[0] in b && b[0] in a;
      var i :| 0 <= i < |b| && b[i] == a[0];
      var j :| 0 <= j < |a| && a[j] == b[0];
      assert i == j == 0;
      forall x ensures x in a[1..] <==> x in b[1..] {
        assert x in a <==> x == a[0] || x in a[1..];
        assert x in b <==> x == b[0] || x in b[1..];
        assert a[0] !in a[1..] && b[0] !in b[1..];
      }
      StrictUnique(a[1..], b[1..], less);
      assert a == [a[0]] + a[1..] && b == [b[0]] + b[1..];
    }
  }

  /** Comparing by key is a weak order. */
  lemma KeyOrder<T(!new)>(key: T -> string, less: (T, T) -> bool)
    requires forall a, b :: less(a, b) <==> Less(key(a), key(b))
    ensures WeakOrder(less)
  {
    forall a, b | less(a, b) ensures !less(b, a) { LessTotal(key(a), key(b)); }
    forall a, b, c | !less(a, b) && !less(b, c) ensures !less(a, c) {
      LessTotal(key(a), key(b));
      LessTotal(key(b), key(c));
      LessTotal(key(a), key(c));
      if less(a, c) && key(a) != key(b) && key(b) != key(c) { LessTransitive(key(c), key(b), key(a)); }
    }
  }
}
