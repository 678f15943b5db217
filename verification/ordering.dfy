/** The orderings the source sorts by: JavaScript's `<` on strings (here
    character by character; JavaScript compares UTF-16 code units, which
    agree with characters inside the Basic Multilingual Plane) and on
    timestamps, and `Array.prototype.sort`, which since ES2019 is a stable
    sort and is modelled as insertion sort. */
module Ordering {
  import opened Seqs

  /** `a < b` on strings: lexicographic by character code, a proper prefix first. */
  predicate StrLess(a: string, b: string)
    decreases |a|
  {
    if a == [] then b != []
    else if b == [] then false
    else if a[0] != b[0] then a[0] < b[0]
    else StrLess(a[1..], b[1..])
  }

  lemma {:induction false} StrLessIrreflexive(a: string)
    ensures !StrLess(a, a)
    decreases |a|
  {
    if a != [] {
      StrLessIrreflexive(a[1..]);
    }
  }

  lemma {:induction false} StrLessTransitive(a: string, b: string, c: string)
    requires StrLess(a, b) && StrLess(b, c)
    ensures StrLess(a, c)
    decreases |a|
  {
    if a != [] && b != [] && c != [] && a[0] == b[0] == c[0] {
      StrLessTransitive(a[1..], b[1..], c[1..]);
    }
  }

  lemma {:induction false} StrLessTotal(a: string, b: string)
    ensures a == b || StrLess(a, b) || StrLess(b, a)
    decreases |a|
  {
    if a != [] && b != [] && a[0] == b[0] {
      StrLessTotal(a[1..], b[1..]);
      if a[1..] == b[1..] {
        assert a == [a[0]] + a[1..] && b == [b[0]] + b[1..];
      }
    }
  }

  /** A sort key: the lower-cased title, the type or the status (text), or
      the last-update time (a number of milliseconds). */
  datatype Key = Text(s: string) | Time(t: int)

  /** Keys of one kind compare as JavaScript compares them; every key of a
      sort has the same kind, and texts are put first only to make the order total. */
  predicate KeyLess(a: Key, b: Key) {
    match (a, b)
    case (Text(x), Text(y)) => StrLess(x, y)
    case (Time(x), Time(y)) => x < y
    case (Text(_), Time(_)) => true
    case (Time(_), Text(_)) => false
  }

  lemma KeyLessStrictTotal()
    ensures forall a :: !KeyLess(a, a)
    ensures forall a, b, c :: KeyLess(a, b) && KeyLess(b, c) ==> KeyLess(a, c)
    ensures forall a, b :: a == b || KeyLess(a, b) || KeyLess(b, a)
  {
    forall a ensures !KeyLess(a, a) {
      if a.Text? { StrLessIrreflexive(a.s); }
    }
    forall a, b, c | KeyLess(a, b) && KeyLess(b, c) ensures KeyLess(a, c) {
      if a.Text? && b.Text? && c.Text? { StrLessTransitive(a.s, b.s, c.s); }
    }
    forall a, b ensures a == b || KeyLess(a, b) || KeyLess(b, a) {
      if a.Text? && b.Text? { StrLessTotal(a.s, b.s); }
    }
  }

  /** The comparator of the source: a strictly precedes b. */
  predicate Before<T>(key: T -> Key, desc: bool, a: T, b: T) {
    if desc then KeyLess(key(b), key(a)) else KeyLess(key(a), key(b))
  }

  /** No element is strictly preceded by a later one. */
  ghost predicate Sorted<T>(s: seq<T>, key: T -> Key, desc: bool) {
    forall i, j :: 0 <= i < j < |s| ==> !Before(key, desc, s[j], s[i])
  }

  /** Inserts x in front of the first element that does not strictly precede it. */
  function Insert<T>(x: T, s: seq<T>, key: T -> Key, desc: bool): (r: seq<T>)
    ensures multiset(r) == multiset(s) + multiset{x}
    ensures |r| == |s| + 1
  {
    if s == [] || !Before(key, desc, s[0], x) then [x] + s
    else
      assert s == [s[0]] + s[1..];
      [s[0]] + Insert(x, s[1..], key, desc)
  }

  /** The array sort with a comparator on a copy of the input. */
  function SortBy<T>(s: seq<T>, key: T -> Key, desc: bool): (r: seq<T>)
    ensures multiset(r) == multiset(s)
    ensures |r| == |s|
  {
    if s == [] then []
    else
      assert s == [s[0]] + s[1..];
      Insert(s[0], SortBy(s[1..], key, desc), key, desc)
  }

  lemma {:induction false} InsertSorted<T>(x: T, s: seq<T>, key: T -> Key, desc: bool)
    requires Sorted(s, key, desc)
    ensures Sorted(Insert(x, s, key, desc), key, desc)
    decreases |s|
  {
    KeyLessStrictTotal();
    var r := Insert(x, s, key, desc);
    if s == [] || !Before(key, desc, s[0], x) {
      forall i, j | 0 <= i < j < |r| ensures !Before(key, desc, r[j], r[i]) {
        if i == 0 && j > 1 {
          assert !Before(key, desc, s[j - 1], s[0]);
        }
      }
    } else {
      InsertSorted(x, s[1..], key, desc);
      var t := Insert(x, s[1..], key, desc);
      assert r == [s[0]] + t;
      forall j | 0 < j < |r| ensures !Before(key, desc, r[j], s[0]) {
        assert r[j] in multiset(t);
        assert r[j] in multiset(s[1..]) + multiset{x};
        if r[j] != x {
          var k :| 0 <= k < |s[1..]| && s[1..][k] == r[j];
          assert !Before(key, desc, s[k + 1], s[0]);
        }
      }
    }
  }

  /** The sort yields an ordered permutation of its input. */
  lemma {:induction false} SortBySorted<T>(s: seq<T>, key: T -> Key, desc: bool)
    ensures Sorted(SortBy(s, key, desc), key, desc)
    ensures multiset(SortBy(s, key, desc)) == multiset(s)
    decreases |s|
  {
    if s != [] {
      SortBySorted(s[1..], key, desc);
      InsertSorted(s[0], SortBy(s[1..], key, desc), key, desc);
    }
  }

  /** Holds for the elements whose key is k. */
  function HasKey<T>(key: T -> Key, k: Key): T -> bool {
    (x: T) => key(x) == k
  }

  /** Inserting x adds it to the elements with its key, in front of those
      already there: every element Insert passes over strictly precedes x,
      so none of them has x's key. */
  lemma {:induction false} InsertKeepsKeyOrder<T>(x: T, s: seq<T>, key: T -> Key, desc: bool, k: Key)
    ensures Filter(HasKey(key, k), Insert(x, s, key, desc))
         == (if key(x) == k then [x] else []) + Filter(HasKey(key, k), s)
    decreases |s|
  {
    var p := HasKey(key, k);
    if s == [] || !Before(key, desc, s[0], x) {
      FilterCons(p, x, s);
    } else {
      KeyLessIrreflexive(key(x));
      assert key(s[0]) != key(x);
      var rest := Insert(x, s[1..], key, desc);
      InsertKeepsKeyOrder(x, s[1..], key, desc, k);
      FilterCons(p, s[0], rest);
      FilterCons(p, s[0], s[1..]);
      assert [s[0]] + s[1..] == s;
    }
  }

  /** No key strictly precedes itself. */
  lemma KeyLessIrreflexive(a: Key)
    ensures !KeyLess(a, a)
  {
    if a.Text? { StrLessIrreflexive(a.s); }
  }

  /** The sort is stable: the elements with any one key come out in the
      order they went in. */
  lemma {:induction false} SortByStable<T>(s: seq<T>, key: T -> Key, desc: bool, k: Key)
    ensures Filter(HasKey(key, k), SortBy(s, key, desc)) == Filter(HasKey(key, k), s)
    decreases |s|
  {
    if s != [] {
      SortByStable(s[1..], key, desc, k);
      InsertKeepsKeyOrder(s[0], SortBy(s[1..], key, desc), key, desc, k);
    }
  }

  /** The key of a plain string, as the default comparison sees it. */
  function AsText(s: string): Key {
    Text(s)
  }

  /** `ids.sort()` without a comparator: ascending by string order. */
  function SortStrings(ids: seq<string>): (r: seq<string>)
    ensures multiset(r) == multiset(ids)
  {
    SortBy(ids, AsText, false)
  }

  /** Two ascending string lists holding the same strings are identical. */
  lemma {:induction false} SortedStringsUnique(a: seq<string>, b: seq<string>)
    requires Sorted(a, AsText, false) && Sorted(b, AsText, false)
    requires multiset(a) == multiset(b)
    ensures a == b
    decreases |a|
  {
    if a != [] {
      assert |b| == |a| by { assert |multiset(a)| == |multiset(b)|; }
      SortedHeadsEqual(a, b);
      assert a == [a[0]] + a[1..] && b == [b[0]] + b[1..];
      assert multiset(a[1..]) == multiset(a) - multiset{a[0]};
      assert multiset(b[1..]) == multiset(b) - multiset{b[0]};
      SortedStringsUnique(a[1..], b[1..]);
    }
  }

  /** The least string of two ascending lists with the same strings: each
      first element is no greater than anything in the other list. */
  lemma SortedHeadsEqual(a: seq<string>, b: seq<string>)
    requires Sorted(a, AsText, false) && Sorted(b, AsText, false)
    requires multiset(a) == multiset(b) && a != [] && b != []
    ensures a[0] == b[0]
  {
    KeyLessStrictTotal();
    assert a[0] in multiset(b);
    var i :| 0 <= i < |b| && b[i] == a[0];
    assert b[0] in multiset(a);
    var j :| 0 <= j < |a| && a[j] == b[0];
    assert !StrLess(b[0], a[0]) by {
      if i > 0 { assert !Before(AsText, false, b[i], b[0]); } else { StrLessIrreflexive(a[0]); }
    }
    assert !StrLess(a[0], b[0]) by {
      if j > 0 { assert !Before(AsText, false, a[j], a[0]); } else { StrLessIrreflexive(a[0]); }
    }
    StrLessTotal(a[0], b[0]);
  }

  /** Comparing sorted copies (the source compares their JSON text) is
      comparing the lists as multisets: order and position do not matter. */
  lemma SortedEqualIffSameElements(a: seq<string>, b: seq<string>)
    ensures SortStrings(a) == SortStrings(b) <==> multiset(a) == multiset(b)
  {
    SortBySorted(a, AsText, false);
    SortBySorted(b, AsText, false);
    if multiset(a) == multiset(b) {
      SortedStringsUnique(SortStrings(a), SortStrings(b));
    }
  }
}
