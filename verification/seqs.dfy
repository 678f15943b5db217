/** Small facts about sequence prefixes, stated once so that the proofs using
    them need no extensionality argument of their own. */
module Seqs {

  /** Taking one more element, then cutting it off again. */
  lemma TakeStep<T>(s: seq<T>, i: int)
    ensures 0 <= i < |s| ==> s[..i + 1][..i] == s[..i] && s[..i + 1][i] == s[i]
  {
  }

  lemma TakeAll<T>(s: seq<T>)
    ensures s[..|s|] == s
  {
  }

  /** The front and the last element of an appended sequence. */
  lemma SnocParts<T>(s: seq<T>, x: T)
    ensures (s + [x])[..|s|] == s && (s + [x])[|s|] == x
  {
  }

  /** An element of a prefix is an element of the whole. */
  lemma PrefixMember<T>(a: seq<T>, b: seq<T>, x: T)
    requires a <= b && x in a
    ensures x in b
  {
    var k :| 0 <= k < |a| && a[k] == x;
    assert b[k] == x;
  }

  lemma EmptyConcat<T>(a: seq<T>, b: seq<T>)
    ensures a + b == [] <==> a == [] && b == []
  {
    assert |a + b| == |a| + |b|;
  }

  /** The lists of a list of lists, one after the other. */
  function Flatten<T>(xss: seq<seq<T>>): (r: seq<T>)
    ensures xss == [] ==> r == []
  {
    if xss == [] then [] else Flatten(xss[..|xss| - 1]) + xss[|xss| - 1]
  }

  /** Flattening one list more appends that list. */
  lemma FlattenStep<T>(xss: seq<seq<T>>, i: int)
    requires 0 <= i < |xss|
    ensures Flatten(xss[..i + 1]) == Flatten(xss[..i]) + xss[i]
  {
    assert xss[..i + 1][..i] == xss[..i];
  }

  /** A loop that appends the lists one by one after a fixed start keeps
      "start, then the lists so far". */
  lemma AppendNext<T>(acc: seq<T>, start: seq<T>, xss: seq<seq<T>>, i: int, x: seq<T>)
    requires 0 <= i < |xss| && acc == start + Flatten(xss[..i]) && x == xss[i]
    ensures acc + x == start + Flatten(xss[..i + 1])
  {
    FlattenStep(xss, i);
  }

  /** Nothing comes out exactly when every list is empty. */
  lemma {:induction false} FlattenEmptyIff<T>(xss: seq<seq<T>>)
    ensures Flatten(xss) == [] <==> forall i :: 0 <= i < |xss| ==> xss[i] == []
    decreases |xss|
  {
    if xss != [] {
      var front := xss[..|xss| - 1];
      FlattenEmptyIff(front);
      EmptyConcat(Flatten(front), xss[|xss| - 1]);
      assert forall i :: 0 <= i < |front| ==> front[i] == xss[i];
    }
  }

  /** Flattening a concatenation flattens its parts one after the other. */
  lemma {:induction false} FlattenAppend<T>(xss: seq<seq<T>>, yss: seq<seq<T>>)
    ensures Flatten(xss + yss) == Flatten(xss) + Flatten(yss)
    decreases |yss|
  {
    if yss == [] {
      assert xss + yss == xss;
    } else {
      var n := |yss|;
      assert (xss + yss)[..|xss + yss| - 1] == xss + yss[..n - 1];
      assert (xss + yss)[|xss + yss| - 1] == yss[n - 1];
      FlattenAppend(xss, yss[..n - 1]);
    }
  }

  /** Flattening a list put in front puts its elements in front. */
  lemma {:induction false} FlattenCons<T>(x: seq<T>, xss: seq<seq<T>>)
    ensures Flatten([x] + xss) == x + Flatten(xss)
    decreases |xss|
  {
    if xss != [] {
      var n := |xss|;
      assert ([x] + xss)[..n] == [x] + xss[..n - 1];
      FlattenCons(x, xss[..n - 1]);
    }
  }

  function Reverse<T>(s: seq<T>): (r: seq<T>)
    ensures |r| == |s| && forall i :: 0 <= i < |s| ==> r[i] == s[|s| - 1 - i]
  {
    if s == [] then [] else Reverse(s[1..]) + [s[0]]
  }

  lemma ReverseSnoc<T>(s: seq<T>, x: T)
    ensures Reverse(s + [x]) == [x] + Reverse(s)
  {
  }

  /** Reversing, then flattening, puts the last list first. */
  lemma FlattenReverseSnoc<T>(xss: seq<seq<T>>, x: seq<T>)
    ensures Flatten(Reverse(xss + [x])) == x + Flatten(Reverse(xss))
  {
    ReverseSnoc(xss, x);
    FlattenCons(x, Reverse(xss));
  }

  /** f applied to every element, in order. */
  function Map<T, U>(f: T -> U, s: seq<T>): (r: seq<U>)
    ensures |r| == |s| && forall i :: 0 <= i < |s| ==> r[i] == f(s[i])
  {
    if s == [] then [] else [f(s[0])] + Map(f, s[1..])
  }

  /** The elements that satisfy p, in their order. */
  function Filter<T>(p: T -> bool, s: seq<T>): (r: seq<T>)
    ensures |r| <= |s|
  {
    if s == [] then [] else (if p(s[0]) then [s[0]] else []) + Filter(p, s[1..])
  }

  /** Filtering a list with one more element in front. */
  lemma FilterCons<T>(p: T -> bool, x: T, s: seq<T>)
    ensures Filter(p, [x] + s) == (if p(x) then [x] else []) + Filter(p, s)
  {
    assert ([x] + s)[0] == x && ([x] + s)[1..] == s;
  }

  /** An element is kept exactly when it is in the list and satisfies p. */
  lemma {:induction false} FilterMembers<T>(p: T -> bool, s: seq<T>)
    ensures forall x :: x in Filter(p, s) <==> x in s && p(x)
    decreases |s|
  {
    if s != [] {
      FilterMembers(p, s[1..]);
      assert s == [s[0]] + s[1..];
    }
  }

  /** Filtering keeps the order: a concatenation is filtered piece by piece. */
  lemma {:induction false} FilterAppend<T>(p: T -> bool, a: seq<T>, b: seq<T>)
    ensures Filter(p, a + b) == Filter(p, a) + Filter(p, b)
    decreases |a|
  {
    if a == [] {
      assert a + b == b;
    } else {
      var head := if p(a[0]) then [a[0]] else [];
      assert (a + b)[0] == a[0] && (a + b)[1..] == a[1..] + b;
      assert Filter(p, a + b) == head + Filter(p, a[1..] + b);
      FilterAppend(p, a[1..], b);
      assert Filter(p, a) == head + Filter(p, a[1..]);
    }
  }

  /** Filtering twice with the same condition is filtering once. */
  lemma {:induction false} FilterIdempotent<T>(p: T -> bool, s: seq<T>)
    ensures Filter(p, Filter(p, s)) == Filter(p, s)
    decreases |s|
  {
    if s != [] {
      FilterIdempotent(p, s[1..]);
      var rest := Filter(p, s[1..]);
      if p(s[0]) {
        var kept := [s[0]] + rest;
        assert kept[0] == s[0] && kept[1..] == rest;
        assert Filter(p, kept) == [s[0]] + Filter(p, rest);
      } else {
        assert Filter(p, s) == rest;
      }
    }
  }

  /** A list whose every element satisfies p is its own filtering. */
  lemma {:induction false} FilterAll<T>(p: T -> bool, s: seq<T>)
    requires forall x :: x in s ==> p(x)
    ensures Filter(p, s) == s
    decreases |s|
  {
    if s != [] {
      assert s[0] in s;
      assert forall x :: x in s[1..] ==> x in s;
      FilterAll(p, s[1..]);
      assert s == [s[0]] + s[1..];
    }
  }
}
