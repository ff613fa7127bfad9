/** Python's ordering of strings (code point by code point, a proper prefix
    first) and `list.sort()` on a list of strings, given by its result: the
    sorted permutation of the list, which is unique. */
module Sorting {

  /** Python's `a <= b` on strings. */
  predicate Below(a: string, b: string)
    decreases |a|
  {
    a == [] || (b != [] && (a[0] < b[0] || (a[0] == b[0] && Below(a[1..], b[1..]))))
  }

  lemma {:induction false} BelowReflexive(a: string)
    ensures Below(a, a)
    decreases |a|
  {
    if a != [] {
      BelowReflexive(a[1..]);
    }
  }

  lemma {:induction false} BelowTotal(a: string, b: string)
    ensures Below(a, b) || Below(b, a)
    decreases |a|
  {
    if a != [] && b != [] && a[0] == b[0] {
      BelowTotal(a[1..], b[1..]);
    }
  }

  lemma {:induction false} BelowAntisymmetric(a: string, b: string)
    requires Below(a, b) && Below(b, a)
    ensures a == b
    decreases |a|
  {
    if a != [] {
      BelowAntisymmetric(a[1..], b[1..]);
      assert a == [a[0]] + a[1..] && b == [b[0]] + b[1..];
    }
  }

  lemma {:induction false} BelowTransitive(a: string, b: string, c: string)
    requires Below(a, b) && Below(b, c)
    ensures Below(a, c)
    decreases |a|
  {
    if a != [] && a[0] == b[0] && b[0] == c[0] {
      BelowTransitive(a[1..], b[1..], c[1..]);
    }
  }

  ghost predicate Sorted(s: seq<string>) {
    forall i, j | 0 <= i < j < |s| :: Below(s[i], s[j])
  }

  /** Puts `x` into its place in the sorted list `s`. */
  function Insert(x: string, s: seq<string>): (r: seq<string>)
    requires Sorted(s)
    ensures Sorted(r)
    ensures multiset(r) == multiset(s) + multiset{x}
  {
    if s == [] then [x]
    else if Below(x, s[0]) then
      InsertFront(x, s);
      [x] + s
    else
      var r := Insert(x, s[1..]);
      BelowTotal(x, s[0]);
      InsertAfterHead(x, s, r);
      [s[0]] + r
  }

  lemma InsertFront(x: string, s: seq<string>)
    requires Sorted(s) && s != [] && Below(x, s[0])
    ensures Sorted([x] + s)
  {
    forall j | 0 < j < |s| ensures Below(x, s[j]) {
      BelowTransitive(x, s[0], s[j]);
    }
  }

  lemma InsertAfterHead(x: string, s: seq<string>, r: seq<string>)
    requires Sorted(s) && s != [] && Below(s[0], x)
    requires Sorted(r) && multiset(r) == multiset(s[1..]) + multiset{x}
    ensures Sorted([s[0]] + r)
    ensures multiset([s[0]] + r) == multiset(s) + multiset{x}
  {
    assert s == [s[0]] + s[1..];
    forall y | y in multiset(r) ensures Below(s[0], y) {
      if y != x {
        assert y in s[1..];
      }
    }
  }

  /** `names.sort()`: the sorted rearrangement of `names`. */
  function Sort(names: seq<string>): (sorted: seq<string>)
    ensures Sorted(sorted)
    ensures multiset(sorted) == multiset(names)
  {
    if names == [] then []
    else
      assert names == [names[0]] + names[1..];
      Insert(names[0], Sort(names[1..]))
  }

  /** Two sorted lists with the same elements start with the same element. */
  lemma SortedHeadsAgree(a: seq<string>, b: seq<string>)
    requires Sorted(a) && Sorted(b) && a != [] && b != []
    requires multiset(a) == multiset(b)
    ensures a[0] == b[0]
  {
    assert a[0] in multiset(b) && b[0] in multiset(a);
    var i :| 0 <= i < |a| && a[i] == b[0];
    var j :| 0 <= j < |b| && b[j] == a[0];
    BelowReflexive(a[0]);
    assert Below(a[0], b[0]) by {
      if i > 0 {
        assert Below(a[0], a[i]);
      }
    }
    assert Below(b[0], a[0]) by {
      if j > 0 {
        assert Below(b[0], b[j]);
      }
    }
    BelowAntisymmetric(a[0], b[0]);
  }

  /** Two sorted lists with the same elements are the same list. */
  lemma {:induction false} SortedUnique(a: seq<string>, b: seq<string>)
    requires Sorted(a) && Sorted(b)
    requires multiset(a) == multiset(b)
    ensures a == b
    decreases |a|
  {
    assert |a| == |multiset(a)| == |multiset(b)| == |b|;
    if a != [] {
      SortedHeadsAgree(a, b);
      assert a == [a[0]] + a[1..] && b == [b[0]] + b[1..];
      assert multiset(a[1..]) == multiset(a) - multiset{a[0]};
      assert multiset(b[1..]) == multiset(b) - multiset{b[0]};
      SortedUnique(a[1..], b[1..]);
    }
  }

  /** The sorted list depends only on which names there are, not on the
      order they come in. */
  lemma SortIgnoresOrder(a: seq<string>, b: seq<string>)
    requires multiset(a) == multiset(b)
    ensures Sort(a) == Sort(b)
  {
    SortedUnique(Sort(a), Sort(b));
  }
}
