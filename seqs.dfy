/**
 * Python list operations the tables use: `list.index`, `list.remove` of the
 * first occurrence, repeated `del l[i]`, and filtering.
 */
module Seqs {

  /**
   * Concatenation is associative. Stated once over an element type the
   * solver knows nothing about, so that a caller regrouping sequences of
   * function results does not have the solver unfold those functions.
   */
  lemma AppendAssoc<T>(a: seq<T>, b: seq<T>, c: seq<T>)
    ensures a + (b + c) == (a + b) + c
  {
  }

  /** Splitting off the last element of `ys` inside `xs + ys`; generic for the same reason. */
  lemma SplitLast<T>(xs: seq<T>, ys: seq<T>)
    requires ys != []
    ensures xs + ys == (xs + ys[..|ys| - 1]) + [ys[|ys| - 1]]
  {
    assert ys == ys[..|ys| - 1] + [ys[|ys| - 1]];
  }

  /** `s.index(x)`: the position of the first occurrence. */
  function IndexOf<T(==)>(s: seq<T>, x: T): (i: nat)
    requires x in s
    ensures i < |s| && s[i] == x && x !in s[..i]
  {
    if s[0] == x then 0
    else
      assert s == [s[0]] + s[1..];
      var j := IndexOf(s[1..], x);
      assert s[..j + 1] == [s[0]] + s[1..][..j];
      j + 1
  }

  /** `s.pop(s.index(x))`: the first occurrence of `x` taken out. */
  function RemoveFirst<T(==)>(s: seq<T>, x: T): (r: seq<T>)
    requires x in s
    ensures |r| == |s| - 1
    ensures multiset(r) == multiset(s) - multiset{x}
  {
    var i := IndexOf(s, x);
    assert s == s[..i] + [x] + s[i + 1..];
    s[..i] + s[i + 1..]
  }

  lemma RemoveFirstOfHead<T>(h: T, t: seq<T>)
    ensures RemoveFirst([h] + t, h) == t
  {
  }

  lemma RemoveFirstBehindHead<T>(h: T, t: seq<T>, x: T)
    requires x != h && x in t
    ensures RemoveFirst([h] + t, x) == [h] + RemoveFirst(t, x)
  {
    var s := [h] + t;
    assert s[1..] == t;
    assert IndexOf(s, x) == IndexOf(t, x) + 1;
    var i := IndexOf(t, x);
    assert s[..i + 1] == [h] + t[..i];
    assert s[i + 2..] == t[i + 1..];
    assert [h] + (t[..i] + t[i + 1..]) == ([h] + t[..i]) + t[i + 1..];
  }

  /**
   * Removing the first occurrence of each of `xs` in turn; the flag is false
   * when some element was missing, and the sequence is then what the earlier
   * removals left.
   */
  function RemoveEach<T(==)>(s: seq<T>, xs: seq<T>): (r: (seq<T>, bool))
    ensures r.1 ==> |r.0| == |s| - |xs| && multiset(r.0) + multiset(xs) == multiset(s)
    decreases |xs|
  {
    if xs == [] then (s, true)
    else if xs[0] !in s then (s, false)
    else
      var rest := RemoveFirst(s, xs[0]);
      var r := RemoveEach(rest, xs[1..]);
      assert xs == [xs[0]] + xs[1..];
      assert multiset(xs) == multiset{xs[0]} + multiset(xs[1..]);
      assert multiset(rest) + multiset{xs[0]} == multiset(s);
      r
  }

  /** One step of `RemoveEach`: the first element, by position. */
  lemma RemoveEachUnfold<T>(s: seq<T>, xs: seq<T>)
    requires xs != []
    ensures RemoveEach(s, xs) ==
              if xs[0] in s then RemoveEach(s[..IndexOf(s, xs[0])] + s[IndexOf(s, xs[0]) + 1..], xs[1..])
              else (s, false)
  {
  }

  /** An element none of `xs` equals stays in front. */
  lemma {:induction false} RemoveEachBehindHead<T>(h: T, t: seq<T>, xs: seq<T>)
    requires h !in xs
    ensures RemoveEach([h] + t, xs) == ([h] + RemoveEach(t, xs).0, RemoveEach(t, xs).1)
    decreases |xs|
  {
    if xs != [] {
      assert xs[0] != h;
      if xs[0] in t {
        RemoveFirstBehindHead(h, t, xs[0]);
        RemoveEachBehindHead(h, RemoveFirst(t, xs[0]), xs[1..]);
      }
    }
  }

  /**
   * The elements satisfying `p`, in order. The contract states length and
   * membership; the order is stated by `FilterAppend` (filtering distributes
   * over concatenation, so the kept elements keep their relative order).
   */
  function Filter<T>(s: seq<T>, p: T -> bool): (r: seq<T>)
    ensures |r| <= |s|
    ensures forall x :: x in r ==> x in s && p(x)
    ensures forall x :: x in s && p(x) ==> x in r
  {
    if s == [] then []
    else if p(s[0]) then [s[0]] + Filter(s[1..], p)
    else Filter(s[1..], p)
  }

  lemma {:induction false} FilterAppend<T>(a: seq<T>, b: seq<T>, p: T -> bool)
    ensures Filter(a + b, p) == Filter(a, p) + Filter(b, p)
  {
    if a == [] {
      assert a + b == b;
    } else {
      assert (a + b)[0] == a[0] && (a + b)[1..] == a[1..] + b;
      FilterAppend(a[1..], b, p);
    }
  }

  /**
   * The elements not satisfying `p`, in order. The contract states length
   * and membership; the order is stated by `FilterOutAppend` and
   * `RemoveEachFiltered`.
   */
  function FilterOut<T>(s: seq<T>, p: T -> bool): (r: seq<T>)
    ensures |r| <= |s|
    ensures forall x :: x in r ==> x in s && !p(x)
    ensures forall x :: x in s && !p(x) ==> x in r
  {
    if s == [] then []
    else if p(s[0]) then FilterOut(s[1..], p)
    else [s[0]] + FilterOut(s[1..], p)
  }

  lemma {:induction false} FilterOutAppend<T>(a: seq<T>, b: seq<T>, p: T -> bool)
    ensures FilterOut(a + b, p) == FilterOut(a, p) + FilterOut(b, p)
  {
    if a == [] {
      assert a + b == b;
    } else {
      assert (a + b)[0] == a[0] && (a + b)[1..] == a[1..] + b;
      FilterOutAppend(a[1..], b, p);
    }
  }

  /** Nothing is filtered out exactly when no element satisfies `p`. */
  lemma {:induction false} FilterOutKeepsAll<T>(s: seq<T>, p: T -> bool)
    ensures FilterOut(s, p) == s <==> forall x :: x in s ==> !p(x)
  {
    if s != [] {
      FilterOutKeepsAll(s[1..], p);
      assert s == [s[0]] + s[1..];
      if p(s[0]) {
        assert |FilterOut(s, p)| < |s|;
      }
    }
  }

  /** Something is filtered out exactly when some element satisfies `p`. */
  lemma {:induction false} FilterOutShorter<T>(s: seq<T>, p: T -> bool)
    ensures |FilterOut(s, p)| < |s| <==> exists i :: 0 <= i < |s| && p(s[i])
  {
    if s != [] {
      FilterOutShorter(s[1..], p);
      if exists i :: 0 <= i < |s[1..]| && p(s[1..][i]) {
        var i :| 0 <= i < |s[1..]| && p(s[1..][i]);
        assert s[i + 1] == s[1..][i];
      }
      if exists i :: 0 <= i < |s| && p(s[i]) {
        var i :| 0 <= i < |s| && p(s[i]);
        if i > 0 { assert s[1..][i - 1] == s[i]; }
      }
    }
  }

  /**
   * Removing, one at a time, the first occurrence of each element that
   * satisfies `p` leaves exactly the elements that do not, in their order.
   */
  lemma {:induction false} RemoveEachFiltered<T>(s: seq<T>, p: T -> bool)
    ensures RemoveEach(s, Filter(s, p)) == (FilterOut(s, p), true)
  {
    if s != [] {
      var h, t := s[0], s[1..];
      assert s == [h] + t;
      RemoveEachFiltered(t, p);
      if p(h) {
        var xs := Filter(s, p);
        assert xs == [h] + Filter(t, p);
        RemoveFirstOfHead(h, t);
        assert xs[1..] == Filter(t, p);
      } else {
        assert h !in Filter(t, p);
        RemoveEachBehindHead(h, t, Filter(t, p));
      }
    }
  }

  /**
   * `for i in range(i, end): del s[i]`, as a value: every deletion happens at
   * the position the previous ones have shifted; the flag is false when an
   * index fell off the end (IndexError), with the deletions made so far kept.
   */
  function DeleteEach<T>(s: seq<T>, i: int, end: int): (r: (seq<T>, bool))
    requires 0 <= i
    decreases end - i
  {
    if i >= end then (s, true)
    else if i >= |s| then (s, false)
    else DeleteEach(s[..i] + s[i + 1..], i + 1, end)
  }

  /** One deletion at a valid position removes exactly that element. */
  lemma DeleteOne<T>(s: seq<T>, i: nat)
    requires i < |s|
    ensures DeleteEach(s, i, i + 1) == (s[..i] + s[i + 1..], true)
  {
  }

  /** Strictly ascending, hence without repetitions. */
  predicate Increasing(s: seq<int>) {
    forall i, j :: 0 <= i < j < |s| ==> s[i] < s[j]
  }

  function InsertSorted(x: int, s: seq<int>): (r: seq<int>)
    requires Increasing(s)
    ensures Increasing(r)
    ensures forall y :: y in r <==> y == x || y in s
  {
    if s == [] then [x]
    else if x < s[0] then [x] + s
    else if x == s[0] then s
    else
      var rest := InsertSorted(x, s[1..]);
      assert forall y :: y in rest ==> s[0] < y;
      var r := [s[0]] + rest;
      assert forall j :: 1 <= j < |r| ==> r[j] == rest[j - 1] && rest[j - 1] in rest;
      r
  }

  /** `sorted(set(xs))`: each value once, ascending. */
  function SortedSet(xs: seq<int>): (r: seq<int>)
    ensures Increasing(r)
    ensures forall y :: y in r <==> y in xs
  {
    if xs == [] then [] else InsertSorted(xs[0], SortedSet(xs[1..]))
  }
}
