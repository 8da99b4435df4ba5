/** Sequence helpers shared by the quiz and the scraper: the JavaScript
    `Array.prototype.filter`, `find` and the flattening of batches. */
module Seqs {

  /** `r` is `s` with some elements left out, the rest kept in order. */
  predicate IsSubsequence<T(==)>(r: seq<T>, s: seq<T>)
    decreases |s|
  {
    r == [] || (s != [] && ((r[0] == s[0] && IsSubsequence(r[1..], s[1..])) || IsSubsequence(r, s[1..])))
  }

  /** `Array.prototype.filter`: the elements satisfying `p`, in their original order. */
  function Filter<T(==)>(s: seq<T>, p: T -> bool): (r: seq<T>)
    ensures |r| <= |s|
    decreases |s|
  {
    if s == [] then []
    else
      var rest := Filter(s[1..], p);
      if p(s[0]) then [s[0]] + rest else rest
  }

  /** A filter keeps exactly the elements that pass, in their order. */
  lemma {:induction false} FilterMembers<T>(s: seq<T>, p: T -> bool)
    ensures forall x :: x in Filter(s, p) <==> x in s && p(x)
    ensures IsSubsequence(Filter(s, p), s)
    decreases |s|
  {
    if s != [] {
      FilterMembers(s[1..], p);
      var rest := Filter(s[1..], p);
      assert s == [s[0]] + s[1..];
      if p(s[0]) {
        assert ([s[0]] + rest)[1..] == rest;
      }
    }
  }

  /** Filtering distributes over concatenation. */
  lemma {:induction false} FilterAppend<T>(a: seq<T>, b: seq<T>, p: T -> bool)
    ensures Filter(a + b, p) == Filter(a, p) + Filter(b, p)
    decreases |a|
  {
    if a == [] {
      assert a + b == b;
    } else {
      FilterAppend(a[1..], b, p);
      FilterAppendStep(a, b, p);
    }
  }

  lemma {:induction false} FilterAppendStep<T>(a: seq<T>, b: seq<T>, p: T -> bool)
    requires a != [] && Filter(a[1..] + b, p) == Filter(a[1..], p) + Filter(b, p)
    ensures Filter(a + b, p) == Filter(a, p) + Filter(b, p)
  {
    var x, rest := a[0], a[1..];
    var head := if p(x) then [x] else [];
    ConsAppend(a, b);
    FilterCons(x, rest + b, p);
    FilterCons(x, rest, p);
    assert head + (Filter(rest, p) + Filter(b, p)) == (head + Filter(rest, p)) + Filter(b, p);
  }

  /** A non-empty list is its first element followed by the rest. */
  lemma ConsAppend<T>(a: seq<T>, b: seq<T>)
    requires a != []
    ensures a == [a[0]] + a[1..]
    ensures a + b == [a[0]] + (a[1..] + b)
  {
  }

  /** A filter keeps every copy of an element that passes and none of one
      that fails. */
  lemma {:induction false} FilterCounts<T>(s: seq<T>, p: T -> bool)
    ensures forall x :: multiset(Filter(s, p))[x] == if p(x) then multiset(s)[x] else 0
    decreases |s|
  {
    if s != [] {
      var x0, rest := s[0], s[1..];
      FilterCounts(rest, p);
      FilterCons(x0, rest, p);
      assert s == [x0] + rest;
      assert multiset(s) == multiset{x0} + multiset(rest);
      assert multiset(Filter(s, p)) == multiset(if p(x0) then [x0] else []) + multiset(Filter(rest, p));
    }
  }

  /** Filtering a list with `x` in front decides `x` first. */
  lemma FilterCons<T>(x: T, s: seq<T>, p: T -> bool)
    ensures Filter([x] + s, p) == (if p(x) then [x] else []) + Filter(s, p)
  {
    assert ([x] + s)[1..] == s;
  }

  /** Nothing is kept when no element passes. */
  lemma {:induction false} FilterNone<T>(s: seq<T>, p: T -> bool)
    requires forall i :: 0 <= i < |s| ==> !p(s[i])
    ensures Filter(s, p) == []
    decreases |s|
  {
    if s != [] {
      FilterNone(s[1..], p);
    }
  }

  /** Filtering by a weaker test first changes nothing. */
  lemma {:induction false} FilterOfFilter<T>(s: seq<T>, p: T -> bool, q: T -> bool)
    requires forall x :: q(x) ==> p(x)
    ensures Filter(Filter(s, p), q) == Filter(s, q)
    decreases |s|
  {
    if s != [] {
      FilterOfFilter(s[1..], p, q);
      if p(s[0]) {
        assert Filter(s, p)[1..] == Filter(s[1..], p);
      }
    }
  }

  /** A filter keeps everything when every element passes. */
  lemma {:induction false} FilterKeepsAll<T>(s: seq<T>, p: T -> bool)
    requires forall i :: 0 <= i < |s| ==> p(s[i])
    ensures Filter(s, p) == s
    decreases |s|
  {
    if s != [] {
      FilterKeepsAll(s[1..], p);
      assert [s[0]] + s[1..] == s;
    }
  }

  /** Filtering by a stronger predicate keeps a subset of what the weaker one keeps. */
  lemma FilterNarrows<T>(s: seq<T>, p: T -> bool, q: T -> bool)
    requires forall x :: q(x) ==> p(x)
    ensures forall x :: x in Filter(s, q) ==> x in Filter(s, p)
  {
    FilterMembers(s, p);
    FilterMembers(s, q);
  }

  /** `findIndex`: the position of the first element satisfying `p`. */
  function Find<T>(s: seq<T>, p: T -> bool): (r: Option<nat>)
    ensures r.Some? ==> r.value < |s| && p(s[r.value])
    ensures r.Some? ==> forall j :: 0 <= j < r.value ==> !p(s[j])
    ensures r.None? ==> forall j :: 0 <= j < |s| ==> !p(s[j])
    decreases |s|
  {
    if s == [] then None
    else if p(s[0]) then Some(0)
    else
      match Find(s[1..], p)
      case None => None
      case Some(i) => Some(i + 1)
  }

  /** The first element of a filtered list that satisfies a stronger test
      is the first element of the whole list that satisfies it. */
  lemma {:induction false} FindInFilter<T>(s: seq<T>, p: T -> bool, q: T -> bool)
    requires forall x :: q(x) ==> p(x)
    ensures Find(Filter(s, p), q).Some? <==> Find(s, q).Some?
    ensures Find(s, q).Some? ==> Filter(s, p)[Find(Filter(s, p), q).value] == s[Find(s, q).value]
    decreases |s|
  {
    if s != [] {
      FindInFilter(s[1..], p, q);
      var rest := Filter(s[1..], p);
      if p(s[0]) {
        assert Filter(s, p) == [s[0]] + rest;
        if !q(s[0]) {
          assert ([s[0]] + rest)[1..] == rest;
        }
      }
    }
  }

  lemma PrefixThenSlice<T>(s: seq<T>, i: nat, j: nat)
    requires i <= j <= |s|
    ensures s[..i] + s[i..j] == s[..j]
  {
  }

  lemma SuffixOfSuffix<T>(s: seq<T>, i: nat, n: nat)
    requires i + n <= |s|
    ensures s[i..][n..] == s[i + n..]
  {
  }

  lemma ConsSlice<T>(s: seq<T>, i: nat)
    requires 1 <= i <= |s|
    ensures s[..i] == [s[0]] + s[1..][..i - 1]
  {
  }

  lemma TailOfAppend<T>(a: seq<T>, b: seq<T>)
    requires a != []
    ensures (a + b)[1..] == a[1..] + b
  {
  }

  lemma ConsAppendAssoc<T>(x: T, a: seq<T>, b: seq<T>)
    ensures [x] + (a + b) == ([x] + a) + b
  {
  }

  lemma PrefixOfSuffix<T>(s: seq<T>, i: nat, n: nat)
    requires i + n <= |s|
    ensures s[i..][..n] == s[i..i + n]
  {
  }

  /** Concatenation of a sequence of sequences (`pages.push(...batch)` repeated). */
  function Flatten<T>(ss: seq<seq<T>>): (r: seq<T>)
    decreases |ss|
  {
    if ss == [] then [] else Flatten(ss[..|ss| - 1]) + ss[|ss| - 1]
  }

  lemma {:induction false} FlattenAppend<T>(a: seq<seq<T>>, b: seq<seq<T>>)
    ensures Flatten(a + b) == Flatten(a) + Flatten(b)
    decreases |b|
  {
    if b == [] {
      assert a + b == a;
    } else {
      var init, last := b[..|b| - 1], b[|b| - 1];
      FlattenAppend(a, init);
      assert (a + b)[..|a + b| - 1] == a + init;
      assert (a + b)[|a + b| - 1] == last;
      calc {
        Flatten(a + b);
        Flatten(a + init) + last;
        Flatten(a) + Flatten(init) + last;
        Flatten(a) + (Flatten(init) + last);
      }
    }
  }

  /** Flattening a list that starts with `x` puts `x` first. */
  lemma FlattenCons<T>(x: seq<T>, ys: seq<seq<T>>)
    ensures Flatten([x] + ys) == x + Flatten(ys)
  {
    FlattenAppend([x], ys);
    var none: seq<seq<T>> := [];
    assert [x][..0] == none;
  }

  /** Putting `x` in front of the first piece puts it in front of the whole. */
  lemma FlattenExtendFirst<T>(x: T, ss: seq<seq<T>>)
    requires ss != []
    ensures Flatten([[x] + ss[0]] + ss[1..]) == [x] + Flatten(ss)
  {
    var w, more := ss[0], ss[1..];
    calc {
      Flatten([[x] + w] + more);
      { FlattenCons([x] + w, more); }
      ([x] + w) + Flatten(more);
      [x] + (w + Flatten(more));
      { FlattenCons(w, more); assert ss == [w] + more; }
      [x] + Flatten(ss);
    }
  }

  /** The values `f` yields for the elements of `s` that yield one, in order:
      a loop that pushes a result only when there is one. */
  function Collect<A, B>(s: seq<A>, f: A -> Option<B>): (r: seq<B>)
    ensures |r| <= |s|
    decreases |s|
  {
    if s == [] then []
    else Collect(s[..|s| - 1], f) + match f(s[|s| - 1]) case Some(y) => [y] case None => []
  }

  /** Every collected value is the value of some element. */
  lemma {:induction false} CollectSound<A, B>(s: seq<A>, f: A -> Option<B>)
    ensures forall y :: y in Collect(s, f) ==> exists x :: x in s && f(x) == Some(y)
    decreases |s|
  {
    if s != [] {
      var init := s[..|s| - 1];
      CollectSound(init, f);
      assert forall x :: x in init ==> x in s;
    }
  }

  lemma {:induction false} CollectAppend<A, B>(a: seq<A>, b: seq<A>, f: A -> Option<B>)
    ensures Collect(a + b, f) == Collect(a, f) + Collect(b, f)
    decreases |b|
  {
    if b == [] {
      assert a + b == a;
    } else {
      var init, last := b[..|b| - 1], b[|b| - 1];
      var tail := match f(last) case Some(y) => [y] case None => [];
      CollectAppend(a, init, f);
      assert (a + b)[..|a + b| - 1] == a + init;
      assert (a + b)[|a + b| - 1] == last;
      calc {
        Collect(a + b, f);
        Collect(a + init, f) + tail;
        Collect(a, f) + Collect(init, f) + tail;
        Collect(a, f) + (Collect(init, f) + tail);
      }
    }
  }

  datatype Option<+T> = None | Some(value: T)
}
