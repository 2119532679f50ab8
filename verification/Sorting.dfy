/** A stable sort by a total preorder, and the facts that make its result canonical. */
module Sorting {

  ghost predicate TotalPreorder<T(!new)>(le: (T, T) -> bool) {
    && (forall x, y :: le(x, y) || le(y, x))
    && (forall x, y, z :: le(x, y) && le(y, z) ==> le(x, z))
  }

  ghost predicate SortedBy<T>(s: seq<T>, le: (T, T) -> bool) {
    forall i, j :: 0 <= i < j < |s| ==> le(s[i], s[j])
  }

  /** Inserts `x` after every element that is not greater than it. */
  function Insert<T>(s: seq<T>, x: T, le: (T, T) -> bool): seq<T> {
    if s == [] || le(s[|s| - 1], x) then s + [x]
    else Insert(s[..|s| - 1], x, le) + [s[|s| - 1]]
  }

  /** Stable insertion sort, one element at a time from the left. */
  function Sort<T>(s: seq<T>, le: (T, T) -> bool): seq<T> {
    if s == [] then [] else Insert(Sort(s[..|s| - 1], le), s[|s| - 1], le)
  }

  lemma {:induction false} InsertSorts<T(!new)>(s: seq<T>, x: T, le: (T, T) -> bool)
    requires TotalPreorder(le) && SortedBy(s, le)
    ensures SortedBy(Insert(s, x, le), le)
    ensures multiset(Insert(s, x, le)) == multiset(s) + multiset{x}
  {
    if s == [] {
    } else if le(s[|s| - 1], x) {
    } else {
      var rest, last := s[..|s| - 1], s[|s| - 1];
      assert s == rest + [last];
      InsertSorts(rest, x, le);
      var r := Insert(rest, x, le);
      forall e | e in r ensures le(e, last) {
        assert e in multiset(r);
        assert e == x || e in multiset(rest);
      }
    }
  }

  lemma {:induction false} SortSorts<T(!new)>(s: seq<T>, le: (T, T) -> bool)
    requires TotalPreorder(le)
    ensures SortedBy(Sort(s, le), le)
    ensures multiset(Sort(s, le)) == multiset(s)
  {
    if s != [] {
      var rest, last := s[..|s| - 1], s[|s| - 1];
      assert s == rest + [last];
      SortSorts(rest, le);
      InsertSorts(Sort(rest, le), last, le);
    }
  }

  /** Two sorted arrangements of the same elements are equal when no two distinct elements tie. */
  lemma {:induction false} SortedIsUnique<T(!new)>(a: seq<T>, b: seq<T>, le: (T, T) -> bool)
    requires TotalPreorder(le) && SortedBy(a, le) && SortedBy(b, le)
    requires multiset(a) == multiset(b)
    requires forall x, y :: x in a && y in a && le(x, y) && le(y, x) ==> x == y
    ensures a == b
  {
    assert |multiset(a)| == |a| && |multiset(b)| == |b|;
    if a != [] {
      HeadsAgree(a, b, le);
      SortedIsUnique(a[1..], b[1..], le);
    }
  }

  lemma HeadIsLeast<T(!new)>(s: seq<T>, x: T, le: (T, T) -> bool)
    requires TotalPreorder(le) && SortedBy(s, le) && x in s
    ensures le(s[0], x)
  {
    var k :| 0 <= k < |s| && s[k] == x;
    assert le(x, x);
  }

  lemma HeadAndRest<T>(s: seq<T>)
    requires s != []
    ensures multiset(s) == multiset{s[0]} + multiset(s[1..])
  {
    assert s == [s[0]] + s[1..];
  }

  lemma HeadsAgree<T(!new)>(a: seq<T>, b: seq<T>, le: (T, T) -> bool)
    requires TotalPreorder(le) && SortedBy(a, le) && SortedBy(b, le)
    requires multiset(a) == multiset(b) && a != [] && b != []
    requires forall x, y :: x in a && y in a && le(x, y) && le(y, x) ==> x == y
    ensures a[0] == b[0] && multiset(a[1..]) == multiset(b[1..])
  {
    hide TotalPreorder, SortedBy;
    assert b[0] in multiset(a) && a[0] in multiset(b);
    HeadIsLeast(a, b[0], le);
    HeadIsLeast(b, a[0], le);
    HeadAndRest(a);
    HeadAndRest(b);
    assert multiset(a[1..]) == multiset(a) - multiset{a[0]};
  }

  /** Sorting forgets the order of its input when no two distinct elements tie. */
  lemma SortIsOrderFree<T(!new)>(a: seq<T>, b: seq<T>, le: (T, T) -> bool)
    requires TotalPreorder(le) && multiset(a) == multiset(b)
    requires forall x, y :: x in a && y in a && le(x, y) && le(y, x) ==> x == y
    ensures Sort(a, le) == Sort(b, le)
  {
    SortSorts(a, le);
    SortSorts(b, le);
    var sa := Sort(a, le);
    forall x | x in sa ensures x in a { assert x in multiset(sa); }
    SortedIsUnique(sa, Sort(b, le), le);
  }

  /** Stable sort of two runs, every element of the second above every element of the first. */
  lemma {:induction false} SortOfSeparatedRuns<T(!new)>(a: seq<T>, b: seq<T>, le: (T, T) -> bool)
    requires TotalPreorder(le)
    requires forall x, y :: x in a && y in b ==> le(x, y) && !le(y, x)
    ensures Sort(a + b, le) == Sort(a, le) + Sort(b, le)
  {
    if b == [] {
      assert a + b == a;
    } else {
      var rest, last := b[..|b| - 1], b[|b| - 1];
      assert (a + b)[..|a + b| - 1] == a + rest;
      SortOfSeparatedRuns(a, rest, le);
      InsertBeyondPrefix(Sort(a, le), Sort(rest, le), last, le) by {
        SortSorts(a, le);
        forall e | e in Sort(a, le) ensures le(e, last) {
          assert e in multiset(Sort(a, le));
        }
      }
    }
  }

  lemma {:induction false} InsertBeyondPrefix<T(!new)>(p: seq<T>, s: seq<T>, x: T, le: (T, T) -> bool)
    requires forall e :: e in p ==> le(e, x)
    ensures Insert(p + s, x, le) == p + Insert(s, x, le)
  {
    if s == [] {
      assert p + s == p;
    } else if le(s[|s| - 1], x) {
      assert p + s + [x] == p + (s + [x]);
    } else {
      assert (p + s)[..|p + s| - 1] == p + s[..|s| - 1];
      InsertBeyondPrefix(p, s[..|s| - 1], x, le);
    }
  }

  /** Two sorted arrangements of the same elements carry equivalent elements at every position. */
  lemma {:induction false} SortedAgree<T(!new)>(a: seq<T>, b: seq<T>, le: (T, T) -> bool, i: nat)
    requires TotalPreorder(le) && SortedBy(a, le) && SortedBy(b, le)
    requires multiset(a) == multiset(b) && i < |a|
    ensures |b| == |a| && le(a[i], b[i]) && le(b[i], a[i])
  {
    assert |multiset(a)| == |a| && |multiset(b)| == |b|;
    if !le(b[i], a[i]) { NotBelow(b, a, le, i); }
    if !le(a[i], b[i]) { NotBelow(a, b, le, i); }
  }

  /** At no position can one arrangement be strictly above the other: too few of its elements would lie low enough. */
  lemma NotBelow<T(!new)>(a: seq<T>, b: seq<T>, le: (T, T) -> bool, i: nat)
    requires TotalPreorder(le) && SortedBy(a, le) && SortedBy(b, le)
    requires multiset(a) == multiset(b) && i < |a| == |b|
    ensures le(a[i], b[i])
  {
    var low, high := b[..i + 1], a[..i];
    var x := MoreOf(multiset(low), multiset(high));
    assert multiset(b)[x] >= multiset(low)[x] by { assert b == low + b[i + 1..]; }
    var j :| 0 <= j < |low| && low[j] == x;
    var k := LaterMember(a, i, x);
    assert le(b[j], b[i]) && le(a[i], a[k]);
  }

  lemma LaterMember<T>(s: seq<T>, i: nat, x: T) returns (k: nat)
    requires i <= |s| && multiset(s)[x] > multiset(s[..i])[x]
    ensures i <= k < |s| && s[k] == x
  {
    assert s == s[..i] + s[i..];
    assert multiset(s)[x] == multiset(s[..i])[x] + multiset(s[i..])[x];
    assert x in s[i..];
    var j :| 0 <= j < |s[i..]| && s[i..][j] == x;
    k := i + j;
  }

  /** The larger of two multisets holds more of some element. */
  lemma MoreOf<T>(s: multiset<T>, t: multiset<T>) returns (x: T)
    requires |s| > |t|
    ensures s[x] > t[x]
  {
    if s <= t { SubMultisetSize(s, t); }
    x :| s[x] > t[x];
  }

  lemma SubMultisetSize<T>(s: multiset<T>, t: multiset<T>)
    requires s <= t
    ensures |s| <= |t|
  {
    assert t == s + (t - s);
  }

  function Image<T, U>(f: T -> U, s: seq<T>): (r: seq<U>)
    ensures |r| == |s| && forall i :: 0 <= i < |s| ==> r[i] == f(s[i])
  {
    seq(|s|, i requires 0 <= i < |s| => f(s[i]))
  }

  /**
   A rearrangement of `a` holds the last element of `a` somewhere; taking it out leaves a rearrangement of the rest.
   */
  lemma TakeOutLast<T>(a: seq<T>, b: seq<T>) returns (p: seq<T>, q: seq<T>)
    requires a != [] && multiset(a) == multiset(b)
    ensures b == p + [a[|a| - 1]] + q && multiset(a[..|a| - 1]) == multiset(p + q)
  {
    var rest, last := a[..|a| - 1], a[|a| - 1];
    assert a == rest + [last];
    assert last in multiset(b);
    var k :| 0 <= k < |b| && b[k] == last;
    p, q := b[..k], b[k + 1..];
    assert b == p + [last] + q;
    assert multiset(b) == multiset(p + [last]) + multiset(q) == multiset(p) + multiset{last} + multiset(q);
    assert multiset(a) == multiset(rest) + multiset{last};
    assert multiset(p + q) == multiset(p) + multiset(q) == multiset(b) - multiset{last};
    assert multiset(rest) == multiset(a) - multiset{last};
  }

  /** Applying a function element by element keeps permutations. */
  lemma {:induction false} ImagePermutes<T, U>(f: T -> U, a: seq<T>, b: seq<T>)
    requires multiset(a) == multiset(b)
    ensures multiset(Image(f, a)) == multiset(Image(f, b))
  {
    if a == [] {
      assert |multiset(b)| == 0;
    } else {
      var p, q := TakeOutLast(a, b);
      ImagePermutes(f, a[..|a| - 1], p + q);
      ImageAround(f, p, a[|a| - 1], q);
      assert Image(f, a) == Image(f, a[..|a| - 1]) + [f(a[|a| - 1])];
    }
  }

  lemma ImageAround<T, U>(f: T -> U, p: seq<T>, x: T, q: seq<T>)
    ensures multiset(Image(f, p + [x] + q)) == multiset(Image(f, p + q)) + multiset{f(x)}
  {
    assert Image(f, p + q) == Image(f, p) + Image(f, q);
    assert Image(f, p + [x] + q) == Image(f, p) + [f(x)] + Image(f, q);
  }
}
