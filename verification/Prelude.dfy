/** Small types and set facts shared by the other modules. */
module Prelude {

  datatype Option<+T> = None | Some(value: T)

  datatype Result<+T, +E> = Ok(value: T) | Err(error: E)

  predicate WithoutRepeats<T(==)>(s: seq<T>) {
    forall i, j :: 0 <= i < j < |s| ==> s[i] != s[j]
  }

  /** `r` holds the elements of `s` at the positions `at`, in the order of `s`. */
  ghost predicate PicksAt<T>(s: seq<T>, r: seq<T>, at: seq<nat>) {
    && |at| == |r|
    && (forall k :: 0 <= k < |at| ==> at[k] < |s| && r[k] == s[at[k]])
    && (forall k, l :: 0 <= k < l < |at| ==> at[k] < at[l])
  }

  /** One more element of `s`, left out or picked last. */
  lemma PicksMore<T>(s: seq<T>, r: seq<T>, at: seq<nat>, x: T)
    requires PicksAt(s, r, at)
    ensures PicksAt(s + [x], r, at) && PicksAt(s + [x], r + [x], at + [|s|])
    ensures forall i: nat :: i in at + [|s|] <==> i in at || i == |s|
    ensures forall i: nat :: i in at ==> i < |s|
  {
    forall i: nat | i in at ensures i < |s| {
      var k :| 0 <= k < |at| && at[k] == i;
    }
  }

  /** A relation that is one-to-one between two finite sets makes them equally large. */
  lemma {:induction false} OneToOneSize<A, B>(left: set<A>, right: set<B>, pair: map<A, B>)
    requires left == pair.Keys
    requires forall a :: a in left ==> pair[a] in right
    requires forall a, a' :: a in left && a' in left && pair[a] == pair[a'] ==> a == a'
    requires forall b :: b in right ==> exists a :: a in left && pair[a] == b
    ensures |left| == |right|
  {
    if left == {} {
      assert forall b :: b !in right;
    } else {
      var a :| a in left;
      var rest := map x | x in left - {a} :: pair[x];
      forall b | b in right - {pair[a]} ensures exists x :: x in left - {a} && rest[x] == b {
        var x :| x in left && pair[x] == b;
        assert rest[x] == b;
      }
      OneToOneSize(left - {a}, right - {pair[a]}, rest);
    }
  }

  /** Every non-empty finite set of naturals has a greatest element. */
  lemma {:induction false} GreatestExists(s: set<nat>) returns (m: nat)
    requires s != {}
    ensures m in s && forall x :: x in s ==> x <= m
  {
    var a :| a in s;
    if s == {a} {
      m := a;
    } else {
      var r := GreatestExists(s - {a});
      m := if a < r then r else a;
      forall x | x in s ensures x <= m { assert x == a || x in s - {a}; }
    }
  }
}
