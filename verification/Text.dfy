/** ASCII text operations: lower-casing, stripping, splitting on one character. */
module Text {

  predicate IsSpace(c: char) {
    c in {' ', '\t', '\n', '\r', '\U{0B}', '\U{0C}'}
  }

  function LowerChar(c: char): char {
    if 'A' <= c <= 'Z' then (c as int + 32) as char else c
  }

  function Lower(s: string): (r: string)
    ensures |r| == |s| && forall i :: 0 <= i < |s| ==> r[i] == LowerChar(s[i])
  {
    seq(|s|, i requires 0 <= i < |s| => LowerChar(s[i]))
  }

  function StripLeft(s: string): string {
    if s != "" && IsSpace(s[0]) then StripLeft(s[1..]) else s
  }

  function StripRight(s: string): string {
    if s != "" && IsSpace(s[|s| - 1]) then StripRight(s[..|s| - 1]) else s
  }

  function Strip(s: string): string {
    StripRight(StripLeft(s))
  }

  predicate Trimmed(s: string) {
    s == "" || (!IsSpace(s[0]) && !IsSpace(s[|s| - 1]))
  }

  lemma TrimmedStrips(s: string)
    requires Trimmed(s)
    ensures Strip(s) == s
  {
  }

  lemma LowerIdempotent(s: string)
    ensures Lower(Lower(s)) == Lower(s)
  {
  }

  function UpperChar(c: char): char {
    if 'a' <= c <= 'z' then (c as int - 32) as char else c
  }

  function Upper(s: string): (r: string)
    ensures |r| == |s| && forall i :: 0 <= i < |s| ==> r[i] == UpperChar(s[i])
  {
    seq(|s|, i requires 0 <= i < |s| => UpperChar(s[i]))
  }

  /** The part of `s` before the first `c`, or all of it. */
  function Head(s: string, c: char): (h: string)
    ensures |h| <= |s| && h == s[..|h|] && c !in h
  {
    if s == "" || s[0] == c then "" else [s[0]] + Head(s[1..], c)
  }

  /** `s.split(c)`: the parts between the separators; never empty. */
  function Split(s: string, c: char): (parts: seq<string>)
    ensures parts != []
    decreases |s|
  {
    var h := Head(s, c);
    if |h| == |s| then [s] else [h] + Split(s[|h| + 1..], c)
  }

  function Join(parts: seq<string>, c: char): string {
    if parts == [] then "" else if |parts| == 1 then parts[0] else parts[0] + [c] + Join(parts[1..], c)
  }

  lemma {:induction false} HeadOf(a: string, c: char, rest: string)
    requires c !in a
    ensures Head(a + [c] + rest, c) == a
    ensures Head(a, c) == a
  {
    if a != "" {
      HeadOf(a[1..], c, rest);
      assert (a + [c] + rest)[1..] == a[1..] + [c] + rest;
    }
  }

  lemma SplitAt(a: string, c: char, rest: string)
    requires c !in a
    ensures Split(a + [c] + rest, c) == [a] + Split(rest, c)
    ensures Split(a, c) == [a]
  {
    HeadOf(a, c, rest);
    assert (a + [c] + rest)[|a| + 1..] == rest;
  }

  lemma {:induction false} SplitJoin(parts: seq<string>, c: char)
    requires parts != [] && forall i :: 0 <= i < |parts| ==> c !in parts[i]
    ensures Split(Join(parts, c), c) == parts
  {
    if |parts| == 1 {
      SplitAt(parts[0], c, "");
    } else {
      SplitJoin(parts[1..], c);
      SplitAt(parts[0], c, Join(parts[1..], c));
    }
  }

  /** The first parts of a string join to a prefix of it. */
  lemma {:induction false} JoinOfFirstParts(s: string, c: char, k: nat)
    requires 1 <= k <= |Split(s, c)|
    ensures Join(Split(s, c)[..k], c) <= s
    ensures Head(s, c) <= Join(Split(s, c)[..k], c)
    decreases |s|
  {
    hide Head;
    var h, parts := Head(s, c), Split(s, c);
    if |h| == |s| {
      assert parts == [s] && parts[..k] == [s];
    } else {
      var rest := s[|h| + 1..];
      assert parts == [h] + Split(rest, c);
      if k == 1 {
        assert parts[..k] == [h];
      } else {
        JoinOfFirstParts(rest, c, k - 1);
        HeadStops(s, c);
        assert parts[..k] == [h] + Split(rest, c)[..k - 1];
        assert Join(parts[..k], c) == h + [c] + Join(Split(rest, c)[..k - 1], c);
        assert s == h + [c] + rest;
      }
    }
  }

  lemma {:induction false} HeadStops(s: string, c: char)
    ensures |Head(s, c)| < |s| ==> s[|Head(s, c)|] == c
  {
    if s != "" && s[0] != c { HeadStops(s[1..], c); }
  }

  /** Lexicographic order, as Python compares strings. */
  predicate LexLe(a: string, b: string) {
    a == "" || (b != "" && (a[0] < b[0] || (a[0] == b[0] && LexLe(a[1..], b[1..]))))
  }

  ghost predicate FirstDiffers(a: string, b: string, k: nat) {
    k < |a| && k < |b| && a[..k] == b[..k] && a[k] < b[k]
  }

  lemma DiffersInRest(a: string, b: string, k: nat)
    requires a != "" && b != "" && a[0] == b[0]
    ensures FirstDiffers(a, b, k + 1) <==> FirstDiffers(a[1..], b[1..], k)
  {
    if k + 1 < |a| && k + 1 < |b| {
      assert a[..k + 1] == [a[0]] + a[1..][..k] && b[..k + 1] == [b[0]] + b[1..][..k];
      assert a[..k + 1][1..] == a[1..][..k] && b[..k + 1][1..] == b[1..][..k];
    }
  }

  lemma AgreeBefore(a: string, b: string, k: nat)
    requires FirstDiffers(a, b, k) && k > 0
    ensures a[0] == b[0]
  {
    assert a[..k][0] == b[..k][0];
  }

  /** One is a prefix of the other, or the first difference decides. */
  lemma {:induction false} LexLeExactly(a: string, b: string)
    ensures LexLe(a, b) <==> a <= b || exists k: nat :: FirstDiffers(a, b, k)
  {
    if a != "" && b != "" {
      LexLeExactly(a[1..], b[1..]);
      assert a == [a[0]] + a[1..] && b == [b[0]] + b[1..];
      assert a[..0] == b[..0];
      assert a[0] < b[0] ==> FirstDiffers(a, b, 0);
      if k: nat :| FirstDiffers(a, b, k) {
        if k > 0 {
          AgreeBefore(a, b, k);
          DiffersInRest(a, b, k - 1);
        }
      }
      if a[0] == b[0] {
        if k: nat :| FirstDiffers(a[1..], b[1..], k) { DiffersInRest(a, b, k); }
      }
    }
  }

  lemma {:induction false} LexLeTotal(a: string, b: string)
    ensures LexLe(a, b) || LexLe(b, a)
  {
    if a != "" && b != "" { LexLeTotal(a[1..], b[1..]); }
  }

  lemma {:induction false} LexLeTransitive(a: string, b: string, c: string)
    requires LexLe(a, b) && LexLe(b, c)
    ensures LexLe(a, c)
  {
    if a != "" && a[0] == b[0] == c[0] { LexLeTransitive(a[1..], b[1..], c[1..]); }
  }

  lemma {:induction false} LexLeAntisymmetric(a: string, b: string)
    requires LexLe(a, b) && LexLe(b, a)
    ensures a == b
  {
    if a != "" {
      LexLeAntisymmetric(a[1..], b[1..]);
      assert a == [a[0]] + a[1..] && b == [b[0]] + b[1..];
    }
  }
}
