/** Splitting distinguished names on unescaped commas (RFC 4514 section 3), and the walk to the parent scope. */
module Dn {
  import opened Estate
  import opened Prelude
  import opened Text

  /** How many backslashes stand directly before position `i`. */
  function Backslashes(dn: string, i: nat): nat
    requires i <= |dn|
  {
    if i > 0 && dn[i - 1] == '\\' then 1 + Backslashes(dn, i - 1) else 0
  }

  /** A comma preceded by an even run of backslashes. */
  predicate Separates(dn: string, i: nat)
    requires i < |dn|
  {
    dn[i] == ',' && Backslashes(dn, i) % 2 == 0
  }

  /** The first separator at or after `i`, or the length. */
  function NextSeparator(dn: string, i: nat): (k: nat)
    requires i <= |dn|
    ensures i <= k <= |dn| && (k < |dn| ==> Separates(dn, k))
    ensures forall j :: i <= j < k ==> !Separates(dn, j)
    decreases |dn| - i
  {
    if i == |dn| || Separates(dn, i) then i else NextSeparator(dn, i + 1)
  }

  function SplitDn(dn: string): (parts: seq<string>)
    ensures parts != []
    decreases |dn|
  {
    var k := NextSeparator(dn, 0);
    if k == |dn| then [dn] else [dn[..k]] + SplitDn(dn[k + 1..])
  }

  /** Beyond a comma the run before a position is the same with or without what precedes the comma. */
  lemma {:induction false} BackslashesBeyond(dn: string, start: nat, k: nat)
    requires start <= |dn| && k <= |dn| - start && (start == 0 || dn[start - 1] == ',')
    ensures Backslashes(dn[start..], k) == Backslashes(dn, start + k)
  {
    if k > 0 { BackslashesBeyond(dn, start, k - 1); }
  }

  lemma SeparatesBeyond(dn: string, start: nat, k: nat)
    requires start <= |dn| && k < |dn| - start && (start == 0 || dn[start - 1] == ',')
    ensures Separates(dn[start..], k) <==> Separates(dn, start + k)
  {
    BackslashesBeyond(dn, start, k);
  }

  /** The splitter's loop, counting backslashes at each comma. */
  method SplitDnLoop(dn: string) returns (parts: seq<string>)
    ensures parts == SplitDn(dn)
  {
    hide SplitDn, NextSeparator;
    parts := [];
    var start, i := 0, 0;
    assert dn[0..] == dn;
    while i < |dn|
      invariant 0 <= start <= i <= |dn| && (start == 0 || dn[start - 1] == ',')
      invariant forall j :: start <= j < i ==> !Separates(dn, j)
      invariant parts + SplitDn(dn[start..]) == SplitDn(dn)
    {
      if dn[i] == ',' {
        var bs, j := 0, i - 1;
        while j >= 0 && dn[j] == '\\'
          invariant -1 <= j < i && bs + Backslashes(dn, j + 1) == Backslashes(dn, i)
        {
          bs := bs + 1;
          j := j - 1;
        }
        if bs % 2 == 0 {
          FirstCut(dn, start, i);
          assert parts + ([dn[start..i]] + SplitDn(dn[i + 1..])) == (parts + [dn[start..i]]) + SplitDn(dn[i + 1..]);
          parts := parts + [dn[start..i]];
          start := i + 1;
        }
      }
      i := i + 1;
    }
    LastPart(dn, start);
    parts := parts + [dn[start..]];
  }

  lemma FirstCut(dn: string, start: nat, i: nat)
    requires start <= i < |dn| && (start == 0 || dn[start - 1] == ',') && Separates(dn, i)
    requires forall j :: start <= j < i ==> !Separates(dn, j)
    ensures SplitDn(dn[start..]) == [dn[start..i]] + SplitDn(dn[i + 1..])
  {
    var rest := dn[start..];
    forall k | 0 <= k < |rest|
      ensures Separates(rest, k) <==> Separates(dn, start + k) { SeparatesBeyond(dn, start, k); }
    var k := NextSeparator(rest, 0);
    assert Separates(rest, i - start) && !(k < i - start);
    assert k == i - start;
    assert rest[..i - start] == dn[start..i] && rest[i - start + 1..] == dn[i + 1..];
  }

  lemma LastPart(dn: string, start: nat)
    requires start <= |dn| && (start == 0 || dn[start - 1] == ',')
    requires forall j :: start <= j < |dn| ==> !Separates(dn, j)
    ensures SplitDn(dn[start..]) == [dn[start..]]
  {
    var rest := dn[start..];
    forall k | 0 <= k < |rest| ensures !Separates(rest, k) { SeparatesBeyond(dn, start, k); }
  }

  // ----- Splitting and joining -----

  /** No comma of the part is unescaped. */
  ghost predicate Whole(part: string) {
    forall i :: 0 <= i < |part| ==> !Separates(part, i)
  }

  /** A separator may follow the part: its trailing backslashes do not escape it. */
  ghost predicate Closed(part: string) {
    Backslashes(part, |part|) % 2 == 0
  }

  ghost predicate WellFormed(parts: seq<string>) {
    && parts != []
    && (forall i :: 0 <= i < |parts| ==> Whole(parts[i]))
    && (forall i :: 0 <= i < |parts| - 1 ==> Closed(parts[i]))
  }

  lemma {:induction false} BackslashesWithin(dn: string, k: nat, i: nat)
    requires i <= k <= |dn|
    ensures Backslashes(dn[..k], i) == Backslashes(dn, i)
  {
    if i > 0 { BackslashesWithin(dn, k, i - 1); }
  }

  /** The parts of a name join back to it. */
  lemma {:induction false} JoinUndoesSplit(dn: string)
    ensures Join(SplitDn(dn), ',') == dn
    decreases |dn|
  {
    hide Separates;
    var k := NextSeparator(dn, 0);
    if k < |dn| {
      assert dn[k] == ',' by { SeparatorIsComma(dn, k); }
      var rest := dn[k + 1..];
      JoinUndoesSplit(rest);
      assert SplitDn(dn) == [dn[..k]] + SplitDn(rest);
      assert Join(SplitDn(dn), ',') == dn[..k] + [','] + rest == dn;
    }
  }

  lemma SeparatorIsComma(dn: string, k: nat)
    requires k < |dn| && Separates(dn, k)
    ensures dn[k] == ',' && Backslashes(dn, k) % 2 == 0
  {
  }

  /** What precedes the first separator holds no unescaped comma and does not escape that separator. */
  lemma FirstPartWellFormed(dn: string)
    ensures var k := NextSeparator(dn, 0); Whole(dn[..k]) && (k < |dn| ==> Closed(dn[..k]))
  {
    var k := NextSeparator(dn, 0);
    forall i | 0 <= i < k ensures !Separates(dn[..k], i) {
      BackslashesWithin(dn, k, i);
      assert !Separates(dn, i);
    }
    BackslashesWithin(dn, k, k);
  }

  /** No part of a name holds an unescaped comma. */
  lemma {:induction false} SplitIsWellFormed(dn: string)
    ensures WellFormed(SplitDn(dn))
    decreases |dn|
  {
    hide Separates, Whole, Closed;
    var k := NextSeparator(dn, 0);
    FirstPartWellFormed(dn);
    if k < |dn| {
      var tail := SplitDn(dn[k + 1..]);
      SplitIsWellFormed(dn[k + 1..]);
      var parts := SplitDn(dn);
      assert parts == [dn[..k]] + tail;
    } else {
      assert dn[..k] == dn;
    }
  }

  lemma WholeHasNone(part: string)
    requires Whole(part)
    ensures forall i :: 0 <= i < |part| ==> !Separates(part, i)
  {
  }

  lemma {:induction false} WellFormedSplitsBack(parts: seq<string>)
    requires WellFormed(parts)
    ensures SplitDn(Join(parts, ',')) == parts
  {
    hide Separates, Backslashes, Whole, Closed;
    var part := parts[0];
    if |parts| == 1 {
      assert forall i :: 0 <= i < |part| ==> !Separates(part, i) by { WholeHasNone(part); }
      assert NextSeparator(part, 0) == |part|;
    } else {
      var tail := parts[1..];
      assert forall i :: 0 <= i < |tail| ==> tail[i] == parts[i + 1];
      WellFormedSplitsBack(tail);
      var dn := part + [','] + Join(tail, ',');
      assert dn[|part| + 1..] == Join(tail, ',');
      PartEndsAtSeparator(part, Join(tail, ','));
    }
  }

  /** The first separator after a whole, closed part is the one that follows it. */
  lemma PartEndsAtSeparator(part: string, rest: string)
    requires Whole(part) && Closed(part)
    ensures var dn := part + [','] + rest; NextSeparator(dn, 0) == |part| && dn[..|part|] == part
  {
    hide Backslashes;
    var dn := part + [','] + rest;
    assert dn[..|part|] == part;
    forall i | 0 <= i <= |part| ensures Backslashes(dn, i) == Backslashes(part, i) { BackslashesWithin(dn, |part|, i); }
    assert Separates(dn, |part|);
    forall i | 0 <= i < |part| ensures !Separates(dn, i) { assert !Separates(part, i); }
    var k := NextSeparator(dn, 0);
    assert k == |part|;
  }

  /** A list of parts survives joining and splitting exactly when it is well formed. */
  lemma SplitUndoesJoin(parts: seq<string>)
    requires parts != []
    ensures SplitDn(Join(parts, ',')) == parts <==> WellFormed(parts)
  {
    SplitIsWellFormed(Join(parts, ','));
    if WellFormed(parts) { WellFormedSplitsBack(parts); }
  }

  // ----- The parent scope -----

  function StripEach(parts: seq<string>): (r: seq<string>)
    ensures |r| == |parts| && forall i :: 0 <= i < |parts| ==> r[i] == Strip(parts[i])
  {
    seq(|parts|, i requires 0 <= i < |parts| => Strip(parts[i]))
  }

  /** The lower-cased name that is left when `i` components are dropped. */
  function Ancestor(dn: string, i: nat): string
    requires i <= |SplitDn(dn)|
  {
    Lower(Join(StripEach(SplitDn(dn))[i..], ','))
  }

  /** Where component `i` starts in the name. */
  function ComponentStart(dn: string, i: nat): (k: nat)
    requires i < |SplitDn(dn)|
    ensures k <= |dn|
    decreases |dn|
  {
    if i == 0 then 0
    else
      var k := NextSeparator(dn, 0);
      k + 1 + ComponentStart(dn[k + 1..], i - 1)
  }

  lemma {:induction false} ComponentsAreSuffixes(dn: string, i: nat)
    requires i < |SplitDn(dn)|
    ensures Join(SplitDn(dn)[i..], ',') == dn[ComponentStart(dn, i)..]
    ensures i > 0 ==> ComponentStart(dn, i) > 0
    decreases |dn|
  {
    JoinUndoesSplit(dn);
    if i > 0 {
      var k := NextSeparator(dn, 0);
      ComponentsAreSuffixes(dn[k + 1..], i - 1);
      assert SplitDn(dn)[i..] == SplitDn(dn[k + 1..])[i - 1..];
    }
  }

  /** Dropping more components leaves a shorter name. */
  lemma {:induction false} ComponentsShrink(dn: string, i: nat, j: nat)
    requires i < j < |SplitDn(dn)|
    ensures ComponentStart(dn, i) < ComponentStart(dn, j)
    decreases |dn|
  {
    if i > 0 {
      ComponentsShrink(dn[NextSeparator(dn, 0) + 1..], i - 1, j - 1);
    } else {
      ComponentsAreSuffixes(dn, j);
    }
  }

  /** Without spaces around its separators, a name's ancestors are its own suffixes at component boundaries. */
  lemma AncestorIsSuffix(dn: string, i: nat)
    requires i < |SplitDn(dn)| && forall k :: 0 <= k < |SplitDn(dn)| ==> Trimmed(SplitDn(dn)[k])
    ensures Ancestor(dn, i) == Lower(dn[ComponentStart(dn, i)..])
  {
    forall k | 0 <= k < |SplitDn(dn)| ensures Strip(SplitDn(dn)[k]) == SplitDn(dn)[k] { TrimmedStrips(SplitDn(dn)[k]); }
    assert StripEach(SplitDn(dn)) == SplitDn(dn);
    ComponentsAreSuffixes(dn, i);
  }

  /** So the ancestor reached first is the longest: every later one is a shorter suffix of it. */
  lemma CloserAncestorIsLonger(dn: string, i: nat, j: nat)
    requires i < j < |SplitDn(dn)| && forall k :: 0 <= k < |SplitDn(dn)| ==> Trimmed(SplitDn(dn)[k])
    ensures |Ancestor(dn, j)| < |Ancestor(dn, i)| <= |dn|
    ensures Ancestor(dn, j) == Ancestor(dn, i)[|Ancestor(dn, i)| - |Ancestor(dn, j)|..]
    ensures Ancestor(dn, i) == Lower(dn)[|dn| - |Ancestor(dn, i)|..]
  {
    hide SplitDn, Ancestor;
    AncestorIsSuffix(dn, i);
    AncestorIsSuffix(dn, j);
    ComponentsShrink(dn, i, j);
  }

  /**
   Walks up the name to the closest scope that is not a site; paths are compared without case and a later scope
   with the same path shadows an earlier one.
   */
  method FindParentSom(paths: seq<(string, Container)>, dn: string) returns (parent: Option<nat>)
    ensures parent.None? ==> dn == "" || forall i, k :: 1 <= i < |SplitDn(dn)| && 0 <= k < |paths| && !paths[k].1.Site?
                                            ==> Lower(paths[k].0) != Ancestor(dn, i)
    ensures parent.Some? ==>
              && parent.value < |paths| && !paths[parent.value].1.Site?
              && (forall k :: parent.value < k < |paths| && !paths[k].1.Site?
                    ==> Lower(paths[k].0) != Lower(paths[parent.value].0))
              && exists i :: 1 <= i < |SplitDn(dn)| && Lower(paths[parent.value].0) == Ancestor(dn, i)
                             && forall j, k :: 1 <= j < i && 0 <= k < |paths| && !paths[k].1.Site?
                                  ==> Lower(paths[k].0) != Ancestor(dn, j)
  {
    hide SplitDn, Lower, StripEach, Strip, Join;
    if dn == "" { return None; }
    var byPath: map<string, nat> := map[];
    for k := 0 to |paths|
      invariant forall p :: p in byPath ==> byPath[p] < k && !paths[byPath[p]].1.Site? && Lower(paths[byPath[p]].0) == p
      invariant forall j :: 0 <= j < k && !paths[j].1.Site?
                  ==> Lower(paths[j].0) in byPath && j <= byPath[Lower(paths[j].0)]
    {
      if !paths[k].1.Site? { byPath := byPath[Lower(paths[k].0) := k]; }
    }
    var split := SplitDnLoop(dn);
    var parts := StripEach(split);
    for i := 1 to |parts|
      invariant forall j, k :: 1 <= j < i && 0 <= k < |paths| && !paths[k].1.Site?
                  ==> Lower(paths[k].0) != Ancestor(dn, j)
    {
      var candidate := Lower(Join(parts[i..], ','));
      assert candidate == Ancestor(dn, i);
      if candidate in byPath { return Some(byPath[candidate]); }
    }
    return None;
  }
}
