/** Parsing the printed form of a descriptor gives back what was printed. */
module SddlRoundTrip {
  import opened Prelude
  import opened Sorting
  import opened Text
  import opened Sddl
  import opened SddlParser

  // ----- The parser's loop over the sections in order -----

  predicate StartsBefore(a: (char, nat), b: (char, nat)) {
    a.1 <= b.1
  }

  method SectionsInOrder(s: string, found: map<char, nat>) returns (order: seq<(char, nat)>)
    requires WellPlaced(s, found)
    ensures forall x :: x in order <==> x.0 in found && found[x.0] == x.1
    ensures forall i, j :: 0 <= i < j < |order| ==> order[i].1 < order[j].1
  {
    order := [];
    var todo := found.Keys;
    while todo != {}
      invariant todo <= found.Keys
      invariant forall x :: x in order <==> x.0 in found && x.0 !in todo && found[x.0] == x.1
      invariant forall i, j :: 0 <= i < j < |order| ==> order[i] != order[j]
    {
      var c :| c in todo;
      todo := todo - {c};
      order := order + [(c, found[c])];
    }
    var items := order;
    order := Sort(items, StartsBefore);
    SortSorts(items, StartsBefore);
    forall x ensures x in order <==> x in items { assert x in multiset(order) <==> x in multiset(items); }
    forall i, j | 0 <= i < j < |order| ensures order[i].1 < order[j].1 {
      if order[i].1 == order[j].1 {
        assert order[i].0 == s[order[i].1] && order[j].0 == s[order[j].1];
        NoRepeats(items, order, i, j);
      }
    }
  }

  lemma NoRepeats<T>(a: seq<T>, b: seq<T>, i: nat, j: nat)
    requires multiset(a) == multiset(b) && i < j < |b| && b[i] == b[j]
    ensures exists k, l :: 0 <= k < l < |a| && a[k] == a[l]
  {
    assert b == b[..j] + [b[j]] + b[j + 1..];
    assert b[..j][i] == b[j];
    assert multiset(b)[b[j]] >= 2;
    TwiceIn(a, b[j]);
  }

  lemma {:induction false} TwiceIn<T>(a: seq<T>, x: T)
    requires multiset(a)[x] >= 2
    ensures exists k, l :: 0 <= k < l < |a| && a[k] == a[l]
  {
    assert a == a[..|a| - 1] + [a[|a| - 1]];
    if a[|a| - 1] == x {
      assert x in multiset(a[..|a| - 1]);
      var k :| 0 <= k < |a| - 1 && a[k] == x;
    } else {
      TwiceIn(a[..|a| - 1], x);
    }
  }

  ghost function Upto<T>(seen: set<char>, c: char, v: T, default: T): T {
    if c in seen then v else default
  }

  method ParseDescriptor(s: string) returns (acl: Acl)
    ensures acl == ParseSddl(s)
  {
    hide EndOf, ScanFrom, ExtractFrom, ControlFlags, Strip, Section, NonEmpty;
    if |s| > MAX_LENGTH { return EMPTY_ACL; }
    var owner, group: Option<string> := None, None;
    var dacl: seq<Ace>, sacl: seq<Ace>, daclFlags, saclFlags := [], [], "", "";
    var f := FindSectionStarts(s);
    var order := SectionsInOrder(s, f);
    ghost var seen: set<char> := {};
    for idx := 0 to |order|
      invariant seen <= f.Keys && forall k :: 0 <= k < idx ==> order[k].0 in seen
      invariant owner == Upto(seen, 'O', NonEmpty(Strip(Section(s, f, 'O'))), None)
      invariant group == Upto(seen, 'G', NonEmpty(Strip(Section(s, f, 'G'))), None)
      invariant dacl == Upto(seen, 'D', ExtractFrom(Section(s, f, 'D'), 0, 0, None, []), [])
      invariant sacl == Upto(seen, 'S', ExtractFrom(Section(s, f, 'S'), 0, 0, None, []), [])
      invariant daclFlags == Upto(seen, 'D', ControlFlags(Section(s, f, 'D')), "")
      invariant saclFlags == Upto(seen, 'S', ControlFlags(Section(s, f, 'S')), "")
    {
      var (kind, start) := order[idx];
      var end := if idx + 1 < |order| then order[idx + 1].1 else |s|;
      SectionIs(s, f, order, idx);
      var raw := s[start + 2..end];
      if kind == 'O' {
        owner := NonEmpty(Strip(raw));
      } else if kind == 'G' {
        group := NonEmpty(Strip(raw));
      } else if kind == 'D' {
        dacl := ExtractAces(raw);
        daclFlags := ControlFlags(raw);
      } else if kind == 'S' {
        sacl := ExtractAces(raw);
        saclFlags := ControlFlags(raw);
      }
      seen := seen + {kind};
    }
    forall c | c in f ensures c in seen {
      assert (c, f[c]) in order;
      var k :| 0 <= k < |order| && order[k] == (c, f[c]);
    }
    AbsentSections(s, f);
    acl := Acl(owner, group, dacl, sacl, daclFlags, saclFlags);
  }

  lemma AbsentSections(s: string, f: map<char, nat>)
    requires WellPlaced(s, f)
    ensures forall c :: c !in f ==> Section(s, f, c) == ""
    ensures NonEmpty(Strip("")) == None && ExtractFrom("", 0, 0, None, []) == [] && ControlFlags("") == ""
  {
  }

  lemma SectionIs(s: string, f: map<char, nat>, order: seq<(char, nat)>, idx: nat)
    requires WellPlaced(s, f) && idx < |order|
    requires forall x :: x in order <==> x.0 in f && f[x.0] == x.1
    requires forall i, j :: 0 <= i < j < |order| ==> order[i].1 < order[j].1
    ensures order[idx].0 in f
    ensures var end := if idx + 1 < |order| then order[idx + 1].1 else |s|;
            order[idx].1 + 2 <= end <= |s| && s[order[idx].1 + 2..end] == Section(s, f, order[idx].0)
  {
    SectionEnd(s, f, order, idx);
    EndLeavesRoom(s, f, order[idx].0);
  }

  lemma SectionEnd(s: string, found: map<char, nat>, order: seq<(char, nat)>, idx: nat)
    requires WellPlaced(s, found) && idx < |order|
    requires forall x :: x in order <==> x.0 in found && found[x.0] == x.1
    requires forall i, j :: 0 <= i < j < |order| ==> order[i].1 < order[j].1
    ensures order[idx].0 in found && found[order[idx].0] == order[idx].1
    ensures EndOf(found, order[idx].1, |s|) == if idx + 1 < |order| then order[idx + 1].1 else |s|
  {
    var p, e := order[idx].1, if idx + 1 < |order| then order[idx + 1].1 else |s|;
    assert order[idx] in order;
    if idx + 1 < |order| { assert order[idx + 1] in order; }
    forall c | c in found ensures found[c] <= p || e <= found[c] {
      assert (c, found[c]) in order;
      var k :| 0 <= k < |order| && order[k] == (c, found[c]);
      if idx + 1 < k { assert order[idx + 1].1 < order[k].1; }
    }
    EndIsNext(found, p, |s|, e);
  }

  // ----- Scanning the printed form -----

  ghost predicate Slice(s: string, i: nat, seg: string) {
    i + |seg| <= |s| && s[i..i + |seg|] == seg
  }

  lemma SliceParts(s: string, i: nat, a: string, b: string)
    requires Slice(s, i, a + b)
    ensures Slice(s, i, a) && Slice(s, i + |a|, b)
  {
    assert s[i..i + |a|] == s[i..i + |a + b|][..|a|];
    assert s[i + |a|..i + |a| + |b|] == s[i..i + |a + b|][|a|..];
  }

  lemma SliceHead(s: string, i: nat, seg: string)
    requires Slice(s, i, seg) && seg != ""
    ensures i < |s| && s[i] == seg[0] && Slice(s, i + 1, seg[1..])
  {
    assert seg == seg[..1] + seg[1..];
    SliceParts(s, i, seg[..1], seg[1..]);
    assert s[i..i + 1] == seg[..1];
    assert s[i] == s[i..i + 1][0];
  }

  /** Text without delimiters at depth zero holds no marker, unless its last letter meets a colon. */
  lemma {:induction false} ScanPlain(s: string, i: nat, seg: string, f: map<char, nat>)
    requires Slice(s, i, seg) && NoDelimiter(seg)
    requires i + |seg| == |s| || s[i + |seg|] != ':'
    ensures ScanFrom(s, i, 0, f) == ScanFrom(s, i + |seg|, 0, f)
    decreases |seg|
  {
    if seg != "" {
      SliceHead(s, i, seg);
      if |seg| > 1 { SliceHead(s, i + 1, seg[1..]); }
      ScanPlain(s, i + 1, seg[1..], f);
    }
  }

  /** Balanced text inside parentheses is passed over. */
  lemma {:induction false} ScanInside(s: string, i: nat, body: string, outer: nat, d: nat, f: map<char, nat>)
    requires Slice(s, i, body) && Balanced(body, d) && outer > 0
    ensures ScanFrom(s, i, outer + d, f) == ScanFrom(s, i + |body|, outer, f)
    decreases |body|
  {
    if body != "" {
      SliceHead(s, i, body);
      var d' := if body[0] == '(' then d + 1 else if body[0] == ')' then d - 1 else d;
      ScanInside(s, i + 1, body[1..], outer, d', f);
    }
  }

  lemma {:induction false} NoDelimiterBalanced(a: string, rest: string, d: nat)
    requires forall i :: 0 <= i < |a| ==> a[i] != '(' && a[i] != ')'
    ensures Balanced(a + rest, d) <==> Balanced(rest, d)
    decreases |a|
  {
    if a == "" {
      assert a + rest == rest;
    } else {
      assert (a + rest)[1..] == a[1..] + rest;
      NoDelimiterBalanced(a[1..], rest, d);
    }
  }

  lemma AceBodyBalanced(a: AceText)
    requires PrintableAce(a)
    ensures Balanced(AceBody(a), 0)
  {
    var t5 := AceTail(a);
    if a.condition.Some? {
      assert t5 == (a.trustee + ";") + a.condition.value;
      NoDelimiterBalanced(a.trustee + ";", a.condition.value, 0);
    } else {
      assert t5 == a.trustee + "";
      NoDelimiterBalanced(a.trustee, "", 0);
    }
    FieldBalanced(a.inheritGuid, t5);
    FieldBalanced(a.objectGuid, a.inheritGuid + ";" + t5);
    FieldBalanced(a.rights, a.objectGuid + ";" + (a.inheritGuid + ";" + t5));
    FieldBalanced(a.flags, a.rights + ";" + (a.objectGuid + ";" + (a.inheritGuid + ";" + t5)));
    FieldBalanced(a.kind, a.flags + ";" + (a.rights + ";" + (a.objectGuid + ";" + (a.inheritGuid + ";" + t5))));
  }

  lemma FieldBalanced(field: string, rest: string)
    requires NoDelimiter(field) && Balanced(rest, 0)
    ensures Balanced(field + ";" + rest, 0)
  {
    NoDelimiterBalanced(field + ";", rest, 0);
  }

  lemma ScanParenthesized(s: string, i: nat, body: string, f: map<char, nat>)
    requires Slice(s, i, "(" + body + ")") && Balanced(body, 0)
    ensures ScanFrom(s, i, 0, f) == ScanFrom(s, i + |body| + 2, 0, f)
  {
    SliceParts(s, i, "(" + body, ")");
    SliceParts(s, i, "(", body);
    assert s[i] == s[i..i + 1][0];
    assert s[i + 1 + |body|] == s[i + 1 + |body|..i + 2 + |body|][0];
    ScanInside(s, i + 1, body, 1, 0, f);
  }

  lemma {:induction false} ScanAces(s: string, i: nat, aces: seq<AceText>, f: map<char, nat>)
    requires Slice(s, i, PrintAces(aces)) && forall k :: 0 <= k < |aces| ==> PrintableAce(aces[k])
    ensures ScanFrom(s, i, 0, f) == ScanFrom(s, i + |PrintAces(aces)|, 0, f)
    decreases |aces|
  {
    hide ScanFrom, Balanced, AceBody, PrintableAce, Slice;
    if aces != [] {
      var body := AceBody(aces[0]);
      AceBodyBalanced(aces[0]);
      SliceParts(s, i, "(" + body + ")", PrintAces(aces[1..]));
      ScanParenthesized(s, i, body, f);
      ScanAces(s, i + |body| + 2, aces[1..], f);
    }
  }

  lemma ScanMarker(s: string, i: nat, c: char, f: map<char, nat>)
    requires Slice(s, i, [c, ':']) && IsSectionLetter(c) && c !in f
    ensures ScanFrom(s, i, 0, f) == ScanFrom(s, i + 2, 0, f[c := i])
  {
    SliceHead(s, i, [c, ':']);
    SliceHead(s, i + 1, [c, ':'][1..]);
  }

  /** What may stand after a section: the end, or the letter of the next one. */
  ghost predicate EndsWell(s: string, j: nat) {
    j <= |s| && (j == |s| || s[j] != ':')
  }

  lemma ScanField(s: string, i: nat, c: char, value: Option<string>, f: map<char, nat>)
    requires Slice(s, i, PrintField(c, value)) && IsSectionLetter(c) && c !in f
    requires value.Some? ==> NoDelimiter(value.value)
    requires EndsWell(s, i + |PrintField(c, value)|)
    ensures ScanFrom(s, i, 0, f) == ScanFrom(s, i + |PrintField(c, value)|, 0, if value.Some? then f[c := i] else f)
  {
    if value.Some? {
      SliceParts(s, i, [c, ':'], value.value);
      ScanMarker(s, i, c, f);
      ScanPlain(s, i + 2, value.value, f[c := i]);
    }
  }

  lemma ScanAclField(s: string, i: nat, c: char, acl: Option<AclText>, f: map<char, nat>)
    requires Slice(s, i, PrintAclField(c, acl)) && IsSectionLetter(c) && c !in f && PrintableAcl(acl)
    requires EndsWell(s, i + |PrintAclField(c, acl)|)
    ensures ScanFrom(s, i, 0, f) == ScanFrom(s, i + |PrintAclField(c, acl)|, 0, if acl.Some? then f[c := i] else f)
  {
    hide ScanFrom, PrintableAce, PrintAces, IsSectionLetter, NoDelimiter;
    if acl.Some? {
      ScanAclBody(s, i + 2, acl.value, f[c := i]) by { SliceParts(s, i, [c, ':'], PrintAcl(acl.value)); }
      SliceParts(s, i, [c, ':'], PrintAcl(acl.value));
      ScanMarker(s, i, c, f);
    }
  }

  lemma ScanAclBody(s: string, i: nat, acl: AclText, f: map<char, nat>)
    requires Slice(s, i, PrintAcl(acl)) && PrintableAcl(Some(acl)) && EndsWell(s, i + |PrintAcl(acl)|)
    ensures ScanFrom(s, i, 0, f) == ScanFrom(s, i + |PrintAcl(acl)|, 0, f)
  {
    hide ScanFrom, PrintableAce, PrintAces, NoDelimiter;
    var flags, aces := acl.flags, acl.aces;
    SliceParts(s, i, flags, PrintAces(aces));
    if aces != [] {
      AcesOpen(aces);
      SliceHead(s, i + |flags|, PrintAces(aces));
    } else {
      assert PrintAces(aces) == "" by { NoAces(); }
    }
    ScanPlain(s, i, flags, f);
    ScanAces(s, i + |flags|, aces, f);
  }

  lemma NoAces()
    ensures PrintAces([]) == ""
  {
  }

  lemma AcesOpen(aces: seq<AceText>)
    requires aces != []
    ensures PrintAces(aces) != "" && PrintAces(aces)[0] == '('
  {
  }

  // ----- Extracting the printed ACE list -----

  lemma {:induction false} ExtractPlain(s: string, i: nat, seg: string, aces: seq<Ace>)
    requires Slice(s, i, seg) && NoDelimiter(seg)
    ensures ExtractFrom(s, i, 0, None, aces) == ExtractFrom(s, i + |seg|, 0, None, aces)
    decreases |seg|
  {
    if seg != "" {
      SliceHead(s, i, seg);
      ExtractPlain(s, i + 1, seg[1..], aces);
    }
  }

  lemma {:induction false} ExtractInside(s: string, i: nat, body: string, d: nat, start: nat, aces: seq<Ace>)
    requires Slice(s, i, body) && Balanced(body, d) && start <= i
    ensures ExtractFrom(s, i, 1 + d, Some(start), aces) == ExtractFrom(s, i + |body|, 1, Some(start), aces)
    decreases |body|
  {
    if body != "" {
      SliceHead(s, i, body);
      var d' := if body[0] == '(' then d + 1 else if body[0] == ')' then d - 1 else d;
      ExtractInside(s, i + 1, body[1..], d', start, aces);
    }
  }

  lemma ExtractOne(s: string, i: nat, body: string, aces: seq<Ace>)
    requires Slice(s, i, "(" + body + ")") && Balanced(body, 0)
    ensures ExtractFrom(s, i, 0, None, aces) == ExtractFrom(s, i + |body| + 2, 0, None, AddAce(aces, body))
  {
    SliceParts(s, i, "(" + body, ")");
    SliceParts(s, i, "(", body);
    assert s[i] == s[i..i + 1][0];
    assert s[i + 1 + |body|] == s[i + 1 + |body|..i + 2 + |body|][0];
    ExtractInside(s, i + 1, body, 0, i + 1, aces);
  }

  lemma FieldSplits(field: string, rest: string)
    requires Plain(field)
    ensures Split(field + ";" + rest, ';') == [field] + Split(rest, ';') && Split(field, ';') == [field]
            && Strip(field) == field
  {
    SplitAt(field, ';', rest);
    TrimmedStrips(field);
  }

  lemma TailSplits(a: AceText)
    requires PrintableAce(a)
    ensures Split(AceTail(a), ';')[0] == a.trustee
  {
    hide Split, Strip, Plain, AceTypeOf, Upper, Balanced;
    FieldSplits(a.trustee, if a.condition.Some? then a.condition.value else "");
  }

  /** The six fields of a printed ACE come back, whatever condition follows them. */
  lemma ParsePrintedAce(a: AceText)
    requires PrintableAce(a)
    ensures ParseAce(AceBody(a)) == Some(MeaningOfAce(a))
  {
    hide AceTypeOf, Upper, Balanced, Split, Strip, Plain, AceTail;
    var t5 := AceTail(a);
    var t4 := a.inheritGuid + ";" + t5;
    var t3 := a.objectGuid + ";" + t4;
    var t2 := a.rights + ";" + t3;
    var t1 := a.flags + ";" + t2;
    TailSplits(a);
    FieldSplits(a.trustee, "");
    FieldSplits(a.inheritGuid, t5);
    FieldSplits(a.objectGuid, t4);
    FieldSplits(a.rights, t3);
    FieldSplits(a.flags, t2);
    FieldSplits(a.kind, t1);
  }

  lemma {:induction false} ExtractAll(s: string, i: nat, texts: seq<AceText>, aces: seq<Ace>)
    requires Slice(s, i, PrintAces(texts)) && i + |PrintAces(texts)| == |s|
    requires forall k :: 0 <= k < |texts| ==> PrintableAce(texts[k])
    ensures ExtractFrom(s, i, 0, None, aces)
            == aces + seq(|texts|, k requires 0 <= k < |texts| => MeaningOfAce(texts[k]))
    decreases |texts|
  {
    hide AceTypeOf, MeaningOfAce, ParseAce, AceBody, PrintableAce, Balanced, ExtractFrom;
    if texts == [] {
      ExtractEnd(s, i, aces);
    } else {
      var body := AceBody(texts[0]);
      AceBodyBalanced(texts[0]);
      ParsePrintedAce(texts[0]);
      SliceParts(s, i, "(" + body + ")", PrintAces(texts[1..]));
      ExtractOne(s, i, body, aces);
      ExtractAll(s, i + |body| + 2, texts[1..], aces + [MeaningOfAce(texts[0])]);
    }
  }

  lemma ExtractEnd(s: string, i: nat, aces: seq<Ace>)
    requires i == |s|
    ensures ExtractFrom(s, i, 0, None, aces) == aces
  {
  }

  lemma AclComesBack(acl: AclText)
    requires PrintableAcl(Some(acl))
    ensures ExtractFrom(PrintAcl(acl), 0, 0, None, []) == MeaningOfAces(Some(acl))
    ensures ControlFlags(PrintAcl(acl)) == acl.flags
  {
    hide ExtractFrom, PrintableAce, PrintAces, Strip, Head;
    var s := PrintAcl(acl);
    assert s[0..|s|] == s;
    SliceParts(s, 0, acl.flags, PrintAces(acl.aces));
    ExtractPlain(s, 0, acl.flags, []);
    ExtractAll(s, |acl.flags|, acl.aces, []);
    TrimmedStrips(acl.flags);
    if acl.aces == [] {
      NoAces();
      assert s == acl.flags;
      HeadOf(acl.flags, '(', "");
    } else {
      AcesOpen(acl.aces);
      assert s == acl.flags + ['('] + PrintAces(acl.aces)[1..];
      HeadOf(acl.flags, '(', PrintAces(acl.aces)[1..]);
    }
  }

  // ----- The whole descriptor -----

  ghost function Add(f: map<char, nat>, c: char, present: bool, at: nat): map<char, nat> {
    if present then f[c := at] else f
  }

  /** Where the sections of the printed form start. */
  ghost function Starts(d: Descriptor): map<char, nat> {
    var o, g, a := |PrintField('O', d.owner)|, |PrintField('G', d.group)|, |PrintAclField('D', d.dacl)|;
    Add(Add(Add(Add(map[], 'O', d.owner.Some?, 0), 'G', d.group.Some?, o), 'D', d.dacl.Some?, o + g), 'S', d.sacl.Some?,
        o + g + a)
  }

  lemma FieldStarts(s: string, i: nat, c: char, value: Option<string>)
    requires Slice(s, i, PrintField(c, value)) && IsSectionLetter(c) && EndsWell(s, i + |PrintField(c, value)|)
    ensures EndsWell(s, i)
  {
    if value.Some? { SliceHead(s, i, PrintField(c, value)); }
  }

  /** The printed parts, each in its place and followed by an end or a letter. */
  lemma PrintedParts(d: Descriptor)
    ensures var s, o, g, a, b :=
            Print(d), PrintField('O', d.owner), PrintField('G', d.group), PrintAclField('D', d.dacl),
                                 PrintAclField('S', d.sacl);
            && Slice(s, 0, o) && Slice(s, |o|, g) && Slice(s, |o| + |g|, a) && Slice(s, |o| + |g| + |a|, b)
            && |s| == |o| + |g| + |a| + |b|
            && EndsWell(s, |o|) && EndsWell(s, |o| + |g|) && EndsWell(s, |o| + |g| + |a|) && EndsWell(s, |s|)
  {
    hide PrintField, PrintAcl, PrintAclField, Slice, EndsWell;
    var s, o, g, a, b := Print(d), PrintField('O', d.owner), PrintField('G', d.group), PrintAclField('D', d.dacl),
                         PrintAclField('S', d.sacl);
    FourSlices(o, g, a, b);
    AclFieldIsField('D', d.dacl);
    AclFieldIsField('S', d.sacl);
    EndsWellAtEnd(s);
    FieldStarts(s, |o| + |g| + |a|, 'S', if d.sacl.Some? then Some(PrintAcl(d.sacl.value)) else None);
    FieldStarts(s, |o| + |g|, 'D', if d.dacl.Some? then Some(PrintAcl(d.dacl.value)) else None);
    FieldStarts(s, |o|, 'G', d.group);
  }

  lemma FourSlices(o: string, g: string, a: string, b: string)
    ensures var s := o + (g + (a + b));
            Slice(s, 0, o) && Slice(s, |o|, g) && Slice(s, |o| + |g|, a) && Slice(s, |o| + |g| + |a|, b)
  {
    hide Slice;
    var s := o + (g + (a + b));
    WholeSlice(s);
    SliceParts(s, 0, o, g + (a + b));
    SliceParts(s, |o|, g, a + b);
    SliceParts(s, |o| + |g|, a, b);
  }

  lemma AclFieldIsField(c: char, acl: Option<AclText>)
    ensures PrintAclField(c, acl) == PrintField(c, if acl.Some? then Some(PrintAcl(acl.value)) else None)
  {
  }

  lemma EndsWellAtEnd(s: string)
    ensures EndsWell(s, |s|)
  {
  }

  lemma WholeSlice(s: string)
    ensures Slice(s, 0, s)
  {
  }

  lemma ScanPrinted(d: Descriptor)
    requires Printable(d)
    ensures ScanFrom(Print(d), 0, 0, map[]) == Starts(d)
  {
    PrintedParts(d);
    hide ScanFrom, Slice, EndsWell, PrintField, PrintAclField, PrintableAcl, Print, Trimmed;
    var s := Print(d);
    var o, g, a, b :=
      |PrintField('O', d.owner)|, |PrintField('G', d.group)|, |PrintAclField('D', d.dacl)|,
      |PrintAclField('S', d.sacl)|;
    var f0: map<char, nat> := map[];
    var f1 := Add(f0, 'O', d.owner.Some?, 0);
    var f2 := Add(f1, 'G', d.group.Some?, o);
    var f3 := Add(f2, 'D', d.dacl.Some?, o + g);
    ScanField(s, 0, 'O', d.owner, f0);
    ScanField(s, o, 'G', d.group, f1);
    ScanAclField(s, o + g, 'D', d.dacl, f2);
    ScanAclField(s, o + g + a, 'S', d.sacl, f3);
    ScanEnd(s, |s|, Starts(d));
  }

  lemma ScanEnd(s: string, i: nat, f: map<char, nat>)
    requires i == |s|
    ensures ScanFrom(s, i, 0, f) == f
  {
  }

  /** A section present at `p` with text `text` reads back as its value. */
  lemma SectionReads(s: string, f: map<char, nat>, c: char, p: nat, value: string)
    requires WellPlaced(s, f) && c in f && f[c] == p && Slice(s, p, [c, ':'] + value)
    requires forall x :: x in f ==> f[x] <= p || p + 2 + |value| <= f[x]
    requires p + 2 + |value| == |s| || exists x :: x in f && f[x] == p + 2 + |value|
    ensures Section(s, f, c) == value
  {
    EndIsNext(f, p, |s|, p + 2 + |value|);
    SliceParts(s, p, [c, ':'], value);
  }

  lemma StartsAre(d: Descriptor)
    ensures var f := Starts(d);
            var o, g := |PrintField('O', d.owner)|, |PrintField('G', d.group)|;
            var a, b := |PrintAclField('D', d.dacl)|, |PrintAclField('S', d.sacl)|;
            && f.Keys <= {'O', 'G', 'D', 'S'}
            && ('O' in f <==> d.owner.Some?) && ('G' in f <==> d.group.Some?)
            && ('D' in f <==> d.dacl.Some?) && ('S' in f <==> d.sacl.Some?)
            && (d.owner.Some? ==> f['O'] == 0) && (d.group.Some? ==> f['G'] == o)
            && (d.dacl.Some? ==> f['D'] == o + g) && (d.sacl.Some? ==> f['S'] == o + g + a)
            && (d.owner.None? ==> o == 0) && (d.group.None? ==> g == 0) && (d.dacl.None? ==> a == 0)
              && (d.sacl.None? ==> b == 0)
  {
    hide PrintAcl;
  }

  /** After each part comes the start of a section, or the end. */
  lemma PartsMeet(d: Descriptor)
    ensures var f := Starts(d);
            var o, g := |PrintField('O', d.owner)|, |PrintField('G', d.group)|;
            var a, b := |PrintAclField('D', d.dacl)|, |PrintAclField('S', d.sacl)|;
            && (o == o + g + a + b || exists x :: x in f && f[x] == o)
            && (o + g == o + g + a + b || exists x :: x in f && f[x] == o + g)
            && (o + g + a == o + g + a + b || exists x :: x in f && f[x] == o + g + a)
  {
    StartsAre(d);
    hide PrintField, PrintAclField, Starts;
    var f := Starts(d);
    if d.group.Some? { assert 'G' in f; }
    if d.dacl.Some? { assert 'D' in f; }
    if d.sacl.Some? { assert 'S' in f; }
  }

  lemma PartsApart(d: Descriptor, x: char)
    requires x in Starts(d)
    ensures var p := Starts(d)[x];
            var o, g, a := |PrintField('O', d.owner)|, |PrintField('G', d.group)|, |PrintAclField('D', d.dacl)|;
            && (d.owner.Some? ==> p <= 0 || o <= p)
            && (d.group.Some? ==> p <= o || o + g <= p)
            && (d.dacl.Some? ==> p <= o + g || o + g + a <= p)
            && p <= o + g + a
  {
    StartsAre(d);
    hide PrintField, PrintAclField, Starts;
    assert x == 'O' || x == 'G' || x == 'D' || x == 'S';
  }

  lemma FieldReads(s: string, f: map<char, nat>, c: char, p: nat, value: Option<string>)
    requires WellPlaced(s, f) && Slice(s, p, PrintField(c, value)) && (c in f <==> value.Some?)
    requires value.Some? ==>
               && f[c] == p
               && (forall x :: x in f ==> f[x] <= p || p + |PrintField(c, value)| <= f[x])
               && (p + |PrintField(c, value)| == |s| || exists x :: x in f && f[x] == p + |PrintField(c, value)|)
    ensures Section(s, f, c) == if value.Some? then value.value else ""
  {
    hide Slice, EndOf, WellPlaced;
    if value.Some? { SectionReads(s, f, c, p, value.value); }
  }

  lemma FieldsComeBack(d: Descriptor)
    requires Printable(d) && WellPlaced(Print(d), Starts(d))
    ensures Section(Print(d), Starts(d), 'O') == if d.owner.Some? then d.owner.value else ""
    ensures Section(Print(d), Starts(d), 'G') == if d.group.Some? then d.group.value else ""
    ensures Section(Print(d), Starts(d), 'D') == if d.dacl.Some? then PrintAcl(d.dacl.value) else ""
    ensures Section(Print(d), Starts(d), 'S') == if d.sacl.Some? then PrintAcl(d.sacl.value) else ""
  {
    hide Starts, Print, PrintAcl, Slice, Printable, WellPlaced, EndsWell, PrintField, Section;
    PrintedParts(d);
    StartsAre(d);
    PartsMeet(d);
    var s, f := Print(d), Starts(d);
    var o, g, a := |PrintField('O', d.owner)|, |PrintField('G', d.group)|, |PrintAclField('D', d.dacl)|;
    forall x | x in f
      ensures (d.owner.Some? ==> f[x] <= 0 || o <= f[x]) && (d.group.Some? ==> f[x] <= o || o + g <= f[x])
      ensures (d.dacl.Some? ==> f[x] <= o + g || o + g + a <= f[x]) && f[x] <= o + g + a
    {
      PartsApart(d, x);
    }
    FieldReads(s, f, 'O', 0, d.owner);
    FieldReads(s, f, 'G', o, d.group);
    FieldReads(s, f, 'D', o + g, if d.dacl.Some? then Some(PrintAcl(d.dacl.value)) else None);
    FieldReads(s, f, 'S', o + g + a, if d.sacl.Some? then Some(PrintAcl(d.sacl.value)) else None);
  }

  /**
   The round trip: owner, group, control flags and both ACE lists come back in order, and the conditional
   expression of an ACE, which any balanced text may be, has no effect.
   */
  lemma DescriptorRoundTrip(d: Descriptor)
    requires Printable(d) && |Print(d)| <= MAX_LENGTH
    ensures ParseSddl(Print(d)) == Meaning(d)
  {
    hide ScanFrom, ExtractFrom, Starts, Print, PrintAcl, PrintableAce, Section, ControlFlags, Strip;
    ScanPrinted(d);
    FieldsComeBack(d);
    AbsentSections(Print(d), Starts(d));
    if d.owner.Some? { TrimmedStrips(d.owner.value); }
    if d.group.Some? { TrimmedStrips(d.group.value); }
    if d.dacl.Some? { AclComesBack(d.dacl.value); }
    if d.sacl.Some? { AclComesBack(d.sacl.value); }
  }
}
