/** Parsing a security descriptor: section starts, ACE lists, and the round trip with its printed form. */
module SddlParser {
  import opened Prelude
  import opened Text
  import opened Sddl

  // ----- One ACE -----

  function AceTypeOf(code: string): Option<AceType> {
    if code == "A" || code == "XA" then Some(Allow)
    else if code == "D" || code == "XD" then Some(Deny)
    else if code == "OA" then Some(ObjectAllow)
    else if code == "OD" then Some(ObjectDeny)
    else if code == "AU" then Some(AuditSuccess)
    else if code == "OU" then Some(AuditObject)
    else if code == "AL" then Some(Alarm)
    else None
  }

  /** The first six fields; a conditional expression after them is ignored. */
  function ParseAce(text: string): Option<Ace> {
    var parts := Split(text, ';');
    if |parts| < 6 then None
    else
      var kind := AceTypeOf(Upper(Strip(parts[0])));
      if kind.None? then None
      else Some(Ace(kind.value, Strip(parts[1]), Strip(parts[2]), Strip(parts[3]), Strip(parts[4]), Strip(parts[5])))
  }

  // ----- Section starts -----

  predicate IsSectionLetter(c: char) {
    c == 'O' || c == 'G' || c == 'D' || c == 'S'
  }

  ghost predicate WellPlaced(s: string, found: map<char, nat>) {
    forall c :: c in found ==> IsSectionLetter(c) && found[c] + 1 < |s| && s[found[c]] == c && s[found[c] + 1] == ':'
  }

  function Close(depth: nat): nat {
    if depth == 0 then 0 else depth - 1
  }

  /** The first depth-zero marker of each section, scanning from `i` at parenthesis depth `depth`. */
  function ScanFrom(s: string, i: nat, depth: nat, found: map<char, nat>): (r: map<char, nat>)
    ensures WellPlaced(s, found) ==> WellPlaced(s, r)
    decreases |s| - i
  {
    if i >= |s| then found
    else if s[i] == '(' then ScanFrom(s, i + 1, depth + 1, found)
    else if s[i] == ')' then ScanFrom(s, i + 1, Close(depth), found)
    else if depth == 0 && IsSectionLetter(s[i]) && i + 1 < |s| && s[i + 1] == ':' && s[i] !in found
      then ScanFrom(s, i + 1, depth, found[s[i] := i])
    else ScanFrom(s, i + 1, depth, found)
  }

  method FindSectionStarts(s: string) returns (sections: map<char, nat>)
    ensures sections == ScanFrom(s, 0, 0, map[])
  {
    sections := map[];
    var depth, i := 0, 0;
    while i < |s|
      invariant 0 <= i <= |s| && depth >= 0
      invariant ScanFrom(s, i, depth, sections) == ScanFrom(s, 0, 0, map[])
    {
      var ch := s[i];
      if ch == '(' {
        depth := depth + 1;
      } else if ch == ')' {
        depth := depth - 1;
        if depth < 0 { depth := 0; }
      } else if depth == 0 && IsSectionLetter(ch) && i + 1 < |s| && s[i + 1] == ':' {
        if ch !in sections { sections := sections[ch := i]; }
      }
      i := i + 1;
    }
  }

  // ----- ACE lists -----

  function AddAce(aces: seq<Ace>, text: string): seq<Ace> {
    if ParseAce(text).Some? then aces + [ParseAce(text).value] else aces
  }

  function ExtractFrom(s: string, i: nat, depth: nat, start: Option<nat>, aces: seq<Ace>): seq<Ace>
    requires start.Some? ==> start.value <= i
    decreases |s| - i
  {
    if i >= |s| then aces
    else if s[i] == '(' then ExtractFrom(s, i + 1, depth + 1, if depth == 0 then Some(i + 1) else start, aces)
    else if s[i] == ')' then
      if Close(depth) == 0 && start.Some? then ExtractFrom(s, i + 1, 0, None, AddAce(aces, s[start.value..i]))
      else ExtractFrom(s, i + 1, Close(depth), start, aces)
    else ExtractFrom(s, i + 1, depth, start, aces)
  }

  method ExtractAces(s: string) returns (aces: seq<Ace>)
    ensures aces == ExtractFrom(s, 0, 0, None, [])
  {
    aces := [];
    var depth, start := 0, -1;
    for i := 0 to |s|
      invariant depth >= 0 && -1 <= start <= i
      invariant ExtractFrom(s, i, depth, if start >= 0 then Some(start) else None, aces)
                == ExtractFrom(s, 0, 0, None, [])
    {
      if s[i] == '(' {
        if depth == 0 { start := i + 1; }
        depth := depth + 1;
      } else if s[i] == ')' {
        depth := depth - 1;
        if depth < 0 { depth := 0; }
        if depth == 0 && start >= 0 {
          var ace := ParseAce(s[start..i]);
          if ace.Some? { aces := aces + [ace.value]; }
          start := -1;
        }
      }
    }
  }

  function ControlFlags(raw: string): string {
    Strip(Head(raw, '('))
  }

  // ----- The descriptor -----

  /** The nearer of `end` and the start of section `c`, looking beyond `p`. */
  function Nearer(found: map<char, nat>, c: char, p: nat, end: nat): nat {
    if c in found && p < found[c] < end then found[c] else end
  }

  /** Where the section that starts at `p` ends. */
  function EndOf(found: map<char, nat>, p: nat, n: nat): nat {
    Nearer(found, 'O', p, Nearer(found, 'G', p, Nearer(found, 'D', p, Nearer(found, 'S', p, n))))
  }

  lemma EndIsNext(found: map<char, nat>, p: nat, n: nat, e: nat)
    requires forall c :: c in found ==> IsSectionLetter(c)
    requires p < e <= n && forall c :: c in found ==> found[c] <= p || e <= found[c]
    requires e == n || exists c :: c in found && found[c] == e
    ensures EndOf(found, p, n) == e
  {
  }

  lemma EndLeavesRoom(s: string, found: map<char, nat>, c: char)
    requires WellPlaced(s, found) && c in found
    ensures found[c] + 2 <= EndOf(found, found[c], |s|) <= |s|
  {
  }

  function Section(s: string, found: map<char, nat>, c: char): string
    requires WellPlaced(s, found)
  {
    if c in found then
      EndLeavesRoom(s, found, c);
      s[found[c] + 2..EndOf(found, found[c], |s|)]
    else ""
  }

  function NonEmpty(s: string): Option<string> {
    if s == "" then None else Some(s)
  }

  function ParseSddl(s: string): Acl {
    if |s| > MAX_LENGTH then EMPTY_ACL
    else
      var found := ScanFrom(s, 0, 0, map[]);
      Acl(NonEmpty(Strip(Section(s, found, 'O'))), NonEmpty(Strip(Section(s, found, 'G'))),
          ExtractFrom(Section(s, found, 'D'), 0, 0, None, []), ExtractFrom(Section(s, found, 'S'), 0, 0, None, []),
          ControlFlags(Section(s, found, 'D')), ControlFlags(Section(s, found, 'S')))
  }

  // ----- The printed form -----

  datatype AceText = AceText(
    kind: string, flags: string, rights: string, objectGuid: string, inheritGuid: string, trustee: string,
    condition: Option<string>)

  datatype AclText = AclText(flags: string, aces: seq<AceText>)

  datatype Descriptor = Descriptor(owner: Option<string>, group: Option<string>, dacl: Option<AclText>,
                                   sacl: Option<AclText>)

  function AceBody(a: AceText): string {
    a.kind + ";" + (a.flags + ";" + (a.rights + ";" + (a.objectGuid + ";" + (a.inheritGuid + ";" + AceTail(a)))))
  }

  function AceTail(a: AceText): string {
    if a.condition.Some? then a.trustee + ";" + a.condition.value else a.trustee
  }

  function PrintAces(aces: seq<AceText>): string {
    if aces == [] then "" else "(" + AceBody(aces[0]) + ")" + PrintAces(aces[1..])
  }

  function PrintField(letter: char, value: Option<string>): string {
    if value.None? then "" else [letter, ':'] + value.value
  }

  function PrintAcl(acl: AclText): string {
    acl.flags + PrintAces(acl.aces)
  }

  function PrintAclField(letter: char, acl: Option<AclText>): string {
    PrintField(letter, if acl.Some? then Some(PrintAcl(acl.value)) else None)
  }

  function Print(d: Descriptor): string {
    PrintField('O', d.owner) + (PrintField('G', d.group) + (PrintAclField('D', d.dacl) + PrintAclField('S', d.sacl)))
  }

  // ----- What may be printed -----

  predicate NoDelimiter(s: string) {
    forall i :: 0 <= i < |s| ==> s[i] != '(' && s[i] != ')' && s[i] != ';' && s[i] != ':'
  }

  predicate Plain(s: string) {
    NoDelimiter(s) && Trimmed(s)
  }

  /** Parentheses in `s` match, starting `d` levels deep. */
  predicate Balanced(s: string, d: nat) {
    if s == "" then d == 0
    else if s[0] == '(' then Balanced(s[1..], d + 1)
    else if s[0] == ')' then d > 0 && Balanced(s[1..], d - 1)
    else Balanced(s[1..], d)
  }

  predicate PrintableAce(a: AceText) {
    && Plain(a.kind) && AceTypeOf(Upper(a.kind)).Some?
    && Plain(a.flags) && Plain(a.rights) && Plain(a.objectGuid) && Plain(a.inheritGuid) && Plain(a.trustee)
    && (a.condition.Some? ==> Balanced(a.condition.value, 0))
  }

  ghost predicate PrintableAcl(acl: Option<AclText>) {
    acl.Some? ==> Plain(acl.value.flags) && forall i :: 0 <= i < |acl.value.aces| ==> PrintableAce(acl.value.aces[i])
  }

  ghost predicate Printable(d: Descriptor) {
    && (d.owner.Some? ==> Plain(d.owner.value) && d.owner.value != "")
    && (d.group.Some? ==> Plain(d.group.value) && d.group.value != "")
    && PrintableAcl(d.dacl) && PrintableAcl(d.sacl)
  }

  function MeaningOfAce(a: AceText): Ace
    requires PrintableAce(a)
  {
    Ace(AceTypeOf(Upper(a.kind)).value, a.flags, a.rights, a.objectGuid, a.inheritGuid, a.trustee)
  }

  ghost function MeaningOfAces(acl: Option<AclText>): seq<Ace>
    requires PrintableAcl(acl)
  {
    if acl.None? then []
    else seq(|acl.value.aces|, i requires 0 <= i < |acl.value.aces| => MeaningOfAce(acl.value.aces[i]))
  }

  ghost function Meaning(d: Descriptor): Acl
    requires Printable(d)
  {
    Acl(d.owner, d.group, MeaningOfAces(d.dacl), MeaningOfAces(d.sacl),
        if d.dacl.Some? then d.dacl.value.flags else "", if d.sacl.Some? then d.sacl.value.flags else "")
  }
}
