/**
 The SDDL scanner: sections at parenthesis depth zero, the ACE list inside them, and right codes.
 [MS-DTYP] section 2.5.1 gives the printed form.
 */
module Sddl {
  import opened Prelude
  import opened Text

  datatype AceType = Allow | Deny | ObjectAllow | ObjectDeny | AuditSuccess | AuditObject | Alarm

  datatype Ace = Ace(kind: AceType, flags: string, rights: string, objectGuid: string, inheritGuid: string,
                     trustee: string)

  datatype Acl = Acl(
    owner: Option<string>, group: Option<string>, dacl: seq<Ace>, sacl: seq<Ace>, daclFlags: string, saclFlags: string)

  const EMPTY_ACL := Acl(None, None, [], [], "", "")

  const MAX_LENGTH := 1_048_576

  // ----- Right codes -----

  const VALID_RIGHTS: set<string> := {
    "GA", "GR", "GW", "GX", "RC", "SD", "WD", "WO", "RP", "WP", "CC", "DC", "LC", "LO", "DT", "CR", "SW",
    "FA", "FR", "FW", "FX", "KA", "KR", "KW", "KX"
  }

  const HEX_RIGHTS: seq<(nat, string)> := [
    (0x80000000, "GR"), (0x40000000, "GW"), (0x20000000, "GX"), (0x10000000, "GA"),
    (0x00080000, "WO"), (0x00040000, "WD"), (0x00020000, "RC"), (0x00010000, "SD"),
    (0x00000100, "CR"), (0x00000080, "LO"), (0x00000040, "DT"), (0x00000020, "WP"),
    (0x00000010, "RP"), (0x00000008, "SW"), (0x00000004, "LC"), (0x00000002, "DC"), (0x00000001, "CC")
  ]

  function HexDigit(c: char): Option<nat> {
    if '0' <= c <= '9' then Some((c as int) - ('0' as int))
    else if 'A' <= c <= 'F' then Some((c as int) - ('A' as int) + 10)
    else None
  }

  function HexValue(digits: string): Option<nat> {
    if digits == "" then Some(0)
    else
      var high, low := HexValue(digits[..|digits| - 1]), HexDigit(digits[|digits| - 1]);
      if high.Some? && low.Some? then Some(16 * high.value + low.value) else None
  }

  function MaskRights(mask: nat, table: seq<(nat, string)>): seq<string>
    requires forall i :: 0 <= i < |table| ==> table[i].0 > 0
  {
    if table == [] then []
    else (if mask / table[0].0 % 2 == 1 then [table[0].1] else []) + MaskRights(mask, table[1..])
  }

  /** The codes met when walking `part` from `i`, two characters at a time where a code is known. */
  function Walk(part: string, i: nat): seq<string>
    decreases |part| - i
  {
    if i + 1 >= |part| then []
    else if part[i..i + 2] in VALID_RIGHTS then [part[i..i + 2]] + Walk(part, i + 2)
    else Walk(part, i + 1)
  }

  function PartRights(raw: string): seq<string> {
    var part := Upper(Strip(raw));
    if |part| >= 2 && part[..2] == "0X" then
      (if |part| == 2 || HexValue(part[2..]).None? then [] else MaskRights(HexValue(part[2..]).value, HEX_RIGHTS))
    else Walk(part, 0)
  }

  function Rights(parts: seq<string>): seq<string> {
    if parts == [] then [] else Rights(parts[..|parts| - 1]) + PartRights(parts[|parts| - 1])
  }

  function ParseRights(rights: string): seq<string> {
    Rights(Split(rights, '|'))
  }

  method WalkPart(part: string) returns (codes: seq<string>)
    ensures codes == Walk(part, 0)
  {
    codes := [];
    var i := 0;
    while i + 1 < |part|
      invariant 0 <= i
      invariant codes + Walk(part, i) == Walk(part, 0)
    {
      var code := part[i..i + 2];
      if code in VALID_RIGHTS {
        assert codes + ([code] + Walk(part, i + 2)) == (codes + [code]) + Walk(part, i + 2);
        codes := codes + [code];
        i := i + 2;
      } else {
        i := i + 1;
      }
    }
  }

  method ParsePart(raw: string) returns (codes: seq<string>)
    ensures codes == PartRights(raw)
  {
    hide HexValue, MaskRights, Walk, Strip, Upper;
    var part := Upper(Strip(raw));
    if |part| >= 2 && part[..2] == "0X" {
      if |part| == 2 || HexValue(part[2..]).None? { return []; }
      codes := MaskRights(HexValue(part[2..]).value, HEX_RIGHTS);
    } else {
      codes := WalkPart(part);
    }
  }

  method ParseSddlRights(rights: string) returns (result: seq<string>)
    ensures result == ParseRights(rights)
  {
    hide PartRights, Split;
    result := [];
    var parts := Split(rights, '|');
    for k := 0 to |parts|
      invariant result == Rights(parts[..k])
    {
      assert parts[..k + 1][..k] == parts[..k];
      var codes := ParsePart(parts[k]);
      result := result + codes;
    }
    assert parts[..|parts|] == parts;
  }

  function Concat(codes: seq<string>): string {
    if codes == [] then "" else codes[0] + Concat(codes[1..])
  }

  ghost predicate ValidCodes(codes: seq<string>) {
    forall i :: 0 <= i < |codes| ==> codes[i] in VALID_RIGHTS
  }

  lemma ValidCodeShape(code: string)
    requires code in VALID_RIGHTS
    ensures |code| == 2 && 'A' <= code[0] <= 'Z' && 'A' <= code[1] <= 'Z'
  {
  }

  lemma {:induction false} WalkReadsCodes(prefix: string, codes: seq<string>)
    requires ValidCodes(codes)
    ensures Walk(prefix + Concat(codes), |prefix|) == codes
    decreases |codes|
  {
    hide VALID_RIGHTS;
    if codes != [] {
      ValidCodeShape(codes[0]);
      var s, tail := prefix + Concat(codes), Concat(codes[1..]);
      assert s == (prefix + codes[0]) + tail;
      WalkReadsCodes(prefix + codes[0], codes[1..]);
      WalkOne(s, |prefix|, codes[0]);
      assert codes == [codes[0]] + codes[1..];
    }
  }

  lemma WalkOne(s: string, i: nat, code: string)
    requires i + 2 <= |s| && s[i..i + 2] == code && code in VALID_RIGHTS
    ensures Walk(s, i) == [code] + Walk(s, i + 2)
  {
    hide VALID_RIGHTS;
  }

  lemma {:induction false} CodesAreLetters(codes: seq<string>)
    requires ValidCodes(codes)
    ensures forall i :: 0 <= i < |Concat(codes)| ==> 'A' <= Concat(codes)[i] <= 'Z'
  {
    if codes != [] {
      ValidCodeShape(codes[0]);
      CodesAreLetters(codes[1..]);
    }
  }

  lemma PartOfCodes(codes: seq<string>)
    requires ValidCodes(codes)
    ensures PartRights(Concat(codes)) == codes && '|' !in Concat(codes)
  {
    hide VALID_RIGHTS, HEX_RIGHTS, Walk, HexValue, Strip, Upper, UpperChar, Concat;
    var s := Concat(codes);
    CodesAreLetters(codes);
    LettersStay(s);
    WalkReadsCodes("", codes);
    assert "" + s == s;
    if |s| >= 2 { assert s[..2][0] != '0'; }
  }

  lemma LettersStay(s: string)
    requires forall i :: 0 <= i < |s| ==> 'A' <= s[i] <= 'Z'
    ensures Upper(Strip(s)) == s && '|' !in s
  {
    TrimmedStrips(s);
  }

  function Flatten(groups: seq<seq<string>>): seq<string> {
    if groups == [] then [] else Flatten(groups[..|groups| - 1]) + groups[|groups| - 1]
  }

  function ConcatEach(groups: seq<seq<string>>): (parts: seq<string>)
    ensures |parts| == |groups| && forall i :: 0 <= i < |groups| ==> parts[i] == Concat(groups[i])
  {
    seq(|groups|, i requires 0 <= i < |groups| => Concat(groups[i]))
  }

  lemma {:induction false} RightsOfGroups(groups: seq<seq<string>>)
    requires forall i :: 0 <= i < |groups| ==> ValidCodes(groups[i])
    ensures Rights(ConcatEach(groups)) == Flatten(groups)
  {
    hide VALID_RIGHTS, HEX_RIGHTS, PartRights, ValidCodes, Concat;
    if groups != [] {
      var n := |groups| - 1;
      assert ConcatEach(groups)[..n] == ConcatEach(groups[..n]);
      RightsOfGroups(groups[..n]);
      PartOfCodes(groups[n]);
    }
  }

  /** Concatenated codes, in any number of groups separated by bars, parse back to exactly those codes. */
  lemma RightsRoundTrip(groups: seq<seq<string>>)
    requires groups != [] && forall i :: 0 <= i < |groups| ==> ValidCodes(groups[i])
    ensures ParseRights(Join(ConcatEach(groups), '|')) == Flatten(groups)
  {
    hide VALID_RIGHTS, HEX_RIGHTS, PartRights, ValidCodes, Concat, Join, Split, Rights;
    var parts := ConcatEach(groups);
    forall i | 0 <= i < |parts| ensures '|' !in parts[i] { PartOfCodes(groups[i]); }
    SplitJoin(parts, '|');
    RightsOfGroups(groups);
  }
}
