/** Security identifiers: the well-known tables, domain prefixes and descriptor aliases. */
module Sids {
  import opened Prelude
  import opened Text

  const AUTHENTICATED_USERS := "s-1-5-11"
  const EVERYONE := "s-1-1-0"
  const ANONYMOUS := "s-1-5-7"
  const DOMAIN_PREFIX := "s-1-5-21-"
  const BUILTIN_PREFIX := "s-1-5-32-"
  const MANDATORY_PREFIX := "s-1-16-"
  const DOMAIN_USERS := "-513"
  const DOMAIN_COMPUTERS := "-515"

  const NAMED_ALIASES: set<string> := {
    "wd", "an", "au", "sy", "ba", "bu", "bg", "bo", "bf", "br", "bp", "ps", "ru", "ao", "so", "po", "da", "dg", "du",
      "dd",
    "dc", "ea", "sa", "ca", "pa", "cg", "co", "ow", "ed", "ro", "la", "lg", "ns", "ls", "iu", "nu", "su", "wr", "rc",
      "rd"}

  const ABSOLUTE: set<string> := {
    "s-1-3-0", "s-1-3-1", "s-1-3-4", "s-1-1-0", "s-1-5-7", "s-1-5-9", "s-1-5-10", "s-1-5-11", "s-1-5-12", "s-1-5-13",
    "s-1-5-14", "s-1-5-15", "s-1-5-17", "s-1-5-18", "s-1-5-19", "s-1-5-20", "s-1-5-33", "s-1-5-1000"}

  const BUILTIN_RIDS: set<string> := {
    "544", "545", "546", "547", "548", "549", "550", "551", "552", "553", "554", "555", "556", "557", "558", "559",
      "560",
    "561", "562", "568", "569", "573", "574", "575", "576", "577", "578", "579", "580", "582"}

  const DOMAIN_RIDS: set<string> := {
    "512", "513", "514", "515", "516", "517", "518", "519", "520", "521", "522", "525", "526", "527"}

  const MANDATORY_LABELS: set<string> := {
    "s-1-16-0", "s-1-16-4096", "s-1-16-8192", "s-1-16-8448", "s-1-16-12288", "s-1-16-16384", "s-1-16-20480",
      "s-1-16-28672"}

  /** `resolve_well_known(sid) is not None`. */
  predicate WellKnown(sid: string) {
    var s := Lower(Strip(sid));
    if s in NAMED_ALIASES || s in ABSOLUTE then true
    else if MANDATORY_PREFIX <= s then s in MANDATORY_LABELS
    else if BUILTIN_PREFIX <= s then s[|BUILTIN_PREFIX|..] in BUILTIN_RIDS
    else if DOMAIN_PREFIX <= s then
      var parts := Split(s, '-');
      |parts| >= 7 && parts[|parts| - 1] in DOMAIN_RIDS
    else false
  }

  /** The domain part of a domain principal's identifier. */
  function DomainSidFrom(sid: string): Option<string> {
    var s := Lower(Strip(sid));
    var parts := Split(s, '-');
    if !(DOMAIN_PREFIX <= s) || |parts| < 7 then None else Some(Join(parts[..|parts| - 1], '-'))
  }

  /** Aliases of a fixed identifier, by what follows `s-1-`. */
  const FIXED_ALIASES: map<string, string> := map[
    "wd" := "1-0", "an" := "5-7", "au" := "5-11", "sy" := "5-18", "ns" := "5-20", "ls" := "5-19", "iu" := "5-4",
    "nu" := "5-2", "su" := "5-6", "wr" := "5-33", "rc" := "5-12", "ed" := "5-9", "co" := "3-0", "cg" := "3-1",
    "ow" := "3-4", "ps" := "5-10"]

  /** Aliases of a built-in group, by its relative identifier. */
  const BUILTIN_ALIASES: map<string, string> := map[
    "ba" := "544", "bu" := "545", "bg" := "546", "bo" := "551", "bf" := "549", "br" := "548", "bp" := "550",
    "ru" := "554", "rd" := "555"]

  /** Aliases of an identifier relative to the domain. */
  const DOMAIN_ALIASES: map<string, string> := map[
    "da" := "512", "dg" := "514", "du" := "513", "dd" := "516", "dc" := "515", "ea" := "519", "sa" := "518",
    "ca" := "517",
    "pa" := "520", "la" := "500", "lg" := "501", "ro" := "498"]

  /** `canonical_sddl_sid`: the comparable identifier of a descriptor's trustee. */
  function Canonical(token: string, domainSid: Option<string>): string {
    var s := Lower(Strip(token));
    if s in FIXED_ALIASES then "s-1-" + FIXED_ALIASES[s]
    else if s in BUILTIN_ALIASES then BUILTIN_PREFIX + BUILTIN_ALIASES[s]
    else if s in DOMAIN_ALIASES && domainSid.Some? && domainSid.value != "" then
         domainSid.value + "-" + DOMAIN_ALIASES[s]
    else s
  }

  /** The domain of an identifier is what comes before its last part, if there are seven. */
  lemma DomainIsAllButLast(parts: seq<string>)
    requires |parts| >= 7 && forall i :: 0 <= i < |parts| ==> '-' !in parts[i]
    requires DOMAIN_PREFIX <= Join(parts, '-') && Lower(Strip(Join(parts, '-'))) == Join(parts, '-')
    ensures DomainSidFrom(Join(parts, '-')) == Some(Join(parts[..|parts| - 1], '-'))
  {
    hide Lower, Strip, Join, Split, DOMAIN_PREFIX;
    SplitJoin(parts, '-');
    assert Split(Lower(Strip(Join(parts, '-'))), '-') == parts;
  }

  lemma SomeFixed()
    ensures "au" in FIXED_ALIASES && FIXED_ALIASES["au"] == "5-11"
    ensures "wd" in FIXED_ALIASES && FIXED_ALIASES["wd"] == "1-0"
    ensures "sy" in FIXED_ALIASES && FIXED_ALIASES["sy"] == "5-18"
    ensures {"ba", "da", "du", "dc"} !! FIXED_ALIASES.Keys
  {
  }

  lemma SomeBuiltin()
    ensures "ba" in BUILTIN_ALIASES && BUILTIN_ALIASES["ba"] == "544"
    ensures {"da", "du", "dc"} !! BUILTIN_ALIASES.Keys
  {
  }

  lemma SomeDomain()
    ensures "da" in DOMAIN_ALIASES && DOMAIN_ALIASES["da"] == "512"
    ensures "du" in DOMAIN_ALIASES && DOMAIN_ALIASES["du"] == "513"
    ensures "dc" in DOMAIN_ALIASES && DOMAIN_ALIASES["dc"] == "515"
  {
  }

  /** What the commonest aliases stand for, in any case; the domain's need the domain. */
  lemma AliasesExactly(alias: string, domain: string)
    requires domain != ""
    ensures var s, sid := Lower(Strip(alias)), Canonical(alias, Some(domain));
            && (s == "au" ==> sid == "s-1-5-11") && (s == "wd" ==> sid == "s-1-1-0")
            && (s == "sy" ==> sid == "s-1-5-18") && (s == "ba" ==> sid == "s-1-5-32-544")
            && (s == "da" ==> sid == domain + "-512") && (s == "du" ==> sid == domain + "-513")
            && (s == "dc" ==> sid == domain + "-515")
            && (|s| > 2 ==> sid == s)
  {
    hide Lower, Strip, FIXED_ALIASES, BUILTIN_ALIASES, DOMAIN_ALIASES;
    SomeFixed();
    SomeBuiltin();
    SomeDomain();
    if |Lower(Strip(alias))| > 2 { AliasesAreShort(Lower(Strip(alias))); }
  }

  // ----- Canonical identifiers stay as they are -----

  predicate IsDigit(c: char) {
    '0' <= c <= '9'
  }

  predicate Rid(s: string) {
    |s| == 3 && IsDigit(s[0]) && IsDigit(s[1]) && IsDigit(s[2])
  }

  predicate Authority(s: string) {
    3 <= |s| <= 4 && IsDigit(s[0]) && s[1] == '-' && IsDigit(s[2]) && IsDigit(s[|s| - 1])
  }

  lemma FixedAlias(a: string)
    requires a in FIXED_ALIASES
    ensures |a| == 2 && Authority(FIXED_ALIASES[a])
  {
  }

  lemma BuiltinAlias(a: string)
    requires a in BUILTIN_ALIASES
    ensures |a| == 2 && Rid(BUILTIN_ALIASES[a])
  {
  }

  lemma DomainAlias(a: string)
    requires a in DOMAIN_ALIASES
    ensures |a| == 2 && Rid(DOMAIN_ALIASES[a])
  {
  }

  lemma AliasesAreShort(s: string)
    requires |s| > 2
    ensures s !in FIXED_ALIASES && s !in BUILTIN_ALIASES && s !in DOMAIN_ALIASES
  {
  }

  lemma SidStays(prefix: string, rid: string, domainSid: Option<string>)
    requires |prefix| > 0 && prefix[0] == 's' && Lower(prefix) == prefix && (Rid(rid) || Authority(rid))
    ensures Canonical(prefix + rid, domainSid) == prefix + rid
  {
    hide FIXED_ALIASES, BUILTIN_ALIASES, DOMAIN_ALIASES;
    var s := prefix + rid;
    AliasesAreShort(s);
    assert forall i :: 0 <= i < |prefix| ==> LowerChar(prefix[i]) == Lower(prefix)[i] == prefix[i];
    assert forall i :: 0 <= i < |rid| ==> LowerChar(rid[i]) == rid[i];
    assert Lower(s) == s;
    assert s[|s| - 1] == rid[|rid| - 1];
    TrimmedStrips(s);
  }

  lemma DomainSidIsLower(sid: string)
    requires DomainSidFrom(sid).Some?
    ensures var domain := DomainSidFrom(sid).value; domain != "" && domain[0] == 's' && Lower(domain) == domain
  {
    hide Strip, Split, Join;
    var s := Lower(Strip(sid));
    LowerIdempotent(Strip(sid));
    JoinOfFirstParts(s, '-', |Split(s, '-')| - 1);
    var domain := DomainSidFrom(sid).value;
    assert forall i :: 0 <= i < |domain| ==> LowerChar(domain[i]) == LowerChar(s[i]) == Lower(s)[i] == domain[i];
    assert s[0] == 's' && Head(s, '-')[0] == 's';
  }

  lemma {:induction false} StripLeftTrims(s: string)
    ensures StripLeft(s) == "" || !IsSpace(StripLeft(s)[0])
  {
    if s != "" && IsSpace(s[0]) { StripLeftTrims(s[1..]); }
  }

  lemma {:induction false} StripRightTrims(s: string)
    ensures StripRight(s) == "" || !IsSpace(StripRight(s)[|StripRight(s)| - 1])
    ensures StripRight(s) <= s
  {
    if s != "" && IsSpace(s[|s| - 1]) { StripRightTrims(s[..|s| - 1]); }
  }

  lemma StripTrims(s: string)
    ensures Trimmed(Strip(s)) && Trimmed(Lower(Strip(s)))
  {
    StripLeftTrims(s);
    StripRightTrims(StripLeft(s));
  }

  /**
   Canonicalizing is idempotent for the domain of any principal, so an alias and the identifier it stands for are one
   trustee; without a domain the aliases that need one stay as they are.
   */
  lemma CanonicalIsIdempotent(token: string, domainSid: Option<string>)
    requires domainSid.None? || exists sid :: domainSid == DomainSidFrom(sid)
    ensures Canonical(Canonical(token, domainSid), domainSid) == Canonical(token, domainSid)
  {
    hide FIXED_ALIASES, BUILTIN_ALIASES, DOMAIN_ALIASES, Strip, Rid, Authority, DomainSidFrom;
    var s := Lower(Strip(token));
    assert Lower("s-1-") == "s-1-" && Lower(BUILTIN_PREFIX) == BUILTIN_PREFIX;
    if s in FIXED_ALIASES {
      FixedAlias(s);
      SidStays("s-1-", FIXED_ALIASES[s], domainSid);
    } else if s in BUILTIN_ALIASES {
      BuiltinAlias(s);
      SidStays(BUILTIN_PREFIX, BUILTIN_ALIASES[s], domainSid);
    } else if s in DOMAIN_ALIASES && domainSid.Some? {
      var sid :| domainSid == DomainSidFrom(sid);
      DomainSidIsLower(sid);
      var prefix := domainSid.value + "-";
      assert Lower(prefix) == Lower(domainSid.value) + "-";
      DomainAlias(s);
      SidStays(prefix, DOMAIN_ALIASES[s], domainSid);
    } else {
      StripTrims(token);
      LowerIdempotent(Strip(token));
      TrimmedStrips(s);
    }
  }
}
