/** The resultant policy of a principal, alone or paired with a computer, in every loopback mode. */
module Resultant {
  import opened Collection
  import opened Dn
  import opened Estate
  import opened Gate
  import opened Merge
  import opened MergeTheorems
  import opened Prelude
  import opened Sids
  import opened Sorting
  import opened Text
  import opened Token
  import opened Topology

  datatype Loopback = Replaces | Merges | Mixed | Undetermined

  /**
   A snapshot: topology, identities, the loopback mode each GPO configures, and the GPOs with item-level targeting.
   */
  datatype Inventory = Inventory(topology: Topology, directory: Directory, loopback: map<string, Loopback>,
                                 ilt: set<string>)

  // ----- Names and domain -----

  function EstateDomainSid(sids: seq<string>): Option<string> {
    if sids == [] then None
    else if DomainSidFrom(sids[0]).Some? then DomainSidFrom(sids[0])
    else EstateDomainSid(sids[1..])
  }

  /** The collected identifiers: principals first, then groups. */
  function CollectedSids(dir: Directory): seq<string> {
    Image((p: (string, Principal)) => p.0, dir.principals) + Image((g: Group) => g.sid, dir.groups)
  }

  const WELL_KNOWN_NAMES: map<string, string> := map[
    "authenticated users" := AUTHENTICATED_USERS, "everyone" := EVERYONE, "system" := "s-1-5-18",
    "anonymous" := "s-1-5-7",
    "domain users" := DOMAIN_USERS, "domain computers" := DOMAIN_COMPUTERS]

  /** `setdefault`: the first to claim a name keeps it. */
  function Claim(byName: map<string, string>, name: string, sid: string): map<string, string> {
    if name == "" || Lower(name) in byName then byName else byName[Lower(name) := sid]
  }

  function PrincipalNames(byName: map<string, string>, principals: seq<(string, Principal)>): map<string, string> {
    if principals == [] then byName
    else
      var (sid, p) := principals[|principals| - 1];
      Claim(Claim(PrincipalNames(byName, principals[..|principals| - 1]), p.name, sid), p.sam, sid)
  }

  function GroupNames(byName: map<string, string>, groups: seq<Group>): map<string, string> {
    if groups == [] then byName
    else
      var g := groups[|groups| - 1];
      Claim(GroupNames(byName, groups[..|groups| - 1]), g.name, g.sid)
  }

  function NameMap(dir: Directory): map<string, string> {
    GroupNames(PrincipalNames(WELL_KNOWN_NAMES, dir.principals), dir.groups)
  }

  method BuildNameToSidMap(dir: Directory) returns (byName: map<string, string>)
    ensures byName == NameMap(dir)
  {
    hide Claim, WELL_KNOWN_NAMES;
    byName := WELL_KNOWN_NAMES;
    for i := 0 to |dir.principals|
      invariant byName == PrincipalNames(WELL_KNOWN_NAMES, dir.principals[..i])
    {
      assert dir.principals[..i + 1][..i] == dir.principals[..i];
      var (sid, p) := dir.principals[i];
      byName := Claim(byName, p.name, sid);
      byName := Claim(byName, p.sam, sid);
    }
    assert dir.principals[..|dir.principals|] == dir.principals;
    for i := 0 to |dir.groups|
      invariant byName == GroupNames(PrincipalNames(WELL_KNOWN_NAMES, dir.principals), dir.groups[..i])
    {
      assert dir.groups[..i + 1][..i] == dir.groups[..i];
      byName := Claim(byName, dir.groups[i].name, dir.groups[i].sid);
    }
    assert dir.groups[..|dir.groups|] == dir.groups;
  }

  lemma {:induction false} PrincipalNamesExtend(byName: map<string, string>, principals: seq<(string, Principal)>)
    ensures forall n :: n in byName
              ==> n in PrincipalNames(byName, principals) && PrincipalNames(byName, principals)[n] == byName[n]
  {
    if principals != [] { PrincipalNamesExtend(byName, principals[..|principals| - 1]); }
  }

  lemma {:induction false} GroupNamesExtend(byName: map<string, string>, groups: seq<Group>)
    ensures forall n :: n in byName ==> n in GroupNames(byName, groups) && GroupNames(byName, groups)[n] == byName[n]
  {
    if groups != [] { GroupNamesExtend(byName, groups[..|groups| - 1]); }
  }

  /** No collected principal or group can take over a well-known name. */
  lemma WellKnownNamesStay(dir: Directory)
    ensures forall n :: n in WELL_KNOWN_NAMES ==> n in NameMap(dir) && NameMap(dir)[n] == WELL_KNOWN_NAMES[n]
  {
    hide WELL_KNOWN_NAMES;
    PrincipalNamesExtend(WELL_KNOWN_NAMES, dir.principals);
    GroupNamesExtend(PrincipalNames(WELL_KNOWN_NAMES, dir.principals), dir.groups);
  }

  function PrincipalClaims(principals: seq<(string, Principal)>): (claims: seq<(string, string)>)
    ensures |claims| == 2 * |principals|
    ensures forall i :: 0 <= i < |principals| ==>
              && claims[2 * i] == (principals[i].1.name, principals[i].0)
              && claims[2 * i + 1] == (principals[i].1.sam, principals[i].0)
  {
    if principals == [] then []
    else
      var (sid, p) := principals[|principals| - 1];
      PrincipalClaims(principals[..|principals| - 1]) + [(p.name, sid), (p.sam, sid)]
  }

  function GroupClaims(groups: seq<Group>): seq<(string, string)> {
    Image((g: Group) => (g.name, g.sid), groups)
  }

  function ClaimAll(byName: map<string, string>, claims: seq<(string, string)>): map<string, string> {
    if claims == [] then byName
    else Claim(ClaimAll(byName, claims[..|claims| - 1]), claims[|claims| - 1].0, claims[|claims| - 1].1)
  }

  /** The first claim to the lower-cased name. */
  ghost predicate FirstClaim(claims: seq<(string, string)>, n: string, i: int): (b: bool)
    ensures b ==> 0 <= i < |claims|
  {
    && 0 <= i < |claims| && claims[i].0 != "" && Lower(claims[i].0) == n
    && forall j :: 0 <= j < i ==> claims[j].0 == "" || Lower(claims[j].0) != n
  }

  lemma ClaimAdds(byName: map<string, string>, name: string, sid: string, n: string)
    ensures var after := Claim(byName, name, sid);
            && (n in after <==> n in byName || (name != "" && Lower(name) == n))
            && (n in after ==> after[n] == if n in byName then byName[n] else sid)
  {
    hide Lower;
  }

  lemma FirstsOfSnoc(rest: seq<(string, string)>, last: (string, string), n: string)
    ensures forall i :: FirstClaim(rest, n, i) ==> FirstClaim(rest + [last], n, i) && (rest + [last])[i] == rest[i]
    ensures forall i :: FirstClaim(rest + [last], n, i) ==> FirstClaim(rest, n, i) || i == |rest|
    ensures FirstClaim(rest + [last], n, |rest|)
            <==> last.0 != "" && Lower(last.0) == n && forall i :: !FirstClaim(rest, n, i)
  {
    hide Lower;
    var all := rest + [last];
    assert forall j :: 0 <= j < |rest| ==> all[j] == rest[j];
    assert all[|rest|] == last;
    if j :| 0 <= j < |rest| && rest[j].0 != "" && Lower(rest[j].0) == n {
      SomeClaim(rest, n, j);
      assert all[j].0 != "" && Lower(all[j].0) == n;
    }
  }

  lemma {:induction false} ClaimAllExactly(byName: map<string, string>, claims: seq<(string, string)>, n: string)
    requires n !in byName
    ensures n in ClaimAll(byName, claims) <==> exists i :: FirstClaim(claims, n, i)
    ensures forall i :: FirstClaim(claims, n, i) ==> ClaimAll(byName, claims)[n] == claims[i].1
  {
    if claims == [] {
    } else {
      hide Claim, FirstClaim, Lower;
      var rest, last := claims[..|claims| - 1], claims[|claims| - 1];
      assert claims == rest + [last];
      ClaimAllExactly(byName, rest, n);
      ClaimAdds(ClaimAll(byName, rest), last.0, last.1, n);
      FirstsOfSnoc(rest, last, n);
    }
  }

  lemma {:induction false} SomeClaim(claims: seq<(string, string)>, n: string, j: nat)
    requires j < |claims| && claims[j].0 != "" && Lower(claims[j].0) == n
    ensures exists i :: FirstClaim(claims, n, i)
  {
    hide Lower;
    if k :| 0 <= k < j && claims[k].0 != "" && Lower(claims[k].0) == n {
      SomeClaim(claims, n, k);
    } else {
      assert FirstClaim(claims, n, j);
    }
  }

  lemma {:induction false} PrincipalsClaim(byName: map<string, string>, principals: seq<(string, Principal)>)
    ensures PrincipalNames(byName, principals) == ClaimAll(byName, PrincipalClaims(principals))
  {
    hide Claim;
    if principals != [] {
      var rest := principals[..|principals| - 1];
      var (sid, p) := principals[|principals| - 1];
      PrincipalsClaim(byName, rest);
      var c := PrincipalClaims(rest);
      assert (c + [(p.name, sid), (p.sam, sid)])[..|c| + 1] == c + [(p.name, sid)];
      assert (c + [(p.name, sid)])[..|c|] == c;
    }
  }

  lemma {:induction false} GroupsClaim(byName: map<string, string>, groups: seq<Group>)
    ensures GroupNames(byName, groups) == ClaimAll(byName, GroupClaims(groups))
  {
    hide Claim;
    if groups != [] {
      var rest := groups[..|groups| - 1];
      GroupsClaim(byName, rest);
      assert GroupClaims(groups)[..|rest|] == GroupClaims(rest);
    }
  }

  lemma {:induction false} ClaimsInTurn(byName: map<string, string>, a: seq<(string, string)>, b: seq<(string, string)>)
    ensures ClaimAll(ClaimAll(byName, a), b) == ClaimAll(byName, a + b)
  {
    hide Claim;
    if b == [] {
      assert a + b == a;
    } else {
      assert (a + b)[..|a + b| - 1] == a + b[..|b| - 1];
      ClaimsInTurn(byName, a, b[..|b| - 1]);
    }
  }

  /**
   A name that is not well known leads to whoever claims it first: the principals in turn, each by display name and then
   by account name, and then the groups.
   */
  lemma NamesExactly(dir: Directory, n: string)
    requires n !in WELL_KNOWN_NAMES
    ensures var claims := PrincipalClaims(dir.principals) + GroupClaims(dir.groups);
            && (n in NameMap(dir) <==> exists i :: FirstClaim(claims, n, i))
            && forall i :: FirstClaim(claims, n, i) ==> NameMap(dir)[n] == claims[i].1
  {
    hide WELL_KNOWN_NAMES, FirstClaim, ClaimAll;
    PrincipalsClaim(WELL_KNOWN_NAMES, dir.principals);
    GroupsClaim(PrincipalNames(WELL_KNOWN_NAMES, dir.principals), dir.groups);
    ClaimsInTurn(WELL_KNOWN_NAMES, PrincipalClaims(dir.principals), GroupClaims(dir.groups));
    ClaimAllExactly(WELL_KNOWN_NAMES, PrincipalClaims(dir.principals) + GroupClaims(dir.groups), n);
  }

  function NamesFor(inv: Inventory, sid: string): Names {
    var domain := EstateDomainSid(CollectedSids(inv.directory));
    Names(NameMap(inv.directory), if domain.Some? then domain else DomainSidFrom(sid))
  }

  /** The first collected identifier with a domain gives the estate's. */
  lemma {:induction false} FirstDomainDecides(sids: seq<string>, i: nat)
    requires i < |sids| && DomainSidFrom(sids[i]).Some? && forall j :: 0 <= j < i ==> DomainSidFrom(sids[j]).None?
    ensures EstateDomainSid(sids) == DomainSidFrom(sids[i])
  {
    hide DomainSidFrom;
    if i > 0 {
      assert forall j :: 0 <= j < i - 1 ==> sids[1..][j] == sids[j + 1];
      FirstDomainDecides(sids[1..], i - 1);
    }
  }

  lemma {:induction false} EstateDomainIsSomeones(sids: seq<string>)
    ensures EstateDomainSid(sids).Some? ==> exists sid :: EstateDomainSid(sids) == DomainSidFrom(sid)
  {
    hide DomainSidFrom;
    if sids != [] { EstateDomainIsSomeones(sids[1..]); }
  }

  /** With the names of a request, a descriptor's trustee and its canonical identifier are one trustee. */
  lemma TrusteeIsItsIdentifier(inv: Inventory, sid: string, trustee: string)
    ensures var domain := NamesFor(inv, sid).domainSid;
            Canonical(Canonical(trustee, domain), domain) == Canonical(trustee, domain)
  {
    hide DomainSidFrom, Canonical, CollectedSids, NameMap;
    EstateDomainIsSomeones(CollectedSids(inv.directory));
    CanonicalIsIdempotent(trustee, NamesFor(inv, sid).domainSid);
  }

  // ----- The chain of a principal -----

  function FirstScope(soms: seq<Som>, fits: Som -> bool): (r: Option<Som>)
    ensures r.Some? ==> r.value in soms && fits(r.value)
    ensures r.None? ==> forall s :: s in soms ==> !fits(s)
  {
    if soms == [] then None
    else if fits(soms[0]) then Some(soms[0])
    else FirstScope(soms[1..], fits)
  }

  function ScopeAt(soms: seq<Som>, name: string): Option<Som> {
    FirstScope(soms, (s: Som) => s.container != Site && Lower(s.path) == name)
  }

  /** The first scope at an ancestor of `dn` from component `i` on. */
  function NearestScope(soms: seq<Som>, dn: string, i: nat): Option<Som>
    requires i <= |SplitDn(dn)|
    decreases |SplitDn(dn)| - i
  {
    if i == |SplitDn(dn)| then None
    else match ScopeAt(soms, Ancestor(dn, i))
         case Some(s) => Some(s)
         case None => NearestScope(soms, dn, i + 1)
  }

  /** It is the nearest: no component before its own names a scope, and without one no component does. */
  lemma {:induction false} NothingIsNearer(soms: seq<Som>, dn: string, i: nat)
    requires i <= |SplitDn(dn)|
    ensures match NearestScope(soms, dn, i)
            case Some(scope) =>
              && scope in soms && scope.container != Site
              && exists k :: i <= k < |SplitDn(dn)| && Lower(scope.path) == Ancestor(dn, k)
                             && forall j, s :: i <= j < k && s in soms && s.container != Site
                                  ==> Lower(s.path) != Ancestor(dn, j)
            case None =>
              forall j, s :: i <= j < |SplitDn(dn)| && s in soms && s.container != Site
                ==> Lower(s.path) != Ancestor(dn, j)
    decreases |SplitDn(dn)| - i
  {
    hide SplitDn, Ancestor, Lower, FirstScope;
    if i < |SplitDn(dn)| && ScopeAt(soms, Ancestor(dn, i)).None? {
      NothingIsNearer(soms, dn, i + 1);
      forall s | s in soms && s.container != Site ensures Lower(s.path) != Ancestor(dn, i) {
        assert !((s: Som) => s.container != Site && Lower(s.path) == Ancestor(dn, i))(s);
      }
    }
  }

  /**
   The chain `principal_resultant` walks for a principal's name: of the nearest scope, else the domain's, else of any
   scope.
   */
  function ChainFor(soms: seq<Som>, dn: string): seq<SomLink> {
    var near := if dn == "" then None else NearestScope(soms, dn, 0);
    var scope := if near.Some? then near
                 else if FirstScope(soms, (s: Som) => s.container == Domain).Some? then
                      FirstScope(soms, (s: Som) => s.container == Domain)
                 else FirstScope(soms, (s: Som) => s.container != Site);
    if scope.None? || scope.value.path == "" || FindSom(soms, scope.value.path).None? then []
    else FindSom(soms, scope.value.path).value.links
  }

  // ----- The chain, by scopes and ancestors alone -----

  /** Scope `i` is no site and lies at the `k`-th component of the name or, for a greater `k`, further up. */
  ghost predicate LiesAt(soms: seq<Som>, dn: string, k: int, i: int) {
    && 0 <= k < |SplitDn(dn)| && 0 <= i < |soms|
    && soms[i].container != Site && Lower(soms[i].path) == Ancestor(dn, k)
  }

  /** Scope `i` is the first at the closest ancestor that has one. */
  ghost predicate NearestAt(soms: seq<Som>, dn: string, k: int, i: int): (b: bool)
    ensures b ==> 0 <= k && 0 <= i < |soms|
  {
    && LiesAt(soms, dn, k, i)
    && (forall j :: j < i ==> !LiesAt(soms, dn, k, j))
    && (forall l, j :: l < k ==> !LiesAt(soms, dn, l, j))
  }

  ghost predicate FirstDomain(soms: seq<Som>, i: int): (b: bool)
    ensures b ==> 0 <= i < |soms|
  {
    0 <= i < |soms| && soms[i].container == Domain && forall j :: 0 <= j < i ==> soms[j].container != Domain
  }

  ghost predicate FirstNonSite(soms: seq<Som>, i: int): (b: bool)
    ensures b ==> 0 <= i < |soms|
  {
    0 <= i < |soms| && soms[i].container != Site && forall j :: 0 <= j < i ==> soms[j].container == Site
  }

  ghost predicate FirstUnder(soms: seq<Som>, path: string, m: int) {
    && 0 <= m < |soms| && Lower(soms[m].path) == Lower(path)
    && forall j :: 0 <= j < m ==> Lower(soms[j].path) != Lower(path)
  }

  /** The links of the first scope with this path, site or not; an empty path leads nowhere. */
  ghost predicate LinksUnder(soms: seq<Som>, path: string, chain: seq<SomLink>) {
    if path == "" then chain == [] else exists m :: FirstUnder(soms, path, m) && chain == soms[m].links
  }

  /**
   The chain of a name: the links under the path of the nearest scope at or above it; if there is none, under that of
   the first domain; if there is none, under that of the first scope that is no site; if there is none, nothing.
   */
  ghost predicate IsChainOf(soms: seq<Som>, dn: string, chain: seq<SomLink>) {
    && (forall k, i :: dn != "" && NearestAt(soms, dn, k, i) ==> LinksUnder(soms, soms[i].path, chain))
    && ((dn == "" || forall k, i :: !LiesAt(soms, dn, k, i)) ==>
          && (forall i :: FirstDomain(soms, i) ==> LinksUnder(soms, soms[i].path, chain))
          && ((forall s :: s in soms ==> s.container != Domain) ==>
                && (forall i :: FirstNonSite(soms, i) ==> LinksUnder(soms, soms[i].path, chain))
                && ((forall s :: s in soms ==> s.container == Site) ==> chain == [])))
  }

  lemma {:induction false} FirstScopeIs(soms: seq<Som>, fits: Som -> bool, i: nat)
    requires i < |soms| && fits(soms[i]) && forall j :: 0 <= j < i ==> !fits(soms[j])
    ensures FirstScope(soms, fits) == Some(soms[i])
  {
    if i > 0 { FirstScopeIs(soms[1..], fits, i - 1); }
  }

  lemma {:induction false} FirstUnderIsFound(soms: seq<Som>, path: string, m: nat)
    requires FirstUnder(soms, path, m)
    ensures FindSom(soms, path) == Some(soms[m])
  {
    hide Lower;
    if m > 0 {
      assert forall j :: 0 <= j < m - 1 ==> soms[1..][j] == soms[j + 1];
      FirstUnderIsFound(soms[1..], path, m - 1);
    }
  }

  lemma {:induction false} SomeFirstUnder(soms: seq<Som>, path: string, i: nat) returns (m: nat)
    requires i < |soms| && Lower(soms[i].path) == Lower(path)
    ensures m <= i && FirstUnder(soms, path, m)
  {
    hide Lower;
    if j :| 0 <= j < i && Lower(soms[j].path) == Lower(path) { m := SomeFirstUnder(soms, path, j); } else { m := i; }
  }

  function LinksFound(soms: seq<Som>, path: string): seq<SomLink> {
    if path == "" || FindSom(soms, path).None? then [] else FindSom(soms, path).value.links
  }

  lemma FoundLinks(soms: seq<Som>, i: nat)
    requires i < |soms|
    ensures LinksUnder(soms, soms[i].path, LinksFound(soms, soms[i].path))
  {
    hide Lower;
    var m := SomeFirstUnder(soms, soms[i].path, i);
    FirstUnderIsFound(soms, soms[i].path, m);
  }

  lemma NothingAt(soms: seq<Som>, dn: string, l: nat)
    requires l < |SplitDn(dn)| && forall j :: !LiesAt(soms, dn, l, j)
    ensures ScopeAt(soms, Ancestor(dn, l)).None?
  {
    hide SplitDn, Ancestor, Lower, FirstScope;
    var fits := (s: Som) => s.container != Site && Lower(s.path) == Ancestor(dn, l);
    forall s | s in soms ensures !fits(s) {
      var j :| 0 <= j < |soms| && soms[j] == s;
      assert !LiesAt(soms, dn, l, j);
    }
  }

  lemma {:induction false} NearestIsFound(soms: seq<Som>, dn: string, l: nat, k: nat, i: nat)
    requires NearestAt(soms, dn, k, i) && l <= k
    ensures l <= |SplitDn(dn)| && NearestScope(soms, dn, l) == Some(soms[i])
    decreases k - l
  {
    hide SplitDn, Ancestor, Lower, FirstScope;
    if l == k {
      var fits := (s: Som) => s.container != Site && Lower(s.path) == Ancestor(dn, l);
      forall j | 0 <= j < i ensures !fits(soms[j]) { assert !LiesAt(soms, dn, k, j); }
      FirstScopeIs(soms, fits, i);
    } else {
      NothingAt(soms, dn, l);
      NearestIsFound(soms, dn, l + 1, k, i);
    }
  }

  lemma {:induction false} NoneIsFound(soms: seq<Som>, dn: string, l: nat)
    requires l <= |SplitDn(dn)| && forall k, i :: !LiesAt(soms, dn, k, i)
    ensures NearestScope(soms, dn, l).None?
    decreases |SplitDn(dn)| - l
  {
    hide SplitDn, Ancestor, Lower, LiesAt;
    if l < |SplitDn(dn)| {
      NothingAt(soms, dn, l);
      NoneIsFound(soms, dn, l + 1);
    }
  }

  lemma ChainForNearest(soms: seq<Som>, dn: string, k: nat, i: nat)
    requires dn != "" && NearestAt(soms, dn, k, i)
    ensures LinksUnder(soms, soms[i].path, ChainFor(soms, dn))
  {
    hide NearestScope, LinksUnder, FirstScope, Lower, FindSom;
    NearestIsFound(soms, dn, 0, k, i);
    FoundLinks(soms, i);
  }

  lemma ChainForFallback(soms: seq<Som>, dn: string)
    requires dn == "" || forall k, i :: !LiesAt(soms, dn, k, i)
    ensures forall i :: FirstDomain(soms, i) ==> LinksUnder(soms, soms[i].path, ChainFor(soms, dn))
    ensures (forall s :: s in soms ==> s.container != Domain) ==>
              && (forall i :: FirstNonSite(soms, i) ==> LinksUnder(soms, soms[i].path, ChainFor(soms, dn)))
              && ((forall s :: s in soms ==> s.container == Site) ==> ChainFor(soms, dn) == [])
  {
    hide NearestScope, LinksUnder, FirstScope, Lower, FindSom, LiesAt;
    if dn != "" { NoneIsFound(soms, dn, 0); }
    var domain, other := (s: Som) => s.container == Domain, (s: Som) => s.container != Site;
    forall i | FirstDomain(soms, i) ensures LinksUnder(soms, soms[i].path, ChainFor(soms, dn)) {
      FirstScopeIs(soms, domain, i);
      FoundLinks(soms, i);
    }
    if forall s :: s in soms ==> s.container != Domain {
      assert FirstScope(soms, domain).None?;
      forall i | FirstNonSite(soms, i) ensures LinksUnder(soms, soms[i].path, ChainFor(soms, dn)) {
        FirstScopeIs(soms, other, i);
        FoundLinks(soms, i);
      }
    }
  }

  lemma ChainForIsChain(soms: seq<Som>, dn: string)
    ensures IsChainOf(soms, dn, ChainFor(soms, dn))
  {
    hide ChainFor, LinksUnder, NearestAt, LiesAt, FirstDomain, FirstNonSite;
    forall k, i | dn != "" && NearestAt(soms, dn, k, i) ensures LinksUnder(soms, soms[i].path, ChainFor(soms, dn)) {
      ChainForNearest(soms, dn, k, i);
    }
    if dn == "" || forall k, i :: !LiesAt(soms, dn, k, i) { ChainForFallback(soms, dn); }
  }

  lemma {:induction false} SomeNearest(soms: seq<Som>, dn: string, k: nat, i: nat) returns (l: nat, j: nat)
    requires LiesAt(soms, dn, k, i)
    ensures NearestAt(soms, dn, l, j)
    decreases k, i
  {
    hide SplitDn, Ancestor, Lower;
    if l', j' :| l' < k && LiesAt(soms, dn, l', j') {
      l, j := SomeNearest(soms, dn, l', j');
    } else if j' :| j' < i && LiesAt(soms, dn, k, j') {
      l, j := SomeNearest(soms, dn, k, j');
    } else {
      l, j := k, i;
    }
  }

  lemma {:induction false} SomeFirst(soms: seq<Som>, i: nat) returns (d: nat, o: nat)
    requires i < |soms|
    ensures soms[i].container == Domain ==> FirstDomain(soms, d)
    ensures soms[i].container != Site ==> FirstNonSite(soms, o)
  {
    if j :| 0 <= j < i && soms[j].container == Domain {
      d, o := SomeFirst(soms, j);
    } else if j :| 0 <= j < i && soms[j].container != Site {
      d, o := SomeFirst(soms, j);
      d := i;
    } else {
      d, o := i, i;
    }
  }

  lemma LinksAreDetermined(soms: seq<Som>, path: string, a: seq<SomLink>, b: seq<SomLink>)
    requires LinksUnder(soms, path, a) && LinksUnder(soms, path, b)
    ensures a == b
  {
    hide Lower;
  }

  /** There is exactly one chain for a name. */
  lemma ChainIsDetermined(soms: seq<Som>, dn: string, a: seq<SomLink>, b: seq<SomLink>)
    requires IsChainOf(soms, dn, a) && IsChainOf(soms, dn, b)
    ensures a == b
  {
    hide SplitDn, Ancestor, Lower, LinksUnder, NearestAt, LiesAt, FirstDomain, FirstNonSite;
    if k: nat, i: nat :| dn != "" && LiesAt(soms, dn, k, i) {
      var l, j := SomeNearest(soms, dn, k, i);
      LinksAreDetermined(soms, soms[j].path, a, b);
    } else {
      LiesWithin(soms, dn);
      if s :| s in soms && s.container == Domain {
        var i :| 0 <= i < |soms| && soms[i] == s;
        var d, o := SomeFirst(soms, i);
        LinksAreDetermined(soms, soms[d].path, a, b);
      } else if s :| s in soms && s.container != Site {
        var i :| 0 <= i < |soms| && soms[i] == s;
        var d, o := SomeFirst(soms, i);
        LinksAreDetermined(soms, soms[o].path, a, b);
      }
    }
  }

  lemma LiesWithin(soms: seq<Som>, dn: string)
    ensures forall k, i :: LiesAt(soms, dn, k, i) ==> 0 <= k && 0 <= i
  {
  }

  method FindScope(soms: seq<Som>, name: string) returns (r: Option<Som>)
    ensures r == ScopeAt(soms, name)
  {
    for k := 0 to |soms|
      invariant ScopeAt(soms, name) == ScopeAt(soms[k..], name)
    {
      if soms[k].container != Site && Lower(soms[k].path) == name { return Some(soms[k]); }
      assert soms[k..][1..] == soms[k + 1..];
    }
    return None;
  }

  /** `_resolve_som_path_for_principal`, followed by the lookup of that scope's resolved links. */
  method ResolveChain(soms: seq<Som>, dn: string) returns (chain: seq<SomLink>)
    ensures chain == ChainFor(soms, dn) && IsChainOf(soms, dn, chain)
  {
    hide SplitDn, FirstScope, Lower, IsChainOf;
    ChainForIsChain(soms, dn);
    var scope: Option<Som> := None;
    if dn != "" {
      var split := SplitDnLoop(dn);
      var parts := StripEach(split);
      for i := 0 to |parts|
        invariant scope.None? && NearestScope(soms, dn, i) == NearestScope(soms, dn, 0)
      {
        scope := FindScope(soms, Lower(Join(parts[i..], ',')));
        if scope.Some? { break; }
      }
    }
    if scope.None? { scope := FirstScope(soms, (s: Som) => s.container == Domain); }
    if scope.None? { scope := FirstScope(soms, (s: Som) => s.container != Site); }
    if scope.None? || scope.value.path == "" { return []; }
    var found := FindSom(soms, scope.value.path);
    return if found.None? then [] else found.value.links;
  }

  // ----- Loopback -----

  function ModesOf(chain: seq<SomLink>, loopback: map<string, Loopback>): set<Loopback> {
    set l | l in chain && l.enabled && l.gpoId in loopback :: loopback[l.gpoId]
  }

  /** The one mode the enabled GPOs of the computer chain agree on; disagreement is mixed. */
  function ActiveLoopback(chain: seq<SomLink>, loopback: map<string, Loopback>): Option<Loopback> {
    var modes := ModesOf(chain, loopback);
    if modes == {} then None
    else if modes == {Replaces} then Some(Replaces)
    else if modes == {Merges} then Some(Merges)
    else if modes == {Undetermined} then Some(Undetermined)
    else Some(Mixed)
  }

  lemma OneModeIsActive(chain: seq<SomLink>, loopback: map<string, Loopback>)
    ensures var modes := ModesOf(chain, loopback);
            && (ActiveLoopback(chain, loopback).None? <==> modes == {})
            && (|modes| == 1
                ==> ActiveLoopback(chain, loopback).Some? && modes == {ActiveLoopback(chain, loopback).value})
            && (|modes| > 1 ==> ActiveLoopback(chain, loopback) == Some(Mixed))
  {
    hide ModesOf;
    var modes := ModesOf(chain, loopback);
    if |modes| == 1 {
      var m :| m in modes;
      assert |modes - {m}| == 0;
      assert modes == {m};
      assert m == Replaces || m == Merges || m == Mixed || m == Undetermined;
    }
  }

  /** The link is enabled, and its GPO configures the mode. */
  ghost predicate Configures(chain: seq<SomLink>, loopback: map<string, Loopback>, link: SomLink, m: Loopback) {
    link in chain && link.enabled && link.gpoId in loopback && loopback[link.gpoId] == m
  }

  /** The mode, link by link: none if no link configures one, the one that all of them configure, or mixed. */
  lemma LoopbackExactly(chain: seq<SomLink>, loopback: map<string, Loopback>)
    ensures (forall l, m :: !Configures(chain, loopback, l, m)) <==> ActiveLoopback(chain, loopback) == None
    ensures forall l, m :: Configures(chain, loopback, l, m)
                           && (forall k, n :: Configures(chain, loopback, k, n) ==> n == m)
              ==> ActiveLoopback(chain, loopback) == Some(m)
    ensures forall k, l, m, n :: Configures(chain, loopback, k, m) && Configures(chain, loopback, l, n) && m != n
              ==> ActiveLoopback(chain, loopback) == Some(Mixed)
  {
    hide ModesOf, Configures;
    var modes := ModesOf(chain, loopback);
    forall m | m in modes ensures exists l :: Configures(chain, loopback, l, m) { ModesAre(chain, loopback, m); }
    forall l, m | Configures(chain, loopback, l, m) ensures m in modes { ModesAre(chain, loopback, m); }
    forall l, m | Configures(chain, loopback, l, m) && (forall k, n :: Configures(chain, loopback, k, n) ==> n == m)
      ensures modes == {m}
    {
    }
  }

  lemma ModesAre(chain: seq<SomLink>, loopback: map<string, Loopback>, m: Loopback)
    ensures m in ModesOf(chain, loopback) <==> exists l :: Configures(chain, loopback, l, m)
  {
    if l :| Configures(chain, loopback, l, m) { assert loopback[l.gpoId] in ModesOf(chain, loopback); }
    if m in ModesOf(chain, loopback) {
      var l :| l in chain && l.enabled && l.gpoId in loopback && loopback[l.gpoId] == m;
      assert Configures(chain, loopback, l, m);
    }
  }

  // ----- Gathering -----

  /** The walks a request makes: user and computer chain, the principal's token and the computer's. */
  datatype Request = Request(side: Side, pair: bool, mode: Option<Loopback>, chain: seq<SomLink>,
                             compChain: seq<SomLink>,
                             own: set<string>, compToken: set<string>)
  {
    /** The token that is checked outside loopback: the principal's and the computer's. */
    function Combined(): set<string> {
      own + compToken
    }
  }

  /** Entries in merge order and exclusions in the order recorded, before repetitions are dropped. */
  function Gather(q: Request, gpos: map<string, Gpo>, names: Names): (seq<ChainEntry>, seq<ExcludedGpo>) {
    if !q.pair then
      var w := CollectAll(Walk([], [], None), Source(q.chain, q.side, q.Combined()), gpos, names);
      (w.entries, w.excluded)
    else if q.mode == Some(Replaces) then
      var u := CollectAll(Walk([], [], None), Source(q.compChain, User, q.compToken), gpos, names);
      var c := CollectAll(Walk([], u.excluded, Some({})), Source(q.compChain, Side.Computer, q.Combined()), gpos,
                          names);
      (u.entries + c.entries, c.excluded)
    else if q.mode == Some(Merges) then
      var u := CollectAll(Walk([], [], Some({})), Source(q.chain, User, q.Combined()), gpos, names);
      var l := CollectAll(Walk([], u.excluded, None), Source(q.compChain, User, q.compToken), gpos, names);
      var c := CollectAll(Walk([], l.excluded, u.seen), Source(q.compChain, Side.Computer, q.Combined()), gpos, names);
      (u.entries + Raised(l.entries, Offset(u.entries)) + c.entries, c.excluded)
    else
      var u := CollectAll(Walk([], [], Some({})), Source(q.chain, User, q.Combined()), gpos, names);
      var c := CollectAll(Walk([], u.excluded, u.seen), Source(q.compChain, Side.Computer, q.Combined()), gpos, names);
      (u.entries + c.entries, c.excluded)
  }

  /** The chain, side and token of each walk; a GPO contributes to the result through one of these only. */
  function Sources(q: Request): seq<Source> {
    if !q.pair then [Source(q.chain, q.side, q.Combined())]
    else if q.mode == Some(Replaces) then
         [Source(q.compChain, User, q.compToken), Source(q.compChain, Side.Computer, q.Combined())]
    else if q.mode == Some(Merges) then
      [Source(q.chain, User, q.Combined()), Source(q.compChain, User, q.compToken),
       Source(q.compChain, Side.Computer, q.Combined())]
    else [Source(q.chain, User, q.Combined()), Source(q.compChain, Side.Computer, q.Combined())]
  }

  /**
   Walk by walk: alone, the principal's chain for its side; in a pair, the computer's chain for the Computer side, the
   user's chain for the User side unless loopback replaces it, and in loopback the computer's chain for the User side,
   with the computer's token alone.
   */
  lemma SourcesExactly(q: Request, src: Source)
    ensures src in Sources(q) <==>
              if !q.pair then src == Source(q.chain, q.side, q.own + q.compToken)
              else
                || src == Source(q.compChain, Side.Computer, q.own + q.compToken)
                || (q.mode != Some(Replaces) && src == Source(q.chain, User, q.own + q.compToken))
                || (q.mode in {Some(Replaces), Some(Merges)} && src == Source(q.compChain, User, q.compToken))
  {
  }

  method GatherEntries(q: Request, gpos: map<string, Gpo>, names: Names)
    returns (entries: seq<ChainEntry>, excluded: seq<ExcludedGpo>)
    ensures (entries, excluded) == Gather(q, gpos, names)
  {
    hide CollectAll, Raised, Offset;
    var seen, more;
    if !q.pair {
      entries, excluded, seen := CollectChainEntries(Source(q.chain, q.side, q.Combined()), gpos, names, [], None);
    } else if q.mode == Some(Replaces) {
      entries, excluded, seen := CollectChainEntries(Source(q.compChain, User, q.compToken), gpos, names, [], None);
      more, excluded, seen :=
        CollectChainEntries(Source(q.compChain, Side.Computer, q.Combined()), gpos, names, excluded, Some({}));
      entries := entries + more;
    } else if q.mode == Some(Merges) {
      entries, excluded, seen := CollectChainEntries(Source(q.chain, User, q.Combined()), gpos, names, [], Some({}));
      var lifted, unshared;
      lifted, excluded, unshared :=
        CollectChainEntries(Source(q.compChain, User, q.compToken), gpos, names, excluded, None);
      entries := entries + Raised(lifted, Offset(entries));
      more, excluded, seen :=
        CollectChainEntries(Source(q.compChain, Side.Computer, q.Combined()), gpos, names, excluded, seen);
      entries := entries + more;
    } else {
      entries, excluded, seen := CollectChainEntries(Source(q.chain, User, q.Combined()), gpos, names, [], Some({}));
      more, excluded, seen :=
        CollectChainEntries(Source(q.compChain, Side.Computer, q.Combined()), gpos, names, excluded, seen);
      entries := entries + more;
    }
  }

  // ----- Dropping repeated exclusions -----

  function ExclusionKey(x: ExcludedGpo): (string, bool, Side) {
    (x.gpoId, x.reason.WmiFilter?, x.side)
  }

  /** The first exclusion of each key, in the order recorded. */
  function FirstOfEach(excluded: seq<ExcludedGpo>): seq<ExcludedGpo> {
    if excluded == [] then []
    else
      var kept, last := FirstOfEach(excluded[..|excluded| - 1]), excluded[|excluded| - 1];
      if ExclusionKey(last) in Image(ExclusionKey, kept) then kept else kept + [last]
  }

  /** Its key does not occur among the exclusions recorded before it. */
  ghost predicate IsFirst(excluded: seq<ExcludedGpo>, x: ExcludedGpo) {
    exists i :: 0 <= i < |excluded| && excluded[i] == x && ExclusionKey(x) !in Image(ExclusionKey, excluded[..i])
  }

  lemma KeysSnoc(excluded: seq<ExcludedGpo>, x: ExcludedGpo)
    ensures Image(ExclusionKey, excluded + [x]) == Image(ExclusionKey, excluded) + [ExclusionKey(x)]
  {
  }

  lemma FirstSnoc(excluded: seq<ExcludedGpo>, last: ExcludedGpo, x: ExcludedGpo)
    ensures IsFirst(excluded + [last], x) <==>
              IsFirst(excluded, x) || (x == last && ExclusionKey(last) !in Image(ExclusionKey, excluded))
  {
    hide ExclusionKey;
    var all := excluded + [last];
    forall i | 0 <= i <= |excluded| ensures all[..i] == excluded[..i] { }
    assert excluded[..|excluded|] == excluded;
    if IsFirst(excluded, x) {
      var i :| 0 <= i < |excluded| && excluded[i] == x && ExclusionKey(x) !in Image(ExclusionKey, excluded[..i]);
      assert all[i] == x;
    }
    if x == last && ExclusionKey(last) !in Image(ExclusionKey, excluded) { assert all[|excluded|] == x; }
  }

  /** Kept are exactly the exclusions whose key is new when they are recorded; every key is kept, and kept once. */
  lemma {:induction false} FirstsAreKept(excluded: seq<ExcludedGpo>)
    ensures forall x :: x in FirstOfEach(excluded) <==> IsFirst(excluded, x)
    ensures forall k :: k in Image(ExclusionKey, FirstOfEach(excluded)) <==> k in Image(ExclusionKey, excluded)
    ensures WithoutRepeats(Image(ExclusionKey, FirstOfEach(excluded)))
  {
    hide ExclusionKey, IsFirst;
    if excluded == [] {
      NothingIsFirst();
    } else {
      var rest, last := excluded[..|excluded| - 1], excluded[|excluded| - 1];
      assert excluded == rest + [last];
      FirstsAreKept(rest);
      KeysSnoc(rest, last);
      KeysSnoc(FirstOfEach(rest), last);
      forall x ensures x in FirstOfEach(excluded) <==> IsFirst(excluded, x) { FirstSnoc(rest, last, x); }
    }
  }

  /** What is recorded later is listed later. */
  lemma {:induction false} KeptInOrder(excluded: seq<ExcludedGpo>, n: nat)
    requires n <= |excluded|
    ensures FirstOfEach(excluded[..n]) <= FirstOfEach(excluded)
  {
    hide ExclusionKey;
    if n == |excluded| {
      assert excluded[..n] == excluded;
    } else {
      assert excluded[..|excluded| - 1][..n] == excluded[..n];
      KeptInOrder(excluded[..|excluded| - 1], n);
    }
  }

  lemma NothingIsFirst()
    ensures forall x :: !IsFirst([], x)
  {
  }

  method Deduplicated(excluded: seq<ExcludedGpo>) returns (kept: seq<ExcludedGpo>)
    ensures kept == FirstOfEach(excluded)
  {
    hide ExclusionKey;
    kept := [];
    var seen: set<(string, bool, Side)> := {};
    for i := 0 to |excluded|
      invariant kept == FirstOfEach(excluded[..i])
      invariant forall k :: k in seen <==> k in Image(ExclusionKey, kept)
    {
      assert excluded[..i + 1][..i] == excluded[..i];
      var key := ExclusionKey(excluded[i]);
      if key !in seen {
        assert Image(ExclusionKey, kept + [excluded[i]]) == Image(ExclusionKey, kept) + [key];
        seen := seen + {key};
        kept := kept + [excluded[i]];
      }
    }
    assert excluded[..|excluded|] == excluded;
  }

  // ----- The whole -----

  datatype Policy = Policy(settings: Settings, withheld: Buckets, excluded: seq<ExcludedGpo>,
                           loopback: Option<Loopback>, caveats: seq<string>)

  /** The source reads the computer's token although an empty computer identifier never built one. */
  datatype Error = UnboundComputerToken

  ghost predicate IsTokenOf(dir: Directory, principal: string, token: set<string>) {
    LeastClosed(dir.groups, Seeds(dir, Lower(Strip(principal))), token)
  }

  predicate IsPair(inv: Inventory, principal: string, computer: Option<string>) {
    computer.Some? && !IsComputer(inv.directory, Lower(Strip(principal)))
  }

  /** The request's tokens, chains and loopback mode are those of the principal, and of the computer if there is one. */
  ghost predicate Requests(inv: Inventory, principal: string, computer: Option<string>, dn: string,
                           computerDn: Option<string>,
                           q: Request) {
    && q.side == (if IsComputer(inv.directory, Lower(Strip(principal))) then Side.Computer else User)
    && q.pair == IsPair(inv, principal, computer)
    && IsChainOf(inv.topology.soms, dn, q.chain)
    && (if q.pair then IsChainOf(inv.topology.soms, if computerDn.Some? then computerDn.value else dn, q.compChain)
        else q.compChain == [])
    && q.mode == (if q.pair then ActiveLoopback(q.compChain, inv.loopback) else None)
    && (if computer.Some?
        && computer.value != "" then IsTokenOf(inv.directory, computer.value, q.compToken) else q.compToken == {})
    && IsTokenOf(inv.directory, principal, q.own)
  }

  /** The policy merges what the request gathers and lists its exclusions, for a pair without repetitions. */
  ghost predicate Delivers(inv: Inventory, names: Names, q: Request, p: Policy) {
    var (entries, excluded) := Gather(q, inv.topology.gpos, names);
    && IsMergeOf(entries, inv.ilt, p.settings, p.withheld)
    && p.excluded == (if q.pair then FirstOfEach(excluded) else excluded)
    && p.loopback == q.mode
  }

  /** Each identifier of the principal's token that nothing explains is mentioned once. */
  ghost predicate Caveats(inv: Inventory, sid: string, q: Request, caveats: seq<string>) {
    WithoutRepeats(caveats) && forall x :: x in caveats <==> x in q.own && Unexplained(inv.directory, sid, x)
  }

  /** `principal_resultant`. */
  method PrincipalResultant(inv: Inventory, principal: string, computer: Option<string>, dn: string,
                            computerDn: Option<string>)
    returns (r: Result<Policy, Error>)
    ensures r.Err? <==> IsPair(inv, principal, computer) && computer == Some("")
    ensures r.Ok? ==> exists q :: Requests(inv, principal, computer, dn, computerDn, q)
                                  && Delivers(inv, NamesFor(inv, Lower(Strip(principal))), q, r.value)
                                  && Caveats(inv, Lower(Strip(principal)), q, r.value.caveats)
  {
    hide ChainFor, IsChainOf, LeastClosed, Unexplained, IsMergeOf, FirstOfEach, Gather, NamesFor, ActiveLoopback,
         KindOf, Seeds, Strip, Lower;
    var sid := Lower(Strip(principal));
    var own, caveats := BuildToken(inv.directory, principal);
    LowerStripTwice(principal);
    var compToken: set<string> := {};
    if computer.Some? && computer.value != "" {
      var unused;
      compToken, unused := BuildToken(inv.directory, computer.value);
    }
    var names := NamesOf(inv, sid);
    var chain := ResolveChain(inv.topology.soms, dn);
    var side := if IsComputer(inv.directory, sid) then Side.Computer else User;
    var pair := computer.Some? && side == User;
    var compChain: seq<SomLink>, mode: Option<Loopback> := [], None;
    if pair {
      if computer.value == "" { return Err(UnboundComputerToken); }
      compChain := ResolveChain(inv.topology.soms, if computerDn.Some? then computerDn.value else dn);
      mode := ActiveLoopback(compChain, inv.loopback);
    }
    var q := Request(side, pair, mode, chain, compChain, own, compToken);
    var entries, excluded := GatherEntries(q, inv.topology.gpos, names);
    ghost var recorded := excluded;
    if pair { excluded := Deduplicated(excluded); }
    var settings, withheld := MergeSettings(entries, inv.ilt);
    r := Ok(Policy(settings, withheld, excluded, mode, caveats));
    assert Requests(inv, principal, computer, dn, computerDn, q);
    assert Gather(q, inv.topology.gpos, names) == (entries, recorded);
    assert Delivers(inv, names, q, r.value);
  }

  lemma LowerStripTwice(s: string)
    ensures Lower(Strip(Lower(Strip(s)))) == Lower(Strip(s))
  {
    StripTrims(s);
    TrimmedStrips(Lower(Strip(s)));
    LowerIdempotent(Strip(s));
  }

  method NamesOf(inv: Inventory, sid: string) returns (names: Names)
    ensures names == NamesFor(inv, sid)
  {
    hide NameMap, DomainSidFrom;
    var byName := BuildNameToSidMap(inv.directory);
    var sids := CollectedSids(inv.directory);
    for i := 0 to |sids|
      invariant EstateDomainSid(sids) == EstateDomainSid(sids[i..])
    {
      assert sids[i..][1..] == sids[i + 1..];
      if DomainSidFrom(sids[i]).Some? { return Names(byName, DomainSidFrom(sids[i])); }
    }
    return Names(byName, DomainSidFrom(sid));
  }
}
