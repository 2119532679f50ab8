/** The security filter: whether a token may read and apply a GPO. */
module Gate {
  import opened Estate
  import opened Prelude
  import opened Sddl
  import opened SddlParser
  import opened SddlRoundTrip
  import opened Sids
  import opened Text

  const READ_IMPLYING: set<string> := {"read", "apply group policy", "full control"}

  const APPLY_RIGHTS: set<string> := {"GA", "CR"}

  const READ_OR_APPLY_RIGHTS: set<string> := {"GA", "GR", "CR", "RP"}

  predicate ImpliesApply(permission: string) {
    var p := Lower(Strip(permission));
    p == "apply group policy" || p == "full control"
  }

  predicate ImpliesRead(permission: string) {
    var p := Lower(Strip(permission));
    p in READ_IMPLYING || "edit " <= p || "edit," <= p
  }

  /** Names to identifiers, and the domain that domain-relative ones need. */
  datatype Names = Names(byName: map<string, string>, domainSid: Option<string>)

  function Expand(sid: string, names: Names): string {
    if sid == "" || sid[0] != '-' then sid
    else match names.domainSid
         case None => ""
         case Some(domain) => domain + sid
  }

  /** The trustee's identifier, or nothing if it cannot be told. */
  function TrusteeOf(e: DelegationEntry, names: Names): string {
    var sid := Lower(Strip(e.trusteeSid));
    var named := Lower(e.trustee);
    Expand(if sid == "" && e.trustee != "" then (if named in names.byName then names.byName[named] else "") else sid,
           names)
  }

  /** An entry that counts: it allows applying, or denies reading, to a known trustee. */
  predicate Counts(e: DelegationEntry, names: Names) {
    (if e.allowed then ImpliesApply(e.permission) else ImpliesRead(e.permission)) && TrusteeOf(e, names) != ""
  }

  function DelegatedTo(delegation: seq<DelegationEntry>, names: Names, allowed: bool): set<string> {
    set e | e in delegation && e.allowed == allowed && Counts(e, names) :: TrusteeOf(e, names)
  }

  predicate IsAllow(kind: AceType) {
    kind.Allow? || kind.ObjectAllow?
  }

  predicate IsDeny(kind: AceType) {
    kind.Deny? || kind.ObjectDeny?
  }

  predicate OfSort(kind: AceType, deny: bool) {
    if deny then IsDeny(kind) else IsAllow(kind)
  }

  function Codes(rights: string): set<string> {
    set r | r in ParseRights(rights)
  }

  /** Everything the ACEs of one sort say about the trustee. */
  function RightsFor(aces: seq<Ace>, sid: string, deny: bool, domainSid: Option<string>): set<string> {
    set a, r | a in aces && OfSort(a.kind, deny) && Canonical(a.trustee, domainSid) == sid
               && r in Codes(a.rights) :: r
  }

  function AclAllows(aces: seq<Ace>, domainSid: Option<string>): set<string> {
    set a | a in aces && IsAllow(a.kind) && Canonical(a.trustee, domainSid) != ""
            && (RightsFor(aces, Canonical(a.trustee, domainSid), false, domainSid)
                - RightsFor(aces, Canonical(a.trustee, domainSid), true, domainSid)) * APPLY_RIGHTS != {}
      :: Canonical(a.trustee, domainSid)
  }

  function AclDenies(aces: seq<Ace>, domainSid: Option<string>): set<string> {
    set a | a in aces && IsDeny(a.kind) && Canonical(a.trustee, domainSid) != ""
            && RightsFor(aces, Canonical(a.trustee, domainSid), true, domainSid) * READ_OR_APPLY_RIGHTS != {}
      :: Canonical(a.trustee, domainSid)
  }

  /** The trustees with a net allow and those with a deny; the descriptor speaks only when nothing is delegated. */
  function Trustees(gpo: Gpo, names: Names): (set<string>, set<string>) {
    if gpo.delegation != [] then (DelegatedTo(gpo.delegation, names, true), DelegatedTo(gpo.delegation, names, false))
    else if gpo.sddl != "" then
      var aces := ParseSddl(gpo.sddl).dacl;
      (AclAllows(aces, names.domainSid), AclDenies(aces, names.domainSid))
    else ({}, {})
  }

  datatype Verdict = Passes | Unfiltered | DeniedTo | NobodyAllowed | NotAllowed

  function Judge(gpo: Gpo, allow: set<string>, deny: set<string>, token: set<string>): Verdict {
    if deny * token != {} then DeniedTo
    else if allow == {} then (if gpo.delegation != [] || gpo.sddl != "" then NobodyAllowed else Unfiltered)
    else if allow * token != {} then Passes
    else NotAllowed
  }

  function Evaluate(gpo: Gpo, token: set<string>, names: Names): Verdict {
    var t := Trustees(gpo, names);
    Judge(gpo, t.0, t.1, token)
  }

  predicate Lets(gpo: Gpo, token: set<string>, names: Names) {
    Evaluate(gpo, token, names).Passes? || Evaluate(gpo, token, names).Unfiltered?
  }

  // ----- The loops -----

  type RightsBySid = map<string, set<string>>

  function RightsAt(rights: RightsBySid, sid: string): set<string> {
    if sid in rights then rights[sid] else {}
  }

  predicate NamesTrustee(aces: seq<Ace>, sid: string, deny: bool, domainSid: Option<string>) {
    exists a :: a in aces && OfSort(a.kind, deny) && Canonical(a.trustee, domainSid) == sid
  }

  /** Both dictionaries of the descriptor path after some ACEs. */
  ghost predicate RightsTally(aces: seq<Ace>, domainSid: Option<string>, deny: bool, rights: RightsBySid) {
    && (forall sid :: sid != "" ==> RightsAt(rights, sid) == RightsFor(aces, sid, deny, domainSid))
    && (forall sid :: sid in rights <==> sid != "" && NamesTrustee(aces, sid, deny, domainSid))
  }

  lemma TallyUp(aces: seq<Ace>, i: nat, domainSid: Option<string>, deny: bool, rights: RightsBySid)
    requires i < |aces| && RightsTally(aces[..i], domainSid, deny, rights)
    ensures var a, sid := aces[i], Canonical(aces[i].trustee, domainSid);
            RightsTally(aces[..i + 1], domainSid, deny,
                        if sid != "" && OfSort(a.kind, deny) then rights[sid := RightsAt(rights, sid) + Codes(a.rights)]
                        else rights)
  {
    hide Canonical, Codes, IsAllow, IsDeny, RightsFor, NamesTrustee, OfSort;
    forall sid
      ensures RightsFor(aces[..i + 1], sid, deny, domainSid)
              == RightsFor(aces[..i], sid, deny, domainSid)
              + if OfSort(aces[i].kind, deny) && Canonical(aces[i].trustee, domainSid) == sid
                then Codes(aces[i].rights) else {}
      ensures NamesTrustee(aces[..i + 1], sid, deny, domainSid)
              <==> NamesTrustee(aces[..i], sid, deny, domainSid)
                   || (OfSort(aces[i].kind, deny) && Canonical(aces[i].trustee, domainSid) == sid)
    {
      RightsForGrows(aces, i, sid, deny, domainSid);
    }
  }

  lemma RightsForGrows(aces: seq<Ace>, i: nat, sid: string, deny: bool, domainSid: Option<string>)
    requires i < |aces|
    ensures RightsFor(aces[..i + 1], sid, deny, domainSid)
            == RightsFor(aces[..i], sid, deny, domainSid)
            + if OfSort(aces[i].kind, deny) && Canonical(aces[i].trustee, domainSid) == sid
              then Codes(aces[i].rights) else {}
    ensures NamesTrustee(aces[..i + 1], sid, deny, domainSid)
            <==> NamesTrustee(aces[..i], sid, deny, domainSid)
                   || (OfSort(aces[i].kind, deny) && Canonical(aces[i].trustee, domainSid) == sid)
  {
    hide Canonical, Codes, OfSort;
    assert aces[..i + 1] == aces[..i] + [aces[i]];
  }

  lemma TallyNothing(domainSid: Option<string>, deny: bool)
    ensures RightsTally([], domainSid, deny, map[])
  {
  }

  /** `_gpo_apply_trustee_sids`. */
  method ApplyTrusteeSids(gpo: Gpo, names: Names) returns (allow: set<string>, deny: set<string>)
    ensures (allow, deny) == Trustees(gpo, names)
  {
    hide ParseSddl, Canonical, Codes, Counts, TrusteeOf, RightsFor;
    allow, deny := {}, {};
    for i := 0 to |gpo.delegation|
      invariant allow == DelegatedTo(gpo.delegation[..i], names, true)
      invariant deny == DelegatedTo(gpo.delegation[..i], names, false)
    {
      var e := gpo.delegation[i];
      assert gpo.delegation[..i + 1] == gpo.delegation[..i] + [e];
      if Counts(e, names) {
        if e.allowed { allow := allow + {TrusteeOf(e, names)}; } else { deny := deny + {TrusteeOf(e, names)}; }
      }
    }
    assert gpo.delegation[..|gpo.delegation|] == gpo.delegation;
    if gpo.delegation == [] && gpo.sddl != "" {
      var acl := ParseDescriptor(gpo.sddl);
      allow, deny := DescriptorTrustees(acl.dacl, names.domainSid);
    }
  }

  method DescriptorTrustees(aces: seq<Ace>, domainSid: Option<string>) returns (allow: set<string>, deny: set<string>)
    ensures allow == AclAllows(aces, domainSid) && deny == AclDenies(aces, domainSid)
  {
    hide Canonical, Codes, RightsFor, RightsTally;
    var allowRights, denyRights: RightsBySid := map[], map[];
    TallyNothing(domainSid, false);
    TallyNothing(domainSid, true);
    assert aces[..0] == [];
    for i := 0 to |aces|
      invariant RightsTally(aces[..i], domainSid, false, allowRights)
                && RightsTally(aces[..i], domainSid, true, denyRights)
    {
      TallyUp(aces, i, domainSid, false, allowRights);
      TallyUp(aces, i, domainSid, true, denyRights);
      var sid := Canonical(aces[i].trustee, domainSid);
      if sid == "" { continue; }
      if IsAllow(aces[i].kind) {
        allowRights := allowRights[sid := RightsAt(allowRights, sid) + Codes(aces[i].rights)];
      } else if IsDeny(aces[i].kind) {
        denyRights := denyRights[sid := RightsAt(denyRights, sid) + Codes(aces[i].rights)];
      }
    }
    assert aces[..|aces|] == aces;
    allow := set sid | sid in allowRights && (allowRights[sid] - RightsAt(denyRights, sid)) * APPLY_RIGHTS != {};
    deny := set sid | sid in denyRights && denyRights[sid] * READ_OR_APPLY_RIGHTS != {};
    TalliedTrustees(aces, domainSid, allowRights, denyRights);
  }

  lemma TalliedTrustees(aces: seq<Ace>, domainSid: Option<string>, allowRights: RightsBySid, denyRights: RightsBySid)
    requires RightsTally(aces, domainSid, false, allowRights) && RightsTally(aces, domainSid, true, denyRights)
    ensures (set sid | sid in allowRights && (allowRights[sid] - RightsAt(denyRights, sid)) * APPLY_RIGHTS != {})
            == AclAllows(aces, domainSid)
    ensures (set sid | sid in denyRights && denyRights[sid] * READ_OR_APPLY_RIGHTS != {}) == AclDenies(aces, domainSid)
  {
    hide Canonical, Codes, RightsFor, IsAllow, IsDeny, APPLY_RIGHTS, READ_OR_APPLY_RIGHTS;
    forall sid | sid in allowRights
      ensures allowRights[sid] == RightsFor(aces, sid, false, domainSid)
      ensures RightsAt(denyRights, sid) == RightsFor(aces, sid, true, domainSid)
    {
      assert RightsAt(allowRights, sid) == allowRights[sid];
    }
    forall sid | sid in denyRights ensures denyRights[sid] == RightsFor(aces, sid, true, domainSid) {
      assert RightsAt(denyRights, sid) == denyRights[sid];
    }
  }

  /** `_evaluate_security_gate`: a deny in the token decides before any allow. */
  method EvaluateSecurityGate(gpo: Gpo, token: set<string>, names: Names) returns (verdict: Verdict)
    ensures verdict == Evaluate(gpo, token, names)
  {
    hide Trustees;
    var allow, deny := ApplyTrusteeSids(gpo, names);
    verdict := Judge(gpo, allow, deny, token);
  }

  // ----- What the verdict means -----

  /** An entry of this sort whose permission, trimmed and in lower case, counts for its sort: applying or reading. */
  ghost predicate Grants(e: DelegationEntry, allowed: bool) {
    var p := Lower(Strip(e.permission));
    && e.allowed == allowed
    && if allowed then p == "apply group policy" || p == "full control"
       else p == "read" || p == "apply group policy" || p == "full control" || "edit " <= p || "edit," <= p
  }

  /** Such an entry, and its trustee is known and in the token. */
  ghost predicate Speaks(e: DelegationEntry, token: set<string>, names: Names, allowed: bool) {
    Grants(e, allowed) && TrusteeOf(e, names) != "" && TrusteeOf(e, names) in token
  }

  lemma CountsMeans(e: DelegationEntry, names: Names, allowed: bool)
    ensures e.allowed == allowed && Counts(e, names) <==> Grants(e, allowed) && TrusteeOf(e, names) != ""
  {
    hide TrusteeOf, Lower, Strip;
  }

  /** Where an identifier that may be relative leads. */
  ghost predicate LeadsTo(raw: string, names: Names, sid: string) {
    if raw == "" || raw[0] != '-' then sid == raw
    else sid == if names.domainSid.Some? then names.domainSid.value + raw else ""
  }

  /** An entry's own identifier counts; only without one its name is looked up, in lower case. */
  lemma TrusteeExactly(e: DelegationEntry, names: Names)
    ensures var own, name := Lower(Strip(e.trusteeSid)), Lower(e.trustee);
            && (own != "" ==> LeadsTo(own, names, TrusteeOf(e, names)))
            && (own == "" && e.trustee != "" && name in names.byName
                ==> LeadsTo(names.byName[name], names, TrusteeOf(e, names)))
            && (own == "" && (e.trustee == "" || name !in names.byName) ==> TrusteeOf(e, names) == "")
  {
    hide Lower, Strip;
  }

  /**
   With delegation data the gate opens iff some entry that allows applying names the token and no entry that denies
   reading does.
   */
  lemma DelegationVerdict(gpo: Gpo, token: set<string>, names: Names)
    requires gpo.delegation != []
    ensures Lets(gpo, token, names) <==>
              && (exists e :: e in gpo.delegation && Speaks(e, token, names, true))
              && !(exists e :: e in gpo.delegation && Speaks(e, token, names, false))
  {
    hide Counts, TrusteeOf, Grants;
    var allow, deny := DelegatedTo(gpo.delegation, names, true), DelegatedTo(gpo.delegation, names, false);
    forall e: DelegationEntry, allowed: bool
      ensures e.allowed == allowed && Counts(e, names) <==> Grants(e, allowed) && TrusteeOf(e, names) != ""
    {
      CountsMeans(e, names, allowed);
    }
    forall allowed: bool
      ensures DelegatedTo(gpo.delegation, names, allowed) * token != {}
              <==> exists e :: e in gpo.delegation && Speaks(e, token, names, allowed)
    {
      var s := DelegatedTo(gpo.delegation, names, allowed);
      if x :| x in s * token {
        var e :| e in gpo.delegation && e.allowed == allowed && Counts(e, names) && TrusteeOf(e, names) == x;
        assert Speaks(e, token, names, allowed);
      }
      if e :| e in gpo.delegation && Speaks(e, token, names, allowed) { assert TrusteeOf(e, names) in s * token; }
    }
  }

  /** What the verdict says besides: denied first, then no one allowed at all, then allowed but not this token. */
  lemma DelegationReason(gpo: Gpo, token: set<string>, names: Names)
    requires gpo.delegation != []
    ensures var v := Evaluate(gpo, token, names);
            var denied := exists e :: e in gpo.delegation && Speaks(e, token, names, false);
            var someone := exists e :: e in gpo.delegation && Grants(e, true) && TrusteeOf(e, names) != "";
            && (v == DeniedTo <==> denied)
            && (v == NobodyAllowed <==> !denied && !someone)
            && v != Unfiltered
  {
    hide Counts, TrusteeOf, Grants, Lets;
    DelegationVerdict(gpo, token, names);
    var allow, deny := DelegatedTo(gpo.delegation, names, true), DelegatedTo(gpo.delegation, names, false);
    forall e: DelegationEntry, allowed: bool
      ensures e.allowed == allowed && Counts(e, names) <==> Grants(e, allowed) && TrusteeOf(e, names) != ""
    {
      CountsMeans(e, names, allowed);
    }
    if e :| e in gpo.delegation && Grants(e, true) && TrusteeOf(e, names) != "" { assert TrusteeOf(e, names) in allow; }
    if x :| x in deny * token {
      var e :| e in gpo.delegation && !e.allowed && Counts(e, names) && TrusteeOf(e, names) == x;
      assert Speaks(e, token, names, false);
    }
    if e :| e in gpo.delegation && Speaks(e, token, names, false) { assert TrusteeOf(e, names) in deny * token; }
  }

  /** Permissions to read or edit alone, however many, admit nobody. */
  lemma ReadingAdmitsNobody(gpo: Gpo, token: set<string>, names: Names)
    requires gpo.delegation != []
    requires forall e :: e in gpo.delegation && e.allowed ==>
               var p := Lower(Strip(e.permission)); p == "read" || "edit " <= p || "edit," <= p
    ensures !Lets(gpo, token, names)
  {
    hide TrusteeOf, Lower, Strip;
    forall e | e in gpo.delegation ensures !Grants(e, true) {
      if e.allowed { ReadingIsNotApplying(Lower(Strip(e.permission))); }
    }
    DelegationVerdict(gpo, token, names);
  }

  lemma ReadingIsNotApplying(p: string)
    requires p == "read" || "edit " <= p || "edit," <= p
    ensures p != "apply group policy" && p != "full control"
  {
    assert p[0] == 'r' || p[0] == 'e';
    assert "apply group policy"[0] == 'a' && "full control"[0] == 'f';
  }

  /** A denied Read closes the gate to its trustee, whatever is allowed. */
  lemma DeniedReadCloses(gpo: Gpo, token: set<string>, names: Names, e: DelegationEntry)
    requires e in gpo.delegation && !e.allowed && Lower(Strip(e.permission)) == "read"
    requires TrusteeOf(e, names) != "" && TrusteeOf(e, names) in token
    ensures !Lets(gpo, token, names)
  {
    hide TrusteeOf, Lower, Strip;
    DelegationVerdict(gpo, token, names);
    assert Speaks(e, token, names, false);
  }

  /**
   The ACEs allow a trustee of the token to apply: one of them allows it generic all access or control access, and none
   denies it that same right.
   */
  ghost predicate Applies(aces: seq<Ace>, token: set<string>, d: Option<string>, sid: string, r: string) {
    && sid in token && sid != "" && (r == "GA" || r == "CR")
    && (exists a :: a in aces && (a.kind.Allow? || a.kind.ObjectAllow?) && Gives(a, d, sid, r))
    && (forall a :: a in aces && (a.kind.Deny? || a.kind.ObjectDeny?) ==> !Gives(a, d, sid, r))
  }

  /** The ACE is about the trustee and the right. */
  ghost predicate Gives(a: Ace, d: Option<string>, sid: string, r: string) {
    Canonical(a.trustee, d) == sid && r in ParseRights(a.rights)
  }

  /** The ACEs deny a trustee of the token reading or applying. */
  ghost predicate Denies(aces: seq<Ace>, token: set<string>, d: Option<string>, sid: string, r: string) {
    && sid in token && sid != "" && (r == "GA" || r == "GR" || r == "CR" || r == "RP")
    && exists a :: a in aces && (a.kind.Deny? || a.kind.ObjectDeny?) && Gives(a, d, sid, r)
  }

  lemma RightsForMeans(aces: seq<Ace>, sid: string, deny: bool, d: Option<string>, r: string)
    ensures r in RightsFor(aces, sid, deny, d) <==> exists a :: a in aces && OfSort(a.kind, deny) && Gives(a, d, sid, r)
  {
    hide Canonical, ParseRights, OfSort;
    if a :| a in aces && OfSort(a.kind, deny) && Gives(a, d, sid, r) { assert r in Codes(a.rights); }
    if r in RightsFor(aces, sid, deny, d) {
      var a :| a in aces && OfSort(a.kind, deny) && Canonical(a.trustee, d) == sid && r in Codes(a.rights);
      assert Gives(a, d, sid, r);
    }
  }

  lemma AppliesMeans(aces: seq<Ace>, token: set<string>, d: Option<string>, sid: string, r: string)
    ensures Applies(aces, token, d, sid, r) <==>
              && sid in token && sid != "" && r in APPLY_RIGHTS
              && r in RightsFor(aces, sid, false, d) && r !in RightsFor(aces, sid, true, d)
    ensures Denies(aces, token, d, sid, r) <==>
              sid in token && sid != "" && r in READ_OR_APPLY_RIGHTS && r in RightsFor(aces, sid, true, d)
  {
    hide RightsFor, Gives;
    RightsForMeans(aces, sid, false, d, r);
    RightsForMeans(aces, sid, true, d, r);
  }

  /**
   With a descriptor alone the gate opens iff some trustee of the token is allowed an applying right that no ACE denies
   it, and no trustee of the token is denied any reading or applying right.
   */
  lemma DescriptorVerdict(gpo: Gpo, token: set<string>, names: Names)
    requires gpo.delegation == [] && gpo.sddl != ""
    ensures var aces, d := ParseSddl(gpo.sddl).dacl, names.domainSid;
            Lets(gpo, token, names) <==>
              && (exists sid, r :: Applies(aces, token, d, sid, r))
              && !(exists sid, r :: Denies(aces, token, d, sid, r))
  {
    hide ParseSddl, APPLY_RIGHTS, READ_OR_APPLY_RIGHTS, Applies, Denies;
    DescriptorSets(ParseSddl(gpo.sddl).dacl, names.domainSid, token);
  }

  lemma DescriptorSets(aces: seq<Ace>, d: Option<string>, token: set<string>)
    ensures AclAllows(aces, d) * token != {} <==>
              exists sid, r :: Applies(aces, token, d, sid, r)
    ensures AclDenies(aces, d) * token != {} <==>
              exists sid, r :: Denies(aces, token, d, sid, r)
  {
    hide Canonical, Codes, IsAllow, IsDeny, APPLY_RIGHTS, READ_OR_APPLY_RIGHTS, Applies, Denies;
    if x :| x in AclAllows(aces, d) * token {
      var r :| r in (RightsFor(aces, x, false, d) - RightsFor(aces, x, true, d)) * APPLY_RIGHTS;
      AppliesMeans(aces, token, d, x, r);
    }
    if sid, r :| Applies(aces, token, d, sid, r) {
      AppliesMeans(aces, token, d, sid, r);
      var a :| a in aces && IsAllow(a.kind) && Canonical(a.trustee, d) == sid && r in Codes(a.rights);
      assert r in (RightsFor(aces, sid, false, d) - RightsFor(aces, sid, true, d)) * APPLY_RIGHTS;
      assert sid in AclAllows(aces, d) * token;
    }
    if x :| x in AclDenies(aces, d) * token {
      var r :| r in RightsFor(aces, x, true, d) * READ_OR_APPLY_RIGHTS;
      AppliesMeans(aces, token, d, x, r);
    }
    if sid, r :| Denies(aces, token, d, sid, r) {
      AppliesMeans(aces, token, d, sid, r);
      var a :| a in aces && IsDeny(a.kind) && Canonical(a.trustee, d) == sid && r in Codes(a.rights);
      assert r in RightsFor(aces, sid, true, d) * READ_OR_APPLY_RIGHTS;
      assert sid in AclDenies(aces, d) * token;
    }
  }

  // ----- Laws -----

  /** The verdict depends neither on the order nor on repetitions of delegation entries or ACEs. */
  lemma OrderDoesNotMatter(g: Gpo, h: Gpo, token: set<string>, names: Names)
    requires forall e :: e in g.delegation <==> e in h.delegation
    requires g.sddl == "" <==> h.sddl == ""
    requires forall a :: a in ParseSddl(g.sddl).dacl <==> a in ParseSddl(h.sddl).dacl
    ensures Evaluate(g, token, names) == Evaluate(h, token, names)
  {
    hide ParseSddl, Canonical, Codes, Counts, TrusteeOf, APPLY_RIGHTS, READ_OR_APPLY_RIGHTS, IsAllow, IsDeny;
    if h.delegation != [] { assert h.delegation[0] in g.delegation; }
    if g.delegation != [] {
      assert g.delegation[0] in h.delegation;
      assert DelegatedTo(g.delegation, names, true) == DelegatedTo(h.delegation, names, true);
      assert DelegatedTo(g.delegation, names, false) == DelegatedTo(h.delegation, names, false);
    } else {
      SameAces(ParseSddl(g.sddl).dacl, ParseSddl(h.sddl).dacl, names.domainSid);
    }
  }

  lemma SameAces(a: seq<Ace>, b: seq<Ace>, d: Option<string>)
    requires forall x :: x in a <==> x in b
    ensures AclAllows(a, d) == AclAllows(b, d) && AclDenies(a, d) == AclDenies(b, d)
  {
    hide Canonical, Codes, APPLY_RIGHTS, READ_OR_APPLY_RIGHTS, IsAllow, IsDeny;
    assert forall sid, deny :: RightsFor(a, sid, deny, d) == RightsFor(b, sid, deny, d);
  }

  /** The same ACEs, each trustee written in another form of the same identifier. */
  ghost predicate Respelled(a: seq<Ace>, b: seq<Ace>, d: Option<string>) {
    && |a| == |b|
    && forall i :: 0 <= i < |a| ==>
         a[i].kind == b[i].kind && a[i].rights == b[i].rights
           && Canonical(a[i].trustee, d) == Canonical(b[i].trustee, d)
  }

  lemma RespelledRights(a: seq<Ace>, b: seq<Ace>, d: Option<string>, sid: string, deny: bool)
    requires Respelled(a, b, d)
    ensures RightsFor(a, sid, deny, d) <= RightsFor(b, sid, deny, d)
  {
    hide Canonical, Codes, IsAllow, IsDeny;
    forall r | r in RightsFor(a, sid, deny, d) ensures r in RightsFor(b, sid, deny, d) {
      var x :| x in a && OfSort(x.kind, deny) && Canonical(x.trustee, d) == sid && r in Codes(x.rights);
      var i :| 0 <= i < |a| && a[i] == x;
      assert b[i] in b;
    }
  }

  /** Writing a trustee by its alias or by its identifier makes no difference. */
  lemma SpellingDoesNotMatter(g: Gpo, h: Gpo, token: set<string>, names: Names)
    requires g.delegation == h.delegation && (g.sddl == "" <==> h.sddl == "")
    requires Respelled(ParseSddl(g.sddl).dacl, ParseSddl(h.sddl).dacl, names.domainSid)
    ensures Lets(g, token, names) == Lets(h, token, names)
  {
    hide ParseSddl, RightsFor, Respelled, APPLY_RIGHTS, READ_OR_APPLY_RIGHTS, Trustees, Applies, Denies;
    if g.delegation == [] && g.sddl != "" {
      var a, b, d := ParseSddl(g.sddl).dacl, ParseSddl(h.sddl).dacl, names.domainSid;
      RespelledBack(a, b, d);
      forall sid, deny: bool ensures RightsFor(a, sid, deny, d) == RightsFor(b, sid, deny, d) {
        RespelledRights(a, b, d, sid, deny);
        RespelledRights(b, a, d, sid, deny);
      }
      forall sid, r
        ensures Applies(a, token, d, sid, r) <==> Applies(b, token, d, sid, r)
        ensures Denies(a, token, d, sid, r) <==> Denies(b, token, d, sid, r)
      {
        AppliesMeans(a, token, d, sid, r);
        AppliesMeans(b, token, d, sid, r);
      }
      DescriptorVerdict(g, token, names);
      DescriptorVerdict(h, token, names);
    } else {
      SameData(g, h, names);
    }
  }

  /** The same of two printed descriptors, conditional expressions included. */
  lemma PrintedSpellingDoesNotMatter(d: Descriptor, e: Descriptor, g: Gpo, token: set<string>, names: Names)
    requires Printable(d) && Printable(e) && 0 < |Print(d)| <= MAX_LENGTH && 0 < |Print(e)| <= MAX_LENGTH
    requires Respelled(Meaning(d).dacl, Meaning(e).dacl, names.domainSid)
    ensures Lets(g.(sddl := Print(d)), token, names) == Lets(g.(sddl := Print(e)), token, names)
  {
    hide Printable, Print, Meaning, ParseSddl, Respelled, Evaluate;
    DescriptorRoundTrip(d);
    DescriptorRoundTrip(e);
    SpellingDoesNotMatter(g.(sddl := Print(d)), g.(sddl := Print(e)), token, names);
  }

  lemma RespelledBack(a: seq<Ace>, b: seq<Ace>, d: Option<string>)
    requires Respelled(a, b, d)
    ensures Respelled(b, a, d)
  {
  }

  lemma SameData(g: Gpo, h: Gpo, names: Names)
    requires g.delegation == h.delegation && (g.sddl == "" <==> h.sddl == "") && (g.delegation != [] || g.sddl == "")
    ensures Trustees(g, names) == Trustees(h, names)
  {
  }

  /** One more denying entry, anywhere, opens no closed gate, not even where it makes the descriptor count no more. */
  lemma DenyingEntryNeverOpens(g: Gpo, h: Gpo, token: set<string>, names: Names, i: nat, e: DelegationEntry)
    requires i <= |g.delegation| && h == g.(delegation := g.delegation[..i] + [e] + g.delegation[i..]) && !e.allowed
    requires !Lets(g, token, names)
    ensures !Lets(h, token, names)
  {
    hide Counts, TrusteeOf, Trustees;
    DelegationVerdict(h, token, names);
    assert h.delegation[i] == e;
    if g.delegation != [] {
      DelegationVerdict(g, token, names);
      assert forall x :: x in h.delegation <==> x in g.delegation || x == e;
    } else {
      assert h.delegation == [e];
    }
  }

  /** Nor does one more denying ACE in a descriptor that was there. */
  lemma DenyingAceNeverOpens(g: Gpo, h: Gpo, token: set<string>, names: Names, i: nat, a: Ace)
    requires h.delegation == g.delegation && g.sddl != "" && h.sddl != ""
    requires i <= |ParseSddl(g.sddl).dacl| && IsDeny(a.kind)
    requires ParseSddl(h.sddl).dacl == ParseSddl(g.sddl).dacl[..i] + [a] + ParseSddl(g.sddl).dacl[i..]
    requires !Lets(g, token, names)
    ensures !Lets(h, token, names)
  {
    hide ParseSddl, Trustees, Applies, Denies;
    if g.delegation != [] {
      SameVerdict(g, h, token, names);
    } else {
      var before, more, d := ParseSddl(g.sddl).dacl, ParseSddl(h.sddl).dacl, names.domainSid;
      DescriptorVerdict(g, token, names);
      DescriptorVerdict(h, token, names);
      assert forall x :: x in more <==> x in before || x == a;
      forall sid, r
        ensures Applies(more, token, d, sid, r) ==> Applies(before, token, d, sid, r)
        ensures Denies(before, token, d, sid, r) ==> Denies(more, token, d, sid, r)
      {
        OneMoreDeny(before, more, a, token, d, sid, r);
      }
    }
  }

  lemma OneMoreDeny(before: seq<Ace>, more: seq<Ace>, a: Ace, token: set<string>, d: Option<string>, sid: string,
                    r: string)
    requires IsDeny(a.kind) && forall x :: x in more <==> x in before || x == a
    ensures Applies(more, token, d, sid, r) ==> Applies(before, token, d, sid, r)
    ensures Denies(before, token, d, sid, r) ==> Denies(more, token, d, sid, r)
  {
    hide Gives;
  }

  lemma SameVerdict(g: Gpo, h: Gpo, token: set<string>, names: Names)
    requires g.delegation == h.delegation != []
    ensures Evaluate(g, token, names) == Evaluate(h, token, names)
  {
  }
}
