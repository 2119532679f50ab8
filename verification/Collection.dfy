/** Walking one precedence chain: what it excludes, and what it contributes to one side. */
module Collection {
  import opened Estate
  import opened Gate
  import opened GpoIndex
  import opened Prelude
  import opened Text
  import opened Topology

  datatype Reason = SecurityFilter(verdict: Verdict) | WmiFilter(filter: string)

  datatype ExcludedGpo = ExcludedGpo(gpoId: string, gpoName: string, reason: Reason, side: Side)

  /** The enabled-side settings of one side among the first `n`. */
  function SideSettings(settings: seq<Setting>, n: nat, side: Side): (r: seq<Setting>)
    requires n <= |settings|
    ensures forall s :: s in r <==> s in settings[..n] && s.side == side && !s.fromDisabledSide
  {
    if n == 0 then []
    else
      assert settings[..n] == settings[..n - 1] + [settings[n - 1]];
      SideSettings(settings, n - 1, side)
      + if settings[n - 1].side == side && !settings[n - 1].fromDisabledSide then [settings[n - 1]] else []
  }

  function Contribution(gpo: Gpo, link: SomLink, side: Side): ChainEntry {
    ChainEntry(gpo.id, gpo.name, link.order, link.enforced, SideSettings(gpo.settings, |gpo.settings|, side))
  }

  /** Which chain is walked, for which side, and with which token. */
  datatype Source = Source(chain: seq<SomLink>, side: Side, token: set<string>)

  /** What the walk has gathered; `seen` is the shared set of excluded GPOs, if one is shared. */
  datatype Walk = Walk(entries: seq<ChainEntry>, excluded: seq<ExcludedGpo>, seen: Option<set<string>>)

  function Bar(w: Walk, gpo: Gpo, reason: Reason, side: Side): Walk {
    Walk(w.entries, w.excluded + [ExcludedGpo(gpo.id, gpo.name, reason, side)],
         if w.seen.Some? then Some(w.seen.value + {gpo.id}) else None)
  }

  function Visit(w: Walk, link: SomLink, src: Source, gpos: map<string, Gpo>, names: Names): Walk {
    if link.gpoId !in gpos || !link.enabled then w
    else
      var gpo := gpos[link.gpoId];
      if w.seen.Some? && gpo.id in w.seen.value then w
      else if !Lets(gpo, src.token, names) then Bar(w, gpo, SecurityFilter(Evaluate(gpo, src.token, names)), src.side)
      else if gpo.wmiFilter != "" then Bar(w, gpo, WmiFilter(gpo.wmiFilter), src.side)
      else
        var entry := Contribution(gpo, link, src.side);
        if entry.settings == [] then w else w.(entries := w.entries + [entry])
  }

  function Collect(w: Walk, src: Source, n: nat, gpos: map<string, Gpo>, names: Names): Walk
    requires n <= |src.chain|
  {
    if n == 0 then w else Visit(Collect(w, src, n - 1, gpos, names), src.chain[n - 1], src, gpos, names)
  }

  function CollectAll(w: Walk, src: Source, gpos: map<string, Gpo>, names: Names): Walk {
    Collect(w, src, |src.chain|, gpos, names)
  }

  /** `_collect_chain_entries`: extends the caller's list of exclusions and, if given, its set of excluded GPOs. */
  method CollectChainEntries(src: Source, gpos: map<string, Gpo>, names: Names, before: seq<ExcludedGpo>,
                             already: Option<set<string>>)
    returns (entries: seq<ChainEntry>, excluded: seq<ExcludedGpo>, seen: Option<set<string>>)
    ensures Walk(entries, excluded, seen) == CollectAll(Walk([], before, already), src, gpos, names)
  {
    hide Evaluate, SideSettings;
    entries, excluded, seen := [], before, already;
    for i := 0 to |src.chain|
      invariant Walk(entries, excluded, seen) == Collect(Walk([], before, already), src, i, gpos, names)
    {
      var link := src.chain[i];
      if link.gpoId !in gpos || !link.enabled { continue; }
      var gpo := gpos[link.gpoId];
      if seen.Some? && gpo.id in seen.value { continue; }
      var verdict := EvaluateSecurityGate(gpo, src.token, names);
      if !(verdict.Passes? || verdict.Unfiltered?) {
        if seen.Some? { seen := Some(seen.value + {gpo.id}); }
        excluded := excluded + [ExcludedGpo(gpo.id, gpo.name, SecurityFilter(verdict), src.side)];
        continue;
      }
      if gpo.wmiFilter != "" {
        if seen.Some? { seen := Some(seen.value + {gpo.id}); }
        excluded := excluded + [ExcludedGpo(gpo.id, gpo.name, WmiFilter(gpo.wmiFilter), src.side)];
        continue;
      }
      var entry := Contribution(gpo, link, src.side);
      if entry.settings == [] { continue; }
      entries := entries + [entry];
    }
  }

  // ----- What a walk guarantees -----

  /** An enabled link of the chain to a collected GPO. */
  ghost predicate LinksTo(src: Source, gpos: map<string, Gpo>, link: SomLink) {
    link in src.chain && link.enabled && link.gpoId in gpos
  }

  predicate Admissible(gpo: Gpo, token: set<string>, names: Names) {
    Lets(gpo, token, names) && gpo.wmiFilter == ""
  }

  /** The entry is what an admissible link of the chain contributes. */
  ghost predicate Admitted(src: Source, gpos: map<string, Gpo>, names: Names, e: ChainEntry) {
    exists link :: LinksTo(src, gpos, link) && Admissible(gpos[link.gpoId], src.token, names)
                   && e == Contribution(gpos[link.gpoId], link, src.side)
  }

  predicate ReasonHolds(reason: Reason, gpo: Gpo, token: set<string>, names: Names) {
    match reason
    case SecurityFilter(v) => v == Evaluate(gpo, token, names) && !Lets(gpo, token, names)
    case WmiFilter(f) => f == gpo.wmiFilter != "" && Lets(gpo, token, names)
  }

  /** The exclusion's reason holds of a GPO that an enabled link of the chain names. */
  ghost predicate Barred(src: Source, gpos: map<string, Gpo>, names: Names, x: ExcludedGpo) {
    exists link :: LinksTo(src, gpos, link) && gpos[link.gpoId].id == x.gpoId && gpos[link.gpoId].name == x.gpoName
                   && x.side == src.side && ReasonHolds(x.reason, gpos[link.gpoId], src.token, names)
  }

  predicate Named(excluded: seq<ExcludedGpo>, id: string) {
    exists x :: x in excluded && x.gpoId == id
  }

  /** Some enabled link names a GPO of this id that the token does not admit. */
  ghost predicate Shadowed(links: seq<SomLink>, token: set<string>, gpos: map<string, Gpo>, names: Names, id: string) {
    exists link :: link in links && link.enabled && link.gpoId in gpos && gpos[link.gpoId].id == id
                   && !Admissible(gpos[link.gpoId], token, names)
  }

  /** The shared set holds only GPOs that are on the list, each refused for this token at one of `links`. */
  ghost predicate SeenIsRefused(w: Walk, links: seq<SomLink>, token: set<string>, gpos: map<string, Gpo>,
                                names: Names) {
    w.seen.Some? ==> forall id :: id in w.seen.value
                       ==> Named(w.excluded, id) && Shadowed(links, token, gpos, names, id)
  }

  /**
   A GPO that the token does not admit is on the list, whether or not it has settings; one that it admits contributed
   what it has for this side, unless an inadmissible GPO of the same id shadows it.
   */
  ghost predicate Accounted(w: Walk, src: Source, links: seq<SomLink>, gpos: map<string, Gpo>, names: Names,
                            link: SomLink)
    requires link.gpoId in gpos
  {
    var gpo := gpos[link.gpoId];
    if !Admissible(gpo, src.token, names) then Named(w.excluded, gpo.id)
    else
      || Contribution(gpo, link, src.side).settings == []
      || Contribution(gpo, link, src.side) in w.entries
      || (Shadowed(links, src.token, gpos, names, gpo.id) && Named(w.excluded, gpo.id))
  }

  lemma NamedGrows(excluded: seq<ExcludedGpo>, more: seq<ExcludedGpo>)
    requires excluded <= more
    ensures forall id :: Named(excluded, id) ==> Named(more, id)
  {
    forall x | x in excluded ensures x in more {}
  }

  /** One link: whatever is added is justified, and the link is accounted for. */
  lemma VisitIsSound(w: Walk, link: SomLink, src: Source, links: seq<SomLink>, gpos: map<string, Gpo>, names: Names)
    requires link in src.chain && (forall l :: l in src.chain ==> l in links)
             && SeenIsRefused(w, links, src.token, gpos, names)
    ensures var r := Visit(w, link, src, gpos, names);
            && w.entries <= r.entries && w.excluded <= r.excluded
            && (forall e :: e in r.entries ==> e in w.entries || Admitted(src, gpos, names, e))
            && (forall x :: x in r.excluded ==> x in w.excluded || Barred(src, gpos, names, x))
            && SeenIsRefused(r, links, src.token, gpos, names)
            && (LinksTo(src, gpos, link) ==> Accounted(r, src, links, gpos, names, link))
  {
    hide Evaluate, SideSettings, Lets;
    var r := Visit(w, link, src, gpos, names);
    NamedGrows(w.excluded, r.excluded);
    if r.excluded != w.excluded {
      var x := r.excluded[|w.excluded|];
      assert LinksTo(src, gpos, link);
      assert ReasonHolds(x.reason, gpos[link.gpoId], src.token, names)
        by { ReasonsGiven(gpos[link.gpoId], src.token, names); }
      assert Barred(src, gpos, names, x);
      assert !Admissible(gpos[link.gpoId], src.token, names);
      assert forall y :: y in r.excluded <==> y in w.excluded || y == x;
      assert Named(r.excluded, x.gpoId) && Shadowed(links, src.token, gpos, names, x.gpoId);
    }
    if r.entries != w.entries {
      assert LinksTo(src, gpos, link);
    }
  }

  lemma ReasonsGiven(gpo: Gpo, token: set<string>, names: Names)
    ensures !Lets(gpo, token, names) ==> ReasonHolds(SecurityFilter(Evaluate(gpo, token, names)), gpo, token, names)
    ensures Lets(gpo, token, names) && gpo.wmiFilter != "" ==> ReasonHolds(WmiFilter(gpo.wmiFilter), gpo, token, names)
  {
    hide Evaluate;
  }

  lemma AccountedStays(w: Walk, r: Walk, src: Source, links: seq<SomLink>, gpos: map<string, Gpo>, names: Names,
                       link: SomLink)
    requires link.gpoId in gpos && Accounted(w, src, links, gpos, names, link) && w.entries <= r.entries
             && w.excluded <= r.excluded
    ensures Accounted(r, src, links, gpos, names, link)
  {
    hide Contribution, Admissible, Shadowed;
    NamedGrows(w.excluded, r.excluded);
  }

  /**
   Everything gathered and every exclusion is justified, and every enabled link to a collected GPO is accounted for.
   */
  lemma {:induction false} CollectIsSound(w: Walk, src: Source, n: nat, links: seq<SomLink>, gpos: map<string, Gpo>,
                                          names: Names)
    requires n <= |src.chain| && (forall l :: l in src.chain ==> l in links)
             && SeenIsRefused(w, links, src.token, gpos, names)
    ensures var r := Collect(w, src, n, gpos, names);
            && w.entries <= r.entries && w.excluded <= r.excluded
            && (forall e :: e in r.entries ==> e in w.entries || Admitted(src, gpos, names, e))
            && (forall x :: x in r.excluded ==> x in w.excluded || Barred(src, gpos, names, x))
            && SeenIsRefused(r, links, src.token, gpos, names)
            && (forall i :: 0 <= i < n && LinksTo(src, gpos, src.chain[i])
                  ==> Accounted(r, src, links, gpos, names, src.chain[i]))
  {
    hide Admitted, Barred, SeenIsRefused, Accounted, Visit;
    if n > 0 {
      CollectIsSound(w, src, n - 1, links, gpos, names);
      var before, r := Collect(w, src, n - 1, gpos, names), Collect(w, src, n, gpos, names);
      VisitIsSound(before, src.chain[n - 1], src, links, gpos, names);
      forall i | 0 <= i < n && LinksTo(src, gpos, src.chain[i])
        ensures Accounted(r, src, links, gpos, names, src.chain[i]) {
        if i < n - 1 { AccountedStays(before, r, src, links, gpos, names, src.chain[i]); }
      }
    }
  }

  /** One of the first `n` links names a GPO of this id that the token does not admit. */
  ghost predicate RefusedBefore(src: Source, n: nat, gpos: map<string, Gpo>, names: Names, id: string)
    requires n <= |src.chain|
  {
    exists j :: 0 <= j < n && LinksTo(src, gpos, src.chain[j]) && gpos[src.chain[j].gpoId].id == id
                && !Admissible(gpos[src.chain[j].gpoId], src.token, names)
  }

  /** The shared set holds what it was handed and the ids refused so far. */
  lemma {:induction false} SeenExactly(w: Walk, src: Source, n: nat, gpos: map<string, Gpo>, names: Names, id: string)
    requires n <= |src.chain| && w.seen.Some?
    ensures var seen := Collect(w, src, n, gpos, names).seen;
            seen.Some? && (id in seen.value <==> id in w.seen.value || RefusedBefore(src, n, gpos, names, id))
  {
    hide Lets, SideSettings, Evaluate;
    if n > 0 {
      SeenExactly(w, src, n - 1, gpos, names, id);
      assert RefusedBefore(src, n, gpos, names, id) <==>
               || RefusedBefore(src, n - 1, gpos, names, id)
               || (&& LinksTo(src, gpos, src.chain[n - 1]) && gpos[src.chain[n - 1].gpoId].id == id
                   && !Admissible(gpos[src.chain[n - 1].gpoId], src.token, names));
    }
  }

  /**
   When an admissible GPO with settings for the side contributes at its link: always if the walk shares no set, and else
   exactly when its id was neither handed over nor refused at an earlier link.
   */
  lemma ContributesExactly(w: Walk, src: Source, i: nat, gpos: map<string, Gpo>, names: Names)
    requires i < |src.chain| && LinksTo(src, gpos, src.chain[i])
    requires Admissible(gpos[src.chain[i].gpoId], src.token, names)
    requires Contribution(gpos[src.chain[i].gpoId], src.chain[i], src.side).settings != []
    ensures var gpo, before := gpos[src.chain[i].gpoId], Collect(w, src, i, gpos, names);
            Collect(w, src, i + 1, gpos, names).entries
            == before.entries
               + if w.seen.Some? && (gpo.id in w.seen.value || RefusedBefore(src, i, gpos, names, gpo.id))
                 then [] else [Contribution(gpo, src.chain[i], src.side)]
  {
    hide Lets, SideSettings, Evaluate, RefusedBefore;
    SeenKept(w, src, i, gpos, names);
    if w.seen.Some? { SeenExactly(w, src, i, gpos, names, gpos[src.chain[i].gpoId].id); }
  }

  /** Two GPOs of one hyphenated id; a WMI filter guards the first. */
  function Namesakes(s: Setting): seq<Gpo> {
    [Gpo("1-2", "a", [], [], "", "filter"), Gpo("1-2", "b", [s], [], "", "")]
  }

  lemma HyphenIsStripped()
    ensures Stripped("1-2") == "12"
  {
    TrimmedStrips("1-2");
    assert UnbraceLeft("1-2") == "1-2" && UnbraceRight("1-2") == "1-2";
    assert "1-2"[1..] == "-2" && "-2"[1..] == "2" && "2"[1..] == "";
    assert Unhyphened("2") == "2" && Unhyphened("-2") == "2" && Unhyphened("1-2") == "12";
    assert Lower("12") == "12";
  }

  /** The index holds the first under the stripped id and the last under the id. */
  lemma NamesakesIndexed(s: Setting)
    ensures Indexed(Namesakes(s)) == map["12" := Namesakes(s)[0], "1-2" := Namesakes(s)[1]]
  {
    HyphenIsStripped();
    hide Stripped;
    var gpos := Namesakes(s);
    assert gpos[..1] == [gpos[0]] && [gpos[0]][..0] == [] && Indexed([]) == map[];
    assert Indexed([gpos[0]]) == map["1-2" := gpos[0], "12" := gpos[0]];
  }

  /** A link in the stripped form reaches the first, one in the hyphenated form the second. */
  function NamesakeWalk(s: Setting, token: set<string>): Source {
    Source([SomLink("12", 2, true, false), SomLink("1-2", 1, true, false)], s.side, token)
  }

  /** In a walk that shares a set the second GPO is admissible and has a setting, and is dropped all the same. */
  lemma SharedIdIsDropped(s: Setting, token: set<string>, names: Names)
    requires !s.fromDisabledSide
    ensures var gpos, src := Indexed(Namesakes(s)), NamesakeWalk(s, token);
            && "1-2" in gpos && Admissible(gpos["1-2"], token, names)
            && Contribution(gpos["1-2"], src.chain[1], s.side).settings == [s]
            && CollectAll(Walk([], [], Some({})), src, gpos, names).entries == []
  {
    NamesakesIndexed(s);
    hide Indexed;
    var gpos, src, w := Indexed(Namesakes(s)), NamesakeWalk(s, token), Walk([], [], Some({}));
    Unguarded(gpos["12"], token, names);
    Unguarded(gpos["1-2"], token, names);
    assert SideSettings([s], 0, s.side) == [];
    hide Lets;
    assert Collect(w, src, 0, gpos, names) == w;
    assert Collect(w, src, 1, gpos, names) == Bar(w, gpos["12"], WmiFilter("filter"), s.side);
  }

  lemma Unguarded(gpo: Gpo, token: set<string>, names: Names)
    requires gpo.delegation == [] && gpo.sddl == ""
    ensures Lets(gpo, token, names)
  {
  }

  lemma {:induction false} SeenKept(w: Walk, src: Source, n: nat, gpos: map<string, Gpo>, names: Names)
    requires n <= |src.chain|
    ensures Collect(w, src, n, gpos, names).seen.Some? <==> w.seen.Some?
  {
    hide Evaluate, SideSettings;
    if n > 0 { SeenKept(w, src, n - 1, gpos, names); }
  }

  /** In such an index an admissible GPO is never shadowed. */
  lemma UniqueIdsCastNoShadow(links: seq<SomLink>, token: set<string>, gpos: map<string, Gpo>, names: Names, k: string)
    requires OneGpoPerId(gpos) && k in gpos && Admissible(gpos[k], token, names)
    ensures !Shadowed(links, token, gpos, names, gpos[k].id)
  {
    hide Admissible;
  }
}
