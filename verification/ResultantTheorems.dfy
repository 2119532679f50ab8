/** End-to-end soundness and accounting of the resultant, in every loopback mode. */
module ResultantTheorems {
  import opened Collection
  import opened Cse
  import opened Estate
  import opened Gate
  import opened GpoIndex
  import opened GppActions
  import opened Merge
  import opened MergeTheorems
  import opened Prelude
  import opened Resultant
  import opened Sorting
  import opened Topology

  /** The same entry at another order. */
  predicate SameButOrder(e: ChainEntry, f: ChainEntry) {
    e == f.(order := e.order)
  }

  lemma SourceWalk(w: Walk, src: Source, links: seq<SomLink>, gpos: map<string, Gpo>, names: Names)
    requires (forall l :: l in src.chain ==> l in links) && SeenIsRefused(w, links, src.token, gpos, names)
    ensures var r := CollectAll(w, src, gpos, names);
            && w.excluded <= r.excluded && SeenIsRefused(r, links, src.token, gpos, names)
              && (r.seen.Some? <==> w.seen.Some?)
            && (forall e :: e in r.entries ==> e in w.entries || Admitted(src, gpos, names, e))
            && (forall x :: x in r.excluded ==> x in w.excluded || Barred(src, gpos, names, x))
            && (forall link :: LinksTo(src, gpos, link) ==> Accounted(r, src, links, gpos, names, link))
  {
    hide Admitted, Barred, SeenIsRefused, Accounted, Collect;
    CollectIsSound(w, src, |src.chain|, links, gpos, names);
    SeenKept(w, src, |src.chain|, gpos, names);
    var r := CollectAll(w, src, gpos, names);
    forall link | LinksTo(src, gpos, link) ensures Accounted(r, src, links, gpos, names, link) {
      var i :| 0 <= i < |src.chain| && src.chain[i] == link;
      assert LinksTo(src, gpos, src.chain[i]);
    }
  }

  /** What a gathered entry comes from. */
  ghost predicate Comes(q: Request, gpos: map<string, Gpo>, names: Names, e: ChainEntry) {
    exists src, f :: src in Sources(q) && Admitted(src, gpos, names, f) && SameButOrder(e, f)
  }

  ghost predicate Fair(q: Request, gpos: map<string, Gpo>, names: Names, x: ExcludedGpo) {
    exists src :: src in Sources(q) && Barred(src, gpos, names, x)
  }

  /** The links of the chains that the request walks. */
  function LinksOfRequest(q: Request): seq<SomLink> {
    if !q.pair then q.chain else if q.mode == Some(Replaces) then q.compChain else q.chain + q.compChain
  }

  /** The link's contribution is among the entries, at some order. */
  ghost predicate Arrives(entries: seq<ChainEntry>, src: Source, gpos: map<string, Gpo>, link: SomLink)
    requires link.gpoId in gpos
  {
    exists e :: e in entries && SameButOrder(e, Contribution(gpos[link.gpoId], link, src.side))
  }

  /**
   A GPO that the walk's token does not admit is excluded; one that it admits has nothing for the side, or arrives, or a
   refused GPO of the same id shadows it and is excluded under that id.
   */
  ghost predicate Settled(entries: seq<ChainEntry>, excluded: seq<ExcludedGpo>, src: Source, links: seq<SomLink>,
                          gpos: map<string, Gpo>, names: Names, link: SomLink)
    requires link.gpoId in gpos
  {
    var gpo := gpos[link.gpoId];
    if !Admissible(gpo, src.token, names) then Named(excluded, gpo.id)
    else
      || Contribution(gpo, link, src.side).settings == []
      || Arrives(entries, src, gpos, link)
      || (Shadowed(links, src.token, gpos, names, gpo.id) && Named(excluded, gpo.id))
  }

  lemma AccountedSettles(w: Walk, entries: seq<ChainEntry>, excluded: seq<ExcludedGpo>, src: Source,
                         links: seq<SomLink>,
                         gpos: map<string, Gpo>, names: Names, link: SomLink)
    requires link.gpoId in gpos && Accounted(w, src, links, gpos, names, link) && w.excluded <= excluded
    requires forall f :: f in w.entries ==> exists e :: e in entries && SameButOrder(e, f)
    ensures Settled(entries, excluded, src, links, gpos, names, link)
  {
    hide Contribution, Admissible, Shadowed;
    NamedGrows(w.excluded, excluded);
  }

  /** Raised or not, every entry of a walk is found among the gathered ones. */
  lemma RaisedMember(entries: seq<ChainEntry>, lift: int, e: ChainEntry)
    requires e in Raised(entries, lift)
    ensures exists f :: f in entries && SameButOrder(e, f)
  {
    var i :| 0 <= i < |entries| && Raised(entries, lift)[i] == e;
    assert SameButOrder(e, entries[i]);
  }

  lemma RaisedCovers(entries: seq<ChainEntry>, lift: int, f: ChainEntry)
    requires f in entries
    ensures exists e :: e in Raised(entries, lift) && SameButOrder(e, f)
  {
    var i :| 0 <= i < |entries| && entries[i] == f;
    assert SameButOrder(Raised(entries, lift)[i], f);
  }

  /** One walk's part in the result. */
  lemma WalkServes(q: Request, w: Walk, src: Source, gpos: map<string, Gpo>, names: Names,
                   entries: seq<ChainEntry>, excluded: seq<ExcludedGpo>, part: seq<ChainEntry>)
    requires src in Sources(q) && w.entries == [] && SeenIsRefused(w, LinksOfRequest(q), src.token, gpos, names)
    requires var r := CollectAll(w, src, gpos, names);
             && r.excluded <= excluded && (part == r.entries || exists lift :: part == Raised(r.entries, lift))
             && forall e :: e in part ==> e in entries
    ensures forall e :: e in part ==> Comes(q, gpos, names, e)
    ensures forall x :: x in CollectAll(w, src, gpos, names).excluded ==> x in w.excluded || Fair(q, gpos, names, x)
    ensures forall link :: LinksTo(src, gpos, link)
              ==> Settled(entries, excluded, src, LinksOfRequest(q), gpos, names, link)
  {
    hide CollectAll, Admitted, Barred, Raised, Accounted, Settled, Sources, SeenIsRefused, LinksOfRequest;
    SourceIsWalked(q, src);
    SourceWalk(w, src, LinksOfRequest(q), gpos, names);
    var r := CollectAll(w, src, gpos, names);
    forall e | e in part ensures Comes(q, gpos, names, e) {
      if e in r.entries {
        assert SameButOrder(e, e);
      } else {
        var lift :| part == Raised(r.entries, lift);
        RaisedMember(r.entries, lift, e);
        var f :| f in r.entries && SameButOrder(e, f);
      }
    }
    forall f | f in r.entries ensures exists e :: e in entries && SameButOrder(e, f) {
      if part == r.entries {
        assert f in entries && SameButOrder(f, f);
      } else {
        var lift :| part == Raised(r.entries, lift);
        RaisedCovers(r.entries, lift, f);
        var e :| e in part && SameButOrder(e, f);
      }
    }
    forall link | LinksTo(src, gpos, link)
      ensures Settled(entries, excluded, src, LinksOfRequest(q), gpos, names, link) {
      AccountedSettles(r, entries, excluded, src, LinksOfRequest(q), gpos, names, link);
    }
  }

  lemma SourceIsWalked(q: Request, src: Source)
    requires src in Sources(q)
    ensures forall l :: l in src.chain ==> l in LinksOfRequest(q)
  {
  }

  ghost predicate Gathered(q: Request, gpos: map<string, Gpo>, names: Names, entries: seq<ChainEntry>,
                           excluded: seq<ExcludedGpo>) {
    && (forall e :: e in entries ==> Comes(q, gpos, names, e))
    && (forall x :: x in excluded ==> Fair(q, gpos, names, x))
    && (forall src, link :: src in Sources(q) && LinksTo(src, gpos, link)
          ==> Settled(entries, excluded, src, LinksOfRequest(q), gpos, names, link))
  }

  /** In every mode: entries come from the request's walks, exclusions are fair, and every link of a walk is settled. */
  lemma GatherIsSound(q: Request, gpos: map<string, Gpo>, names: Names)
    ensures Gathered(q, gpos, names, Gather(q, gpos, names).0, Gather(q, gpos, names).1)
  {
    if !q.pair {
      GatherAlone(q, gpos, names);
    } else if q.mode == Some(Replaces) {
      GatherReplace(q, gpos, names);
    } else if q.mode == Some(Merges) {
      GatherMerge(q, gpos, names);
    } else {
      GatherPlain(q, gpos, names);
    }
  }

  /** A walk that shares no set, or a set that is still empty. */
  lemma FreshStart(excluded: seq<ExcludedGpo>, links: seq<SomLink>, token: set<string>, gpos: map<string, Gpo>,
                   names: Names)
    ensures SeenIsRefused(Walk([], excluded, None), links, token, gpos, names)
    ensures SeenIsRefused(Walk([], excluded, Some({})), links, token, gpos, names)
  {
  }

  /** A walk that takes over the set of an earlier one with the same token. */
  lemma SharedStart(w: Walk, excluded: seq<ExcludedGpo>, links: seq<SomLink>, token: set<string>,
                    gpos: map<string, Gpo>, names: Names)
    requires SeenIsRefused(w, links, token, gpos, names) && w.excluded <= excluded
    ensures SeenIsRefused(Walk([], excluded, w.seen), links, token, gpos, names)
  {
    hide Shadowed;
    NamedGrows(w.excluded, excluded);
  }

  lemma WalkGrows(q: Request, w: Walk, src: Source, gpos: map<string, Gpo>, names: Names)
    requires src in Sources(q) && SeenIsRefused(w, LinksOfRequest(q), src.token, gpos, names)
    ensures var r := CollectAll(w, src, gpos, names);
            w.excluded <= r.excluded && SeenIsRefused(r, LinksOfRequest(q), src.token, gpos, names)
  {
    hide CollectAll, Admitted, Barred, Accounted, Sources, SeenIsRefused, LinksOfRequest;
    SourceIsWalked(q, src);
    SourceWalk(w, src, LinksOfRequest(q), gpos, names);
  }

  lemma GatherAlone(q: Request, gpos: map<string, Gpo>, names: Names)
    requires !q.pair
    ensures Gathered(q, gpos, names, Gather(q, gpos, names).0, Gather(q, gpos, names).1)
  {
    hide CollectAll, Comes, Fair, Settled, LinksTo, SeenIsRefused, LinksOfRequest;
    var src := Source(q.chain, q.side, q.Combined());
    var start := Walk([], [], None);
    FreshStart([], LinksOfRequest(q), src.token, gpos, names);
    var r := CollectAll(start, src, gpos, names);
    WalkServes(q, start, src, gpos, names, r.entries, r.excluded, r.entries);
  }

  lemma GatherReplace(q: Request, gpos: map<string, Gpo>, names: Names)
    requires q.pair && q.mode == Some(Replaces)
    ensures Gathered(q, gpos, names, Gather(q, gpos, names).0, Gather(q, gpos, names).1)
  {
    hide CollectAll, Comes, Fair, Settled, LinksTo, SeenIsRefused, LinksOfRequest;
    var s0, s1 := Source(q.compChain, User, q.compToken), Source(q.compChain, Side.Computer, q.Combined());
    assert s0 == Sources(q)[0] && s1 == Sources(q)[1];
    var w0 := Walk([], [], None);
    var u := CollectAll(w0, s0, gpos, names);
    var w1 := Walk([], u.excluded, Some({}));
    var c := CollectAll(w1, s1, gpos, names);
    var entries := u.entries + c.entries;
    FreshStart([], LinksOfRequest(q), s0.token, gpos, names);
    FreshStart(u.excluded, LinksOfRequest(q), s1.token, gpos, names);
    WalkGrows(q, w1, s1, gpos, names);
    WalkServes(q, w0, s0, gpos, names, entries, c.excluded, u.entries);
    WalkServes(q, w1, s1, gpos, names, entries, c.excluded, c.entries);
  }

  lemma GatherPlain(q: Request, gpos: map<string, Gpo>, names: Names)
    requires q.pair && q.mode != Some(Replaces) && q.mode != Some(Merges)
    ensures Gathered(q, gpos, names, Gather(q, gpos, names).0, Gather(q, gpos, names).1)
  {
    hide CollectAll, Comes, Fair, Settled, LinksTo, SeenIsRefused, LinksOfRequest;
    var s0, s1 := Source(q.chain, User, q.Combined()), Source(q.compChain, Side.Computer, q.Combined());
    assert s0 == Sources(q)[0] && s1 == Sources(q)[1];
    var w0 := Walk([], [], Some({}));
    var u := CollectAll(w0, s0, gpos, names);
    FreshStart([], LinksOfRequest(q), s0.token, gpos, names);
    WalkGrows(q, w0, s0, gpos, names);
    SharedStart(u, u.excluded, LinksOfRequest(q), s1.token, gpos, names);
    var w1 := Walk([], u.excluded, u.seen);
    var c := CollectAll(w1, s1, gpos, names);
    WalkGrows(q, w1, s1, gpos, names);
    var entries := u.entries + c.entries;
    WalkServes(q, w0, s0, gpos, names, entries, c.excluded, u.entries);
    WalkServes(q, w1, s1, gpos, names, entries, c.excluded, c.entries);
  }

  lemma GatherMerge(q: Request, gpos: map<string, Gpo>, names: Names)
    requires q.pair && q.mode == Some(Merges)
    ensures Gathered(q, gpos, names, Gather(q, gpos, names).0, Gather(q, gpos, names).1)
  {
    hide CollectAll, Comes, Fair, Settled, LinksTo, Raised, Offset, SeenIsRefused, LinksOfRequest;
    var s0, s1 := Source(q.chain, User, q.Combined()), Source(q.compChain, User, q.compToken);
    var s2 := Source(q.compChain, Side.Computer, q.Combined());
    assert s0 == Sources(q)[0] && s1 == Sources(q)[1] && s2 == Sources(q)[2];
    var w0 := Walk([], [], Some({}));
    var u := CollectAll(w0, s0, gpos, names);
    FreshStart([], LinksOfRequest(q), s0.token, gpos, names);
    WalkGrows(q, w0, s0, gpos, names);
    var w1 := Walk([], u.excluded, None);
    FreshStart(u.excluded, LinksOfRequest(q), s1.token, gpos, names);
    var l := CollectAll(w1, s1, gpos, names);
    WalkGrows(q, w1, s1, gpos, names);
    SharedStart(u, l.excluded, LinksOfRequest(q), s2.token, gpos, names);
    var w2 := Walk([], l.excluded, u.seen);
    var c := CollectAll(w2, s2, gpos, names);
    WalkGrows(q, w2, s2, gpos, names);
    var raised := Raised(l.entries, Offset(u.entries));
    var entries := u.entries + raised + c.entries;
    WalkServes(q, w0, s0, gpos, names, entries, c.excluded, u.entries);
    WalkServes(q, w1, s1, gpos, names, entries, c.excluded, raised);
    WalkServes(q, w2, s2, gpos, names, entries, c.excluded, c.entries);
  }

  // ----- The policy -----

  /**
   An occurrence that a walk of the request admits: the GPO is linked and enabled, passes the gate, and has no WMI
   filter.
   */
  ghost predicate Justified(q: Request, gpos: map<string, Gpo>, names: Names, key: Key, o: Occurrence) {
    exists src, link :: src in Sources(q) && LinksTo(src, gpos, link) && src.side == key.side
                        && var gpo := gpos[link.gpoId];
                           && Admissible(gpo, src.token, names)
                           && o.gpoId == gpo.id && o.gpoName == gpo.name && o.enforced == link.enforced
                           && o.setting in gpo.settings && KeyOf(o.setting) == key && !o.setting.fromDisabledSide
  }

  /**
   Every setting of the policy is won by an occurrence a walk admits, never a preference item with item-level targeting.
   */
  lemma EverySettingIsJustified(inv: Inventory, names: Names, q: Request, p: Policy, key: Key)
    requires Delivers(inv, names, q, p) && key in p.settings
    ensures p.settings[key].key == key
    ensures Justified(q, inv.topology.gpos, names, key, p.settings[key].winner)
    ensures IsGpp(key.cse) ==> p.settings[key].winner.gpoId !in inv.ilt
  {
    hide Gather, Resolve, Withheld, Sources, LinksTo, Admitted, Bucket, Evaluate, Contribution, FirstOfEach, IsGpp;
    var gpos := inv.topology.gpos;
    var (entries, excluded) := Gather(q, gpos, names);
    GatherIsSound(q, gpos, names);
    assert Resolve(entries, inv.ilt, key) == Some(p.settings[key]);
    ResolveSound(entries, inv.ilt, key);
    var o := p.settings[key].winner;
    var e :| e in entries && o == OccurrenceOf(e, o.setting) && o.setting in e.settings;
    assert Comes(q, gpos, names, e);
    var src, f :| src in Sources(q) && Admitted(src, gpos, names, f) && SameButOrder(e, f);
    AdmittedJustifies(q, src, gpos, names, f, o, key);
  }

  // ----- Precedence, for a principal alone -----

  lemma VisitExtends(w: Walk, link: SomLink, src: Source, gpos: map<string, Gpo>, names: Names)
    ensures w.entries <= Visit(w, link, src, gpos, names).entries
  {
    hide Lets, Contribution;
  }

  /** Without a shared set every admissible link with settings for the side contributes, at its own order. */
  lemma {:induction false} AlwaysContributes(w: Walk, src: Source, n: nat, gpos: map<string, Gpo>, names: Names, i: nat)
    requires i < n <= |src.chain| && w.seen.None? && LinksTo(src, gpos, src.chain[i])
    requires Admissible(gpos[src.chain[i].gpoId], src.token, names)
    requires Contribution(gpos[src.chain[i].gpoId], src.chain[i], src.side).settings != []
    ensures Contribution(gpos[src.chain[i].gpoId], src.chain[i], src.side) in Collect(w, src, n, gpos, names).entries
  {
    hide Contribution, Admissible, Visit, LinksTo, Named;
    if i < n - 1 {
      AlwaysContributes(w, src, n - 1, gpos, names, i);
      VisitExtends(Collect(w, src, n - 1, gpos, names), src.chain[n - 1], src, gpos, names);
    } else {
      hide Collect;
      ContributesExactly(w, src, i, gpos, names);
    }
  }

  /** An admitted link of the principal's chain whose GPO makes the setting on an enabled side. */
  ghost predicate Competes(inv: Inventory, names: Names, q: Request, key: Key, link: SomLink, s: Setting) {
    && link in q.chain && link.enabled && link.gpoId in inv.topology.gpos
    && Admissible(inv.topology.gpos[link.gpoId], q.own + q.compToken, names)
    && s in inv.topology.gpos[link.gpoId].settings && KeyOf(s) == key && s.side == q.side && !s.fromDisabledSide
  }

  /**
   Outside the action machine the setting is won by an admitted link of the principal's chain, at that link's order, and
   no admitted link whose GPO makes the setting has a greater one.
   */
  lemma PrecedenceDecides(inv: Inventory, names: Names, q: Request, p: Policy, key: Key)
    requires Delivers(inv, names, q, p) && !q.pair && key in p.settings && !p.settings[key].mode.Accumulate?
    ensures var w := p.settings[key].winner;
            && (exists link :: Competes(inv, names, q, key, link, w.setting) && w.order == link.order
                               && w.gpoId == inv.topology.gpos[link.gpoId].id)
            && forall link, s :: Competes(inv, names, q, key, link, s) ==> link.order <= w.order
  {
    hide Resolve, Withheld, Bucket, Admissible, FirstOfEach, Collect, Contribution, ModeOf, Lets;
    var gpos := inv.topology.gpos;
    var src, w0 := Source(q.chain, q.side, q.Combined()), Walk([], [], None);
    var entries := Gather(q, gpos, names).0;
    assert entries == Collect(w0, src, |q.chain|, gpos, names).entries by { AloneGathers(q, gpos, names); }
    assert Resolve(entries, inv.ilt, key) == Some(p.settings[key]);
    ResolveSound(entries, inv.ilt, key);
    var w := p.settings[key].winner;
    var e :| e in entries && w == OccurrenceOf(e, w.setting) && w.setting in e.settings;
    FreshStart([], q.chain, src.token, gpos, names);
    CollectIsSound(w0, src, |q.chain|, q.chain, gpos, names);
    AdmittedCompetes(inv, names, q, src, e, key, w);
    forall link, s | Competes(inv, names, q, key, link, s) ensures link.order <= w.order {
      CompetitorArrives(inv, names, q, src, entries, key, link, s);
    }
  }

  lemma AloneGathers(q: Request, gpos: map<string, Gpo>, names: Names)
    requires !q.pair
    ensures Gather(q, gpos, names).0
            == Collect(Walk([], [], None), Source(q.chain, q.side, q.Combined()), |q.chain|, gpos, names).entries
  {
    hide Collect;
  }

  lemma AdmittedCompetes(inv: Inventory, names: Names, q: Request, src: Source, e: ChainEntry, key: Key, w: Occurrence)
    requires src == Source(q.chain, q.side, q.Combined()) && Admitted(src, inv.topology.gpos, names, e)
    requires w == OccurrenceOf(e, w.setting) && w.setting in e.settings && KeyOf(w.setting) == key
    ensures exists link :: Competes(inv, names, q, key, link, w.setting) && w.order == link.order
                           && w.gpoId == inv.topology.gpos[link.gpoId].id
  {
    hide Admissible;
    var gpos := inv.topology.gpos;
    var link :| LinksTo(src, gpos, link) && Admissible(gpos[link.gpoId], src.token, names)
                && e == Contribution(gpos[link.gpoId], link, src.side);
    assert gpos[link.gpoId].settings[..|gpos[link.gpoId].settings|] == gpos[link.gpoId].settings;
    assert Competes(inv, names, q, key, link, w.setting);
  }

  lemma CompetitorArrives(inv: Inventory, names: Names, q: Request, src: Source, entries: seq<ChainEntry>, key: Key,
                          link: SomLink, s: Setting)
    requires src == Source(q.chain, q.side, q.Combined()) && Competes(inv, names, q, key, link, s)
    requires entries == Collect(Walk([], [], None), src, |q.chain|, inv.topology.gpos, names).entries
    ensures exists o :: o in Bucket(entries, key) && o.order == link.order
  {
    hide Admissible, Collect, Bucket;
    var gpo := inv.topology.gpos[link.gpoId];
    assert gpo.settings[..|gpo.settings|] == gpo.settings;
    var e := Contribution(gpo, link, src.side);
    assert s in e.settings;
    var i :| 0 <= i < |q.chain| && q.chain[i] == link;
    AlwaysContributes(Walk([], [], None), src, |q.chain|, inv.topology.gpos, names, i);
    BucketComplete(entries, e, s);
    assert OccurrenceOf(e, s).order == link.order;
  }

  lemma AdmittedJustifies(q: Request, src: Source, gpos: map<string, Gpo>, names: Names, f: ChainEntry, o: Occurrence,
                          key: Key)
    requires src in Sources(q) && Admitted(src, gpos, names, f) && o.setting in f.settings && KeyOf(o.setting) == key
    requires o.gpoId == f.gpoId && o.gpoName == f.gpoName && o.enforced == f.enforced && !o.setting.fromDisabledSide
    ensures Justified(q, gpos, names, key, o)
  {
    hide Sources, Evaluate;
    var link :| LinksTo(src, gpos, link) && Admissible(gpos[link.gpoId], src.token, names)
                && f == Contribution(gpos[link.gpoId], link, src.side);
    var gpo := gpos[link.gpoId];
    assert gpo.settings[..|gpo.settings|] == gpo.settings;
  }

  /**
   What becomes of an occurrence that arrives: under a key with a winner it holds the winner's order or is listed as
   overridden; under a withheld key it is listed exactly if its GPO has item-level targeting; otherwise the action
   machine removed the setting.
   */
  ghost predicate Answered(inv: Inventory, entries: seq<ChainEntry>, p: Policy, o: Occurrence) {
    var key := KeyOf(o.setting);
    if key in p.settings then
      && key !in p.withheld
      && (o.order == p.settings[key].winner.order || (o.gpoName, o.setting.value) in p.settings[key].overridden)
    else if key in p.withheld then o in p.withheld[key] <==> o.gpoId in inv.ilt
    else Bucket(entries, key) != [] && RemovedByActions(Bucket(entries, key))
  }

  /** An entry of the merge, up to its order the link's contribution, all of whose settings are answered for. */
  ghost predicate Delivered(inv: Inventory, entries: seq<ChainEntry>, p: Policy, src: Source, link: SomLink)
    requires link.gpoId in inv.topology.gpos
  {
    exists e :: && e in entries && SameButOrder(e, Contribution(inv.topology.gpos[link.gpoId], link, src.side))
                && forall s :: s in e.settings ==> Answered(inv, entries, p, OccurrenceOf(e, s))
  }

  /**
   No GPO is left out without a trace. One of an enabled link that the walk's token does not admit is on the list of
   exclusions, with or without settings; one that it admits has nothing for the side, or enters the merge with all it
   has there and each of those settings is answered for, unless a refused GPO of the same id shadows it, and then that
   id is on the list.
   */
  lemma EveryGpoIsAccountedFor(inv: Inventory, names: Names, q: Request, p: Policy, src: Source, link: SomLink)
    requires Delivers(inv, names, q, p) && src in Sources(q) && LinksTo(src, inv.topology.gpos, link)
    ensures var gpos := inv.topology.gpos;
            var gpo, entries := gpos[link.gpoId], Gather(q, gpos, names).0;
            if !Admissible(gpo, src.token, names) then Named(p.excluded, gpo.id)
            else
              || Contribution(gpo, link, src.side).settings == []
              || Delivered(inv, entries, p, src, link)
              || (Shadowed(LinksOfRequest(q), src.token, gpos, names, gpo.id) && Named(p.excluded, gpo.id))
  {
    hide Gather, IsMergeOf, Sources, Comes, Fair, Admissible, Shadowed, SideSettings, Answered, LinksOfRequest,
         FirstOfEach, Delivered, Contribution;
    var gpos := inv.topology.gpos;
    var (entries, excluded) := Gather(q, gpos, names);
    GatherIsSound(q, gpos, names);
    var gpo := gpos[link.gpoId];
    assert Settled(entries, excluded, src, LinksOfRequest(q), gpos, names, link);
    if Named(excluded, gpo.id) && q.pair { DedupeKeepsNames(excluded, gpo.id); }
    if Arrives(entries, src, gpos, link) { ArrivalIsDelivered(inv, entries, p, src, link); }
  }

  lemma ArrivalIsDelivered(inv: Inventory, entries: seq<ChainEntry>, p: Policy, src: Source, link: SomLink)
    requires IsMergeOf(entries, inv.ilt, p.settings, p.withheld) && link.gpoId in inv.topology.gpos
    requires Arrives(entries, src, inv.topology.gpos, link)
    ensures Delivered(inv, entries, p, src, link)
  {
    hide IsMergeOf, Answered, SideSettings;
    var gpo := inv.topology.gpos[link.gpoId];
    assert gpo.settings[..|gpo.settings|] == gpo.settings;
    var e :| e in entries && SameButOrder(e, Contribution(gpo, link, src.side));
    forall s | s in e.settings ensures Answered(inv, entries, p, OccurrenceOf(e, s)) {
      ItemIsAnswered(inv, entries, p, e, s);
    }
  }

  lemma ItemIsAnswered(inv: Inventory, entries: seq<ChainEntry>, p: Policy, e: ChainEntry, s: Setting)
    requires IsMergeOf(entries, inv.ilt, p.settings, p.withheld)
    requires e in entries && s in e.settings && !s.fromDisabledSide
    ensures Answered(inv, entries, p, OccurrenceOf(e, s))
  {
    hide Resolve, Withheld, Bucket, RemovedByActions;
    var key := KeyOf(s);
    SettingAccounted(entries, inv.ilt, e, s);
    assert Withheld(entries, inv.ilt, key) == At(p.withheld, key);
    assert Resolve(entries, inv.ilt, key) == if key in p.settings then Some(p.settings[key]) else None;
    if key in p.settings { ResolveSound(entries, inv.ilt, key); }
  }

  /** Where every GPO id names one GPO, nothing admissible is dropped at all. */
  lemma NothingAdmissibleIsDropped(q: Request, gpos: map<string, Gpo>, names: Names, src: Source, link: SomLink)
    requires src in Sources(q) && LinksTo(src, gpos, link) && Admissible(gpos[link.gpoId], src.token, names)
    requires Contribution(gpos[link.gpoId], link, src.side).settings != []
    ensures Arrives(Gather(q, gpos, names).0, src, gpos, link)
            || Shadowed(LinksOfRequest(q), src.token, gpos, names, gpos[link.gpoId].id)
    ensures OneGpoPerId(gpos) ==> Arrives(Gather(q, gpos, names).0, src, gpos, link)
  {
    hide Gather, Sources, Comes, Fair, Admissible, Shadowed, Contribution, Arrives, LinksOfRequest, OneGpoPerId;
    GatherIsSound(q, gpos, names);
    assert Settled(Gather(q, gpos, names).0, Gather(q, gpos, names).1, src, LinksOfRequest(q), gpos, names, link);
    if OneGpoPerId(gpos) { UniqueIdsCastNoShadow(LinksOfRequest(q), src.token, gpos, names, link.gpoId); }
  }

  lemma DedupeKeepsNames(excluded: seq<ExcludedGpo>, id: string)
    requires Named(excluded, id)
    ensures Named(FirstOfEach(excluded), id)
  {
    hide FirstOfEach;
    FirstsAreKept(excluded);
    var i :| 0 <= i < |excluded| && excluded[i].gpoId == id;
    assert Image(ExclusionKey, excluded)[i] in Image(ExclusionKey, FirstOfEach(excluded));
    var j :| 0 <= j < |FirstOfEach(excluded)|
      && Image(ExclusionKey, FirstOfEach(excluded))[j] == ExclusionKey(excluded[i]);
  }

  /** Every exclusion of the policy gives a reason that holds in one of the walks, for that walk's side and token. */
  lemma EveryExclusionIsFair(inv: Inventory, names: Names, q: Request, p: Policy, x: ExcludedGpo)
    requires Delivers(inv, names, q, p) && x in p.excluded
    ensures Fair(q, inv.topology.gpos, names, x)
  {
    hide Gather, Comes, Fair, Settled, IsMergeOf, ExclusionKey, FirstOfEach;
    GatherIsSound(q, inv.topology.gpos, names);
    FirstsAreKept(Gather(q, inv.topology.gpos, names).1);
  }

  // ----- Loopback merge, end to end -----

  /** Entries that only hold settings of the other side leave a bucket empty. */
  lemma {:induction false} OtherSideBucket(entries: seq<ChainEntry>, key: Key)
    requires forall e, s :: e in entries && s in e.settings ==> s.side != key.side
    ensures Bucket(entries, key) == []
  {
    if Bucket(entries, key) != [] {
      var o := Bucket(entries, key)[0];
      BucketSound(entries, key, o);
    }
  }

  lemma WalkSide(w: Walk, src: Source, gpos: map<string, Gpo>, names: Names, e: ChainEntry, s: Setting)
    requires w.entries == [] && e in CollectAll(w, src, gpos, names).entries && s in e.settings
    ensures s.side == src.side
  {
    EntriesAdmitted(w, src, |src.chain|, gpos, names);
    assert Admitted(src, gpos, names, e);
  }

  /** A walk's own entries are admitted, whatever set it shares. */
  lemma {:induction false} EntriesAdmitted(w: Walk, src: Source, n: nat, gpos: map<string, Gpo>, names: Names)
    requires n <= |src.chain|
    ensures forall e :: e in Collect(w, src, n, gpos, names).entries ==> e in w.entries || Admitted(src, gpos, names, e)
  {
    hide Evaluate, Contribution;
    if n > 0 {
      EntriesAdmitted(w, src, n - 1, gpos, names);
      assert LinksTo(src, gpos, src.chain[n - 1]) <==> src.chain[n - 1].enabled && src.chain[n - 1].gpoId in gpos;
    }
  }

  /**
   In loopback merge, what the policy holds under a User-side key is the merge of the user chain's entries with the
   raised entries of the computer chain, to which the loopback merge law applies; under a Computer-side key it is the
   merge of the computer chain's own entries.
   */
  lemma LoopbackMergeBuckets(q: Request, gpos: map<string, Gpo>, names: Names, key: Key)
    requires q.pair && q.mode == Some(Merges)
    ensures var u := CollectAll(Walk([], [], Some({})), Source(q.chain, User, q.Combined()), gpos, names);
            var l := CollectAll(Walk([], u.excluded, None), Source(q.compChain, User, q.compToken), gpos, names);
            var c := CollectAll(Walk([], l.excluded, u.seen), Source(q.compChain, Side.Computer, q.Combined()), gpos,
                                names);
            Bucket(Gather(q, gpos, names).0, key)
            == if key.side == User then Bucket(u.entries + Raised(l.entries, Offset(u.entries)), key)
               else Bucket(c.entries, key)
  {
    hide CollectAll, Bucket, Offset, Raised;
    var w0, s0 := Walk([], [], Some({})), Source(q.chain, User, q.Combined());
    var u := CollectAll(w0, s0, gpos, names);
    var w1, s1 := Walk([], u.excluded, None), Source(q.compChain, User, q.compToken);
    var l := CollectAll(w1, s1, gpos, names);
    var w2, s2 := Walk([], l.excluded, u.seen), Source(q.compChain, Side.Computer, q.Combined());
    var c := CollectAll(w2, s2, gpos, names);
    var raised := Raised(l.entries, Offset(u.entries));
    BucketOfConcat(u.entries + raised, c.entries, key);
    if key.side == User {
      forall e, s | e in c.entries && s in e.settings
        ensures s.side != key.side { WalkSide(w2, s2, gpos, names, e, s); }
      OtherSideBucket(c.entries, key);
    } else {
      forall e, s | e in u.entries + raised && s in e.settings ensures s.side != key.side {
        if e in u.entries {
          WalkSide(w0, s0, gpos, names, e, s);
        } else {
          RaisedMember(l.entries, Offset(u.entries), e);
          var f :| f in l.entries && SameButOrder(e, f);
          WalkSide(w1, s1, gpos, names, f, s);
        }
      }
      OtherSideBucket(u.entries + raised, key);
    }
  }

  /** Outside preferences something always wins, and it has the greatest order. */
  lemma OrdinaryWinner(items: seq<Occurrence>)
    requires items != [] && forall o :: o in items ==> !IsGpp(o.setting.cse)
    ensures WinnerOf(items).Some? && WinnerOf(items).value in items
    ensures forall o :: o in items ==> o.order <= WinnerOf(items).value.order
  {
    hide IsGpp, ModeOf, Survivor;
    PlainUpdatesAgree(items);
  }

  /**
   The one item of the greatest order in two runs, the second above the first, lies in the second unless that is empty.
   */
  lemma LaterRunWins(u: seq<Occurrence>, l: seq<Occurrence>, lift: int, w: Occurrence)
    requires w in u + RaisedItems(l, lift) && forall o :: o in u + RaisedItems(l, lift) ==> o.order <= w.order
    requires forall x, y :: x in u && y in RaisedItems(l, lift) ==> x.order < y.order
    ensures if l != [] then exists x :: x in l && w == RaiseItem(x, lift) && forall o :: o in l ==> o.order <= x.order
            else w in u && forall o :: o in u ==> o.order <= w.order
  {
    var raised := RaisedItems(l, lift);
    if l != [] {
      assert raised[0] in raised;
      assert w in raised;
      var i :| 0 <= i < |raised| && raised[i] == w;
      forall o | o in l ensures o.order <= l[i].order {
        var k :| 0 <= k < |l| && l[k] == o;
        assert raised[k] in raised;
      }
    }
  }

  /**
   Loopback merge for a principal: under every User-side key that is no preference item, the policy has a winner exactly
   when one of the two chains sets the key, and it has the greatest order of the user chain's items and the raised items
   of the computer chain. If the offset outranks, it is an item of the computer chain whenever that chain sets the key.
   */
  lemma LoopbackMergeWinner(inv: Inventory, names: Names, q: Request, p: Policy, key: Key)
    requires Delivers(inv, names, q, p) && q.pair && q.mode == Some(Merges) && key.side == User && !IsGpp(key.cse)
    ensures var gpos := inv.topology.gpos;
            var user := CollectAll(Walk([], [], Some({})), Source(q.chain, User, q.Combined()), gpos, names);
            var comp := CollectAll(Walk([], user.excluded, None), Source(q.compChain, User, q.compToken), gpos, names);
            var u, l, lift := Bucket(user.entries, key), Bucket(comp.entries, key), Offset(user.entries);
            && (key in p.settings <==> u != [] || l != [])
            && (key in p.settings ==>
                  var w := p.settings[key].winner;
                  && w in u + RaisedItems(l, lift) && (forall o :: o in u + RaisedItems(l, lift) ==> o.order <= w.order)
                  && (Outranks(user.entries, comp.entries) ==>
                        if l != [] then exists x :: x in l && w == RaiseItem(x, lift) && forall o :: o in l
                                                                                           ==> o.order <= x.order
                        else w in u && forall o :: o in u ==> o.order <= w.order))
  {
    hide CollectAll, Bucket, Offset, Gather, IsGpp, ModeOf, Survivor, Raised, RaisedItems, Strongest, Outranks,
         Overridden;
    var gpos := inv.topology.gpos;
    var user := CollectAll(Walk([], [], Some({})), Source(q.chain, User, q.Combined()), gpos, names);
    var comp := CollectAll(Walk([], user.excluded, None), Source(q.compChain, User, q.compToken), gpos, names);
    LoopbackMergeBuckets(q, gpos, names, key);
    LoopbackBucket(user.entries, comp.entries, key);
    var u, l, lift := Bucket(user.entries, key), Bucket(comp.entries, key), Offset(user.entries);
    RaisedSize(l, lift);
    var items := u + RaisedItems(l, lift);
    var entries := Gather(q, gpos, names).0;
    assert Bucket(entries, key) == items;
    assert Resolve(entries, inv.ilt, key) == if key in p.settings then Some(p.settings[key]) else None;
    if items != [] {
      forall o | o in items ensures !IsGpp(o.setting.cse) { BucketSound(entries, key, o); }
      OrdinaryWinner(items);
      if Outranks(user.entries, comp.entries) {
        OffsetSeparates(user.entries, comp.entries, key);
        LaterRunWins(u, l, lift, WinnerOf(items).value);
      }
    }
  }
}
