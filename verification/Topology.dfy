/** Chain folding, per-scope conflicts and the settings that apply at a scope. */
module Topology {
  import opened Estate
  import opened Prelude
  import opened Sorting
  import opened Text

  datatype SomLink = SomLink(gpoId: string, order: int, enabled: bool, enforced: bool)

  datatype Som = Som(path: string, container: Container, links: seq<SomLink>)

  /** `gpos` is the estate's index by GPO id. */
  datatype Topology = Topology(gpos: map<string, Gpo>, soms: seq<Som>)

  /** What a scope's chain resolution depends on. */
  datatype ChainLink = ChainLink(gpoId: string, order: int, enforced: bool)

  /** The first scope with this path, ignoring case. */
  function FindSom(soms: seq<Som>, path: string): (r: Option<Som>)
    ensures r.Some? ==> r.value in soms && Lower(r.value.path) == Lower(path)
  {
    if soms == [] then None
    else if Lower(soms[0].path) == Lower(path) then Some(soms[0])
    else FindSom(soms[1..], path)
  }

  /** The enabled links among the first `n`. */
  function EnabledChain(links: seq<SomLink>, n: nat): (chain: seq<ChainLink>)
    requires n <= |links|
    ensures forall c :: c in chain ==> SomLink(c.gpoId, c.order, true, c.enforced) in links
  {
    if n == 0 then []
    else if links[n - 1].enabled then
      EnabledChain(links, n - 1) + [ChainLink(links[n - 1].gpoId, links[n - 1].order, links[n - 1].enforced)]
    else EnabledChain(links, n - 1)
  }

  function Linked(link: SomLink): ChainLink {
    ChainLink(link.gpoId, link.order, link.enforced)
  }

  /** The chain holds exactly the enabled links, with their orders, as listed. */
  lemma {:induction false} EnabledExactly(links: seq<SomLink>, n: nat) returns (at: seq<nat>)
    requires n <= |links|
    ensures PicksAt(Image(Linked, links[..n]), EnabledChain(links, n), at)
    ensures forall i: nat :: i in at <==> i < n && links[i].enabled
  {
    if n == 0 {
      at := [];
    } else {
      at := EnabledExactly(links, n - 1);
      var before, last := Image(Linked, links[..n - 1]), Linked(links[n - 1]);
      assert Image(Linked, links[..n]) == before + [last];
      PicksMore(before, EnabledChain(links, n - 1), at, last);
      if links[n - 1].enabled { at := at + [|before|]; }
    }
  }

  function ChainOf(som: Som): seq<ChainLink> {
    EnabledChain(som.links, |som.links|)
  }

  /** What a link brings to the fold; a link to a GPO that was not collected brings nothing. */
  function Brings(gpos: map<string, Gpo>, link: ChainLink): ChainEntry {
    if link.gpoId in gpos then
      ChainEntry(link.gpoId, gpos[link.gpoId].name, link.order, link.enforced, gpos[link.gpoId].settings)
    else ChainEntry(link.gpoId, "<unknown>", link.order, link.enforced, [])
  }

  function ChainBucket(gpos: map<string, Gpo>, chain: seq<ChainLink>, key: Key): seq<Occurrence> {
    Bucket(Image(link => Brings(gpos, link), chain), key)
  }

  /** `_fold_chain_to_buckets`: nothing for a path that is not a scope or has no enabled link. */
  method FoldChainToBuckets(t: Topology, path: string) returns (r: Option<Buckets>)
    ensures r.None? <==> (FindSom(t.soms, path).None? || ChainOf(FindSom(t.soms, path).value) == [])
    ensures r.Some? ==> Filled(r.value)
                        && forall key :: At(r.value, key)
                             == ChainBucket(t.gpos, ChainOf(FindSom(t.soms, path).value), key)
  {
    var som := FindSom(t.soms, path);
    if som.None? { return None; }
    var chain: seq<ChainLink> := [];
    for i := 0 to |som.value.links|
      invariant chain == EnabledChain(som.value.links, i)
    {
      var link := som.value.links[i];
      if link.enabled { chain := chain + [ChainLink(link.gpoId, link.order, link.enforced)]; }
    }
    if chain == [] { return None; }
    var buckets: Buckets := map[];
    for i := 0 to |chain|
      invariant Filled(buckets)
      invariant forall key :: At(buckets, key) == ChainBucket(t.gpos, chain[..i], key)
    {
      ghost var before := buckets;
      if chain[i].gpoId in t.gpos {
        buckets := AddToBuckets(buckets, Brings(t.gpos, chain[i]));
      }
      forall key ensures At(buckets, key) == ChainBucket(t.gpos, chain[..i + 1], key) {
        assert At(before, key) == ChainBucket(t.gpos, chain[..i], key);
        ChainBucketGrows(t.gpos, chain, i, key);
      }
    }
    assert chain[..|chain|] == chain;
    return Some(buckets);
  }

  lemma ChainBucketGrows(gpos: map<string, Gpo>, chain: seq<ChainLink>, i: nat, key: Key)
    requires i < |chain|
    ensures var e := Brings(gpos, chain[i]);
            ChainBucket(gpos, chain[..i + 1], key) == ChainBucket(gpos, chain[..i], key) + Live(e, |e.settings|, key)
    ensures chain[i].gpoId !in gpos ==> ChainBucket(gpos, chain[..i + 1], key) == ChainBucket(gpos, chain[..i], key)
  {
    var f := link => Brings(gpos, link);
    assert Image(f, chain[..i + 1]) == Image(f, chain[..i]) + [Brings(gpos, chain[i])];
    assert Image(f, chain[..i + 1])[..i] == Image(f, chain[..i]);
  }

  // ----- Conflicts at one scope -----

  datatype Contender = Contender(gpoName: string, value: string, wins: bool)

  /** The sorted contenders of a conflict are represented by their multiset. */
  datatype Conflict = Conflict(key: Key, winner: string, contenders: multiset<Contender>)

  function Names(items: seq<Occurrence>): set<string> {
    set o | o in items :: o.gpoName
  }

  function Values(items: seq<Occurrence>): set<string> {
    set o | o in items :: o.setting.value
  }

  function Contends(o: Occurrence, winner: string): Contender {
    Contender(o.gpoName, o.setting.value, o.gpoName == winner)
  }

  /** How many of the items a GPO of this name makes with this value. */
  function CountOf(items: seq<Occurrence>, gpoName: string, value: string): nat {
    if items == [] then 0
    else
      var last := items[|items| - 1];
      CountOf(items[..|items| - 1], gpoName, value) + if last.gpoName == gpoName
        && last.setting.value == value then 1 else 0
  }

  lemma {:induction false} ContendersCount(items: seq<Occurrence>, winner: string, c: Contender)
    ensures multiset(Image(o => Contends(o, winner), items))[c]
            == if c.wins == (c.gpoName == winner) then CountOf(items, c.gpoName, c.value) else 0
  {
    var f := (o: Occurrence) => Contends(o, winner);
    if items != [] {
      var rest, last := items[..|items| - 1], items[|items| - 1];
      ContendersCount(rest, winner, c);
      assert Image(f, items) == Image(f, rest) + [f(last)];
    }
  }

  function ConflictOf(key: Key, items: seq<Occurrence>): Option<Conflict> {
    if items == [] || |Names(items)| < 2 || |Values(items)| < 2 then None
    else
      var winner := Strongest(items).gpoName;
      Some(Conflict(key, winner, multiset(Image(o => Contends(o, winner), items))))
  }

  lemma TwoOf<T>(s: set<T>)
    ensures |s| >= 2 <==> exists x, y :: x in s && y in s && x != y
  {
    if s != {} {
      var x :| x in s;
      if s != {x} {
        var y :| y in s && y != x;
        assert |s - {x, y}| == |s| - |{x, y}|;
      }
    }
  }

  lemma TwoNamesTwoValues(items: seq<Occurrence>)
    ensures |Names(items)| >= 2 <==> exists a, b :: a in items && b in items && a.gpoName != b.gpoName
    ensures |Values(items)| >= 2 <==> exists a, b :: a in items && b in items && a.setting.value != b.setting.value
  {
    TwoOf(Names(items));
    TwoOf(Values(items));
    if a, b :| a in items && b in items && a.gpoName != b.gpoName {
      assert a.gpoName in Names(items) && b.gpoName in Names(items);
    }
    if a, b :| a in items && b in items && a.setting.value != b.setting.value {
      assert a.setting.value in Values(items) && b.setting.value in Values(items);
    }
  }

  /**
   A setting is in conflict exactly when two different GPOs set it and not all of its values agree; its winner is the
   GPO of the greatest order, and each name and value is listed as often as it occurs, marked iff that GPO made it.
   */
  lemma ConflictMeans(key: Key, items: seq<Occurrence>)
    ensures ConflictOf(key, items).Some? <==>
              && (exists a, b :: a in items && b in items && a.gpoName != b.gpoName)
              && (exists a, b :: a in items && b in items && a.setting.value != b.setting.value)
    ensures ConflictOf(key, items).Some? ==>
              var winner, contenders := ConflictOf(key, items).value.winner, ConflictOf(key, items).value.contenders;
              && (exists w :: w in items && w.gpoName == winner && forall o :: o in items ==> o.order <= w.order)
              && (forall c: Contender ::
                    contenders[c] == if c.wins == (c.gpoName == winner) then CountOf(items, c.gpoName, c.value) else 0)
  {
    hide Strongest, CountOf, Names, Values;
    TwoNamesTwoValues(items);
    if ConflictOf(key, items).Some? {
      var winner := Strongest(items).gpoName;
      forall c: Contender
        ensures multiset(Image(o => Contends(o, winner), items))[c]
                == if c.wins == (c.gpoName == winner) then CountOf(items, c.gpoName, c.value) else 0
      {
        ContendersCount(items, winner, c);
      }
    }
  }

  lemma ConflictShows(key: Key, items: seq<Occurrence>)
    ensures ConflictOf(key, items).Some? ==>
              && items != [] && ConflictOf(key, items).value.key == key
              && ConflictOf(key, items).value.winner == Strongest(items).gpoName
  {
  }

  /** The conflict over one setting at one scope path, if any. */
  function ConflictAt(t: Topology, path: string, key: Key): Option<Conflict> {
    var som := FindSom(t.soms, path);
    if som.None? then None else ConflictOf(key, ChainBucket(t.gpos, ChainOf(som.value), key))
  }

  lemma EmptyChainHasNoConflict(gpos: map<string, Gpo>, key: Key)
    ensures ConflictOf(key, ChainBucket(gpos, [], key)) == None
  {
    assert Image(link => Brings(gpos, link), []) == [];
  }

  /** `som_conflicts`, without the order of its result. */
  method SomConflicts(t: Topology, path: string) returns (conflicts: map<Key, Conflict>)
    ensures forall key :: key in conflicts <==> ConflictAt(t, path, key).Some?
    ensures forall key :: key in conflicts ==> ConflictAt(t, path, key) == Some(conflicts[key])
  {
    hide ChainBucket, FindSom;
    var buckets := FoldChainToBuckets(t, path);
    conflicts := map[];
    if buckets.None? {
      forall key ensures ConflictAt(t, path, key).None? { EmptyChainHasNoConflict(t.gpos, key); }
      return;
    }
    var todo := buckets.value.Keys;
    while todo != {}
      invariant todo <= buckets.value.Keys
      invariant forall key :: key in conflicts <==> key in buckets.value.Keys - todo && ConflictAt(t, path, key).Some?
      invariant forall key :: key in conflicts ==> ConflictAt(t, path, key) == Some(conflicts[key])
    {
      var key :| key in todo;
      todo := todo - {key};
      assert At(buckets.value, key) == buckets.value[key];
      var conflict := ConflictOf(key, buckets.value[key]);
      if conflict.Some? { conflicts := conflicts[key := conflict.value]; }
    }
    forall key | key !in buckets.value ensures ConflictAt(t, path, key).None? { assert At(buckets.value, key) == []; }
  }

  // ----- The settings that apply at one scope -----

  datatype EffectiveSetting = EffectiveSetting(winner: Occurrence, overridden: seq<(string, string)>)

  /** `settings_at_som`, without the order of its result. */
  method SettingsAtSom(t: Topology, path: string) returns (settings: map<Key, EffectiveSetting>)
    ensures forall key :: key in settings <==>
              FindSom(t.soms, path).Some? && ChainBucket(t.gpos, ChainOf(FindSom(t.soms, path).value), key) != []
    ensures forall key :: key in settings ==>
              var items := ChainBucket(t.gpos, ChainOf(FindSom(t.soms, path).value), key);
              settings[key] == EffectiveSetting(Strongest(items), Overridden(items, Strongest(items).order, true))
  {
    hide ChainBucket, FindSom, Strongest, Overridden;
    var buckets := FoldChainToBuckets(t, path);
    settings := map[];
    if buckets.None? {
      forall key ensures ChainBucket(t.gpos, [], key) == [] { EmptyChainHasNoBucket(t.gpos, key); }
      return;
    }
    var todo := buckets.value.Keys;
    while todo != {}
      invariant todo <= buckets.value.Keys
      invariant settings.Keys == buckets.value.Keys - todo
      invariant forall key :: key in settings ==>
                  var items := buckets.value[key];
                  settings[key] == EffectiveSetting(Strongest(items), Overridden(items, Strongest(items).order, true))
    {
      var key :| key in todo;
      todo := todo - {key};
      var winner := Strongest(buckets.value[key]);
      var overridden: seq<(string, string)> := [];
      OverriddenGrows(buckets.value[key], 0, winner.order, true);
      for i := 0 to |buckets.value[key]|
        invariant overridden == Overridden(buckets.value[key][..i], winner.order, true)
      {
        var o := buckets.value[key][i];
        OverriddenGrows(buckets.value[key], i, winner.order, true);
        if o.order < winner.order { overridden := overridden + [(o.gpoName, o.setting.value)]; }
      }
      assert buckets.value[key][..|buckets.value[key]|] == buckets.value[key];
      settings := settings[key := EffectiveSetting(winner, overridden)];
    }
    forall key ensures At(buckets.value, key) == if key in buckets.value then buckets.value[key] else [] {}
  }

  lemma EmptyChainHasNoBucket(gpos: map<string, Gpo>, key: Key)
    ensures ChainBucket(gpos, [], key) == []
  {
    assert Image(link => Brings(gpos, link), []) == [];
  }
}
