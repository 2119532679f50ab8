/** Exactly when the merge and the view at one scope name the same winners of preference items that only update. */
module ScopeAgreement {
  import opened ChainRanking
  import opened Cse
  import opened Estate
  import opened GppActions
  import opened GpoIndex
  import opened Merge
  import opened MergeTheorems
  import opened Prelude
  import opened Sorting
  import opened Text
  import opened Topology

  ghost predicate IsLastTop(chain: seq<ChainLink>, ids: set<string>, k: nat) {
    && k < |chain| && chain[k].gpoId in ids
    && (forall j :: k < j < |chain| && chain[j].gpoId in ids ==> chain[j].order < chain[k].order)
    && (forall j :: 0 <= j < |chain| && chain[j].gpoId in ids ==> chain[j].order <= chain[k].order)
  }

  /** The last link of the greatest order among those to `ids`. */
  function LastTopOf(chain: seq<ChainLink>, ids: set<string>): (r: Option<nat>)
    ensures r.Some? ==> r.value < |chain| && chain[r.value].gpoId in ids
  {
    if chain == [] then None
    else
      var r, last := LastTopOf(chain[..|chain| - 1], ids), chain[|chain| - 1];
      if last.gpoId in ids && (r.None? || last.order >= chain[r.value].order) then Some(|chain| - 1) else r
  }

  lemma {:induction false} LastTopIsTop(chain: seq<ChainLink>, ids: set<string>)
    ensures match LastTopOf(chain, ids)
            case None => forall l :: l in chain ==> l.gpoId !in ids
            case Some(k) => IsLastTop(chain, ids, k)
  {
    if chain != [] {
      var rest := chain[..|chain| - 1];
      LastTopIsTop(rest, ids);
      assert forall j :: 0 <= j < |rest| ==> rest[j] == chain[j] && rest[j] in rest;
    }
  }

  lemma LastTopIsUnique(chain: seq<ChainLink>, ids: set<string>, k: nat)
    requires IsLastTop(chain, ids, k)
    ensures LastTopOf(chain, ids) == Some(k)
  {
    LastTopIsTop(chain, ids);
    assert chain[k] in chain;
  }

  /**
   Among the links to their two GPOs link `i` is the first and link `j` the last of the greatest order, and they are
   different links.
   */
  ghost predicate TiedApart(chain: seq<ChainLink>, i: nat, j: nat) {
    && i < |chain| && j < |chain| && chain[i] != chain[j]
    && IsTop(chain, {chain[i].gpoId, chain[j].gpoId}, i) && IsLastTop(chain, {chain[i].gpoId, chain[j].gpoId}, j)
  }

  /** No GPO makes the setting twice. */
  ghost predicate MadeOnce(gpos: map<string, Gpo>, key: Key) {
    forall id, i, j :: id in gpos && 0 <= i < j < |gpos[id].settings| ==>
      !(Makes(gpos[id].settings[i], key) && Makes(gpos[id].settings[j], key))
  }

  predicate Makes(s: Setting, key: Key) {
    !s.fromDisabledSide && KeyOf(s) == key
  }

  predicate OnlyUpdates(items: seq<Occurrence>) {
    forall o :: o in items ==> ActionOf(o).Update? || ActionOf(o).Replace?
  }

  /** If the setting runs through the action machine with updates alone, both views name one winner. */
  ghost predicate Agrees(gpos: map<string, Gpo>, chain: seq<ChainLink>, key: Key) {
    var items := ChainBucket(gpos, chain, key);
    items != [] && ModeOf(items[0].setting).Accumulate? && OnlyUpdates(items) ==>
      var m := Resolve(Image(link => Brings(gpos, link), chain), {}, key);
      m.Some? && m.value.winner == Strongest(items)
  }

  // ----- Where the two winners come from -----

  lemma {:induction false} StrongestOfMore(a: seq<Occurrence>, b: seq<Occurrence>, order: int)
    requires b != [] && forall o :: o in b ==> o.order == order
    ensures if a == [] || order > Strongest(a).order then Strongest(a + b) in b else Strongest(a + b) == Strongest(a)
  {
    var n := |b| - 1;
    assert (a + b)[..|a + b| - 1] == a + b[..n];
    if n == 0 {
      assert a + b[..n] == a;
      if a == [] { assert a + b == b; }
    } else {
      StrongestOfMore(a, b[..n], order);
    }
  }

  lemma {:induction false} LatestOfMore(a: seq<Occurrence>, b: seq<Occurrence>, order: int)
    requires b != [] && forall o :: o in b ==> o.order == order
    ensures if a == [] || order >= Latest(a).order then Latest(a + b) in b else Latest(a + b) == Latest(a)
  {
    var n := |b| - 1;
    assert (a + b)[..|a + b| - 1] == a + b[..n];
    if n == 0 {
      assert a + b[..n] == a;
      if a == [] { assert a + b == b; }
    } else {
      LatestOfMore(a, b[..n], order);
    }
  }

  function ItemsOf(gpos: map<string, Gpo>, link: ChainLink, key: Key): (items: seq<Occurrence>)
    ensures forall o :: o in items ==> o.gpoId == link.gpoId && o.order == link.order && o.enforced == link.enforced
  {
    var e := Brings(gpos, link);
    Live(e, |e.settings|, key)
  }

  /** The view's winner is an item of the first link of the greatest order, the machine's of the last. */
  lemma {:induction false} WinnersComeFrom(gpos: map<string, Gpo>, chain: seq<ChainLink>, key: Key, ids: set<string>)
    requires forall l :: l in chain ==> (l.gpoId in ids <==> Sets(gpos, l.gpoId, key))
    ensures var items, i, j := ChainBucket(gpos, chain, key), TopOf(chain, ids), LastTopOf(chain, ids);
            && (items == [] <==> i.None?) && (items == [] <==> j.None?)
            && (items != [] ==> Strongest(items) in ItemsOf(gpos, chain[i.value], key))
            && (items != [] ==> Latest(items) in ItemsOf(gpos, chain[j.value], key))
  {
    hide Strongest, Latest, Sets, Bucket, ItemsOf;
    if chain == [] {
      EmptyChainHasNoBucket(gpos, key);
    } else {
      var n := |chain| - 1;
      var rest, last := chain[..n], chain[n];
      WinnersComeFrom(gpos, rest, key, ids);
      BucketGrowsBy(gpos, chain, key);
      var a, b := ChainBucket(gpos, rest, key), ItemsOf(gpos, last, key);
      if b != [] {
        StrongestOfMore(a, b, last.order);
        LatestOfMore(a, b, last.order);
      } else {
        assert a + b == a;
      }
    }
  }

  lemma BucketGrowsBy(gpos: map<string, Gpo>, chain: seq<ChainLink>, key: Key)
    requires chain != []
    ensures var last := chain[|chain| - 1];
            && ChainBucket(gpos, chain, key) == ChainBucket(gpos, chain[..|chain| - 1], key) + ItemsOf(gpos, last, key)
            && (ItemsOf(gpos, last, key) != [] <==> Sets(gpos, last.gpoId, key))
  {
    hide Bucket, Sets;
    ChainBucketGrows(gpos, chain, |chain| - 1, key);
    assert chain[..|chain|] == chain;
    BringsIfSets(gpos, chain[|chain| - 1], key);
  }

  // ----- Agreement -----

  lemma {:induction false} LiveOnce(e: ChainEntry, n: nat, key: Key)
    requires n <= |e.settings|
    requires forall i, j :: 0 <= i < j < |e.settings| ==> !(Makes(e.settings[i], key) && Makes(e.settings[j], key))
    ensures |Live(e, n, key)| <= 1
  {
    if n > 0 {
      LiveOnce(e, n - 1, key);
      LiveIfSets(e, n - 1, key);
      if Makes(e.settings[n - 1], key) { assert Live(e, n - 1, key) == []; }
    }
  }

  lemma OneItemEach(gpos: map<string, Gpo>, link: ChainLink, key: Key, x: Occurrence, y: Occurrence)
    requires MadeOnce(gpos, key) && x in ItemsOf(gpos, link, key) && y in ItemsOf(gpos, link, key)
    ensures x == y
  {
    hide Makes;
    var e := Brings(gpos, link);
    LiveOnce(e, |e.settings|, key);
  }

  /** Whoever leads among more competitors leads among fewer. */
  lemma TopsAmongFewer(chain: seq<ChainLink>, ids: set<string>, fewer: set<string>, i: nat, j: nat)
    requires fewer <= ids && IsTop(chain, ids, i) && IsLastTop(chain, ids, j)
    requires chain[i].gpoId in fewer && chain[j].gpoId in fewer
    ensures IsTop(chain, fewer, i) && IsLastTop(chain, fewer, j)
  {
  }

  lemma UntiedAgrees(gpos: map<string, Gpo>, chain: seq<ChainLink>, key: Key)
    requires MadeOnce(gpos, key) && forall i: nat, j: nat :: !TiedApart(chain, i, j)
    ensures Agrees(gpos, chain, key)
  {
    hide MadeOnce, Sets, Bucket, ModeOf, ActionOf, Survivor, Strongest, Latest, ItemsOf, IsTop, IsLastTop, IsGpp, Ids;
    var items := ChainBucket(gpos, chain, key);
    if items != [] && OnlyUpdates(items) {
      PlainUpdatesAgree(items);
      var ids := SettersOf(gpos, chain, key);
      WinnersComeFrom(gpos, chain, key, ids);
      var i, j := TopOf(chain, ids).value, LastTopOf(chain, ids).value;
      TopIsTop(chain, ids);
      LastTopIsTop(chain, ids);
      TopsAmongFewer(chain, ids, {chain[i].gpoId, chain[j].gpoId}, i, j);
      assert !TiedApart(chain, i, j);
      OneItemEach(gpos, chain[i], key, Strongest(items), Latest(items));
    }
  }

  lemma SettersOf(gpos: map<string, Gpo>, chain: seq<ChainLink>, key: Key) returns (ids: set<string>)
    ensures forall l :: l in chain ==> (l.gpoId in ids <==> Sets(gpos, l.gpoId, key))
  {
    hide Sets;
    ids := set id | id in Ids(chain) && Sets(gpos, id, key);
  }

  // ----- Disagreement -----

  lemma DriveAction(value: string)
    ensures ModeOf(Drive(value)).Accumulate? && IsGpp("drives") && Classify("").Update?
  {
    TrimmedStrips("drives");
    assert Lower("drives") == "drives";
    assert "drives"[0] == 'd' && "drives"[1] == 'r';
  }

  function DriveEstate(chain: seq<ChainLink>, g: string, h: string): seq<Gpo> {
    Makers(chain, g, h, Drive("1"), Drive("2"))
  }

  const DRIVE_KEY := KeyOf(Drive("1"))

  lemma DrivesMadeOnce(chain: seq<ChainLink>, g: string, h: string)
    ensures MadeOnce(Indexed(DriveEstate(chain, g, h)), DRIVE_KEY)
  {
    hide Indexed, LastOfId, FirstOfForm, Makes, Drive;
    var gpos := DriveEstate(chain, g, h);
    forall id | id in Indexed(gpos) ensures |Indexed(gpos)[id].settings| <= 1 {
      var k := KeyHolder(gpos, id);
      HoldersAreListed(gpos, id);
    }
  }

  lemma DrivesAreSet(chain: seq<ChainLink>, g: string, h: string, link: ChainLink)
    requires link in chain
    ensures Sets(Indexed(DriveEstate(chain, g, h)), link.gpoId, DRIVE_KEY) <==> link.gpoId in {g, h}
  {
    hide Indexed;
    MakerIsIndexed(chain, g, h, Drive("1"), Drive("2"), link);
    var made := Maker(link.gpoId, g, h, Drive("1"), Drive("2"));
    if link.gpoId in {g, h} { assert made.settings[0] in made.settings; }
  }

  lemma DrivesOnlyUpdate(chain: seq<ChainLink>, g: string, h: string)
    ensures var items := ChainBucket(Indexed(DriveEstate(chain, g, h)), chain, DRIVE_KEY);
            OnlyUpdates(items) && forall o :: o in items ==> ModeOf(o.setting).Accumulate?
  {
    hide Indexed, Bucket, Maker, ModeOf, ActionOf, Drive;
    var index := Indexed(DriveEstate(chain, g, h));
    var entries := Image(link => Brings(index, link), chain);
    forall o | o in Bucket(entries, DRIVE_KEY)
      ensures o.setting in {Drive("1"), Drive("2")}
    {
      BucketSound(entries, DRIVE_KEY, o);
      var e :| e in entries && o == OccurrenceOf(e, o.setting) && o.setting in e.settings;
      var k :| 0 <= k < |entries| && entries[k] == e;
      MakerIsIndexed(chain, g, h, Drive("1"), Drive("2"), chain[k]);
      MakerMakes(chain[k].gpoId, g, h);
    }
    forall o: Occurrence | o.setting in {Drive("1"), Drive("2")}
      ensures ActionOf(o).Update? && ModeOf(o.setting).Accumulate?
    {
      DriveUpdates(o);
    }
  }

  lemma MakerMakes(id: string, g: string, h: string)
    ensures forall s :: s in Maker(id, g, h, Drive("1"), Drive("2")).settings ==> s in {Drive("1"), Drive("2")}
  {
    hide Drive;
  }

  lemma DriveUpdates(o: Occurrence)
    requires o.setting in {Drive("1"), Drive("2")}
    ensures ActionOf(o).Update? && ModeOf(o.setting).Accumulate?
  {
    hide ModeOf, IsGpp, Classify;
    DriveAction("1");
    DriveAction("2");
  }

  /** Where two links tie apart, some estate maps one drive in both GPOs, and the two views name different winners. */
  lemma TiedDiffers(chain: seq<ChainLink>, i: nat, j: nat)
    requires TiedApart(chain, i, j)
    ensures var index := Indexed(DriveEstate(chain, chain[i].gpoId, chain[j].gpoId));
            var items := ChainBucket(index, chain, DRIVE_KEY);
            var m := Resolve(Image(link => Brings(index, link), chain), {}, DRIVE_KEY);
            && MadeOnce(index, DRIVE_KEY) && !Agrees(index, chain, DRIVE_KEY)
            && items != [] && m.Some?
            && Strongest(items) in ItemsOf(index, chain[i], DRIVE_KEY)
            && m.value.winner in ItemsOf(index, chain[j], DRIVE_KEY)
  {
    hide Indexed, Bucket, ModeOf, ActionOf, Survivor, Strongest, Latest, ItemsOf, IsGpp, Sets, MadeOnce, DRIVE_KEY,
         IsTop, IsLastTop, DriveEstate, OnlyUpdates;
    var g, h := chain[i].gpoId, chain[j].gpoId;
    var index := Indexed(DriveEstate(chain, g, h));
    DrivesMadeOnce(chain, g, h);
    DrivesOnlyUpdate(chain, g, h);
    forall l | l in chain ensures l.gpoId in {g, h} <==> Sets(index, l.gpoId, DRIVE_KEY) {
      DrivesAreSet(chain, g, h, l);
    }
    WinnersComeFrom(index, chain, DRIVE_KEY, {g, h});
    TopIsUnique(chain, {g, h}, i);
    LastTopIsUnique(chain, {g, h}, j);
    TopsAreEqual(chain, {g, h}, i, j);
    var items := ChainBucket(index, chain, DRIVE_KEY);
    PlainSurvivor(items);
  }

  lemma TopsAreEqual(chain: seq<ChainLink>, ids: set<string>, i: nat, j: nat)
    requires IsTop(chain, ids, i) && IsLastTop(chain, ids, j)
    ensures chain[i].order == chain[j].order
  {
  }

  lemma PlainSurvivor(items: seq<Occurrence>)
    requires items != [] && OnlyUpdates(items)
    ensures Survivor(items) == Some(Latest(items))
  {
    hide ActionOf;
    PlainUpdatesAgree(items);
  }

  /**
   Given the links, the two views name one winner for every setting that each GPO makes at most once and that only
   updates, in every estate, exactly when no two links tie apart.
   */
  lemma ScopeViewAgreesExactly(chain: seq<ChainLink>)
    ensures (forall i: nat, j: nat :: !TiedApart(chain, i, j)) <==>
              forall gpos: seq<Gpo>, key :: MadeOnce(Indexed(gpos), key) ==> Agrees(Indexed(gpos), chain, key)
  {
    hide TiedApart, MadeOnce, Agrees, Indexed;
    if i: nat, j: nat :| TiedApart(chain, i, j) {
      var g, h := LinkedBy(chain, i, j);
      TiedDiffers(chain, i, j);
      assert !Agrees(Indexed(DriveEstate(chain, g, h)), chain, DRIVE_KEY);
    } else {
      forall gpos: seq<Gpo>, key | MadeOnce(Indexed(gpos), key) ensures Agrees(Indexed(gpos), chain, key) {
        UntiedAgrees(Indexed(gpos), chain, key);
      }
    }
  }

  lemma LinkedBy(chain: seq<ChainLink>, i: nat, j: nat) returns (g: string, h: string)
    requires TiedApart(chain, i, j)
    ensures i < |chain| && j < |chain| && g == chain[i].gpoId && h == chain[j].gpoId
  {
    g, h := chain[i].gpoId, chain[j].gpoId;
  }

  /** Two links of one order: the view keeps the first GPO's drive, the action machine the last one's. */
  lemma TiedDrives()
    ensures var chain := [ChainLink("g", 1, false), ChainLink("h", 1, false)];
            var index := Indexed(DriveEstate(chain, "g", "h"));
            var items := ChainBucket(index, chain, DRIVE_KEY);
            var m := Resolve(Image(link => Brings(index, link), chain), {}, DRIVE_KEY);
            && items != [] && Strongest(items).gpoId == "g"
            && m.Some? && m.value.winner.gpoId == "h"
  {
    hide Indexed, Bucket, Resolve, Strongest, ItemsOf, MadeOnce, Agrees, DriveEstate, DRIVE_KEY;
    var chain := [ChainLink("g", 1, false), ChainLink("h", 1, false)];
    assert TiedApart(chain, 0, 1);
    TiedDiffers(chain, 0, 1);
  }
}
