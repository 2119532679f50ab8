/** Exactly when two enabled chains resolve to the same conflicts, whatever their GPOs contain. */
module ChainRanking {
  import opened Estate
  import opened GpoIndex
  import opened Prelude
  import opened Sorting
  import opened Topology

  function IdOf(link: ChainLink): string {
    link.gpoId
  }

  function Ids(chain: seq<ChainLink>): set<string> {
    set l | l in chain :: l.gpoId
  }

  /** How often the chain links a GPO. */
  function LinksOf(chain: seq<ChainLink>, id: string): nat {
    multiset(Image(IdOf, chain))[id]
  }

  ghost predicate IsTop(chain: seq<ChainLink>, ids: set<string>, k: nat) {
    && k < |chain| && chain[k].gpoId in ids
    && (forall j :: 0 <= j < k && chain[j].gpoId in ids ==> chain[j].order < chain[k].order)
    && (forall j :: 0 <= j < |chain| && chain[j].gpoId in ids ==> chain[j].order <= chain[k].order)
  }

  /** The first link of the greatest order among those to `ids`. */
  function TopOf(chain: seq<ChainLink>, ids: set<string>): (r: Option<nat>)
    ensures r.Some? ==> r.value < |chain| && chain[r.value].gpoId in ids
  {
    if chain == [] then None
    else
      var r, last := TopOf(chain[..|chain| - 1], ids), chain[|chain| - 1];
      if last.gpoId in ids && (r.None? || last.order > chain[r.value].order) then Some(|chain| - 1) else r
  }

  lemma {:induction false} TopIsTop(chain: seq<ChainLink>, ids: set<string>)
    ensures match TopOf(chain, ids)
            case None => forall l :: l in chain ==> l.gpoId !in ids
            case Some(k) => IsTop(chain, ids, k)
  {
    if chain != [] {
      var rest := chain[..|chain| - 1];
      TopIsTop(rest, ids);
      assert forall j :: 0 <= j < |rest| ==> rest[j] == chain[j] && rest[j] in rest;
    }
  }

  /** The GPO that wins a setting that exactly the GPOs `ids` make. */
  function Leader(chain: seq<ChainLink>, ids: set<string>): Option<string> {
    match TopOf(chain, ids)
    case None => None
    case Some(k) => Some(chain[k].gpoId)
  }

  /** Whichever two linked GPOs compete, the same one wins in both chains. */
  ghost predicate RankedAlike(a: seq<ChainLink>, b: seq<ChainLink>) {
    forall g, h :: g in Ids(a) && h in Ids(a) ==> Leader(a, {g, h}) == Leader(b, {g, h})
  }

  /**
   The chains link the same GPOs equally often and rank every pair alike; a chain that links fewer than two GPOs has no
   conflicts, so two of those are alike in any case.
   */
  ghost predicate Alike(a: seq<ChainLink>, b: seq<ChainLink>) {
    || (|Ids(a)| < 2 && |Ids(b)| < 2)
    || (multiset(Image(IdOf, a)) == multiset(Image(IdOf, b)) && RankedAlike(a, b))
  }

  lemma TopIsUnique(chain: seq<ChainLink>, ids: set<string>, k: nat)
    requires IsTop(chain, ids, k)
    ensures TopOf(chain, ids) == Some(k)
  {
    TopIsTop(chain, ids);
    assert chain[k] in chain;
  }

  /** Fewer competitors do not unseat a leader that still competes. */
  lemma LeaderAmongFewer(chain: seq<ChainLink>, ids: set<string>, fewer: set<string>)
    requires fewer <= ids && Leader(chain, ids).Some? && Leader(chain, ids).value in fewer
    ensures Leader(chain, fewer) == Leader(chain, ids)
  {
    TopIsTop(chain, ids);
    var k := TopOf(chain, ids).value;
    assert IsTop(chain, fewer, k);
    TopIsUnique(chain, fewer, k);
  }

  lemma LeaderCompetes(chain: seq<ChainLink>, ids: set<string>)
    ensures Leader(chain, ids).Some? ==> Leader(chain, ids).value in ids * Ids(chain)
    ensures Leader(chain, ids).None? <==> ids * Ids(chain) == {}
  {
    TopIsTop(chain, ids);
  }

  /** Ranking pairs alike is ranking any number of competitors alike. */
  lemma PairsDecide(a: seq<ChainLink>, b: seq<ChainLink>, ids: set<string>)
    requires RankedAlike(a, b) && Ids(a) == Ids(b)
    ensures Leader(a, ids) == Leader(b, ids)
  {
    hide Leader, Ids;
    LeaderCompetes(a, ids);
    LeaderCompetes(b, ids);
    if Leader(a, ids).Some? && Leader(b, ids).Some? {
      var w, v := Leader(a, ids).value, Leader(b, ids).value;
      LeaderAmongFewer(a, ids, {w, v});
      LeaderAmongFewer(b, ids, {w, v});
    }
  }

  lemma SameIds(a: seq<ChainLink>, b: seq<ChainLink>)
    requires multiset(Image(IdOf, a)) == multiset(Image(IdOf, b))
    ensures Ids(a) == Ids(b)
  {
    forall id ensures id in Ids(a) <==> id in Ids(b) {
      IdsAreLinked(a, id);
      IdsAreLinked(b, id);
    }
  }

  lemma IdsAreLinked(chain: seq<ChainLink>, id: string)
    ensures id in Ids(chain) <==> LinksOf(chain, id) > 0
  {
    var s := Image(IdOf, chain);
    assert id in multiset(s) <==> id in s;
    if id in Ids(chain) {
      var l :| l in chain && l.gpoId == id;
      var k :| 0 <= k < |chain| && chain[k] == l;
      assert s[k] == id;
    }
    if id in s {
      var k :| 0 <= k < |s| && s[k] == id;
      assert chain[k] in chain;
    }
  }

  // ----- The winner of a setting -----

  ghost predicate Sets(gpos: map<string, Gpo>, id: string, key: Key) {
    id in gpos && exists s :: s in gpos[id].settings && !s.fromDisabledSide && KeyOf(s) == key
  }

  lemma {:induction false} LiveIfSets(entry: ChainEntry, n: nat, key: Key)
    requires n <= |entry.settings|
    ensures Live(entry, n, key) != []
            <==> exists k :: 0 <= k < n && !entry.settings[k].fromDisabledSide && KeyOf(entry.settings[k]) == key
  {
    if n > 0 { LiveIfSets(entry, n - 1, key); }
  }

  lemma BringsIfSets(gpos: map<string, Gpo>, link: ChainLink, key: Key)
    ensures var e := Brings(gpos, link); Live(e, |e.settings|, key) != [] <==> Sets(gpos, link.gpoId, key)
  {
    var e := Brings(gpos, link);
    LiveIfSets(e, |e.settings|, key);
  }

  lemma {:induction false} StrongestOfConcat(a: seq<Occurrence>, b: seq<Occurrence>, order: int, gpoId: string)
    requires b != [] && forall o :: o in b ==> o.order == order && o.gpoId == gpoId
    ensures var r := Strongest(a + b);
            if a == [] || order > Strongest(a).order then r.order == order && r.gpoId == gpoId else r == Strongest(a)
  {
    var n := |b| - 1;
    assert (a + b)[..|a + b| - 1] == a + b[..n];
    if n == 0 {
      assert a + b[..n] == a;
      if a == [] { assert a + b == b; }
    } else {
      StrongestOfConcat(a, b[..n], order, gpoId);
    }
  }

  /** A bucket is won by the leader among the GPOs that make the setting. */
  lemma {:induction false} WinnerIsLeader(gpos: map<string, Gpo>, chain: seq<ChainLink>, key: Key, ids: set<string>)
    requires forall l :: l in chain ==> (l.gpoId in ids <==> Sets(gpos, l.gpoId, key))
    ensures var items, top := ChainBucket(gpos, chain, key), TopOf(chain, ids);
            && (items == [] <==> top.None?)
            && (items != []
                ==> Strongest(items).gpoId == chain[top.value].gpoId
                    && Strongest(items).order == chain[top.value].order)
  {
    hide Strongest, Sets, Bucket;
    if chain == [] {
      EmptyChainHasNoBucket(gpos, key);
    } else {
      var rest, last := chain[..|chain| - 1], chain[|chain| - 1];
      WinnerIsLeader(gpos, rest, key, ids);
      ChainBucketGrows(gpos, chain, |chain| - 1, key);
      assert chain[..|chain|] == chain;
      BringsIfSets(gpos, last, key);
      var e := Brings(gpos, last);
      var more := Live(e, |e.settings|, key);
      if more != [] {
        StrongestOfConcat(ChainBucket(gpos, rest, key), more, last.order, last.gpoId);
      } else {
        assert ChainBucket(gpos, rest, key) + more == ChainBucket(gpos, rest, key);
      }
    }
  }

  // ----- Alike chains -----

  /** An item comes from a link, and the GPO's id decides its name. */
  lemma ItemComesFromLink(gpos: map<string, Gpo>, chain: seq<ChainLink>, key: Key, o: Occurrence)
    requires o in ChainBucket(gpos, chain, key)
    ensures o.gpoId in Ids(chain) && o.gpoId in gpos && o.gpoName == gpos[o.gpoId].name
  {
    var entries := Image(link => Brings(gpos, link), chain);
    BucketSound(entries, key, o);
    var e :| e in entries && o == OccurrenceOf(e, o.setting) && o.setting in e.settings;
    var i :| 0 <= i < |entries| && entries[i] == e;
    assert chain[i] in chain && e == Brings(gpos, chain[i]);
  }

  lemma OneGpoHasNoConflict(gpos: map<string, Gpo>, chain: seq<ChainLink>, key: Key)
    requires |Ids(chain)| < 2
    ensures ConflictOf(key, ChainBucket(gpos, chain, key)) == None
  {
    hide Ids, ConflictOf, ChainBucket;
    var items := ChainBucket(gpos, chain, key);
    ConflictMeans(key, items);
    TwoOf(Ids(chain));
    forall o | o in items ensures o.gpoId in Ids(chain) && o.gpoId in gpos && o.gpoName == gpos[o.gpoId].name {
      ItemComesFromLink(gpos, chain, key, o);
    }
  }

  /** A link, and an item, without its order. */
  function Flat(id: string): ChainLink {
    ChainLink(id, 0, false)
  }

  function FlatItem(o: Occurrence): Occurrence {
    o.(order := 0, enforced := false)
  }

  lemma {:induction false} LiveOfFlat(entry: ChainEntry, flat: ChainEntry, n: nat, key: Key)
    requires flat == entry.(order := 0, enforced := false) && n <= |entry.settings|
    ensures Live(flat, n, key) == Image(FlatItem, Live(entry, n, key))
  {
    if n > 0 {
      LiveOfFlat(entry, flat, n - 1, key);
      assert FlatItem(OccurrenceOf(entry, entry.settings[n - 1])) == OccurrenceOf(flat, entry.settings[n - 1]);
    }
  }

  lemma {:induction false} BucketOfFlat(gpos: map<string, Gpo>, chain: seq<ChainLink>, key: Key)
    ensures ChainBucket(gpos, Image(Flat, Image(IdOf, chain)), key) == Image(FlatItem, ChainBucket(gpos, chain, key))
  {
    hide ChainBucket;
    var flat := Image(Flat, Image(IdOf, chain));
    if chain == [] {
      assert flat == [];
      EmptyChainHasNoBucket(gpos, key);
    } else {
      var n := |chain| - 1;
      BucketOfFlat(gpos, chain[..n], key);
      assert flat[..n] == Image(Flat, Image(IdOf, chain[..n]));
      ChainBucketGrows(gpos, chain, n, key);
      ChainBucketGrows(gpos, flat, n, key);
      assert chain[..n + 1] == chain && flat[..n + 1] == flat;
      var e, f := Brings(gpos, chain[n]), Brings(gpos, flat[n]);
      LiveOfFlat(e, f, |e.settings|, key);
    }
  }

  lemma SameFlatItems(gpos: map<string, Gpo>, a: seq<ChainLink>, b: seq<ChainLink>, key: Key)
    requires multiset(Image(IdOf, a)) == multiset(Image(IdOf, b))
    ensures multiset(Image(FlatItem, ChainBucket(gpos, a, key))) == multiset(Image(FlatItem, ChainBucket(gpos, b, key)))
  {
    hide Bucket, Flat;
    var f := link => Brings(gpos, link);
    var x, y := Image(Flat, Image(IdOf, a)), Image(Flat, Image(IdOf, b));
    ImagePermutes(Flat, Image(IdOf, a), Image(IdOf, b));
    ImagePermutes(f, x, y);
    BucketPermutes(Image(f, x), Image(f, y), key);
    BucketOfFlat(gpos, a, key);
    BucketOfFlat(gpos, b, key);
  }

  /** A conflict does not depend on orders beyond its winner. */
  lemma FlatConflict(key: Key, x: seq<Occurrence>, y: seq<Occurrence>)
    requires multiset(Image(FlatItem, x)) == multiset(Image(FlatItem, y))
    requires x != [] && y != [] ==> Strongest(x).gpoName == Strongest(y).gpoName
    ensures ConflictOf(key, x) == ConflictOf(key, y)
  {
    hide Strongest, Names, Values, FlatItem;
    var p, q := Image(FlatItem, x), Image(FlatItem, y);
    assert |multiset(p)| == |x| && |multiset(q)| == |y|;
    FlatNames(x);
    FlatNames(y);
    SameNames(p, q);
    if x != [] { FlatContenders(x, y, Strongest(x).gpoName); }
  }

  lemma SameNames(p: seq<Occurrence>, q: seq<Occurrence>)
    requires multiset(p) == multiset(q)
    ensures Names(p) == Names(q) && Values(p) == Values(q)
  {
    assert forall o :: o in p <==> o in multiset(p);
    assert forall o :: o in q <==> o in multiset(q);
  }

  lemma FlatContenders(x: seq<Occurrence>, y: seq<Occurrence>, winner: string)
    requires multiset(Image(FlatItem, x)) == multiset(Image(FlatItem, y))
    ensures multiset(Image(o => Contends(o, winner), x)) == multiset(Image(o => Contends(o, winner), y))
  {
    var p, q := Image(FlatItem, x), Image(FlatItem, y);
    var f := (o: Occurrence) => Contends(o, winner);
    ImagePermutes(f, p, q);
    assert Image(f, x) == Image(f, p) && Image(f, y) == Image(f, q);
  }

  lemma FlatNames(x: seq<Occurrence>)
    ensures Names(Image(FlatItem, x)) == Names(x) && Values(Image(FlatItem, x)) == Values(x)
  {
    var p := Image(FlatItem, x);
    forall o | o in x ensures o.gpoName in Names(p) && o.setting.value in Values(p) {
      var k :| 0 <= k < |x| && x[k] == o;
      assert p[k] in p;
    }
    forall o | o in p ensures o.gpoName in Names(x) && o.setting.value in Values(x) {
      var k :| 0 <= k < |p| && p[k] == o;
      assert x[k] in x;
    }
  }

  lemma SameWinner(gpos: map<string, Gpo>, a: seq<ChainLink>, b: seq<ChainLink>, key: Key)
    requires Ids(a) == Ids(b) && RankedAlike(a, b)
    ensures var x, y := ChainBucket(gpos, a, key), ChainBucket(gpos, b, key);
            x != [] && y != [] ==> Strongest(x).gpoName == Strongest(y).gpoName
  {
    hide ChainBucket, RankedAlike, Sets, TopOf, Strongest;
    var ids := set id | id in Ids(a) && Sets(gpos, id, key);
    WinnerIsLeader(gpos, a, key, ids);
    WinnerIsLeader(gpos, b, key, ids);
    PairsDecide(a, b, ids);
    var x, y := ChainBucket(gpos, a, key), ChainBucket(gpos, b, key);
    if x != [] && y != [] {
      ItemComesFromLink(gpos, a, key, Strongest(x));
      ItemComesFromLink(gpos, b, key, Strongest(y));
    }
  }

  lemma AlikeResolves(gpos: map<string, Gpo>, a: seq<ChainLink>, b: seq<ChainLink>, key: Key)
    requires Alike(a, b)
    ensures ConflictOf(key, ChainBucket(gpos, a, key)) == ConflictOf(key, ChainBucket(gpos, b, key))
  {
    hide ChainBucket, ConflictOf, Ids, RankedAlike, Strongest;
    if |Ids(a)| < 2 && |Ids(b)| < 2 {
      OneGpoHasNoConflict(gpos, a, key);
      OneGpoHasNoConflict(gpos, b, key);
    } else {
      SameIds(a, b);
      SameFlatItems(gpos, a, b, key);
      SameWinner(gpos, a, b, key);
      FlatConflict(key, ChainBucket(gpos, a, key), ChainBucket(gpos, b, key));
    }
  }

  // ----- Chains that are not alike -----

  function OneSetting(value: string): Setting {
    Setting(Side.Computer, "Registry", "k", "", value, "", {}, false)
  }

  const ONE_KEY := Key("Registry", Side.Computer, "k")

  function OneSettingGpo(id: string, value: string): Gpo {
    Gpo(id, id, [OneSetting(value)], [], "", "")
  }

  /** Two GPOs that make one setting with different values. */
  function Rivals(g: string, h: string): map<string, Gpo> {
    map[g := OneSettingGpo(g, "1"), h := OneSettingGpo(h, "2")]
  }

  lemma RivalBrings(g: string, h: string, link: ChainLink)
    requires g != h
    ensures var e := Brings(Rivals(g, h), link);
            Live(e, |e.settings|, ONE_KEY)
            == RivalItem(link, g, h)
  {
    var e := Brings(Rivals(g, h), link);
    assert Live(e, 0, ONE_KEY) == [];
  }

  function RivalItem(link: ChainLink, g: string, h: string): seq<Occurrence> {
    if link.gpoId == g then [Occurrence(g, g, link.order, link.enforced, OneSetting("1"))]
    else if link.gpoId == h then [Occurrence(h, h, link.order, link.enforced, OneSetting("2"))]
    else []
  }

  function RivalBucket(chain: seq<ChainLink>, g: string, h: string): seq<Occurrence> {
    if chain == [] then [] else RivalBucket(chain[..|chain| - 1], g, h) + RivalItem(chain[|chain| - 1], g, h)
  }

  /** The rivals' bucket holds one item for each link to one of them. */
  lemma {:induction false} RivalItems(chain: seq<ChainLink>, g: string, h: string)
    requires g != h
    ensures ChainBucket(Rivals(g, h), chain, ONE_KEY) == RivalBucket(chain, g, h)
  {
    hide ChainBucket, Rivals;
    if chain == [] {
      EmptyChainHasNoBucket(Rivals(g, h), ONE_KEY);
    } else {
      var n := |chain| - 1;
      RivalItems(chain[..n], g, h);
      ChainBucketGrows(Rivals(g, h), chain, n, ONE_KEY);
      assert chain[..n + 1] == chain;
      RivalBrings(g, h, chain[n]);
    }
  }

  lemma {:induction false} RivalNature(chain: seq<ChainLink>, g: string, h: string)
    ensures forall o :: o in RivalBucket(chain, g, h) ==>
              && o.gpoName == o.gpoId && o.gpoId in {g, h} && o.setting.value == if o.gpoId == g then "1" else "2"
  {
    if chain != [] { RivalNature(chain[..|chain| - 1], g, h); }
  }

  lemma {:induction false} RivalCounts(chain: seq<ChainLink>, g: string, h: string)
    requires g != h
    ensures CountOf(RivalBucket(chain, g, h), g, "1") == LinksOf(chain, g)
    ensures CountOf(RivalBucket(chain, g, h), h, "2") == LinksOf(chain, h)
  {
    hide CountOf, LinksOf;
    if chain == [] {
      NothingCounted(g, h);
    } else {
      var rest, last := chain[..|chain| - 1], chain[|chain| - 1];
      RivalCounts(rest, g, h);
      LinksOfSnoc(rest, last, g);
      LinksOfSnoc(rest, last, h);
      assert chain == rest + [last];
      var before := RivalBucket(rest, g, h);
      if last.gpoId in {g, h} {
        CountOfSnoc(before, RivalItem(last, g, h)[0], g, "1");
        CountOfSnoc(before, RivalItem(last, g, h)[0], h, "2");
      } else {
        assert RivalBucket(chain, g, h) == before;
      }
    }
  }

  lemma NothingCounted(g: string, h: string)
    ensures CountOf([], g, "1") == LinksOf([], g) && CountOf([], h, "2") == LinksOf([], h)
  {
  }

  lemma CountOfSnoc(items: seq<Occurrence>, o: Occurrence, gpoName: string, value: string)
    ensures CountOf(items + [o], gpoName, value)
            == CountOf(items, gpoName, value) + if o.gpoName == gpoName && o.setting.value == value then 1 else 0
  {
    assert (items + [o])[..|items|] == items;
  }

  lemma LinksOfSnoc(chain: seq<ChainLink>, link: ChainLink, id: string)
    ensures LinksOf(chain + [link], id) == LinksOf(chain, id) + if link.gpoId == id then 1 else 0
  {
    assert Image(IdOf, chain + [link]) == Image(IdOf, chain) + [link.gpoId];
  }

  lemma {:induction false} CountPositive(items: seq<Occurrence>, gpoName: string, value: string)
    ensures CountOf(items, gpoName, value) > 0
            <==> exists o :: o in items && o.gpoName == gpoName && o.setting.value == value
  {
    if items != [] {
      CountPositive(items[..|items| - 1], gpoName, value);
      assert forall o :: o in items <==> o in items[..|items| - 1] || o == items[|items| - 1];
    }
  }

  lemma RivalsFight(chain: seq<ChainLink>, g: string, h: string)
    requires g != h
    ensures ConflictOf(ONE_KEY, RivalBucket(chain, g, h)).Some? <==> g in Ids(chain) && h in Ids(chain)
  {
    hide ConflictOf, CountOf, RivalBucket, Ids, LinksOf;
    var items := RivalBucket(chain, g, h);
    RivalNature(chain, g, h);
    RivalCounts(chain, g, h);
    CountPositive(items, g, "1");
    CountPositive(items, h, "2");
    IdsAreLinked(chain, g);
    IdsAreLinked(chain, h);
    ConflictMeans(ONE_KEY, items);
  }

  /**
   The rivals fight exactly where both are linked; the leader wins, and a rival is listed once for each of its links.
   */
  lemma RivalConflict(chain: seq<ChainLink>, g: string, h: string)
    requires g != h
    ensures var c := ConflictOf(ONE_KEY, ChainBucket(Rivals(g, h), chain, ONE_KEY));
            && (c.Some? <==> g in Ids(chain) && h in Ids(chain))
            && (c.Some? ==>
                  && c.value.key == ONE_KEY && Leader(chain, {g, h}) == Some(c.value.winner)
                  && c.value.contenders[Contender(g, "1", c.value.winner == g)] == LinksOf(chain, g))
  {
    hide ChainBucket, Rivals, RivalBucket, ConflictOf, CountOf, Ids, LinksOf, Strongest, TopOf;
    var items := RivalBucket(chain, g, h);
    RivalItems(chain, g, h);
    RivalsFight(chain, g, h);
    RivalCounts(chain, g, h);
    RivalNature(chain, g, h);
    ConflictMeans(ONE_KEY, items);
    ConflictShows(ONE_KEY, items);
    forall l | l in chain
      ensures l.gpoId in {g, h} <==> Sets(Rivals(g, h), l.gpoId, ONE_KEY) { RivalsSet(g, h, l.gpoId); }
    WinnerIsLeader(Rivals(g, h), chain, ONE_KEY, {g, h});
  }

  lemma RivalsSet(g: string, h: string, id: string)
    requires g != h
    ensures Sets(Rivals(g, h), id, ONE_KEY) <==> id in {g, h}
  {
    if id in {g, h} { assert Rivals(g, h)[id].settings[0] in Rivals(g, h)[id].settings; }
  }

  /** Chains that are not alike resolve differently for some two rivals. */
  lemma UnlikeDiffers(a: seq<ChainLink>, b: seq<ChainLink>) returns (g: string, h: string)
    requires !Alike(a, b)
    ensures g != h
    ensures ConflictOf(ONE_KEY, ChainBucket(Rivals(g, h), a, ONE_KEY))
            != ConflictOf(ONE_KEY, ChainBucket(Rivals(g, h), b, ONE_KEY))
  {
    hide ChainBucket, ConflictOf, Ids, Leader, Rivals;
    if |Ids(a)| < 2 {
      g, h := FewerDiffers(a, b);
    } else if |Ids(b)| < 2 {
      g, h := FewerDiffers(b, a);
    } else if multiset(Image(IdOf, a)) != multiset(Image(IdOf, b)) {
      MultisetsDiffer(multiset(Image(IdOf, a)), multiset(Image(IdOf, b)));
      var id :| multiset(Image(IdOf, a))[id] != multiset(Image(IdOf, b))[id];
      g, h := CountDiffers(a, b, id);
    } else {
      g, h :| g in Ids(a) && h in Ids(a) && Leader(a, {g, h}) != Leader(b, {g, h});
      SameIds(a, b);
      LeaderCompetes(a, {g, h});
      LeaderCompetes(b, {g, h});
      RivalConflict(a, g, h);
      RivalConflict(b, g, h);
    }
  }

  lemma MultisetsDiffer<T>(p: multiset<T>, q: multiset<T>)
    ensures p == q || exists x :: p[x] != q[x]
  {
  }

  lemma FewerDiffers(a: seq<ChainLink>, b: seq<ChainLink>) returns (g: string, h: string)
    requires |Ids(a)| < 2 <= |Ids(b)|
    ensures g != h
    ensures ConflictOf(ONE_KEY, ChainBucket(Rivals(g, h), a, ONE_KEY))
            != ConflictOf(ONE_KEY, ChainBucket(Rivals(g, h), b, ONE_KEY))
  {
    hide ChainBucket, ConflictOf, Ids, Rivals;
    TwoOf(Ids(a));
    TwoOf(Ids(b));
    g, h :| g in Ids(b) && h in Ids(b) && g != h;
    RivalConflict(a, g, h);
    RivalConflict(b, g, h);
  }

  lemma CountDiffers(a: seq<ChainLink>, b: seq<ChainLink>, id: string) returns (g: string, h: string)
    requires |Ids(a)| >= 2 && |Ids(b)| >= 2 && LinksOf(a, id) != LinksOf(b, id)
    ensures g != h
    ensures ConflictOf(ONE_KEY, ChainBucket(Rivals(g, h), a, ONE_KEY))
            != ConflictOf(ONE_KEY, ChainBucket(Rivals(g, h), b, ONE_KEY))
  {
    hide ChainBucket, ConflictOf, Ids, Rivals, LinksOf, Leader;
    TwoOf(Ids(a));
    TwoOf(Ids(b));
    IdsAreLinked(a, id);
    IdsAreLinked(b, id);
    g := id;
    if id in Ids(a) {
      h :| h in Ids(a) && h != id;
    } else {
      h :| h in Ids(b) && h != id;
    }
    RivalConflict(a, g, h);
    RivalConflict(b, g, h);
  }

  // ----- Estates in which two GPOs make a setting -----

  /** Makes `s` as the first of two GPOs, `t` as the second, and nothing otherwise. */
  function Maker(id: string, g: string, h: string, s: Setting, t: Setting): Gpo {
    Gpo(id, id, if id == g then [s] else if id == h then [t] else [], [], "", "")
  }

  /** An estate that holds every linked GPO. */
  function Makers(links: seq<ChainLink>, g: string, h: string, s: Setting, t: Setting): seq<Gpo> {
    Image((l: ChainLink) => Maker(l.gpoId, g, h, s, t), links)
  }

  lemma MakerIsIndexed(links: seq<ChainLink>, g: string, h: string, s: Setting, t: Setting, link: ChainLink)
    requires link in links
    ensures var index := Indexed(Makers(links, g, h, s, t));
            link.gpoId in index && index[link.gpoId] == Maker(link.gpoId, g, h, s, t)
  {
    hide Indexed;
    var k :| 0 <= k < |links| && links[k] == link;
    IdLeadsHome(Makers(links, g, h, s, t), k);
  }

  function RivalEstate(links: seq<ChainLink>, g: string, h: string): seq<Gpo> {
    Makers(links, g, h, OneSetting("1"), OneSetting("2"))
  }

  /** Along the links of the estate its index gives the same buckets as the two rivals alone. */
  lemma {:induction false} RivalsInEstate(links: seq<ChainLink>, chain: seq<ChainLink>, g: string, h: string)
    requires g != h && forall l :: l in chain ==> l in links
    ensures ChainBucket(Indexed(RivalEstate(links, g, h)), chain, ONE_KEY) == ChainBucket(Rivals(g, h), chain, ONE_KEY)
  {
    hide ChainBucket, Indexed, Rivals, RivalEstate;
    var index := Indexed(RivalEstate(links, g, h));
    if chain == [] {
      EmptyChainHasNoBucket(index, ONE_KEY);
      EmptyChainHasNoBucket(Rivals(g, h), ONE_KEY);
    } else {
      var n := |chain| - 1;
      RivalsInEstate(links, chain[..n], g, h);
      ChainBucketGrows(index, chain, n, ONE_KEY);
      ChainBucketGrows(Rivals(g, h), chain, n, ONE_KEY);
      assert chain[..n + 1] == chain;
      RivalBringsAlike(links, g, h, chain[n]);
    }
  }

  lemma RivalBringsAlike(links: seq<ChainLink>, g: string, h: string, link: ChainLink)
    requires g != h && link in links
    ensures var e, f := Brings(Indexed(RivalEstate(links, g, h)), link), Brings(Rivals(g, h), link);
            Live(e, |e.settings|, ONE_KEY) == Live(f, |f.settings|, ONE_KEY)
  {
    hide Indexed;
    MakerIsIndexed(links, g, h, OneSetting("1"), OneSetting("2"), link);
  }

  /** Where two chains are not alike, some estate tells them apart. */
  lemma UnlikeInEstate(a: seq<ChainLink>, b: seq<ChainLink>) returns (gpos: seq<Gpo>)
    requires !Alike(a, b)
    ensures ConflictOf(ONE_KEY, ChainBucket(Indexed(gpos), a, ONE_KEY))
            != ConflictOf(ONE_KEY, ChainBucket(Indexed(gpos), b, ONE_KEY))
  {
    hide ChainBucket, ConflictOf, Alike, Rivals, RivalEstate, Indexed;
    var g, h := UnlikeDiffers(a, b);
    gpos := RivalEstate(a + b, g, h);
    RivalsInEstate(a + b, a, g, h);
    RivalsInEstate(a + b, b, g, h);
  }

  /** The two chains resolve to the same conflicts, setting by setting. */
  ghost predicate SameConflicts(gpos: map<string, Gpo>, a: seq<ChainLink>, b: seq<ChainLink>) {
    forall key :: ConflictOf(key, ChainBucket(gpos, a, key)) == ConflictOf(key, ChainBucket(gpos, b, key))
  }

  /** Two chains resolve to the same conflicts in every estate, and under every index at all, iff they are alike. */
  lemma ResolveAlikeIffAlike(a: seq<ChainLink>, b: seq<ChainLink>)
    ensures Alike(a, b) <==> forall gpos: map<string, Gpo> :: SameConflicts(gpos, a, b)
    ensures Alike(a, b) <==> forall gpos: seq<Gpo> :: SameConflicts(Indexed(gpos), a, b)
  {
    hide ChainBucket, ConflictOf, Alike, Indexed;
    if Alike(a, b) {
      forall gpos: map<string, Gpo>, key
        ensures ConflictOf(key, ChainBucket(gpos, a, key)) == ConflictOf(key, ChainBucket(gpos, b, key))
      {
        AlikeResolves(gpos, a, b, key);
      }
    } else {
      var gpos := UnlikeInEstate(a, b);
      assert !SameConflicts(Indexed(gpos), a, b);
    }
  }

  /** Chains with the same links are alike exactly when they rank every pair alike. */
  lemma SameLinksAlike(a: seq<ChainLink>, b: seq<ChainLink>)
    requires multiset(a) == multiset(b)
    ensures Alike(a, b) <==> RankedAlike(a, b)
  {
    hide Leader, TopOf;
    ImagePermutes(IdOf, a, b);
    SameIds(a, b);
    if |Ids(a)| < 2 {
      TwoOf(Ids(a));
      forall g | g in Ids(a) ensures Leader(a, {g, g}) == Leader(b, {g, g}) {
        LeaderCompetes(a, {g, g});
        LeaderCompetes(b, {g, g});
      }
    }
  }

  /** So they are, whatever their order of listing, when links of equal order name one GPO. */
  lemma UntiedAreRankedAlike(a: seq<ChainLink>, b: seq<ChainLink>)
    requires multiset(a) == multiset(b)
    requires forall x, y :: x in a && y in a && x.order == y.order ==> x.gpoId == y.gpoId
    ensures RankedAlike(a, b)
  {
    forall g, h | g in Ids(a) && h in Ids(a) ensures Leader(a, {g, h}) == Leader(b, {g, h}) {
      TopIsTop(a, {g, h});
      TopIsTop(b, {g, h});
      ImagePermutes(IdOf, a, b);
      SameIds(a, b);
      assert forall l :: l in a <==> l in multiset(a);
      assert forall l :: l in b <==> l in multiset(b);
      var i, j := TopOf(a, {g, h}).value, TopOf(b, {g, h}).value;
      assert b[j] in a && a[i] in b;
    }
  }
}
