/** What the merge keeps, what it leaves out, and how two chains combine under loopback. */
module MergeTheorems {
  import opened Cse
  import opened Estate
  import opened GppActions
  import opened Merge
  import opened Prelude
  import opened Sorting
  import opened Text
  import opened Topology

  // ----- Soundness and accounting -----

  lemma WinnerIsMember(items: seq<Occurrence>)
    requires items != []
    ensures WinnerOf(items).Some? ==> WinnerOf(items).value in items
  {
    hide ModeOf, ActionOf, RunFrom;
    if ModeOf(items[0].setting).Accumulate? && Survivor(items).Some? {
      ByOrderIsPreorder();
      SortSorts(items, ByOrder);
      var s := Sort(items, ByOrder);
      SurvivorIsMember(s);
      assert Survivor(items).value in multiset(s);
    }
  }

  lemma {:induction false} SurvivorIsMember(s: seq<Occurrence>)
    ensures RunFrom(START, s).current.Some? ==> RunFrom(START, s).current.value in s
  {
    hide ActionOf;
    if s != [] { SurvivorIsMember(s[..|s| - 1]); }
  }

  /**
   A merged setting's winner is an enabled-side setting that some entry of the chain makes under that very key; it is no
   preference item of a GPO with item-level targeting; outside the action machine no occurrence has a greater order; and
   every occurrence that does not hold the winner's order is listed as overridden, once.
   */
  lemma ResolveSound(entries: seq<ChainEntry>, ilt: set<string>, key: Key)
    requires Resolve(entries, ilt, key).Some?
    ensures var m := Resolve(entries, ilt, key).value;
            && m.key == key == KeyOf(m.winner.setting) && !m.winner.setting.fromDisabledSide && !m.conditional
            && (exists e :: e in entries && m.winner == OccurrenceOf(e, m.winner.setting)
                  && m.winner.setting in e.settings)
            && (IsGpp(key.cse) ==> m.winner.gpoId !in ilt)
            && (!m.mode.Accumulate? ==> forall o :: o in Bucket(entries, key) ==> o.order <= m.winner.order)
            && (forall o :: o in Bucket(entries, key) && o.order != m.winner.order
                  ==> (o.gpoName, o.setting.value) in m.overridden)
            && |m.overridden| + Holding(Bucket(entries, key), m.winner.order) == |Bucket(entries, key)|
            && (m.approximate <==> m.mode.Approximate?)
  {
    hide ModeOf, IsGpp, Survivor, Bucket, Overridden, Strongest;
    var items := Bucket(entries, key);
    var m := Resolve(entries, ilt, key).value;
    WinnerIsMember(items);
    BucketSound(entries, key, m.winner);
    if !m.mode.Accumulate? {
      OverriddenAccounts(items, m.winner.order, OverridesLower(m.mode));
    } else {
      OverriddenAccounts(items, m.winner.order, false);
    }
  }

  /**
   Every enabled-side setting of the chain is accounted for under its key: something wins there, or the key is withheld
   by item-level targeting, or the action machine removed it; a winner excludes the other two.  A withheld key lists the
   setting exactly if its own GPO is targeted.
   */
  lemma SettingAccounted(entries: seq<ChainEntry>, ilt: set<string>, e: ChainEntry, s: Setting)
    requires e in entries && s in e.settings && !s.fromDisabledSide
    ensures var items := Bucket(entries, KeyOf(s));
            && OccurrenceOf(e, s) in items
            && (Resolve(entries, ilt, KeyOf(s)).None?
                <==> Withheld(entries, ilt, KeyOf(s)) != [] || RemovedByActions(items))
            && (Withheld(entries, ilt, KeyOf(s)) != []
                ==> (OccurrenceOf(e, s) in Withheld(entries, ilt, KeyOf(s)) <==> e.gpoId in ilt))
            && (forall o :: o in Withheld(entries, ilt, KeyOf(s)) ==> o in items && o.gpoId in ilt)
  {
    hide ModeOf, Bucket, Opens, GatedItems, Strongest, RunFrom, IsGpp;
    BucketComplete(entries, e, s);
    var items := Bucket(entries, KeyOf(s));
    GatedItemsExact(items, ilt);
    SurvivorClosedForm(Sort(items, ByOrder));
    if Gated(KeyOf(s), items, ilt) {
      var o :| o in items && o.gpoId in ilt;
      assert o in GatedItems(items, ilt);
    }
  }

  function Drive(value: string): Setting {
    Setting(User, "drives", "h:", "", value, "", {}, false)
  }

  /** Two GPOs map one drive, the first only for some users. */
  function Siblings(): seq<ChainEntry> {
    [ChainEntry("a", "a", 2, false, [Drive("1")]), ChainEntry("b", "b", 1, false, [Drive("2")])]
  }

  /** Of two items only the first is targeted: the first is listed and the second neither merged nor listed. */
  lemma SecondIsUnlisted(entries: seq<ChainEntry>, ilt: set<string>, key: Key, x: Occurrence, y: Occurrence)
    requires IsGpp(key.cse) && Bucket(entries, key) == [x, y] && x.gpoId in ilt && y.gpoId !in ilt
    ensures y in Bucket(entries, key) && Resolve(entries, ilt, key).None? && Withheld(entries, ilt, key) == [x]
  {
    hide IsGpp, MergeOf, Bucket, GatedItems;
    FirstIsGated(x, y, ilt);
    assert [x, y][1] == y && [x, y][0] == x;
  }

  lemma FirstIsGated(x: Occurrence, y: Occurrence, ilt: set<string>)
    requires x.gpoId in ilt && y.gpoId !in ilt
    ensures GatedItems([x, y], ilt) == [x]
  {
    assert [x, y][..1] == [x] && [x][..0] == [] && GatedItems([], ilt) == [];
    assert GatedItems([x], ilt) == [x];
  }

  /** The drive of the untargeted GPO is neither merged nor listed. */
  lemma UntargetedSiblingIsUnlisted()
    ensures var key := KeyOf(Drive("2"));
            && OccurrenceOf(Siblings()[1], Drive("2")) in Bucket(Siblings(), key)
            && Resolve(Siblings(), {"a"}, key).None?
            && Withheld(Siblings(), {"a"}, key) == [OccurrenceOf(Siblings()[0], Drive("1"))]
  {
    DrivesAreGpp();
    SiblingBucket();
    hide IsGpp, Bucket, Resolve, Withheld;
    var x, y := OccurrenceOf(Siblings()[0], Drive("1")), OccurrenceOf(Siblings()[1], Drive("2"));
    SecondIsUnlisted(Siblings(), {"a"}, KeyOf(Drive("2")), x, y);
  }

  lemma SiblingBucket()
    ensures Bucket(Siblings(), KeyOf(Drive("2")))
            == [OccurrenceOf(Siblings()[0], Drive("1")), OccurrenceOf(Siblings()[1], Drive("2"))]
  {
    var entries, key := Siblings(), KeyOf(Drive("2"));
    assert entries[..1] == [entries[0]] && entries[..1][..0] == [];
    assert Live(entries[0], 0, key) == [] && Live(entries[1], 0, key) == [];
    assert Bucket([], key) == [];
    assert Bucket([entries[0]], key) == [OccurrenceOf(entries[0], Drive("1"))];
  }

  lemma DrivesAreGpp()
    ensures IsGpp("drives")
  {
    TrimmedStrips("drives");
    assert Lower("drives") == "drives";
  }

  /** The mode is accumulating and no item, in precedence order, brings the setting into being for good. */
  ghost predicate RemovedByActions(items: seq<Occurrence>)
    requires items != []
  {
    ModeOf(items[0].setting).Accumulate? && forall c :: !Opens(Sort(items, ByOrder), c)
  }

  /** Nothing is removed without an item that deletes or whose action is not recognised. */
  lemma OnlyDeletesRemove(items: seq<Occurrence>)
    requires items != [] && RemovedByActions(items)
    ensures exists o :: o in items && (ActionOf(o).Delete? || ActionOf(o).Unknown?)
  {
    hide ActionOf, ModeOf;
    ByOrderIsPreorder();
    SortSorts(items, ByOrder);
    var s := Sort(items, ByOrder);
    assert |multiset(s)| == |s| && |multiset(items)| == |items|;
    forall i | 0 <= i < |s| ensures s[i] in items { assert s[i] in multiset(s); }
    var n := |s| - 1;
    assert !Opens(s, n) && s[n] in items;
    if ActionOf(s[n]).Update? {
      var j :| DeletesAt(s, j);
      assert s[j] in items;
    }
  }

  // ----- The two sides -----

  /** The settings of one side among the first `n`. */
  function SideOnly(settings: seq<Setting>, n: nat, side: Side): seq<Setting>
    requires n <= |settings|
  {
    if n == 0 then []
    else SideOnly(settings, n - 1, side) + if settings[n - 1].side == side then [settings[n - 1]] else []
  }

  function KeepSide(e: ChainEntry, side: Side): ChainEntry {
    e.(settings := SideOnly(e.settings, |e.settings|, side))
  }

  lemma {:induction false} LiveOfExtension(e: ChainEntry, s: Setting, key: Key)
    ensures Live(e.(settings := e.settings + [s]), |e.settings| + 1, key)
            == Live(e, |e.settings|, key) + if s.fromDisabledSide || KeyOf(s) != key then [] else [OccurrenceOf(e, s)]
  {
    LiveOfPrefix(e, s, |e.settings|, key);
  }

  lemma {:induction false} LiveOfPrefix(e: ChainEntry, s: Setting, n: nat, key: Key)
    requires n <= |e.settings|
    ensures Live(e.(settings := e.settings + [s]), n, key) == Live(e, n, key)
  {
    if n > 0 { LiveOfPrefix(e, s, n - 1, key); }
  }

  lemma {:induction false} LiveOfSide(e: ChainEntry, n: nat, key: Key)
    requires n <= |e.settings|
    ensures var kept := SideOnly(e.settings, n, key.side);
            Live(e.(settings := kept), |kept|, key) == Live(e, n, key)
  {
    if n > 0 {
      LiveOfSide(e, n - 1, key);
      var kept := SideOnly(e.settings, n - 1, key.side);
      var s := e.settings[n - 1];
      LiveOfExtension(e.(settings := kept), s, key);
      assert SideOnly(e.settings, n, key.side) == if s.side == key.side then kept + [s] else kept;
      assert OccurrenceOf(e.(settings := kept), s) == OccurrenceOf(e, s);
    }
  }

  lemma {:induction false} BucketOfSide(entries: seq<ChainEntry>, key: Key)
    ensures Bucket(Image(e => KeepSide(e, key.side), entries), key) == Bucket(entries, key)
  {
    hide Live, SideOnly;
    if entries != [] {
      var f := e => KeepSide(e, key.side);
      var n := |entries| - 1;
      BucketOfSide(entries[..n], key);
      assert Image(f, entries)[..n] == Image(f, entries[..n]);
      LiveOfSide(entries[n], |entries[n].settings|, key);
    }
  }

  /** The other side's settings have no influence: erasing them from every entry changes neither outcome. */
  lemma SidesAreIndependent(a: seq<ChainEntry>, b: seq<ChainEntry>, ilt: set<string>, key: Key)
    requires Image(e => KeepSide(e, key.side), a) == Image(e => KeepSide(e, key.side), b)
    ensures Resolve(a, ilt, key) == Resolve(b, ilt, key)
    ensures Withheld(a, ilt, key) == Withheld(b, ilt, key)
  {
    hide Bucket, MergeOf, GatedItems, Gated;
    BucketOfSide(a, key);
    BucketOfSide(b, key);
  }

  // ----- Loopback merge -----

  function Raise(e: ChainEntry, lift: int): ChainEntry {
    e.(order := e.order + lift)
  }

  function RaiseItem(o: Occurrence, lift: int): Occurrence {
    o.(order := o.order + lift)
  }

  function Raised(entries: seq<ChainEntry>, lift: int): seq<ChainEntry> {
    Image(e => Raise(e, lift), entries)
  }

  function RaisedItems(items: seq<Occurrence>, lift: int): seq<Occurrence> {
    Image(o => RaiseItem(o, lift), items)
  }

  function MaxOrder(entries: seq<ChainEntry>): (m: int)
    requires entries != []
    ensures forall e :: e in entries ==> e.order <= m
    ensures exists e :: e in entries && e.order == m
  {
    if |entries| == 1 then entries[0].order
    else
      var m, last := MaxOrder(entries[..|entries| - 1]), entries[|entries| - 1].order;
      if last > m then last else m
  }

  /** By how much the computer chain's orders are raised so that they outrank the user chain's. */
  function Offset(user: seq<ChainEntry>): int {
    if user == [] then 0 else MaxOrder(user) + 1
  }

  lemma {:induction false} LiveOfRaised(e: ChainEntry, lift: int, n: nat, key: Key)
    requires n <= |e.settings|
    ensures Live(Raise(e, lift), n, key) == RaisedItems(Live(e, n, key), lift)
  {
    if n > 0 { LiveOfRaised(e, lift, n - 1, key); }
  }

  lemma {:induction false} BucketOfRaised(entries: seq<ChainEntry>, lift: int, key: Key)
    ensures Bucket(Raised(entries, lift), key) == RaisedItems(Bucket(entries, key), lift)
  {
    hide Live;
    if entries != [] {
      var n := |entries| - 1;
      BucketOfRaised(entries[..n], lift, key);
      assert Raised(entries, lift)[..n] == Raised(entries[..n], lift);
      LiveOfRaised(entries[n], lift, |entries[n].settings|, key);
    }
  }

  lemma {:induction false} StrongestOfRaised(items: seq<Occurrence>, lift: int)
    requires items != []
    ensures Strongest(RaisedItems(items, lift)) == RaiseItem(Strongest(items), lift)
  {
    if |items| > 1 {
      assert RaisedItems(items, lift)[..|items| - 1] == RaisedItems(items[..|items| - 1], lift);
      StrongestOfRaised(items[..|items| - 1], lift);
    }
  }

  lemma {:induction false} InsertOfRaised(s: seq<Occurrence>, x: Occurrence, lift: int)
    ensures Insert(RaisedItems(s, lift), RaiseItem(x, lift), ByOrder) == RaisedItems(Insert(s, x, ByOrder), lift)
  {
    if s != [] && !ByOrder(s[|s| - 1], x) {
      assert RaisedItems(s, lift)[..|s| - 1] == RaisedItems(s[..|s| - 1], lift);
      InsertOfRaised(s[..|s| - 1], x, lift);
    }
  }

  lemma {:induction false} SortOfRaised(items: seq<Occurrence>, lift: int)
    ensures Sort(RaisedItems(items, lift), ByOrder) == RaisedItems(Sort(items, ByOrder), lift)
  {
    if items != [] {
      assert RaisedItems(items, lift)[..|items| - 1] == RaisedItems(items[..|items| - 1], lift);
      SortOfRaised(items[..|items| - 1], lift);
      InsertOfRaised(Sort(items[..|items| - 1], ByOrder), items[|items| - 1], lift);
    }
  }

  lemma {:induction false} StrongestOfTwoRuns(a: seq<Occurrence>, b: seq<Occurrence>)
    requires a + b != [] && forall x, y :: x in a && y in b ==> x.order < y.order
    ensures Strongest(a + b) == if b != [] then Strongest(b) else Strongest(a)
  {
    if b == [] {
      assert a + b == a;
    } else {
      var n := |b| - 1;
      assert (a + b)[..|a + b| - 1] == a + b[..n];
      if a + b[..n] != [] { StrongestOfTwoRuns(a, b[..n]); }
    }
  }

  lemma {:induction false} RunOfConcat(m: Machine, a: seq<Occurrence>, b: seq<Occurrence>)
    ensures RunFrom(m, a + b) == RunFrom(RunFrom(m, a), b)
  {
    if b == [] {
      assert a + b == a;
    } else {
      assert (a + b)[..|a + b| - 1] == a + b[..|b| - 1];
      RunOfConcat(m, a, b[..|b| - 1]);
    }
  }

  /** The offset does its work: there is nothing to outrank, or no computer entry has a negative order. */
  ghost predicate Outranks(user: seq<ChainEntry>, comp: seq<ChainEntry>) {
    user == [] || forall c :: c in comp ==> c.order >= 0
  }

  /** Exactly then every raised entry is above every entry of the user chain. */
  lemma OutranksExactly(user: seq<ChainEntry>, comp: seq<ChainEntry>)
    ensures Outranks(user, comp) <==>
              forall x, y :: x in user && y in Raised(comp, Offset(user)) ==> x.order < y.order
  {
    hide MaxOrder;
    var raised := Raised(comp, Offset(user));
    if Outranks(user, comp) {
      forall x, y | x in user && y in raised ensures x.order < y.order {
        var k :| 0 <= k < |comp| && y == raised[k];
      }
    } else {
      var top :| top in user && top.order == MaxOrder(user);
      var c :| c in comp && c.order < 0;
      var k :| 0 <= k < |comp| && comp[k] == c;
      assert raised[k] in raised && !(top.order < raised[k].order);
    }
  }

  lemma OffsetSeparates(user: seq<ChainEntry>, comp: seq<ChainEntry>, key: Key)
    requires Outranks(user, comp)
    ensures forall x, y :: x in Bucket(user, key) && y in RaisedItems(Bucket(comp, key), Offset(user))
              ==> x.order < y.order
  {
    hide Bucket, MaxOrder;
    forall x, y | x in Bucket(user, key) && y in RaisedItems(Bucket(comp, key), Offset(user))
      ensures x.order < y.order {
      var k :| 0 <= k < |Bucket(comp, key)| && y == RaisedItems(Bucket(comp, key), Offset(user))[k];
      BucketSound(user, key, x);
      BucketSound(comp, key, Bucket(comp, key)[k]);
    }
  }

  /** Outside the action machine the computer chain wins the key whenever it sets it, and the user chain otherwise. */
  ghost predicate ComputerPrevails(user: seq<ChainEntry>, comp: seq<ChainEntry>, key: Key) {
    var u, c, lift := Bucket(user, key), Bucket(comp, key), Offset(user);
    var items := Bucket(user + Raised(comp, lift), key);
    items != [] && !ModeOf(items[0].setting).Accumulate? ==>
      WinnerOf(items) == if c != [] then Some(RaiseItem(Strongest(c), lift)) else if u != [] then Some(Strongest(u))
                                                                                  else None
  }

  /** The action machine takes every item of the user chain before any of the computer chain. */
  ghost predicate UserFirst(user: seq<ChainEntry>, comp: seq<ChainEntry>, key: Key) {
    var u, c, lift := Bucket(user, key), Bucket(comp, key), Offset(user);
    RunFrom(START, Sort(Bucket(user + Raised(comp, lift), key), ByOrder))
    == RunFrom(RunFrom(START, Sort(u, ByOrder)), RaisedItems(Sort(c, ByOrder), lift))
  }

  lemma LoopbackBucket(user: seq<ChainEntry>, comp: seq<ChainEntry>, key: Key)
    ensures Bucket(user + Raised(comp, Offset(user)), key)
            == Bucket(user, key) + RaisedItems(Bucket(comp, key), Offset(user))
  {
    hide Bucket, Raised, RaisedItems, Offset;
    BucketOfConcat(user, Raised(comp, Offset(user)), key);
    BucketOfRaised(comp, Offset(user), key);
  }

  /**
   Under loopback merge a key holds the user chain's items, then the raised items of the computer chain.  If the offset
   outranks, the computer chain prevails and the machine runs through the user chain first, under every key.
   */
  lemma LoopbackMerge(user: seq<ChainEntry>, comp: seq<ChainEntry>, key: Key)
    ensures Bucket(user + Raised(comp, Offset(user)), key)
            == Bucket(user, key) + RaisedItems(Bucket(comp, key), Offset(user))
    ensures Outranks(user, comp) ==> ComputerPrevails(user, comp, key) && UserFirst(user, comp, key)
  {
    hide Bucket, ModeOf, Strongest, RunFrom, Sort, RaisedItems, MaxOrder, Raised, Outranks;
    var u, c, lift := Bucket(user, key), Bucket(comp, key), Offset(user);
    LoopbackBucket(user, comp, key);
    if Outranks(user, comp) {
      OffsetSeparates(user, comp, key);
      var raised := RaisedItems(c, lift);
      if u + raised != [] { StrongestOfTwoRuns(u, raised); }
      if c != [] { StrongestOfRaised(c, lift); }
      RaisedSize(c, lift);
      SortOfSeparated(u, raised);
      SortOfRaised(c, lift);
      RunOfConcat(START, Sort(u, ByOrder), Sort(raised, ByOrder));
    }
  }

  predicate SameOrders(a: seq<ChainEntry>, b: seq<ChainEntry>) {
    |a| == |b| && forall i :: 0 <= i < |a| ==> a[i].order == b[i].order
  }

  lemma {:induction false} OffsetReadsOrders(a: seq<ChainEntry>, b: seq<ChainEntry>)
    requires SameOrders(a, b)
    ensures Offset(a) == Offset(b)
  {
    if |a| > 1 {
      OffsetReadsOrders(a[..|a| - 1], b[..|b| - 1]);
    }
  }

  /** The entries stripped of their settings, but for one setting of the `k`-th. */
  function Only(entries: seq<ChainEntry>, k: nat, s: Setting): (r: seq<ChainEntry>)
    ensures SameOrders(r, entries)
  {
    seq(|entries|, i requires 0 <= i < |entries| => entries[i].(settings := if i == k then [s] else []))
  }

  lemma {:induction false} OnlyBucket(entries: seq<ChainEntry>, k: nat, s: Setting)
    requires !s.fromDisabledSide
    ensures Bucket(Only(entries, k, s), KeyOf(s))
            == if k < |entries| then [OccurrenceOf(entries[k].(settings := [s]), s)] else []
  {
    if entries != [] {
      var n := |entries| - 1;
      var r := Only(entries, k, s);
      OnlyBucket(entries[..n], k, s);
      assert r[..n] == Only(entries[..n], k, s);
      assert Live(r[n], 0, KeyOf(s)) == [];
    }
  }

  function UserRegistry(value: string): Setting {
    Setting(User, "Registry", "k", "", value, "", {}, false)
  }

  lemma RegistryMode(value: string)
    ensures ModeOf(UserRegistry(value)).LastWriterWins?
  {
    assert Lower("Registry")[0] == 'r';
    TrimmedStrips("Registry");
    assert Lower("Registry") == "registry";
  }

  lemma NegativePair(user: seq<ChainEntry>, comp: seq<ChainEntry>) returns (k: nat, j: nat)
    requires !Outranks(user, comp)
    ensures k < |user| && j < |comp| && comp[j].order + Offset(user) <= user[k].order
  {
    assert user != [];
    var m := MaxOrder(user);
    assert exists e :: e in user && e.order == m;
    var top :| top in user && top.order == m;
    k :| 0 <= k < |user| && user[k] == top;
    var low :| low in comp && low.order < 0;
    j :| 0 <= j < |comp| && comp[j] == low;
  }

  /** Two items, the second not above the first even when raised: the first wins. */
  lemma FirstOfTwoWins(x: Occurrence, y: Occurrence, lift: int)
    requires y.order + lift <= x.order && !ModeOf(x.setting).Accumulate?
    ensures var items := [x] + RaisedItems([y], lift);
            items != [] && items[0] == x && WinnerOf(items) == Some(x) && Strongest([y]) == y
  {
    hide ModeOf;
    var items := [x] + RaisedItems([y], lift);
    assert items == [x, RaiseItem(y, lift)] && items[..1] == [x];
    assert Strongest(items) == x;
  }

  /** Two entries with a setting each, the computer's not above the user's even when raised: the user's wins. */
  lemma NegativeOrderLoses(user: seq<ChainEntry>, comp: seq<ChainEntry>)
    returns (u: seq<ChainEntry>, c: seq<ChainEntry>, key: Key)
    requires !Outranks(user, comp)
    ensures SameOrders(u, user) && SameOrders(c, comp) && !ComputerPrevails(u, c, key)
  {
    hide Offset, Bucket, ModeOf, Raised, RaisedItems, Only, Outranks, WinnerOf, Strongest;
    var s, t := UserRegistry("1"), UserRegistry("2");
    var k, j := NegativePair(user, comp);
    u, c, key := Only(user, k, s), Only(comp, j, t), KeyOf(s);
    OnlyBucket(user, k, s);
    OnlyBucket(comp, j, t);
    OffsetReadsOrders(u, user);
    LoopbackBucket(u, c, key);
    RegistryMode("1");
    FirstOfTwoWins(OccurrenceOf(user[k].(settings := [s]), s), OccurrenceOf(comp[j].(settings := [t]), t), Offset(u));
  }

  /** The computer chain prevails for every content of the entries exactly when the offset outranks. */
  lemma LoopbackMergeExactly(user: seq<ChainEntry>, comp: seq<ChainEntry>)
    ensures Outranks(user, comp) <==>
              forall u, c, key :: SameOrders(u, user) && SameOrders(c, comp) ==> ComputerPrevails(u, c, key)
  {
    hide ComputerPrevails;
    if Outranks(user, comp) {
      forall u, c, key | SameOrders(u, user) && SameOrders(c, comp) ensures ComputerPrevails(u, c, key) {
        OutranksReadsOrders(user, comp, u, c);
        LoopbackMerge(u, c, key);
      }
    } else {
      var u, c, key := NegativeOrderLoses(user, comp);
    }
  }

  lemma OutranksReadsOrders(user: seq<ChainEntry>, comp: seq<ChainEntry>, u: seq<ChainEntry>, c: seq<ChainEntry>)
    requires Outranks(user, comp) && SameOrders(u, user) && SameOrders(c, comp)
    ensures Outranks(u, c)
  {
    if u != [] {
      forall e | e in c ensures e.order >= 0 {
        var i :| 0 <= i < |c| && c[i] == e;
        assert comp[i] in comp;
      }
    }
  }

  lemma RaisedSize(items: seq<Occurrence>, lift: int)
    ensures |RaisedItems(items, lift)| == |items|
  {
  }

  lemma SortOfSeparated(a: seq<Occurrence>, b: seq<Occurrence>)
    requires forall x, y :: x in a && y in b ==> x.order < y.order
    ensures Sort(a + b, ByOrder) == Sort(a, ByOrder) + Sort(b, ByOrder)
  {
    ByOrderIsPreorder();
    SortOfSeparatedRuns(a, b, ByOrder);
  }

  // ----- Agreement with the view at one scope -----

  /**
   Where the chain carries no actions but updates and replaces, and no two of its occurrences tie, the merge and the
   view at one scope name the same winner; outside the action machine they always do.
   */
  lemma AgreesWithScopeView(t: Topology, chain: seq<ChainLink>, key: Key)
    requires ChainBucket(t.gpos, chain, key) != []
    ensures var items := ChainBucket(t.gpos, chain, key);
            (ModeOf(items[0].setting).Accumulate? ==>
               && (forall o :: o in items ==> ActionOf(o).Update? || ActionOf(o).Replace?)
               && (forall x, y :: x in items && y in items && x.order == y.order ==> x == y)) ==>
              var m := Resolve(Image(link => Brings(t.gpos, link), chain), {}, key);
              m.Some? && m.value.winner == Strongest(items)
  {
    hide ModeOf, ActionOf, Bucket, Survivor, Strongest, IsGpp;
    var items := ChainBucket(t.gpos, chain, key);
    if (forall o :: o in items ==> ActionOf(o).Update? || ActionOf(o).Replace?) {
      PlainUpdatesAgree(items);
    }
  }
}
