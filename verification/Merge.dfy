/** Merging a chain's settings, one bucket at a time. */
module Merge {
  import opened Cse
  import opened Estate
  import opened GppActions
  import opened Prelude

  /** A merged setting shows its winner's display name, value and GPO. */
  datatype MergedSetting = MergedSetting(key: Key, winner: Occurrence, mode: MergeMode,
                                         overridden: seq<(string, string)>,
                                         approximate: bool, conditional: bool)

  type Settings = map<Key, MergedSetting>

  predicate OverridesLower(mode: MergeMode) {
    mode.LastWriterWins? || mode.AuthoritativeReplace? || mode.SingleWinner? || mode.Approximate?
  }

  /** The mode is the first item's, so it can depend on which GPO comes first in the chain. */
  function WinnerOf(items: seq<Occurrence>): Option<Occurrence>
    requires items != []
  {
    if ModeOf(items[0].setting).Accumulate? then Survivor(items) else Some(Strongest(items))
  }

  function MergeOf(key: Key, items: seq<Occurrence>): Option<MergedSetting>
    requires items != []
  {
    var mode := ModeOf(items[0].setting);
    match WinnerOf(items)
    case None => None
    case Some(winner) =>
      Some(MergedSetting(key, winner, mode, Overridden(items, winner.order, OverridesLower(mode)), mode.Approximate?,
                         false))
  }

  method MergeBucket(key: Key, items: seq<Occurrence>) returns (merged: Option<MergedSetting>)
    requires items != []
    ensures merged == MergeOf(key, items)
  {
    hide Strongest, Survivor, ModeOf, Overridden;
    var mode := ModeOf(items[0].setting);
    var winner := items[0];
    if mode.Accumulate? {
      var survivor := ResolveGppActions(items);
      if survivor.None? { return None; }
      winner := survivor.value;
    } else {
      winner := Strongest(items);
    }
    var overridden: seq<(string, string)> := [];
    OverriddenGrows(items, 0, winner.order, OverridesLower(mode));
    for i := 0 to |items|
      invariant overridden == Overridden(items[..i], winner.order, OverridesLower(mode))
    {
      OverriddenGrows(items, i, winner.order, OverridesLower(mode));
      if Loses(items[i], winner.order, OverridesLower(mode)) {
        overridden := overridden + [(items[i].gpoName, items[i].setting.value)];
      }
    }
    assert items[..|items|] == items;
    return Some(MergedSetting(key, winner, mode, overridden, mode.Approximate?, false));
  }

  predicate Gated(key: Key, items: seq<Occurrence>, ilt: set<string>) {
    IsGpp(key.cse) && exists o :: o in items && o.gpoId in ilt
  }

  /** The items of GPOs with item-level targeting, in chain order. */
  function GatedItems(items: seq<Occurrence>, ilt: set<string>): seq<Occurrence> {
    if items == [] then []
    else
      var last := items[|items| - 1];
      GatedItems(items[..|items| - 1], ilt) + if last.gpoId in ilt then [last] else []
  }

  /** The merged setting under `key`, if the chain leaves one. */
  function Resolve(entries: seq<ChainEntry>, ilt: set<string>, key: Key): Option<MergedSetting> {
    var items := Bucket(entries, key);
    if items == [] || Gated(key, items, ilt) then None else MergeOf(key, items)
  }

  /** What is listed as withheld by item-level targeting under `key`. */
  function Withheld(entries: seq<ChainEntry>, ilt: set<string>, key: Key): seq<Occurrence> {
    var items := Bucket(entries, key);
    if Gated(key, items, ilt) then GatedItems(items, ilt) else []
  }

  /** The merge decides exactly what `Resolve` and `Withheld` say, key by key. */
  ghost predicate IsMergeOf(entries: seq<ChainEntry>, ilt: set<string>, settings: Settings, withheld: Buckets) {
    && (forall key :: Resolve(entries, ilt, key) == if key in settings then Some(settings[key]) else None)
    && (forall key :: Withheld(entries, ilt, key) == At(withheld, key))
    && Filled(withheld)
  }

  /** `merge_settings_with_exclusions`, without the order of its two lists. */
  method MergeSettings(entries: seq<ChainEntry>, ilt: set<string>) returns (settings: Settings, withheld: Buckets)
    ensures IsMergeOf(entries, ilt, settings, withheld)
  {
    hide MergeOf, Gated, GatedItems, Bucket, Live, IsMergeOf;
    var buckets: Buckets := map[];
    forall key ensures Bucket([], key) == [] { NoEntriesNoBucket(key); }
    assert entries[..0] == [];
    for i := 0 to |entries|
      invariant Filled(buckets)
      invariant forall key :: At(buckets, key) == Bucket(entries[..i], key)
    {
      forall key ensures Bucket(entries[..i + 1], key)
        == Bucket(entries[..i], key) + Live(entries[i], |entries[i].settings|, key) {
        BucketGrows(entries, i, key);
      }
      buckets := AddToBuckets(buckets, entries[i]);
    }
    assert entries[..|entries|] == entries;
    settings, withheld := MergeBuckets(buckets, ilt);
    MergedBuckets(entries, ilt, buckets, settings, withheld);
  }

  lemma NoEntriesNoBucket(key: Key)
    ensures Bucket([], key) == []
  {
  }

  lemma BucketGrows(entries: seq<ChainEntry>, i: nat, key: Key)
    requires i < |entries|
    ensures Bucket(entries[..i + 1], key) == Bucket(entries[..i], key) + Live(entries[i], |entries[i].settings|, key)
  {
    assert entries[..i + 1][..i] == entries[..i];
  }

  ghost predicate MergedKeys(buckets: Buckets, ilt: set<string>, keys: set<Key>, settings: Settings, withheld: Buckets)
    requires Filled(buckets) && keys <= buckets.Keys
  {
    && (forall key :: key in settings || key in withheld ==> key in keys)
    && (forall key :: key in keys ==>
          if Gated(key, buckets[key], ilt)
          then key !in settings && key in withheld && withheld[key] == GatedItems(buckets[key], ilt)
          else key !in withheld && MergeOf(key, buckets[key]) == if key in settings then Some(settings[key]) else None)
  }

  method MergeBuckets(buckets: Buckets, ilt: set<string>) returns (settings: Settings, withheld: Buckets)
    requires Filled(buckets)
    ensures MergedKeys(buckets, ilt, buckets.Keys, settings, withheld)
  {
    hide MergeOf, GatedItems;
    settings, withheld := map[], map[];
    var todo := buckets.Keys;
    while todo != {}
      invariant todo <= buckets.Keys && MergedKeys(buckets, ilt, buckets.Keys - todo, settings, withheld)
    {
      var key :| key in todo;
      todo := todo - {key};
      var items := buckets[key];
      if Gated(key, items, ilt) {
        var listed: seq<Occurrence> := [];
        assert items[..0] == [];
        GatedItemsGrow(items, 0, ilt);
        for i := 0 to |items|
          invariant listed == GatedItems(items[..i], ilt)
        {
          GatedItemsGrow(items, i, ilt);
          if items[i].gpoId in ilt { listed := listed + [items[i]]; }
        }
        assert items[..|items|] == items;
        withheld := withheld[key := listed];
      } else {
        var merged := MergeBucket(key, items);
        if merged.Some? { settings := settings[key := merged.value]; }
      }
    }
  }

  lemma GatedItemsGrow(items: seq<Occurrence>, i: nat, ilt: set<string>)
    requires i < |items|
    ensures GatedItems(items[..i + 1], ilt) == GatedItems(items[..i], ilt)
            + if items[i].gpoId in ilt then [items[i]] else []
    ensures GatedItems(items[..0], ilt) == []
  {
    assert items[..i + 1][..i] == items[..i];
  }

  /** The listed items are the gated ones, in full. */
  lemma {:induction false} GatedItemsExact(items: seq<Occurrence>, ilt: set<string>)
    ensures forall o :: o in GatedItems(items, ilt) <==> o in items && o.gpoId in ilt
  {
    if items != [] {
      GatedItemsExact(items[..|items| - 1], ilt);
      assert forall o :: o in items <==> o in items[..|items| - 1] || o == items[|items| - 1];
    }
  }

  lemma MergedBuckets(entries: seq<ChainEntry>, ilt: set<string>, buckets: Buckets, settings: Settings,
                      withheld: Buckets)
    requires Filled(buckets) && (forall key :: At(buckets, key) == Bucket(entries, key))
    requires MergedKeys(buckets, ilt, buckets.Keys, settings, withheld)
    ensures IsMergeOf(entries, ilt, settings, withheld)
  {
    hide MergeOf, GatedItems, Bucket;
    forall key
      ensures Resolve(entries, ilt, key) == if key in settings then Some(settings[key]) else None
      ensures Withheld(entries, ilt, key) == At(withheld, key)
    {
      assert At(buckets, key) == Bucket(entries, key);
    }
    forall key | key in withheld ensures withheld[key] != [] {
      var o :| o in buckets[key] && o.gpoId in ilt;
      GatedItemsExact(buckets[key], ilt);
      assert o in withheld[key];
    }
  }
}
