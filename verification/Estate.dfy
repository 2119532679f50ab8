/** The estate's GPOs and settings, and the buckets that both resolvers fold a precedence chain into. */
module Estate {
  import opened Sorting

  datatype Container = Site | Domain | OtherContainer

  datatype Side = Computer | User

  /** `action` is the upper-cased preference action; `sections` the lower-cased tags of the setting's children. */
  datatype Setting = Setting(side: Side, cse: string, identity: string, displayName: string, value: string,
                             action: string, sections: set<string>, fromDisabledSide: bool)

  /** `trusteeSid` is empty when the report carries none. */
  datatype DelegationEntry = DelegationEntry(trustee: string, trusteeSid: string, permission: string, allowed: bool)

  /** `sddl` and `wmiFilter` are empty when absent. */
  datatype Gpo = Gpo(id: string, name: string, settings: seq<Setting>, delegation: seq<DelegationEntry>,
                     sddl: string, wmiFilter: string)

  datatype Key = Key(cse: string, side: Side, identity: string)

  function KeyOf(s: Setting): Key {
    Key(s.cse, s.side, s.identity)
  }

  /** One GPO's place in a precedence chain, with the settings it brings; the greater order wins. */
  datatype ChainEntry = ChainEntry(gpoId: string, gpoName: string, order: int, enforced: bool, settings: seq<Setting>)

  datatype Occurrence = Occurrence(gpoId: string, gpoName: string, order: int, enforced: bool, setting: Setting)

  function OccurrenceOf(entry: ChainEntry, s: Setting): Occurrence {
    Occurrence(entry.gpoId, entry.gpoName, entry.order, entry.enforced, s)
  }

  /** The entry's settings under `key` whose side is enabled, in order, up to the first `n` settings. */
  function Live(entry: ChainEntry, n: nat, key: Key): (items: seq<Occurrence>)
    requires n <= |entry.settings|
    ensures forall k :: 0 <= k < |items| ==>
              && items[k] == OccurrenceOf(entry, items[k].setting) && items[k].setting in entry.settings
              && KeyOf(items[k].setting) == key && !items[k].setting.fromDisabledSide
  {
    if n == 0 then []
    else
      var s := entry.settings[n - 1];
      if s.fromDisabledSide || KeyOf(s) != key then Live(entry, n - 1, key)
      else Live(entry, n - 1, key) + [OccurrenceOf(entry, s)]
  }

  /** Everything the chain says under `key`, in chain order. */
  function Bucket(entries: seq<ChainEntry>, key: Key): seq<Occurrence> {
    if entries == [] then []
    else
      var last := entries[|entries| - 1];
      Bucket(entries[..|entries| - 1], key) + Live(last, |last.settings|, key)
  }

  /** A bucket holds exactly the enabled-side settings of the chain with its key. */
  lemma {:induction false} BucketSound(entries: seq<ChainEntry>, key: Key, o: Occurrence)
    requires o in Bucket(entries, key)
    ensures exists e :: e in entries && o == OccurrenceOf(e, o.setting) && o.setting in e.settings
    ensures KeyOf(o.setting) == key && !o.setting.fromDisabledSide
  {
    var last := entries[|entries| - 1];
    var items := Live(last, |last.settings|, key);
    if o in items {
      var k :| 0 <= k < |items| && items[k] == o;
      assert last in entries;
    } else {
      BucketSound(entries[..|entries| - 1], key, o);
      var e :| e in entries[..|entries| - 1] && o == OccurrenceOf(e, o.setting) && o.setting in e.settings;
      assert e in entries;
    }
  }

  lemma {:induction false} LiveComplete(entry: ChainEntry, n: nat, i: nat)
    requires i < n <= |entry.settings| && !entry.settings[i].fromDisabledSide
    ensures OccurrenceOf(entry, entry.settings[i]) in Live(entry, n, KeyOf(entry.settings[i]))
  {
    if i < n - 1 { LiveComplete(entry, n - 1, i); }
  }

  lemma {:induction false} BucketComplete(entries: seq<ChainEntry>, e: ChainEntry, s: Setting)
    requires e in entries && s in e.settings && !s.fromDisabledSide
    ensures OccurrenceOf(e, s) in Bucket(entries, KeyOf(s))
  {
    var last := entries[|entries| - 1];
    if e == last {
      var i :| 0 <= i < |e.settings| && e.settings[i] == s;
      LiveComplete(e, |e.settings|, i);
    } else {
      BucketComplete(entries[..|entries| - 1], e, s);
    }
  }

  lemma {:induction false} BucketOfConcat(a: seq<ChainEntry>, b: seq<ChainEntry>, key: Key)
    ensures Bucket(a + b, key) == Bucket(a, key) + Bucket(b, key)
  {
    if b == [] {
      assert a + b == a;
    } else {
      BucketOfConcat(a, b[..|b| - 1], key);
      assert (a + b)[..|a + b| - 1] == a + b[..|b| - 1];
    }
  }

  lemma BucketAround(p: seq<ChainEntry>, e: ChainEntry, q: seq<ChainEntry>, key: Key)
    ensures multiset(Bucket(p + [e] + q, key)) == multiset(Bucket(p + q, key)) + multiset(Live(e, |e.settings|, key))
  {
    hide Live;
    BucketOfConcat(p, q, key);
    BucketOfConcat(p, [e], key);
    BucketOfConcat(p + [e], q, key);
    assert Bucket([e], key) == Live(e, |e.settings|, key) by { assert [e][..0] == []; }
  }

  /** Rearranging the chain rearranges each bucket. */
  lemma {:induction false} BucketPermutes(a: seq<ChainEntry>, b: seq<ChainEntry>, key: Key)
    requires multiset(a) == multiset(b)
    ensures multiset(Bucket(a, key)) == multiset(Bucket(b, key))
  {
    if a == [] {
      assert |multiset(b)| == 0;
    } else {
      var p, q := TakeOutLast(a, b);
      BucketPermutes(a[..|a| - 1], p + q, key);
      BucketAround(p, a[|a| - 1], q, key);
    }
  }

  /** `max(items, key=order)`: the first of the items with the greatest order. */
  function Strongest(items: seq<Occurrence>): (r: Occurrence)
    requires items != []
    ensures r in items && forall o :: o in items ==> o.order <= r.order
  {
    if |items| == 1 then items[0]
    else
      var rest, last := items[..|items| - 1], items[|items| - 1];
      var r := Strongest(rest);
      if last.order > r.order then last else r
  }

  lemma {:induction false} StrongestIsFirst(items: seq<Occurrence>) returns (k: nat)
    requires items != []
    ensures k < |items| && items[k] == Strongest(items)
    ensures forall j :: 0 <= j < k ==> items[j].order < items[k].order
  {
    k := 0;
    if |items| > 1 {
      k := StrongestIsFirst(items[..|items| - 1]);
      if items[|items| - 1].order > items[k].order { k := |items| - 1; }
    }
  }

  // ----- What the winner overrides -----

  predicate Loses(o: Occurrence, order: int, strictly: bool) {
    if strictly then o.order < order else o.order != order
  }

  /** The GPO names and values of the items that lose to a winner of this order, in chain order. */
  function Overridden(items: seq<Occurrence>, order: int, strictly: bool): seq<(string, string)> {
    if items == [] then []
    else
      var last := items[|items| - 1];
      Overridden(items[..|items| - 1], order, strictly)
        + if Loses(last, order, strictly) then [(last.gpoName, last.setting.value)] else []
  }

  lemma OverriddenGrows(items: seq<Occurrence>, i: nat, order: int, strictly: bool)
    requires i < |items|
    ensures Overridden(items[..i + 1], order, strictly)
            == Overridden(items[..i], order, strictly)
            + if Loses(items[i], order, strictly) then [(items[i].gpoName, items[i].setting.value)] else []
    ensures Overridden(items[..0], order, strictly) == []
  {
    assert items[..i + 1][..i] == items[..i];
  }

  /** How many of the items hold the winner's order. */
  function Holding(items: seq<Occurrence>, order: int): nat {
    if items == [] then 0
    else Holding(items[..|items| - 1], order) + if items[|items| - 1].order == order then 1 else 0
  }

  /** Every item either holds the winner's order or is listed as overridden, once. */
  lemma {:induction false} OverriddenAccounts(items: seq<Occurrence>, order: int, strictly: bool)
    requires strictly ==> forall o :: o in items ==> o.order <= order
    ensures |Overridden(items, order, strictly)| + Holding(items, order) == |items|
    ensures forall o :: o in items && o.order != order
              ==> (o.gpoName, o.setting.value) in Overridden(items, order, strictly)
  {
    if items != [] {
      var rest, last := items[..|items| - 1], items[|items| - 1];
      OverriddenAccounts(rest, order, strictly);
      assert forall o :: o in items ==> o in rest || o == last;
    }
  }

  // ----- Filling the buckets -----

  type Buckets = map<Key, seq<Occurrence>>

  function At(buckets: Buckets, key: Key): seq<Occurrence> {
    if key in buckets then buckets[key] else []
  }

  /** No bucket is empty: one exists only once something was put into it. */
  ghost predicate Filled(buckets: Buckets) {
    forall key :: key in buckets ==> buckets[key] != []
  }

  /** `buckets[KeyOf(s)].append(...)` on a default dictionary. */
  function Append(buckets: Buckets, entry: ChainEntry, s: Setting): (r: Buckets)
    ensures Filled(buckets) ==> Filled(r)
    ensures forall key :: At(r, key) == At(buckets, key) + if key == KeyOf(s) then [OccurrenceOf(entry, s)] else []
  {
    buckets[KeyOf(s) := At(buckets, KeyOf(s)) + [OccurrenceOf(entry, s)]]
  }

  method AddToBuckets(buckets: Buckets, entry: ChainEntry) returns (r: Buckets)
    requires Filled(buckets)
    ensures Filled(r)
    ensures forall key :: At(r, key) == At(buckets, key) + Live(entry, |entry.settings|, key)
  {
    hide At, Append, Filled;
    r := buckets;
    for i := 0 to |entry.settings|
      invariant Filled(r)
      invariant forall key :: At(r, key) == At(buckets, key) + Live(entry, i, key)
    {
      if !entry.settings[i].fromDisabledSide { r := Append(r, entry, entry.settings[i]); }
    }
  }
}
