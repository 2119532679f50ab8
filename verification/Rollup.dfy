/** The conflict rollup, resolved once per distinct chain, and the naive walk over every scope. */
module Rollup {
  import opened Estate
  import opened Prelude
  import opened Sorting
  import opened Text
  import opened Topology

  /** The sorted signature of an enabled chain is represented by its multiset. */
  type Signature = multiset<ChainLink>

  type Scopes = map<Signature, seq<string>>

  type Representatives = map<Signature, string>

  type Groups = map<Conflict, seq<string>>

  function SignatureOf(som: Som): Signature {
    multiset(ChainOf(som))
  }

  predicate Listed(som: Som) {
    som.links != [] && som.container != Site
  }

  /** Scopes of the walk that have something to resolve. */
  predicate Resolves(som: Som) {
    Listed(som) && ChainOf(som) != []
  }

  /** One row per distinct conflict; the sorted scope paths are represented by their multiset. */
  datatype Row = Row(conflict: Conflict, scopes: multiset<string>)

  // ----- The naive walk -----

  /**
   The paths, one per scope, at which the scope-by-scope walk over the first `n` scopes finds exactly this conflict.
   */
  function NaiveScopes(t: Topology, n: nat, c: Conflict): multiset<string>
    requires n <= |t.soms|
  {
    if n == 0 then multiset{}
    else
      var som := t.soms[n - 1];
      NaiveScopes(t, n - 1, c)
      + if Listed(som) && ConflictAt(t, som.path, c.key) == Some(c) then multiset{som.path} else multiset{}
  }

  /** One sorted row for every conflict that has scopes, with all of them. */
  ghost predicate RowsBy(scopesOf: Conflict -> multiset<string>, rows: seq<Row>) {
    && SortedBy(rows, RowLe)
    && (forall i, j :: 0 <= i < j < |rows| ==> rows[i].conflict != rows[j].conflict)
    && (forall i :: 0 <= i < |rows| ==> rows[i].scopes == scopesOf(rows[i].conflict) != multiset{})
    && (forall c :: scopesOf(c) != multiset{} ==> exists i :: 0 <= i < |rows| && rows[i].conflict == c)
  }

  /** The rows that grouping the naive walk gives. */
  ghost predicate IsRollup(t: Topology, rows: seq<Row>) {
    RowsBy(c => NaiveScopes(t, |t.soms|, c), rows)
  }

  /** Most scopes first, then by extension and by identity without case. */
  predicate RowLe(a: Row, b: Row) {
    || |a.scopes| > |b.scopes|
    || (|a.scopes| == |b.scopes|
        && if a.conflict.key.cse != b.conflict.key.cse then LexLe(a.conflict.key.cse, b.conflict.key.cse)
           else LexLe(Lower(a.conflict.key.identity), Lower(b.conflict.key.identity)))
  }

  lemma RowLeIsPreorder()
    ensures TotalPreorder(RowLe)
  {
    forall a, b ensures RowLe(a, b) || RowLe(b, a) {
      LexLeTotal(a.conflict.key.cse, b.conflict.key.cse);
      LexLeTotal(Lower(a.conflict.key.identity), Lower(b.conflict.key.identity));
    }
    forall a, b, c | RowLe(a, b) && RowLe(b, c) ensures RowLe(a, c) { RowLeTransitive(a, b, c); }
  }

  lemma RowLeTransitive(a: Row, b: Row, c: Row)
    requires RowLe(a, b) && RowLe(b, c)
    ensures RowLe(a, c)
  {
    hide Lower;
    if |a.scopes| == |b.scopes| == |c.scopes| {
      if LexLe(a.conflict.key.cse, b.conflict.key.cse) && LexLe(b.conflict.key.cse, c.conflict.key.cse) {
        LexLeTransitive(a.conflict.key.cse, b.conflict.key.cse, c.conflict.key.cse);
        if a.conflict.key.cse == c.conflict.key.cse { LexLeAntisymmetric(a.conflict.key.cse, b.conflict.key.cse); }
      }
      if a.conflict.key.cse == b.conflict.key.cse == c.conflict.key.cse {
        LexLeTransitive(Lower(a.conflict.key.identity), Lower(b.conflict.key.identity), Lower(c.conflict.key.identity));
      }
    }
  }

  // ----- Grouping by signature -----

  /** The paths of the scopes with this signature among the first `n`. */
  function ScopesOf(soms: seq<Som>, n: nat, sig: Signature): seq<string>
    requires n <= |soms|
  {
    if n == 0 then []
    else
      var som := soms[n - 1];
      ScopesOf(soms, n - 1, sig) + if Resolves(som) && SignatureOf(som) == sig then [som.path] else []
  }

  /** What the second pass attributes to `c`: every scope of each signature whose representative resolves to `c`. */
  function GroupedScopes(t: Topology, n: nat, sigs: seq<Signature>, repr: Representatives,
                         c: Conflict): multiset<string>
    requires n <= |t.soms| && forall s :: s in sigs ==> s in repr
  {
    if sigs == [] then multiset{}
    else
      var last := sigs[|sigs| - 1];
      GroupedScopes(t, n, sigs[..|sigs| - 1], repr, c)
      + if ConflictAt(t, repr[last], c.key) == Some(c) then multiset(ScopesOf(t.soms, n, last)) else multiset{}
  }

  /** The two dictionaries of the first pass, with the keys of the first in insertion order. */
  ghost predicate GroupedBySignature(soms: seq<Som>, n: nat, sigs: seq<Signature>, scopes: Scopes,
                                     repr: Representatives)
    requires n <= |soms|
  {
    && WithoutRepeats(sigs)
    && (forall s :: s in sigs <==> s in scopes)
    && (forall s :: s in sigs <==> s in repr)
    && (forall s :: s in sigs ==> scopes[s] == ScopesOf(soms, n, s) != [] && repr[s] == scopes[s][0])
    && (forall s :: s !in sigs ==> ScopesOf(soms, n, s) == [])
  }

  // ----- Scope by scope -----

  /** The enabled chain that a path resolves by. */
  function FoundChain(soms: seq<Som>, path: string): seq<ChainLink> {
    match FindSom(soms, path)
    case None => []
    case Some(som) => ChainOf(som)
  }

  lemma ConflictAtFound(t: Topology, path: string, key: Key)
    ensures ConflictAt(t, path, key) == ConflictOf(key, ChainBucket(t.gpos, FoundChain(t.soms, path), key))
  {
    hide ConflictOf, ChainBucket;
    EmptyChainHasNoConflict(t.gpos, key);
  }

  /** The chain that the cache resolves a scope by: the one its signature's first scope is found with. */
  function CacheChain(soms: seq<Som>, som: Som): seq<ChainLink> {
    var sharing := ScopesOf(soms, |soms|, SignatureOf(som));
    if !Resolves(som) || sharing == [] then [] else FoundChain(soms, sharing[0])
  }

  /** The paths, among the first `n` scopes, that the rollup attributes to `c`. */
  function CachedScopes(t: Topology, n: nat, c: Conflict): multiset<string>
    requires n <= |t.soms|
  {
    if n == 0 then multiset{}
    else
      var som := t.soms[n - 1];
      CachedScopes(t, n - 1, c)
      + if Listed(som) && ConflictOf(c.key, ChainBucket(t.gpos, CacheChain(t.soms, som), c.key)) == Some(c)
        then multiset{som.path} else multiset{}
  }

  lemma {:induction false} ScopesOfComplete(soms: seq<Som>, n: nat, i: nat)
    requires i < n <= |soms| && Resolves(soms[i])
    ensures ScopesOf(soms, n, SignatureOf(soms[i])) != []
  {
    hide SignatureOf, Resolves;
    if i < n - 1 { ScopesOfComplete(soms, n - 1, i); }
  }

  /** One more scope adds its path to its own signature's group only. */
  lemma {:induction false} GroupedGrows(t: Topology, n: nat, sigs: seq<Signature>, repr: Representatives, c: Conflict)
    requires 0 < n <= |t.soms| && WithoutRepeats(sigs) && forall s :: s in sigs ==> s in repr
    ensures var som := t.soms[n - 1];
            GroupedScopes(t, n, sigs, repr, c) == GroupedScopes(t, n - 1, sigs, repr, c)
            + if Resolves(som) && SignatureOf(som) in sigs && ConflictAt(t, repr[SignatureOf(som)], c.key) == Some(c)
              then multiset{som.path} else multiset{}
  {
    hide Resolves, SignatureOf, ConflictAt;
    if sigs != [] {
      var rest, last, sig := sigs[..|sigs| - 1], sigs[|sigs| - 1], SignatureOf(t.soms[n - 1]);
      GroupedGrows(t, n, rest, repr, c);
      assert sig in sigs <==> sig in rest || sig == last;
    }
  }

  lemma {:induction false} NothingGrouped(t: Topology, sigs: seq<Signature>, repr: Representatives, c: Conflict)
    requires forall s :: s in sigs ==> s in repr
    ensures GroupedScopes(t, 0, sigs, repr, c) == multiset{}
  {
    if sigs != [] { NothingGrouped(t, sigs[..|sigs| - 1], repr, c); }
  }

  lemma CacheResolves(t: Topology, sigs: seq<Signature>, scopes: Scopes, repr: Representatives, i: nat, key: Key)
    requires GroupedBySignature(t.soms, |t.soms|, sigs, scopes, repr) && i < |t.soms| && Resolves(t.soms[i])
    ensures SignatureOf(t.soms[i]) in sigs && SignatureOf(t.soms[i]) in repr
    ensures ConflictAt(t, repr[SignatureOf(t.soms[i])], key)
            == ConflictOf(key, ChainBucket(t.gpos, CacheChain(t.soms, t.soms[i]), key))
  {
    hide SignatureOf, Resolves, ScopesOf, ConflictAt, ConflictOf, ChainBucket, FoundChain;
    ScopesOfComplete(t.soms, |t.soms|, i);
    ConflictAtFound(t, repr[SignatureOf(t.soms[i])], key);
  }

  lemma UnresolvedHasNone(t: Topology, som: Som, c: Conflict)
    requires !Resolves(som)
    ensures ConflictOf(c.key, ChainBucket(t.gpos, CacheChain(t.soms, som), c.key)) == None
  {
    hide ConflictOf, ChainBucket;
    EmptyChainHasNoConflict(t.gpos, c.key);
  }

  lemma ResolvesIsListed(som: Som)
    ensures Resolves(som) ==> Listed(som)
  {
  }

  /** Grouping by signature attributes to each conflict the scopes whose cached chain resolves to it. */
  lemma {:induction false} GroupingIsCached(t: Topology, n: nat, sigs: seq<Signature>, scopes: Scopes,
                                            repr: Representatives, c: Conflict)
    requires GroupedBySignature(t.soms, |t.soms|, sigs, scopes, repr) && n <= |t.soms|
    requires forall s :: s in sigs ==> s in repr
    ensures GroupedScopes(t, n, sigs, repr, c) == CachedScopes(t, n, c)
  {
    hide Resolves, Listed, SignatureOf, ConflictAt, ConflictOf, ChainBucket, CacheChain, ScopesOf;
    if n == 0 {
      NothingGrouped(t, sigs, repr, c);
    } else {
      GroupingIsCached(t, n - 1, sigs, scopes, repr, c);
      GroupedGrows(t, n, sigs, repr, c);
      ResolvesIsListed(t.soms[n - 1]);
      if Resolves(t.soms[n - 1]) {
        CacheResolves(t, sigs, scopes, repr, n - 1, c.key);
      } else {
        UnresolvedHasNone(t, t.soms[n - 1], c);
      }
    }
  }

  // ----- The rollup -----

  lemma UnresolvedScope(soms: seq<Som>, n: nat, sigs: seq<Signature>, scopes: Scopes, repr: Representatives)
    requires n < |soms| && GroupedBySignature(soms, n, sigs, scopes, repr) && !Resolves(soms[n])
    ensures GroupedBySignature(soms, n + 1, sigs, scopes, repr)
  {
    hide SignatureOf, Resolves;
    assert forall s :: ScopesOf(soms, n + 1, s) == ScopesOf(soms, n, s);
  }

  lemma FirstOfSignature(soms: seq<Som>, n: nat, sigs: seq<Signature>, scopes: Scopes, repr: Representatives)
    requires n < |soms| && GroupedBySignature(soms, n, sigs, scopes, repr) && Resolves(soms[n])
             && SignatureOf(soms[n]) !in scopes
    ensures var sig, path := SignatureOf(soms[n]), soms[n].path;
            GroupedBySignature(soms, n + 1, sigs + [sig], scopes[sig := [path]], repr[sig := path])
  {
    hide SignatureOf, Resolves;
    var sig := SignatureOf(soms[n]);
    assert sig !in sigs;
    assert ScopesOf(soms, n, sig) == [];
    assert ScopesOf(soms, n + 1, sig) == [soms[n].path];
    assert forall s :: s != sig ==> ScopesOf(soms, n + 1, s) == ScopesOf(soms, n, s);
  }

  lemma NextOfSignature(soms: seq<Som>, n: nat, sigs: seq<Signature>, scopes: Scopes, repr: Representatives)
    requires n < |soms| && GroupedBySignature(soms, n, sigs, scopes, repr) && Resolves(soms[n])
             && SignatureOf(soms[n]) in scopes
    ensures var sig, path := SignatureOf(soms[n]), soms[n].path;
            GroupedBySignature(soms, n + 1, sigs, scopes[sig := scopes[sig] + [path]], repr)
  {
    hide SignatureOf, Resolves;
    var sig := SignatureOf(soms[n]);
    assert ScopesOf(soms, n + 1, sig) == ScopesOf(soms, n, sig) + [soms[n].path];
    assert forall s :: s != sig ==> ScopesOf(soms, n + 1, s) == ScopesOf(soms, n, s);
  }

  lemma NoScopes(soms: seq<Som>)
    ensures GroupedBySignature(soms, 0, [], map[], map[])
  {
  }

  /** The first pass: scopes bucketed by the signature of their enabled chain, sites left out. */
  method GroupScopes(soms: seq<Som>) returns (sigs: seq<Signature>, scopes: Scopes, repr: Representatives)
    ensures GroupedBySignature(soms, |soms|, sigs, scopes, repr)
  {
    hide GroupedBySignature, SignatureOf;
    sigs, scopes, repr := [], map[], map[];
    NoScopes(soms);
    for n := 0 to |soms|
      invariant GroupedBySignature(soms, n, sigs, scopes, repr)
    {
      var som := soms[n];
      if som.links == [] || som.container == Site || ChainOf(som) == [] {
        UnresolvedScope(soms, n, sigs, scopes, repr);
        continue;
      }
      var sig := SignatureOf(som);
      if sig in scopes {
        NextOfSignature(soms, n, sigs, scopes, repr);
        scopes := scopes[sig := scopes[sig] + [som.path]];
      } else {
        FirstOfSignature(soms, n, sigs, scopes, repr);
        sigs, scopes, repr := sigs + [sig], scopes[sig := [som.path]], repr[sig := som.path];
      }
    }
  }

  function ScopesAt(groups: Groups, c: Conflict): seq<string> {
    if c in groups then groups[c] else []
  }

  predicate Found(conflicts: map<Key, Conflict>, keys: set<Key>, c: Conflict) {
    c.key in keys && c.key in conflicts && conflicts[c.key] == c
  }

  /** Extends the group of every conflict of one chain by all the scopes that share the chain. */
  method FanOut(before: Groups, conflicts: map<Key, Conflict>, scopes: seq<string>) returns (groups: Groups)
    requires forall key :: key in conflicts ==> conflicts[key].key == key
    ensures forall c :: ScopesAt(groups, c) == ScopesAt(before, c)
              + if Found(conflicts, conflicts.Keys, c) then scopes else []
    ensures forall c :: c in groups <==> c in before || Found(conflicts, conflicts.Keys, c)
  {
    groups := before;
    var todo := conflicts.Keys;
    while todo != {}
      invariant todo <= conflicts.Keys
      invariant forall c :: ScopesAt(groups, c) == ScopesAt(before, c)
                  + if Found(conflicts, conflicts.Keys - todo, c) then scopes else []
      invariant forall c :: c in groups <==> c in before || Found(conflicts, conflicts.Keys - todo, c)
    {
      var key :| key in todo;
      todo := todo - {key};
      var c := conflicts[key];
      groups := groups[c := ScopesAt(groups, c) + scopes];
    }
  }

  /** The groups hold what each of the processed signatures adds, and no group is empty. */
  ghost predicate Grouped(t: Topology, sigs: seq<Signature>, repr: Representatives, groups: Groups)
    requires forall s :: s in sigs ==> s in repr
  {
    && (forall c :: multiset(ScopesAt(groups, c)) == GroupedScopes(t, |t.soms|, sigs, repr, c))
    && (forall c :: c in groups ==> groups[c] != [])
  }

  lemma GroupedStep(t: Topology, sigs: seq<Signature>, i: nat, scopes: Scopes, repr: Representatives,
                    before: Groups, conflicts: map<Key, Conflict>, groups: Groups)
    requires GroupedBySignature(t.soms, |t.soms|, sigs, scopes, repr) && i < |sigs|
             && Grouped(t, sigs[..i], repr, before)
    requires forall key :: key in conflicts <==> ConflictAt(t, repr[sigs[i]], key).Some?
    requires forall key :: key in conflicts ==> ConflictAt(t, repr[sigs[i]], key) == Some(conflicts[key])
    requires forall c :: ScopesAt(groups, c) == ScopesAt(before, c)
               + if Found(conflicts, conflicts.Keys, c) then scopes[sigs[i]] else []
    requires forall c :: c in groups <==> c in before || Found(conflicts, conflicts.Keys, c)
    ensures Grouped(t, sigs[..i + 1], repr, groups)
  {
    hide ConflictAt, ScopesOf;
    assert sigs[..i + 1][..i] == sigs[..i];
    forall c ensures multiset(ScopesAt(groups, c)) == GroupedScopes(t, |t.soms|, sigs[..i + 1], repr, c) {
      assert Found(conflicts, conflicts.Keys, c) <==> ConflictAt(t, repr[sigs[i]], c.key) == Some(c);
      assert multiset(ScopesAt(before, c)) == GroupedScopes(t, |t.soms|, sigs[..i], repr, c);
    }
    forall c | c in groups ensures groups[c] != [] {
      assert ScopesAt(groups, c) == groups[c];
      if c in before { assert ScopesAt(before, c) == before[c]; }
    }
  }

  lemma ConflictKeeps(t: Topology, path: string, key: Key)
    ensures ConflictAt(t, path, key).Some? ==> ConflictAt(t, path, key).value.key == key
  {
    hide ChainBucket, FindSom, Strongest;
  }

  /** The second pass: conflicts resolved once per signature and fanned out to every scope that shares it. */
  method GroupConflicts(t: Topology, sigs: seq<Signature>, scopes: Scopes, repr: Representatives)
    returns (groups: Groups)
    requires GroupedBySignature(t.soms, |t.soms|, sigs, scopes, repr)
    ensures Grouped(t, sigs, repr, groups)
  {
    hide ConflictAt, ScopesOf, Found, ScopesAt, Grouped;
    groups := map[];
    NothingYet(t, repr);
    assert sigs[..0] == [];
    for i := 0 to |sigs|
      invariant Grouped(t, sigs[..i], repr, groups)
    {
      var conflicts := SomConflicts(t, repr[sigs[i]]);
      forall key | key in conflicts ensures conflicts[key].key == key { ConflictKeeps(t, repr[sigs[i]], key); }
      var after := FanOut(groups, conflicts, scopes[sigs[i]]);
      GroupedStep(t, sigs, i, scopes, repr, groups, conflicts, after);
      groups := after;
    }
    assert sigs[..|sigs|] == sigs;
  }

  lemma NothingYet(t: Topology, repr: Representatives)
    ensures Grouped(t, [], repr, map[])
  {
  }

  // ----- The rows, by scopes and chains alone -----

  /**
   Scope `r` speaks for scope `i`: it is the first scope that is no site whose enabled links are those of `i`, in any
   order, and there are some.
   */
  ghost predicate SpeaksFor(soms: seq<Som>, r: int, i: int) {
    && 0 <= r <= i < |soms| && soms[r].container != Site && ChainOf(soms[r]) != []
    && multiset(ChainOf(soms[r])) == multiset(ChainOf(soms[i]))
    && forall j :: 0 <= j < r && soms[j].container != Site ==> multiset(ChainOf(soms[j])) != multiset(ChainOf(soms[i]))
  }

  /** Scope `i` is no site, and the conflict is found at the path of the scope that speaks for it. */
  ghost predicate InConflict(t: Topology, i: int, c: Conflict) {
    && 0 <= i < |t.soms| && t.soms[i].container != Site
    && exists r :: SpeaksFor(t.soms, r, i) && ConflictAt(t, t.soms[r].path, c.key) == Some(c)
  }

  /** The scopes of this path in conflict, among the first `n`. */
  ghost function Sharers(t: Topology, n: nat, c: Conflict, path: string): set<int>
    requires n <= |t.soms|
  {
    set i | 0 <= i < n && t.soms[i].path == path && InConflict(t, i, c)
  }

  /**
   Every row lists a path as often as scopes of that path are in its conflict, and sites never are; every scope in a
   conflict is in a row; most scopes come first, then the order is by extension and by identity without case.
   */
  ghost predicate RowsTell(t: Topology, rows: seq<Row>) {
    && (forall k, path :: 0 <= k < |rows| ==> rows[k].scopes[path] == |Sharers(t, |t.soms|, rows[k].conflict, path)|)
    && (forall i, c :: InConflict(t, i, c) ==> exists k :: 0 <= k < |rows| && rows[k].conflict == c)
    && (forall k, l :: 0 <= k < l < |rows| ==>
          && |rows[k].scopes| >= |rows[l].scopes|
          && (|rows[k].scopes| == |rows[l].scopes| ==>
                var x, y := rows[k].conflict.key, rows[l].conflict.key;
                if x.cse != y.cse then LexLe(x.cse, y.cse) else LexLe(Lower(x.identity), Lower(y.identity))))
  }

  lemma {:induction false} FirstOfScopes(soms: seq<Som>, n: nat, sig: Signature, r: nat)
    requires r < n <= |soms| && Resolves(soms[r]) && SignatureOf(soms[r]) == sig
    requires forall j :: 0 <= j < r && Resolves(soms[j]) ==> SignatureOf(soms[j]) != sig
    ensures ScopesOf(soms, n, sig) != [] && ScopesOf(soms, n, sig)[0] == soms[r].path
  {
    hide Resolves, SignatureOf;
    if r < n - 1 { FirstOfScopes(soms, n - 1, sig, r); } else { NoScopesBefore(soms, r, sig); }
  }

  lemma {:induction false} NoScopesBefore(soms: seq<Som>, n: nat, sig: Signature)
    requires n <= |soms| && forall j :: 0 <= j < n && Resolves(soms[j]) ==> SignatureOf(soms[j]) != sig
    ensures ScopesOf(soms, n, sig) == []
  {
    hide Resolves, SignatureOf;
    if n > 0 { NoScopesBefore(soms, n - 1, sig); }
  }

  /** Having an enabled link is all that the two filters ask of a scope that is no site. */
  lemma ResolvesMeans(som: Som)
    ensures Resolves(som) <==> som.container != Site && ChainOf(som) != []
  {
  }

  lemma {:induction false} SomeSpeaker(soms: seq<Som>, j: nat, i: nat) returns (r: nat)
    requires j <= i < |soms| && soms[j].container != Site && ChainOf(soms[i]) != []
    requires multiset(ChainOf(soms[j])) == multiset(ChainOf(soms[i]))
    ensures SpeaksFor(soms, r, i)
  {
    hide ChainOf;
    if k :| 0 <= k < j && soms[k].container != Site && multiset(ChainOf(soms[k])) == multiset(ChainOf(soms[i])) {
      r := SomeSpeaker(soms, k, i);
    } else {
      r := j;
      assert |multiset(ChainOf(soms[j]))| == |ChainOf(soms[j])| && |multiset(ChainOf(soms[i]))| == |ChainOf(soms[i])|;
    }
  }

  lemma SpeakerIsCached(soms: seq<Som>, r: nat, i: nat)
    requires SpeaksFor(soms, r, i) && soms[i].container != Site
    ensures Resolves(soms[i]) && CacheChain(soms, soms[i]) == FoundChain(soms, soms[r].path)
  {
    hide ChainOf, Resolves, FoundChain, ScopesOf;
    assert |multiset(ChainOf(soms[r]))| == |ChainOf(soms[r])| && |multiset(ChainOf(soms[i]))| == |ChainOf(soms[i])|;
    ResolvesMeans(soms[r]);
    ResolvesMeans(soms[i]);
    forall j | 0 <= j < r && Resolves(soms[j]) ensures SignatureOf(soms[j]) != SignatureOf(soms[i]) {
      ResolvesMeans(soms[j]);
    }
    FirstOfScopes(soms, |soms|, SignatureOf(soms[i]), r);
  }

  lemma CachedMeansInConflict(t: Topology, i: nat, c: Conflict)
    requires i < |t.soms|
    ensures Listed(t.soms[i]) && ConflictOf(c.key, ChainBucket(t.gpos, CacheChain(t.soms, t.soms[i]), c.key)) == Some(c)
            <==> InConflict(t, i, c)
  {
    hide ChainOf, Resolves, Listed, FoundChain, CacheChain, ConflictOf, ChainBucket, ConflictAt;
    var som := t.soms[i];
    ResolvesMeans(som);
    ResolvesIsListed(som);
    if som.container != Site && ChainOf(som) != [] {
      var r := SomeSpeaker(t.soms, i, i);
      SpeakerIsCached(t.soms, r, i);
      ConflictAtFound(t, t.soms[r].path, c.key);
      forall q | SpeaksFor(t.soms, q, i) ensures q == r { SpeakerIsUnique(t.soms, q, r, i); }
    } else {
      UnresolvedHasNone(t, som, c);
      forall r ensures som.container == Site || !SpeaksFor(t.soms, r, i) {
        if SpeaksFor(t.soms, r, i) {
          assert |multiset(ChainOf(t.soms[r]))| == |ChainOf(t.soms[r])| && |multiset(ChainOf(som))| == |ChainOf(som)|;
        }
      }
    }
  }

  lemma SpeakerIsUnique(soms: seq<Som>, q: int, r: int, i: int)
    requires SpeaksFor(soms, q, i) && SpeaksFor(soms, r, i)
    ensures q == r
  {
    hide ChainOf;
  }

  lemma {:induction false} CachedScopesCount(t: Topology, n: nat, c: Conflict, path: string)
    requires n <= |t.soms|
    ensures CachedScopes(t, n, c)[path] == |Sharers(t, n, c, path)|
  {
    hide Listed, CacheChain, ConflictOf, ChainBucket, InConflict;
    if n > 0 {
      CachedScopesCount(t, n - 1, c, path);
      CachedMeansInConflict(t, n - 1, c);
      SharersGrow(t, n, c, path);
    }
  }

  lemma SharersGrow(t: Topology, n: nat, c: Conflict, path: string)
    requires 0 < n <= |t.soms|
    ensures |Sharers(t, n, c, path)|
            == |Sharers(t, n - 1, c, path)| + if t.soms[n - 1].path == path && InConflict(t, n - 1, c) then 1 else 0
  {
    hide Sharers, InConflict;
    var before, after := Sharers(t, n - 1, c, path), Sharers(t, n, c, path);
    var added := if t.soms[n - 1].path == path && InConflict(t, n - 1, c) then {n - 1} else {};
    forall i: int ensures i in after <==> i in before + added {
      SharersAre(t, n, c, path, i);
      SharersAre(t, n - 1, c, path, i);
    }
    assert after == before + added;
    SharersAre(t, n - 1, c, path, n - 1);
  }

  lemma SharersAre(t: Topology, n: nat, c: Conflict, path: string, i: int)
    requires n <= |t.soms|
    ensures i in Sharers(t, n, c, path) <==> 0 <= i < n && t.soms[i].path == path && InConflict(t, i, c)
  {
    hide InConflict;
  }

  lemma RowsOfCacheTell(t: Topology, rows: seq<Row>)
    requires RowsBy(c => CachedScopes(t, |t.soms|, c), rows)
    ensures RowsTell(t, rows)
  {
    hide CachedScopes, InConflict, LexLe, Sharers;
    forall k, path | 0 <= k < |rows|
      ensures rows[k].scopes[path] == |Sharers(t, |t.soms|, rows[k].conflict, path)|
    {
      RowHolds(t, rows, k);
      CachedScopesCount(t, |t.soms|, rows[k].conflict, path);
    }
    forall i, c | InConflict(t, i, c) ensures exists k :: 0 <= k < |rows| && rows[k].conflict == c {
      ConflictingIsCached(t, i, c);
      CachedHasRow(t, rows, c);
    }
    RowsAreOrdered(rows);
  }

  lemma RowsAreOrdered(rows: seq<Row>)
    requires SortedBy(rows, RowLe)
    ensures forall k, l :: 0 <= k < l < |rows| ==> RowLe(rows[k], rows[l])
  {
    hide RowLe;
    var le := RowLe;
    forall k, l | 0 <= k < l < |rows| ensures RowLe(rows[k], rows[l]) { assert le(rows[k], rows[l]); }
  }

  /** The scopes of this path that the walk finds in the conflict, among the first `n`. */
  ghost function FoundAt(t: Topology, n: nat, c: Conflict, path: string): set<int>
    requires n <= |t.soms|
  {
    set i | 0 <= i < n && t.soms[i].path == path && t.soms[i].links != [] && t.soms[i].container != Site
            && ConflictAt(t, path, c.key) == Some(c)
  }

  /** The walk counts every scope with links that is no site and at whose path the conflict is found. */
  lemma {:induction false} NaiveScopesCount(t: Topology, n: nat, c: Conflict, path: string)
    requires n <= |t.soms|
    ensures NaiveScopes(t, n, c)[path] == |FoundAt(t, n, c, path)|
  {
    hide ConflictAt, FoundAt;
    if n == 0 {
      NoneFound(t, c, path);
    } else {
      NaiveScopesCount(t, n - 1, c, path);
      FoundGrows(t, n, c, path);
    }
  }

  lemma NoneFound(t: Topology, c: Conflict, path: string)
    ensures FoundAt(t, 0, c, path) == {}
  {
  }

  lemma FoundIs(t: Topology, n: nat, c: Conflict, path: string, i: int)
    requires n <= |t.soms|
    ensures i in FoundAt(t, n, c, path) <==>
              && 0 <= i < n && t.soms[i].path == path && t.soms[i].links != [] && t.soms[i].container != Site
              && ConflictAt(t, path, c.key) == Some(c)
  {
    hide ConflictAt;
  }

  lemma FoundGrows(t: Topology, n: nat, c: Conflict, path: string)
    requires 0 < n <= |t.soms|
    ensures var som := t.soms[n - 1];
            |FoundAt(t, n, c, path)| == |FoundAt(t, n - 1, c, path)|
            + if som.path == path && som.links != [] && som.container != Site
                 && ConflictAt(t, path, c.key) == Some(c) then 1 else 0
  {
    hide ConflictAt, FoundAt;
    var before, after, som := FoundAt(t, n - 1, c, path), FoundAt(t, n, c, path), t.soms[n - 1];
    var added := if som.path == path && som.links != [] && som.container != Site
                    && ConflictAt(t, path, c.key) == Some(c) then {n - 1} else {};
    forall i: int ensures i in after <==> i in before + added {
      FoundIs(t, n, c, path, i);
      FoundIs(t, n - 1, c, path, i);
    }
    assert after == before + added;
    FoundIs(t, n - 1, c, path, n - 1);
  }

  lemma RowHolds(t: Topology, rows: seq<Row>, k: nat)
    requires k < |rows| && RowsBy(c => CachedScopes(t, |t.soms|, c), rows)
    ensures rows[k].scopes == CachedScopes(t, |t.soms|, rows[k].conflict)
  {
    hide CachedScopes, RowLe;
    var f := (c: Conflict) => CachedScopes(t, |t.soms|, c);
    assert rows[k].scopes == f(rows[k].conflict);
  }

  lemma CachedHasRow(t: Topology, rows: seq<Row>, c: Conflict)
    requires RowsBy(d => CachedScopes(t, |t.soms|, d), rows) && CachedScopes(t, |t.soms|, c) != multiset{}
    ensures exists k :: 0 <= k < |rows| && rows[k].conflict == c
  {
    hide CachedScopes, RowLe;
    var f := (d: Conflict) => CachedScopes(t, |t.soms|, d);
    assert f(c) != multiset{};
  }

  lemma ConflictingIsCached(t: Topology, i: int, c: Conflict)
    requires InConflict(t, i, c)
    ensures CachedScopes(t, |t.soms|, c) != multiset{}
  {
    hide CachedScopes, ChainOf, ConflictAt;
    CachedScopesCount(t, |t.soms|, c, t.soms[i].path);
    assert i in Sharers(t, |t.soms|, c, t.soms[i].path);
  }

  /** `precedence_conflict_rollup`: for every estate, the rows of the cached attribution. */
  method PrecedenceConflictRollup(t: Topology) returns (rows: seq<Row>)
    ensures RowsBy(c => CachedScopes(t, |t.soms|, c), rows)
    ensures RowsTell(t, rows)
  {
    hide GroupedBySignature, Grouped, RowLe, RowsBy, RowsOf, RowsTell;
    var sigs, scopes, repr := GroupScopes(t.soms);
    var groups := GroupConflicts(t, sigs, scopes, repr);
    rows := [];
    NoRows(groups);
    var todo := groups.Keys;
    assert groups.Keys - todo == {};
    while todo != {}
      invariant todo <= groups.Keys && RowsOf(groups, groups.Keys - todo, rows)
    {
      var c :| c in todo;
      RowsGrow(groups, groups.Keys - todo, rows, c);
      assert groups.Keys - (todo - {c}) == groups.Keys - todo + {c};
      todo := todo - {c};
      rows := rows + [Row(c, multiset(groups[c]))];
    }
    assert groups.Keys - todo == groups.Keys;
    RowLeIsPreorder();
    var unsorted := rows;
    SortSorts(unsorted, RowLe);
    rows := Sort(unsorted, RowLe);
    SortedRowsAreCached(t, sigs, scopes, repr, groups, unsorted, rows);
    RowsOfCacheTell(t, rows);
  }

  ghost predicate RowsOf(groups: Groups, done: set<Conflict>, rows: seq<Row>)
    requires done <= groups.Keys
  {
    && (forall i :: 0 <= i < |rows|
          ==> rows[i].conflict in done && rows[i].scopes == multiset(groups[rows[i].conflict]))
    && (forall c :: c in done ==> exists i :: 0 <= i < |rows| && rows[i].conflict == c)
    && (forall r :: multiset(rows)[r] <= 1)
  }

  lemma NoRows(groups: Groups)
    ensures RowsOf(groups, {}, [])
  {
  }

  lemma RowsGrow(groups: Groups, done: set<Conflict>, rows: seq<Row>, c: Conflict)
    requires done <= groups.Keys && RowsOf(groups, done, rows) && c in groups && c !in done
    ensures RowsOf(groups, done + {c}, rows + [Row(c, multiset(groups[c]))])
  {
    var row := Row(c, multiset(groups[c]));
    assert row !in rows;
    assert (rows + [row])[|rows|] == row;
    forall d | d in done ensures exists i :: 0 <= i < |rows + [row]| && (rows + [row])[i].conflict == d {
      var i :| 0 <= i < |rows| && rows[i].conflict == d;
      assert (rows + [row])[i].conflict == d;
    }
  }

  lemma TwiceCounts<T>(s: seq<T>, i: nat, j: nat)
    requires i < j < |s| && s[i] == s[j]
    ensures multiset(s)[s[i]] >= 2
  {
    assert s == s[..j] + s[j..];
    assert s[..j][i] == s[i] && s[j..][0] == s[i];
  }

  /** Rows are told apart by their conflicts. */
  lemma ConflictsDiffer(groups: Groups, unsorted: seq<Row>, rows: seq<Row>)
    requires RowsOf(groups, groups.Keys, unsorted) && multiset(rows) == multiset(unsorted)
    ensures forall i :: 0 <= i < |rows|
              ==> rows[i].conflict in groups && rows[i].scopes == multiset(groups[rows[i].conflict])
    ensures forall i, j :: 0 <= i < j < |rows| ==> rows[i].conflict != rows[j].conflict
    ensures forall c :: c in groups ==> exists i :: 0 <= i < |rows| && rows[i].conflict == c
  {
    assert forall r :: r in rows <==> r in multiset(rows);
    assert forall r :: r in unsorted <==> r in multiset(unsorted);
    forall i | 0 <= i < |rows|
      ensures rows[i].conflict in groups && rows[i].scopes == multiset(groups[rows[i].conflict])
    {
      assert rows[i] in unsorted;
    }
    forall i, j | 0 <= i < j < |rows| ensures rows[i].conflict != rows[j].conflict {
      if rows[i].conflict == rows[j].conflict { TwiceCounts(rows, i, j); }
    }
    forall c | c in groups ensures exists i :: 0 <= i < |rows| && rows[i].conflict == c {
      var k :| 0 <= k < |unsorted| && unsorted[k].conflict == c;
      assert unsorted[k] in rows;
    }
  }

  lemma SortedRowsAreCached(t: Topology, sigs: seq<Signature>, scopes: Scopes, repr: Representatives,
                            groups: Groups, unsorted: seq<Row>, rows: seq<Row>)
    requires GroupedBySignature(t.soms, |t.soms|, sigs, scopes, repr)
    requires Grouped(t, sigs, repr, groups) && RowsOf(groups, groups.Keys, unsorted)
    requires SortedBy(rows, RowLe) && multiset(rows) == multiset(unsorted)
    ensures RowsBy(c => CachedScopes(t, |t.soms|, c), rows)
  {
    hide GroupedBySignature, RowLe, Grouped, CachedScopes, RowsOf;
    GroupsAreCached(t, sigs, scopes, repr, groups);
    ConflictsDiffer(groups, unsorted, rows);
    forall c | c in groups ensures multiset(groups[c]) == CachedScopes(t, |t.soms|, c) {
      assert groups[c] == ScopesAt(groups, c);
    }
    forall c | CachedScopes(t, |t.soms|, c) != multiset{} ensures c in groups {
      assert multiset(ScopesAt(groups, c)) != multiset{};
    }
  }

  lemma GroupsAreCached(t: Topology, sigs: seq<Signature>, scopes: Scopes, repr: Representatives, groups: Groups)
    requires GroupedBySignature(t.soms, |t.soms|, sigs, scopes, repr) && Grouped(t, sigs, repr, groups)
    ensures forall c :: multiset(ScopesAt(groups, c)) == CachedScopes(t, |t.soms|, c)
    ensures forall c :: c in groups ==> CachedScopes(t, |t.soms|, c) != multiset{}
  {
    hide GroupedBySignature, CachedScopes, GroupedScopes;
    GroupedKeys(t.soms, |t.soms|, sigs, scopes, repr);
    forall c ensures multiset(ScopesAt(groups, c)) == CachedScopes(t, |t.soms|, c) {
      GroupingIsCached(t, |t.soms|, sigs, scopes, repr, c);
    }
    forall c | c in groups ensures CachedScopes(t, |t.soms|, c) != multiset{} {
      assert groups[c] == ScopesAt(groups, c) && groups[c] != [];
      assert |multiset(groups[c])| == |groups[c]|;
    }
  }

  lemma GroupedKeys(soms: seq<Som>, n: nat, sigs: seq<Signature>, scopes: Scopes, repr: Representatives)
    requires n <= |soms| && GroupedBySignature(soms, n, sigs, scopes, repr)
    ensures forall s :: s in sigs ==> s in repr && s in scopes
  {
  }

  lemma {:induction false} DistinctCountsOnce<T>(s: seq<T>, x: T)
    requires WithoutRepeats(s)
    ensures multiset(s)[x] == if x in s then 1 else 0
  {
    if s != [] {
      DistinctCountsOnce(s[..|s| - 1], x);
      assert s == s[..|s| - 1] + [s[|s| - 1]];
    }
  }

  /** Rows are determined up to the order of rows that tie on the sort key. */
  lemma RollupIsCanonical(scopesOf: Conflict -> multiset<string>, a: seq<Row>, b: seq<Row>)
    requires RowsBy(scopesOf, a) && RowsBy(scopesOf, b)
    ensures multiset(a) == multiset(b) && |a| == |b|
    ensures forall i :: 0 <= i < |a| ==> RowLe(a[i], b[i]) && RowLe(b[i], a[i])
  {
    hide RowLe;
    RollupSameRows(scopesOf, a, b);
    RowLeIsPreorder();
    forall i: nat | i < |a| ensures RowLe(a[i], b[i]) && RowLe(b[i], a[i]) { SortedAgree(a, b, RowLe, i); }
  }

  lemma RollupSameRows(scopesOf: Conflict -> multiset<string>, a: seq<Row>, b: seq<Row>)
    requires RowsBy(scopesOf, a) && RowsBy(scopesOf, b)
    ensures multiset(a) == multiset(b) && |a| == |b|
  {
    hide RowLe, RowsBy, WithoutRepeats;
    forall r ensures multiset(a)[r] == multiset(b)[r] {
      RollupMembers(scopesOf, a, b, r);
      RollupMembers(scopesOf, b, a, r);
      DistinctCountsOnce(a, r);
      DistinctCountsOnce(b, r);
    }
    assert |multiset(a)| == |a| && |multiset(b)| == |b|;
  }

  lemma RollupMembers(scopesOf: Conflict -> multiset<string>, a: seq<Row>, b: seq<Row>, r: Row)
    requires RowsBy(scopesOf, a) && RowsBy(scopesOf, b)
    ensures r in a ==> r in b
    ensures WithoutRepeats(a)
  {
    hide RowLe;
    if r in a {
      var i :| 0 <= i < |a| && a[i] == r;
      var j :| 0 <= j < |b| && b[j].conflict == r.conflict;
      assert b[j] == r;
    }
  }
}
