/** Exactly when the signature-cached rollup is the scope-by-scope walk. */
module RollupExactness {
  import opened ChainRanking
  import opened Estate
  import opened GpoIndex
  import opened Prelude
  import opened Rollup
  import opened Sorting
  import opened Text
  import opened Topology

  /** Every listed scope is cached under a chain that is alike to the one its own path is found with. */
  ghost predicate CachedAlike(soms: seq<Som>) {
    forall i :: 0 <= i < |soms| && Listed(soms[i]) ==> Alike(FoundChain(soms, soms[i].path), CacheChain(soms, soms[i]))
  }

  // ----- Agreement -----

  lemma {:induction false} CachedIsNaive(t: Topology, n: nat, c: Conflict)
    requires CachedAlike(t.soms) && n <= |t.soms|
    ensures CachedScopes(t, n, c) == NaiveScopes(t, n, c)
  {
    hide Listed, ConflictAt, ConflictOf, ChainBucket, FoundChain, CacheChain, Alike;
    if n > 0 {
      CachedIsNaive(t, n - 1, c);
      var som := t.soms[n - 1];
      ConflictAtFound(t, som.path, c.key);
      if Listed(som) { AlikeResolves(t.gpos, FoundChain(t.soms, som.path), CacheChain(t.soms, som), c.key); }
    }
  }

  // ----- Divergence -----

  /** Where the walk finds `c` at a path, the cache attributes the path to it at most as often. */
  lemma {:induction false} CacheLags(t: Topology, n: nat, c: Conflict, path: string, i: nat)
    requires n <= |t.soms| && ConflictAt(t, path, c.key) == Some(c)
    ensures CachedScopes(t, n, c)[path] <= NaiveScopes(t, n, c)[path]
    ensures i < n && t.soms[i].path == path && Listed(t.soms[i])
            && ConflictOf(c.key, ChainBucket(t.gpos, CacheChain(t.soms, t.soms[i]), c.key)) != Some(c)
            ==> CachedScopes(t, n, c)[path] < NaiveScopes(t, n, c)[path]
  {
    hide Listed, ConflictAt, ConflictOf, ChainBucket, CacheChain;
    if n > 0 { CacheLags(t, n - 1, c, path, i); }
  }

  /** Where the walk does not find `c` at a path, it never attributes the path to it. */
  lemma {:induction false} WalkAbstains(t: Topology, n: nat, c: Conflict, path: string)
    requires n <= |t.soms| && ConflictAt(t, path, c.key) != Some(c)
    ensures NaiveScopes(t, n, c)[path] == 0
  {
    hide Listed, ConflictAt;
    if n > 0 { WalkAbstains(t, n - 1, c, path); }
  }

  lemma {:induction false} CacheAttributes(t: Topology, n: nat, c: Conflict, i: nat)
    requires i < n <= |t.soms| && Listed(t.soms[i])
    requires ConflictOf(c.key, ChainBucket(t.gpos, CacheChain(t.soms, t.soms[i]), c.key)) == Some(c)
    ensures CachedScopes(t, n, c)[t.soms[i].path] > 0
  {
    hide Listed, ConflictOf, ChainBucket, CacheChain;
    if i < n - 1 { CacheAttributes(t, n - 1, c, i); }
  }

  /** A scope whose own chain and cached chain resolve one setting differently shows in the rows. */
  lemma DivergesAt(t: Topology, i: nat, key: Key) returns (c: Conflict)
    requires i < |t.soms| && Listed(t.soms[i])
    requires ConflictAt(t, t.soms[i].path, key)
             != ConflictOf(key, ChainBucket(t.gpos, CacheChain(t.soms, t.soms[i]), key))
    ensures CachedScopes(t, |t.soms|, c) != NaiveScopes(t, |t.soms|, c)
  {
    hide Listed, ConflictAt, ConflictOf, ChainBucket, CacheChain, CachedScopes, NaiveScopes;
    var path := t.soms[i].path;
    var own, cached :=
      ConflictAt(t, path, key), ConflictOf(key, ChainBucket(t.gpos, CacheChain(t.soms, t.soms[i]), key));
    if own.Some? {
      c := own.value;
      ConflictKeeps(t, path, key);
      CacheLags(t, |t.soms|, c, path, i);
    } else {
      c := cached.value;
      ConflictShows(key, ChainBucket(t.gpos, CacheChain(t.soms, t.soms[i]), key));
      WalkAbstains(t, |t.soms|, c, path);
      CacheAttributes(t, |t.soms|, c, i);
    }
  }

  /** The cache attributes to every conflict the scopes that the walk does. */
  ghost predicate CacheIsNaive(t: Topology) {
    forall c :: CachedScopes(t, |t.soms|, c) == NaiveScopes(t, |t.soms|, c)
  }

  lemma UnlikeDiverges(soms: seq<Som>) returns (gpos: seq<Gpo>)
    requires !CachedAlike(soms)
    ensures !CacheIsNaive(Topology(Indexed(gpos), soms))
  {
    hide Listed, ConflictAt, ConflictOf, ChainBucket, FoundChain, CacheChain, Alike, CachedScopes, NaiveScopes, Indexed;
    var i :| 0 <= i < |soms| && Listed(soms[i]) && !Alike(FoundChain(soms, soms[i].path), CacheChain(soms, soms[i]));
    gpos := UnlikeInEstate(FoundChain(soms, soms[i].path), CacheChain(soms, soms[i]));
    ConflictAtFound(Topology(Indexed(gpos), soms), soms[i].path, ONE_KEY);
    var c := DivergesAt(Topology(Indexed(gpos), soms), i, ONE_KEY);
  }

  /**
   For given scopes the cache gives the walk's attribution, in every estate and under every index at all, exactly when
   every listed scope is cached under a chain alike to its own.  No condition on paths or orders is assumed.
   */
  lemma RollupIsExact(soms: seq<Som>)
    ensures CachedAlike(soms) <==> forall gpos: map<string, Gpo> :: CacheIsNaive(Topology(gpos, soms))
    ensures CachedAlike(soms) <==> forall gpos: seq<Gpo> :: CacheIsNaive(Topology(Indexed(gpos), soms))
  {
    hide CachedAlike, CachedScopes, NaiveScopes, Indexed;
    if CachedAlike(soms) {
      forall gpos: map<string, Gpo>, c
        ensures CachedScopes(Topology(gpos, soms), |soms|, c) == NaiveScopes(Topology(gpos, soms), |soms|, c)
      {
        CachedIsNaive(Topology(gpos, soms), |soms|, c);
      }
    } else {
      var gpos := UnlikeDiverges(soms);
    }
  }

  /** Then the method's rows are the rows of the walk. */
  lemma RowsAreNaive(t: Topology, rows: seq<Row>)
    requires CachedAlike(t.soms) && RowsBy(c => CachedScopes(t, |t.soms|, c), rows)
    ensures IsRollup(t, rows)
  {
    hide CachedAlike, CachedScopes, NaiveScopes, RowsBy;
    forall c ensures CachedScopes(t, |t.soms|, c) == NaiveScopes(t, |t.soms|, c) { CachedIsNaive(t, |t.soms|, c); }
    SameScopesSameRows(c => CachedScopes(t, |t.soms|, c), c => NaiveScopes(t, |t.soms|, c), rows);
  }

  lemma SameScopesSameRows(f: Conflict -> multiset<string>, g: Conflict -> multiset<string>, rows: seq<Row>)
    requires RowsBy(f, rows) && forall c :: f(c) == g(c)
    ensures RowsBy(g, rows)
  {
    hide RowLe;
  }

  /** And where one attribution differs, they are not. */
  lemma RowsTell(t: Topology, c: Conflict, rows: seq<Row>)
    requires CachedScopes(t, |t.soms|, c) != NaiveScopes(t, |t.soms|, c)
    requires RowsBy(d => CachedScopes(t, |t.soms|, d), rows)
    ensures !IsRollup(t, rows)
  {
    hide CachedScopes, NaiveScopes, RowsBy;
    OtherScopesOtherRows(d => CachedScopes(t, |t.soms|, d), d => NaiveScopes(t, |t.soms|, d), c, rows);
  }

  lemma OtherScopesOtherRows(f: Conflict -> multiset<string>, g: Conflict -> multiset<string>, c: Conflict,
                             rows: seq<Row>)
    requires RowsBy(f, rows) && f(c) != g(c)
    ensures !RowsBy(g, rows)
  {
    hide RowLe;
    if f(c) != multiset{} { var i :| 0 <= i < |rows| && rows[i].conflict == c; }
  }

  // ----- Distinct paths -----

  /** No two scopes share a path when case is ignored. */
  predicate DistinctPaths(soms: seq<Som>) {
    forall i, j :: 0 <= i < j < |soms| ==> Lower(soms[i].path) != Lower(soms[j].path)
  }

  /** Scopes of one signature rank every two of their GPOs alike. */
  ghost predicate SignaturesRankAlike(soms: seq<Som>) {
    forall i, j :: 0 <= i < |soms| && 0 <= j < |soms| && Resolves(soms[i]) && Resolves(soms[j])
      && SignatureOf(soms[i]) == SignatureOf(soms[j])
      ==> RankedAlike(ChainOf(soms[i]), ChainOf(soms[j]))
  }

  lemma {:induction false} FindSomByIndex(soms: seq<Som>, i: nat)
    requires i < |soms| && DistinctPaths(soms)
    ensures FindSom(soms, soms[i].path) == Some(soms[i])
  {
    hide Lower;
    if i > 0 { FindSomByIndex(soms[1..], i - 1); }
  }

  lemma {:induction false} ScopesOfMember(soms: seq<Som>, n: nat, sig: Signature, k: nat) returns (i: nat)
    requires n <= |soms| && k < |ScopesOf(soms, n, sig)|
    ensures i < n && Resolves(soms[i]) && SignatureOf(soms[i]) == sig && soms[i].path == ScopesOf(soms, n, sig)[k]
  {
    hide SignatureOf, Resolves;
    if k < |ScopesOf(soms, n - 1, sig)| { i := ScopesOfMember(soms, n - 1, sig, k); } else { i := n - 1; }
  }

  /** With distinct paths a scope is found by its own chain and cached under that of a scope with the same signature. */
  lemma CachedUnder(soms: seq<Som>, i: nat) returns (r: nat)
    requires i < |soms| && DistinctPaths(soms) && Resolves(soms[i])
    ensures FoundChain(soms, soms[i].path) == ChainOf(soms[i])
    ensures r < |soms| && Resolves(soms[r]) && SignatureOf(soms[r]) == SignatureOf(soms[i])
    ensures CacheChain(soms, soms[i]) == ChainOf(soms[r])
  {
    hide SignatureOf, Resolves, ScopesOf, DistinctPaths, ChainOf;
    FindSomByIndex(soms, i);
    ScopesOfComplete(soms, |soms|, i);
    r := ScopesOfMember(soms, |soms|, SignatureOf(soms[i]), 0);
    FindSomByIndex(soms, r);
  }

  lemma CacheIsShared(soms: seq<Som>, a: Som, b: Som)
    requires Resolves(a) && Resolves(b) && SignatureOf(a) == SignatureOf(b)
    ensures CacheChain(soms, a) == CacheChain(soms, b)
  {
  }

  lemma UnresolvedAlike(soms: seq<Som>, i: nat)
    requires i < |soms| && DistinctPaths(soms) && Listed(soms[i]) && !Resolves(soms[i])
    ensures Alike(FoundChain(soms, soms[i].path), CacheChain(soms, soms[i]))
  {
    hide DistinctPaths, FindSom, SignatureOf, ScopesOf, RankedAlike;
    FindSomByIndex(soms, i);
    assert Ids([]) == {};
  }

  /** With distinct paths the condition is that scopes of one signature rank every two of their GPOs alike. */
  lemma DistinctPathsExact(soms: seq<Som>)
    requires DistinctPaths(soms)
    ensures CachedAlike(soms) <==> SignaturesRankAlike(soms)
  {
    hide DistinctPaths, Resolves, Alike, RankedAlike, FoundChain, CacheChain, ScopesOf, ChainOf;
    if SignaturesRankAlike(soms) {
      forall i | 0 <= i < |soms| && Listed(soms[i])
        ensures Alike(FoundChain(soms, soms[i].path), CacheChain(soms, soms[i])) {
        if Resolves(soms[i]) {
          var r := CachedUnder(soms, i);
          SameLinksAlike(ChainOf(soms[i]), ChainOf(soms[r]));
        } else {
          UnresolvedAlike(soms, i);
        }
      }
    }
    if CachedAlike(soms) {
      forall i, j | 0 <= i < |soms| && 0 <= j < |soms| && Resolves(soms[i]) && Resolves(soms[j])
        && SignatureOf(soms[i]) == SignatureOf(soms[j])
        ensures RankedAlike(ChainOf(soms[i]), ChainOf(soms[j]))
      {
        var r := CachedUnder(soms, i);
        var s := CachedUnder(soms, j);
        CacheIsShared(soms, soms[i], soms[j]);
        ResolvesIsListed(soms[i]);
        ResolvesIsListed(soms[j]);
        SameLinksAlike(ChainOf(soms[i]), ChainOf(soms[r]));
        SameLinksAlike(ChainOf(soms[j]), ChainOf(soms[s]));
        RankedAlikeCompares(ChainOf(soms[i]), ChainOf(soms[j]), ChainOf(soms[r]));
      }
    }
  }

  lemma RankedAlikeCompares(a: seq<ChainLink>, b: seq<ChainLink>, r: seq<ChainLink>)
    requires multiset(a) == multiset(b) && RankedAlike(a, r) && RankedAlike(b, r)
    ensures RankedAlike(a, b)
  {
    hide Leader;
    ImagePermutes(IdOf, a, b);
    SameIds(a, b);
  }

  /** Enabled links of equal order in one scope name one GPO; distinct orders are the usual case. */
  predicate UntiedOrders(soms: seq<Som>) {
    forall i :: 0 <= i < |soms| ==>
      forall x, y :: x in ChainOf(soms[i]) && y in ChainOf(soms[i]) && x.order == y.order ==> x.gpoId == y.gpoId
  }

  /** So distinct paths and distinct orders are enough. */
  lemma UntiedIsCachedAlike(soms: seq<Som>)
    requires DistinctPaths(soms) && UntiedOrders(soms)
    ensures CachedAlike(soms)
  {
    hide DistinctPaths, Resolves, CachedAlike, RankedAlike, ChainOf;
    forall i, j | 0 <= i < |soms| && 0 <= j < |soms| && Resolves(soms[i]) && Resolves(soms[j])
      && SignatureOf(soms[i]) == SignatureOf(soms[j])
      ensures RankedAlike(ChainOf(soms[i]), ChainOf(soms[j]))
    {
      UntiedAreRankedAlike(ChainOf(soms[i]), ChainOf(soms[j]));
    }
    DistinctPathsExact(soms);
  }

  // ----- Estates on which the rollup differs -----

  function Enabled(gpoId: string, order: int): SomLink {
    SomLink(gpoId, order, true, false)
  }

  lemma TwoLinks(path: string, a: SomLink, b: SomLink)
    requires a.enabled && b.enabled
    ensures ChainOf(Som(path, Domain, [a, b]))
            == [ChainLink(a.gpoId, a.order, a.enforced), ChainLink(b.gpoId, b.order, b.enforced)]
    ensures ChainOf(Som(path, Domain, [a])) == [ChainLink(a.gpoId, a.order, a.enforced)]
  {
    assert EnabledChain([a, b], 0) == [] && EnabledChain([a], 0) == [];
    assert EnabledChain([a, b], 1) == [ChainLink(a.gpoId, a.order, a.enforced)];
  }

  /** The rivals as an estate: its index holds them and no more. */
  function TwoRivals(): seq<Gpo> {
    [OneSettingGpo("g", "1"), OneSettingGpo("h", "2")]
  }

  lemma RivalsAreIndexed()
    ensures Indexed(TwoRivals()) == Rivals("g", "h")
  {
    LetterIsStripped("g");
    LetterIsStripped("h");
    hide Stripped;
    var gpos := TwoRivals();
    assert gpos[..1] == [gpos[0]] && [gpos[0]][..0] == [] && Indexed([]) == map[];
    assert Indexed([gpos[0]]) == map["g" := gpos[0]];
  }

  lemma LetterIsStripped(id: string)
    requires |id| == 1 && 'a' <= id[0] <= 'z'
    ensures Stripped(id) == id
  {
    TrimmedStrips(id);
    assert id[1..] == "" && Unhyphened("") == "";
    assert Unhyphened(id) == [id[0]] + "" == id;
    assert Lower(id) == id;
  }

  /** Two scopes link the same two GPOs at the same order, listed the other way round. */
  function TiedScopes(): Topology {
    Topology(Rivals("g", "h"),
             [Som("a", Domain, [Enabled("g", 1), Enabled("h", 1)]),
              Som("b", Domain, [Enabled("h", 1), Enabled("g", 1)])])
  }

  lemma TiedChains()
    ensures var soms := TiedScopes().soms;
            && FoundChain(soms, "a") == [ChainLink("g", 1, false), ChainLink("h", 1, false)] == ChainOf(soms[0])
            && FoundChain(soms, "b") == [ChainLink("h", 1, false), ChainLink("g", 1, false)] == ChainOf(soms[1])
            && Listed(soms[1])
  {
    TwoLinks("a", Enabled("g", 1), Enabled("h", 1));
    TwoLinks("b", Enabled("h", 1), Enabled("g", 1));
    hide ChainOf;
    assert Lower("a")[0] == 'a' && Lower("b")[0] == 'b';
  }

  lemma TiedCache()
    ensures CacheChain(TiedScopes().soms, TiedScopes().soms[1]) == FoundChain(TiedScopes().soms, "a")
  {
    var soms := TiedScopes().soms;
    TiedChains();
    hide ChainOf, FoundChain;
    assert SignatureOf(soms[0]) == SignatureOf(soms[1]);
    FirstOfTwo(soms, SignatureOf(soms[1]));
  }

  lemma FirstOfTwo(soms: seq<Som>, sig: Signature)
    requires |soms| == 2 && Resolves(soms[0]) && Resolves(soms[1])
             && SignatureOf(soms[0]) == SignatureOf(soms[1]) == sig
    ensures ScopesOf(soms, 2, sig) == [soms[0].path, soms[1].path]
  {
    hide SignatureOf, Resolves;
    assert ScopesOf(soms, 0, sig) == [];
    assert ScopesOf(soms, 1, sig) == [soms[0].path];
  }

  /** Of two links at one order the first leads. */
  lemma FirstLeads(a: string, b: string)
    ensures Leader([ChainLink(a, 1, false), ChainLink(b, 1, false)], {a, b}) == Some(a)
  {
    var chain := [ChainLink(a, 1, false), ChainLink(b, 1, false)];
    assert IsTop(chain, {a, b}, 0);
    TopIsUnique(chain, {a, b}, 0);
  }

  lemma TiedConflicts()
    ensures var t := TiedScopes();
            ConflictAt(t, "b", ONE_KEY)
              != ConflictOf(ONE_KEY, ChainBucket(t.gpos, CacheChain(t.soms, t.soms[1]), ONE_KEY))
  {
    hide ChainBucket, ConflictOf, Rivals, Leader, FoundChain, CacheChain;
    var t := TiedScopes();
    var gh, hg := [ChainLink("g", 1, false), ChainLink("h", 1, false)],
      [ChainLink("h", 1, false), ChainLink("g", 1, false)];
    TiedChains();
    TiedCache();
    ConflictAtFound(t, "b", ONE_KEY);
    assert gh[0] in gh && gh[1] in gh && hg[0] in hg && hg[1] in hg;
    RivalConflict(gh, "g", "h");
    RivalConflict(hg, "g", "h");
    FirstLeads("g", "h");
    FirstLeads("h", "g");
    assert {"h", "g"} == {"g", "h"};
  }

  /** The rollup reports the first scope's winner for the second, where the other GPO wins. */
  lemma TiedOrdersDiverge(rows: seq<Row>)
    requires RowsBy(c => CachedScopes(TiedScopes(), |TiedScopes().soms|, c), rows)
    ensures !IsRollup(TiedScopes(), rows) && TiedScopes().gpos == Indexed(TwoRivals())
  {
    RivalsAreIndexed();
    hide RowsBy, IsRollup, CachedScopes, NaiveScopes, Indexed, Rivals, ChainBucket, ConflictOf, ConflictAt, CacheChain;
    TiedChains();
    TiedConflicts();
    var c := DivergesAt(TiedScopes(), 1, ONE_KEY);
    RowsTell(TiedScopes(), c, rows);
  }

  /** Two paths that differ by case only, and a third scope that shares its signature with the second. */
  function CollidingPaths(): Topology {
    Topology(Rivals("g", "h"),
             [Som("a", Domain, [Enabled("g", 1), Enabled("h", 2)]), Som("A", Domain, [Enabled("g", 1)]),
              Som("b", Domain, [Enabled("g", 1)])])
  }

  lemma CollidingChains()
    ensures var soms := CollidingPaths().soms;
            && FoundChain(soms, "A") == [ChainLink("g", 1, false), ChainLink("h", 2, false)] == ChainOf(soms[0])
            && FoundChain(soms, "b") == [ChainLink("g", 1, false)] == ChainOf(soms[2]) == ChainOf(soms[1])
            && Listed(soms[2])
  {
    TwoLinks("a", Enabled("g", 1), Enabled("h", 2));
    TwoLinks("A", Enabled("g", 1), Enabled("g", 1));
    TwoLinks("b", Enabled("g", 1), Enabled("g", 1));
    hide ChainOf;
    assert Lower("a")[0] == 'a' && Lower("A")[0] == 'a' && Lower("b")[0] == 'b';
    assert Lower("a") == Lower("A");
  }

  lemma CollidingCache()
    ensures CacheChain(CollidingPaths().soms, CollidingPaths().soms[2]) == FoundChain(CollidingPaths().soms, "A")
  {
    var soms := CollidingPaths().soms;
    CollidingChains();
    hide ChainOf, FoundChain;
    var sig := SignatureOf(soms[2]);
    assert ChainLink("h", 2, false) in SignatureOf(soms[0]) && ChainLink("h", 2, false) !in sig;
    LastTwoOfThree(soms, sig);
  }

  lemma LastTwoOfThree(soms: seq<Som>, sig: Signature)
    requires |soms| == 3 && Resolves(soms[1]) && Resolves(soms[2])
    requires SignatureOf(soms[0]) != sig && SignatureOf(soms[1]) == SignatureOf(soms[2]) == sig
    ensures ScopesOf(soms, 3, sig) == [soms[1].path, soms[2].path]
  {
    hide SignatureOf, Resolves;
    assert ScopesOf(soms, 0, sig) == [];
    assert ScopesOf(soms, 1, sig) == [];
    assert ScopesOf(soms, 2, sig) == [soms[1].path];
  }

  lemma RivalMissing()
    ensures ConflictOf(ONE_KEY, ChainBucket(Rivals("g", "h"), [ChainLink("g", 1, false)], ONE_KEY)).None?
    ensures ConflictOf(ONE_KEY, ChainBucket(Rivals("g", "h"), [ChainLink("g", 1, false), ChainLink("h", 2, false)],
                                            ONE_KEY)).Some?
  {
    hide ChainBucket, ConflictOf, Rivals, Leader, LinksOf;
    var both := [ChainLink("g", 1, false), ChainLink("h", 2, false)];
    assert both[0] in both && both[1] in both;
    RivalConflict(both, "g", "h");
    RivalConflict([ChainLink("g", 1, false)], "g", "h");
  }

  lemma CollidingConflicts()
    ensures var t := CollidingPaths();
            ConflictAt(t, "b", ONE_KEY)
              != ConflictOf(ONE_KEY, ChainBucket(t.gpos, CacheChain(t.soms, t.soms[2]), ONE_KEY))
  {
    hide ChainBucket, ConflictOf, Rivals, FoundChain, CacheChain, ConflictAt;
    CollidingChains();
    CollidingCache();
    ConflictAtFound(CollidingPaths(), "b", ONE_KEY);
    RivalMissing();
  }

  /**
   The second scope is found by the first one's chain, so the rollup reports a conflict for the third, which has none.
   */
  lemma CollidingPathsDiverge(rows: seq<Row>)
    requires RowsBy(c => CachedScopes(CollidingPaths(), |CollidingPaths().soms|, c), rows)
    ensures !IsRollup(CollidingPaths(), rows) && CollidingPaths().gpos == Indexed(TwoRivals())
  {
    RivalsAreIndexed();
    hide RowsBy, IsRollup, CachedScopes, NaiveScopes, Indexed, Rivals, ChainBucket, ConflictOf, ConflictAt, CacheChain;
    CollidingChains();
    CollidingConflicts();
    var c := DivergesAt(CollidingPaths(), 2, ONE_KEY);
    RowsTell(CollidingPaths(), c, rows);
  }
}
