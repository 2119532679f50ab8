/** What one run does to every occurrence, and why the difference of two adjacent runs agrees with it. */
module LifecycleRuns {
  import opened Prelude
  import opened Lifecycle
  import opened LifecycleInvariant
  import opened LifecycleHistory

  // ----- A run, fingerprint by fingerprint -----

  /** The two states hold the same rows for `fp`. */
  ghost predicate SameFor(t: Tables, t': Tables, fp: Fingerprint) {
    && (forall id :: id in t.findings && t.findings[id].fingerprint == fp
          ==> id in t'.findings && t'.findings[id] == t.findings[id])
    && (forall id :: id in t'.findings && t'.findings[id].fingerprint == fp
          ==> id in t.findings && t'.findings[id] == t.findings[id])
  }

  lemma SameForAgree(t: Tables, t': Tables, fp: Fingerprint)
    requires Ranges(t) && Intervals(t) && Ranges(t') && Intervals(t') && SameFor(t, t', fp)
    ensures OpenId(t', fp) == OpenId(t, fp) && Predecessor(t', fp) == Predecessor(t, fp)
  {
    assert forall id: nat :: OpenAt(t', fp, id) <==> OpenAt(t, fp, id);
    assert forall id: nat :: ResolvedAt(t', fp, id) <==> ResolvedAt(t, fp, id);
    PredecessorIsLast(t, fp);
    PredecessorIsLast(t', fp);
    if OpenId(t, fp).Some? { OpenIdIs(t', fp, OpenId(t, fp).value); }
  }

  lemma ObserveLeavesOthers(t: Tables, run: nat, c: Candidate, fp: Fingerprint)
    requires Ranges(t) && run in t.runs && fp != c.fingerprint
    ensures SameFor(t, Observe(t, run, c), fp)
  {
    assert t.nextFinding !in t.findings;
  }

  lemma {:induction false} ObserveAllLeavesOthers(t: Tables, run: nat, cs: seq<Candidate>, fp: Fingerprint)
    requires Inv(t) && MidRun(t, run, {}) && Distinct(cs) && fp !in Fingerprints(cs)
    ensures SameFor(t, ObserveAll(t, run, cs), fp)
  {
    if cs != [] {
      var rest, c := cs[..|cs| - 1], cs[|cs| - 1];
      assert cs == rest + [c];
      FingerprintsOfSnoc(rest, c);
      DistinctSnoc(rest, c);
      ObserveAllKeepsInv(t, run, rest);
      var mid := ObserveAll(t, run, rest);
      ObserveLeavesOthers(mid, run, c, fp);
      hide Inv, MidRun, Distinct, Observe;
      ObserveAllLeavesOthers(t, run, rest, fp);
    }
  }

  /** How the occurrence that a run observes for candidate `c` stands afterwards, compared with `t` before. */
  ghost predicate CarriedBy(t: Tables, t': Tables, run: nat, snapshot: nat, c: Candidate, id: nat) {
    && id in t'.findings && Observed(t', id, run, c.severity)
    && match OpenId(t, c.fingerprint)
       case Some(was) => id == was && id in t.findings
         && t'.findings[id] == Touched(t.findings[id], run, snapshot, c.severity)
       case None => t.nextFinding <= id && t'.findings[id] == Opened(c, run, snapshot, Predecessor(t, c.fingerprint))
  }

  lemma ObserveCarries(t: Tables, mid: Tables, run: nat, c: Candidate) returns (id: nat)
    requires run in mid.runs && OpenId(mid, c.fingerprint) == OpenId(t, c.fingerprint)
    requires Predecessor(mid, c.fingerprint) == Predecessor(t, c.fingerprint)
    requires SameFor(t, mid, c.fingerprint) && t.nextFinding <= mid.nextFinding
    ensures CarriedBy(t, Observe(mid, run, c), run, mid.runs[run].snapshot, c, id)
  {
    var t' := Observe(mid, run, c);
    match OpenId(mid, c.fingerprint) {
      case Some(was) =>
        id := was;
        assert OpenAt(mid, c.fingerprint, id);
      case None => id := mid.nextFinding;
    }
    assert t'.observations[mid.nextObservation] == Observation(run, id, c.severity);
  }

  lemma ObserveKeepsCarried(t: Tables, mid: Tables, run: nat, snapshot: nat, c: Candidate, id: nat, d: Candidate)
    requires Inv(mid) && run in mid.runs && CarriedBy(t, mid, run, snapshot, c, id) && d.fingerprint != c.fingerprint
    ensures CarriedBy(t, Observe(mid, run, d), run, snapshot, c, id)
  {
    var t' := Observe(mid, run, d);
    ObserveLeavesOthers(mid, run, d, c.fingerprint);
    ObserveKeepsObservations(mid, run, d);
    hide Inv, Observe, Observed, OpenId, Predecessor;
    CarriedObserved(t, mid, run, snapshot, c, id);
    RowKept(mid, t', id, run, c.severity);
  }

  lemma CarriedObserved(t: Tables, t': Tables, run: nat, snapshot: nat, c: Candidate, id: nat)
    requires CarriedBy(t, t', run, snapshot, c, id)
    ensures id in t'.findings && Observed(t', id, run, c.severity) && t'.findings[id].fingerprint == c.fingerprint
  {
  }

  lemma ObserveKeepsObservations(t: Tables, run: nat, d: Candidate)
    requires Rows(t) && run in t.runs
    ensures var t' := Observe(t, run, d);
            forall k :: k in t.observations ==> k in t'.observations && t'.observations[k] == t.observations[k]
  {
    assert t.nextObservation !in t.observations;
  }

  lemma {:induction false} ObserveAllCarries(t: Tables, run: nat, cs: seq<Candidate>, i: nat) returns (id: nat)
    requires Inv(t) && MidRun(t, run, {}) && Distinct(cs) && i < |cs|
    ensures CarriedBy(t, ObserveAll(t, run, cs), run, t.runs[run].snapshot, cs[i], id)
  {
    var rest, c := cs[..|cs| - 1], cs[|cs| - 1];
    assert cs == rest + [c];
    DistinctSnoc(rest, c);
    ObserveAllKeepsInv(t, run, rest);
    hide Inv, MidRun, Observe, CarriedBy;
    if i == |rest| {
      id := LastIsCarried(t, run, rest, c);
    } else {
      id := ObserveAllCarries(t, run, rest, i);
      assert rest[i] in rest;
      ObserveKeepsCarried(t, ObserveAll(t, run, rest), run, t.runs[run].snapshot, rest[i], id, c);
    }
  }

  lemma LastIsCarried(t: Tables, run: nat, rest: seq<Candidate>, c: Candidate) returns (id: nat)
    requires Inv(t) && MidRun(t, run, {}) && Distinct(rest) && c.fingerprint !in Fingerprints(rest)
    ensures CarriedBy(t, Observe(ObserveAll(t, run, rest), run, c), run, t.runs[run].snapshot, c, id)
  {
    var mid := ObserveAll(t, run, rest);
    ObserveAllKeepsInv(t, run, rest);
    ObserveAllLeavesOthers(t, run, rest, c.fingerprint);
    ObserveAllResolvesNothing(t, run, rest);
    hide Witnessed, Introduced, Rows, OneRowPerRun, Predecessors, Counters, Observe, CarriedBy;
    SameForAgree(t, mid, c.fingerprint);
    id := ObserveCarries(t, mid, run, c);
  }

  // ----- A whole run -----

  /** Every distinct candidate of a run has exactly one open occurrence afterwards, with a row for the run. */
  lemma RunCarries(t: Tables, snapshot: nat, inp: Input, c: Candidate) returns (id: nat)
    requires Inv(t) && snapshot in t.snapshots && c in Unique(inp.candidates)
    ensures CarriedBy(t, Evaluate(t, snapshot, inp), t.nextRun, snapshot, c, id)
  {
    var run, us := t.nextRun, Unique(inp.candidates);
    var begun := BeginRun(t, snapshot, Partial);
    UniqueIsDistinct(inp.candidates);
    BeginRunKeepsInv(t, snapshot, Partial);
    var i :| 0 <= i < |us| && us[i] == c;
    id := ObserveAllCarries(begun, run, us, i);
    BegunAgrees(t, snapshot, c.fingerprint);
    hide Inv, MidRun, ObserveAll, Unique, Distinct;
    EvaluateKeepsCarried(t, snapshot, inp, c, id);
  }

  /**
   What a run stores for a fingerprint is its first candidate: there is one open occurrence afterwards, last seen by the
   run, with that candidate's severity in the table and in the run's row. It is the one that was open, with the origin
   it had, or else a fresh one of the candidate's.
   */
  lemma RunStoresFirst(t: Tables, snapshot: nat, inp: Input, i: nat) returns (id: nat)
    requires Inv(t) && snapshot in t.snapshots && FirstAt(inp.candidates, i)
    ensures var t', c := Evaluate(t, snapshot, inp), inp.candidates[i];
            && id in t'.findings && t'.findings[id].fingerprint == c.fingerprint
            && t'.findings[id].severity == c.severity && t'.findings[id].lastSeen == t.nextRun
            && t'.findings[id].lastSnapshot == snapshot && IsOpen(t'.findings[id])
            && (exists k :: k in t'.observations && t'.observations[k] == Observation(t.nextRun, id, c.severity))
            && (forall j :: j in t'.findings && t'.findings[j].fingerprint == c.fingerprint && IsOpen(t'.findings[j])
                  ==> j == id)
            && if id in t.findings then IsOpen(t.findings[id]) && SameOrigin(t.findings[id], t'.findings[id])
               else
                 && (forall j :: j in t.findings && t.findings[j].fingerprint == c.fingerprint
                       ==> !IsOpen(t.findings[j]))
                 && t'.findings[id].gpoId == c.gpoId && t'.findings[id].stable == c.stable
                 && t'.findings[id].firstSeen == t.nextRun && t'.findings[id].firstSnapshot == snapshot
  {
    hide Inv, Evaluate, Unique, CarriedBy;
    var c := inp.candidates[i];
    var at := UniqueKeepsFirsts(inp.candidates);
    assert i in at;
    var k :| 0 <= k < |at| && at[k] == i;
    assert Unique(inp.candidates)[k] == c;
    id := RunCarries(t, snapshot, inp, c);
    CarriedMeans(t, Evaluate(t, snapshot, inp), t.nextRun, snapshot, c, id);
    EvaluateKeepsInv(t, snapshot, inp);
    var t' := Evaluate(t, snapshot, inp);
    forall j | j in t'.findings && t'.findings[j].fingerprint == c.fingerprint && IsOpen(t'.findings[j])
      ensures j == id
    {
      OneIsOpen(t', c.fingerprint, id, j);
    }
  }

  ghost predicate SameOrigin(f: Finding, f': Finding) {
    && f'.firstSeen == f.firstSeen && f'.firstSnapshot == f.firstSnapshot && f'.predecessor == f.predecessor
    && f'.gpoId == f.gpoId && f'.stable == f.stable
  }

  lemma OneIsOpen(t: Tables, fp: Fingerprint, i: nat, j: nat)
    requires Inv(t) && OpenAt(t, fp, i) && OpenAt(t, fp, j)
    ensures i == j
  {
    AtMostOneOpen(t, fp, i, j);
  }

  lemma CarriedMeans(t: Tables, t': Tables, run: nat, snapshot: nat, c: Candidate, id: nat)
    requires Inv(t) && CarriedBy(t, t', run, snapshot, c, id)
    ensures OpenAt(t', c.fingerprint, id) && t'.findings[id].severity == c.severity && t'.findings[id].lastSeen == run
    ensures t'.findings[id].lastSnapshot == snapshot
    ensures exists k :: k in t'.observations && t'.observations[k] == Observation(run, id, c.severity)
    ensures if id in t.findings then IsOpen(t.findings[id]) && SameOrigin(t.findings[id], t'.findings[id])
            else
              && (forall j :: j in t.findings && t.findings[j].fingerprint == c.fingerprint ==> !IsOpen(t.findings[j]))
              && t'.findings[id].gpoId == c.gpoId && t'.findings[id].stable == c.stable
              && t'.findings[id].firstSeen == run && t'.findings[id].firstSnapshot == snapshot
  {
    hide Intervals, Witnessed, Introduced, Rows, OneRowPerRun, Predecessors, Counters, Predecessor;
    assert forall j :: j in t.findings && t.findings[j].fingerprint == c.fingerprint && IsOpen(t.findings[j])
             ==> OpenAt(t, c.fingerprint, j);
  }

  lemma BegunAgrees(t: Tables, snapshot: nat, fp: Fingerprint)
    requires Inv(t) && snapshot in t.snapshots
    ensures var begun := BeginRun(t, snapshot, Partial);
            OpenId(begun, fp) == OpenId(t, fp) && Predecessor(begun, fp) == Predecessor(t, fp)
  {
    BeginRunKeepsInv(t, snapshot, Partial);
    hide Witnessed, Introduced, Rows, OneRowPerRun, Predecessors, Counters, Ranges, Intervals;
    SameForAgree(t, BeginRun(t, snapshot, Partial), fp);
  }

  lemma EvaluateKeepsCarried(t: Tables, snapshot: nat, inp: Input, c: Candidate, id: nat)
    requires c.fingerprint in Fingerprints(inp.candidates)
    requires var begun := BeginRun(t, snapshot, Partial);
             && OpenId(begun, c.fingerprint) == OpenId(t, c.fingerprint)
             && Predecessor(begun, c.fingerprint) == Predecessor(t, c.fingerprint)
             && CarriedBy(begun, ObserveAll(begun, t.nextRun, Unique(inp.candidates)), t.nextRun, snapshot, c, id)
    ensures CarriedBy(t, Evaluate(t, snapshot, inp), t.nextRun, snapshot, c, id)
  {
    hide ObserveAll, Unique;
    var begun := BeginRun(t, snapshot, Partial);
    var o := ObserveAll(begun, t.nextRun, Unique(inp.candidates));
    var k :| k in o.observations && o.observations[k] == Observation(t.nextRun, id, c.severity);
    assert Evaluate(t, snapshot, inp).observations[k] == o.observations[k];
  }

  /** A run changes no other occurrence, except that it resolves those it may. */
  lemma RunLeavesOthers(t: Tables, snapshot: nat, inp: Input, id: nat)
    requires Inv(t) && snapshot in t.snapshots && id in t.findings
    requires t.findings[id].resolved.Some? || t.findings[id].fingerprint !in Fingerprints(inp.candidates)
    ensures var f := t.findings[id];
            && id in Evaluate(t, snapshot, inp).findings
            && Evaluate(t, snapshot, inp).findings[id] ==
               if MayResolve(t, Reevaluate(snapshot, inp), id)
               then f.(resolved := Some(t.nextRun), resolvedSnapshot := Some(snapshot)) else f
  {
    var run, begun := t.nextRun, BeginRun(t, snapshot, Partial);
    var o := ObserveAll(begun, run, Unique(inp.candidates));
    UniqueIsDistinct(inp.candidates);
    BeginRunKeepsInv(t, snapshot, Partial);
    hide Inv, MidRun, ObserveAll, Unique, Distinct, SameResolutions, SameFor, Settle;
    ObserveAllResolvesNothing(begun, run, Unique(inp.candidates));
    if t.findings[id].fingerprint !in Fingerprints(inp.candidates) {
      ObserveAllLeavesOthers(begun, run, Unique(inp.candidates), t.findings[id].fingerprint);
    }
    SettleLeavesOthers(begun, o, run, inp, id);
    SettlesWhatItMay(t, snapshot, inp, id);
  }

  lemma SettleLeavesOthers(t: Tables, o: Tables, run: nat, inp: Input, id: nat)
    requires id in t.findings && run in o.runs
    requires SameResolutions(t, o, Fingerprints(inp.candidates))
    requires t.findings[id].resolved.Some? || SameFor(t, o, t.findings[id].fingerprint)
    ensures var f := t.findings[id];
            && id in Settle(o, run, inp).findings
            && Settle(o, run, inp).findings[id] ==
               if EffectiveStatus(inp) == Completed && Vanished(f, inp)
               then f.(resolved := Some(run), resolvedSnapshot := Some(o.runs[run].snapshot)) else f
  {
    hide EffectiveStatus;
  }

  lemma SettlesWhatItMay(t: Tables, snapshot: nat, inp: Input, id: nat)
    requires id in t.findings && snapshot in t.snapshots
    ensures EffectiveStatus(inp) == Completed && Vanished(t.findings[id], inp)
            <==> MayResolve(t, Reevaluate(snapshot, inp), id)
  {
    UniqueIsDistinct(inp.candidates);
  }

  // ----- The counters a run reports -----

  ghost function OpenFingerprints(t: Tables): set<Fingerprint> {
    set id | id in t.findings && IsOpen(t.findings[id]) :: t.findings[id].fingerprint
  }

  ghost function ResolvedFingerprints(t: Tables): set<Fingerprint> {
    set id | id in t.findings && t.findings[id].resolved.Some? :: t.findings[id].fingerprint
  }

  ghost function UnseenIds(t: Tables, inp: Input): set<nat> {
    set id | id in t.findings && IsOpen(t.findings[id]) && t.findings[id].fingerprint !in Fingerprints(inp.candidates)
  }

  ghost function VanishedIds(t: Tables, inp: Input): set<nat> {
    set id | id in t.findings && Vanished(t.findings[id], inp)
  }

  /** The summary of a run, from the tables before it and its input alone. */
  ghost function Summary(t: Tables, inp: Input): LifecycleResult {
    var seen, open := Fingerprints(inp.candidates), OpenFingerprints(t);
    var complete := EffectiveStatus(inp) == Completed;
    VanishedAreUnseen(t, inp);
    LifecycleResult(
      |seen - open|, |seen * open|,
      if complete then |VanishedIds(t, inp)| else 0,
      |(seen - open) * ResolvedFingerprints(t)|,
      if complete then |UnseenIds(t, inp)| - |VanishedIds(t, inp)| else 0,
      DuplicateCount(inp))
  }

  function DuplicateCount(inp: Input): nat {
    UniqueIsDistinct(inp.candidates);
    |inp.candidates| - |Unique(inp.candidates)|
  }

  lemma VanishedAreUnseen(t: Tables, inp: Input)
    ensures VanishedIds(t, inp) <= UnseenIds(t, inp) && |VanishedIds(t, inp)| <= |UnseenIds(t, inp)|
  {
    var v, u := VanishedIds(t, inp), UnseenIds(t, inp);
    assert |u - v| == |u| - |v| by { assert u == v + (u - v); }
  }

  // ----- The difference of two runs, computed later from the rows -----

  datatype Delta = Delta(new_: set<Fingerprint>, resolved: set<Fingerprint>, persisting: set<Fingerprint>,
                         regressed: set<Fingerprint>)

  function SeenIn(t: Tables, run: nat): set<nat> {
    set k | k in t.observations && t.observations[k].run == run :: t.observations[k].occurrence
  }

  function FingerprintsIn(t: Tables, run: nat): set<Fingerprint> {
    set id | id in SeenIn(t, run) && id in t.findings :: t.findings[id].fingerprint
  }

  /** Occurrences seen in `b`, with a fingerprint not seen in `a`, that have a predecessor. */
  function RegressedIds(t: Tables, a: nat, b: nat): set<nat> {
    set id | id in SeenIn(t, b) && id in t.findings && t.findings[id].fingerprint !in FingerprintsIn(t, a)
             && t.findings[id].predecessor.Some?
  }

  function FindingDelta(t: Tables, a: nat, b: nat): Delta {
    var fa, fb := FingerprintsIn(t, a), FingerprintsIn(t, b);
    Delta(fb - fa, fa - fb, fa * fb, set id | id in RegressedIds(t, a, b) :: t.findings[id].fingerprint)
  }

  lemma SeenAfterRun(t: Tables, snapshot: nat, inp: Input, id: nat)
    requires Inv(t) && snapshot in t.snapshots
    ensures var t' := Evaluate(t, snapshot, inp);
            id in SeenIn(t', t.nextRun) ==>
              && id in t'.findings && t'.findings[id].lastSeen == t.nextRun
              && t'.findings[id].fingerprint in Fingerprints(inp.candidates)
  {
    var begun := BeginRun(t, snapshot, Partial);
    var o := ObserveAll(begun, t.nextRun, Unique(inp.candidates));
    UniqueIsDistinct(inp.candidates);
    BeginRunKeepsInv(t, snapshot, Partial);
    ObserveAllKeepsInv(begun, t.nextRun, Unique(inp.candidates));
    hide Ranges, Counters, Rows, MidRun, Unique, ObserveAll, Intervals, Predecessors, Witnessed, Introduced,
         OneRowPerRun, Distinct, Settle;
    BelowRun(o, t.nextRun);
    if id in SeenIn(o, t.nextRun) { SeenHasLastSeen(o, t.nextRun, Fingerprints(inp.candidates), id); }
    SettleKeepsSeen(o, t.nextRun, inp, id);
  }

  lemma SeenHasLastSeen(o: Tables, run: nat, done: set<Fingerprint>, id: nat)
    requires Rows(o) && MidRun(o, run, done) && id in SeenIn(o, run)
    requires forall i :: i in o.findings ==> o.findings[i].lastSeen <= run
    ensures id in o.findings && o.findings[id].fingerprint in done && o.findings[id].lastSeen == run
  {
  }

  lemma SettleKeepsSeen(o: Tables, run: nat, inp: Input, id: nat)
    requires run in o.runs
    ensures SeenIn(Settle(o, run, inp), run) == SeenIn(o, run)
    ensures id in o.findings ==> var t' := Settle(o, run, inp);
              id in t'.findings && t'.findings[id].fingerprint == o.findings[id].fingerprint
              && t'.findings[id].lastSeen == o.findings[id].lastSeen
  {
    hide EffectiveStatus, Vanished;
  }

  /** The rows of a run show exactly the fingerprints it was given. */
  lemma FingerprintsAfterRun(t: Tables, snapshot: nat, inp: Input)
    requires Inv(t) && snapshot in t.snapshots
    ensures FingerprintsIn(Evaluate(t, snapshot, inp), t.nextRun) == Fingerprints(inp.candidates)
  {
    hide Inv, Evaluate, Unique;
    var t' := Evaluate(t, snapshot, inp);
    forall id | id in SeenIn(t', t.nextRun)
      ensures id in t'.findings && t'.findings[id].fingerprint in Fingerprints(inp.candidates)
    {
      SeenAfterRun(t, snapshot, inp, id);
    }
    forall fp | fp in Fingerprints(inp.candidates) ensures fp in FingerprintsIn(t', t.nextRun) {
      UniqueIsDistinct(inp.candidates);
      var c :| c in Unique(inp.candidates) && c.fingerprint == fp;
      var id := RunCarries(t, snapshot, inp, c);
      assert id in SeenIn(t', t.nextRun);
    }
  }

  // ----- Two adjacent runs -----

  lemma OpenFingerprintsAre(t: Tables, fp: Fingerprint)
    ensures fp in OpenFingerprints(t) <==> exists id: nat :: OpenAt(t, fp, id)
    ensures fp in ResolvedFingerprints(t) <==> exists id: nat :: ResolvedAt(t, fp, id)
  {
    if id: nat :| OpenAt(t, fp, id) {}
    if id: nat :| ResolvedAt(t, fp, id) {}
    if fp in OpenFingerprints(t) {
      var id :| id in t.findings && IsOpen(t.findings[id]) && t.findings[id].fingerprint == fp;
      assert OpenAt(t, fp, id);
    }
    if fp in ResolvedFingerprints(t) {
      var id :| id in t.findings && t.findings[id].resolved.Some? && t.findings[id].fingerprint == fp;
      assert ResolvedAt(t, fp, id);
    }
  }

  /** A completed run with full coverage leaves open exactly what it was given. */
  lemma CompleteRunDecidesOpen(t: Tables, snapshot: nat, inp: Input)
    requires Inv(t) && snapshot in t.snapshots
    requires EffectiveStatus(inp) == Completed && inp.coverageComplete
    ensures OpenFingerprints(Evaluate(t, snapshot, inp)) == Fingerprints(inp.candidates)
  {
    hide Inv, Evaluate, Unique;
    var t' := Evaluate(t, snapshot, inp);
    forall fp | fp in Fingerprints(inp.candidates) ensures fp in OpenFingerprints(t') {
      UniqueIsDistinct(inp.candidates);
      var c :| c in Unique(inp.candidates) && c.fingerprint == fp;
      var id := RunCarries(t, snapshot, inp, c);
      assert t'.findings[id].fingerprint == fp && IsOpen(t'.findings[id]);
    }
    forall id | id in t'.findings && IsOpen(t'.findings[id])
      ensures t'.findings[id].fingerprint in Fingerprints(inp.candidates)
    {
      OpenAfterCompleteRun(t, snapshot, inp, id);
    }
  }

  lemma OpenAfterCompleteRun(t: Tables, snapshot: nat, inp: Input, id: nat)
    requires Inv(t) && snapshot in t.snapshots
    requires EffectiveStatus(inp) == Completed && inp.coverageComplete
    requires id in Evaluate(t, snapshot, inp).findings && IsOpen(Evaluate(t, snapshot, inp).findings[id])
    ensures Evaluate(t, snapshot, inp).findings[id].fingerprint in Fingerprints(inp.candidates)
  {
    var begun := BeginRun(t, snapshot, Partial);
    UniqueIsDistinct(inp.candidates);
    BeginRunKeepsInv(t, snapshot, Partial);
    ObserveAllResolvesNothing(begun, t.nextRun, Unique(inp.candidates));
    hide Inv, MidRun, Unique, ObserveAll, Distinct;
  }

  /** The candidate's occurrence has a predecessor exactly when its fingerprint was resolved before and not open. */
  lemma RegressionIsPredecessor(t: Tables, snapshot: nat, inp: Input, id: nat)
    requires Inv(t) && snapshot in t.snapshots && id in SeenIn(Evaluate(t, snapshot, inp), t.nextRun)
    requires id in Evaluate(t, snapshot, inp).findings
    requires Evaluate(t, snapshot, inp).findings[id].fingerprint !in OpenFingerprints(t)
    ensures var f := Evaluate(t, snapshot, inp).findings[id];
            f.predecessor.Some? <==> f.fingerprint in ResolvedFingerprints(t)
  {
    hide Evaluate, Unique, OpenFingerprints, ResolvedFingerprints, LatestResolved,
         Ranges, Intervals, Witnessed, Introduced, Rows, OneRowPerRun, Predecessors, Counters;
    var t' := Evaluate(t, snapshot, inp);
    SeenAfterRun(t, snapshot, inp, id);
    var fp := t'.findings[id].fingerprint;
    UniqueIsDistinct(inp.candidates);
    var c :| c in Unique(inp.candidates) && c.fingerprint == fp;
    var d := RunCarries(t, snapshot, inp, c);
    OpenFingerprintsAre(t, fp);
    EvaluateKeepsInv(t, snapshot, inp);
    SeenOnce(t', t.nextRun, id, d);
    PredecessorIsLast(t, fp);
  }

  /** A run sees at most one occurrence of a fingerprint. */
  lemma SeenOnce(t: Tables, run: nat, i: nat, j: nat)
    requires Inv(t) && i in SeenIn(t, run) && j in SeenIn(t, run)
    requires i in t.findings && j in t.findings && t.findings[i].fingerprint == t.findings[j].fingerprint
    ensures i == j
  {
    hide Witnessed, Introduced, OneRowPerRun, Predecessors, Counters;
  }

  /** Later activity keeps what older runs are seen to have observed. */
  lemma GrowthKeepsDelta(t: Tables, t': Tables, a: nat, b: nat, n: nat)
    requires Rows(t) && GrowsFrom(t, t', n) && a < n && b < n
    ensures FindingDelta(t', a, b) == FindingDelta(t, a, b)
  {
    hide Rows, GrowsFrom, SeenIn, FingerprintsIn, RegressedIds;
    GrowthKeepsSeen(t, t', a, n);
    GrowthKeepsSeen(t, t', b, n);
    GrowthKeepsRegressed(t, t', a, b);
    assert FindingDelta(t', a, b).regressed == FindingDelta(t, a, b).regressed by { RegressedAreFindings(t, a, b); }
  }

  lemma GrowthKeepsSeen(t: Tables, t': Tables, r: nat, n: nat)
    requires Rows(t) && GrowsFrom(t, t', n) && r < n
    ensures SeenIn(t', r) == SeenIn(t, r) && FingerprintsIn(t', r) == FingerprintsIn(t, r)
    ensures forall id :: id in SeenIn(t, r) ==> id in t.findings && id in t'.findings
                                                && t'.findings[id].fingerprint == t.findings[id].fingerprint
                                                && t'.findings[id].predecessor == t.findings[id].predecessor
  {
    assert SeenIn(t', r) == SeenIn(t, r);
    hide SeenIn;
    SeenAreFindings(t, r);
  }

  lemma SeenAreFindings(t: Tables, r: nat)
    requires Rows(t)
    ensures forall id :: id in SeenIn(t, r) ==> id in t.findings
  {
  }

  lemma RegressedAreFindings(t: Tables, a: nat, b: nat)
    ensures forall id :: id in RegressedIds(t, a, b) ==> id in t.findings && id in SeenIn(t, b)
  {
  }

  lemma GrowthKeepsRegressed(t: Tables, t': Tables, a: nat, b: nat)
    requires SeenIn(t', b) == SeenIn(t, b) && FingerprintsIn(t', a) == FingerprintsIn(t, a)
    requires forall id :: id in SeenIn(t, b) ==> id in t.findings && id in t'.findings
                                                 && t'.findings[id].fingerprint == t.findings[id].fingerprint
                                                 && t'.findings[id].predecessor == t.findings[id].predecessor
    ensures RegressedIds(t', a, b) == RegressedIds(t, a, b)
  {
    hide SeenIn, FingerprintsIn;
  }
}
