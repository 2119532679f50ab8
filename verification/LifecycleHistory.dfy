/**
 What the tables say about past runs: why an occurrence is resolved, how many were open as of a run,
 and how two adjacent runs differ.
 */
module LifecycleHistory {
  import opened Prelude
  import opened Lifecycle
  import opened LifecycleInvariant

  // ----- How the tables may change from run `r` on, when nothing is deleted -----

  ghost predicate SameHistory(f: Finding, f': Finding, r: nat) {
    && f'.fingerprint == f.fingerprint && f'.gpoId == f.gpoId && f'.firstSeen == f.firstSeen
    && f'.predecessor == f.predecessor
    && (f'.resolved == f.resolved || (f.resolved.None? && f'.resolved.Some? && r <= f'.resolved.value))
  }

  ghost predicate GrowsFrom(t: Tables, t': Tables, r: nat) {
    && (forall id :: id in t.findings ==> id in t'.findings && SameHistory(t.findings[id], t'.findings[id], r))
    && (forall id :: id in t'.findings && id !in t.findings ==> r <= t'.findings[id].firstSeen)
    && (forall k :: k in t.observations ==> k in t'.observations && t'.observations[k] == t.observations[k])
    && (forall k :: k in t'.observations && k !in t.observations ==> r <= t'.observations[k].run)
  }

  lemma GrowsTransitive(a: Tables, b: Tables, c: Tables, r: nat, s: nat)
    requires GrowsFrom(a, b, r) && GrowsFrom(b, c, s) && r <= s
    ensures GrowsFrom(a, c, r)
  {
  }

  lemma ObserveGrows(t: Tables, run: nat, c: Candidate)
    requires Ranges(t) && Rows(t) && run in t.runs
    ensures GrowsFrom(t, Observe(t, run, c), run)
  {
    assert t.nextFinding !in t.findings && t.nextObservation !in t.observations;
  }

  lemma {:induction false} ObserveAllGrows(t: Tables, run: nat, cs: seq<Candidate>)
    requires Inv(t) && MidRun(t, run, {}) && Distinct(cs)
    ensures GrowsFrom(t, ObserveAll(t, run, cs), run)
  {
    if cs == [] {
    } else {
      hide Observe, Distinct, Introduced, Witnessed, OneRowPerRun, Intervals, Predecessors, Counters;
      var rest, c := cs[..|cs| - 1], cs[|cs| - 1];
      assert cs == rest + [c];
      DistinctSnoc(rest, c);
      ObserveAllGrows(t, run, rest);
      ObserveAllKeepsInv(t, run, rest);
      var mid := ObserveAll(t, run, rest);
      ObserveGrows(mid, run, c);
      GrowsTransitive(t, mid, Observe(mid, run, c), run, run);
    }
  }

  lemma ResolveGrows(t: Tables, run: nat, inp: Input)
    requires run in t.runs
    ensures GrowsFrom(t, ResolveVanished(t, run, inp), run)
  {
  }

  lemma EvaluateGrows(t: Tables, snapshot: nat, inp: Input)
    requires Inv(t) && snapshot in t.snapshots
    ensures GrowsFrom(t, Evaluate(t, snapshot, inp), t.nextRun)
  {
    hide Inv, MidRun, Unique, Distinct, ObserveAll, ResolveVanished, EffectiveStatus;
    var run, us := t.nextRun, Unique(inp.candidates);
    var begun := BeginRun(t, snapshot, Partial);
    UniqueIsDistinct(inp.candidates);
    BeginRunKeepsInv(t, snapshot, Partial);
    ObserveAllGrows(begun, run, us);
    var observed := ObserveAll(begun, run, us);
    ResolveGrows(observed, run, inp);
    GrowsTransitive(t, begun, observed, run, run);
    GrowsTransitive(t, observed, ResolveVanished(observed, run, inp), run, run);
  }

  lemma StepGrows(t: Tables, step: Step)
    requires Inv(t) && !step.Delete?
    ensures GrowsFrom(t, Apply(t, step), t.nextRun) && t.nextRun <= Apply(t, step).nextRun
  {
    hide Inv, MidRun, ObserveAll;
    match step
    case Import(inp) =>
      NewSnapshotKeepsInv(t);
      EvaluateGrows(AddSnapshot(t), t.nextSnapshot, inp);
    case AbortedImport(_) =>
    case Reevaluate(s, inp) => if s in t.snapshots { EvaluateGrows(t, s, inp); }
    case FailedEvaluation(s) =>
  }

  lemma {:induction false} ExecGrows(t: Tables, steps: seq<Step>)
    requires Inv(t) && NoDeletion(steps)
    ensures GrowsFrom(t, Exec(t, steps), t.nextRun) && t.nextRun <= Exec(t, steps).nextRun
  {
    if steps != [] {
      var rest := steps[..|steps| - 1];
      NoDeletionPrefix(steps);
      ExecGrows(t, rest);
      ReachableStoresAreConsistent(t, rest);
      var mid := Exec(t, rest);
      StepGrows(mid, steps[|steps| - 1]);
      GrowsTransitive(t, mid, Exec(t, steps), t.nextRun, mid.nextRun);
    }
  }

  // ----- Counting as of a run -----

  predicate OpenAsOf(f: Finding, r: nat) {
    f.firstSeen <= r && (f.resolved.None? || f.resolved.value > r)
  }

  predicate LatestRowAsOf(t: Tables, k: nat, r: nat)
    requires k in t.observations
  {
    && t.observations[k].run <= r
    && (forall l :: (l in t.observations && t.observations[l].occurrence == t.observations[k].occurrence
                     && t.observations[l].run <= r) ==> t.observations[l].run <= t.observations[k].run)
  }

  /** The rows the briefing's query joins: the latest one up to run `r` of each occurrence open as of `r`. */
  function AsOfRows(t: Tables, r: nat): (rows: set<nat>)
    ensures forall k :: k in rows ==> k in t.observations && t.observations[k].occurrence in AsOfIds(t, r)
  {
    set k | k in t.observations && t.observations[k].occurrence in t.findings
            && OpenAsOf(t.findings[t.observations[k].occurrence], r) && LatestRowAsOf(t, k, r)
  }

  function CriticalRows(t: Tables, r: nat): (rows: set<nat>)
    ensures rows <= AsOfRows(t, r)
  {
    set k | k in AsOfRows(t, r) && t.observations[k].severity == "critical"
  }

  function AsOfIds(t: Tables, r: nat): (ids: set<nat>)
    ensures forall id :: id in ids ==> id in t.findings
  {
    set id | id in t.findings && OpenAsOf(t.findings[id], r)
  }

  ghost function OpenIds(t: Tables): set<nat> {
    set id | id in t.findings && IsOpen(t.findings[id])
  }

  ghost function OpenCriticalIds(t: Tables): set<nat> {
    set id | id in OpenIds(t) && t.findings[id].severity == "critical"
  }

  lemma LatestRowExists(t: Tables, id: nat, r: nat) returns (k: nat)
    requires Introduced(t) && Rows(t) && id in t.findings && OpenAsOf(t.findings[id], r)
    ensures k in AsOfRows(t, r) && t.observations[k].occurrence == id
  {
    var severity :| Observed(t, id, t.findings[id].firstSeen, severity);
    var runs := set l | l in t.observations && t.observations[l].occurrence == id && t.observations[l].run <= r
                  :: t.observations[l].run;
    assert t.findings[id].firstSeen in runs;
    var m := GreatestExists(runs);
    k :| k in t.observations && t.observations[k].occurrence == id && t.observations[k].run == m;
    forall l | l in t.observations && t.observations[l].occurrence == id && t.observations[l].run <= r
      ensures t.observations[l].run <= m
    {
      assert t.observations[l].run in runs;
    }
  }

  lemma AsOfRowIsUnique(t: Tables, r: nat, k: nat, l: nat)
    requires OneRowPerRun(t) && k in AsOfRows(t, r) && l in AsOfRows(t, r)
    requires t.observations[k].occurrence == t.observations[l].occurrence
    ensures k == l
  {
    assert t.observations[k].run == t.observations[l].run;
  }

  /** The join counts every occurrence open as of `r`, and each exactly once. */
  lemma AsOfCountsOccurrences(t: Tables, r: nat)
    requires Introduced(t) && Rows(t) && OneRowPerRun(t)
    ensures |AsOfRows(t, r)| == |AsOfIds(t, r)|
  {
    hide Introduced, Rows, OneRowPerRun, LatestRowAsOf, OpenAsOf;
    var rows, ids := AsOfRows(t, r), AsOfIds(t, r);
    var pair := map k | k in rows :: t.observations[k].occurrence;
    forall id | id in ids ensures exists k :: k in rows && pair[k] == id {
      var k := LatestRowExists(t, id, r);
      assert pair[k] == id;
    }
    forall k, l | k in rows && l in rows && pair[k] == pair[l] ensures k == l { AsOfRowIsUnique(t, r, k, l); }
    OneToOneSize(rows, ids, pair);
  }

  /** Right after the newest run, the occurrences open as of it are the open ones. */
  lemma CurrentIds(t: Tables, r: nat)
    requires Ranges(t) && Counters(t) && r + 1 == t.nextRun
    ensures AsOfIds(t, r) == OpenIds(t)
  {
    forall id | id in t.findings ensures OpenAsOf(t.findings[id], r) <==> IsOpen(t.findings[id]) {
      assert t.findings[id].firstSeen in t.runs;
    }
  }

  lemma CurrentSeverity(t: Tables, r: nat, k: nat)
    requires Ranges(t) && Counters(t) && Witnessed(t) && Rows(t) && OneRowPerRun(t)
    requires r + 1 == t.nextRun && k in AsOfRows(t, r)
    ensures t.observations[k].severity == t.findings[t.observations[k].occurrence].severity
  {
    var id := t.observations[k].occurrence;
    var f := t.findings[id];
    assert Observed(t, id, f.lastSeen, f.severity);
    var l :| l in t.observations && t.observations[l] == Observation(f.lastSeen, id, f.severity);
    assert f.lastSeen in t.runs;
    assert t.observations[l].run <= t.observations[k].run <= f.lastSeen;
  }

  /** ... and the joined rows carry the stored severities. */
  lemma CurrentCritical(t: Tables, r: nat)
    requires Inv(t) && r + 1 == t.nextRun
    ensures |CriticalRows(t, r)| == |OpenCriticalIds(t)|
  {
    CurrentIds(t, r);
    CurrentCriticalPairs(t, r);
  }

  lemma CurrentCriticalPairs(t: Tables, r: nat)
    requires Inv(t) && r + 1 == t.nextRun && AsOfIds(t, r) == OpenIds(t)
    ensures |CriticalRows(t, r)| == |OpenCriticalIds(t)|
  {
    hide Ranges, Counters, Introduced, Witnessed, Rows, OneRowPerRun, Intervals, Predecessors, AsOfRows, AsOfIds,
         OpenIds, OpenAsOf;
    var rows, ids := CriticalRows(t, r), OpenCriticalIds(t);
    var pair := map k | k in rows :: t.observations[k].occurrence;
    forall k | k in rows ensures pair[k] in ids { CurrentSeverity(t, r, k); }
    forall id | id in ids ensures exists k :: k in rows && pair[k] == id {
      AsOfIdsAre(t, id, r);
      var k := LatestRowExists(t, id, r);
      CurrentSeverity(t, r, k);
      assert pair[k] == id;
    }
    forall k, l | k in rows && l in rows && pair[k] == pair[l] ensures k == l { AsOfRowIsUnique(t, r, k, l); }
    OneToOneSize(rows, ids, pair);
  }

  lemma AsOfIdsAre(t: Tables, id: nat, r: nat)
    ensures id in AsOfIds(t, r) <==> id in t.findings && OpenAsOf(t.findings[id], r)
  {
  }

  lemma GrowthKeepsLatest(t: Tables, t': Tables, k: nat, r: nat, n: nat)
    requires GrowsFrom(t, t', n) && r < n && k in t.observations
    ensures LatestRowAsOf(t', k, r) <==> LatestRowAsOf(t, k, r)
  {
    if LatestRowAsOf(t', k, r) {
      forall l | l in t.observations && t.observations[l].occurrence == t.observations[k].occurrence
        && t.observations[l].run <= r
        ensures t.observations[l].run <= t.observations[k].run
      {
        assert t'.observations[l] == t.observations[l];
      }
    }
  }

  /** Later activity never changes which rows an older run's query joins. */
  lemma GrowthKeepsAsOfRows(t: Tables, t': Tables, r: nat, n: nat)
    requires Rows(t) && GrowsFrom(t, t', n) && r < n
    ensures AsOfRows(t', r) == AsOfRows(t, r) && CriticalRows(t', r) == CriticalRows(t, r)
  {
    hide LatestRowAsOf;
    forall k | k in t.observations ensures k in AsOfRows(t', r) <==> k in AsOfRows(t, r) {
      GrowthKeepsLatest(t, t', k, r, n);
      var id := t.observations[k].occurrence;
      assert SameHistory(t.findings[id], t'.findings[id], n);
    }
    AsOfRowsReachBack(t', r);
    assert forall k :: k in AsOfRows(t', r) ==> k in t.observations;
  }

  lemma AsOfRowsReachBack(t: Tables, r: nat)
    ensures forall k :: k in AsOfRows(t, r) ==> t.observations[k].run <= r
  {
  }

  /**
   Time travel: take any history `before`, deletions included, whose newest run is `r`.  After any further
   history without deletions, the query for `r` counts the occurrences open back then, and the critical ones.
   */
  lemma TimeTravel(before: seq<Step>, after: seq<Step>, r: nat)
    requires Exec(EMPTY, before).nextRun == r + 1 && NoDeletion(after)
    ensures var past, now := Exec(EMPTY, before), Exec(Exec(EMPTY, before), after);
            |AsOfRows(now, r)| == |OpenIds(past)| && |CriticalRows(now, r)| == |OpenCriticalIds(past)|
  {
    hide Ranges, Counters, Introduced, Witnessed, Rows, OneRowPerRun, Intervals, Predecessors, GrowsFrom;
    ReachableStoresAreConsistent(EMPTY, before);
    var past := Exec(EMPTY, before);
    ExecGrows(past, after);
    GrowthKeepsAsOfRows(past, Exec(past, after), r, r + 1);
    AsOfCountsOccurrences(past, r);
    CurrentIds(past, r);
    CurrentCritical(past, r);
  }

  /** Deleting a snapshot removes from an older count exactly the occurrences it first or last saw. */
  lemma DeletionAsOf(steps: seq<Step>, s: nat, r: nat)
    requires s in Exec(EMPTY, steps).snapshots
    ensures var t := Exec(EMPTY, steps);
            && |AsOfRows(DeleteSnapshot(t, s), r)| == |AsOfIds(t, r) * SurvivingFindings(t, s)|
            && (|AsOfRows(DeleteSnapshot(t, s), r)| == |AsOfRows(t, r)|
                <==> forall id :: id in AsOfIds(t, r)
                       ==> t.findings[id].firstSnapshot != s && t.findings[id].lastSnapshot != s)
  {
    hide Inv, Linear, DeleteSnapshot, AsOfIds, AsOfRows, Exec, SurvivingFindings, EMPTY;
    EmptyIsConsistent();
    ReachableStoresAreConsistent(EMPTY, steps);
    DeletionCount(Exec(EMPTY, steps), s, r);
  }

  lemma DeletionCount(t: Tables, s: nat, r: nat)
    requires Inv(t) && s in t.snapshots
    ensures |AsOfRows(DeleteSnapshot(t, s), r)| == |AsOfIds(t, r) * SurvivingFindings(t, s)|
    ensures |AsOfRows(DeleteSnapshot(t, s), r)| == |AsOfRows(t, r)|
            <==> forall id :: id in AsOfIds(t, r)
                   ==> t.findings[id].firstSnapshot != s && t.findings[id].lastSnapshot != s
  {
    DeletionAsOfIds(t, s, r);
    DeleteKeepsInv(t, s);
    hide Ranges, Counters, Introduced, Witnessed, Rows, OneRowPerRun, Intervals, Predecessors, DeleteSnapshot,
         AsOfIds, AsOfRows;
    AsOfCountsOccurrences(t, r);
    AsOfCountsOccurrences(DeleteSnapshot(t, s), r);
    IntersectionSize(AsOfIds(t, r), SurvivingFindings(t, s));
  }

  lemma DeletionAsOfIds(t: Tables, s: nat, r: nat)
    requires s in t.snapshots
    ensures AsOfIds(DeleteSnapshot(t, s), r) == AsOfIds(t, r) * SurvivingFindings(t, s)
  {
  }

  /** Row `k` survives the deletion and is then its occurrence's latest one up to run `r`. */
  ghost predicate LatestSurviving(t: Tables, s: nat, k: nat, r: nat): (b: bool)
    ensures b ==> k in t.observations
  {
    && SurvivingRow(t, s, k) && t.observations[k].run <= r
    && forall l :: SurvivingRow(t, s, l) && t.observations[l].occurrence == t.observations[k].occurrence
         && t.observations[l].run <= r
         ==> t.observations[l].run <= t.observations[k].run
  }

  ghost predicate SurvivingRow(t: Tables, s: nat, k: nat): (b: bool)
    ensures b ==> k in t.observations
  {
    && k in t.observations && t.observations[k].occurrence in SurvivingFindings(t, s)
    && t.observations[k].run in t.runs && t.runs[t.observations[k].run].snapshot != s
  }

  /**
   After a deletion an occurrence counts as critical by its latest row among the surviving runs. So a surviving critical
   row still counts, and a row that counts only now replaces one of the deleted snapshot's runs.
   */
  lemma DeletionCritical(steps: seq<Step>, s: nat, r: nat)
    requires s in Exec(EMPTY, steps).snapshots
    ensures var t := Exec(EMPTY, steps);
            var after := CriticalRows(DeleteSnapshot(t, s), r);
            && (forall k :: k in after <==>
                  LatestSurviving(t, s, k, r) && t.observations[k].severity == "critical"
                    && t.observations[k].occurrence in AsOfIds(t, r))
            && (forall k :: k in CriticalRows(t, r) && SurvivingRow(t, s, k) ==> k in after)
            && (forall k :: k in after && k !in CriticalRows(t, r) ==>
                  exists l :: && l in AsOfRows(t, r) && t.observations[l].occurrence == t.observations[k].occurrence
                              && t.observations[l].run in t.runs && t.runs[t.observations[l].run].snapshot == s)
  {
    hide Inv, Linear, DeleteSnapshot, AsOfIds, AsOfRows, CriticalRows, Exec, LatestSurviving, SurvivingRow, EMPTY;
    EmptyIsConsistent();
    ReachableStoresAreConsistent(EMPTY, steps);
    DeletionCriticalRows(Exec(EMPTY, steps), s, r);
  }

  lemma DeletionCriticalRows(t: Tables, s: nat, r: nat)
    requires Inv(t) && s in t.snapshots
    ensures forall k :: k in CriticalRows(DeleteSnapshot(t, s), r) <==>
              LatestSurviving(t, s, k, r) && t.observations[k].severity == "critical"
                && t.observations[k].occurrence in AsOfIds(t, r)
    ensures forall k :: k in CriticalRows(t, r) && SurvivingRow(t, s, k) ==> k in CriticalRows(DeleteSnapshot(t, s), r)
    ensures forall k :: k in CriticalRows(DeleteSnapshot(t, s), r) && k !in CriticalRows(t, r) ==>
              exists l :: && l in AsOfRows(t, r) && t.observations[l].occurrence == t.observations[k].occurrence
                          && t.observations[l].run in t.runs && t.runs[t.observations[l].run].snapshot == s
  {
    hide Ranges, Counters, Introduced, Witnessed, Rows, OneRowPerRun, Intervals, Predecessors, AsOfIds, AsOfRows,
         CriticalRows, DeleteSnapshot, LatestSurviving, SurvivingRow;
    forall k ensures k in CriticalRows(DeleteSnapshot(t, s), r) <==>
                       LatestSurviving(t, s, k, r) && t.observations[k].severity == "critical"
                         && t.observations[k].occurrence in AsOfIds(t, r)
    {
      DeletionCriticalRow(t, s, r, k);
    }
    forall k | k in CriticalRows(t, r) && SurvivingRow(t, s, k) ensures k in CriticalRows(DeleteSnapshot(t, s), r) {
      CriticalRowsAre(t, r, k);
      SurvivorStaysLatest(t, s, r, k);
    }
    forall k | k in CriticalRows(DeleteSnapshot(t, s), r) && k !in CriticalRows(t, r)
      ensures exists l :: && l in AsOfRows(t, r) && t.observations[l].occurrence == t.observations[k].occurrence
                          && t.observations[l].run in t.runs && t.runs[t.observations[l].run].snapshot == s
    {
      CriticalRowsAre(t, r, k);
      var l := ReplacedRow(t, s, r, k);
    }
  }

  lemma CriticalRowsAre(t: Tables, r: nat, k: nat)
    ensures k in CriticalRows(t, r) <==> k in AsOfRows(t, r) && t.observations[k].severity == "critical"
    ensures k in AsOfRows(t, r) <==>
              k in t.observations && t.observations[k].occurrence in AsOfIds(t, r) && LatestRowAsOf(t, k, r)
  {
  }

  /** What the deletion leaves of the rows and of the findings they point to. */
  lemma DeletionRows(t: Tables, s: nat, k: nat)
    requires s in t.snapshots && Rows(t)
    ensures k in DeleteSnapshot(t, s).observations <==> SurvivingRow(t, s, k)
    ensures SurvivingRow(t, s, k) ==> DeleteSnapshot(t, s).observations[k] == t.observations[k]
  {
  }

  lemma DeletionCriticalRow(t: Tables, s: nat, r: nat, k: nat)
    requires Rows(t) && s in t.snapshots
    ensures k in CriticalRows(DeleteSnapshot(t, s), r) <==>
              LatestSurviving(t, s, k, r) && t.observations[k].severity == "critical"
                && t.observations[k].occurrence in AsOfIds(t, r)
  {
    hide DeleteSnapshot, Rows, AsOfRows, AsOfIds, CriticalRows, SurvivingFindings;
    forall l ensures (l in DeleteSnapshot(t, s).observations <==> SurvivingRow(t, s, l))
                     && (SurvivingRow(t, s, l) ==> DeleteSnapshot(t, s).observations[l] == t.observations[l])
    {
      DeletionRows(t, s, l);
    }
    DeletionAsOfIds(t, s, r);
    CriticalRowsAre(DeleteSnapshot(t, s), r, k);
  }

  lemma SurvivorStaysLatest(t: Tables, s: nat, r: nat, k: nat)
    requires SurvivingRow(t, s, k) && LatestRowAsOf(t, k, r)
    ensures LatestSurviving(t, s, k, r)
  {
  }

  /** If the latest surviving row was not the latest one, the latest one went with a run of the deleted snapshot. */
  lemma ReplacedRow(t: Tables, s: nat, r: nat, k: nat) returns (l: nat)
    requires Inv(t) && LatestSurviving(t, s, k, r) && t.observations[k].occurrence in AsOfIds(t, r)
             && k !in AsOfRows(t, r)
    ensures l in AsOfRows(t, r) && t.observations[l].occurrence == t.observations[k].occurrence
    ensures t.observations[l].run in t.runs && t.runs[t.observations[l].run].snapshot == s
  {
    hide Ranges, Counters, Introduced, Witnessed, OneRowPerRun, Intervals, Predecessors, AsOfIds, AsOfRows,
         CriticalRows, SurvivingFindings;
    AsOfIdsAre(t, t.observations[k].occurrence, r);
    l := LatestRowExists(t, t.observations[k].occurrence, r);
    CriticalRowsAre(t, r, k);
    CriticalRowsAre(t, r, l);
  }

  lemma IntersectionSize(a: set<nat>, b: set<nat>)
    ensures |a * b| == |a| <==> a <= b
  {
    assert |a - b| == |a| - |a * b| by { assert a == (a * b) + (a - b); }
    if a <= b { assert a * b == a; }
    if |a * b| == |a| {
      assert a - b == {};
      forall x | x in a ensures x in b { assert x in a - b || x in b; }
    }
  }

  // ----- Why an occurrence is resolved -----

  /** The step may resolve `id`: a completed run without duplicates that did not see it and could have. */
  ghost predicate MayResolve(t: Tables, step: Step, id: nat) {
    && Evaluates(t, step) && step.inp.status == Completed && Distinct(step.inp.candidates)
    && id in t.findings && IsOpen(t.findings[id])
    && t.findings[id].fingerprint !in Fingerprints(step.inp.candidates)
    && (step.inp.coverageComplete
        || (t.findings[id].gpoId != "" && step.inp.collected.Some? && t.findings[id].gpoId in step.inp.collected.value))
  }

  /** Nothing of `t` is resolved or unresolved in `t'`; what is new there is unresolved and one of `fps`. */
  ghost predicate SameResolutions(t: Tables, t': Tables, fps: set<Fingerprint>) {
    && t.nextFinding <= t'.nextFinding
    && (forall id :: id in t.findings ==>
          && id in t'.findings
          && t'.findings[id].resolved == t.findings[id].resolved
          && t'.findings[id].resolvedSnapshot == t.findings[id].resolvedSnapshot
          && t'.findings[id].fingerprint == t.findings[id].fingerprint
          && t'.findings[id].gpoId == t.findings[id].gpoId
          && (t.findings[id].resolved.Some? ==> t'.findings[id] == t.findings[id]))
    && (forall id :: id in t'.findings && id !in t.findings ==>
          t'.findings[id].resolved.None? && t.nextFinding <= id && t'.findings[id].fingerprint in fps)
  }

  lemma ObserveResolvesNothing(t: Tables, run: nat, c: Candidate)
    requires run in t.runs && Ranges(t)
    ensures SameResolutions(t, Observe(t, run, c), {c.fingerprint})
  {
    assert t.nextFinding !in t.findings;
  }

  lemma SameResolutionsTransitive(a: Tables, b: Tables, c: Tables, fps: set<Fingerprint>, gps: set<Fingerprint>)
    requires SameResolutions(a, b, fps) && SameResolutions(b, c, gps)
    ensures SameResolutions(a, c, fps + gps)
  {
  }

  lemma {:induction false} ObserveAllResolvesNothing(t: Tables, run: nat, cs: seq<Candidate>)
    requires Inv(t) && MidRun(t, run, {}) && Distinct(cs)
    ensures SameResolutions(t, ObserveAll(t, run, cs), Fingerprints(cs))
  {
    if cs != [] {
      var rest, c := cs[..|cs| - 1], cs[|cs| - 1];
      assert cs == rest + [c];
      FingerprintsOfSnoc(rest, c);
      DistinctSnoc(rest, c);
      ObserveAllKeepsInv(t, run, rest);
      var mid := ObserveAll(t, run, rest);
      ObserveResolvesNothing(mid, run, c);
      hide Inv, MidRun, Distinct, Observe, SameResolutions;
      ObserveAllResolvesNothing(t, run, rest);
      SameResolutionsTransitive(t, mid, Observe(mid, run, c), Fingerprints(rest), {c.fingerprint});
    }
  }

  /** What a run does to one finding's resolution: nothing, unless the run may resolve it. */
  ghost predicate RightlyResolved(t: Tables, t': Tables, id: nat, entitled: bool) {
    && t.nextFinding <= t'.nextFinding
    && (id in t'.findings && id < t.nextFinding ==> id in t.findings)
    && (id in t'.findings && id !in t.findings ==> t'.findings[id].resolved.None?)
    && (id in t'.findings && id in t.findings ==>
          if entitled then t.findings[id].resolved.None? && t'.findings[id].resolved == Some(t.nextRun)
          else t'.findings[id].resolved == t.findings[id].resolved)
    && (entitled ==> id in t'.findings)
  }

  lemma EvaluateResolves(t: Tables, snapshot: nat, inp: Input, id: nat)
    requires Inv(t) && snapshot in t.snapshots
    ensures RightlyResolved(t, Evaluate(t, snapshot, inp), id, MayResolve(t, Reevaluate(snapshot, inp), id))
  {
    hide Inv, MidRun, Distinct, ObserveAll, Unique;
    var begun := BeginRun(t, snapshot, Partial);
    UniqueIsDistinct(inp.candidates);
    BeginRunKeepsInv(t, snapshot, Partial);
    ObserveAllResolvesNothing(begun, t.nextRun, Unique(inp.candidates));
  }

  lemma StepResolves(t: Tables, step: Step, id: nat)
    requires Inv(t)
    ensures RightlyResolved(t, Apply(t, step), id, MayResolve(t, step, id))
  {
    hide Inv, Evaluate;
    match step
    case Import(inp) =>
      NewSnapshotKeepsInv(t);
      EvaluateResolves(AddSnapshot(t), t.nextSnapshot, inp, id);
    case AbortedImport(_) =>
    case Reevaluate(s, inp) => if s in t.snapshots { EvaluateResolves(t, s, inp, id); }
    case FailedEvaluation(s) =>
    case Delete(s) =>
  }

  /** Whoever is resolved in run `r` was resolved by the step that ran `r`, and that step was entitled to. */
  lemma {:induction false} ResolutionIsJustified(steps: seq<Step>, id: nat) returns (k: nat)
    requires id in Exec(EMPTY, steps).findings && Exec(EMPTY, steps).findings[id].resolved.Some?
    ensures k < |steps|
    ensures Exec(EMPTY, steps).findings[id].resolved == Some(Exec(EMPTY, steps[..k]).nextRun)
    ensures MayResolve(Exec(EMPTY, steps[..k]), steps[k], id)
  {
    hide Inv, Linear, Apply, MayResolve;
    var rest := steps[..|steps| - 1];
    EmptyIsConsistent();
    ReachableStoresAreConsistent(EMPTY, rest);
    var t := Exec(EMPTY, rest);
    StepResolves(t, steps[|steps| - 1], id);
    if MayResolve(t, steps[|steps| - 1], id) {
      k := |rest|;
    } else {
      k := ResolutionIsJustified(rest, id);
      assert steps[..k] == rest[..k];
    }
  }

  /** Once resolved, an occurrence keeps its resolving run for as long as its row exists; ids are never reused. */
  lemma {:induction false} ResolvedIsFinal(t: Tables, steps: seq<Step>, id: nat)
    requires Inv(t) && id in t.findings && t.findings[id].resolved.Some?
    ensures id in Exec(t, steps).findings ==> Exec(t, steps).findings[id].resolved == t.findings[id].resolved
    ensures id < Exec(t, steps).nextFinding
  {
    if steps == [] {
    } else {
      hide Inv, Apply, MayResolve;
      var rest := steps[..|steps| - 1];
      ResolvedIsFinal(t, rest, id);
      ReachableStoresAreConsistent(t, rest);
      StepResolves(Exec(t, rest), steps[|steps| - 1], id);
    }
  }
}
