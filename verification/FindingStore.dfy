/** The finding store itself: the tables are fields, and the engine's loops update them row by row. */
module FindingStore {
  import opened Prelude
  import opened Lifecycle
  import opened LifecycleInvariant
  import opened LifecycleRuns
  import opened LifecycleDelta

  /** Keeps the first candidate of each fingerprint. */
  method Deduplicate(cs: seq<Candidate>) returns (unique: seq<Candidate>, seen: set<Fingerprint>, duplicates: nat)
    ensures unique == Unique(cs) && seen == Fingerprints(cs) && duplicates == |cs| - |unique|
    ensures exists at :: KeepsFirsts(cs, unique, at)
  {
    unique, seen, duplicates := [], {}, 0;
    for i := 0 to |cs|
      invariant unique == Unique(cs[..i]) && seen == Fingerprints(unique) && duplicates + |unique| == i
    {
      var c := cs[i];
      assert cs[..i + 1][..i] == cs[..i];
      FingerprintsOfSnoc(unique, c);
      if c.fingerprint in seen {
        duplicates := duplicates + 1;
      } else {
        unique, seen := unique + [c], seen + {c.fingerprint};
      }
    }
    assert cs[..|cs|] == cs;
    UniqueIsDistinct(cs);
    ghost var at := UniqueKeepsFirsts(cs);
  }

  lemma NextIsNew(cs: seq<Candidate>, i: nat)
    requires Distinct(cs) && i < |cs|
    ensures cs[..i + 1][..i] == cs[..i] && Distinct(cs[..i]) && cs[i].fingerprint !in Fingerprints(cs[..i])
    ensures Fingerprints(cs[..i + 1]) == Fingerprints(cs[..i]) + {cs[i].fingerprint}
  {
    assert cs[..i + 1] == cs[..i] + [cs[i]];
    FingerprintsOfSnoc(cs[..i], cs[i]);
  }

  lemma CountOneMore(done: set<Fingerprint>, open: set<Fingerprint>, resolved: set<Fingerprint>, fp: Fingerprint)
    requires fp !in done
    ensures |done + {fp} - open| == |done - open| + if fp in open then 0 else 1
    ensures |(done + {fp}) * open| == |done * open| + if fp in open then 1 else 0
    ensures |(done + {fp} - open) * resolved| == |(done - open) * resolved| + if fp !in open
            && fp in resolved then 1 else 0
  {
    if fp in open {
      assert done + {fp} - open == done - open;
      assert (done + {fp}) * open == done * open + {fp};
    } else {
      assert done + {fp} - open == done - open + {fp};
      assert (done + {fp}) * open == done * open;
      if fp in resolved {
        assert (done + {fp} - open) * resolved == (done - open) * resolved + {fp};
      } else {
        assert (done + {fp} - open) * resolved == (done - open) * resolved;
      }
    }
  }

  // The counters of a run after some of its candidates.

  ghost function NewSoFar(t: Tables, cs: seq<Candidate>): nat {
    |Fingerprints(cs) - OpenFingerprints(t)|
  }

  ghost function PersistingSoFar(t: Tables, cs: seq<Candidate>): nat {
    |Fingerprints(cs) * OpenFingerprints(t)|
  }

  ghost function RegressingSoFar(t: Tables, cs: seq<Candidate>): nat {
    |(Fingerprints(cs) - OpenFingerprints(t)) * ResolvedFingerprints(t)|
  }

  lemma CountsStart(t: Tables)
    ensures NewSoFar(t, []) == PersistingSoFar(t, []) == RegressingSoFar(t, []) == 0
  {
    assert Fingerprints([]) == {};
  }

  lemma CountsAre(t: Tables, cs: seq<Candidate>)
    ensures NewSoFar(t, cs) == |Fingerprints(cs) - OpenFingerprints(t)|
    ensures PersistingSoFar(t, cs) == |Fingerprints(cs) * OpenFingerprints(t)|
    ensures RegressingSoFar(t, cs) == |(Fingerprints(cs) - OpenFingerprints(t)) * ResolvedFingerprints(t)|
  {
  }

  lemma CountsGrow(t: Tables, unique: seq<Candidate>, i: nat, persists: bool, regresses: bool)
    requires Distinct(unique) && i < |unique|
    requires persists <==> unique[i].fingerprint in OpenFingerprints(t)
    requires regresses <==> unique[i].fingerprint !in OpenFingerprints(t)
                            && unique[i].fingerprint in ResolvedFingerprints(t)
    ensures NewSoFar(t, unique[..i + 1]) == NewSoFar(t, unique[..i]) + if persists then 0 else 1
    ensures PersistingSoFar(t, unique[..i + 1]) == PersistingSoFar(t, unique[..i]) + if persists then 1 else 0
    ensures RegressingSoFar(t, unique[..i + 1]) == RegressingSoFar(t, unique[..i]) + if regresses then 1 else 0
  {
    hide OpenFingerprints, ResolvedFingerprints, Fingerprints, Distinct;
    NextIsNew(unique, i);
    CountOneMore(Fingerprints(unique[..i]), OpenFingerprints(t), ResolvedFingerprints(t), unique[i].fingerprint);
  }

  /** In the middle of a run, a candidate not yet observed finds the same rows as before the run. */
  lemma CandidateAgrees(t0: Tables, run: nat, done: seq<Candidate>, c: Candidate)
    requires Inv(t0) && MidRun(t0, run, {}) && Distinct(done) && c.fingerprint !in Fingerprints(done)
    ensures var t := ObserveAll(t0, run, done);
            && Ranges(t) && Intervals(t) && run in t.runs
            && OpenId(t, c.fingerprint) == OpenId(t0, c.fingerprint)
            && Predecessor(t, c.fingerprint) == Predecessor(t0, c.fingerprint)
    ensures OpenId(t0, c.fingerprint).Some? <==> c.fingerprint in OpenFingerprints(t0)
    ensures Predecessor(t0, c.fingerprint).Some? <==> c.fingerprint in ResolvedFingerprints(t0)
  {
    ObserveAllKeepsInv(t0, run, done);
    hide Witnessed, Introduced, Rows, OneRowPerRun, Predecessors, Counters, ObserveAll, OpenFingerprints,
         ResolvedFingerprints, SameFor;
    ObserveAllLeavesOthers(t0, run, done, c.fingerprint);
    SameForAgree(t0, ObserveAll(t0, run, done), c.fingerprint);
    PredecessorIsLast(t0, c.fingerprint);
    OpenFingerprintsAre(t0, c.fingerprint);
  }

  ghost function Gone(t: Tables, inp: Input, todo: set<Fingerprint>): set<nat> {
    set id | id in VanishedIds(t, inp) && t.findings[id].fingerprint !in todo
  }

  ghost function Unclear(t: Tables, inp: Input, todo: set<Fingerprint>): set<nat> {
    set id | id in UnseenIds(t, inp) && id !in VanishedIds(t, inp) && t.findings[id].fingerprint !in todo
  }

  lemma SettleOne(t: Tables, inp: Input, todo: set<Fingerprint>, fp: Fingerprint, id: nat)
    requires fp in todo && OpenAt(t, fp, id) && fp !in Fingerprints(inp.candidates)
    requires forall j :: j in UnseenIds(t, inp) && t.findings[j].fingerprint == fp ==> j == id
    ensures id !in Gone(t, inp, todo) && id !in Unclear(t, inp, todo)
    ensures if AbsenceIsMeaningful(t.findings[id].gpoId, inp.collected, inp.coverageComplete)
            then
              Gone(t, inp, todo - {fp}) == Gone(t, inp, todo) + {id}
              && Unclear(t, inp, todo - {fp}) == Unclear(t, inp, todo)
            else
              Gone(t, inp, todo - {fp}) == Gone(t, inp, todo)
              && Unclear(t, inp, todo - {fp}) == Unclear(t, inp, todo) + {id}
  {
    hide Fingerprints, AbsenceIsMeaningful;
  }

  lemma SettleSeen(t: Tables, inp: Input, todo: set<Fingerprint>, fp: Fingerprint)
    requires fp in Fingerprints(inp.candidates)
    ensures Gone(t, inp, todo - {fp}) == Gone(t, inp, todo) && Unclear(t, inp, todo - {fp}) == Unclear(t, inp, todo)
  {
    hide Fingerprints, AbsenceIsMeaningful;
  }

  lemma SettleEnd(t: Tables, inp: Input)
    ensures Gone(t, inp, {}) == VanishedIds(t, inp)
    ensures |Unclear(t, inp, {})| == |UnseenIds(t, inp)| - |VanishedIds(t, inp)|
  {
    VanishedAreUnseen(t, inp);
    assert Unclear(t, inp, {}) == UnseenIds(t, inp) - VanishedIds(t, inp);
    assert UnseenIds(t, inp) == Unclear(t, inp, {}) + VanishedIds(t, inp);
  }

  ghost predicate Indexes(t: Tables, active: map<Fingerprint, nat>, seen: set<Fingerprint>) {
    && (forall id :: id in t.findings && IsOpen(t.findings[id]) && t.findings[id].fingerprint !in seen ==>
          t.findings[id].fingerprint in active && active[t.findings[id].fingerprint] == id)
    && (forall fp :: fp in active && fp !in seen ==> OpenAt(t, fp, active[fp]))
  }

  lemma NothingSettled(t: Tables, inp: Input, active: map<Fingerprint, nat>, seen: set<Fingerprint>)
    requires seen == Fingerprints(inp.candidates) && Indexes(t, active, seen)
    ensures Gone(t, inp, active.Keys) == {} && Unclear(t, inp, active.Keys) == {}
  {
    hide Fingerprints, AbsenceIsMeaningful;
  }

  lemma IndexedAlone(t: Tables, inp: Input, active: map<Fingerprint, nat>, seen: set<Fingerprint>, fp: Fingerprint)
    requires seen == Fingerprints(inp.candidates) && Indexes(t, active, seen) && fp in active && fp !in seen
    ensures OpenAt(t, fp, active[fp])
    ensures forall j :: j in UnseenIds(t, inp) && t.findings[j].fingerprint == fp ==> j == active[fp]
  {
    hide Fingerprints, AbsenceIsMeaningful;
  }

  lemma SettledTable(t: Tables, run: nat, inp: Input, findings: map<nat, Finding>)
    requires run in t.runs && findings.Keys == t.findings.Keys
    requires forall id :: id in t.findings ==>
               findings[id] == if id in VanishedIds(t, inp) then Closed(t.findings[id], run, t.runs[run].snapshot)
                               else t.findings[id]
    ensures t.(findings := findings) == ResolveVanished(t, run, inp)
  {
    hide Fingerprints, AbsenceIsMeaningful;
    assert findings == ResolveVanished(t, run, inp).findings;
  }

  lemma ObservedIndexes(t: Tables, run: nat, inp: Input, unique: seq<Candidate>, active: map<Fingerprint, nat>)
    requires Inv(t) && MidRun(t, run, {}) && Distinct(unique) && Fingerprints(unique) == Fingerprints(inp.candidates)
    requires forall fp :: fp in active <==> OpenId(t, fp).Some?
    requires forall fp :: fp in active ==> OpenId(t, fp) == Some(active[fp])
    ensures run in t.runs
    ensures var o := ObserveAll(t, run, unique);
            && Indexes(o, active, Fingerprints(inp.candidates))
            && VanishedIds(o, inp) == VanishedIds(t, inp) && UnseenIds(o, inp) == UnseenIds(t, inp)
  {
    hide ObserveAll, SameFor, Ranges, Predecessors, Witnessed, Introduced, Rows, OneRowPerRun, Counters, OpenId,
         Indexes, VanishedIds, UnseenIds, Fingerprints;
    var o := ObserveAll(t, run, unique);
    forall fp | fp !in Fingerprints(inp.candidates)
      ensures SameFor(t, o, fp) { ObserveAllLeavesOthers(t, run, unique, fp); }
    ActiveStillIndexes(t, o, active, Fingerprints(inp.candidates));
    SameUnseen(t, o, inp);
  }

  /** After the run's observations the open rows it did not see are still those loaded before it. */
  lemma ActiveStillIndexes(t: Tables, o: Tables, active: map<Fingerprint, nat>, seen: set<Fingerprint>)
    requires forall fp :: fp !in seen ==> SameFor(t, o, fp)
    requires forall fp :: fp in active <==> OpenId(t, fp).Some?
    requires forall fp :: fp in active ==> OpenId(t, fp) == Some(active[fp])
    requires Intervals(t)
    ensures Indexes(o, active, seen)
  {
    forall id | id in o.findings && IsOpen(o.findings[id]) && o.findings[id].fingerprint !in seen
      ensures o.findings[id].fingerprint in active && active[o.findings[id].fingerprint] == id
    {
      var fp := o.findings[id].fingerprint;
      assert SameFor(t, o, fp);
      assert OpenAt(t, fp, id);
      OpenIdIs(t, fp, id);
    }
    forall fp | fp in active && fp !in seen ensures OpenAt(o, fp, active[fp]) {
      assert SameFor(t, o, fp);
      assert OpenAt(t, fp, active[fp]);
    }
  }

  lemma SameUnseen(t: Tables, o: Tables, inp: Input)
    requires forall fp :: fp !in Fingerprints(inp.candidates) ==> SameFor(t, o, fp)
    ensures VanishedIds(o, inp) == VanishedIds(t, inp) && UnseenIds(o, inp) == UnseenIds(t, inp)
  {
    hide Fingerprints, AbsenceIsMeaningful;
    forall id | id in t.findings && t.findings[id].fingerprint !in Fingerprints(inp.candidates)
      ensures id in o.findings && o.findings[id] == t.findings[id]
    {
      assert SameFor(t, o, t.findings[id].fingerprint);
    }
    forall id | id in o.findings && o.findings[id].fingerprint !in Fingerprints(inp.candidates)
      ensures id in t.findings && o.findings[id] == t.findings[id]
    {
      assert SameFor(t, o, o.findings[id].fingerprint);
    }
  }

  lemma DuplicatesAre(t: Tables, inp: Input)
    ensures Summary(t, inp).duplicates == |inp.candidates| - |Unique(inp.candidates)|
    ensures EffectiveStatus(inp) == if Summary(t, inp).duplicates > 0 then Partial else inp.status
  {
  }

  function Unlink(f: Finding, s: nat, gone: set<nat>): Finding {
    f.(resolvedSnapshot := if f.resolvedSnapshot == Some(s) then None else f.resolvedSnapshot,
       predecessor := if f.predecessor.Some? && f.predecessor.value in gone then None else f.predecessor)
  }

  // The foreign-key actions, table by table.

  function RunsWithout(runs: map<nat, Run>, s: nat): map<nat, Run> {
    map r | r in runs && runs[r].snapshot != s :: runs[r]
  }

  function RowsWithout(rows: map<nat, Observation>, runs: map<nat, Run>, gone: set<nat>): map<nat, Observation> {
    map k | k in rows && rows[k].run in runs && rows[k].occurrence !in gone :: rows[k]
  }

  function FindingsWithout(findings: map<nat, Finding>, s: nat, gone: set<nat>): map<nat, Finding> {
    map id | id in findings && id !in gone :: Unlink(findings[id], s, gone)
  }

  lemma CascadesAreDeletion(t: Tables, s: nat, gone: set<nat>)
    requires s in t.snapshots && Predecessors(t) && Rows(t)
    requires gone == set id | id in t.findings
             && (t.findings[id].firstSnapshot == s || t.findings[id].lastSnapshot == s)
    ensures DeleteSnapshot(t, s) ==
            t.(snapshots := t.snapshots - {s}, runs := RunsWithout(t.runs, s),
               observations := RowsWithout(t.observations, RunsWithout(t.runs, s), gone),
               findings := FindingsWithout(t.findings, s, gone))
  {
    hide Rows;
    var t' := DeleteSnapshot(t, s);
    FindingsCascade(t, s, gone);
    assert t'.runs == RunsWithout(t.runs, s);
    ObservationsCascade(t, s, gone);
  }

  lemma FindingsCascade(t: Tables, s: nat, gone: set<nat>)
    requires s in t.snapshots && Predecessors(t)
    requires gone == set id | id in t.findings
             && (t.findings[id].firstSnapshot == s || t.findings[id].lastSnapshot == s)
    ensures DeleteSnapshot(t, s).findings == FindingsWithout(t.findings, s, gone)
  {
    var t', f := DeleteSnapshot(t, s), FindingsWithout(t.findings, s, gone);
    assert SurvivingFindings(t, s) == t.findings.Keys - gone;
    forall id | id in f ensures id in t'.findings && t'.findings[id] == f[id] {
      if t.findings[id].predecessor.Some? {
        assert ResolvedAt(t, t.findings[id].fingerprint, t.findings[id].predecessor.value);
      }
    }
  }

  lemma ObservationsCascade(t: Tables, s: nat, gone: set<nat>)
    requires s in t.snapshots && Rows(t)
    requires gone == set id | id in t.findings
             && (t.findings[id].firstSnapshot == s || t.findings[id].lastSnapshot == s)
    ensures DeleteSnapshot(t, s).observations == RowsWithout(t.observations, RunsWithout(t.runs, s), gone)
  {
    assert SurvivingFindings(t, s) == t.findings.Keys - gone;
    assert DeleteSnapshot(t, s).runs == RunsWithout(t.runs, s);
  }

  ghost function RegressedSoFar(t: Tables, a: nat, b: nat, todo: set<nat>): set<Fingerprint> {
    set id | id in RegressedIds(t, a, b) && id !in todo :: t.findings[id].fingerprint
  }

  lemma NoneRegressedYet(t: Tables, a: nat, b: nat)
    ensures RegressedSoFar(t, a, b, SeenIn(t, b)) == {}
  {
  }

  lemma AllRegressed(t: Tables, a: nat, b: nat)
    ensures FindingDelta(t, a, b).regressed == RegressedSoFar(t, a, b, {})
  {
  }

  lemma RegressedIdsAre(t: Tables, a: nat, b: nat, id: nat)
    requires id in SeenIn(t, b)
    ensures id in RegressedIds(t, a, b)
            <==> id in t.findings && t.findings[id].fingerprint !in FingerprintsIn(t, a)
                 && t.findings[id].predecessor.Some?
  {
  }

  /** Each occurrence brings its own fingerprint to the list. */
  lemma RegressedOneMore(t: Tables, a: nat, b: nat, todo: set<nat>, id: nat)
    requires Inv(t) && id in todo && id in SeenIn(t, b)
    ensures if id in RegressedIds(t, a, b)
            then t.findings[id].fingerprint !in RegressedSoFar(t, a, b, todo)
                 && RegressedSoFar(t, a, b, todo - {id}) == RegressedSoFar(t, a, b, todo) + {t.findings[id].fingerprint}
            else RegressedSoFar(t, a, b, todo - {id}) == RegressedSoFar(t, a, b, todo)
  {
    hide Inv, SeenIn, FingerprintsIn;
    if id in RegressedIds(t, a, b) {
      if t.findings[id].fingerprint in RegressedSoFar(t, a, b, todo) {
        var j :| j in RegressedIds(t, a, b) && j !in todo && t.findings[j].fingerprint == t.findings[id].fingerprint;
        SeenOnce(t, b, id, j);
      }
    }
  }

  lemma StatusOfRun(t: Tables, run: nat, inp: Input)
    requires Inv(t) && MidRun(t, run, {})
    ensures run in t.runs && Intervals(t)
    ensures EffectiveStatus(inp) == if |inp.candidates| - |Unique(inp.candidates)| > 0 then Partial else inp.status
  {
  }

  lemma ImportIsEvaluation(t: Tables, inp: Input)
    ensures Apply(t, Import(inp)) == Apply(AddSnapshot(t), Reevaluate(t.nextSnapshot, inp))
  {
  }

  lemma RunIsStep(t: Tables, snapshot: nat, inp: Input)
    ensures snapshot in t.snapshots ==> var begun := BeginRun(t, snapshot, Partial);
              && Apply(t, Reevaluate(snapshot, inp)) == RunOver(begun, t.nextRun, inp)
              && Apply(t, FailedEvaluation(snapshot)) == Relabel(begun, t.nextRun, Failed)
    ensures snapshot !in t.snapshots
            ==> Apply(t, Reevaluate(snapshot, inp)) == t == Apply(t, FailedEvaluation(snapshot))
  {
    hide RunOver;
  }

  /** How far an import got before it raised. */
  datatype Phase = SavingRows | Evaluating | Committing

  /** Where an evaluation raised: while its candidates were computed, or inside the engine. */
  datatype EvaluationFault = Detecting | Running

  class Store {
    var findings: map<nat, Finding>
    var observations: map<nat, Observation>
    var runs: map<nat, Run>
    var snapshots: set<nat>
    var nextFinding: nat
    var nextObservation: nat
    var nextRun: nat
    var nextSnapshot: nat

    function T(): Tables
      reads this
    {
      Tables(findings, observations, runs, snapshots, nextFinding, nextObservation, nextRun, nextSnapshot)
    }

    constructor ()
      ensures T() == EMPTY && Inv(T())
    {
      findings, observations, runs, snapshots := map[], map[], map[], {};
      nextFinding, nextObservation, nextRun, nextSnapshot := 0, 0, 0, 0;
      new;
      EmptyIsConsistent();
    }

    // ----- Queries -----

    /** The open occurrences, by fingerprint. */
    method LoadActive() returns (active: map<Fingerprint, nat>)
      requires Intervals(T())
      ensures forall fp :: fp in active <==> OpenId(T(), fp).Some?
      ensures forall fp :: fp in active ==> OpenId(T(), fp) == Some(active[fp])
    {
      active := map[];
      var todo := findings.Keys;
      while todo != {}
        invariant todo <= findings.Keys
        invariant forall fp :: fp in active ==> OpenAt(T(), fp, active[fp])
        invariant forall id :: id in findings && id !in todo && IsOpen(findings[id])
                    ==> findings[id].fingerprint in active
      {
        var id :| id in todo;
        todo := todo - {id};
        if IsOpen(findings[id]) {
          active := active[findings[id].fingerprint := id];
        }
      }
      forall fp | fp in active ensures OpenId(T(), fp) == Some(active[fp]) { OpenIdIs(T(), fp, active[fp]); }
    }

    /** The resolved occurrence of `fp` whose resolving run is the latest. */
    method LatestResolvedRow(fp: Fingerprint) returns (p: Option<nat>)
      requires Ranges(T()) && Intervals(T())
      ensures p == Predecessor(T(), fp)
    {
      p := None;
      var todo := findings.Keys;
      while todo != {}
        invariant todo <= findings.Keys
        invariant p.Some? ==> ResolvedAt(T(), fp, p.value)
        invariant forall j :: j in findings && j !in todo && ResolvedAt(T(), fp, j) ==>
                    p.Some? && findings[j].resolved.value <= findings[p.value].resolved.value
      {
        var id :| id in todo;
        todo := todo - {id};
        if findings[id].fingerprint == fp && findings[id].resolved.Some?
           && (p.None? || findings[p.value].resolved.value <= findings[id].resolved.value) {
          p := Some(id);
        }
      }
      LatestIsPredecessor(T(), fp, p);
    }

    // ----- One run -----

    method CreateEvaluationRun(snapshot: nat, status: RunStatus) returns (run: Option<nat>)
      modifies this
      ensures snapshot in old(snapshots) ==> run == Some(old(nextRun)) && T() == BeginRun(old(T()), snapshot, status)
      ensures snapshot !in old(snapshots) ==> run.None? && T() == old(T())
    {
      if snapshot !in snapshots {
        return None; // the foreign key refuses the row
      }
      run := Some(nextRun);
      runs := runs[nextRun := Run(snapshot, status)];
      nextRun := nextRun + 1;
    }

    method RecordObservation(run: nat, id: nat, severity: string)
      modifies this`observations, this`nextObservation
      ensures T() == Record(old(T()), run, id, severity)
    {
      observations := observations[nextObservation := Observation(run, id, severity)];
      nextObservation := nextObservation + 1;
    }

    /** One candidate of a run: `active` was loaded before the run's first candidate, from `t0`. */
    method ObserveCandidate(ghost t0: Tables, ghost done: seq<Candidate>, run: nat, c: Candidate,
                            active: map<Fingerprint, nat>)
      returns (persisting: bool, regressed: bool)
      requires Inv(t0) && MidRun(t0, run, {}) && Distinct(done) && c.fingerprint !in Fingerprints(done)
      requires T() == ObserveAll(t0, run, done)
      requires forall fp :: fp in active <==> OpenId(t0, fp).Some?
      requires forall fp :: fp in active ==> OpenId(t0, fp) == Some(active[fp])
      modifies this
      ensures T() == Observe(ObserveAll(t0, run, done), run, c)
      ensures persisting <==> c.fingerprint in OpenFingerprints(t0)
      ensures regressed <==> c.fingerprint !in OpenFingerprints(t0) && c.fingerprint in ResolvedFingerprints(t0)
    {
      hide Inv, MidRun, ObserveAll, OpenFingerprints, ResolvedFingerprints, OpenId, Predecessor, Distinct;
      CandidateAgrees(t0, run, done, c);
      var snapshot := runs[run].snapshot;
      if c.fingerprint in active {
        var id := active[c.fingerprint];
        assert OpenAt(T(), c.fingerprint, id);
        findings := findings[id := Touched(findings[id], run, snapshot, c.severity)];
        RecordObservation(run, id, c.severity);
        persisting, regressed := true, false;
      } else {
        var p := LatestResolvedRow(c.fingerprint);
        var id := nextFinding;
        findings := findings[id := Opened(c, run, snapshot, p)];
        nextFinding := id + 1;
        RecordObservation(run, id, c.severity);
        persisting, regressed := false, p.Some?;
      }
    }

    /** Steps 3, 4 and 6: every distinct candidate, in order. */
    method ObserveCandidates(run: nat, unique: seq<Candidate>, active: map<Fingerprint, nat>)
      returns (newCount: nat, persisting: nat, regressed: nat)
      requires Inv(T()) && MidRun(T(), run, {}) && Distinct(unique) && run in T().runs
      requires forall fp :: fp in active <==> OpenId(T(), fp).Some?
      requires forall fp :: fp in active ==> OpenId(T(), fp) == Some(active[fp])
      modifies this
      ensures T() == ObserveAll(old(T()), run, unique)
      ensures newCount == |Fingerprints(unique) - OpenFingerprints(old(T()))|
      ensures persisting == |Fingerprints(unique) * OpenFingerprints(old(T()))|
      ensures regressed == |(Fingerprints(unique) - OpenFingerprints(old(T()))) * ResolvedFingerprints(old(T()))|
    {
      hide Inv, MidRun, OpenFingerprints, ResolvedFingerprints, Observe, OpenId, NewSoFar, PersistingSoFar,
           RegressingSoFar, Distinct;
      ghost var t0 := T();
      newCount, persisting, regressed := 0, 0, 0;
      assert unique[..0] == [];
      CountsStart(t0);
      for i := 0 to |unique|
        invariant T() == ObserveAll(t0, run, unique[..i])
        invariant newCount == NewSoFar(t0, unique[..i])
        invariant persisting == PersistingSoFar(t0, unique[..i])
        invariant regressed == RegressingSoFar(t0, unique[..i])
      {
        var c := unique[i];
        NextIsNew(unique, i);
        var p, r := ObserveCandidate(t0, unique[..i], run, c, active);
        CountsGrow(t0, unique, i, p, r);
        if p {
          persisting := persisting + 1;
        } else {
          newCount := newCount + 1;
          if r { regressed := regressed + 1; }
        }
      }
      assert unique[..|unique|] == unique;
      CountsAre(t0, unique);
    }

    /** Step 5: resolves the open occurrences that were not seen and whose absence means something. */
    method ResolveUnseen(run: nat, inp: Input, seen: set<Fingerprint>, active: map<Fingerprint, nat>)
      returns (resolved: nat, indeterminate: nat)
      requires run in T().runs && seen == Fingerprints(inp.candidates) && Indexes(T(), active, seen)
      modifies this`findings
      ensures T() == ResolveVanished(old(T()), run, inp)
      ensures resolved == |VanishedIds(old(T()), inp)|
      ensures indeterminate == |UnseenIds(old(T()), inp)| - |VanishedIds(old(T()), inp)|
    {
      hide Fingerprints, AbsenceIsMeaningful, Gone, Unclear, VanishedIds, UnseenIds, Indexes, ResolveVanished;
      ghost var t := T();
      resolved, indeterminate := 0, 0;
      var todo := active.Keys;
      NothingSettled(t, inp, active, seen);
      while todo != {}
        invariant todo <= active.Keys
        invariant resolved == |Gone(t, inp, todo)| && indeterminate == |Unclear(t, inp, todo)|
        invariant findings.Keys == t.findings.Keys
        invariant forall id :: id in t.findings ==>
                    findings[id] == if id in Gone(t, inp, todo) then Closed(t.findings[id], run, t.runs[run].snapshot)
                                    else t.findings[id]
      {
        var fp :| fp in todo;
        if fp in seen {
          SettleSeen(t, inp, todo, fp);
        } else {
          var id := active[fp];
          IndexedAlone(t, inp, active, seen, fp);
          SettleOne(t, inp, todo, fp, id);
          if AbsenceIsMeaningful(findings[id].gpoId, inp.collected, inp.coverageComplete) {
            findings := findings[id := Closed(findings[id], run, runs[run].snapshot)];
            resolved := resolved + 1;
          } else {
            indeterminate := indeterminate + 1;
          }
        }
        todo := todo - {fp};
      }
      SettleEnd(t, inp);
      SettledTable(t, run, inp, findings);
    }

    /** Step 5, if the run completed. */
    method SettleRun(ghost t0: Tables, run: nat, inp: Input, ghost unique: seq<Candidate>, seen: set<Fingerprint>,
                     active: map<Fingerprint, nat>, status: RunStatus)
      returns (resolved: nat, indeterminate: nat)
      requires Inv(t0) && MidRun(t0, run, {}) && Distinct(unique)
      requires seen == Fingerprints(unique) == Fingerprints(inp.candidates)
      requires forall fp :: fp in active <==> OpenId(t0, fp).Some?
      requires forall fp :: fp in active ==> OpenId(t0, fp) == Some(active[fp])
      requires T() == ObserveAll(t0, run, unique) && run in T().runs && status == EffectiveStatus(inp)
      modifies this`findings
      ensures T() == Settle(old(T()), run, inp)
      ensures resolved == if status == Completed then |VanishedIds(t0, inp)| else 0
      ensures indeterminate == if status == Completed then |UnseenIds(t0, inp)| - |VanishedIds(t0, inp)| else 0
    {
      hide Inv, MidRun, ObserveAll, Distinct, Indexes, VanishedIds, UnseenIds, Fingerprints, ResolveVanished,
           OpenId, EffectiveStatus;
      resolved, indeterminate := 0, 0;
      if status == Completed {
        ObservedIndexes(t0, run, inp, unique, active);
        resolved, indeterminate := ResolveUnseen(run, inp, seen, active);
      }
    }

    /** The lifecycle engine on a run that was just created. */
    method RunEvaluation(run: nat, inp: Input) returns (result: LifecycleResult)
      requires Inv(T()) && MidRun(T(), run, {})
      modifies this
      ensures T() == RunEngine(old(T()), run, inp) && result == Summary(old(T()), inp)
    {
      hide Inv, MidRun, ObserveAll, Unique, Distinct, Intervals, VanishedIds, UnseenIds, OpenFingerprints,
           ResolvedFingerprints, Fingerprints, Settle, OpenId, EffectiveStatus;
      ghost var t0 := T();
      var unique, seen, duplicates := Deduplicate(inp.candidates);
      var status := if duplicates > 0 then Partial else inp.status;
      UniqueIsDistinct(inp.candidates);
      StatusOfRun(t0, run, inp);
      var active := LoadActive();
      var newCount, persisting, regressed := ObserveCandidates(run, unique, active);
      var resolved, indeterminate := SettleRun(t0, run, inp, unique, seen, active, status);
      if duplicates > 0 {
        runs := runs[run := Run(runs[run].snapshot, Partial)];
      }
      result := LifecycleResult(newCount, persisting, resolved, regressed, indeterminate, duplicates);
    }

    method CompleteEvaluationRun(run: nat, status: RunStatus)
      requires run in runs
      modifies this`runs
      ensures T() == Relabel(old(T()), run, status)
    {
      runs := runs[run := Run(runs[run].snapshot, status)];
    }

    // ----- Transactions -----

    method Rollback(saved: Tables)
      modifies this
      ensures T() == saved
    {
      findings, observations, runs, snapshots := saved.findings, saved.observations, saved.runs, saved.snapshots;
      nextFinding, nextObservation, nextRun, nextSnapshot :=
        saved.nextFinding, saved.nextObservation, saved.nextRun, saved.nextSnapshot;
    }

    /** The guarded part: the engine and the run's label; a raising engine leaves the label alone. */
    method EvaluateRun(run: nat, inp: Input, raises: bool) returns (result: Option<LifecycleResult>)
      requires Inv(T()) && MidRun(T(), run, {}) && inp.status == Completed && run in T().runs
      modifies this
      ensures T() == if raises then Relabel(old(T()), run, Failed) else RunOver(old(T()), run, inp)
      ensures result == if raises then None else Some(Summary(old(T()), inp))
    {
      hide Inv, MidRun, RunEngine, RunOver, Summary;
      ghost var t0 := T();
      var saved := T();
      var r := RunEvaluation(run, inp);
      if raises {
        Rollback(saved);
        CompleteEvaluationRun(run, Failed);
        return None;
      }
      DuplicatesAre(t0, inp);
      EngineThenLabel(t0, run, inp);
      CompleteEvaluationRun(run, if r.duplicates > 0 then Partial else Completed);
      result := Some(r);
    }

    /**
     Creates a run, evaluates, and labels the run.  If the engine raises, what it wrote is rolled back and the run
     stays behind, labelled failed.
     */
    method EvaluateLifecycle(snapshot: nat, candidates: seq<Candidate>, collected: set<string>, coverageComplete: bool,
                             fault: Option<EvaluationFault>)
      returns (result: Option<LifecycleResult>)
      requires Inv(T())
      modifies this
      ensures Inv(T())
      ensures var inp := Input(candidates, Some(collected), coverageComplete, Completed);
              match fault
              case None =>
                && T() == Apply(old(T()), Reevaluate(snapshot, inp))
                && result == if snapshot in old(T()).snapshots then Some(Summary(old(T()), inp)) else None
              case Some(Detecting) => T() == old(T()) && result.None?
              case Some(Running) => T() == Apply(old(T()), FailedEvaluation(snapshot)) && result.None?
    {
      hide Inv, MidRun, Apply, RunOver, Summary;
      ghost var t0 := T();
      var inp := Input(candidates, Some(collected), coverageComplete, Completed);
      if fault == Some(Detecting) { return None; }
      StepKeepsInv(t0, Reevaluate(snapshot, inp));
      StepKeepsInv(t0, FailedEvaluation(snapshot));
      RunIsStep(t0, snapshot, inp);
      var created := CreateEvaluationRun(snapshot, Partial);
      if created.None? { return None; }
      BeginRunKeepsInv(t0, snapshot, Partial);
      SummaryReadsFindings(t0, BeginRun(t0, snapshot, Partial), inp);
      result := EvaluateRun(created.value, inp, fault == Some(Running));
    }

    /** Imports a snapshot with its evaluation; `fault` says after which phase the import raised, if it did. */
    method SaveEvaluatedEstate(candidates: seq<Candidate>, collected: set<string>, coverageComplete: bool,
                               fault: Option<Phase>)
      returns (snapshot: Result<nat, Phase>)
      requires Inv(T())
      modifies this
      ensures Inv(T())
      ensures match fault
              case None =>
                && snapshot == Ok(old(nextSnapshot))
                && T() == Apply(old(T()), Import(Input(candidates, Some(collected), coverageComplete, Completed)))
              case Some(phase) => snapshot == Err(phase) && T() == old(T())
    {
      hide Inv, Apply, Linear;
      ghost var t0 := T();
      var saved := T();
      var s := nextSnapshot;
      snapshots, nextSnapshot := snapshots + {s}, s + 1;
      NewSnapshotKeepsInv(t0);
      ImportIsEvaluation(t0, Input(candidates, Some(collected), coverageComplete, Completed));
      if fault != Some(SavingRows) {
        var raised := if fault == Some(Evaluating) then Some(Running) else None;
        var _ := EvaluateLifecycle(s, candidates, collected, coverageComplete, raised);
      }
      if fault.Some? {
        Rollback(saved);
        return Err(fault.value);
      }
      snapshot := Ok(s);
    }

    /** Deletes a snapshot with its foreign-key cascades. */
    method DropSnapshot(s: nat) returns (existed: bool)
      requires Inv(T())
      modifies this
      ensures Inv(T()) && T() == DeleteSnapshot(old(T()), s) && (existed <==> s in old(snapshots))
    {
      ghost var t := T();
      existed := s in snapshots;
      DeleteKeepsInv(t, s);
      hide Inv;
      if existed {
        var gone := set id | id in findings && (findings[id].firstSnapshot == s || findings[id].lastSnapshot == s);
        CascadesAreDeletion(t, s, gone);
        hide DeleteSnapshot;
        snapshots := snapshots - {s};
        runs := RunsWithout(runs, s);
        observations := RowsWithout(observations, runs, gone);
        findings := FindingsWithout(findings, s, gone);
      }
    }

    // ----- The difference of two runs -----

    /** The regressed fingerprints come as a list, one entry for each occurrence. */
    method Difference(a: nat, b: nat) returns (d: Delta, regressed: seq<Fingerprint>)
      requires Inv(T())
      ensures d == FindingDelta(T(), a, b)
      ensures |regressed| == |d.regressed| && forall fp :: fp in regressed <==> fp in d.regressed
    {
      hide Inv, SeenIn, FingerprintsIn, RegressedIds;
      var fa, fb := FingerprintsIn(T(), a), FingerprintsIn(T(), b);
      regressed := [];
      var todo := SeenIn(T(), b);
      NoneRegressedYet(T(), a, b);
      while todo != {}
        invariant todo <= SeenIn(T(), b)
        invariant |regressed| == |RegressedSoFar(T(), a, b, todo)|
        invariant forall fp :: fp in regressed <==> fp in RegressedSoFar(T(), a, b, todo)
      {
        var id :| id in todo;
        RegressedOneMore(T(), a, b, todo, id);
        RegressedIdsAre(T(), a, b, id);
        if id in findings && findings[id].fingerprint !in fa && findings[id].predecessor.Some? {
          regressed := regressed + [findings[id].fingerprint];
        }
        todo := todo - {id};
      }
      AllRegressed(T(), a, b);
      assert (set fp | fp in regressed) == RegressedSoFar(T(), a, b, {});
      d := Delta(fb - fa, fa - fb, fa * fb, set fp | fp in regressed);
    }
  }
}
