/** The difference of two adjacent runs agrees with the counters the later run reported. */
module LifecycleDelta {
  import opened Prelude
  import opened Lifecycle
  import opened LifecycleInvariant
  import opened LifecycleHistory
  import opened LifecycleRuns

  /** What is open after run `a` although `a` did not see it. */
  ghost function Missed(t: Tables, a: nat): set<Fingerprint> {
    OpenFingerprints(t) - FingerprintsIn(t, a)
  }

  /** Of what `a` missed and the input sees again, the fingerprints whose open occurrence has a predecessor. */
  ghost function MissedRegressions(t: Tables, a: nat, inp: Input): set<Fingerprint> {
    set id | id in t.findings && IsOpen(t.findings[id])
      && t.findings[id].fingerprint in Fingerprints(inp.candidates) * Missed(t, a)
             && t.findings[id].predecessor.Some? :: t.findings[id].fingerprint
  }

  /** The fingerprints that a run with this input resolves. */
  ghost function ResolvedBy(t: Tables, inp: Input): set<Fingerprint> {
    if EffectiveStatus(inp) == Completed then set id | id in VanishedIds(t, inp) :: t.findings[id].fingerprint else {}
  }

  /** What `a` saw, the input does not, and the run leaves open. */
  ghost function Undecided(t: Tables, a: nat, inp: Input): set<Fingerprint> {
    FingerprintsIn(t, a) - Fingerprints(inp.candidates) - ResolvedBy(t, inp)
  }

  /**
   When each of the four sizes of a difference equals the counter that the run reported, in terms of the tables and the
   input before that run.
   */
  ghost predicate AgreesExactly(d: Delta, s: LifecycleResult, t: Tables, a: nat, inp: Input) {
    && (|d.new_| == s.newCount <==> Fingerprints(inp.candidates) !! Missed(t, a))
    && (|d.persisting| == s.persisting <==> Fingerprints(inp.candidates) !! Missed(t, a))
    && (|d.regressed| == s.regressed <==> MissedRegressions(t, a, inp) == {})
    && (|d.resolved| == s.resolved <==> |Undecided(t, a, inp)| == |ResolvedBy(t, inp) * Missed(t, a)|)
  }

  ghost predicate Complete(inp: Input) {
    inp.status == Completed && inp.coverageComplete && Distinct(inp.candidates)
  }

  lemma CompleteMeansCompleted(inp: Input)
    requires Complete(inp)
    ensures EffectiveStatus(inp) == Completed
  {
    UniqueIsDistinct(inp.candidates);
  }

  // ----- Sizes -----

  lemma SubsetSize<T>(x: set<T>, y: set<T>)
    requires x <= y
    ensures |x| <= |y| && (|x| == |y| <==> x == y)
  {
    assert |y - x| == |y| - |x| by { assert y == x + (y - x); }
    if |x| == |y| { assert y - x == {}; }
  }

  lemma SizesAgree<T>(seen: set<T>, open: set<T>, f: set<T>)
    requires seen <= open
    ensures |f - seen| == |f - open| <==> f !! (open - seen)
    ensures |seen * f| == |f * open| <==> f !! (open - seen)
  {
    SubsetSize(f - open, f - seen);
    SubsetSize(seen * f, f * open);
    assert f - open == f - seen <==> f !! (open - seen);
    assert seen * f == f * open <==> f !! (open - seen);
  }

  lemma DifferenceSizes<T>(x: set<T>, y: set<T>)
    ensures |x| == |y| <==> |x - y| == |y - x|
  {
    assert x == (x - y) + (x * y) && y == (y - x) + (x * y);
  }

  // ----- One run -----

  /** A persisting occurrence is the one that was open, with the predecessor it had. */
  lemma PersistingKeepsPredecessor(t: Tables, snapshot: nat, inp: Input, id: nat)
    requires Inv(t) && snapshot in t.snapshots && id in SeenIn(Evaluate(t, snapshot, inp), t.nextRun)
    requires id in Evaluate(t, snapshot, inp).findings
    requires Evaluate(t, snapshot, inp).findings[id].fingerprint in OpenFingerprints(t)
    ensures var f := Evaluate(t, snapshot, inp).findings[id];
            OpenAt(t, f.fingerprint, id) && f.predecessor == t.findings[id].predecessor
  {
    hide Evaluate, Unique, OpenFingerprints, Inv, SeenIn;
    var t' := Evaluate(t, snapshot, inp);
    SeenAfterRun(t, snapshot, inp, id);
    var fp := t'.findings[id].fingerprint;
    UniqueIsDistinct(inp.candidates);
    var c :| c in Unique(inp.candidates) && c.fingerprint == fp;
    var d := RunCarries(t, snapshot, inp, c);
    OpenFingerprintsAre(t, fp);
    EvaluateKeepsInv(t, snapshot, inp);
    CarriedIsSeen(t, t', t.nextRun, snapshot, c, d);
    SeenOnce(t', t.nextRun, id, d);
  }

  lemma CarriedIsSeen(t: Tables, t': Tables, run: nat, snapshot: nat, c: Candidate, id: nat)
    requires CarriedBy(t, t', run, snapshot, c, id)
    ensures id in SeenIn(t', run) && id in t'.findings && t'.findings[id].fingerprint == c.fingerprint
    ensures IsOpen(t'.findings[id])
  {
  }

  /** The regressed part: what the run reports, and what run `a` missed although it had a predecessor. */
  lemma RegressedAfterRun(t: Tables, snapshot: nat, inp: Input, a: nat)
    requires Inv(t) && snapshot in t.snapshots && FingerprintsIn(t, a) <= OpenFingerprints(t)
    requires FingerprintsIn(Evaluate(t, snapshot, inp), a) == FingerprintsIn(t, a)
    ensures FindingDelta(Evaluate(t, snapshot, inp), a, t.nextRun).regressed
            == (Fingerprints(inp.candidates) - OpenFingerprints(t)) * ResolvedFingerprints(t)
              + MissedRegressions(t, a, inp)
  {
    hide Inv, Evaluate, OpenFingerprints, ResolvedFingerprints, Unique, SeenIn, FingerprintsIn, MissedRegressions,
         Fingerprints;
    var t' := Evaluate(t, snapshot, inp);
    var f, o, r := Fingerprints(inp.candidates), OpenFingerprints(t), ResolvedFingerprints(t);
    forall id | id in RegressedIds(t', a, t.nextRun)
      ensures t'.findings[id].fingerprint in (f - o) * r + MissedRegressions(t, a, inp)
    {
      RegressedIsCounted(t, snapshot, inp, a, id);
    }
    forall fp | fp in (f - o) * r + MissedRegressions(t, a, inp)
      ensures exists id :: id in RegressedIds(t', a, t.nextRun) && t'.findings[id].fingerprint == fp
    {
      var id := CountedIsRegressed(t, snapshot, inp, a, fp);
    }
  }

  lemma MissedRegressionsAre(t: Tables, a: nat, inp: Input, fp: Fingerprint)
    ensures fp in MissedRegressions(t, a, inp) <==>
              && fp in Fingerprints(inp.candidates) * Missed(t, a)
              && exists id: nat :: OpenAt(t, fp, id) && t.findings[id].predecessor.Some?
  {
    hide Missed, Fingerprints;
    if fp in MissedRegressions(t, a, inp) {
      var id :| id in t.findings && IsOpen(t.findings[id]) && t.findings[id].fingerprint == fp
        && t.findings[id].predecessor.Some?;
      assert OpenAt(t, fp, id);
    }
  }

  lemma RegressedIsCounted(t: Tables, snapshot: nat, inp: Input, a: nat, id: nat)
    requires Inv(t) && snapshot in t.snapshots && FingerprintsIn(Evaluate(t, snapshot, inp), a) == FingerprintsIn(t, a)
    requires id in RegressedIds(Evaluate(t, snapshot, inp), a, t.nextRun)
    ensures Evaluate(t, snapshot, inp).findings[id].fingerprint
            in (Fingerprints(inp.candidates) - OpenFingerprints(t)) * ResolvedFingerprints(t)
              + MissedRegressions(t, a, inp)
  {
    hide Inv, Evaluate, OpenFingerprints, ResolvedFingerprints, Unique, SeenIn, FingerprintsIn, MissedRegressions,
         Fingerprints;
    SeenAfterRun(t, snapshot, inp, id);
    var fp := Evaluate(t, snapshot, inp).findings[id].fingerprint;
    if fp in OpenFingerprints(t) {
      PersistingKeepsPredecessor(t, snapshot, inp, id);
      MissedRegressionsAre(t, a, inp, fp);
    } else {
      RegressionIsPredecessor(t, snapshot, inp, id);
    }
  }

  lemma CountedIsRegressed(t: Tables, snapshot: nat, inp: Input, a: nat, fp: Fingerprint) returns (id: nat)
    requires Inv(t) && snapshot in t.snapshots && FingerprintsIn(t, a) <= OpenFingerprints(t)
    requires FingerprintsIn(Evaluate(t, snapshot, inp), a) == FingerprintsIn(t, a)
    requires fp in (Fingerprints(inp.candidates) - OpenFingerprints(t)) * ResolvedFingerprints(t)
             + MissedRegressions(t, a, inp)
    ensures id in RegressedIds(Evaluate(t, snapshot, inp), a, t.nextRun)
    ensures Evaluate(t, snapshot, inp).findings[id].fingerprint == fp
  {
    hide Evaluate, OpenFingerprints, ResolvedFingerprints, Unique, SeenIn, MissedRegressions, Fingerprints,
         Ranges, Witnessed, Introduced, OneRowPerRun, Predecessors, Counters, Rows;
    var t' := Evaluate(t, snapshot, inp);
    MissedRegressionsAre(t, a, inp, fp);
    FingerprintsAfterRun(t, snapshot, inp);
    id :| id in SeenIn(t', t.nextRun) && id in t'.findings && t'.findings[id].fingerprint == fp;
    if fp in MissedRegressions(t, a, inp) {
      PersistingKeepsPredecessor(t, snapshot, inp, id);
      var j: nat :| OpenAt(t, fp, j) && t.findings[j].predecessor.Some?;
      AtMostOneOpen(t, fp, id, j);
    } else {
      RegressionIsPredecessor(t, snapshot, inp, id);
    }
  }

  /** A run resolves one open occurrence for each fingerprint it resolves. */
  lemma ResolvedByCounts(t: Tables, inp: Input)
    requires Inv(t)
    ensures Summary(t, inp).resolved == |ResolvedBy(t, inp)|
    ensures ResolvedBy(t, inp) <= OpenFingerprints(t) - Fingerprints(inp.candidates)
  {
    hide Witnessed, Introduced, OneRowPerRun, Predecessors, Counters, Rows, Ranges, Intervals, Fingerprints,
         EffectiveStatus, AbsenceIsMeaningful;
    var ids, fps := VanishedIds(t, inp), set id | id in VanishedIds(t, inp) :: t.findings[id].fingerprint;
    var pair := map id | id in ids :: t.findings[id].fingerprint;
    forall fp | fp in fps ensures exists id :: id in ids && pair[id] == fp {
      var id :| id in ids && t.findings[id].fingerprint == fp;
      assert pair[id] == fp;
    }
    forall i, j | i in ids && j in ids && pair[i] == pair[j] ensures i == j { VanishedOnce(t, inp, i, j); }
    OneToOneSize(ids, fps, pair);
  }

  lemma VanishedOnce(t: Tables, inp: Input, i: nat, j: nat)
    requires Intervals(t) && i in VanishedIds(t, inp) && j in VanishedIds(t, inp)
    requires t.findings[i].fingerprint == t.findings[j].fingerprint
    ensures i == j
  {
    AtMostOneOpen(t, t.findings[i].fingerprint, i, j);
  }

  /** A run against tables in which everything that run `a` saw is still open. */
  lemma DeltaOfRun(t: Tables, snapshot: nat, inp: Input, a: nat)
    requires Inv(t) && snapshot in t.snapshots && a < t.nextRun && FingerprintsIn(t, a) <= OpenFingerprints(t)
    ensures AgreesExactly(FindingDelta(Evaluate(t, snapshot, inp), a, t.nextRun), Summary(t, inp), t, a, inp)
  {
    hide Witnessed, Introduced, OneRowPerRun, Predecessors, Counters, Ranges, Intervals, Evaluate,
         OpenFingerprints, ResolvedFingerprints, VanishedIds, UnseenIds, GrowsFrom, FingerprintsIn, Fingerprints,
         RegressedIds, Rows, Unique, MissedRegressions, ResolvedBy, EffectiveStatus;
    var t' := Evaluate(t, snapshot, inp);
    EvaluateGrows(t, snapshot, inp);
    GrowthKeepsFingerprints(t, t', a, t.nextRun);
    FingerprintsAfterRun(t, snapshot, inp);
    RegressedAfterRun(t, snapshot, inp, a);
    ResolvedByCounts(t, inp);
    var f, o, seen := Fingerprints(inp.candidates), OpenFingerprints(t), FingerprintsIn(t, a);
    SizesAgree(seen, o, f);
    RegressedSizes(t, inp, a);
    DifferenceSizes(seen - f, ResolvedBy(t, inp));
    assert ResolvedBy(t, inp) - (seen - f) == ResolvedBy(t, inp) * Missed(t, a);
  }

  lemma RegressedSizes(t: Tables, inp: Input, a: nat)
    ensures var r := (Fingerprints(inp.candidates) - OpenFingerprints(t)) * ResolvedFingerprints(t);
            |r + MissedRegressions(t, a, inp)| == |r| <==> MissedRegressions(t, a, inp) == {}
  {
    hide Fingerprints, OpenFingerprints, ResolvedFingerprints, FingerprintsIn, MissedRegressions;
    var r := (Fingerprints(inp.candidates) - OpenFingerprints(t)) * ResolvedFingerprints(t);
    forall fp | fp in MissedRegressions(t, a, inp)
      ensures fp in OpenFingerprints(t) { MissedRegressionsAre(t, a, inp, fp); }
    assert |r + MissedRegressions(t, a, inp)| == |r| + |MissedRegressions(t, a, inp)|;
  }

  lemma GrowthKeepsFingerprints(t: Tables, t': Tables, a: nat, n: nat)
    requires Rows(t) && GrowsFrom(t, t', n) && a < n
    ensures FingerprintsIn(t', a) == FingerprintsIn(t, a)
  {
    assert SeenIn(t', a) == SeenIn(t, a);
    forall id | id in SeenIn(t, a) ensures id in t.findings && SameHistory(t.findings[id], t'.findings[id], n) {
    }
  }

  /** The tables a run starts from: an import has just added its snapshot. */
  function Start(t: Tables, step: Step): Tables {
    if step.Import? then AddSnapshot(t) else t
  }

  function StartSnapshot(t: Tables, step: Step): nat
    requires step.Import? || step.Reevaluate?
  {
    if step.Import? then t.nextSnapshot else step.snapshot
  }

  lemma StartKeepsInv(t: Tables, step: Step)
    requires Inv(t) && Evaluates(t, step)
    ensures Inv(Start(t, step)) && StartSnapshot(t, step) in Start(t, step).snapshots
    ensures Apply(t, step) == Evaluate(Start(t, step), StartSnapshot(t, step), step.inp)
    ensures Summary(Start(t, step), step.inp) == Summary(t, step.inp)
  {
    hide Inv, Linear, Evaluate, Summary;
    NewSnapshotKeepsInv(t);
    SummaryReadsFindings(t, Start(t, step), step.inp);
  }

  lemma SummaryReadsFindings(t: Tables, t': Tables, inp: Input)
    requires t'.findings == t.findings
    ensures Summary(t', inp) == Summary(t, inp)
  {
    hide Unique, EffectiveStatus, Vanished;
    assert OpenFingerprints(t') == OpenFingerprints(t);
    assert ResolvedFingerprints(t') == ResolvedFingerprints(t);
    assert VanishedIds(t', inp) == VanishedIds(t, inp);
    assert UnseenIds(t', inp) == UnseenIds(t, inp);
  }

  // ----- Two adjacent runs -----

  /** Everything a run sees is open after it, whatever its status and coverage. */
  lemma SeenIsOpen(t: Tables, snapshot: nat, inp: Input)
    requires Inv(t) && snapshot in t.snapshots
    ensures Fingerprints(inp.candidates) <= OpenFingerprints(Evaluate(t, snapshot, inp))
  {
    hide Inv, Evaluate, Unique;
    forall fp | fp in Fingerprints(inp.candidates) ensures fp in OpenFingerprints(Evaluate(t, snapshot, inp)) {
      UniqueIsDistinct(inp.candidates);
      var c :| c in Unique(inp.candidates) && c.fingerprint == fp;
      var id := RunCarries(t, snapshot, inp, c);
      CarriedIsSeen(t, Evaluate(t, snapshot, inp), t.nextRun, snapshot, c, id);
    }
  }

  lemma FirstRun(t0: Tables, a: Step)
    requires Inv(t0) && Evaluates(t0, a)
    ensures var t1 := Apply(t0, a);
            && Inv(t1) && t0.nextRun < t1.nextRun
            && FingerprintsIn(t1, t0.nextRun) == Fingerprints(a.inp.candidates) <= OpenFingerprints(t1)
            && (Complete(a.inp) ==> Missed(t1, t0.nextRun) == {})
  {
    hide Inv, Apply, Evaluate, OpenFingerprints, FingerprintsIn, Fingerprints, Complete, Summary;
    StepKeepsInv(t0, a);
    StartKeepsInv(t0, a);
    RunAdvances(t0, a);
    FingerprintsAfterRun(Start(t0, a), StartSnapshot(t0, a), a.inp);
    SeenIsOpen(Start(t0, a), StartSnapshot(t0, a), a.inp);
    if Complete(a.inp) {
      CompleteIsFull(a.inp);
      CompleteRunDecidesOpen(Start(t0, a), StartSnapshot(t0, a), a.inp);
    }
  }

  lemma CompleteIsFull(inp: Input)
    requires Complete(inp)
    ensures EffectiveStatus(inp) == Completed && inp.coverageComplete
  {
    CompleteMeansCompleted(inp);
  }

  lemma SecondRun(t1: Tables, b: Step, a: nat)
    requires Inv(t1) && Evaluates(t1, b) && a < t1.nextRun && FingerprintsIn(t1, a) <= OpenFingerprints(t1)
    ensures t1.nextRun < Apply(t1, b).nextRun
    ensures AgreesExactly(FindingDelta(Apply(t1, b), a, t1.nextRun), Summary(t1, b.inp), t1, a, b.inp)
  {
    hide Inv, Apply, Evaluate, OpenFingerprints, FingerprintsIn, Summary, FindingDelta, AgreesExactly,
         MissedRegressions, ResolvedBy;
    StartKeepsInv(t1, b);
    RunAdvances(t1, b);
    var s := Start(t1, b);
    StartReadsAlike(t1, b, a);
    DeltaOfRun(s, StartSnapshot(t1, b), b.inp, a);
    AgreesAlike(FindingDelta(Apply(t1, b), a, t1.nextRun), Summary(t1, b.inp), s, t1, a, b.inp);
  }

  lemma RunAdvances(t: Tables, b: Step)
    requires Evaluates(t, b)
    ensures t.nextRun < Apply(t, b).nextRun && Start(t, b).nextRun == t.nextRun
  {
    hide ObserveAll, Unique, Vanished, EffectiveStatus;
  }

  /** The difference and the counters read nothing that adding the snapshot of an import changes. */
  lemma StartReadsAlike(t: Tables, b: Step, a: nat)
    requires b.Import? || b.Reevaluate?
    ensures var s := Start(t, b);
            && OpenFingerprints(s) == OpenFingerprints(t) && FingerprintsIn(s, a) == FingerprintsIn(t, a)
            && MissedRegressions(s, a, b.inp) == MissedRegressions(t, a, b.inp)
            && ResolvedBy(s, b.inp) == ResolvedBy(t, b.inp)
  {
    hide Fingerprints, EffectiveStatus, Vanished;
    assert FingerprintsIn(Start(t, b), a) == FingerprintsIn(t, a);
    assert VanishedIds(Start(t, b), b.inp) == VanishedIds(t, b.inp);
    assert MissedRegressions(Start(t, b), a, b.inp) == MissedRegressions(t, a, b.inp);
  }

  lemma AgreesAlike(d: Delta, r: LifecycleResult, s: Tables, t: Tables, a: nat, inp: Input)
    requires AgreesExactly(d, r, s, a, inp)
    requires OpenFingerprints(s) == OpenFingerprints(t) && FingerprintsIn(s, a) == FingerprintsIn(t, a)
    requires MissedRegressions(s, a, inp) == MissedRegressions(t, a, inp) && ResolvedBy(s, inp) == ResolvedBy(t, inp)
    ensures AgreesExactly(d, r, t, a, inp)
  {
    hide OpenFingerprints, FingerprintsIn, Fingerprints, MissedRegressions, ResolvedBy;
    assert Missed(s, a) == Missed(t, a) && Undecided(s, a, inp) == Undecided(t, a, inp);
  }

  lemma AdjacentRuns(t0: Tables, a: Step, b: Step, after: seq<Step>)
    requires Inv(t0) && Evaluates(t0, a) && Evaluates(Apply(t0, a), b) && NoDeletion(after)
    ensures var t1 := Apply(t0, a);
            AgreesExactly(FindingDelta(Exec(Apply(t1, b), after), t0.nextRun, t1.nextRun), Summary(t1, b.inp), t1,
                          t0.nextRun, b.inp)
  {
    hide Inv, Exec, Apply, Evaluates, Summary, FindingDelta, AgreesExactly, OpenFingerprints, FingerprintsIn,
         GrowsFrom, Evaluate, Complete, Fingerprints, Missed;
    var t1 := Apply(t0, a);
    var t2 := Apply(t1, b);
    FirstRun(t0, a);
    StartKeepsInv(t1, b);
    SecondRun(t1, b, t0.nextRun);
    StepKeepsInv(t1, b);
    ExecGrows(t2, after);
    assert Rows(t2) by { InvHasRows(t2); }
    GrowthKeepsDelta(t2, Exec(t2, after), t0.nextRun, t1.nextRun, t2.nextRun);
  }

  lemma InvHasRows(t: Tables)
    requires Inv(t)
    ensures Rows(t)
  {
  }

  /**
   Run `b` directly follows run `a`, of any status and coverage. Whatever happened before, and whatever follows short of
   a deletion, the sizes of the difference computed from the rows equal the counters run `b` reported exactly as
   `AgreesExactly` says: new and persisting iff `b` sees nothing that `a` left open unseen, regressed iff nothing of
   that has a predecessor, and resolved iff as many fingerprints of `a` stay undecided as `b` resolves beyond `a`.
   */
  lemma DeltaAgreesExactly(before: seq<Step>, a: Step, b: Step, after: seq<Step>)
    requires Evaluates(Exec(EMPTY, before), a) && Evaluates(Apply(Exec(EMPTY, before), a), b) && NoDeletion(after)
    ensures var t0 := Exec(EMPTY, before);
            var t1 := Apply(t0, a);
            && AgreesExactly(FindingDelta(Exec(Apply(t1, b), after), t0.nextRun, t1.nextRun), Summary(t1, b.inp), t1,
                             t0.nextRun, b.inp)
            && FingerprintsIn(t1, t0.nextRun) == Fingerprints(a.inp.candidates)
  {
    EmptyIsConsistent();
    hide Inv, Exec, Apply, Evaluates, Summary, FindingDelta, AgreesExactly, EMPTY, FingerprintsIn, Fingerprints,
         OpenFingerprints, Complete, Missed;
    ReachableStoresAreConsistent(EMPTY, before);
    FirstRun(Exec(EMPTY, before), a);
    AdjacentRuns(Exec(EMPTY, before), a, b, after);
  }

  /**
   After a complete run nothing is missed, so three counts always agree, and the fourth iff nothing of `a` stays
   undecided.
   */
  lemma DeltaAgrees(before: seq<Step>, a: Step, b: Step, after: seq<Step>)
    requires Evaluates(Exec(EMPTY, before), a) && Complete(a.inp)
    requires Evaluates(Apply(Exec(EMPTY, before), a), b) && NoDeletion(after)
    ensures var t0 := Exec(EMPTY, before);
            var t1 := Apply(t0, a);
            var d, s := FindingDelta(Exec(Apply(t1, b), after), t0.nextRun, t1.nextRun), Summary(t1, b.inp);
            && |d.new_| == s.newCount && |d.persisting| == s.persisting && |d.regressed| == s.regressed
            && (|d.resolved| == s.resolved <==> Undecided(t1, t0.nextRun, b.inp) == {})
            && (Complete(b.inp) ==> |d.resolved| == s.resolved)
  {
    EmptyIsConsistent();
    hide Inv, Exec, Apply, Summary, FindingDelta, EMPTY, FingerprintsIn, Fingerprints, OpenFingerprints, Complete,
         MissedRegressions, ResolvedBy, Missed, Undecided;
    ReachableStoresAreConsistent(EMPTY, before);
    var t0 := Exec(EMPTY, before);
    var t1 := Apply(t0, a);
    FirstRun(t0, a);
    AdjacentRuns(t0, a, b, after);
    NothingMissed(t1, t0.nextRun, b.inp);
  }

  lemma NothingMissed(t: Tables, a: nat, inp: Input)
    requires Inv(t) && Missed(t, a) == {} && FingerprintsIn(t, a) <= OpenFingerprints(t)
    ensures MissedRegressions(t, a, inp) == {} && Fingerprints(inp.candidates) !! Missed(t, a)
    ensures |ResolvedBy(t, inp) * Missed(t, a)| == 0 && (|Undecided(t, a, inp)| == 0 <==> Undecided(t, a, inp) == {})
    ensures Complete(inp) ==> Undecided(t, a, inp) == {}
  {
    hide Inv, Fingerprints, FingerprintsIn, EffectiveStatus, Distinct;
    assert ResolvedBy(t, inp) * Missed(t, a) == {};
    if Complete(inp) {
      CompleteIsFull(inp);
      forall fp | fp in FingerprintsIn(t, a) - Fingerprints(inp.candidates) ensures fp in ResolvedBy(t, inp) {
        var id :| id in t.findings && IsOpen(t.findings[id]) && t.findings[id].fingerprint == fp;
        assert id in VanishedIds(t, inp);
      }
    }
  }
}
