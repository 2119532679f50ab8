/** Short histories of the empty store on which the counts of the finding history disagree. */
module LifecycleExamples {
  import opened Lifecycle
  import opened LifecycleDelta
  import opened LifecycleHistory
  import opened LifecycleInvariant
  import opened LifecycleRuns
  import opened Prelude

  function OneCandidate(): Candidate {
    Candidate("f", "high", "g", true)
  }

  /** Sees the finding, with full coverage. */
  function SeeingImport(): Step {
    Import(Input([OneCandidate()], Some({"g"}), true, Completed))
  }

  /** Completes without the finding's GPO having been collected. */
  function PartialImport(): Step {
    Import(Input([], Some({}), false, Completed))
  }

  ghost function AfterSeeing(): Tables {
    Apply(EMPTY, SeeingImport())
  }

  ghost function AfterPartial(): Tables {
    Apply(AfterSeeing(), PartialImport())
  }

  lemma GivenFingerprints()
    ensures Fingerprints(SeeingImport().inp.candidates) == {"f"} && Fingerprints(PartialImport().inp.candidates) == {}
    ensures Complete(SeeingImport().inp) && OneCandidate() in Unique(SeeingImport().inp.candidates)
  {
    assert SeeingImport().inp.candidates == [OneCandidate()] && OneCandidate() in [OneCandidate()];
    assert [OneCandidate()][..0] == [] && Unique([]) == [];
    assert Unique([OneCandidate()]) == [OneCandidate()];
  }

  /** In an empty table a candidate is carried by a fresh occurrence. */
  lemma CarriedAfresh(t: Tables, t': Tables, run: nat, snapshot: nat, c: Candidate, id: nat)
    requires t.findings == map[] && CarriedBy(t, t', run, snapshot, c, id)
    ensures OpenAt(t', c.fingerprint, id) && t'.findings[id].gpoId == c.gpoId && t'.findings[id].firstSeen == run
  {
  }

  lemma FirstLeavesOpen() returns (id: nat)
    ensures Inv(AfterSeeing()) && OpenAt(AfterSeeing(), "f", id)
    ensures AfterSeeing().findings[id].gpoId == "g" && AfterSeeing().findings[id].firstSeen == EMPTY.nextRun
  {
    hide *;
    GivenFingerprints();
    GivenSteps();
    EmptyIsConsistent();
    StartKeepsInv(EMPTY, SeeingImport());
    StepKeepsInv(EMPTY, SeeingImport());
    var t := Start(EMPTY, SeeingImport());
    id := RunCarries(t, StartSnapshot(EMPTY, SeeingImport()), SeeingImport().inp, OneCandidate());
    CarriedAfresh(t, AfterSeeing(), t.nextRun, StartSnapshot(EMPTY, SeeingImport()), OneCandidate(), id);
    OpenIsListed(AfterSeeing(), "f", id);
  }

  lemma SecondLeavesOpen() returns (id: nat)
    ensures Inv(AfterPartial()) && OpenAt(AfterPartial(), "f", id)
  {
    GivenFingerprints();
    id := FirstLeavesOpen();
    hide Inv, Evaluate, Apply, Unique, Fingerprints, AfterSeeing;
    var t := AfterSeeing();
    StartKeepsInv(t, PartialImport());
    FirstRun(t, PartialImport());
    RunLeavesOthers(Start(t, PartialImport()), StartSnapshot(t, PartialImport()), PartialImport().inp, id);
  }

  /**
   A finding that a partial-coverage run leaves indeterminate and the next run sees again persists in that run's result
   but is new in the difference of the two.
   */
  lemma IndeterminateThenSeenAgain()
    ensures var t0, t1 := AfterSeeing(), AfterPartial();
            var d, s := FindingDelta(Apply(t1, SeeingImport()), t0.nextRun, t1.nextRun),
              Summary(t1, SeeingImport().inp);
            && s.persisting == 1 && s.newCount == 0
            && d.persisting == {} && d.new_ == {"f"}
  {
    hide Inv, Apply, Fingerprints, FingerprintsIn, OpenFingerprints, Unique, Complete, AfterSeeing, GrowsFrom,
         EffectiveStatus;
    var t0, t1, b := AfterSeeing(), AfterPartial(), SeeingImport();
    GivenFingerprints();
    var i := FirstLeavesOpen();
    var j := SecondLeavesOpen();
    OpenFingerprintsAre(t1, "f");
    FirstRun(t0, PartialImport());
    FirstRun(t1, b);
    StepGrows(t1, b);
    InvHasRows(t1);
    GrowthKeepsFingerprints(t1, Apply(t1, b), t0.nextRun, t1.nextRun);
    assert {"f"} * OpenFingerprints(t1) == {"f"} && {"f"} - OpenFingerprints(t1) == {};
  }

  /** The partial-coverage run resolves nothing, but the difference lists what it did not see as resolved. */
  lemma UnseenIsResolvedInDifference()
    ensures var t0, t1 := EMPTY, AfterSeeing();
            var d, s := FindingDelta(AfterPartial(), t0.nextRun, t1.nextRun), Summary(t1, PartialImport().inp);
            d.resolved == {"f"} && s.resolved == 0
  {
    hide Inv, Apply, Fingerprints, FingerprintsIn, OpenFingerprints, Unique, Complete, GrowsFrom, EffectiveStatus,
         VanishedIds, UnseenIds;
    GivenFingerprints();
    EmptyIsConsistent();
    FirstRun(EMPTY, SeeingImport());
    var id := FirstLeavesOpen();
    FirstRun(AfterSeeing(), PartialImport());
    StepGrows(AfterSeeing(), PartialImport());
    InvHasRows(AfterSeeing());
    GrowthKeepsFingerprints(AfterSeeing(), AfterPartial(), EMPTY.nextRun, AfterSeeing().nextRun);
    NothingVanishes(AfterSeeing());
  }

  /** Without full coverage and without collected GPOs no absence means anything. */
  lemma NothingVanishes(t: Tables)
    ensures VanishedIds(t, PartialImport().inp) == {}
  {
  }

  // ----- A regression that is reported too late -----

  /** Sees nothing, with full coverage. */
  function EmptyImport(): Step {
    Import(Input([], Some({}), true, Completed))
  }

  /** Seen, resolved, and seen again. */
  ghost function AfterRegression(): Tables {
    Apply(Apply(AfterSeeing(), EmptyImport()), SeeingImport())
  }

  /** ... and then left indeterminate. */
  ghost function AfterUnclear(): Tables {
    Apply(AfterRegression(), PartialImport())
  }

  lemma EmptyIsComplete()
    ensures Fingerprints(EmptyImport().inp.candidates) == {} && Complete(EmptyImport().inp)
  {
  }

  lemma ResolvedByEmptyImport(id: nat)
    requires Inv(AfterSeeing()) && OpenAt(AfterSeeing(), "f", id)
    ensures var t := Apply(AfterSeeing(), EmptyImport());
            Inv(t) && "f" in ResolvedFingerprints(t) && "f" !in OpenFingerprints(t)
  {
    EmptyIsComplete();
    hide Inv, Evaluate, Apply, Unique, Fingerprints, AfterSeeing, Complete;
    var t := AfterSeeing();
    StartKeepsInv(t, EmptyImport());
    StepKeepsInv(t, EmptyImport());
    CompleteIsFull(EmptyImport().inp);
    CompleteRunDecidesOpen(Start(t, EmptyImport()), StartSnapshot(t, EmptyImport()), EmptyImport().inp);
    RunLeavesOthers(Start(t, EmptyImport()), StartSnapshot(t, EmptyImport()), EmptyImport().inp, id);
    OpenFingerprintsAre(Apply(t, EmptyImport()), "f");
  }

  /** A candidate that was resolved and is not open comes back with a predecessor. */
  lemma ComesBack(t: Tables, snapshot: nat, inp: Input, c: Candidate) returns (id: nat)
    requires Inv(t) && snapshot in t.snapshots && c in Unique(inp.candidates)
    requires c.fingerprint in ResolvedFingerprints(t) && c.fingerprint !in OpenFingerprints(t)
    ensures OpenAt(Evaluate(t, snapshot, inp), c.fingerprint, id)
    ensures Evaluate(t, snapshot, inp).findings[id].predecessor.Some?
  {
    hide Inv, Evaluate, Unique, OpenFingerprints, ResolvedFingerprints, SeenIn, CarriedBy;
    id := RunCarries(t, snapshot, inp, c);
    CarriedIsSeen(t, Evaluate(t, snapshot, inp), t.nextRun, snapshot, c, id);
    RegressionIsPredecessor(t, snapshot, inp, id);
  }

  lemma RegressionLeavesOpen() returns (id: nat)
    ensures Inv(AfterRegression()) && OpenAt(AfterRegression(), "f", id)
    ensures AfterRegression().findings[id].predecessor.Some?
  {
    hide *;
    GivenFingerprints();
    var was := FirstLeavesOpen();
    ResolvedByEmptyImport(was);
    GivenSteps();
    var t := Apply(AfterSeeing(), EmptyImport());
    StartKeepsInv(t, SeeingImport());
    StepKeepsInv(t, SeeingImport());
    StartReadsFindings(t, SeeingImport());
    id := ComesBack(Start(t, SeeingImport()), StartSnapshot(t, SeeingImport()), SeeingImport().inp, OneCandidate());
    OpenIsListed(AfterRegression(), "f", id);
  }

  /** The steps of the example histories, for proofs that do not unfold them. */
  lemma GivenSteps()
    ensures AfterSeeing() == Apply(EMPTY, SeeingImport())
    ensures AfterRegression() == Apply(Apply(AfterSeeing(), EmptyImport()), SeeingImport())
    ensures SeeingImport().Import? && OneCandidate().fingerprint == "f" && OneCandidate().gpoId == "g"
    ensures forall t :: Evaluates(t, SeeingImport())
    ensures EMPTY.findings == map[] && Start(EMPTY, SeeingImport()).findings == map[]
    ensures Start(EMPTY, SeeingImport()).nextRun == EMPTY.nextRun
  {
    hide Apply;
  }

  lemma OpenIsListed(t: Tables, fp: Fingerprint, id: nat)
    requires OpenAt(t, fp, id)
    ensures id in t.findings
  {
  }

  lemma StartReadsFindings(t: Tables, step: Step)
    ensures Start(t, step).findings == t.findings
    ensures OpenFingerprints(Start(t, step)) == OpenFingerprints(t)
    ensures ResolvedFingerprints(Start(t, step)) == ResolvedFingerprints(t)
  {
  }

  lemma UnclearKeepsPredecessor() returns (id: nat)
    ensures Inv(AfterUnclear()) && OpenAt(AfterUnclear(), "f", id)
    ensures AfterUnclear().findings[id].predecessor.Some?
  {
    GivenFingerprints();
    id := RegressionLeavesOpen();
    hide Inv, Evaluate, Apply, Unique, Fingerprints, AfterRegression;
    var t := AfterRegression();
    StartKeepsInv(t, PartialImport());
    StepKeepsInv(t, PartialImport());
    RunLeavesOthers(Start(t, PartialImport()), StartSnapshot(t, PartialImport()), PartialImport().inp, id);
  }

  /**
   Seen, resolved, seen again, left indeterminate, seen again: the last run reports no regression, for the occurrence
   was open, and the difference to the run before it lists one, for that run did not see it.
   */
  lemma MissedRegressionIsListed()
    ensures var t0, t1 := AfterRegression(), AfterUnclear();
            var d, s := FindingDelta(Apply(t1, SeeingImport()), t0.nextRun, t1.nextRun),
              Summary(t1, SeeingImport().inp);
            d.regressed == {"f"} && s.regressed == 0
  {
    hide Inv, Apply, Evaluate, Fingerprints, FingerprintsIn, OpenFingerprints, ResolvedFingerprints, Unique, Complete,
         AfterRegression, GrowsFrom, EffectiveStatus, MissedRegressions;
    var t0, t1, b := AfterRegression(), AfterUnclear(), SeeingImport();
    GivenFingerprints();
    var i := RegressionLeavesOpen();
    var j := UnclearKeepsPredecessor();
    FirstRun(t0, PartialImport());
    OpenFingerprintsAre(t1, "f");
    MissedRegressionsAre(t1, t0.nextRun, b.inp, "f");
    RegressedInDifference(t1, b, t0.nextRun);
    OnlyMissedRegression(t1, t0.nextRun);
  }

  lemma OnlyMissedRegression(t: Tables, a: nat)
    requires "f" in MissedRegressions(t, a, SeeingImport().inp)
    ensures MissedRegressions(t, a, SeeingImport().inp) == {"f"}
  {
    GivenFingerprints();
  }

  lemma RegressedInDifference(t1: Tables, b: Step, a: nat)
    requires Inv(t1) && b.Import? && a < t1.nextRun && FingerprintsIn(t1, a) <= OpenFingerprints(t1)
    ensures FindingDelta(Apply(t1, b), a, t1.nextRun).regressed
            == (Fingerprints(b.inp.candidates) - OpenFingerprints(t1)) * ResolvedFingerprints(t1)
               + MissedRegressions(t1, a, b.inp)
  {
    hide Inv, Apply, Evaluate, Fingerprints, FingerprintsIn, OpenFingerprints, ResolvedFingerprints, MissedRegressions,
         GrowsFrom, FindingDelta;
    var s := Start(t1, b);
    StartKeepsInv(t1, b);
    StartReadsAlike(t1, b, a);
    StartReadsFindings(t1, b);
    EvaluateGrows(s, StartSnapshot(t1, b), b.inp);
    InvHasRows(s);
    GrowthKeepsFingerprints(s, Apply(t1, b), a, s.nextRun);
    RegressedAfterRun(s, StartSnapshot(t1, b), b.inp, a);
  }

  // ----- Deleting a newer snapshot -----

  lemma RunKeepsSnapshots(t: Tables, snapshot: nat, inp: Input)
    ensures Evaluate(t, snapshot, inp).snapshots == t.snapshots
  {
    hide ObserveAll, Unique, Vanished, EffectiveStatus;
  }

  /** A finding seen by both of two imports. */
  lemma SeenTwice() returns (id: nat)
    ensures var t1, t2 := AfterSeeing(), Apply(AfterSeeing(), SeeingImport());
            && Inv(t2) && t1.nextSnapshot in t2.snapshots
            && id in AsOfIds(t2, EMPTY.nextRun) && t2.findings[id].lastSnapshot == t1.nextSnapshot
  {
    GivenFingerprints();
    id := FirstLeavesOpen();
    hide Inv, Evaluate, Apply, Unique, Fingerprints, Complete, AfterSeeing;
    var t1 := AfterSeeing();
    StartKeepsInv(t1, SeeingImport());
    StepKeepsInv(t1, SeeingImport());
    var t := Start(t1, SeeingImport());
    RunKeepsSnapshots(t, t1.nextSnapshot, SeeingImport().inp);
    var d := RunCarries(t, t1.nextSnapshot, SeeingImport().inp, OneCandidate());
    CarriedAgain(t, Apply(t1, SeeingImport()), t.nextRun, t1.nextSnapshot, OneCandidate(), id, d);
  }

  /** An open occurrence is carried on. */
  lemma CarriedAgain(t: Tables, t': Tables, run: nat, snapshot: nat, c: Candidate, id: nat, d: nat)
    requires Inv(t) && OpenAt(t, c.fingerprint, id) && CarriedBy(t, t', run, snapshot, c, d)
    ensures d == id && id in t'.findings && t'.findings[id] == Touched(t.findings[id], run, snapshot, c.severity)
  {
    AtMostOneOpen(t, c.fingerprint, OpenId(t, c.fingerprint).value, id);
  }

  /** Deleting the second snapshot lowers the count as of the first run: the occurrence goes with its last snapshot. */
  lemma DeletionLowersOlderCount()
    ensures var t1, t2 := AfterSeeing(), Apply(AfterSeeing(), SeeingImport());
            |AsOfRows(DeleteSnapshot(t2, t1.nextSnapshot), EMPTY.nextRun)| < |AsOfRows(t2, EMPTY.nextRun)|
  {
    hide Inv, Apply, AfterSeeing, DeleteSnapshot, AsOfRows, AsOfIds;
    var id := SeenTwice();
    var t2, s, r := Apply(AfterSeeing(), SeeingImport()), AfterSeeing().nextSnapshot, EMPTY.nextRun;
    DeletionCount(t2, s, r);
    InvCountsAsOf(t2, r);
    SubsetSize(AsOfIds(t2, r) * SurvivingFindings(t2, s), AsOfIds(t2, r));
  }

  lemma InvCountsAsOf(t: Tables, r: nat)
    requires Inv(t)
    ensures |AsOfRows(t, r)| == |AsOfIds(t, r)|
  {
    hide AsOfRows, AsOfIds;
    AsOfCountsOccurrences(t, r);
  }
}
