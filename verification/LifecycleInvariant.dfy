/** What every reachable store satisfies, and what a store without deletions satisfies besides. */
module LifecycleInvariant {
  import opened Prelude
  import opened Lifecycle

  /** Runs, snapshots and rows named by a finding exist, and its own interval is in order. */
  ghost predicate Ranges(t: Tables) {
    forall id :: id in t.findings ==>
      var f := t.findings[id];
      && id < t.nextFinding
      && f.firstSeen <= f.lastSeen
      && f.firstSeen in t.runs && t.runs[f.firstSeen].snapshot == f.firstSnapshot
      && f.lastSeen in t.runs && t.runs[f.lastSeen].snapshot == f.lastSnapshot
      && (f.resolved.Some? ==> f.lastSeen < f.resolved.value < t.nextRun)
      && (f.resolvedSnapshot.Some? ==> f.resolved.Some?)
  }

  /** Occurrences of one fingerprint are disjoint intervals, in id order. */
  ghost predicate Intervals(t: Tables) {
    forall i, j :: i in t.findings && j in t.findings && i < j && t.findings[i].fingerprint == t.findings[j].fingerprint
      ==> t.findings[i].resolved.Some? && t.findings[i].resolved.value < t.findings[j].firstSeen
  }

  /** A predecessor is an earlier, resolved occurrence of the same fingerprint. */
  ghost predicate Predecessors(t: Tables) {
    forall id :: id in t.findings && t.findings[id].predecessor.Some? ==>
      t.findings[id].predecessor.value < id
        && ResolvedAt(t, t.findings[id].fingerprint, t.findings[id].predecessor.value)
  }

  ghost predicate Observed(t: Tables, id: nat, run: nat, severity: string) {
    exists k :: k in t.observations && t.observations[k] == Observation(run, id, severity)
  }

  /** The stored severity is the one observed in the last run that saw the finding. */
  ghost predicate Witnessed(t: Tables) {
    forall id :: id in t.findings ==> Observed(t, id, t.findings[id].lastSeen, t.findings[id].severity)
  }

  /** The run that first saw a finding left a row for it. */
  ghost predicate Introduced(t: Tables) {
    forall id :: id in t.findings ==> exists severity :: Observed(t, id, t.findings[id].firstSeen, severity)
  }

  ghost predicate Rows(t: Tables) {
    forall k :: k in t.observations ==>
      var o := t.observations[k];
      && k < t.nextObservation && o.run in t.runs && o.occurrence in t.findings
      && t.findings[o.occurrence].firstSeen <= o.run <= t.findings[o.occurrence].lastSeen
  }

  /** A run observes an occurrence at most once. */
  ghost predicate OneRowPerRun(t: Tables) {
    forall k, l :: k in t.observations && l in t.observations && k != l
      ==> t.observations[k].run != t.observations[l].run || t.observations[k].occurrence != t.observations[l].occurrence
  }

  ghost predicate Counters(t: Tables) {
    && (forall r :: r in t.runs ==> r < t.nextRun && t.runs[r].snapshot in t.snapshots)
    && (forall s :: s in t.snapshots ==> s < t.nextSnapshot)
  }

  ghost predicate Inv(t: Tables) {
    && Ranges(t) && Intervals(t) && Predecessors(t) && Witnessed(t) && Introduced(t)
    && Rows(t) && OneRowPerRun(t) && Counters(t)
  }

  /** `p` is the occurrence that immediately precedes `id` among those of its fingerprint. */
  ghost predicate Precedes(t: Tables, p: nat, id: nat)
    requires id in t.findings
  {
    && p in t.findings && p < id && t.findings[p].fingerprint == t.findings[id].fingerprint
    && forall j :: j in t.findings && p < j < id ==> t.findings[j].fingerprint != t.findings[id].fingerprint
  }

  ghost predicate IsFirst(t: Tables, id: nat)
    requires id in t.findings
  {
    forall j :: j in t.findings && j < id ==> t.findings[j].fingerprint != t.findings[id].fingerprint
  }

  /** Each occurrence names exactly the one before it: the chain is linear, without gaps. */
  ghost predicate Linear(t: Tables) {
    forall id :: id in t.findings ==>
      if t.findings[id].predecessor.Some? then Precedes(t, t.findings[id].predecessor.value, id) else IsFirst(t, id)
  }

  // ----- Consequences -----

  lemma AtMostOneOpen(t: Tables, fp: Fingerprint, i: nat, j: nat)
    requires Intervals(t) && OpenAt(t, fp, i) && OpenAt(t, fp, j)
    ensures i == j
  {
  }

  lemma OpenIdIs(t: Tables, fp: Fingerprint, id: nat)
    requires Intervals(t) && OpenAt(t, fp, id)
    ensures OpenId(t, fp) == Some(id)
  {
    AtMostOneOpen(t, fp, id, OpenId(t, fp).value);
  }

  /** The resolving run grows with the id, so the latest resolved occurrence has the greatest id. */
  lemma PredecessorIsLast(t: Tables, fp: Fingerprint)
    requires Ranges(t) && Intervals(t)
    ensures match Predecessor(t, fp)
            case None => forall j: nat :: !ResolvedAt(t, fp, j)
            case Some(p) => ResolvedAt(t, fp, p) && forall j: nat :: ResolvedAt(t, fp, j) ==> j <= p
  {
    var all := set j | j in t.findings && ResolvedAt(t, fp, j);
    assert forall j :: ResolvedAt(t, fp, j) ==> j in all;
    if all != {} {
      var m := GreatestExists(all);
      assert ResolvedAt(t, fp, m);
      assert forall j :: ResolvedAt(t, fp, j) ==> t.findings[j].resolved.value <= t.findings[m].resolved.value;
      assert LatestResolved(t, fp, m);
    }
  }

  lemma LatestIsPredecessor(t: Tables, fp: Fingerprint, p: Option<nat>)
    requires Ranges(t) && Intervals(t)
    requires match p
             case Some(id) => LatestResolved(t, fp, id)
             case None => forall j: nat :: !ResolvedAt(t, fp, j)
    ensures p == Predecessor(t, fp)
  {
    PredecessorIsLast(t, fp);
  }

  // ----- Steps that leave findings and observations alone -----

  lemma RunTableGrowthKeepsInv(t: Tables, t': Tables)
    requires Inv(t) && Counters(t')
    requires t'.findings == t.findings && t'.observations == t.observations
    requires t'.nextFinding == t.nextFinding && t'.nextObservation == t.nextObservation && t.nextRun <= t'.nextRun
    requires forall r :: r in t.runs ==> r in t'.runs && t'.runs[r].snapshot == t.runs[r].snapshot
    ensures Inv(t') && (Linear(t) ==> Linear(t'))
  {
    SameRowsKeepWitnesses(t, t');
    SameFindingsKeepLinear(t, t');
    RunTableGrowthKeepsOrder(t, t');
  }

  lemma RunTableGrowthKeepsOrder(t: Tables, t': Tables)
    requires Ranges(t) && Intervals(t) && Predecessors(t) && Rows(t) && OneRowPerRun(t)
    requires t'.findings == t.findings && t'.observations == t.observations
    requires t'.nextFinding == t.nextFinding && t'.nextObservation == t.nextObservation && t.nextRun <= t'.nextRun
    requires forall r :: r in t.runs ==> r in t'.runs && t'.runs[r].snapshot == t.runs[r].snapshot
    ensures Ranges(t') && Intervals(t') && Predecessors(t') && Rows(t') && OneRowPerRun(t')
  {
  }

  lemma SameRowsKeepWitnesses(t: Tables, t': Tables)
    requires Witnessed(t) && Introduced(t) && t'.observations == t.observations
    requires t'.findings.Keys == t.findings.Keys
    requires forall id :: id in t.findings ==>
               && t'.findings[id].lastSeen == t.findings[id].lastSeen
                 && t'.findings[id].severity == t.findings[id].severity
               && t'.findings[id].firstSeen == t.findings[id].firstSeen
    ensures Witnessed(t') && Introduced(t')
  {
    forall id | id in t'.findings ensures Observed(t', id, t'.findings[id].lastSeen, t'.findings[id].severity) {
      assert Observed(t, id, t.findings[id].lastSeen, t.findings[id].severity);
    }
    forall id | id in t'.findings ensures exists severity :: Observed(t', id, t'.findings[id].firstSeen, severity) {
      var severity :| Observed(t, id, t.findings[id].firstSeen, severity);
      assert Observed(t', id, t'.findings[id].firstSeen, severity);
    }
  }

  /** Linearity depends only on which findings exist, their fingerprints and their predecessors. */
  lemma SameFindingsKeepLinear(t: Tables, t': Tables)
    requires t'.findings.Keys == t.findings.Keys
    requires forall id :: id in t.findings ==>
               && t'.findings[id].fingerprint == t.findings[id].fingerprint
               && t'.findings[id].predecessor == t.findings[id].predecessor
    ensures Linear(t) ==> Linear(t')
  {
    if Linear(t) {
      forall id | id in t'.findings
        ensures if t'.findings[id].predecessor.Some? then Precedes(t', t'.findings[id].predecessor.value, id)
                else IsFirst(t', id)
      {
        assert if t.findings[id].predecessor.Some? then Precedes(t, t.findings[id].predecessor.value, id)
               else IsFirst(t, id);
      }
    }
  }

  // ----- Observing one candidate -----

  /** In the middle of `run`: only the fingerprints in `done` carry its mark and nothing is resolved by it. */
  ghost predicate MidRun(t: Tables, run: nat, done: set<Fingerprint>) {
    && run in t.runs && run + 1 == t.nextRun
    && forall id :: id in t.findings ==>
         && (t.findings[id].lastSeen == run ==> t.findings[id].fingerprint in done)
         && (t.findings[id].resolved.Some? ==> t.findings[id].resolved.value < run)
  }

  lemma BelowRun(t: Tables, run: nat)
    requires Ranges(t) && Counters(t) && run + 1 == t.nextRun
    ensures forall id :: id in t.findings ==> t.findings[id].lastSeen <= run
  {
    forall id | id in t.findings ensures t.findings[id].lastSeen <= run {
      assert t.findings[id].lastSeen in t.runs;
    }
  }

  lemma RowKept(t: Tables, t': Tables, id: nat, run: nat, severity: string)
    requires Observed(t, id, run, severity)
    requires forall k :: k in t.observations && t.observations[k].run == run && t.observations[k].occurrence == id
               ==> k in t'.observations && t'.observations[k] == t.observations[k]
    ensures Observed(t', id, run, severity)
  {
    var k :| k in t.observations && t.observations[k] == Observation(run, id, severity);
    assert t'.observations[k] == Observation(run, id, severity);
  }

  lemma RecordKeepsWitnesses(t: Tables, t': Tables, run: nat, id: nat, severity: string)
    requires Witnessed(t) && Introduced(t) && t.nextObservation !in t.observations
    requires t'.observations == t.observations[t.nextObservation := Observation(run, id, severity)]
    requires t'.findings.Keys == t.findings.Keys + {id}
    requires forall i :: i in t.findings && i != id ==> t'.findings[i] == t.findings[i]
    requires t'.findings[id].lastSeen == run && t'.findings[id].severity == severity
    requires t'.findings[id].firstSeen == if id in t.findings then t.findings[id].firstSeen else run
    ensures Witnessed(t') && Introduced(t')
  {
    assert Observed(t', id, run, severity) by {
      assert t'.observations[t.nextObservation] == Observation(run, id, severity);
    }
    forall i | i in t'.findings ensures Observed(t', i, t'.findings[i].lastSeen, t'.findings[i].severity) {
      if i != id { RowKept(t, t', i, t.findings[i].lastSeen, t.findings[i].severity); }
    }
    forall i | i in t'.findings ensures exists s :: Observed(t', i, t'.findings[i].firstSeen, s) {
      if i in t.findings {
        var s :| Observed(t, i, t.findings[i].firstSeen, s);
        RowKept(t, t', i, t.findings[i].firstSeen, s);
      }
    }
  }

  lemma RecordKeepsRows(t: Tables, t': Tables, run: nat, id: nat, severity: string)
    requires Rows(t) && OneRowPerRun(t) && run in t'.runs && t'.runs == t.runs
    requires t'.observations == t.observations[t.nextObservation := Observation(run, id, severity)]
    requires t'.nextObservation == t.nextObservation + 1
    requires t'.findings.Keys == t.findings.Keys + {id}
    requires forall i :: i in t.findings && i != id ==> t'.findings[i] == t.findings[i]
    requires t'.findings[id].lastSeen == run && t'.findings[id].firstSeen <= run
    requires id in t.findings ==> t.findings[id].lastSeen < run && t'.findings[id].firstSeen == t.findings[id].firstSeen
    ensures Rows(t') && OneRowPerRun(t')
  {
    assert t.nextObservation !in t.observations;
    forall k | k in t.observations
      ensures !(t.observations[k].run == run && t.observations[k].occurrence == id)
    {
    }
  }

  lemma ExtendKeepsInv(t: Tables, run: nat, done: set<Fingerprint>, id: nat, severity: string)
    requires Inv(t) && MidRun(t, run, done)
    requires id in t.findings && IsOpen(t.findings[id]) && t.findings[id].fingerprint !in done
    ensures Inv(Extend(t, run, id, severity))
    ensures MidRun(Extend(t, run, id, severity), run, done + {t.findings[id].fingerprint})
    ensures Linear(t) ==> Linear(Extend(t, run, id, severity))
  {
    BelowRun(t, run);
    ExtendKeepsRows(t, run, id, severity);
    ExtendKeepsOrder(t, run, id, severity);
    ExtendKeepsMidRun(t, run, done, id, severity);
    ExtendKeepsLinear(t, run, id, severity);
  }

  lemma ExtendKeepsLinear(t: Tables, run: nat, id: nat, severity: string)
    requires id in t.findings && run in t.runs
    ensures Linear(t) ==> Linear(Extend(t, run, id, severity))
  {
    SameFindingsKeepLinear(t, Extend(t, run, id, severity));
  }

  lemma ExtendKeepsRows(t: Tables, run: nat, id: nat, severity: string)
    requires Witnessed(t) && Introduced(t) && Rows(t) && OneRowPerRun(t) && run in t.runs
    requires id in t.findings && t.findings[id].firstSeen <= t.findings[id].lastSeen < run
    ensures var t' := Extend(t, run, id, severity); Witnessed(t') && Introduced(t') && Rows(t') && OneRowPerRun(t')
  {
    var t' := Extend(t, run, id, severity);
    assert t.nextObservation !in t.observations;
    RecordKeepsWitnesses(t, t', run, id, severity);
    RecordKeepsRows(t, t', run, id, severity);
  }

  lemma ExtendKeepsMidRun(t: Tables, run: nat, done: set<Fingerprint>, id: nat, severity: string)
    requires MidRun(t, run, done) && id in t.findings && IsOpen(t.findings[id])
    ensures MidRun(Extend(t, run, id, severity), run, done + {t.findings[id].fingerprint})
  {
  }

  lemma ExtendKeepsOrder(t: Tables, run: nat, id: nat, severity: string)
    requires Ranges(t) && Intervals(t) && Predecessors(t) && run in t.runs
    requires id in t.findings && t.findings[id].resolved.None? && t.findings[id].lastSeen <= run
    ensures var t' := Extend(t, run, id, severity); Ranges(t') && Intervals(t') && Predecessors(t')
  {
    ExtendKeepsRanges(t, run, id, severity);
    hide Ranges, Intervals, Predecessors;
    LaterResolutionKeepsIntervals(t, Extend(t, run, id, severity));
    LaterResolutionKeepsPredecessors(t, Extend(t, run, id, severity));
  }

  lemma ExtendKeepsRanges(t: Tables, run: nat, id: nat, severity: string)
    requires Ranges(t) && run in t.runs && id in t.findings && t.findings[id].resolved.None?
             && t.findings[id].lastSeen <= run
    ensures Ranges(Extend(t, run, id, severity))
  {
  }

  /** Each finding keeps its fingerprint and start, and its resolution if it had one. */
  ghost predicate KeepsResolutions(t: Tables, t': Tables) {
    && t'.findings.Keys == t.findings.Keys
    && forall id :: id in t.findings ==>
         && t'.findings[id].fingerprint == t.findings[id].fingerprint
           && t'.findings[id].firstSeen == t.findings[id].firstSeen
         && t'.findings[id].predecessor == t.findings[id].predecessor
         && (t.findings[id].resolved.Some? ==> t'.findings[id].resolved == t.findings[id].resolved)
  }

  lemma LaterResolutionKeepsIntervals(t: Tables, t': Tables)
    requires Intervals(t) && KeepsResolutions(t, t')
    ensures Intervals(t')
  {
  }

  lemma LaterResolutionKeepsPredecessors(t: Tables, t': Tables)
    requires Predecessors(t) && KeepsResolutions(t, t')
    ensures Predecessors(t')
  {
    forall id | id in t'.findings && t'.findings[id].predecessor.Some?
      ensures t'.findings[id].predecessor.value < id
      ensures ResolvedAt(t', t'.findings[id].fingerprint, t'.findings[id].predecessor.value)
    {
      assert ResolvedAt(t, t.findings[id].fingerprint, t.findings[id].predecessor.value);
    }
  }

  lemma OpenKeepsOrder(t: Tables, run: nat, c: Candidate)
    requires Ranges(t) && Intervals(t) && Predecessors(t) && run in t.runs
    requires forall id :: !OpenAt(t, c.fingerprint, id)
    requires forall id :: id in t.findings && t.findings[id].resolved.Some? ==> t.findings[id].resolved.value < run
    ensures var t' := OpenNew(t, run, c, Predecessor(t, c.fingerprint)); Ranges(t') && Intervals(t') && Predecessors(t')
  {
    var t' := OpenNew(t, run, c, Predecessor(t, c.fingerprint));
    PredecessorIsLast(t, c.fingerprint);
    SameFingerprintIsResolved(t, c.fingerprint);
    assert Ranges(t');
    assert Intervals(t');
    forall id | id in t'.findings && t'.findings[id].predecessor.Some?
      ensures t'.findings[id].predecessor.value < id
      ensures ResolvedAt(t', t'.findings[id].fingerprint, t'.findings[id].predecessor.value)
    {
      var p := t'.findings[id].predecessor.value;
      assert ResolvedAt(t, t'.findings[id].fingerprint, p);
      assert t'.findings[p] == t.findings[p];
    }
  }

  lemma SameFingerprintIsResolved(t: Tables, fp: Fingerprint)
    requires Ranges(t) && forall id :: !OpenAt(t, fp, id)
    ensures forall i :: i in t.findings && t.findings[i].fingerprint == fp ==> ResolvedAt(t, fp, i)
  {
    forall i | i in t.findings && t.findings[i].fingerprint == fp ensures ResolvedAt(t, fp, i) {
      assert !OpenAt(t, fp, i);
    }
  }

  lemma OpenKeepsLinear(t: Tables, run: nat, c: Candidate)
    requires Ranges(t) && Intervals(t) && Linear(t) && run in t.runs
    requires forall id :: !OpenAt(t, c.fingerprint, id)
    ensures Linear(OpenNew(t, run, c, Predecessor(t, c.fingerprint)))
  {
    var p := Predecessor(t, c.fingerprint);
    var t' := OpenNew(t, run, c, p);
    PredecessorIsLast(t, c.fingerprint);
    SameFingerprintIsResolved(t, c.fingerprint);
    var n := t.nextFinding;
    assert if p.Some? then Precedes(t', p.value, n) else IsFirst(t', n);
    forall id | id in t.findings
      ensures if t'.findings[id].predecessor.Some? then Precedes(t', t'.findings[id].predecessor.value, id)
              else IsFirst(t', id)
    {
      assert id < n && t'.findings[id] == t.findings[id];
      assert if t.findings[id].predecessor.Some? then Precedes(t, t.findings[id].predecessor.value, id)
             else IsFirst(t, id);
    }
  }

  lemma OpenKeepsInv(t: Tables, run: nat, done: set<Fingerprint>, c: Candidate)
    requires Inv(t) && MidRun(t, run, done) && forall id :: !OpenAt(t, c.fingerprint, id)
    ensures Inv(OpenNew(t, run, c, Predecessor(t, c.fingerprint)))
    ensures MidRun(OpenNew(t, run, c, Predecessor(t, c.fingerprint)), run, done + {c.fingerprint})
    ensures Linear(t) ==> Linear(OpenNew(t, run, c, Predecessor(t, c.fingerprint)))
  {
    hide Ranges, Intervals, Predecessors, Witnessed, Introduced, Rows, OneRowPerRun, Counters, MidRun, Linear,
         OpenNew, Predecessor;
    OpenKeepsTables(t, run, done, c, Predecessor(t, c.fingerprint));
    MidRunResolvesNothing(t, run, done);
    OpenKeepsOrder(t, run, c);
    if Linear(t) { OpenKeepsLinear(t, run, c); }
  }

  lemma MidRunResolvesNothing(t: Tables, run: nat, done: set<Fingerprint>)
    requires MidRun(t, run, done)
    ensures run in t.runs && forall id :: id in t.findings && t.findings[id].resolved.Some?
                               ==> t.findings[id].resolved.value < run
  {
  }

  lemma OpenKeepsTables(t: Tables, run: nat, done: set<Fingerprint>, c: Candidate, predecessor: Option<nat>)
    requires Ranges(t) && Witnessed(t) && Introduced(t) && Rows(t) && OneRowPerRun(t) && Counters(t)
             && MidRun(t, run, done)
    ensures var t' := OpenNew(t, run, c, predecessor);
            Witnessed(t') && Introduced(t') && Rows(t') && OneRowPerRun(t') && Counters(t')
              && MidRun(t', run, done + {c.fingerprint})
  {
    hide Ranges, Witnessed, Introduced, Rows, OneRowPerRun, Counters, MidRun;
    MidRunResolvesNothing(t, run, done);
    var t' := OpenNew(t, run, c, predecessor);
    NextIdsAreFree(t);
    RecordKeepsWitnesses(t, t', run, t.nextFinding, c.severity);
    RecordKeepsRows(t, t', run, t.nextFinding, c.severity);
    OpenKeepsMidRun(t, run, done, c, predecessor);
  }

  lemma NextIdsAreFree(t: Tables)
    requires Ranges(t) && Rows(t)
    ensures t.nextFinding !in t.findings && t.nextObservation !in t.observations
  {
  }

  lemma OpenKeepsMidRun(t: Tables, run: nat, done: set<Fingerprint>, c: Candidate, predecessor: Option<nat>)
    requires MidRun(t, run, done) && Counters(t)
    ensures MidRun(OpenNew(t, run, c, predecessor), run, done + {c.fingerprint})
            && Counters(OpenNew(t, run, c, predecessor))
  {
  }

  lemma ObserveKeepsInv(t: Tables, run: nat, done: set<Fingerprint>, c: Candidate)
    requires Inv(t) && MidRun(t, run, done) && c.fingerprint !in done
    ensures Inv(Observe(t, run, c)) && MidRun(Observe(t, run, c), run, done + {c.fingerprint})
    ensures Linear(t) ==> Linear(Observe(t, run, c))
  {
    match OpenId(t, c.fingerprint)
    case Some(id) => ExtendKeepsInv(t, run, done, id, c.severity);
    case None => OpenKeepsInv(t, run, done, c);
  }

  lemma {:induction false} ObserveAllKeepsInv(t: Tables, run: nat, cs: seq<Candidate>)
    requires Inv(t) && MidRun(t, run, {}) && Distinct(cs)
    ensures Inv(ObserveAll(t, run, cs)) && MidRun(ObserveAll(t, run, cs), run, Fingerprints(cs))
    ensures Linear(t) ==> Linear(ObserveAll(t, run, cs))
  {
    if cs == [] {
      assert Fingerprints(cs) == {};
    } else {
      var rest, c := cs[..|cs| - 1], cs[|cs| - 1];
      assert cs == rest + [c];
      DistinctSnoc(rest, c);
      ObserveAllKeepsInv(t, run, rest);
      ObserveKeepsInv(ObserveAll(t, run, rest), run, Fingerprints(rest), c);
      FingerprintsOfSnoc(rest, c);
    }
  }

  // ----- Resolving, and a whole run -----

  lemma ResolveKeepsInv(t: Tables, run: nat, inp: Input)
    requires Inv(t) && MidRun(t, run, Fingerprints(inp.candidates))
    ensures Inv(ResolveVanished(t, run, inp))
    ensures Linear(t) ==> Linear(ResolveVanished(t, run, inp))
  {
    BelowRun(t, run);
    ResolveKeepsOrder(t, run, inp);
    ResolveKeepsRows(t, run, inp);
  }

  lemma ResolveKeepsRows(t: Tables, run: nat, inp: Input)
    requires Witnessed(t) && Introduced(t) && Rows(t) && OneRowPerRun(t) && run in t.runs
    ensures var t' := ResolveVanished(t, run, inp); Witnessed(t') && Introduced(t') && Rows(t') && OneRowPerRun(t')
    ensures Linear(t) ==> Linear(ResolveVanished(t, run, inp))
  {
    hide ResolveVanished, Witnessed, Introduced, Linear;
    ResolveChanges(t, run, inp);
    SameRowsKeepWitnesses(t, ResolveVanished(t, run, inp));
    SameFindingsKeepLinear(t, ResolveVanished(t, run, inp));
  }

  /** Resolving only closes open occurrences, with this run. */
  lemma ResolveChanges(t: Tables, run: nat, inp: Input)
    requires run in t.runs
    ensures var t' := ResolveVanished(t, run, inp);
            && t' == t.(findings := t'.findings) && KeepsResolutions(t, t')
            && forall id :: id in t.findings ==>
                 t'.findings[id] == t.findings[id]
                 || (t.findings[id].resolved.None?
                     && t'.findings[id] == Closed(t.findings[id], run, t.runs[run].snapshot))
  {
  }

  lemma ResolveKeepsOrder(t: Tables, run: nat, inp: Input)
    requires Ranges(t) && Intervals(t) && Predecessors(t) && MidRun(t, run, Fingerprints(inp.candidates))
    requires forall id :: id in t.findings ==> t.findings[id].lastSeen <= run
    ensures var t' := ResolveVanished(t, run, inp); Ranges(t') && Intervals(t') && Predecessors(t')
  {
    hide ResolveVanished, Intervals, Predecessors, KeepsResolutions;
    ResolveChanges(t, run, inp);
    LaterResolutionKeepsIntervals(t, ResolveVanished(t, run, inp));
    LaterResolutionKeepsPredecessors(t, ResolveVanished(t, run, inp));
    ClosingKeepsRanges(t, ResolveVanished(t, run, inp), run, inp);
  }

  lemma ClosingKeepsRanges(t: Tables, t': Tables, run: nat, inp: Input)
    requires Ranges(t) && MidRun(t, run, Fingerprints(inp.candidates)) && t' == ResolveVanished(t, run, inp)
    requires forall id :: id in t.findings ==> t.findings[id].lastSeen <= run
    ensures Ranges(t')
  {
    hide AbsenceIsMeaningful, Fingerprints;
  }

  lemma RunKeepsInv(t: Tables, run: nat, inp: Input)
    requires Inv(t) && MidRun(t, run, {})
    ensures Inv(RunOver(t, run, inp))
    ensures Linear(t) ==> Linear(RunOver(t, run, inp))
  {
    UniqueIsDistinct(inp.candidates);
    ObserveAllKeepsInv(t, run, Unique(inp.candidates));
    var observed := ObserveAll(t, run, Unique(inp.candidates));
    if EffectiveStatus(inp) == Completed { ResolveKeepsInv(observed, run, inp); }
    RelabelKeepsInv(Settle(observed, run, inp), run, EffectiveStatus(inp));
  }

  lemma RelabelKeepsInv(t: Tables, run: nat, status: RunStatus)
    requires Inv(t) && run in t.runs
    ensures Inv(Relabel(t, run, status))
    ensures Linear(t) ==> Linear(Relabel(t, run, status))
  {
    RunTableGrowthKeepsInv(t, Relabel(t, run, status));
  }

  lemma BeginRunKeepsInv(t: Tables, snapshot: nat, status: RunStatus)
    requires Inv(t) && snapshot in t.snapshots
    ensures Inv(BeginRun(t, snapshot, status)) && MidRun(BeginRun(t, snapshot, status), t.nextRun, {})
    ensures Linear(t) ==> Linear(BeginRun(t, snapshot, status))
  {
    RunTableGrowthKeepsInv(t, BeginRun(t, snapshot, status));
    forall id | id in t.findings ensures t.findings[id].lastSeen < t.nextRun {
      assert t.findings[id].lastSeen in t.runs;
    }
  }

  lemma EvaluateKeepsInv(t: Tables, snapshot: nat, inp: Input)
    requires Inv(t) && snapshot in t.snapshots
    ensures Inv(Evaluate(t, snapshot, inp))
    ensures Linear(t) ==> Linear(Evaluate(t, snapshot, inp))
  {
    BeginRunKeepsInv(t, snapshot, Partial);
    RunKeepsInv(BeginRun(t, snapshot, Partial), t.nextRun, inp);
  }

  // ----- Deletion -----

  /**
   What the schema's cascades leave: findings first and last seen elsewhere, runs of other snapshots, and the rows that
   join the two. A surviving finding changes in two columns only: its predecessor is cleared if that did not survive,
   and its resolving snapshot if that was deleted.
   */
  lemma DeletionExactly(t: Tables, s: nat)
    requires s in t.snapshots
    ensures var t' := DeleteSnapshot(t, s);
            && t'.snapshots == t.snapshots - {s}
            && (forall r :: r in t'.runs <==> r in t.runs && t.runs[r].snapshot != s)
            && (forall r :: r in t'.runs ==> t'.runs[r] == t.runs[r])
            && (forall id :: id in t'.findings <==>
                  id in t.findings && t.findings[id].firstSnapshot != s && t.findings[id].lastSnapshot != s)
            && (forall id :: id in t'.findings ==>
                  var f, f' := t.findings[id], t'.findings[id];
                  && f' == f.(predecessor := f'.predecessor, resolvedSnapshot := f'.resolvedSnapshot)
                  && f'.predecessor == (if f.predecessor.Some? && f.predecessor.value in t'.findings then f.predecessor
                                        else None)
                  && f'.resolvedSnapshot == (if f.resolvedSnapshot == Some(s) then None else f.resolvedSnapshot))
            && (forall k :: k in t'.observations <==>
                  && k in t.observations && t.observations[k].run in t.runs
                  && t.runs[t.observations[k].run].snapshot != s
                  && t.observations[k].occurrence in t'.findings)
            && (forall k :: k in t'.observations ==> t'.observations[k] == t.observations[k])
            && t'.nextFinding == t.nextFinding && t'.nextObservation == t.nextObservation
            && t'.nextRun == t.nextRun && t'.nextSnapshot == t.nextSnapshot
  {
  }

  lemma DeleteKeepsInv(t: Tables, s: nat)
    requires Inv(t)
    ensures Inv(DeleteSnapshot(t, s))
  {
    if s in t.snapshots {
      DeleteKeepsOrder(t, s);
      DeleteKeepsWitnesses(t, s);
      DeleteKeepsRows(t, s);
    }
  }

  lemma DeleteKeepsOrder(t: Tables, s: nat)
    requires Ranges(t) && Intervals(t) && Predecessors(t) && s in t.snapshots
    ensures var t' := DeleteSnapshot(t, s); Ranges(t') && Intervals(t') && Predecessors(t')
  {
    var t' := DeleteSnapshot(t, s);
    assert forall i :: i in t'.findings ==> t'.findings[i].resolved == t.findings[i].resolved
                                            && t'.findings[i].fingerprint == t.findings[i].fingerprint;
    assert Ranges(t');
    assert Intervals(t');
    forall id | id in t'.findings && t'.findings[id].predecessor.Some?
      ensures t'.findings[id].predecessor.value < id
      ensures ResolvedAt(t', t'.findings[id].fingerprint, t'.findings[id].predecessor.value)
    {
      assert t'.findings[id].predecessor == t.findings[id].predecessor;
    }
  }

  /** A finding survives only with its first and last snapshots, and the rows that witness it go only with those. */
  lemma DeleteKeepsWitnesses(t: Tables, s: nat)
    requires Ranges(t) && Witnessed(t) && Introduced(t) && s in t.snapshots
    ensures var t' := DeleteSnapshot(t, s); Witnessed(t') && Introduced(t')
  {
    var t' := DeleteSnapshot(t, s);
    forall id | id in t'.findings ensures Observed(t', id, t'.findings[id].lastSeen, t'.findings[id].severity) {
      RowKept(t, t', id, t.findings[id].lastSeen, t.findings[id].severity);
    }
    forall id | id in t'.findings ensures exists severity :: Observed(t', id, t'.findings[id].firstSeen, severity) {
      var severity :| Observed(t, id, t.findings[id].firstSeen, severity);
      RowKept(t, t', id, t.findings[id].firstSeen, severity);
    }
  }

  lemma DeleteKeepsRows(t: Tables, s: nat)
    requires Rows(t) && OneRowPerRun(t) && Counters(t) && s in t.snapshots
    ensures var t' := DeleteSnapshot(t, s); Rows(t') && OneRowPerRun(t') && Counters(t')
  {
  }

  // ----- Every execution -----

  lemma NewSnapshotKeepsInv(t: Tables)
    requires Inv(t)
    ensures Inv(AddSnapshot(t)) && (Linear(t) ==> Linear(AddSnapshot(t)))
  {
    RunTableGrowthKeepsInv(t, AddSnapshot(t));
  }

  lemma StepKeepsInv(t: Tables, step: Step)
    requires Inv(t)
    ensures Inv(Apply(t, step))
    ensures Linear(t) && !step.Delete? ==> Linear(Apply(t, step))
  {
    hide Inv, Linear, Evaluate, DeleteSnapshot, MidRun;
    match step
    case Import(inp) =>
      NewSnapshotKeepsInv(t);
      EvaluateKeepsInv(AddSnapshot(t), t.nextSnapshot, inp);
    case AbortedImport(_) =>
    case Reevaluate(s, inp) => if s in t.snapshots { EvaluateKeepsInv(t, s, inp); }
    case FailedEvaluation(s) => if s in t.snapshots { BeginRunKeepsInv(t, s, Failed); }
    case Delete(s) => DeleteKeepsInv(t, s);
  }

  lemma EmptyIsConsistent()
    ensures Inv(EMPTY) && Linear(EMPTY)
  {
    assert EMPTY.findings == map[] && EMPTY.observations == map[] && EMPTY.runs == map[] && EMPTY.snapshots == {};
  }

  /** Whatever the store does, occurrences of a fingerprint stay disjoint and ordered and at most one is open. */
  lemma {:induction false} ReachableStoresAreConsistent(t: Tables, steps: seq<Step>)
    requires Inv(t)
    ensures Inv(Exec(t, steps))
    ensures Linear(t) && NoDeletion(steps) ==> Linear(Exec(t, steps))
  {
    if steps == [] {
    } else {
      var rest := steps[..|steps| - 1];
      ReachableStoresAreConsistent(t, rest);
      StepKeepsInv(Exec(t, rest), steps[|steps| - 1]);
      NoDeletionPrefix(steps);
    }
  }

  lemma NoDeletionPrefix(steps: seq<Step>)
    requires steps != []
    ensures NoDeletion(steps) <==> NoDeletion(steps[..|steps| - 1]) && !steps[|steps| - 1].Delete?
  {
    var rest := steps[..|steps| - 1];
    assert steps == rest + [steps[|steps| - 1]];
    if NoDeletion(steps) {
      forall k | 0 <= k < |rest| ensures !rest[k].Delete? { assert rest[k] == steps[k]; }
    }
  }

  /** In every reachable store, two occurrences of a fingerprint are intervals one after the other. */
  lemma OccurrencesAreConsecutiveIntervals(steps: seq<Step>, i: nat, j: nat)
    requires var t := Exec(EMPTY, steps);
             i in t.findings && j in t.findings && i < j && t.findings[i].fingerprint == t.findings[j].fingerprint
    ensures var t := Exec(EMPTY, steps);
            && t.findings[i].resolved.Some?
            && t.findings[i].firstSeen
              <= t.findings[i].lastSeen < t.findings[i].resolved.value < t.findings[j].firstSeen
  {
    EmptyIsConsistent();
    ReachableStoresAreConsistent(EMPTY, steps);
  }

  /** In every reachable store, a predecessor is an earlier, resolved occurrence of the same fingerprint. */
  lemma PredecessorIsEarlierAndResolved(steps: seq<Step>, id: nat)
    requires id in Exec(EMPTY, steps).findings && Exec(EMPTY, steps).findings[id].predecessor.Some?
    ensures var t := Exec(EMPTY, steps);
            var p := t.findings[id].predecessor.value;
            p < id && p in t.findings && t.findings[p].fingerprint == t.findings[id].fingerprint
              && t.findings[p].resolved.Some?
  {
    EmptyIsConsistent();
    ReachableStoresAreConsistent(EMPTY, steps);
  }

  /** Without deletions the predecessor is exactly the occurrence before, and absent exactly for the first. */
  lemma PredecessorsAreExact(steps: seq<Step>, id: nat)
    requires NoDeletion(steps) && id in Exec(EMPTY, steps).findings
    ensures var t := Exec(EMPTY, steps);
            match t.findings[id].predecessor
            case Some(p) => Precedes(t, p, id)
            case None => IsFirst(t, id)
  {
    EmptyIsConsistent();
    ReachableStoresAreConsistent(EMPTY, steps);
    hide Inv;
  }
}
