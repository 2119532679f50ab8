/**
 The finding lifecycle: the three tables, one evaluation run over them, snapshot deletion, and the
 steps a store can take.  Table rows are keyed by their AUTOINCREMENT ids, which are never reused.
 */
module Lifecycle {
  import opened Prelude

  type Fingerprint = string

  datatype RunStatus = Completed | Failed | Partial

  datatype Candidate = Candidate(fingerprint: Fingerprint, severity: string, gpoId: string, stable: bool)

  datatype Finding = Finding(
    fingerprint: Fingerprint, severity: string, gpoId: string, stable: bool,
    firstSeen: nat, lastSeen: nat, resolved: Option<nat>,
    firstSnapshot: nat, lastSnapshot: nat, resolvedSnapshot: Option<nat>,
    predecessor: Option<nat>)

  datatype Observation = Observation(run: nat, occurrence: nat, severity: string)

  datatype Run = Run(snapshot: nat, status: RunStatus)

  datatype Tables = Tables(
    findings: map<nat, Finding>, observations: map<nat, Observation>, runs: map<nat, Run>,
    snapshots: set<nat>,
    nextFinding: nat, nextObservation: nat, nextRun: nat, nextSnapshot: nat)

  /** What one evaluation run is given besides its snapshot. */
  datatype Input = Input(
    candidates: seq<Candidate>, collected: Option<set<string>>, coverageComplete: bool, status: RunStatus)

  datatype LifecycleResult = LifecycleResult(
    newCount: nat, persisting: nat, resolved: nat, regressed: nat, indeterminate: nat, duplicates: nat)

  const EMPTY := Tables(map[], map[], map[], {}, 0, 0, 0, 0)

  // ----- Deduplication and coverage -----

  function Fingerprints(cs: seq<Candidate>): set<Fingerprint> {
    set c | c in cs :: c.fingerprint
  }

  /** The first candidate of each fingerprint, in order. */
  function Unique(cs: seq<Candidate>): seq<Candidate> {
    if cs == [] then []
    else
      var kept, c := Unique(cs[..|cs| - 1]), cs[|cs| - 1];
      if c.fingerprint in Fingerprints(kept) then kept else kept + [c]
  }

  ghost predicate Distinct(cs: seq<Candidate>) {
    forall i, j :: 0 <= i < j < |cs| ==> cs[i].fingerprint != cs[j].fingerprint
  }

  lemma {:induction false} UniqueIsDistinct(cs: seq<Candidate>)
    ensures Distinct(Unique(cs)) && Fingerprints(Unique(cs)) == Fingerprints(cs)
    ensures |Unique(cs)| <= |cs|
    ensures |Unique(cs)| == |cs| <==> Distinct(cs)
  {
    hide Fingerprints, Distinct;
    if cs == [] {
      NoCandidates();
    } else {
      var rest, c := cs[..|cs| - 1], cs[|cs| - 1];
      UniqueIsDistinct(rest);
      FingerprintsOfSnoc(rest, c);
      FingerprintsOfSnoc(Unique(rest), c);
      DistinctSnoc(Unique(rest), c);
      DistinctSnoc(rest, c);
      assert cs == rest + [c];
    }
  }

  /** No earlier candidate has the fingerprint of the `i`-th. */
  ghost predicate FirstAt(cs: seq<Candidate>, i: nat) {
    i < |cs| && forall j :: 0 <= j < i ==> cs[j].fingerprint != cs[i].fingerprint
  }

  /** Kept are the first candidates of their fingerprints, all of them, in order. */
  ghost predicate KeepsFirsts(cs: seq<Candidate>, kept: seq<Candidate>, at: seq<nat>) {
    PicksAt(cs, kept, at) && forall i: nat :: i in at <==> FirstAt(cs, i)
  }

  lemma {:induction false} UniqueKeepsFirsts(cs: seq<Candidate>) returns (at: seq<nat>)
    ensures KeepsFirsts(cs, Unique(cs), at)
  {
    if cs == [] {
      at := [];
    } else {
      var rest, c := cs[..|cs| - 1], cs[|cs| - 1];
      assert cs == rest + [c];
      at := UniqueKeepsFirsts(rest);
      PicksMore(rest, Unique(rest), at, c);
      UniqueIsDistinct(rest);
      FirstsGrow(rest, c);
      if c.fingerprint !in Fingerprints(Unique(rest)) { at := at + [|rest|]; }
    }
  }

  lemma FirstsGrow(rest: seq<Candidate>, c: Candidate)
    ensures forall i: nat :: FirstAt(rest + [c], i)
              <==> FirstAt(rest, i) || (i == |rest| && c.fingerprint !in Fingerprints(rest))
  {
    var all := rest + [c];
    assert forall j :: 0 <= j < |rest| ==> all[j] == rest[j] && rest[j] in rest;
    assert all[|rest|] == c;
    if c.fingerprint in Fingerprints(rest) {
      var j :| 0 <= j < |rest| && rest[j].fingerprint == c.fingerprint;
      assert all[j].fingerprint == c.fingerprint;
    }
  }

  lemma NoCandidates()
    ensures Fingerprints([]) == {} && Distinct([])
  {
  }

  lemma FingerprintsOfSnoc(cs: seq<Candidate>, c: Candidate)
    ensures Fingerprints(cs + [c]) == Fingerprints(cs) + {c.fingerprint}
  {
    assert forall d :: d in cs + [c] <==> d in cs || d == c;
  }

  lemma DistinctSnoc(cs: seq<Candidate>, c: Candidate)
    ensures Distinct(cs + [c]) <==> Distinct(cs) && c.fingerprint !in Fingerprints(cs)
  {
    var all := cs + [c];
    assert forall i :: 0 <= i < |cs| ==> all[i] == cs[i] && cs[i] in cs;
    assert all[|cs|] == c;
    forall i | 0 <= i < |cs| ensures Distinct(all) ==> cs[i].fingerprint != c.fingerprint { assert all[i] == cs[i]; }
    if Distinct(all) {
      forall i, j | 0 <= i < j < |cs| ensures cs[i].fingerprint != cs[j].fingerprint {
        assert all[i].fingerprint != all[j].fingerprint;
      }
    }
  }

  predicate AbsenceIsMeaningful(gpoId: string, collected: Option<set<string>>, coverageComplete: bool) {
    if coverageComplete then true
    else if gpoId != "" && collected.Some? && gpoId in collected.value then true
    else false
  }

  /** A duplicate fingerprint degrades the run to partial. */
  function EffectiveStatus(inp: Input): RunStatus {
    if |Unique(inp.candidates)| < |inp.candidates| then Partial else inp.status
  }

  // ----- One evaluation run -----

  predicate IsOpen(f: Finding) {
    f.resolved.None? && f.resolvedSnapshot.None?
  }

  ghost predicate OpenAt(t: Tables, fp: Fingerprint, id: nat) {
    id in t.findings && t.findings[id].fingerprint == fp && IsOpen(t.findings[id])
  }

  ghost predicate ResolvedAt(t: Tables, fp: Fingerprint, id: nat) {
    id in t.findings && t.findings[id].fingerprint == fp && t.findings[id].resolved.Some?
  }

  /** The resolved occurrence of `fp` with the latest resolving run. */
  ghost predicate LatestResolved(t: Tables, fp: Fingerprint, id: nat) {
    && ResolvedAt(t, fp, id)
    && forall j :: ResolvedAt(t, fp, j) ==> t.findings[j].resolved.value <= t.findings[id].resolved.value
  }

  ghost function OpenId(t: Tables, fp: Fingerprint): (r: Option<nat>)
    ensures if r.Some? then OpenAt(t, fp, r.value) else forall id: nat :: !OpenAt(t, fp, id)
  {
    if id :| OpenAt(t, fp, id) then Some(id) else None
  }

  ghost function Predecessor(t: Tables, fp: Fingerprint): Option<nat> {
    if id :| LatestResolved(t, fp, id) then Some(id) else None
  }

  function Touched(f: Finding, run: nat, snapshot: nat, severity: string): Finding {
    f.(lastSeen := run, lastSnapshot := snapshot, severity := severity)
  }

  function Opened(c: Candidate, run: nat, snapshot: nat, predecessor: Option<nat>): Finding {
    Finding(c.fingerprint, c.severity, c.gpoId, c.stable, run, run, None, snapshot, snapshot, None, predecessor)
  }

  function Closed(f: Finding, run: nat, snapshot: nat): Finding {
    f.(resolved := Some(run), resolvedSnapshot := Some(snapshot))
  }

  /** Appends one observation row. */
  function Record(t: Tables, run: nat, id: nat, severity: string): Tables {
    t.(observations := t.observations[t.nextObservation := Observation(run, id, severity)],
       nextObservation := t.nextObservation + 1)
  }

  function Extend(t: Tables, run: nat, id: nat, severity: string): Tables
    requires run in t.runs && id in t.findings
  {
    Record(t.(findings := t.findings[id := Touched(t.findings[id], run, t.runs[run].snapshot, severity)]), run, id,
           severity)
  }

  function OpenNew(t: Tables, run: nat, c: Candidate, predecessor: Option<nat>): Tables
    requires run in t.runs
  {
    var id := t.nextFinding;
    Record(t.(findings := t.findings[id := Opened(c, run, t.runs[run].snapshot, predecessor)], nextFinding := id + 1),
           run, id, c.severity)
  }

  /** Extends the open occurrence of a candidate's fingerprint, or opens a new one. */
  ghost function Observe(t: Tables, run: nat, c: Candidate): Tables
    requires run in t.runs
  {
    match OpenId(t, c.fingerprint)
    case Some(id) => Extend(t, run, id, c.severity)
    case None => OpenNew(t, run, c, Predecessor(t, c.fingerprint))
  }

  ghost function ObserveAll(t: Tables, run: nat, cs: seq<Candidate>): (r: Tables)
    requires run in t.runs
    ensures r.runs == t.runs && r.snapshots == t.snapshots
    ensures r.nextRun == t.nextRun && r.nextSnapshot == t.nextSnapshot
  {
    if cs == [] then t else Observe(ObserveAll(t, run, cs[..|cs| - 1]), run, cs[|cs| - 1])
  }

  ghost predicate Vanished(f: Finding, inp: Input) {
    && IsOpen(f) && f.fingerprint !in Fingerprints(inp.candidates)
    && AbsenceIsMeaningful(f.gpoId, inp.collected, inp.coverageComplete)
  }

  ghost function ResolveVanished(t: Tables, run: nat, inp: Input): Tables
    requires run in t.runs
  {
    t.(findings := map id | id in t.findings ::
         if Vanished(t.findings[id], inp) then Closed(t.findings[id], run, t.runs[run].snapshot) else t.findings[id])
  }

  function AddSnapshot(t: Tables): Tables {
    t.(snapshots := t.snapshots + {t.nextSnapshot}, nextSnapshot := t.nextSnapshot + 1)
  }

  function BeginRun(t: Tables, snapshot: nat, status: RunStatus): Tables {
    t.(runs := t.runs[t.nextRun := Run(snapshot, status)], nextRun := t.nextRun + 1)
  }

  function Relabel(t: Tables, run: nat, status: RunStatus): Tables
    requires run in t.runs
  {
    t.(runs := t.runs[run := Run(t.runs[run].snapshot, status)])
  }

  /** Resolves what vanished, if the run is allowed to. */
  ghost function Settle(t: Tables, run: nat, inp: Input): (r: Tables)
    requires run in t.runs
    ensures r.runs == t.runs
  {
    if EffectiveStatus(inp) == Completed then ResolveVanished(t, run, inp) else t
  }

  /** The engine: observe every distinct candidate, then settle.  Duplicates relabel the run partial. */
  ghost function RunEngine(t: Tables, run: nat, inp: Input): (r: Tables)
    requires run in t.runs
    ensures run in r.runs
  {
    var settled := Settle(ObserveAll(t, run, Unique(inp.candidates)), run, inp);
    if |Unique(inp.candidates)| < |inp.candidates| then Relabel(settled, run, Partial) else settled
  }

  /** A whole run: the engine, and then the final status of the run. */
  ghost function RunOver(t: Tables, run: nat, inp: Input): Tables
    requires run in t.runs
  {
    Relabel(Settle(ObserveAll(t, run, Unique(inp.candidates)), run, inp), run, EffectiveStatus(inp))
  }

  lemma EngineThenLabel(t: Tables, run: nat, inp: Input)
    requires run in t.runs
    ensures Relabel(RunEngine(t, run, inp), run, EffectiveStatus(inp)) == RunOver(t, run, inp)
  {
  }

  ghost function Evaluate(t: Tables, snapshot: nat, inp: Input): Tables {
    RunOver(BeginRun(t, snapshot, Partial), t.nextRun, inp)
  }

  // ----- Snapshot deletion: the foreign-key actions of the three tables -----

  function SurvivingFindings(t: Tables, s: nat): set<nat> {
    set id | id in t.findings && t.findings[id].firstSnapshot != s && t.findings[id].lastSnapshot != s
  }

  function DeleteSnapshot(t: Tables, s: nat): Tables {
    if s !in t.snapshots then t
    else
      var kept := SurvivingFindings(t, s);
      var runs := map r | r in t.runs && t.runs[r].snapshot != s :: t.runs[r];
      t.(snapshots := t.snapshots - {s},
         runs := runs,
         findings := map id | id in kept ::
           var f := t.findings[id];
           f.(resolvedSnapshot := if f.resolvedSnapshot == Some(s) then None else f.resolvedSnapshot,
              predecessor := if f.predecessor.Some? && f.predecessor.value !in kept then None else f.predecessor),
         observations := map k | k in t.observations && t.observations[k].run in runs
                                 && t.observations[k].occurrence in kept :: t.observations[k])
  }

  // ----- Steps and executions -----

  datatype Step =
    | Import(inp: Input)                      // a committed import with its evaluation
    | AbortedImport(inp: Input)               // an import that raised and was rolled back
    | Reevaluate(snapshot: nat, inp: Input)   // a run over a snapshot already stored
    | FailedEvaluation(snapshot: nat)         // a run whose engine raised: only its failed row remains
    | Delete(snapshot: nat)

  ghost function Apply(t: Tables, step: Step): Tables {
    match step
    case Import(inp) => Evaluate(AddSnapshot(t), t.nextSnapshot, inp)
    case AbortedImport(_) => t
    case Reevaluate(s, inp) => if s in t.snapshots then Evaluate(t, s, inp) else t
    case FailedEvaluation(s) => if s in t.snapshots then BeginRun(t, s, Failed) else t
    case Delete(s) => DeleteSnapshot(t, s)
  }

  ghost function Exec(t: Tables, steps: seq<Step>): Tables {
    if steps == [] then t else Apply(Exec(t, steps[..|steps| - 1]), steps[|steps| - 1])
  }

  ghost predicate NoDeletion(steps: seq<Step>) {
    forall k :: 0 <= k < |steps| ==> !steps[k].Delete?
  }

  /** The step runs the engine to the end on `t`, under run id `t.nextRun`, with input `step.inp`. */
  ghost predicate Evaluates(t: Tables, step: Step) {
    step.Import? || (step.Reevaluate? && step.snapshot in t.snapshots)
  }
}
