/** The triage event log: its fold, its order, and the accepted-risk register. */
module Triage {
  import opened Prelude
  import opened Sorting

  /** Microseconds since the least instant, in UTC. */
  type Instant = nat

  datatype Action = Comment | Acknowledge | Reopen | AcceptRisk | ExpireRisk | RevokeRisk

  datatype Event = Event(
    id: nat, occurrence: nat, action: Action, actor: string, at: Instant,
    note: string, rationale: string, expires: Option<Instant>)

  datatype State = Open | Acknowledged | AcceptedRisk

  datatype Status = Status(
    state: State, actor: string, note: string, updated: Instant, expires: Option<Instant>, rationale: string)

  const UNTRIAGED := Status(Open, "", "", 0, None, "")

  predicate Opens(a: Action) {
    a.Reopen? || a.RevokeRisk? || a.ExpireRisk?
  }

  /** Instant first; at an equal instant reopening actions come last; the id breaks what is left. */
  predicate InOrder(a: Event, b: Event) {
    a.at < b.at
    || (a.at == b.at && ((!Opens(a.action) && Opens(b.action)) || (Opens(a.action) == Opens(b.action) && a.id <= b.id)))
  }

  lemma OrderIsTotal()
    ensures TotalPreorder(InOrder)
  {
  }

  /** Event ids are a primary key. */
  ghost predicate UniqueIds(events: seq<Event>) {
    forall x, y :: x in events && y in events && x.id == y.id ==> x == y
  }

  // ----- The fold -----

  function Advance(s: Status, ev: Event): Status {
    match ev.action
    case Comment => s.(actor := ev.actor, updated := ev.at, note := ev.note)
    case Acknowledge => Status(Acknowledged, ev.actor, ev.note, ev.at, None, "")
    case AcceptRisk => Status(AcceptedRisk, ev.actor, ev.note, ev.at, ev.expires, ev.rationale)
    case Reopen => Status(Open, ev.actor, ev.note, ev.at, None, "")
    case ExpireRisk => CloseAcceptance(s, ev)
    case RevokeRisk => CloseAcceptance(s, ev)
  }

  function CloseAcceptance(s: Status, ev: Event): Status {
    if s.state.AcceptedRisk? then Status(Open, ev.actor, ev.note, ev.at, None, "")
    else s.(actor := ev.actor, updated := ev.at, note := ev.note)
  }

  function FoldOver(sorted: seq<Event>): Status {
    if sorted == [] then UNTRIAGED else Advance(FoldOver(sorted[..|sorted| - 1]), sorted[|sorted| - 1])
  }

  function Fold(events: seq<Event>): Status {
    FoldOver(Sort(events, InOrder))
  }

  method FoldTriage(events: seq<Event>) returns (status: Status)
    ensures status == Fold(events)
  {
    var sorted := Sort(events, InOrder);
    var state, actor, note, updated, expires, rationale := Open, "", "", 0, None, "";
    for i := 0 to |sorted|
      invariant Status(state, actor, note, updated, expires, rationale) == FoldOver(sorted[..i])
    {
      var ev := sorted[i];
      assert sorted[..i + 1][..i] == sorted[..i];
      updated, actor, note := ev.at, ev.actor, ev.note;
      match ev.action {
        case Comment =>
        case Acknowledge => state, expires, rationale := Acknowledged, None, "";
        case AcceptRisk => state, expires, rationale := AcceptedRisk, ev.expires, ev.rationale;
        case Reopen => state, expires, rationale := Open, None, "";
        case ExpireRisk =>
          if state == AcceptedRisk { state, expires, rationale := Open, None, ""; }
        case RevokeRisk =>
          if state == AcceptedRisk { state, expires, rationale := Open, None, ""; }
      }
    }
    assert sorted[..|sorted|] == sorted;
    status := Status(state, actor, note, updated, expires, rationale);
  }

  /** The fold does not depend on the order in which rows are read. */
  lemma FoldIsOrderFree(a: seq<Event>, b: seq<Event>)
    requires multiset(a) == multiset(b) && UniqueIds(a)
    ensures Fold(a) == Fold(b)
  {
    OrderIsTotal();
    SortIsOrderFree(a, b, InOrder);
  }

  // ----- What the fold decides -----

  ghost predicate LastAcceptance(s: seq<Event>, p: int) {
    0 <= p < |s| && s[p].action.AcceptRisk? && forall q :: p < q < |s| ==> !s[q].action.AcceptRisk?
  }

  /** The acceptance at `p` is followed by nothing but comments. */
  ghost predicate Standing(s: seq<Event>, p: int) {
    0 <= p < |s| && s[p].action.AcceptRisk? && forall q :: p < q < |s| ==> s[q].action.Comment?
  }

  /** The fold reports an accepted risk exactly when an acceptance stands, and then reports that acceptance. */
  lemma {:induction false} FoldAccepts(s: seq<Event>)
    ensures FoldOver(s).state.AcceptedRisk? <==> exists p :: Standing(s, p)
    ensures forall p :: Standing(s, p)
              ==> FoldOver(s).expires == s[p].expires && FoldOver(s).rationale == s[p].rationale
  {
    if s != [] {
      var r, ev := s[..|s| - 1], s[|s| - 1];
      FoldAccepts(r);
      assert forall i :: 0 <= i < |r| ==> r[i] == s[i];
      if ev.action.Comment? {
        forall p ensures Standing(s, p) <==> Standing(r, p) {
        }
      } else if ev.action.AcceptRisk? {
        assert Standing(s, |r|);
      } else {
        assert s[|r|] == ev;
        assert forall p :: !Standing(s, p);
      }
    }
  }

  /**
   The acknowledgement at `p` is followed by comments, and by expiries and revocations that found nothing to close.
   */
  ghost predicate Acknowledging(s: seq<Event>, p: int) {
    && 0 <= p < |s| && s[p].action.Acknowledge?
    && forall q :: p < q < |s| ==> s[q].action.Comment? || s[q].action.ExpireRisk? || s[q].action.RevokeRisk?
  }

  /**
   The fold reports an acknowledgement exactly when one is followed by nothing that undoes it; so with neither that nor
   a standing acceptance the occurrence is open, as it is after a reopening or a revoked acceptance.
   */
  lemma {:induction false} FoldAcknowledges(s: seq<Event>)
    ensures FoldOver(s).state.Acknowledged? <==> exists p :: Acknowledging(s, p)
  {
    if s != [] {
      var r, ev := s[..|s| - 1], s[|s| - 1];
      FoldAcknowledges(r);
      FoldAccepts(r);
      AcknowledgingGrows(r, ev);
      assert s == r + [ev];
      if ev.action.ExpireRisk? || ev.action.RevokeRisk? {
        forall p, q ensures !(Acknowledging(r, p) && Standing(r, q)) { NotBoth(r, p, q); }
      }
    }
  }

  lemma AcknowledgingGrows(r: seq<Event>, ev: Event)
    ensures forall p :: p < |r| ==> (Acknowledging(r + [ev], p) <==>
              Acknowledging(r, p) && (ev.action.Comment? || ev.action.ExpireRisk? || ev.action.RevokeRisk?))
    ensures Acknowledging(r + [ev], |r|) <==> ev.action.Acknowledge?
    ensures forall p :: Acknowledging(r + [ev], p) ==> p <= |r|
    ensures forall p :: Acknowledging(r, p) ==> p < |r|
  {
    var s := r + [ev];
    assert forall i :: 0 <= i < |r| ==> s[i] == r[i];
    assert s[|r|] == ev;
  }

  lemma NotBoth(s: seq<Event>, p: int, q: int)
    ensures !(Acknowledging(s, p) && Standing(s, q))
  {
  }

  /** Actor, note and time are those of the last event; only an accepted risk has an end and a rationale. */
  lemma {:induction false} FoldReports(s: seq<Event>)
    ensures s == [] ==> FoldOver(s) == UNTRIAGED
    ensures s != [] ==>
              var last := s[|s| - 1];
              FoldOver(s).actor == last.actor && FoldOver(s).note == last.note && FoldOver(s).updated == last.at
    ensures !FoldOver(s).state.AcceptedRisk? ==> FoldOver(s).expires == None && FoldOver(s).rationale == ""
  {
    if s != [] { FoldReports(s[..|s| - 1]); }
  }

  /** The log in reading order: by instant, at an equal instant what opens comes last, then by id. */
  lemma LogOrder(events: seq<Event>)
    ensures forall a :: Opens(a) <==> a == Reopen || a == RevokeRisk || a == ExpireRisk
    ensures var s := Sort(events, InOrder);
            && multiset(s) == multiset(events)
            && forall i, j :: 0 <= i < j < |s| ==>
                 && s[i].at <= s[j].at
                 && (s[i].at == s[j].at && Opens(s[i].action) ==> Opens(s[j].action))
                 && (s[i].at == s[j].at && (Opens(s[i].action) <==> Opens(s[j].action)) ==> s[i].id <= s[j].id)
  {
    hide TotalPreorder, Sort;
    OrderIsTotal();
    SortSorts(events, InOrder);
    var le := InOrder;
    var s := Sort(events, InOrder);
    forall i, j | 0 <= i < j < |s| ensures InOrder(s[i], s[j]) { assert le(s[i], s[j]); }
  }

  /** At an equal instant reopening wins: with nothing later than an opening action, no acceptance survives. */
  lemma OpeningWinsTies(events: seq<Event>, opening: Event)
    requires opening in events && Opens(opening.action)
    requires forall e :: e in events ==> e.at <= opening.at
    ensures !Fold(events).state.AcceptedRisk?
  {
    hide TotalPreorder, InOrder, FoldOver;
    OrderIsTotal();
    SortSorts(events, InOrder);
    var s := Sort(events, InOrder);
    assert opening in multiset(s);
    var k :| 0 <= k < |s| && s[k] == opening;
    FoldAccepts(s);
    forall p: nat | p < |s| ensures !Standing(s, p) {
      assert s[p] in multiset(events);
      assert k < p ==> InOrder(s[k], s[p]);
      OpeningPrecedesNothing(s[p], opening);
    }
  }

  /** At an equal instant an acceptance is ordered before an opening action, never after it. */
  lemma OpeningPrecedesNothing(ev: Event, opening: Event)
    requires Opens(opening.action) && ev.at <= opening.at
    ensures ev.action.AcceptRisk? ==> !InOrder(opening, ev)
  {
  }

  // ----- The register -----

  /** What the register remembers of one occurrence while scanning its events in order. */
  datatype Scan = Scan(accepted: Option<Event>, revoked: Option<Event>, explicitlyExpired: bool)

  function Note(s: Scan, ev: Event): Scan {
    match ev.action
    case AcceptRisk => Scan(Some(ev), None, false)
    case RevokeRisk => if s.accepted.Some? then s.(revoked := Some(ev)) else s
    case Reopen => if s.accepted.Some? then s.(revoked := Some(ev)) else s
    case ExpireRisk => if s.accepted.Some? then s.(explicitlyExpired := true) else s
    case Comment => s
    case Acknowledge => s
  }

  function ScanOver(sorted: seq<Event>): Scan {
    if sorted == [] then Scan(None, None, false) else Note(ScanOver(sorted[..|sorted| - 1]), sorted[|sorted| - 1])
  }

  function UpTo(events: seq<Event>, t: Instant): seq<Event> {
    if events == [] then []
    else UpTo(events[..|events| - 1], t) + if events[|events| - 1].at <= t then [events[|events| - 1]] else []
  }

  /** Visible as of `t` are exactly the events stamped no later, each as often and in the order as recorded. */
  lemma {:induction false} UpToExactly(events: seq<Event>, t: Instant) returns (at: seq<nat>)
    ensures PicksAt(events, UpTo(events, t), at)
    ensures forall i: nat :: i in at <==> i < |events| && events[i].at <= t
  {
    if events == [] {
      at := [];
    } else {
      var rest, last := events[..|events| - 1], events[|events| - 1];
      assert events == rest + [last];
      at := UpToExactly(rest, t);
      PicksMore(rest, UpTo(rest, t), at, last);
      if last.at <= t { at := at + [|rest|]; }
    }
  }

  lemma {:induction false} UpToHolds(events: seq<Event>, t: Instant, e: Event)
    ensures e in UpTo(events, t) <==> e in events && e.at <= t
  {
    if events != [] {
      UpToHolds(events[..|events| - 1], t, e);
      assert e in events <==> e in events[..|events| - 1] || e == events[|events| - 1];
    }
  }

  /** Reading the log in two parts. */
  lemma {:induction false} UpToOfConcat(a: seq<Event>, b: seq<Event>, t: Instant)
    ensures UpTo(a + b, t) == UpTo(a, t) + UpTo(b, t)
  {
    if b == [] {
      assert a + b == a;
    } else {
      assert (a + b)[..|a + b| - 1] == a + b[..|b| - 1];
      UpToOfConcat(a, b[..|b| - 1], t);
    }
  }

  datatype RiskAcceptance = RiskAcceptance(
    occurrence: nat, actor: string, rationale: string, acceptedAt: Instant, expires: Option<Instant>,
    isExpired: bool, revokedAt: Option<Instant>, revokedBy: string)

  /** One row of the register, from the scan of an occurrence's events. */
  function RegisterRow(occurrence: nat, s: Scan, asOf: Instant): Option<RiskAcceptance> {
    if s.accepted.None? then None
    else
      var a := s.accepted.value;
      Some(RiskAcceptance(
        occurrence, a.actor, a.rationale, a.at, a.expires,
        s.explicitlyExpired || (a.expires.Some? && a.expires.value <= asOf),
        if s.revoked.Some? then Some(s.revoked.value.at) else None,
        if s.revoked.Some? then s.revoked.value.actor else ""))
  }

  ghost predicate Shown(row: Option<RiskAcceptance>) {
    row.Some? && row.value.revokedAt.None? && !row.value.isExpired
  }

  ghost predicate Accepted(s: Status, asOf: Instant) {
    s.state.AcceptedRisk? && (s.expires.None? || s.expires.value > asOf)
  }

  /** The last acceptance, at `p`, has not run out and nothing after it closes it. */
  ghost predicate Live(s: seq<Event>, p: int, asOf: Instant) {
    && LastAcceptance(s, p)
    && (s[p].expires.None? || s[p].expires.value > asOf)
    && forall q :: p < q < |s| ==> !Opens(s[q].action)
  }

  /** The live acceptance is followed by an acknowledgement. */
  ghost predicate Masked(s: seq<Event>, asOf: Instant) {
    exists p :: Live(s, p, asOf) && exists q :: p < q < |s| && s[q].action.Acknowledge?
  }

  /** The last event after `p` that reopens the occurrence or revokes the acceptance. */
  ghost predicate LastClosing(s: seq<Event>, p: int, q: int) {
    0 <= p < q < |s| && Closes(s[q].action) && forall r :: q < r < |s| ==> !Closes(s[r].action)
  }

  predicate Closes(a: Action) {
    a.Reopen? || a.RevokeRisk?
  }

  lemma {:induction false} ScanFinds(s: seq<Event>)
    ensures ScanOver(s).accepted.None? <==> forall p :: !LastAcceptance(s, p)
    ensures forall p :: LastAcceptance(s, p) ==>
              && ScanOver(s).accepted == Some(s[p])
              && (ScanOver(s).revoked.None?
                  <==> forall q :: p < q < |s| ==> !s[q].action.Reopen? && !s[q].action.RevokeRisk?)
              && (ScanOver(s).explicitlyExpired <==> exists q :: p < q < |s| && s[q].action.ExpireRisk?)
  {
    if s != [] {
      var r, ev := s[..|s| - 1], s[|s| - 1];
      ScanFinds(r);
      assert forall i :: 0 <= i < |r| ==> r[i] == s[i];
      if ev.action.AcceptRisk? {
        assert LastAcceptance(s, |r|);
      } else {
        forall p ensures LastAcceptance(s, p) <==> LastAcceptance(r, p) {
        }
      }
    }
  }

  /**
   What the register says of an occurrence: its last acceptance, expired iff an expiry follows it or its end has come,
   and revoked by the last event after it that reopens or revokes.
   */
  lemma RowMeans(s: seq<Event>, occurrence: nat, asOf: Instant, p: int)
    requires LastAcceptance(s, p)
    ensures var row := RegisterRow(occurrence, ScanOver(s), asOf);
            && row.Some? && row.value.occurrence == occurrence
            && row.value.actor == s[p].actor && row.value.rationale == s[p].rationale
            && row.value.acceptedAt == s[p].at && row.value.expires == s[p].expires
            && (row.value.isExpired
                <==> (exists q :: p < q < |s| && s[q].action.ExpireRisk?)
                     || (s[p].expires.Some? && s[p].expires.value <= asOf))
            && (row.value.revokedAt.None? <==> forall q :: p < q < |s| ==> !Closes(s[q].action))
            && (row.value.revokedAt.None? ==> row.value.revokedBy == "")
            && (forall q :: LastClosing(s, p, q) ==>
                  row.value.revokedAt == Some(s[q].at) && row.value.revokedBy == s[q].actor)
  {
    hide ScanOver;
    ScanFinds(s);
    forall q | LastClosing(s, p, q) ensures ScanOver(s).revoked == Some(s[q]) { ScanRevokes(s, p, q); }
  }

  lemma LastIsUnique(s: seq<Event>, p: int, q: int)
    requires LastAcceptance(s, p) && LastAcceptance(s, q)
    ensures p == q
  {
  }

  lemma {:induction false} ScanRevokes(s: seq<Event>, p: int, q: int)
    requires LastAcceptance(s, p) && LastClosing(s, p, q)
    ensures ScanOver(s).revoked == Some(s[q])
  {
    var r, n := s[..|s| - 1], |s| - 1;
    assert forall i :: 0 <= i < n ==> r[i] == s[i];
    ScanFinds(r);
    if q < n {
      assert LastAcceptance(r, p) && LastClosing(r, p, q);
      ScanRevokes(r, p, q);
    } else {
      assert LastAcceptance(r, p);
    }
  }

  lemma ShownMeans(s: seq<Event>, occurrence: nat, asOf: Instant)
    ensures Shown(RegisterRow(occurrence, ScanOver(s), asOf)) <==> exists p :: Live(s, p, asOf)
  {
    hide ScanOver;
    ScanFinds(s);
    if p :| LastAcceptance(s, p) {
      assert Shown(RegisterRow(occurrence, ScanOver(s), asOf)) <==> Live(s, p, asOf);
      forall q | Live(s, q, asOf) ensures q == p { LastIsUnique(s, p, q); }
    }
  }

  lemma AcceptedMeans(s: seq<Event>, asOf: Instant)
    ensures Accepted(FoldOver(s), asOf) <==> exists p :: Standing(s, p) && Live(s, p, asOf)
  {
    FoldAccepts(s);
    forall p | Standing(s, p) ensures LastAcceptance(s, p) && forall q :: p < q < |s| ==> !Opens(s[q].action) {
    }
  }

  lemma LiveIsUnique(s: seq<Event>, asOf: Instant, p: int, q: int)
    requires Live(s, p, asOf) && Live(s, q, asOf)
    ensures p == q
  {
    LastIsUnique(s, p, q);
  }

  /** A live acceptance stands unless it is masked. */
  lemma LiveStands(s: seq<Event>, asOf: Instant, p: int)
    requires Live(s, p, asOf)
    ensures Standing(s, p) <==> !Masked(s, asOf)
  {
    forall p' | Live(s, p', asOf) ensures p' == p { LastIsUnique(s, p, p'); }
    if !Standing(s, p) {
      var q :| p < q < |s| && !s[q].action.Comment?;
      assert s[q].action.Acknowledge?;
    }
  }

  lemma RowReportsFold(s: seq<Event>, occurrence: nat, asOf: Instant, p: int)
    requires Standing(s, p) && Live(s, p, asOf)
    ensures var row, status := RegisterRow(occurrence, ScanOver(s), asOf), FoldOver(s);
            row.Some? && row.value.rationale == status.rationale && row.value.expires == status.expires
  {
    FoldAccepts(s);
    ScanFinds(s);
  }

  /**
   The two readers of the log agree on whether an occurrence carries a live acceptance, unless an
   acknowledgement masks it: then, and only then, the register shows what the fold no longer reports.
   */
  lemma RegisterAgreesWithFold(events: seq<Event>, occurrence: nat, asOf: Instant)
    ensures var s := Sort(UpTo(events, asOf), InOrder);
            var row, status := RegisterRow(occurrence, ScanOver(s), asOf), Fold(UpTo(events, asOf));
            && ((Shown(row) <==> Accepted(status, asOf)) <==> !Masked(s, asOf))
            && (Accepted(status, asOf) ==>
                  Shown(row) && row.value.rationale == status.rationale && row.value.expires == status.expires)
  {
    hide Sort, UpTo, ScanOver, FoldOver, Live, Standing, Accepted, Shown, RegisterRow;
    var s := Sort(UpTo(events, asOf), InOrder);
    ShownMeans(s, occurrence, asOf);
    AcceptedMeans(s, asOf);
    forall p | Live(s, p, asOf)
      ensures (Standing(s, p) <==> !Masked(s, asOf)) && (Accepted(FoldOver(s), asOf) ==> Standing(s, p))
    {
      LiveStands(s, asOf, p);
      forall p' | Standing(s, p') && Live(s, p', asOf) ensures p' == p { LiveIsUnique(s, asOf, p, p'); }
    }
    if Accepted(FoldOver(s), asOf) {
      var p :| Standing(s, p) && Live(s, p, asOf);
      RowReportsFold(s, occurrence, asOf, p);
    }
  }

  /** An acceptance without an end date, acknowledged afterwards. */
  function AcknowledgedAcceptance(): seq<Event> {
    [Event(0, 7, AcceptRisk, "ann", 1, "", "legacy", None), Event(1, 7, Acknowledge, "bob", 2, "", "", None)]
  }

  /** The register still shows it, and the fold reports a mere acknowledgement. */
  lemma AcknowledgementMasks()
    ensures var s := Sort(UpTo(AcknowledgedAcceptance(), 2), InOrder);
            && Masked(s, 2) && Shown(RegisterRow(7, ScanOver(s), 2))
            && Fold(UpTo(AcknowledgedAcceptance(), 2)).state == Acknowledged
  {
    hide UpTo, Sort, FoldOver, ScanOver, RegisterRow, Shown, Masked;
    TwoEventsSorted(AcknowledgedAcceptance(), 2);
    AcknowledgedIsMasked();
  }

  lemma AcknowledgedIsMasked()
    ensures Masked(AcknowledgedAcceptance(), 2) && Shown(RegisterRow(7, ScanOver(AcknowledgedAcceptance()), 2))
    ensures FoldOver(AcknowledgedAcceptance()).state == Acknowledged
  {
    hide ScanOver;
    var events := AcknowledgedAcceptance();
    assert Live(events, 0, 2) && 0 < 1 < |events| && events[1].action.Acknowledge?;
    ShownMeans(events, 7, 2);
  }

  lemma TwoEventsSorted(events: seq<Event>, asOf: Instant)
    requires |events| == 2 && InOrder(events[0], events[1]) && events[0].at <= asOf && events[1].at <= asOf
    ensures UpTo(events, asOf) == events && Sort(events, InOrder) == events
  {
    hide *;
    TwoVisible(events[0], events[1], asOf);
    TwoSorted(events[0], events[1]);
    assert events == [events[0], events[1]];
  }

  lemma TwoVisible(x: Event, y: Event, asOf: Instant)
    requires x.at <= asOf && y.at <= asOf
    ensures UpTo([x, y], asOf) == [x, y]
  {
    assert [x, y][..1] == [x] && [x][..0] == [] && UpTo([], asOf) == [];
    assert UpTo([x], asOf) == [x];
  }

  lemma TwoSorted(x: Event, y: Event)
    requires InOrder(x, y)
    ensures Sort([x, y], InOrder) == [x, y]
  {
    hide InOrder;
    SortOfOne(x);
    assert [x, y][..1] == [x];
    assert Insert([x], y, InOrder) == [x] + [y];
  }

  lemma SortOfOne(e: Event)
    ensures Sort([e], InOrder) == [e]
  {
    hide InOrder;
    assert [e][..0] == [];
    assert Sort([], InOrder) == [];
  }
}
