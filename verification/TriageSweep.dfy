/** Reading the log by occurrence, and the expiry sweep that writes back into it. */
module TriageSweep {
  import opened Prelude
  import opened Sorting
  import opened Triage

  // ----- Events by occurrence -----

  function EventsOf(events: seq<Event>, occurrence: nat): seq<Event> {
    if events == [] then []
    else
      var last := events[|events| - 1];
      EventsOf(events[..|events| - 1], occurrence) + if last.occurrence == occurrence then [last] else []
  }

  lemma {:induction false} EventsOfAre(events: seq<Event>, occurrence: nat)
    ensures forall e :: e in EventsOf(events, occurrence) <==> e in events && e.occurrence == occurrence
  {
    if events != [] {
      var rest, last := events[..|events| - 1], events[|events| - 1];
      assert events == rest + [last];
      EventsOfAre(rest, occurrence);
    }
  }

  lemma {:induction false} EventsOfCount(events: seq<Event>, occurrence: nat, e: Event)
    ensures multiset(EventsOf(events, occurrence))[e] == if e.occurrence == occurrence then multiset(events)[e] else 0
  {
    if events != [] {
      var rest, last := events[..|events| - 1], events[|events| - 1];
      assert events == rest + [last];
      EventsOfCount(rest, occurrence, e);
    }
  }

  function Occurrences(events: seq<Event>): set<nat> {
    set e | e in events :: e.occurrence
  }

  /** One scan of the log, grouped in a dictionary. */
  method GroupByOccurrence(rows: seq<Event>) returns (groups: map<nat, seq<Event>>)
    ensures groups.Keys == Occurrences(rows)
    ensures forall o :: o in groups ==> groups[o] == EventsOf(rows, o)
  {
    groups := map[];
    assert rows[..0] == [];
    for i := 0 to |rows|
      invariant groups.Keys == Occurrences(rows[..i])
      invariant forall o :: o in groups ==> groups[o] == EventsOf(rows[..i], o)
    {
      var ev := rows[i];
      assert rows[..i + 1] == rows[..i] + [ev] && rows[..i + 1][..i] == rows[..i];
      assert Occurrences(rows[..i + 1]) == Occurrences(rows[..i]) + {ev.occurrence};
      OccurrencesAre(rows[..i], ev.occurrence);
      groups := groups[ev.occurrence := (if ev.occurrence in groups then groups[ev.occurrence] else []) + [ev]];
    }
    assert rows[..|rows|] == rows;
  }

  method LoadTriageStatusMap(rows: seq<Event>) returns (statuses: map<nat, Status>)
    ensures statuses.Keys == Occurrences(rows)
    ensures forall o :: o in statuses ==> statuses[o] == Fold(EventsOf(rows, o))
  {
    var groups := GroupByOccurrence(rows);
    statuses := map[];
    var todo := groups.Keys;
    while todo != {}
      invariant todo <= groups.Keys && statuses.Keys == groups.Keys - todo
      invariant forall o :: o in statuses ==> statuses[o] == Fold(EventsOf(rows, o))
    {
      var o :| o in todo;
      var status := FoldTriage(groups[o]);
      statuses := statuses[o := status];
      todo := todo - {o};
    }
  }

  /** The batched map, read in any row order, gives each occurrence the fold of its own events. */
  lemma BatchedIsPerOccurrence(log: seq<Event>, rows: seq<Event>, occurrence: nat)
    requires multiset(rows) == multiset(log) && UniqueIds(log)
    ensures Occurrences(rows) == Occurrences(log)
    ensures Fold(EventsOf(rows, occurrence)) == Fold(EventsOf(log, occurrence))
  {
    assert forall e :: e in rows <==> e in multiset(rows);
    assert forall e :: e in log <==> e in multiset(log);
    var a, b := EventsOf(rows, occurrence), EventsOf(log, occurrence);
    forall e ensures multiset(a)[e] == multiset(b)[e] {
      EventsOfCount(rows, occurrence, e);
      EventsOfCount(log, occurrence, e);
    }
    assert multiset(a) == multiset(b);
    EventsOfAre(rows, occurrence);
    FoldIsOrderFree(a, b);
  }

  // ----- The register -----

  /** Of each occurrence the row that the scan of its visible events gives, if it gives one. */
  ghost predicate IsRegister(rows: seq<Event>, asOf: Instant, register: map<nat, RiskAcceptance>) {
    forall o: nat :: RegisterRow(o, ScanOver(Sort(EventsOf(UpTo(rows, asOf), o), InOrder)), asOf)
              == if o in register then Some(register[o]) else None
  }

  /** An event stamped after the instant, wherever it stands in the log, is invisible to the register. */
  lemma LaterEventsAreInvisible(before: seq<Event>, e: Event, after: seq<Event>, asOf: Instant,
                                register: map<nat, RiskAcceptance>)
    requires e.at > asOf
    ensures IsRegister(before + [e] + after, asOf, register) <==> IsRegister(before + after, asOf, register)
  {
    UpToOfConcat(before + [e], after, asOf);
    UpToOfConcat(before, [e], asOf);
    UpToOfConcat(before, after, asOf);
    assert [e][..0] == [] && UpTo([e], asOf) == UpTo([], asOf) + [];
    hide UpTo;
    assert UpTo(before + [e] + after, asOf) == UpTo(before + after, asOf);
  }

  /** An occurrence gets a row exactly if some visible event accepts its risk. */
  lemma RegisteredMeans(rows: seq<Event>, asOf: Instant, o: nat)
    ensures ScanOver(Sort(EventsOf(UpTo(rows, asOf), o), InOrder)).accepted.Some?
            <==> exists e :: e in rows && e.occurrence == o && e.action.AcceptRisk? && e.at <= asOf
  {
    hide Sort, InOrder, ScanOver, EventsOf, UpTo, TotalPreorder, SortedBy;
    var visible := EventsOf(UpTo(rows, asOf), o);
    var s := Sort(visible, InOrder);
    OrderIsTotal();
    SortSorts(visible, InOrder);
    AcceptedMeansSome(s);
    EventsOfAre(UpTo(rows, asOf), o);
    forall e ensures e in s <==> e in rows && e.occurrence == o && e.at <= asOf {
      assert e in s <==> e in multiset(s);
      assert e in visible <==> e in multiset(visible);
      UpToHolds(rows, asOf, e);
    }
  }

  lemma {:induction false} AcceptedMeansSome(s: seq<Event>)
    ensures ScanOver(s).accepted.Some? <==> exists e :: e in s && e.action.AcceptRisk?
  {
    if s != [] {
      var rest, last := s[..|s| - 1], s[|s| - 1];
      AcceptedMeansSome(rest);
      assert forall e :: e in s <==> e in rest || e == last;
    }
  }

  method AcceptedRiskRegister(rows: seq<Event>, asOf: Instant) returns (register: map<nat, RiskAcceptance>)
    ensures IsRegister(rows, asOf, register)
    ensures forall o :: o in register <==>
              exists e :: e in rows && e.occurrence == o && e.action.AcceptRisk? && e.at <= asOf
  {
    hide Sort, InOrder, ScanOver, EventsOf, UpTo, RegisterRow;
    var visible := UpToRows(rows, asOf);
    var groups := GroupByOccurrence(visible);
    register := map[];
    var todo := groups.Keys;
    while todo != {}
      invariant todo <= groups.Keys
      invariant forall o :: o in register <==>
                  o in groups.Keys - todo && ScanOver(Sort(EventsOf(visible, o), InOrder)).accepted.Some?
      invariant forall o :: o in register ==>
                  RegisterRow(o, ScanOver(Sort(EventsOf(visible, o), InOrder)), asOf) == Some(register[o])
    {
      var o :| o in todo;
      var accepted, revoked, expired := ScanEvents(Sort(groups[o], InOrder));
      var row := RegisterRow(o, Scan(accepted, revoked, expired), asOf);
      RowIfAccepted(o, Scan(accepted, revoked, expired), asOf);
      if row.Some? { register := register[o := row.value]; }
      todo := todo - {o};
    }
    forall o: nat ensures RegisterRow(o, ScanOver(Sort(EventsOf(visible, o), InOrder)), asOf)
                          == if o in register then Some(register[o]) else None
    {
      OccurrencesAre(visible, o);
      RowIfAccepted(o, ScanOver(Sort(EventsOf(visible, o), InOrder)), asOf);
      if o !in groups { NothingScanned(o, asOf); }
    }
    forall o ensures o in register
      <==> exists e :: e in rows && e.occurrence == o && e.action.AcceptRisk? && e.at <= asOf
    {
      RegisteredMeans(rows, asOf, o);
      OccurrencesAre(visible, o);
      if o !in groups { NothingScanned(o, asOf); }
    }
  }

  lemma RowIfAccepted(o: nat, s: Scan, asOf: Instant)
    ensures RegisterRow(o, s, asOf).Some? <==> s.accepted.Some?
  {
  }

  lemma NothingScanned(o: nat, asOf: Instant)
    ensures Sort([], InOrder) == [] && RegisterRow(o, ScanOver([]), asOf) == None && ScanOver([]).accepted == None
  {
  }

  method UpToRows(rows: seq<Event>, t: Instant) returns (visible: seq<Event>)
    ensures visible == UpTo(rows, t)
  {
    visible := [];
    for i := 0 to |rows|
      invariant visible == UpTo(rows[..i], t)
    {
      assert rows[..i + 1][..i] == rows[..i];
      if rows[i].at <= t { visible := visible + [rows[i]]; }
    }
    assert rows[..|rows|] == rows;
  }

  method ScanEvents(sorted: seq<Event>)
    returns (accepted: Option<Event>, revoked: Option<Event>, explicitlyExpired: bool)
    ensures Scan(accepted, revoked, explicitlyExpired) == ScanOver(sorted)
  {
    accepted, revoked, explicitlyExpired := None, None, false;
    for i := 0 to |sorted|
      invariant Scan(accepted, revoked, explicitlyExpired) == ScanOver(sorted[..i])
    {
      var ev := sorted[i];
      assert sorted[..i + 1][..i] == sorted[..i];
      if ev.action == AcceptRisk {
        accepted, revoked, explicitlyExpired := Some(ev), None, false;
      } else if ev.action == RevokeRisk {
        if accepted.Some? { revoked := Some(ev); }
      } else if ev.action == Reopen {
        if accepted.Some? { revoked := Some(ev); }
      } else if ev.action == ExpireRisk && accepted.Some? {
        explicitlyExpired := true;
      }
    }
    assert sorted[..|sorted|] == sorted;
  }

  // ----- The sweep -----

  ghost predicate IsDue(s: Status, now: Instant) {
    s.state.AcceptedRisk? && s.expires.Some? && s.expires.value <= now
  }

  ghost function Due(log: seq<Event>, now: Instant): set<nat> {
    set o | o in Occurrences(log) && IsDue(Fold(EventsOf(log, o)), now)
  }

  /** Due is an occurrence whose standing acceptance has an end that is not after the sweep's instant. */
  lemma DueExactly(log: seq<Event>, now: Instant, o: nat)
    ensures o in Due(log, now) <==>
              exists p :: && Standing(Sort(EventsOf(log, o), InOrder), p)
                          && var end := Sort(EventsOf(log, o), InOrder)[p].expires; end.Some? && end.value <= now
  {
    hide Sort, FoldOver, EventsOf, InOrder;
    DueMeans(log, now, o);
    OccurrencesAre(log, o);
    FoldAccepts(Sort(EventsOf(log, o), InOrder));
    if EventsOf(log, o) == [] { NothingScanned(o, now); }
  }

  ghost predicate IsExpiry(e: Event, id: nat, occurrence: nat, at: Instant) {
    e.id == id && e.occurrence == occurrence && e.action.ExpireRisk? && e.actor == "system" && e.at == at
    && e.rationale == "" && e.expires.None?
  }

  /** `log'` is `log` and one expiry for each of `due`, stamped by the clock at each append. */
  ghost predicate Expired(log: seq<Event>, nextId: nat, clock: nat -> Instant, due: seq<nat>, log': seq<Event>) {
    && |log'| == |log| + |due| && log'[..|log|] == log
    && (forall i, j :: 0 <= i < j < |due| ==> due[i] != due[j])
    && forall i :: 0 <= i < |due| ==> IsExpiry(log'[|log| + i], nextId + i, due[i], clock(i))
  }

  lemma NothingExpired(log: seq<Event>, nextId: nat, clock: nat -> Instant)
    ensures Expired(log, nextId, clock, [], log)
  {
  }

  lemma StampedExpiry(e: Event, occurrence: nat)
    requires e == Event(e.id, occurrence, ExpireRisk, "system", e.at, e.note, "", None)
    ensures IsExpiry(e, e.id, occurrence, e.at)
  {
  }

  lemma ExpiredOneMore(log: seq<Event>, nextId: nat, clock: nat -> Instant, due: seq<nat>, log': seq<Event>, o: nat,
                       e: Event)
    requires Expired(log, nextId, clock, due, log') && o !in due && IsExpiry(e, nextId + |due|, o, clock(|due|))
    ensures Expired(log, nextId, clock, due + [o], log' + [e])
  {
    var more, all := due + [o], log' + [e];
    assert all[..|log|] == log'[..|log|];
    forall i | 0 <= i < |more| ensures IsExpiry(all[|log| + i], nextId + i, more[i], clock(i)) {
      if i < |due| { assert all[|log| + i] == log'[|log| + i] && more[i] == due[i]; }
    }
    forall i, j | 0 <= i < j < |more| ensures more[i] != more[j] {
      assert more[i] in due;
    }
  }

  /** The sweep expired exactly the due occurrences. */
  ghost predicate Swept(log: seq<Event>, nextId: nat, now: Instant, clock: nat -> Instant, due: seq<nat>,
                        log': seq<Event>) {
    Expired(log, nextId, clock, due, log') && forall o :: o in due <==> o in Due(log, now)
  }

  /** An occurrence's events after the sweep: its old ones, and its expiry if it was due. */
  lemma {:induction false} EventsOfSwept(log: seq<Event>, tail: seq<Event>, occurrence: nat)
    ensures EventsOf(log + tail, occurrence) == EventsOf(log, occurrence) + EventsOf(tail, occurrence)
  {
    if tail == [] {
      assert log + tail == log;
    } else {
      var rest, last := tail[..|tail| - 1], tail[|tail| - 1];
      assert (log + tail)[..|log + tail| - 1] == log + rest;
      EventsOfSwept(log, rest, occurrence);
    }
  }

  lemma {:induction false} EventsOfNone(tail: seq<Event>, occurrence: nat)
    requires forall i :: 0 <= i < |tail| ==> tail[i].occurrence != occurrence
    ensures EventsOf(tail, occurrence) == []
  {
    if tail != [] { EventsOfNone(tail[..|tail| - 1], occurrence); }
  }

  lemma EventsOfOne(tail: seq<Event>, occurrence: nat, k: nat)
    requires k < |tail| && tail[k].occurrence == occurrence
    requires forall i :: 0 <= i < |tail| && i != k ==> tail[i].occurrence != occurrence
    ensures EventsOf(tail, occurrence) == [tail[k]]
  {
    var a, b := tail[..k + 1], tail[k + 1..];
    assert tail == a + b && a[..k] == tail[..k];
    EventsOfSwept(a, b, occurrence);
    EventsOfNone(b, occurrence);
    EventsOfNone(tail[..k], occurrence);
  }

  lemma SweepAddsOne(log: seq<Event>, nextId: nat, now: Instant, clock: nat -> Instant, due: seq<nat>, log': seq<Event>,
                     o: nat)
    requires Swept(log, nextId, now, clock, due, log')
    ensures o !in Due(log, now) ==> EventsOf(log', o) == EventsOf(log, o)
    ensures forall i :: 0 <= i < |due| && due[i] == o ==> EventsOf(log', o) == EventsOf(log, o) + [log'[|log| + i]]
  {
    hide Due, IsExpiry, Swept, EventsOf;
    var tail := SweptTail(log, nextId, now, clock, due, log');
    EventsOfSwept(log, tail, o);
    if o !in Due(log, now) { EventsOfNone(tail, o); }
    forall i | 0 <= i < |due| && due[i] == o
      ensures EventsOf(log', o) == EventsOf(log, o) + [log'[|log| + i]]
    {
      EventsOfOne(tail, o, i);
    }
  }

  lemma SweptTail(log: seq<Event>, nextId: nat, now: Instant, clock: nat -> Instant, due: seq<nat>, log': seq<Event>)
    returns (tail: seq<Event>)
    requires Swept(log, nextId, now, clock, due, log')
    ensures log' == log + tail && |tail| == |due|
    ensures forall i :: 0 <= i < |tail|
              ==> tail[i] == log'[|log| + i] && tail[i].occurrence == due[i] && due[i] in Due(log, now)
    ensures forall i, j :: 0 <= i < |due| && 0 <= j < |due| && i != j ==> due[i] != due[j]
  {
    hide Due;
    tail := log'[|log|..];
    forall i | 0 <= i < |tail|
      ensures tail[i] == log'[|log| + i] && tail[i].occurrence == due[i] && due[i] in Due(log, now) {
      assert IsExpiry(log'[|log| + i], nextId + i, due[i], clock(i));
      assert due[i] in due;
    }
  }

  lemma ExpiryNames(e: Event, id: nat, occurrence: nat, at: Instant)
    requires IsExpiry(e, id, occurrence, at)
    ensures e.occurrence == occurrence && e.id == id && e.at == at && e.action.ExpireRisk?
  {
  }

  /** Inserting into a sorted log splits it at the last event not after the new one. */
  lemma {:induction false} InsertSplits(s: seq<Event>, x: Event) returns (k: nat)
    requires SortedBy(s, InOrder)
    ensures k <= |s| && Insert(s, x, InOrder) == s[..k] + [x] + s[k..]
    ensures forall i :: 0 <= i < k ==> InOrder(s[i], x)
    ensures forall i :: k <= i < |s| ==> !InOrder(s[i], x)
  {
    if s == [] || InOrder(s[|s| - 1], x) {
      k := |s|;
      assert s[..k] + [x] + s[k..] == s + [x];
      if s != [] {
        forall i | 0 <= i < k ensures InOrder(s[i], x) {
          assert i == |s| - 1 || InOrder(s[i], s[|s| - 1]);
        }
      }
    } else {
      var r := s[..|s| - 1];
      k := InsertSplits(r, x);
      assert r[..k] == s[..k];
      assert s[..k] + [x] + s[k..] == (r[..k] + [x] + r[k..]) + [s[|s| - 1]];
    }
  }

  /**
   Whether an expiry takes effect: the acceptance that stands at `p` is withdrawn exactly when the expiry is
   not stamped before it.
   */
  lemma ExpiryTakesEffect(events: seq<Event>, expiry: Event, p: int)
    requires expiry.action.ExpireRisk? && Standing(Sort(events, InOrder), p)
    requires forall e :: e in events ==> e.id < expiry.id
    ensures var s := Sort(events, InOrder);
            if s[p].at <= expiry.at then Fold(events + [expiry]).state.Open?
            else Fold(events + [expiry]).state.AcceptedRisk? && Fold(events + [expiry]).expires == s[p].expires
  {
    hide TotalPreorder, Sort, FoldOver, Insert, SortedBy;
    OrderIsTotal();
    SortSorts(events, InOrder);
    var s := Sort(events, InOrder);
    SortOfSnoc(events, expiry);
    var k := InsertSplits(s, expiry);
    var s' := s[..k] + [expiry] + s[k..];
    assert s[p] in multiset(events);
    assert InOrder(s[p], expiry) <==> s[p].at <= expiry.at;
    if s[p].at <= expiry.at {
      assert p < k;
      ClosedByExpiry(s, p, k, expiry);
    } else {
      assert k <= p;
      assert Standing(s', p + 1);
      FoldAccepts(s');
    }
  }

  lemma SortOfSnoc(events: seq<Event>, e: Event)
    ensures Sort(events + [e], InOrder) == Insert(Sort(events, InOrder), e, InOrder)
  {
    assert (events + [e])[..|events|] == events;
  }

  /** An expiry between a standing acceptance and its comments reopens the occurrence. */
  lemma ClosedByExpiry(s: seq<Event>, p: int, k: int, expiry: Event)
    requires Standing(s, p) && p < k <= |s| && expiry.action.ExpireRisk?
    ensures FoldOver(s[..k] + [expiry] + s[k..]).state.Open?
  {
    var head := s[..k];
    assert Standing(head, p);
    FoldAccepts(head);
    assert (head + [expiry])[..|head|] == head;
    CommentsKeepState(head + [expiry], s[k..]);
  }

  lemma {:induction false} CommentsKeepState(s: seq<Event>, comments: seq<Event>)
    requires forall i :: 0 <= i < |comments| ==> comments[i].action.Comment?
    ensures FoldOver(s + comments).state == FoldOver(s).state
  {
    if comments == [] {
      assert s + comments == s;
    } else {
      var rest := comments[..|comments| - 1];
      assert (s + comments)[..|s + comments| - 1] == s + rest;
      CommentsKeepState(s, rest);
    }
  }

  /**
   The sweep, occurrence by occurrence: those not due keep their fold; one that was due is open afterwards
   exactly when the clock that stamped its expiry is not behind the acceptance that stood.
   */
  lemma SweepExactly(log: seq<Event>, nextId: nat, now: Instant, clock: nat -> Instant, due: seq<nat>, log': seq<Event>,
                     o: nat)
    requires Swept(log, nextId, now, clock, due, log') && forall e :: e in log ==> e.id < nextId
    ensures o !in Due(log, now) ==> Fold(EventsOf(log', o)) == Fold(EventsOf(log, o))
    ensures forall i, p :: 0 <= i < |due| && due[i] == o && Standing(Sort(EventsOf(log, o), InOrder), p) ==>
              if Sort(EventsOf(log, o), InOrder)[p].at <= clock(i) then Fold(EventsOf(log', o)).state.Open?
              else IsDue(Fold(EventsOf(log', o)), now)
  {
    hide Due, Sort, FoldOver, EventsOf;
    SweepAddsOne(log, nextId, now, clock, due, log', o);
    EventsOfAre(log, o);
    forall i, p | 0 <= i < |due| && due[i] == o && Standing(Sort(EventsOf(log, o), InOrder), p)
      ensures if Sort(EventsOf(log, o), InOrder)[p].at <= clock(i) then Fold(EventsOf(log', o)).state.Open?
              else IsDue(Fold(EventsOf(log', o)), now)
    {
      var e := log'[|log| + i];
      ExpiryNames(e, nextId + i, due[i], clock(i));
      ExpiryTakesEffect(EventsOf(log, o), e, p);
      DueMeans(log, now, o);
      FoldAccepts(Sort(EventsOf(log, o), InOrder));
    }
  }

  function StoppedClock(i: nat): Instant {
    5
  }

  /** An acceptance that ran out at 3, stamped by a clock that was ahead of the sweep's. */
  function LateAcceptance(): Event {
    Event(0, 7, AcceptRisk, "ann", 10, "", "legacy", Some(3))
  }

  function LateExpiry(): Event {
    Event(1, 7, ExpireRisk, "system", 5, "Risk acceptance expired", "", None)
  }

  /** The sweep writes an expiry that sorts before the acceptance, so the occurrence is due again. */
  lemma LateAcceptanceStaysDue()
    ensures var log, log' := [LateAcceptance()], [LateAcceptance(), LateExpiry()];
            Swept(log, 1, 5, StoppedClock, [7], log') && Due(log', 5) == {7}
  {
    var log, log' := [LateAcceptance()], [LateAcceptance(), LateExpiry()];
    assert log[..0] == [] && EventsOf([], 7) == [] && Sort([], InOrder) == [];
    assert EventsOf(log, 7) == log && Sort(log, InOrder) == log
      && FoldOver(log) == Advance(UNTRIAGED, LateAcceptance());
    assert Standing(log, 0);
    assert Occurrences(log) == {7} == Occurrences(log');
    assert log'[..1] == log;
    SweepExactly(log, 1, 5, StoppedClock, [7], log', 7);
    assert [7][0] == 7;
    DueMeans(log', 5, 7);
  }

  lemma DueMeans(log: seq<Event>, now: Instant, o: nat)
    ensures o in Due(log, now) <==> o in Occurrences(log) && IsDue(Fold(EventsOf(log, o)), now)
  {
  }

  /** With a clock that is not behind any stored event nothing stays due, so a second sweep finds nothing. */
  lemma SweepSettles(log: seq<Event>, nextId: nat, now: Instant, clock: nat -> Instant, due: seq<nat>, log': seq<Event>)
    requires Swept(log, nextId, now, clock, due, log') && forall e :: e in log ==> e.id < nextId
    requires forall e, i :: e in log && 0 <= i < |due| ==> e.at <= clock(i)
    ensures Due(log', now) == {}
  {
    hide Due, Sort, FoldOver, EventsOf;
    forall o ensures o !in Due(log', now) {
      DueMeans(log', now, o);
      DueMeans(log, now, o);
      SweepExactly(log, nextId, now, clock, due, log', o);
      if o in Due(log, now) {
        var i :| 0 <= i < |due| && due[i] == o;
        StandingExists(log, o);
      } else if o in Due(log', now) {
        SweepAddsOne(log, nextId, now, clock, due, log', o);
        OccurrencesAre(log', o);
        OccurrencesAre(log, o);
      }
    }
  }

  lemma OccurrencesAre(log: seq<Event>, o: nat)
    ensures o in Occurrences(log) <==> EventsOf(log, o) != []
  {
    EventsOfAre(log, o);
    if EventsOf(log, o) != [] { assert EventsOf(log, o)[0] in EventsOf(log, o); }
  }

  lemma StandingExists(log: seq<Event>, o: nat)
    requires Fold(EventsOf(log, o)).state.AcceptedRisk?
    ensures exists p :: Standing(Sort(EventsOf(log, o), InOrder), p) && Sort(EventsOf(log, o), InOrder)[p] in log
  {
    hide TotalPreorder, Sort, FoldOver, EventsOf;
    var s := Sort(EventsOf(log, o), InOrder);
    FoldAccepts(s);
    var p :| Standing(s, p);
    OrderIsTotal();
    SortSorts(EventsOf(log, o), InOrder);
    assert s[p] in multiset(EventsOf(log, o));
    EventsOfAre(log, o);
  }
}
