/** The append-only triage log as a store: guarded appends and the expiry sweep. */
module TriageLog {
  import opened Prelude
  import opened Sorting
  import opened Text
  import opened Triage
  import opened TriageSweep

  datatype TriageError = BlankRationale | SnapshotScoped | NoSuchOccurrence

  function Truncate(s: string, n: nat): string {
    if |s| <= n then s else s[..n]
  }

  /** A decision that outlives the evaluation it was made in. */
  predicate CarriesAcrossSnapshots(a: Action) {
    a.Acknowledge? || a.AcceptRisk?
  }

  class Log {
    var events: seq<Event>
    var nextId: nat
    var stable: map<nat, bool> // whether each stored occurrence has a stable subject

    ghost predicate Valid()
      reads this
    {
      && UniqueIds(events)
      && (forall e :: e in events ==> e.id < nextId && e.occurrence in stable)
    }

    constructor (stable: map<nat, bool>)
      ensures Valid() && events == [] && this.stable == stable
    {
      events, nextId := [], 0;
      this.stable := stable;
    }

    method Insert(occurrence: nat, action: Action, actor: string, at: Instant, note: string, rationale: string,
                  expires: Option<Instant>)
      requires Valid() && occurrence in stable
      modifies this`events, this`nextId
      ensures Valid() && nextId == old(nextId) + 1
      ensures events == old(events) + [Event(old(nextId), occurrence, action, actor, at, note, rationale, expires)]
    {
      events := events + [Event(nextId, occurrence, action, actor, at, note, rationale, expires)];
      nextId := nextId + 1;
    }

    /** Refusals leave the log alone; an accepted event is appended with the next id. */
    method AppendTriageEvent(occurrence: nat, action: Action, actor: string, now: Instant,
                             note: string, rationale: string, expires: Option<Instant>)
      returns (id: Result<nat, TriageError>)
      requires Valid()
      modifies this`events, this`nextId
      ensures Valid()
      ensures id == if action.AcceptRisk? && Strip(rationale) == "" then Err(BlankRationale)
                    else if CarriesAcrossSnapshots(action) && occurrence in stable && !stable[occurrence] then
                         Err(SnapshotScoped)
                    else if occurrence !in stable then Err(NoSuchOccurrence)
                    else Ok(old(nextId))
      ensures events == old(events) +
                if id.Err? then []
                else [Event(old(nextId), occurrence, action, Truncate(if actor == "" then "unknown" else actor, 256),
                            now,
                            Truncate(note, 2000), Truncate(rationale, 2000), expires)]
    {
      if action.AcceptRisk? && Strip(rationale) == "" {
        return Err(BlankRationale);
      }
      if CarriesAcrossSnapshots(action) && occurrence in stable && !stable[occurrence] {
        return Err(SnapshotScoped);
      }
      if occurrence !in stable {
        return Err(NoSuchOccurrence); // the foreign key refuses the row
      }
      id := Ok(nextId);
      Insert(occurrence, action, Truncate(if actor == "" then "unknown" else actor, 256), now,
             Truncate(note, 2000), Truncate(rationale, 2000), expires);
    }

    /** Appends an expiry to every occurrence whose accepted risk has run out; the clock is read at each append. */
    method ExpireRiskAcceptances(now: Instant, clock: nat -> Instant) returns (expired: nat, ghost due: seq<nat>)
      requires Valid()
      modifies this`events, this`nextId
      ensures Valid()
      ensures Swept(old(events), old(nextId), now, clock, due, events) && expired == |due|
    {
      hide Expired, UniqueIds, IsExpiry, EventsOf, Sort, FoldOver;
      ghost var log := events;
      NothingExpired(log, nextId, clock);
      var statuses := LoadTriageStatusMap(events);
      expired, due := 0, [];
      var todo := statuses.Keys;
      while todo != {}
        invariant Valid() && todo <= statuses.Keys && forall o :: o in statuses ==> o in stable
        invariant expired == |due| && nextId == old(nextId) + |due|
        invariant Expired(log, old(nextId), clock, due, events)
        invariant forall o :: o in due <==> o in statuses.Keys - todo && IsDue(statuses[o], now)
      {
        var o :| o in todo;
        todo := todo - {o};
        var s := statuses[o];
        if s.state == AcceptedRisk && s.expires.Some? && s.expires.value <= now {
          ghost var before := events;
          Insert(o, ExpireRisk, "system", clock(expired), "Risk acceptance expired", "", None);
          var e := events[|before|];
          assert IsExpiry(e, old(nextId) + |due|, o, clock(|due|)) by { StampedExpiry(e, o); }
          ExpiredOneMore(log, old(nextId), clock, due, before, o, e);
          due := due + [o];
          expired := expired + 1;
        }
      }
    }
  }
}
