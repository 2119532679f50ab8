/** A principal's token: the identifiers reached upwards from its seeds through a possibly cyclic group graph. */
module Token {
  import opened Prelude
  import opened Sids
  import opened Text

  datatype Group = Group(sid: string, name: string, members: seq<string>)

  datatype Principal = Principal(name: string, sam: string, kind: string)

  /** The collected principals and groups, in collection order; identifiers are canonical and occur once. */
  datatype Directory = Directory(principals: seq<(string, Principal)>, groups: seq<Group>)

  function Collected(principals: seq<(string, Principal)>, sid: string): (r: Option<Principal>)
    ensures r.None? <==> forall i :: 0 <= i < |principals| ==> principals[i].0 != sid
  {
    if principals == [] then None
    else if principals[0].0 == sid then Some(principals[0].1)
    else Collected(principals[1..], sid)
  }

  predicate IsGroup(groups: seq<Group>, sid: string) {
    exists i :: 0 <= i < |groups| && groups[i].sid == sid
  }

  /** The kind `resolve_principal` reports: the well-known table outranks what was collected. */
  function KindOf(dir: Directory, sid: string): string {
    if WellKnown(sid) then "WellKnown"
    else match Collected(dir.principals, Lower(Strip(sid)))
         case Some(p) => p.kind
         case None => "Unresolved"
  }

  predicate IsComputer(dir: Directory, sid: string) {
    Lower(KindOf(dir, sid)) == "computer"
  }

  /** What a token starts from; `sid` is lower-cased and stripped. */
  function Seeds(dir: Directory, sid: string): set<string> {
    {sid, EVERYONE}
    + (if sid == ANONYMOUS then {} else {AUTHENTICATED_USERS})
    + match DomainSidFrom(sid)
      case None => {}
      case Some(domain) => {domain + if IsComputer(dir, sid) then DOMAIN_COMPUTERS else DOMAIN_USERS}
  }

  /** What a token starts from, identifier by identifier. */
  lemma SeedsExactly(dir: Directory, sid: string, x: string)
    ensures x in Seeds(dir, sid) <==>
              || x == sid
              || x == "s-1-1-0"
              || (x == "s-1-5-11" && sid != "s-1-5-7")
              || (DomainSidFrom(sid).Some?
                  && x == DomainSidFrom(sid).value + if IsComputer(dir, sid) then "-515" else "-513")
  {
    hide DomainSidFrom, IsComputer;
  }

  /** A computer is what was first collected as one and is no well-known identifier. */
  lemma ComputersAreCollected(dir: Directory, sid: string)
    ensures IsComputer(dir, sid) <==>
              && !WellKnown(sid)
              && exists i :: && 0 <= i < |dir.principals| && dir.principals[i].0 == Lower(Strip(sid))
                             && Lower(dir.principals[i].1.kind) == "computer"
                             && forall j :: 0 <= j < i ==> dir.principals[j].0 != Lower(Strip(sid))
  {
    hide WellKnown, Lower, Strip;
    OtherKinds();
    CollectedFirst(dir.principals, Lower(Strip(sid)));
  }

  lemma OtherKinds()
    ensures Lower("WellKnown") != "computer" && Lower("Unresolved") != "computer"
  {
    assert Lower("WellKnown")[0] == 'w' && Lower("Unresolved")[0] == 'u' && "computer"[0] == 'c';
  }

  lemma {:induction false} CollectedFirst(principals: seq<(string, Principal)>, sid: string)
    ensures forall i :: 0 <= i < |principals| && principals[i].0 == sid
                        && (forall j :: 0 <= j < i ==> principals[j].0 != sid)
              ==> Collected(principals, sid) == Some(principals[i].1)
    ensures Collected(principals, sid).Some?
            ==> exists i :: 0 <= i < |principals| && principals[i].0 == sid
                            && (forall j :: 0 <= j < i ==> principals[j].0 != sid)
                            && Collected(principals, sid) == Some(principals[i].1)
  {
    if principals != [] && principals[0].0 != sid {
      var rest := principals[1..];
      CollectedFirst(rest, sid);
      assert forall i :: 0 <= i < |rest| ==> rest[i] == principals[i + 1];
      if Collected(rest, sid).Some? {
        var i :| 0 <= i < |rest| && rest[i].0 == sid && (forall j :: 0 <= j < i ==> rest[j].0 != sid)
                 && Collected(rest, sid) == Some(rest[i].1);
        assert principals[i + 1] == rest[i];
        assert forall j :: 0 <= j < i + 1 ==> principals[j].0 != sid;
      }
      forall i | 0 <= i < |principals| && principals[i].0 == sid && (forall j :: 0 <= j < i ==> principals[j].0 != sid)
        ensures Collected(principals, sid) == Some(principals[i].1)
      {
        assert rest[i - 1] == principals[i];
      }
    }
  }

  /** Some collected group `g` lists `m` as a member. */
  predicate Lists(groups: seq<Group>, g: string, m: string) {
    exists i :: 0 <= i < |groups| && groups[i].sid == g && m in groups[i].members
  }

  ghost predicate Closed(groups: seq<Group>, s: set<string>) {
    forall g, m :: Lists(groups, g, m) && m in s ==> g in s
  }

  /** The least set that holds the seeds and every group of each of its members. */
  ghost predicate LeastClosed(groups: seq<Group>, seeds: set<string>, s: set<string>) {
    && seeds <= s && Closed(groups, s)
    && forall other: set<string> :: seeds <= other && Closed(groups, other) ==> s <= other
  }

  /** A domain identifier in the token that nothing collected explains. */
  predicate Unexplained(dir: Directory, sid: string, x: string) {
    DOMAIN_PREFIX <= x && !WellKnown(x) && x != sid && !IsGroup(dir.groups, x) && Collected(dir.principals, x).None?
  }

  function GroupsOf(parents: map<string, seq<string>>, m: string): seq<string> {
    if m in parents then parents[m] else []
  }

  /** The reverse index: for each member, the groups that list it. */
  method IndexMembers(groups: seq<Group>) returns (parents: map<string, seq<string>>)
    ensures forall g, m :: g in GroupsOf(parents, m) <==> Lists(groups, g, m)
  {
    parents := map[];
    for i := 0 to |groups|
      invariant forall g, m :: g in GroupsOf(parents, m) <==> Lists(groups[..i], g, m)
    {
      for k := 0 to |groups[i].members|
        invariant forall g, m :: g in GroupsOf(parents, m)
                                 <==> Lists(groups[..i], g, m) || (g == groups[i].sid && m in groups[i].members[..k])
      {
        var m := groups[i].members[k];
        ghost var before := parents;
        parents := parents[m := GroupsOf(parents, m) + [groups[i].sid]];
        forall g, x ensures g in GroupsOf(parents, x) <==> g in GroupsOf(before, x) || (x == m && g == groups[i].sid) {}
        assert groups[i].members[..k + 1] == groups[i].members[..k] + [m];
      }
      assert groups[i].members[..|groups[i].members|] == groups[i].members;
      forall g, m ensures Lists(groups[..i + 1], g, m)
        <==> Lists(groups[..i], g, m) || (g == groups[i].sid && m in groups[i].members) {
        ListsOneMore(groups, i, g, m);
      }
    }
    assert groups[..|groups|] == groups;
  }

  lemma ListsOneMore(groups: seq<Group>, i: nat, g: string, m: string)
    requires i < |groups|
    ensures Lists(groups[..i + 1], g, m) <==> Lists(groups[..i], g, m) || (g == groups[i].sid && m in groups[i].members)
  {
    var a, b := groups[..i], groups[..i + 1];
    if Lists(a, g, m) {
      var j :| 0 <= j < |a| && a[j].sid == g && m in a[j].members;
      assert b[j] == a[j];
    }
    if g == groups[i].sid && m in groups[i].members { assert b[i] == groups[i]; }
    if Lists(b, g, m) {
      var j :| 0 <= j < |b| && b[j].sid == g && m in b[j].members;
      if j < i { assert a[j] == b[j]; }
    }
  }

  function GroupSids(groups: seq<Group>): set<string> {
    set i | 0 <= i < |groups| :: groups[i].sid
  }

  /** Where the walk stands: what was dequeued, what waits, and the caveats so far. */
  ghost predicate Walking(dir: Directory, sid: string, seeds: set<string>, token: set<string>, queue: seq<string>,
                          visited: set<string>, caveats: seq<string>) {
    && seeds <= token && visited <= token && token <= seeds + GroupSids(dir.groups)
    && (forall q :: q in queue ==> q in token)
    && (forall x :: x in token ==> x in visited || x in queue)
    && (forall g, m :: Lists(dir.groups, g, m) && m in visited ==> g in token)
    && (forall other: set<string> :: seeds <= other && Closed(dir.groups, other) ==> token <= other)
    && WithoutRepeats(caveats) && forall x :: x in caveats <==> x in visited && Unexplained(dir, sid, x)
  }

  lemma SkipVisited(dir: Directory, sid: string, seeds: set<string>, token: set<string>, queue: seq<string>,
                    visited: set<string>, caveats: seq<string>)
    requires Walking(dir, sid, seeds, token, queue, visited, caveats) && queue != [] && queue[0] in visited
    ensures Walking(dir, sid, seeds, token, queue[1..], visited, caveats)
  {
    hide Unexplained, Lists;
    assert queue == [queue[0]] + queue[1..];
  }

  lemma VisitNext(dir: Directory, sid: string, seeds: set<string>, token: set<string>, queue: seq<string>,
                  visited: set<string>, caveats: seq<string>, more: set<string>, waiting: seq<string>,
                    after: seq<string>)
    requires Walking(dir, sid, seeds, token, queue, visited, caveats) && queue != [] && queue[0] !in visited
    requires forall x :: x in more <==> x in token || Lists(dir.groups, x, queue[0])
    requires forall x :: x in waiting <==> x in queue[1..] || (Lists(dir.groups, x, queue[0]) && x !in token)
    requires after == if Unexplained(dir, sid, queue[0]) then caveats + [queue[0]] else caveats
    ensures Walking(dir, sid, seeds, more, waiting, visited + {queue[0]}, after)
  {
    hide Unexplained, Lists;
    var current := queue[0];
    assert queue == [current] + queue[1..];
    forall x | x in more ensures x in seeds + GroupSids(dir.groups) {
      if x !in token { ListedIsGroup(dir.groups, x, current); }
    }
    forall other: set<string> | seeds <= other && Closed(dir.groups, other) ensures more <= other {
      assert token <= other && current in other;
    }
  }

  lemma ListedIsGroup(groups: seq<Group>, g: string, m: string)
    requires Lists(groups, g, m)
    ensures g in GroupSids(groups)
  {
  }

  /** `build_token`: terminates on cyclic graphs, and caveats each unexplained identifier of the token once. */
  method BuildToken(dir: Directory, principal: string) returns (token: set<string>, caveats: seq<string>)
    ensures var sid := Lower(Strip(principal));
            && LeastClosed(dir.groups, Seeds(dir, sid), token)
            && WithoutRepeats(caveats) && forall x :: x in caveats <==> x in token && Unexplained(dir, sid, x)
  {
    hide Unexplained, Lists, WellKnown, DomainSidFrom, IsComputer, Strip, Lower, Seeds, GroupsOf;
    var sid := Lower(Strip(principal));
    var seeds := Seeds(dir, sid);
    var parents := IndexMembers(dir.groups);
    token, caveats := seeds, [];
    var queue := Arrange(seeds);
    var visited: set<string> := {};
    ghost var all := seeds + GroupSids(dir.groups);
    while queue != []
      invariant Walking(dir, sid, seeds, token, queue, visited, caveats)
      decreases all - visited, |queue|
    {
      var current := queue[0];
      if current in visited {
        SkipVisited(dir, sid, seeds, token, queue, visited, caveats);
        queue := queue[1..];
        continue;
      }
      var more, waiting := Enqueue(GroupsOf(parents, current), token, queue[1..]);
      var after := if Unexplained(dir, sid, current) then caveats + [current] else caveats;
      VisitNext(dir, sid, seeds, token, queue, visited, caveats, more, waiting, after);
      assert current in all - visited;
      token, queue, visited, caveats := more, waiting, visited + {current}, after;
    }
  }

  /** The elements of a set, in some order. */
  method Arrange(s: set<string>) returns (r: seq<string>)
    ensures forall x :: x in r <==> x in s
  {
    r := [];
    var todo := s;
    while todo != {}
      invariant todo <= s && forall x :: x in r <==> x in s - todo
    {
      var x :| x in todo;
      todo := todo - {x};
      r := r + [x];
    }
  }

  /** Adds the groups not seen before to both the token and the queue. */
  method Enqueue(found: seq<string>, token: set<string>, queue: seq<string>)
    returns (more: set<string>, waiting: seq<string>)
    ensures forall x :: x in more <==> x in token || x in found
    ensures forall x :: x in waiting <==> x in queue || (x in found && x !in token)
  {
    more, waiting := token, queue;
    for i := 0 to |found|
      invariant forall x :: x in more <==> x in token || x in found[..i]
      invariant forall x :: x in waiting <==> x in queue || (x in found[..i] && x !in token)
    {
      assert found[..i + 1] == found[..i] + [found[i]];
      if found[i] !in more {
        more := more + {found[i]};
        waiting := waiting + [found[i]];
      }
    }
    assert found[..|found|] == found;
  }
}
