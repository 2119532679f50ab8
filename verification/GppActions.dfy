/** The Create, Replace, Update and Delete machine, and what survives it. */
module GppActions {
  import opened Cse
  import opened Estate
  import opened Prelude
  import opened Sorting

  datatype Machine = Machine(current: Option<Occurrence>, deleted: bool)

  const START := Machine(None, false)

  function Step(m: Machine, o: Occurrence): Machine {
    match ActionOf(o)
    case Delete => Machine(None, true)
    case Replace => Machine(Some(o), false)
    case Update => if m.deleted then m else Machine(Some(o), m.deleted)
    case Create => if m.current.None? then Machine(Some(o), false) else m
    case Unknown => m
  }

  function RunFrom(m: Machine, items: seq<Occurrence>): Machine {
    if items == [] then m else Step(RunFrom(m, items[..|items| - 1]), items[|items| - 1])
  }

  function Outcome(m: Machine): Option<Occurrence> {
    if m.deleted then None else m.current
  }

  predicate ByOrder(x: Occurrence, y: Occurrence) {
    x.order <= y.order
  }

  /** What is left of the items after the machine has taken them in precedence order. */
  function Survivor(items: seq<Occurrence>): Option<Occurrence> {
    Outcome(RunFrom(START, Sort(items, ByOrder)))
  }

  /** `_resolve_gpp_actions`. */
  method ResolveGppActions(items: seq<Occurrence>) returns (survivor: Option<Occurrence>)
    ensures survivor == Survivor(items)
  {
    var ordered := Sort(items, ByOrder);
    var current: Option<Occurrence>, deleted := None, false;
    for i := 0 to |ordered|
      invariant Machine(current, deleted) == RunFrom(START, ordered[..i])
    {
      assert ordered[..i + 1][..i] == ordered[..i];
      var o := ordered[i];
      match ActionOf(o) {
        case Delete => deleted, current := true, None;
        case Replace => deleted, current := false, Some(o);
        case Update => if !deleted { current := Some(o); }
        case Create => if current.None? { deleted, current := false, Some(o); }
        case Unknown =>
      }
    }
    assert ordered[..|ordered|] == ordered;
    return if deleted || current.None? then None else current;
  }

  // ----- Closed form -----

  ghost predicate DeletesAt(items: seq<Occurrence>, i: int) {
    0 <= i < |items| && ActionOf(items[i]).Delete?
  }

  /**
   Item `i` can bring the setting into being: nothing after it deletes, and an update needs that nothing before it did.
   */
  ghost predicate Opens(items: seq<Occurrence>, i: int) {
    && 0 <= i < |items|
    && (forall j :: i < j ==> !DeletesAt(items, j))
    && match ActionOf(items[i])
       case Replace => true
       case Create => true
       case Update => forall j :: !DeletesAt(items, j)
       case _ => false
  }

  ghost predicate Modifies(items: seq<Occurrence>, i: int) {
    0 <= i < |items| && (ActionOf(items[i]).Replace? || ActionOf(items[i]).Update?)
  }

  /** Item `k` is the last to modify what the first opening item `c` brought into being, or is that item. */
  ghost predicate Survives(items: seq<Occurrence>, c: int, k: int) {
    && Opens(items, c) && (forall i :: i < c ==> !Opens(items, i))
    && c <= k < |items| && (k == c || Modifies(items, k)) && (forall j :: k < j ==> !Modifies(items, j))
  }

  lemma {:induction false} MachineState(items: seq<Occurrence>) returns (c: int, k: int)
    ensures var m := RunFrom(START, items);
            && (m.current.Some? ==> !m.deleted && Survives(items, c, k) && m.current.value == items[k])
            && (m.current.None? ==> forall i :: !Opens(items, i))
            && (m.current.None? && !m.deleted ==> forall i :: !DeletesAt(items, i))
            && (m.deleted ==> exists i :: DeletesAt(items, i))
  {
    hide ActionOf;
    c, k := 0, 0;
    if items != [] {
      var n := |items| - 1;
      var rest := items[..n];
      c, k := MachineState(rest);
      var before := RunFrom(START, rest);
      assert forall i :: i < n
               ==> (DeletesAt(items, i) <==> DeletesAt(rest, i)) && (Modifies(items, i) <==> Modifies(rest, i));
      var action := ActionOf(items[n]);
      if action.Delete? {
        assert DeletesAt(items, n);
      } else {
        OpensExtends(items);
        if action.Replace? || (action.Update? && !before.deleted) {
          if before.current.None? { c := n; }
          k := n;
        } else if action.Create? && before.current.None? {
          c, k := n, n;
        } else if before.deleted {
          var d :| DeletesAt(rest, d);
          assert DeletesAt(items, d);
        }
      }
    }
  }

  lemma OpensExtends(items: seq<Occurrence>)
    requires items != [] && !ActionOf(items[|items| - 1]).Delete?
    ensures forall i :: i < |items| - 1 ==> (Opens(items, i) <==> Opens(items[..|items| - 1], i))
  {
    var n := |items| - 1;
    var rest := items[..n];
    assert forall j :: DeletesAt(items, j) <==> DeletesAt(rest, j);
  }

  /**
   The setting survives iff some item opens it, and then the survivor is the last Replace or Update from the first
   opening item on, or else that opening item.
   */
  lemma SurvivorClosedForm(items: seq<Occurrence>)
    ensures Outcome(RunFrom(START, items)).Some? <==> exists c :: Opens(items, c)
    ensures Outcome(RunFrom(START, items)).Some? ==> exists c, k :: Survives(items, c, k)
    ensures forall c, k :: Survives(items, c, k) ==> Outcome(RunFrom(START, items)) == Some(items[k])
  {
    hide RunFrom, Modifies, Opens;
    var c, k := MachineState(items);
    forall c', k' | Survives(items, c', k') ensures RunFrom(START, items).current.Some? && k' == k {
      assert Opens(items, c');
      assert c' == c;
    }
  }

  // ----- Plain updates -----

  /** The last of the items with the greatest order. */
  function Latest(items: seq<Occurrence>): (r: Occurrence)
    requires items != []
    ensures r in items && forall o :: o in items ==> o.order <= r.order
  {
    if |items| == 1 then items[0]
    else
      var rest, last := items[..|items| - 1], items[|items| - 1];
      var r := Latest(rest);
      if last.order >= r.order then last else r
  }

  lemma ByOrderIsPreorder()
    ensures TotalPreorder(ByOrder)
  {
  }

  lemma {:induction false} SortEndsWithLatest(items: seq<Occurrence>)
    requires items != []
    ensures var s := Sort(items, ByOrder); s != [] && s[|s| - 1] == Latest(items)
  {
    var rest, last := items[..|items| - 1], items[|items| - 1];
    if rest != [] { SortEndsWithLatest(rest); }
  }

  lemma {:induction false} UpdatesKeepTheLast(items: seq<Occurrence>)
    requires items != [] && forall o :: o in items ==> ActionOf(o).Update? || ActionOf(o).Replace?
    ensures RunFrom(START, items) == Machine(Some(items[|items| - 1]), false)
  {
    if |items| > 1 { UpdatesKeepTheLast(items[..|items| - 1]); }
  }

  /**
   Among updates and replaces the survivor is the item of the greatest order, the last one on a tie; with distinct
   orders it is the winner every other mode picks, which takes the first.
   */
  lemma PlainUpdatesAgree(items: seq<Occurrence>)
    requires items != [] && forall o :: o in items ==> ActionOf(o).Update? || ActionOf(o).Replace?
    ensures Survivor(items) == Some(Latest(items))
    ensures (forall x, y :: x in items && y in items && x.order == y.order ==> x == y)
            ==> Survivor(items) == Some(Strongest(items))
  {
    hide ActionOf;
    ByOrderIsPreorder();
    SortSorts(items, ByOrder);
    SortEndsWithLatest(items);
    var s := Sort(items, ByOrder);
    forall o | o in s ensures o in items { assert o in multiset(s); }
    UpdatesKeepTheLast(s);
  }
}
