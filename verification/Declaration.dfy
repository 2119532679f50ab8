/**
 The verdict on an absent publication declaration: one reverse-topological sweep over the commit graph, and the
 all-paths property it decides.
 */
module Declaration {
  import opened Prelude

  type Commit = string
  type Oid = string

  /** What a commit holds at the declaration's path. */
  datatype Entry = Missing | NotRegular | Blob(oid: Oid)

  /** Commits listed children first, their parents, what they hold, and which blobs cleanly say private. */
  datatype History = History(
    order: seq<Commit>, parents: map<Commit, seq<Commit>>, entries: map<Commit, Entry>, privateBlob: map<Oid, bool>)

  /** What `rev-list --topo-order --parents` guarantees of its listing. */
  ghost predicate Topological(h: History) {
    && (forall c :: c in h.order <==> c in h.parents)
    && (forall c :: c in h.order ==> c in h.entries)
    && (forall i, j :: 0 <= i < j < |h.order| ==> h.order[i] != h.order[j])
    && (forall i, j :: 0 <= i < |h.order| && 0 <= j < |h.order| && h.order[j] in h.parents[h.order[i]] ==> i < j)
  }

  predicate Declared(h: History, c: Commit)
    requires c in h.entries
  {
    !h.entries[c].Missing?
  }

  /** Declared, a regular file, and its text cleanly says private. */
  predicate Clean(h: History, c: Commit)
    requires c in h.entries
  {
    h.entries[c].Blob? && h.entries[c].oid in h.privateBlob && h.privateBlob[h.entries[c].oid]
  }

  predicate SafeParent(safe: map<Commit, bool>, p: Commit) {
    p in safe ==> safe[p]
  }

  predicate IsTip(h: History, c: Commit) {
    forall d :: d in h.parents.Keys ==> c !in h.parents[d]
  }

  // ----- The sweep -----

  /** Safety of the commits from `i` on, computed from the last one back. */
  function SafeFrom(h: History, i: nat): (safe: map<Commit, bool>)
    requires i <= |h.order| && forall c :: c in h.order ==> c in h.entries && c in h.parents
    decreases |h.order| - i
  {
    if i == |h.order| then map[]
    else
      var safe, c := SafeFrom(h, i + 1), h.order[i];
      safe[c := if Declared(h, c) then Clean(h, c) else forall p :: p in h.parents[c] ==> SafeParent(safe, p)]
  }

  method Sweep(h: History) returns (safe: map<Commit, bool>)
    requires Topological(h)
    ensures safe == SafeFrom(h, 0)
  {
    safe := map[];
    var i := |h.order|;
    while i > 0
      invariant 0 <= i <= |h.order|
      invariant safe == SafeFrom(h, i)
    {
      i := i - 1;
      var commit := h.order[i];
      var parents, allParents := h.parents[commit], true;
      for k := 0 to |parents|
        invariant allParents <==> forall j :: 0 <= j < k ==> SafeParent(safe, parents[j])
      {
        allParents := allParents && SafeParent(safe, parents[k]);
      }
      safe := safe[commit := if Declared(h, commit) then Clean(h, commit) else allParents];
    }
  }

  /**
   True for the "never opted in" skip, false for the refusal: a skip exactly when every parent path from HEAD and
   from every tip is safe.  A HEAD that does not resolve is a skip only in a repository without commits.
   */
  method AbsentDeclarationVerdict(h: History, head: Option<Commit>, holdsCommits: bool) returns (skip: bool)
    requires Topological(h)
    ensures skip <==> match head
                      case None => !holdsCommits
                      case Some(c) => c in h.order && AllPathsSafe(h, c)
                                      && forall t :: t in h.order && IsTip(h, t) ==> AllPathsSafe(h, t)
  {
    if head.None? { return !holdsCommits; }
    skip := GraphVerdict(h, head.value);
  }

  method GraphVerdict(h: History, head: Commit) returns (skip: bool)
    requires Topological(h)
    ensures skip <==> head in h.order && AllPathsSafe(h, head)
                      && forall t :: t in h.order && IsTip(h, t) ==> AllPathsSafe(h, t)
  {
    hide AllPathsSafe, Topological, IsTip, SafeFrom;
    var safe := Sweep(h);
    SafeKeys(h, 0);
    SweepDecidesPaths(h, 0);
    assert forall c :: c in h.order ==> c in h.order[0..];
    skip := head in safe && safe[head];
    for k := 0 to |h.order|
      invariant skip <==> head in safe && safe[head] && forall j :: 0 <= j < k && IsTip(h, h.order[j])
                                                          ==> AllPathsSafe(h, h.order[j])
    {
      var tip := IsTip(h, h.order[k]);
      if tip { skip := skip && safe[h.order[k]]; }
    }
  }

  lemma {:induction false} SafeKeys(h: History, i: nat)
    requires Topological(h) && i <= |h.order|
    ensures forall c :: c in SafeFrom(h, i) <==> c in h.order[i..]
    decreases |h.order| - i
  {
    if i < |h.order| {
      SafeKeys(h, i + 1);
      assert h.order[i..] == [h.order[i]] + h.order[i + 1..];
    }
  }

  // ----- Parent paths -----

  /** A walk from a commit through parents inside the graph. */
  ghost predicate IsPath(h: History, path: seq<Commit>) {
    && path != []
    && (forall i :: 0 <= i < |path| ==> path[i] in h.parents && path[i] in h.entries)
    && forall i :: 0 <= i < |path| - 1 ==> path[i + 1] in h.parents[path[i]]
  }

  /** The first commit of the path that carries a declaration, if there is one, carries a clean private one. */
  ghost predicate PathSafe(h: History, path: seq<Commit>)
    requires IsPath(h, path)
  {
    forall i :: 0 <= i < |path| && Declared(h, path[i]) && (forall j :: 0 <= j < i ==> !Declared(h, path[j]))
      ==> Clean(h, path[i])
  }

  ghost predicate AllPathsSafe(h: History, c: Commit) {
    forall path :: IsPath(h, path) && path[0] == c ==> PathSafe(h, path)
  }

  lemma PathTail(h: History, path: seq<Commit>)
    requires IsPath(h, path) && |path| > 1 && !Declared(h, path[0])
    ensures IsPath(h, path[1..]) && path[1] in h.parents[path[0]]
    ensures PathSafe(h, path) <==> PathSafe(h, path[1..])
  {
    var tail := path[1..];
    assert forall i :: 0 <= i < |tail| ==> tail[i] == path[i + 1];
    assert IsPath(h, tail);
    if PathSafe(h, tail) {
      forall i | 0 <= i < |path| && Declared(h, path[i]) && (forall j :: 0 <= j < i ==> !Declared(h, path[j]))
        ensures Clean(h, path[i])
      {
        assert Declared(h, tail[i - 1]);
      }
    }
    if PathSafe(h, path) {
      forall i | 0 <= i < |tail| && Declared(h, tail[i]) && (forall j :: 0 <= j < i ==> !Declared(h, tail[j]))
        ensures Clean(h, tail[i])
      {
        forall j | 0 <= j < i + 1 ensures !Declared(h, path[j]) {
          if j > 0 { assert path[j] == tail[j - 1]; }
        }
        assert Clean(h, path[i + 1]);
      }
    }
  }

  lemma DeclaredDecides(h: History, c: Commit)
    requires c in h.parents && c in h.entries && Declared(h, c)
    ensures AllPathsSafe(h, c) <==> Clean(h, c)
  {
    if AllPathsSafe(h, c) {
      assert IsPath(h, [c]) && PathSafe(h, [c]);
      assert Declared(h, [c][0]);
    }
    forall path | IsPath(h, path) && path[0] == c ensures PathSafe(h, path) <==> Clean(h, c) {
      assert Declared(h, path[0]);
    }
  }

  lemma UndeclaredDefers(h: History, c: Commit)
    requires c in h.parents && c in h.entries && !Declared(h, c)
    requires forall p :: p in h.parents ==> p in h.entries
    ensures AllPathsSafe(h, c) <==> forall p :: p in h.parents[c] && p in h.parents ==> AllPathsSafe(h, p)
  {
    if AllPathsSafe(h, c) {
      forall p, q | p in h.parents[c] && p in h.parents && IsPath(h, q) && q[0] == p ensures PathSafe(h, q) {
        var path := [c] + q;
        assert path[1..] == q;
        assert forall i :: 0 < i < |path| ==> path[i] == q[i - 1];
        assert IsPath(h, path);
        PathTail(h, path);
      }
    }
    if forall p :: p in h.parents[c] && p in h.parents ==> AllPathsSafe(h, p) {
      forall path | IsPath(h, path) && path[0] == c ensures PathSafe(h, path) {
        if |path| > 1 {
          PathTail(h, path);
          assert path[1..][0] == path[1];
        }
      }
    }
  }

  /** The sweep computes the all-paths property for every commit of the graph. */
  lemma {:induction false} SweepDecidesPaths(h: History, i: nat)
    requires Topological(h) && i <= |h.order|
    ensures forall c :: c in SafeFrom(h, i) ==> (SafeFrom(h, i)[c] <==> AllPathsSafe(h, c))
    decreases |h.order| - i
  {
    if i < |h.order| {
      hide AllPathsSafe, IsPath, PathSafe;
      var c := h.order[i];
      SweepDecidesPaths(h, i + 1);
      SafeKeys(h, i + 1);
      if Declared(h, c) {
        DeclaredDecides(h, c);
      } else {
        UndeclaredDefers(h, c);
        ParentsComeLater(h, i);
      }
    }
  }

  lemma ParentsComeLater(h: History, i: nat)
    requires Topological(h) && i < |h.order|
    ensures forall p :: p in h.parents[h.order[i]] && p in h.parents ==> p in h.order[i + 1..]
  {
    forall p | p in h.parents[h.order[i]] && p in h.parents ensures p in h.order[i + 1..] {
      var j :| 0 <= j < |h.order| && h.order[j] == p;
      assert h.order[i + 1..][j - i - 1] == p;
    }
  }

  /** Every commit of the graph lies below some tip. */
  lemma {:induction false} BelowSomeTip(h: History, k: nat) returns (path: seq<Commit>)
    requires Topological(h) && k < |h.order|
    ensures IsPath(h, path) && IsTip(h, path[0]) && path[|path| - 1] == h.order[k]
  {
    var c := h.order[k];
    if IsTip(h, c) {
      path := [c];
    } else {
      var d :| d in h.parents.Keys && c in h.parents[d];
      var i :| 0 <= i < |h.order| && h.order[i] == d;
      var above := BelowSomeTip(h, i);
      path := above + [c];
      assert forall j :: 0 <= j < |above| ==> path[j] == above[j];
    }
  }

  /**
   No declaration is missed: after a skip, a commit whose declaration is not cleanly private is superseded, on every
   path that reaches it from a tip, by a clean private declaration made below that tip and above it.
   */
  lemma SkipSupersedes(h: History, head: Commit, path: seq<Commit>)
    requires Topological(h)
    requires forall t :: t in h.order && IsTip(h, t) ==> AllPathsSafe(h, t)
    requires IsPath(h, path) && IsTip(h, path[0])
    requires Declared(h, path[|path| - 1]) && !Clean(h, path[|path| - 1])
    ensures exists i :: 0 <= i < |path| - 1 && Clean(h, path[i]) && forall j :: 0 <= j < i ==> !Declared(h, path[j])
  {
    assert path[0] in h.order && PathSafe(h, path);
    var i := FirstDeclared(h, path);
    assert Clean(h, path[i]);
  }

  lemma {:induction false} FirstDeclared(h: History, path: seq<Commit>) returns (i: nat)
    requires path != [] && (forall k :: 0 <= k < |path| ==> path[k] in h.entries) && Declared(h, path[|path| - 1])
    ensures i < |path| && Declared(h, path[i]) && forall j :: 0 <= j < i ==> !Declared(h, path[j])
  {
    if Declared(h, path[0]) {
      i := 0;
    } else {
      var k := FirstDeclared(h, path[1..]);
      i := k + 1;
      forall j | 0 <= j < i ensures !Declared(h, path[j]) {
        if j > 0 { assert path[j] == path[1..][j - 1]; }
      }
    }
  }
}
