/** The estate's index: every GPO under its own id, and under a stripped form of it if no one else is there. */
module GpoIndex {
  import opened Estate
  import opened Text

  predicate IsBrace(c: char) {
    c == '{' || c == '}'
  }

  function UnbraceLeft(s: string): string {
    if s != "" && IsBrace(s[0]) then UnbraceLeft(s[1..]) else s
  }

  function UnbraceRight(s: string): string {
    if s != "" && IsBrace(s[|s| - 1]) then UnbraceRight(s[..|s| - 1]) else s
  }

  function Unhyphened(s: string): string {
    if s == "" then "" else (if s[0] == '-' then "" else [s[0]]) + Unhyphened(s[1..])
  }

  /** The canonical form that links of newer snapshots use. */
  function Stripped(id: string): string {
    Lower(Unhyphened(Strip(UnbraceRight(UnbraceLeft(Strip(id))))))
  }

  /** A GPO takes its own id from whoever holds it, and its stripped id only if it is free. */
  function FileUnder(index: map<string, Gpo>, gpo: Gpo): map<string, Gpo> {
    var own := index[gpo.id := gpo];
    if Stripped(gpo.id) in own then own else own[Stripped(gpo.id) := gpo]
  }

  function Indexed(gpos: seq<Gpo>): map<string, Gpo> {
    if gpos == [] then map[] else FileUnder(Indexed(gpos[..|gpos| - 1]), gpos[|gpos| - 1])
  }

  /** `gpo_index`. */
  method BuildGpoIndex(gpos: seq<Gpo>) returns (index: map<string, Gpo>)
    ensures index == Indexed(gpos)
  {
    hide Stripped;
    index := map[];
    for i := 0 to |gpos|
      invariant index == Indexed(gpos[..i])
    {
      assert gpos[..i + 1][..i] == gpos[..i];
      var g := gpos[i];
      index := index[g.id := g];
      var stripped := Stripped(g.id);
      if stripped != g.id {
        if stripped !in index { index := index[stripped := g]; }
      }
    }
    assert gpos[..|gpos|] == gpos;
  }

  /** The last GPO with this id. */
  ghost predicate LastOfId(gpos: seq<Gpo>, id: string, i: int) {
    0 <= i < |gpos| && gpos[i].id == id && forall j :: i < j < |gpos| ==> gpos[j].id != id
  }

  /** No GPO has this id, and this is the first with this stripped id. */
  ghost predicate FirstOfForm(gpos: seq<Gpo>, id: string, i: int) {
    && 0 <= i < |gpos| && Stripped(gpos[i].id) == id && (forall j :: 0 <= j < |gpos| ==> gpos[j].id != id)
    && forall j :: 0 <= j < i ==> Stripped(gpos[j].id) != id
  }

  ghost predicate HasId(gpos: seq<Gpo>, id: string) {
    exists i :: LastOfId(gpos, id, i)
  }

  ghost predicate HasForm(gpos: seq<Gpo>, id: string) {
    exists i :: FirstOfForm(gpos, id, i)
  }

  lemma {:induction false} SomeHasId(gpos: seq<Gpo>, id: string, j: nat)
    requires j < |gpos| && gpos[j].id == id
    ensures HasId(gpos, id)
    decreases |gpos| - j
  {
    if k :| j < k < |gpos| && gpos[k].id == id {
      SomeHasId(gpos, id, k);
    } else {
      assert LastOfId(gpos, id, j);
    }
  }

  lemma {:induction false} SomeHasForm(gpos: seq<Gpo>, id: string, j: nat)
    requires j < |gpos| && Stripped(gpos[j].id) == id && forall k :: 0 <= k < |gpos| ==> gpos[k].id != id
    ensures HasForm(gpos, id)
  {
    hide Stripped;
    if k :| 0 <= k < j && Stripped(gpos[k].id) == id {
      SomeHasForm(gpos, id, k);
    } else {
      assert FirstOfForm(gpos, id, j);
    }
  }

  /** How one more GPO changes who holds a key. */
  lemma HoldersGrow(rest: seq<Gpo>, last: Gpo, id: string)
    ensures forall i :: i < |rest| && last.id != id ==> (LastOfId(rest + [last], id, i) <==> LastOfId(rest, id, i))
    ensures forall i :: i < |rest| && last.id != id
              ==> (FirstOfForm(rest + [last], id, i) <==> FirstOfForm(rest, id, i))
    ensures last.id == id ==> forall i :: LastOfId(rest + [last], id, i) <==> i == |rest|
    ensures last.id == id ==> forall i :: !FirstOfForm(rest + [last], id, i)
    ensures last.id != id ==> !LastOfId(rest + [last], id, |rest|)
    ensures last.id != id ==> (FirstOfForm(rest + [last], id, |rest|)
                               <==> Stripped(last.id) == id && !HasId(rest, id) && !HasForm(rest, id))
  {
    hide Stripped;
    var gpos := rest + [last];
    assert forall j :: 0 <= j < |rest| ==> gpos[j] == rest[j];
    assert gpos[|rest|] == last;
    forall j | 0 <= j < |rest| && rest[j].id == id ensures HasId(rest, id) { SomeHasId(rest, id, j); }
    forall j | 0 <= j < |rest| && Stripped(rest[j].id) == id ensures HasId(rest, id) || HasForm(rest, id) {
      if !HasId(rest, id) { SomeHasForm(rest, id, j); }
    }
  }

  /**
   A key leads to the last GPO whose id it is; a key that is no GPO's id leads to the first GPO whose stripped id it is;
   there are no other keys.
   */
  lemma {:induction false} IndexedExactly(gpos: seq<Gpo>, id: string)
    ensures forall i :: LastOfId(gpos, id, i) || FirstOfForm(gpos, id, i) ==>
              id in Indexed(gpos) && Indexed(gpos)[id] == gpos[i]
    ensures id in Indexed(gpos) <==> HasId(gpos, id) || HasForm(gpos, id)
  {
    hide Stripped, LastOfId, FirstOfForm;
    if gpos == [] {
      NoOneHolds(id);
    } else {
      var n := |gpos| - 1;
      var rest, last := gpos[..n], gpos[n];
      assert gpos == rest + [last];
      IndexedExactly(rest, id);
      HoldersGrow(rest, last, id);
      HoldersAreListed(gpos, id);
      HoldersAreListed(rest, id);
    }
  }

  lemma NoOneHolds(id: string)
    ensures forall i :: !LastOfId([], id, i) && !FirstOfForm([], id, i)
  {
  }

  lemma HoldersAreListed(gpos: seq<Gpo>, id: string)
    ensures forall i :: LastOfId(gpos, id, i) || FirstOfForm(gpos, id, i) ==> 0 <= i < |gpos|
  {
  }

  // ----- One GPO for each id -----

  /** Every way to name a GPO in the index leads to the same one. */
  ghost predicate OneGpoPerId(index: map<string, Gpo>) {
    forall k, l :: k in index && l in index && index[k].id == index[l].id ==> index[k] == index[l]
  }

  /** The first GPO of a stripped id is also the last one of its own id. */
  ghost predicate NoNamesakes(gpos: seq<Gpo>) {
    forall key, i, j :: FirstOfForm(gpos, key, i) && LastOfId(gpos, gpos[i].id, j) ==> gpos[i] == gpos[j]
  }

  lemma KeyHolder(gpos: seq<Gpo>, key: string) returns (i: int)
    requires key in Indexed(gpos)
    ensures LastOfId(gpos, key, i) || FirstOfForm(gpos, key, i)
    ensures Indexed(gpos)[key] == gpos[i]
  {
    hide LastOfId, FirstOfForm, Indexed;
    IndexedExactly(gpos, key);
    HoldersAreListed(gpos, key);
    if HasId(gpos, key) { i :| LastOfId(gpos, key, i); } else { i :| FirstOfForm(gpos, key, i); }
  }

  /** Two GPOs of one id get into the index exactly if the first holds the stripped id and the last the id. */
  lemma OneGpoPerIdExactly(gpos: seq<Gpo>)
    ensures OneGpoPerId(Indexed(gpos)) <==> NoNamesakes(gpos)
  {
    hide Stripped, Indexed;
    if NoNamesakes(gpos) {
      forall k, l | k in Indexed(gpos) && l in Indexed(gpos) && Indexed(gpos)[k].id == Indexed(gpos)[l].id
        ensures Indexed(gpos)[k] == Indexed(gpos)[l]
      {
        var i := KeyHolder(gpos, k);
        var j := KeyHolder(gpos, l);
      }
    }
    if OneGpoPerId(Indexed(gpos)) {
      forall key, i, j | FirstOfForm(gpos, key, i) && LastOfId(gpos, gpos[i].id, j) ensures gpos[i] == gpos[j] {
        IndexedExactly(gpos, key);
        IndexedExactly(gpos, gpos[i].id);
      }
    }
  }

  /** Different ids for different GPOs, which the source warns about otherwise, are enough. */
  lemma DistinctIdsHaveNoNamesakes(gpos: seq<Gpo>)
    requires forall i, j :: 0 <= i < j < |gpos| ==> gpos[i].id != gpos[j].id
    ensures NoNamesakes(gpos)
  {
    hide Stripped;
  }

  /** Where GPOs of one id are equal, an id leads to its GPO. */
  lemma IdLeadsHome(gpos: seq<Gpo>, i: nat)
    requires i < |gpos| && forall j :: 0 <= j < |gpos| && gpos[j].id == gpos[i].id ==> gpos[j] == gpos[i]
    ensures gpos[i].id in Indexed(gpos) && Indexed(gpos)[gpos[i].id] == gpos[i]
  {
    hide Indexed, Stripped, FirstOfForm;
    SomeHasId(gpos, gpos[i].id, i);
    IndexedExactly(gpos, gpos[i].id);
  }
}
