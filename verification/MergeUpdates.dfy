/** Merging updates: receiving the merged update is receiving the updates one after the other. */
module MergeUpdates {
  import opened Cells
  import opened EntityIndex
  import opened AttributeValues
  import opened EntityTable

  datatype Key = Key(dataset: string, entityGroup: string)

  /** The entity groups of all datasets: an update, or the values of a state. */
  type World = map<Key, EntityData>

  ghost predicate WellFormed(w: World) {
    forall key :: key in w ==> w[key].WellFormed()
  }

  function GroupOf(w: World, key: Key): (g: EntityData)
    ensures WellFormed(w) ==> g.WellFormed()
  {
    if key in w then w[key] else EMPTY_GROUP
  }

  /** Every group of the update is received; unknown groups only when unknown data is tracked. */
  function ReceiveUpdate(w: World, upd: World, track: bool, processUndefined: bool): (r: World)
    requires WellFormed(w) && WellFormed(upd)
    ensures WellFormed(r)
    ensures r.Keys == w.Keys + (if track then upd.Keys else {})
  {
    map key | key in w.Keys + (if track then upd.Keys else {}) ::
      if key in upd then Receive(GroupOf(w, key), upd[key], track, processUndefined) else w[key]
  }

  ghost predicate AllWellFormed(updates: seq<World>) {
    forall i :: 0 <= i < |updates| ==> WellFormed(updates[i])
  }

  /** Receives the updates in turn. */
  function ReceiveInTurn(w: World, updates: seq<World>, track: bool): (r: World)
    requires WellFormed(w) && AllWellFormed(updates)
    ensures WellFormed(r)
  {
    if updates == [] then w
    else
      var n := |updates| - 1;
      ReceiveUpdate(ReceiveInTurn(w, updates[..n], track), updates[n], track, false)
  }

  function Merge(updates: seq<World>): (r: Option<World>)
    requires AllWellFormed(updates)
    ensures r.Some? ==> WellFormed(r.value)
    ensures r.None? <==> updates == []
  {
    if updates == [] then None else Some(ReceiveInTurn(map[], updates, true))
  }

  lemma NoNewIds(known: seq<int>)
    ensures NewIds(known, []) == []
  {
  }

  lemma OneIdMore(known: seq<int>, ids: seq<int>, id: int)
    ensures NewIds(known, ids + [id]) == NewIds(known, ids) + if id in known then [] else [id]
  {
    assert (ids + [id])[..|ids|] == ids;
  }

  lemma {:induction false} NewIdsConcat(known: seq<int>, a: seq<int>, b: seq<int>)
    ensures NewIds(known, a + b) == NewIds(known, a) + NewIds(known, b)
  {
    hide NewIds;
    if b == [] {
      assert a + b == a;
      NoNewIds(known);
    } else {
      var front, last := b[..|b| - 1], b[|b| - 1];
      NewIdsConcat(known, a, front);
      OneIdMore(known, front, last);
      OneIdMore(known, a + front, last);
      assert b == front + [last] && a + b == a + front + [last];
    }
  }

  lemma {:induction false} NewIdsTwice(s: seq<int>, m: seq<int>, u: seq<int>)
    ensures NewIds(AllIds(s, m), u) == NewIds(s, NewIds(m, u))
  {
    if u != [] {
      var n := |u| - 1;
      NewIdsTwice(s, m, u[..n]);
      if u[n] !in m {
        NewIdsConcat(s, NewIds(m, u[..n]), [u[n]]);
        assert [u[n]][..0] == [];
      }
    }
  }

  /** Ids come in the same order either way. */
  lemma AllIdsAssociative(s: seq<int>, m: seq<int>, u: seq<int>)
    ensures AllIds(AllIds(s, m), u) == AllIds(s, AllIds(m, u))
  {
    NewIdsTwice(s, m, u);
    NewIdsConcat(s, m, NewIds(m, u));
  }

  lemma MergeStepView(t: EntityData, m: EntityData, u: EntityData, track: bool, id: int, name: string)
    requires t.WellFormed() && m.WellFormed() && u.WellFormed()
    ensures Receive(Receive(t, m, track, false), u, track, false).View(id, name)
         == Receive(t, Receive(m, u, true, false), track, false).View(id, name)
  {
    ReceiveView(Receive(t, m, track, false), u, track, false, id, name);
    ReceiveView(t, m, track, false, id, name);
    ReceiveView(t, Receive(m, u, true, false), track, false, id, name);
    ReceiveView(m, u, true, false, id, name);
  }

  /** The type of an attribute is the one it had first. */
  lemma ReceiveKeepsType(t: EntityData, u: EntityData, track: bool, name: string)
    requires t.WellFormed() && u.WellFormed() && name in Receive(t, u, track, false).attrs
    ensures name in t.attrs || name in u.attrs
    ensures var first := if name in t.attrs then t.attrs[name] else u.attrs[name];
      && Receive(t, u, track, false).attrs[name].kind == first.kind
      && Receive(t, u, track, false).attrs[name].isFloat == first.isFloat
  {
    assert Receive(t, u, track, false).attrs[name] == Received(t, u, name, AllIds(t.ids, u.ids), false);
  }

  lemma MergeStepInGroup(t: EntityData, m: EntityData, u: EntityData, track: bool)
    requires t.WellFormed() && m.WellFormed() && u.WellFormed()
    ensures Receive(Receive(t, m, track, false), u, track, false)
         == Receive(t, Receive(m, u, true, false), track, false)
  {
    hide Receive, EntityData.WellFormed, EntityData.View, AllIds;
    var first, more := Receive(t, m, track, false), Receive(m, u, true, false);
    var inTurn, merged := Receive(first, u, track, false), Receive(t, more, track, false);
    AllIdsAssociative(t.ids, m.ids, u.ids);
    forall id, name
      ensures inTurn.View(id, name) == merged.View(id, name)
    {
      MergeStepView(t, m, u, track, id, name);
    }
    forall name | name in inTurn.attrs
      ensures inTurn.attrs[name].kind == merged.attrs[name].kind
      ensures inTurn.attrs[name].isFloat == merged.attrs[name].isFloat
    {
      MergeStepType(t, m, u, track, name);
    }
    SameViews(inTurn, merged);
  }

  lemma MergeStepType(t: EntityData, m: EntityData, u: EntityData, track: bool, name: string)
    requires t.WellFormed() && m.WellFormed() && u.WellFormed()
    requires name in Receive(Receive(t, m, track, false), u, track, false).attrs
    requires name in Receive(t, Receive(m, u, true, false), track, false).attrs
    ensures var inTurn := Receive(Receive(t, m, track, false), u, track, false).attrs[name];
      var merged := Receive(t, Receive(m, u, true, false), track, false).attrs[name];
      inTurn.kind == merged.kind && inTurn.isFloat == merged.isFloat
  {
    hide Receive, EntityData.WellFormed;
    var first, more := Receive(t, m, track, false), Receive(m, u, true, false);
    ReceiveKeepsType(first, u, track, name);
    ReceiveKeepsType(t, more, track, name);
    if name in first.attrs { ReceiveKeepsType(t, m, track, name); }
    if name in more.attrs { ReceiveKeepsType(m, u, true, name); }
  }

  lemma ReceiveNothing(t: EntityData, track: bool)
    requires t.WellFormed()
    ensures Receive(t, EMPTY_GROUP, track, false) == t
  {
    var r := Receive(t, EMPTY_GROUP, track, false);
    forall id, name
      ensures r.View(id, name) == t.View(id, name)
    {
      ReceiveView(t, EMPTY_GROUP, track, false, id, name);
    }
    SameViews(r, t);
  }

  /** What receiving does to one group. */
  lemma ReceiveAt(w: World, upd: World, track: bool, processUndefined: bool, key: Key)
    requires WellFormed(w) && WellFormed(upd)
    ensures GroupOf(ReceiveUpdate(w, upd, track, processUndefined), key)
         == if key in upd && (key in w || track) then Receive(GroupOf(w, key), upd[key], track, processUndefined)
            else GroupOf(w, key)
  {
  }

  lemma MergeStepAt(w: World, m: World, u: World, track: bool, key: Key)
    requires WellFormed(w) && WellFormed(m) && WellFormed(u)
    ensures GroupOf(ReceiveUpdate(ReceiveUpdate(w, m, track, false), u, track, false), key)
         == GroupOf(ReceiveUpdate(w, ReceiveUpdate(m, u, true, false), track, false), key)
  {
    ReceiveAt(ReceiveUpdate(w, m, track, false), u, track, false, key);
    ReceiveAt(w, m, track, false, key);
    ReceiveAt(w, ReceiveUpdate(m, u, true, false), track, false, key);
    ReceiveAt(m, u, true, false, key);
    var g := GroupOf(w, key);
    if key in u {
      MergeStepInGroup(g, GroupOf(m, key), u[key], track);
      ReceiveNothing(g, track);
    }
  }

  lemma SameGroups(a: World, b: World)
    requires a.Keys == b.Keys && forall key :: GroupOf(a, key) == GroupOf(b, key)
    ensures a == b
  {
    forall key | key in a
      ensures a[key] == b[key]
    {
      assert GroupOf(a, key) == GroupOf(b, key);
    }
  }

  lemma MergeStep(w: World, m: World, u: World, track: bool)
    requires WellFormed(w) && WellFormed(m) && WellFormed(u)
    ensures ReceiveUpdate(ReceiveUpdate(w, m, track, false), u, track, false)
         == ReceiveUpdate(w, ReceiveUpdate(m, u, true, false), track, false)
  {
    forall key
      ensures GroupOf(ReceiveUpdate(ReceiveUpdate(w, m, track, false), u, track, false), key)
           == GroupOf(ReceiveUpdate(w, ReceiveUpdate(m, u, true, false), track, false), key)
    {
      MergeStepAt(w, m, u, track, key);
    }
    SameGroups(ReceiveUpdate(ReceiveUpdate(w, m, track, false), u, track, false),
               ReceiveUpdate(w, ReceiveUpdate(m, u, true, false), track, false));
  }

  /** Receiving merge(u1, ..., un) leaves any state as receiving u1, ..., un in turn does: the same
      values, the same ids in the same order and the same attributes, whatever the updates overlap in. */
  lemma {:induction false} MergeIsHomomorphism(w: World, updates: seq<World>, track: bool)
    requires WellFormed(w) && AllWellFormed(updates)
    ensures ReceiveUpdate(w, ReceiveInTurn(map[], updates, true), track, false) == ReceiveInTurn(w, updates, track)
  {
    if updates == [] {
      assert ReceiveUpdate(w, map[], track, false) == w;
    } else {
      var n := |updates| - 1;
      MergeIsHomomorphism(w, updates[..n], track);
      MergeStep(w, ReceiveInTurn(map[], updates[..n], true), updates[n], track);
    }
  }

  /** The values of the merged update, and what receiving it does. */
  lemma ReceiveMerged(w: World, updates: seq<World>, track: bool)
    requires WellFormed(w) && AllWellFormed(updates) && updates != []
    ensures Merge(updates).Some?
    ensures ReceiveUpdate(w, Merge(updates).value, track, false) == ReceiveInTurn(w, updates, track)
  {
    MergeIsHomomorphism(w, updates, track);
  }
}
