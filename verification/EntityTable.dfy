/** What receiving an update means for the ids and the rows of one entity group. An attribute that is
    not there, or an entity that is not there, counts as undefined. */
module EntityTable {
  import opened Cells
  import opened EntityIndex
  import opened CsrRows
  import opened AttributeValues

  datatype AttributeData = AttributeData(kind: Kind, isFloat: bool, rows: Column)

  /** The data of one entity group, as it is exchanged in updates and as it is stored. */
  datatype EntityData = EntityData(ids: seq<int>, attrs: map<string, AttributeData>) {

    ghost predicate WellFormed() {
      Distinct(ids) && forall name :: name in attrs ==> |attrs[name].rows| == |ids|
    }

    function View(id: int, name: string): Row
      requires WellFormed()
    {
      if name in attrs && id in ids then attrs[name].rows[PositionOf(ids, id)] else UNDEFINED_ROW
    }
  }

  const EMPTY_GROUP := EntityData([], map[])

  /** The ids that are not known yet, in the order in which they come. */
  function NewIds(known: seq<int>, ids: seq<int>): (r: seq<int>)
    ensures forall id :: id in r <==> id in ids && id !in known
    ensures Distinct(ids) ==> Distinct(r)
  {
    if ids == [] then []
    else
      var n := |ids| - 1;
      assert ids == ids[..n] + [ids[n]];
      var front := NewIds(known, ids[..n]);
      if ids[n] in known then front else front + [ids[n]]
  }

  function AllIds(known: seq<int>, ids: seq<int>): (r: seq<int>)
    ensures forall id :: id in r <==> id in known || id in ids
    ensures Distinct(known) && Distinct(ids) ==> Distinct(r)
  {
    var newIds := NewIds(known, ids);
    assert forall j :: 0 <= j < |newIds| ==> newIds[j] in newIds;
    known + newIds
  }

  function Positions(all: seq<int>, ids: seq<int>): (r: seq<nat>)
    requires forall id :: id in ids ==> id in all
    ensures |r| == |ids|
    ensures forall k :: 0 <= k < |ids| ==> r[k] < |all| && all[r[k]] == ids[k]
    ensures Distinct(ids) ==> ValidTargets(r, |all|)
  {
    var r := seq(|ids|, k requires 0 <= k < |ids| => assert ids[k] in ids; PositionOf(all, ids[k]) as nat);
    assert forall k :: 0 <= k < |ids| ==> ids[k] in all && all[r[k]] == ids[k];
    r
  }

  /** One attribute, with rows for all ids, before the values of the update are written. */
  function Prepared(t: EntityData, u: EntityData, name: string, size: nat): (r: AttributeData)
    requires t.WellFormed() && |t.ids| <= size && (name in t.attrs || name in u.attrs)
    ensures |r.rows| == size
  {
    if name in t.attrs then t.attrs[name].(rows := t.attrs[name].rows + Blank(size - |t.ids|))
    else u.attrs[name].(rows := Blank(size))
  }

  function Received(t: EntityData, u: EntityData, name: string, ids: seq<int>, processUndefined: bool)
    : (r: AttributeData)
    requires t.WellFormed() && u.WellFormed() && (name in t.attrs || name in u.attrs)
    requires |t.ids| <= |ids| && forall id :: id in u.ids ==> id in ids
    ensures |r.rows| == |ids|
  {
    var prepared := Prepared(t, u, name, |ids|);
    if name in u.attrs
    then prepared.(rows := Patch(prepared.rows, Positions(ids, u.ids), u.attrs[name].rows, processUndefined))
    else prepared
  }

  /** The group after an update: new ids are appended, unknown attributes are added when unknown
      attributes are tracked, and the rows of the update are written. */
  function Receive(t: EntityData, u: EntityData, track: bool, processUndefined: bool): (r: EntityData)
    requires t.WellFormed() && u.WellFormed()
    ensures r.WellFormed() && r.ids == AllIds(t.ids, u.ids)
    ensures r.attrs.Keys == t.attrs.Keys + (if track then u.attrs.Keys else {})
  {
    var ids := AllIds(t.ids, u.ids);
    EntityData(ids, map name | name in t.attrs.Keys + (if track then u.attrs.Keys else {}) ::
      Received(t, u, name, ids, processUndefined))
  }

  /** The row that patching leaves at an id. */
  lemma PatchedRow(rows: Column, ids: seq<int>, u: EntityData, name: string, processUndefined: bool, id: int)
    requires |rows| == |ids| && Distinct(ids) && u.WellFormed() && name in u.attrs
    requires id in ids && forall x :: x in u.ids ==> x in ids
    ensures Patch(rows, Positions(ids, u.ids), u.attrs[name].rows, processUndefined)[PositionOf(ids, id)]
         == if id in u.ids && (processUndefined || u.View(id, name) != UNDEFINED_ROW) then u.View(id, name)
            else rows[PositionOf(ids, id)]
  {
    var targets := Positions(ids, u.ids);
    if id in u.ids {
      var k := PositionOf(u.ids, id);
      PositionUnique(ids, targets[k]);
      PatchAt(rows, targets, u.attrs[name].rows, processUndefined, k);
    } else {
      forall k | 0 <= k < |targets|
        ensures targets[k] != PositionOf(ids, id)
      {
        assert ids[targets[k]] == u.ids[k] && u.ids[k] in u.ids;
      }
    }
  }

  /** Cell by cell: a row of the update wins, unless it is undefined and undefined rows are skipped. */
  lemma ReceiveView(t: EntityData, u: EntityData, track: bool, processUndefined: bool, id: int, name: string)
    requires t.WellFormed() && u.WellFormed()
    ensures Receive(t, u, track, processUndefined).View(id, name)
         == if && name in Receive(t, u, track, processUndefined).attrs && name in u.attrs && id in u.ids
               && (processUndefined || u.View(id, name) != UNDEFINED_ROW)
            then u.View(id, name) else t.View(id, name)
  {
    var ids := AllIds(t.ids, u.ids);
    var r := Receive(t, u, track, processUndefined);
    if name in r.attrs && id in ids {
      OldRow(t, u, id, name);
      if name in u.attrs {
        PatchedRow(Prepared(t, u, name, |ids|).rows, ids, u, name, processUndefined, id);
      }
    }
  }

  lemma OldRow(t: EntityData, u: EntityData, id: int, name: string)
    requires t.WellFormed() && u.WellFormed() && (name in t.attrs || name in u.attrs)
    requires id in t.ids || id in u.ids
    ensures var ids := AllIds(t.ids, u.ids);
      var i := PositionOf(ids, id);
      0 <= i < |ids| && Prepared(t, u, name, |ids|).rows[i] == t.View(id, name)
  {
    var ids := AllIds(t.ids, u.ids);
    PositionStable(t.ids, NewIds(t.ids, u.ids), id);
  }

  /** A well-formed group is determined by its ids, its attribute names and kinds, and its rows. */
  lemma SameViews(a: EntityData, b: EntityData)
    requires a.WellFormed() && b.WellFormed() && a.ids == b.ids && a.attrs.Keys == b.attrs.Keys
    requires forall name :: name in a.attrs ==>
      a.attrs[name].kind == b.attrs[name].kind && a.attrs[name].isFloat == b.attrs[name].isFloat
    requires forall id, name :: a.View(id, name) == b.View(id, name)
    ensures a == b
  {
    forall name | name in a.attrs
      ensures a.attrs[name] == b.attrs[name]
    {
      forall i | 0 <= i < |a.ids|
        ensures a.attrs[name].rows[i] == b.attrs[name].rows[i]
      {
        PositionUnique(a.ids, i);
        assert a.View(a.ids[i], name) == b.View(a.ids[i], name);
      }
    }
  }
}
