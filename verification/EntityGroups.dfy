/** The ids and attributes of one entity group with their change tracking: receiving updates and
    generating updates of what changed. */
module EntityGroups {
  import opened Cells
  import opened EntityIndex
  import opened CsrRows
  import opened AttributeValues
  import opened EntityTable

  const DEFAULT_TOLERANCE := Isclose(0.00001, 0.00000001, true)

  datatype Group = Group(ids: seq<int>, attrs: map<string, Attribute>) {

    ghost predicate WellFormed() {
      && Distinct(ids)
      && forall name :: name in attrs ==> attrs[name].WellFormed() && |attrs[name].Rows()| == |ids|
    }

    /** The values without the change tracking, as `to_dict` gives them. */
    function Data(): (d: EntityData)
      requires WellFormed()
      ensures d.WellFormed() && d.ids == ids && d.attrs.Keys == attrs.Keys
    {
      EntityData(ids, map name | name in attrs :: Describe(attrs[name]))
    }

    predicate Has(name: string, flags: set<Flag>) {
      name in attrs && attrs[name].flags * flags != {}
    }
  }

  function Describe(a: Attribute): AttributeData
    requires a.WellFormed()
  {
    AttributeData(a.Kind(), a.cmp.Isclose?, a.Rows())
  }

  /** The rows have the shape that their kind prescribes. */
  ghost predicate Shaped(d: AttributeData) {
    if d.kind == UNIFORM then IsUniform(d.rows) else UndefinedOnlyAlone(d.rows)
  }

  ghost predicate WellShaped(u: EntityData) {
    u.WellFormed() && forall name :: name in u.attrs ==> Shaped(u.attrs[name])
  }

  /** The update does not mix uniform and CSR data in one attribute; the source raises when it does. */
  ghost predicate Compatible(g: Group, u: EntityData) {
    forall name :: name in g.attrs && name in u.attrs ==> g.attrs[name].Kind() == u.attrs[name].kind
  }

  function NewAttribute(d: AttributeData, size: nat, flags: set<Flag>): (a: Attribute)
    ensures a.WellFormed() && a.Rows() == Blank(size) && a.Kind() == d.kind && a.flags == flags
    ensures d.isFloat <==> a.cmp.Isclose?
  {
    Empty(d.kind, size, if d.isFloat then DEFAULT_TOLERANCE else Exact, flags)
  }

  /** One attribute of the group after the update. */
  function ReceivedAttribute(g: Group, u: EntityData, name: string, ids: seq<int>, track: set<Flag>,
                             processUndefined: bool): (a: Attribute)
    requires g.WellFormed() && WellShaped(u) && Compatible(g, u) && (name in g.attrs || name in u.attrs)
    requires |g.ids| <= |ids| && Distinct(ids) && forall id :: id in u.ids ==> id in ids
    ensures a.WellFormed() && |a.Rows()| == |ids|
  {
    var resized := if name in g.attrs then g.attrs[name].Resize(|ids|) else NewAttribute(u.attrs[name], |ids|, track);
    if name in u.attrs then
      var targets := Positions(ids, u.ids);
      UpdatePatches(resized, targets, u.attrs[name].rows, processUndefined);
      resized.Update(targets, u.attrs[name].rows, processUndefined)
    else resized
  }

  function ReceiveGroup(g: Group, u: EntityData, track: set<Flag>, processUndefined: bool): (r: Group)
    requires g.WellFormed() && WellShaped(u) && Compatible(g, u)
    ensures r.WellFormed() && r.ids == AllIds(g.ids, u.ids)
    ensures r.attrs.Keys == g.attrs.Keys + (if track != {} then u.attrs.Keys else {})
  {
    var ids := AllIds(g.ids, u.ids);
    Group(ids, map name | name in g.attrs.Keys + (if track != {} then u.attrs.Keys else {}) ::
      ReceivedAttribute(g, u, name, ids, track, processUndefined))
  }

  /** Known attributes keep their flags and comparison; one that is tracked though unknown gets the flags of
      the state and compares floats by the default tolerance. */
  lemma SetupAfter(g: Group, u: EntityData, track: set<Flag>, processUndefined: bool, name: string)
    requires g.WellFormed() && WellShaped(u) && Compatible(g, u)
    requires name in g.attrs || (track != {} && name in u.attrs)
    ensures var a := ReceiveGroup(g, u, track, processUndefined).attrs[name];
      if name in g.attrs then
        a.flags == g.attrs[name].flags && a.cmp == g.attrs[name].cmp && a.Kind() == g.attrs[name].Kind()
      else
        && a.flags == track && a.Kind() == u.attrs[name].kind
        && a.cmp == if u.attrs[name].isFloat then DEFAULT_TOLERANCE else Exact
  {
    hide Attribute.Update, Attribute.Resize, Attribute.Rows, Attribute.WellFormed, Attribute.Accepts, Shaped;
  }

  lemma ReceivedAttributeData(g: Group, u: EntityData, name: string, track: set<Flag>, processUndefined: bool)
    requires g.WellFormed() && WellShaped(u) && Compatible(g, u) && (name in g.attrs || name in u.attrs)
    ensures var ids := AllIds(g.ids, u.ids);
      Describe(ReceivedAttribute(g, u, name, ids, track, processUndefined))
      == Received(g.Data(), u, name, ids, processUndefined)
  {
    hide Patch, Attribute.Update, Shaped;
    var ids := AllIds(g.ids, u.ids);
    var resized := if name in g.attrs then g.attrs[name].Resize(|ids|) else NewAttribute(u.attrs[name], |ids|, track);
    assert Describe(resized) == Prepared(g.Data(), u, name, |ids|);
    if name in u.attrs {
      assert Shaped(u.attrs[name]);
      UpdateOfResized(resized, Positions(ids, u.ids), u.attrs[name], processUndefined);
    }
  }

  lemma UpdateOfResized(a: Attribute, targets: seq<nat>, upd: AttributeData, processUndefined: bool)
    requires a.WellFormed() && Shaped(upd) && upd.kind == a.Kind()
    requires |targets| == |upd.rows| && ValidTargets(targets, |a.Rows()|)
    ensures a.Accepts(targets, upd.rows)
    ensures Describe(a.Update(targets, upd.rows, processUndefined))
         == Describe(a).(rows := Patch(a.Rows(), targets, upd.rows, processUndefined))
  {
    UpdatePatches(a, targets, upd.rows, processUndefined);
  }

  /** Change tracking does not change what is received. */
  lemma ReceiveGroupData(g: Group, u: EntityData, track: set<Flag>, processUndefined: bool)
    requires g.WellFormed() && WellShaped(u) && Compatible(g, u)
    ensures ReceiveGroup(g, u, track, processUndefined).Data() == Receive(g.Data(), u, track != {}, processUndefined)
  {
    hide ReceivedAttribute, Received, Describe, Group.WellFormed, Shaped;
    var r := ReceiveGroup(g, u, track, processUndefined);
    var d := Receive(g.Data(), u, track != {}, processUndefined);
    forall name | name in r.attrs
      ensures r.Data().attrs[name] == d.attrs[name]
    {
      ReceivedAttributeData(g, u, name, track, processUndefined);
    }
  }

  // ----- generating updates

  /** The entities for which a flagged attribute changed. */
  function AllChanged(g: Group, flags: set<Flag>): (mask: seq<bool>)
    requires g.WellFormed()
    ensures |mask| == |g.ids|
    ensures forall i :: 0 <= i < |mask| ==>
      (mask[i] <==> exists name :: g.Has(name, flags) && g.attrs[name].Changed()[i])
  {
    seq(|g.ids|, i requires 0 <= i < |g.ids| =>
      exists name :: name in g.attrs && g.Has(name, flags) && g.attrs[name].Changed()[i])
  }

  /** The update with everything that changed, or nothing. Attributes without changes are left out;
      the other rows are those of all changed entities. */
  function Generated(g: Group, flags: set<Flag>): (u: Option<EntityData>)
    requires g.WellFormed()
  {
    var mask := AllChanged(g, flags);
    if true !in mask then None
    else
      var positions := Flatnonzero(mask, |mask|);
      Some(EntityData(
        seq(|positions|, k requires 0 <= k < |positions| => assert positions[k] in positions; g.ids[positions[k]]),
        map name | name in g.attrs && g.Has(name, flags) && g.attrs[name].HasChanges() ::
          AttributeData(g.attrs[name].Kind(), g.attrs[name].cmp.Isclose?, g.attrs[name].GenerateUpdate(mask))))
  }

  lemma GeneratedIds(g: Group, flags: set<Flag>)
    requires g.WellFormed() && Generated(g, flags).Some?
    ensures var u, mask := Generated(g, flags).value, AllChanged(g, flags);
      var positions := Flatnonzero(mask, |mask|);
      && u.WellFormed() && |u.ids| == |positions|
      && forall k :: 0 <= k < |positions| ==> 0 <= positions[k] < |g.ids| && u.ids[k] == g.ids[positions[k]]
  {
    var mask := AllChanged(g, flags);
    var positions := Flatnonzero(mask, |mask|);
    assert forall k :: 0 <= k < |positions| ==> positions[k] in positions;
  }

  /** Where an entity is in the update. */
  lemma GeneratedPosition(g: Group, flags: set<Flag>, i: nat)
    requires g.WellFormed() && i < |g.ids| && Generated(g, flags).Some?
    ensures var mask := AllChanged(g, flags);
      var k := PositionOf(Generated(g, flags).value.ids, g.ids[i]);
      if mask[i] then 0 <= k < |Flatnonzero(mask, |mask|)| && Flatnonzero(mask, |mask|)[k] == i else k == -1
  {
    hide Attribute.WellFormed, Attribute.Rows, Attribute.Changed, Flatnonzero, MaskedRows;
    GeneratedIds(g, flags);
    var u := Generated(g, flags).value;
    var mask := AllChanged(g, flags);
    SelectedPosition(g.ids, mask, u.ids, i);
  }

  /** Where the i-th of all ids is among the ids under a mask. */
  lemma SelectedPosition(ids: seq<int>, mask: seq<bool>, selected: seq<int>, i: nat)
    requires Distinct(ids) && |mask| == |ids| && i < |ids| && Distinct(selected)
    requires var positions := Flatnonzero(mask, |mask|);
      |selected| == |positions| && forall k :: 0 <= k < |positions| ==>
        0 <= positions[k] < |ids| && selected[k] == ids[positions[k]]
    ensures var positions := Flatnonzero(mask, |mask|);
      var k := PositionOf(selected, ids[i]);
      if mask[i] then 0 <= k < |positions| && positions[k] == i else k == -1
  {
    hide Flatnonzero, Distinct;
    var positions := Flatnonzero(mask, |mask|);
    if mask[i] {
      assert i in positions;
      var k :| 0 <= k < |positions| && positions[k] == i;
      PositionUnique(selected, k);
    } else if ids[i] in selected {
      var k :| 0 <= k < |selected| && selected[k] == ids[i];
      assert positions[k] in positions;
      PositionUnique(ids, i);
      PositionUnique(ids, positions[k]);
    }
  }

  /** The row that the update holds for an entity: the row of the group where it changed and the
      undefined row where it did not. */
  lemma GeneratedView(g: Group, flags: set<Flag>, i: nat, name: string)
    requires g.WellFormed() && i < |g.ids| && Generated(g, flags).Some? && g.Has(name, flags)
    ensures Generated(g, flags).value.WellFormed()
    ensures Generated(g, flags).value.View(g.ids[i], name)
         == if g.attrs[name].Changed()[i] then g.attrs[name].Rows()[i] else UNDEFINED_ROW
  {
    hide Attribute.WellFormed, Attribute.Rows, Attribute.Changed, Flatnonzero;
    GeneratedIds(g, flags);
    GeneratedPosition(g, flags, i);
    var a, mask := g.attrs[name], AllChanged(g, flags);
    if a.Changed()[i] {
      assert mask[i] && true in a.Changed();
    }
  }

  /** An update has exactly the attributes with one of the flags that changed for some entity. */
  lemma GeneratedAttributes(g: Group, flags: set<Flag>, name: string)
    requires g.WellFormed() && Generated(g, flags).Some?
    ensures name in Generated(g, flags).value.attrs <==>
      && name in g.attrs && g.attrs[name].flags * flags != {}
      && exists i :: 0 <= i < |g.ids| && g.attrs[name].Changed()[i]
    ensures name in Generated(g, flags).value.attrs ==>
      && Generated(g, flags).value.attrs[name].kind == g.attrs[name].Kind()
      && (Generated(g, flags).value.attrs[name].isFloat <==> g.attrs[name].cmp.Isclose?)
  {
    hide Attribute.WellFormed, Attribute.Rows, Flatnonzero, AllChanged, Attribute.Changed;
    if name in g.attrs && true in g.attrs[name].Changed() {
      var i :| 0 <= i < |g.attrs[name].Changed()| && g.attrs[name].Changed()[i];
    }
  }

  /** Without an update no flagged attribute changed. */
  lemma NothingGenerated(g: Group, flags: set<Flag>, i: nat, name: string)
    requires g.WellFormed() && i < |g.ids| && Generated(g, flags).None? && g.Has(name, flags)
    ensures !g.attrs[name].Changed()[i]
  {
    assert AllChanged(g, flags)[i] in AllChanged(g, flags);
  }

  /** There is an update exactly when a flagged attribute changed for some entity. */
  lemma GeneratedWhenChanged(g: Group, flags: set<Flag>)
    requires g.WellFormed()
    ensures Generated(g, flags).Some? <==>
      exists name, i :: && name in g.attrs && g.attrs[name].flags * flags != {}
                        && 0 <= i < |g.ids| && g.attrs[name].Changed()[i]
  {
    hide Attribute.WellFormed, Attribute.Rows, Flatnonzero, Attribute.Changed;
    var mask := AllChanged(g, flags);
    if true in mask {
      var i :| 0 <= i < |mask| && mask[i];
      var name :| g.Has(name, flags) && g.attrs[name].Changed()[i];
    }
    if name, i :|
      && name in g.attrs && g.attrs[name].flags * flags != {}
      && 0 <= i < |g.ids| && g.attrs[name].Changed()[i]
    {
      assert g.Has(name, flags) && mask[i];
    }
  }

  function ResetFlagged(g: Group, flags: set<Flag>): (r: Group)
    requires g.WellFormed()
    ensures r.WellFormed() && r.ids == g.ids && r.attrs.Keys == g.attrs.Keys
    ensures r.Data() == g.Data()
  {
    Group(g.ids, map name | name in g.attrs :: if g.Has(name, flags) then g.attrs[name].Reset() else g.attrs[name])
  }

  /** The attributes with at least one of the flags are reset, all others are left alone. */
  lemma ResetOnlyFlagged(g: Group, flags: set<Flag>, name: string)
    requires g.WellFormed() && name in g.attrs
    ensures ResetFlagged(g, flags).attrs[name]
         == if g.attrs[name].flags * flags != {} then g.attrs[name].Reset() else g.attrs[name]
  {
  }
}
