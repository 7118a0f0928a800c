/** How whole states exchange updates: group by group as the protocol says, independent of change
    tracking on the receiving side, merged or in turn, and filtered by the receiver's own mask. */
module StateExchange {
  import opened Cells
  import opened EntityIndex
  import opened CsrRows
  import opened AttributeValues
  import opened EntityTable
  import opened EntityGroups
  import opened TrackedStates
  import D = DataMask
  import M = MergeUpdates
  import P = PublishSubscribe

  function ValuesOf(states: States): (w: M.World)
    requires AllWellFormed(states)
    ensures M.WellFormed(w)
  {
    map key | key in states :: states[key].Data()
  }

  function DataOf(upd: Update): M.World {
    map key | key in upd && upd[key].ids.Some? :: upd[key].Data()
  }

  /** Receiving an update into a state with change tracking gives the values of receiving it into
      plain values, about which MergeUpdates proves that merging is receiving in turn. */
  lemma ReceiveStatesValues(states: States, upd: Update, track: set<Flag>, processUndefined: bool)
    requires AllWellFormed(states) && Acceptable(states, upd) && Receivable(states, upd, false, track)
    ensures AllWellFormed(ReceiveStates(states, upd, false, track, processUndefined)) && M.WellFormed(DataOf(upd))
    ensures ValuesOf(ReceiveStates(states, upd, false, track, processUndefined))
         == M.ReceiveUpdate(ValuesOf(states), DataOf(upd), track != {}, processUndefined)
  {
    hide ReceiveStates, M.ReceiveUpdate, DataOf, M.WellFormed, Group.WellFormed, Group.Data, Acceptable, Receivable;
    ShapedIsWellFormed(states, upd);
    var l := ReceiveStates(states, upd, false, track, processUndefined);
    var r := M.ReceiveUpdate(ValuesOf(states), DataOf(upd), track != {}, processUndefined);
    forall key: M.Key
      ensures key in l <==> key in r
      ensures key in l ==> l[key].Data() == r[key]
    {
      SameAtKey(states, upd, track, processUndefined, key);
    }
    assert ValuesOf(l).Keys == r.Keys;
  }

  lemma SameAtKey(states: States, upd: Update, track: set<Flag>, processUndefined: bool, key: M.Key)
    requires AllWellFormed(states) && Acceptable(states, upd) && Receivable(states, upd, false, track)
    requires M.WellFormed(DataOf(upd))
    ensures var l, r := ReceiveStates(states, upd, false, track, processUndefined),
                        M.ReceiveUpdate(ValuesOf(states), DataOf(upd), track != {}, processUndefined);
      (key in l <==> key in r) && (key in l ==> l[key].Data() == r[key])
  {
    hide Group.WellFormed, Updated, Receive, Suits, HasIds, Group.Data, GroupAt, M.GroupOf;
    ReachedHaveIds(states, upd, track);
    if key in upd && Reached(states, key, track) {
      OneGroupValues(states, upd, track, processUndefined, key);
    }
  }

  lemma ShapedIsWellFormed(states: States, upd: Update)
    requires Acceptable(states, upd)
    ensures M.WellFormed(DataOf(upd))
  {
  }

  lemma ReachedHaveIds(states: States, upd: Update, track: set<Flag>)
    requires Receivable(states, upd, false, track)
    ensures forall key :: key in upd && Reached(states, key, track) ==> key in DataOf(upd)
    ensures track != {} ==> DataOf(upd).Keys == upd.Keys
  {
    assert track != {} ==> forall key :: key in upd ==> Reached(states, key, track);
  }

  lemma OneGroupValues(states: States, upd: Update, track: set<Flag>, processUndefined: bool, key: M.Key)
    requires AllWellFormed(states) && Acceptable(states, upd) && Receivable(states, upd, false, track)
    requires M.WellFormed(DataOf(upd)) && key in upd && Reached(states, key, track)
    ensures Updated(GroupAt(states, key), upd[key], false, track, processUndefined).Data()
         == Receive(M.GroupOf(ValuesOf(states), key), DataOf(upd)[key], track != {}, processUndefined)
  {
    ReceiveGroupData(GroupAt(states, key), upd[key].Data(), track, processUndefined);
    assert GroupAt(states, key).Data() == M.GroupOf(ValuesOf(states), key);
  }

  // ----- the protocol for all groups

  function AsUpdate(upd: map<M.Key, EntityData>): Update {
    map key | key in upd :: EntityUpdate(Some(upd[key].ids), upd[key].attrs)
  }

  /** What a publisher generates reaches each group of the subscriber as PublishSubscribe describes. */
  lemma EveryGroupIsDelivered(pub: States, sub: States, track: set<Flag>, key: M.Key)
    requires AllWellFormed(pub) && AllWellFormed(sub)
    requires key in pub ==> P.ShapedGroup(pub[key]) && P.KindsAgree(pub[key], GroupAt(sub, key))
    ensures GroupAt(ReceiveStates(sub, AsUpdate(GenerateStates(pub, P.PUBLISHED)), false, track, false), key)
         == if key in pub && Reached(sub, key, track) then P.Subscriber(pub[key], GroupAt(sub, key), track)
            else GroupAt(sub, key)
  {
    hide Generated, ReceiveGroup, AllChanged, Shaped, Attribute.WellFormed, Attribute.Rows, WellShaped;
    if key in pub && Generated(pub[key], P.PUBLISHED).Some? {
      P.GeneratedShape(pub[key]);
      var u := Generated(pub[key], P.PUBLISHED).value;
      assert EntityUpdate(Some(u.ids), u.attrs).Data() == u;
      GeneratedKinds(pub[key], GroupAt(sub, key));
    }
  }

  lemma GeneratedKinds(pub: Group, sub: Group)
    requires P.ShapedGroup(pub) && P.KindsAgree(pub, sub) && Generated(pub, P.PUBLISHED).Some?
    ensures Compatible(sub, Generated(pub, P.PUBLISHED).value)
  {
  }

  /** States that start from the same initial data start in agreement, with nothing to publish. */
  lemma InitialDataAgree(pub: Group, sub: Group, u: EntityData, track: set<Flag>, id: int, name: string)
    requires pub.WellFormed() && sub.WellFormed() && pub.ids == sub.ids == [] && WellShaped(u)
    requires Compatible(pub, u) && Compatible(sub, u) && pub.Has(name, P.PUBLISHED)
    requires P.Subscribed(sub.Data(), track != {}, name)
    ensures var p, s := ReceiveInto(pub, u, true, {}, false), ReceiveInto(sub, u, true, track, false);
      && P.Settled(p, name)
      && P.BaseView(p, id, name) == P.RowView(p, id, name) == P.RowView(s, id, name) == u.View(id, name)
  {
    hide ReceiveGroup, ResetAll, Shaped, WellShaped, Compatible, Attribute.Rows, Attribute.WellFormed, P.RowView,
         P.BaseView, P.Settled, P.FlagView, P.IsTracked, P.ReferenceView, Group.WellFormed;
    ResetIsSettled(ReceiveGroup(pub, u, {}, false), name);
    InitialRow(pub, u, {}, id, name);
    InitialRow(sub, u, track, id, name);
    P.SettledViews(ReceiveInto(pub, u, true, {}, false), id, name);
  }

  lemma InitialRow(g: Group, u: EntityData, track: set<Flag>, id: int, name: string)
    requires g.WellFormed() && g.ids == [] && WellShaped(u) && Compatible(g, u)
    requires P.Subscribed(g.Data(), track != {}, name)
    ensures P.RowView(ReceiveInto(g, u, true, track, false), id, name) == u.View(id, name)
  {
    hide ReceiveGroup, Attribute.Reset, Shaped;
    ReceiveGroupData(g, u, track, false);
    ReceiveView(g.Data(), u, track != {}, false, id, name);
  }

  lemma ResetIsSettled(g: Group, name: string)
    requires g.WellFormed()
    ensures P.Settled(ResetAll(g), name)
  {
  }

  // ----- filtering by the own mask

  datatype Content = Ids(ids: seq<int>) | Values(data: AttributeData)

  /** An update as nested dictionaries: datasets, entity groups, attributes. */
  type Raw = D.Data<Content>

  predicate IsRawUpdate(d: Raw) {
    d.Node? && forall ds :: ds in d.children ==>
      d.children[ds].Node? && forall eg :: eg in d.children[ds].children ==> d.children[ds].children[eg].Node?
  }

  function GroupsIn(d: Raw): set<M.Key>
    requires IsRawUpdate(d)
  {
    set ds, eg | ds in d.children && eg in d.children[ds].children :: M.Key(ds, eg)
  }

  function ParseGroup(g: Raw): EntityUpdate
    requires g.Node?
  {
    var c := g.children;
    EntityUpdate(if D.ID in c && c[D.ID].Leaf? && c[D.ID].value.Ids? then Some(c[D.ID].value.ids) else None,
                 map name | name in c && name != D.ID && c[name].Leaf? && c[name].value.Values? :: c[name].value.data)
  }

  function Parse(d: Raw): Update
    requires IsRawUpdate(d)
  {
    map key | key in GroupsIn(d) :: ParseGroup(d.children[key.dataset].children[key.entityGroup])
  }

  /** The part of an update for one group as a dictionary. */
  function RawGroup(u: EntityUpdate): Raw {
    D.Node((map name | name in u.attrs :: D.Leaf(Values(u.attrs[name])))
           + if u.ids.Some? then map[D.ID := D.Leaf(Ids(u.ids.value))] else map[])
  }

  /** It is parsed as it was. */
  lemma ParseOfRawGroup(u: EntityUpdate)
    requires D.ID !in u.attrs
    ensures ParseGroup(RawGroup(u)) == u
  {
    assert ParseGroup(RawGroup(u)).attrs == u.attrs;
  }

  /** The groups of an update are those of its datasets. */
  lemma ParsedGroups(d: Raw, ds: string, eg: string)
    requires IsRawUpdate(d)
    ensures M.Key(ds, eg) in Parse(d) <==> ds in d.children && eg in d.children[ds].children
    ensures M.Key(ds, eg) in Parse(d) ==> Parse(d)[M.Key(ds, eg)] == ParseGroup(d.children[ds].children[eg])
  {
    assert M.Key(ds, eg) in GroupsIn(d) <==> ds in d.children && eg in d.children[ds].children;
  }

  function NamesWith(g: Group, flags: set<Flag>): set<string> {
    set name | name in g.attrs && g.Has(name, flags)
  }

  /** The groups of a dataset that have flagged attributes. */
  function MaskedGroups(states: States, flags: set<Flag>, ds: string): set<string> {
    set key | key in states && key.dataset == ds && NamesWith(states[key], flags) != {} :: key.entityGroup
  }

  function MaskedDatasets(states: States, flags: set<Flag>): set<string> {
    set key | key in states && NamesWith(states[key], flags) != {} :: key.dataset
  }

  lemma MaskedGroupsAre(states: States, flags: set<Flag>, ds: string, eg: string)
    ensures eg in MaskedGroups(states, flags, ds)
       <==> M.Key(ds, eg) in states && NamesWith(states[M.Key(ds, eg)], flags) != {}
    ensures eg in MaskedGroups(states, flags, ds) ==> ds in MaskedDatasets(states, flags)
  {
    var key := M.Key(ds, eg);
    if key in states && NamesWith(states[key], flags) != {} {
      assert key.dataset == ds && key.entityGroup == eg;
    }
  }

  /** The mask of the flagged attributes; groups and datasets without any are left out. */
  function MaskOf(states: States, flags: set<Flag>): D.Mask {
    D.Dict(map ds | ds in MaskedDatasets(states, flags) ::
      D.Dict(map eg | eg in MaskedGroups(states, flags, ds) ::
        MaskedGroupsAre(states, flags, ds, eg);
        D.Names(NamesWith(states[M.Key(ds, eg)], flags))))
  }

  /** The part of an update that the mask asks for. */
  function Restricted(upd: Update, states: States, flags: set<Flag>): Update {
    map key | key in upd && key in states && NamesWith(states[key], flags) != {} ::
      EntityUpdate(upd[key].ids,
                   map name | name in upd[key].attrs && name in NamesWith(states[key], flags) :: upd[key].attrs[name])
  }

  lemma FilterGroup(g: Raw, names: set<string>)
    requires g.Node? && D.ID !in names
    ensures var r := D.Filter(g, D.Names(names));
      && r.Ok? && r.value.Node?
      && ParseGroup(r.value).ids == ParseGroup(g).ids
      && ParseGroup(r.value).attrs
         == map name | name in ParseGroup(g).attrs && name in names :: ParseGroup(g).attrs[name]
  {
  }

  lemma FilterDataset(d: Raw, states: States, flags: set<Flag>, ds: string)
    requires IsRawUpdate(d) && ds in d.children && ds in MaskOf(states, flags).parts
    ensures var r := D.Filter(d.children[ds], MaskOf(states, flags).parts[ds]);
      && r.Ok? && r.value.Node?
      && r.value.children.Keys == d.children[ds].children.Keys * MaskedGroups(states, flags, ds)
      && forall eg :: eg in r.value.children ==>
        && M.Key(ds, eg) in states
        && D.Filter(d.children[ds].children[eg], D.Names(NamesWith(states[M.Key(ds, eg)], flags)))
          == Ok(r.value.children[eg])
        && r.value.children[eg].Node?
  {
    forall eg
      ensures eg in MaskedGroups(states, flags, ds) ==> M.Key(ds, eg) in states
    {
      MaskedGroupsAre(states, flags, ds, eg);
    }
  }

  ghost predicate IdIsNoAttribute(states: States) {
    forall key :: key in states ==> D.ID !in states[key].attrs
  }

  lemma FilterKeys(d: Raw, states: States, flags: set<Flag>)
    requires IsRawUpdate(d)
    ensures var m := MaskOf(states, flags); var r := D.Filter(d, m);
      && r.Ok? && IsRawUpdate(r.value)
      && r.value.children.Keys == d.children.Keys * m.parts.Keys
      && forall ds :: ds in r.value.children ==> D.Filter(d.children[ds], m.parts[ds]) == Ok(r.value.children[ds])
  {
    forall ds | ds in d.children && ds in MaskOf(states, flags).parts
      ensures D.Filter(d.children[ds], MaskOf(states, flags).parts[ds]).Ok?
      ensures D.Filter(d.children[ds], MaskOf(states, flags).parts[ds]).value.Node?
      ensures forall eg :: eg in D.Filter(d.children[ds], MaskOf(states, flags).parts[ds]).value.children ==>
        D.Filter(d.children[ds], MaskOf(states, flags).parts[ds]).value.children[eg].Node?
    {
      FilterDataset(d, states, flags, ds);
    }
  }

  /** Filtering by the mask restricts the update to the flagged attributes. */
  lemma FilterRestricts(d: Raw, states: States, flags: set<Flag>)
    requires IsRawUpdate(d) && IdIsNoAttribute(states)
    ensures var r := D.Filter(d, MaskOf(states, flags));
      r.Ok? && IsRawUpdate(r.value) && Parse(r.value) == Restricted(Parse(d), states, flags)
  {
    hide D.Filter, ParseGroup, Group.Has, MaskOf, MaskedGroups, MaskedDatasets;
    FilterKeys(d, states, flags);
    var r := D.Filter(d, MaskOf(states, flags)).value;
    var l, t := Parse(r), Restricted(Parse(d), states, flags);
    forall ds, eg
      ensures M.Key(ds, eg) in l <==> M.Key(ds, eg) in t
      ensures M.Key(ds, eg) in l ==> l[M.Key(ds, eg)] == t[M.Key(ds, eg)]
    {
      OneGroupRestricted(d, states, flags, ds, eg);
    }
    forall key: M.Key
      ensures key in l <==> key in t
      ensures key in l ==> l[key] == t[key]
    {
      assert key == M.Key(key.dataset, key.entityGroup);
    }
  }

  /** What filtering by the mask of a state leaves: the groups in which the state has an attribute with one of
      the flags, with their ids, and in these the attributes that it has with one of them, as they were. */
  lemma FilterLeaves(d: Raw, states: States, flags: set<Flag>, key: M.Key)
    requires IsRawUpdate(d) && IdIsNoAttribute(states)
    ensures D.Filter(d, MaskOf(states, flags)).Ok? && IsRawUpdate(D.Filter(d, MaskOf(states, flags)).value)
    ensures var whole, left := Parse(d), Parse(D.Filter(d, MaskOf(states, flags)).value);
      && (key in left <==>
            && key in whole && key in states
            && exists name :: name in states[key].attrs && states[key].attrs[name].flags * flags != {})
      && (key in left ==>
            && left[key].ids == whole[key].ids
            && forall name ::
                 && (name in left[key].attrs <==>
                       && name in whole[key].attrs && name in states[key].attrs
                       && states[key].attrs[name].flags * flags != {})
                 && (name in left[key].attrs ==> left[key].attrs[name] == whole[key].attrs[name]))
  {
    hide D.Filter, ParseGroup, MaskOf, MaskedGroups, MaskedDatasets, Parse;
    FilterRestricts(d, states, flags);
    if key in states {
      forall name
        ensures name in NamesWith(states[key], flags)
           <==> name in states[key].attrs && states[key].attrs[name].flags * flags != {}
      {
      }
      if NamesWith(states[key], flags) != {} {
        var name :| name in NamesWith(states[key], flags);
        assert states[key].attrs[name].flags * flags != {};
      }
    }
  }

  lemma OneGroupRestricted(d: Raw, states: States, flags: set<Flag>, ds: string, eg: string)
    requires IsRawUpdate(d) && IdIsNoAttribute(states)
    requires D.Filter(d, MaskOf(states, flags)).Ok? && IsRawUpdate(D.Filter(d, MaskOf(states, flags)).value)
    ensures var key, l := M.Key(ds, eg), Parse(D.Filter(d, MaskOf(states, flags)).value);
      var t := Restricted(Parse(d), states, flags);
      (key in l <==> key in t) && (key in l ==> l[key] == t[key])
  {
    hide D.Filter, ParseGroup, Group.Has;
    FilterKeys(d, states, flags);
    MaskedGroupsAre(states, flags, ds, eg);
    var key, r := M.Key(ds, eg), D.Filter(d, MaskOf(states, flags)).value;
    assert key in GroupsIn(r) <==> ds in r.children && eg in r.children[ds].children;
    assert key in GroupsIn(d) <==> ds in d.children && eg in d.children[ds].children;
    if ds in r.children {
      FilterDataset(d, states, flags, ds);
      if eg in r.children[ds].children {
        FilterGroup(d.children[ds].children[eg], NamesWith(states[key], flags));
      }
    }
  }

  /** Receiving an update filtered by the own mask of subscriptions leaves every subscribed attribute,
      and the index of its group, as receiving the whole update does. */
  lemma FilteringLosesNothing(states: States, d: Raw, track: set<Flag>, processUndefined: bool, key: M.Key,
                              name: string)
    requires AllWellFormed(states) && IdIsNoAttribute(states) && IsRawUpdate(d)
    requires Acceptable(states, Parse(d)) && Receivable(states, Parse(d), false, track)
    requires key in states && states[key].Has(name, {SUBSCRIBE})
    ensures var r := D.Filter(d, MaskOf(states, {SUBSCRIBE}));
      && r.Ok? && IsRawUpdate(r.value)
      && Acceptable(states, Parse(r.value)) && Receivable(states, Parse(r.value), false, track)
      && var whole, part := ReceiveStates(states, Parse(d), false, track, processUndefined),
                            ReceiveStates(states, Parse(r.value), false, track, processUndefined);
         && key in whole && key in part && part[key].ids == whole[key].ids
         && name in whole[key].attrs && name in part[key].attrs && part[key].attrs[name] == whole[key].attrs[name]
  {
    hide D.Filter, MaskOf, ParseGroup, Parse;
    FilterRestricts(d, states, {SUBSCRIBE});
    RestrictedIsAcceptable(states, Parse(d), {SUBSCRIBE}, track);
    RestrictedSuffices(states, Parse(d), track, processUndefined, key, name);
  }

  lemma RestrictedIsAcceptable(states: States, upd: Update, flags: set<Flag>, track: set<Flag>)
    requires AllWellFormed(states) && Acceptable(states, upd) && Receivable(states, upd, false, track)
    ensures Acceptable(states, Restricted(upd, states, flags))
    ensures Receivable(states, Restricted(upd, states, flags), false, track)
  {
    hide Shaped, Group.WellFormed;
  }

  lemma RestrictedSuffices(states: States, upd: Update, track: set<Flag>, processUndefined: bool, key: M.Key,
                           name: string)
    requires AllWellFormed(states) && Acceptable(states, upd) && Receivable(states, upd, false, track)
    requires key in states && states[key].Has(name, {SUBSCRIBE})
    requires Acceptable(states, Restricted(upd, states, {SUBSCRIBE}))
    ensures var whole, part := ReceiveStates(states, upd, false, track, processUndefined),
                               ReceiveStates(states, Restricted(upd, states, {SUBSCRIBE}), false, track,
                                             processUndefined);
      && key in whole && key in part && part[key].ids == whole[key].ids
      && name in whole[key].attrs && name in part[key].attrs && part[key].attrs[name] == whole[key].attrs[name]
  {
    hide Shaped, Attribute.Update, Attribute.Resize, Updated, Suits, HasIds, Group.WellFormed, WellShaped, Compatible;
    assert name in NamesWith(states[key], {SUBSCRIBE});
    if key in upd {
      var part := Restricted(upd, states, {SUBSCRIBE});
      assert GroupAt(states, key) == states[key] && Suits(states[key], upd[key]) && Suits(states[key], part[key]);
      PartOfGroupSuffices(states[key], upd[key], part[key], track, processUndefined, name);
    }
  }

  lemma PartOfGroupSuffices(g: Group, u: EntityUpdate, part: EntityUpdate, track: set<Flag>, processUndefined: bool,
                            name: string)
    requires Suits(g, u) && Suits(g, part) && name in g.attrs && part.ids == u.ids
    requires if name in u.attrs then name in part.attrs && part.attrs[name] == u.attrs[name] else name !in part.attrs
    ensures var all, some :=
      Updated(g, u, false, track, processUndefined), Updated(g, part, false, track, processUndefined);
      all.ids == some.ids && name in all.attrs && name in some.attrs && all.attrs[name] == some.attrs[name]
  {
    hide Shaped, Attribute.Update, Attribute.Resize, Attribute.Rows, Attribute.WellFormed;
  }
}
