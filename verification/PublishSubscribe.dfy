/** The protocol by which a publishing and a subscribing model share a world state. In every cycle the
    publisher writes attributes and receives updates of others, generates an update of what changed
    and resets its change tracking; the subscriber receives the update. */
module PublishSubscribe {
  import opened Cells
  import opened EntityIndex
  import opened CsrRows
  import opened ChangeTracking
  import opened AttributeValues
  import opened EntityTable
  import opened EntityGroups

  const PUBLISHED: set<Flag> := {PUBLISH}

  /** What happens to the publisher's entity group within a cycle: the model reads and writes its
      attributes and asks for their changes, and updates of other models come in. */
  datatype Action =
    | Write(name: string, targets: seq<nat>, upd: Column, processUndefined: bool)
    | WriteMatrix(name: string, matrix: Matrix, tolerance: Comparator)
    | Read(name: string)
    | Query(name: string)
    | Incoming(update: EntityData)

  ghost predicate ShapedGroup(g: Group) {
    g.WellFormed() && forall name :: name in g.attrs ==> Shaped(Describe(g.attrs[name]))
  }

  // ----- one attribute

  /** The action can be applied to an attribute. */
  ghost predicate Fits(attr: Attribute, a: Action)
    requires attr.WellFormed()
  {
    match a
    case Write(_, targets, upd, _) => attr.Accepts(targets, upd)
    case WriteMatrix(_, matrix, tolerance) => attr.AcceptsMatrix(matrix, tolerance)
    case Read(_) => true
    case Query(_) => true
    case Incoming(_) => false
  }

  function OnAttribute(attr: Attribute, a: Action): (next: Attribute)
    requires attr.WellFormed() && Fits(attr, a)
    ensures next.WellFormed() && next.cmp == attr.cmp && next.flags == attr.flags && next.Kind() == attr.Kind()
    ensures |next.Rows()| == |attr.Rows()| && next.Base() == attr.Base()
  {
    match a
    case Write(_, targets, upd, processUndefined) =>
      UpdatePatches(attr, targets, upd, processUndefined);
      attr.Update(targets, upd, processUndefined)
    case WriteMatrix(_, matrix, tolerance) => attr.UpdateFromMatrix(matrix, tolerance)
    case Read(_) => attr.Read()
    case Query(_) => attr.Query()
    case Incoming(_) => assert false; attr
  }

  lemma UpdateKeepsShape(attr: Attribute, targets: seq<nat>, upd: Column, processUndefined: bool)
    requires attr.WellFormed() && Shaped(Describe(attr)) && attr.Accepts(targets, upd)
    ensures Shaped(Describe(attr.Update(targets, upd, processUndefined)))
    ensures attr.Update(targets, upd, processUndefined).Base() == attr.Base()
  {
    UpdatePatches(attr, targets, upd, processUndefined);
  }

  lemma ActionKeepsShape(attr: Attribute, a: Action)
    requires attr.WellFormed() && Shaped(Describe(attr)) && Fits(attr, a)
    ensures Shaped(Describe(OnAttribute(attr, a)))
  {
    if a.Write? {
      UpdateKeepsShape(attr, a.targets, a.upd, a.processUndefined);
    }
  }

  /** With what the rows that an action brings are compared. */
  function ComparatorFor(attr: Attribute, a: Action): Comparator
    requires attr.WellFormed()
  {
    if a.WriteMatrix? then attr.MatrixComparator(a.matrix, a.tolerance) else attr.cmp
  }

  lemma ActionKeepsReference(attr: Attribute, a: Action)
    requires attr.WellFormed() && attr.Uniform? && Fits(attr, a)
    ensures OnAttribute(attr, a).IsTracked() <==> attr.IsTracked() || !a.Query?
    ensures OnAttribute(attr, a).Reference() == attr.Reference()
  {
    if a.Write? {
      ReferenceStays(attr, a.targets, a.upd, a.processUndefined);
    }
  }

  lemma ActionFlags(attr: Attribute, a: Action, i: nat)
    requires attr.WellFormed() && attr.Csr? && attr.cmp.Reflexive() && Fits(attr, a) && i < |attr.Rows()|
    ensures var next := OnAttribute(attr, a);
      next.Changed()[i] <==> attr.Changed()[i] || !ComparatorFor(attr, a).SameRow(attr.Rows()[i], next.Rows()[i])
  {
    attr.cmp.SameRowItself(attr.Rows()[i]);
    if a.Write? {
      UpdateFlags(attr, a.targets, a.upd, a.processUndefined, i);
    } else if a.WriteMatrix? {
      MatrixFlags(attr, a.matrix, a.tolerance, i);
    }
  }

  // ----- the whole group

  ghost predicate Possible(g: Group, a: Action)
    requires g.WellFormed()
  {
    if a.Incoming? then WellShaped(a.update) && Compatible(g, a.update)
    else a.name in g.attrs && Fits(g.attrs[a.name], a)
  }

  function Act(g: Group, a: Action): (r: Group)
    requires g.WellFormed() && Possible(g, a)
    ensures r.WellFormed() && r.attrs.Keys == g.attrs.Keys && g.ids <= r.ids
  {
    if a.Incoming? then ReceiveGroup(g, a.update, {}, false)
    else g.(attrs := g.attrs[a.name := OnAttribute(g.attrs[a.name], a)])
  }

  ghost predicate AllPossible(g: Group, acts: seq<Action>)
    requires g.WellFormed()
    decreases |acts|
  {
    acts != [] ==> Possible(g, acts[0]) && AllPossible(Act(g, acts[0]), acts[1..])
  }

  function ActAll(g: Group, acts: seq<Action>): (r: Group)
    requires g.WellFormed() && AllPossible(g, acts)
    ensures r.WellFormed() && r.attrs.Keys == g.attrs.Keys
    decreases |acts|
  {
    if acts == [] then g else ActAll(Act(g, acts[0]), acts[1..])
  }

  /** The attributes keep their kinds, comparisons and flags. */
  predicate SameSetup(g: Group, r: Group) {
    g.attrs.Keys == r.attrs.Keys && forall name :: name in g.attrs ==>
      && g.attrs[name].Kind() == r.attrs[name].Kind() && g.attrs[name].cmp == r.attrs[name].cmp
      && g.attrs[name].flags == r.attrs[name].flags
  }

  /** The row that an entity had at the last reset. */
  function BaseView(g: Group, id: int, name: string): Row
    requires g.WellFormed()
  {
    if name in g.attrs && id in g.ids then g.attrs[name].Base()[PositionOf(g.ids, id)] else UNDEFINED_ROW
  }

  function RowView(g: Group, id: int, name: string): Row
    requires g.WellFormed()
  {
    g.Data().View(id, name)
  }

  predicate FlagView(g: Group, id: int, name: string)
    requires g.WellFormed()
  {
    name in g.attrs && id in g.ids && g.attrs[name].Changed()[PositionOf(g.ids, id)]
  }

  /** The row that the flag of a uniform attribute compares with. */
  function ReferenceView(g: Group, id: int, name: string): Row
    requires g.WellFormed()
  {
    if name in g.attrs && g.attrs[name].Uniform? && id in g.ids
    then g.attrs[name].Reference()[PositionOf(g.ids, id)] else UNDEFINED_ROW
  }

  predicate IsTracked(g: Group, name: string) {
    name in g.attrs && g.attrs[name].IsTracked()
  }

  /** The action brings new entities. */
  predicate Grows(g: Group, a: Action) {
    a.Incoming? && NewIds(g.ids, a.update.ids) != []
  }

  /** The action reads or writes the attribute. */
  predicate Touches(a: Action, name: string) {
    if a.Incoming? then name in a.update.attrs else a.name == name && !a.Query?
  }

  // ----- what an action does to an attribute

  /** An incoming update makes room first and then writes the attribute, if it has data for it. */
  function OnIncoming(g: Group, u: EntityData, name: string): (a: Attribute)
    requires g.WellFormed() && WellShaped(u) && Compatible(g, u) && name in g.attrs
  {
    ReceiveGroup(g, u, {}, false).attrs[name]
  }

  lemma IncomingAttribute(g: Group, u: EntityData, name: string)
    requires g.WellFormed() && WellShaped(u) && Compatible(g, u) && name in g.attrs
    ensures var ids := AllIds(g.ids, u.ids);
      var resized := g.attrs[name].Resize(|ids|);
      && |ids| == |g.ids| + |NewIds(g.ids, u.ids)|
      && (name in u.attrs ==> resized.Accepts(Positions(ids, u.ids), u.attrs[name].rows))
      && OnIncoming(g, u, name)
         == if name in u.attrs then resized.Update(Positions(ids, u.ids), u.attrs[name].rows, false) else resized
  {
  }

  lemma ResizeKeeps(a: Attribute, size: nat)
    requires a.WellFormed() && |a.Rows()| <= size
    ensures a.Resize(size).Base() == a.Base() + Blank(size - |a.Rows()|)
    ensures a.Csr? ==> a.Resize(size).Changed() == a.Changed() + Zeros(size - |a.Rows()|)
    ensures Shaped(Describe(a)) ==> Shaped(Describe(a.Resize(size)))
  {
    assert a.Resize(size).Base() == a.Base() + Blank(size - |a.Rows()|);
  }

  lemma IncomingKeeps(g: Group, u: EntityData, name: string)
    requires ShapedGroup(g) && WellShaped(u) && Compatible(g, u) && name in g.attrs
    ensures var next := OnIncoming(g, u, name);
      && next.WellFormed() && Shaped(Describe(next)) && next.Kind() == g.attrs[name].Kind()
      && next.cmp == g.attrs[name].cmp && next.flags == g.attrs[name].flags
      && next.Base() == g.attrs[name].Base() + Blank(|NewIds(g.ids, u.ids)|)
  {
    hide Attribute.Base, Attribute.Rows, Attribute.Update, Attribute.Resize, Attribute.Accepts, Attribute.WellFormed,
         Attribute.Kind, Describe, Shaped, OnIncoming, Positions;
    var ids := AllIds(g.ids, u.ids);
    IncomingAttribute(g, u, name);
    ResizeKeeps(g.attrs[name], |ids|);
    if name in u.attrs {
      UpdateKeepsShape(g.attrs[name].Resize(|ids|), Positions(ids, u.ids), u.attrs[name].rows, false);
    }
  }

  lemma IncomingReference(g: Group, u: EntityData, name: string)
    requires g.WellFormed() && WellShaped(u) && Compatible(g, u) && name in g.attrs && g.attrs[name].Uniform?
    ensures var attr, next, extra := g.attrs[name], OnIncoming(g, u, name), |NewIds(g.ids, u.ids)|;
      && next.WellFormed() && next.Uniform?
      && (next.IsTracked() <==> attr.IsTracked() || extra > 0 || name in u.attrs)
      && next.Reference()
         == if extra == 0 || attr.IsTracked() then attr.Reference() + Blank(extra) else Blank(|g.ids| + extra)
  {
    hide Attribute.Reference, Attribute.Rows, Attribute.Update, Attribute.Accepts, Positions, OnIncoming,
         Attribute.IsTracked, Shaped, Attribute.WellFormed;
    var ids := AllIds(g.ids, u.ids);
    var attr, resized := g.attrs[name], g.attrs[name].Resize(|ids|);
    IncomingAttribute(g, u, name);
    if |ids| > |g.ids| {
      ReferenceGrows(attr, |ids|);
    } else {
      assert attr.Reference() + Blank(0) == attr.Reference();
    }
    if name in u.attrs {
      ReferenceStays(resized, Positions(ids, u.ids), u.attrs[name].rows, false);
    }
  }

  lemma IncomingFlags(g: Group, u: EntityData, name: string, i: nat)
    requires g.WellFormed() && WellShaped(u) && Compatible(g, u) && name in g.attrs && g.attrs[name].Csr?
    requires g.attrs[name].cmp.Reflexive() && i < |AllIds(g.ids, u.ids)|
    ensures var attr, next := g.attrs[name], OnIncoming(g, u, name);
      && next.WellFormed() && |next.Rows()| == |AllIds(g.ids, u.ids)|
      && (next.Changed()[i] <==>
            || (i < |g.ids| && attr.Changed()[i])
            || !attr.cmp.SameRow(if i < |g.ids| then attr.Rows()[i] else UNDEFINED_ROW, next.Rows()[i]))
  {
    hide Attribute.Update, Attribute.Resize, Attribute.Accepts, Positions, OnIncoming, Shaped, Comparator.SameRow,
         Comparator.Reflexive;
    var ids := AllIds(g.ids, u.ids);
    var attr, resized := g.attrs[name], g.attrs[name].Resize(|ids|);
    IncomingAttribute(g, u, name);
    ResizeKeeps(attr, |ids|);
    attr.cmp.SameRowItself(resized.Rows()[i]);
    if name in u.attrs {
      UpdatePatches(resized, Positions(ids, u.ids), u.attrs[name].rows, false);
      UpdateFlags(resized, Positions(ids, u.ids), u.attrs[name].rows, false, i);
    }
  }

  // ----- what an action does to the group

  lemma ActKeepsBase(g: Group, a: Action)
    requires ShapedGroup(g) && Possible(g, a)
    ensures ShapedGroup(Act(g, a)) && SameSetup(g, Act(g, a))
    ensures forall id, name :: BaseView(Act(g, a), id, name) == BaseView(g, id, name)
  {
    hide OnAttribute, Fits, Attribute.Base, Attribute.Rows, Attribute.WellFormed, Attribute.Kind, Shaped,
         ReceivedAttribute;
    if a.Incoming? {
      var u, next := a.update, Act(g, a);
      forall name | name in g.attrs
        ensures Shaped(Describe(next.attrs[name])) && next.attrs[name].Kind() == g.attrs[name].Kind()
        ensures next.attrs[name].cmp == g.attrs[name].cmp && next.attrs[name].flags == g.attrs[name].flags
        ensures next.attrs[name].Base() == g.attrs[name].Base() + Blank(|NewIds(g.ids, u.ids)|)
      {
        IncomingKeeps(g, u, name);
      }
      forall id, name
        ensures BaseView(next, id, name) == BaseView(g, id, name)
      {
        if name in g.attrs && id in next.ids {
          PositionStable(g.ids, NewIds(g.ids, u.ids), id);
        }
      }
    } else {
      ActionKeepsShape(g.attrs[a.name], a);
    }
  }

  /** Only growth moves what a uniform attribute compares with, unless it is being tracked. */
  lemma ReferenceAfter(g: Group, a: Action, id: int, name: string)
    requires g.WellFormed() && Possible(g, a) && name in g.attrs && g.attrs[name].Uniform?
    ensures var r := Act(g, a);
      && r.attrs[name].Uniform?
      && (IsTracked(r, name) <==> IsTracked(g, name) || Grows(g, a) || Touches(a, name))
      && ReferenceView(r, id, name)
         == if Grows(g, a) && !IsTracked(g, name) then UNDEFINED_ROW else ReferenceView(g, id, name)
  {
    hide OnAttribute, Fits, Attribute.Reference, Attribute.Rows, Attribute.WellFormed, Shaped, ReceivedAttribute,
         Attribute.IsTracked;
    if a.Incoming? {
      ReferenceAfterIncoming(g, a, id, name);
    } else if a.name == name {
      ActionKeepsReference(g.attrs[name], a);
    }
  }

  lemma ReferenceAfterIncoming(g: Group, a: Action, id: int, name: string)
    requires g.WellFormed() && Possible(g, a) && a.Incoming? && name in g.attrs && g.attrs[name].Uniform?
    ensures var r := Act(g, a);
      && r.attrs[name].Uniform?
      && (IsTracked(r, name) <==> IsTracked(g, name) || Grows(g, a) || Touches(a, name))
      && ReferenceView(r, id, name)
         == if Grows(g, a) && !IsTracked(g, name) then UNDEFINED_ROW else ReferenceView(g, id, name)
  {
    hide Attribute.Reference, Attribute.Rows, Attribute.WellFormed, Shaped, WellShaped, Compatible, ReceivedAttribute,
         Attribute.IsTracked, AllIds, NewIds, PositionOf;
    var u, r := a.update, Act(g, a);
    assert r.attrs[name] == OnIncoming(g, u, name) && r.ids == AllIds(g.ids, u.ids);
    IncomingReference(g, u, name);
    IncomingPosition(g, u, id);
  }

  /** Known entities keep their positions, and new ones come after them. */
  lemma IncomingPosition(g: Group, u: EntityData, id: int)
    requires g.WellFormed() && WellShaped(u)
    ensures var ids, extra := AllIds(g.ids, u.ids), |NewIds(g.ids, u.ids)|;
      && |ids| == |g.ids| + extra && (NewIds(g.ids, u.ids) == [] <==> extra == 0)
      && (id in g.ids ==> id in ids && PositionOf(ids, id) == PositionOf(g.ids, id) < |g.ids|)
      && (id in ids && id !in g.ids ==> |g.ids| <= PositionOf(ids, id) < |g.ids| + extra)
  {
    if id in AllIds(g.ids, u.ids) {
      PositionStable(g.ids, NewIds(g.ids, u.ids), id);
    }
  }

  /** The action moves the row of an entity further than it tolerates. */
  ghost predicate Jumps(g: Group, a: Action, id: int, name: string)
    requires g.WellFormed() && Possible(g, a) && name in g.attrs
  {
    id in Act(g, a).ids && !ComparatorOf(g, a, name).SameRow(RowView(g, id, name), RowView(Act(g, a), id, name))
  }

  function ComparatorOf(g: Group, a: Action, name: string): Comparator
    requires g.WellFormed() && name in g.attrs
  {
    if a.WriteMatrix? && a.name == name then ComparatorFor(g.attrs[name], a) else g.attrs[name].cmp
  }

  lemma FlagAfter(g: Group, a: Action, id: int, name: string)
    requires g.WellFormed() && Possible(g, a) && name in g.attrs && g.attrs[name].Csr? && g.attrs[name].cmp.Reflexive()
    ensures FlagView(Act(g, a), id, name) <==> FlagView(g, id, name) || Jumps(g, a, id, name)
  {
    hide OnAttribute, Fits, Attribute.Rows, Attribute.Changed, Attribute.WellFormed, Shaped, ReceivedAttribute,
         Comparator.SameRow, Comparator.Reflexive;
    if id in Act(g, a).ids {
      var i := PositionOf(Act(g, a).ids, id);
      if a.Incoming? {
        PositionStable(g.ids, NewIds(g.ids, a.update.ids), id);
        IncomingFlags(g, a.update, name, i);
      } else if a.name == name {
        ActionFlags(g.attrs[name], a, i);
      } else {
        g.attrs[name].cmp.SameRowItself(RowView(g, id, name));
      }
    }
  }

  // ----- what a cycle of actions does

  /** Whatever the publisher does, its base does not move, nor do kinds, comparisons and flags. */
  lemma {:induction false} ActsKeepBase(g: Group, acts: seq<Action>)
    requires ShapedGroup(g) && AllPossible(g, acts)
    ensures ShapedGroup(ActAll(g, acts)) && SameSetup(g, ActAll(g, acts))
    ensures forall id, name :: BaseView(ActAll(g, acts), id, name) == BaseView(g, id, name)
    decreases |acts|
  {
    hide BaseView, Act, Possible, Shaped, Group.WellFormed;
    if acts != [] {
      ActKeepsBase(g, acts[0]);
      ActsKeepBase(Act(g, acts[0]), acts[1..]);
    }
  }

  /** The group grows before anything is read from or written to the attribute. */
  ghost predicate LosesSnapshot(g: Group, acts: seq<Action>, name: string)
    requires g.WellFormed() && AllPossible(g, acts)
    decreases |acts|
  {
    acts != [] && (Grows(g, acts[0]) || (!Touches(acts[0], name) && LosesSnapshot(Act(g, acts[0]), acts[1..], name)))
  }

  lemma {:induction false} ReferenceAfterAll(g: Group, acts: seq<Action>, id: int, name: string)
    requires g.WellFormed() && AllPossible(g, acts) && name in g.attrs && g.attrs[name].Uniform?
    ensures ActAll(g, acts).attrs[name].Uniform?
    ensures ReferenceView(ActAll(g, acts), id, name)
         == if !IsTracked(g, name) && LosesSnapshot(g, acts, name) then UNDEFINED_ROW else ReferenceView(g, id, name)
    decreases |acts|
  {
    hide Act, Possible, ReferenceView, IsTracked, Grows, Touches, Group.WellFormed;
    if acts != [] {
      ReferenceAfter(g, acts[0], id, name);
      ReferenceAfterAll(Act(g, acts[0]), acts[1..], id, name);
    }
  }

  /** Some single action moves the row of an entity further than it tolerates. */
  ghost predicate AnyJump(g: Group, acts: seq<Action>, id: int, name: string)
    requires g.WellFormed() && AllPossible(g, acts) && name in g.attrs
    decreases |acts|
  {
    acts != [] && (Jumps(g, acts[0], id, name) || AnyJump(Act(g, acts[0]), acts[1..], id, name))
  }

  lemma {:induction false} FlagAfterAll(g: Group, acts: seq<Action>, id: int, name: string)
    requires ShapedGroup(g) && AllPossible(g, acts) && name in g.attrs && g.attrs[name].Csr?
    requires g.attrs[name].cmp.Reflexive()
    ensures FlagView(ActAll(g, acts), id, name) <==> FlagView(g, id, name) || AnyJump(g, acts, id, name)
    decreases |acts|
  {
    hide Act, Possible, FlagView, Jumps, Group.WellFormed, Comparator.Reflexive;
    if acts != [] {
      ActKeepsBase(g, acts[0]);
      FlagAfter(g, acts[0], id, name);
      FlagAfterAll(Act(g, acts[0]), acts[1..], id, name);
    }
  }

  /** An attribute that was just reset. */
  ghost predicate Settled(g: Group, name: string)
    requires g.WellFormed()
  {
    name in g.attrs ==> g.attrs[name] == g.attrs[name].Reset()
  }

  lemma SettledViews(g: Group, id: int, name: string)
    requires g.WellFormed() && Settled(g, name)
    ensures BaseView(g, id, name) == RowView(g, id, name) && !FlagView(g, id, name) && !IsTracked(g, name)
    ensures name in g.attrs && g.attrs[name].Uniform? ==> ReferenceView(g, id, name) == RowView(g, id, name)
  {
    if name in g.attrs {
      ResetReference(g.attrs[name]);
    }
  }

  /** What the flag of a uniform attribute says at the end of a cycle: the row differs from the one at
      its beginning, or the group grew before the attribute was touched and the row is not undefined. */
  lemma UniformFlagged(g: Group, acts: seq<Action>, id: int, name: string)
    requires ShapedGroup(g) && AllPossible(g, acts) && name in g.attrs && g.attrs[name].Uniform?
    requires g.attrs[name].cmp.Reflexive()
    requires Settled(g, name)
    ensures var r := ActAll(g, acts); var row := RowView(r, id, name);
      FlagView(r, id, name) <==>
        if LosesSnapshot(g, acts, name) then row != UNDEFINED_ROW
        else !g.attrs[name].cmp.SameRow(row, RowView(g, id, name))
  {
    hide Act, Possible, LosesSnapshot, Settled, IsTracked, Shaped, Attribute.Reference, Attribute.Changed;
    var r := ActAll(g, acts);
    SettledViews(g, id, name);
    ReferenceAfterAll(g, acts, id, name);
    ActsKeepBase(g, acts);
    var cmp := r.attrs[name].cmp;
    if id in r.ids {
      FlaggedIfDifferent(r.attrs[name], PositionOf(r.ids, id));
    } else {
      cmp.SameRowItself(UNDEFINED_ROW);
    }
    UndefinedIsAlone(cmp, RowView(r, id, name));
    assert |RowView(r, id, name)| == 1 by {
      assert Shaped(Describe(r.attrs[name]));
      RowIsShaped(r, id, name);
    }
  }

  lemma RowIsShaped(g: Group, id: int, name: string)
    requires ShapedGroup(g) && name in g.attrs && g.attrs[name].Uniform?
    ensures |RowView(g, id, name)| == 1
  {
  }

  /** Nothing but the undefined row is the same as the undefined row. */
  lemma UndefinedIsAlone(cmp: Comparator, row: Row)
    requires cmp.Reflexive()
    ensures cmp.SameRow(row, UNDEFINED_ROW) <==> row == UNDEFINED_ROW
    ensures cmp.SameRow(UNDEFINED_ROW, row) <==> row == UNDEFINED_ROW
  {
    cmp.SameRowItself(UNDEFINED_ROW);
    assert |row| == 1 ==> (row[0] == Undefined <==> row == UNDEFINED_ROW);
  }

  /** What a subscriber holds after the update of this cycle, if there is one. */
  function Delivered(g: Group, sub: EntityData, track: bool): (r: EntityData)
    requires g.WellFormed() && sub.WellFormed()
    ensures r.WellFormed()
  {
    if Generated(g, PUBLISHED).None? then sub
    else
      GeneratedIds(g, PUBLISHED);
      Receive(sub, Generated(g, PUBLISHED).value, track, false)
  }

  ghost predicate Subscribed(sub: EntityData, track: bool, name: string) {
    track || name in sub.attrs
  }

  /** A changed row arrives, unless it is undefined; every other row is left as it was. */
  lemma DeliveredRow(g: Group, sub: EntityData, track: bool, i: nat, name: string)
    requires g.WellFormed() && sub.WellFormed() && i < |g.ids|
    requires g.Has(name, PUBLISHED) && Subscribed(sub, track, name)
    ensures var row := g.attrs[name].Rows()[i];
      Delivered(g, sub, track).View(g.ids[i], name)
      == if g.attrs[name].Changed()[i] && row != UNDEFINED_ROW then row else sub.View(g.ids[i], name)
  {
    hide Attribute.Rows, Attribute.Changed, Attribute.WellFormed, Group.WellFormed;
    if Generated(g, PUBLISHED).None? {
      NothingGenerated(g, PUBLISHED, i, name);
    } else {
      GeneratedView(g, PUBLISHED, i, name);
      ReceiveView(sub, Generated(g, PUBLISHED).value, track, false, g.ids[i], name);
    }
  }

  lemma OtherRowsStay(g: Group, sub: EntityData, track: bool, id: int, name: string)
    requires g.WellFormed() && sub.WellFormed() && id !in g.ids
    ensures Delivered(g, sub, track).View(id, name) == sub.View(id, name)
  {
    hide Attribute.Rows, Attribute.Changed, Attribute.WellFormed;
    if Generated(g, PUBLISHED).Some? {
      GeneratedIds(g, PUBLISHED);
      var u := Generated(g, PUBLISHED).value;
      ReceiveView(sub, u, track, false, id, name);
    }
  }

  /** The update of this cycle has a defined row for the entity. */
  ghost predicate Sent(g: Group, id: int, name: string)
    requires g.WellFormed()
  {
    FlagView(g, id, name) && RowView(g, id, name) != UNDEFINED_ROW
  }

  lemma DeliveredView(g: Group, sub: EntityData, track: bool, id: int, name: string)
    requires g.WellFormed() && sub.WellFormed() && g.Has(name, PUBLISHED) && Subscribed(sub, track, name)
    ensures Delivered(g, sub, track).View(id, name)
         == if Sent(g, id, name) then RowView(g, id, name) else sub.View(id, name)
  {
    hide Generated, Delivered, Attribute.Rows, Attribute.Base, Attribute.Changed;
    if id in g.ids {
      DeliveredRow(g, sub, track, PositionOf(g.ids, id), name);
    } else {
      OtherRowsStay(g, sub, track, id, name);
    }
  }

  // ----- one cycle

  datatype World = World(pub: Group, sub: Group)

  ghost predicate KindsAgree(pub: Group, sub: Group) {
    forall name :: name in pub.attrs && name in sub.attrs ==> pub.attrs[name].Kind() == sub.attrs[name].Kind()
  }

  /** Both states hold the same kind of data for the attributes that they share. */
  ghost predicate Ready(w: World) {
    ShapedGroup(w.pub) && w.sub.WellFormed() && KindsAgree(w.pub, w.sub)
  }

  lemma GeneratedShape(g: Group)
    requires ShapedGroup(g) && Generated(g, PUBLISHED).Some?
    ensures WellShaped(Generated(g, PUBLISHED).value)
  {
    hide Shaped, Attribute.Rows, Attribute.Changed, Attribute.WellFormed, Flatnonzero, MaskedRows;
    GeneratedIds(g, PUBLISHED);
    var u, mask := Generated(g, PUBLISHED).value, AllChanged(g, PUBLISHED);
    forall name | name in u.attrs
      ensures Shaped(u.attrs[name])
    {
      MaskedShape(g.attrs[name], mask);
    }
  }

  lemma MaskedShape(a: Attribute, mask: seq<bool>)
    requires a.WellFormed() && Shaped(Describe(a)) && |mask| == |a.Rows()|
    ensures Shaped(AttributeData(a.Kind(), a.cmp.Isclose?, a.GenerateUpdate(mask)))
  {
    var rows := MaskedRows(a.Rows(), mask, a.Changed());
    forall k | 0 <= k < |rows|
      ensures rows[k] == UNDEFINED_ROW || rows[k] in a.Rows()
    {
      assert Flatnonzero(mask, |mask|)[k] in Flatnonzero(mask, |mask|);
    }
  }

  lemma ResetSettles(g: Group)
    requires ShapedGroup(g)
    ensures ShapedGroup(ResetFlagged(g, PUBLISHED)) && SameSetup(g, ResetFlagged(g, PUBLISHED))
    ensures forall name :: g.Has(name, PUBLISHED) ==> Settled(ResetFlagged(g, PUBLISHED), name)
    ensures forall id, name :: RowView(ResetFlagged(g, PUBLISHED), id, name) == RowView(g, id, name)
  {
  }

  /** The subscriber's group after the update of this cycle, change tracking included. */
  function Subscriber(g: Group, sub: Group, track: set<Flag>): (r: Group)
    requires ShapedGroup(g) && sub.WellFormed() && KindsAgree(g, sub)
    ensures r.WellFormed() && KindsAgree(g, r)
    ensures r.Data() == Delivered(g, sub.Data(), track != {})
  {
    if Generated(g, PUBLISHED).None? then sub
    else
      var u := Generated(g, PUBLISHED).value;
      GeneratedShape(g);
      assert Compatible(sub, u);
      ReceiveGroupData(sub, u, track, false);
      ReceiveGroup(sub, u, track, false)
  }

  /** The publisher acts, publishes and resets; the subscriber receives. */
  function Cycle(w: World, acts: seq<Action>, track: set<Flag>): (r: World)
    requires Ready(w) && AllPossible(w.pub, acts)
    ensures Ready(r)
  {
    hide Generated, ReceiveGroup, Delivered, ResetFlagged, Shaped, Act, Possible;
    ActsKeepBase(w.pub, acts);
    ResetSettles(ActAll(w.pub, acts));
    World(ResetFlagged(ActAll(w.pub, acts), PUBLISHED), Subscriber(ActAll(w.pub, acts), w.sub, track))
  }

  /** A published attribute that reaches the subscriber. */
  ghost predicate Shared(w: World, track: set<Flag>, name: string) {
    w.pub.Has(name, PUBLISHED) && (track != {} || name in w.sub.attrs)
  }

  /** The row arrives at the end of the cycle. */
  ghost predicate SentIn(w: World, acts: seq<Action>, id: int, name: string)
    requires w.pub.WellFormed() && AllPossible(w.pub, acts)
  {
    Sent(ActAll(w.pub, acts), id, name)
  }

  /** One cell of the world state over a whole cycle, for every kind of attribute and comparison: the
      subscriber holds the publisher's row if it was sent, and what it held before otherwise. */
  lemma CycleRow(w: World, acts: seq<Action>, track: set<Flag>, id: int, name: string)
    requires Ready(w) && AllPossible(w.pub, acts) && Shared(w, track, name)
    ensures var r := Cycle(w, acts, track);
      && SameSetup(w.pub, r.pub) && Shared(r, track, name) && Settled(r.pub, name)
      && RowView(r.pub, id, name) == RowView(ActAll(w.pub, acts), id, name)
      && RowView(r.sub, id, name)
         == if SentIn(w, acts, id, name) then RowView(r.pub, id, name) else RowView(w.sub, id, name)
  {
    hide Generated, ReceiveGroup, Delivered, ResetFlagged, Shaped, Act, Possible, RowView, FlagView, Settled,
         Attribute.WellFormed, Attribute.Rows;
    ActsKeepBase(w.pub, acts);
    var g := ActAll(w.pub, acts);
    ResetSettles(g);
    ViewOfData(w.sub, id, name);
    ViewOfData(Subscriber(g, w.sub, track), id, name);
    DeliveredView(g, w.sub.Data(), track != {}, id, name);
    HasStays(w.pub, g, name);
    HasStays(g, ResetFlagged(g, PUBLISHED), name);
    SharedStays(g, w.sub, track, name);
  }

  lemma HasStays(g: Group, r: Group, name: string)
    requires SameSetup(g, r)
    ensures g.Has(name, PUBLISHED) == r.Has(name, PUBLISHED)
  {
  }

  lemma SharedStays(g: Group, sub: Group, track: set<Flag>, name: string)
    requires ShapedGroup(g) && sub.WellFormed() && KindsAgree(g, sub)
    ensures name in sub.attrs ==> name in Subscriber(g, sub, track).attrs
  {
    hide Shaped, ReceivedAttribute, Generated;
  }

  lemma ViewOfData(g: Group, id: int, name: string)
    requires g.WellFormed()
    ensures RowView(g, id, name) == g.Data().View(id, name)
  {
  }

  /** The subscriber holds the publisher's row of the last reset if that is defined. */
  ghost predicate HoldsCell(w: World, id: int, name: string)
    requires Ready(w)
  {
    RowView(w.pub, id, name) != UNDEFINED_ROW ==> RowView(w.sub, id, name) == RowView(w.pub, id, name)
  }

  /** For a uniform attribute, with any comparison: the subscriber holds the publisher's defined row
      after a cycle exactly when that is the row of the last reset, differs from it by more than is
      tolerated, or the group grew before the attribute was touched. It holds a close row anyhow. */
  lemma UniformCycle(w: World, acts: seq<Action>, track: set<Flag>, id: int, name: string)
    requires Ready(w) && AllPossible(w.pub, acts) && Shared(w, track, name)
    requires w.pub.attrs[name].Uniform? && w.pub.attrs[name].cmp.Reflexive() && Settled(w.pub, name)
    requires HoldsCell(w, id, name)
    ensures var r, cmp := Cycle(w, acts, track), w.pub.attrs[name].cmp;
      var before, row, after := RowView(w.pub, id, name), RowView(r.pub, id, name), RowView(r.sub, id, name);
      row != UNDEFINED_ROW ==>
        && (after == row <==> row == before || !cmp.SameRow(row, before) || LosesSnapshot(w.pub, acts, name))
        && cmp.SameRow(row, after)
  {
    hide Cycle, Shaped, Act, Possible, RowView, FlagView, Settled, LosesSnapshot, Comparator.SameRow,
         Comparator.Reflexive, AllPossible;
    var cmp, row := w.pub.attrs[name].cmp, RowView(ActAll(w.pub, acts), id, name);
    CycleRow(w, acts, track, id, name);
    UniformFlagged(w.pub, acts, id, name);
    cmp.SameRowItself(row);
    UndefinedIsAlone(cmp, row);
  }

  /** Without a jump a row keeps being defined or undefined. */
  lemma {:induction false} NoJumpKeepsDefined(g: Group, acts: seq<Action>, id: int, name: string)
    requires ShapedGroup(g) && AllPossible(g, acts) && name in g.attrs && g.attrs[name].cmp.Reflexive()
    requires !AnyJump(g, acts, id, name)
    ensures RowView(ActAll(g, acts), id, name) == UNDEFINED_ROW <==> RowView(g, id, name) == UNDEFINED_ROW
    decreases |acts|
  {
    hide Act, Possible, RowView, Group.WellFormed, Shaped, Comparator.Reflexive, Comparator.SameRow;
    if acts != [] {
      ActKeepsBase(g, acts[0]);
      SmallStep(g, acts[0], id, name);
      NoJumpKeepsDefined(Act(g, acts[0]), acts[1..], id, name);
    }
  }

  lemma SmallStep(g: Group, a: Action, id: int, name: string)
    requires ShapedGroup(g) && Possible(g, a) && name in g.attrs && g.attrs[name].cmp.Reflexive()
    requires !Jumps(g, a, id, name)
    ensures RowView(Act(g, a), id, name) == UNDEFINED_ROW <==> RowView(g, id, name) == UNDEFINED_ROW
  {
    hide Act, Possible, Shaped;
    var row, next := RowView(g, id, name), RowView(Act(g, a), id, name);
    if id in Act(g, a).ids {
      SameIsDefined(ComparatorOf(g, a, name), row, next);
    }
  }

  lemma SameIsDefined(cmp: Comparator, row: Row, next: Row)
    requires cmp.SameRow(row, next)
    ensures row == UNDEFINED_ROW <==> next == UNDEFINED_ROW
  {
    if |row| == 1 {
      assert cmp.Same(row[0], next[0]);
    }
  }

  /** For a CSR attribute, with any comparison: the subscriber holds the publisher's defined row after a
      cycle exactly when that is the row of the last reset or some single action moved it by more than
      is tolerated; and a close row exactly when the row is close to that of the last reset or some
      single action did so. */
  lemma CsrCycle(w: World, acts: seq<Action>, track: set<Flag>, id: int, name: string)
    requires Ready(w) && AllPossible(w.pub, acts) && Shared(w, track, name)
    requires w.pub.attrs[name].Csr? && w.pub.attrs[name].cmp.Reflexive() && Settled(w.pub, name)
    requires HoldsCell(w, id, name)
    ensures var r, cmp := Cycle(w, acts, track), w.pub.attrs[name].cmp;
      var before, row, after := RowView(w.pub, id, name), RowView(r.pub, id, name), RowView(r.sub, id, name);
      row != UNDEFINED_ROW ==>
        && (after == row <==> row == before || AnyJump(w.pub, acts, id, name))
        && (cmp.SameRow(row, after) <==> cmp.SameRow(row, before) || AnyJump(w.pub, acts, id, name))
  {
    hide Cycle, Shaped, Act, Possible, RowView, FlagView, Settled, AnyJump, Comparator.SameRow, Comparator.Reflexive,
         AllPossible;
    var cmp, row := w.pub.attrs[name].cmp, RowView(ActAll(w.pub, acts), id, name);
    CycleRow(w, acts, track, id, name);
    SettledViews(w.pub, id, name);
    FlagAfterAll(w.pub, acts, id, name);
    cmp.SameRowItself(row);
    if !AnyJump(w.pub, acts, id, name) {
      NoJumpKeepsDefined(w.pub, acts, id, name);
    }
  }

  /** The row of an entity does not change. */
  ghost predicate StaysPut(g: Group, acts: seq<Action>, id: int, name: string)
    requires g.WellFormed() && AllPossible(g, acts)
    decreases |acts|
  {
    acts != [] ==>
      RowView(Act(g, acts[0]), id, name) == RowView(g, id, name) && StaysPut(Act(g, acts[0]), acts[1..], id, name)
  }

  ghost predicate MovesAtMostOnce(g: Group, acts: seq<Action>, id: int, name: string)
    requires g.WellFormed() && AllPossible(g, acts)
    decreases |acts|
  {
    acts != [] ==>
      if RowView(Act(g, acts[0]), id, name) == RowView(g, id, name)
      then MovesAtMostOnce(Act(g, acts[0]), acts[1..], id, name)
      else StaysPut(Act(g, acts[0]), acts[1..], id, name)
  }

  /** Floats that are written at most once in a cycle jump exactly when they end up far from where they
      were. */
  lemma {:induction false} OneMoveIsEnough(g: Group, acts: seq<Action>, id: int, name: string)
    requires ShapedGroup(g) && AllPossible(g, acts) && name in g.attrs && g.attrs[name].cmp.Isclose?
    requires g.attrs[name].cmp.Reflexive()
    ensures StaysPut(g, acts, id, name) ==>
      RowView(ActAll(g, acts), id, name) == RowView(g, id, name) && !AnyJump(g, acts, id, name)
    ensures MovesAtMostOnce(g, acts, id, name) ==>
      (AnyJump(g, acts, id, name)
       <==> !g.attrs[name].cmp.SameRow(RowView(g, id, name), RowView(ActAll(g, acts), id, name)))
    decreases |acts|
  {
    hide Act, Possible, RowView, Group.WellFormed, Shaped, Comparator.Reflexive, Comparator.SameRow, Jumps;
    var cmp := g.attrs[name].cmp;
    cmp.SameRowItself(RowView(g, id, name));
    if acts != [] {
      ActKeepsBase(g, acts[0]);
      FloatStep(g, acts[0], id, name);
      OneMoveIsEnough(Act(g, acts[0]), acts[1..], id, name);
    }
  }

  /** So a subscriber of floats in CSR form that move at most once in a cycle always holds a close row: the
      distance is within the tolerance at the publisher's row. */
  lemma CloseAfterOneMove(w: World, acts: seq<Action>, track: set<Flag>, id: int, name: string)
    requires Ready(w) && AllPossible(w.pub, acts) && Shared(w, track, name)
    requires w.pub.attrs[name].Csr? && w.pub.attrs[name].cmp.Isclose? && w.pub.attrs[name].cmp.Reflexive()
    requires Settled(w.pub, name) && HoldsCell(w, id, name) && MovesAtMostOnce(w.pub, acts, id, name)
    ensures var r := Cycle(w, acts, track);
      RowView(r.pub, id, name) != UNDEFINED_ROW ==>
        w.pub.attrs[name].cmp.SameRow(RowView(r.sub, id, name), RowView(r.pub, id, name))
  {
    hide Cycle, Shaped, Act, Possible, RowView, Settled, AnyJump, MovesAtMostOnce, StaysPut, Comparator.SameRow,
         Comparator.Reflexive, AllPossible, SentIn;
    CycleRow(w, acts, track, id, name);
    SentIfJumped(w, acts, track, id, name);
    OneMoveIsEnough(w.pub, acts, id, name);
    w.pub.attrs[name].cmp.SameRowItself(RowView(ActAll(w.pub, acts), id, name));
    if !AnyJump(w.pub, acts, id, name) {
      NoJumpKeepsDefined(w.pub, acts, id, name);
    }
  }

  lemma FloatStep(g: Group, a: Action, id: int, name: string)
    requires g.WellFormed() && Possible(g, a) && name in g.attrs && g.attrs[name].cmp.Isclose?
    requires g.attrs[name].cmp.Reflexive()
    ensures Jumps(g, a, id, name) <==> !g.attrs[name].cmp.SameRow(RowView(g, id, name), RowView(Act(g, a), id, name))
  {
    hide Act, Shaped, RowView, Comparator.SameRow, Comparator.Reflexive;
    g.attrs[name].cmp.SameRowItself(UNDEFINED_ROW);
    UnknownRow(g, id, name);
    UnknownRow(Act(g, a), id, name);
  }

  lemma UnknownRow(g: Group, id: int, name: string)
    requires g.WellFormed()
    ensures id !in g.ids ==> RowView(g, id, name) == UNDEFINED_ROW
  {
  }

  // ----- exactly compared attributes over any number of cycles

  /** Matrices that are written to the attribute in place differ noticeably wherever they differ. */
  ghost predicate Faithful(g: Group, a: Action, name: string)
    requires g.WellFormed() && Possible(g, a)
  {
    a.WriteMatrix? && a.name == name ==>
      var rows := g.attrs[name].Rows();
      forall i :: 0 <= i < |rows| && ComparatorFor(g.attrs[name], a).SameRow(rows[i], a.matrix.rows[i]) ==>
        rows[i] == a.matrix.rows[i]
  }

  /** Integers are written faithfully when no other integer lies within the tolerance of any of them. */
  lemma IntegersAreFaithful(g: Group, a: Action, name: string)
    requires g.WellFormed() && Possible(g, a) && a.WriteMatrix? && a.name == name && g.attrs[name].cmp == Exact
    requires a.tolerance.Isclose? && a.tolerance.rtol >= 0.0 && a.tolerance.atol >= 0.0
    requires IntegerRows(g.attrs[name].Rows()) && IntegerRows(a.matrix.rows)
    requires TellsIntegersApart(a.tolerance.rtol, a.tolerance.atol, a.matrix.rows)
    ensures Faithful(g, a, name)
  {
    var rows := g.attrs[name].Rows();
    forall i | 0 <= i < |rows| && ComparatorFor(g.attrs[name], a).SameRow(rows[i], a.matrix.rows[i])
      ensures rows[i] == a.matrix.rows[i]
    {
      CloseIntegerRows(rows[i], a.matrix.rows[i], a.tolerance.rtol, a.tolerance.atol, a.tolerance.equalNan);
      SameRowIsEqual(rows[i], a.matrix.rows[i]);
    }
  }

  ghost predicate AllFaithful(g: Group, acts: seq<Action>, name: string)
    requires g.WellFormed() && AllPossible(g, acts)
    decreases |acts|
  {
    acts != [] ==> Faithful(g, acts[0], name) && AllFaithful(Act(g, acts[0]), acts[1..], name)
  }

  lemma InPlaceRow(g: Group, a: Action, id: int)
    requires g.WellFormed() && Possible(g, a) && a.WriteMatrix? && Faithful(g, a, a.name)
    ensures
      && ComparatorFor(g.attrs[a.name], a).SameRow(RowView(g, id, a.name), RowView(Act(g, a), id, a.name))
      && id in g.ids
      ==> RowView(g, id, a.name) == RowView(Act(g, a), id, a.name)
  {
  }

  lemma ExactStep(g: Group, a: Action, id: int, name: string)
    requires g.WellFormed() && Possible(g, a) && name in g.attrs && g.attrs[name].cmp == Exact && Faithful(g, a, name)
    ensures !Jumps(g, a, id, name) ==> RowView(Act(g, a), id, name) == RowView(g, id, name)
  {
    hide Shaped, ReceivedAttribute, Fits, Attribute.WellFormed;
    var row, next := RowView(g, id, name), RowView(Act(g, a), id, name);
    SameRowIsEqual(row, next);
    if a.WriteMatrix? && a.name == name {
      InPlaceRow(g, a, id);
    }
  }

  lemma SameRowIsEqual(row: Row, next: Row)
    ensures Exact.SameRow(row, next) <==> row == next
  {
  }

  lemma {:induction false} ExactFlag(g: Group, acts: seq<Action>, id: int, name: string)
    requires ShapedGroup(g) && AllPossible(g, acts) && name in g.attrs && g.attrs[name].cmp == Exact
    requires AllFaithful(g, acts, name)
    requires !AnyJump(g, acts, id, name)
    ensures RowView(ActAll(g, acts), id, name) == RowView(g, id, name)
    decreases |acts|
  {
    hide Act, Possible, RowView, Group.WellFormed, Shaped, Jumps, Faithful;
    if acts != [] {
      ActKeepsBase(g, acts[0]);
      ExactStep(g, acts[0], id, name);
      ExactFlag(Act(g, acts[0]), acts[1..], id, name);
    }
  }

  /** For an exactly compared attribute the subscriber holds the publisher's row wherever it is defined. */
  lemma ExactCycle(w: World, acts: seq<Action>, track: set<Flag>, id: int, name: string)
    requires Ready(w) && AllPossible(w.pub, acts) && Shared(w, track, name)
    requires w.pub.attrs[name].cmp == Exact && Settled(w.pub, name) && HoldsCell(w, id, name)
    requires AllFaithful(w.pub, acts, name)
    ensures var r := Cycle(w, acts, track);
      && HoldsCell(r, id, name)
      && (RowView(r.pub, id, name) == UNDEFINED_ROW ==> RowView(r.sub, id, name) == RowView(w.sub, id, name))
  {
    hide Cycle, Shaped, Act, Possible, RowView, FlagView, Settled, LosesSnapshot, AnyJump, AllPossible,
         Comparator.SameRow, AllFaithful;
    var r := Cycle(w, acts, track);
    CycleRow(w, acts, track, id, name);
    if w.pub.attrs[name].Uniform? {
      UniformCycle(w, acts, track, id, name);
      SameRowIsEqual(RowView(r.pub, id, name), RowView(r.sub, id, name));
    } else {
      CsrCycle(w, acts, track, id, name);
      if !AnyJump(w.pub, acts, id, name) {
        ExactFlag(w.pub, acts, id, name);
      }
    }
  }

  ghost predicate HoldsDefined(w: World, name: string)
    requires Ready(w)
  {
    forall id :: HoldsCell(w, id, name)
  }

  /** The subscriber holds the publisher's row for every entity. */
  ghost predicate InAgreement(w: World, name: string)
    requires Ready(w)
  {
    forall id :: RowView(w.sub, id, name) == RowView(w.pub, id, name)
  }

  /** Agreement survives a cycle exactly when no row is undefined now that the subscriber has. */
  lemma CycleKeepsAgreement(w: World, acts: seq<Action>, track: set<Flag>, name: string)
    requires Ready(w) && AllPossible(w.pub, acts) && Shared(w, track, name)
    requires w.pub.attrs[name].cmp == Exact && Settled(w.pub, name) && HoldsDefined(w, name)
    requires AllFaithful(w.pub, acts, name)
    ensures var r := Cycle(w, acts, track);
      && Shared(r, track, name) && r.pub.attrs[name].cmp == Exact && Settled(r.pub, name) && HoldsDefined(r, name)
      && (InAgreement(r, name) <==>
          forall id :: RowView(r.pub, id, name) == UNDEFINED_ROW ==> RowView(w.sub, id, name) == UNDEFINED_ROW)
  {
    hide RowView, Cycle, AllPossible, Shaped, Settled, AllFaithful;
    var r := Cycle(w, acts, track);
    CycleRow(w, acts, track, 0, name);
    forall id
      ensures HoldsCell(r, id, name)
      ensures RowView(r.pub, id, name) == UNDEFINED_ROW ==> RowView(r.sub, id, name) == RowView(w.sub, id, name)
    {
      ExactCycle(w, acts, track, id, name);
    }
  }

  ghost predicate Viable(w: World, cycles: seq<seq<Action>>, track: set<Flag>)
    requires Ready(w)
    decreases |cycles|
  {
    cycles != [] ==> AllPossible(w.pub, cycles[0]) && Viable(Cycle(w, cycles[0], track), cycles[1..], track)
  }

  function Run(w: World, cycles: seq<seq<Action>>, track: set<Flag>): (r: World)
    requires Ready(w) && Viable(w, cycles, track)
    ensures Ready(r)
    decreases |cycles|
  {
    if cycles == [] then w else Run(Cycle(w, cycles[0], track), cycles[1..], track)
  }

  ghost predicate FaithfulRun(w: World, cycles: seq<seq<Action>>, track: set<Flag>, name: string)
    requires Ready(w) && Viable(w, cycles, track)
    decreases |cycles|
  {
    cycles != [] ==>
      AllFaithful(w.pub, cycles[0], name) && FaithfulRun(Cycle(w, cycles[0], track), cycles[1..], track, name)
  }

  /** The action does not set rows of the attribute back to undefined. */
  predicate Defines(a: Action, name: string) {
    && (a.Write? && a.name == name ==> !a.processUndefined)
    && (a.WriteMatrix? && a.name == name ==> UNDEFINED_ROW !in a.matrix.rows)
  }

  predicate OnlyDefines(acts: seq<Action>, name: string) {
    forall k :: 0 <= k < |acts| ==> Defines(acts[k], name)
  }

  lemma DefinedStays(g: Group, a: Action, id: int, name: string)
    requires g.WellFormed() && Possible(g, a) && Defines(a, name) && RowView(g, id, name) != UNDEFINED_ROW
    ensures RowView(Act(g, a), id, name) != UNDEFINED_ROW
  {
    hide Shaped, ReceivedAttribute, Attribute.WellFormed, Attribute.Rows, Attribute.Update;
    if a.Incoming? {
      ReceiveGroupData(g, a.update, {}, false);
      ReceiveView(g.Data(), a.update, false, false, id, name);
      ViewOfData(Act(g, a), id, name);
    } else if a.name == name {
      OwnRowStaysDefined(g.attrs[name], a, PositionOf(g.ids, id));
    }
  }

  lemma OwnRowStaysDefined(attr: Attribute, a: Action, i: nat)
    requires attr.WellFormed() && Fits(attr, a) && Defines(a, a.name) && i < |attr.Rows()|
    requires attr.Rows()[i] != UNDEFINED_ROW
    ensures OnAttribute(attr, a).Rows()[i] != UNDEFINED_ROW
  {
    if a.Write? {
      UpdatePatches(attr, a.targets, a.upd, false);
    }
  }

  lemma {:induction false} DefinedStaysAll(g: Group, acts: seq<Action>, id: int, name: string)
    requires g.WellFormed() && AllPossible(g, acts) && OnlyDefines(acts, name) && RowView(g, id, name) != UNDEFINED_ROW
    ensures RowView(ActAll(g, acts), id, name) != UNDEFINED_ROW
    decreases |acts|
  {
    hide Act, Possible, RowView, Group.WellFormed, Defines;
    if acts != [] {
      DefinedStays(g, acts[0], id, name);
      DefinedStaysAll(Act(g, acts[0]), acts[1..], id, name);
    }
  }

  /** After every one of any number of cycles the subscriber holds the publisher's rows of an exactly
      compared attribute wherever they are defined, and, as long as the publisher does not unset rows,
      everywhere. */
  lemma {:induction false} AgreeAfterEveryCycle(w: World, cycles: seq<seq<Action>>, track: set<Flag>, name: string)
    requires Ready(w) && Viable(w, cycles, track) && Shared(w, track, name)
    requires w.pub.attrs[name].cmp == Exact && Settled(w.pub, name) && HoldsDefined(w, name)
    requires FaithfulRun(w, cycles, track, name)
    ensures HoldsDefined(Run(w, cycles, track), name) && Settled(Run(w, cycles, track).pub, name)
    ensures InAgreement(w, name) && (forall k :: 0 <= k < |cycles| ==> OnlyDefines(cycles[k], name))
         ==> InAgreement(Run(w, cycles, track), name)
    decreases |cycles|
  {
    hide Cycle, RowView, OnlyDefines, AllPossible, Shaped, Settled, Shared, HoldsDefined, InAgreement, AllFaithful;
    if cycles != [] {
      var next := Cycle(w, cycles[0], track);
      CycleKeepsAgreement(w, cycles[0], track, name);
      if InAgreement(w, name) && OnlyDefines(cycles[0], name) {
        CycleWithoutUnsetting(w, cycles[0], track, name);
      }
      AgreeAfterEveryCycle(next, cycles[1..], track, name);
    }
  }

  lemma CycleWithoutUnsetting(w: World, acts: seq<Action>, track: set<Flag>, name: string)
    requires Ready(w) && AllPossible(w.pub, acts) && Shared(w, track, name) && OnlyDefines(acts, name)
    requires w.pub.attrs[name].cmp == Exact && Settled(w.pub, name) && InAgreement(w, name)
    requires AllFaithful(w.pub, acts, name)
    ensures InAgreement(Cycle(w, acts, track), name)
  {
    hide RowView, Cycle, AllPossible, Shaped, Settled, Shared, OnlyDefines, AllFaithful;
    CycleKeepsAgreement(w, acts, track, name);
    forall id | RowView(w.pub, id, name) != UNDEFINED_ROW
      ensures RowView(Cycle(w, acts, track).pub, id, name) != UNDEFINED_ROW
    {
      DefinedStaysAll(w.pub, acts, id, name);
      CycleRow(w, acts, track, id, name);
    }
  }

  // ----- attributes of any comparison over any number of cycles

  ghost predicate IsHistory(ws: seq<World>, cycles: seq<seq<Action>>, track: set<Flag>) {
    && |ws| == |cycles| + 1 && (forall k :: 0 <= k < |ws| ==> Ready(ws[k]))
    && forall k :: 0 <= k < |cycles| ==>
      AllPossible(ws[k].pub, cycles[k]) && ws[k + 1] == Cycle(ws[k], cycles[k], track)
  }

  /** Which cycles send the row of an entity. */
  ghost function SentFlags(ws: seq<World>, cycles: seq<seq<Action>>, track: set<Flag>, id: int, name: string)
    : (sent: seq<bool>)
    requires IsHistory(ws, cycles, track)
    ensures |sent| == |cycles|
    ensures forall k :: 0 <= k < |cycles| ==> sent[k] == SentIn(ws[k], cycles[k], id, name)
  {
    hide Cycle, Sent, ActAll, Shaped, Act, Possible;
    seq(|cycles|, k requires 0 <= k < |cycles| => SentIn(ws[k], cycles[k], id, name))
  }

  /** The last of the first n positions at which a flag is set, or -1. */
  function LastSet(flags: seq<bool>, n: nat): (k: int)
    requires n <= |flags|
    ensures -1 <= k < n && (k >= 0 ==> flags[k]) && forall j :: k < j < n ==> !flags[j]
  {
    if n == 0 then -1 else if flags[n - 1] then n - 1 else LastSet(flags, n - 1)
  }

  /** After any number of cycles the subscriber holds the publisher's row at the end of the last cycle
      that sent it, so that the two are close exactly when the present row is close to that one. */
  lemma {:induction false} HoldsLastSent(ws: seq<World>, cycles: seq<seq<Action>>, track: set<Flag>, id: int,
                                         name: string, n: nat)
    requires IsHistory(ws, cycles, track) && n <= |cycles| && Shared(ws[0], track, name)
    ensures Shared(ws[n], track, name) && ws[n].pub.attrs[name].cmp == ws[0].pub.attrs[name].cmp
    ensures ws[n].pub.attrs[name].Kind() == ws[0].pub.attrs[name].Kind() && (n > 0 ==> Settled(ws[n].pub, name))
    ensures var k := LastSet(SentFlags(ws, cycles, track, id, name), n);
      RowView(ws[n].sub, id, name) == if k == -1 then RowView(ws[0].sub, id, name) else RowView(ws[k + 1].pub, id, name)
  {
    hide Cycle, RowView, SentIn, Settled, AllPossible, Shaped;
    if n > 0 {
      HoldsLastSent(ws, cycles, track, id, name, n - 1);
      CycleRow(ws[n - 1], cycles[n - 1], track, id, name);
    }
  }

  /** Which cycles send a row shows in the data: for a uniform attribute those that end with a defined
      row far from the one at the end of the cycle before, or in which the group grew before the
      attribute was touched. */
  lemma SentIfMoved(w: World, acts: seq<Action>, track: set<Flag>, id: int, name: string)
    requires Ready(w) && AllPossible(w.pub, acts) && Shared(w, track, name)
    requires w.pub.attrs[name].Uniform? && w.pub.attrs[name].cmp.Reflexive() && Settled(w.pub, name)
    ensures var row := RowView(Cycle(w, acts, track).pub, id, name);
      SentIn(w, acts, id, name)
      <==> && row != UNDEFINED_ROW
           && (!w.pub.attrs[name].cmp.SameRow(row, RowView(w.pub, id, name)) || LosesSnapshot(w.pub, acts, name))
  {
    hide Cycle, Shaped, Act, Possible, RowView, FlagView, Settled, LosesSnapshot, Comparator.SameRow,
         Comparator.Reflexive, AllPossible;
    CycleRow(w, acts, track, id, name);
    UniformFlagged(w.pub, acts, id, name);
  }

  /** For a CSR attribute those that end with a defined row and have an action that moved it far. */
  lemma SentIfJumped(w: World, acts: seq<Action>, track: set<Flag>, id: int, name: string)
    requires Ready(w) && AllPossible(w.pub, acts) && Shared(w, track, name)
    requires w.pub.attrs[name].Csr? && w.pub.attrs[name].cmp.Reflexive() && Settled(w.pub, name)
    ensures SentIn(w, acts, id, name)
       <==> RowView(Cycle(w, acts, track).pub, id, name) != UNDEFINED_ROW && AnyJump(w.pub, acts, id, name)
  {
    hide Cycle, Shaped, Act, Possible, RowView, FlagView, Settled, AnyJump, Comparator.SameRow, Comparator.Reflexive,
         AllPossible;
    CycleRow(w, acts, track, id, name);
    SettledViews(w.pub, id, name);
    FlagAfterAll(w.pub, acts, id, name);
  }

  // ----- closeness adds up

  const FLOATS := "speed"

  function FloatAt(x: real, rtol: real, atol: real): Attribute {
    Uniform(Start([Num(x)]), Isclose(rtol, atol, true), PUBLISHED)
  }

  /** One entity whose float has reached x, just reset. */
  function PublisherAt(x: real, rtol: real, atol: real): (g: Group)
    ensures ShapedGroup(g) && g.Data() == EntityData([1], map[FLOATS := AttributeData(UNIFORM, true, [[Num(x)]])])
  {
    var a := FloatAt(x, rtol, atol);
    assert a.Rows() == [[Num(x)]] && Lift([Num(x)]) == [[Num(x)]];
    Group([1], map[FLOATS := a])
  }

  function Step(x: real): Action {
    Action.Write(FLOATS, [0], [[Num(x)]], false)
  }

  lemma StepIsUnflagged(x: real, rtol: real, atol: real)
    requires rtol >= 0.0 && atol >= 0.0
    ensures var a, upd := FloatAt(x, rtol, atol), [[Num(x + atol)]];
      && a.Accepts([0], upd) && a.Update([0], upd, false).Changed() == [false]
      && a.Update([0], upd, false).Reset() == FloatAt(x + atol, rtol, atol)
  {
    var a, cmp, y := FloatAt(x, rtol, atol), Isclose(rtol, atol, true), x + atol;
    assert [[Num(y)]][0] == [Num(y)];
    assert Unlift([[Num(y)]]) == [Num(y)];
    assert PositionOf([0], 0) == 0;
    assert Stripped([Num(x)], [0], [Num(y)]) == [Num(y)];
    assert WriteCells([Num(x)], [0], [Num(y)]) == [Num(y)];
    assert rtol * Abs(x) >= 0.0 && Abs(y - x) == atol;
    assert cmp.Same(Num(y), Num(x));
  }

  lemma StepIsNotPublished(x: real, rtol: real, atol: real)
    requires rtol >= 0.0 && atol >= 0.0
    ensures var g := PublisherAt(x, rtol, atol);
      && Possible(g, Step(x + atol)) && Generated(Act(g, Step(x + atol)), PUBLISHED).None?
      && ResetFlagged(Act(g, Step(x + atol)), PUBLISHED) == PublisherAt(x + atol, rtol, atol)
  {
    hide Attribute.Update, Attribute.Accepts, Attribute.Reset, Attribute.Changed, Shaped;
    var g := PublisherAt(x, rtol, atol);
    StepIsUnflagged(x, rtol, atol);
    var next := Act(g, Step(x + atol));
    assert PUBLISH in next.attrs[FLOATS].flags * PUBLISHED;
    assert AllChanged(next, PUBLISHED) == [false];
    assert ResetFlagged(next, PUBLISHED).attrs == PublisherAt(x + atol, rtol, atol).attrs;
  }

  lemma {:induction false} DriftRun(x: real, rtol: real, atol: real, sub: Group, n: nat)
    returns (cycles: seq<seq<Action>>)
    requires rtol >= 0.0 && atol >= 0.0 && Ready(World(PublisherAt(x, rtol, atol), sub))
    ensures |cycles| == n && Viable(World(PublisherAt(x, rtol, atol), sub), cycles, {})
    ensures Run(World(PublisherAt(x, rtol, atol), sub), cycles, {})
         == World(PublisherAt(MovedBy(x, atol, n), rtol, atol), sub)
    decreases n
  {
    hide Act, Possible, Generated, ResetFlagged, PublisherAt, Shaped, AllPossible, Cycle, Group.WellFormed;
    var w := World(PublisherAt(x, rtol, atol), sub);
    if n == 0 {
      cycles := [];
    } else {
      var acts := [Step(x + atol)];
      DriftCycle(w, acts[0], x, rtol, atol);
      var rest := DriftRun(x + atol, rtol, atol, sub, n - 1);
      cycles := [acts] + rest;
      RunFirst(w, acts, rest, {});
    }
  }

  lemma RunFirst(w: World, acts: seq<Action>, rest: seq<seq<Action>>, track: set<Flag>)
    requires Ready(w) && AllPossible(w.pub, acts) && Viable(Cycle(w, acts, track), rest, track)
    ensures Viable(w, [acts] + rest, track)
    ensures Run(w, [acts] + rest, track) == Run(Cycle(w, acts, track), rest, track)
  {
    hide Act, Possible, Shaped, AllPossible, Cycle, Group.WellFormed;
    assert ([acts] + rest)[1..] == rest;
  }

  lemma DriftCycle(w: World, a: Action, x: real, rtol: real, atol: real)
    requires rtol >= 0.0 && atol >= 0.0 && a == Step(x + atol) && w.pub == PublisherAt(x, rtol, atol) && Ready(w)
    ensures AllPossible(w.pub, [a]) && Cycle(w, [a], {}) == World(PublisherAt(x + atol, rtol, atol), w.sub)
  {
    hide Act, Generated, ResetFlagged, PublisherAt, Shaped;
    StepIsNotPublished(x, rtol, atol);
    assert [a][1..] == [];
    assert AllPossible(Act(w.pub, a), []);
    assert ActAll(w.pub, [a]) == Act(w.pub, a);
  }

  /** The agreement within the tolerance is for one cycle only: a float that moves by the absolute
      tolerance in every cycle is never published, however far the subscriber falls behind. */
  lemma FloatsDriftApart(x: real, rtol: real, atol: real, sub: Group, n: nat) returns (cycles: seq<seq<Action>>)
    requires rtol >= 0.0 && atol >= 0.0 && Ready(World(PublisherAt(x, rtol, atol), sub))
    ensures |cycles| == n && Viable(World(PublisherAt(x, rtol, atol), sub), cycles, {})
    ensures Run(World(PublisherAt(x, rtol, atol), sub), cycles, {})
         == World(PublisherAt(x + n as real * atol, rtol, atol), sub)
  {
    hide *;
    cycles := DriftRun(x, rtol, atol, sub, n);
    MovedByIs(x, atol, n);
  }
}
