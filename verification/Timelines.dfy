/** Replaying and taking back updates, on the values of one entity group and of all groups. */
module Timelines {
  import opened Cells
  import opened EntityIndex
  import opened AttributeValues
  import opened EntityTable
  import opened MergeUpdates
  import opened UpdateStreams

  // ----- taking an update back

  type Values = imap<(int, string), Row>

  /** The rows of a group by id and attribute. Attributes and entities that are not there count as
      undefined. */
  ghost function ValuesOf(g: EntityData): Values
    requires g.WellFormed()
  {
    imap p: (int, string) | true :: g.View(p.0, p.1)
  }

  lemma ValueAt(g: EntityData, id: int, name: string)
    requires g.WellFormed()
    ensures (id, name) in ValuesOf(g) && ValuesOf(g)[(id, name)] == g.View(id, name)
  {
  }

  /** The two groups hold the same rows. */
  ghost predicate SameView(a: EntityData, b: EntityData)
    requires a.WellFormed() && b.WellFormed()
  {
    ValuesOf(a) == ValuesOf(b)
  }

  lemma SameViewMeansRows(a: EntityData, b: EntityData)
    requires a.WellFormed() && b.WellFormed()
    ensures SameView(a, b) <==> forall id, name :: a.View(id, name) == b.View(id, name)
  {
    if SameView(a, b) {
      forall id, name
        ensures a.View(id, name) == b.View(id, name)
      {
        ValueAt(a, id, name);
        ValueAt(b, id, name);
      }
    }
  }

  lemma ReceiveSameView(a: EntityData, b: EntityData, u: EntityData, processUndefined: bool)
    requires a.WellFormed() && b.WellFormed() && u.WellFormed() && SameView(a, b)
    ensures SameView(Receive(a, u, true, processUndefined), Receive(b, u, true, processUndefined))
  {
    var x, y := Receive(a, u, true, processUndefined), Receive(b, u, true, processUndefined);
    SameViewMeansRows(a, b);
    forall id, name
      ensures x.View(id, name) == y.View(id, name)
    {
      ReceiveView(a, u, true, processUndefined, id, name);
      ReceiveView(b, u, true, processUndefined, id, name);
    }
    SameViewMeansRows(x, y);
  }

  predicate Shared(t: EntityData, u: EntityData, name: string) {
    name in t.attrs && name in u.attrs
  }

  /** Whether an attribute can be sliced at the ids of an update. An attribute that has no entities at all
      cannot. A CSR attribute cannot at an unknown id, because there the last row is looked up as an empty
      one, unless it is empty. An attribute that is not there yet is made up of undefined rows first. */
  predicate CanSlice(t: EntityData, u: EntityData, name: string)
    requires t.WellFormed() && name in u.attrs
  {
    if name in t.attrs then
      u.ids != [] ==>
        t.ids != [] && (t.attrs[name].kind == CSR ==> AllKnown(t, u) || t.attrs[name].rows[|t.ids| - 1] == [])
    else u.attrs[name].kind == CSR ==> AllKnown(t, u)
  }

  /** The reverse of the update can be computed; the source raises when it cannot. */
  predicate Sliceable(t: EntityData, u: EntityData)
    requires t.WellFormed()
  {
    forall name :: name in u.attrs ==> CanSlice(t, u, name)
  }

  predicate AllKnown(t: EntityData, u: EntityData) {
    forall id :: id in u.ids ==> id in t.ids
  }

  /** The row at the index of an id. An unknown id has index -1, which is the last row. */
  function IndexedRow(t: EntityData, name: string, id: int): Row
    requires t.WellFormed() && (name in t.attrs ==> t.ids != [])
  {
    if name !in t.attrs then UNDEFINED_ROW
    else if id in t.ids then t.attrs[name].rows[PositionOf(t.ids, id)]
    else t.attrs[name].rows[|t.ids| - 1]
  }

  function IndexedRows(t: EntityData, u: EntityData, name: string): (rows: Column)
    requires t.WellFormed() && name in u.attrs && Sliceable(t, u)
    ensures |rows| == |u.ids|
    ensures forall k :: 0 <= k < |u.ids| ==>
      (name in t.attrs ==> t.ids != []) && rows[k] == IndexedRow(t, name, u.ids[k])
  {
    assert CanSlice(t, u, name);
    seq(|u.ids|, k requires 0 <= k < |u.ids| => IndexedRow(t, name, u.ids[k]))
  }

  /** The rows that an update is going to overwrite. */
  function ReverseOf(t: EntityData, u: EntityData): (r: EntityData)
    requires t.WellFormed() && u.WellFormed() && Sliceable(t, u)
    ensures r.WellFormed() && r.ids == u.ids && r.attrs.Keys == u.attrs.Keys
  {
    EntityData(u.ids, map name | name in u.attrs :: u.attrs[name].(rows := IndexedRows(t, u, name)))
  }

  ghost predicate Undoes(t: EntityData, u: EntityData, reverse: EntityData)
    requires t.WellFormed() && u.WellFormed() && reverse.WellFormed()
  {
    SameView(Receive(Receive(t, u, true, false), reverse, true, true), t)
  }

  /** The value that a new entity of the update reads by mistake: the last row. */
  function MistakenRow(t: EntityData, u: EntityData, id: int, name: string): Row
    requires t.WellFormed()
  {
    if Shared(t, u, name) && id in u.ids && id !in t.ids && t.ids != [] then t.attrs[name].rows[|t.ids| - 1]
    else UNDEFINED_ROW
  }

  /** No new entity reads another one's row. */
  ghost predicate NoMistakes(t: EntityData, u: EntityData)
    requires t.WellFormed()
  {
    forall id, name :: MistakenRow(t, u, id, name) == UNDEFINED_ROW
  }

  lemma ReverseView(t: EntityData, u: EntityData, id: int, name: string)
    requires t.WellFormed() && u.WellFormed() && Sliceable(t, u) && name in u.attrs && id in u.ids
    ensures ReverseOf(t, u).View(id, name) == if id in t.ids then t.View(id, name) else MistakenRow(t, u, id, name)
  {
    var k := PositionOf(u.ids, id);
    assert ReverseOf(t, u).attrs[name].rows == IndexedRows(t, u, name);
  }

  lemma UndoneView(t: EntityData, u: EntityData, id: int, name: string)
    requires t.WellFormed() && u.WellFormed() && Sliceable(t, u)
    ensures Receive(Receive(t, u, true, false), ReverseOf(t, u), true, true).View(id, name)
         == if id in t.ids then t.View(id, name) else MistakenRow(t, u, id, name)
  {
    ReceiveView(t, u, true, false, id, name);
    ReceiveView(Receive(t, u, true, false), ReverseOf(t, u), true, true, id, name);
    if name in u.attrs && id in u.ids {
      ReverseView(t, u, id, name);
    }
  }

  /** Where the reverse can be computed, applying an update and then its reverse restores every row
      exactly when each new entity of the update reads an undefined last row, so in particular when all
      ids are known. */
  lemma UndoRestores(t: EntityData, u: EntityData)
    requires t.WellFormed() && u.WellFormed() && Sliceable(t, u)
    ensures Undoes(t, u, ReverseOf(t, u)) <==> NoMistakes(t, u)
  {
    var undone := Receive(Receive(t, u, true, false), ReverseOf(t, u), true, true);
    forall id, name
      ensures undone.View(id, name) == if id in t.ids then t.View(id, name) else MistakenRow(t, u, id, name)
    {
      UndoneView(t, u, id, name);
    }
    SameViewMeansRows(undone, t);
    if Undoes(t, u, ReverseOf(t, u)) {
      forall id, name
        ensures MistakenRow(t, u, id, name) == UNDEFINED_ROW
      {
        assert undone.View(id, name) == t.View(id, name);
      }
    }
  }

  /** A new entity in an existing group does break it: the reverse update gives the new entity the
      value of the last one. */
  lemma NewEntityIsNotUndone()
    ensures var t := EntityData([1], map["a" := AttributeData(UNIFORM, false, [[Num(10.0)]])]);
      var u := EntityData([2], map["a" := AttributeData(UNIFORM, false, [[Num(20.0)]])]);
      Sliceable(t, u) && !Undoes(t, u, ReverseOf(t, u))
  {
    var t := EntityData([1], map["a" := AttributeData(UNIFORM, false, [[Num(10.0)]])]);
    var u := EntityData([2], map["a" := AttributeData(UNIFORM, false, [[Num(20.0)]])]);
    UndoRestores(t, u);
    assert Shared(t, u, "a") && MistakenRow(t, u, 2, "a") == [Num(10.0)];
  }

  /** For a new group the reverse can be computed exactly when the update has no entities or no CSR data. */
  lemma NewGroupIsSliceable(u: EntityData)
    ensures Sliceable(EMPTY_GROUP, u)
       <==> u.ids == [] || forall name :: name in u.attrs ==> u.attrs[name].kind == UNIFORM
  {
    if u.ids != [] {
      var id := u.ids[0];
      assert id in u.ids && id !in EMPTY_GROUP.ids;
      assert forall name :: name in u.attrs ==> (CanSlice(EMPTY_GROUP, u, name) <==> u.attrs[name].kind == UNIFORM);
    }
  }

  /** It cannot, either, for a CSR attribute that a known group gets together with a new entity. */
  lemma NewCsrAttributeRaises()
    ensures var u := EntityData([1], map["c" := AttributeData(CSR, true, [[Num(1.0), Num(2.0)]])]);
      !Sliceable(EMPTY_GROUP, u)
    ensures var t := EntityData([1], map["a" := AttributeData(UNIFORM, false, [[Num(10.0)]])]);
      var u := EntityData([2], map["c" := AttributeData(CSR, true, [[Num(1.0), Num(2.0)]])]);
      t.WellFormed() && !Sliceable(t, u)
  {
    var c := map["c" := AttributeData(CSR, true, [[Num(1.0), Num(2.0)]])];
    var t := EntityData([1], map["a" := AttributeData(UNIFORM, false, [[Num(10.0)]])]);
    NewGroupIsSliceable(EntityData([1], c));
    assert c["c"].kind == CSR && 2 in EntityData([2], c).ids && 2 !in t.ids;
    assert !CanSlice(t, EntityData([2], c), "c");
  }

  /** An attribute that a group has: it can be sliced at known entities, at an unknown one if it is uniform or its
      last row is empty, and at none if the group is empty. */
  lemma SharedAttributeSlices(t: EntityData, u: EntityData, name: string)
    requires t.WellFormed() && Shared(t, u, name) && u.ids != []
    ensures t.ids == [] ==> !CanSlice(t, u, name)
    ensures AllKnown(t, u) ==> CanSlice(t, u, name)
    ensures t.ids != [] && (exists id :: id in u.ids && id !in t.ids) ==>
      (CanSlice(t, u, name)
       <==> t.attrs[name].kind == UNIFORM || t.attrs[name].rows[|t.ids| - 1] == [])
  {
    var id := u.ids[0];
    assert id in u.ids && (AllKnown(t, u) ==> id in t.ids);
  }

  /** Either all entities are known, or all attributes of the update are uniform and not there yet, as in
      a new group. */
  ghost predicate KnownOrNew(t: EntityData, u: EntityData) {
    AllKnown(t, u) || (forall name :: name in u.attrs ==> name !in t.attrs && u.attrs[name].kind == UNIFORM)
  }

  lemma KnownIsUndone(t: EntityData, u: EntityData)
    requires t.WellFormed() && u.WellFormed() && KnownOrNew(t, u)
    ensures Sliceable(t, u) && Undoes(t, u, ReverseOf(t, u)) && Undoable(t, u)
  {
    KnownIsSliceable(t, u);
    UndoRestores(t, u);
  }

  lemma KnownIsSliceable(t: EntityData, u: EntityData)
    requires t.WellFormed() && KnownOrNew(t, u)
    ensures Sliceable(t, u) && NoMistakes(t, u)
  {
    if AllKnown(t, u) && u.ids != [] {
      var id := u.ids[0];
      assert id in u.ids;
    }
  }

  /** If the reverse can be computed at all, it is right. */
  ghost predicate Undoable(t: EntityData, u: EntityData)
    requires t.WellFormed()
  {
    Sliceable(t, u) ==> NoMistakes(t, u)
  }

  /** Applying the update leads from the first values to the second, and the reverse leads back. */
  ghost predicate Connects(before: Values, update: EntityData, reverse: EntityData, after: Values)
    requires update.WellFormed() && reverse.WellFormed()
  {
    && (forall w: EntityData :: w.WellFormed() && ValuesOf(w) == before ==>
      ValuesOf(Receive(w, update, true, false)) == after)
    && (forall w: EntityData :: w.WellFormed() && ValuesOf(w) == after ==>
      ValuesOf(Receive(w, reverse, true, true)) == before)
  }

  /** An update and the reverse that is computed before it is applied. */
  lemma ReverseConnects(t: EntityData, u: EntityData)
    requires t.WellFormed() && u.WellFormed() && Sliceable(t, u) && NoMistakes(t, u)
    ensures Connects(ValuesOf(t), u, ReverseOf(t, u), ValuesOf(Receive(t, u, true, false)))
  {
    hide Receive, ReverseOf, Sliceable, NoMistakes, ValuesOf, EntityData.WellFormed;
    UndoRestores(t, u);
    var next, reverse := Receive(t, u, true, false), ReverseOf(t, u);
    forall w: EntityData | w.WellFormed() && ValuesOf(w) == ValuesOf(t)
      ensures ValuesOf(Receive(w, u, true, false)) == ValuesOf(next)
    {
      ReceiveSameView(w, t, u, false);
    }
    forall w: EntityData | w.WellFormed() && ValuesOf(w) == ValuesOf(next)
      ensures ValuesOf(Receive(w, reverse, true, true)) == ValuesOf(t)
    {
      ReceiveSameView(w, next, reverse, true);
    }
  }

  // ----- replaying

  ghost predicate UpdatesWellFormed(us: seq<TimedUpdate>) {
    forall i :: 0 <= i < |us| ==> us[i].update.WellFormed()
  }

  /** The group after its first n updates. */
  function Replay(g: EntityData, us: seq<TimedUpdate>, n: nat): (r: EntityData)
    requires g.WellFormed() && UpdatesWellFormed(us) && n <= |us|
    ensures r.WellFormed()
  {
    if n == 0 then g else Receive(Replay(g, us, n - 1), us[n - 1].update, true, false)
  }

  lemma {:induction false} ReplayPrefix(g: EntityData, us: seq<TimedUpdate>, more: seq<TimedUpdate>, n: nat)
    requires g.WellFormed() && UpdatesWellFormed(us) && UpdatesWellFormed(us + more) && n <= |us|
    ensures Replay(g, us + more, n) == Replay(g, us, n)
  {
    hide Receive, EntityData.WellFormed, UpdatesWellFormed;
    if n > 0 {
      ReplayPrefix(g, us, more, n - 1);
      UpdateIsWellFormed(us, n - 1);
      assert (us + more)[n - 1] == us[n - 1];
    }
  }

  lemma UpdateIsWellFormed(us: seq<TimedUpdate>, i: nat)
    requires UpdatesWellFormed(us) && i < |us|
    ensures us[i].update.WellFormed()
  {
  }

  /** The values of the group before the first update, after the first, and so on. */
  ghost function Course(g: EntityData, us: seq<TimedUpdate>): (course: seq<Values>)
    requires g.WellFormed() && UpdatesWellFormed(us)
    ensures |course| == |us| + 1
    ensures forall n :: 0 <= n <= |us| ==> course[n] == ValuesOf(Replay(g, us, n))
  {
    seq(|us| + 1, n requires 0 <= n <= |us| => ValuesOf(Replay(g, us, n)))
  }

  lemma AppendedWellFormed(us: seq<TimedUpdate>, u: TimedUpdate)
    requires UpdatesWellFormed(us) && u.update.WellFormed()
    ensures UpdatesWellFormed(us + [u])
  {
  }

  lemma CourseKeeps(g: EntityData, us: seq<TimedUpdate>, u: TimedUpdate, n: nat)
    requires g.WellFormed() && UpdatesWellFormed(us) && UpdatesWellFormed(us + [u]) && n <= |us|
    ensures Course(g, us + [u])[n] == Course(g, us)[n]
  {
    ReplayPrefix(g, us, [u], n);
  }

  lemma CourseEnds(g: EntityData, us: seq<TimedUpdate>, u: TimedUpdate)
    requires g.WellFormed() && UpdatesWellFormed(us) && u.update.WellFormed() && UpdatesWellFormed(us + [u])
    ensures Course(g, us + [u])[|us| + 1] == ValuesOf(Receive(Replay(g, us, |us|), u.update, true, false))
  {
    hide Receive, EntityData.WellFormed, ValuesOf;
    ReplayPrefix(g, us, [u], |us|);
    assert (us + [u])[|us|] == u;
  }

  /** Adding an update to a group that is where its course ends lengthens the course by one step. */
  lemma CourseAppend(g: EntityData, us: seq<TimedUpdate>, u: TimedUpdate, current: EntityData)
    requires g.WellFormed() && UpdatesWellFormed(us) && u.update.WellFormed() && UpdatesWellFormed(us + [u])
    requires current.WellFormed() && ValuesOf(current) == Course(g, us)[|us|]
    ensures Course(g, us + [u]) == Course(g, us) + [ValuesOf(Receive(current, u.update, true, false))]
  {
    hide Receive, ValuesOf, Replay, EntityData.WellFormed;
    var longer, course := Course(g, us + [u]), Course(g, us);
    CourseEnds(g, us, u);
    ReceiveSameView(current, Replay(g, us, |us|), u.update, false);
    forall n | 0 <= n <= |us|
      ensures longer[n] == course[n]
    {
      CourseKeeps(g, us, u, n);
    }
  }

  ghost predicate Increasing(us: seq<TimedUpdate>) {
    forall i, j :: 0 <= i < j < |us| ==> us[i].timestamp < us[j].timestamp
  }

  /** How many updates have a timestamp up to t. */
  function CountUpTo(us: seq<TimedUpdate>, t: int): (n: nat)
    ensures n <= |us|
    ensures n > 0 ==> us[n - 1].timestamp <= t
    ensures forall i :: n <= i < |us| ==> us[i].timestamp > t
  {
    if us == [] then 0
    else if us[|us| - 1].timestamp <= t then |us|
    else CountUpTo(us[..|us| - 1], t)
  }

  // ----- all groups

  /** An update of all datasets with its place in time. */
  datatype TimedWorld = TimedWorld(timestamp: int, iteration: int, data: World)

  ghost predicate AllTimedWellFormed(us: seq<TimedWorld>) {
    forall i :: 0 <= i < |us| ==> WellFormed(us[i].data)
  }

  ghost predicate IncreasingWorlds(us: seq<TimedWorld>) {
    forall i, j :: 0 <= i < j < |us| ==> us[i].timestamp < us[j].timestamp
  }

  /** The part of the updates that one group takes. */
  function Project(us: seq<TimedWorld>, key: Key): (r: seq<TimedUpdate>)
    ensures AllTimedWellFormed(us) ==> UpdatesWellFormed(r)
    ensures forall i :: 0 <= i < |r| ==> exists j :: 0 <= j < |us| && us[j].timestamp == r[i].timestamp
  {
    if us == [] then []
    else
      var n := |us| - 1;
      var front := Project(us[..n], key);
      assert forall j :: 0 <= j < n ==> us[..n][j] == us[j];
      if key in us[n].data then front + [TimedUpdate(us[n].timestamp, us[n].iteration, us[n].data[key])] else front
  }

  lemma {:induction false} ProjectIncreasing(us: seq<TimedWorld>, key: Key)
    requires IncreasingWorlds(us)
    ensures Increasing(Project(us, key))
  {
    if us != [] {
      var n := |us| - 1;
      ProjectIncreasing(us[..n], key);
      var front := Project(us[..n], key);
      forall i | 0 <= i < |front|
        ensures front[i].timestamp < us[n].timestamp
      {
        var j :| 0 <= j < n && us[..n][j].timestamp == front[i].timestamp;
      }
    }
  }

  /** The data of the updates up to time t, in order. */
  function DataUpTo(us: seq<TimedWorld>, t: int): (r: seq<World>)
    ensures AllTimedWellFormed(us) ==> AllWellFormed(r)
  {
    if us == [] then []
    else
      var n := |us| - 1;
      if us[n].timestamp <= t then DataUpTo(us[..n], t) + [us[n].data] else DataUpTo(us[..n], t)
  }

  lemma ProjectAppend(us: seq<TimedWorld>, u: TimedWorld, key: Key)
    ensures Project(us + [u], key)
         == if key in u.data then Project(us, key) + [TimedUpdate(u.timestamp, u.iteration, u.data[key])]
            else Project(us, key)
  {
    assert (us + [u])[..|us|] == us;
  }

  /** Replaying all updates up to t in every group is replaying, in each group, its own updates up to t. */
  lemma {:induction false} ReplayByGroup(init: World, us: seq<TimedWorld>, t: int, key: Key)
    requires WellFormed(init) && AllTimedWellFormed(us) && IncreasingWorlds(us)
    ensures var mine := Project(us, key);
      GroupOf(ReceiveInTurn(init, DataUpTo(us, t), true), key) == Replay(GroupOf(init, key), mine, CountUpTo(mine, t))
  {
    if us != [] {
      var n := |us| - 1;
      ReplayByGroup(init, us[..n], t, key);
      ReceiveLast(init, us, t, key);
      ReplayLast(GroupOf(init, key), us, t, key);
    }
  }

  lemma ReceiveLast(init: World, us: seq<TimedWorld>, t: int, key: Key)
    requires WellFormed(init) && AllTimedWellFormed(us) && us != []
    ensures var n := |us| - 1;
      var before := GroupOf(ReceiveInTurn(init, DataUpTo(us[..n], t), true), key);
      GroupOf(ReceiveInTurn(init, DataUpTo(us, t), true), key)
      == if us[n].timestamp <= t && key in us[n].data then Receive(before, us[n].data[key], true, false) else before
  {
    var n := |us| - 1;
    if us[n].timestamp <= t {
      var datas := DataUpTo(us[..n], t);
      assert DataUpTo(us, t)[..|datas|] == datas;
      ReceiveAt(ReceiveInTurn(init, datas, true), us[n].data, true, false, key);
    }
  }

  lemma ReplayLast(g: EntityData, us: seq<TimedWorld>, t: int, key: Key)
    requires g.WellFormed() && AllTimedWellFormed(us) && IncreasingWorlds(us) && us != []
    ensures var n := |us| - 1;
      var mine, before := Project(us, key), Project(us[..n], key);
      Replay(g, mine, CountUpTo(mine, t))
      == if us[n].timestamp <= t && key in us[n].data
         then Receive(Replay(g, before, CountUpTo(before, t)), us[n].data[key], true, false)
         else Replay(g, before, CountUpTo(before, t))
  {
    hide Receive, EntityData.WellFormed, Replay, Project, CountUpTo;
    var n := |us| - 1;
    var before := Project(us[..n], key);
    assert us == us[..n] + [us[n]];
    ProjectAppend(us[..n], us[n], key);
    if key in us[n].data {
      ReplayAppend(g, before, TimedUpdate(us[n].timestamp, us[n].iteration, us[n].data[key]), t);
    }
    if us[n].timestamp <= t {
      EarlierCountAll(us[..n], us[n].timestamp, t, key);
    }
  }

  lemma ReplayAppend(g: EntityData, us: seq<TimedUpdate>, u: TimedUpdate, t: int)
    requires g.WellFormed() && UpdatesWellFormed(us) && UpdatesWellFormed(us + [u]) && u.update.WellFormed()
    ensures Replay(g, us + [u], CountUpTo(us + [u], t))
         == if u.timestamp <= t then Receive(Replay(g, us, |us|), u.update, true, false)
            else Replay(g, us, CountUpTo(us, t))
  {
    hide Receive, EntityData.WellFormed;
    assert (us + [u])[..|us|] == us;
    if u.timestamp <= t {
      ReplayPrefix(g, us, [u], |us|);
    } else {
      ReplayPrefix(g, us, [u], CountUpTo(us, t));
    }
  }

  lemma EarlierCountAll(us: seq<TimedWorld>, timestamp: int, t: int, key: Key)
    requires timestamp <= t && forall i :: 0 <= i < |us| ==> us[i].timestamp < timestamp
    ensures CountUpTo(Project(us, key), t) == |Project(us, key)|
  {
    var mine := Project(us, key);
    if mine != [] {
      var j :| 0 <= j < |us| && us[j].timestamp == mine[|mine| - 1].timestamp;
    }
  }
}
