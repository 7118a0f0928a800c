/** Ordering the updates of a simulation and merging those with the same timestamp. */
module UpdateOrder {
  import opened Cells
  import opened EntityTable
  import opened MergeUpdates
  import opened Timelines

  /** Ordered by timestamp first and iteration second. */
  predicate NotAfter(a: TimedWorld, b: TimedWorld) {
    a.timestamp < b.timestamp || (a.timestamp == b.timestamp && a.iteration <= b.iteration)
  }

  ghost predicate IsSorted(us: seq<TimedWorld>) {
    forall i, j :: 0 <= i < j < |us| ==> NotAfter(us[i], us[j])
  }

  /** Behind all updates that are not after it, so that equal updates keep their order. */
  function InsertSorted(us: seq<TimedWorld>, u: TimedWorld): (r: seq<TimedWorld>)
    requires IsSorted(us)
    ensures IsSorted(r) && multiset(r) == multiset(us) + multiset{u}
    ensures forall x :: x in r <==> x == u || x in us
  {
    if us == [] then [u]
    else
      var n := |us| - 1;
      assert us == us[..n] + [us[n]];
      if NotAfter(us[n], u) then us + [u]
      else
        var front := InsertSorted(us[..n], u);
        assert forall i :: 0 <= i < |front| ==> front[i] in front;
        front + [us[n]]
  }

  function SortUpdates(us: seq<TimedWorld>): (r: seq<TimedWorld>)
    ensures IsSorted(r) && multiset(r) == multiset(us)
    ensures AllTimedWellFormed(us) ==> AllTimedWellFormed(r)
  {
    if us == [] then []
    else
      var n := |us| - 1;
      assert us == us[..n] + [us[n]];
      var r := InsertSorted(SortUpdates(us[..n]), us[n]);
      SameUpdatesWellFormed(us, r);
      r
  }

  lemma SortedLength(us: seq<TimedWorld>)
    ensures |SortUpdates(us)| == |us|
  {
    assert |multiset(SortUpdates(us))| == |multiset(us)|;
  }

  /** An update comes before another one when its time is earlier, or its iteration within the same time. */
  lemma SortedInTime(us: seq<TimedWorld>, i: nat, j: nat)
    requires i < j < |us|
    ensures |SortUpdates(us)| == |us|
    ensures var a, b := SortUpdates(us)[i], SortUpdates(us)[j];
      a.timestamp < b.timestamp || (a.timestamp == b.timestamp && a.iteration <= b.iteration)
  {
    SortedLength(us);
  }

  lemma SameUpdatesWellFormed(us: seq<TimedWorld>, r: seq<TimedWorld>)
    requires multiset(r) == multiset(us)
    ensures AllTimedWellFormed(us) ==> AllTimedWellFormed(r)
  {
    hide WellFormed;
    forall i | 0 <= i < |r|
      ensures r[i] in us
    {
      assert r[i] in multiset(r);
    }
  }

  /** The updates of one timestamp and iteration, in their order. */
  function WithKey(us: seq<TimedWorld>, timestamp: int, iteration: int): seq<TimedWorld> {
    if us == [] then []
    else
      var n := |us| - 1;
      WithKey(us[..n], timestamp, iteration)
      + (if us[n].timestamp == timestamp && us[n].iteration == iteration then [us[n]] else [])
  }

  lemma {:induction false} InsertIsStable(us: seq<TimedWorld>, u: TimedWorld, timestamp: int, iteration: int)
    requires IsSorted(us)
    ensures WithKey(InsertSorted(us, u), timestamp, iteration) == WithKey(us + [u], timestamp, iteration)
  {
    assert (us + [u])[..|us|] == us;
    if us != [] {
      var n := |us| - 1;
      if !NotAfter(us[n], u) {
        InsertIsStable(us[..n], u, timestamp, iteration);
        var front := InsertSorted(us[..n], u);
        assert (front + [us[n]])[..|front|] == front && (us[..n] + [u])[..n] == us[..n];
      }
    }
  }

  /** Updates of the same timestamp and iteration keep their order. */
  lemma {:induction false} SortIsStable(us: seq<TimedWorld>, timestamp: int, iteration: int)
    ensures WithKey(SortUpdates(us), timestamp, iteration) == WithKey(us, timestamp, iteration)
  {
    if us != [] {
      var n := |us| - 1;
      var front := SortUpdates(us[..n]);
      SortIsStable(us[..n], timestamp, iteration);
      InsertIsStable(front, us[n], timestamp, iteration);
      assert (front + [us[n]])[..|front|] == front;
    }
  }

  function MergeTwo(a: World, b: World): (r: World)
    requires WellFormed(a) && WellFormed(b)
    ensures WellFormed(r)
  {
    ReceiveInTurn(map[], [a, b], true)
  }

  /** An update with the timestamp of the last one is merged into that. */
  function AppendMerged(r: seq<TimedWorld>, u: TimedWorld): (next: seq<TimedWorld>)
    requires AllTimedWellFormed(r) && WellFormed(u.data) && r != []
    ensures AllTimedWellFormed(next) && |r| <= |next| <= |r| + 1
    ensures next[|next| - 1].timestamp == u.timestamp && next[0].timestamp == r[0].timestamp
  {
    var last := r[|r| - 1];
    if last.timestamp == u.timestamp
    then r[..|r| - 1] + [TimedWorld(u.timestamp, u.iteration, MergeTwo(last.data, u.data))]
    else r + [u]
  }

  /** Successive updates with one timestamp become one update. */
  function MergeAtEqualTimestamp(us: seq<TimedWorld>): (r: seq<TimedWorld>)
    requires AllTimedWellFormed(us)
    ensures AllTimedWellFormed(r) && |r| <= |us| && (us != [] ==> r != [])
    ensures us != [] ==> r[|r| - 1].timestamp == us[|us| - 1].timestamp && r[0].timestamp == us[0].timestamp
  {
    if |us| <= 1 then us else AppendMerged(MergeAtEqualTimestamp(us[..|us| - 1]), us[|us| - 1])
  }

  lemma AppendIncreases(r: seq<TimedWorld>, u: TimedWorld)
    requires AllTimedWellFormed(r) && WellFormed(u.data) && r != [] && IncreasingWorlds(r)
    requires r[|r| - 1].timestamp <= u.timestamp
    ensures IncreasingWorlds(AppendMerged(r, u))
  {
    hide WellFormed, MergeTwo;
  }

  lemma {:induction false} MergedTimestampsIncrease(us: seq<TimedWorld>)
    requires AllTimedWellFormed(us) && IsSorted(us)
    ensures IncreasingWorlds(MergeAtEqualTimestamp(us))
  {
    if |us| > 1 {
      var n := |us| - 1;
      var front := MergeAtEqualTimestamp(us[..n]);
      MergedTimestampsIncrease(us[..n]);
      assert us[..n][n - 1] == us[n - 1] && NotAfter(us[n - 1], us[n]);
      AppendIncreases(front, us[n]);
    }
  }

  lemma DataUpToAppend(us: seq<TimedWorld>, u: TimedWorld, t: int)
    ensures DataUpTo(us + [u], t) == if u.timestamp <= t then DataUpTo(us, t) + [u.data] else DataUpTo(us, t)
  {
    assert (us + [u])[..|us|] == us;
  }

  lemma ReceiveAppend(w: World, updates: seq<World>, u: World)
    requires WellFormed(w) && AllWellFormed(updates) && WellFormed(u)
    ensures ReceiveInTurn(w, updates + [u], true) == ReceiveUpdate(ReceiveInTurn(w, updates, true), u, true, false)
  {
    assert (updates + [u])[..|updates|] == updates;
  }

  lemma ReceiveMergedTwo(w: World, a: World, b: World)
    requires WellFormed(w) && WellFormed(a) && WellFormed(b)
    ensures ReceiveUpdate(w, MergeTwo(a, b), true, false)
         == ReceiveUpdate(ReceiveUpdate(w, a, true, false), b, true, false)
  {
    ReceiveMerged(w, [a, b], true);
    assert [a, b] == [a] + [b] && [a] == [] + [a];
    ReceiveAppend(w, [a], b);
    ReceiveAppend(w, [], a);
  }

  /** At any time, replaying the merged updates is replaying the original ones. */
  lemma {:induction false} MergedReplay(w: World, us: seq<TimedWorld>, t: int)
    requires WellFormed(w) && AllTimedWellFormed(us)
    ensures ReceiveInTurn(w, DataUpTo(MergeAtEqualTimestamp(us), t), true) == ReceiveInTurn(w, DataUpTo(us, t), true)
  {
    hide WellFormed, ReceiveUpdate, ReceiveInTurn, DataUpTo, AppendMerged;
    if |us| > 1 {
      var n := |us| - 1;
      MergedReplay(w, us[..n], t);
      assert us == us[..n] + [us[n]];
      DataUpToAppend(us[..n], us[n], t);
      if us[n].timestamp <= t {
        ReceiveAppend(w, DataUpTo(us[..n], t), us[n].data);
      }
      MergedStep(w, MergeAtEqualTimestamp(us[..n]), us[n], t);
    }
  }

  lemma MergedStep(w: World, r: seq<TimedWorld>, u: TimedWorld, t: int)
    requires WellFormed(w) && AllTimedWellFormed(r) && WellFormed(u.data) && r != []
    ensures ReceiveInTurn(w, DataUpTo(AppendMerged(r, u), t), true)
         == if u.timestamp <= t then ReceiveUpdate(ReceiveInTurn(w, DataUpTo(r, t), true), u.data, true, false)
            else ReceiveInTurn(w, DataUpTo(r, t), true)
  {
    var last := r[|r| - 1];
    if last.timestamp == u.timestamp {
      var front := r[..|r| - 1];
      var merged := TimedWorld(u.timestamp, u.iteration, MergeTwo(last.data, u.data));
      assert r == front + [last];
      DataUpToAppend(front, last, t);
      DataUpToAppend(front, merged, t);
      if u.timestamp <= t {
        ReceiveAppend(w, DataUpTo(front, t), last.data);
        ReceiveAppend(w, DataUpTo(front, t), merged.data);
        ReceiveMergedTwo(ReceiveInTurn(w, DataUpTo(front, t), true), last.data, u.data);
      }
    } else {
      DataUpToAppend(r, u, t);
      if u.timestamp <= t {
        ReceiveAppend(w, DataUpTo(r, t), u.data);
      }
    }
  }

  function Datas(us: seq<TimedWorld>): (r: seq<World>)
    ensures |r| == |us|
    ensures AllTimedWellFormed(us) ==> AllWellFormed(r)
  {
    seq(|us|, i requires 0 <= i < |us| => us[i].data)
  }

  /** A group after the first i updates. */
  ghost function GroupBefore(w: World, us: seq<TimedWorld>, i: nat, key: Key): (g: EntityData)
    requires WellFormed(w) && AllTimedWellFormed(us) && i <= |us|
    ensures g.WellFormed()
  {
    GroupOf(ReceiveInTurn(w, Datas(us)[..i], true), key)
  }

  /** The reverses of the first n updates can be computed. */
  ghost predicate SliceableInTurn(w: World, us: seq<TimedWorld>, n: nat)
    requires WellFormed(w) && AllTimedWellFormed(us) && n <= |us|
  {
    forall i, key :: 0 <= i < n && key in us[i].data ==> Sliceable(GroupBefore(w, us, i, key), us[i].data[key])
  }

  /** As far as reverses can be computed, they are right. */
  ghost predicate AddableInTurn(w: World, us: seq<TimedWorld>)
    requires WellFormed(w) && AllTimedWellFormed(us)
  {
    forall i, key :: 0 <= i < |us| && SliceableInTurn(w, us, i) && key in us[i].data ==>
      Undoable(GroupBefore(w, us, i, key), us[i].data[key])
  }

  /** Receiving only depends on what the groups hold, not on which groups are listed. */
  lemma ReceiveSameGroups(a: World, b: World, upd: World)
    requires WellFormed(a) && WellFormed(b) && WellFormed(upd)
    requires forall key :: GroupOf(a, key) == GroupOf(b, key)
    ensures forall key ::
      GroupOf(ReceiveUpdate(a, upd, true, false), key) == GroupOf(ReceiveUpdate(b, upd, true, false), key)
  {
    forall key
      ensures GroupOf(ReceiveUpdate(a, upd, true, false), key) == GroupOf(ReceiveUpdate(b, upd, true, false), key)
    {
      ReceiveAt(a, upd, true, false, key);
      ReceiveAt(b, upd, true, false, key);
    }
  }

  // ----- which update a row is from

  /** Whether the update has a row for an attribute of an entity, at time t. */
  ghost predicate Defines(u: TimedWorld, t: int, key: Key, id: int, name: string)
    requires WellFormed(u.data)
  {
    u.timestamp <= t && key in u.data && u.data[key].View(id, name) != UNDEFINED_ROW
  }

  /** The last update in the list that defines the row. */
  ghost function LastDefining(us: seq<TimedWorld>, t: int, key: Key, id: int, name: string): Option<TimedWorld>
    requires AllTimedWellFormed(us)
  {
    if us == [] then None
    else
      var n := |us| - 1;
      if Defines(us[n], t, key, id, name) then Some(us[n]) else LastDefining(us[..n], t, key, id, name)
  }

  lemma {:induction false} ReplayedRow(w: World, us: seq<TimedWorld>, t: int, key: Key, id: int, name: string)
    requires WellFormed(w) && AllTimedWellFormed(us)
    ensures LastDefining(us, t, key, id, name).Some? ==>
      key in LastDefining(us, t, key, id, name).value.data
      && WellFormed(LastDefining(us, t, key, id, name).value.data)
    ensures GroupOf(ReceiveInTurn(w, DataUpTo(us, t), true), key).View(id, name)
         == match LastDefining(us, t, key, id, name)
            case Some(u) => u.data[key].View(id, name)
            case None => GroupOf(w, key).View(id, name)
  {
    hide EntityData.View, EntityData.WellFormed, ReceiveUpdate, Receive, GroupOf;
    if us != [] {
      var n := |us| - 1;
      ReplayedRow(w, us[..n], t, key, id, name);
      if us[n].timestamp <= t {
        var before := ReceiveInTurn(w, DataUpTo(us[..n], t), true);
        ReceiveAppend(w, DataUpTo(us[..n], t), us[n].data);
        ReceiveAt(before, us[n].data, true, false, key);
        ReceivedRow(before, us[n], t, key, id, name);
      }
    }
  }

  lemma ReceivedRow(w: World, u: TimedWorld, t: int, key: Key, id: int, name: string)
    requires WellFormed(w) && WellFormed(u.data) && u.timestamp <= t
    ensures GroupOf(ReceiveUpdate(w, u.data, true, false), key).View(id, name)
         == if Defines(u, t, key, id, name) then u.data[key].View(id, name) else GroupOf(w, key).View(id, name)
  {
    hide Receive;
    ReceiveAt(w, u.data, true, false, key);
    if key in u.data {
      ReceiveView(GroupOf(w, key), u.data[key], true, false, id, name);
      ReceivedAttributes(GroupOf(w, key), u.data[key]);
    }
  }

  lemma ReceivedAttributes(g: EntityData, u: EntityData)
    requires g.WellFormed() && u.WellFormed()
    ensures Receive(g, u, true, false).attrs.Keys == g.attrs.Keys + u.attrs.Keys
  {
  }

  /** The latest update that defines the row; of equally late ones, the last. */
  ghost function Latest(us: seq<TimedWorld>, t: int, key: Key, id: int, name: string): Option<TimedWorld>
    requires AllTimedWellFormed(us)
  {
    if us == [] then None
    else
      var n := |us| - 1;
      var latest := Latest(us[..n], t, key, id, name);
      if Defines(us[n], t, key, id, name) && (latest.None? || NotAfter(latest.value, us[n])) then Some(us[n])
      else latest
  }

  lemma LastOfAppended(us: seq<TimedWorld>, u: TimedWorld, t: int, key: Key, id: int, name: string)
    requires AllTimedWellFormed(us) && WellFormed(u.data)
    ensures AllTimedWellFormed(us + [u])
    ensures LastDefining(us + [u], t, key, id, name)
         == if Defines(u, t, key, id, name) then Some(u) else LastDefining(us, t, key, id, name)
  {
    hide Defines, WellFormed;
    assert (us + [u])[..|us|] == us;
  }

  lemma {:induction false} LastIsThere(us: seq<TimedWorld>, t: int, key: Key, id: int, name: string)
    requires AllTimedWellFormed(us)
    ensures LastDefining(us, t, key, id, name).Some? ==> LastDefining(us, t, key, id, name).value in us
  {
    hide Defines, WellFormed;
    if us != [] {
      LastIsThere(us[..|us| - 1], t, key, id, name);
    }
  }

  lemma {:induction false} LastInserted(us: seq<TimedWorld>, u: TimedWorld, t: int, key: Key, id: int, name: string)
    requires IsSorted(us) && AllTimedWellFormed(us) && WellFormed(u.data)
    ensures AllTimedWellFormed(InsertSorted(us, u))
    ensures var last := LastDefining(us, t, key, id, name);
      LastDefining(InsertSorted(us, u), t, key, id, name)
      == if Defines(u, t, key, id, name) && (last.None? || NotAfter(last.value, u)) then Some(u) else last
  {
    hide Defines, WellFormed, LastDefining;
    SameUpdatesWellFormed(us + [u], InsertSorted(us, u));
    LastIsThere(us, t, key, id, name);
    LastOfAppended([], u, t, key, id, name);
    if us == [] {
      LastOfNone(t, key, id, name);
      assert [] + [u] == [u];
    } else {
      var n := |us| - 1;
      assert us == us[..n] + [us[n]];
      LastOfAppended(us[..n], us[n], t, key, id, name);
      if NotAfter(us[n], u) {
        LastOfAppended(us, u, t, key, id, name);
      } else {
        LastInserted(us[..n], u, t, key, id, name);
        LastOfAppended(InsertSorted(us[..n], u), us[n], t, key, id, name);
      }
    }
  }

  lemma LastOfNone(t: int, key: Key, id: int, name: string)
    ensures LastDefining([], t, key, id, name) == None
  {
  }

  lemma {:induction false} LastOfSorted(us: seq<TimedWorld>, t: int, key: Key, id: int, name: string)
    requires AllTimedWellFormed(us)
    ensures LastDefining(SortUpdates(us), t, key, id, name) == Latest(us, t, key, id, name)
  {
    hide Defines, WellFormed;
    if us != [] {
      var n := |us| - 1;
      LastOfSorted(us[..n], t, key, id, name);
      LastInserted(SortUpdates(us[..n]), us[n], t, key, id, name);
    }
  }

  /** Update k defines the row, and every other update that does lies before it: at an earlier time, at the
      same time in an earlier iteration, or in the same iteration and earlier in the list. */
  ghost predicate IsLatest(us: seq<TimedWorld>, k: nat, t: int, key: Key, id: int, name: string)
    requires AllTimedWellFormed(us) && k < |us|
  {
    && Defines(us[k], t, key, id, name)
    && forall j :: 0 <= j < |us| && j != k && Defines(us[j], t, key, id, name) ==>
         || us[j].timestamp < us[k].timestamp
         || (us[j].timestamp == us[k].timestamp && us[j].iteration < us[k].iteration)
         || (us[j].timestamp == us[k].timestamp && us[j].iteration == us[k].iteration && j < k)
  }

  lemma {:induction false} LatestDefines(us: seq<TimedWorld>, t: int, key: Key, id: int, name: string)
    requires AllTimedWellFormed(us)
    ensures match Latest(us, t, key, id, name)
      case Some(u) => exists k :: 0 <= k < |us| && us[k] == u && IsLatest(us, k, t, key, id, name)
      case None => forall k :: 0 <= k < |us| ==> !Defines(us[k], t, key, id, name)
  {
    hide Defines, WellFormed;
    if us != [] {
      var n := |us| - 1;
      LatestDefines(us[..n], t, key, id, name);
      var latest := Latest(us[..n], t, key, id, name);
      if latest.Some? {
        var k :| 0 <= k < n && us[..n][k] == latest.value && IsLatest(us[..n], k, t, key, id, name);
        assert forall j :: 0 <= j < n ==> us[..n][j] == us[j];
        if !Defines(us[n], t, key, id, name) || !NotAfter(us[k], us[n]) {
          assert IsLatest(us, k, t, key, id, name);
        } else {
          assert IsLatest(us, n, t, key, id, name);
        }
      } else {
        assert forall j :: 0 <= j < n ==> us[..n][j] == us[j];
        if Defines(us[n], t, key, id, name) {
          assert IsLatest(us, n, t, key, id, name);
        }
      }
    }
  }

  lemma OneIsLatest(us: seq<TimedWorld>, j: nat, k: nat, t: int, key: Key, id: int, name: string)
    requires AllTimedWellFormed(us) && j < |us| && k < |us|
    requires IsLatest(us, j, t, key, id, name) && IsLatest(us, k, t, key, id, name)
    ensures j == k
  {
  }

  /** After replaying the updates in order, a row is the one of the latest update that defines it, or the one
      from the beginning if none does. */
  lemma SortedReplay(w: World, us: seq<TimedWorld>, t: int, key: Key, id: int, name: string)
    requires WellFormed(w) && AllTimedWellFormed(us)
    ensures var r := GroupOf(ReceiveInTurn(w, DataUpTo(SortUpdates(us), t), true), key);
      && (forall k :: 0 <= k < |us| && IsLatest(us, k, t, key, id, name) ==>
            r.View(id, name) == us[k].data[key].View(id, name))
      && ((forall k :: 0 <= k < |us| ==> !Defines(us[k], t, key, id, name)) ==>
            r.View(id, name) == GroupOf(w, key).View(id, name))
  {
    hide EntityData.View, EntityData.WellFormed, WellFormed, ReceiveInTurn, DataUpTo, SortUpdates, LastDefining, Latest,
         Defines, GroupOf;
    ReplayedRow(w, SortUpdates(us), t, key, id, name);
    LastOfSorted(us, t, key, id, name);
    LatestDefines(us, t, key, id, name);
    forall k | 0 <= k < |us| && IsLatest(us, k, t, key, id, name)
      ensures Latest(us, t, key, id, name) == Some(us[k])
    {
      LatestIsFound(us, k, t, key, id, name);
    }
  }

  lemma LatestIsFound(us: seq<TimedWorld>, k: nat, t: int, key: Key, id: int, name: string)
    requires AllTimedWellFormed(us) && k < |us| && IsLatest(us, k, t, key, id, name)
    ensures Latest(us, t, key, id, name) == Some(us[k])
  {
    hide Latest, Defines;
    LatestDefines(us, t, key, id, name);
    if Latest(us, t, key, id, name).Some? {
      var j :| 0 <= j < |us| && us[j] == Latest(us, t, key, id, name).value && IsLatest(us, j, t, key, id, name);
      OneIsLatest(us, j, k, t, key, id, name);
    }
  }
}
