/** A state that can be moved to any moment of a simulation: per entity group a stream of reversible
    updates, applied when the state moves forward and reverted when it moves back. */
module TimeProgression {
  import opened Cells
  import opened EntityTable
  import opened MergeUpdates
  import opened UpdateStreams
  import opened Timelines
  import opened UpdateOrder

  /** The node leads from one state of its group to the next, and back. */
  ghost predicate NodeOk(node: ReversibleUpdate, key: Key, before: Values, after: Values) {
    && node.key == key && node.update.WellFormed()
    && node.reverseUpdate.Some? && node.reverseUpdate.value.WellFormed()
    && Connects(before, node.update, node.reverseUpdate.value, after)
  }

  /** The nodes carry the updates of one group and lead through the course of its values. */
  ghost predicate Carries(nodes: seq<ReversibleUpdate>, key: Key, us: seq<TimedUpdate>, course: seq<Values>) {
    && |nodes| == |course| == |us| + 1 && ContentsOf(nodes) == us
    && forall i :: 0 < i < |nodes| ==> NodeOk(nodes[i], key, course[i - 1], course[i])
  }

  /** The group is where the cursor says it is. */
  ghost predicate StreamAgrees(nodes: seq<ReversibleUpdate>, cursor: nat, now: EntityData, start: EntityData, key: Key,
                               us: seq<TimedUpdate>)
    requires now.WellFormed() && start.WellFormed() && UpdatesWellFormed(us)
  {
    && Carries(nodes, key, us, Course(start, us))
    && cursor <= |us| && ValuesOf(now) == Course(start, us)[cursor]
  }

  class TimeProgressingState {
    /** The ids and attributes of all entity groups. */
    var world: World
    var streams: map<Key, UpdateStream>
    var lastTimestamp: Option<int>
    /** The values after the initial data. */
    ghost var init: World
    /** The updates in the timeline, one per timestamp. */
    ghost var added: seq<TimedWorld>
    /** The streams and all their nodes. */
    ghost var Repr: set<object>

    ghost function AllNodes(): set<ReversibleUpdate>
      reads this`streams, streams.Values
    {
      set k, n | k in streams && n in streams[k].nodes :: n
    }

    /** The representation holds all streams and their nodes. */
    ghost predicate Owned()
      reads this`streams, this`Repr, streams.Values
    {
      forall k :: k in streams ==> streams[k] in Repr && forall n :: n in streams[k].nodes ==> n in Repr
    }

    ghost predicate AllValid()
      reads this`streams, streams.Values, AllNodes()
    {
      forall k :: k in streams ==>
        assert forall n :: n in streams[k].nodes ==> n in AllNodes();
        streams[k].Valid()
    }

    /** No two streams share a node. */
    ghost predicate AllDisjoint()
      reads this`streams, streams.Values
    {
      forall k, l :: k in streams && l in streams && k != l ==> Disjoint(streams[k], streams[l])
    }

    ghost predicate Shape()
      reads this`streams, this`Repr, streams.Values, AllNodes()
    {
      Owned() && AllValid() && AllDisjoint()
    }

    ghost predicate ValuesOk()
      reads this
    {
      && WellFormed(world) && WellFormed(init) && AllTimedWellFormed(added) && IncreasingWorlds(added)
      && (forall i :: 0 <= i < |added| ==> added[i].timestamp > -1)
      && lastTimestamp == Some(if added == [] then -1 else added[|added| - 1].timestamp)
    }

    /** The group holds what replaying the first updates of its stream, up to the cursor, gives. */
    ghost predicate GroupOk(key: Key, us: seq<TimedUpdate>)
      requires WellFormed(world) && WellFormed(init) && UpdatesWellFormed(us)
      reads this`world, this`init, this`streams, streams.Values
    {
      if key in streams then
        StreamAgrees(streams[key].nodes, streams[key].cursor, GroupOf(world, key), GroupOf(init, key), key, us)
      else us == [] && GroupOf(world, key) == GroupOf(init, key)
    }

    ghost predicate Valid()
      reads this, streams.Values, AllNodes()
    {
      this !in Repr && Shape() && ValuesOk() && forall key :: GroupOk(key, Project(added, key))
    }

    /** The cursors of all streams are behind their last update. */
    ghost predicate AtEnd()
      reads this`streams, streams.Values
    {
      forall key :: key in streams ==> streams[key].cursor + 1 == |streams[key].nodes|
    }

    constructor ()
      ensures world == map[] && streams == map[] && lastTimestamp == None && Repr == {}
    {
      world, streams, lastTimestamp := map[], map[], None;
      init, added, Repr := map[], [], {};
    }

    method AddInitData(initData: World)
      requires WellFormed(initData) && WellFormed(world) && streams == map[] && this !in Repr
      modifies this
      ensures Valid() && AtEnd() && streams == map[] && added == [] && Repr == old(Repr)
      ensures lastTimestamp == Some(-1)
      ensures world == init == ReceiveUpdate(old(world), initData, true, false)
    {
      world := ReceiveUpdate(world, initData, true, false);
      lastTimestamp := Some(-1);
      init, added := world, [];
      forall key
        ensures GroupOk(key, Project(added, key))
      {
        assert Project([], key) == [];
      }
    }

    /** Receives one group of data. */
    method ReceiveGroup(key: Key, data: EntityData, processUndefined: bool)
      requires WellFormed(world) && data.WellFormed()
      modifies this`world
      ensures WellFormed(world)
      ensures GroupOf(world, key) == Receive(old(GroupOf(world, key)), data, true, processUndefined)
      ensures forall k :: k != key ==> GroupOf(world, k) == old(GroupOf(world, k))
    {
      ghost var before := world;
      world := ReceiveUpdate(world, map[key := data], true, processUndefined);
      forall k
        ensures GroupOf(world, k)
             == if k == key then Receive(GroupOf(before, k), data, true, processUndefined) else GroupOf(before, k)
      {
        ReceiveAt(before, map[key := data], true, processUndefined, k);
      }
    }

    /** The values of the group are where the cursor of its stream is. */
    ghost predicate InStep(stream: UpdateStream, key: Key, us: seq<TimedUpdate>, course: seq<Values>)
      reads this`world, stream, stream.nodes
    {
      && WellFormed(world) && stream.Valid() && Carries(stream.nodes, key, us, course)
      && ValuesOf(GroupOf(world, key)) == course[stream.cursor]
    }

    /** Where the cursor is in time. */
    lemma CursorInTime(stream: UpdateStream, key: Key, us: seq<TimedUpdate>, course: seq<Values>, t: int)
      requires InStep(stream, key, us, course) && Increasing(us)
      ensures stream.cursor <= |us| && CountUpTo(us, t) <= |us|
      ensures stream.cursor == 0 ==> stream.current.timestamp == -1
      ensures stream.cursor > 0 ==> stream.current.timestamp == us[stream.cursor - 1].timestamp
      ensures stream.cursor > 0 ==> (stream.current.timestamp <= t <==> stream.cursor <= CountUpTo(us, t))
      ensures stream.current.next == null <==> stream.cursor == |us|
      ensures stream.current.next != null ==> (stream.current.next.timestamp <= t <==> stream.cursor < CountUpTo(us, t))
    {
      hide WellFormed, EntityData.WellFormed, Connects, ValuesOf, GroupOf;
      TimestampAtCursor(stream.nodes, us, stream.cursor, t);
      NextTimestamp(stream, us, t);
    }

    /** Moves the cursor to the next update and applies it. */
    method ApplyNext(stream: UpdateStream, ghost key: Key, ghost us: seq<TimedUpdate>, ghost course: seq<Values>)
      returns (upd: Option<ReversibleUpdate>)
      requires InStep(stream, key, us, course)
      modifies this`world, stream`current, stream`cursor
      ensures InStep(stream, key, us, course)
      ensures forall k :: k != key ==> GroupOf(world, k) == old(GroupOf(world, k))
      ensures stream.cursor == if old(stream.cursor) < |us| then old(stream.cursor) + 1 else |us|
      ensures upd == if old(stream.cursor) < |us| then Some(stream.current) else None
    {
      hide WellFormed, EntityData.WellFormed, Connects, ValuesOf, GroupOf;
      upd := stream.Next();
      if upd.Some? {
        ghost var n := stream.cursor;
        assert NodeOk(stream.nodes[n], key, course[n - 1], course[n]);
        Apply(upd.value, key, course[n - 1], course[n]);
      }
    }

    method Apply(upd: ReversibleUpdate, ghost key: Key, ghost before: Values, ghost after: Values)
      requires WellFormed(world) && NodeOk(upd, key, before, after) && ValuesOf(GroupOf(world, key)) == before
      modifies this`world
      ensures WellFormed(world) && ValuesOf(GroupOf(world, key)) == after
      ensures GroupOf(world, key) == Receive(old(GroupOf(world, key)), upd.update, true, false)
      ensures forall k :: k != key ==> GroupOf(world, k) == old(GroupOf(world, k))
    {
      ReceiveGroup(upd.key, upd.update, false);
    }

    /** Reverts an update; the sentinel has nothing to revert and raises. */
    method Revert(upd: ReversibleUpdate, ghost key: Key, ghost before: Values, ghost after: Values)
      returns (r: Result<()>)
      requires WellFormed(world) && (upd.reverseUpdate.Some? ==> NodeOk(upd, key, before, after))
      requires ValuesOf(GroupOf(world, key)) == after
      modifies this`world
      ensures WellFormed(world) && (r.Ok? <==> upd.reverseUpdate.Some?)
      ensures r.Ok? ==> ValuesOf(GroupOf(world, key)) == before
      ensures r.Err? ==> world == old(world)
      ensures forall k :: k != key ==> GroupOf(world, k) == old(GroupOf(world, k))
    {
      if upd.reverseUpdate.None? {
        return Err("No reverse update defined");
      }
      ReceiveGroup(upd.key, upd.reverseUpdate.value, true);
      return Ok(());
    }

    /** Reverts the update at the cursor and moves the cursor back. */
    method RevertCurrent(stream: UpdateStream, ghost key: Key, ghost us: seq<TimedUpdate>, ghost course: seq<Values>)
      returns (r: Result<()>)
      requires InStep(stream, key, us, course)
      modifies this`world, stream`current, stream`cursor
      ensures InStep(stream, key, us, course)
      ensures forall k :: k != key ==> GroupOf(world, k) == old(GroupOf(world, k))
      ensures r.Ok? <==> old(stream.cursor) > 0
      ensures stream.cursor == if old(stream.cursor) > 0 then old(stream.cursor) - 1 else 0
    {
      hide WellFormed, EntityData.WellFormed, Connects, ValuesOf, GroupOf;
      ghost var n := stream.cursor;
      if n > 0 {
        assert NodeOk(stream.nodes[n], key, course[n - 1], course[n]);
      }
      r := Revert(stream.current, key, course[if n > 0 then n - 1 else n], course[n]);
      if r.Ok? {
        var previous := stream.Prev();
      }
    }

    /** Applies at least one update, and then all updates with a timestamp up to t. */
    method MoveStreamForward(stream: UpdateStream, t: int, ghost key: Key, ghost us: seq<TimedUpdate>,
                             ghost course: seq<Values>)
      requires InStep(stream, key, us, course) && Increasing(us) && stream.current.timestamp < t
      modifies this`world, stream`current, stream`cursor
      ensures InStep(stream, key, us, course)
      ensures forall k :: k != key ==> GroupOf(world, k) == old(GroupOf(world, k))
      ensures var c := CountUpTo(us, t);
        stream.cursor == if c > old(stream.cursor) then c else if c < |us| then c + 1 else c
    {
      hide InStep, GroupOf;
      ghost var c, start := CountUpTo(us, t), stream.cursor;
      CursorInTime(stream, key, us, course, t);
      while true
        invariant InStep(stream, key, us, course)
        invariant start <= stream.cursor <= c && (stream.cursor < c || stream.cursor == start)
        invariant forall k :: k != key ==> GroupOf(world, k) == old(GroupOf(world, k))
        decreases |us| - stream.cursor
      {
        var upd := ApplyNext(stream, key, us, course);
        if upd.None? {
          break;
        }
        CursorInTime(stream, key, us, course, t);
        if upd.value.next == null || upd.value.next.timestamp > t {
          break;
        }
      }
    }

    /** Reverts updates until the cursor is at an update with a timestamp up to t. */
    method MoveStreamBackward(stream: UpdateStream, t: int, ghost key: Key, ghost us: seq<TimedUpdate>,
                              ghost course: seq<Values>)
      returns (r: Result<()>)
      requires InStep(stream, key, us, course) && Increasing(us) && stream.current.timestamp > t
      requires forall i :: 0 <= i < |us| ==> us[i].timestamp > -1
      modifies this`world, stream`current, stream`cursor
      ensures InStep(stream, key, us, course)
      ensures forall k :: k != key ==> GroupOf(world, k) == old(GroupOf(world, k))
      ensures r.Ok? <==> t >= -1
      ensures r.Ok? ==> stream.cursor == CountUpTo(us, t)
    {
      hide InStep, GroupOf;
      r := Ok(());
      CursorInTime(stream, key, us, course, t);
      while stream.current.timestamp > t
        invariant r.Ok? && InStep(stream, key, us, course)
        invariant t >= -1 ==> stream.cursor >= CountUpTo(us, t)
        invariant forall k :: k != key ==> GroupOf(world, k) == old(GroupOf(world, k))
        decreases stream.cursor
      {
        CursorInTime(stream, key, us, course, t);
        r := RevertCurrent(stream, key, us, course);
        if r.Err? {
          return;
        }
      }
      CursorInTime(stream, key, us, course, t);
    }

    /** Moves one stream to time t. The forward pass may go one update too far; it is then reverted. */
    method MoveUpdatesTo(stream: UpdateStream, t: int, ghost key: Key, ghost us: seq<TimedUpdate>,
                         ghost course: seq<Values>)
      returns (r: Result<()>)
      requires InStep(stream, key, us, course) && Increasing(us) && forall i :: 0 <= i < |us| ==> us[i].timestamp > -1
      modifies this`world, stream`current, stream`cursor
      ensures InStep(stream, key, us, course)
      ensures forall k :: k != key ==> GroupOf(world, k) == old(GroupOf(world, k))
      ensures r.Ok? <==> t >= -1
      ensures r.Ok? ==> stream.cursor == CountUpTo(us, t)
    {
      hide InStep, GroupOf;
      r := Ok(());
      CursorInTime(stream, key, us, course, t);
      if t > stream.current.timestamp {
        MoveStreamForward(stream, t, key, us, course);
      }
      CursorInTime(stream, key, us, course, t);
      if t < stream.current.timestamp {
        r := MoveStreamBackward(stream, t, key, us, course);
      }
    }

    /** Moves the stream of one group; the other streams stay as they are. */
    method MoveStreamOf(stream: UpdateStream, key: Key, t: int, ghost us: seq<TimedUpdate>, ghost course: seq<Values>)
      returns (r: Result<()>)
      requires Shape() && key in streams && streams[key] == stream && InStep(stream, key, us, course)
      requires Increasing(us) && forall i :: 0 <= i < |us| ==> us[i].timestamp > -1
      modifies this`world, stream`current, stream`cursor
      ensures Shape() && InStep(stream, key, us, course)
      ensures forall k :: k != key ==> GroupOf(world, k) == old(GroupOf(world, k))
      ensures r.Ok? <==> t >= -1
      ensures r.Ok? ==> stream.cursor == CountUpTo(us, t)
    {
      hide WellFormed, EntityData.WellFormed, ValuesOf, GroupOf, Carries, UpdateStream.Valid;
      r := MoveUpdatesTo(stream, t, key, us, course);
      forall k | k in streams && k != key
        ensures streams[k].Valid()
      {
        assert old(streams[k].Valid()) && old(Disjoint(streams[k], streams[key]));
      }
      forall k, l | k in streams && l in streams && k != l
        ensures Disjoint(streams[k], streams[l])
      {
        assert old(Disjoint(streams[k], streams[l]));
      }
    }

    /** A group in step with its stream holds what replaying gives. */
    lemma GroupInStep(key: Key, us: seq<TimedUpdate>)
      requires WellFormed(world) && WellFormed(init) && UpdatesWellFormed(us) && key in streams
      ensures GroupOk(key, us) && streams[key].Valid() ==> InStep(streams[key], key, us, Course(GroupOf(init, key), us))
      ensures InStep(streams[key], key, us, Course(GroupOf(init, key), us)) ==> GroupOk(key, us)
    {
      hide WellFormed, EntityData.WellFormed, ValuesOf, GroupOf, Course, NodeOk, ContentsOf;
    }

    /** Moves one group to time t. */
    method MoveGroupTo(key: Key, t: int) returns (r: Result<()>)
      requires Valid() && key in streams
      modifies this`world, streams.Values
      ensures Valid()
      ensures r.Ok? <==> t >= -1
      ensures r.Ok? ==> streams[key].cursor == CountUpTo(Project(added, key), t)
      ensures forall k :: k in streams && k != key ==> streams[k].cursor == old(streams[k].cursor)
    {
      hide WellFormed, EntityData.WellFormed, ValuesOf, GroupOf, Course, Project, Carries, Shape, StreamAgrees,
           CountUpTo, Increasing, UpdatesWellFormed;
      ghost var us := Project(added, key);
      ProjectIncreasing(added, key);
      ProjectLater(added, key);
      assert GroupOk(key, us);
      StreamIsValid(key);
      GroupInStep(key, us);
      r := MoveStreamOf(streams[key], key, t, us, Course(GroupOf(init, key), us));
      GroupInStep(key, us);
      forall k | k != key
        ensures GroupOk(k, Project(added, k))
        ensures k in streams ==> streams[k].cursor == old(streams[k].cursor)
      {
        assert old(GroupOk(k, Project(added, k)));
        if k in streams {
          OtherStream(key, k);
        }
      }
    }

    lemma StreamIsValid(key: Key)
      requires Shape() && key in streams
      ensures streams[key].Valid()
    {
    }

    lemma OtherStream(key: Key, other: Key)
      requires Shape() && key in streams && other in streams && key != other
      ensures streams[key] != streams[other]
    {
    }

    /** All cursors are where time t is. */
    ghost predicate AtTime(t: int)
      requires ValuesOk()
      reads this, streams.Values
    {
      forall key :: key in streams ==> streams[key].cursor == CountUpTo(Project(added, key), t)
    }

    /** Moves all streams to time t. A time before -1 makes every stream revert its sentinel, which
        raises. */
    method MoveTo(t: int) returns (r: Result<()>)
      requires Valid()
      modifies this`world, streams.Values
      ensures Valid()
      ensures r.Ok? <==> t >= -1 || streams == map[]
      ensures r.Ok? ==> AtTime(t)
      ensures r.Ok? ==>
        forall key :: SameView(GroupOf(world, key), GroupOf(ReceiveInTurn(init, DataUpTo(added, t), true), key))
    {
      hide WellFormed, EntityData.WellFormed, GroupOf, Project, NodeOk, Shape, GroupOk, UpdateStream.Valid,
           ReceiveInTurn, DataUpTo, Carries, Course;
      var todo := streams.Keys;
      while todo != {}
        invariant Valid() && todo <= streams.Keys
        invariant t >= -1 || todo == streams.Keys
        invariant forall key :: key in streams && key !in todo ==>
          streams[key].cursor == CountUpTo(Project(added, key), t)
        decreases |todo|
      {
        var key :| key in todo;
        r := MoveGroupTo(key, t);
        if r.Err? {
          return;
        }
        todo := todo - {key};
      }
      r := Ok(());
      ValuesAtTime(t);
    }

    /** What the values of all groups are when the cursors are at time t. */
    lemma ValuesAtTime(t: int)
      requires Valid() && AtTime(t)
      ensures forall key :: SameView(GroupOf(world, key), GroupOf(ReceiveInTurn(init, DataUpTo(added, t), true), key))
    {
      forall key
        ensures SameView(GroupOf(world, key), GroupOf(ReceiveInTurn(init, DataUpTo(added, t), true), key))
      {
        hide WellFormed, EntityData.WellFormed, Connects, ValuesOf, GroupOf, Project, NodeOk, ReceiveInTurn, DataUpTo,
             Shape;
        var us := Project(added, key);
        assert GroupOk(key, us);
        ReplayByGroup(init, added, t, key);
      }
    }

    /** The stream of a group; a new one when there is none yet. */
    method EnsureStream(key: Key) returns (stream: UpdateStream)
      requires Shape() && this !in Repr
      modifies this`streams, this`Repr
      ensures Shape() && key in streams && streams[key] == stream && stream.Valid()
      ensures streams.Keys == old(streams.Keys) + {key}
      ensures forall k :: k in old(streams) ==> streams[k] == old(streams[k])
      ensures key !in old(streams) ==> fresh(stream) && |stream.nodes| == 1 && stream.cursor == 0
      ensures fresh(Repr - old(Repr)) && this !in Repr && stream in Repr && forall n :: n in stream.nodes ==> n in Repr
      ensures forall k :: k in streams && k != key ==> streams[k] != stream
    {
      hide UpdateStream.Valid;
      assert key in streams ==> streams[key].Valid();
      if key in streams {
        return streams[key];
      }
      stream := new UpdateStream();
      streams := streams[key := stream];
      Repr := Repr + {stream} + set n | n in stream.nodes;
    }

    /** Appends a node behind the last one and applies it. */
    method AddNode(stream: UpdateStream, node: ReversibleUpdate, ghost key: Key, ghost us: seq<TimedUpdate>,
                   ghost course: seq<Values>, ghost after: Values)
      requires InStep(stream, key, us, course) && stream.cursor == |us| && node !in stream.nodes
      requires NodeOk(node, key, course[|us|], after)
      modifies this`world, stream, (set n | n in stream.nodes), node
      ensures InStep(stream, key, us + [node.Content()], course + [after])
      ensures stream.cursor == |us| + 1 && stream.nodes == old(stream.nodes) + [node]
      ensures GroupOf(world, key) == Receive(old(GroupOf(world, key)), node.update, true, false)
      ensures forall k :: k != key ==> GroupOf(world, k) == old(GroupOf(world, k))
    {
      hide WellFormed, EntityData.WellFormed, ValuesOf, GroupOf, NodeOk, UpdateStream.Valid;
      ghost var nodes := stream.nodes;
      assert |nodes| == |us| + 1;
      stream.InsertAfter(node);
      assert stream.nodes == nodes + [node];
      CarriesAppend(nodes, key, us, course, node, after);
      Apply(node, key, course[|us|], after);
    }

    /** A new stream is in step with a group that has not changed since the initial data. */
    lemma NewStreamInStep(stream: UpdateStream, key: Key)
      requires WellFormed(world) && WellFormed(init) && GroupOf(world, key) == GroupOf(init, key)
      requires stream.Valid() && |stream.nodes| == 1 && stream.cursor == 0
      ensures InStep(stream, key, [], Course(GroupOf(init, key), []))
    {
      assert ContentsOf(stream.nodes) == [];
    }

    /** Creates a node and appends it to a stream of the state. */
    method CreateNode(stream: UpdateStream, key: Key, timestamp: int, iteration: int, data: EntityData,
                      reverse: EntityData,
                      ghost us: seq<TimedUpdate>, ghost course: seq<Values>, ghost after: Values)
      returns (node: ReversibleUpdate)
      requires Shape() && key in streams && streams[key] == stream
      requires InStep(stream, key, us, course) && stream.cursor == |us|
      requires data.WellFormed() && reverse.WellFormed() && Connects(course[|us|], data, reverse, after)
      modifies this`world, stream, set n | n in stream.nodes
      ensures fresh(node) && stream.nodes == old(stream.nodes) + [node] && stream.cursor == |us| + 1
      ensures InStep(stream, key, us + [TimedUpdate(timestamp, iteration, data)], course + [after])
      ensures GroupOf(world, key) == Receive(old(GroupOf(world, key)), data, true, false)
      ensures forall k :: k != key ==> GroupOf(world, k) == old(GroupOf(world, k))
      ensures (forall k :: k != key && k in streams ==> streams[k].Valid()) && AllDisjoint()
    {
      hide WellFormed, EntityData.WellFormed, Connects, ValuesOf, GroupOf, UpdateStream.Valid, Carries, Receive;
      node := new ReversibleUpdate(timestamp, iteration, key, data, Some(reverse));
      AddNode(stream, node, key, us, course, after);
      forall k | k in streams && k != key
        ensures streams[k].Valid()
      {
        assert old(streams[k].Valid() && Disjoint(streams[k], stream));
        assert forall n :: n in streams[k].nodes ==> n !in old(stream.nodes) && n != node;
      }
      forall k, l | k in streams && l in streams && k != l
        ensures Disjoint(streams[k], streams[l])
      {
        assert old(Disjoint(streams[k], streams[l]));
      }
    }

    method Own(node: ReversibleUpdate)
      modifies this`Repr
      ensures Repr == old(Repr) + {node}
    {
      Repr := Repr + {node};
    }

    lemma InStepLength(stream: UpdateStream, key: Key, us: seq<TimedUpdate>, course: seq<Values>)
      requires InStep(stream, key, us, course)
      ensures stream.Valid() && |stream.nodes| == |us| + 1 == |course|
    {
      hide UpdateStream.Valid;
    }

    method AppendToStream(stream: UpdateStream, key: Key, timestamp: int, iteration: int, data: EntityData,
                          reverse: EntityData,
                          ghost us: seq<TimedUpdate>, ghost course: seq<Values>, ghost after: Values)
      requires Shape() && this !in Repr && key in streams && streams[key] == stream
      requires InStep(stream, key, us, course) && stream.cursor == |us|
      requires data.WellFormed() && reverse.WellFormed() && Connects(course[|us|], data, reverse, after)
      modifies this`world, this`Repr, stream, set n | n in stream.nodes
      ensures Shape() && this !in Repr && fresh(Repr - old(Repr))
      ensures InStep(stream, key, us + [TimedUpdate(timestamp, iteration, data)], course + [after])
      ensures stream.cursor == |us| + 1 == |stream.nodes| - 1
      ensures GroupOf(world, key) == Receive(old(GroupOf(world, key)), data, true, false)
      ensures forall k :: k != key ==> GroupOf(world, k) == old(GroupOf(world, k))
    {
      hide WellFormed, EntityData.WellFormed, Connects, ValuesOf, GroupOf, UpdateStream.Valid, Carries, Receive, InStep,
           NodeOk, AllDisjoint;
      InStepLength(stream, key, us, course);
      var node := CreateNode(stream, key, timestamp, iteration, data, reverse, us, course, after);
      InStepLength(stream, key, us + [TimedUpdate(timestamp, iteration, data)], course + [after]);
      Own(node);
    }

    /** Computes the reverse of the data and appends both to the stream of the group. It raises when the
        reverse cannot be computed; the group has a stream by then. */
    method AppendToGroup(key: Key, timestamp: int, iteration: int, data: EntityData, ghost us: seq<TimedUpdate>)
      returns (r: Result<()>)
      requires Shape() && this !in Repr && WellFormed(world) && WellFormed(init)
      requires UpdatesWellFormed(us) && GroupOk(key, us) && (key in streams ==> streams[key].cursor == |us|)
      requires data.WellFormed() && Undoable(GroupOf(world, key), data)
      modifies this`world, this`streams, this`Repr, Repr
      ensures Shape() && this !in Repr && fresh(Repr - old(Repr)) && WellFormed(world)
      ensures r.Ok? <==> Sliceable(old(GroupOf(world, key)), data)
      ensures r.Err? ==> world == old(world)
      ensures UpdatesWellFormed(us + [TimedUpdate(timestamp, iteration, data)])
      ensures streams.Keys == old(streams.Keys) + {key}
      ensures r.Ok? ==> GroupOk(key, us + [TimedUpdate(timestamp, iteration, data)])
      ensures r.Ok? ==> streams[key].cursor == |us| + 1 == |streams[key].nodes| - 1
      ensures forall k :: k != key && k in old(streams) ==> k in streams && streams[k] == old(streams[k])
      ensures forall k :: k != key && k in old(streams) ==>
        streams[k].cursor == old(streams[k].cursor) && streams[k].nodes == old(streams[k].nodes)
      ensures forall k :: k != key ==> GroupOf(world, k) == old(GroupOf(world, k))
      ensures r.Ok? ==> GroupOf(world, key) == Receive(old(GroupOf(world, key)), data, true, false)
    {
      hide WellFormed, EntityData.WellFormed, Connects, ValuesOf, GroupOf, Course, NodeOk, Receive, NoMistakes, Carries;
      hide UpdateStream.Valid, ReverseOf, Sliceable, Shape;
      ghost var g := GroupOf(init, key);
      ghost var course, u := Course(g, us), TimedUpdate(timestamp, iteration, data);
      AppendedWellFormed(us, u);
      var current := GroupOf(world, key);
      var stream := EnsureStream(key);
      if !Sliceable(current, data) {
        return Err("cannot be sliced");
      }
      ReverseConnects(current, data);
      if key !in old(streams) {
        NewStreamInStep(stream, key);
      }
      ghost var after := ValuesOf(Receive(current, data, true, false));
      AppendToStream(stream, key, timestamp, iteration, data, ReverseOf(current, data), us, course, after);
      CourseAppend(g, us, u, current);
      return Ok(());
    }

    /** Adds one group of an update to the timeline. */
    method AddToGroup(key: Key, timestamp: int, iteration: int, data: EntityData, ghost us: seq<TimedUpdate>)
      returns (r: Result<()>)
      requires Shape() && this !in Repr && WellFormed(world) && WellFormed(init)
      requires UpdatesWellFormed(us) && GroupOk(key, us) && (key in streams ==> streams[key].cursor == |us|)
      requires data.WellFormed() && Undoable(GroupOf(world, key), data)
      modifies this`world, this`streams, this`Repr, Repr
      ensures Shape() && this !in Repr && fresh(Repr - old(Repr)) && WellFormed(world)
      ensures r.Ok? <==> Sliceable(old(GroupOf(world, key)), data)
      ensures UpdatesWellFormed(us + [TimedUpdate(timestamp, iteration, data)])
      ensures r.Ok? ==> key in streams && GroupOk(key, us + [TimedUpdate(timestamp, iteration, data)])
      ensures r.Ok? && old(AtEnd()) ==> AtEnd()
      ensures forall k, vs :: k != key && UpdatesWellFormed(vs) && old(GroupOk(k, vs)) ==> GroupOk(k, vs)
      ensures forall k :: k != key ==> GroupOf(world, k) == old(GroupOf(world, k))
      ensures r.Ok? ==> GroupOf(world, key) == Receive(old(GroupOf(world, key)), data, true, false)
    {
      hide WellFormed, EntityData.WellFormed, Connects, ValuesOf, GroupOf, Course, NodeOk, Receive, Undoable, Sliceable,
           Carries, UpdatesWellFormed, Shape;
      r := AppendToGroup(key, timestamp, iteration, data, us);
      forall k, vs | k != key && UpdatesWellFormed(vs) && old(GroupOk(k, vs))
        ensures GroupOk(k, vs)
      {
      }
    }

    /** The updates that a group has taken while an update is added; groups in todo still wait. */
    ghost function Taken(update: TimedWorld, todo: set<Key>, k: Key): (us: seq<TimedUpdate>)
      requires WellFormed(update.data) && AllTimedWellFormed(added)
      reads this`added
      ensures UpdatesWellFormed(us)
    {
      Project(if k in todo then added else added + [update], k)
    }

    ghost predicate Adding(update: TimedWorld, todo: set<Key>, before: World)
      requires WellFormed(before) && WellFormed(update.data) && AllTimedWellFormed(added)
      reads this`world, this`init, this`streams, this`Repr, this`added, streams.Values, AllNodes()
    {
      && this !in Repr && Shape() && WellFormed(world) && WellFormed(init) && AtEnd()
      && (forall k :: GroupOk(k, Taken(update, todo, k)))
      && (forall k :: GroupOf(world, k) == Partly(before, update.data, todo, k))
    }

    /** Adds the part of one more group. */
    method AddPart(update: TimedWorld, key: Key, ghost todo: set<Key>, ghost before: World) returns (r: Result<()>)
      requires WellFormed(before) && WellFormed(update.data) && AllTimedWellFormed(added)
      requires this !in Repr && Adding(update, todo, before) && key in todo && todo <= update.data.Keys
      requires Undoable(GroupOf(before, key), update.data[key])
      modifies this`world, this`streams, this`Repr, Repr
      ensures this !in Repr && fresh(Repr - old(Repr))
      ensures r.Ok? <==> Sliceable(GroupOf(before, key), update.data[key])
      ensures r.Ok? ==> Adding(update, todo - {key}, before)
    {
      hide WellFormed, EntityData.WellFormed, Connects, ValuesOf, GroupOf, Course, NodeOk, Receive, Undoable, Sliceable,
           Project, UpdateStream.Valid;
      hide Shape, Carries, GroupOk, AtEnd;
      ghost var us, rest := Project(added, key), todo - {key};
      PartReady(update, key, todo, before);
      r := AddToGroup(key, update.timestamp, update.iteration, update.data[key], us);
      forall k | k != key
        ensures GroupOk(k, Taken(update, rest, k))
      {
        assert old(GroupOk(k, Taken(update, todo, k)));
      }
    }

    lemma PartReady(update: TimedWorld, key: Key, todo: set<Key>, before: World)
      requires WellFormed(before) && WellFormed(update.data) && AllTimedWellFormed(added)
      requires Adding(update, todo, before) && key in todo && todo <= update.data.Keys
      ensures update.data[key].WellFormed() && UpdatesWellFormed(Project(added, key))
      ensures GroupOk(key, Project(added, key)) && (key in streams ==> streams[key].cursor == |Project(added, key)|)
      ensures GroupOf(world, key) == GroupOf(before, key)
      ensures Taken(update, todo - {key}, key)
           == Project(added, key) + [TimedUpdate(update.timestamp, update.iteration, update.data[key])]
    {
      assert GroupOk(key, Taken(update, todo, key));
      ProjectAppend(added, update, key);
    }

    /** Adds the parts of all groups, until one of them raises. */
    method AddParts(update: TimedWorld, ghost before: World) returns (r: Result<()>)
      requires WellFormed(before) && WellFormed(update.data) && AllTimedWellFormed(added)
      requires this !in Repr && Adding(update, update.data.Keys, before)
      requires forall key :: key in update.data ==> Undoable(GroupOf(before, key), update.data[key])
      modifies this`world, this`streams, this`Repr, Repr
      ensures this !in Repr && fresh(Repr - old(Repr))
      ensures r.Ok? <==> forall key :: key in update.data ==> Sliceable(GroupOf(before, key), update.data[key])
      ensures r.Ok? ==> Adding(update, {}, before)
    {
      var todo := update.data.Keys;
      hide Adding, Undoable, Sliceable;
      while todo != {}
        invariant this !in Repr && added == old(added) && todo <= update.data.Keys && Adding(update, todo, before)
        invariant fresh(Repr - old(Repr))
        invariant forall key :: key in update.data && key !in todo ==> Sliceable(GroupOf(before, key), update.data[key])
        decreases |todo|
      {
        var key :| key in todo;
        r := AddPart(update, key, todo, before);
        if r.Err? {
          return;
        }
        todo := todo - {key};
      }
      return Ok(());
    }

    /** Adds one update to the end of the timeline. Its timestamp must be later than all before it, and the
        reverses of its parts must be there; when one is not, some of the other parts have been added. */
    method AddUpdateToTimeline(update: TimedWorld) returns (r: Result<()>)
      requires Valid() && AtEnd() && WellFormed(update.data)
      requires forall key :: key in update.data ==> Undoable(GroupOf(world, key), update.data[key])
      modifies this, Repr
      ensures fresh(Repr - old(Repr)) && init == old(init)
      ensures r.Ok? <==>
        && update.timestamp > old(lastTimestamp).value
        && forall key :: key in update.data ==> Sliceable(old(GroupOf(world, key)), update.data[key])
      ensures r.Ok? || update.timestamp <= old(lastTimestamp).value ==> Valid() && AtEnd()
      ensures added == if r.Ok? then old(added) + [update] else old(added)
      ensures r.Ok? ==>
        forall key :: GroupOf(world, key) == GroupOf(ReceiveUpdate(old(world), update.data, true, false), key)
      ensures update.timestamp <= old(lastTimestamp).value ==> world == old(world)
      ensures lastTimestamp
           == if update.timestamp > old(lastTimestamp).value then Some(update.timestamp) else old(lastTimestamp)
    {
      hide WellFormed, EntityData.WellFormed, Undoable, Sliceable, Project, GroupOf, GroupOk, AtEnd, Adding,
           ReceiveUpdate, Owned, AllDisjoint, UpdateStream.Valid;
      if update.timestamp <= lastTimestamp.value {
        return Err("timestamp not larger");
      }
      ghost var before := world;
      BeforeAdding(update);
      SetTimestamp(update.timestamp);
      assert AllNodes() == old(AllNodes());
      r := AddParts(update, before);
      if r.Err? {
        return;
      }
      AddedLater(added, update);
      AfterAdding(update, before);
      Record(update);
    }

    method SetTimestamp(timestamp: int)
      modifies this`lastTimestamp
      ensures lastTimestamp == Some(timestamp)
    {
      lastTimestamp := Some(timestamp);
    }

    ghost method Record(update: TimedWorld)
      modifies this`added
      ensures added == old(added) + [update]
    {
      added := added + [update];
    }

    lemma AfterAdding(update: TimedWorld, before: World)
      requires WellFormed(before) && WellFormed(update.data) && AllTimedWellFormed(added)
      requires Adding(update, {}, before)
      ensures this !in Repr && Shape() && AtEnd() && WellFormed(world) && WellFormed(init)
      ensures AllTimedWellFormed(added + [update]) && forall k :: GroupOk(k, Project(added + [update], k))
      ensures forall key :: GroupOf(world, key) == GroupOf(ReceiveUpdate(before, update.data, true, false), key)
    {
      hide GroupOk, Receive, EntityData.WellFormed, Project;
      forall k
        ensures GroupOk(k, Project(added + [update], k))
      {
        assert GroupOk(k, Taken(update, {}, k));
      }
      forall key
        ensures GroupOf(world, key) == GroupOf(ReceiveUpdate(before, update.data, true, false), key)
      {
        ReceiveAt(before, update.data, true, false, key);
      }
    }

    lemma StartsInTime()
      requires Valid()
      ensures lastTimestamp.Some? && this !in Repr && WellFormed(world) && WellFormed(init)
    {
    }

    lemma BeforeAdding(update: TimedWorld)
      requires Valid() && AtEnd() && WellFormed(update.data)
      ensures Adding(update, update.data.Keys, world)
    {
      hide WellFormed, EntityData.WellFormed, Connects, ValuesOf, Course, NodeOk, Receive, Project, UpdateStream.Valid,
           Carries, GroupOf;
      forall k
        ensures GroupOk(k, Taken(update, update.data.Keys, k))
      {
        ProjectAppend(added, update, k);
        assert GroupOk(k, Project(added, k));
      }
    }

    /** Adds updates in order of time, those with one timestamp merged. Only the first can be too early,
        because the others follow it; any of them can raise because its reverse cannot be computed. */
    method AddUpdatesToTimeline(updates: seq<TimedWorld>) returns (r: Result<()>)
      requires Valid() && AtEnd() && AllTimedWellFormed(updates)
      requires AddableInTurn(world, MergeAtEqualTimestamp(SortUpdates(updates)))
      modifies this, Repr
      ensures init == old(init)
      ensures r.Ok? <==>
        && (updates == [] || SortUpdates(updates)[0].timestamp > old(lastTimestamp).value)
        && SliceableInTurn(old(world), MergeAtEqualTimestamp(SortUpdates(updates)),
                           |MergeAtEqualTimestamp(SortUpdates(updates))|)
      ensures r.Ok? || SortUpdates(updates)[0].timestamp <= old(lastTimestamp).value ==> Valid() && AtEnd()
      ensures r.Ok? ==> added == old(added) + MergeAtEqualTimestamp(SortUpdates(updates))
    {
      hide Valid, AtEnd, Undoable, Sliceable, GroupOf, EntityData.WellFormed, SortUpdates, MergeAtEqualTimestamp,
           Receive, WellFormed, ReceiveInTurn, ReceiveUpdate;
      StartsInTime();
      NothingReplayed(world);
      var merged := MergeAtEqualTimestamp(SortUpdates(updates));
      SortedLength(updates);
      MergedTimestampsIncrease(SortUpdates(updates));
      ghost var before := world;
      r := Ok(());
      for i := 0 to |merged|
        invariant r.Ok? && this !in Repr && WellFormed(world) && Valid() && AtEnd() && init == old(init)
        invariant fresh(Repr - old(Repr))
        invariant added == old(added) + merged[..i]
        invariant lastTimestamp == if i == 0 then old(lastTimestamp) else Some(merged[i - 1].timestamp)
        invariant i > 0 ==> merged[0].timestamp > old(lastTimestamp).value
        invariant SliceableInTurn(before, merged, i)
        invariant forall key :: GroupOf(world, key) == GroupOf(ReceiveInTurn(before, Datas(merged)[..i], true), key)
      {
        ghost var current, replayed := world, ReceiveInTurn(before, Datas(merged)[..i], true);
        assert i > 0 ==> merged[i - 1].timestamp < merged[i].timestamp;
        r := AddUpdateToTimeline(merged[i]);
        if r.Err? {
          return;
        }
        StartsInTime();
        ReceiveSameGroups(current, replayed, merged[i].data);
        assert Datas(merged)[..i + 1] == Datas(merged)[..i] + [merged[i].data];
        ReceiveAppend(before, Datas(merged)[..i], merged[i].data);
      }
    }
  }

  lemma NothingReplayed(w: World)
    requires WellFormed(w)
    ensures forall us: seq<TimedWorld> :: AllTimedWellFormed(us) ==> ReceiveInTurn(w, Datas(us)[..0], true) == w
  {
  }

  /** The group when all parts of an update but those in todo have been received. */
  ghost function Partly(before: World, data: World, todo: set<Key>, k: Key): EntityData
    requires WellFormed(before) && WellFormed(data)
  {
    if k in data && k !in todo then Receive(GroupOf(before, k), data[k], true, false) else GroupOf(before, k)
  }

  lemma AddedLater(us: seq<TimedWorld>, u: TimedWorld)
    requires AllTimedWellFormed(us) && WellFormed(u.data) && IncreasingWorlds(us)
    requires us != [] ==> us[|us| - 1].timestamp < u.timestamp
    ensures AllTimedWellFormed(us + [u]) && IncreasingWorlds(us + [u])
  {
  }

  /** The node after the cursor is due exactly when the cursor has not passed all updates up to t. */
  lemma NextTimestamp(stream: UpdateStream, us: seq<TimedUpdate>, t: int)
    requires stream.Valid() && ContentsOf(stream.nodes) == us && Increasing(us)
    ensures stream.current.next == null <==> stream.cursor == |us|
    ensures stream.current.next != null ==> (stream.current.next.timestamp <= t <==> stream.cursor < CountUpTo(us, t))
  {
    if stream.cursor < |us| {
      assert stream.nodes[stream.cursor].next == stream.nodes[stream.cursor + 1];
      TimestampAtCursor(stream.nodes, us, stream.cursor + 1, t);
    }
  }

  lemma ProjectLater(us: seq<TimedWorld>, key: Key)
    requires forall i :: 0 <= i < |us| ==> us[i].timestamp > -1
    ensures forall i :: 0 <= i < |Project(us, key)| ==> Project(us, key)[i].timestamp > -1
  {
  }

  lemma CarriesAppend(nodes: seq<ReversibleUpdate>, key: Key, us: seq<TimedUpdate>, course: seq<Values>,
                      node: ReversibleUpdate, after: Values)
    requires Carries(nodes, key, us, course) && NodeOk(node, key, course[|us|], after)
    ensures Carries(nodes + [node], key, us + [node.Content()], course + [after])
  {
    hide NodeOk;
    var more, longer := nodes + [node], course + [after];
    assert ContentsOf(more) == us + [node.Content()] by {
      SplicedContents(nodes, |us|, node);
      assert Spliced(nodes, |us|, node) == more;
    }
    forall i | 0 < i < |more|
      ensures NodeOk(more[i], key, longer[i - 1], longer[i])
    {
      if i < |nodes| {
        assert NodeOk(nodes[i], key, course[i - 1], course[i]);
      }
    }
  }

  ghost predicate Disjoint(s: UpdateStream, r: UpdateStream)
    reads s, r
  {
    s != r && forall n :: n in s.nodes ==> n !in r.nodes
  }

  lemma TimestampAtCursor(nodes: seq<ReversibleUpdate>, us: seq<TimedUpdate>, cursor: nat, t: int)
    requires |nodes| > 0 && ContentsOf(nodes) == us && Increasing(us) && cursor < |nodes|
    ensures cursor > 0 ==> nodes[cursor].timestamp == us[cursor - 1].timestamp
    ensures cursor > 0 ==> (nodes[cursor].timestamp <= t <==> cursor <= CountUpTo(us, t))
  {
    if cursor > 0 {
      assert nodes[cursor].Content() == us[cursor - 1];
      var c := CountUpTo(us, t);
      if cursor < c {
        assert us[cursor - 1].timestamp < us[c - 1].timestamp;
      }
    }
  }
}
