/** The doubly linked list of reversible updates of one entity group, with a cursor. */
module UpdateStreams {
  import opened Cells
  import opened EntityTable
  import opened MergeUpdates

  /** An update of one entity group with its place in time. */
  datatype TimedUpdate = TimedUpdate(timestamp: int, iteration: int, update: EntityData)

  /** A list node: an update and, unless it is the sentinel, the update that takes it back. */
  class ReversibleUpdate {
    const timestamp: int
    const iteration: int
    const key: Key
    const update: EntityData
    const reverseUpdate: Option<EntityData>
    var next: ReversibleUpdate?
    var prev: ReversibleUpdate?

    constructor (timestamp: int, iteration: int, key: Key, update: EntityData, reverseUpdate: Option<EntityData>)
      ensures next == null && prev == null
      ensures this.timestamp == timestamp && this.iteration == iteration && this.key == key
      ensures this.update == update && this.reverseUpdate == reverseUpdate
    {
      this.timestamp, this.iteration, this.key := timestamp, iteration, key;
      this.update, this.reverseUpdate := update, reverseUpdate;
      next, prev := null, null;
    }

    function Content(): TimedUpdate {
      TimedUpdate(timestamp, iteration, update)
    }
  }

  class UpdateStream {
    var current: ReversibleUpdate
    const first: ReversibleUpdate
    var length: nat
    /** The nodes in list order, the sentinel first. */
    ghost var nodes: seq<ReversibleUpdate>
    ghost var cursor: nat

    ghost predicate Valid()
      reads this, nodes
    {
      && cursor < |nodes| && nodes[0] == first && nodes[cursor] == current && length == |nodes| - 1
      && first.timestamp == -1 && first.reverseUpdate == None
      && DistinctNodes(nodes)
      && LinkedForward(nodes) && LinkedBackward(nodes)
    }

    constructor ()
      ensures Valid() && fresh(nodes) && |nodes| == 1 && cursor == 0
    {
      var sentinel := new ReversibleUpdate(-1, -1, Key("dummy", "dummy"), EMPTY_GROUP, None);
      current, first, length := sentinel, sentinel, 0;
      nodes, cursor := [sentinel], 0;
    }

    method Next() returns (update: Option<ReversibleUpdate>)
      requires Valid()
      modifies this`current, this`cursor
      ensures Valid()
      ensures old(cursor) + 1 < |nodes| ==> cursor == old(cursor) + 1 && update == Some(nodes[cursor])
      ensures old(cursor) + 1 == |nodes| ==> cursor == old(cursor) && update == None
    {
      assert cursor + 1 < |nodes| ==> nodes[cursor].next == nodes[cursor + 1];
      if current.next == null {
        return None;
      }
      current := current.next;
      cursor := cursor + 1;
      return Some(current);
    }

    method Prev() returns (update: Option<ReversibleUpdate>)
      requires Valid()
      modifies this`current, this`cursor
      ensures Valid()
      ensures old(cursor) > 0 ==> cursor == old(cursor) - 1 && update == Some(nodes[cursor])
      ensures old(cursor) == 0 ==> cursor == 0 && update == None
    {
      assert cursor > 0 ==> nodes[cursor].prev == nodes[cursor - 1];
      if current.prev == null {
        return None;
      }
      current := current.prev;
      cursor := cursor - 1;
      return Some(current);
    }

    /** Links a new node in between the cursor and the node after it. */
    method LinkAfterCurrent(update: ReversibleUpdate)
      requires Valid() && update !in nodes
      modifies (set n | n in nodes), update
      ensures LinkedForward(Spliced(nodes, cursor, update)) && LinkedBackward(Spliced(nodes, cursor, update))
    {
      assert cursor + 1 < |nodes| ==> nodes[cursor].next == nodes[cursor + 1];
      assert cursor + 1 == |nodes| ==> nodes[cursor].next == null;
      var after := current.next;
      if after != null {
        after.prev := update;
      }
      update.next := after;
      update.prev := current;
      current.next := update;
      ghost var spliced := Spliced(nodes, cursor, update);
      forall i | 0 <= i < |spliced| - 1
        ensures spliced[i].next == spliced[i + 1]
      {
        if i < cursor {
          assert old(nodes[i].next) == nodes[i + 1];
        } else if i > cursor + 1 {
          assert old(nodes[i - 1].next) == nodes[i];
        }
      }
      forall i | 0 < i < |spliced|
        ensures spliced[i].prev == spliced[i - 1]
      {
        if i <= cursor {
          assert old(nodes[i].prev) == nodes[i - 1];
        } else if i > cursor + 2 {
          assert old(nodes[i - 1].prev) == nodes[i - 2];
        }
      }
    }

    /** Splices a new node in directly after the cursor and moves the cursor to it. */
    method InsertAfter(update: ReversibleUpdate)
      requires Valid() && update !in nodes
      modifies this, (set n | n in nodes), update
      ensures Valid() && cursor == old(cursor) + 1 && length == old(length) + 1
      ensures nodes == Spliced(old(nodes), old(cursor), update)
    {
      LinkAfterCurrent(update);
      SplicedDistinct(nodes, cursor, update);
      current := update;
      length := length + 1;
      nodes := Spliced(nodes, cursor, update);
      cursor := cursor + 1;
    }

    /** Walking the list yields exactly the updates, in order, and ends. */
    method Iterate() returns (items: seq<ReversibleUpdate>)
      requires Valid()
      ensures items == nodes[1..] && |items| == length
    {
      items := [];
      var item := first;
      while item.next != null
        invariant |items| < |nodes| && item == nodes[|items|] && items == nodes[1..|items| + 1]
        invariant item.next == if |items| + 1 < |nodes| then nodes[|items| + 1] else null
        decreases |nodes| - |items|
      {
        item := item.next;
        items := items + [item];
      }
    }
  }

  ghost predicate DistinctNodes(nodes: seq<ReversibleUpdate>) {
    forall i, j :: 0 <= i < j < |nodes| ==> nodes[i] != nodes[j]
  }

  ghost predicate LinkedForward(nodes: seq<ReversibleUpdate>)
    requires |nodes| > 0
    reads nodes
  {
    && nodes[|nodes| - 1].next == null
    && forall i {:trigger nodes[i].next} :: 0 <= i < |nodes| - 1 ==> nodes[i].next == nodes[i + 1]
  }

  ghost predicate LinkedBackward(nodes: seq<ReversibleUpdate>)
    requires |nodes| > 0
    reads nodes
  {
    && nodes[0].prev == null
    && forall i {:trigger nodes[i].prev} :: 0 < i < |nodes| ==> nodes[i].prev == nodes[i - 1]
  }

  /** The node list with a new node directly after position c. */
  function Spliced(nodes: seq<ReversibleUpdate>, c: nat, update: ReversibleUpdate): (r: seq<ReversibleUpdate>)
    requires c < |nodes|
    ensures |r| == |nodes| + 1 && r[c + 1] == update
    ensures forall i :: 0 <= i <= c ==> r[i] == nodes[i]
    ensures forall i :: c + 1 < i < |r| ==> r[i] == nodes[i - 1]
  {
    nodes[..c + 1] + [update] + nodes[c + 1..]
  }

  lemma SplicedDistinct(nodes: seq<ReversibleUpdate>, c: nat, update: ReversibleUpdate)
    requires c < |nodes| && DistinctNodes(nodes) && update !in nodes
    ensures DistinctNodes(Spliced(nodes, c, update))
  {
  }

  /** The contents after splicing in one node. */
  lemma SplicedContents(nodes: seq<ReversibleUpdate>, c: nat, update: ReversibleUpdate)
    requires c < |nodes|
    ensures ContentsOf(Spliced(nodes, c, update))
         == ContentsOf(nodes)[..c] + [update.Content()] + ContentsOf(nodes)[c..]
  {
  }

  /** The updates in a list of nodes, without the sentinel. */
  function ContentsOf(nodes: seq<ReversibleUpdate>): (r: seq<TimedUpdate>)
    requires |nodes| > 0
    ensures |r| == |nodes| - 1
    ensures forall i :: 0 < i < |nodes| ==> r[i - 1] == nodes[i].Content()
  {
    seq(|nodes| - 1, i requires 0 <= i < |nodes| - 1 => nodes[i + 1].Content())
  }
}
