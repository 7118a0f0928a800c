/** Finding the position of an entity id: maximal runs of consecutive ids are stored as blocks, and a
    binary search over the blocks replaces a search through the ids. */
module EntityIndex {
  import opened Cells

  ghost predicate Distinct(ids: seq<int>) {
    forall i, j :: 0 <= i < j < |ids| ==> ids[i] != ids[j]
  }

  /** The specification of every lookup: the first position of an id, or -1. */
  function PositionOf(ids: seq<int>, id: int): (p: int)
    ensures p == -1 <==> id !in ids
    ensures p != -1 ==> 0 <= p < |ids| && ids[p] == id
  {
    if ids == [] then -1
    else if ids[0] == id then 0
    else var p := PositionOf(ids[1..], id); if p == -1 then -1 else p + 1
  }

  lemma PositionUnique(ids: seq<int>, p: nat)
    requires Distinct(ids) && p < |ids|
    ensures PositionOf(ids, ids[p]) == p
  {
    var q := PositionOf(ids, ids[p]);
    assert ids[q] == ids[p];
  }

  /** Positions never move when ids are appended. */
  lemma PositionStable(ids: seq<int>, more: seq<int>, id: int)
    requires Distinct(ids + more)
    ensures Distinct(ids)
    ensures id in ids ==> PositionOf(ids + more, id) == PositionOf(ids, id)
    ensures id !in ids && id in more ==> PositionOf(ids + more, id) == |ids| + PositionOf(more, id)
  {
    assert forall i :: 0 <= i < |ids| ==> (ids + more)[i] == ids[i];
    assert forall i :: 0 <= i < |more| ==> (ids + more)[|ids| + i] == more[i];
    if id in ids {
      PositionUnique(ids + more, PositionOf(ids, id));
    } else if id in more {
      PositionUnique(ids + more, |ids| + PositionOf(more, id));
    }
  }

  // ----- building the blocks

  /** A run of consecutive ids first..last that starts at position offset. */
  datatype Block = Block(first: int, last: int, offset: nat) {
    /** The position of the last id. */
    function End(): int {
      offset + (last - first)
    }

    ghost predicate Describes(ids: seq<int>, m: nat) {
      && first <= last && End() < m <= |ids|
      && forall k :: offset <= k <= End() ==> ids[k] == first + (k - offset)
    }

    ghost predicate Holds(k: int) {
      offset <= k <= End()
    }

    predicate Before(b: Block) {
      last < b.first
    }
  }

  /** A block begins at position 0 and wherever the difference with the previous id is not one. */
  predicate IsSplit(ids: seq<int>, k: nat)
    requires k < |ids|
  {
    k == 0 || ids[k] - ids[k - 1] != 1
  }

  /** The blocks of the first m ids, in order of position. */
  function Blocks(ids: seq<int>, m: nat): seq<Block>
    requires m <= |ids|
  {
    if m == 0 then []
    else
      var front := Blocks(ids, m - 1);
      var id := ids[m - 1];
      if front == [] || IsSplit(ids, m - 1) then front + [Block(id, id, m - 1)]
      else
        var n := |front| - 1;
        front[n := front[n].(last := id)]
  }

  /** The blocks describe the first m ids and lie one after the other without gaps. */
  ghost predicate Covers(blocks: seq<Block>, ids: seq<int>, m: nat) {
    && (blocks == [] <==> m == 0)
    && (m > 0 ==> blocks[0].offset == 0 && blocks[|blocks| - 1].End() == m - 1)
    && (forall a :: 0 <= a < |blocks| ==> blocks[a].Describes(ids, m) && IsSplit(ids, blocks[a].offset))
    && (forall a :: 0 < a < |blocks| ==> blocks[a - 1].End() + 1 == blocks[a].offset)
  }

  lemma CoverWithNewBlock(front: seq<Block>, ids: seq<int>, m: nat)
    requires 0 < m <= |ids| && Covers(front, ids, m - 1) && (front == [] || IsSplit(ids, m - 1))
    ensures Covers(front + [Block(ids[m - 1], ids[m - 1], m - 1)], ids, m)
  {
    var blocks := front + [Block(ids[m - 1], ids[m - 1], m - 1)];
    assert forall a :: 0 <= a < |front| ==> blocks[a] == front[a] && front[a].Describes(ids, m - 1);
  }

  lemma LongerBlock(b: Block, ids: seq<int>, m: nat)
    requires 1 < m <= |ids| && b.Describes(ids, m - 1) && b.End() == m - 2 && !IsSplit(ids, m - 1)
    ensures b.(last := ids[m - 1]).Describes(ids, m) && b.(last := ids[m - 1]).End() == m - 1
  {
    assert ids[m - 2] == b.first + (m - 2 - b.offset);
  }

  lemma CoverWithLongerBlock(front: seq<Block>, ids: seq<int>, m: nat)
    requires 0 < m <= |ids| && Covers(front, ids, m - 1) && front != [] && !IsSplit(ids, m - 1)
    ensures Covers(front[|front| - 1 := front[|front| - 1].(last := ids[m - 1])], ids, m)
  {
    var n := |front| - 1;
    var blocks := front[n := front[n].(last := ids[m - 1])];
    LongerBlock(front[n], ids, m);
    forall a | 0 <= a < |blocks|
      ensures blocks[a].Describes(ids, m) && blocks[a].offset == front[a].offset && IsSplit(ids, blocks[a].offset)
    {
      assert front[a].Describes(ids, m - 1);
    }
    assert forall a :: 0 <= a < n ==> blocks[a] == front[a];
  }

  lemma {:induction false} BlocksCover(ids: seq<int>, m: nat)
    requires m <= |ids|
    ensures Covers(Blocks(ids, m), ids, m)
  {
    hide Covers, IsSplit;
    if m == 0 {
      NothingToCover(ids);
    } else {
      BlocksCover(ids, m - 1);
      var front := Blocks(ids, m - 1);
      if front == [] || IsSplit(ids, m - 1) {
        CoverWithNewBlock(front, ids, m);
      } else {
        CoverWithLongerBlock(front, ids, m);
      }
    }
  }

  lemma NothingToCover(ids: seq<int>)
    ensures Covers([], ids, 0)
  {
  }

  lemma {:induction false} OffsetsIncrease(blocks: seq<Block>, ids: seq<int>, m: nat, i: nat, j: nat)
    requires Covers(blocks, ids, m) && i < j < |blocks|
    ensures blocks[i].End() < blocks[j].offset
  {
    assert blocks[j - 1].End() + 1 == blocks[j].offset;
    if i < j - 1 {
      OffsetsIncrease(blocks, ids, m, i, j - 1);
      assert blocks[j - 1].Describes(ids, m);
    }
  }

  ghost predicate Ordered(blocks: seq<Block>) {
    forall a, b :: 0 <= a < b < |blocks| ==> blocks[a].Before(blocks[b])
  }

  ghost predicate Apart(a: Block, b: Block) {
    a.Before(b) || b.Before(a)
  }

  /** Sorts by the first id of each block. */
  function InsertBlock(blocks: seq<Block>, x: Block): (r: seq<Block>)
    ensures multiset(r) == multiset(blocks) + multiset{x}
    ensures |r| == |blocks| + 1
  {
    if blocks == [] then [x]
    else if x.first < blocks[0].first then [x] + blocks
    else
      assert blocks == [blocks[0]] + blocks[1..];
      [blocks[0]] + InsertBlock(blocks[1..], x)
  }

  function SortBlocks(blocks: seq<Block>): (r: seq<Block>)
    ensures multiset(r) == multiset(blocks)
  {
    if blocks == [] then []
    else
      assert blocks == blocks[..|blocks| - 1] + [blocks[|blocks| - 1]];
      InsertBlock(SortBlocks(blocks[..|blocks| - 1]), blocks[|blocks| - 1])
  }

  datatype IndexParams = IndexParams(blockFrom: seq<int>, blockTo: seq<int>, blockOffset: seq<nat>) {
    predicate WellFormed() {
      |blockFrom| == |blockTo| == |blockOffset|
    }
  }

  function Columns(blocks: seq<Block>): (params: IndexParams)
    ensures params.WellFormed()
  {
    IndexParams(seq(|blocks|, c requires 0 <= c < |blocks| => blocks[c].first),
                seq(|blocks|, c requires 0 <= c < |blocks| => blocks[c].last),
                seq(|blocks|, c requires 0 <= c < |blocks| => blocks[c].offset))
  }

  function BuildIndex(ids: seq<int>): (params: IndexParams)
    ensures params.WellFormed()
  {
    Columns(SortBlocks(Blocks(ids, |ids|)))
  }

  // ----- querying

  predicate Sorted(a: seq<int>) {
    forall i, j :: 0 <= i < j < |a| ==> a[i] <= a[j]
  }

  /** The leftmost position in a[lo..hi] at which x can be inserted, by bisection. */
  function SearchSorted(a: seq<int>, x: int, lo: nat, hi: nat): (p: nat)
    requires lo <= hi <= |a|
    ensures lo <= p <= hi
    ensures Sorted(a) ==> (forall i :: lo <= i < p ==> a[i] < x) && (forall i :: p <= i < hi ==> x <= a[i])
    decreases hi - lo
  {
    if lo == hi then lo
    else
      var mid := (lo + hi) / 2;
      if a[mid] < x then SearchSorted(a, x, mid + 1, hi) else SearchSorted(a, x, lo, mid)
  }

  function QueryIdx(params: IndexParams, ident: int): int
    requires params.WellFormed()
  {
    if |params.blockTo| == 0 then -1
    else
      var candidate := SearchSorted(params.blockTo, ident, 0, |params.blockTo|);
      if candidate < |params.blockTo| && params.blockFrom[candidate] <= ident then
        ident - params.blockFrom[candidate] + params.blockOffset[candidate]
      else -1
  }

  // ----- correctness

  /** Every position lies in a block. */
  lemma {:induction false} BlockOf(blocks: seq<Block>, ids: seq<int>, m: nat, k: nat, j: nat) returns (c: nat)
    requires Covers(blocks, ids, m) && j < |blocks| && k <= blocks[j].End()
    ensures c < |blocks| && blocks[c].Holds(k)
  {
    c := j;
    if k < blocks[j].offset {
      assert blocks[j - 1].End() + 1 == blocks[j].offset;
      c := BlockOf(blocks, ids, m, k, j - 1);
    }
  }

  ghost predicate StartsAt(blocks: seq<Block>, k: nat) {
    exists c :: 0 <= c < |blocks| && blocks[c].offset == k
  }

  /** Blocks are maximal runs: they begin exactly at the splits. */
  lemma BlocksBeginAtSplits(ids: seq<int>, k: nat)
    requires k < |ids|
    ensures IsSplit(ids, k) <==> StartsAt(Blocks(ids, |ids|), k)
  {
    var blocks := Blocks(ids, |ids|);
    BlocksCover(ids, |ids|);
    var c := BlockOf(blocks, ids, |ids|, k, |blocks| - 1);
    assert blocks[c].Describes(ids, |ids|) && blocks[c].Holds(k);
    if blocks[c].offset < k {
      assert ids[k] == ids[k - 1] + 1;
      forall d | 0 <= d < |blocks|
        ensures blocks[d].offset != k
      {
        assert blocks[d].Describes(ids, |ids|) && IsSplit(ids, blocks[d].offset);
      }
    } else {
      assert IsSplit(ids, blocks[c].offset) && StartsAt(blocks, blocks[c].offset);
    }
  }

  /** Two blocks whose values overlap hold the same id at two positions. */
  lemma SharedId(ids: seq<int>, i: nat, j: nat) returns (p: nat, q: nat)
    requires i < j < |Blocks(ids, |ids|)| && !Apart(Blocks(ids, |ids|)[i], Blocks(ids, |ids|)[j])
    ensures p < q < |ids| && ids[p] == ids[q]
  {
    var blocks := Blocks(ids, |ids|);
    var a, b := blocks[i], blocks[j];
    BlocksCover(ids, |ids|);
    OffsetsIncrease(blocks, ids, |ids|, i, j);
    assert a.Describes(ids, |ids|) && b.Describes(ids, |ids|);
    var v := if a.first <= b.first then b.first else a.first;
    p, q := a.offset + (v - a.first), b.offset + (v - b.first);
  }

  /** Blocks of distinct ids never interleave: one ends before the other begins. */
  lemma BlocksApart(ids: seq<int>, i: nat, j: nat)
    requires Distinct(ids) && i < j < |Blocks(ids, |ids|)|
    ensures Apart(Blocks(ids, |ids|)[i], Blocks(ids, |ids|)[j])
  {
    if !Apart(Blocks(ids, |ids|)[i], Blocks(ids, |ids|)[j]) {
      var p, q := SharedId(ids, i, j);
    }
  }

  ghost predicate Filled(blocks: seq<Block>) {
    forall b :: b in blocks ==> b.first <= b.last
  }

  lemma {:induction false} InsertKeepsOrder(blocks: seq<Block>, x: Block)
    requires Ordered(blocks) && Filled(blocks) && x.first <= x.last
    requires forall b :: b in blocks ==> Apart(b, x)
    ensures Ordered(InsertBlock(blocks, x))
  {
    if blocks != [] {
      assert blocks[0] in blocks && Apart(blocks[0], x);
      if blocks[0].first <= x.first {
        InsertKeepsOrder(blocks[1..], x);
        var rest := InsertBlock(blocks[1..], x);
        forall b | b in rest
          ensures blocks[0].Before(b)
        {
          assert b in multiset(rest);
          if b != x {
            assert b in blocks[1..];
          }
        }
      } else {
        forall i | 0 <= i < |blocks|
          ensures x.Before(blocks[i])
        {
          assert blocks[i] in blocks && Apart(blocks[i], x);
        }
      }
    }
  }

  lemma SortedMembers(blocks: seq<Block>, b: Block)
    ensures b in SortBlocks(blocks) <==> b in blocks
  {
    assert b in multiset(SortBlocks(blocks)) <==> b in multiset(blocks);
  }

  lemma FrontIsApart(blocks: seq<Block>, b: Block)
    requires blocks != [] && b in blocks[..|blocks| - 1]
    requires forall i, j :: 0 <= i < j < |blocks| ==> Apart(blocks[i], blocks[j])
    ensures Apart(b, blocks[|blocks| - 1]) && b in blocks
  {
    hide Apart;
    var i :| 0 <= i < |blocks| - 1 && blocks[..|blocks| - 1][i] == b;
    assert blocks[i] == b;
  }

  /** Sorting pairwise disjoint blocks by their first id orders them as intervals. */
  lemma {:induction false} SortOrders(blocks: seq<Block>)
    requires Filled(blocks)
    requires forall i, j :: 0 <= i < j < |blocks| ==> Apart(blocks[i], blocks[j])
    ensures Ordered(SortBlocks(blocks))
  {
    hide Apart, Ordered, InsertBlock;
    if blocks == [] {
      NothingToOrder();
    } else {
      var n := |blocks| - 1;
      var front := blocks[..n];
      assert blocks[n] in blocks;
      forall b | b in front
        ensures b in blocks && Apart(b, blocks[n])
      {
        FrontIsApart(blocks, b);
      }
      SortOrders(front);
      forall b | b in SortBlocks(front)
        ensures b in front
      {
        SortedMembers(front, b);
      }
      InsertKeepsOrder(SortBlocks(front), blocks[n]);
    }
  }

  lemma NothingToOrder()
    ensures Ordered([])
  {
  }

  lemma SortedBlocksOrdered(ids: seq<int>)
    requires Distinct(ids)
    ensures Ordered(SortBlocks(Blocks(ids, |ids|)))
    ensures forall b :: b in SortBlocks(Blocks(ids, |ids|)) ==> b.Describes(ids, |ids|)
  {
    var blocks := Blocks(ids, |ids|);
    BlocksCover(ids, |ids|);
    assert forall i :: 0 <= i < |blocks| ==> blocks[i].Describes(ids, |ids|);
    forall i, j | 0 <= i < j < |blocks|
      ensures Apart(blocks[i], blocks[j])
    {
      BlocksApart(ids, i, j);
    }
    SortOrders(blocks);
    forall b | b in SortBlocks(blocks)
      ensures b.Describes(ids, |ids|)
    {
      assert b in multiset(blocks);
    }
  }

  lemma SortedBlockOf(ids: seq<int>, p: nat) returns (c: nat)
    requires p < |ids|
    ensures c < |SortBlocks(Blocks(ids, |ids|))| && SortBlocks(Blocks(ids, |ids|))[c].Holds(p)
  {
    var blocks := Blocks(ids, |ids|);
    var sorted := SortBlocks(blocks);
    BlocksCover(ids, |ids|);
    var i := BlockOf(blocks, ids, |ids|, p, |blocks| - 1);
    assert blocks[i] in multiset(sorted);
    c :| 0 <= c < |sorted| && sorted[c] == blocks[i];
  }

  /** For distinct ids in any order the block search returns the exact position, or -1 when absent. */
  lemma QueryFindsPosition(ids: seq<int>, ident: int)
    requires Distinct(ids)
    ensures QueryIdx(BuildIndex(ids), ident) == PositionOf(ids, ident)
  {
    var sorted := SortBlocks(Blocks(ids, |ids|));
    SortedBlocksOrdered(ids);
    if ident in ids {
      var p := PositionOf(ids, ident);
      var c := SortedBlockOf(ids, p);
      QueryHit(ids, sorted, c, p);
    } else {
      QueryMiss(ids, sorted, ident);
    }
  }

  lemma LastIdsSorted(sorted: seq<Block>)
    requires Ordered(sorted) && forall b :: b in sorted ==> b.first <= b.last
    ensures Sorted(Columns(sorted).blockTo)
  {
    forall i, j | 0 <= i < j < |sorted|
      ensures Columns(sorted).blockTo[i] <= Columns(sorted).blockTo[j]
    {
      assert sorted[i].Before(sorted[j]) && sorted[j] in sorted;
    }
  }

  lemma QueryHit(ids: seq<int>, sorted: seq<Block>, c: nat, p: nat)
    requires Ordered(sorted) && forall b :: b in sorted ==> b.Describes(ids, |ids|)
    requires c < |sorted| && p < |ids| && sorted[c].Holds(p)
    ensures QueryIdx(Columns(sorted), ids[p]) == p
  {
    LastIdsSorted(sorted);
    var params := Columns(sorted);
    assert sorted[c] in sorted;
    assert params.blockFrom[c] <= ids[p] <= params.blockTo[c];
    assert forall d :: 0 <= d < c ==> sorted[d].Before(sorted[c]) && params.blockTo[d] < ids[p];
  }

  lemma InBlock(ids: seq<int>, b: Block, ident: int)
    requires b.Describes(ids, |ids|) && b.first <= ident <= b.last
    ensures ident in ids
  {
    assert ids[b.offset + (ident - b.first)] in ids;
  }

  lemma QueryMiss(ids: seq<int>, sorted: seq<Block>, ident: int)
    requires Ordered(sorted) && forall b :: b in sorted ==> b.Describes(ids, |ids|)
    requires ident !in ids
    ensures QueryIdx(Columns(sorted), ident) == -1
  {
    LastIdsSorted(sorted);
    var params := Columns(sorted);
    forall c | 0 <= c < |sorted|
      ensures !(params.blockFrom[c] <= ident <= params.blockTo[c])
    {
      var b := sorted[c];
      assert b in sorted;
      if b.first <= ident <= b.last {
        InBlock(ids, b, ident);
      }
    }
  }

  /** Fills a result array by querying every id. */
  method QueryIndices(params: IndexParams, items: seq<int>) returns (result: array<int>)
    requires params.WellFormed()
    ensures fresh(result) && result.Length == |items|
    ensures forall i :: 0 <= i < |items| ==> result[i] == QueryIdx(params, items[i])
  {
    result := new int[|items|];
    for i := 0 to |items|
      invariant forall j :: 0 <= j < i ==> result[j] == QueryIdx(params, items[j])
    {
      result[i] := QueryIdx(params, items[i]);
    }
  }

  class Index {
    const raiseOnInvalid: bool
    var ids: seq<int>
    var params: IndexParams

    ghost predicate Valid()
      reads this
    {
      Distinct(ids) && params == BuildIndex(ids)
    }

    constructor (raiseOnInvalid: bool)
      ensures Valid() && ids == [] && this.raiseOnInvalid == raiseOnInvalid
    {
      this.raiseOnInvalid, ids := raiseOnInvalid, [];
      params := BuildIndex([]);
    }

    /** Appends ids; a duplicate among old and new ids raises and leaves the index as it was. */
    method AddIds(newIds: seq<int>) returns (r: Result<()>)
      requires Valid()
      modifies this
      ensures Valid()
      ensures r.Ok? <==> Distinct(old(ids) + newIds)
      ensures ids == if r.Ok? then old(ids) + newIds else old(ids)
      ensures forall id :: id in old(ids) ==> QueryIdx(params, id) == old(QueryIdx(params, id))
    {
      if |newIds| == 0 {
        assert ids + newIds == ids;
        return Ok(());
      }
      var candidates := ids + newIds;
      var unique := EnsureUnique(candidates);
      if !unique {
        return Err("Duplicate entries detected");
      }
      forall id | id in ids
        ensures QueryIdx(BuildIndex(candidates), id) == QueryIdx(params, id)
      {
        QueryFindsPosition(candidates, id);
        QueryFindsPosition(ids, id);
        PositionStable(ids, newIds, id);
      }
      ids := candidates;
      params := BuildIndex(candidates);
      return Ok(());
    }

    /** Sets the ids once. On an index that already has ids every call raises, also one that repeats
        the same ids: the equality test lets it pass and the duplicate test then refuses it. */
    method SetIds(newIds: seq<int>) returns (r: Result<()>)
      requires Valid()
      modifies this
      ensures Valid()
      ensures r.Ok? <==> old(ids) == [] && Distinct(newIds)
      ensures ids == if r.Ok? then newIds else old(ids)
    {
      if |ids| > 0 && ids != newIds {
        return Err("Cannot change entity ids");
      }
      if |ids| > 0 {
        assert (ids + newIds)[0] == (ids + newIds)[|ids|];
      }
      r := AddIds(newIds);
      assert [] + newIds == newIds;
    }

    /** Looks ids up. With raiseOnInvalid an unknown id raises; otherwise it has position -1. */
    method Get(items: seq<int>) returns (r: Result<seq<int>>)
      requires Valid()
      ensures r.Ok? <==> raiseOnInvalid ==> forall i :: 0 <= i < |items| ==> items[i] in ids
      ensures r.Ok? ==> |r.value| == |items| && forall i :: 0 <= i < |items| ==> r.value[i] == PositionOf(ids, items[i])
    {
      var result := QueryIndices(params, items);
      var positions := result[..];
      forall i | 0 <= i < |items|
        ensures positions[i] == PositionOf(ids, items[i])
      {
        QueryFindsPosition(ids, items[i]);
      }
      if raiseOnInvalid && -1 in positions {
        return Err("ids not found");
      }
      assert forall i :: 0 <= i < |items| ==> positions[i] in positions;
      return Ok(positions);
    }
  }

  /** Whether every candidate occurs once. */
  method EnsureUnique(candidates: seq<int>) returns (unique: bool)
    ensures unique <==> Distinct(candidates)
  {
    var seen: set<int> := {};
    for i := 0 to |candidates|
      invariant seen == set k | 0 <= k < i :: candidates[k]
      invariant Distinct(candidates[..i])
    {
      if candidates[i] in seen {
        var k :| 0 <= k < i && candidates[k] == candidates[i];
        return false;
      }
      seen := seen + {candidates[i]};
    }
    assert candidates[..|candidates|] == candidates;
    return true;
  }
}
