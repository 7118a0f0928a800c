/** Loading attribute data from nested lists into arrays and dumping arrays to lists again. */
module DataFormat {
  import opened Cells
  import opened EntityIndex
  import opened CsrRows

  /** A list element. Scalar(Undefined) is the special value that stands for undefined in the arrays. */
  datatype Item = Null | Scalar(cell: Cell) | Nested(items: seq<Item>)

  /** None, or a list with a None anywhere inside. */
  predicate HasNull(item: Item) {
    match item
    case Null => true
    case Scalar(_) => false
    case Nested(items) => exists k :: 0 <= k < |items| && HasNull(items[k])
  }

  /** The item that one comes to by going into the lists at these places. */
  function ItemAt(item: Item, places: seq<nat>): Option<Item>
    decreases places
  {
    if places == [] then Some(item)
    else if item.Nested? && places[0] < |item.items| then ItemAt(item.items[places[0]], places[1..])
    else None
  }

  lemma {:induction false} NullHasPlaces(item: Item) returns (places: seq<nat>)
    requires HasNull(item)
    ensures ItemAt(item, places) == Some(Null)
    decreases item
  {
    if item.Null? {
      places := [];
    } else {
      var k :| 0 <= k < |item.items| && HasNull(item.items[k]);
      var more := NullHasPlaces(item.items[k]);
      places := [k] + more;
      assert places[1..] == more;
    }
  }

  lemma {:induction false} PlacesHaveNull(item: Item, places: seq<nat>)
    requires ItemAt(item, places) == Some(Null)
    ensures HasNull(item)
    decreases places
  {
    if places != [] {
      PlacesHaveNull(item.items[places[0]], places[1..]);
    }
  }

  /** What counts as undefined is exactly what has a None somewhere, however deep. */
  lemma NullInside(item: Item)
    ensures HasNull(item) <==> exists places :: ItemAt(item, places) == Some(Null)
  {
    if HasNull(item) {
      var places := NullHasPlaces(item);
    }
    forall places | ItemAt(item, places) == Some(Null)
      ensures HasNull(item)
    {
      PlacesHaveNull(item, places);
    }
  }

  /** The elements that fit into an array of scalars: scalars and whatever counts as undefined. */
  predicate Loadable(items: seq<Item>) {
    forall k :: 0 <= k < |items| && items[k].Nested? ==> HasNull(items[k])
  }

  function LoadCell(item: Item): Cell {
    if item.Scalar? then item.cell else Undefined
  }

  function LoadCells(items: seq<Item>): (cells: Row)
    ensures |cells| == |items|
  {
    seq(|items|, k requires 0 <= k < |items| => LoadCell(items[k]))
  }

  /** Replaces, in the list itself, what counts as undefined by the undefined value. */
  method SubstituteUndefined(items: array<Item>)
    modifies items
    ensures forall k :: 0 <= k < items.Length ==>
      items[k] == if HasNull(old(items[k])) then Scalar(Undefined) else old(items[k])
  {
    for idx := 0 to items.Length
      invariant forall k :: 0 <= k < idx ==>
        items[k] == if HasNull(old(items[k])) then Scalar(Undefined) else old(items[k])
      invariant forall k :: idx <= k < items.Length ==> items[k] == old(items[k])
    {
      if HasNull(items[idx]) {
        items[idx] := Scalar(Undefined);
      }
    }
  }

  /** Converts a list at once when it holds scalars only, and otherwise after substituting. */
  method CreateArray(items: seq<Item>) returns (r: Result<Row>)
    ensures r.Ok? <==> Loadable(items)
    ensures r.Ok? ==> r.value == LoadCells(items)
  {
    if forall k :: 0 <= k < |items| ==> items[k].Scalar? {
      return Ok(LoadCells(items));
    }
    var list := new Item[|items|](k requires 0 <= k < |items| => items[k]);
    SubstituteUndefined(list);
    assert forall k :: 0 <= k < |items| ==> list[k] == if HasNull(items[k]) then Scalar(Undefined) else items[k];
    var idx := 0;
    while idx < list.Length
      invariant 0 <= idx <= list.Length && forall k :: 0 <= k < idx ==> list[k].Scalar?
    {
      if !list[idx].Scalar? {
        assert items[idx].Nested? && !HasNull(items[idx]);
        return Err("input data is not of the correct shape");
      }
      idx := idx + 1;
    }
    assert forall k :: 0 <= k < |items| && items[k].Nested? ==> list[k].Scalar? && HasNull(items[k]);
    r := Ok(LoadCells(list[..]));
    assert LoadCells(list[..]) == LoadCells(items);
  }

  /** What is_undefined_uniform and dump_uniform_attribute make of an array. */
  function DumpUniform(cells: Row): (items: seq<Item>)
    ensures |items| == |cells|
  {
    seq(|cells|, k requires 0 <= k < |cells| => if cells[k] == Undefined then Null else Scalar(cells[k]))
  }

  /** Uniform data come back as they were exactly when the list holds defined scalars and None only. */
  lemma UniformRoundTrip(items: seq<Item>)
    ensures DumpUniform(LoadCells(items)) == items
       <==> forall k :: 0 <= k < |items| ==> items[k].Null? || (items[k].Scalar? && items[k].cell != Undefined)
  {
    var back := DumpUniform(LoadCells(items));
    forall k | 0 <= k < |items|
      ensures back[k] == items[k] <==> items[k].Null? || (items[k].Scalar? && items[k].cell != Undefined)
    {
    }
  }

  lemma UniformReload(cells: Row)
    ensures Loadable(DumpUniform(cells)) && LoadCells(DumpUniform(cells)) == cells
  {
  }

  // ----- CSR

  /** What a list can be extended with: other scalars than texts raise. */
  predicate IsIterable(line: Item) {
    line.Scalar? ==> line.cell.Text?
  }

  predicate AllIterable(lines: seq<Item>) {
    forall i :: 0 <= i < |lines| ==> IsIterable(lines[i])
  }

  function Characters(s: string): (items: seq<Item>)
    ensures |items| == |s|
  {
    seq(|s|, k requires 0 <= k < |s| => Scalar(Text([s[k]])))
  }

  /** A line stands for its elements, None for one None, and a text for its characters. */
  function Elements(line: Item): seq<Item>
    requires IsIterable(line)
  {
    match line
    case Null => [Null]
    case Scalar(cell) => Characters(cell.s)
    case Nested(items) => items
  }

  predicate LoadableLines(lines: seq<Item>) {
    forall i :: 0 <= i < |lines| ==> IsIterable(lines[i]) && Loadable(Elements(lines[i]))
  }

  function LoadRows(lines: seq<Item>): (rows: Column)
    requires AllIterable(lines)
    ensures |rows| == |lines|
  {
    seq(|lines|, i requires 0 <= i < |lines| => LoadCells(Elements(lines[i])))
  }

  /** All elements one after the other. */
  function Flattened(lines: seq<Item>): seq<Item>
    requires AllIterable(lines)
  {
    if lines == [] then [] else Flattened(lines[..|lines| - 1]) + Elements(lines[|lines| - 1])
  }

  lemma LoadAppend(a: seq<Item>, b: seq<Item>)
    ensures LoadCells(a + b) == LoadCells(a) + LoadCells(b)
    ensures Loadable(a + b) <==> Loadable(a) && Loadable(b)
  {
    if Loadable(a + b) {
      assert forall k :: 0 <= k < |a| ==> a[k] == (a + b)[k];
      assert forall k :: 0 <= k < |b| ==> b[k] == (a + b)[|a| + k];
    }
  }

  lemma LoadableSplit(lines: seq<Item>)
    requires lines != []
    ensures LoadableLines(lines)
       <==> && LoadableLines(lines[..|lines| - 1])
            && IsIterable(lines[|lines| - 1]) && Loadable(Elements(lines[|lines| - 1]))
  {
    hide Loadable, Elements;
    var front := lines[..|lines| - 1];
    if LoadableLines(lines) {
      assert forall i :: 0 <= i < |front| ==> front[i] == lines[i];
    }
  }

  lemma {:induction false} FlattenedLoads(lines: seq<Item>)
    requires AllIterable(lines)
    ensures LoadCells(Flattened(lines)) == Flatten(LoadRows(lines))
    ensures Loadable(Flattened(lines)) <==> LoadableLines(lines)
  {
    hide Loadable, LoadCells, LoadCell, LoadableLines, Elements;
    if lines == [] {
      NothingLoads();
    } else {
      var front, last := lines[..|lines| - 1], lines[|lines| - 1];
      FlattenedLoads(front);
      LoadAppend(Flattened(front), Elements(last));
      LoadableSplit(lines);
      assert LoadRows(lines)[..|lines| - 1] == LoadRows(front);
    }
  }

  lemma NothingLoads()
    ensures LoadCells([]) == [] && Loadable([]) && LoadableLines([])
  {
  }

  /** Flattens the lines, keeping the ends of the rows. */
  method ParseCsrList(lines: seq<Item>) returns (r: Result<(Row, seq<nat>)>)
    ensures r.Ok? <==> LoadableLines(lines)
    ensures r.Ok? ==> IsRowPtr(r.value.1, |r.value.0|) && Rows(r.value.0, r.value.1) == LoadRows(lines)
  {
    hide Loadable, LoadCells, LoadCell, Elements, Rows, IsRowPtr;
    var flattened: seq<Item>, rowPtr: seq<nat> := [], [0];
    var i := 0;
    while i < |lines|
      invariant 0 <= i <= |lines| && AllIterable(lines[..i])
      invariant flattened == Flattened(lines[..i]) && rowPtr == Pointers(LoadRows(lines[..i]))
    {
      if !IsIterable(lines[i]) {
        return Err("not iterable");
      }
      assert lines[..i + 1][..i] == lines[..i];
      assert LoadRows(lines[..i + 1])[..i] == LoadRows(lines[..i]);
      flattened := flattened + Elements(lines[i]);
      FlattenedLoads(lines[..i + 1]);
      rowPtr := rowPtr + [|flattened|];
      i := i + 1;
    }
    assert lines[..i] == lines;
    FlattenedLoads(lines);
    var data := CreateArray(flattened);
    if data.Err? {
      return Err(data.error);
    }
    RowsOfFlatten(LoadRows(lines));
    return Ok((data.value, rowPtr));
  }

  function DumpRow(row: Row): (line: Item)
    ensures !line.Scalar?
  {
    if Undefined in row then Null
    else Nested(seq(|row|, k requires 0 <= k < |row| => Scalar(row[k])))
  }

  function DumpRows(rows: Column): (lines: seq<Item>)
    ensures |lines| == |rows|
  {
    seq(|rows|, i requires 0 <= i < |rows| => DumpRow(rows[i]))
  }

  /** A row with an undefined cell is dumped as None, every other row as the list of its cells. */
  method DumpTrackedCsrArray(data: Row, rowPtr: seq<nat>) returns (lines: seq<Item>)
    requires IsRowPtr(rowPtr, |data|)
    ensures lines == DumpRows(Rows(data, rowPtr))
  {
    var rows := Rows(data, rowPtr);
    var undefinedIndices: set<int> := {};
    for i := 0 to |rows|
      invariant undefinedIndices == set j | 0 <= j < i && Undefined in rows[j]
    {
      if Undefined in rows[i] {
        undefinedIndices := undefinedIndices + {i};
      }
    }
    lines := [];
    for i := 0 to |rows|
      invariant |lines| == i && forall j :: 0 <= j < i ==> lines[j] == DumpRow(rows[j])
    {
      lines := lines + [if i in undefinedIndices then Null
                        else Nested(seq(|rows[i]|, k requires 0 <= k < |rows[i]| => Scalar(rows[i][k])))];
    }
  }

  /** A line that comes back as it was: None, or defined scalars, none of them or many. */
  predicate Faithful(line: Item) {
    line.Null? ||
    (line.Nested? && forall k :: 0 <= k < |line.items| ==> line.items[k].Scalar? && line.items[k].cell != Undefined)
  }

  lemma LineRoundTrip(line: Item)
    requires IsIterable(line)
    ensures DumpRow(LoadCells(Elements(line))) == line <==> Faithful(line)
  {
    var row := LoadCells(Elements(line));
    if line.Null? {
      assert row[0] == Undefined;
    } else if line.Scalar? {
      assert !Faithful(line);
    } else if Faithful(line) {
      assert Undefined !in row;
    } else {
      var k :| 0 <= k < |line.items| && !(line.items[k].Scalar? && line.items[k].cell != Undefined);
      assert row[k] == Undefined;
      assert Undefined in row;
    }
  }

  /** Nested lists come back as they were exactly when no None hides inside a line; empty lines and
      lines that are None survive. */
  lemma CsrRoundTrip(lines: seq<Item>)
    requires AllIterable(lines)
    ensures DumpRows(LoadRows(lines)) == lines <==> forall i :: 0 <= i < |lines| ==> Faithful(lines[i])
  {
    var back := DumpRows(LoadRows(lines));
    forall i | 0 <= i < |lines|
      ensures back[i] == lines[i] <==> Faithful(lines[i])
    {
      LineRoundTrip(lines[i]);
    }
  }

  lemma RowReload(row: Row)
    ensures Loadable(Elements(DumpRow(row)))
    ensures LoadCells(Elements(DumpRow(row))) == row
       <==> forall k :: 0 <= k < |row| && row[k] == Undefined ==> |row| == 1
  {
    var again := LoadCells(Elements(DumpRow(row)));
    if Undefined in row {
      assert again == UNDEFINED_ROW;
    } else {
      assert again == row;
    }
  }

  lemma RowsReload(rows: Column)
    ensures LoadableLines(DumpRows(rows))
    ensures LoadRows(DumpRows(rows)) == rows <==> UndefinedOnlyAlone(rows)
  {
    hide DumpRow, Loadable, LoadCells;
    var again := LoadRows(DumpRows(rows));
    forall i | 0 <= i < |rows|
      ensures Loadable(Elements(DumpRows(rows)[i]))
      ensures again[i] == rows[i] <==> (forall k :: 0 <= k < |rows[i]| && rows[i][k] == Undefined ==> |rows[i]| == 1)
    {
      RowReload(rows[i]);
    }
    if again == rows {
      assert UndefinedOnlyAlone(rows);
    }
  }

  /** Dumped arrays load again, with the same cells and row pointers exactly when undefined cells only
      stand alone. */
  lemma CsrReload(data: Row, rowPtr: seq<nat>)
    requires IsRowPtr(rowPtr, |data|)
    ensures var lines := DumpRows(Rows(data, rowPtr));
      && LoadableLines(lines)
      && (Flatten(LoadRows(lines)) == data && Pointers(LoadRows(lines)) == rowPtr
          <==> UndefinedOnlyAlone(Rows(data, rowPtr)))
  {
    hide DumpRow, Loadable, LoadCells, UndefinedOnlyAlone, IsRowPtr;
    var rows := Rows(data, rowPtr);
    RowsReload(rows);
    SameForm(data, rowPtr, LoadRows(DumpRows(rows)));
  }

  /** A CSR pair has no other rows than those whose form it is. */
  lemma SameForm(data: Row, rowPtr: seq<nat>, rows: Column)
    requires IsRowPtr(rowPtr, |data|)
    ensures Flatten(rows) == data && Pointers(rows) == rowPtr <==> Rows(data, rowPtr) == rows
  {
    RowsOfFlatten(rows);
    var own := Rows(data, rowPtr);
    FlattenOfRows(data, rowPtr, |own|);
    assert own[..|own|] == own && data[..rowPtr[|own|]] == data && rowPtr[..|own| + 1] == rowPtr;
  }
}
