/** Converting enumerated attributes: strings become positions in the enum's list of values, which grows
    by the strings that are not in it yet. */
module EnumConversions {
  import opened Cells

  /** A dictionary from values to positions, with its keys in the order in which they were inserted. */
  datatype Table = Table(values: seq<string>, positions: map<string, int>) {

    /** The position of every value is its place among the keys. */
    ghost predicate Valid() {
      && (forall i :: 0 <= i < |values| ==> values[i] in positions && positions[values[i]] == i)
      && forall v :: v in positions ==> v in values
    }

    /** The position of a text, and the table with the text added if it was not there. */
    function Ensure(text: string): (r: (int, Table)) {
      if text in positions then (positions[text], this)
      else (|values|, Table(values + [text], positions[text := |values|]))
    }
  }

  const EMPTY_TABLE := Table([], map[])

  /** A value that occurs twice keeps its first place among the keys but gets its last position. */
  function FromList(values: seq<string>): Table {
    if values == [] then EMPTY_TABLE
    else
      var n := |values| - 1;
      var front := FromList(values[..n]);
      Table(if values[n] in front.positions then front.values else front.values + [values[n]],
            front.positions[values[n] := n])
  }

  type Enums = map<string, Table>

  /** An attribute value: an integer or a string, possibly in nested lists; other types are refused. */
  datatype Attr = Code(code: int) | Label(text: string) | Nested(items: seq<Attr>) | Other

  function Convert(enums: Enums, attr: Attr, name: string): (r: (Result<Attr>, Enums))
    decreases attr, 1
  {
    match attr
    case Code(code) =>
      if name !in enums then (Err("enum not defined"), enums)
      else if code >= |enums[name].values| then (Err("out of bounds"), enums)
      else (Ok(attr), enums)
    case Label(text) =>
      var table := if name in enums then enums[name] else EMPTY_TABLE;
      (Ok(Code(table.Ensure(text).0)), enums[name := table.Ensure(text).1])
    case Nested(items) =>
      var (converted, grown) := ConvertFrom(enums, attr, 0, name);
      (if converted.Err? then Err(converted.error) else Ok(Nested(converted.value)), grown)
    case Other => (Err("wrong type"), enums)
  }

  /** Converts the items of a list from the i-th on, one after the other. */
  function ConvertFrom(enums: Enums, attr: Attr, i: nat, name: string): (r: (Result<seq<Attr>>, Enums))
    requires attr.Nested? && i <= |attr.items|
    ensures r.0.Ok? ==> |r.0.value| == |attr.items| - i
    decreases attr, 0, |attr.items| - i
  {
    if i == |attr.items| then (Ok([]), enums)
    else
      var (first, grown) := Convert(enums, attr.items[i], name);
      if first.Err? then (Err(first.error), grown)
      else
        var (rest, end) := ConvertFrom(grown, attr, i + 1, name);
        (if rest.Err? then rest else Ok([first.value] + rest.value), end)
  }

  /** An attribute of an entity group, with the name of its enum. */
  datatype Column = Column(enumName: string, items: seq<Attr>)

  function ConvertAll(enums: Enums, columns: seq<Column>): (r: (Result<seq<Column>>, Enums))
    ensures r.0.Ok? ==> |r.0.value| == |columns|
    decreases |columns|
  {
    if columns == [] then (Ok([]), enums)
    else
      var (first, grown) := ConvertFrom(enums, Nested(columns[0].items), 0, columns[0].enumName);
      if first.Err? then (Err(first.error), grown)
      else
        var (rest, end) := ConvertAll(grown, columns[1..]);
        (if rest.Err? then rest else Ok([Column(columns[0].enumName, first.value)] + rest.value), end)
  }

  /** The operation as it runs: the tables grow in place while the attributes are rewritten. */
  class EnumConversion {
    var enums: Enums

    constructor (general: map<string, seq<string>>)
      ensures enums == map name | name in general :: FromList(general[name])
    {
      enums := map name | name in general :: FromList(general[name]);
    }

    method ConvertEnums(attr: Attr, name: string) returns (r: Result<Attr>)
      modifies this
      ensures (r, enums) == Convert(old(enums), attr, name)
      decreases attr, 1
    {
      match attr
      case Code(code) =>
        if name !in enums {
          return Err("enum not defined");
        }
        if code >= |enums[name].values| {
          return Err("out of bounds");
        }
        return Ok(attr);
      case Label(text) =>
        if name !in enums {
          enums := enums[name := EMPTY_TABLE];
        }
        var (pos, table) := enums[name].Ensure(text);
        enums := enums[name := table];
        assert enums == old(enums)[name := table];
        return Ok(Code(pos));
      case Nested(items) =>
        var converted := ConvertItems(attr, name);
        if converted.Err? {
          return Err(converted.error);
        }
        return Ok(Nested(converted.value));
      case Other =>
        return Err("wrong type");
    }

    method ConvertItems(attr: Attr, name: string) returns (r: Result<seq<Attr>>)
      requires attr.Nested?
      modifies this
      ensures (r, enums) == ConvertFrom(old(enums), attr, 0, name)
      decreases attr, 0
    {
      var items, i := [], 0;
      NothingBefore(ConvertFrom(enums, attr, 0, name));
      while i < |attr.items|
        invariant 0 <= i <= |attr.items| && |items| == i
        invariant ConvertFrom(old(enums), attr, 0, name) == After(items, ConvertFrom(enums, attr, i, name))
      {
        var item := ConvertEnums(attr.items[i], name);
        if item.Err? {
          return Err(item.error);
        }
        ghost var rest := ConvertFrom(enums, attr, i + 1, name);
        assert rest.0.Ok? ==> items + ([item.value] + rest.0.value) == (items + [item.value]) + rest.0.value;
        items := items + [item.value];
        i := i + 1;
      }
      assert items + [] == items;
      return Ok(items);
    }

    /** Converts all attributes; the tables then hold the lists that go into the dataset. */
    method Call(columns: seq<Column>) returns (r: Result<seq<Column>>)
      modifies this
      ensures (r, enums) == ConvertAll(old(enums), columns)
    {
      var done, i := [], 0;
      assert columns[0..] == columns;
      assert ConvertAll(enums, columns).0.Ok? ==>
        [] + ConvertAll(enums, columns).0.value == ConvertAll(enums, columns).0.value;
      while i < |columns|
        invariant 0 <= i <= |columns| && |done| == i
        invariant ConvertAll(old(enums), columns) == AfterColumns(done, ConvertAll(enums, columns[i..]))
      {
        assert columns[i..][0] == columns[i] && columns[i..][1..] == columns[i + 1..];
        var items := ConvertItems(Nested(columns[i].items), columns[i].enumName);
        if items.Err? {
          return Err(items.error);
        }
        var column := Column(columns[i].enumName, items.value);
        ghost var rest := ConvertAll(enums, columns[i + 1..]);
        assert rest.0.Ok? ==> done + ([column] + rest.0.value) == (done + [column]) + rest.0.value;
        done := done + [column];
        i := i + 1;
      }
      assert done + [] == done;
      return Ok(done);
    }
  }

  function After(items: seq<Attr>, rest: (Result<seq<Attr>>, Enums)): (Result<seq<Attr>>, Enums) {
    (if rest.0.Err? then rest.0 else Ok(items + rest.0.value), rest.1)
  }

  lemma NothingBefore(rest: (Result<seq<Attr>>, Enums))
    ensures After([], rest) == rest
  {
    assert rest.0.Ok? ==> [] + rest.0.value == rest.0.value;
  }

  function AfterColumns(done: seq<Column>, rest: (Result<seq<Column>>, Enums)): (Result<seq<Column>>, Enums) {
    (if rest.0.Err? then rest.0 else Ok(done + rest.0.value), rest.1)
  }

  // ----- what is accepted

  /** An integer or a string somewhere in an attribute, with the name of the attribute's enum. */
  datatype Leaf = Leaf(enumName: string, attr: Attr)

  /** All leaves in the order in which they stand there. */
  function Leaves(attr: Attr, name: string): seq<Leaf>
    decreases attr, 1
  {
    if attr.Nested? then LeavesFrom(attr, 0, name) else [Leaf(name, attr)]
  }

  function LeavesFrom(attr: Attr, i: nat, name: string): seq<Leaf>
    requires attr.Nested? && i <= |attr.items|
    decreases attr, 0, |attr.items| - i
  {
    if i == |attr.items| then [] else Leaves(attr.items[i], name) + LeavesFrom(attr, i + 1, name)
  }

  function AllLeaves(columns: seq<Column>): seq<Leaf>
    decreases |columns|
  {
    if columns == [] then []
    else LeavesFrom(Nested(columns[0].items), 0, columns[0].enumName) + AllLeaves(columns[1..])
  }

  /** The list of an enum, if it is defined. */
  function ListOf(enums: Enums, name: string): Option<seq<string>> {
    if name in enums then Some(enums[name].values) else None
  }

  /** The list after some leaves: it gets every string of the enum that it does not have yet, in the order in
      which these come, and is defined by the first one if it was not. */
  function ListAfter(enums: Enums, leaves: seq<Leaf>, name: string): Option<seq<string>> {
    if leaves == [] then ListOf(enums, name)
    else
      var n := |leaves| - 1;
      var list := ListAfter(enums, leaves[..n], name);
      if leaves[n].enumName != name || !leaves[n].attr.Label? then list
      else if list.None? then Some([leaves[n].attr.text])
      else if leaves[n].attr.text in list.value then list
      else Some(list.value + [leaves[n].attr.text])
  }

  /** A string is always accepted, an integer if the enum is defined and has that many values by then. */
  predicate IsAccepted(leaf: Leaf, list: Option<seq<string>>) {
    leaf.attr.Label? || (leaf.attr.Code? && list.Some? && leaf.attr.code < |list.value|)
  }

  predicate AllAccepted(enums: Enums, leaves: seq<Leaf>) {
    forall k :: 0 <= k < |leaves| ==> IsAccepted(leaves[k], ListAfter(enums, leaves[..k], leaves[k].enumName))
  }

  /** A table has positions for exactly the strings in its list. */
  ghost predicate Keyed(enums: Enums) {
    forall name, text :: name in enums ==> (text in enums[name].positions <==> text in enums[name].values)
  }

  /** The tables after the leaves. */
  ghost predicate HoldsLists(after: Enums, enums: Enums, leaves: seq<Leaf>) {
    Keyed(after) && forall name :: ListOf(after, name) == ListAfter(enums, leaves, name)
  }

  lemma {:induction false} ListsCompose(enums: Enums, between: Enums, a: seq<Leaf>, b: seq<Leaf>, name: string)
    requires HoldsLists(between, enums, a)
    ensures ListAfter(enums, a + b, name) == ListAfter(between, b, name)
  {
    if b == [] {
      assert a + b == a;
    } else {
      var n := |b| - 1;
      assert (a + b)[..|a| + n] == a + b[..n];
      ListsCompose(enums, between, a, b[..n], name);
    }
  }

  lemma AcceptedCompose(enums: Enums, between: Enums, a: seq<Leaf>, b: seq<Leaf>)
    requires HoldsLists(between, enums, a) && AllAccepted(enums, a)
    ensures AllAccepted(enums, a + b) <==> AllAccepted(between, b)
    ensures forall after :: HoldsLists(after, between, b) ==> HoldsLists(after, enums, a + b)
  {
    hide ListAfter, IsAccepted, Keyed;
    forall k | 0 <= k < |b|
      ensures ListAfter(enums, (a + b)[..|a| + k], b[k].enumName) == ListAfter(between, b[..k], b[k].enumName)
      ensures (a + b)[|a| + k] == b[k]
    {
      assert (a + b)[..|a| + k] == a + b[..k];
      ListsCompose(enums, between, a, b[..k], b[k].enumName);
    }
    forall k | 0 <= k < |a|
      ensures (a + b)[..k] == a[..k] && (a + b)[k] == a[k]
    {
    }
    forall name
      ensures ListAfter(enums, a + b, name) == ListAfter(between, b, name)
    {
      ListsCompose(enums, between, a, b, name);
    }
    if AllAccepted(enums, a + b) {
      forall k | 0 <= k < |b|
        ensures IsAccepted(b[k], ListAfter(between, b[..k], b[k].enumName))
      {
        assert IsAccepted((a + b)[|a| + k], ListAfter(enums, (a + b)[..|a| + k], (a + b)[|a| + k].enumName));
      }
    }
    if AllAccepted(between, b) {
      forall k | 0 <= k < |a + b|
        ensures IsAccepted((a + b)[k], ListAfter(enums, (a + b)[..k], (a + b)[k].enumName))
      {
        if k >= |a| {
          assert (a + b)[|a| + (k - |a|)] == b[k - |a|];
        }
      }
    }
  }

  lemma RejectedFirst(enums: Enums, a: seq<Leaf>, b: seq<Leaf>)
    requires !AllAccepted(enums, a)
    ensures !AllAccepted(enums, a + b)
  {
    hide ListAfter, IsAccepted;
    var k :| 0 <= k < |a| && !IsAccepted(a[k], ListAfter(enums, a[..k], a[k].enumName));
    assert (a + b)[k] == a[k] && (a + b)[..k] == a[..k];
  }

  lemma LeafIsAccepted(enums: Enums, attr: Attr, name: string)
    requires Keyed(enums) && !attr.Nested?
    ensures Convert(enums, attr, name).0.Ok? <==> AllAccepted(enums, [Leaf(name, attr)])
    ensures Convert(enums, attr, name).0.Ok? ==> HoldsLists(Convert(enums, attr, name).1, enums, [Leaf(name, attr)])
  {
    var leaves := [Leaf(name, attr)];
    assert leaves[..0] == [] && leaves[0].enumName == name;
    var list := ListOf(enums, name);
    forall other
      ensures ListAfter(enums, leaves[..0], other) == ListOf(enums, other)
      ensures ListAfter(enums, leaves, other)
           == if other != name || !attr.Label? then ListOf(enums, other)
              else if list.None? then Some([attr.text])
              else if attr.text in list.value then list else Some(list.value + [attr.text])
    {
    }
    assert AllAccepted(enums, leaves) <==> IsAccepted(leaves[0], list);
    if attr.Label? {
      var after := Convert(enums, attr, name).1;
      assert list.None? ==> after[name].values == [attr.text];
    }
  }

  /** Converting succeeds exactly when all leaves are accepted, and leaves the lists as these make them. */
  lemma {:induction false} AttrIsAccepted(enums: Enums, attr: Attr, name: string)
    requires Keyed(enums)
    ensures Convert(enums, attr, name).0.Ok? <==> AllAccepted(enums, Leaves(attr, name))
    ensures Convert(enums, attr, name).0.Ok? ==> HoldsLists(Convert(enums, attr, name).1, enums, Leaves(attr, name))
    decreases attr, 1
  {
    hide HoldsLists, AllAccepted, Keyed, ConvertFrom;
    if attr.Nested? {
      ItemsAreAccepted(enums, attr, 0, name);
    } else {
      LeafIsAccepted(enums, attr, name);
    }
  }

  lemma {:induction false} ItemsAreAccepted(enums: Enums, attr: Attr, i: nat, name: string)
    requires Keyed(enums) && attr.Nested? && i <= |attr.items|
    ensures ConvertFrom(enums, attr, i, name).0.Ok? <==> AllAccepted(enums, LeavesFrom(attr, i, name))
    ensures ConvertFrom(enums, attr, i, name).0.Ok? ==>
      HoldsLists(ConvertFrom(enums, attr, i, name).1, enums, LeavesFrom(attr, i, name))
    decreases attr, 0, |attr.items| - i
  {
    hide Convert, ListAfter, IsAccepted, Keyed, Leaves;
    if i == |attr.items| {
      NoLeaves(enums);
    } else {
      var a, b := Leaves(attr.items[i], name), LeavesFrom(attr, i + 1, name);
      AttrIsAccepted(enums, attr.items[i], name);
      if AllAccepted(enums, a) {
        var between := Convert(enums, attr.items[i], name).1;
        AcceptedCompose(enums, between, a, b);
        ItemsAreAccepted(between, attr, i + 1, name);
      } else {
        RejectedFirst(enums, a, b);
      }
    }
  }

  lemma NoLeaves(enums: Enums)
    requires Keyed(enums)
    ensures HoldsLists(enums, enums, []) && AllAccepted(enums, [])
  {
  }

  /** The conversion of a dataset succeeds exactly when every string or integer is accepted, in their order, and
      the list of each enum then has gained its new strings, each once. */
  lemma {:induction false} ConversionSucceeds(enums: Enums, columns: seq<Column>)
    requires Keyed(enums)
    ensures ConvertAll(enums, columns).0.Ok? <==> AllAccepted(enums, AllLeaves(columns))
    ensures ConvertAll(enums, columns).0.Ok? ==> HoldsLists(ConvertAll(enums, columns).1, enums, AllLeaves(columns))
    decreases |columns|
  {
    hide ConvertFrom, ListAfter, IsAccepted, Keyed, LeavesFrom;
    if columns == [] {
      NoLeaves(enums);
    } else {
      var attr, name := Nested(columns[0].items), columns[0].enumName;
      var a, b := LeavesFrom(attr, 0, name), AllLeaves(columns[1..]);
      ItemsAreAccepted(enums, attr, 0, name);
      if AllAccepted(enums, a) {
        var between := ConvertFrom(enums, attr, 0, name).1;
        AcceptedCompose(enums, between, a, b);
        ConversionSucceeds(between, columns[1..]);
      } else {
        RejectedFirst(enums, a, b);
      }
    }
  }

  lemma {:induction false} ListsAreKeyed(values: seq<string>)
    ensures forall text :: text in FromList(values).positions <==> text in FromList(values).values
    ensures forall text :: text in FromList(values).values <==> text in values
  {
    if values != [] {
      var n := |values| - 1;
      ListsAreKeyed(values[..n]);
      assert values == values[..n] + [values[n]];
    }
  }

  // ----- decoding

  lemma EnsureKeepsPositions(t: Table, text: string)
    requires t.Valid()
    ensures var (pos, next) := t.Ensure(text);
      && next.Valid() && t.values <= next.values && 0 <= pos < |next.values| && next.values[pos] == text
  {
    if text !in t.positions {
      assert forall i :: 0 <= i < |t.values| ==> t.values[i] != text;
      assert (t.values + [text])[|t.values|] == text;
    }
  }

  /** The list of values of an enum. */
  function ValuesOf(enums: Enums, name: string): seq<string> {
    if name in enums then enums[name].values else []
  }

  ghost predicate AllValid(enums: Enums) {
    forall name :: name in enums ==> enums[name].Valid()
  }

  /** Lists only grow, at their ends. */
  ghost predicate Grown(before: Enums, after: Enums) {
    forall name :: ValuesOf(before, name) <= ValuesOf(after, name)
  }

  /** The converted value stands for the original: a string's code is its place in the list, and a code
      is inside the list, unless it is negative. */
  predicate Decodes(attr: Attr, converted: Attr, values: seq<string>)
    decreases attr
  {
    match attr
    case Code(code) => converted == attr && code < |values|
    case Label(text) => converted.Code? && 0 <= converted.code < |values| && values[converted.code] == text
    case Nested(items) =>
      && converted.Nested? && |converted.items| == |items|
      && forall k :: 0 <= k < |items| ==> Decodes(items[k], converted.items[k], values)
    case Other => false
  }

  lemma {:induction false} DecodesStays(attr: Attr, converted: Attr, values: seq<string>, more: seq<string>)
    requires Decodes(attr, converted, values) && values <= more
    ensures Decodes(attr, converted, more)
    decreases attr
  {
    if attr.Nested? {
      forall k | 0 <= k < |attr.items|
        ensures Decodes(attr.items[k], converted.items[k], more)
      {
        DecodesStays(attr.items[k], converted.items[k], values, more);
      }
    }
  }

  lemma {:induction false} ConvertGrows(enums: Enums, attr: Attr, name: string)
    requires AllValid(enums)
    ensures AllValid(Convert(enums, attr, name).1) && Grown(enums, Convert(enums, attr, name).1)
    decreases attr, 1
  {
    if attr.Label? {
      var table := if name in enums then enums[name] else EMPTY_TABLE;
      EnsureKeepsPositions(table, attr.text);
    } else if attr.Nested? {
      ConvertFromGrows(enums, attr, 0, name);
    }
  }

  lemma {:induction false} ConvertFromGrows(enums: Enums, attr: Attr, i: nat, name: string)
    requires AllValid(enums) && attr.Nested? && i <= |attr.items|
    ensures AllValid(ConvertFrom(enums, attr, i, name).1) && Grown(enums, ConvertFrom(enums, attr, i, name).1)
    decreases attr, 0, |attr.items| - i
  {
    if i < |attr.items| {
      ConvertGrows(enums, attr.items[i], name);
      var grown := Convert(enums, attr.items[i], name).1;
      ConvertFromGrows(grown, attr, i + 1, name);
      GrownTwice(enums, grown, ConvertFrom(grown, attr, i + 1, name).1);
    }
  }

  lemma GrownTwice(a: Enums, b: Enums, c: Enums)
    requires Grown(a, b) && Grown(b, c)
    ensures Grown(a, c)
  {
  }

  lemma {:induction false} ConvertDecodes(enums: Enums, attr: Attr, name: string)
    requires AllValid(enums) && Convert(enums, attr, name).0.Ok?
    ensures Decodes(attr, Convert(enums, attr, name).0.value, ValuesOf(Convert(enums, attr, name).1, name))
    decreases attr, 1
  {
    hide Table.Ensure, Table.Valid, AllValid, ConvertFrom, Decodes;
    match attr
    case Code(code) => CodeDecodes(attr, ValuesOf(enums, name));
    case Label(_) => LabelDecodes(enums, attr, name);
    case Nested(items) =>
      ItemsDecode(enums, attr, 0, name);
      var (converted, grown) := ConvertFrom(enums, attr, 0, name);
      NestedDecodes(attr, converted.value, ValuesOf(grown, name));
    case Other =>
  }

  lemma CodeDecodes(attr: Attr, values: seq<string>)
    requires attr.Code? && attr.code < |values|
    ensures Decodes(attr, attr, values)
  {
  }

  lemma NestedDecodes(attr: Attr, converted: seq<Attr>, values: seq<string>)
    requires attr.Nested? && |converted| == |attr.items|
    requires forall k :: 0 <= k < |attr.items| ==> Decodes(attr.items[k], converted[k], values)
    ensures Decodes(attr, Nested(converted), values)
  {
  }

  lemma LabelDecodes(enums: Enums, attr: Attr, name: string)
    requires AllValid(enums) && attr.Label?
    ensures Convert(enums, attr, name).0.Ok?
    ensures Decodes(attr, Convert(enums, attr, name).0.value, ValuesOf(Convert(enums, attr, name).1, name))
  {
    hide Table.Ensure, Table.Valid;
    var table := if name in enums then enums[name] else EMPTY_TABLE;
    EmptyIsValid();
    EnsureKeepsPositions(table, attr.text);
  }

  lemma EmptyIsValid()
    ensures EMPTY_TABLE.Valid()
  {
  }

  lemma {:induction false} ItemsDecode(enums: Enums, attr: Attr, i: nat, name: string)
    requires AllValid(enums) && attr.Nested? && i <= |attr.items| && ConvertFrom(enums, attr, i, name).0.Ok?
    ensures var (items, grown) := ConvertFrom(enums, attr, i, name);
      forall k :: i <= k < |attr.items| ==> Decodes(attr.items[k], items.value[k - i], ValuesOf(grown, name))
    decreases attr, 0, |attr.items| - i
  {
    hide Table.Ensure, Table.Valid, AllValid, Convert, Decodes;
    if i < |attr.items| {
      var (first, grown) := Convert(enums, attr.items[i], name);
      ConvertDecodes(enums, attr.items[i], name);
      ConvertGrows(enums, attr.items[i], name);
      ItemsDecode(grown, attr, i + 1, name);
      ConvertFromGrows(grown, attr, i + 1, name);
      DecodesStays(attr.items[i], first.value, ValuesOf(grown, name),
                   ValuesOf(ConvertFrom(grown, attr, i + 1, name).1, name));
    }
  }

  /** All items of a column stand for the original ones. */
  predicate ColumnDecodes(column: Column, converted: Column, values: seq<string>) {
    && converted.enumName == column.enumName && |converted.items| == |column.items|
    && forall k :: 0 <= k < |column.items| ==> Decodes(column.items[k], converted.items[k], values)
  }

  lemma ColumnDecodesStays(column: Column, converted: Column, values: seq<string>, more: seq<string>)
    requires ColumnDecodes(column, converted, values) && values <= more
    ensures ColumnDecodes(column, converted, more)
  {
    forall k | 0 <= k < |column.items|
      ensures Decodes(column.items[k], converted.items[k], more)
    {
      DecodesStays(column.items[k], converted.items[k], values, more);
    }
  }

  lemma {:induction false} ConvertAllGrows(enums: Enums, columns: seq<Column>)
    requires AllValid(enums)
    ensures AllValid(ConvertAll(enums, columns).1) && Grown(enums, ConvertAll(enums, columns).1)
    decreases |columns|
  {
    if columns != [] {
      var attr, name := Nested(columns[0].items), columns[0].enumName;
      ConvertFromGrows(enums, attr, 0, name);
      var grown := ConvertFrom(enums, attr, 0, name).1;
      ConvertAllGrows(grown, columns[1..]);
      GrownTwice(enums, grown, ConvertAll(grown, columns[1..]).1);
    }
  }

  lemma FirstColumnDecodes(enums: Enums, columns: seq<Column>)
    requires AllValid(enums) && ConvertAll(enums, columns).0.Ok? && columns != []
    ensures var (converted, end) := ConvertAll(enums, columns);
      ColumnDecodes(columns[0], converted.value[0], ValuesOf(end, columns[0].enumName))
  {
    hide Table.Ensure, Table.Valid, AllValid, Convert, ConvertFrom, Decodes;
    var attr, name := Nested(columns[0].items), columns[0].enumName;
    var (first, grown) := ConvertFrom(enums, attr, 0, name);
    ConvertFromGrows(enums, attr, 0, name);
    ItemsDecode(enums, attr, 0, name);
    ConvertAllGrows(grown, columns[1..]);
    ColumnDecodesStays(columns[0], Column(name, first.value), ValuesOf(grown, name),
                       ValuesOf(ConvertAll(grown, columns[1..]).1, name));
  }

  /** After all attributes are converted, the final list of every enum has the original string at each
      code that was stored for it, however deeply the values are nested. */
  lemma {:induction false} DecodableAtTheEnd(enums: Enums, columns: seq<Column>, i: nat)
    requires AllValid(enums) && ConvertAll(enums, columns).0.Ok? && i < |columns|
    ensures var (converted, end) := ConvertAll(enums, columns);
      ColumnDecodes(columns[i], converted.value[i], ValuesOf(end, columns[i].enumName))
    decreases |columns|
  {
    hide Table.Ensure, Table.Valid, AllValid, Convert, ConvertFrom, ColumnDecodes;
    if i == 0 {
      FirstColumnDecodes(enums, columns);
    } else {
      var attr, name := Nested(columns[0].items), columns[0].enumName;
      ConvertFromGrows(enums, attr, 0, name);
      DecodableAtTheEnd(ConvertFrom(enums, attr, 0, name).1, columns[1..], i - 1);
    }
  }

  // ----- which lists can be decoded

  predicate NoDuplicates(values: seq<string>) {
    forall i, j :: 0 <= i < j < |values| ==> values[i] != values[j]
  }

  lemma {:induction false} FromDistinct(values: seq<string>)
    requires NoDuplicates(values)
    ensures FromList(values).values == values && FromList(values).Valid()
    decreases |values|
  {
    hide Table.Valid;
    EmptyIsValid();
    if values != [] {
      var n := |values| - 1;
      FromDistinct(values[..n]);
      assert values == values[..n] + [values[n]];
      AddNew(FromList(values[..n]), values[n]);
    }
  }

  lemma AddNew(t: Table, v: string)
    requires t.Valid() && v !in t.values
    ensures v !in t.positions && Table(t.values + [v], t.positions[v := |t.values|]).Valid()
  {
    EnsureKeepsPositions(t, v);
  }

  /** Keys are distinct, and positions are the last places in the list. */
  lemma {:induction false} FromListPositions(values: seq<string>)
    ensures var t := FromList(values);
      && |t.values| <= |values| && NoDuplicates(t.values)
      && (forall v :: v in t.positions <==> v in values) && (forall v :: v in t.values <==> v in values)
      && forall v :: v in t.positions ==>
        0 <= t.positions[v] < |values| && forall k :: t.positions[v] < k < |values| ==> values[k] != v
    decreases |values|
  {
    if values != [] {
      var n := |values| - 1;
      FromListPositions(values[..n]);
      assert values == values[..n] + [values[n]];
    }
  }

  /** A value is among the keys no later than in the list. */
  lemma {:induction false} FirstPlace(values: seq<string>, i: nat) returns (q: nat)
    requires i < |values|
    ensures q <= i && q < |FromList(values).values| && FromList(values).values[q] == values[i]
    decreases |values|
  {
    var n := |values| - 1;
    FromListPositions(values[..n]);
    var front := FromList(values[..n]);
    if i < n {
      q := FirstPlace(values[..n], i);
    } else if values[n] in front.positions {
      q :| 0 <= q < |front.values| && front.values[q] == values[n];
    } else {
      q := |front.values|;
    }
  }

  /** The position that a table has for a value is where a list has it. */
  predicate DecodedBy(t: Table, v: string, list: seq<string>) {
    v in t.positions && 0 <= t.positions[v] < |list| && list[t.positions[v]] == v
  }

  /** All values of an enum are decoded to themselves, by every list that grows from it, exactly when
      none occurs twice: a value that does gets a position at which no such list can hold it. */
  lemma DecodableLists(values: seq<string>)
    ensures var t := FromList(values);
      NoDuplicates(values) <==>
      forall v, more: seq<string> :: v in values && t.values <= more && NoDuplicates(more) ==> DecodedBy(t, v, more)
  {
    var t := FromList(values);
    FromListPositions(values);
    if NoDuplicates(values) {
      FromDistinct(values);
    } else {
      var i, j :| 0 <= i < j < |values| && values[i] == values[j];
      var q := FirstPlace(values, i);
      assert t.positions[values[i]] >= j > q;
      assert !DecodedBy(t, values[i], t.values);
    }
  }
}
