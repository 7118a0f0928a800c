/** Model configurations in the database: references to datasets and attributes are taken out of the
    configuration and stored as paths, and put back when the configuration is loaded. */
module ConfigRefs {
  import opened Cells
  import opened JsonPaths

  /** A decoded JSON value; objects have string keys, although an int could be stored as a key too. */
  datatype Json = Null | Leaf(text: string) | List(items: seq<Json>) | Object(entries: map<Step, Json>)

  datatype Reference = Reference(path: Path, value: Json)

  /** Where an index points to; a negative one counts from the end. */
  function Position(index: int, size: nat): int {
    if index < 0 then index + size else index
  }

  /** obj[step] */
  function Child(obj: Json, step: Step): Result<Json> {
    match obj
    case Object(entries) => if step in entries then Ok(entries[step]) else Err("KeyError")
    case List(items) =>
      if step.At? && 0 <= Position(step.index, |items|) < |items| then Ok(items[Position(step.index, |items|)])
      else Err("IndexError")
    case _ => Err("TypeError")
  }

  /** obj[step] = value */
  function WithChild(obj: Json, step: Step, value: Json): Result<Json> {
    match obj
    case Object(entries) => Ok(Object(entries[step := value]))
    case List(items) =>
      if step.At? && 0 <= Position(step.index, |items|) < |items|
      then Ok(List(items[Position(step.index, |items|) := value]))
      else Err("IndexError")
    case _ => Err("TypeError")
  }

  /** Walks down the path and assigns at its end. */
  function SetAt(obj: Json, path: Path, value: Json): Result<Json>
    decreases path
  {
    if path == [] then Ok(obj)
    else if |path| == 1 then WithChild(obj, path[0], value)
    else
      var child := Child(obj, path[0]);
      if child.Err? then child
      else
        var changed := SetAt(child.value, path[1..], value);
        if changed.Err? then changed else WithChild(obj, path[0], changed.value)
  }

  function Lookup(obj: Json, path: Path): Result<Json>
    decreases path
  {
    if path == [] then Ok(obj)
    else
      var child := Child(obj, path[0]);
      if child.Err? then child else Lookup(child.value, path[1..])
  }

  function SetAll(obj: Json, refs: seq<Reference>): Result<Json>
    decreases |refs|
  {
    if refs == [] then Ok(obj)
    else
      var first := SetAt(obj, refs[0].path, refs[0].value);
      if first.Err? then first else SetAll(first.value, refs[1..])
  }

  function Unset(refs: seq<Reference>): (r: seq<Reference>)
    ensures |r| == |refs|
    ensures forall k :: 0 <= k < |refs| ==> r[k] == Reference(refs[k].path, Null)
  {
    seq(|refs|, k requires 0 <= k < |refs| => Reference(refs[k].path, Null))
  }

  const NAME := Key("name")
  const TYPE := Key("type")

  function WithoutNameAndType(config: Json): Json {
    if config.Object? then Object(config.entries - {NAME, TYPE}) else config
  }

  /** The configuration as it is stored, and the one that is rebuilt from it. */
  function Stripped(config: Json, refs: seq<Reference>): Result<Json> {
    SetAll(WithoutNameAndType(config), Unset(refs))
  }

  method StrippedConfig(config: Json, refs: seq<Reference>) returns (r: Result<Json>)
    ensures r == Stripped(config, refs)
  {
    var result := WithoutNameAndType(config);
    assert Unset(refs)[0..] == Unset(refs);
    var k := 0;
    while k < |refs|
      invariant 0 <= k <= |refs| && SetAll(result, Unset(refs)[k..]) == Stripped(config, refs)
    {
      assert Unset(refs)[k..][0] == Reference(refs[k].path, Null) && Unset(refs)[k..][1..] == Unset(refs)[k + 1..];
      var changed := SetAt(result, refs[k].path, Null);
      if changed.Err? {
        return changed;
      }
      result := changed.value;
      k := k + 1;
    }
    return Ok(result);
  }

  method PopulatedConfig(config: Json, refs: seq<Reference>) returns (r: Result<Json>)
    ensures r == SetAll(config, refs)
  {
    var result := config;
    assert refs[0..] == refs;
    var k := 0;
    while k < |refs|
      invariant 0 <= k <= |refs| && SetAll(result, refs[k..]) == SetAll(config, refs)
    {
      assert refs[k..][0] == refs[k] && refs[k..][1..] == refs[k + 1..];
      var changed := SetAt(result, refs[k].path, refs[k].value);
      if changed.Err? {
        return changed;
      }
      result := changed.value;
      k := k + 1;
    }
    return Ok(result);
  }

  // ----- what a path reaches

  /** The step leads to a child: a key that is there, or an index of which a negative one counts from the end. */
  predicate HasChild(obj: Json, step: Step) {
    match obj
    case Object(entries) => step in entries
    case List(items) => step.At? && -|items| <= step.index < |items|
    case _ => false
  }

  lemma ChildIsThere(obj: Json, step: Step)
    ensures Child(obj, step).Ok? <==> HasChild(obj, step)
    ensures HasChild(obj, step) && obj.Object? ==> Child(obj, step).value == obj.entries[step]
    ensures HasChild(obj, step) && obj.List? && step.index >= 0 ==> Child(obj, step).value == obj.items[step.index]
    ensures HasChild(obj, step) && obj.List? && step.index < 0 ==>
      Child(obj, step).value == obj.items[|obj.items| + step.index]
  {
  }

  /** What is assigned is there afterwards; only objects take new keys. */
  lemma AssignedChild(obj: Json, step: Step, value: Json)
    ensures WithChild(obj, step, value).Ok? <==> obj.Object? || HasChild(obj, step)
    ensures WithChild(obj, step, value).Ok? ==> Child(WithChild(obj, step, value).value, step) == Ok(value)
  {
  }

  /** An assignment succeeds exactly when the path leads to an object, or to a list that has the position, and
      then the value is at the path. */
  lemma {:induction false} SetSucceeds(obj: Json, path: Path, value: Json)
    requires path != []
    ensures SetAt(obj, path, value).Ok? <==>
      && var parent := Lookup(obj, path[..|path| - 1]);
         parent.Ok? && (parent.value.Object? || HasChild(parent.value, path[|path| - 1]))
    ensures SetAt(obj, path, value).Ok? ==> Lookup(SetAt(obj, path, value).value, path) == Ok(value)
    decreases path
  {
    hide Child, WithChild;
    ChildIsThere(obj, path[0]);
    if |path| == 1 {
      AssignedChild(obj, path[0], value);
      assert path[1..] == [];
    } else if HasChild(obj, path[0]) {
      var child := Child(obj, path[0]).value;
      SetSucceeds(child, path[1..], value);
      assert path[..|path| - 1][1..] == path[1..][..|path| - 2];
      if SetAt(child, path[1..], value).Ok? {
        AssignedChild(obj, path[0], SetAt(child, path[1..], value).value);
      }
    }
  }

  // ----- setting values at different places

  predicate FromFront(path: Path) {
    forall k :: 0 <= k < |path| && path[k].At? ==> path[k].index >= 0
  }

  predicate IsLeaf(v: Json) {
    v.Null? || v.Leaf?
  }

  /** The paths part somewhere. */
  predicate Apart(p: Path, q: Path)
    decreases p
  {
    p != [] && q != [] && (p[0] != q[0] || Apart(p[1..], q[1..]))
  }

  lemma {:induction false} DifferentLeavesAreApart(obj: Json, p: Path, q: Path)
    requires p != q && Lookup(obj, p).Ok? && IsLeaf(Lookup(obj, p).value) && Lookup(obj, q).Ok?
    requires IsLeaf(Lookup(obj, q).value)
    ensures Apart(p, q)
    decreases p
  {
    if p != [] && q != [] && p[0] == q[0] {
      DifferentLeavesAreApart(Child(obj, p[0]).value, p[1..], q[1..]);
    }
  }

  lemma ChildOfChanged(obj: Json, step: Step, other: Step, value: Json)
    requires Child(obj, step).Ok? && FromFront([step]) && FromFront([other])
    ensures WithChild(obj, step, value).Ok?
    ensures Child(WithChild(obj, step, value).value, other) == if other == step then Ok(value) else Child(obj, other)
    ensures WithChild(obj, step, Child(obj, step).value) == Ok(obj)
  {
    assert [step][0] == step && [other][0] == other;
    match obj
    case Object(entries) => assert entries[step := entries[step]] == entries;
    case List(items) =>
      var i := Position(step.index, |items|);
      assert items[i := items[i]] == items;
  }

  lemma ChangeTwice(obj: Json, step: Step, other: Step, v: Json, w: Json)
    requires Child(obj, step).Ok? && Child(obj, other).Ok? && FromFront([step]) && FromFront([other])
    ensures WithChild(obj, step, v).Ok? && WithChild(obj, other, w).Ok?
    ensures WithChild(WithChild(obj, step, v).value, step, w) == WithChild(obj, step, w)
    ensures step != other ==>
      WithChild(WithChild(obj, step, v).value, other, w) == WithChild(WithChild(obj, other, w).value, step, v)
  {
    assert [step][0] == step && [other][0] == other;
    match obj
    case Object(entries) =>
      assert entries[step := v][step := w] == entries[step := w];
      assert step != other ==> entries[step := v][other := w] == entries[other := w][step := v];
    case List(items) =>
      var i, j := Position(step.index, |items|), Position(other.index, |items|);
      assert items[i := v][i := w] == items[i := w];
      assert i != j ==> items[i := v][j := w] == items[j := w][i := v];
  }

  lemma FirstFromFront(p: Path)
    requires FromFront(p) && p != []
    ensures FromFront([p[0]]) && FromFront(p[1..])
  {
  }

  /** After an assignment the value is there, and what lies apart has not changed. */
  lemma {:induction false} SetThenLookup(obj: Json, p: Path, v: Json, q: Path)
    requires p != [] && Lookup(obj, p).Ok? && FromFront(p) && FromFront(q)
    ensures SetAt(obj, p, v).Ok? && Lookup(SetAt(obj, p, v).value, p) == Ok(v)
    ensures Apart(p, q) ==> Lookup(SetAt(obj, p, v).value, q) == Lookup(obj, q)
    decreases p
  {
    hide Child, WithChild;
    FirstFromFront(p);
    var child := Child(obj, p[0]).value;
    var inner := if |p| == 1 then Ok(v) else SetAt(child, p[1..], v);
    if |p| > 1 {
      SetThenLookup(child, p[1..], v, if q == [] then [] else q[1..]);
    }
    ChildOfChanged(obj, p[0], p[0], inner.value);
    if q != [] {
      FirstFromFront(q);
      ChildOfChanged(obj, p[0], q[0], inner.value);
      var r := SetAt(obj, p, v).value;
      assert r == WithChild(obj, p[0], inner.value).value;
      if p[0] == q[0] && Apart(p, q) {
        assert Apart(p[1..], q[1..]) && |p| > 1;
        assert Lookup(r, q) == Lookup(inner.value, q[1..]);
      }
    }
  }

  /** Assigning twice at one place is assigning the second value; assigning what is there is nothing. */
  lemma {:induction false} SetTwice(obj: Json, p: Path, v: Json, w: Json)
    requires p != [] && Lookup(obj, p).Ok? && FromFront(p)
    ensures SetAt(obj, p, v).Ok? && SetAt(SetAt(obj, p, v).value, p, w) == SetAt(obj, p, w)
    ensures SetAt(obj, p, Lookup(obj, p).value) == Ok(obj)
    decreases p
  {
    hide Child, WithChild;
    FirstFromFront(p);
    SetThenLookup(obj, p, v, p);
    var child := Child(obj, p[0]).value;
    if |p| == 1 {
      ChangeTwice(obj, p[0], p[0], v, w);
      ChildOfChanged(obj, p[0], p[0], v);
    } else {
      SetTwice(child, p[1..], v, w);
      SetThenLookup(child, p[1..], w, p[1..]);
      var a, b := SetAt(child, p[1..], v).value, SetAt(child, p[1..], w).value;
      ChangeTwice(obj, p[0], p[0], a, b);
      ChildOfChanged(obj, p[0], p[0], a);
    }
  }

  /** Assignments at places apart commute. */
  lemma {:induction false} SetsCommute(obj: Json, p: Path, v: Json, q: Path, w: Json)
    requires Lookup(obj, p).Ok? && Lookup(obj, q).Ok? && Apart(p, q) && FromFront(p) && FromFront(q)
    ensures SetAt(obj, p, v).Ok? && SetAt(obj, q, w).Ok?
    ensures SetAt(SetAt(obj, p, v).value, q, w) == SetAt(SetAt(obj, q, w).value, p, v)
    decreases p
  {
    hide Child, WithChild;
    FirstFromFront(p);
    FirstFromFront(q);
    SetThenLookup(obj, p, v, q);
    SetThenLookup(obj, q, w, p);
    var x, y := Child(obj, p[0]).value, Child(obj, q[0]).value;
    var a := if |p| == 1 then Ok(v) else SetAt(x, p[1..], v);
    var b := if |q| == 1 then Ok(w) else SetAt(y, q[1..], w);
    if |p| > 1 { SetThenLookup(x, p[1..], v, p[1..]); }
    if |q| > 1 { SetThenLookup(y, q[1..], w, q[1..]); }
    ChildOfChanged(obj, p[0], q[0], a.value);
    ChildOfChanged(obj, q[0], p[0], b.value);
    if p[0] != q[0] {
      ChangeTwice(obj, p[0], q[0], a.value, b.value);
    } else {
      SetsCommute(x, p[1..], v, q[1..], w);
      SetThenLookup(x, p[1..], v, q[1..]);
      SetThenLookup(a.value, q[1..], w, q[1..]);
      var c := SetAt(a.value, q[1..], w).value;
      ChangeTwice(obj, p[0], p[0], a.value, c);
      ChangeTwice(obj, p[0], p[0], b.value, c);
    }
  }

  // ----- taking out and putting back

  predicate PointsToLeaf(obj: Json, path: Path) {
    path != [] && FromFront(path) && Lookup(obj, path).Ok? && IsLeaf(Lookup(obj, path).value)
  }

  /** All references, with leaves as values, point to leaves. */
  predicate PointToLeaves(obj: Json, refs: seq<Reference>) {
    forall k :: 0 <= k < |refs| ==> PointsToLeaf(obj, refs[k].path) && IsLeaf(refs[k].value)
  }

  predicate DistinctPaths(refs: seq<Reference>) {
    forall j, k :: 0 <= j < k < |refs| ==> refs[j].path != refs[k].path
  }

  lemma LeafStays(obj: Json, p: Path, v: Json, q: Path)
    requires PointsToLeaf(obj, p) && PointsToLeaf(obj, q) && IsLeaf(v)
    ensures SetAt(obj, p, v).Ok? && PointsToLeaf(SetAt(obj, p, v).value, q)
    ensures p != q ==> Lookup(SetAt(obj, p, v).value, q) == Lookup(obj, q)
  {
    SetThenLookup(obj, p, v, q);
    if p != q {
      DifferentLeavesAreApart(obj, p, q);
    }
  }

  lemma AllLeavesStay(obj: Json, p: Path, v: Json, refs: seq<Reference>)
    requires PointsToLeaf(obj, p) && PointToLeaves(obj, refs) && IsLeaf(v)
    ensures SetAt(obj, p, v).Ok? && PointToLeaves(SetAt(obj, p, v).value, refs)
  {
    hide PointsToLeaf;
    LeafStays(obj, p, v, p);
    forall k | 0 <= k < |refs|
      ensures PointsToLeaf(SetAt(obj, p, v).value, refs[k].path)
    {
      LeafStays(obj, p, v, refs[k].path);
    }
  }

  /** An assignment elsewhere can be made before all others just as well. */
  lemma {:induction false} SetAllThenSet(obj: Json, refs: seq<Reference>, p: Path, v: Json)
    requires PointToLeaves(obj, refs) && PointsToLeaf(obj, p) && IsLeaf(v)
    requires forall k :: 0 <= k < |refs| ==> refs[k].path != p
    ensures SetAll(obj, refs).Ok? && SetAt(obj, p, v).Ok?
    ensures Lookup(SetAll(obj, refs).value, p) == Lookup(obj, p)
    ensures SetAt(SetAll(obj, refs).value, p, v) == SetAll(SetAt(obj, p, v).value, refs)
    decreases |refs|
  {
    LeafStays(obj, p, v, p);
    if refs != [] {
      var r := refs[0];
      LeafStays(obj, r.path, r.value, p);
      AllLeavesStay(obj, r.path, r.value, refs[1..]);
      SetAllThenSet(SetAt(obj, r.path, r.value).value, refs[1..], p, v);
      DifferentLeavesAreApart(obj, r.path, p);
      SetsCommute(obj, r.path, r.value, p, v);
      LeafStays(obj, p, v, r.path);
    }
  }

  lemma UnsetFirst(refs: seq<Reference>)
    requires refs != []
    ensures Unset(refs)[0] == Reference(refs[0].path, Null) && Unset(refs)[1..] == Unset(refs[1..])
  {
  }

  lemma {:induction false} UnsetThenSet(obj: Json, refs: seq<Reference>)
    requires PointToLeaves(obj, refs) && DistinctPaths(refs)
    requires forall k :: 0 <= k < |refs| ==> Lookup(obj, refs[k].path) == Ok(refs[k].value)
    ensures SetAll(obj, Unset(refs)).Ok? && SetAll(SetAll(obj, Unset(refs)).value, refs) == Ok(obj)
    decreases |refs|
  {
    if refs != [] {
      var r, rest := refs[0], refs[1..];
      UnsetFirst(refs);
      AllLeavesStay(obj, r.path, Null, rest);
      LeafStays(obj, r.path, Null, r.path);
      var emptied := SetAt(obj, r.path, Null).value;
      SetAllThenSet(emptied, Unset(rest), r.path, r.value);
      SetTwice(obj, r.path, Null, r.value);
      UnsetThenSet(obj, rest);
    }
  }

  /** Every reference finds its value in the populated configuration. */
  lemma {:induction false} PopulatedHolds(obj: Json, refs: seq<Reference>, k: nat)
    requires PointToLeaves(obj, refs) && DistinctPaths(refs) && k < |refs|
    ensures SetAll(obj, refs).Ok? && Lookup(SetAll(obj, refs).value, refs[k].path) == Ok(refs[k].value)
    decreases |refs|
  {
    var r, rest := refs[0], refs[1..];
    AllLeavesStay(obj, r.path, r.value, rest);
    LeafStays(obj, r.path, r.value, r.path);
    var next := SetAt(obj, r.path, r.value).value;
    if k == 0 {
      SetThenLookup(obj, r.path, r.value, r.path);
      SetAllThenSet(next, rest, r.path, r.value);
    } else {
      PopulatedHolds(next, rest, k - 1);
    }
  }

  /** Stripping a configuration of its references and populating it again gives the configuration back, but
      for its name and type, exactly when the references hold the values that are at their paths. */
  lemma StripAndPopulate(full: Json, config: Json, refs: seq<Reference>)
    requires full.Object? && config == Object(full.entries - {Key("name"), Key("type")})
    requires PointToLeaves(config, refs) && DistinctPaths(refs)
    ensures Stripped(full, refs).Ok?
    ensures SetAll(Stripped(full, refs).value, refs) == Ok(config)
       <==> forall k :: 0 <= k < |refs| ==> Lookup(config, refs[k].path) == Ok(refs[k].value)
  {
    StrippedLeaves(config, refs, refs);
    if forall k :: 0 <= k < |refs| ==> Lookup(config, refs[k].path) == Ok(refs[k].value) {
      UnsetThenSet(config, refs);
    } else if SetAll(Stripped(full, refs).value, refs) == Ok(config) {
      forall k | 0 <= k < |refs|
        ensures Lookup(config, refs[k].path) == Ok(refs[k].value)
      {
        PopulatedHolds(Stripped(full, refs).value, refs, k);
      }
    }
  }

  lemma {:induction false} StrippedLeaves(obj: Json, unset: seq<Reference>, refs: seq<Reference>)
    requires PointToLeaves(obj, unset) && PointToLeaves(obj, refs)
    ensures SetAll(obj, Unset(unset)).Ok? && PointToLeaves(SetAll(obj, Unset(unset)).value, refs)
    decreases |unset|
  {
    if unset != [] {
      UnsetFirst(unset);
      AllLeavesStay(obj, unset[0].path, Null, unset[1..]);
      AllLeavesStay(obj, unset[0].path, Null, refs);
      StrippedLeaves(SetAt(obj, unset[0].path, Null).value, unset[1..], refs);
    }
  }

  // ----- through the database

  datatype Row = Row(path: string, value: Json)

  function Rows(refs: seq<Reference>): (rows: seq<Row>)
    ensures |rows| == |refs|
  {
    seq(|refs|, k requires 0 <= k < |refs| => Row("$" + StepsText(refs[k].path), refs[k].value))
  }

  function FromRows(rows: seq<Row>): Result<seq<Reference>> {
    if rows == [] then Ok([])
    else
      var path, front := ParsePath(rows[|rows| - 1].path), FromRows(rows[..|rows| - 1]);
      if path.Err? || front.Err? then Err("Invalid path")
      else Ok(front.value + [Reference(path.value, rows[|rows| - 1].value)])
  }

  /** References come back from their rows exactly when their paths can be written as text. */
  lemma {:induction false} RowsRoundTrip(refs: seq<Reference>)
    ensures FromRows(Rows(refs)) == Ok(refs) <==> forall k :: 0 <= k < |refs| ==> Printable(refs[k].path)
  {
    hide Printable, ParsePath, StepsText;
    if refs != [] {
      var n := |refs| - 1;
      RowsRoundTrip(refs[..n]);
      PathRoundTrip(refs[n].path);
      assert Rows(refs)[..n] == Rows(refs[..n]);
      var front, path := FromRows(Rows(refs[..n])), ParsePath("$" + StepsText(refs[n].path));
      assert refs == refs[..n] + [refs[n]];
      if FromRows(Rows(refs)) == Ok(refs) {
        assert (front.value + [Reference(path.value, refs[n].value)])[..|front.value|] == front.value;
        assert refs[..n] == front.value && refs[n] == Reference(path.value, refs[n].value);
      }
      assert (forall k :: 0 <= k < |refs| ==> Printable(refs[k].path))
        <==> (forall k :: 0 <= k < n ==> Printable(refs[..n][k].path)) && Printable(refs[n].path);
    }
  }

  /** A configuration whose references point to strings, under identifiers and positions from the
      front, is loaded from the database as it was stored, but for its name and type. */
  lemma StoreAndLoad(full: Json, config: Json, refs: seq<Reference>)
    requires full.Object? && config == Object(full.entries - {Key("name"), Key("type")})
    requires PointToLeaves(config, refs) && DistinctPaths(refs)
    requires forall k :: 0 <= k < |refs| ==>
      Lookup(config, refs[k].path) == Ok(refs[k].value) && Printable(refs[k].path)
    ensures Stripped(full, refs).Ok? && FromRows(Rows(refs)).Ok?
    ensures SetAll(Stripped(full, refs).value, FromRows(Rows(refs)).value) == Ok(config)
  {
    StripAndPopulate(full, config, refs);
    RowsRoundTrip(refs);
  }
}
