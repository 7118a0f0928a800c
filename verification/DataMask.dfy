/** Data masks: which part of the world state a model publishes or subscribes to. A mask is nested like
    the data, with None (anything) at any level and a list of attribute names at the innermost one.
    Of a list only its members are ever asked for, so that it is modelled as a set. */
module DataMask {
  import opened Cells

  datatype Mask = Anything | Dict(parts: map<string, Mask>) | Names(names: set<string>)

  /** Nested dictionaries. */
  datatype Data<V> = Leaf(value: V) | Node(children: map<string, Data<V>>)

  const ID := "id"
  const DEPTH := 3

  /** The shape of a mask: dictionaries in a dictionary, and lists in those; nothing is empty. */
  predicate ShapedFrom(m: Mask, depth: nat)
    requires depth < DEPTH
    decreases m
  {
    match m
    case Anything => true
    case Dict(parts) =>
      parts != map[] && depth < DEPTH - 1 && forall k :: k in parts ==> ShapedFrom(parts[k], depth + 1)
    case Names(names) => names != {} && depth == DEPTH - 1
  }

  /** Besides, the empty dictionary is valid at the top. */
  predicate ValidMask(m: Mask) {
    m == Dict(map[]) || ShapedFrom(m, 0)
  }

  /** Keeps the part of the data that the mask asks for. A list of attributes always keeps the ids.
      It is an error when a mask goes deeper than the data. */
  function Filter<V>(d: Data<V>, m: Mask): Result<Data<V>>
    decreases m
  {
    match m
    case Anything => Ok(d)
    case Names(names) =>
      if d.Leaf? then Err("'dict' expected")
      else Ok(Node(map k | k in d.children && (k in names || k == ID) :: d.children[k]))
    case Dict(parts) =>
      if d.Leaf? || exists k :: k in d.children && k in parts && Filter(d.children[k], parts[k]).Err?
      then Err("'dict' expected")
      else Ok(Node(map k | k in d.children && k in parts :: Filter(d.children[k], parts[k]).value))
  }

  predicate Overlap(pub: Mask, sub: Mask, depth: nat)
    requires depth < DEPTH && ShapedFrom(pub, depth) && ShapedFrom(sub, depth)
    decreases pub
  {
    if pub.Anything? || sub.Anything? then true
    else if pub.Names? then pub.names * sub.names != {}
    else exists k :: k in pub.parts && k in sub.parts && Overlap(pub.parts[k], sub.parts[k], depth + 1)
  }

  /** Whether anything that is published is subscribed to, for valid masks. */
  predicate MasksOverlap(pub: Mask, sub: Mask)
    requires ValidMask(pub) && ValidMask(sub)
  {
    pub != Dict(map[]) && sub != Dict(map[]) && Overlap(pub, sub, 0)
  }

  // ----- what masks mean

  type Path = seq<string>

  function Lookup<V>(d: Data<V>, p: Path): Option<Data<V>>
    decreases p
  {
    if p == [] then Some(d)
    else if d.Leaf? || p[0] !in d.children then None
    else Lookup(d.children[p[0]], p[1..])
  }

  /** The mask names the path, or a part of the world that the path lies in. */
  predicate Lists(m: Mask, p: Path)
    decreases m
  {
    match m
    case Anything => true
    case Names(names) => p != [] && p[0] in names
    case Dict(parts) => p != [] && p[0] in parts && Lists(parts[p[0]], p[1..])
  }

  /** Along with the listed attributes goes their id. */
  predicate Allows(m: Mask, p: Path)
    decreases m
  {
    match m
    case Anything => true
    case Names(names) => p != [] && (p[0] in names || p[0] == ID)
    case Dict(parts) => p != [] && p[0] in parts && Allows(parts[p[0]], p[1..])
  }

  /** Filtering keeps exactly what the mask allows. */
  lemma {:induction false} FilterKeepsAllowed<V>(d: Data<V>, m: Mask, p: Path)
    requires Filter(d, m).Ok? && |p| == DEPTH
    requires ValidMask(m)
    ensures Lookup(Filter(d, m).value, p) == if Allows(m, p) then Lookup(d, p) else None
  {
    if m != Dict(map[]) {
      FilterKeepsBelow(d, m, p, 0);
    }
  }

  lemma {:induction false} FilterKeepsBelow<V>(d: Data<V>, m: Mask, p: Path, depth: nat)
    requires Filter(d, m).Ok? && depth < DEPTH && |p| == DEPTH - depth && ShapedFrom(m, depth)
    ensures Lookup(Filter(d, m).value, p) == if Allows(m, p) then Lookup(d, p) else None
    decreases m
  {
    if m.Dict? && p[0] in m.parts && d.Node? && p[0] in d.children {
      FilterKeepsBelow(d.children[p[0]], m.parts[p[0]], p[1..], depth + 1);
    }
  }

  // ----- overlap

  /** A path that a mask lists. */
  lemma {:induction false} ListedPath(m: Mask, depth: nat) returns (p: Path)
    requires depth < DEPTH && ShapedFrom(m, depth)
    ensures |p| == DEPTH - depth && Lists(m, p)
    decreases m
  {
    match m
    case Anything => p := seq(DEPTH - depth, _ => "");
    case Names(names) =>
      var name :| name in names;
      p := [name];
    case Dict(parts) =>
      var k :| k in parts;
      var rest := ListedPath(parts[k], depth + 1);
      p := [k] + rest;
      assert p[1..] == rest;
  }

  lemma {:induction false} OverlapHasPath(pub: Mask, sub: Mask, depth: nat) returns (p: Path)
    requires depth < DEPTH && ShapedFrom(pub, depth) && ShapedFrom(sub, depth) && Overlap(pub, sub, depth)
    ensures |p| == DEPTH - depth && Lists(pub, p) && Lists(sub, p)
    decreases pub
  {
    if pub.Anything? {
      p := ListedPath(sub, depth);
    } else if sub.Anything? {
      p := ListedPath(pub, depth);
    } else if pub.Names? {
      var name :| name in pub.names * sub.names;
      p := [name];
    } else {
      var k :| k in pub.parts && k in sub.parts && Overlap(pub.parts[k], sub.parts[k], depth + 1);
      var rest := OverlapHasPath(pub.parts[k], sub.parts[k], depth + 1);
      p := [k] + rest;
      assert p[1..] == rest;
    }
  }

  lemma {:induction false} PathGivesOverlap(pub: Mask, sub: Mask, p: Path, depth: nat)
    requires depth < DEPTH && ShapedFrom(pub, depth) && ShapedFrom(sub, depth)
    requires |p| == DEPTH - depth && Lists(pub, p) && Lists(sub, p)
    ensures Overlap(pub, sub, depth)
    decreases pub
  {
    if pub.Names? && sub.Names? {
      assert p[0] in pub.names * sub.names;
    } else if pub.Dict? && sub.Dict? {
      PathGivesOverlap(pub.parts[p[0]], sub.parts[p[0]], p[1..], depth + 1);
    }
  }

  /** A mask allows what it lists, and ids; away from ids the two are the same. */
  lemma {:induction false} AllowsIsLists(m: Mask, p: Path, depth: nat)
    requires depth < DEPTH && ShapedFrom(m, depth) && |p| == DEPTH - depth
    ensures Lists(m, p) ==> Allows(m, p)
    ensures p[|p| - 1] != ID && Allows(m, p) ==> Lists(m, p)
    decreases m
  {
    if m.Dict? && p[0] in m.parts {
      AllowsIsLists(m.parts[p[0]], p[1..], depth + 1);
    }
  }

  function Single<V>(p: Path): Data<V> {
    if p == [] then Node(map[]) else Node(map[p[0] := Single(p[1..])])
  }

  lemma {:induction false} SinglePasses<V>(p: Path, m: Mask, depth: nat)
    requires depth < DEPTH && ShapedFrom(m, depth) && |p| == DEPTH - depth && Allows(m, p)
    ensures Filter(Single<V>(p), m) == Ok(Single<V>(p)) && Lookup(Single<V>(p), p).Some?
    decreases m
  {
    var d := Single<V>(p);
    SingleHolds<V>(p);
    match m
    case Anything =>
    case Names(names) =>
      assert (map k | k in d.children && (k in names || k == ID) :: d.children[k]) == d.children;
    case Dict(parts) =>
      SinglePasses<V>(p[1..], parts[p[0]], depth + 1);
      assert d.children == map[p[0] := Single<V>(p[1..])];
      assert Filter(d, m).Ok?;
      assert Filter(d, m).value.children == d.children;
  }

  lemma {:induction false} SingleHolds<V>(p: Path)
    ensures Lookup(Single<V>(p), p).Some?
  {
    if p != [] {
      SingleHolds<V>(p[1..]);
    }
  }

  /** The data are shaped by what is published, and the subscriber's mask keeps an attribute of them. */
  ghost predicate Delivers<V>(pub: Mask, sub: Mask, d: Data<V>, p: Path) {
    && |p| == DEPTH && p[DEPTH - 1] != ID && Lookup(d, p).Some?
    && Filter(d, pub) == Ok(d) && Filter(d, sub).Ok? && Lookup(Filter(d, sub).value, p).Some?
  }

  /** Both masks list the path. */
  ghost predicate Common(pub: Mask, sub: Mask, p: Path) {
    |p| == DEPTH && Lists(pub, p) && Lists(sub, p)
  }

  /** Masks overlap exactly when they list a common path. */
  lemma OverlapMeansCommonPath(pub: Mask, sub: Mask)
    requires ValidMask(pub) && ValidMask(sub)
    ensures MasksOverlap(pub, sub) <==> exists p :: Common(pub, sub, p)
  {
    if MasksOverlap(pub, sub) {
      var p := OverlapHasPath(pub, sub, 0);
      assert Common(pub, sub, p);
    }
    forall p | Common(pub, sub, p)
      ensures MasksOverlap(pub, sub)
    {
      PathGivesOverlap(pub, sub, p, 0);
    }
  }

  /** Something published can be of interest to the subscriber exactly when the masks list a common
      path that does not end in the id. */
  lemma DeliveryMeansCommonAttribute<V(!new)>(pub: Mask, sub: Mask)
    requires ValidMask(pub) && ValidMask(sub)
    ensures (exists d: Data<V>, p :: Delivers(pub, sub, d, p))
       <==> exists p :: Common(pub, sub, p) && p[DEPTH - 1] != ID
  {
    forall p | Common(pub, sub, p) && p[DEPTH - 1] != ID
      ensures Delivers(pub, sub, Single<V>(p), p)
    {
      AllowsIsLists(pub, p, 0);
      AllowsIsLists(sub, p, 0);
      SinglePasses<V>(p, pub, 0);
      SinglePasses<V>(p, sub, 0);
    }
    if p :| Common(pub, sub, p) && p[DEPTH - 1] != ID {
      assert Delivers(pub, sub, Single<V>(p), p);
    }
    forall d: Data<V>, p | Delivers(pub, sub, d, p)
      ensures Common(pub, sub, p) && p[DEPTH - 1] != ID
    {
      FilterKeepsAllowed(d, pub, p);
      FilterKeepsAllowed(d, sub, p);
      assert pub != Dict(map[]) && sub != Dict(map[]);
      AllowsIsLists(pub, p, 0);
      AllowsIsLists(sub, p, 0);
    }
  }

  /** An overlap from which nothing can come: exactly when there are common paths and all end in the id. */
  lemma SpuriousOverlap<V(!new)>(pub: Mask, sub: Mask)
    requires ValidMask(pub) && ValidMask(sub)
    ensures MasksOverlap(pub, sub) && !(exists d: Data<V>, p :: Delivers(pub, sub, d, p))
       <==> (exists p :: Common(pub, sub, p)) && forall p :: Common(pub, sub, p) ==> p[DEPTH - 1] == ID
  {
    OverlapMeansCommonPath(pub, sub);
    DeliveryMeansCommonAttribute<V>(pub, sub);
  }

  predicate MentionsId(m: Mask)
    decreases m
  {
    match m
    case Anything => false
    case Names(names) => ID in names
    case Dict(parts) => exists k :: k in parts && MentionsId(parts[k])
  }

  /** A mask that does not mention the id lists a path that ends in it only by listing everything there,
      any other attribute included. */
  lemma {:induction false} OtherAttribute(m: Mask, p: Path, name: string, depth: nat)
    requires depth < DEPTH && ShapedFrom(m, depth) && |p| == DEPTH - depth && Lists(m, p) && p[|p| - 1] == ID
    requires !MentionsId(m)
    ensures Lists(m, p[..|p| - 1] + [name])
    decreases m
  {
    if m.Dict? {
      OtherAttribute(m.parts[p[0]], p[1..], name, depth + 1);
      assert (p[..|p| - 1] + [name])[1..] == p[1..][..|p| - 2] + [name];
    }
  }

  /** An overlap is never spurious when the masks do not mention the id. */
  lemma OverlapMeansDelivery<V(!new)>(pub: Mask, sub: Mask)
    requires ValidMask(pub) && ValidMask(sub) && !MentionsId(pub) && !MentionsId(sub)
    ensures MasksOverlap(pub, sub) <==> exists d: Data<V>, p :: Delivers(pub, sub, d, p)
  {
    OverlapMeansCommonPath(pub, sub);
    DeliveryMeansCommonAttribute<V>(pub, sub);
    if p :| Common(pub, sub, p) {
      if p[DEPTH - 1] == ID {
        var q := p[..DEPTH - 1] + [""];
        OtherAttribute(pub, p, "", 0);
        OtherAttribute(sub, p, "", 0);
        assert Common(pub, sub, q) && q[DEPTH - 1] != ID;
      }
    }
  }

  function InOneGroup(names: set<string>): Mask {
    Dict(map["dataset" := Dict(map["group" := Names(names)])])
  }

  lemma OneGroupLists(names: set<string>, p: Path)
    requires names != {} && |p| == DEPTH
    ensures ValidMask(InOneGroup(names))
    ensures Lists(InOneGroup(names), p) <==> p == ["dataset", "group", p[2]] && p[2] in names
  {
    var group := Dict(map["group" := Names(names)]);
    assert "dataset" in InOneGroup(names).parts && "group" in group.parts;
    assert ShapedFrom(Names(names), 2) && ShapedFrom(group, 1);
    assert p[1..][1..] == p[2..];
    assert Lists(group, p[1..]) <==> p[1] == "group" && p[2] in names;
  }

  /** Masks that both list the id overlap although they share no attribute. */
  lemma SharedIdOverlaps()
    ensures var pub, sub := InOneGroup({ID, "a"}), InOneGroup({ID, "b"});
      && ValidMask(pub) && ValidMask(sub) && MasksOverlap(pub, sub)
      && forall p: Path :: |p| == DEPTH && p[DEPTH - 1] != ID ==> !(Lists(pub, p) && Lists(sub, p))
  {
    var pub, sub := InOneGroup({ID, "a"}), InOneGroup({ID, "b"});
    var p := ["dataset", "group", ID];
    OneGroupLists({ID, "a"}, p);
    OneGroupLists({ID, "b"}, p);
    PathGivesOverlap(pub, sub, p, 0);
    forall p: Path | |p| == DEPTH && p[DEPTH - 1] != ID
      ensures !(Lists(pub, p) && Lists(sub, p))
    {
      OneGroupLists({ID, "a"}, p);
      OneGroupLists({ID, "b"}, p);
    }
  }

  // ----- the side effect of filtering

  /** Filtering adds the id to every list of the mask that it comes across. */
  function MaskAfter<V>(d: Data<V>, m: Mask): Mask
    decreases m
  {
    match m
    case Anything => m
    case Names(names) => Names(names + {ID})
    case Dict(parts) =>
      if d.Leaf? then m
      else Dict(map k | k in parts :: if k in d.children then MaskAfter(d.children[k], parts[k]) else parts[k])
  }

  /** The part of the mask at a path. */
  function PartAt(m: Mask, p: Path): Option<Mask>
    decreases p
  {
    if p == [] then Some(m)
    else if m.Dict? && p[0] in m.parts then PartAt(m.parts[p[0]], p[1..])
    else None
  }

  /** A list has the id afterwards if the data go that far, and otherwise it is as it was; nothing else changes. */
  lemma {:induction false} ListAfterFilter<V>(d: Data<V>, m: Mask, p: Path)
    ensures match PartAt(m, p)
      case Some(Names(names)) =>
        PartAt(MaskAfter(d, m), p) == Some(Names(if Lookup(d, p).Some? then names + {"id"} else names))
      case Some(Dict(parts)) =>
        && var after := PartAt(MaskAfter(d, m), p);
           after.Some? && after.value.Dict? && after.value.parts.Keys == parts.Keys
      case _ => PartAt(MaskAfter(d, m), p) == PartAt(m, p)
    decreases m
  {
    if m.Dict? && p != [] && p[0] in m.parts && d.Node? && p[0] in d.children {
      ListAfterFilter(d.children[p[0]], m.parts[p[0]], p[1..]);
    }
  }

  /** That does not show in what is filtered later. */
  lemma {:induction false} FilterAgain<V, W>(d: Data<V>, m: Mask, e: Data<W>)
    ensures Filter(e, MaskAfter(d, m)) == Filter(e, m)
    decreases m
  {
    match m
    case Anything =>
    case Names(names) =>
      if e.Node? {
        assert Filter(e, MaskAfter(d, m)).value.children == Filter(e, m).value.children;
      }
    case Dict(parts) =>
      if d.Node? && e.Node? {
        forall k | k in e.children && k in parts
          ensures Filter(e.children[k], MaskAfter(d, m).parts[k]) == Filter(e.children[k], parts[k])
        {
          if k in d.children {
            FilterAgain(d.children[k], parts[k], e.children[k]);
          }
        }
        FilterSame(e, m, MaskAfter(d, m));
      }
  }

  lemma FilterSame<W>(e: Data<W>, m: Mask, n: Mask)
    requires m.Dict? && n.Dict? && m.parts.Keys == n.parts.Keys && e.Node?
    requires forall k :: k in e.children && k in m.parts ==>
      Filter(e.children[k], n.parts[k]) == Filter(e.children[k], m.parts[k])
    ensures Filter(e, m) == Filter(e, n)
  {
    if Filter(e, m).Ok? {
      assert Filter(e, n).Ok?;
      assert Filter(e, m).value.children == Filter(e, n).value.children;
    }
  }

  /** Nor in the overlap with a mask that does not list the id. */
  lemma {:induction false} OverlapAgain<V>(d: Data<V>, pub: Mask, sub: Mask, depth: nat)
    requires depth < DEPTH && ShapedFrom(pub, depth) && ShapedFrom(sub, depth) && !MentionsId(pub)
    ensures ShapedFrom(MaskAfter(d, sub), depth)
    ensures Overlap(pub, MaskAfter(d, sub), depth) <==> Overlap(pub, sub, depth)
    decreases sub
  {
    var next := MaskAfter(d, sub);
    if sub.Dict? && d.Node? {
      assert next.parts.Keys == sub.parts.Keys;
      forall k | k in sub.parts
        ensures ShapedFrom(next.parts[k], depth + 1)
        ensures pub.Dict? && k in pub.parts ==>
          (Overlap(pub.parts[k], next.parts[k], depth + 1) <==> Overlap(pub.parts[k], sub.parts[k], depth + 1))
      {
        if k in d.children {
          if pub.Dict? && k in pub.parts {
            OverlapAgain(d.children[k], pub.parts[k], sub.parts[k], depth + 1);
          } else {
            OverlapAgain(d.children[k], Anything, sub.parts[k], depth + 1);
          }
        }
      }
    } else if sub.Names? && pub.Names? {
      assert pub.names * next.names == pub.names * sub.names;
    }
  }
}
