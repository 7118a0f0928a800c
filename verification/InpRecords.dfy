/** The rows that describe outfalls, storages, pumps and outlets, and the records that are read from
    such rows. */
module InpRecords {
  import opened Cells
  import opened InpText
  import opened InpFiles
  import opened InpRoundTrip

  // ----- writing

  /** Undefined numbers are None; keywords are those of the enums, in upper case. */
  datatype Element =
    | Outfall(name: string, elevation: Option<real>, kind: string, stage: Option<real>, gate: Option<bool>)
    | Storage(name: string, elevation: Option<real>, maxDepth: Option<real>, depth: Option<real>,
              geometry: Option<string>, curve: Option<seq<Point>>, coefficient: Option<real>,
              exponent: Option<real>, constant: Option<real>, parameters: Option<Parameters>)
    | Pump(name: string, fromNode: string, toNode: string, curveKind: Option<string>, curve: Option<seq<Point>>,
           startup: Option<real>, shutoff: Option<real>)
    | Outlet(name: string, fromNode: string, toNode: string, offset: Option<real>, rating: string,
             curve: Option<seq<Point>>, coefficient: Option<real>, exponent: Option<real>, gate: Option<bool>)

  datatype Parameters = Parameters(length: Option<real>, width: Option<real>, height: Option<real>)

  function Or(x: Option<real>, default: real): real {
    if x.Some? then x.value else default
  }

  function Gated(gate: Option<bool>): string {
    if gate == Some(true) then "YES" else "NO"
  }

  predicate Contains(s: string, part: string) {
    part <= s || (s != "" && Contains(s[1..], part))
  }

  const OUTFALLS := "OUTFALLS"
  const STORAGE := "STORAGE"
  const PUMPS := "PUMPS"
  const OUTLETS := "OUTLETS"

  function SectionOf(e: Element): string {
    match e
    case Outfall(_, _, _, _, _) => OUTFALLS
    case Storage(_, _, _, _, _, _, _, _, _, _) => STORAGE
    case Pump(_, _, _, _, _, _, _) => PUMPS
    case Outlet(_, _, _, _, _, _, _, _, _) => OUTLETS
  }

  const TABULAR := "TABULAR"
  const FUNCTIONAL := "FUNCTIONAL"
  const IDEAL := "IDEAL"

  predicate IsGeometric(shape: string) {
    shape == "CYLINDRICAL" || shape == "CONICAL" || shape == "PARABOLIC" || shape == "PYRAMIDAL"
  }

  /** The shape of a storage: the given one, or what its attributes suggest. */
  function ShapeOf(e: Element): Result<string>
    requires e.Storage?
  {
    if e.geometry.Some? && !IsGeometric(e.geometry.value)
       && e.geometry.value != TABULAR && e.geometry.value != FUNCTIONAL
    then Err("unsupported storage_geometry")
    else if e.geometry.Some? && IsGeometric(e.geometry.value) then
      if e.parameters.None? || e.parameters.value == Parameters(None, None, None) then Err("no parameters")
      else if e.geometry.value == "PARABOLIC"
              && !(e.parameters.value.height.Some? && e.parameters.value.height.value > 0.0)
      then Err("PARABOLIC geometry requires a positive full height")
      else Ok(e.geometry.value)
    else if e.geometry == Some(TABULAR) || (e.geometry.None? && e.curve.Some?) then
      if e.curve.None? then Err("no storage_curve") else Ok(TABULAR)
    else if Or(e.coefficient, 0.0) == 0.0 && Or(e.constant, 0.0) == 0.0 then Err("no surface area")
    else Ok(FUNCTIONAL)
  }

  /** The curve that the row refers to, with its kind. */
  function CurveToWrite(e: Element): Option<(string, seq<Point>)> {
    match e
    case Storage(_, _, _, _, _, curve, _, _, _, _) =>
      if ShapeOf(e) == Ok(TABULAR) then Some(("Storage", curve.value)) else None
    case Pump(_, _, _, kind, curve, _, _) =>
      if curve.Some? && kind.Some? && kind.value != IDEAL then Some((kind.value, curve.value)) else None
    case Outlet(_, _, _, _, rating, curve, _, _, _) =>
      if Contains(rating, TABULAR) && curve.Some? then Some(("Rating", curve.value)) else None
    case _ => None
  }

  /** The cells of a row, with the name under which its curve, if any, is written. */
  function CellsOf(f: NumberFormat, e: Element, curveName: string): Result<Tokens> {
    match e
    case Outfall(name, elevation, kind, stage, gate) =>
      if kind == "FIXED" then Ok([name, f.show(Or(elevation, 0.0)), "FIXED", f.show(Or(stage, 0.0)), Gated(gate)])
      else if kind == "FREE" || kind == "NORMAL" then Ok([name, f.show(Or(elevation, 0.0)), kind, Gated(gate)])
      else Err("unsupported outfall_type")
    case Storage(name, elevation, maxDepth, depth, _, _, coefficient, exponent, constant, parameters) =>
      var shape := ShapeOf(e);
      if shape.Err? then Err(shape.error)
      else
        var start := [name, f.show(Or(elevation, 0.0)), f.show(Or(maxDepth, 0.0)), f.show(Or(depth, 0.0)), shape.value];
        if IsGeometric(shape.value) then
          var p := parameters.value;
          Ok(start + [f.show(Or(p.length, 0.0)), f.show(Or(p.width, 0.0)), f.show(Or(p.height, 0.0))])
        else if shape.value == TABULAR then Ok(start + [curveName])
        else Ok(start + [f.show(Or(coefficient, 0.0)), f.show(Or(exponent, 0.0)), f.show(Or(constant, 0.0))])
    case Pump(name, fromNode, toNode, kind, curve, startup, shutoff) =>
      if curve.Some? && (kind.None? || kind.value == IDEAL) then Err("no pump_curve_type")
      else Ok([name, fromNode, toNode, if curve.Some? then curveName else "*", "ON",
               f.show(Or(startup, 0.0)), f.show(Or(shutoff, 0.0))])
    case Outlet(name, fromNode, toNode, offset, rating, curve, coefficient, exponent, gate) =>
      var start := [name, fromNode, toNode, f.show(Or(offset, 0.0)), rating];
      if Contains(rating, TABULAR) then
        if curve.None? then Err("no rating_curve") else Ok(start + [curveName, Gated(gate)])
      else Ok(start + [f.show(Or(coefficient, 1.0)), f.show(Or(exponent, 0.5)), Gated(gate)])
  }

  // ----- reading

  /** Columns that are absent, or that a row of this kind does not have, are None. */
  datatype Record =
    | OutfallRecord(name: string, elevation: Option<real>, kind: Option<string>, stage: Option<real>,
                    gate: Option<bool>)
    | StorageRecord(name: string, elevation: Option<real>, maxDepth: Option<real>, depth: Option<real>,
                    geometry: Option<string>, curve: Option<seq<Point>>, coefficient: Option<real>,
                    exponent: Option<real>, constant: Option<real>, parameters: Option<seq<real>>)
    | PumpRecord(name: string, fromNode: Option<string>, toNode: Option<string>, curveKind: Option<string>,
                 curve: Option<seq<Point>>, startup: Option<real>, shutoff: Option<real>)
    | OutletRecord(name: string, fromNode: Option<string>, toNode: Option<string>, offset: Option<real>,
                   rating: Option<string>, curve: Option<seq<Point>>, coefficient: Option<real>,
                   exponent: Option<real>, gate: Option<bool>)

  function StringAt(row: Tokens, k: nat): Option<string> {
    if k < |row| then Some(row[k]) else None
  }

  function NumberAt(f: NumberFormat, row: Tokens, k: nat): Option<real> {
    if k < |row| then f.read(row[k]) else None
  }

  function GateAt(row: Tokens, k: nat): Option<bool> {
    if k < |row| then Some(Upper(row[k]) == "YES" || Upper(row[k]) == "TRUE" || Upper(row[k]) == "1") else None
  }

  /** The points of a curve, if there is one with points. */
  function CurvePoints(curves: map<string, Curve>, name: Option<string>): Option<seq<Point>> {
    if name.None? || name.value !in curves || curves[name.value].points == [] then None
    else Some(curves[name.value].points)
  }

  function ReadOutfall(f: NumberFormat, r: Tokens): Record
    requires r != []
  {
    var kind := StringAt(r, 2);
    var staged :=
      kind.Some? && (Upper(kind.value) == "FIXED" || Upper(kind.value) == "TIDAL" || Upper(kind.value) == "TIMESERIES");
    OutfallRecord(r[0], NumberAt(f, r, 1), kind,
                  if staged then NumberAt(f, r, 3) else None, GateAt(r, if staged then 4 else 3))
  }

  function ReadStorage(f: NumberFormat, curves: map<string, Curve>, r: Tokens): Record
    requires r != []
  {
    var shape := if |r| > 4 then Upper(r[4]) else "";
    var functional := shape == FUNCTIONAL;
    StorageRecord(r[0], NumberAt(f, r, 1), NumberAt(f, r, 2), NumberAt(f, r, 3),
      if shape == "" then None else Some(shape),
      if shape == TABULAR then CurvePoints(curves, StringAt(r, 5)) else None,
      if functional then NumberAt(f, r, 5) else None,
      if functional then NumberAt(f, r, 6) else None,
      if functional then NumberAt(f, r, 7) else None,
      if IsGeometric(shape)
      then Some([Or(NumberAt(f, r, 5), 0.0), Or(NumberAt(f, r, 6), 0.0), Or(NumberAt(f, r, 7), 0.0)])
      else None)
  }

  function ReadPump(f: NumberFormat, curves: map<string, Curve>, r: Tokens): Record
    requires r != []
  {
    var name := StringAt(r, 3);
    var ideal, known := name.None? || name.value == "*", name.Some? && name.value in curves;
    PumpRecord(r[0], StringAt(r, 1), StringAt(r, 2),
      if ideal then Some(IDEAL) else if known then curves[name.value].kind else None,
      if !ideal && known then CurvePoints(curves, name) else None,
      NumberAt(f, r, 5), NumberAt(f, r, 6))
  }

  function ReadOutlet(f: NumberFormat, curves: map<string, Curve>, r: Tokens): Record
    requires r != []
  {
    var rating := StringAt(r, 4);
    var tabular := rating.Some? && Contains(Upper(rating.value), TABULAR);
    OutletRecord(r[0], StringAt(r, 1), StringAt(r, 2), NumberAt(f, r, 3), rating,
      if tabular then CurvePoints(curves, StringAt(r, 5)) else None,
      if tabular then None else NumberAt(f, r, 5),
      if tabular then None else NumberAt(f, r, 6),
      GateAt(r, if tabular then 6 else 7))
  }

  function ReadRecord(f: NumberFormat, curves: map<string, Curve>, section: string, r: Tokens): Option<Record>
    requires r != []
  {
    if section == OUTFALLS then Some(ReadOutfall(f, r))
    else if section == STORAGE then Some(ReadStorage(f, curves, r))
    else if section == PUMPS then Some(ReadPump(f, curves, r))
    else if section == OUTLETS then Some(ReadOutlet(f, curves, r))
    else None
  }

  // ----- what is read of what was written

  function Defined(x: Option<real>, default: real): (r: Option<real>)
    ensures r.Some?
  {
    match x
    case Some(value) => Some(value)
    case None => Some(default)
  }

  /** Everything that was set is there again; undefined numbers come back as the defaults that were
      written for them. A storage has its shape, or is tabular with a curve and functional without one. A
      pump without a curve is an ideal one, whatever type it had. */
  function Expected(e: Element): Record {
    match e
    case Outfall(name, elevation, kind, stage, gate) =>
      OutfallRecord(name, Defined(elevation, 0.0), Some(kind),
                    if kind == "FIXED" then Defined(stage, 0.0) else None, Some(gate == Some(true)))
    case Storage(name, elevation, maxDepth, depth, _, curve, coefficient, exponent, constant, parameters) =>
      var shape := if e.geometry.Some? then e.geometry.value else if curve.Some? then TABULAR else FUNCTIONAL;
      StorageRecord(name, Defined(elevation, 0.0), Defined(maxDepth, 0.0), Defined(depth, 0.0), Some(shape),
        if shape == TABULAR then curve else None,
        if shape == FUNCTIONAL then Defined(coefficient, 0.0) else None,
        if shape == FUNCTIONAL then Defined(exponent, 0.0) else None,
        if shape == FUNCTIONAL then Defined(constant, 0.0) else None,
        if IsGeometric(shape) && parameters.Some?
        then Some([Defined(parameters.value.length, 0.0).value, Defined(parameters.value.width, 0.0).value,
                   Defined(parameters.value.height, 0.0).value])
        else None)
    case Pump(name, fromNode, toNode, kind, curve, startup, shutoff) =>
      PumpRecord(name, Some(fromNode), Some(toNode), if curve.Some? then kind else Some(IDEAL), curve,
        Defined(startup, 0.0), Defined(shutoff, 0.0))
    case Outlet(name, fromNode, toNode, offset, rating, curve, coefficient, exponent, gate) =>
      var tabular := Contains(rating, TABULAR);
      OutletRecord(name, Some(fromNode), Some(toNode), Defined(offset, 0.0), Some(rating),
        if tabular then curve else None,
        if tabular then None else Defined(coefficient, 1.0),
        if tabular then None else Defined(exponent, 0.5),
        Some(gate == Some(true)))
  }

  /** The text of a cell can stand in a row, and the numbers survive. */
  predicate Writable(f: NumberFormat, e: Element) {
    && IsCell(e.name) && e.name[0] != '[' && Faithful(f, 0.0)
    && match e
       case Outfall(_, elevation, kind, stage, _) => AllFaithful(f, [elevation, stage])
       case Storage(_, elevation, maxDepth, depth, _, curve, coefficient, exponent, constant, parameters) =>
         && AllFaithful(f, [elevation, maxDepth, depth, coefficient, exponent, constant])
         && (parameters.Some? ==>
           AllFaithful(f, [parameters.value.length, parameters.value.width, parameters.value.height]))
         && CurveIsWritable(f, curve)
       case Pump(_, fromNode, toNode, kind, curve, startup, shutoff) =>
         && IsCell(fromNode) && IsCell(toNode) && AllFaithful(f, [startup, shutoff]) && CurveIsWritable(f, curve)
         && (kind.Some? ==> IsCell(kind.value) && f.read(kind.value).None?)
       case Outlet(_, fromNode, toNode, offset, rating, curve, coefficient, exponent, _) =>
         && IsCell(fromNode) && IsCell(toNode) && IsCell(rating)
         && Upper(rating) == rating && Faithful(f, 1.0) && Faithful(f, 0.5)
         && AllFaithful(f, [offset, coefficient, exponent]) && CurveIsWritable(f, curve)
  }

  predicate AllFaithful(f: NumberFormat, xs: seq<Option<real>>) {
    forall k :: 0 <= k < |xs| && xs[k].Some? ==> Faithful(f, xs[k].value)
  }

  /** A curve that is there has points. */
  predicate CurveIsWritable(f: NumberFormat, curve: Option<seq<Point>>) {
    curve.Some? ==> curve.value != [] && FaithfulPoints(f, curve.value)
  }

  /** The curves that were read hold the curve that the row refers to. */
  predicate HoldsCurve(curves: map<string, Curve>, e: Element, curveName: string) {
    CurveToWrite(e).Some? ==>
      curveName in curves && curves[curveName] == Curve(Some(CurveToWrite(e).value.0), CurveToWrite(e).value.1)
  }

  lemma ReadsDefault(f: NumberFormat, xs: seq<Option<real>>, k: nat, default: real)
    requires AllFaithful(f, xs) && k < |xs| && Faithful(f, default)
    ensures f.read(f.show(Or(xs[k], default))) == Defined(xs[k], default) && IsCell(f.show(Or(xs[k], default)))
  {
  }

  lemma OutfallRoundTrip(f: NumberFormat, e: Element)
    requires e.Outfall? && Writable(f, e) && CellsOf(f, e, "").Ok?
    ensures CellsOf(f, e, "").value != [] && ReadOutfall(f, CellsOf(f, e, "").value) == Expected(e)
  {
    hide Faithful, IsCell;
    ReadsDefault(f, [e.elevation, e.stage], 0, 0.0);
    ReadsDefault(f, [e.elevation, e.stage], 1, 0.0);
    assert Upper("YES") == "YES" && Upper("NO") == "NO";
    assert Upper("FIXED") == "FIXED" && Upper("FREE") == "FREE" && Upper("NORMAL") == "NORMAL";
  }

  lemma KeywordsAreUpper()
    ensures Upper("FIXED") == "FIXED" && Upper(TABULAR) == TABULAR && Upper(FUNCTIONAL) == FUNCTIONAL
    ensures Upper("CYLINDRICAL") == "CYLINDRICAL" && Upper("CONICAL") == "CONICAL"
    ensures Upper("PARABOLIC") == "PARABOLIC" && Upper("PYRAMIDAL") == "PYRAMIDAL"
    ensures Upper("YES") == "YES" && Upper("NO") == "NO"
  {
  }

  lemma GateRoundTrip(row: Tokens, k: nat, gate: Option<bool>)
    requires k < |row| && row[k] == Gated(gate)
    ensures GateAt(row, k) == Some(gate == Some(true))
  {
    KeywordsAreUpper();
  }

  /** The shape of a storage that is accepted: the one it has, and otherwise it depends on the curve. */
  lemma ShapeIsItsOwn(e: Element)
    requires e.Storage? && ShapeOf(e).Ok?
    ensures e.geometry.Some? ==> e.geometry == Some(ShapeOf(e).value)
    ensures e.geometry.None? ==> ShapeOf(e).value == if e.curve.Some? then TABULAR else FUNCTIONAL
  {
  }

  /** What a storage must have for its shape: a geometric one any parameter, and a parabolic one a positive
      height; a tabular one a curve; a functional one a coefficient or a constant that is not zero. */
  lemma StorageIsAccepted(f: NumberFormat, e: Element, curveName: string)
    requires e.Storage?
    ensures CellsOf(f, e, curveName).Ok? <==>
      match e.geometry
      case Some(shape) =>
        || (shape == "TABULAR" && e.curve.Some?)
        || (shape == "FUNCTIONAL" && (Or(e.coefficient, 0.0) != 0.0 || Or(e.constant, 0.0) != 0.0))
        || (&& shape in {"CYLINDRICAL", "CONICAL", "PARABOLIC", "PYRAMIDAL"} && e.parameters.Some?
            && var p := e.parameters.value;
               && (p.length.Some? || p.width.Some? || p.height.Some?)
               && (shape == "PARABOLIC" ==> p.height.Some? && p.height.value > 0.0))
      case None => e.curve.Some? || Or(e.coefficient, 0.0) != 0.0 || Or(e.constant, 0.0) != 0.0
  {
  }

  lemma {:induction false} ContainsPart(s: string, part: string)
    ensures Contains(s, part) <==> exists before, after :: s == before + part + after
  {
    if part <= s {
      assert s == [] + part + s[|part|..];
    } else if s != "" {
      ContainsPart(s[1..], part);
      if before, after :| s[1..] == before + part + after {
        assert s == ([s[0]] + before) + part + after;
      }
      if before, after :| s == before + part + after {
        assert part <= [] + part + after;
        assert s[1..] == before[1..] + part + after;
      }
    }
  }

  /** An outfall needs a known type, a pump with a curve the type of that, and an outlet with a tabular rating
      a curve. */
  lemma ElementIsAccepted(f: NumberFormat, e: Element, curveName: string)
    requires !e.Storage?
    ensures CellsOf(f, e, curveName).Ok? <==>
      match e
      case Outfall(_, _, kind, _, _) => kind in {"FIXED", "FREE", "NORMAL"}
      case Pump(_, _, _, kind, curve, _, _) => curve.Some? ==> kind.Some? && kind != Some("IDEAL")
      case Outlet(_, _, _, _, rating, curve, _, _, _) =>
        (exists before, after :: rating == before + "TABULAR" + after) ==> curve.Some?
      case _ => true
  {
    if e.Outlet? {
      ContainsPart(e.rating, TABULAR);
    }
  }

  /** A curve is written with the kind "Storage" for a storage that is accepted and has a tabular shape or no
      shape, with its own kind for a pump, and with the kind "Rating" for a tabular outlet. */
  lemma CurvesToWrite(f: NumberFormat, e: Element, curveName: string)
    requires CellsOf(f, e, curveName).Ok?
    ensures CurveToWrite(e)
         == match e
            case Storage(_, _, _, _, geometry, curve, _, _, _, _) =>
              if curve.Some? && (geometry.None? || geometry == Some("TABULAR")) then Some(("Storage", curve.value))
              else None
            case Pump(_, _, _, kind, curve, _, _) => if curve.Some? then Some((kind.value, curve.value)) else None
            case Outlet(_, _, _, _, rating, curve, _, _, _) =>
              if curve.Some? && Contains(rating, "TABULAR") then Some(("Rating", curve.value)) else None
            case _ => None
  {
  }

  /** Where the columns of an outfall are, whoever wrote it: only some types have a stage before the gate. */
  lemma OutfallColumns(f: NumberFormat, row: Tokens)
    requires |row| >= 5
    ensures var staged := Upper(row[2]) in {"FIXED", "TIDAL", "TIMESERIES"};
      && ReadOutfall(f, row).stage == (if staged then f.read(row[3]) else None)
      && ReadOutfall(f, row).gate == Some(Upper(if staged then row[4] else row[3]) in {"YES", "TRUE", "1"})
  {
  }

  /** Columns that a row does not have are None, and a pump without a curve column is an ideal one. */
  lemma MissingColumns(f: NumberFormat, curves: map<string, Curve>, name: string)
    ensures ReadOutfall(f, [name]) == OutfallRecord(name, None, None, None, None)
    ensures ReadStorage(f, curves, [name])
         == StorageRecord(name, None, None, None, None, None, None, None, None, None)
    ensures ReadPump(f, curves, [name]) == PumpRecord(name, None, None, Some("IDEAL"), None, None, None)
    ensures ReadOutlet(f, curves, [name]) == OutletRecord(name, None, None, None, None, None, None, None, None)
  {
  }

  /** The numbers of a geometric storage that are missing or cannot be read count as zero. */
  lemma MissingParameters(f: NumberFormat, curves: map<string, Curve>, row: Tokens)
    requires |row| == 6 && Upper(row[4]) in {"CYLINDRICAL", "CONICAL", "PARABOLIC", "PYRAMIDAL"}
    ensures ReadStorage(f, curves, row).parameters
         == Some([if f.read(row[5]).Some? then f.read(row[5]).value else 0.0, 0.0, 0.0])
  {
  }

  lemma ShapeIsKnown(e: Element)
    requires e.Storage? && ShapeOf(e).Ok?
    ensures var shape := ShapeOf(e).value;
      && (IsGeometric(shape) || shape == TABULAR || shape == FUNCTIONAL) && Upper(shape) == shape && shape != ""
      && (shape == TABULAR ==> e.curve.Some?) && (IsGeometric(shape) ==> e.parameters.Some?)
      && !(IsGeometric(shape) && (shape == TABULAR || shape == FUNCTIONAL))
  {
    KeywordsAreUpper();
  }

  lemma CurveComesBack(f: NumberFormat, curves: map<string, Curve>, e: Element, curveName: string)
    requires HoldsCurve(curves, e, curveName) && CurveToWrite(e).Some? && CurveToWrite(e).value.1 != []
    ensures CurvePoints(curves, Some(curveName)) == Some(CurveToWrite(e).value.1)
    ensures curves[curveName].kind == Some(CurveToWrite(e).value.0)
  {
  }

  lemma StorageRoundTrip(f: NumberFormat, curves: map<string, Curve>, e: Element, curveName: string)
    requires e.Storage? && Writable(f, e) && CellsOf(f, e, curveName).Ok? && HoldsCurve(curves, e, curveName)
    ensures CellsOf(f, e, curveName).value != []
    ensures ReadStorage(f, curves, CellsOf(f, e, curveName).value) == Expected(e)
    ensures e.geometry.Some? ==> ReadStorage(f, curves, CellsOf(f, e, curveName).value).geometry == e.geometry
    ensures e.geometry.None? ==>
      ReadStorage(f, curves, CellsOf(f, e, curveName).value).geometry
      == Some(if e.curve.Some? then TABULAR else FUNCTIONAL)
  {
    hide Faithful, IsCell, ShapeOf, IsGeometric, CurvePoints, HoldsCurve, FaithfulPoints, Upper;
    ShapeIsKnown(e);
    ShapeIsItsOwn(e);
    var xs := [e.elevation, e.maxDepth, e.depth, e.coefficient, e.exponent, e.constant];
    ReadsDefault(f, xs, 0, 0.0);
    ReadsDefault(f, xs, 1, 0.0);
    ReadsDefault(f, xs, 2, 0.0);
    var shape := ShapeOf(e).value;
    if IsGeometric(shape) {
      var p := e.parameters.value;
      ReadsDefault(f, [p.length, p.width, p.height], 0, 0.0);
      ReadsDefault(f, [p.length, p.width, p.height], 1, 0.0);
      ReadsDefault(f, [p.length, p.width, p.height], 2, 0.0);
    } else if shape == TABULAR {
      CurveComesBack(f, curves, e, curveName);
    } else {
      ReadsDefault(f, xs, 3, 0.0);
      ReadsDefault(f, xs, 4, 0.0);
      ReadsDefault(f, xs, 5, 0.0);
    }
  }

  lemma PumpRoundTrip(f: NumberFormat, curves: map<string, Curve>, e: Element, curveName: string)
    requires e.Pump? && Writable(f, e) && CellsOf(f, e, curveName).Ok? && HoldsCurve(curves, e, curveName)
    requires curveName != "*"
    ensures CellsOf(f, e, curveName).value != [] && ReadPump(f, curves, CellsOf(f, e, curveName).value) == Expected(e)
  {
    hide Faithful, IsCell, CurvePoints, FaithfulPoints;
    ReadsDefault(f, [e.startup, e.shutoff], 0, 0.0);
    ReadsDefault(f, [e.startup, e.shutoff], 1, 0.0);
    if e.curve.Some? {
      CurveComesBack(f, curves, e, curveName);
    }
  }

  lemma OutletRoundTrip(f: NumberFormat, curves: map<string, Curve>, e: Element, curveName: string)
    requires e.Outlet? && Writable(f, e) && CellsOf(f, e, curveName).Ok? && HoldsCurve(curves, e, curveName)
    ensures CellsOf(f, e, curveName).value != [] && ReadOutlet(f, curves, CellsOf(f, e, curveName).value) == Expected(e)
  {
    hide Faithful, IsCell, CurvePoints, FaithfulPoints, Contains, Gated, GateAt;
    var row := CellsOf(f, e, curveName).value;
    ReadsDefault(f, [e.offset, e.coefficient, e.exponent], 0, 0.0);
    if Contains(e.rating, TABULAR) {
      CurveComesBack(f, curves, e, curveName);
      GateRoundTrip(row, 6, e.gate);
    } else {
      ReadsDefault(f, [e.offset, e.coefficient, e.exponent], 1, 1.0);
      ReadsDefault(f, [e.offset, e.coefficient, e.exponent], 2, 0.5);
      GateRoundTrip(row, 7, e.gate);
    }
  }

  /** The record that is read from the row of an element is the expected one, for every kind of element. */
  lemma RecordRoundTrip(f: NumberFormat, curves: map<string, Curve>, e: Element, curveName: string)
    requires Writable(f, e) && CellsOf(f, e, curveName).Ok? && HoldsCurve(curves, e, curveName) && curveName != "*"
    ensures CellsOf(f, e, curveName).value != []
    ensures ReadRecord(f, curves, SectionOf(e), CellsOf(f, e, curveName).value) == Some(Expected(e))
  {
    hide Writable, CellsOf, HoldsCurve, Expected, ReadOutfall, ReadStorage, ReadPump, ReadOutlet;
    match e
    case Outfall(_, _, _, _, _) =>
      OutfallIgnoresCurve(f, e, curveName);
      OutfallRoundTrip(f, e);
    case Storage(_, _, _, _, _, _, _, _, _, _) => StorageRoundTrip(f, curves, e, curveName);
    case Pump(_, _, _, _, _, _, _) => PumpRoundTrip(f, curves, e, curveName);
    case Outlet(_, _, _, _, _, _, _, _, _) => OutletRoundTrip(f, curves, e, curveName);
  }

  lemma OutfallIgnoresCurve(f: NumberFormat, e: Element, curveName: string)
    requires e.Outfall?
    ensures CellsOf(f, e, curveName) == CellsOf(f, e, "")
  {
  }

  /** The type that is read for a pump is the one that it had exactly when it has a curve or is ideal. */
  lemma PumpTypeSurvives(f: NumberFormat, curves: map<string, Curve>, e: Element, curveName: string)
    requires e.Pump? && Writable(f, e) && CellsOf(f, e, curveName).Ok? && HoldsCurve(curves, e, curveName)
    requires curveName != "*"
    requires e.curveKind.Some?
    ensures CellsOf(f, e, curveName).value != []
    ensures ReadPump(f, curves, CellsOf(f, e, curveName).value).curveKind == e.curveKind
       <==> e.curve.Some? || e.curveKind == Some(IDEAL)
  {
    hide Writable, HoldsCurve, ReadPump;
    PumpRoundTrip(f, curves, e, curveName);
  }
}
