/** Writing and reading `.inp` files: the builder that collects rows by section and renders them, and
    the parser that reads the sections again. */
module InpFiles {
  import opened Cells
  import opened InpText

  /** How numbers are written and read. Reading also decides which tokens are numbers at all. */
  datatype NumberFormat = NumberFormat(show: real -> string, read: string -> Option<real>)

  /** The number survives being written and read. */
  predicate Faithful(f: NumberFormat, x: real) {
    IsCell(f.show(x)) && f.read(f.show(x)) == Some(x)
  }

  type Point = (real, real)

  type Tokens = seq<string>

  datatype Curve = Curve(kind: Option<string>, points: seq<Point>)

  datatype Inp = Inp(
    sections: map<string, seq<Tokens>>,
    coordinates: map<string, Point>,
    symbols: map<string, Point>,
    vertices: map<string, seq<Point>>,
    polygons: map<string, seq<Point>>,
    xsections: map<string, Tokens>,
    curves: map<string, Curve>)

  const EMPTY_INP := Inp(map[], map[], map[], map[], map[], map[], map[])

  function ReadPoint(f: NumberFormat, x: string, y: string): Result<Point> {
    if f.read(x).Some? && f.read(y).Some? then Ok((f.read(x).value, f.read(y).value)) else Err("not a float")
  }

  /** The points of a row of alternating coordinates; one that is left over at the end is ignored. */
  function ReadPoints(f: NumberFormat, rest: Tokens): Result<seq<Point>> {
    if |rest| < 2 then Ok([])
    else
      var first, more := ReadPoint(f, rest[0], rest[1]), ReadPoints(f, rest[2..]);
      if first.Err? then Err(first.error) else if more.Err? then more else Ok([first.value] + more.value)
  }

  /** Every two tokens are a point, and all of them must be numbers. */
  lemma {:induction false} PointsOfRow(f: NumberFormat, rest: Tokens)
    ensures ReadPoints(f, rest).Ok? <==> forall k :: 0 <= k < |rest| - |rest| % 2 ==> f.read(rest[k]).Some?
    ensures ReadPoints(f, rest).Ok? ==>
      && |ReadPoints(f, rest).value| == |rest| / 2
      && forall k :: 0 <= k < |rest| / 2 ==>
           f.read(rest[2 * k]) == Some(ReadPoints(f, rest).value[k].0)
           && f.read(rest[2 * k + 1]) == Some(ReadPoints(f, rest).value[k].1)
    decreases |rest|
  {
    if |rest| >= 2 {
      PointsOfRow(f, rest[2..]);
      if forall k :: 0 <= k < |rest| - |rest| % 2 ==> f.read(rest[k]).Some? {
        assert forall k :: 0 <= k < |rest[2..]| - |rest[2..]| % 2 ==> rest[2..][k] == rest[k + 2];
      }
      if ReadPoints(f, rest).Ok? {
        forall k | 0 <= k < |rest| - |rest| % 2
          ensures f.read(rest[k]).Some?
        {
          assert k >= 2 ==> rest[2..][k - 2] == rest[k];
        }
        forall k | 0 <= k < |rest| / 2
          ensures f.read(rest[2 * k]) == Some(ReadPoints(f, rest).value[k].0)
          ensures f.read(rest[2 * k + 1]) == Some(ReadPoints(f, rest).value[k].1)
        {
          if k > 0 {
            var j := k - 1;
            assert rest[2..][2 * j] == rest[2 * k] && rest[2..][2 * j + 1] == rest[2 * k + 1];
          }
        }
      }
    }
  }

  /** A row of a curve: its name, the kind of curve if the next token is not a number, and points. */
  function AddToCurve(f: NumberFormat, curve: Curve, rest: Tokens): Result<Curve> {
    var named := rest != [] && f.read(rest[0]).None?;
    var points := ReadPoints(f, if named then rest[1..] else rest);
    if points.Err? then Err(points.error)
    else Ok(Curve(if named then Some(rest[0]) else curve.kind, curve.points + points.value))
  }

  function PointsAt(points: map<string, seq<Point>>, name: string): seq<Point> {
    if name in points then points[name] else []
  }

  function CurveAt(curves: map<string, Curve>, name: string): Curve {
    if name in curves then curves[name] else Curve(None, [])
  }

  const COORDINATES := "COORDINATES"
  const SYMBOLS := "SYMBOLS"
  const VERTICES := "VERTICES"
  const POLYGONS := "POLYGONS"
  const XSECTIONS := "XSECTIONS"
  const CURVES := "CURVES"

  predicate IsCoordinates(section: string) {
    section == COORDINATES
  }

  predicate IsSymbols(section: string) {
    section == SYMBOLS
  }

  predicate IsVertices(section: string) {
    section == VERTICES
  }

  predicate IsPolygons(section: string) {
    section == POLYGONS
  }

  predicate HoldsPoints(section: string) {
    IsCoordinates(section) || IsSymbols(section) || IsVertices(section) || IsPolygons(section)
  }

  predicate IsCrossSections(section: string) {
    section == XSECTIONS
  }

  predicate IsCurves(section: string) {
    section == CURVES
  }

  /** The last point of a name counts, or all of them in their order. */
  function AddPoint(inp: Inp, section: string, name: string, point: Point): (r: Inp)
    requires HoldsPoints(section)
    ensures r.sections == inp.sections && r.xsections == inp.xsections && r.curves == inp.curves
  {
    if IsCoordinates(section) then inp.(coordinates := inp.coordinates[name := point])
    else if IsSymbols(section) then inp.(symbols := inp.symbols[name := point])
    else if IsVertices(section) then inp.(vertices := inp.vertices[name := PointsAt(inp.vertices, name) + [point]])
    else inp.(polygons := inp.polygons[name := PointsAt(inp.polygons, name) + [point]])
  }

  /** Some sections are kept by the name that their rows begin with, all others as lists of rows. */
  function AddRow(f: NumberFormat, inp: Inp, current: string, tokens: Tokens): Result<Inp>
    requires tokens != [] && current in inp.sections
  {
    if HoldsPoints(current) && |tokens| >= 3 then
      var point := ReadPoint(f, tokens[1], tokens[2]);
      if point.Err? then Err(point.error) else Ok(AddPoint(inp, current, tokens[0], point.value))
    else if IsCrossSections(current) then Ok(inp.(xsections := inp.xsections[tokens[0] := tokens]))
    else if IsCurves(current) then
      var curve := AddToCurve(f, CurveAt(inp.curves, tokens[0]), tokens[1..]);
      if curve.Err? then Err(curve.error) else Ok(inp.(curves := inp.curves[tokens[0] := curve.value]))
    else Ok(inp.(sections := inp.sections[current := inp.sections[current] + [tokens]]))
  }

  function OpenSection(inp: Inp, name: string): Inp {
    if name in inp.sections then inp else inp.(sections := inp.sections[name := []])
  }

  /** What one line does to what was read so far and to the current section. */
  function ReadLine(f: NumberFormat, inp: Inp, current: Option<string>, raw: string): Result<(Inp, Option<string>)>
    requires current.Some? ==> current.value in inp.sections
  {
    var line := Content(raw);
    if line == "" then Ok((inp, current))
    else if IsHeader(line) then
      var name := Upper(StripRight(StripLeft(line[1..|line| - 1])));
      Ok((OpenSection(inp, name), Some(name)))
    else if current.None? then Ok((inp, current))
    else
      ContentHasWords(raw);
      var added := AddRow(f, inp, current.value, Words(line));
      if added.Err? then Err(added.error) else Ok((added.value, current))
  }

  lemma AddRowKeepsSections(f: NumberFormat, inp: Inp, current: string, tokens: Tokens)
    requires tokens != [] && current in inp.sections
    ensures AddRow(f, inp, current, tokens).Ok? ==>
      AddRow(f, inp, current, tokens).value.sections.Keys == inp.sections.Keys
  {
    hide *;
    AddRowSections(f, inp, current, tokens);
  }

  /** A row is added to its section or kept elsewhere. */
  lemma AddRowSections(f: NumberFormat, inp: Inp, current: string, tokens: Tokens)
    requires tokens != [] && current in inp.sections
    ensures var r := AddRow(f, inp, current, tokens);
      r.Ok? ==> || r.value.sections == inp.sections
                || r.value.sections == inp.sections[current := inp.sections[current] + [tokens]]
  {
    hide AddToCurve, ReadPoint, AddPoint, HoldsPoints, IsCrossSections, IsCurves;
  }

  /** The rows that have been read so far stay, in front of those that follow. */
  ghost predicate GoesOn(before: Inp, after: Inp) {
    forall name :: name in before.sections ==>
      name in after.sections && before.sections[name] <= after.sections[name]
  }

  /** Nothing that was read is lost, however often the file returns to a section. */
  lemma {:induction false} RowsStay(f: NumberFormat, inp: Inp, current: Option<string>, lines: seq<string>)
    requires current.Some? ==> current.value in inp.sections
    ensures ReadLines(f, inp, current, lines).Ok? ==> GoesOn(inp, ReadLines(f, inp, current, lines).value.0)
    decreases |lines|
  {
    hide ReadLine;
    if lines != [] {
      var first := ReadLine(f, inp, current, lines[0]);
      if first.Ok? {
        LineGoesOn(f, inp, current, lines[0]);
        ReadLineKeepsCurrent(f, inp, current, lines[0]);
        RowsStay(f, first.value.0, first.value.1, lines[1..]);
      }
    }
  }

  lemma LineGoesOn(f: NumberFormat, inp: Inp, current: Option<string>, raw: string)
    requires current.Some? ==> current.value in inp.sections
    ensures ReadLine(f, inp, current, raw).Ok? ==> GoesOn(inp, ReadLine(f, inp, current, raw).value.0)
  {
    hide AddRow, Content, Words, Upper, StripLeft, StripRight, IsHeader;
    ContentHasWords(raw);
    if current.Some? && Content(raw) != "" {
      AddRowSections(f, inp, current.value, Words(Content(raw)));
    }
  }

  lemma ReadLineKeepsCurrent(f: NumberFormat, inp: Inp, current: Option<string>, raw: string)
    requires current.Some? ==> current.value in inp.sections
    ensures var r := ReadLine(f, inp, current, raw);
      r.Ok? && r.value.1.Some? ==> r.value.1.value in r.value.0.sections
  {
    hide AddRow, Content, Words, Upper, StripLeft, StripRight, IsHeader;
    ContentHasWords(raw);
    if current.Some? && Content(raw) != "" {
      AddRowKeepsSections(f, inp, current.value, Words(Content(raw)));
    }
  }

  function ReadLines(f: NumberFormat, inp: Inp, current: Option<string>, lines: seq<string>)
    : Result<(Inp, Option<string>)>
    requires current.Some? ==> current.value in inp.sections
    decreases |lines|
  {
    if lines == [] then Ok((inp, current))
    else
      var first := ReadLine(f, inp, current, lines[0]);
      if first.Err? then first
      else
        ReadLineKeepsCurrent(f, inp, current, lines[0]);
        ReadLines(f, first.value.0, first.value.1, lines[1..])
  }

  /** The parser. */
  method Parse(f: NumberFormat, text: string) returns (r: Result<Inp>)
    ensures r == ParseText(f, text)
  {
    var lines := Lines(text);
    var inp, current: Option<string> := EMPTY_INP, None;
    var i := 0;
    assert lines[0..] == lines;
    while i < |lines|
      invariant 0 <= i <= |lines| && (current.Some? ==> current.value in inp.sections)
      invariant ReadLines(f, EMPTY_INP, None, lines) == ReadLines(f, inp, current, lines[i..])
    {
      assert lines[i..][0] == lines[i] && lines[i..][1..] == lines[i + 1..];
      var next := ReadLine(f, inp, current, lines[i]);
      if next.Err? {
        return Err(next.error);
      }
      ReadLineKeepsCurrent(f, inp, current, lines[i]);
      inp, current := next.value.0, next.value.1;
      i := i + 1;
    }
    return Ok(inp);
  }

  function ParseText(f: NumberFormat, text: string): Result<Inp> {
    var r := ReadLines(f, EMPTY_INP, None, Lines(text));
    if r.Err? then Err(r.error) else Ok(r.value.0)
  }

  // ----- the builder

  /** The conventional order of the sections. */
  function SectionOrder(): seq<string> {
    ["TITLE", "OPTIONS", "EVAPORATION", "RAINGAGES", "SUBCATCHMENTS", "SUBAREAS", "INFILTRATION", "JUNCTIONS",
     "OUTFALLS", "STORAGE", "CONDUITS", "PUMPS", "ORIFICES", "WEIRS", "OUTLETS", XSECTIONS, CURVES, "TIMESERIES",
     "REPORT", COORDINATES, VERTICES, POLYGONS, SYMBOLS]
  }

  predicate NoneTwice(names: seq<string>) {
    forall i, j :: 0 <= i < j < |names| ==> names[i] != names[j]
  }

  /** The names that are not in the canonical order, in the order in which they were added. */
  function Others(names: seq<string>): (r: seq<string>)
    ensures forall name :: name in r <==> name in names && name !in SectionOrder()
    ensures NoneTwice(names) ==> NoneTwice(r)
  {
    if names == [] then []
    else
      var n := |names| - 1;
      assert names == names[..n] + [names[n]];
      if names[n] in SectionOrder() then Others(names[..n])
      else
        var front := Others(names[..n]);
        assert forall i :: 0 <= i < |front| ==> front[i] in front;
        front + [names[n]]
  }

  function Ordered(names: seq<string>): seq<string> {
    SectionOrder() + Others(names)
  }

  function RowsOf(sections: map<string, seq<string>>, name: string): seq<string> {
    if name in sections then sections[name] else []
  }

  function SectionLines(name: string, rows: seq<string>): seq<string> {
    if rows == [] then [] else ["[" + name + "]"] + rows + [""]
  }

  function Chunks(sections: map<string, seq<string>>, ordered: seq<string>): seq<string>
    decreases |ordered|
  {
    if ordered == [] then []
    else SectionLines(ordered[0], RowsOf(sections, ordered[0])) + Chunks(sections, ordered[1..])
  }

  /** The lines joined by line breaks, and a last line break. */
  function Rendered(sections: map<string, seq<string>>, names: seq<string>): string {
    var chunks := Chunks(sections, Ordered(names));
    if chunks == [] then "\n" else Terminated(chunks)
  }

  lemma NothingYet(sections: map<string, seq<string>>)
    ensures Chunks(sections, []) == [] && Ordered([]) == SectionOrder()
  {
  }

  lemma ChunksStep(sections: map<string, seq<string>>, ordered: seq<string>, chunks: seq<string>, k: nat)
    requires k < |ordered|
    ensures var rows := RowsOf(sections, ordered[k]);
      chunks + Chunks(sections, ordered[k..])
      == (if rows == [] then chunks else chunks + (["[" + ordered[k] + "]"] + rows + [""]))
         + Chunks(sections, ordered[k + 1..])
  {
    assert ordered[k..][0] == ordered[k] && ordered[k..][1..] == ordered[k + 1..];
  }

  lemma OneNameMore(names: seq<string>, i: nat)
    requires NoneTwice(names) && i < |names|
    ensures names[i] in Ordered(names[..i]) <==> names[i] in SectionOrder()
    ensures Ordered(names[..i + 1])
         == if names[i] in SectionOrder() then Ordered(names[..i]) else Ordered(names[..i]) + [names[i]]
  {
    hide SectionOrder;
    assert names[..i + 1][..i] == names[..i];
    assert forall j :: 0 <= j < i ==> names[..i][j] == names[j] != names[i];
  }

  class InpBuilder {
    var sections: map<string, seq<string>>
    var names: seq<string>

    ghost predicate Valid()
      reads this
    {
      NoneTwice(names) && forall name :: name in names <==> name in sections
    }

    constructor ()
      ensures Valid() && sections == map[] && names == []
    {
      sections, names := map[], [];
    }

    method Add(section: string, cells: seq<string>)
      requires Valid()
      modifies this
      ensures Valid() && sections == old(sections)[section := RowsOf(old(sections), section) + [Joined(cells)]]
      ensures names == if section in old(names) then old(names) else old(names) + [section]
    {
      if section !in sections {
        assert forall i :: 0 <= i < |names| ==> names[i] in names;
        sections, names := sections[section := []], names + [section];
      }
      sections := sections[section := sections[section] + [Joined(cells)]];
      assert forall name :: name in old(names) ==> name in names;
    }

    method Render() returns (text: string)
      requires Valid()
      ensures text == Rendered(sections, names)
    {
      hide SectionOrder, RowsOf, Chunks, Ordered, Others;
      NothingYet(sections);
      var ordered: seq<string> := SectionOrder();
      for i := 0 to |names|
        invariant ordered == Ordered(names[..i])
      {
        OneNameMore(names, i);
        if names[i] !in ordered {
          ordered := ordered + [names[i]];
        }
      }
      assert names[..|names|] == names;
      var chunks: seq<string>, k := [], 0;
      assert ordered[0..] == ordered;
      while k < |ordered|
        invariant 0 <= k <= |ordered| && chunks + Chunks(sections, ordered[k..]) == Chunks(sections, ordered)
      {
        ChunksStep(sections, ordered, chunks, k);
        var rows := RowsOf(sections, ordered[k]);
        if rows != [] {
          chunks := chunks + (["[" + ordered[k] + "]"] + rows + [""]);
        }
        k := k + 1;
      }
      assert ordered[k..] == [] && chunks + [] == chunks;
      return if chunks == [] then "\n" else Terminated(chunks);
    }
  }

  // ----- reading what was rendered

  predicate PrintableName(name: string) {
    IsContent(name) && Upper(name) == name
  }

  predicate PrintableRow(row: string) {
    row != "" && IsContent(row) && !IsHeader(row)
  }

  predicate Printable(sections: map<string, seq<string>>) {
    forall name :: name in sections ==>
      PrintableName(name) && forall k :: 0 <= k < |sections[name]| ==> PrintableRow(sections[name][k])
  }

  function AddRows(f: NumberFormat, inp: Inp, name: string, rows: seq<string>): (r: Result<Inp>)
    requires name in inp.sections && forall k :: 0 <= k < |rows| ==> Words(rows[k]) != []
    decreases |rows|
  {
    if rows == [] then Ok(inp)
    else
      var first := AddRow(f, inp, name, Words(rows[0]));
      AddRowKeepsSections(f, inp, name, Words(rows[0]));
      if first.Err? then first else AddRows(f, first.value, name, rows[1..])
  }

  lemma PrintableRowHasWords(row: string)
    requires PrintableRow(row)
    ensures Content(row) == row && Words(row) != []
  {
    ContentOf(row);
    ContentHasWords(row);
  }

  lemma HeaderLine(name: string)
    requires PrintableName(name)
    ensures var line := "[" + name + "]";
      Content(line) == line && IsHeader(line) && Upper(StripRight(StripLeft(line[1..|line| - 1]))) == name
  {
    var line := "[" + name + "]";
    ContentOf(line);
    assert line[1..|line| - 1] == name;
    if name != "" {
      assert !IsSpace(name[0]);
    }
  }

  lemma AllHaveWords(rows: seq<string>)
    requires forall k :: 0 <= k < |rows| ==> PrintableRow(rows[k])
    ensures forall k :: 0 <= k < |rows| ==> Words(rows[k]) != []
  {
    hide PrintableRow;
    forall k | 0 <= k < |rows|
      ensures Words(rows[k]) != []
    {
      PrintableRowHasWords(rows[k]);
    }
  }

  lemma {:induction false} AddRowsKeepsSections(f: NumberFormat, inp: Inp, name: string, rows: seq<string>)
    requires name in inp.sections && forall k :: 0 <= k < |rows| ==> Words(rows[k]) != []
    ensures AddRows(f, inp, name, rows).Ok? ==> AddRows(f, inp, name, rows).value.sections.Keys == inp.sections.Keys
    decreases |rows|
  {
    hide AddRow, Words;
    if rows != [] {
      AddRowKeepsSections(f, inp, name, Words(rows[0]));
      if AddRow(f, inp, name, Words(rows[0])).Ok? {
        AddRowsKeepsSections(f, AddRow(f, inp, name, Words(rows[0])).value, name, rows[1..]);
      }
    }
  }

  /** Reading from what has been read so far, unless that failed. */
  function ReadOn(f: NumberFormat, so: Result<Inp>, name: string, lines: seq<string>): Result<(Inp, Option<string>)>
    requires so.Ok? ==> name in so.value.sections
  {
    if so.Err? then Err(so.error) else ReadLines(f, so.value, Some(name), lines)
  }

  lemma ReadRow(f: NumberFormat, inp: Inp, name: string, row: string)
    requires name in inp.sections && PrintableRow(row)
    ensures Words(row) != []
    ensures ReadLine(f, inp, Some(name), row)
         == var added := AddRow(f, inp, name, Words(row));
            if added.Err? then Err(added.error) else Ok((added.value, Some(name)))
  {
    hide Content, Words, AddRow, IsContent;
    PrintableRowHasWords(row);
  }

  lemma {:induction false} ReadRows(f: NumberFormat, inp: Inp, name: string, rows: seq<string>, lines: seq<string>)
    requires name in inp.sections && forall k :: 0 <= k < |rows| ==> PrintableRow(rows[k]) && Words(rows[k]) != []
    ensures var added := AddRows(f, inp, name, rows);
      && (added.Ok? ==> name in added.value.sections)
      && ReadLines(f, inp, Some(name), rows + ([""] + lines)) == ReadOn(f, added, name, lines)
    decreases |rows|
  {
    hide Content, Words, AddRow, IsContent, ReadLine, PrintableRow;
    AddRowsKeepsSections(f, inp, name, rows);
    var all := rows + ([""] + lines);
    if rows == [] {
      assert all == [""] + lines && all[0] == "" && all[1..] == lines;
      EmptyLine(f, inp, Some(name));
    } else {
      assert all[0] == rows[0] && all[1..] == rows[1..] + ([""] + lines);
      ReadRow(f, inp, name, rows[0]);
      AddRowKeepsSections(f, inp, name, Words(rows[0]));
      var first := AddRow(f, inp, name, Words(rows[0]));
      if first.Ok? {
        ReadRows(f, first.value, name, rows[1..], lines);
      }
    }
  }

  lemma EmptyLine(f: NumberFormat, inp: Inp, current: Option<string>)
    requires current.Some? ==> current.value in inp.sections
    ensures ReadLine(f, inp, current, "") == Ok((inp, current))
  {
  }

  lemma ReadHeader(f: NumberFormat, inp: Inp, current: Option<string>, name: string)
    requires PrintableName(name) && (current.Some? ==> current.value in inp.sections)
    ensures ReadLine(f, inp, current, "[" + name + "]") == Ok((OpenSection(inp, name), Some(name)))
  {
    hide Content, Words, AddRow, IsContent, Upper, StripLeft, StripRight, PrintableName;
    HeaderLine(name);
  }

  ghost predicate AllRowsHaveWords(sections: map<string, seq<string>>) {
    forall name :: name in sections ==> forall k :: 0 <= k < |sections[name]| ==> Words(sections[name][k]) != []
  }

  /** What reading the sections in this order gives, token row by token row. */
  ghost function AddSections(f: NumberFormat, inp: Inp, sections: map<string, seq<string>>, ordered: seq<string>)
    : Result<Inp>
    requires AllRowsHaveWords(sections)
    decreases |ordered|
  {
    if ordered == [] then Ok(inp)
    else
      var rows := RowsOf(sections, ordered[0]);
      if rows == [] then AddSections(f, inp, sections, ordered[1..])
      else
        var added := AddRows(f, OpenSection(inp, ordered[0]), ordered[0], rows);
        if added.Err? then added else AddSections(f, added.value, sections, ordered[1..])
  }

  lemma PrintableHasWords(sections: map<string, seq<string>>)
    requires Printable(sections)
    ensures AllRowsHaveWords(sections)
  {
    hide PrintableRow;
    forall name | name in sections
      ensures forall k :: 0 <= k < |sections[name]| ==> Words(sections[name][k]) != []
    {
      AllHaveWords(sections[name]);
    }
  }

  function InpOf(r: Result<(Inp, Option<string>)>): Result<Inp> {
    if r.Err? then Err(r.error) else Ok(r.value.0)
  }

  lemma ReadSection(f: NumberFormat, inp: Inp, current: Option<string>, name: string, rows: seq<string>,
                    lines: seq<string>)
    requires PrintableName(name) && (current.Some? ==> current.value in inp.sections)
    requires rows != [] && forall k :: 0 <= k < |rows| ==> PrintableRow(rows[k]) && Words(rows[k]) != []
    ensures var added := AddRows(f, OpenSection(inp, name), name, rows);
      && (added.Ok? ==> name in added.value.sections)
      && ReadLines(f, inp, current, SectionLines(name, rows) + lines) == ReadOn(f, added, name, lines)
  {
    hide ReadLine, AddRow, PrintableRow, PrintableName, Words;
    var all := SectionLines(name, rows) + lines;
    assert all == ["[" + name + "]"] + (rows + ([""] + lines));
    assert all[0] == "[" + name + "]" && all[1..] == rows + ([""] + lines);
    ReadHeader(f, inp, current, name);
    ReadRows(f, OpenSection(inp, name), name, rows, lines);
  }

  lemma {:induction false} ReadSections(f: NumberFormat, inp: Inp, current: Option<string>,
                                        sections: map<string, seq<string>>,
                                        ordered: seq<string>)
    requires Printable(sections) && AllRowsHaveWords(sections) && (current.Some? ==> current.value in inp.sections)
    ensures InpOf(ReadLines(f, inp, current, Chunks(sections, ordered) + [""]))
         == AddSections(f, inp, sections, ordered)
    decreases |ordered|
  {
    hide ReadLine, ReadLines, AddRow, AddRows, PrintableRow, PrintableName, Words, SectionLines;
    if ordered == [] {
      LastLine(f, inp, current);
      assert [] + [""] == [""];
    } else {
      var name, rows, more := ordered[0], RowsOf(sections, ordered[0]), Chunks(sections, ordered[1..]);
      if rows == [] {
        NoLines(name);
        assert [] + more == more;
        ReadSections(f, inp, current, sections, ordered[1..]);
      } else {
        assert (SectionLines(name, rows) + more) + [""] == SectionLines(name, rows) + (more + [""]);
        ReadSection(f, inp, current, name, rows, more + [""]);
        var added := AddRows(f, OpenSection(inp, name), name, rows);
        if added.Ok? {
          ReadSections(f, added.value, Some(name), sections, ordered[1..]);
        }
      }
    }
  }

  lemma NoLines(name: string)
    ensures SectionLines(name, []) == []
  {
  }

  lemma LastLine(f: NumberFormat, inp: Inp, current: Option<string>)
    requires current.Some? ==> current.value in inp.sections
    ensures ReadLines(f, inp, current, [""]) == Ok((inp, current))
  {
    EmptyLine(f, inp, current);
    assert [""][1..] == [];
  }

  lemma {:induction false} ChunksHaveNoBreaks(sections: map<string, seq<string>>, ordered: seq<string>)
    requires Printable(sections)
    ensures forall k :: 0 <= k < |Chunks(sections, ordered)| ==> IsContent(Chunks(sections, ordered)[k])
    decreases |ordered|
  {
    hide IsContent, Upper, IsHeader;
    if ordered != [] {
      ChunksHaveNoBreaks(sections, ordered[1..]);
      if RowsOf(sections, ordered[0]) != [] {
        HeaderIsContent(ordered[0]);
        NothingIsContent();
      }
    }
  }

  lemma HeaderIsContent(name: string)
    requires IsContent(name)
    ensures IsContent("[" + name + "]")
  {
  }

  lemma NothingIsContent()
    ensures IsContent("")
  {
  }

  /** Rendering and then parsing gives what the sections hold, token row by token row. */
  lemma ParseOfRendered(f: NumberFormat, sections: map<string, seq<string>>, names: seq<string>)
    requires Printable(sections)
    ensures AllRowsHaveWords(sections)
    ensures ParseText(f, Rendered(sections, names)) == AddSections(f, EMPTY_INP, sections, Ordered(names))
  {
    hide ReadLine, AddRow, PrintableRow, PrintableName, Words, Ordered, Printable;
    PrintableHasWords(sections);
    var chunks := Chunks(sections, Ordered(names));
    ReadSections(f, EMPTY_INP, None, sections, Ordered(names));
    if chunks == [] {
      assert Lines("\n") == ["", ""];
      EmptyLine(f, EMPTY_INP, None);
      LastLine(f, EMPTY_INP, None);
      assert ["", ""][1..] == [""];
      assert ReadLines(f, EMPTY_INP, None, ["", ""]) == Ok((EMPTY_INP, None));
      assert chunks + [""] == [""];
    } else {
      ChunksHaveNoBreaks(sections, Ordered(names));
      LinesOfTerminated(chunks);
    }
  }
}
