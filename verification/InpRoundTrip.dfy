/** What an `.inp` file that was rendered and parsed again holds: the rows of every ordinary section and
    the curves, under their names. */
module InpRoundTrip {
  import opened Cells
  import opened Decimals
  import opened InpText
  import opened InpFiles

  /** A section that is kept as a list of rows. */
  predicate Ordinary(section: string) {
    !HoldsPoints(section) && section != XSECTIONS && section != CURVES
  }

  function RowTokens(rows: seq<string>): (r: seq<Tokens>)
    ensures |r| == |rows|
  {
    seq(|rows|, k requires 0 <= k < |rows| => Words(rows[k]))
  }

  // ----- when reading fails

  /** The numbers in the row can be read. */
  predicate Readable(f: NumberFormat, section: string, tokens: Tokens)
    requires tokens != []
  {
    if HoldsPoints(section) && |tokens| >= 3 then ReadPoint(f, tokens[1], tokens[2]).Ok?
    else section == CURVES ==> AddToCurve(f, Curve(None, []), tokens[1..]).Ok?
  }

  lemma RowIsReadable(f: NumberFormat, inp: Inp, section: string, tokens: Tokens)
    requires tokens != [] && section in inp.sections
    ensures AddRow(f, inp, section, tokens).Ok? <==> Readable(f, section, tokens)
  {
  }

  lemma {:induction false} RowsAreReadable(f: NumberFormat, inp: Inp, section: string, rows: seq<string>)
    requires section in inp.sections && forall k :: 0 <= k < |rows| ==> Words(rows[k]) != []
    ensures AddRows(f, inp, section, rows).Ok? <==> forall k :: 0 <= k < |rows| ==> Readable(f, section, Words(rows[k]))
    decreases |rows|
  {
    hide AddRow, Words, Readable;
    if rows != [] {
      RowIsReadable(f, inp, section, Words(rows[0]));
      AddRowKeepsSections(f, inp, section, Words(rows[0]));
      var first := AddRow(f, inp, section, Words(rows[0]));
      if first.Ok? {
        RowsAreReadable(f, first.value, section, rows[1..]);
        assert forall k :: 0 < k < |rows| ==> rows[1..][k - 1] == rows[k];
      }
    }
  }

  ghost predicate SectionIsReadable(f: NumberFormat, sections: map<string, seq<string>>, name: string)
    requires AllRowsHaveWords(sections)
  {
    forall k :: 0 <= k < |RowsOf(sections, name)| ==> Readable(f, name, Words(RowsOf(sections, name)[k]))
  }

  lemma {:induction false} SectionsAreReadable(f: NumberFormat, inp: Inp, sections: map<string, seq<string>>,
                                               ordered: seq<string>)
    requires AllRowsHaveWords(sections)
    ensures AddSections(f, inp, sections, ordered).Ok?
       <==> forall i :: 0 <= i < |ordered| ==> SectionIsReadable(f, sections, ordered[i])
    decreases |ordered|
  {
    hide AddRows, Words, Readable;
    if ordered != [] {
      var name, rows := ordered[0], RowsOf(sections, ordered[0]);
      assert forall i :: 0 < i < |ordered| ==> ordered[1..][i - 1] == ordered[i];
      if rows == [] {
        SectionsAreReadable(f, inp, sections, ordered[1..]);
      } else {
        RowsAreReadable(f, OpenSection(inp, name), name, rows);
        var added := AddRows(f, OpenSection(inp, name), name, rows);
        if added.Ok? {
          SectionsAreReadable(f, added.value, sections, ordered[1..]);
        }
      }
    }
  }

  // ----- ordinary sections

  /** The rows of a section that was read, if it was. */
  function Read(inp: Inp, section: string): Option<seq<Tokens>> {
    if section in inp.sections then Some(inp.sections[section]) else None
  }

  lemma RowElsewhere(f: NumberFormat, inp: Inp, section: string, tokens: Tokens, other: string)
    requires tokens != [] && section in inp.sections && AddRow(f, inp, section, tokens).Ok?
    ensures other != section ==> Read(AddRow(f, inp, section, tokens).value, other) == Read(inp, other)
    ensures Ordinary(section) ==>
      Read(AddRow(f, inp, section, tokens).value, section) == Some(inp.sections[section] + [tokens])
    ensures section != CURVES ==> AddRow(f, inp, section, tokens).value.curves == inp.curves
  {
    hide AddToCurve, ReadPoint, AddPoint;
  }

  lemma {:induction false} RowsElsewhere(f: NumberFormat, inp: Inp, section: string, rows: seq<string>, other: string)
    requires section in inp.sections && (forall k :: 0 <= k < |rows| ==> Words(rows[k]) != [])
    requires AddRows(f, inp, section, rows).Ok?
    ensures other != section ==> Read(AddRows(f, inp, section, rows).value, other) == Read(inp, other)
    ensures Ordinary(section) ==>
      Read(AddRows(f, inp, section, rows).value, section) == Some(inp.sections[section] + RowTokens(rows))
    ensures section != CURVES ==> AddRows(f, inp, section, rows).value.curves == inp.curves
    decreases |rows|
  {
    hide AddRow, Words, Ordinary;
    if rows == [] {
      assert inp.sections[section] + RowTokens(rows) == inp.sections[section];
    } else {
      RowElsewhere(f, inp, section, Words(rows[0]), other);
      AddRowKeepsSections(f, inp, section, Words(rows[0]));
      var first := AddRow(f, inp, section, Words(rows[0])).value;
      RowsElsewhere(f, first, section, rows[1..], other);
      assert (inp.sections[section] + [Words(rows[0])]) + RowTokens(rows[1..])
           == inp.sections[section] + RowTokens(rows);
    }
  }

  lemma OpeningElsewhere(inp: Inp, name: string, other: string)
    ensures name in OpenSection(inp, name).sections && OpenSection(inp, name).curves == inp.curves
    ensures other != name ==> Read(OpenSection(inp, name), other) == Read(inp, other)
    ensures name !in inp.sections ==> OpenSection(inp, name).sections[name] == []
  {
  }

  lemma {:induction false} NotTouched(f: NumberFormat, inp: Inp, sections: map<string, seq<string>>,
                                      ordered: seq<string>, other: string)
    requires AllRowsHaveWords(sections) && AddSections(f, inp, sections, ordered).Ok?
    ensures other !in ordered || RowsOf(sections, other) == [] ==>
      Read(AddSections(f, inp, sections, ordered).value, other) == Read(inp, other)
    ensures CURVES !in ordered ==> AddSections(f, inp, sections, ordered).value.curves == inp.curves
    decreases |ordered|
  {
    hide AddRows, Words, Ordinary, OpenSection, Read;
    if ordered != [] {
      var name, rows := ordered[0], RowsOf(sections, ordered[0]);
      assert ordered == [name] + ordered[1..];
      if rows == [] {
        NotTouched(f, inp, sections, ordered[1..], other);
      } else {
        OpeningElsewhere(inp, name, other);
        RowsElsewhere(f, OpenSection(inp, name), name, rows, other);
        NotTouched(f, AddRows(f, OpenSection(inp, name), name, rows).value, sections, ordered[1..], other);
      }
    }
  }

  lemma {:induction false} OrdinarySection(f: NumberFormat, inp: Inp, sections: map<string, seq<string>>,
                                           ordered: seq<string>, name: string)
    requires AllRowsHaveWords(sections) && AddSections(f, inp, sections, ordered).Ok?
    requires NoneTwice(ordered) && name in ordered && Ordinary(name) && RowsOf(sections, name) != []
    requires name !in inp.sections
    ensures Read(AddSections(f, inp, sections, ordered).value, name) == Some(RowTokens(sections[name]))
    decreases |ordered|
  {
    hide AddRows, Words, Ordinary, OpenSection;
    OpeningElsewhere(inp, ordered[0], name);
    var first, rows, rest := ordered[0], RowsOf(sections, ordered[0]), ordered[1..];
    assert NoneTwice(rest) && first !in rest && (name == first || name in rest);
    if rows == [] {
      OrdinarySection(f, inp, sections, rest, name);
    } else {
      RowsElsewhere(f, OpenSection(inp, first), first, rows, name);
      var added := AddRows(f, OpenSection(inp, first), first, rows).value;
      if name == first {
        NotTouched(f, added, sections, rest, name);
        assert [] + RowTokens(rows) == RowTokens(rows);
      } else {
        OrdinarySection(f, added, sections, rest, name);
      }
    }
  }

  lemma SectionOrderHasNoneTwice()
    ensures NoneTwice(SectionOrder()) && CURVES in SectionOrder()
  {
    assert SectionOrder()[16] == CURVES;
  }

  lemma OrderedHasNoneTwice(names: seq<string>)
    requires NoneTwice(names)
    ensures NoneTwice(Ordered(names)) && CURVES in Ordered(names)
    ensures forall name :: name in names ==> name in Ordered(names)
  {
    hide SectionOrder;
    SectionOrderHasNoneTwice();
    var others := Others(names);
    assert forall i :: 0 <= i < |others| ==> others[i] in others && others[i] !in SectionOrder();
  }

  /** A rendered file parses exactly when all numbers in it can be read, and then every ordinary
      section has the rows that were added to it, token by token. */
  lemma SectionsRoundTrip(f: NumberFormat, sections: map<string, seq<string>>, names: seq<string>)
    requires Printable(sections) && NoneTwice(names) && forall name :: name in names <==> name in sections
    ensures AllRowsHaveWords(sections)
    ensures ParseText(f, Rendered(sections, names)).Ok?
       <==> forall name :: name in sections ==> SectionIsReadable(f, sections, name)
    ensures ParseText(f, Rendered(sections, names)).Ok? ==>
      forall name :: name in sections && Ordinary(name) && sections[name] != [] ==>
      Read(ParseText(f, Rendered(sections, names)).value, name) == Some(RowTokens(sections[name]))
  {
    hide Printable, Ordered, Ordinary, Readable, Words, RowTokens, AddSections, Rendered, ParseText;
    ParseOfRendered(f, sections, names);
    OrderedHasNoneTwice(names);
    var ordered := Ordered(names);
    SectionsAreReadable(f, EMPTY_INP, sections, ordered);
    if forall name :: name in sections ==> SectionIsReadable(f, sections, name) {
      forall i | 0 <= i < |ordered|
        ensures SectionIsReadable(f, sections, ordered[i])
      {
        if ordered[i] !in sections {
          assert RowsOf(sections, ordered[i]) == [];
        }
      }
    }
    if ParseText(f, Rendered(sections, names)).Ok? {
      forall name | name in sections && Ordinary(name) && sections[name] != []
        ensures Read(ParseText(f, Rendered(sections, names)).value, name) == Some(RowTokens(sections[name]))
      {
        OrdinarySection(f, EMPTY_INP, sections, ordered, name);
      }
    }
  }

  // ----- points and cross sections

  /** The row is kept under the name that it begins with; a row of a section of points needs two numbers. */
  predicate KeptUnder(section: string, name: string, tokens: Tokens)
    requires tokens != []
  {
    tokens[0] == name && (IsCrossSections(section) || |tokens| >= 3)
  }

  /** The rows that are kept under a name, in their order. */
  function RowsUnder(section: string, name: string, rows: seq<string>): (r: seq<Tokens>)
    requires forall k :: 0 <= k < |rows| ==> Words(rows[k]) != []
    decreases |rows|
  {
    if rows == [] then []
    else
      (if KeptUnder(section, name, Words(rows[0])) then [Words(rows[0])] else [])
      + RowsUnder(section, name, rows[1..])
  }

  predicate IsPointOf(f: NumberFormat, point: Point, row: Tokens) {
    |row| >= 3 && f.read(row[1]) == Some(point.0) && f.read(row[2]) == Some(point.1)
  }

  predicate LastPoint(f: NumberFormat, points: map<string, Point>, name: string, rows: seq<Tokens>) {
    if rows == [] then name !in points
    else name in points && IsPointOf(f, points[name], rows[|rows| - 1])
  }

  predicate AllPoints(f: NumberFormat, points: map<string, seq<Point>>, name: string, rows: seq<Tokens>) {
    if rows == [] then name !in points
    else
      && name in points && |points[name]| == |rows|
      && forall k :: 0 <= k < |rows| ==> IsPointOf(f, points[name][k], rows[k])
  }

  /** The file keeps what the rows under a name say: coordinates and symbols have the last point, vertices and
      polygons all points in their order, and cross sections the last row. */
  predicate Keeps(f: NumberFormat, inp: Inp, section: string, name: string, rows: seq<Tokens>) {
    if IsCoordinates(section) then LastPoint(f, inp.coordinates, name, rows)
    else if IsSymbols(section) then LastPoint(f, inp.symbols, name, rows)
    else if IsVertices(section) then AllPoints(f, inp.vertices, name, rows)
    else if IsPolygons(section) then AllPoints(f, inp.polygons, name, rows)
    else if IsCrossSections(section) then LastRow(inp.xsections, name, rows)
    else true
  }

  predicate LastRow(kept: map<string, Tokens>, name: string, rows: seq<Tokens>) {
    if rows == [] then name !in kept else name in kept && kept[name] == rows[|rows| - 1]
  }

  predicate IsKept(section: string) {
    HoldsPoints(section) || IsCrossSections(section)
  }

  lemma SectionsDiffer(section: string, other: string)
    ensures IsCoordinates(section) && IsCoordinates(other) ==> section == other
    ensures IsSymbols(section) && IsSymbols(other) ==> section == other
    ensures IsVertices(section) && IsVertices(other) ==> section == other
    ensures IsPolygons(section) && IsPolygons(other) ==> section == other
    ensures IsCrossSections(section) && IsCrossSections(other) ==> section == other
    ensures IsVertices(section) ==> !IsCoordinates(section) && !IsSymbols(section)
    ensures IsPolygons(section) ==> !IsCoordinates(section) && !IsSymbols(section) && !IsVertices(section)
    ensures IsCrossSections(section) ==> !HoldsPoints(section)
    ensures IsCurves(section) ==> !HoldsPoints(section) && !IsCrossSections(section)
  {
  }

  lemma PointIsKept(f: NumberFormat, inp: Inp, section: string, tokens: Tokens, point: Point, name: string,
                    rows: seq<Tokens>)
    requires HoldsPoints(section) && |tokens| >= 3 && ReadPoint(f, tokens[1], tokens[2]) == Ok(point)
    requires Keeps(f, inp, section, name, rows)
    ensures Keeps(f, AddPoint(inp, section, tokens[0], point), section, name,
                  rows + if tokens[0] == name then [tokens] else [])
  {
    hide IsCoordinates, IsSymbols, IsVertices, IsPolygons, IsCrossSections, AllPoints;
    SectionsDiffer(section, section);
    assert rows + [] == rows;
    if IsVertices(section) {
      PointJoins(f, inp.vertices, tokens, point, name, rows);
    } else if IsPolygons(section) {
      PointJoins(f, inp.polygons, tokens, point, name, rows);
    }
  }

  lemma PointJoins(f: NumberFormat, points: map<string, seq<Point>>, tokens: Tokens, point: Point, name: string,
                   rows: seq<Tokens>)
    requires |tokens| >= 3 && ReadPoint(f, tokens[1], tokens[2]) == Ok(point) && AllPoints(f, points, name, rows)
    ensures AllPoints(f, points[tokens[0] := PointsAt(points, tokens[0]) + [point]], name,
                      rows + if tokens[0] == name then [tokens] else [])
  {
    assert rows + [] == rows;
  }

  lemma RowIsKept(f: NumberFormat, inp: Inp, section: string, tokens: Tokens, name: string, rows: seq<Tokens>)
    requires tokens != [] && section in inp.sections && AddRow(f, inp, section, tokens).Ok? && IsKept(section)
    requires Keeps(f, inp, section, name, rows)
    ensures Keeps(f, AddRow(f, inp, section, tokens).value, section, name,
                  rows + if KeptUnder(section, name, tokens) then [tokens] else [])
  {
    hide AddToCurve, ReadPoint, AddPoint, LastPoint, AllPoints, IsCoordinates, IsSymbols, IsVertices, IsPolygons,
         IsCrossSections, IsCurves;
    SectionsDiffer(section, section);
    assert rows + [] == rows;
    if HoldsPoints(section) && |tokens| >= 3 {
      PointIsKept(f, inp, section, tokens, ReadPoint(f, tokens[1], tokens[2]).value, name, rows);
    }
  }

  lemma RowKeepsOthers(f: NumberFormat, inp: Inp, section: string, tokens: Tokens, other: string, name: string,
                       rows: seq<Tokens>)
    requires tokens != [] && section in inp.sections && AddRow(f, inp, section, tokens).Ok? && other != section
    ensures Keeps(f, AddRow(f, inp, section, tokens).value, other, name, rows) == Keeps(f, inp, other, name, rows)
  {
    hide AddToCurve, ReadPoint, AddPoint, Keeps, IsCoordinates, IsSymbols, IsVertices, IsPolygons, IsCrossSections,
         IsCurves;
    SectionsDiffer(section, other);
    if HoldsPoints(section) && |tokens| >= 3 {
      PointKeepsOthers(f, inp, section, tokens[0], ReadPoint(f, tokens[1], tokens[2]).value, other, name, rows);
    } else {
      SameKept(f, inp, AddRow(f, inp, section, tokens).value, other, name, rows);
    }
  }

  lemma PointKeepsOthers(f: NumberFormat, inp: Inp, section: string, at: string, point: Point, other: string,
                         name: string, rows: seq<Tokens>)
    requires HoldsPoints(section) && other != section
    ensures Keeps(f, AddPoint(inp, section, at, point), other, name, rows) == Keeps(f, inp, other, name, rows)
  {
    hide LastPoint, AllPoints, LastRow, PointsAt, IsCoordinates, IsSymbols, IsVertices, IsPolygons, IsCrossSections;
    SectionsDiffer(section, other);
  }

  lemma SameKept(f: NumberFormat, a: Inp, b: Inp, section: string, name: string, rows: seq<Tokens>)
    requires a.coordinates == b.coordinates && a.symbols == b.symbols && a.vertices == b.vertices
    requires a.polygons == b.polygons && (IsCrossSections(section) ==> a.xsections == b.xsections)
    ensures Keeps(f, a, section, name, rows) == Keeps(f, b, section, name, rows)
  {
    hide LastPoint, AllPoints, LastRow, IsCoordinates, IsSymbols, IsVertices, IsPolygons, IsCrossSections;
  }

  lemma {:induction false} RowsAreKept(f: NumberFormat, inp: Inp, section: string, rows: seq<string>, name: string,
                                       before: seq<Tokens>)
    requires section in inp.sections && (forall k :: 0 <= k < |rows| ==> Words(rows[k]) != [])
    requires AddRows(f, inp, section, rows).Ok? && IsKept(section) && Keeps(f, inp, section, name, before)
    ensures Keeps(f, AddRows(f, inp, section, rows).value, section, name, before + RowsUnder(section, name, rows))
    decreases |rows|
  {
    hide AddRow, Words, Keeps, KeptUnder, IsKept;
    if rows == [] {
      assert before + [] == before;
    } else {
      var tokens := Words(rows[0]);
      RowIsKept(f, inp, section, tokens, name, before);
      AddRowKeepsSections(f, inp, section, tokens);
      var one := if KeptUnder(section, name, tokens) then [tokens] else [];
      RowsAreKept(f, AddRow(f, inp, section, tokens).value, section, rows[1..], name, before + one);
      assert (before + one) + RowsUnder(section, name, rows[1..]) == before + RowsUnder(section, name, rows);
    }
  }

  lemma {:induction false} RowsKeepOthers(f: NumberFormat, inp: Inp, section: string, rows: seq<string>, other: string,
                                          name: string, kept: seq<Tokens>)
    requires section in inp.sections && (forall k :: 0 <= k < |rows| ==> Words(rows[k]) != [])
    requires AddRows(f, inp, section, rows).Ok? && other != section
    ensures Keeps(f, AddRows(f, inp, section, rows).value, other, name, kept) == Keeps(f, inp, other, name, kept)
    decreases |rows|
  {
    hide AddRow, Words, Keeps;
    if rows != [] {
      RowKeepsOthers(f, inp, section, Words(rows[0]), other, name, kept);
      AddRowKeepsSections(f, inp, section, Words(rows[0]));
      RowsKeepOthers(f, AddRow(f, inp, section, Words(rows[0])).value, section, rows[1..], other, name, kept);
    }
  }

  lemma OpeningKeeps(f: NumberFormat, inp: Inp, section: string, other: string, name: string, kept: seq<Tokens>)
    ensures section in OpenSection(inp, section).sections
    ensures Keeps(f, OpenSection(inp, section), other, name, kept) == Keeps(f, inp, other, name, kept)
  {
  }

  lemma {:induction false} SectionsKeep(f: NumberFormat, inp: Inp, sections: map<string, seq<string>>,
                                        ordered: seq<string>, section: string, name: string, kept: seq<Tokens>)
    requires AllRowsHaveWords(sections) && AddSections(f, inp, sections, ordered).Ok? && NoneTwice(ordered)
    requires IsKept(section) && Keeps(f, inp, section, name, kept)
    ensures Keeps(f, AddSections(f, inp, sections, ordered).value, section, name,
                  kept + if section in ordered then RowsUnder(section, name, RowsOf(sections, section)) else [])
    decreases |ordered|
  {
    hide AddRows, Words, OpenSection, Keeps, KeptUnder, IsKept;
    if ordered == [] {
      assert kept + [] == kept;
    } else {
      var first, rows, rest := ordered[0], RowsOf(sections, ordered[0]), ordered[1..];
      assert NoneTwice(rest) && first !in rest && ordered == [first] + rest;
      if rows == [] {
        assert section == first ==> RowsUnder(section, name, RowsOf(sections, section)) == [];
        SectionsKeep(f, inp, sections, rest, section, name, kept);
      } else {
        OpeningKeeps(f, inp, first, section, name, kept);
        var started := OpenSection(inp, first);
        var added := AddRows(f, started, first, rows).value;
        if section == first {
          RowsAreKept(f, started, first, rows, name, kept);
          SectionsKeep(f, added, sections, rest, section, name, kept + RowsUnder(section, name, rows));
          assert (kept + RowsUnder(section, name, rows)) + [] == kept + RowsUnder(section, name, rows);
        } else {
          RowsKeepOthers(f, started, first, rows, section, name, kept);
          SectionsKeep(f, added, sections, rest, section, name, kept);
        }
      }
    }
  }

  lemma KeptInOrder(names: seq<string>)
    ensures forall section :: IsKept(section) ==> section in Ordered(names)
  {
    hide Others;
    var order := SectionOrder();
    assert order[15] == "XSECTIONS" && order[19] == "COORDINATES" && order[20] == "VERTICES";
    assert order[21] == "POLYGONS" && order[22] == "SYMBOLS";
  }

  lemma KeptInRendered(f: NumberFormat, sections: map<string, seq<string>>, names: seq<string>, section: string,
                       name: string)
    requires Printable(sections) && NoneTwice(names) && ParseText(f, Rendered(sections, names)).Ok? && IsKept(section)
    ensures AllRowsHaveWords(sections)
    ensures Keeps(f, ParseText(f, Rendered(sections, names)).value, section, name,
                  RowsUnder(section, name, RowsOf(sections, section)))
  {
    hide Printable, Ordered, Words, AddSections, Rendered, ParseText, IsKept, RowsUnder;
    ParseOfRendered(f, sections, names);
    OrderedHasNoneTwice(names);
    KeptInOrder(names);
    NothingKept(f, section, name);
    SectionsKeep(f, EMPTY_INP, sections, Ordered(names), section, name, []);
    var under := RowsUnder(section, name, RowsOf(sections, section));
    assert [] + under == under;
  }

  /** The points and cross sections of a rendered file are those of the rows under their names: the last point for
      coordinates and symbols, all points in their order for vertices and polygons, the last row for cross
      sections. */
  lemma GeometryOfRendered(f: NumberFormat, sections: map<string, seq<string>>, names: seq<string>, name: string)
    requires Printable(sections) && NoneTwice(names) && ParseText(f, Rendered(sections, names)).Ok?
    ensures AllRowsHaveWords(sections)
    ensures var inp := ParseText(f, Rendered(sections, names)).value;
      && LastPoint(f, inp.coordinates, name, RowsUnder("COORDINATES", name, RowsOf(sections, "COORDINATES")))
      && LastPoint(f, inp.symbols, name, RowsUnder("SYMBOLS", name, RowsOf(sections, "SYMBOLS")))
      && AllPoints(f, inp.vertices, name, RowsUnder("VERTICES", name, RowsOf(sections, "VERTICES")))
      && AllPoints(f, inp.polygons, name, RowsUnder("POLYGONS", name, RowsOf(sections, "POLYGONS")))
      && LastRow(inp.xsections, name, RowsUnder("XSECTIONS", name, RowsOf(sections, "XSECTIONS")))
  {
    hide Printable, Ordered, Words, Rendered, ParseText, RowsUnder, LastPoint, AllPoints, LastRow, RowsOf, Keeps;
    var inp := ParseText(f, Rendered(sections, names)).value;
    KeepsMeans(f, inp, name);
    KeptInRendered(f, sections, names, COORDINATES, name);
    KeptInRendered(f, sections, names, SYMBOLS, name);
    KeptInRendered(f, sections, names, VERTICES, name);
    KeptInRendered(f, sections, names, POLYGONS, name);
    KeptInRendered(f, sections, names, XSECTIONS, name);
  }

  lemma KeepsMeans(f: NumberFormat, inp: Inp, name: string)
    ensures forall rows :: Keeps(f, inp, "COORDINATES", name, rows) == LastPoint(f, inp.coordinates, name, rows)
    ensures forall rows :: Keeps(f, inp, "SYMBOLS", name, rows) == LastPoint(f, inp.symbols, name, rows)
    ensures forall rows :: Keeps(f, inp, "VERTICES", name, rows) == AllPoints(f, inp.vertices, name, rows)
    ensures forall rows :: Keeps(f, inp, "POLYGONS", name, rows) == AllPoints(f, inp.polygons, name, rows)
    ensures forall rows :: Keeps(f, inp, "XSECTIONS", name, rows) == LastRow(inp.xsections, name, rows)
  {
    hide LastPoint, AllPoints, LastRow;
  }

  lemma NothingKept(f: NumberFormat, section: string, name: string)
    ensures Keeps(f, EMPTY_INP, section, name, [])
  {
  }

  // ----- curves

  /** What the rows of the curves section add. */
  function AddCurves(f: NumberFormat, curves: map<string, Curve>, rows: seq<Tokens>): Result<map<string, Curve>>
    requires forall k :: 0 <= k < |rows| ==> rows[k] != []
    decreases |rows|
  {
    if rows == [] then Ok(curves)
    else
      var curve := AddToCurve(f, CurveAt(curves, rows[0][0]), rows[0][1..]);
      if curve.Err? then Err(curve.error) else AddCurves(f, curves[rows[0][0] := curve.value], rows[1..])
  }

  function CurvesOf(r: Result<Inp>): Result<map<string, Curve>> {
    if r.Err? then Err(r.error) else Ok(r.value.curves)
  }

  lemma {:induction false} CurveRowsAdd(f: NumberFormat, inp: Inp, rows: seq<string>)
    requires CURVES in inp.sections && forall k :: 0 <= k < |rows| ==> Words(rows[k]) != []
    ensures CurvesOf(AddRows(f, inp, CURVES, rows)) == AddCurves(f, inp.curves, RowTokens(rows))
    decreases |rows|
  {
    hide Words, AddToCurve;
    if rows != [] {
      AddRowKeepsSections(f, inp, CURVES, Words(rows[0]));
      assert RowTokens(rows)[1..] == RowTokens(rows[1..]);
      var first := AddRow(f, inp, CURVES, Words(rows[0]));
      if first.Ok? {
        CurveRowsAdd(f, first.value, rows[1..]);
      }
    }
  }

  lemma {:induction false} CurveSection(f: NumberFormat, inp: Inp, sections: map<string, seq<string>>,
                                        ordered: seq<string>)
    requires AllRowsHaveWords(sections) && AddSections(f, inp, sections, ordered).Ok? && NoneTwice(ordered)
    requires CURVES in ordered
    ensures CurveRowsHaveWords(sections)
    ensures AddCurves(f, inp.curves, RowTokens(RowsOf(sections, CURVES)))
         == Ok(AddSections(f, inp, sections, ordered).value.curves)
    decreases |ordered|
  {
    hide AddRows, Words, AddToCurve, OpenSection;
    var name, rows, rest := ordered[0], RowsOf(sections, ordered[0]), ordered[1..];
    OpeningElsewhere(inp, name, CURVES);
    assert NoneTwice(rest) && name !in rest && (CURVES == name || CURVES in rest);
    if name == CURVES {
      if rows == [] {
        NotTouched(f, inp, sections, rest, CURVES);
      } else {
        CurveRowsAdd(f, OpenSection(inp, name), rows);
        NotTouched(f, AddRows(f, OpenSection(inp, name), name, rows).value, sections, rest, CURVES);
      }
    } else if rows == [] {
      CurveSection(f, inp, sections, rest);
    } else {
      RowsElsewhere(f, OpenSection(inp, name), name, rows, CURVES);
      CurveSection(f, AddRows(f, OpenSection(inp, name), name, rows).value, sections, rest);
    }
  }

  ghost predicate CurveRowsHaveWords(sections: map<string, seq<string>>) {
    forall k :: 0 <= k < |RowsOf(sections, CURVES)| ==> RowTokens(RowsOf(sections, CURVES))[k] != []
  }

  function CurveName(k: nat): string {
    "curve_" + Decimal(k)
  }

  /** The first row of a curve has its kind, all rows have a point. */
  function CurveCells(f: NumberFormat, name: string, kind: string, points: seq<Point>): (rows: seq<Tokens>)
    ensures |rows| == |points|
    ensures forall k :: 0 <= k < |rows| ==>
      rows[k] == (if k == 0 then [name, kind] else [name]) + [f.show(points[k].0), f.show(points[k].1)]
  {
    seq(|points|, k requires 0 <= k < |points| =>
      (if k == 0 then [name, kind] else [name]) + [f.show(points[k].0), f.show(points[k].1)])
  }

  predicate FaithfulPoints(f: NumberFormat, points: seq<Point>) {
    forall k :: 0 <= k < |points| ==> Faithful(f, points[k].0) && Faithful(f, points[k].1)
  }

  lemma PointRow(f: NumberFormat, curve: Curve, kind: string, point: Point)
    requires Faithful(f, point.0) && Faithful(f, point.1)
    ensures AddToCurve(f, curve, [f.show(point.0), f.show(point.1)]) == Ok(Curve(curve.kind, curve.points + [point]))
    ensures f.read(kind).None? ==>
      AddToCurve(f, curve, [kind, f.show(point.0), f.show(point.1)]) == Ok(Curve(Some(kind), curve.points + [point]))
  {
    var rest := [f.show(point.0), f.show(point.1)];
    assert ReadPoint(f, rest[0], rest[1]) == Ok(point) && rest[2..] == [] && [point] + [] == [point];
    assert ReadPoints(f, rest[2..]) == Ok([]);
    assert [kind, f.show(point.0), f.show(point.1)][1..] == rest;
  }

  /** Further rows of a curve add their points. */
  lemma {:induction false} MorePoints(f: NumberFormat, curves: map<string, Curve>, name: string, rows: seq<Tokens>,
                                      points: seq<Point>)
    requires name in curves && FaithfulPoints(f, points) && |rows| == |points|
    requires forall k :: 0 <= k < |rows| ==> rows[k] == [name, f.show(points[k].0), f.show(points[k].1)]
    ensures AddCurves(f, curves, rows) == Ok(curves[name := Curve(curves[name].kind, curves[name].points + points)])
    decreases |rows|
  {
    hide AddToCurve, Faithful;
    if rows == [] {
      assert curves[name].points + points == curves[name].points;
      assert curves[name := curves[name]] == curves;
    } else {
      PointRow(f, curves[name], name, points[0]);
      assert rows[0][1..] == [f.show(points[0].0), f.show(points[0].1)];
      var next := curves[name := Curve(curves[name].kind, curves[name].points + [points[0]])];
      MorePoints(f, next, name, rows[1..], points[1..]);
      assert (curves[name].points + [points[0]]) + points[1..] == curves[name].points + points;
      assert next[name := Curve(curves[name].kind, curves[name].points + points)]
          == curves[name := Curve(curves[name].kind, curves[name].points + points)];
    }
  }

  /** A curve is read back with its kind and its points. */
  lemma CurveRoundTrip(f: NumberFormat, curves: map<string, Curve>, name: string, kind: string, points: seq<Point>)
    requires name !in curves && f.read(kind).None? && points != [] && FaithfulPoints(f, points)
    ensures AddCurves(f, curves, CurveCells(f, name, kind, points)) == Ok(curves[name := Curve(Some(kind), points)])
  {
    hide AddToCurve, Faithful;
    var rows := CurveCells(f, name, kind, points);
    PointRow(f, Curve(None, []), kind, points[0]);
    assert rows[0][1..] == [kind, f.show(points[0].0), f.show(points[0].1)];
    var first := curves[name := Curve(Some(kind), [points[0]])];
    assert [] + [points[0]] == [points[0]];
    MorePoints(f, first, name, rows[1..], points[1..]);
    assert [points[0]] + points[1..] == points;
    assert first[name := Curve(Some(kind), points)] == curves[name := Curve(Some(kind), points)];
  }

  lemma {:induction false} AddCurvesConcat(f: NumberFormat, curves: map<string, Curve>, a: seq<Tokens>, b: seq<Tokens>)
    requires (forall k :: 0 <= k < |a| ==> a[k] != []) && forall k :: 0 <= k < |b| ==> b[k] != []
    ensures var first := AddCurves(f, curves, a);
      AddCurves(f, curves, a + b) == if first.Err? then first else AddCurves(f, first.value, b)
    decreases |a|
  {
    hide AddToCurve;
    if a == [] {
      assert a + b == b;
    } else {
      assert (a + b)[1..] == a[1..] + b && (a + b)[0] == a[0];
      var curve := AddToCurve(f, CurveAt(curves, a[0][0]), a[0][1..]);
      if curve.Ok? {
        AddCurvesConcat(f, curves[a[0][0] := curve.value], a[1..], b);
      }
    }
  }

  lemma {:induction false} AddedCurvesAreReadable(f: NumberFormat, curves: map<string, Curve>, rows: seq<Tokens>,
                                                  k: nat)
    requires (forall j :: 0 <= j < |rows| ==> rows[j] != []) && AddCurves(f, curves, rows).Ok? && k < |rows|
    ensures Readable(f, CURVES, rows[k])
    decreases |rows|
  {
    hide ReadPoints;
    if k > 0 {
      AddedCurvesAreReadable(f, curves[rows[0][0] := AddToCurve(f, CurveAt(curves, rows[0][0]), rows[0][1..]).value],
                             rows[1..], k - 1);
    }
  }

  /** The curves of a rendered file are those that its rows add up to. */
  lemma CurvesOfRendered(f: NumberFormat, sections: map<string, seq<string>>, names: seq<string>)
    requires Printable(sections) && NoneTwice(names) && ParseText(f, Rendered(sections, names)).Ok?
    ensures AllRowsHaveWords(sections) && CurveRowsHaveWords(sections)
    ensures AddCurves(f, map[], RowTokens(RowsOf(sections, CURVES)))
         == Ok(ParseText(f, Rendered(sections, names)).value.curves)
  {
    hide Printable, Ordered, Words, RowTokens, AddSections, Rendered, ParseText, AddCurves;
    ParseOfRendered(f, sections, names);
    OrderedHasNoneTwice(names);
    CurveSection(f, EMPTY_INP, sections, Ordered(names));
  }

  lemma EmptySection(f: NumberFormat, sections: map<string, seq<string>>, names: seq<string>, section: string)
    requires Printable(sections) && ParseText(f, Rendered(sections, names)).Ok? && RowsOf(sections, section) == []
    ensures Read(ParseText(f, Rendered(sections, names)).value, section) == None
  {
    hide Printable, Ordered, Words, AddSections, Rendered, ParseText;
    ParseOfRendered(f, sections, names);
    NotTouched(f, EMPTY_INP, sections, Ordered(names), section);
  }
}
