/** Exporting elements to an `.inp` file: the rows and curves that are written, and the records that are
    read when the file is imported again. */
module InpExport {
  import opened Cells
  import opened Decimals
  import opened InpText
  import opened InpFiles
  import opened InpRoundTrip
  import opened InpRecords

  // ----- what is written

  function CurveCount(elements: seq<Element>): (n: nat)
    ensures n <= |elements|
  {
    if elements == [] then 0
    else CurveCount(elements[..|elements| - 1]) + (if CurveToWrite(elements[|elements| - 1]).Some? then 1 else 0)
  }

  /** The name that the next curve gets: curves are numbered on from those written before. */
  function NameAfter(start: nat, before: seq<Element>): string {
    CurveName(start + CurveCount(before) + 1)
  }

  function CellsOrNone(f: NumberFormat, e: Element, curveName: string): Tokens {
    var cells := CellsOf(f, e, curveName);
    if cells.Ok? then cells.value else []
  }

  /** The cells of the rows of a section. */
  function RowsIn(f: NumberFormat, start: nat, elements: seq<Element>, section: string): seq<Tokens> {
    if elements == [] then []
    else
      var n := |elements| - 1;
      var front := RowsIn(f, start, elements[..n], section);
      if SectionOf(elements[n]) == section then front + [CellsOrNone(f, elements[n], NameAfter(start, elements[..n]))]
      else front
  }

  function CurveRowsOf(f: NumberFormat, e: Element, curveName: string): seq<Tokens> {
    if CurveToWrite(e).None? then [] else CurveCells(f, curveName, CurveToWrite(e).value.0, CurveToWrite(e).value.1)
  }

  /** The cells of the rows of all curves. */
  function CurveRowsIn(f: NumberFormat, start: nat, elements: seq<Element>): seq<Tokens> {
    if elements == [] then []
    else
      var n := |elements| - 1;
      CurveRowsIn(f, start, elements[..n]) + CurveRowsOf(f, elements[n], NameAfter(start, elements[..n]))
  }

  function RowLines(rows: seq<Tokens>): (lines: seq<string>)
    ensures |lines| == |rows|
  {
    seq(|rows|, k requires 0 <= k < |rows| => Joined(rows[k]))
  }

  predicate IsElementSection(section: string) {
    section == OUTFALLS || section == STORAGE || section == PUMPS || section == OUTLETS
  }

  /** A row that something else writes: options, coordinates, other kinds of elements. */
  datatype OtherRow = OtherRow(section: string, cells: Tokens)

  /** Only the four kinds of elements write to their sections, and only the wrapper writes curves. */
  predicate IsOther(section: string) {
    !IsElementSection(section) && section != CURVES
  }

  predicate AllOther(others: seq<OtherRow>) {
    forall k :: 0 <= k < |others| ==> IsOther(others[k].section)
  }

  function OtherRowsIn(others: seq<OtherRow>, section: string): seq<Tokens> {
    if others == [] then []
    else
      var n := |others| - 1;
      OtherRowsIn(others[..n], section) + (if others[n].section == section then [others[n].cells] else [])
  }

  /** What is written, in its order. */
  datatype Item = Drainage(element: Element) | Other(row: OtherRow)

  function Elements(items: seq<Item>): seq<Element> {
    if items == [] then []
    else
      var n := |items| - 1;
      Elements(items[..n]) + (if items[n].Drainage? then [items[n].element] else [])
  }

  function OtherRows(items: seq<Item>): seq<OtherRow> {
    if items == [] then []
    else
      var n := |items| - 1;
      OtherRows(items[..n]) + (if items[n].Other? then [items[n].row] else [])
  }

  /** The rows that the builder holds in each section. */
  ghost predicate Holds(sections: map<string, seq<string>>, f: NumberFormat, start: nat, elements: seq<Element>,
                        others: seq<OtherRow>) {
    && (forall section :: section in sections ==> sections[section] != [])
    && (forall section :: IsElementSection(section) ==>
      RowsOf(sections, section) == RowLines(RowsIn(f, start, elements, section)))
    && (forall section :: IsOther(section) ==> RowsOf(sections, section) == RowLines(OtherRowsIn(others, section)))
    && RowsOf(sections, CURVES) == []
  }

  /** Besides, the rows of the curves. */
  ghost predicate Written(sections: map<string, seq<string>>, f: NumberFormat, start: nat, elements: seq<Element>,
                          others: seq<OtherRow>) {
    && (forall section :: section in sections ==> sections[section] != [])
    && (forall section :: IsElementSection(section) ==>
      RowsOf(sections, section) == RowLines(RowsIn(f, start, elements, section)))
    && (forall section :: IsOther(section) ==> RowsOf(sections, section) == RowLines(OtherRowsIn(others, section)))
    && RowsOf(sections, CURVES) == RowLines(CurveRowsIn(f, start, elements))
  }

  predicate AllAccepted(f: NumberFormat, elements: seq<Element>) {
    forall k :: 0 <= k < |elements| ==> CellsOf(f, elements[k], "").Ok?
  }

  lemma AcceptedAnyway(f: NumberFormat, e: Element, curveName: string)
    ensures CellsOf(f, e, curveName).Ok? <==> CellsOf(f, e, "").Ok?
  {
  }

  class SimulationWrapper {
    var curveCounter: nat
    var curveLines: seq<string>

    constructor ()
      ensures curveCounter == 0 && curveLines == []
    {
      curveCounter, curveLines := 0, [];
    }

    /** Registers a curve under the next name. */
    method AddCurve(f: NumberFormat, kind: string, points: seq<Point>) returns (name: string)
      modifies this
      ensures curveCounter == old(curveCounter) + 1 && name == CurveName(curveCounter)
      ensures curveLines == old(curveLines) + RowLines(CurveCells(f, name, kind, points))
    {
      curveCounter := curveCounter + 1;
      name := CurveName(curveCounter);
      var rows := [];
      for k := 0 to |points|
        invariant curveCounter == old(curveCounter) + 1 && name == CurveName(curveCounter)
        invariant curveLines == old(curveLines)
        invariant rows == RowLines(CurveCells(f, name, kind, points))[..k]
      {
        var cells := (if k == 0 then [name, kind] else [name]) + [f.show(points[k].0), f.show(points[k].1)];
        rows := rows + [Joined(cells)];
      }
      curveLines := curveLines + rows;
    }

    /** Writes one element, or refuses it. */
    method AddElement(f: NumberFormat, builder: InpBuilder, e: Element) returns (r: Result<()>)
      requires builder.Valid()
      modifies this, builder
      ensures builder.Valid()
      ensures r.Ok? <==> CellsOf(f, e, "").Ok?
      ensures r.Ok? ==>
        var name := CurveName(old(curveCounter) + 1);
        && curveCounter == old(curveCounter) + (if CurveToWrite(e).Some? then 1 else 0)
        && curveLines == old(curveLines) + RowLines(CurveRowsOf(f, e, name))
        && builder.sections == old(builder.sections)[SectionOf(e) :=
             RowsOf(old(builder.sections), SectionOf(e)) + [Joined(CellsOrNone(f, e, name))]]
    {
      hide CellsOf, CurveToWrite, SectionOf;
      AcceptedAnyway(f, e, CurveName(curveCounter + 1));
      var cells := CellsOf(f, e, CurveName(curveCounter + 1));
      if cells.Err? {
        return Err(cells.error);
      }
      var curve := CurveToWrite(e);
      if curve.Some? {
        var _ := AddCurve(f, curve.value.0, curve.value.1);
      } else {
        assert curveLines + RowLines([]) == curveLines;
      }
      builder.Add(SectionOf(e), cells.value);
      return Ok(());
    }

    method WriteCurves(builder: InpBuilder, ghost f: NumberFormat, ghost start: nat, ghost elements: seq<Element>,
                       ghost others: seq<OtherRow>)
      requires builder.Valid() && Holds(builder.sections, f, start, elements, others)
      requires curveLines == RowLines(CurveRowsIn(f, start, elements))
      modifies builder
      ensures builder.Valid() && Written(builder.sections, f, start, elements, others)
    {
      hide Holds, Written, CurveRowsIn;
      ghost var before := builder.sections;
      NoCurvesYet(before, f, start, elements, others);
      for k := 0 to |curveLines|
        invariant builder.Valid()
        invariant forall section :: section != CURVES ==> RowsOf(builder.sections, section) == RowsOf(before, section)
        invariant forall section :: section in builder.sections ==> builder.sections[section] != []
        invariant RowsOf(builder.sections, CURVES) == curveLines[..k]
      {
        assert Joined([curveLines[k]]) == curveLines[k];
        builder.Add(CURVES, [curveLines[k]]);
      }
      CurvesWritten(before, builder.sections, f, start, elements, others);
    }

    /** After some items: the counter, the curves and the rows so far. */
    ghost predicate IsSoFar(f: NumberFormat, sections: map<string, seq<string>>, start: nat, items: seq<Item>)
      reads this
    {
      && curveCounter == start + CurveCount(Elements(items))
      && curveLines == RowLines(CurveRowsIn(f, start, Elements(items)))
      && AllAccepted(f, Elements(items)) && Holds(sections, f, start, Elements(items), OtherRows(items))
    }

    method AddItem(f: NumberFormat, builder: InpBuilder, items: seq<Item>, k: nat, ghost start: nat)
      returns (r: Result<()>)
      requires builder.Valid() && k < |items| && AllOther(OtherRows(items))
      requires IsSoFar(f, builder.sections, start, items[..k])
      modifies this, builder
      ensures builder.Valid()
      ensures r.Ok? ==> IsSoFar(f, builder.sections, start, items[..k + 1])
      ensures r.Err? ==> !AllAccepted(f, Elements(items))
    {
      hide CellsOf, Holds, CurveCount, CurveRowsIn, CurveRowsOf, CurveToWrite, CellsOrNone, Elements, OtherRows,
           AllAccepted, Joined, CurveName, SectionOf, AllOther, IsOther;
      OneMoreItem(f, items, k);
      match items[k] {
        case Drainage(e) =>
          OneMoreElement(builder.sections, f, start, Elements(items[..k]), e, OtherRows(items[..k]));
          r := AddElement(f, builder, e);
          if r.Err? {
            NotAllAccepted(f, items, k);
          }
        case Other(row) =>
          OneMoreRow(builder.sections, f, start, Elements(items[..k]), OtherRows(items[..k]), row);
          builder.Add(row.section, row.cells);
          r := Ok(());
      }
    }

    /** Writes all elements, among other rows, and then the curves that they refer to. The number of curves
        goes on from one file to the next. */
    method BuildInp(f: NumberFormat, items: seq<Item>)
      returns (r: Result<string>, ghost sections: map<string, seq<string>>, ghost names: seq<string>)
      requires AllOther(OtherRows(items))
      modifies this
      ensures r.Ok? <==> AllAccepted(f, Elements(items))
      ensures r.Ok? ==>
        && r.value == Rendered(sections, names)
        && Written(sections, f, old(curveCounter), Elements(items), OtherRows(items))
      ensures r.Ok? ==> NoneTwice(names) && forall name :: name in names <==> name in sections
      ensures r.Ok? ==> curveCounter == old(curveCounter) + CurveCount(Elements(items))
    {
      hide CellsOf, Holds, Written, CurveCount, CurveRowsIn, RowsIn, OtherRowsIn, Elements, OtherRows, AllAccepted;
      ghost var start := curveCounter;
      var builder := new InpBuilder();
      curveLines := [];
      sections, names := map[], [];
      NothingWritten(f, start);
      var k := 0;
      while k < |items|
        invariant 0 <= k <= |items| && fresh(builder) && builder.Valid()
        invariant IsSoFar(f, builder.sections, start, items[..k])
      {
        var added := AddItem(f, builder, items, k, start);
        if added.Err? {
          return Err(added.error), sections, names;
        }
        k := k + 1;
      }
      assert items[..k] == items;
      WriteCurves(builder, f, start, Elements(items), OtherRows(items));
      sections, names := builder.sections, builder.names;
      var text := builder.Render();
      return Ok(text), sections, names;
    }
  }

  lemma NoCurvesYet(sections: map<string, seq<string>>, f: NumberFormat, start: nat, elements: seq<Element>,
                    others: seq<OtherRow>)
    requires Holds(sections, f, start, elements, others)
    ensures RowsOf(sections, CURVES) == [] && forall section :: section in sections ==> sections[section] != []
  {
  }

  lemma CurvesWritten(before: map<string, seq<string>>, after: map<string, seq<string>>, f: NumberFormat, start: nat,
                      elements: seq<Element>, others: seq<OtherRow>)
    requires Holds(before, f, start, elements, others) && forall section :: section in after ==> after[section] != []
    requires forall section :: section != CURVES ==> RowsOf(after, section) == RowsOf(before, section)
    requires RowsOf(after, CURVES) == RowLines(CurveRowsIn(f, start, elements))
    ensures Written(after, f, start, elements, others)
  {
    hide RowsIn, CurveRowsIn, OtherRowsIn, IsElementSection, RowLines;
    SectionsAreDifferent();
  }

  lemma OneMoreItem(f: NumberFormat, items: seq<Item>, k: nat)
    requires k < |items| && AllOther(OtherRows(items))
    ensures var es, os, next := Elements(items[..k]), OtherRows(items[..k]), items[..k + 1];
      if items[k].Drainage? then
        && Elements(next) == es + [items[k].element] && OtherRows(next) == os
        && (AllAccepted(f, es) && CellsOf(f, items[k].element, "").Ok? ==> AllAccepted(f, Elements(next)))
      else Elements(next) == es && OtherRows(next) == os + [items[k].row] && IsOther(items[k].row.section)
  {
    hide CellsOf;
    assert items[..k + 1][..k] == items[..k];
    PrefixOfItems(items, k + 1);
    if items[k].Other? {
      var others := OtherRows(items[..k + 1]);
      assert others[|others| - 1] == items[k].row && OtherRows(items)[|others| - 1] == items[k].row;
    }
  }

  /** What the first items contribute comes first. */
  lemma {:induction false} PrefixOfItems(items: seq<Item>, k: nat)
    requires k <= |items|
    ensures Elements(items[..k]) <= Elements(items) && OtherRows(items[..k]) <= OtherRows(items)
  {
    if k == |items| {
      assert items[..k] == items;
    } else {
      var n := |items| - 1;
      PrefixOfItems(items[..n], k);
      assert items[..n][..k] == items[..k];
    }
  }

  lemma NotAllAccepted(f: NumberFormat, items: seq<Item>, k: nat)
    requires k < |items| && items[k].Drainage? && CellsOf(f, items[k].element, "").Err?
    ensures !AllAccepted(f, Elements(items))
  {
    hide CellsOf;
    PrefixOfItems(items, k + 1);
    assert items[..k + 1][..k] == items[..k];
    var es := Elements(items[..k + 1]);
    assert es[|es| - 1] == items[k].element && Elements(items)[|es| - 1] == items[k].element;
  }

  lemma SectionsAreDifferent()
    ensures OUTFALLS != STORAGE && OUTFALLS != PUMPS && OUTFALLS != OUTLETS && STORAGE != PUMPS && STORAGE != OUTLETS
    ensures PUMPS != OUTLETS
    ensures forall section :: IsElementSection(section) ==> Ordinary(section) && section != CURVES
  {
  }

  lemma NothingWritten(f: NumberFormat, start: nat)
    ensures Elements([]) == [] && OtherRows([]) == [] && AllAccepted(f, [])
    ensures Holds(map[], f, start, [], []) && CurveCount([]) == 0 && CurveRowsIn(f, start, []) == []
  {
  }

  lemma OneMoreElement(sections: map<string, seq<string>>, f: NumberFormat, start: nat, elements: seq<Element>,
                       e: Element, others: seq<OtherRow>)
    requires Holds(sections, f, start, elements, others)
    ensures var name, next := NameAfter(start, elements), elements + [e];
      && CurveCount(next) == CurveCount(elements) + (if CurveToWrite(e).Some? then 1 else 0)
      && RowLines(CurveRowsIn(f, start, next))
        == RowLines(CurveRowsIn(f, start, elements)) + RowLines(CurveRowsOf(f, e, name))
      && Holds(sections[SectionOf(e) := RowsOf(sections, SectionOf(e)) + [Joined(CellsOrNone(f, e, name))]],
               f, start, next, others)
  {
    hide CellsOrNone, CurveRowsOf, CurveRowsIn, CurveCount, CurveToWrite, Joined, NameAfter, IsElementSection,
         SectionOf, OtherRowsIn, RowsIn, RowLines;
    var next := elements + [e];
    OneMoreCurve(f, start, elements, e);
    ItsSection(e);
    forall section
      ensures RowLines(RowsIn(f, start, next, section))
           == RowLines(RowsIn(f, start, elements, section))
              + if section == SectionOf(e) then [Joined(CellsOrNone(f, e, NameAfter(start, elements)))] else []
    {
      ElementRows(f, start, elements, e, section);
    }
  }

  lemma OneMoreCurve(f: NumberFormat, start: nat, elements: seq<Element>, e: Element)
    ensures CurveCount(elements + [e]) == CurveCount(elements) + (if CurveToWrite(e).Some? then 1 else 0)
    ensures RowLines(CurveRowsIn(f, start, elements + [e]))
         == RowLines(CurveRowsIn(f, start, elements)) + RowLines(CurveRowsOf(f, e, NameAfter(start, elements)))
  {
    hide CurveRowsOf, CurveToWrite, Joined, NameAfter;
    assert (elements + [e])[..|elements|] == elements;
  }

  lemma ItsSection(e: Element)
    ensures IsElementSection(SectionOf(e)) && SectionOf(e) != CURVES
  {
  }

  lemma ElementRows(f: NumberFormat, start: nat, elements: seq<Element>, e: Element, section: string)
    ensures RowLines(RowsIn(f, start, elements + [e], section))
         == RowLines(RowsIn(f, start, elements, section))
            + if section == SectionOf(e) then [Joined(CellsOrNone(f, e, NameAfter(start, elements)))] else []
  {
    hide CellsOrNone, Joined, CurveName, SectionOf, NameAfter;
    assert (elements + [e])[..|elements|] == elements;
  }

  lemma OneMoreRow(sections: map<string, seq<string>>, f: NumberFormat, start: nat, elements: seq<Element>,
                   others: seq<OtherRow>, row: OtherRow)
    requires Holds(sections, f, start, elements, others) && IsOther(row.section)
    ensures Holds(sections[row.section := RowsOf(sections, row.section) + [Joined(row.cells)]],
                  f, start, elements, others + [row])
  {
    hide RowsIn, Joined, IsElementSection, OtherRowsIn;
    forall section
      ensures RowLines(OtherRowsIn(others + [row], section))
           == RowLines(OtherRowsIn(others, section)) + if section == row.section then [Joined(row.cells)] else []
    {
      OtherLines(others, row, section);
    }
  }

  lemma OtherLines(others: seq<OtherRow>, row: OtherRow, section: string)
    ensures RowLines(OtherRowsIn(others + [row], section))
         == RowLines(OtherRowsIn(others, section)) + if section == row.section then [Joined(row.cells)] else []
  {
    hide Joined;
    assert (others + [row])[..|others|] == others;
  }

  // ----- the file is well formed

  predicate GoodRow(cells: Tokens) {
    cells != [] && (forall k :: 0 <= k < |cells| ==> IsCell(cells[k])) && cells[0][0] != '['
  }

  predicate GoodRows(rows: seq<Tokens>) {
    forall k :: 0 <= k < |rows| ==> GoodRow(rows[k])
  }

  lemma GoodRowIsPrintable(cells: Tokens)
    requires GoodRow(cells)
    ensures PrintableRow(Joined(cells)) && Words(Joined(cells)) == cells
  {
    forall k | 0 <= k < |cells|
      ensures cells[k] != "" && IsContent(cells[k])
    {
      CellIsContent(cells[k]);
    }
    JoinedIsContent(cells);
    RowRoundTrip(cells);
  }

  lemma GoodRowsArePrintable(rows: seq<Tokens>)
    requires GoodRows(rows)
    ensures forall k :: 0 <= k < |rows| ==> PrintableRow(RowLines(rows)[k])
    ensures RowTokens(RowLines(rows)) == rows
  {
    hide GoodRow, PrintableRow, Words, Joined;
    forall k | 0 <= k < |rows|
      ensures PrintableRow(RowLines(rows)[k]) && Words(RowLines(rows)[k]) == rows[k]
    {
      GoodRowIsPrintable(rows[k]);
    }
  }

  lemma CurveNameIsCell(k: nat)
    ensures IsCell(CurveName(k)) && CurveName(k)[0] == 'c' && CurveName(k) != "*"
  {
    var name := CurveName(k);
    forall i | 0 <= i < |name|
      ensures !IsSpace(name[i]) && name[i] != ';'
    {
      if i >= 6 {
        assert IsDigit(Decimal(k)[i - 6]);
      }
    }
  }

  predicate IsKeyword(s: string) {
    s != "" && forall k :: 0 <= k < |s| ==> 'A' <= s[k] <= 'Z' || 'a' <= s[k] <= 'z' || s[k] == '*'
  }

  lemma KeywordIsCell(s: string)
    requires IsKeyword(s)
    ensures IsCell(s)
  {
  }

  lemma ShortKeywords()
    ensures IsKeyword("FIXED") && IsKeyword("FREE") && IsKeyword("NORMAL") && IsKeyword("YES") && IsKeyword("NO")
    ensures IsKeyword("*") && IsKeyword("ON")
    ensures IsKeyword("Storage") && IsKeyword("Rating")
  {
  }

  lemma ShapeKeywords()
    ensures IsKeyword("CYLINDRICAL") && IsKeyword("CONICAL") && IsKeyword("PARABOLIC") && IsKeyword("PYRAMIDAL")
    ensures IsKeyword(TABULAR) && IsKeyword(FUNCTIONAL)
  {
  }

  lemma KeywordCells()
    ensures IsCell("FIXED") && IsCell("FREE") && IsCell("NORMAL") && IsCell("YES") && IsCell("NO") && IsCell("*")
    ensures IsCell("ON")
    ensures IsCell("CYLINDRICAL") && IsCell("CONICAL") && IsCell("PARABOLIC") && IsCell("PYRAMIDAL") && IsCell(TABULAR)
    ensures IsCell(FUNCTIONAL)
    ensures IsCell("Storage") && IsCell("Rating")
  {
    hide IsKeyword, IsCell;
    ShortKeywords();
    ShapeKeywords();
    forall s | IsKeyword(s)
      ensures IsCell(s)
    {
      KeywordIsCell(s);
    }
  }

  /** Every row that is written consists of cells that can be read back. */
  lemma ElementRowIsGood(f: NumberFormat, e: Element, curveName: string)
    requires Writable(f, e) && CellsOf(f, e, curveName).Ok? && IsCell(curveName)
    ensures GoodRow(CellsOf(f, e, curveName).value)
  {
    hide IsWord, IsCell, FaithfulPoints, Contains, ShapeOf;
    KeywordCells();
    match e
    case Outfall(_, _, _, _, _) =>
      NumbersAreCells(f, [e.elevation, e.stage], 0.0);
      assert [e.elevation, e.stage][0] == e.elevation && [e.elevation, e.stage][1] == e.stage;
    case Storage(_, _, _, _, _, _, _, _, _, _) =>
      StorageRowIsGood(f, e, curveName);
    case Pump(_, _, _, _, _, _, _) =>
      NumbersAreCells(f, [e.startup, e.shutoff], 0.0);
      assert [e.startup, e.shutoff][0] == e.startup && [e.startup, e.shutoff][1] == e.shutoff;
    case Outlet(_, _, _, _, _, _, _, _, _) =>
      OutletRowIsGood(f, e, curveName);
  }

  lemma NumbersAreCells(f: NumberFormat, xs: seq<Option<real>>, default: real)
    requires AllFaithful(f, xs) && Faithful(f, default)
    ensures forall k :: 0 <= k < |xs| ==> IsCell(f.show(Or(xs[k], default)))
  {
  }

  lemma OutletRowIsGood(f: NumberFormat, e: Element, curveName: string)
    requires e.Outlet? && Writable(f, e) && CellsOf(f, e, curveName).Ok? && IsCell(curveName)
    ensures GoodRow(CellsOf(f, e, curveName).value)
  {
    hide IsWord, IsCell, FaithfulPoints, Contains;
    KeywordCells();
    var xs := [e.offset, e.coefficient, e.exponent];
    NumbersAreCells(f, xs, 0.0);
    NumbersAreCells(f, xs, 1.0);
    NumbersAreCells(f, xs, 0.5);
    assert xs[0] == e.offset && xs[1] == e.coefficient && xs[2] == e.exponent;
  }

  lemma StorageRowIsGood(f: NumberFormat, e: Element, curveName: string)
    requires e.Storage? && Writable(f, e) && CellsOf(f, e, curveName).Ok? && IsCell(curveName)
    ensures GoodRow(CellsOf(f, e, curveName).value)
  {
    hide IsWord, IsCell, FaithfulPoints, ShapeOf, IsGeometric;
    KeywordCells();
    ShapeIsKnown(e);
    ShapeIsCell(e);
    var xs := [e.elevation, e.maxDepth, e.depth, e.coefficient, e.exponent, e.constant];
    NumbersAreCells(f, xs, 0.0);
    assert xs[0] == e.elevation && xs[1] == e.maxDepth && xs[2] == e.depth;
    assert xs[3] == e.coefficient && xs[4] == e.exponent && xs[5] == e.constant;
    if e.parameters.Some? {
      var p := e.parameters.value;
      var ps := [p.length, p.width, p.height];
      NumbersAreCells(f, ps, 0.0);
      assert ps[0] == p.length && ps[1] == p.width && ps[2] == p.height;
    }
  }

  lemma ShapeIsCell(e: Element)
    requires e.Storage? && ShapeOf(e).Ok?
    ensures IsCell(ShapeOf(e).value)
  {
    hide IsWord;
    KeywordCells();
    ShapeIsKnown(e);
  }

  predicate AllWritable(f: NumberFormat, elements: seq<Element>) {
    forall k :: 0 <= k < |elements| ==> Writable(f, elements[k])
  }

  /** The kinds of curves that the wrapper writes itself are not numbers. */
  predicate KindsAreNoNumbers(f: NumberFormat) {
    f.read("Storage").None? && f.read("Rating").None?
  }

  lemma {:induction false} RowsAreGood(f: NumberFormat, start: nat, elements: seq<Element>, section: string)
    requires AllAccepted(f, elements) && AllWritable(f, elements)
    ensures GoodRows(RowsIn(f, start, elements, section))
  {
    hide GoodRow, Writable, CellsOf, SectionOf;
    if elements != [] {
      var n := |elements| - 1;
      RowsAreGood(f, start, elements[..n], section);
      var name := NameAfter(start, elements[..n]);
      CurveNameIsCell(start + CurveCount(elements[..n]) + 1);
      AcceptedAnyway(f, elements[n], name);
      ElementRowIsGood(f, elements[n], name);
    }
  }

  /** A curve that is written has points, with numbers that survive, and a kind that is not a number. */
  lemma CurveIsGood(f: NumberFormat, e: Element)
    requires Writable(f, e) && KindsAreNoNumbers(f) && CurveToWrite(e).Some?
    ensures var (kind, points) := CurveToWrite(e).value;
      points != [] && FaithfulPoints(f, points) && f.read(kind).None? && IsCell(kind)
  {
    hide IsCell, FaithfulPoints, ShapeOf, Contains;
    KeywordCells();
    if e.Storage? {
      ShapeIsKnown(e);
    }
  }

  lemma CurveRowsAreGood(f: NumberFormat, e: Element, curveName: string)
    requires Writable(f, e) && KindsAreNoNumbers(f) && IsCell(curveName) && curveName[0] != '['
    ensures GoodRows(CurveRowsOf(f, e, curveName))
  {
    hide IsCell, Writable, CurveToWrite, KindsAreNoNumbers;
    if CurveToWrite(e).Some? {
      CurveIsGood(f, e);
      CurveCellsAreGood(f, curveName, CurveToWrite(e).value.0, CurveToWrite(e).value.1);
    }
  }

  lemma CurveCellsAreGood(f: NumberFormat, name: string, kind: string, points: seq<Point>)
    requires IsCell(name) && name[0] != '[' && IsCell(kind) && FaithfulPoints(f, points)
    ensures GoodRows(CurveCells(f, name, kind, points))
  {
    hide IsCell;
  }

  lemma {:induction false} AllCurveRowsAreGood(f: NumberFormat, start: nat, elements: seq<Element>)
    requires AllWritable(f, elements) && KindsAreNoNumbers(f)
    ensures GoodRows(CurveRowsIn(f, start, elements))
  {
    hide GoodRow, Writable, CurveRowsOf, KindsAreNoNumbers;
    if elements != [] {
      var n := |elements| - 1;
      AllCurveRowsAreGood(f, start, elements[..n]);
      CurveNameIsCell(start + CurveCount(elements[..n]) + 1);
      CurveRowsAreGood(f, elements[n], NameAfter(start, elements[..n]));
    }
  }

  lemma SectionNames()
    ensures forall section :: IsElementSection(section) || section == CURVES ==> PrintableName(section)
  {
    LettersArePrintable(OUTFALLS);
    LettersArePrintable(STORAGE);
    LettersArePrintable(PUMPS);
    LettersArePrintable(OUTLETS);
    LettersArePrintable(CURVES);
  }

  lemma LettersArePrintable(name: string)
    requires name != "" && forall k :: 0 <= k < |name| ==> 'A' <= name[k] <= 'Z'
    ensures PrintableName(name)
  {
  }

  /** Something else's row can be printed, and its numbers can be read again. */
  ghost predicate ReadableRow(f: NumberFormat, row: OtherRow) {
    && PrintableName(row.section) && PrintableRow(Joined(row.cells))
    && (Words(Joined(row.cells)) != [] ==> Readable(f, row.section, Words(Joined(row.cells))))
  }

  ghost predicate AllReadable(f: NumberFormat, others: seq<OtherRow>) {
    forall k :: 0 <= k < |others| ==> ReadableRow(f, others[k])
  }

  lemma {:induction false} OtherRowsAreReadable(f: NumberFormat, others: seq<OtherRow>, section: string)
    requires AllReadable(f, others)
    ensures forall k :: 0 <= k < |OtherRowsIn(others, section)| ==>
      ReadableRow(f, OtherRow(section, OtherRowsIn(others, section)[k]))
  {
    hide ReadableRow;
    if others != [] {
      OtherRowsAreReadable(f, others[..|others| - 1], section);
    }
  }

  /** In an ordinary section every printable row can be read. */
  lemma OrdinaryRowsAreReadable(f: NumberFormat, row: OtherRow)
    requires Ordinary(row.section) && PrintableName(row.section) && PrintableRow(Joined(row.cells))
    ensures ReadableRow(f, row)
  {
  }

  lemma WrittenIsPrintable(sections: map<string, seq<string>>, f: NumberFormat, start: nat, elements: seq<Element>,
                           others: seq<OtherRow>)
    requires Written(sections, f, start, elements, others) && AllAccepted(f, elements) && AllWritable(f, elements)
    requires KindsAreNoNumbers(f)
    requires AllReadable(f, others)
    ensures Printable(sections)
  {
    hide PrintableName, PrintableRow, GoodRow, Writable, CellsOf, KindsAreNoNumbers, RowsIn, CurveRowsIn, OtherRowsIn,
         IsElementSection, Readable;
    SectionNames();
    forall section | section in sections
      ensures PrintableName(section) && forall k :: 0 <= k < |sections[section]| ==> PrintableRow(sections[section][k])
    {
      if section == CURVES {
        AllCurveRowsAreGood(f, start, elements);
        GoodRowsArePrintable(CurveRowsIn(f, start, elements));
      } else if IsElementSection(section) {
        RowsAreGood(f, start, elements, section);
        GoodRowsArePrintable(RowsIn(f, start, elements, section));
      } else {
        var rows := OtherRowsIn(others, section);
        OtherRowsAreReadable(f, others, section);
        assert ReadableRow(f, OtherRow(section, rows[0]));
        assert forall k :: 0 <= k < |rows| ==> ReadableRow(f, OtherRow(section, rows[k]));
      }
    }
  }

  // ----- the curves that are read

  function CurvesIn(start: nat, elements: seq<Element>): map<string, Curve> {
    if elements == [] then map[]
    else
      var n := |elements| - 1;
      WithCurve(CurvesIn(start, elements[..n]), elements[n], NameAfter(start, elements[..n]))
  }

  lemma CurveNamesDiffer(j: nat, k: nat)
    requires CurveName(j) == CurveName(k)
    ensures j == k
  {
    assert CurveName(j)[6..] == Decimal(j) && CurveName(k)[6..] == Decimal(k);
    DecimalIsInjective(j, k);
  }

  lemma {:induction false} LaterNamesAreNew(start: nat, elements: seq<Element>, k: nat)
    requires k > start + CurveCount(elements)
    ensures CurveName(k) !in CurvesIn(start, elements)
  {
    hide CurveToWrite, CurveName;
    if elements != [] {
      var n := |elements| - 1;
      LaterNamesAreNew(start, elements[..n], k);
      if CurveName(k) == NameAfter(start, elements[..n]) {
        CurveNamesDiffer(k, start + CurveCount(elements[..n]) + 1);
      }
    }
  }

  function WithCurve(curves: map<string, Curve>, e: Element, name: string): map<string, Curve> {
    if CurveToWrite(e).None? then curves
    else curves[name := Curve(Some(CurveToWrite(e).value.0), CurveToWrite(e).value.1)]
  }

  lemma OneCurveIsRead(f: NumberFormat, curves: map<string, Curve>, e: Element, name: string)
    requires Writable(f, e) && KindsAreNoNumbers(f) && name !in curves
    ensures forall k :: 0 <= k < |CurveRowsOf(f, e, name)| ==> CurveRowsOf(f, e, name)[k] != []
    ensures AddCurves(f, curves, CurveRowsOf(f, e, name)) == Ok(WithCurve(curves, e, name))
  {
    hide Writable, CurveToWrite, KindsAreNoNumbers, AddToCurve, FaithfulPoints;
    if CurveToWrite(e).Some? {
      CurveIsGood(f, e);
      CurveRoundTrip(f, curves, name, CurveToWrite(e).value.0, CurveToWrite(e).value.1);
    }
  }

  /** The rows of all curves are read as these curves. */
  lemma {:induction false} CurvesAreRead(f: NumberFormat, start: nat, elements: seq<Element>)
    requires AllWritable(f, elements) && KindsAreNoNumbers(f)
    ensures forall k :: 0 <= k < |CurveRowsIn(f, start, elements)| ==> CurveRowsIn(f, start, elements)[k] != []
    ensures AddCurves(f, map[], CurveRowsIn(f, start, elements)) == Ok(CurvesIn(start, elements))
  {
    hide Writable, CurveToWrite, KindsAreNoNumbers, AddToCurve, CurveName, CurveRowsOf, GoodRow, WithCurve, AddCurves;
    GoodRowsHaveCells(f, start, elements);
    if elements == [] {
      NoCurves(f);
    } else {
      var n := |elements| - 1;
      var e, name := elements[n], NameAfter(start, elements[..n]);
      CurvesAreRead(f, start, elements[..n]);
      LaterNamesAreNew(start, elements[..n], start + CurveCount(elements[..n]) + 1);
      OneCurveIsRead(f, CurvesIn(start, elements[..n]), e, name);
      AddCurvesConcat(f, map[], CurveRowsIn(f, start, elements[..n]), CurveRowsOf(f, e, name));
    }
  }

  lemma NoCurves(f: NumberFormat)
    ensures AddCurves(f, map[], []) == Ok(map[])
  {
  }

  lemma GoodRowsHaveCells(f: NumberFormat, start: nat, elements: seq<Element>)
    requires AllWritable(f, elements) && KindsAreNoNumbers(f)
    ensures GoodRows(CurveRowsIn(f, start, elements))
    ensures forall k :: 0 <= k < |CurveRowsIn(f, start, elements)| ==> CurveRowsIn(f, start, elements)[k] != []
  {
    AllCurveRowsAreGood(f, start, elements);
  }

  lemma {:induction false} CurveIsHeld(start: nat, elements: seq<Element>, k: nat)
    requires k < |elements|
    ensures HoldsCurve(CurvesIn(start, elements), elements[k], NameAfter(start, elements[..k]))
  {
    hide CurveToWrite, CurveName;
    var n := |elements| - 1;
    if k < n {
      CurveIsHeld(start, elements[..n], k);
      assert elements[..n][..k] == elements[..k];
      LaterNamesAreNew(start, elements[..n], start + CurveCount(elements[..n]) + 1);
    }
  }

  // ----- the records that are read

  /** The records of a section, one per row. */
  function Records(f: NumberFormat, curves: map<string, Curve>, section: string, rows: seq<Tokens>)
    : (r: seq<Option<Record>>)
    ensures |r| == |rows|
  {
    seq(|rows|, k requires 0 <= k < |rows| => if rows[k] == [] then None else ReadRecord(f, curves, section, rows[k]))
  }

  function ImportedRecords(f: NumberFormat, inp: Inp, section: string): seq<Option<Record>> {
    if section in inp.sections then Records(f, inp.curves, section, inp.sections[section]) else []
  }

  /** What the elements of a section should be read as, in their order. */
  function ExpectedIn(elements: seq<Element>, section: string): seq<Option<Record>> {
    if elements == [] then []
    else
      var n := |elements| - 1;
      var front := ExpectedIn(elements[..n], section);
      if SectionOf(elements[n]) == section then front + [Some(Expected(elements[n]))] else front
  }

  ghost predicate CurvesAreHeld(curves: map<string, Curve>, start: nat, elements: seq<Element>) {
    forall k :: 0 <= k < |elements| ==> HoldsCurve(curves, elements[k], NameAfter(start, elements[..k]))
  }

  lemma {:induction false} RecordsOfRows(f: NumberFormat, curves: map<string, Curve>, start: nat,
                                         elements: seq<Element>, section: string)
    requires AllAccepted(f, elements) && AllWritable(f, elements) && CurvesAreHeld(curves, start, elements)
    ensures Records(f, curves, section, RowsIn(f, start, elements, section)) == ExpectedIn(elements, section)
  {
    hide Writable, CellsOf, HoldsCurve, SectionOf, Expected, CurveName, ReadRecord;
    if elements != [] {
      var n := |elements| - 1;
      var e, name := elements[n], NameAfter(start, elements[..n]);
      assert forall k :: 0 <= k < n ==> elements[..n][k] == elements[k] && elements[..n][..k] == elements[..k];
      RecordsOfRows(f, curves, start, elements[..n], section);
      CurveNameIsCell(start + CurveCount(elements[..n]) + 1);
      AcceptedAnyway(f, e, name);
      RecordRoundTrip(f, curves, e, name);
      if SectionOf(e) == section {
        OneRecordMore(f, curves, section, RowsIn(f, start, elements[..n], section), CellsOrNone(f, e, name));
      }
    }
  }

  lemma OneRecordMore(f: NumberFormat, curves: map<string, Curve>, section: string, rows: seq<Tokens>, row: Tokens)
    requires row != []
    ensures Records(f, curves, section, rows + [row])
         == Records(f, curves, section, rows) + [ReadRecord(f, curves, section, row)]
  {
    hide ReadRecord;
  }

  lemma WrittenIsReadable(sections: map<string, seq<string>>, f: NumberFormat, start: nat, elements: seq<Element>,
                          others: seq<OtherRow>)
    requires Written(sections, f, start, elements, others) && AllAccepted(f, elements) && AllWritable(f, elements)
    requires KindsAreNoNumbers(f)
    requires AllReadable(f, others) && AllRowsHaveWords(sections)
    ensures forall section :: section in sections ==> SectionIsReadable(f, sections, section)
  {
    hide Writable, CellsOf, KindsAreNoNumbers, RowsIn, CurveRowsIn, OtherRowsIn, AddToCurve, AddCurves, Words, CurvesIn,
         GoodRow, ReadPoint;
    forall section | section in sections
      ensures SectionIsReadable(f, sections, section)
    {
      if section == CURVES {
        CurvesAreRead(f, start, elements);
        AllCurveRowsAreGood(f, start, elements);
        var rows := CurveRowsIn(f, start, elements);
        GoodRowsArePrintable(rows);
        forall k | 0 <= k < |rows|
          ensures Readable(f, CURVES, Words(RowsOf(sections, CURVES)[k]))
        {
          AddedCurvesAreReadable(f, map[], rows, k);
          assert RowTokens(RowLines(rows))[k] == rows[k];
        }
      } else if IsElementSection(section) {
        SectionsAreDifferent();
      } else {
        OthersAreReadable(sections, f, others, section);
      }
    }
  }

  lemma OthersAreReadable(sections: map<string, seq<string>>, f: NumberFormat, others: seq<OtherRow>, section: string)
    requires AllReadable(f, others) && AllRowsHaveWords(sections)
    requires RowsOf(sections, section) == RowLines(OtherRowsIn(others, section))
    ensures SectionIsReadable(f, sections, section)
  {
    hide Words, Readable, OtherRowsIn, PrintableRow, PrintableName, Joined;
    OtherRowsAreReadable(f, others, section);
    var rows := OtherRowsIn(others, section);
    forall k | 0 <= k < |rows|
      ensures Readable(f, section, Words(RowsOf(sections, section)[k]))
    {
      assert ReadableRow(f, OtherRow(section, rows[k]));
    }
  }

  lemma ImportedCurves(f: NumberFormat, start: nat, elements: seq<Element>, others: seq<OtherRow>,
                       sections: map<string, seq<string>>, names: seq<string>)
    requires Written(sections, f, start, elements, others) && AllAccepted(f, elements) && AllWritable(f, elements)
    requires KindsAreNoNumbers(f)
    requires Printable(sections) && NoneTwice(names) && ParseText(f, Rendered(sections, names)).Ok?
    ensures ParseText(f, Rendered(sections, names)).value.curves == CurvesIn(start, elements)
  {
    hide Writable, CellsOf, KindsAreNoNumbers, RowsIn, CurveRowsIn, OtherRowsIn, AddCurves, Words, CurvesIn, GoodRow,
         Printable, ParseText, Rendered;
    CurvesAreRead(f, start, elements);
    AllCurveRowsAreGood(f, start, elements);
    GoodRowsArePrintable(CurveRowsIn(f, start, elements));
    CurvesOfRendered(f, sections, names);
  }

  /** A file that was exported parses, whatever readable rows of other kinds are in it, and the records
      that are read from it are those expected of the elements, section by section and in their order. */
  lemma ExportThenImport(f: NumberFormat, start: nat, elements: seq<Element>, others: seq<OtherRow>,
                         sections: map<string, seq<string>>, names: seq<string>, section: string)
    requires AllAccepted(f, elements) && AllWritable(f, elements) && KindsAreNoNumbers(f) && AllReadable(f, others)
    requires Written(sections, f, start, elements, others) && NoneTwice(names)
    requires forall name :: name in names <==> name in sections
    ensures ParseText(f, Rendered(sections, names)).Ok?
    ensures IsElementSection(section) ==>
      ImportedRecords(f, ParseText(f, Rendered(sections, names)).value, section) == ExpectedIn(elements, section)
    ensures IsOther(section) && Ordinary(section) && section in sections ==>
      Read(ParseText(f, Rendered(sections, names)).value, section)
        == Some(RowTokens(RowLines(OtherRowsIn(others, section))))
  {
    hide Writable, CellsOf, KindsAreNoNumbers, RowsIn, CurveRowsIn, OtherRowsIn, Words, CurvesIn, GoodRow, Printable,
         ParseText, Rendered, RowTokens, SectionIsReadable, AllAccepted, AllWritable, ExpectedIn, RowLines, AllReadable,
         Ordinary;
    WrittenIsPrintable(sections, f, start, elements, others);
    SectionsRoundTrip(f, sections, names);
    WrittenIsReadable(sections, f, start, elements, others);
    if IsElementSection(section) {
      ElementsAreImported(f, start, elements, others, sections, names, section);
    }
  }

  lemma ElementsAreImported(f: NumberFormat, start: nat, elements: seq<Element>, others: seq<OtherRow>,
                            sections: map<string, seq<string>>, names: seq<string>, section: string)
    requires AllAccepted(f, elements) && AllWritable(f, elements) && KindsAreNoNumbers(f) && IsElementSection(section)
    requires Printable(sections)
    requires Written(sections, f, start, elements, others) && NoneTwice(names)
    requires forall name :: name in names <==> name in sections
    requires ParseText(f, Rendered(sections, names)).Ok?
    ensures ImportedRecords(f, ParseText(f, Rendered(sections, names)).value, section) == ExpectedIn(elements, section)
  {
    hide Writable, CellsOf, KindsAreNoNumbers, RowsIn, CurveRowsIn, OtherRowsIn, Words, CurvesIn, GoodRow, Printable,
         ParseText, Rendered, RowTokens, SectionIsReadable, AllAccepted, AllWritable, ExpectedIn, RowLines;
    SectionsRoundTrip(f, sections, names);
    ImportedCurves(f, start, elements, others, sections, names);
    AllCurvesAreHeld(start, elements);
    RecordsOfRows(f, CurvesIn(start, elements), start, elements, section);
    RowsAreGood(f, start, elements, section);
    GoodRowsArePrintable(RowsIn(f, start, elements, section));
    SectionsAreDifferent();
    if RowsOf(sections, section) == [] {
      EmptySection(f, sections, names, section);
      NoRows(f, start, elements, section);
    }
  }

  lemma NoRows(f: NumberFormat, start: nat, elements: seq<Element>, section: string)
    ensures RowLines(RowsIn(f, start, elements, section)) == [] ==> RowsIn(f, start, elements, section) == []
    ensures Records(f, CurvesIn(start, elements), section, []) == []
  {
  }

  lemma AllCurvesAreHeld(start: nat, elements: seq<Element>)
    ensures CurvesAreHeld(CurvesIn(start, elements), start, elements)
  {
    hide HoldsCurve, CurvesIn;
    forall k | 0 <= k < |elements|
      ensures HoldsCurve(CurvesIn(start, elements), elements[k], NameAfter(start, elements[..k]))
    {
      CurveIsHeld(start, elements, k);
    }
  }
}
