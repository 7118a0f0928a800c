/** The text form of a path into a configuration, `$.key[0].other`, and the parser that reads it. */
module JsonPaths {
  import opened Cells
  import opened Decimals

  /** A key in an object or a position in a list. */
  datatype Step = Key(name: string) | At(index: int)

  type Path = seq<Step>

  // ----- characters

  predicate IsIdentifierStart(c: char) {
    'A' <= c <= 'Z' || 'a' <= c <= 'z' || c == '_'
  }

  predicate IsIdentifierPart(c: char) {
    IsIdentifierStart(c) || IsDigit(c)
  }

  predicate IsIdentifier(s: string) {
    s != "" && IsIdentifierStart(s[0]) && forall k :: 0 <= k < |s| ==> IsIdentifierPart(s[k])
  }

  // ----- printing

  function StepText(step: Step): string {
    match step
    case Key(name) => "." + name
    case At(index) => "[" + (if index < 0 then "-" + Decimal(-index) else Decimal(index)) + "]"
  }

  function StepsText(path: Path): string {
    if path == [] then "" else StepsText(path[..|path| - 1]) + StepText(path[|path| - 1])
  }

  method JsonPath(path: Path) returns (rv: string)
    ensures rv == "$" + StepsText(path)
  {
    hide StepText;
    rv := "$";
    for i := 0 to |path|
      invariant rv == "$" + StepsText(path[..i])
    {
      assert path[..i + 1][..i] == path[..i];
      rv := rv + StepText(path[i]);
    }
    assert path[..|path|] == path;
  }

  // ----- parsing

  /** What `.*$` leaves of a text: it stops before a final line break and does not go past any other. */
  function Tail(s: string): (r: Option<string>)
    ensures r.Some? ==> |r.value| <= |s|
  {
    if '\n' !in s then Some(s)
    else if '\n' !in s[..|s| - 1] then Some(s[..|s| - 1])
    else None
  }

  /** The length of the longest prefix of identifier characters, or of digits. */
  function RunLength(s: string, digits: bool): (n: nat)
    ensures n <= |s| && forall k :: 0 <= k < n ==> (if digits then IsDigit(s[k]) else IsIdentifierPart(s[k]))
    ensures n < |s| ==> !(if digits then IsDigit(s[n]) else IsIdentifierPart(s[n]))
  {
    if s == "" || !(if digits then IsDigit(s[0]) else IsIdentifierPart(s[0])) then 0 else 1 + RunLength(s[1..], digits)
  }

  /** Any character but a line break, an identifier and the rest. */
  function MatchProperty(s: string): (r: Option<(Step, string)>)
    ensures r.Some? ==> |r.value.1| < |s| && r.value.0.Key? && IsIdentifier(r.value.0.name)
  {
    if |s| < 2 || s[0] == '\n' || !IsIdentifierStart(s[1]) then None
    else
      var n := RunLength(s[1..], false);
      var tail := Tail(s[1 + n..]);
      if tail.None? then None
      else
        assert n > 0 by { assert s[1..][0] == s[1]; }
        assert IsIdentifier(s[1..1 + n]) by { assert forall k :: 0 <= k < n ==> s[1..1 + n][k] == s[1..][k]; }
        Some((Key(s[1..1 + n]), tail.value))
  }

  /** A number in brackets and the rest. */
  function MatchIndex(s: string): (r: Option<(Step, string)>)
    ensures r.Some? ==> |r.value.1| < |s| && r.value.0.At? && r.value.0.index >= 0
  {
    if |s| < 3 || s[0] != '[' then None
    else
      var n := RunLength(s[1..], true);
      if n == 0 || 1 + n >= |s| || s[1 + n] != ']' || Tail(s[2 + n..]).None? then None
      else
        assert forall k :: 0 <= k < n ==> s[1..1 + n][k] == s[1..][k];
        Some((At(Number(s[1..1 + n])), Tail(s[2 + n..]).value))
  }

  function ParseSteps(s: string): Result<Path>
    decreases |s|
  {
    if s == "" then Ok([])
    else
      var m := if MatchProperty(s).Some? then MatchProperty(s) else MatchIndex(s);
      if m.None? then Err("Invalid syntax")
      else
        Prefixed([m.value.0], ParseSteps(m.value.1))
  }

  function Prefixed(path: Path, rest: Result<Path>): Result<Path> {
    if rest.Err? then rest else Ok(path + rest.value)
  }

  function ParsePath(text: string): Result<Path> {
    if text == "" || text[0] != '$' || Tail(text[1..]).None? then Err("Path must start with $")
    else ParseSteps(Tail(text[1..]).value)
  }

  /** Every round takes at least one character off the path. */
  method ParseJsonPath(text: string) returns (r: Result<Path>)
    ensures r == ParsePath(text)
  {
    hide MatchProperty, MatchIndex, Tail;
    if text == "" || text[0] != '$' || Tail(text[1..]).None? {
      return Err("Path must start with $");
    }
    var path := Tail(text[1..]).value;
    var rv: Path := [];
    assert ParsePath(text).Ok? ==> [] + ParsePath(text).value == ParsePath(text).value;
    while path != ""
      invariant ParsePath(text) == Prefixed(rv, ParseSteps(path))
      decreases |path|
    {
      var m := MatchProperty(path);
      if m.None? {
        m := MatchIndex(path);
      }
      if m.None? {
        return Err("Invalid syntax");
      }
      ghost var rest := ParseSteps(m.value.1);
      assert rest.Ok? ==> rv + ([m.value.0] + rest.value) == (rv + [m.value.0]) + rest.value;
      rv := rv + [m.value.0];
      path := m.value.1;
    }
    assert rv + [] == rv;
    return Ok(rv);
  }

  // ----- the round trip

  /** Keys are identifiers and positions count from the front. */
  predicate Printable(path: Path) {
    forall k :: 0 <= k < |path| ==> if path[k].Key? then IsIdentifier(path[k].name) else path[k].index >= 0
  }

  lemma {:induction false} ParsedIsPrintable(s: string)
    ensures ParseSteps(s).Ok? ==> Printable(ParseSteps(s).value)
    decreases |s|
  {
    if s != "" {
      var m := if MatchProperty(s).Some? then MatchProperty(s) else MatchIndex(s);
      if m.Some? {
        ParsedIsPrintable(m.value.1);
      }
    }
  }

  lemma {:induction false} RunOfPrefix(a: string, b: string, digits: bool)
    requires forall k :: 0 <= k < |a| ==> (if digits then IsDigit(a[k]) else IsIdentifierPart(a[k]))
    requires b == "" || !(if digits then IsDigit(b[0]) else IsIdentifierPart(b[0]))
    ensures RunLength(a + b, digits) == |a|
  {
    if a == "" {
      assert a + b == b;
    } else {
      RunOfPrefix(a[1..], b, digits);
      assert (a + b)[1..] == a[1..] + b;
    }
  }

  /** Texts of steps hold no line break and start with a dot or a bracket. */
  predicate Plain(s: string) {
    '\n' !in s && (s == "" || s[0] == '.' || s[0] == '[')
  }

  lemma MatchKey(name: string, rest: string)
    requires IsIdentifier(name) && Plain(rest)
    ensures MatchProperty(StepText(Key(name)) + rest) == Some((Key(name), rest))
  {
    hide RunLength;
    var s := StepText(Key(name)) + rest;
    assert s == "." + (name + rest) && s[1..] == name + rest && s[1] == name[0];
    RunOfPrefix(name, rest, false);
    assert s[1..1 + |name|] == name && s[1 + |name|..] == rest;
  }

  lemma MatchAt(index: nat, rest: string)
    requires Plain(rest)
    ensures MatchProperty(StepText(At(index)) + rest).None?
    ensures MatchIndex(StepText(At(index)) + rest) == Some((At(index), rest))
  {
    hide RunLength, Decimal, Number;
    var digits := Decimal(index);
    var s := StepText(At(index)) + rest;
    assert s == "[" + (digits + ("]" + rest)) && s[1..] == digits + ("]" + rest) && s[1] == digits[0];
    assert IsDigit(digits[0]);
    RunOfPrefix(digits, "]" + rest, true);
    assert s[1..1 + |digits|] == digits && s[1 + |digits|] == ']' && s[2 + |digits|..] == rest;
    NumberOfDecimal(index);
  }

  lemma StepIsPlain(step: Step, rest: string)
    requires Printable([step]) && Plain(rest)
    ensures Plain(StepText(step) + rest) && StepText(step) != ""
  {
    assert [step][0] == step;
    var s := StepText(step) + rest;
    match step
    case Key(name) => assert forall k :: 0 <= k < |name| ==> IsIdentifierPart(name[k]);
    case At(index) => assert forall k :: 0 <= k < |Decimal(index)| ==> IsDigit(Decimal(index)[k]);
  }

  lemma ParseFirst(step: Step, rest: string)
    requires Printable([step]) && Plain(rest)
    ensures ParseSteps(StepText(step) + rest) == Prefixed([step], ParseSteps(rest))
  {
    hide StepText, MatchProperty, MatchIndex;
    assert [step][0] == step;
    StepIsPlain(step, rest);
    match step
    case Key(name) => MatchKey(name, rest);
    case At(index) => MatchAt(index, rest);
  }

  lemma {:induction false} TextOfFirst(path: Path)
    requires path != []
    ensures StepsText(path) == StepText(path[0]) + StepsText(path[1..])
  {
    hide StepText;
    if |path| == 1 {
      assert path[..0] == [] && path[1..] == [];
    } else {
      var n := |path| - 1;
      TextOfFirst(path[..n]);
      assert path[1..][..n - 1] == path[..n][1..] && path[1..][n - 1] == path[n];
      assert StepsText(path[1..]) == StepsText(path[..n][1..]) + StepText(path[n]);
    }
  }

  lemma {:induction false} ParseOfText(path: Path)
    requires Printable(path)
    ensures Plain(StepsText(path)) && ParseSteps(StepsText(path)) == Ok(path)
  {
    if path != [] {
      TextOfFirst(path);
      ParseOfText(path[1..]);
      StepIsPlain(path[0], StepsText(path[1..]));
      ParseFirst(path[0], StepsText(path[1..]));
      assert path == [path[0]] + path[1..];
    }
  }

  /** A path survives being written and read exactly when its keys are identifiers and its positions
      are not negative. */
  lemma PathRoundTrip(path: Path)
    ensures ParsePath("$" + StepsText(path)) == Ok(path) <==> Printable(path)
  {
    var text := "$" + StepsText(path);
    assert text[1..] == StepsText(path);
    if Printable(path) {
      ParseOfText(path);
    } else if ParsePath(text) == Ok(path) {
      ParsedIsPrintable(Tail(text[1..]).value);
    }
  }

  // ----- exactly what the parser takes

  /** ASCII letters, digits and underscores. */
  predicate IsNameChar(c: char) {
    'A' <= c <= 'Z' || 'a' <= c <= 'z' || '0' <= c <= '9' || c == '_'
  }

  predicate IsName(s: string) {
    s != "" && !('0' <= s[0] <= '9') && forall k :: 0 <= k < |s| ==> IsNameChar(s[k])
  }

  /** A key is spelled by any character but a line break and its name, a position by digits in brackets. */
  predicate SpellsStep(piece: string, step: Step) {
    match step
    case Key(name) => piece != "" && piece[0] != '\n' && piece[1..] == name && IsName(name)
    case At(index) =>
      && |piece| >= 3 && piece[0] == '[' && piece[|piece| - 1] == ']'
      && (forall k :: 1 <= k < |piece| - 1 ==> '0' <= piece[k] <= '9')
      && Number(piece[1..|piece| - 1]) == index
  }

  function Joined(pieces: seq<string>): string {
    if pieces == [] then "" else pieces[0] + Joined(pieces[1..])
  }

  /** A name goes on as long as it can. */
  predicate Spells(pieces: seq<string>, path: Path) {
    && |pieces| == |path|
    && (forall k :: 0 <= k < |path| ==> SpellsStep(pieces[k], path[k]))
    && forall k :: 0 < k < |path| && path[k - 1].Key? ==>
         pieces[k] != "" && !IsNameChar(pieces[k][0])
  }

  lemma NamesAreIdentifiers(s: string)
    ensures IsName(s) <==> IsIdentifier(s)
    ensures forall c :: IsNameChar(c) <==> IsIdentifierPart(c)
  {
  }

  lemma SpelledKey(piece: string, name: string, rest: string)
    requires SpellsStep(piece, Key(name)) && '\n' !in rest && (rest == "" || !IsIdentifierPart(rest[0]))
    ensures MatchProperty(piece + rest) == Some((Key(name), rest)) && '\n' !in piece + rest
  {
    hide RunLength, IsName;
    var s := piece + rest;
    NamesAreIdentifiers(name);
    assert s[1..] == name + rest && s[1] == name[0];
    RunOfPrefix(name, rest, false);
    assert s[1..1 + |name|] == name && s[1 + |name|..] == rest;
    assert forall k :: 0 <= k < |name| ==> piece[k + 1] == name[k] && IsIdentifierPart(name[k]);
  }

  lemma SpelledPosition(piece: string, index: int, rest: string)
    requires SpellsStep(piece, At(index)) && '\n' !in rest
    ensures MatchProperty(piece + rest).None? && MatchIndex(piece + rest) == Some((At(index), rest))
    ensures '\n' !in piece + rest
  {
    hide RunLength, Number;
    var s, digits := piece + rest, piece[1..|piece| - 1];
    assert piece == "[" + digits + "]" && forall k :: 0 <= k < |digits| ==> piece[k + 1] == digits[k];
    assert s[1..] == digits + ("]" + rest) && s[1] == digits[0] && IsDigit(digits[0]);
    RunOfPrefix(digits, "]" + rest, true);
    assert s[1..1 + |digits|] == digits && s[1 + |digits|] == ']' && s[2 + |digits|..] == rest;
  }

  lemma SpellsRest(pieces: seq<string>, path: Path)
    requires Spells(pieces, path) && path != []
    ensures Spells(pieces[1..], path[1..]) && SpellsStep(pieces[0], path[0])
    ensures |path| > 1 ==> pieces[1] != "" && (path[0].Key? ==> !IsIdentifierPart(pieces[1][0]))
  {
    hide IsName;
    if |path| > 1 {
      assert SpellsStep(pieces[1], path[1]);
      NamesAreIdentifiers(pieces[1]);
      assert path[1 - 1] == path[0];
    }
    forall k | 0 < k < |path[1..]| && path[1..][k - 1].Key?
      ensures pieces[1..][k] != "" && !IsNameChar(pieces[1..][k][0])
    {
      assert path[k + 1 - 1].Key? && pieces[1..][k] == pieces[k + 1];
    }
  }

  lemma {:induction false} SpelledIsParsed(pieces: seq<string>, path: Path)
    requires Spells(pieces, path)
    ensures '\n' !in Joined(pieces) && ParseSteps(Joined(pieces)) == Ok(path)
    decreases |path|
  {
    hide MatchProperty, MatchIndex, SpellsStep, Spells;
    if path == [] {
      assert pieces == [] by { SpellsLength(pieces, path); }
    } else {
      SpellsLength(pieces, path);
      SpellsRest(pieces, path);
      SpelledIsParsed(pieces[1..], path[1..]);
      var rest := Joined(pieces[1..]);
      SpellsLength(pieces[1..], path[1..]);
      match path[0] {
        case Key(name) => SpelledKey(pieces[0], name, rest);
        case At(index) => SpelledPosition(pieces[0], index, rest);
      }
      assert path == [path[0]] + path[1..];
    }
  }

  lemma SpellsLength(pieces: seq<string>, path: Path)
    requires Spells(pieces, path)
    ensures |pieces| == |path|
  {
  }

  /** What is parsed from the front of a text without line breaks, and how it is spelled there. */
  lemma FirstPiece(s: string)
    requires '\n' !in s && s != ""
    ensures var m := if MatchProperty(s).Some? then MatchProperty(s) else MatchIndex(s);
      m.Some? ==>
        var piece := s[..|s| - |m.value.1|];
        && s == piece + m.value.1 && SpellsStep(piece, m.value.0)
        && (m.value.0.Key? && m.value.1 != "" ==> !IsIdentifierPart(m.value.1[0]))
  {
    hide RunLength;
    if MatchProperty(s).Some? {
      var n := RunLength(s[1..], false);
      assert s[1 + n..] == MatchProperty(s).value.1;
      assert s[..1 + n][1..] == s[1..1 + n];
      NamesAreIdentifiers(s[1..1 + n]);
      assert n < |s[1..]| ==> s[1 + n] == s[1..][n];
    } else if MatchIndex(s).Some? {
      var n := RunLength(s[1..], true);
      var piece := s[..2 + n];
      assert s[2 + n..] == MatchIndex(s).value.1;
      assert piece[1..|piece| - 1] == s[1..1 + n];
      assert forall k :: 1 <= k < 1 + n ==> piece[k] == s[1..][k - 1];
    }
  }

  lemma {:induction false} ParsedIsSpelled(s: string) returns (pieces: seq<string>)
    requires '\n' !in s && ParseSteps(s).Ok?
    ensures Spells(pieces, ParseSteps(s).value) && Joined(pieces) == s
    decreases |s|
  {
    hide MatchProperty, MatchIndex, SpellsStep, Spells, IsName, IsNameChar, IsIdentifier, IsIdentifierPart;
    if s == "" {
      NothingSpelled();
      return [];
    }
    var m := if MatchProperty(s).Some? then MatchProperty(s) else MatchIndex(s);
    FirstPiece(s);
    var piece, rest := s[..|s| - |m.value.1|], m.value.1;
    assert forall k :: 0 <= k < |rest| ==> rest[k] == s[|s| - |rest| + k];
    var more := ParsedIsSpelled(rest);
    var path := ParseSteps(rest).value;
    pieces := [piece] + more;
    if path != [] {
      FirstOfJoined(more, path);
      NamesAreIdentifiers(rest);
    }
    SpellsOneMore(piece, m.value.0, more, path);
    assert ParseSteps(s).value == [m.value.0] + path;
  }

  lemma NothingSpelled()
    ensures Spells([], [])
  {
  }

  lemma FirstOfJoined(pieces: seq<string>, path: Path)
    requires Spells(pieces, path) && path != []
    ensures pieces[0] != "" && Joined(pieces) != "" && Joined(pieces)[0] == pieces[0][0]
  {
    PieceIsThere(pieces[0], path[0]);
  }

  lemma SpellsOneMore(piece: string, step: Step, more: seq<string>, path: Path)
    requires SpellsStep(piece, step) && Spells(more, path)
    requires path != [] && step.Key? ==> more[0] != "" && !IsNameChar(more[0][0])
    ensures Spells([piece] + more, [step] + path)
  {
    hide SpellsStep, IsNameChar;
    var pieces, steps := [piece] + more, [step] + path;
    forall k | 0 < k < |steps| && steps[k - 1].Key?
      ensures pieces[k] != "" && !IsNameChar(pieces[k][0])
    {
      if k > 1 {
        assert path[k - 1 - 1].Key? && pieces[k] == more[k - 1];
      }
    }
  }

  lemma PieceIsThere(piece: string, step: Step)
    requires SpellsStep(piece, step)
    ensures piece != ""
  {
  }

  /** A text is parsed as a path exactly when it is a dollar sign and pieces that spell the steps, whatever
      character comes before a name; one final line break is ignored. */
  lemma ParsedExactly(text: string, path: Path)
    ensures ParsePath(text) == Ok(path) <==>
      exists pieces :: Spells(pieces, path) && (text == "$" + Joined(pieces) || text == "$" + Joined(pieces) + "\n")
  {
    hide ParseSteps, Spells, Joined;
    if ParsePath(text) == Ok(path) {
      var s := Tail(text[1..]).value;
      assert text == "$" + text[1..];
      assert '\n' in text[1..] ==> text[1..] == s + "\n" by {
        if '\n' in text[1..] {
          assert text[1..][|s|] == '\n';
        }
      }
      var pieces := ParsedIsSpelled(s);
      assert text == "$" + Joined(pieces) || text == "$" + Joined(pieces) + "\n";
    }
    if pieces :| Spells(pieces, path) && (text == "$" + Joined(pieces) || text == "$" + Joined(pieces) + "\n") {
      var s := Joined(pieces);
      SpelledIsParsed(pieces, path);
      assert text[1..] == s || text[1..] == s + "\n";
      assert (s + "\n")[..|s|] == s && (s + "\n")[|s|] == '\n';
    }
  }
}
