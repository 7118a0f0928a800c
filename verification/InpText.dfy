/** The text of `.inp` files: rows of cells separated by blanks, lines, comments and section headers. */
module InpText {
  import opened Cells

  predicate IsLineBreak(c: char) {
    c in {'\n', '\r', '\U{000B}', '\U{000C}', '\U{001C}', '\U{001D}', '\U{001E}', '\U{0085}', '\U{2028}', '\U{2029}'}
  }

  predicate IsSpace(c: char) {
    || IsLineBreak(c) || c in {' ', '\t', '\U{001F}', '\U{00A0}', '\U{1680}', '\U{202F}', '\U{205F}', '\U{3000}'}
    || '\U{2000}' <= c <= '\U{200A}'
  }

  // ----- words

  predicate IsWord(s: string) {
    s != "" && forall k :: 0 <= k < |s| ==> !IsSpace(s[k])
  }

  /** The length of the word that the text begins with. */
  function WordLength(s: string): (n: nat)
    ensures n <= |s| && (forall k :: 0 <= k < n ==> !IsSpace(s[k])) && (n < |s| ==> IsSpace(s[n]))
  {
    if s == "" || IsSpace(s[0]) then 0 else 1 + WordLength(s[1..])
  }

  /** The words of a text. */
  function Words(s: string): (words: seq<string>)
    ensures forall k :: 0 <= k < |words| ==> IsWord(words[k])
    decreases |s|
  {
    if s == "" then []
    else if IsSpace(s[0]) then Words(s[1..])
    else
      var n := WordLength(s);
      assert IsWord(s[..n]);
      [s[..n]] + Words(s[n..])
  }

  lemma {:induction false} WordLengthOf(a: string, b: string)
    ensures b == "" || IsSpace(b[0]) ==> WordLength(a + b) == WordLength(a)
    ensures WordLength(a) < |a| ==> WordLength(a + b) == WordLength(a)
  {
    if a == "" {
      assert a + b == b;
    } else {
      assert (a + b)[1..] == a[1..] + b;
      WordLengthOf(a[1..], b);
    }
  }

  lemma NoWords()
    ensures Words("") == []
  {
  }

  lemma FirstWord(a: string)
    requires a != ""
    ensures IsSpace(a[0]) ==> Words(a) == Words(a[1..])
    ensures !IsSpace(a[0]) ==> 0 < WordLength(a) <= |a| && Words(a) == [a[..WordLength(a)]] + Words(a[WordLength(a)..])
  {
  }

  /** Words never run across a blank. */
  lemma {:induction false} WordsApart(a: string, b: string)
    requires b == "" || IsSpace(b[0])
    ensures Words(a + b) == Words(a) + Words(b)
    decreases |a|
  {
    hide IsSpace, Words, WordLength;
    if a == "" {
      assert a + b == b;
      NoWords();
    } else if IsSpace(a[0]) {
      assert (a + b)[1..] == a[1..] + b;
      FirstWord(a);
      FirstWord(a + b);
      WordsApart(a[1..], b);
    } else {
      var n := WordLength(a);
      WordLengthOf(a, b);
      FirstWord(a);
      FirstWord(a + b);
      assert (a + b)[..n] == a[..n] && (a + b)[n..] == a[n..] + b;
      WordsApart(a[n..], b);
    }
  }

  lemma {:induction false} WholeWord(w: string)
    requires forall k :: 0 <= k < |w| ==> !IsSpace(w[k])
    ensures WordLength(w) == |w|
  {
    if w != "" {
      WholeWord(w[1..]);
    }
  }

  lemma WordsOfWord(w: string)
    requires IsWord(w)
    ensures Words(w) == [w]
  {
    WholeWord(w);
    assert w[..|w|] == w && w[|w|..] == "";
  }

  // ----- rows

  const GAP := "  "

  function Joined(cells: seq<string>): string {
    if cells == [] then ""
    else if |cells| == 1 then cells[0]
    else Joined(cells[..|cells| - 1]) + GAP + cells[|cells| - 1]
  }

  /** The words of all cells. */
  function WordsOfAll(cells: seq<string>): seq<string> {
    if cells == [] then [] else WordsOfAll(cells[..|cells| - 1]) + Words(cells[|cells| - 1])
  }

  /** A row has the words of its cells, whatever these are. */
  lemma {:induction false} WordsOfRow(cells: seq<string>)
    ensures Words(Joined(cells)) == WordsOfAll(cells)
  {
    if |cells| == 1 {
      assert cells[..0] == [];
    } else if |cells| > 1 {
      var front, last := cells[..|cells| - 1], cells[|cells| - 1];
      WordsOfRow(front);
      assert Joined(front) + GAP + last == Joined(front) + (GAP + last);
      WordsApart(Joined(front), GAP + last);
      assert (GAP + last)[1..] == " " + last && (" " + last)[1..] == last;
    }
  }

  /** Cells that are words are read back as they were written. */
  lemma {:induction false} RowRoundTrip(cells: seq<string>)
    requires forall k :: 0 <= k < |cells| ==> IsWord(cells[k])
    ensures Words(Joined(cells)) == cells
  {
    WordsOfRow(cells);
    WordsAreCells(cells);
  }

  lemma {:induction false} WordsAreCells(cells: seq<string>)
    requires forall k :: 0 <= k < |cells| ==> IsWord(cells[k])
    ensures WordsOfAll(cells) == cells
  {
    if cells != [] {
      WordsAreCells(cells[..|cells| - 1]);
      WordsOfWord(cells[|cells| - 1]);
    }
  }

  // ----- lines

  /** The text before the first semicolon. */
  function WithoutComment(s: string): string {
    if s == "" || s[0] == ';' then "" else [s[0]] + WithoutComment(s[1..])
  }

  function StripLeft(s: string): string {
    if s != "" && IsSpace(s[0]) then StripLeft(s[1..]) else s
  }

  function StripRight(s: string): string {
    if s != "" && IsSpace(s[|s| - 1]) then StripRight(s[..|s| - 1]) else s
  }

  /** What the parser looks at of a line. */
  function Content(raw: string): string {
    StripRight(StripLeft(WithoutComment(raw)))
  }

  /** Text that a line consists of: no line breaks, no comment and no blanks around it. */
  predicate IsContent(s: string) {
    && (forall k :: 0 <= k < |s| ==> !IsLineBreak(s[k]) && s[k] != ';')
    && (s != "" ==> !IsSpace(s[0]) && !IsSpace(s[|s| - 1]))
  }

  lemma {:induction false} NoComment(s: string)
    requires forall k :: 0 <= k < |s| ==> s[k] != ';'
    ensures WithoutComment(s) == s
  {
    if s != "" {
      NoComment(s[1..]);
    }
  }

  lemma ContentOf(s: string)
    requires IsContent(s)
    ensures Content(s) == s
  {
    NoComment(s);
  }

  lemma {:induction false} StripRightStarts(s: string)
    requires s != "" && !IsSpace(s[0])
    ensures StripRight(s) != "" && StripRight(s)[0] == s[0]
  {
    if IsSpace(s[|s| - 1]) {
      StripRightStarts(s[..|s| - 1]);
    }
  }

  lemma {:induction false} StripLeftStarts(s: string)
    ensures StripLeft(s) != "" ==> !IsSpace(StripLeft(s)[0])
  {
    if s != "" && IsSpace(s[0]) {
      StripLeftStarts(s[1..]);
    }
  }

  /** A line with any content has words. */
  lemma ContentHasWords(raw: string)
    ensures Content(raw) != "" ==> Words(Content(raw)) != []
  {
    var s := StripLeft(WithoutComment(raw));
    StripLeftStarts(WithoutComment(raw));
    if s != "" {
      StripRightStarts(s);
    }
  }

  function FirstBreak(s: string): (n: nat)
    ensures n <= |s| && (forall k :: 0 <= k < n ==> !IsLineBreak(s[k])) && (n < |s| ==> IsLineBreak(s[n]))
  {
    if s == "" || IsLineBreak(s[0]) then 0 else 1 + FirstBreak(s[1..])
  }

  /** The lines of a text. A carriage return and line feed count as two breaks; the empty line between
      them is skipped like any other. */
  function Lines(text: string): seq<string>
    decreases |text|
  {
    var n := FirstBreak(text);
    if n == |text| then [text] else [text[..n]] + Lines(text[n + 1..])
  }

  /** Each line with a line break at its end. */
  function Terminated(lines: seq<string>): string {
    if lines == [] then "" else lines[0] + "\n" + Terminated(lines[1..])
  }

  lemma FirstLine(line: string, rest: string)
    requires forall j :: 0 <= j < |line| ==> !IsLineBreak(line[j])
    ensures FirstBreak(line) == |line|
    ensures var text := line + "\n" + rest;
      FirstBreak(text) == |line| < |text| && text[..|line|] == line && text[|line| + 1..] == rest
  {
    var text := line + "\n" + rest;
    assert forall k :: 0 <= k < |line| ==> text[k] == line[k];
    assert text[|line|] == '\n';
  }

  lemma {:induction false} LinesOfTerminated(lines: seq<string>)
    requires forall k :: 0 <= k < |lines| ==> forall j :: 0 <= j < |lines[k]| ==> !IsLineBreak(lines[k][j])
    ensures Lines(Terminated(lines)) == lines + [""]
  {
    hide FirstBreak, IsLineBreak;
    if lines == [] {
      FirstLine("", "");
      assert Lines("") == [""];
    } else {
      FirstLine(lines[0], Terminated(lines[1..]));
      LinesOfTerminated(lines[1..]);
    }
  }

  // ----- upper case

  function UpperChar(c: char): char {
    if 'a' <= c <= 'z' then c - 'a' + 'A' else c
  }

  function Upper(s: string): (r: string)
    ensures |r| == |s| && forall k :: 0 <= k < |s| ==> r[k] == UpperChar(s[k])
  {
    seq(|s|, k requires 0 <= k < |s| => UpperChar(s[k]))
  }

  /** Upper case has every small letter replaced by its capital, and changes nothing else. */
  lemma UpperHasNoSmallLetters(s: string)
    ensures forall k :: 0 <= k < |s| ==> !('a' <= Upper(s)[k] <= 'z')
    ensures forall k :: 0 <= k < |s| && 'a' <= s[k] <= 'z' ==>
      'A' <= Upper(s)[k] <= 'Z' && Upper(s)[k] - 'A' == s[k] - 'a'
    ensures Upper(s) == s <==> forall k :: 0 <= k < |s| ==> !('a' <= s[k] <= 'z')
    ensures Upper(Upper(s)) == Upper(s)
  {
    if Upper(s) == s {
      assert forall k :: 0 <= k < |s| ==> s[k] == UpperChar(s[k]);
    }
  }

  // ----- rows as lines

  /** The line starts and ends like a section header. */
  predicate IsHeader(line: string) {
    line != "" && line[0] == '[' && line[|line| - 1] == ']'
  }

  predicate IsCell(s: string) {
    IsWord(s) && ';' !in s
  }

  lemma {:induction false} JoinedIsContent(cells: seq<string>)
    requires cells != [] && forall k :: 0 <= k < |cells| ==> cells[k] != "" && IsContent(cells[k])
    ensures Joined(cells) != "" && IsContent(Joined(cells))
    ensures Joined(cells)[0] == cells[0][0]
    ensures var s, last := Joined(cells), cells[|cells| - 1]; s[|s| - 1] == last[|last| - 1]
  {
    if |cells| > 1 {
      JoinedIsContent(cells[..|cells| - 1]);
    }
  }

  lemma CellIsContent(s: string)
    requires IsCell(s)
    ensures s != "" && IsContent(s)
  {
    assert forall k :: 0 <= k < |s| ==> s[k] in s;
  }

  lemma {:induction false} WordsKeepOut(s: string, c: char)
    requires c !in s
    ensures forall k :: 0 <= k < |Words(s)| ==> c !in Words(s)[k]
    decreases |s|
  {
    if s != "" {
      if IsSpace(s[0]) {
        WordsKeepOut(s[1..], c);
      } else {
        WordsKeepOut(s[WordLength(s)..], c);
      }
    }
  }

  lemma {:induction false} CommentKeepsOut(s: string)
    ensures ';' !in WithoutComment(s)
  {
    if s != "" && s[0] != ';' {
      CommentKeepsOut(s[1..]);
    }
  }

  lemma {:induction false} StripLeftKeeps(s: string, c: char)
    requires c !in s
    ensures c !in StripLeft(s)
  {
    if s != "" && IsSpace(s[0]) {
      StripLeftKeeps(s[1..], c);
    }
  }

  lemma {:induction false} StripRightKeeps(s: string, c: char)
    requires c !in s
    ensures c !in StripRight(s)
  {
    if s != "" && IsSpace(s[|s| - 1]) {
      StripRightKeeps(s[..|s| - 1], c);
    }
  }

  lemma ContentHasNoSemicolon(s: string)
    ensures ';' !in Content(s)
  {
    CommentKeepsOut(s);
    StripLeftKeeps(WithoutComment(s), ';');
    StripRightKeeps(StripLeft(WithoutComment(s)), ';');
  }

  /** A line of cells is read back as a row of these cells exactly when there are any, none is empty or
      holds a blank or a semicolon, and they do not stand in brackets together. */
  lemma RowLineRoundTrip(cells: seq<string>)
    ensures var line := Content(Joined(cells));
      line != "" && !IsHeader(line) && Words(line) == cells
      <==> && cells != [] && (forall k :: 0 <= k < |cells| ==> IsCell(cells[k]))
           && !(cells[0][0] == '[' && cells[|cells| - 1][|cells[|cells| - 1]| - 1] == ']')
  {
    var line := Content(Joined(cells));
    if cells != [] && forall k :: 0 <= k < |cells| ==> IsCell(cells[k]) {
      forall k | 0 <= k < |cells|
        ensures cells[k] != "" && IsContent(cells[k])
      {
        CellIsContent(cells[k]);
      }
      JoinedIsContent(cells);
      ContentOf(Joined(cells));
      RowRoundTrip(cells);
    } else if cells != [] && Words(line) == cells {
      ContentHasNoSemicolon(Joined(cells));
      WordsKeepOut(line, ';');
    }
  }
}
