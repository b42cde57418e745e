/** Cursor position, line, word and preview counts over the editor's text
    (`src/utils/editorPosition.ts`).

    Strings are sequences of characters. Each regular expression the source
    uses (`/\r?\n/`, `/\s+/`, `/<[^>]+>/g`, `/<p\b/gi`, ...) is written out
    as a recursive function over the string, and its meaning is proved
    against a second, independent description (counts of characters,
    maximal runs, positions where a tag opens). */
module EditorPosition {

  // ---------------------------------------------------------------------------
  // Line breaks: `/\r?\n/`

  /** The number of `\n` characters: each one ends a line, whether or not a
      `\r` comes before it. */
  function Breaks(s: string): nat
    decreases |s|
  {
    if s == [] then 0
    else Breaks(s[..|s| - 1]) + (if s[|s| - 1] == '\n' then 1 else 0)
  }

  lemma {:induction false} BreaksAppend(a: string, b: string)
    ensures Breaks(a + b) == Breaks(a) + Breaks(b)
    decreases |b|
  {
    if b == [] {
      assert a + b == a;
    } else {
      var b' := b[..|b| - 1];
      assert (a + b)[..|a + b| - 1] == a + b';
      BreaksAppend(a, b');
    }
  }

  /** A prefix never holds more line breaks than the whole text. */
  lemma BreaksPrefix(s: string, k: nat)
    requires k <= |s|
    ensures Breaks(s[..k]) <= Breaks(s)
  {
    assert s == s[..k] + s[k..];
    BreaksAppend(s[..k], s[k..]);
  }

  /** The index just after the last `\n`, or 0: where the last line starts. */
  function LineStart(s: string): (k: nat)
    ensures k <= |s|
    ensures k > 0 ==> s[k - 1] == '\n'
    ensures forall j :: k <= j < |s| ==> s[j] != '\n'
    decreases |s|
  {
    if s == [] then 0
    else if s[|s| - 1] == '\n' then |s|
    else LineStart(s[..|s| - 1])
  }

  /** `s.split(/\r?\n/)`: the pieces between the breaks. Read from the end, a
      `\n` closes a piece and takes the `\r` right before it along; this
      splits exactly where the left-to-right regular expression does, since
      a `\r` before a `\n` can never belong to an earlier match. */
  function SplitLines(s: string): (r: seq<string>)
    ensures |r| >= 1
    decreases |s|
  {
    if s == [] then [""]
    else if s[|s| - 1] == '\n' then
      var init := s[..|s| - 1];
      var rest := if init != [] && init[|init| - 1] == '\r' then init[..|init| - 1] else init;
      SplitLines(rest) + [""]
    else
      var r := SplitLines(s[..|s| - 1]);
      r[..|r| - 1] + [r[|r| - 1] + [s[|s| - 1]]]
  }

  /** There is one more piece than there are breaks. */
  lemma {:induction false} SplitLinesCount(s: string)
    ensures |SplitLines(s)| == Breaks(s) + 1
    decreases |s|
  {
    if s != [] {
      var init := s[..|s| - 1];
      if s[|s| - 1] == '\n' && init != [] && init[|init| - 1] == '\r' {
        var rest := init[..|init| - 1];
        SplitLinesCount(rest);
        assert Breaks(init) == Breaks(rest);
      } else {
        SplitLinesCount(init);
      }
    }
  }

  /** A character other than `\n` extends the last piece and the last
      line. */
  lemma SplitLinesSnoc(t: string, c: char)
    requires c != '\n'
    ensures var r := SplitLines(t);
            SplitLines(t + [c]) == r[..|r| - 1] + [r[|r| - 1] + [c]]
    ensures LineStart(t + [c]) == LineStart(t)
  {
    var u := t + [c];
    assert u[..|u| - 1] == t;
  }

  /** The last piece is everything after the last `\n`, a trailing `\r`
      included. */
  lemma {:induction false} SplitLinesLast(s: string)
    ensures SplitLines(s)[|SplitLines(s)| - 1] == s[LineStart(s)..]
    decreases |s|
  {
    if s != [] && s[|s| - 1] != '\n' {
      var init, c := s[..|s| - 1], s[|s| - 1];
      SplitLinesLast(init);
      SplitLinesLastStep(init, c);
      assert s == init + [c];
    }
  }

  lemma SplitLinesLastStep(init: string, c: char)
    requires c != '\n'
    requires SplitLines(init)[|SplitLines(init)| - 1] == init[LineStart(init)..]
    ensures SplitLines(init + [c])[|SplitLines(init + [c])| - 1] == (init + [c])[LineStart(init + [c])..]
  {
    SplitLinesSnoc(init, c);
    var k := LineStart(init);
    assert (init + [c])[k..] == init[k..] + [c];
  }

  // ---------------------------------------------------------------------------
  // getLineColumn, getTotalLines, getSelectionInfo

  /** A 1-based line and column. */
  datatype Position = Position(line: int, column: int)

  /** The offset `Math.min(offset, text.length)` the source slices at, with
      the early return for a non-positive offset folded in. */
  function Clamp(offset: int, n: nat): (k: nat)
    ensures k <= n
    ensures 0 < offset <= n ==> k == offset
    ensures offset > n ==> k == n
    ensures offset <= 0 ==> k == 0
  {
    if offset <= 0 then 0 else if offset < n then offset else n
  }

  /** `getLineColumn`: line and column of the cursor at `offset`. Empty text
      and offsets at or before the start give line 1, column 1; an offset
      past the end is clamped to the end. */
  function LineColumn(text: string, offset: int): (p: Position)
    ensures p.line >= 1 && p.column >= 1
  {
    if text == [] || offset <= 0 then Position(1, 1)
    else
      var safeOffset := if offset < |text| then offset else |text|;
      var lines := SplitLines(text[..safeOffset]);
      Position(|lines|, |lines[|lines| - 1]| + 1)
  }

  /** The line is one more than the breaks before the (clamped) offset, and
      the column one more than the distance from the start of that line. */
  lemma LineColumnCounts(text: string, offset: int)
    ensures LineColumn(text, offset).line == Breaks(text[..Clamp(offset, |text|)]) + 1
    ensures LineColumn(text, offset).column
         == Clamp(offset, |text|) - LineStart(text[..Clamp(offset, |text|)]) + 1
  {
    var before := text[..Clamp(offset, |text|)];
    if text == [] || offset <= 0 {
      assert before == [];
    } else {
      SplitLinesCount(before);
      SplitLinesLast(before);
    }
  }

  /** `getTotalLines`: 1 for empty text, otherwise the number of pieces. */
  function TotalLines(text: string): (n: int)
    ensures n >= 1
  {
    if text == [] then 1 else |SplitLines(text)|
  }

  /** The text has one line more than it has breaks, and its last line is
      the line of the cursor at its very end. */
  lemma TotalLinesCounts(text: string)
    ensures TotalLines(text) == Breaks(text) + 1
    ensures TotalLines(text) == LineColumn(text, |text|).line
  {
    SplitLinesCount(text);
    LineColumnCounts(text, |text|);
    assert text[..|text|] == text;
  }

  /** The cursor's line never passes the last line. */
  lemma LineWithinText(text: string, offset: int)
    ensures 1 <= LineColumn(text, offset).line <= TotalLines(text)
  {
    LineColumnCounts(text, offset);
    BreaksPrefix(text, Clamp(offset, |text|));
    TotalLinesCounts(text);
  }

  /** Moving the cursor forward never moves it to an earlier line. */
  lemma LineMonotone(text: string, o1: int, o2: int)
    requires o1 <= o2
    ensures LineColumn(text, o1).line <= LineColumn(text, o2).line
  {
    var k1, k2 := Clamp(o1, |text|), Clamp(o2, |text|);
    LineColumnCounts(text, o1);
    LineColumnCounts(text, o2);
    assert text[..k1] == text[..k2][..k1];
    BreaksPrefix(text[..k2], k1);
  }

  /** The result of `getSelectionInfo`. */
  datatype Selection = Selection(lineStart: int, lineEnd: int, selectedLines: int, selectedChars: int)

  /** `getSelectionInfo`: the lines the selection starts and ends on, how
      many lines it touches (at least one) and how many characters it holds
      (never negative). */
  function SelectionInfo(text: string, start: int, end: int): (r: Selection)
    ensures r.lineStart == LineColumn(text, start).line
    ensures r.lineEnd == LineColumn(text, end).line
    ensures r.selectedLines >= 1 && r.selectedChars >= 0
    ensures start <= end ==> r.selectedChars == end - start
    ensures start <= end ==> r.selectedLines == r.lineEnd - r.lineStart + 1
    ensures end <= start ==> r.selectedChars == 0
  {
    var lineStart := LineColumn(text, start).line;
    var lineEnd := LineColumn(text, end).line;
    var selectedLines := if lineEnd - lineStart + 1 > 1 then lineEnd - lineStart + 1 else 1;
    var selectedChars := if end - start > 0 then end - start else 0;
    var r := Selection(lineStart, lineEnd, selectedLines, selectedChars);
    if start <= end then LineMonotone(text, start, end); r else r
  }

  /** A selection inside the text touches one line more than the breaks it
      contains. */
  lemma SelectionLines(text: string, start: int, end: int)
    requires 0 <= start <= end <= |text|
    ensures SelectionInfo(text, start, end).selectedLines == Breaks(text[start..end]) + 1
  {
    LineColumnCounts(text, start);
    LineColumnCounts(text, end);
    assert text[..end] == text[..start] + text[start..end];
    BreaksAppend(text[..start], text[start..end]);
  }

  // ---------------------------------------------------------------------------
  // Whitespace: `\s` and `trim`

  /** JavaScript's `\s`, which is also what `trim` removes: the ASCII
      blanks, no-break space, the Unicode space separators, the line and
      paragraph separators and the byte-order mark. */
  predicate IsSpace(c: char)
  {
    c == ' ' || c == '\t' || c == '\n' || c == '\r' || c == '\U{B}' || c == '\U{C}'
    || c == '\U{A0}' || c == '\U{1680}' || ('\U{2000}' <= c <= '\U{200A}')
    || c == '\U{2028}' || c == '\U{2029}' || c == '\U{202F}' || c == '\U{205F}'
    || c == '\U{3000}' || c == '\U{FEFF}'
  }

  /** The first position at or after `i` that does not hold whitespace, or
      `|s|`. */
  function SkipSpaces(s: string, i: nat): (k: nat)
    requires i <= |s|
    ensures i <= k <= |s|
    ensures forall j :: i <= j < k ==> IsSpace(s[j])
    ensures k < |s| ==> !IsSpace(s[k])
    decreases |s| - i
  {
    if i < |s| && IsSpace(s[i]) then SkipSpaces(s, i + 1) else i
  }

  /** The end of `s[..n]` once its trailing whitespace is dropped. */
  function SkipSpacesBack(s: string, n: nat): (k: nat)
    requires n <= |s|
    ensures k <= n
    ensures forall j :: k <= j < n ==> IsSpace(s[j])
    ensures k > 0 ==> !IsSpace(s[k - 1])
  {
    if n > 0 && IsSpace(s[n - 1]) then SkipSpacesBack(s, n - 1) else n
  }

  /** `trim`: leading and trailing whitespace removed. It is empty exactly
      when the text is all whitespace, and otherwise starts and ends with a
      non-space character. */
  function Trim(s: string): (r: string)
    ensures r == [] <==> forall i :: 0 <= i < |s| ==> IsSpace(s[i])
    ensures r != [] ==> !IsSpace(r[0]) && !IsSpace(r[|r| - 1])
  {
    var m := s[SkipSpaces(s, 0)..];
    m[..SkipSpacesBack(m, |m|)]
  }

  // ---------------------------------------------------------------------------
  // Words: `split(/\s+/).filter(Boolean)`

  /** The maximal runs of non-space characters, in order: what
      `s.split(/\s+/)` yields once `filter(Boolean)` drops the empty pieces
      at either end. Read from the end: a space ends the current run, a
      non-space character extends the run before it or starts a new one. */
  function Fields(s: string): (f: seq<string>)
    ensures forall k :: 0 <= k < |f| ==> f[k] != []
    ensures s != [] && !IsSpace(s[|s| - 1]) ==> f != []
    decreases |s|
  {
    if s == [] then []
    else
      var f := Fields(s[..|s| - 1]);
      var c := s[|s| - 1];
      if IsSpace(c) then f
      else if |s| >= 2 && !IsSpace(s[|s| - 2]) then f[..|f| - 1] + [f[|f| - 1] + [c]]
      else f + [[c]]
  }

  /** Position `i` starts a word: a non-space character at the start of the
      text or right after a space. */
  predicate WordStartsAt(s: string, i: int)
    requires 0 <= i < |s|
  {
    !IsSpace(s[i]) && (i == 0 || IsSpace(s[i - 1]))
  }

  /** How many words start before position `n`. */
  function WordStarts(s: string, n: nat): nat
    requires n <= |s|
  {
    if n == 0 then 0 else WordStarts(s, n - 1) + (if WordStartsAt(s, n - 1) then 1 else 0)
  }

  lemma {:induction false} WordStartsPrefix(s: string, k: nat, n: nat)
    requires n <= k <= |s|
    ensures WordStarts(s[..k], n) == WordStarts(s, n)
  {
    if n > 0 {
      WordStartsPrefix(s, k, n - 1);
    }
  }

  /** There is one field per position where a word starts. */
  lemma {:induction false} FieldsCountWords(s: string)
    ensures |Fields(s)| == WordStarts(s, |s|)
    decreases |s|
  {
    if s != [] {
      var init := s[..|s| - 1];
      FieldsCountWords(init);
      WordStartsPrefix(s, |s| - 1, |s| - 1);
    }
  }

  /** There are no fields exactly when the text is all whitespace. */
  lemma {:induction false} FieldsEmptyIff(s: string)
    ensures Fields(s) == [] <==> forall i :: 0 <= i < |s| ==> IsSpace(s[i])
    decreases |s|
  {
    if s != [] {
      var init := s[..|s| - 1];
      FieldsEmptyIff(init);
      if IsSpace(s[|s| - 1]) {
        assert forall i :: 0 <= i < |init| ==> init[i] == s[i];
      }
    }
  }

  /** A leading space does not change the fields. */
  lemma {:induction false} FieldsSpaceFront(c: char, s: string)
    requires IsSpace(c)
    ensures Fields([c] + s) == Fields(s)
    decreases |s|
  {
    if s != [] {
      var init := s[..|s| - 1];
      assert ([c] + s)[..|[c] + s| - 1] == [c] + init;
      FieldsSpaceFront(c, init);
    }
  }

  /** Dropping leading whitespace does not change the fields. */
  lemma {:induction false} FieldsDropFront(s: string, k: nat)
    requires k <= |s|
    requires forall j :: 0 <= j < k ==> IsSpace(s[j])
    ensures Fields(s[k..]) == Fields(s)
  {
    if k == 0 {
      assert s[k..] == s;
    } else {
      FieldsDropFront(s, k - 1);
      assert s[k - 1..] == [s[k - 1]] + s[k..];
      FieldsSpaceFront(s[k - 1], s[k..]);
    }
  }

  /** Dropping trailing whitespace does not change the fields. */
  lemma {:induction false} FieldsDropBack(s: string, k: nat)
    requires k <= |s|
    requires forall j :: k <= j < |s| ==> IsSpace(s[j])
    ensures Fields(s[..k]) == Fields(s)
    decreases |s|
  {
    if k == |s| {
      assert s[..k] == s;
    } else {
      var init := s[..|s| - 1];
      FieldsDropBack(init, k);
      assert init[..k] == s[..k];
    }
  }

  lemma FieldsTrim(s: string)
    ensures Fields(Trim(s)) == Fields(s)
  {
    var m := s[SkipSpaces(s, 0)..];
    FieldsDropFront(s, SkipSpaces(s, 0));
    FieldsDropBack(m, SkipSpacesBack(m, |m|));
  }

  /** `getWordCount`: 0 when the trimmed text is empty, otherwise the number
      of fields of the trimmed text. */
  function WordCount(text: string): (n: nat)
  {
    var t := Trim(text);
    if t == [] then 0 else |Fields(t)|
  }

  /** The word count is the number of maximal non-space runs of the text,
      that is, the number of positions where a word starts; it is 0 exactly
      for whitespace-only text. */
  lemma WordCountRuns(text: string)
    ensures WordCount(text) == |Fields(text)|
    ensures WordCount(text) == WordStarts(text, |text|)
    ensures WordCount(text) == 0 <==> forall i :: 0 <= i < |text| ==> IsSpace(text[i])
  {
    FieldsTrim(text);
    FieldsCountWords(text);
    FieldsEmptyIff(text);
  }

  // ---------------------------------------------------------------------------
  // getPreviewStats

  /** The index of the first `>` at or after `i`, or `|s|` when there is
      none. */
  function CloseFrom(s: string, i: nat): (j: nat)
    requires i <= |s|
    ensures i <= j <= |s|
    ensures j < |s| ==> s[j] == '>'
    ensures forall k :: i <= k < j ==> s[k] != '>'
    decreases |s| - i
  {
    if i == |s| || s[i] == '>' then i else CloseFrom(s, i + 1)
  }

  /** `s.replace(/<[^>]+>/g, ' ')`. A `<` opens a tag when a `>` follows it
      with at least one character in between; the tag runs to the first such
      `>` and becomes one space. Any other `<` stays as it is. */
  function StripTags(s: string): (r: string)
    ensures |r| <= |s|
    ensures (forall i :: 0 <= i < |s| ==> s[i] != '<') ==> r == s
    decreases |s|
  {
    if s == [] then []
    else if s[0] == '<' && 1 < CloseFrom(s, 1) < |s| then [' '] + StripTags(s[CloseFrom(s, 1) + 1..])
    else
      assert forall i :: 0 <= i < |s| - 1 ==> s[1..][i] == s[i + 1];
      [s[0]] + StripTags(s[1..])
  }

  /** `s.replace(/\s+/g, ' ')`: each maximal whitespace run becomes a single
      space. Read from the end: a whitespace character right after another
      one is dropped, any other becomes `' '`. */
  function Collapse(s: string): (r: string)
    ensures |r| <= |s|
    ensures r == [] <==> s == []
    ensures r != [] ==> (IsSpace(r[|r| - 1]) <==> IsSpace(s[|s| - 1]))
    decreases |s|
  {
    if s == [] then []
    else
      var init := s[..|s| - 1];
      var c := s[|s| - 1];
      if !IsSpace(c) then Collapse(init) + [c]
      else if init != [] && IsSpace(init[|init| - 1]) then Collapse(init)
      else Collapse(init) + [' ']
  }

  /** The fields after one more character: a space changes nothing, a
      non-space after a non-space extends the last field, and any other
      non-space starts a new one. */
  lemma FieldsSnoc(t: string, c: char)
    ensures Fields(t + [c]) ==
      if IsSpace(c) then Fields(t)
      else if t != [] && !IsSpace(t[|t| - 1]) then
        Fields(t)[..|Fields(t)| - 1] + [Fields(t)[|Fields(t)| - 1] + [c]]
      else Fields(t) + [[c]]
  {
    var u := t + [c];
    assert u[..|u| - 1] == t;
  }

  /** Two texts with the same fields, both ending in a space or both not,
      keep the same fields when a space, or the same non-space, is added to
      each. */
  lemma FieldsStepAgree(init: string, ci: string, c: char, d: char)
    requires Fields(ci) == Fields(init)
    requires (ci != [] && !IsSpace(ci[|ci| - 1])) == (init != [] && !IsSpace(init[|init| - 1]))
    requires IsSpace(c) == IsSpace(d) && (!IsSpace(c) ==> d == c)
    ensures Fields(ci + [d]) == Fields(init + [c])
  {
    FieldsSnoc(init, c);
    FieldsSnoc(ci, d);
  }

  /** Collapsing whitespace keeps the fields. */
  lemma {:induction false} FieldsCollapse(s: string)
    ensures Fields(Collapse(s)) == Fields(s)
    decreases |s|
  {
    if s != [] {
      var init, c := s[..|s| - 1], s[|s| - 1];
      FieldsCollapse(init);
      FieldsCollapseStep(init, c);
      assert s == init + [c];
    }
  }

  lemma FieldsCollapseStep(init: string, c: char)
    requires Fields(Collapse(init)) == Fields(init)
    ensures Fields(Collapse(init + [c])) == Fields(init + [c])
  {
    var ci := Collapse(init);
    CollapseSnoc(init, c);
    if !IsSpace(c) {
      FieldsStepAgree(init, ci, c, c);
    } else if init != [] && IsSpace(init[|init| - 1]) {
      FieldsSnoc(init, c);
    } else {
      FieldsStepAgree(init, ci, c, ' ');
    }
  }

  /** Words joined by single spaces. */
  function Join(f: seq<string>): string
  {
    if f == [] then []
    else if |f| == 1 then f[0]
    else Join(f[..|f| - 1]) + [' '] + f[|f| - 1]
  }

  /** The total length of the words. */
  function TotalLength(f: seq<string>): nat
  {
    if f == [] then 0 else TotalLength(f[..|f| - 1]) + |f[|f| - 1]|
  }

  /** Joined words are as long as the words plus one space between each two. */
  lemma {:induction false} JoinLength(f: seq<string>)
    ensures f != [] ==> |Join(f)| == TotalLength(f) + |f| - 1
    ensures f == [] ==> Join(f) == []
    decreases |f|
  {
    if |f| > 1 {
      JoinLength(f[..|f| - 1]);
    }
  }

  lemma JoinSnoc(f: seq<string>, w: string)
    requires f != []
    ensures Join(f + [w]) == Join(f) + [' '] + w
  {
    assert (f + [w])[..|f|] == f;
  }

  lemma JoinExtendLast(f: seq<string>, c: char)
    requires f != []
    ensures Join(f[..|f| - 1] + [f[|f| - 1] + [c]]) == Join(f) + [c]
  {
    var g := f[..|f| - 1] + [f[|f| - 1] + [c]];
    assert g[..|g| - 1] == f[..|f| - 1];
    if |f| > 1 {
      assert Join(g) == Join(f[..|f| - 1]) + [' '] + (f[|f| - 1] + [c]);
    }
  }

  /** Text made of whitespace only (or nothing). */
  predicate Blank(s: string)
  {
    forall i :: 0 <= i < |s| ==> IsSpace(s[i])
  }

  /** Non-empty text that starts and ends with a non-space. */
  predicate Solid(j: string)
  {
    j != [] && !IsSpace(j[0]) && !IsSpace(j[|j| - 1])
  }

  /** A space in front of text that starts with whitespace. */
  function Lead(s: string): string
  {
    if s != [] && IsSpace(s[0]) then " " else ""
  }

  /** A space behind text that ends with whitespace. */
  function Trail(s: string): string
  {
    if s != [] && IsSpace(s[|s| - 1]) then " " else ""
  }

  /** Whitespace-only text collapses to one space, or to nothing. */
  lemma {:induction false} CollapseBlank(s: string)
    requires Blank(s)
    ensures Collapse(s) == (if s == [] then [] else " ")
    decreases |s|
  {
    if s != [] {
      var init := s[..|s| - 1];
      CollapseBlank(init);
      assert init != [] ==> IsSpace(init[|init| - 1]);
    }
  }

  /** The first non-space after whitespace only. */
  lemma CollapseFirstWord(init: string, c: char)
    requires Blank(init) && !IsSpace(c)
    ensures Collapse(init + [c]) == Lead(init + [c]) + [c]
    ensures Fields(init + [c]) == [[c]]
  {
    var s := init + [c];
    assert s[..|s| - 1] == init;
    CollapseBlank(init);
    FieldsEmptyIff(init);
    FieldsSnoc(init, c);
    assert init != [] ==> s[0] == init[0];
  }

  /** Collapsing one more character: a non-space is kept, a space after a
      space is dropped, and any other space becomes `' '`. */
  lemma CollapseSnoc(t: string, c: char)
    ensures Collapse(t + [c]) ==
      if !IsSpace(c) then Collapse(t) + [c]
      else if t != [] && IsSpace(t[|t| - 1]) then Collapse(t)
      else Collapse(t) + [' ']
  {
    var u := t + [c];
    assert u[..|u| - 1] == t;
  }

  /** One more character after text that has words. */
  lemma CollapseStep(init: string, c: char)
    requires !Blank(init) && Solid(Join(Fields(init)))
    requires Collapse(init) == Lead(init) + Join(Fields(init)) + Trail(init)
    ensures Solid(Join(Fields(init + [c])))
    ensures Collapse(init + [c]) == Lead(init + [c]) + Join(Fields(init + [c])) + Trail(init + [c])
  {
    var s := init + [c];
    assert s[0] == init[0];
    FieldsEmptyIff(init);
    FieldsSnoc(init, c);
    CollapseSnoc(init, c);
    var f, j := Fields(init), Join(Fields(init));
    if IsSpace(c) {
      StepSpace(init, c, j, Collapse(init), Collapse(s));
    } else if IsSpace(init[|init| - 1]) {
      JoinSnoc(f, [c]);
      StepNewWord(init, c, j, Collapse(init), Collapse(s));
    } else {
      JoinExtendLast(f, c);
      StepSameWord(init, c, j, Collapse(init), Collapse(s));
    }
  }

  /** A space after words: the collapsed text ends in one space. */
  lemma StepSpace(init: string, c: char, j: string, x: string, y: string)
    requires init != [] && IsSpace(c)
    requires x == Lead(init) + j + Trail(init)
    requires y == if IsSpace(init[|init| - 1]) then x else x + [' ']
    ensures y == Lead(init) + j + Trail(init + [c])
  {
    assert (init + [c])[|init|] == c;
  }

  /** A non-space after a space starts a new word. */
  lemma StepNewWord(init: string, c: char, j: string, x: string, y: string)
    requires init != [] && !IsSpace(c) && IsSpace(init[|init| - 1]) && Solid(j)
    requires x == Lead(init) + j + Trail(init)
    requires y == x + [c]
    ensures Solid(j + [' '] + [c])
    ensures y == Lead(init) + (j + [' '] + [c]) + Trail(init + [c])
  {
    assert (init + [c])[|init|] == c;
  }

  /** A non-space after a non-space extends the last word. */
  lemma StepSameWord(init: string, c: char, j: string, x: string, y: string)
    requires init != [] && !IsSpace(c) && !IsSpace(init[|init| - 1]) && Solid(j)
    requires x == Lead(init) + j + Trail(init)
    requires y == x + [c]
    ensures Solid(j + [c])
    ensures y == Lead(init) + (j + [c]) + Trail(init + [c])
  {
    assert (init + [c])[|init|] == c;
  }

  /** Collapsing whitespace turns text with words into its words joined by
      single spaces, with one space in front or behind where the text
      starts or ends with whitespace. */
  lemma {:induction false} CollapseShape(s: string)
    requires !Blank(s)
    ensures Solid(Join(Fields(s)))
    ensures Collapse(s) == Lead(s) + Join(Fields(s)) + Trail(s)
    decreases |s|
  {
    var init, c := s[..|s| - 1], s[|s| - 1];
    assert s == init + [c];
    if Blank(init) {
      CollapseFirstWord(init, c);
    } else {
      CollapseShape(init);
      CollapseStep(init, c);
    }
  }

  /** Trimming whitespace around text that starts and ends with a
      non-space leaves that text. */
  lemma TrimAround(a: string, m: string, b: string)
    requires forall i :: 0 <= i < |a| ==> IsSpace(a[i])
    requires forall i :: 0 <= i < |b| ==> IsSpace(b[i])
    requires m != [] && !IsSpace(m[0]) && !IsSpace(m[|m| - 1])
    ensures Trim(a + m + b) == m
  {
    var s := a + m + b;
    var k := SkipSpaces(s, 0);
    assert s[|a|] == m[0];
    assert k == |a|;
    var t := s[k..];
    assert t == m + b;
    var e := SkipSpacesBack(t, |t|);
    assert t[|m| - 1] == m[|m| - 1];
    assert e >= |m|;
    assert e == |m|;
  }

  /** Collapsing and trimming whitespace leaves the words joined by single
      spaces. */
  lemma TrimCollapse(s: string)
    ensures Trim(Collapse(s)) == Join(Fields(s))
  {
    FieldsEmptyIff(s);
    if Blank(s) {
      CollapseBlank(s);
      assert Blank(Collapse(s));
    } else {
      CollapseShape(s);
      TrimAround(Lead(s), Join(Fields(s)), Trail(s));
    }
  }

  /** The text the preview counts: tags become spaces, whitespace runs
      become one space, and the ends are trimmed. */
  function PreviewText(html: string): string
  {
    Trim(Collapse(StripTags(html)))
  }

  /** The block elements `getPreviewStats` counts as paragraphs. */
  datatype Block = Paragraph | ListItem | Quote | Heading | Code

  /** ASCII upper-case letters to lower case, as the `i` flag compares
      them; every other character is left alone. */
  function Lower(c: char): char
  {
    if 'A' <= c <= 'Z' then (c as int + 32) as char else c
  }

  /** A regular-expression word character: `[A-Za-z0-9_]`. */
  predicate IsWordChar(c: char)
  {
    ('a' <= c <= 'z') || ('A' <= c <= 'Z') || ('0' <= c <= '9') || c == '_'
  }

  /** `\b` after a word character: the text ends at `j`, or the character
      there is not a word character. */
  predicate BoundaryAt(s: string, j: nat)
  {
    j >= |s| || !IsWordChar(s[j])
  }

  /** `name` (lower case) is found at `j`, ignoring ASCII case. */
  predicate NameAt(s: string, j: nat, name: string)
  {
    j + |name| <= |s| && forall k :: 0 <= k < |name| ==> Lower(s[j + k]) == name[k]
  }

  /** `/<name\b/i` matches at `i`. */
  predicate TagAt(s: string, i: nat, name: string)
  {
    i < |s| && s[i] == '<' && NameAt(s, i + 1, name) && BoundaryAt(s, i + 1 + |name|)
  }

  /** `/<h[1-6]\b/i` matches at `i`. */
  predicate HeadingAt(s: string, i: nat)
  {
    i + 3 <= |s| && s[i] == '<' && Lower(s[i + 1]) == 'h' && '1' <= s[i + 2] <= '6'
    && BoundaryAt(s, i + 3)
  }

  function TagName(b: Block): string
    requires b != Heading
  {
    match b
    case Paragraph => "p"
    case ListItem => "li"
    case Quote => "blockquote"
    case Code => "pre"
  }

  /** A block of kind `b` opens at position `i`. */
  predicate OpensAt(s: string, i: nat, b: Block)
  {
    if b == Heading then HeadingAt(s, i) else TagAt(s, i, TagName(b))
  }

  /** How many blocks of kind `b` open before position `n`: the length of
      `html.match(/<name\b/gi) ?? []` when `n` is the whole text. Matches of
      these patterns start with the only `<` they hold, so they never
      overlap and counting start positions counts matches. */
  function CountOpens(s: string, b: Block, n: nat): nat
    requires n <= |s|
  {
    if n == 0 then 0 else CountOpens(s, b, n - 1) + (if OpensAt(s, n - 1, b) then 1 else 0)
  }

  /** The paragraph count: paragraphs, list items, block quotes, headings
      and code blocks. */
  function Paragraphs(html: string): nat
  {
    CountOpens(html, Paragraph, |html|) + CountOpens(html, ListItem, |html|)
    + CountOpens(html, Quote, |html|) + CountOpens(html, Heading, |html|)
    + CountOpens(html, Code, |html|)
  }

  /** The result of `getPreviewStats`. */
  datatype PreviewStats = PreviewStats(characters: int, words: int, paragraphs: int)

  /** `getPreviewStats`: all zero for empty or whitespace-only HTML;
      otherwise the length and fields of the preview text and the number of
      blocks. The characters never exceed the HTML's own length. */
  function PreviewStatsOf(html: string): (r: PreviewStats)
    ensures (forall i :: 0 <= i < |html| ==> IsSpace(html[i])) ==> r == PreviewStats(0, 0, 0)
    ensures 0 <= r.characters <= |html| && r.words >= 0
    ensures (exists i :: 0 <= i < |html| && !IsSpace(html[i])) ==> r.paragraphs == Paragraphs(html)
  {
    if html == [] || Trim(html) == [] then PreviewStats(0, 0, 0)
    else
      var text := PreviewText(html);
      PreviewStats(|text|, if text == [] then 0 else |Fields(text)|, Paragraphs(html))
  }

  /** The preview counts the words of the HTML with its tags turned into
      spaces, and has words exactly when it has characters. */
  lemma PreviewWords(html: string)
    ensures PreviewStatsOf(html).words == WordCount(StripTags(html))
    ensures PreviewStatsOf(html).words == 0 <==> PreviewStatsOf(html).characters == 0
  {
    var stripped := StripTags(html);
    WordCountRuns(stripped);
    if html == [] || Trim(html) == [] {
      assert forall i :: 0 <= i < |html| ==> html[i] != '<' by {
        assert forall i :: 0 <= i < |html| ==> IsSpace(html[i]);
      }
      FieldsEmptyIff(html);
    } else {
      var text := PreviewText(html);
      FieldsCollapse(stripped);
      FieldsTrim(Collapse(stripped));
      if text != [] {
        FieldsEmptyIff(text);
      }
    }
  }

  /** The preview's characters are those of the words of the HTML, with
      its tags turned into spaces, joined by single spaces. */
  lemma PreviewCharacters(html: string)
    ensures var f := Fields(StripTags(html));
            PreviewStatsOf(html).characters == if f == [] then 0 else TotalLength(f) + |f| - 1
  {
    var stripped := StripTags(html);
    JoinLength(Fields(stripped));
    if html == [] || Trim(html) == [] {
      assert forall i :: 0 <= i < |html| ==> html[i] != '<' by {
        assert forall i :: 0 <= i < |html| ==> IsSpace(html[i]);
      }
      FieldsEmptyIff(html);
    } else {
      TrimCollapse(stripped);
    }
  }

  lemma LetterNames(b: Block)
    requires b != Heading
    ensures forall k :: 0 <= k < |TagName(b)| ==> IsWordChar(TagName(b)[k])
  {
    match b
    case Paragraph =>
    case ListItem =>
    case Code =>
    case Quote =>
      var q := TagName(b);
      assert q == ['b', 'l', 'o', 'c', 'k', 'q', 'u', 'o', 't', 'e'];
  }

  /** Text that follows from a `<` cannot complete or spoil a block opening
      that starts earlier. */
  lemma OpensAppend(s: string, t: string, b: Block)
    requires t != [] && t[0] == '<'
    ensures forall i :: 0 <= i < |s| ==> (OpensAt(s + t, i, b) <==> OpensAt(s, i, b))
    ensures forall j :: 0 <= j < |t| ==> (OpensAt(s + t, |s| + j, b) <==> OpensAt(t, j, b))
  {
    var u := s + t;
    if b != Heading {
      var name := TagName(b);
      LetterNames(b);
      forall i | 0 <= i < |s|
        ensures TagAt(u, i, name) <==> TagAt(s, i, name)
      {
        if i + 1 + |name| > |s| {
          var k := |s| - (i + 1);
          assert !NameAt(u, i + 1, name) by {
            assert u[i + 1 + k] == '<';
            assert Lower(u[i + 1 + k]) == '<' && IsWordChar(name[k]);
          }
        }
      }
    }
  }

  lemma {:induction false} CountOpensPrefix(s: string, t: string, b: Block, n: nat)
    requires t != [] && t[0] == '<'
    requires n <= |s|
    ensures CountOpens(s + t, b, n) == CountOpens(s, b, n)
  {
    if n > 0 {
      CountOpensPrefix(s, t, b, n - 1);
      OpensAppend(s, t, b);
    }
  }

  lemma {:induction false} CountOpensAppend(s: string, t: string, b: Block, m: nat)
    requires t != [] && t[0] == '<'
    requires m <= |t|
    ensures CountOpens(s + t, b, |s| + m) == CountOpens(s, b, |s|) + CountOpens(t, b, m)
  {
    if m == 0 {
      CountOpensPrefix(s, t, b, |s|);
    } else {
      CountOpensAppend(s, t, b, m - 1);
      OpensAppend(s, t, b);
    }
  }

  /** Blocks are counted one by one: HTML made of two parts, the second
      starting with a tag, has as many blocks as its parts together. */
  lemma ParagraphsAppend(s: string, t: string)
    requires t != [] && t[0] == '<'
    ensures Paragraphs(s + t) == Paragraphs(s) + Paragraphs(t)
  {
    CountOpensAppend(s, t, Paragraph, |t|);
    CountOpensAppend(s, t, ListItem, |t|);
    CountOpensAppend(s, t, Quote, |t|);
    CountOpensAppend(s, t, Heading, |t|);
    CountOpensAppend(s, t, Code, |t|);
  }
}
