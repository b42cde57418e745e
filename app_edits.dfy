/** The editor's text edits and counters in `src/App.tsx`: the toolbar's
    wrap-the-selection and insert-a-block splices with the cursor they
    leave, the character counts of the status bar, and the word count the
    gamification hook is fed on save and on every edit. */
module AppEdits {
  import opened Types
  import opened EditorPosition
  import opened Controller
  import opened Hook

  // ---------------------------------------------------------------------------
  // String.prototype.slice

  /** How `slice` reads an index into a string of length `n`: a negative
      index counts from the end, and the result is clamped to `0..n`. */
  function SliceIndex(i: int, n: nat): (k: nat)
    ensures k <= n
    ensures 0 <= i <= n ==> k == i
  {
    if i < 0 then (if n + i > 0 then n + i else 0) else if i < n then i else n
  }

  /** `s.slice(from, to)`: empty when the clamped `to` is not past the
      clamped `from`. */
  function Slice(s: string, from: int, to: int): (r: string)
    ensures 0 <= from <= to <= |s| ==> r == s[from..to]
    ensures |r| <= |s|
  {
    var a := SliceIndex(from, |s|);
    var b := SliceIndex(to, |s|);
    if a < b then s[a..b] else []
  }

  /** The new content of the editor and where its cursor goes. */
  datatype Edit = Edit(content: string, cursor: int)

  // ---------------------------------------------------------------------------
  // onFormat, onInsertText

  /** `onFormat`: `prefix` and `suffix` around the selection `start..end`,
      the cursor after the selected text and before the suffix. */
  function Format(raw: string, start: int, end: int, prefix: string, suffix: string): Edit
  {
    var before := Slice(raw, 0, start);
    var selected := Slice(raw, start, end);
    var after := Slice(raw, end, |raw|);
    Edit(before + prefix + selected + suffix + after, start + |prefix| + |selected|)
  }

  /** For a selection inside the text, the text around it is kept, the
      selection is wrapped, the cursor sits where the suffix begins, and
      taking out the prefix and the suffix gives the text back. */
  lemma FormatWraps(raw: string, start: int, end: int, prefix: string, suffix: string)
    requires 0 <= start <= end <= |raw|
    ensures Format(raw, start, end, prefix, suffix).content
         == raw[..start] + prefix + raw[start..end] + suffix + raw[end..]
    ensures |Format(raw, start, end, prefix, suffix).content| == |raw| + |prefix| + |suffix|
    ensures Format(raw, start, end, prefix, suffix).cursor == end + |prefix|
    ensures Format(raw, start, end, prefix, suffix).content[..start] == raw[..start]
    ensures Format(raw, start, end, prefix, suffix).content[start..end + |prefix|] == prefix + raw[start..end]
    ensures Format(raw, start, end, prefix, suffix).content[end + |prefix|..] == suffix + raw[end..]
    ensures var c := Format(raw, start, end, prefix, suffix).content;
            c[..start] + c[start + |prefix|..end + |prefix|] + c[end + |prefix| + |suffix|..] == raw
  {
    var before, selected, after := raw[..start], raw[start..end], raw[end..];
    assert Slice(raw, 0, start) == before;
    assert raw == before + selected + after;
    SpliceParts(before, prefix, selected, suffix, after);
  }

  /** Cutting a five-part concatenation at the borders of its parts. */
  lemma SpliceParts(a: string, p: string, m: string, q: string, b: string)
    ensures var c := a + p + m + q + b;
            c[..|a|] == a && c[|a|..|a| + |p| + |m|] == p + m && c[|a| + |p| + |m|..] == q + b
            && c[|a| + |p|..|a| + |p| + |m|] == m && c[|a| + |p| + |m| + |q|..] == b
  {
  }

  /** `onInsertText`: `text` on a line of its own at the selection start,
      the cursor right after it. */
  function InsertText(raw: string, start: int, text: string): Edit
  {
    var before := Slice(raw, 0, start);
    var after := Slice(raw, start, |raw|);
    Edit(before + "\n" + text + "\n" + after, start + |text| + 1)
  }

  /** Inserting inside the text keeps what is around the insertion and
      puts the cursor at the end of the inserted text; taking out the
      inserted line gives the text back. */
  lemma InsertTextPlaces(raw: string, start: int, text: string)
    requires 0 <= start <= |raw|
    ensures InsertText(raw, start, text).content == raw[..start] + "\n" + text + "\n" + raw[start..]
    ensures |InsertText(raw, start, text).content| == |raw| + |text| + 2
    ensures var e := InsertText(raw, start, text);
            e.content[start + 1..e.cursor] == text && e.content[e.cursor] == '\n'
    ensures var e := InsertText(raw, start, text);
            e.content[..start] + e.content[e.cursor + 1..] == raw
  {
    var before, after := raw[..start], raw[start..];
    assert Slice(raw, 0, start) == before;
    assert raw == before + after;
    SpliceParts(before, "\n", text, "\n", after);
  }

  /** Inserting adds the lines of the inserted text plus the two breaks
      around it. */
  lemma InsertTextLines(raw: string, start: int, text: string)
    requires 0 <= start <= |raw|
    ensures TotalLines(InsertText(raw, start, text).content) == TotalLines(raw) + Breaks(text) + 2
  {
    InsertTextPlaces(raw, start, text);
    var before, after := raw[..start], raw[start..];
    var nl: string := "\n";
    assert Breaks(nl) == 1 by {
      assert nl[..0] == [];
    }
    TotalLinesCounts(InsertText(raw, start, text).content);
    TotalLinesCounts(raw);
    BreaksAppend(before, nl);
    BreaksAppend(before + nl, text);
    BreaksAppend(before + nl + text, nl);
    BreaksAppend(before + nl + text + nl, after);
    assert raw == before + after;
    BreaksAppend(before, after);
  }

  // ---------------------------------------------------------------------------
  // codeStats

  /** `s.replace(/\s/g, '')`. */
  function RemoveSpaces(s: string): (r: string)
    ensures |r| <= |s|
    ensures forall i :: 0 <= i < |r| ==> !IsSpace(r[i])
    decreases |s|
  {
    if s == [] then []
    else RemoveSpaces(s[..|s| - 1]) + (if IsSpace(s[|s| - 1]) then [] else [s[|s| - 1]])
  }

  /** Every character that is not whitespace is kept. */
  lemma {:induction false} RemoveSpacesKeeps(s: string)
    ensures (forall i :: 0 <= i < |s| ==> !IsSpace(s[i])) <==> RemoveSpaces(s) == s
    decreases |s|
  {
    if s != [] {
      var init := s[..|s| - 1];
      RemoveSpacesKeeps(init);
      if IsSpace(s[|s| - 1]) {
        assert |RemoveSpaces(s)| < |s|;
      } else if RemoveSpaces(s) == s {
        assert RemoveSpaces(init) == s[..|s| - 1];
      }
    }
  }

  /** Each word holds at least one character that is not whitespace. */
  lemma {:induction false} RemoveSpacesCoversWords(s: string)
    ensures |RemoveSpaces(s)| >= WordStarts(s, |s|)
    decreases |s|
  {
    if s != [] {
      var init := s[..|s| - 1];
      RemoveSpacesCoversWords(init);
      WordStartsPrefix(s, |s| - 1, |s| - 1);
    }
  }

  /** The counters of the status bar. The byte size and the constant
      `codeType` are not part of this model. */
  datatype CodeStats = CodeStats(words: nat, lines: int, line: int, column: int,
                                 charactersWithSpaces: nat, charactersWithoutSpaces: nat)

  /** `codeStats`: words, lines and the cursor's line and column in the
      source text, and its length with and without whitespace. */
  function CodeStatsOf(raw: string, selectionEnd: int): CodeStats
  {
    var p := LineColumn(raw, selectionEnd);
    CodeStats(WordCount(raw), TotalLines(raw), p.line, p.column, |raw|, |RemoveSpaces(raw)|)
  }

  /** The counts agree with each other: the cursor's line is within the
      text, the characters without whitespace are at most all of them (the
      same exactly when there is no whitespace), and at least one per
      word. */
  lemma CodeStatsAgree(raw: string, selectionEnd: int)
    ensures var c := CodeStatsOf(raw, selectionEnd);
            1 <= c.line <= c.lines && c.charactersWithSpaces == |raw|
    ensures var c := CodeStatsOf(raw, selectionEnd);
            c.words <= c.charactersWithoutSpaces <= c.charactersWithSpaces
    ensures var c := CodeStatsOf(raw, selectionEnd);
            c.charactersWithoutSpaces == c.charactersWithSpaces
            <==> forall i :: 0 <= i < |raw| ==> !IsSpace(raw[i])
  {
    LineWithinText(raw, selectionEnd);
    WordCountRuns(raw);
    RemoveSpacesCoversWords(raw);
    RemoveSpacesKeeps(raw);
    var r := RemoveSpaces(raw);
    if |r| == |raw| {
      assert forall i :: 0 <= i < |raw| ==> !IsSpace(raw[i]) by {
        assert RemoveSpaces(raw) == raw by {
          RemoveSpacesEqual(raw);
        }
      }
    }
  }

  /** Nothing is removed only when nothing is whitespace. */
  lemma {:induction false} RemoveSpacesEqual(s: string)
    requires |RemoveSpaces(s)| == |s|
    ensures RemoveSpaces(s) == s
    decreases |s|
  {
    if s != [] {
      var init := s[..|s| - 1];
      assert |RemoveSpaces(init)| <= |init|;
      RemoveSpacesEqual(init);
    }
  }

  // ---------------------------------------------------------------------------
  // Feeding the gamification hook

  /** `onSave`: the download is not part of this model; the save is
      tracked with the word count of the source text. */
  method OnSave(g: Gamification, raw: string, at: Moment)
    modifies g`state, g`pendingToasts
    ensures !old(g.state.enabled) ==> g.state == old(g.state) && g.pendingToasts == old(g.pendingToasts)
    ensures old(g.state.enabled) ==> g.state == Settle(SaveUpdate(old(g.state), WordCount(raw)), at.iso)
    ensures old(g.state.enabled) ==>
      g.pendingToasts == old(g.pendingToasts) + NewToasts(SaveUpdate(old(g.state), WordCount(raw)), at)
  {
    g.TrackSave(WordCount(raw), at);
  }

  /** The effect that passes the word count of the source text to
      `trackWords`. It runs on mount, whenever the count changes, and
      whenever `trackWords` itself changes, which is on every toggle of
      `enabled`. Only words beyond the last count the hook saw earn
      anything. */
  method OnWordsChanged(g: Gamification, raw: string, today: int, at: Moment)
    modifies g
    ensures !old(g.state.enabled) ==> g.lastWordCount == old(g.lastWordCount)
    ensures old(g.state.enabled) ==> g.lastWordCount == WordCount(raw)
    ensures !old(g.state.enabled) || WordCount(raw) <= old(g.lastWordCount) ==>
      g.state == old(g.state) && g.pendingToasts == old(g.pendingToasts)
    ensures old(g.state.enabled) && WordCount(raw) > old(g.lastWordCount) ==>
      g.state == Settle(WordsUpdate(old(g.state), WordCount(raw) - old(g.lastWordCount), today), at.iso)
    ensures old(g.state.enabled) && WordCount(raw) > old(g.lastWordCount) ==>
      g.pendingToasts == old(g.pendingToasts)
                         + NewToasts(WordsUpdate(old(g.state), WordCount(raw) - old(g.lastWordCount), today), at)
  {
    var words := WordCount(raw);
    assert words == CodeStatsOf(raw, 0).words;
    g.TrackWords(words, today, at);
  }

  /** A page load: the hook starts from the stored state with a last count
      of 0, the editor starts from the saved draft `raw`, and the
      word-count effect runs once on mount. With the engine enabled, every
      word of the draft is credited again on each load. */
  method Mount(loaded: GamificationState, raw: string, today: int, at: Moment) returns (g: Gamification)
    ensures fresh(g)
    ensures !loaded.enabled ==> g.state == loaded && g.pendingToasts == [] && g.lastWordCount == 0
    ensures loaded.enabled ==> g.lastWordCount == WordCount(raw)
    ensures loaded.enabled && WordCount(raw) == 0 ==> g.state == loaded && g.pendingToasts == []
    ensures loaded.enabled && WordCount(raw) > 0 ==>
      g.state == Settle(WordsUpdate(loaded, WordCount(raw), today), at.iso)
    ensures loaded.enabled && WordCount(raw) > 0 ==>
      g.pendingToasts == NewToasts(WordsUpdate(loaded, WordCount(raw), today), at)
  {
    g := new Gamification(loaded);
    OnWordsChanged(g, raw, today, at);
    if loaded.enabled && WordCount(raw) > 0 {
      ghost var added := NewToasts(WordsUpdate(loaded, WordCount(raw), today), at);
      assert g.pendingToasts == [] + added;
      assert [] + added == added;
    }
  }

  /** Words typed while the hook is disabled: the effect runs and the hook
      ignores it, keeping its last count. Re-enabling changes `trackWords`,
      so the effect runs again and every word beyond the count seen before
      disabling earns XP then. */
  method TypeWhileDisabled(g: Gamification, raw: string, today: int, at: Moment)
    requires !g.state.enabled
    modifies g
    ensures g.state.enabled && g.lastWordCount == WordCount(raw)
    ensures WordCount(raw) <= old(g.lastWordCount) ==>
      g.state == old(g.state).(enabled := true) && g.pendingToasts == old(g.pendingToasts)
    ensures WordCount(raw) > old(g.lastWordCount) ==>
      g.state == Settle(WordsUpdate(old(g.state).(enabled := true), WordCount(raw) - old(g.lastWordCount), today), at.iso)
    ensures WordCount(raw) > old(g.lastWordCount) ==>
      g.pendingToasts == old(g.pendingToasts)
                         + NewToasts(WordsUpdate(old(g.state).(enabled := true), WordCount(raw) - old(g.lastWordCount), today), at)
  {
    ghost var s0, n0, p0 := g.state, g.lastWordCount, g.pendingToasts;
    OnWordsChanged(g, raw, today, at);
    assert g.state == s0 && g.lastWordCount == n0 && g.pendingToasts == p0;
    g.ToggleEnabled();
    ghost var s1 := g.state;
    assert s1 == s0.(enabled := true);
    OnWordsChanged(g, raw, today, at);
    if WordCount(raw) > n0 {
      SettleKeepsEnabled(WordsUpdate(s1, WordCount(raw) - n0, today), at.iso);
    }
  }
}
