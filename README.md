# Braveditor gamification engine, modelled in Dafny

This project models the gamification engine of the Braveditor markdown editor, together with the text utilities that feed it.

- **Leveling.** Levels are bought greedily with XP. Each level costs `floor(40 · 1.05^(level−1))`. The streak multiplier is 1.0, 1.5 or 2.0.
- **Streak window.** Each day has a record of the words written that day, and at most the last 30 records are kept. The current streak is the number of consecutive qualified days ending today. A day qualifies from 50 words on.
- **Achievements.**
  - The catalog has twenty achievements.
  - The measurement step (`getAchievementValue`) computes the current value of each one.
  - The pass (`checkAchievements`) refreshes or creates one progress record per catalog entry, unlocks each entry at most once, and sums the XP rewards.
- **Controller (`useGamification`).**
  - It holds the live state, the queue of achievement toasts, and the last word count it saw.
  - It handles one event at a time: words, format, save, the five-minute timer tick, toggling and dismissing a toast.
  - Every event updates the stats, runs the pass, adds the rewards, recomputes the level and queues toasts.
- **Persistence.**
  - The default state.
  - The shape check applied to a stored state: a valid stored state is kept, anything else falls back to the default.
  - The 5 MiB size limit on saving.
- **Editor utilities.**
  - Line and column of the cursor, the line count, selection info, the word count and the preview counts (characters, words and block elements of the rendered HTML).
  - The toolbar's text splices (wrap the selection, insert a block) and the cursors they leave.
  - The status-bar character counts.
  - The word counts passed to the controller.

Modelling choices:

- Calendar days are integer day numbers, and "today" is a parameter. `YYYY-MM-DD` strings order the same way as the days they name.
- A clock reading is a `Moment`: the ISO text stamped on unlocked records, plus the milliseconds that make toast ids.
- The multiplier is kept in tenths (10, 15, 20), so every XP grant is exact integer arithmetic. Dafny's `/` by a positive divisor is `Math.floor`.
- `xpForLevel` is `(40 · 21^(l−1)) / 20^(l−1)`, the floor of the exact real value.
- The hook is a class whose methods change its fields. Each method is proved against functions (`WordsUpdate`, `Settle`, `NewToasts`, ...) whose properties are lemmas.
- A toast refers to its catalog entry by position, because `find` hands back the catalog's own object.
- The regular expressions of the editor utilities are written out as recursive functions over strings. They are proved against independent descriptions: break counts, positions where a word starts, positions where a tag opens.

Where the engine's design description and the code differ, the model follows the code:

- A record that is already unlocked still has its `current` refreshed on every pass.
- A second pass finds nothing new only when the stored records are consistent: one per catalog id, and `perfectionist` not unlocked. Stored records are not validated. For example, one junk unlocked record plus the 18 created in a pass can unlock `brave-ace` in the next pass.
- `xpInCurrentLevel` of a negative XP total returns that negative total as `current`.
- Words typed while the engine is disabled still earn XP later. The word-count effect also runs on every toggle, because `trackWords` changes with `enabled`. While disabled, `trackWords` returns before updating the last count it saw. So on re-enabling, every word beyond that old count is credited (`AppEdits.TypeWhileDisabled`).
- Every page load credits the saved draft again. The hook's last word count starts at 0 on each mount, and the editor restores the saved draft. The word-count effect then runs on mount, so with the engine enabled every word of the draft earns its XP and streak words once more (`AppEdits.Mount`).

## Model

| member | source | states |
|---|---|---|
| Leveling.XpForLevel | src/utils/gamification.ts:15-17 | every level costs at least 40 XP |
| Leveling.XpForLevelMonotone | src/utils/gamification.ts:15-17 | each level costs at least as much as the one before |
| Leveling.XpToReachStrictlyIncreasing | src/utils/gamification.ts:15-29 | the total XP needed to reach a level grows by at least 40 per level |
| Leveling.LevelFromBrackets | src/utils/gamification.ts:19-29 | the greedy walk stops at the unique level whose cumulative cost brackets the XP, and what is left is the XP past that level |
| Leveling.LevelCharacterization | src/utils/gamification.ts:19-29 | the level is at least 1, is 1 below 40 XP, and for non-negative XP satisfies XpToReach(level) ≤ xp < XpToReach(level + 1) |
| Leveling.LevelMonotone | src/utils/gamification.ts:19-29 | more XP never gives a lower level |
| Leveling.ComputeLevel | src/utils/gamification.ts:19-29 | the loop returns the level the XP buys: at least 1 and bracketed by the cumulative costs |
| Leveling.XpInCurrentLevel | src/utils/gamification.ts:31-41 | `needed` is the cost of the current level and `current` is the XP past it: 0 ≤ current < needed for non-negative XP, and (xp, 40) for negative XP |
| Leveling.LevelTitle | src/utils/gamification.ts:6-13 | each title holds exactly on its level range (≥1500, 600-1499, 250-599, 130-249, 50-129, below 50) |
| Leveling.MultiplierTenths | src/utils/gamification.ts:58-63 | 2.0× exactly from a 7-day streak, 1.5× exactly for 3-6 days, 1.0× below 3 days, including 0 |
| Leveling.MultiplierMonotone | src/utils/gamification.ts:58-63 | a longer streak never lowers the multiplier |
| AchievementDefs.IndexOfId | src/hooks/useGamification.ts:145 | a position holding an entry with the id, or -1 |
| AchievementDefs.IndexOfIdFirst | src/hooks/useGamification.ts:145 | the position found is the first entry with the id, and -1 is returned exactly when no entry has it |
| AchievementDefs.IndexOfEntry | src/hooks/useGamification.ts:145 | with distinct ids, an entry is found at its own position |
| AchievementDefs.Entry | src/utils/achievementDefs.ts:3-31 | the displayed entry agrees with the rule the engine reads (id, target, reward, category) |
| AchievementDefs.DefOf | src/hooks/useGamification.ts:145 | the definition found for a catalog id carries that id and its reward |
| AchievementDefs.CatalogSize | src/utils/achievementDefs.ts:3-31 | the catalog has twenty entries |
| AchievementDefs.TextsAlign | src/utils/achievementDefs.ts:3-31 | every entry has its display texts |
| AchievementDefs.CatalogIdsDistinct | src/utils/achievementDefs.ts:3-31 | no two entries share an id |
| AchievementDefs.TargetsAndRewardsPositive | src/utils/achievementDefs.ts:3-31 | every target is at least 1 and every reward is positive |
| AchievementDefs.WritingTargetsIncrease | src/utils/achievementDefs.ts:5-9 | the five writing milestones come first and their targets climb strictly |
| AchievementDefs.CategoriesGrouped | src/utils/achievementDefs.ts:4-30 | the categories are contiguous blocks: writing, markdown, productivity, special |
| AchievementDefs.SpecialEntries | src/utils/achievementDefs.ts:29-30 | `perfectionist` (target 100) is entry 18 and `brave-ace` (target 1) is the last entry |
| Evaluator.CountUsedFull | src/hooks/useGamification.ts:33-36 | every action in a list was used exactly when all of them count |
| Evaluator.AllFormatsUsedIff | src/hooks/useGamification.ts:48-55 | at most 10 distinct actions are used, and 10 exactly when every action was used |
| Evaluator.OtherDefsInCatalog | src/hooks/useGamification.ts:61 | the catalog has 19 entries other than `brave-ace` |
| Evaluator.MetricOf | src/hooks/useGamification.ts:15-67 | `brave-ace` measures the unlocks, `perfectionist` measures nothing, and exactly the five writing ids measure words |
| Evaluator.ValueIgnoresRecords | src/hooks/useGamification.ts:13-58 | only `brave-ace` looks at the progress records |
| Evaluator.SpecialValues | src/hooks/useGamification.ts:56-64 | `brave-ace` measures 1 exactly when 19 other records are unlocked, otherwise 0; `perfectionist` always measures 0 |
| Evaluator.AchievementValue | src/hooks/useGamification.ts:13-68 | the switch, with its counting loops, returns the value of the id |
| Evaluator.CountUsedFormats | src/hooks/useGamification.ts:33-37 | the loop counts the distinct actions used: at most 10, and 10 exactly when every action was used |
| Evaluator.FindRecord | src/hooks/useGamification.ts:76 | the first record with the id, or -1 exactly when there is none |
| Evaluator.CheckAchievements | src/hooks/useGamification.ts:70-106 | the loop over the catalog returns the pass `Evaluate` |
| Evaluator.Visit | src/hooks/useGamification.ts:76-102 | one iteration refreshes, unlocks or creates the entry's record as `Step` does |
| Evaluator.EvalIsRun | src/hooks/useGamification.ts:75-103 | the pass is the fold of the step over the values it measures |
| Evaluator.StepFrame | src/hooks/useGamification.ts:79-102 | a step changes only the first record with its id, or appends one; ids stay and unlocked records stay unlocked |
| Evaluator.StepSelf | src/hooks/useGamification.ts:79-102 | after a step, its entry has a record holding the measured value, unlocked when the value reaches the target |
| Evaluator.EvaluateKeepsInput | src/hooks/useGamification.ts:71-102 | the input records keep their places and ids, and none is ever locked again |
| Evaluator.EvaluateRecords | src/hooks/useGamification.ts:75-103 | afterwards every catalog entry has a record holding its measured value, unlocked when the value reaches the target |
| Evaluator.EvaluateReportsUnlocks | src/hooks/useGamification.ts:79-101 | an id is reported exactly when its entry's record was absent or locked and its value reaches the target |
| Evaluator.EvaluateReportsCatalogIds | src/hooks/useGamification.ts:84-99 | every reported id is a catalog id |
| Evaluator.EvaluateReportsInOrder | src/hooks/useGamification.ts:75-101 | the reported ids come in catalog order, each once |
| Evaluator.EvaluateRewards | src/hooks/useGamification.ts:85-100 | the XP gained is the sum of the rewards of the reported ids |
| Evaluator.RewardSumSign | src/hooks/useGamification.ts:85-100 | a sum of positive rewards is never negative, and positive exactly when some id is reported |
| Evaluator.EvaluateGainSign | src/hooks/useGamification.ts:70-106 | a pass never takes XP away, and gives some exactly when it unlocks something |
| Evaluator.SeenValueOfOthers | src/hooks/useGamification.ts:77 | every entry but `brave-ace` is measured on the stats alone |
| Evaluator.PerfectionistSeenZero | src/hooks/useGamification.ts:56-58 | `perfectionist` is measured at 0 in the pass |
| Evaluator.BraveAceSeenZero | src/hooks/useGamification.ts:59-64 | with consistent records, `brave-ace` measures 0 in the pass because fewer than 19 other records can be unlocked |
| Evaluator.UnlockedOthersBound | src/hooks/useGamification.ts:62 | consistent records hold at most 18 unlocked records besides `brave-ace` |
| Evaluator.EvaluateKeepsConsistent | src/hooks/useGamification.ts:70-106 | a pass keeps consistent records consistent, and never unlocks `perfectionist` or `brave-ace` |
| Evaluator.SecondPassEntryQuiet | src/hooks/useGamification.ts:79-101 | after a pass, with the same measured stats, every entry is either unlocked already or below its target |
| Evaluator.SecondPassQuiet | src/hooks/useGamification.ts:70-106 | a second pass over the first pass's records with the same stats unlocks nothing and gains no XP |
| Evaluator.WritingCascade | src/hooks/useGamification.ts:16-21 | a writing milestone unlocked in a pass leaves every lower milestone unlocked |
| Streak.DayIndex | src/utils/gamification.ts:160 | the first record dated today, or -1 exactly when there is none |
| Streak.DayRecord | src/utils/gamification.ts:161-167 | a day record is qualified exactly from 50 words on |
| Streak.TouchChangesOnlyToday | src/utils/gamification.ts:160-168 | today's first record gets the words, or a record is pushed, and nothing else changes |
| Streak.WindowDropsOldest | src/utils/gamification.ts:171 | each `shift` drops the oldest record without changing the final window |
| Streak.WindowKeepsNewest | src/utils/gamification.ts:171 | the window holds at most 30 records: the newest ones, in order |
| Streak.SortNewestFirstCorrect | src/utils/gamification.ts:175 | the sort orders the records newest first and is a permutation |
| Streak.SortKeepsDistinct | src/utils/gamification.ts:175 | sorting keeps the dates distinct |
| Streak.StreakRunStops | src/utils/gamification.ts:176-183 | the walk counts qualified records dated today, today−1, ..., and stops at the first unqualified record or gap |
| Streak.StreakDaysQualified | src/utils/gamification.ts:174-183 | every one of the counted days ending today has a qualified record |
| Streak.StreakStopsAtGap | src/utils/gamification.ts:174-183 | with one record per date and none after today, the day before the streak has no qualified record |
| Streak.UpdateStreakForToday | src/utils/gamification.ts:156-191 | the method computes the streak update `UpdateStreak` |
| Streak.TouchToday | src/utils/gamification.ts:158-168 | the copy with today's words added |
| Streak.TrimWindow | src/utils/gamification.ts:171 | the `shift` loop leaves the last 30 records |
| Streak.CountRun | src/utils/gamification.ts:173-183 | the counting loop returns the length of the run ending today |
| Streak.UpdateKeepsWindow | src/utils/gamification.ts:171 | after an update the window holds at most 30 records, the newest of the touched list |
| Streak.UpdateRecordsToday | src/utils/gamification.ts:160-171 | from a window of at most 30 records, today's record holds the old words plus the new ones |
| Streak.UpdateLongest | src/utils/gamification.ts:187 | the longest streak never decreases, is at least the current one, and is the larger of the two |
| Streak.TouchKeepsWellDated | src/utils/gamification.ts:160-168 | touching keeps one record per date, none after today |
| Streak.UpdateKeepsWellDated | src/utils/gamification.ts:156-191 | the update keeps one record per date, none after today |
| Streak.UpdateCountsStreak | src/utils/gamification.ts:174-183 | on a well-dated list the streak counts exactly the qualified days ending today, up to the first day without one |
| Streak.UpdateStreakZero | src/utils/gamification.ts:174-183 | the streak is 0 exactly when today's record is not qualified |
| Persistence.DefaultStateFresh | src/utils/gamification.ts:69-88 | the default state is enabled, at level 1 with every counter 0, and has no records and no days |
| Persistence.ToJsonValid | src/utils/gamification.ts:90-111 | every state the engine saves passes the shape check |
| Persistence.LoadState | src/utils/gamification.ts:113-131 | the stored value when it passes the shape check, the default state otherwise; the result always passes |
| Persistence.SaveThenLoad | src/utils/gamification.ts:133-153 | a state within 5 MiB loads back unchanged; a larger one leaves storage as it was |
| Persistence.StringXpRejected | src/utils/gamification.ts:99-106 | a stored state whose XP is a string is rejected and loading gives the default state |
| Persistence.ShapeRejections | src/utils/gamification.ts:90-96 | non-objects, arrays and states without a boolean `enabled` are rejected |
| Persistence.ValidIgnoresExtraFields | src/utils/gamification.ts:90-111 | extra fields never make a valid state invalid |
| Controller.Decimal | src/hooks/useGamification.ts:144 | the decimal text of a number is non-empty and all digits |
| Controller.Toasts | src/hooks/useGamification.ts:143-146 | one toast per unlocked id |
| Controller.ToastsAt | src/hooks/useGamification.ts:171-174 | toast `a` carries the id `${id}-${millis}` of the `a`-th unlocked id and refers to that id's catalog entry |
| Controller.ToastsIffGain | src/hooks/useGamification.ts:163-176 | toasts are queued exactly when the pass gained XP |
| Controller.WithoutToastDropsId | src/hooks/useGamification.ts:247-249 | after dismissal no toast carries the id, and the queue is no longer |
| Controller.WithoutToastKeepsOthers | src/hooks/useGamification.ts:247-249 | every other toast stays as often as it was queued |
| Controller.WithoutToastAbsent | src/hooks/useGamification.ts:247-249 | dismissing an id that is not queued changes nothing |
| Controller.WithoutToastAppend | src/hooks/useGamification.ts:247-249 | dismissal filters each part of the queue separately, keeping the order |
| Controller.SettleWithChanges | src/hooks/useGamification.ts:158-178 | applying a pass changes only records, XP and level; the XP grows by the gain and the level still matches |
| Controller.SettleChanges | src/hooks/useGamification.ts:158-178 | the same for the pass itself, which never lowers XP |
| Controller.WordsIncrements | src/hooks/useGamification.ts:186-199 | writing adds exactly `delta` words and `floor(delta/10 × multiplier)` XP plus the rewards, updates the streak, and leaves the other counters alone |
| Controller.FormatIncrements | src/hooks/useGamification.ts:207-219 | a format use adds one use of that action only and `floor(10 × multiplier)` XP plus the rewards |
| Controller.SaveIncrements | src/hooks/useGamification.ts:227-238 | a save adds one document and `floor(wordCount/10 × 150 × multiplier)` XP plus the rewards |
| Controller.TickIncrements | src/hooks/useGamification.ts:123-140 | a tick adds five minutes and 5, 7 or 10 XP plus the rewards, and leaves the other counters alone |
| Controller.MultiplierPositive | src/utils/gamification.ts:58-63 | the multiplier is at least 1.0 |
| Controller.PassConsistent | src/hooks/useGamification.ts:158-178 | the pass that ends an event keeps consistent records consistent and unlocks neither `perfectionist` nor `brave-ace` |
| Controller.EventsKeepConsistent | src/hooks/useGamification.ts:123-241 | from consistent records, each of the four events (words, format, save, tick) keeps them consistent, so neither `perfectionist` nor `brave-ace` ever unlocks |
| Controller.UpdatesKeepRecords | src/hooks/useGamification.ts:123-132 | the updaters touch only stats and streak |
| Controller.NoRecordsConsistent | src/utils/gamification.ts:80 | a fresh state's empty records are consistent |
| Controller.Outcome | src/hooks/useGamification.ts:162-176 | after the pass, the final state adds the reward and recomputes the level, and the toasts are built |
| Controller.ApplyPass | src/hooks/useGamification.ts:159-178 | the pass over the updated state gives the settled state and its toasts |
| Controller.WordsUpdater | src/hooks/useGamification.ts:188-199 | the updater of `trackWords` computes `WordsUpdate` |
| Controller.FormatUpdater | src/hooks/useGamification.ts:207-219 | the updater of `trackFormat` computes `FormatUpdate` |
| Controller.SaveUpdater | src/hooks/useGamification.ts:227-238 | the updater of `trackSave` computes `SaveUpdate` |
| Controller.TickUpdater | src/hooks/useGamification.ts:123-132 | the tick's own change computes `TickUpdate` |
| Hook.Gamification.constructor | src/hooks/useGamification.ts:109-111 | starts from the loaded state, with no toasts and a last word count of 0 |
| Hook.Gamification.Commit | src/hooks/useGamification.ts:175-177 | stores the new state and appends the toasts |
| Hook.Gamification.ApplyWithAchievements | src/hooks/useGamification.ts:158-179 | the state becomes the settled update and the new toasts are appended |
| Hook.Gamification.TrackWords | src/hooks/useGamification.ts:181-202 | does nothing when disabled; otherwise records the count, and only a positive delta settles `WordsUpdate` and queues its toasts |
| Hook.Gamification.ApplyWords | src/hooks/useGamification.ts:188-199 | a positive delta settles `WordsUpdate` and queues its toasts |
| Hook.Gamification.TrackFormat | src/hooks/useGamification.ts:204-222 | does nothing when disabled; otherwise settles `FormatUpdate` and queues its toasts |
| Hook.Gamification.TrackSave | src/hooks/useGamification.ts:224-241 | does nothing when disabled; otherwise settles `SaveUpdate` and queues its toasts |
| Hook.Gamification.Tick | src/hooks/useGamification.ts:121-150 | does nothing when disabled; otherwise settles `TickUpdate` and queues its toasts |
| Hook.Gamification.ToggleEnabled | src/hooks/useGamification.ts:243-245 | flips `enabled` and changes nothing else |
| Hook.Gamification.DismissToast | src/hooks/useGamification.ts:247-249 | the queue becomes the queue without that id |
| EditorPosition.LineStart | src/utils/editorPosition.ts:11 | the index after the last `\n`: no break follows it |
| EditorPosition.BreaksAppend | src/utils/editorPosition.ts:9 | the breaks of two joined texts add up |
| EditorPosition.SplitLinesCount | src/utils/editorPosition.ts:9-10 | `split(/\r?\n/)` gives one more piece than there are `\n` |
| EditorPosition.SplitLinesLast | src/utils/editorPosition.ts:9-11 | the last piece is everything after the last `\n`, a trailing `\r` included |
| EditorPosition.Clamp | src/utils/editorPosition.ts:6-7 | a non-positive offset reads as 0 and an offset past the end as the end |
| EditorPosition.LineColumn | src/utils/editorPosition.ts:5-13 | line and column are both at least 1 |
| EditorPosition.LineColumnCounts | src/utils/editorPosition.ts:5-13 | the line is 1 + the breaks before the clamped offset, and the column is 1 + the distance from the start of that line |
| EditorPosition.TotalLines | src/utils/editorPosition.ts:18-22 | there is at least one line |
| EditorPosition.TotalLinesCounts | src/utils/editorPosition.ts:18-22 | the text has one more line than it has breaks, and its last line is the cursor's line at its end |
| EditorPosition.LineWithinText | src/utils/editorPosition.ts:5-22 | the cursor's line is between 1 and the line count |
| EditorPosition.LineMonotone | src/utils/editorPosition.ts:5-13 | moving the cursor forward never moves it to an earlier line |
| EditorPosition.SelectionInfo | src/utils/editorPosition.ts:27-37 | at least one line and never negative characters; a forward selection holds end − start characters and spans lineEnd − lineStart + 1 lines |
| EditorPosition.SelectionLines | src/utils/editorPosition.ts:27-37 | a selection inside the text touches one more line than the breaks it holds |
| EditorPosition.Trim | src/utils/editorPosition.ts:50 | `trim` is empty exactly for whitespace-only text, and otherwise starts and ends with a non-space |
| EditorPosition.Fields | src/utils/editorPosition.ts:52 | the pieces of `split(/\s+/).filter(Boolean)` are non-empty, and there is one whenever the text ends in a non-space |
| EditorPosition.FieldsCountWords | src/utils/editorPosition.ts:52 | there is one piece per position where a word starts |
| EditorPosition.FieldsEmptyIff | src/utils/editorPosition.ts:52 | there are no pieces exactly when the text is all whitespace |
| EditorPosition.FieldsTrim | src/utils/editorPosition.ts:50-52 | trimming does not change the pieces |
| EditorPosition.WordCountRuns | src/utils/editorPosition.ts:49-53 | the word count is the number of maximal non-space runs, and 0 exactly for whitespace-only text |
| EditorPosition.StripTags | src/utils/editorPosition.ts:64 | replacing tags never lengthens the text, and text without `<` is unchanged |
| EditorPosition.Collapse | src/utils/editorPosition.ts:64 | collapsing whitespace never lengthens the text, keeps it non-empty, and keeps whether it ends in whitespace |
| EditorPosition.FieldsCollapse | src/utils/editorPosition.ts:64 | collapsing whitespace does not change the words |
| EditorPosition.PreviewStatsOf | src/utils/editorPosition.ts:60-80 | empty or whitespace-only HTML gives zeros; the characters never exceed the HTML's length; otherwise the paragraphs are the block count |
| EditorPosition.CollapseShape | src/utils/editorPosition.ts:64 | collapsing whitespace in text with words gives its words joined by single spaces, with one space in front or behind where the text starts or ends with whitespace |
| EditorPosition.TrimCollapse | src/utils/editorPosition.ts:64 | collapsing then trimming whitespace gives the words joined by single spaces |
| EditorPosition.JoinLength | src/utils/editorPosition.ts:64 | words joined by single spaces are as long as the words plus one space between each two |
| EditorPosition.PreviewCharacters | src/utils/editorPosition.ts:64-77 | the preview's characters are the total length of the words of the HTML (tags turned into spaces) plus one per gap between two words, and 0 when there are none |
| EditorPosition.PreviewWords | src/utils/editorPosition.ts:64-78 | the preview words are the words of the HTML with tags turned into spaces, and they are 0 exactly when the characters are 0 |
| EditorPosition.OpensAppend | src/utils/editorPosition.ts:67-71 | text starting with `<` appended after a block opening cannot complete or spoil it |
| EditorPosition.ParagraphsAppend | src/utils/editorPosition.ts:67-73 | the block count of HTML whose second part starts with a tag is the sum of the parts' counts |
| AppEdits.SliceIndex | src/App.tsx:44-46 | `slice` reads an index inside the string as itself, clamped to the string |
| AppEdits.Slice | src/App.tsx:44-46 | for indices in order inside the string, `slice` is the substring |
| AppEdits.FormatWraps | src/App.tsx:41-61 | the content is before + prefix + selection + suffix + after, its length grows by the prefix and suffix, the cursor is where the suffix begins, and removing prefix and suffix gives the text back |
| AppEdits.InsertTextPlaces | src/App.tsx:63-79 | the inserted text sits on its own line at the selection start, the cursor is right after it, and removing that line gives the text back |
| AppEdits.InsertTextLines | src/App.tsx:63-68 | inserting adds the inserted text's breaks plus two lines |
| AppEdits.RemoveSpaces | src/App.tsx:131 | removing whitespace leaves no whitespace and never lengthens the text |
| AppEdits.RemoveSpacesKeeps | src/App.tsx:131 | nothing is removed exactly when there is no whitespace |
| AppEdits.RemoveSpacesEqual | src/App.tsx:131 | a text that keeps its length keeps every character |
| AppEdits.RemoveSpacesCoversWords | src/App.tsx:126-131 | each word keeps at least one character |
| AppEdits.CodeStatsAgree | src/App.tsx:119-133 | the cursor's line is within the line count; words ≤ characters without spaces ≤ characters with spaces = length, with equality exactly when there is no whitespace |
| AppEdits.OnSave | src/App.tsx:104-107 | the save is tracked with the word count of the text, and only the state and the toast queue change |
| AppEdits.OnWordsChanged | src/App.tsx:137-140 | the controller is told the text's word count: while disabled nothing changes, and otherwise the count is recorded and only words beyond the last count settle a words update and queue its toasts |
| AppEdits.TypeWhileDisabled | src/App.tsx:137-140 | words counted while disabled are ignored. After re-enabling, every word beyond the count seen before disabling is credited: the state settles the word update and its toasts join the queue |
| AppEdits.Mount | src/App.tsx:137-140 | on a page load the hook starts with a last count of 0, so when enabled the whole restored draft is credited: the state settles a word update of the draft's full count and the queue holds exactly its toasts; when disabled nothing changes |

## Left out

- Stored numbers are integers (`JNumber` holds an `int`). A fractional number in storage passes the source's `typeof === 'number'` check, but the model cannot represent it.
- Floating point. `Math.pow`/`Math.floor` in `xpForLevel` and the `wordCount / 10 * 150` product in `trackSave` are read as exact real arithmetic, floored.
- I/O. `localStorage`, `JSON.parse` and `JSON.stringify` are left out. Loading works on an already parsed JSON value, and decoding it into a typed state is not modelled.
- The `Blob` size of the serialized state is a parameter of `SaveState`.
- Persistence does not catch exceptions: the model has no `try`/`catch` path other than the invalid-shape fallback.
- The clock. `todayStr`, `new Date()`, `Date.now()` and `toISOString()` are parameters: "today" is a day number and each event carries one `Moment`. Each event uses the same clock reading for every toast and record stamp it makes.
- `daysBetween` is unused by the engine and works on millisecond floats.
- Timer lifecycle and React scheduling:
  - `setInterval`/`clearInterval`, `useEffect`, `setState` batching, and the staleness of `useCallback` closures.
  - The state write-through on every change (`useEffect` calling `saveGamificationState`).
  - The tick is one method call. `Hook.Gamification.Tick` composes the same pass steps as `applyWithAchievements`, which the source writes out inline.
- Hook.Gamification.TrackWords: `lastWordCountRef` is updated before the state is read, exactly as in the source. React's deferred `setState` updater is modelled as running at once.
- `getByteLength` and the `bytes` counter of the status bar wrap `TextEncoder`.
- The constant `codeType` of the status bar is not modelled.
- Lengths are counted in characters (Unicode scalar values), not UTF-16 code units. They differ for characters outside the Basic Multilingual Plane.
- The rest of `App.tsx` is not part of this model: file input, clipboard, `window.confirm`, `requestAnimationFrame` cursor placement and the preview rendering (marked, DOMPurify). The same goes for the React components and `src/utils/fileHandling.ts`.
- The toolbar's call of `trackFormat` after `onFormat` lives in the toolbar component and is not modelled. `Hook.Gamification.TrackFormat` models what it does.
- Achievement texts (name, description, icon) are carried as data; nothing is proved about them.
- Evaluator.SecondPassQuiet: idempotence of the pass is proved only for consistent records. The shape check does not validate records, so inconsistent stored records can make a second pass unlock `brave-ace`.
