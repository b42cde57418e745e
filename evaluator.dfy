/** The achievement evaluator: the per-id measurement of the stats
    (`getAchievementValue`) and the pass that creates, refreshes and unlocks
    progress records in catalog order (`checkAchievements`). */
module Evaluator {
  import opened Types
  import opened AchievementDefs

  // ---------------------------------------------------------------------------
  // Measurement

  predicate Used(m: map<ToolbarAction, int>, a: ToolbarAction)
  {
    a in m && m[a] > 0
  }

  /** How many of `acts` have a positive usage count. */
  function CountUsed(m: map<ToolbarAction, int>, acts: seq<ToolbarAction>): (n: nat)
    ensures n <= |acts|
  {
    if acts == [] then 0
    else CountUsed(m, acts[..|acts| - 1]) + (if Used(m, acts[|acts| - 1]) then 1 else 0)
  }

  /** The number of distinct toolbar actions used at least once. */
  function DistinctFormatsUsed(m: map<ToolbarAction, int>): nat
  {
    CountUsed(m, AllActions)
  }

  lemma {:induction false} CountUsedFull(m: map<ToolbarAction, int>, acts: seq<ToolbarAction>)
    ensures CountUsed(m, acts) == |acts| <==> forall i :: 0 <= i < |acts| ==> Used(m, acts[i])
  {
    if acts != [] {
      var init := acts[..|acts| - 1];
      CountUsedFull(m, init);
      assert forall i :: 0 <= i < |init| ==> init[i] == acts[i];
    }
  }

  /** All ten actions have been used exactly when the distinct count is 10,
      which is the target of `format-explorer` and `format-master`. */
  lemma AllFormatsUsedIff(m: map<ToolbarAction, int>)
    ensures DistinctFormatsUsed(m) <= 10
    ensures DistinctFormatsUsed(m) == 10 <==> forall a: ToolbarAction :: Used(m, a)
  {
    CountUsedFull(m, AllActions);
    if forall a: ToolbarAction :: Used(m, a) {
      assert forall i :: 0 <= i < |AllActions| ==> Used(m, AllActions[i]);
    } else {
      var a: ToolbarAction :| !Used(m, a);
      assert !Used(m, AllActions[ActionIndex(a)]);
    }
  }

  predicate CountsForBraveAce(r: AchievementProgress)
  {
    r.id != BraveAce && r.unlocked
  }

  /** The number of unlocked records other than the meta-achievement. */
  function UnlockedOthers(recs: seq<AchievementProgress>): (n: nat)
    ensures n <= |recs|
  {
    if recs == [] then 0
    else UnlockedOthers(recs[..|recs| - 1]) + (if CountsForBraveAce(recs[|recs| - 1]) then 1 else 0)
  }

  /** The number of catalog entries other than the meta-achievement. */
  function OtherDefs(defs: seq<AchievementRule>): nat
  {
    if defs == [] then 0
    else OtherDefs(defs[..|defs| - 1]) + (if defs[|defs| - 1].id != BraveAce then 1 else 0)
  }

  lemma {:induction false} OtherDefsNoMeta(defs: seq<AchievementRule>)
    requires forall i :: 0 <= i < |defs| ==> defs[i].id != BraveAce
    ensures OtherDefs(defs) == |defs|
  {
    if defs != [] {
      OtherDefsNoMeta(defs[..|defs| - 1]);
    }
  }

  /** The number of catalog entries other than the meta-achievement
      (`allOtherAchievements.length`), which `OtherDefsInCatalog` computes. */
  const OtherCount: nat := 19

  lemma OtherDefsInCatalog()
    ensures OtherDefs(Catalog) == OtherCount
  {
    CatalogIdsDistinct();
    SpecialEntries();
    OtherDefsNoMeta(Catalog[..19]);
  }

  /** What an achievement id measures: the `switch` of `getAchievementValue`,
      as a tag per id. */
  datatype Metric =
    | WordsWritten
    | FormatUses(actions: seq<ToolbarAction>)
    | DistinctFormats
    | DocsSaved
    | TimeActive
    | StreakLength
    | NotTracked
    | AllOthersUnlocked
    | NoMetric

  predicate IsWritingId(id: string)
  {
    id == "first-words" || id == "wordsmith" || id == "novelist" || id == "prolific" || id == "marathon"
  }

  function MetricOf(id: string): (m: Metric)
    ensures m == AllOthersUnlocked <==> id == BraveAce
    ensures m == NotTracked <==> id == Perfectionist
    ensures m == WordsWritten <==> IsWritingId(id)
  {
    if IsWritingId(id) then WordsWritten
    else if id == "bold-move" then FormatUses([Bold])
    else if id == "heading-master" then FormatUses([H1, H2, H3])
    else if id == "link-builder" then FormatUses([Link])
    else if id == "code-ninja" then FormatUses([Code])
    else if id == "list-lover" then FormatUses([Ul, Ol])
    else if id == "format-explorer" then DistinctFormats
    else if id == "first-save" || id == "saver" then DocsSaved
    else if id == "time-10" || id == "time-60" then TimeActive
    else if id == "streak-3" || id == "streak-7" then StreakLength
    else if id == "format-master" then DistinctFormats
    else if id == Perfectionist then NotTracked
    else if id == BraveAce then AllOthersUnlocked
    else NoMetric
  }

  /** The summed usage count of `acts`. */
  function SumFormatCounts(m: map<ToolbarAction, int>, acts: seq<ToolbarAction>): int
  {
    if acts == [] then 0 else SumFormatCounts(m, acts[..|acts| - 1]) + FormatCount(m, acts[|acts| - 1])
  }

  lemma SumFormatCountsShort(m: map<ToolbarAction, int>, a: ToolbarAction, b: ToolbarAction, c: ToolbarAction)
    ensures SumFormatCounts(m, [a]) == FormatCount(m, a)
    ensures SumFormatCounts(m, [b]) == FormatCount(m, b)
    ensures SumFormatCounts(m, [a, b]) == FormatCount(m, a) + FormatCount(m, b)
    ensures SumFormatCounts(m, [a, b, c]) == FormatCount(m, a) + FormatCount(m, b) + FormatCount(m, c)
  {
    assert [a, b, c][..2] == [a, b];
    assert [a, b][..1] == [a];
    assert [a][..0] == [] && [b][..0] == [];
  }

  function Measure(s: GamificationState, metric: Metric): int
  {
    match metric
    case WordsWritten => s.stats.totalWordsWritten
    case FormatUses(acts) => SumFormatCounts(s.stats.totalFormatsUsed, acts)
    case DistinctFormats => DistinctFormatsUsed(s.stats.totalFormatsUsed)
    case DocsSaved => s.stats.totalDocsSaved
    case TimeActive => s.stats.totalTimeActiveMs
    case StreakLength => s.streak.currentStreak
    case NotTracked => 0
    case AllOthersUnlocked => if UnlockedOthers(s.achievements) == OtherCount then 1 else 0
    case NoMetric => 0
  }

  /** The measured value of achievement `id` in `s` (`getAchievementValue`). */
  function Value(s: GamificationState, id: string): int
  {
    Measure(s, MetricOf(id))
  }

  /** Only the meta-achievement looks at the progress records. */
  lemma ValueIgnoresRecords(s: GamificationState, recs: seq<AchievementProgress>, id: string)
    requires id != BraveAce
    ensures Value(s.(achievements := recs), id) == Value(s, id)
  {
  }

  /** The meta-achievement measures 1 exactly when 19 records other than its
      own are unlocked; `perfectionist` always measures 0. */
  lemma SpecialValues(s: GamificationState)
    ensures Value(s, BraveAce) == 1 <==> UnlockedOthers(s.achievements) == 19
    ensures Value(s, BraveAce) == 0 <==> UnlockedOthers(s.achievements) != 19
    ensures Value(s, Perfectionist) == 0
  {
    OtherDefsInCatalog();
  }

  /** `getAchievementValue`, with the loops that count used formats. */
  method AchievementValue(s: GamificationState, id: string) returns (v: int)
    ensures v == Value(s, id)
  {
    var st := s.stats;
    var f := st.totalFormatsUsed;
    SumFormatCountsShort(f, H1, H2, H3);
    SumFormatCountsShort(f, Ul, Ol, Bold);
    SumFormatCountsShort(f, Link, Code, Bold);
    if IsWritingId(id) {
      v := st.totalWordsWritten;
    } else if id == "bold-move" {
      v := FormatCount(f, Bold);
    } else if id == "heading-master" {
      v := FormatCount(f, H1) + FormatCount(f, H2) + FormatCount(f, H3);
    } else if id == "link-builder" {
      v := FormatCount(f, Link);
    } else if id == "code-ninja" {
      v := FormatCount(f, Code);
    } else if id == "list-lover" {
      v := FormatCount(f, Ul) + FormatCount(f, Ol);
    } else if id == "format-explorer" || id == "format-master" {
      v := CountUsedFormats(f);
    } else if id == "first-save" || id == "saver" {
      v := st.totalDocsSaved;
    } else if id == "time-10" || id == "time-60" {
      v := st.totalTimeActiveMs;
    } else if id == "streak-3" || id == "streak-7" {
      v := s.streak.currentStreak;
    } else if id == Perfectionist {
      v := 0;
    } else if id == BraveAce {
      OtherDefsInCatalog();
      v := if UnlockedOthers(s.achievements) == OtherDefs(Catalog) then 1 else 0;
    } else {
      v := 0;
    }
  }

  /** The counting loop over the used formats. */
  method CountUsedFormats(f: map<ToolbarAction, int>) returns (count: nat)
    ensures count == DistinctFormatsUsed(f)
    ensures count <= 10
    ensures count == 10 <==> forall a: ToolbarAction :: Used(f, a)
  {
    count := 0;
    for i := 0 to |AllActions|
      invariant count == CountUsed(f, AllActions[..i])
    {
      var a := AllActions[i];
      assert AllActions[..i + 1][..i] == AllActions[..i];
      if a in f && f[a] > 0 {
        count := count + 1;
      }
    }
    assert AllActions[..|AllActions|] == AllActions;
    AllFormatsUsedIff(f);
  }

  // ---------------------------------------------------------------------------
  // Evaluation pass

  datatype Evaluation = Evaluation(
    updated: seq<AchievementProgress>,
    newlyUnlocked: seq<string>,
    xpGained: int)

  /** The first record with `id` (`Array.prototype.find`), or -1. */
  function FindRecord(recs: seq<AchievementProgress>, id: string): (k: int)
    ensures -1 <= k < |recs|
    ensures k >= 0 ==> recs[k].id == id && forall i :: 0 <= i < k ==> recs[i].id != id
    ensures k == -1 <==> forall i :: 0 <= i < |recs| ==> recs[i].id != id
  {
    FindRecordFrom(recs, id, 0)
  }

  function FindRecordFrom(recs: seq<AchievementProgress>, id: string, from: nat): (k: int)
    requires from <= |recs|
    ensures -1 <= k < |recs|
    ensures k >= 0 ==> from <= k && recs[k].id == id && forall i :: from <= i < k ==> recs[i].id != id
    ensures k == -1 <==> forall i :: from <= i < |recs| ==> recs[i].id != id
    decreases |recs| - from
  {
    if from == |recs| then -1
    else if recs[from].id == id then from
    else FindRecordFrom(recs, id, from + 1)
  }

  /** One iteration of the pass for catalog entry `def`, whose measured value
      is `value`. */
  function Step(e: Evaluation, def: AchievementRule, value: int, now: string): Evaluation
  {
    var idx := FindRecord(e.updated, def.id);
    if idx >= 0 then
      var existing := e.updated[idx];
      if !existing.unlocked && value >= def.target then
        Evaluation(e.updated[idx := existing.(current := value, unlocked := true, unlockedAt := Some(now))],
                   e.newlyUnlocked + [def.id], e.xpGained + def.xpReward)
      else
        Evaluation(e.updated[idx := existing.(current := value)], e.newlyUnlocked, e.xpGained)
    else
      var unlocked := value >= def.target;
      Evaluation(e.updated + [AchievementProgress(def.id, value, unlocked, if unlocked then Some(now) else None)],
                 if unlocked then e.newlyUnlocked + [def.id] else e.newlyUnlocked,
                 if unlocked then e.xpGained + def.xpReward else e.xpGained)
  }

  /** The pass after the first `k` catalog entries. */
  function EvalPrefix(s: GamificationState, now: string, k: nat): (e: Evaluation)
    requires k <= |Catalog|
    ensures |s.achievements| <= |e.updated|
    decreases k, 0
  {
    if k == 0 then Evaluation(s.achievements, [], 0)
    else Step(EvalPrefix(s, now, k - 1), Catalog[k - 1], SeenValue(s, now, k - 1), now)
  }

  /** The value entry `j` is measured at. The measurement sees the first
      |s.achievements| records of the list being built: the input's own
      records, which the pass mutates in place, but not the ones it has
      appended. */
  function SeenValue(s: GamificationState, now: string, j: nat): int
    requires j < |Catalog|
    decreases j, 1
  {
    Value(s.(achievements := EvalPrefix(s, now, j).updated[..|s.achievements|]), Catalog[j].id)
  }

  /** The whole pass (`checkAchievements`). */
  function Evaluate(s: GamificationState, now: string): Evaluation
  {
    EvalPrefix(s, now, |Catalog|)
  }

  /** `checkAchievements`: one loop over the catalog. `now` is the unlock
      timestamp. */
  method CheckAchievements(s: GamificationState, now: string)
    returns (updated: seq<AchievementProgress>, newlyUnlocked: seq<string>, xpGained: int)
    ensures Evaluation(updated, newlyUnlocked, xpGained) == Evaluate(s, now)
  {
    updated := s.achievements;
    newlyUnlocked := [];
    xpGained := 0;
    var n0 := |s.achievements|;
    for k := 0 to |Catalog|
      invariant Evaluation(updated, newlyUnlocked, xpGained) == EvalPrefix(s, now, k)
    {
      var def := Catalog[k];
      var value := AchievementValue(s.(achievements := updated[..n0]), def.id);
      assert value == SeenValue(s, now, k);
      updated, newlyUnlocked, xpGained := Visit(updated, newlyUnlocked, xpGained, def, value, now);
    }
  }

  /** The body of the loop for one catalog entry: refresh or unlock the
      first record with its id, or append a new record. */
  method Visit(updated0: seq<AchievementProgress>, newly0: seq<string>, xp0: int,
               def: AchievementRule, value: int, now: string)
    returns (updated: seq<AchievementProgress>, newlyUnlocked: seq<string>, xpGained: int)
    ensures Evaluation(updated, newlyUnlocked, xpGained) == Step(Evaluation(updated0, newly0, xp0), def, value, now)
  {
    updated, newlyUnlocked, xpGained := updated0, newly0, xp0;
    var idx := FindRecord(updated, def.id);
    if idx >= 0 {
      var existing := updated[idx];
      if !existing.unlocked && value >= def.target {
        updated := updated[idx := existing.(current := value, unlocked := true, unlockedAt := Some(now))];
        newlyUnlocked := newlyUnlocked + [def.id];
        xpGained := xpGained + def.xpReward;
      } else {
        updated := updated[idx := existing.(current := value)];
      }
    } else {
      var unlocked := value >= def.target;
      updated := updated + [AchievementProgress(def.id, value, unlocked, if unlocked then Some(now) else None)];
      if unlocked {
        newlyUnlocked := newlyUnlocked + [def.id];
        xpGained := xpGained + def.xpReward;
      }
    }
  }

  // ---------------------------------------------------------------------------
  // What the pass guarantees
  //
  // The pass is a left fold of `Step` over the catalog. Its bookkeeping does
  // not depend on how the values were measured, so it is analysed as a fold
  // over any list of distinct definitions with any list of values.

  /** The fold of `Step` over `defs`, visiting entry `j` with value `vals[j]`. */
  function Run(recs: seq<AchievementProgress>, defs: seq<AchievementRule>, vals: seq<int>, now: string): Evaluation
    requires |vals| <= |defs|
    decreases |vals|
  {
    if vals == [] then Evaluation(recs, [], 0)
    else
      var k := |vals| - 1;
      Step(Run(recs, defs, vals[..k], now), defs[k], vals[k], now)
  }

  /** The ids the fold unlocks. */
  function Newly(recs: seq<AchievementProgress>, defs: seq<AchievementRule>, vals: seq<int>, now: string): seq<string>
    requires |vals| <= |defs|
  {
    Run(recs, defs, vals, now).newlyUnlocked
  }

  /** The values the pass measures, in catalog order. */
  function SeenValues(s: GamificationState, now: string, k: nat): (v: seq<int>)
    requires k <= |Catalog|
    ensures |v| == k
    ensures forall j :: 0 <= j < k ==> v[j] == SeenValue(s, now, j)
  {
    if k == 0 then [] else SeenValues(s, now, k - 1) + [SeenValue(s, now, k - 1)]
  }

  /** The pass is the fold over the values it measures. */
  lemma {:induction false} EvalIsRun(s: GamificationState, now: string, k: nat)
    requires k <= |Catalog|
    ensures EvalPrefix(s, now, k) == Run(s.achievements, Catalog, SeenValues(s, now, k), now)
  {
    if k > 0 {
      EvalIsRun(s, now, k - 1);
      assert SeenValues(s, now, k)[..k - 1] == SeenValues(s, now, k - 1);
    }
  }

  /** The sum of the rewards, in `defs`, of the given ids. */
  function RewardSum(defs: seq<AchievementRule>, ids: seq<string>): int
  {
    if ids == [] then 0
    else
      var i := IndexOfId(defs, ids[|ids| - 1]);
      RewardSum(defs, ids[..|ids| - 1]) + (if i >= 0 then defs[i].xpReward else 0)
  }

  /** The first record with `id`. */
  function Record(recs: seq<AchievementProgress>, id: string): AchievementProgress
    requires FindRecord(recs, id) >= 0
  {
    recs[FindRecord(recs, id)]
  }

  /** Whether the record for `id` in `recs` exists and is unlocked. */
  predicate WasUnlocked(recs: seq<AchievementProgress>, id: string)
  {
    var i := FindRecord(recs, id);
    i >= 0 && recs[i].unlocked
  }

  lemma FindRecordStable(a: seq<AchievementProgress>, b: seq<AchievementProgress>, id: string)
    requires |a| <= |b|
    requires forall i :: 0 <= i < |a| ==> a[i].id == b[i].id
    requires forall i :: |a| <= i < |b| ==> b[i].id != id
    ensures FindRecord(b, id) == FindRecord(a, id)
  {
    var ka, kb := FindRecord(a, id), FindRecord(b, id);
    if ka >= 0 {
      assert b[ka].id == id;
    }
    if kb >= 0 {
      assert a[kb].id == id;
    }
  }

  /** What one step changes: only the first record with `def.id`, or one
      record with that id appended; no record is locked again. */
  lemma StepFrame(e: Evaluation, def: AchievementRule, value: int, now: string)
    ensures FindRecord(e.updated, def.id) >= 0 ==> |Step(e, def, value, now).updated| == |e.updated|
    ensures FindRecord(e.updated, def.id) < 0 ==>
      |Step(e, def, value, now).updated| == |e.updated| + 1 && Step(e, def, value, now).updated[|e.updated|].id == def.id
    ensures forall i :: 0 <= i < |e.updated| ==> Step(e, def, value, now).updated[i].id == e.updated[i].id
    ensures forall i :: 0 <= i < |e.updated| && e.updated[i].unlocked ==> Step(e, def, value, now).updated[i].unlocked
    ensures forall i :: 0 <= i < |e.updated| && i != FindRecord(e.updated, def.id) ==>
      Step(e, def, value, now).updated[i] == e.updated[i]
  {
  }

  /** The shape of the fold: input positions keep their ids and never lose an
      unlock, and appended records carry ids of visited entries. */
  lemma {:induction false} RunShape(recs: seq<AchievementProgress>, defs: seq<AchievementRule>, vals: seq<int>, now: string)
    requires |vals| <= |defs|
    ensures |recs| <= |Run(recs, defs, vals, now).updated|
    ensures forall i :: 0 <= i < |recs| ==> Run(recs, defs, vals, now).updated[i].id == recs[i].id
    ensures forall i :: 0 <= i < |recs| && recs[i].unlocked ==> Run(recs, defs, vals, now).updated[i].unlocked
    ensures forall i :: |recs| <= i < |Run(recs, defs, vals, now).updated| ==>
      exists j :: 0 <= j < |vals| && Run(recs, defs, vals, now).updated[i].id == defs[j].id
  {
    if vals != [] {
      var k := |vals| - 1;
      RunShape(recs, defs, vals[..k], now);
      var e := Run(recs, defs, vals[..k], now);
      StepFrame(e, defs[k], vals[k], now);
      var e' := Run(recs, defs, vals, now);
      forall i | |recs| <= i < |e'.updated|
        ensures exists j :: 0 <= j < |vals| && e'.updated[i].id == defs[j].id
      {
        if i < |e.updated| {
          var j :| 0 <= j < k && e.updated[i].id == defs[j].id;
          assert e'.updated[i].id == defs[j].id;
        } else {
          assert e'.updated[i].id == defs[k].id;
        }
      }
    }
  }

  /** Entries not yet visited find exactly the record they would have found
      in the input, untouched. */
  lemma {:induction false} RunUntouched(recs: seq<AchievementProgress>, defs: seq<AchievementRule>, vals: seq<int>, now: string, j: nat)
    requires DistinctIds(defs) && |vals| <= j < |defs|
    ensures FindRecord(Run(recs, defs, vals, now).updated, defs[j].id) == FindRecord(recs, defs[j].id)
    ensures FindRecord(recs, defs[j].id) >= 0 ==>
      Run(recs, defs, vals, now).updated[FindRecord(recs, defs[j].id)] == recs[FindRecord(recs, defs[j].id)]
  {
    if vals != [] {
      var k := |vals| - 1;
      RunUntouched(recs, defs, vals[..k], now, j);
      RunShape(recs, defs, vals[..k], now);
      var e := Run(recs, defs, vals[..k], now);
      StepFrame(e, defs[k], vals[k], now);
      var e' := Run(recs, defs, vals, now);
      forall i | |e.updated| <= i < |e'.updated|
        ensures e'.updated[i].id != defs[j].id
      {
        assert e'.updated[i].id == defs[k].id;
      }
      FindRecordStable(e.updated, e'.updated, defs[j].id);
    }
  }

  /** A step leaves the records of other ids where and as they were. */
  lemma StepOther(e: Evaluation, def: AchievementRule, value: int, now: string, id: string)
    requires id != def.id
    ensures FindRecord(Step(e, def, value, now).updated, id) == FindRecord(e.updated, id)
    ensures FindRecord(e.updated, id) >= 0 ==> Record(Step(e, def, value, now).updated, id) == Record(e.updated, id)
  {
    StepFrame(e, def, value, now);
    var e' := Step(e, def, value, now);
    forall i | |e.updated| <= i < |e'.updated|
      ensures e'.updated[i].id != id
    {
      assert e'.updated[i].id == def.id;
    }
    FindRecordStable(e.updated, e'.updated, id);
  }

  /** After a step, its entry has a record holding the value, unlocked
      exactly when it was unlocked before or the value reached the target. */
  lemma StepSelf(e: Evaluation, def: AchievementRule, value: int, now: string)
    ensures FindRecord(Step(e, def, value, now).updated, def.id) >= 0
    ensures Record(Step(e, def, value, now).updated, def.id).current == value
    ensures Record(Step(e, def, value, now).updated, def.id).unlocked
         == (WasUnlocked(e.updated, def.id) || value >= def.target)
  {
    StepFrame(e, def, value, now);
    var e' := Step(e, def, value, now);
    if FindRecord(e.updated, def.id) < 0 {
      FindRecordStable(e.updated, e'.updated[..|e.updated|], def.id);
    }
  }

  /** Every visited entry has a record holding the value it was measured at,
      unlocked exactly when it was unlocked before or reached its target. */
  lemma {:induction false} RunVisited(recs: seq<AchievementProgress>, defs: seq<AchievementRule>, vals: seq<int>, now: string, j: nat)
    requires DistinctIds(defs) && j < |vals| <= |defs|
    ensures FindRecord(Run(recs, defs, vals, now).updated, defs[j].id) >= 0
    ensures Record(Run(recs, defs, vals, now).updated, defs[j].id).current == vals[j]
    ensures Record(Run(recs, defs, vals, now).updated, defs[j].id).unlocked
         == (WasUnlocked(recs, defs[j].id) || vals[j] >= defs[j].target)
  {
    var k := |vals| - 1;
    var e := Run(recs, defs, vals[..k], now);
    if j < k {
      RunVisited(recs, defs, vals[..k], now, j);
      assert vals[..k][j] == vals[j];
      StepOther(e, defs[k], vals[k], now, defs[j].id);
    } else {
      RunUntouched(recs, defs, vals[..k], now, k);
      StepSelf(e, defs[k], vals[k], now);
    }
  }

  /** Whether entry `j` unlocks in the fold: its record was absent or locked
      and its value reached the target. */
  predicate Unlocks(recs: seq<AchievementProgress>, defs: seq<AchievementRule>, vals: seq<int>, j: nat)
    requires j < |vals| <= |defs|
  {
    !WasUnlocked(recs, defs[j].id) && vals[j] >= defs[j].target
  }

  /** The ids unlocked by the fold are visited entries, in the order of
      `defs`, each at most once. */
  lemma {:induction false} RunNewlyOrdered(recs: seq<AchievementProgress>, defs: seq<AchievementRule>, vals: seq<int>, now: string)
    requires DistinctIds(defs) && |vals| <= |defs|
    ensures forall a :: 0 <= a < |Newly(recs, defs, vals, now)| ==>
      0 <= IndexOfId(defs, Newly(recs, defs, vals, now)[a]) < |vals|
    ensures forall a, b :: 0 <= a < b < |Newly(recs, defs, vals, now)| ==>
      IndexOfId(defs, Newly(recs, defs, vals, now)[a]) < IndexOfId(defs, Newly(recs, defs, vals, now)[b])
  {
    if vals != [] {
      var k := |vals| - 1;
      RunNewlyOrdered(recs, defs, vals[..k], now);
      IndexOfEntry(defs, k);
      var nu, nu' := Newly(recs, defs, vals[..k], now), Newly(recs, defs, vals, now);
      assert nu' == nu || nu' == nu + [defs[k].id];
    }
  }

  /** An entry's id is among the unlocked ids exactly when it was visited and
      unlocks. */
  lemma {:induction false} RunNewlyExact(recs: seq<AchievementProgress>, defs: seq<AchievementRule>, vals: seq<int>, now: string)
    requires DistinctIds(defs) && |vals| <= |defs|
    ensures forall j :: 0 <= j < |vals| ==> (defs[j].id in Newly(recs, defs, vals, now) <==> Unlocks(recs, defs, vals, j))
  {
    if vals != [] {
      var k := |vals| - 1;
      var pre := vals[..k];
      RunNewlyExact(recs, defs, pre, now);
      RunNewlyOrdered(recs, defs, pre, now);
      RunUntouched(recs, defs, pre, now, k);
      IndexOfEntry(defs, k);
      var nu, nu' := Newly(recs, defs, pre, now), Newly(recs, defs, vals, now);
      assert forall a :: 0 <= a < |nu| ==> nu[a] != defs[k].id;
      forall j | 0 <= j < k
        ensures defs[j].id in nu' <==> Unlocks(recs, defs, vals, j)
      {
        assert pre[j] == vals[j];
        assert defs[j].id != defs[k].id;
      }
    }
  }

  /** The XP gained is the sum of the rewards of the unlocked ids. */
  lemma {:induction false} RunReward(recs: seq<AchievementProgress>, defs: seq<AchievementRule>, vals: seq<int>, now: string)
    requires DistinctIds(defs) && |vals| <= |defs|
    ensures Run(recs, defs, vals, now).xpGained == RewardSum(defs, Newly(recs, defs, vals, now))
  {
    if vals != [] {
      var k := |vals| - 1;
      RunReward(recs, defs, vals[..k], now);
      IndexOfEntry(defs, k);
      var nu, nu' := Newly(recs, defs, vals[..k], now), Newly(recs, defs, vals, now);
      if nu' != nu {
        assert nu'[..|nu'| - 1] == nu;
      }
    }
  }

  /** With distinct record ids and distinct definitions, the fold keeps the
      record ids distinct. */
  predicate DistinctRecordIds(recs: seq<AchievementProgress>)
  {
    forall i, j :: 0 <= i < j < |recs| ==> recs[i].id != recs[j].id
  }

  lemma StepDistinct(e: Evaluation, def: AchievementRule, value: int, now: string)
    requires DistinctRecordIds(e.updated)
    ensures DistinctRecordIds(Step(e, def, value, now).updated)
  {
    StepFrame(e, def, value, now);
  }

  lemma {:induction false} RunDistinct(recs: seq<AchievementProgress>, defs: seq<AchievementRule>, vals: seq<int>, now: string)
    requires DistinctRecordIds(recs) && |vals| <= |defs|
    ensures DistinctRecordIds(Run(recs, defs, vals, now).updated)
  {
    if vals != [] {
      var k := |vals| - 1;
      RunDistinct(recs, defs, vals[..k], now);
      StepDistinct(Run(recs, defs, vals[..k], now), defs[k], vals[k], now);
    }
  }

  /** In a list with distinct ids, the record at `i` is the one found for its id. */
  lemma FindDistinct(recs: seq<AchievementProgress>, i: int)
    requires DistinctRecordIds(recs) && 0 <= i < |recs|
    ensures FindRecord(recs, recs[i].id) == i
  {
  }

  // ---------------------------------------------------------------------------
  // The pass over the catalog

  /** What `checkAchievements` does to the records it is given: they keep
      their place and id and are never locked again. */
  lemma EvaluateKeepsInput(s: GamificationState, now: string)
    ensures |s.achievements| <= |Evaluate(s, now).updated|
    ensures forall i :: 0 <= i < |s.achievements| ==>
      Evaluate(s, now).updated[i].id == s.achievements[i].id
    ensures forall i :: 0 <= i < |s.achievements| && s.achievements[i].unlocked ==>
      Evaluate(s, now).updated[i].unlocked
  {
    EvalIsRun(s, now, |Catalog|);
    RunShape(s.achievements, Catalog, SeenValues(s, now, |Catalog|), now);
  }

  /** After `checkAchievements` every catalog entry has a record holding the
      value it was measured at, unlocked exactly when it already was or the
      value reached the target. */
  lemma EvaluateRecords(s: GamificationState, now: string, j: nat)
    requires j < |Catalog|
    ensures FindRecord(Evaluate(s, now).updated, Catalog[j].id) >= 0
    ensures Record(Evaluate(s, now).updated, Catalog[j].id).current == SeenValue(s, now, j)
    ensures Record(Evaluate(s, now).updated, Catalog[j].id).unlocked
         == (WasUnlocked(s.achievements, Catalog[j].id) || SeenValue(s, now, j) >= Catalog[j].target)
  {
    EvalIsRun(s, now, |Catalog|);
    CatalogIdsDistinct();
    RunVisited(s.achievements, Catalog, SeenValues(s, now, |Catalog|), now, j);
  }

  /** What `checkAchievements` reports: an id exactly when its entry unlocks
      in this pass. */
  lemma EvaluateReportsUnlocks(s: GamificationState, now: string)
    ensures forall j :: 0 <= j < |Catalog| ==>
      (Catalog[j].id in Evaluate(s, now).newlyUnlocked
       <==> !WasUnlocked(s.achievements, Catalog[j].id) && SeenValue(s, now, j) >= Catalog[j].target)
  {
    EvalIsRun(s, now, |Catalog|);
    CatalogIdsDistinct();
    RunNewlyExact(s.achievements, Catalog, SeenValues(s, now, |Catalog|), now);
  }

  /** Every reported id is a catalog id. */
  lemma EvaluateReportsCatalogIds(s: GamificationState, now: string)
    ensures forall a :: 0 <= a < |Evaluate(s, now).newlyUnlocked| ==>
      IsCatalogId(Evaluate(s, now).newlyUnlocked[a])
  {
    var recs, vals := s.achievements, SeenValues(s, now, |Catalog|);
    EvalIsRun(s, now, |Catalog|);
    assert Evaluate(s, now).newlyUnlocked == Newly(recs, Catalog, vals, now);
    CatalogIdsDistinct();
    RunNewlyOrdered(recs, Catalog, vals, now);
  }

  /** The reported ids come in catalog order. */
  lemma EvaluateReportsInOrder(s: GamificationState, now: string)
    ensures forall a, b :: 0 <= a < b < |Evaluate(s, now).newlyUnlocked| ==>
      CatalogIndex(Evaluate(s, now).newlyUnlocked[a]) < CatalogIndex(Evaluate(s, now).newlyUnlocked[b])
  {
    var recs, vals := s.achievements, SeenValues(s, now, |Catalog|);
    EvalIsRun(s, now, |Catalog|);
    assert Evaluate(s, now).newlyUnlocked == Newly(recs, Catalog, vals, now);
    CatalogIdsDistinct();
    RunNewlyOrdered(recs, Catalog, vals, now);
  }

  /** The XP gained is the sum of the rewards of the reported ids. */
  lemma EvaluateRewards(s: GamificationState, now: string)
    ensures Evaluate(s, now).xpGained == RewardSum(Catalog, Evaluate(s, now).newlyUnlocked)
  {
    EvalIsRun(s, now, |Catalog|);
    CatalogIdsDistinct();
    RunReward(s.achievements, Catalog, SeenValues(s, now, |Catalog|), now);
  }

  /** With positive rewards, a sum over ids that all have an entry is never
      negative, and positive exactly when there is at least one id. */
  lemma {:induction false} RewardSumSign(defs: seq<AchievementRule>, ids: seq<string>)
    requires forall i :: 0 <= i < |defs| ==> defs[i].xpReward > 0
    requires forall a :: 0 <= a < |ids| ==> IndexOfId(defs, ids[a]) >= 0
    ensures RewardSum(defs, ids) >= 0
    ensures RewardSum(defs, ids) > 0 <==> ids != []
  {
    if ids != [] {
      RewardSumSign(defs, ids[..|ids| - 1]);
    }
  }

  /** A pass never takes XP away, and it gives some exactly when it unlocks
      something. */
  lemma EvaluateGainSign(s: GamificationState, now: string)
    ensures Evaluate(s, now).xpGained >= 0
    ensures Evaluate(s, now).xpGained > 0 <==> Evaluate(s, now).newlyUnlocked != []
  {
    EvaluateRewards(s, now);
    EvaluateReportsCatalogIds(s, now);
    TargetsAndRewardsPositive();
    RewardSumSign(Catalog, Evaluate(s, now).newlyUnlocked);
  }

  /** Every entry but the meta-achievement is measured on the stats alone. */
  lemma SeenValueOfOthers(s: GamificationState, now: string, j: nat)
    requires j < |Catalog| && Catalog[j].id != BraveAce
    ensures SeenValue(s, now, j) == Value(s, Catalog[j].id)
  {
    ValueIgnoresRecords(s, EvalPrefix(s, now, j).updated[..|s.achievements|], Catalog[j].id);
  }

  /** Records that can be consistently evaluated against `defs`: one per id,
      every id from `defs`, and `perfectionist`, which measures nothing,
      locked. */
  predicate ConsistentIn(defs: seq<AchievementRule>, recs: seq<AchievementProgress>)
  {
    && DistinctRecordIds(recs)
    && (forall i :: 0 <= i < |recs| ==> IndexOfId(defs, recs[i].id) >= 0)
    && (forall i :: 0 <= i < |recs| && recs[i].id == Perfectionist ==> !recs[i].unlocked)
  }

  /** Consistent records for the catalog. A fresh state has none and is
      consistent. */
  predicate Consistent(recs: seq<AchievementProgress>)
  {
    ConsistentIn(Catalog, recs)
  }

  /** A step for an entry of `defs` keeps the records consistent as long as
      `perfectionist` is not measured at its target. */
  lemma StepConsistent(defs: seq<AchievementRule>, e: Evaluation, def: AchievementRule, value: int, now: string)
    requires ConsistentIn(defs, e.updated) && IndexOfId(defs, def.id) >= 0
    requires def.id == Perfectionist ==> value < def.target
    ensures ConsistentIn(defs, Step(e, def, value, now).updated)
  {
    StepDistinct(e, def, value, now);
    StepFrame(e, def, value, now);
  }

  lemma {:induction false} RunConsistent(recs: seq<AchievementProgress>, defs: seq<AchievementRule>, vals: seq<int>, now: string)
    requires DistinctIds(defs) && |vals| <= |defs| && ConsistentIn(defs, recs)
    requires forall j :: 0 <= j < |vals| && defs[j].id == Perfectionist ==> vals[j] < defs[j].target
    ensures ConsistentIn(defs, Run(recs, defs, vals, now).updated)
  {
    if vals != [] {
      var k := |vals| - 1;
      RunConsistent(recs, defs, vals[..k], now);
      IndexOfEntry(defs, k);
      StepConsistent(defs, Run(recs, defs, vals[..k], now), defs[k], vals[k], now);
    }
  }

  lemma ConsistentPrefix(defs: seq<AchievementRule>, recs: seq<AchievementProgress>, n: nat)
    requires ConsistentIn(defs, recs) && n <= |recs|
    ensures ConsistentIn(defs, recs[..n])
  {
    assert forall i :: 0 <= i < n ==> recs[..n][i] == recs[i];
  }

  /** The positions in `defs` of the records that count for the
      meta-achievement. */
  function CountedIndices(defs: seq<AchievementRule>, recs: seq<AchievementProgress>): set<int>
  {
    if recs == [] then {}
    else
      var last := recs[|recs| - 1];
      CountedIndices(defs, recs[..|recs| - 1]) + (if CountsForBraveAce(last) then {IndexOfId(defs, last.id)} else {})
  }

  lemma {:induction false} CountedIndicesFrom(defs: seq<AchievementRule>, recs: seq<AchievementProgress>, x: int)
    requires x in CountedIndices(defs, recs)
    ensures exists i :: 0 <= i < |recs| && CountsForBraveAce(recs[i]) && IndexOfId(defs, recs[i].id) == x
  {
    var init := recs[..|recs| - 1];
    if x in CountedIndices(defs, init) {
      CountedIndicesFrom(defs, init, x);
      var i :| 0 <= i < |init| && CountsForBraveAce(init[i]) && IndexOfId(defs, init[i].id) == x;
      assert recs[i] == init[i];
    }
  }

  /** An id of `defs` that no record carries has no counted position. */
  lemma {:induction false} CountedIndicesAvoid(defs: seq<AchievementRule>, recs: seq<AchievementProgress>, id: string)
    requires IndexOfId(defs, id) >= 0
    requires forall i :: 0 <= i < |recs| ==> IndexOfId(defs, recs[i].id) >= 0 && recs[i].id != id
    ensures IndexOfId(defs, id) !in CountedIndices(defs, recs)
  {
    if recs != [] {
      CountedIndicesAvoid(defs, recs[..|recs| - 1], id);
    }
  }

  /** With distinct ids from `defs`, each counted record has its own position. */
  lemma {:induction false} CountedIndicesSize(defs: seq<AchievementRule>, recs: seq<AchievementProgress>)
    requires DistinctRecordIds(recs) && forall i :: 0 <= i < |recs| ==> IndexOfId(defs, recs[i].id) >= 0
    ensures |CountedIndices(defs, recs)| == UnlockedOthers(recs)
  {
    if recs != [] {
      var init, last := recs[..|recs| - 1], recs[|recs| - 1];
      CountedIndicesSize(defs, init);
      CountedIndicesAvoid(defs, init, last.id);
    }
  }

  lemma {:induction false} SubsetOfRange(xs: set<int>, n: nat)
    requires forall x :: x in xs ==> 0 <= x < n
    ensures |xs| <= n
  {
    if n > 0 {
      SubsetOfRange(xs - {n - 1}, n - 1);
    } else {
      assert forall x :: x !in xs;
      assert xs == {};
    }
  }

  /** Definition lists that end with `perfectionist` and then the
      meta-achievement, as the catalog does. */
  predicate EndsWithSpecials(defs: seq<AchievementRule>)
  {
    |defs| >= 2 && defs[|defs| - 2].id == Perfectionist && defs[|defs| - 1].id == BraveAce
  }

  /** When the two special entries come last, consistent records have at most
      |defs| - 2 unlocked entries other than the meta-achievement, because
      `perfectionist` is not one of them. */
  lemma UnlockedOthersBound(defs: seq<AchievementRule>, recs: seq<AchievementProgress>)
    requires EndsWithSpecials(defs) && ConsistentIn(defs, recs)
    ensures UnlockedOthers(recs) <= |defs| - 2
  {
    var n := |defs| - 2;
    CountedIndicesSize(defs, recs);
    forall x | x in CountedIndices(defs, recs)
      ensures 0 <= x < n
    {
      CountedIndicesFrom(defs, recs, x);
      var i :| 0 <= i < |recs| && CountsForBraveAce(recs[i]) && IndexOfId(defs, recs[i].id) == x;
      forall j | n <= j < |defs|
        ensures defs[j].id != recs[i].id
      {
        assert j == n || j == n + 1;
      }
      IndexBelow(defs, recs[i].id, n);
    }
    SubsetOfRange(CountedIndices(defs, recs), n);
  }

  /** `perfectionist` never reaches its target. */
  lemma PerfectionistSeenZero(s: GamificationState, now: string)
    ensures SeenValue(s, now, 18) == 0
  {
    SpecialEntries();
    SeenValueOfOthers(s, now, 18);
    SpecialValues(s);
  }

  /** The first `k` steps keep consistent records consistent. */
  lemma EvalPrefixConsistent(s: GamificationState, now: string, k: nat)
    requires Consistent(s.achievements) && k <= |Catalog|
    ensures Consistent(EvalPrefix(s, now, k).updated)
  {
    var vals := SeenValues(s, now, k);
    EvalIsRun(s, now, k);
    CatalogIdsDistinct();
    SpecialEntries();
    forall j | 0 <= j < k && Catalog[j].id == Perfectionist
      ensures vals[j] < Catalog[j].target
    {
      IndexOfEntry(Catalog, j);
      PerfectionistSeenZero(s, now);
    }
    RunConsistent(s.achievements, Catalog, vals, now);
  }

  /** With consistent records the meta-achievement measures 0 in the pass. */
  lemma BraveAceSeenZero(s: GamificationState, now: string)
    requires Consistent(s.achievements)
    ensures SeenValue(s, now, 19) == 0
  {
    var seen := EvalPrefix(s, now, 19).updated[..|s.achievements|];
    EvalPrefixConsistent(s, now, 19);
    ConsistentPrefix(Catalog, EvalPrefix(s, now, 19).updated, |s.achievements|);
    SpecialEntries();
    CatalogSize();
    UnlockedOthersBound(Catalog, seen);
    SpecialValues(s.(achievements := seen));
  }

  /** A pass keeps consistent records consistent and never unlocks
      `perfectionist` or the meta-achievement. */
  lemma EvaluateKeepsConsistent(s: GamificationState, now: string)
    requires Consistent(s.achievements)
    ensures Consistent(Evaluate(s, now).updated)
    ensures Perfectionist !in Evaluate(s, now).newlyUnlocked
    ensures BraveAce !in Evaluate(s, now).newlyUnlocked
  {
    EvalPrefixConsistent(s, now, |Catalog|);
    EvaluateReportsUnlocks(s, now);
    SpecialEntries();
    PerfectionistSeenZero(s, now);
    BraveAceSeenZero(s, now);
  }

  /** `t` measures every achievement but the meta-achievement as `s` does. */
  predicate SameMeasures(s: GamificationState, t: GamificationState)
  {
    && t.stats.totalWordsWritten == s.stats.totalWordsWritten
    && t.stats.totalFormatsUsed == s.stats.totalFormatsUsed
    && t.stats.totalDocsSaved == s.stats.totalDocsSaved
    && t.stats.totalTimeActiveMs == s.stats.totalTimeActiveMs
    && t.streak.currentStreak == s.streak.currentStreak
  }

  /** Only the meta-achievement can tell apart two states with the same
      measured stats. */
  lemma SameMeasuresValue(s: GamificationState, t: GamificationState, id: string)
    requires SameMeasures(s, t) && id != BraveAce
    ensures Value(t, id) == Value(s, id)
  {
  }

  /** No entry unlocks again in a second pass. */
  lemma SecondPassEntryQuiet(s: GamificationState, t: GamificationState, now: string, later: string, j: nat)
    requires Consistent(s.achievements)
    requires t.achievements == Evaluate(s, now).updated && SameMeasures(s, t)
    requires j < |Catalog|
    ensures WasUnlocked(t.achievements, Catalog[j].id) || SeenValue(t, later, j) < Catalog[j].target
  {
    EvaluateKeepsConsistent(s, now);
    CatalogIdsDistinct();
    SpecialEntries();
    IndexOfEntry(Catalog, j);
    if j == 19 {
      BraveAceSeenZero(t, later);
    } else {
      SeenValueOfOthers(t, later, j);
      SeenValueOfOthers(s, now, j);
      SameMeasuresValue(s, t, Catalog[j].id);
      EvaluateRecords(s, now, j);
    }
  }

  /** A list of ids from `defs` that holds none of their ids is empty. */
  lemma NoIdsLeft(defs: seq<AchievementRule>, nu: seq<string>)
    requires forall a :: 0 <= a < |nu| ==> IndexOfId(defs, nu[a]) >= 0
    requires forall j :: 0 <= j < |defs| ==> defs[j].id !in nu
    ensures nu == []
  {
    forall a | 0 <= a < |nu|
      ensures nu[a] !in nu
    {
      assert defs[IndexOfId(defs, nu[a])].id == nu[a];
    }
    HeadIsIn(nu);
  }

  lemma HeadIsIn(nu: seq<string>)
    ensures |nu| > 0 ==> nu[0] in nu
  {
  }

  /** A pass that reports no catalog id reports nothing. */
  lemma NothingReported(t: GamificationState, later: string)
    requires forall j :: 0 <= j < |Catalog| ==> Catalog[j].id !in Evaluate(t, later).newlyUnlocked
    ensures Evaluate(t, later).newlyUnlocked == []
  {
    EvaluateReportsCatalogIds(t, later);
    NoIdsLeft(Catalog, Evaluate(t, later).newlyUnlocked);
  }

  /** A second pass over the records a pass produced, with the measured stats
      unchanged (the XP and level may have moved), unlocks nothing and gains
      nothing: the pass is idempotent on consistent records. */
  lemma SecondPassQuiet(s: GamificationState, t: GamificationState, now: string, later: string)
    requires Consistent(s.achievements)
    requires t.achievements == Evaluate(s, now).updated && SameMeasures(s, t)
    ensures Evaluate(t, later).newlyUnlocked == []
    ensures Evaluate(t, later).xpGained == 0
  {
    EvaluateKeepsConsistent(s, now);
    EvaluateReportsUnlocks(t, later);
    forall j | 0 <= j < |Catalog|
      ensures Catalog[j].id !in Evaluate(t, later).newlyUnlocked
    {
      SecondPassEntryQuiet(s, t, now, later, j);
    }
    NothingReported(t, later);
    EvaluateRewards(t, later);
  }

  /** The five writing milestones all measure the words written. */
  lemma WritingEntries()
    ensures forall i :: 0 <= i < 5 ==> IsWritingId(Catalog[i].id)
  {
  }

  /** A writing milestone unlocked in a pass leaves every lower one unlocked
      after that pass: they measure the same count against smaller targets. */
  lemma WritingCascade(s: GamificationState, now: string, i: nat, j: nat)
    requires i < j < 5
    requires Catalog[j].id in Evaluate(s, now).newlyUnlocked
    ensures FindRecord(Evaluate(s, now).updated, Catalog[i].id) >= 0
    ensures Record(Evaluate(s, now).updated, Catalog[i].id).unlocked
  {
    WritingEntries();
    WritingTargetsIncrease();
    EvaluateReportsUnlocks(s, now);
    SeenValueOfOthers(s, now, i);
    SeenValueOfOthers(s, now, j);
    EvaluateRecords(s, now, i);
  }
}
