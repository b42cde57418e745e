/** The gamification controller (`useGamification`): the live state, the
    queue of achievement toasts and the last word count seen, updated by one
    method per editor event.

    Each tracking event first applies its own change to the stats (the
    "updater"), then runs the achievement pass over the result, adds the XP
    of what unlocked, recomputes the level and queues one toast per unlock. */
module Controller {
  import opened Types
  import opened Leveling
  import opened Streak
  import opened AchievementDefs
  import opened Evaluator

  /** One reading of the clock: the ISO-8601 text stamped on unlocked records
      and the milliseconds since the epoch that make toast ids unique. */
  datatype Moment = Moment(iso: string, millis: nat)

  /** Active time credited per timer tick: five minutes. */
  const TickMs: int := 300000

  // ---------------------------------------------------------------------------
  // Toasts

  function DigitChar(d: nat): char
    requires d < 10
  {
    "0123456789"[d]
  }

  /** The decimal digits of `n` (`${n}` for an integer). */
  function Decimal(n: nat): (r: string)
    ensures |r| >= 1
    ensures forall i :: 0 <= i < |r| ==> '0' <= r[i] <= '9'
    decreases n
  {
    if n < 10 then [DigitChar(n)] else Decimal(n / 10) + [DigitChar(n % 10)]
  }

  /** The toast id `${id}-${Date.now()}`. */
  function ToastId(id: string, millis: nat): string
  {
    id + "-" + Decimal(millis)
  }

  /** One toast per id, in order, each referring to the entry of `defs`
      that carries its id. */
  function Toasts(defs: seq<AchievementRule>, ids: seq<string>, millis: nat): (ts: seq<PendingToast>)
    requires forall a :: 0 <= a < |ids| ==> IndexOfId(defs, ids[a]) >= 0
    ensures |ts| == |ids|
  {
    if ids == [] then []
    else
      var id := ids[|ids| - 1];
      Toasts(defs, ids[..|ids| - 1], millis) + [PendingToast(ToastId(id, millis), IndexOfId(defs, id))]
  }

  /** Toast `a` carries the id built from `ids[a]` and refers to the entry
      of `defs` with that id. */
  lemma {:induction false} ToastsAt(defs: seq<AchievementRule>, ids: seq<string>, millis: nat)
    requires forall a :: 0 <= a < |ids| ==> IndexOfId(defs, ids[a]) >= 0
    ensures forall a :: 0 <= a < |ids| ==>
      Toasts(defs, ids, millis)[a].id == ToastId(ids[a], millis)
      && Toasts(defs, ids, millis)[a].entry == IndexOfId(defs, ids[a])
  {
    if ids != [] {
      ToastsAt(defs, ids[..|ids| - 1], millis);
    }
  }

  /** The toasts for the achievements a pass over `s` unlocks. */
  function NewToasts(s: GamificationState, at: Moment): seq<PendingToast>
  {
    EvaluateReportsCatalogIds(s, at.iso);
    Toasts(Catalog, Evaluate(s, at.iso).newlyUnlocked, at.millis)
  }

  /** `prev.filter((t) => t.id !== id)`. */
  function WithoutToast(ts: seq<PendingToast>, id: string): seq<PendingToast>
  {
    if ts == [] then []
    else WithoutToast(ts[..|ts| - 1], id) + (if ts[|ts| - 1].id == id then [] else [ts[|ts| - 1]])
  }

  /** Dismissing leaves no toast with that id and never lengthens the
      queue. */
  lemma {:induction false} WithoutToastDropsId(ts: seq<PendingToast>, id: string)
    ensures forall a :: 0 <= a < |WithoutToast(ts, id)| ==> WithoutToast(ts, id)[a].id != id
    ensures |WithoutToast(ts, id)| <= |ts|
  {
    if ts != [] {
      WithoutToastDropsId(ts[..|ts| - 1], id);
    }
  }

  /** Every other toast stays as often as it was queued. */
  lemma {:induction false} WithoutToastKeepsOthers(ts: seq<PendingToast>, id: string)
    ensures forall t: PendingToast :: t.id != id ==> multiset(WithoutToast(ts, id))[t] == multiset(ts)[t]
  {
    if ts != [] {
      var init := ts[..|ts| - 1];
      WithoutToastKeepsOthers(init, id);
      assert ts == init + [ts[|ts| - 1]];
    }
  }

  /** Dismissing an id that is not queued changes nothing. */
  lemma {:induction false} WithoutToastAbsent(ts: seq<PendingToast>, id: string)
    requires forall a :: 0 <= a < |ts| ==> ts[a].id != id
    ensures WithoutToast(ts, id) == ts
  {
    if ts != [] {
      var init := ts[..|ts| - 1];
      WithoutToastAbsent(init, id);
      assert ts == init + [ts[|ts| - 1]];
    }
  }

  /** Dismissal keeps the relative order of the toasts it keeps: it is the
      filter of the queue, taken toast by toast. */
  lemma {:induction false} WithoutToastAppend(ts: seq<PendingToast>, more: seq<PendingToast>, id: string)
    ensures WithoutToast(ts + more, id) == WithoutToast(ts, id) + WithoutToast(more, id)
    decreases |more|
  {
    if more != [] {
      var init := more[..|more| - 1];
      WithoutToastAppend(ts, init, id);
      assert (ts + more)[..|ts + more| - 1] == ts + init;
    } else {
      assert ts + more == ts;
    }
  }

  // ---------------------------------------------------------------------------
  // The updaters: what each event does to the state before the pass

  /** The streak multiplier of a state, in tenths. */
  function Multiplier(s: GamificationState): int
  {
    MultiplierTenths(s.streak.currentStreak)
  }

  /** `stats` with `gain` more XP and the level recomputed. */
  function AddXp(stats: UserStats, gain: int): UserStats
  {
    stats.(totalXP := stats.totalXP + gain, level := Level(stats.totalXP + gain))
  }

  /** `trackWords` with `delta` new words written on day `today`:
      `floor(delta / 10 * multiplier)` XP. */
  function WordsUpdate(s: GamificationState, delta: int, today: int): GamificationState
  {
    var gain := (delta * Multiplier(s)) / 100;
    s.(stats := AddXp(s.stats.(totalWordsWritten := s.stats.totalWordsWritten + delta), gain),
       streak := UpdateStreak(s.streak, today, delta))
  }

  /** `trackFormat`: one more use of `action` and `floor(10 * multiplier)` XP. */
  function FormatUpdate(s: GamificationState, action: ToolbarAction): GamificationState
  {
    var f := s.stats.totalFormatsUsed;
    s.(stats := AddXp(s.stats.(totalFormatsUsed := f[action := FormatCount(f, action) + 1]), Multiplier(s)))
  }

  /** `trackSave` of a document of `wordCount` words: one more document and
      `floor(floor(wordCount / 10 * 150) * multiplier)` XP. */
  function SaveUpdate(s: GamificationState, wordCount: nat): GamificationState
  {
    var gain := (wordCount * 15 * Multiplier(s)) / 10;
    s.(stats := AddXp(s.stats.(totalDocsSaved := s.stats.totalDocsSaved + 1), gain))
  }

  /** The timer tick: five more minutes active and `floor(5 * multiplier)` XP. */
  function TickUpdate(s: GamificationState): GamificationState
  {
    var gain := (5 * Multiplier(s)) / 10;
    s.(stats := AddXp(s.stats.(totalTimeActiveMs := s.stats.totalTimeActiveMs + TickMs), gain))
  }

  /** `applyWithAchievements` after the updater, given the outcome `e` of
      the pass: the records from the pass, and the pass's XP with the level
      recomputed when it gained any. */
  function SettleWith(s: GamificationState, e: Evaluation): GamificationState
  {
    var fin := s.(achievements := e.updated);
    if e.xpGained > 0 then fin.(stats := AddXp(fin.stats, e.xpGained)) else fin
  }

  /** The state after the updater produced `s` and the pass ran over it. */
  function Settle(s: GamificationState, now: string): GamificationState
  {
    SettleWith(s, Evaluate(s, now))
  }

  // ---------------------------------------------------------------------------
  // What the events promise

  /** The stored level is the level the stored XP buys. */
  predicate LevelMatchesXp(s: GamificationState)
  {
    s.stats.level == Level(s.stats.totalXP)
  }

  /** Settling keeps everything but the records, XP and level; the XP grows
      by what the pass gained; and a level that matched the XP still does. */
  lemma SettleWithChanges(s: GamificationState, e: Evaluation)
    requires e.xpGained >= 0
    ensures SettleWith(s, e).enabled == s.enabled && SettleWith(s, e).version == s.version
    ensures SettleWith(s, e).streak == s.streak
    ensures SettleWith(s, e).stats.(totalXP := 0, level := 0) == s.stats.(totalXP := 0, level := 0)
    ensures SettleWith(s, e).stats.totalXP == s.stats.totalXP + e.xpGained
    ensures SettleWith(s, e).achievements == e.updated
    ensures LevelMatchesXp(s) ==> LevelMatchesXp(SettleWith(s, e))
  {
  }

  /** A pass never switches the engine on or off. */
  lemma SettleKeepsEnabled(s: GamificationState, now: string)
    ensures Settle(s, now).enabled == s.enabled
  {
    SettleChanges(s, now);
  }

  /** The same for the pass itself, which never gains negative XP. */
  lemma SettleChanges(s: GamificationState, now: string)
    ensures Settle(s, now).enabled == s.enabled && Settle(s, now).version == s.version
    ensures Settle(s, now).streak == s.streak
    ensures Settle(s, now).stats.(totalXP := 0, level := 0) == s.stats.(totalXP := 0, level := 0)
    ensures Settle(s, now).stats.totalXP == s.stats.totalXP + Evaluate(s, now).xpGained
    ensures Settle(s, now).stats.totalXP >= s.stats.totalXP
    ensures Settle(s, now).achievements == Evaluate(s, now).updated
    ensures LevelMatchesXp(s) ==> LevelMatchesXp(Settle(s, now))
  {
    EvaluateGainSign(s, now);
    SettleWithChanges(s, Evaluate(s, now));
  }

  /** The counters other than XP and level that an event touches. */
  predicate SameCounters(a: UserStats, b: UserStats)
  {
    && a.totalWordsWritten == b.totalWordsWritten
    && a.totalTimeActiveMs == b.totalTimeActiveMs
    && a.totalDocsSaved == b.totalDocsSaved
    && a.totalFormatsUsed == b.totalFormatsUsed
  }

  /** Writing adds exactly `delta` words and `floor(delta * m / 100)` XP
      before the pass's rewards `e`, and nothing else to the stats; the level
      follows the XP; XP never goes down; the streak is updated for today.
      (`Settle(u, now)` is `SettleWith(u, e)` for the pass's outcome `e`,
      whose gain `EvaluateGainSign` shows is never negative.) */
  lemma WordsIncrements(s: GamificationState, delta: int, today: int, e: Evaluation)
    requires delta > 0 && e.xpGained >= 0
    ensures SettleWith(WordsUpdate(s, delta, today), e).stats.totalWordsWritten == s.stats.totalWordsWritten + delta
    ensures SettleWith(WordsUpdate(s, delta, today), e).stats.totalXP
         == s.stats.totalXP + (delta * Multiplier(s)) / 100 + e.xpGained
    ensures SameCounters(SettleWith(WordsUpdate(s, delta, today), e).stats.(totalWordsWritten := 0),
                         s.stats.(totalWordsWritten := 0))
    ensures SettleWith(WordsUpdate(s, delta, today), e).stats.totalXP >= s.stats.totalXP
    ensures LevelMatchesXp(SettleWith(WordsUpdate(s, delta, today), e))
    ensures SettleWith(WordsUpdate(s, delta, today), e).streak == UpdateStreak(s.streak, today, delta)
  {
    SettleWithChanges(WordsUpdate(s, delta, today), e);
    MultiplierPositive(s);
  }

  /** A format use adds exactly one use of that action and `floor(10 * m)`
      XP before the rewards; the other actions' counts stay. */
  lemma FormatIncrements(s: GamificationState, action: ToolbarAction, e: Evaluation)
    requires e.xpGained >= 0
    ensures FormatCount(SettleWith(FormatUpdate(s, action), e).stats.totalFormatsUsed, action)
         == FormatCount(s.stats.totalFormatsUsed, action) + 1
    ensures forall b :: b != action ==>
      FormatCount(SettleWith(FormatUpdate(s, action), e).stats.totalFormatsUsed, b) == FormatCount(s.stats.totalFormatsUsed, b)
    ensures SettleWith(FormatUpdate(s, action), e).stats.totalXP == s.stats.totalXP + Multiplier(s) + e.xpGained
    ensures SameCounters(SettleWith(FormatUpdate(s, action), e).stats.(totalFormatsUsed := map[]),
                         s.stats.(totalFormatsUsed := map[]))
    ensures SettleWith(FormatUpdate(s, action), e).stats.totalXP > s.stats.totalXP
    ensures LevelMatchesXp(SettleWith(FormatUpdate(s, action), e))
  {
    SettleWithChanges(FormatUpdate(s, action), e);
    MultiplierPositive(s);
  }

  /** A save adds exactly one document and `floor(15 * wordCount * m / 10)`
      XP before the rewards. */
  lemma SaveIncrements(s: GamificationState, wordCount: nat, e: Evaluation)
    requires e.xpGained >= 0
    ensures SettleWith(SaveUpdate(s, wordCount), e).stats.totalDocsSaved == s.stats.totalDocsSaved + 1
    ensures SettleWith(SaveUpdate(s, wordCount), e).stats.totalXP
         == s.stats.totalXP + (wordCount * 15 * Multiplier(s)) / 10 + e.xpGained
    ensures SameCounters(SettleWith(SaveUpdate(s, wordCount), e).stats.(totalDocsSaved := 0),
                         s.stats.(totalDocsSaved := 0))
    ensures SettleWith(SaveUpdate(s, wordCount), e).stats.totalXP >= s.stats.totalXP
    ensures LevelMatchesXp(SettleWith(SaveUpdate(s, wordCount), e))
  {
    SettleWithChanges(SaveUpdate(s, wordCount), e);
    MultiplierPositive(s);
  }

  /** A tick adds exactly five minutes and 5, 7 or 10 XP before the rewards,
      as the multiplier is 1, 1.5 or 2. */
  lemma TickIncrements(s: GamificationState, e: Evaluation)
    requires e.xpGained >= 0
    ensures SettleWith(TickUpdate(s), e).stats.totalTimeActiveMs == s.stats.totalTimeActiveMs + TickMs
    ensures SettleWith(TickUpdate(s), e).stats.totalXP == s.stats.totalXP + (5 * Multiplier(s)) / 10 + e.xpGained
    ensures (5 * Multiplier(s)) / 10 == (if s.streak.currentStreak >= 7 then 10
                                         else if s.streak.currentStreak >= 3 then 7 else 5)
    ensures SameCounters(SettleWith(TickUpdate(s), e).stats.(totalTimeActiveMs := 0),
                         s.stats.(totalTimeActiveMs := 0))
    ensures LevelMatchesXp(SettleWith(TickUpdate(s), e))
  {
    SettleWithChanges(TickUpdate(s), e);
  }

  lemma MultiplierPositive(s: GamificationState)
    ensures Multiplier(s) >= 10
  {
  }

  /** After the pass over `u`, the records are still consistent, and
      neither `perfectionist` nor the meta-achievement was unlocked. */
  predicate PassKeepsConsistent(u: GamificationState, now: string)
  {
    Consistent(Settle(u, now).achievements)
    && Perfectionist !in Evaluate(u, now).newlyUnlocked
    && BraveAce !in Evaluate(u, now).newlyUnlocked
  }

  /** The pass that ends an event keeps consistent records consistent. */
  lemma PassConsistent(u: GamificationState, now: string)
    requires Consistent(u.achievements)
    ensures PassKeepsConsistent(u, now)
  {
    EvaluateKeepsConsistent(u, now);
    SettleChanges(u, now);
  }

  /** Records that are consistent stay so through every event, so
      `perfectionist` and the meta-achievement never unlock: in particular
      not from the fresh state, which has no records. */
  lemma EventsKeepConsistent(s: GamificationState, delta: int, today: int, action: ToolbarAction,
                             wordCount: nat, now: string)
    requires Consistent(s.achievements)
    ensures PassKeepsConsistent(WordsUpdate(s, delta, today), now)
    ensures PassKeepsConsistent(FormatUpdate(s, action), now)
    ensures PassKeepsConsistent(SaveUpdate(s, wordCount), now)
    ensures PassKeepsConsistent(TickUpdate(s), now)
  {
    UpdatesKeepRecords(s, delta, today, action, wordCount);
    PassConsistent(WordsUpdate(s, delta, today), now);
    PassConsistent(FormatUpdate(s, action), now);
    PassConsistent(SaveUpdate(s, wordCount), now);
    PassConsistent(TickUpdate(s), now);
  }

  /** The updaters only touch stats and streak. */
  lemma UpdatesKeepRecords(s: GamificationState, delta: int, today: int, action: ToolbarAction, wordCount: nat)
    ensures WordsUpdate(s, delta, today).achievements == s.achievements
    ensures FormatUpdate(s, action).achievements == s.achievements
    ensures SaveUpdate(s, wordCount).achievements == s.achievements
    ensures TickUpdate(s).achievements == s.achievements
    ensures FormatUpdate(s, action).enabled == SaveUpdate(s, wordCount).enabled == TickUpdate(s).enabled
         == WordsUpdate(s, delta, today).enabled == s.enabled
  {
  }

  /** A fresh state has consistent (empty) records. */
  lemma NoRecordsConsistent(s: GamificationState)
    requires s.achievements == []
    ensures Consistent(s.achievements)
  {
  }

  /** Toasts are queued exactly when the pass gained XP. */
  lemma ToastsIffGain(s: GamificationState, at: Moment)
    ensures NewToasts(s, at) == [] <==> Evaluate(s, at.iso).xpGained == 0
  {
    EvaluateGainSign(s, at.iso);
  }

  /** The rest of `applyWithAchievements` once the pass has produced `e`:
      the final state, and the toasts to queue when something unlocked. */
  method Outcome(updated: GamificationState, e: Evaluation, millis: nat)
    returns (finalState: GamificationState, toasts: seq<PendingToast>)
    requires forall a :: 0 <= a < |e.newlyUnlocked| ==> IndexOfId(Catalog, e.newlyUnlocked[a]) >= 0
    ensures finalState == SettleWith(updated, e)
    ensures toasts == Toasts(Catalog, e.newlyUnlocked, millis)
  {
    finalState := updated.(achievements := e.updated);
    if e.xpGained > 0 {
      var level := ComputeLevel(finalState.stats.totalXP + e.xpGained);
      finalState := finalState.(stats := finalState.stats.(totalXP := finalState.stats.totalXP + e.xpGained, level := level));
    }
    toasts := [];
    if |e.newlyUnlocked| > 0 {
      toasts := Toasts(Catalog, e.newlyUnlocked, millis);
    }
  }

  /** The pass over what an updater produced: the state `applyWithAchievements`
      returns and the toasts it queues. */
  method ApplyPass(updated: GamificationState, at: Moment)
    returns (finalState: GamificationState, toasts: seq<PendingToast>)
    ensures finalState == Settle(updated, at.iso)
    ensures toasts == NewToasts(updated, at)
  {
    var updatedAchievements, newlyUnlocked, xpGained := CheckAchievements(updated, at.iso);
    EvaluateReportsCatalogIds(updated, at.iso);
    finalState, toasts := Outcome(updated, Evaluation(updatedAchievements, newlyUnlocked, xpGained), at.millis);
  }

  /** The updater of `trackWords` for a positive `delta`. */
  method WordsUpdater(prev: GamificationState, delta: int, today: int) returns (updated: GamificationState)
    ensures updated == WordsUpdate(prev, delta, today)
  {
    var multiplier := MultiplierTenths(prev.streak.currentStreak);
    var xpGain := (delta * multiplier) / 100;
    var level := ComputeLevel(prev.stats.totalXP + xpGain);
    var newStats := prev.stats.(totalWordsWritten := prev.stats.totalWordsWritten + delta,
                                totalXP := prev.stats.totalXP + xpGain, level := level);
    var newStreak := UpdateStreakForToday(prev.streak, today, delta);
    updated := prev.(stats := newStats, streak := newStreak);
  }

  /** The updater of `trackFormat`. */
  method FormatUpdater(prev: GamificationState, action: ToolbarAction) returns (updated: GamificationState)
    ensures updated == FormatUpdate(prev, action)
  {
    var multiplier := MultiplierTenths(prev.streak.currentStreak);
    var xpGain := (10 * multiplier) / 10;
    var newFormats := prev.stats.totalFormatsUsed;
    newFormats := newFormats[action := FormatCount(newFormats, action) + 1];
    var level := ComputeLevel(prev.stats.totalXP + xpGain);
    var newStats := prev.stats.(totalFormatsUsed := newFormats, totalXP := prev.stats.totalXP + xpGain, level := level);
    updated := prev.(stats := newStats);
  }

  /** The updater of `trackSave`. */
  method SaveUpdater(prev: GamificationState, wordCount: nat) returns (updated: GamificationState)
    ensures updated == SaveUpdate(prev, wordCount)
  {
    var multiplier := MultiplierTenths(prev.streak.currentStreak);
    var baseXP := wordCount * 15;
    var xpGain := (baseXP * multiplier) / 10;
    var level := ComputeLevel(prev.stats.totalXP + xpGain);
    var newStats := prev.stats.(totalDocsSaved := prev.stats.totalDocsSaved + 1,
                                totalXP := prev.stats.totalXP + xpGain, level := level);
    updated := prev.(stats := newStats);
  }

  /** The tick's own change to the state, before its pass. */
  method TickUpdater(prev: GamificationState) returns (updated: GamificationState)
    ensures updated == TickUpdate(prev)
  {
    var multiplier := MultiplierTenths(prev.streak.currentStreak);
    var xpGain := (5 * multiplier) / 10;
    var level := ComputeLevel(prev.stats.totalXP + xpGain);
    var newStats := prev.stats.(totalTimeActiveMs := prev.stats.totalTimeActiveMs + TickMs,
                                totalXP := prev.stats.totalXP + xpGain, level := level);
    updated := prev.(stats := newStats);
  }
}
