/** The controller object of `useGamification`: the live state, the queue of
    achievement toasts and the last word count seen, one method per event. */
module Hook {
  import opened Types
  import opened Evaluator
  import opened AchievementDefs
  import opened Controller

  class Gamification {
    var state: GamificationState
    var pendingToasts: seq<PendingToast>
    var lastWordCount: int

    /** The hook's initial state: the loaded state, no toasts, and a last
        word count of 0. */
    constructor (loaded: GamificationState)
      ensures state == loaded && pendingToasts == [] && lastWordCount == 0
    {
      state := loaded;
      pendingToasts := [];
      lastWordCount := 0;
    }

    /** The two state updates that end a pass: `setState(finalState)` and
        `setPendingToasts((p) => [...p, ...toasts])`. */
    method Commit(finalState: GamificationState, toasts: seq<PendingToast>)
      modifies `state, `pendingToasts
      ensures state == finalState && pendingToasts == old(pendingToasts) + toasts
    {
      state := finalState;
      pendingToasts := pendingToasts + toasts;
    }

    /** `applyWithAchievements`, given what the updater produced: the state
        after the pass, and one more toast per unlock. */
    method ApplyWithAchievements(updated: GamificationState, at: Moment)
      modifies `state, `pendingToasts
      ensures state == Settle(updated, at.iso)
      ensures pendingToasts == old(pendingToasts) + NewToasts(updated, at)
    {
      var finalState, toasts := ApplyPass(updated, at);
      Commit(finalState, toasts);
    }

    /** `trackWords`: words beyond the last count seen earn XP and go into
        today's streak record. */
    method TrackWords(currentWordCount: int, today: int, at: Moment)
      modifies this
      ensures !old(state.enabled) ==>
        state == old(state) && pendingToasts == old(pendingToasts) && lastWordCount == old(lastWordCount)
      ensures old(state.enabled) ==> lastWordCount == currentWordCount
      ensures old(state.enabled) && currentWordCount <= old(lastWordCount) ==>
        state == old(state) && pendingToasts == old(pendingToasts)
      ensures old(state.enabled) && currentWordCount > old(lastWordCount) ==>
        state == Settle(WordsUpdate(old(state), currentWordCount - old(lastWordCount), today), at.iso)
      ensures old(state.enabled) && currentWordCount > old(lastWordCount) ==>
        pendingToasts == old(pendingToasts)
                         + NewToasts(WordsUpdate(old(state), currentWordCount - old(lastWordCount), today), at)
    {
      if !state.enabled {
        return;
      }
      var delta := currentWordCount - lastWordCount;
      lastWordCount := currentWordCount;
      if delta > 0 {
        ApplyWords(delta, today, at);
      }
    }

    /** The `applyWithAchievements` call of `trackWords`, for `delta` new
        words. */
    method ApplyWords(delta: int, today: int, at: Moment)
      requires delta > 0
      modifies `state, `pendingToasts
      ensures state == Settle(WordsUpdate(old(state), delta, today), at.iso)
      ensures pendingToasts == old(pendingToasts) + NewToasts(WordsUpdate(old(state), delta, today), at)
    {
      var updated := WordsUpdater(state, delta, today);
      ApplyWithAchievements(updated, at);
    }

    /** `trackFormat`: one use of a toolbar action. */
    method TrackFormat(action: ToolbarAction, at: Moment)
      modifies `state, `pendingToasts
      ensures !old(state.enabled) ==> state == old(state) && pendingToasts == old(pendingToasts)
      ensures old(state.enabled) ==> state == Settle(FormatUpdate(old(state), action), at.iso)
      ensures old(state.enabled) ==> pendingToasts == old(pendingToasts) + NewToasts(FormatUpdate(old(state), action), at)
    {
      if !state.enabled {
        return;
      }
      var updated := FormatUpdater(state, action);
      ApplyWithAchievements(updated, at);
    }

    /** `trackSave`: one saved document of `wordCount` words. */
    method TrackSave(wordCount: nat, at: Moment)
      modifies `state, `pendingToasts
      ensures !old(state.enabled) ==> state == old(state) && pendingToasts == old(pendingToasts)
      ensures old(state.enabled) ==> state == Settle(SaveUpdate(old(state), wordCount), at.iso)
      ensures old(state.enabled) ==> pendingToasts == old(pendingToasts) + NewToasts(SaveUpdate(old(state), wordCount), at)
    {
      if !state.enabled {
        return;
      }
      var updated := SaveUpdater(state, wordCount);
      ApplyWithAchievements(updated, at);
    }

    /** The five-minute timer, which only exists while enabled: the tick's
        change, then the pass, which the timer writes out inline. */
    method Tick(at: Moment)
      modifies `state, `pendingToasts
      ensures !old(state.enabled) ==> state == old(state) && pendingToasts == old(pendingToasts)
      ensures old(state.enabled) ==> state == Settle(TickUpdate(old(state)), at.iso)
      ensures old(state.enabled) ==> pendingToasts == old(pendingToasts) + NewToasts(TickUpdate(old(state)), at)
    {
      if !state.enabled {
        return;
      }
      var ticked := TickUpdater(state);
      var newState, toasts := ApplyPass(ticked, at);
      Commit(newState, toasts);
    }

    /** `toggleEnabled`: flips `enabled` and nothing else. */
    method ToggleEnabled()
      modifies `state
      ensures state == old(state).(enabled := !old(state.enabled))
    {
      state := state.(enabled := !state.enabled);
    }

    /** `dismissToast`: drops the toasts with the given id. */
    method DismissToast(id: string)
      modifies `pendingToasts
      ensures pendingToasts == WithoutToast(old(pendingToasts), id)
    {
      pendingToasts := WithoutToast(pendingToasts, id);
    }
  }
}
