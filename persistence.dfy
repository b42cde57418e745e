/** The default state, the shape check applied to a stored state, and the
    validator-or-default loading rule around browser storage.

    Storage itself and `JSON.parse`/`JSON.stringify` are outside the model:
    what was read from storage enters as an already-parsed `Json` value
    (`None` when nothing usable was stored or parsing failed), and the byte
    size of the serialized state enters as a number. */
module Persistence {
  import opened Types
  import Leveling

  /** A parsed JSON value. Numbers are integers here. */
  datatype Json =
    | JNull
    | JBool(b: bool)
    | JNumber(n: int)
    | JString(str: string)
    | JArray(items: seq<Json>)
    | JObject(fields: map<string, Json>)

  /** States whose serialized form is larger than this are not stored. */
  const MaxStoredBytes: int := 5 * 1024 * 1024

  /** `createDefaultState`. */
  function DefaultState(): GamificationState
  {
    GamificationState(
      true,
      UserStats(0, 0, 0, map[], 0, 1),
      [],
      StreakState(0, 0, []),
      1)
  }

  /** The fresh state is enabled, has every counter at 0 and no records, and
      its level is the one its XP buys. */
  lemma DefaultStateFresh()
    ensures DefaultState().enabled
    ensures DefaultState().stats.level == Leveling.Level(DefaultState().stats.totalXP) == 1
    ensures DefaultState().stats.totalWordsWritten == DefaultState().stats.totalTimeActiveMs
         == DefaultState().stats.totalDocsSaved == 0
    ensures forall a :: FormatCount(DefaultState().stats.totalFormatsUsed, a) == 0
    ensures DefaultState().achievements == [] && DefaultState().streak.days == []
    ensures DefaultState().streak.currentStreak == DefaultState().streak.longestStreak == 0
  {
    Leveling.LevelCharacterization(0);
  }

  // ---------------------------------------------------------------------------
  // The shape check

  /** Property access: `undefined` (None) unless `j` is an object holding `key`. */
  function Field(j: Json, key: string): Option<Json>
  {
    if j.JObject? && key in j.fields then Some(j.fields[key]) else None
  }

  /** `typeof v === 'object'` for a truthy `v`: an object or an array. */
  predicate ObjectLike(v: Json)
  {
    v.JObject? || v.JArray?
  }

  predicate BoolField(j: Json, key: string)
  {
    Field(j, key).Some? && Field(j, key).value.JBool?
  }

  predicate NumberField(j: Json, key: string)
  {
    Field(j, key).Some? && Field(j, key).value.JNumber?
  }

  predicate ArrayField(j: Json, key: string)
  {
    Field(j, key).Some? && Field(j, key).value.JArray?
  }

  predicate ObjectLikeField(j: Json, key: string)
  {
    Field(j, key).Some? && ObjectLike(Field(j, key).value)
  }

  /** What `isValidGamificationState` checks of the stats object. */
  predicate ValidStats(stats: Json)
  {
    && NumberField(stats, "totalWordsWritten")
    && NumberField(stats, "totalTimeActiveMs")
    && NumberField(stats, "totalDocsSaved")
    && NumberField(stats, "totalXP")
    && NumberField(stats, "level")
    && ObjectLikeField(stats, "totalFormatsUsed")
  }

  /** `isValidGamificationState`: the top-level fields have the right types
      and so do the counters inside `stats`. The achievement records, the
      format counts and the streak contents are not looked into. */
  predicate IsValid(obj: Json)
  {
    && ObjectLike(obj)
    && BoolField(obj, "enabled")
    && NumberField(obj, "version")
    && ObjectLikeField(obj, "stats")
    && ArrayField(obj, "achievements")
    && ObjectLikeField(obj, "streak")
    && ValidStats(Field(obj, "stats").value)
  }

  // ---------------------------------------------------------------------------
  // The serialized form of a state

  function OptionalField(key: string, v: Option<string>): map<string, Json>
  {
    if v.Some? then map[key := JString(v.value)] else map[]
  }

  /** A record; an absent `unlockedAt` is left out, as `JSON.stringify` does
      with `undefined`. */
  function ProgressJson(p: AchievementProgress): Json
  {
    JObject(map["id" := JString(p.id), "current" := JNumber(p.current), "unlocked" := JBool(p.unlocked)]
            + OptionalField("unlockedAt", p.unlockedAt))
  }

  function ProgressListJson(ps: seq<AchievementProgress>): seq<Json>
  {
    if ps == [] then [] else ProgressListJson(ps[..|ps| - 1]) + [ProgressJson(ps[|ps| - 1])]
  }

  function DayJson(d: StreakDay): Json
  {
    JObject(map["date" := JNumber(d.date), "wordsWritten" := JNumber(d.wordsWritten), "qualified" := JBool(d.qualified)])
  }

  function DayListJson(ds: seq<StreakDay>): seq<Json>
  {
    if ds == [] then [] else DayListJson(ds[..|ds| - 1]) + [DayJson(ds[|ds| - 1])]
  }

  /** The stored format counts: one key per action present in `m`. */
  function FormatFields(m: map<ToolbarAction, int>, acts: seq<ToolbarAction>): map<string, Json>
  {
    if acts == [] then map[]
    else
      var a := acts[|acts| - 1];
      FormatFields(m, acts[..|acts| - 1]) + (if a in m then map[ActionKey(a) := JNumber(m[a])] else map[])
  }

  function StatsJson(st: UserStats): Json
  {
    JObject(map[
      "totalWordsWritten" := JNumber(st.totalWordsWritten),
      "totalTimeActiveMs" := JNumber(st.totalTimeActiveMs),
      "totalDocsSaved" := JNumber(st.totalDocsSaved),
      "totalFormatsUsed" := JObject(FormatFields(st.totalFormatsUsed, AllActions)),
      "totalXP" := JNumber(st.totalXP),
      "level" := JNumber(st.level)])
  }

  function StreakJson(sk: StreakState): Json
  {
    JObject(map[
      "currentStreak" := JNumber(sk.currentStreak),
      "longestStreak" := JNumber(sk.longestStreak),
      "days" := JArray(DayListJson(sk.days))])
  }

  /** The state as `JSON.stringify` lays it out. */
  function ToJson(s: GamificationState): Json
  {
    JObject(map[
      "enabled" := JBool(s.enabled),
      "stats" := StatsJson(s.stats),
      "achievements" := JArray(ProgressListJson(s.achievements)),
      "streak" := StreakJson(s.streak),
      "version" := JNumber(s.version)])
  }

  /** Every state the engine saves passes the shape check. */
  lemma ToJsonValid(s: GamificationState)
    ensures IsValid(ToJson(s))
  {
    var j := ToJson(s);
    assert Field(j, "stats") == Some(StatsJson(s.stats));
    assert Field(j, "enabled") == Some(JBool(s.enabled));
    assert Field(j, "version") == Some(JNumber(s.version));
    assert Field(j, "achievements") == Some(JArray(ProgressListJson(s.achievements)));
    assert Field(j, "streak") == Some(StreakJson(s.streak));
  }

  // ---------------------------------------------------------------------------
  // Loading and saving

  /** `loadGamificationState`: the stored state when it passes the shape
      check, the default state otherwise. */
  function LoadState(stored: Option<Json>): (j: Json)
    ensures IsValid(j)
    ensures stored.Some? && IsValid(stored.value) ==> j == stored.value
    ensures stored.None? || !IsValid(stored.value) ==> j == ToJson(DefaultState())
  {
    ToJsonValid(DefaultState());
    if stored.Some? && IsValid(stored.value) then stored.value else ToJson(DefaultState())
  }

  /** `saveGamificationState`: what storage holds afterwards, given the byte
      size of the serialized state. */
  function SaveState(stored: Option<Json>, s: GamificationState, sizeInBytes: int): Option<Json>
  {
    if sizeInBytes > MaxStoredBytes then stored else Some(ToJson(s))
  }

  /** A state saved within the size limit loads back unchanged; a larger one
      leaves what was stored before, so the previous state loads. */
  lemma SaveThenLoad(stored: Option<Json>, s: GamificationState, sizeInBytes: int)
    ensures sizeInBytes <= MaxStoredBytes ==> LoadState(SaveState(stored, s, sizeInBytes)) == ToJson(s)
    ensures sizeInBytes > MaxStoredBytes ==> LoadState(SaveState(stored, s, sizeInBytes)) == LoadState(stored)
  {
    ToJsonValid(s);
  }

  /** A stored state whose `stats.totalXP` is a string is rejected and the
      default state loads instead. */
  lemma StringXpRejected(j: Json, xp: string)
    requires Field(j, "stats").Some? && Field(Field(j, "stats").value, "totalXP") == Some(JString(xp))
    ensures !IsValid(j)
    ensures LoadState(Some(j)) == ToJson(DefaultState())
  {
  }

  /** Anything that is not an object (null, a number, a string, a boolean)
      or lacks a boolean `enabled` is rejected. */
  lemma ShapeRejections(j: Json)
    ensures !ObjectLike(j) ==> !IsValid(j)
    ensures !BoolField(j, "enabled") ==> !IsValid(j)
    ensures j.JArray? ==> !IsValid(j)
  {
  }

  /** The check accepts exactly the values whose required fields have the
      required types, whatever else they hold. */
  lemma ValidIgnoresExtraFields(fields: map<string, Json>, key: string, v: Json)
    requires IsValid(JObject(fields))
    requires key !in {"enabled", "version", "stats", "achievements", "streak"}
    ensures IsValid(JObject(fields[key := v]))
  {
    var j, j2 := JObject(fields), JObject(fields[key := v]);
    assert Field(j2, "stats") == Field(j, "stats");
    assert Field(j2, "enabled") == Field(j, "enabled");
    assert Field(j2, "version") == Field(j, "version");
    assert Field(j2, "achievements") == Field(j, "achievements");
    assert Field(j2, "streak") == Field(j, "streak");
  }
}
