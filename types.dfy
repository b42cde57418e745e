/** The data model of the gamification engine: the persisted aggregate state,
    its parts, and the closed enumeration of toolbar formatting actions. */
module Types {

  datatype Option<+T> = None | Some(value: T)

  /** The ten formatting actions the toolbar can emit. */
  datatype ToolbarAction = Bold | Italic | H1 | H2 | H3 | Ul | Ol | Code | Link | Image

  /** Every toolbar action once, in declaration order. */
  const AllActions: seq<ToolbarAction> := [Bold, Italic, H1, H2, H3, Ul, Ol, Code, Link, Image]

  /** The position of `a` in `AllActions`. */
  function ActionIndex(a: ToolbarAction): (i: nat)
    ensures i < |AllActions| && AllActions[i] == a
  {
    match a
    case Bold => 0
    case Italic => 1
    case H1 => 2
    case H2 => 3
    case H3 => 4
    case Ul => 5
    case Ol => 6
    case Code => 7
    case Link => 8
    case Image => 9
  }

  /** The key under which an action's counter is stored. */
  function ActionKey(a: ToolbarAction): string
  {
    match a
    case Bold => "bold"
    case Italic => "italic"
    case H1 => "h1"
    case H2 => "h2"
    case H3 => "h3"
    case Ul => "ul"
    case Ol => "ol"
    case Code => "code"
    case Link => "link"
    case Image => "image"
  }

  datatype AchievementCategory = Writing | Markdown | Productivity | Special

  /** The part of a catalog entry that the engine reads. */
  datatype AchievementRule = AchievementRule(
    id: string,
    category: AchievementCategory,
    target: int,
    xpReward: int)

  /** The part of a catalog entry that is only displayed. */
  datatype AchievementText = AchievementText(name: string, description: string, icon: string)

  /** A whole catalog entry, as a toast carries it. */
  datatype AchievementDef = AchievementDef(
    id: string,
    name: string,
    description: string,
    icon: string,
    category: AchievementCategory,
    target: int,
    xpReward: int)

  /** Per-achievement progress; `unlockedAt` is an opaque ISO-8601 timestamp. */
  datatype AchievementProgress = AchievementProgress(
    id: string,
    current: int,
    unlocked: bool,
    unlockedAt: Option<string>)

  /** Cumulative counters. An action absent from `totalFormatsUsed` counts 0. */
  datatype UserStats = UserStats(
    totalWordsWritten: int,
    totalTimeActiveMs: int,
    totalDocsSaved: int,
    totalFormatsUsed: map<ToolbarAction, int>,
    totalXP: int,
    level: int)

  /** One calendar day of the streak window; `date` is a day number. */
  datatype StreakDay = StreakDay(date: int, wordsWritten: int, qualified: bool)

  datatype StreakState = StreakState(currentStreak: int, longestStreak: int, days: seq<StreakDay>)

  /** A queued toast. `entry` is the position in the catalog of the
      definition it shows: `find` hands back the catalog's own object, so
      the toast refers to the entry rather than holding a copy. */
  datatype PendingToast = PendingToast(id: string, entry: nat)

  datatype GamificationState = GamificationState(
    enabled: bool,
    stats: UserStats,
    achievements: seq<AchievementProgress>,
    streak: StreakState,
    version: int)

  /** The usage count of `a`; a missing key reads as 0. */
  function FormatCount(m: map<ToolbarAction, int>, a: ToolbarAction): int
  {
    if a in m then m[a] else 0
  }
}
