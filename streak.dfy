/** The daily streak window (`updateStreakForToday`).

    Calendar dates are day numbers: `YYYY-MM-DD` strings compare in the
    same order as the days they name, and "the day `n` days before today" is
    `today - n`. The current day is a parameter instead of a clock read. */
module Streak {
  import opened Types

  /** A day counts towards the streak from this many words on. */
  const QualifyingWords: int := 50

  /** At most this many day records are kept. */
  const WindowDays: nat := 30

  // ---------------------------------------------------------------------------
  // The day list

  /** The position of the first record dated `date`, or -1 (`findIndex`). */
  function DayIndex(days: seq<StreakDay>, date: int): (k: int)
    ensures -1 <= k < |days|
    ensures k >= 0 ==> days[k].date == date
    ensures k >= 0 ==> forall j :: 0 <= j < k ==> days[j].date != date
    ensures k == -1 <==> forall j :: 0 <= j < |days| ==> days[j].date != date
  {
    DayIndexFrom(days, date, 0)
  }

  function DayIndexFrom(days: seq<StreakDay>, date: int, from: nat): (k: int)
    requires from <= |days|
    ensures -1 <= k < |days|
    ensures k >= 0 ==> from <= k && days[k].date == date
    ensures k >= 0 ==> forall j :: from <= j < k ==> days[j].date != date
    ensures k == -1 <==> forall j :: from <= j < |days| ==> days[j].date != date
    decreases |days| - from
  {
    if from == |days| then -1
    else if days[from].date == date then from
    else DayIndexFrom(days, date, from + 1)
  }

  /** The record for `date` once it holds `words` words: qualified exactly
      from `QualifyingWords` words on. */
  function DayRecord(date: int, words: int): (d: StreakDay)
    ensures d.date == date && d.wordsWritten == words
    ensures d.qualified <==> words >= QualifyingWords
  {
    StreakDay(date, words, words >= QualifyingWords)
  }

  /** The day list with today's words added: today's first record is
      updated, or a new record is appended. */
  function Touch(days: seq<StreakDay>, today: int, wordsAdded: int): seq<StreakDay>
  {
    var k := DayIndex(days, today);
    if k >= 0 then days[k := DayRecord(today, days[k].wordsWritten + wordsAdded)]
    else days + [DayRecord(today, wordsAdded)]
  }

  /** The last `WindowDays` records. */
  function Window(days: seq<StreakDay>): seq<StreakDay>
  {
    if |days| > WindowDays then days[|days| - WindowDays..] else days
  }

  lemma WindowDropsOldest(days: seq<StreakDay>)
    requires |days| > WindowDays
    ensures Window(days[1..]) == Window(days)
  {
  }

  /** Today's word count after the update. */
  function TodayWords(days: seq<StreakDay>, today: int, wordsAdded: int): int
  {
    var k := DayIndex(days, today);
    if k >= 0 then days[k].wordsWritten + wordsAdded else wordsAdded
  }

  /** Touching changes today's first record, or appends one, and nothing else. */
  lemma TouchChangesOnlyToday(days: seq<StreakDay>, today: int, wordsAdded: int)
    ensures DayIndex(days, today) >= 0 ==> |Touch(days, today, wordsAdded)| == |days|
    ensures DayIndex(days, today) < 0 ==> |Touch(days, today, wordsAdded)| == |days| + 1
    ensures forall k :: 0 <= k < |days| && k != DayIndex(days, today) ==>
      Touch(days, today, wordsAdded)[k] == days[k]
    ensures DayIndex(Touch(days, today, wordsAdded), today) >= 0
    ensures Touch(days, today, wordsAdded)[DayIndex(Touch(days, today, wordsAdded), today)]
         == DayRecord(today, TodayWords(days, today, wordsAdded))
  {
    var t := Touch(days, today, wordsAdded);
    var k := DayIndex(days, today);
    if k >= 0 {
      assert t[k].date == today;
      assert forall j :: 0 <= j < k ==> t[j] == days[j];
      assert DayIndex(t, today) == k;
    } else {
      assert t[|days|].date == today;
      assert forall j :: 0 <= j < |days| ==> t[j] == days[j];
      assert DayIndex(t, today) == |days|;
    }
  }

  /** The window keeps the newest `WindowDays` records, in order: the oldest
      are evicted first. */
  lemma WindowKeepsNewest(days: seq<StreakDay>)
    ensures |Window(days)| <= WindowDays
    ensures |Window(days)| == if |days| <= WindowDays then |days| else WindowDays
    ensures Window(days) == days[|days| - |Window(days)|..]
  {
  }

  // ---------------------------------------------------------------------------
  // Sorting by date, newest first

  /** `x` goes in front of the first record of `l` that is strictly older, so
      records with equal dates keep their relative order. */
  function Insert(x: StreakDay, l: seq<StreakDay>): seq<StreakDay>
  {
    if l == [] || x.date >= l[0].date then [x] + l
    else [l[0]] + Insert(x, l[1..])
  }

  /** A stable sort on `date`, newest first (the descending `localeCompare`
      sort). */
  function SortNewestFirst(s: seq<StreakDay>): seq<StreakDay>
  {
    if s == [] then [] else Insert(s[0], SortNewestFirst(s[1..]))
  }

  predicate NewestFirst(s: seq<StreakDay>)
  {
    forall i, j :: 0 <= i < j < |s| ==> s[i].date >= s[j].date
  }

  /** No two records share a date. */
  predicate DistinctDates(s: seq<StreakDay>)
  {
    forall i, j :: 0 <= i < j < |s| ==> s[i].date != s[j].date
  }

  lemma {:induction false} InsertElements(x: StreakDay, l: seq<StreakDay>)
    ensures multiset(Insert(x, l)) == multiset([x] + l)
    ensures |Insert(x, l)| == |l| + 1
  {
    if l == [] || x.date >= l[0].date {
    } else {
      InsertElements(x, l[1..]);
      assert l == [l[0]] + l[1..];
    }
  }

  /** The front of an insertion is the inserted record or the old front. */
  lemma InsertHead(x: StreakDay, l: seq<StreakDay>)
    ensures Insert(x, l) != []
    ensures Insert(x, l)[0] == x || (l != [] && Insert(x, l)[0] == l[0])
  {
  }

  lemma {:induction false} InsertKeepsOrder(x: StreakDay, l: seq<StreakDay>)
    requires NewestFirst(l)
    ensures NewestFirst(Insert(x, l))
  {
    if l == [] || x.date >= l[0].date {
    } else {
      var tail := l[1..];
      assert NewestFirst(tail);
      InsertKeepsOrder(x, tail);
      InsertHead(x, tail);
      var r := Insert(x, tail);
      assert l[0].date >= r[0].date;
      var u := [l[0]] + r;
      forall i, j | 0 <= i < j < |u|
        ensures u[i].date >= u[j].date
      {
        if i == 0 {
          assert u[j] == r[j - 1];
          if j > 1 {
            assert r[0].date >= r[j - 1].date;
          }
        } else {
          assert u[i] == r[i - 1] && u[j] == r[j - 1];
        }
      }
    }
  }

  lemma {:induction false} InsertKeepsDistinct(x: StreakDay, l: seq<StreakDay>)
    requires DistinctDates(l)
    requires forall j :: 0 <= j < |l| ==> l[j].date != x.date
    ensures DistinctDates(Insert(x, l))
  {
    if l == [] || x.date >= l[0].date {
    } else {
      InsertKeepsDistinct(x, l[1..]);
      InsertElements(x, l[1..]);
      var r := Insert(x, l[1..]);
      forall j | 0 <= j < |r|
        ensures l[0].date != r[j].date
      {
        assert r[j] in multiset([x] + l[1..]);
        if r[j] != x {
          var t :| 0 <= t < |l[1..]| && l[1..][t] == r[j];
          assert l[t + 1] == r[j];
        }
      }
    }
  }

  /** The sort orders the records newest first and only reorders them. */
  lemma {:induction false} SortNewestFirstCorrect(s: seq<StreakDay>)
    ensures NewestFirst(SortNewestFirst(s))
    ensures multiset(SortNewestFirst(s)) == multiset(s)
    ensures |SortNewestFirst(s)| == |s|
  {
    if s != [] {
      SortNewestFirstCorrect(s[1..]);
      InsertKeepsOrder(s[0], SortNewestFirst(s[1..]));
      InsertElements(s[0], SortNewestFirst(s[1..]));
      assert s == [s[0]] + s[1..];
    }
  }

  /** Sorting records with distinct dates keeps them distinct. */
  lemma {:induction false} SortKeepsDistinct(s: seq<StreakDay>)
    requires DistinctDates(s)
    ensures DistinctDates(SortNewestFirst(s))
  {
    if s != [] {
      SortKeepsDistinct(s[1..]);
      SortNewestFirstCorrect(s[1..]);
      var r := SortNewestFirst(s[1..]);
      forall j | 0 <= j < |r|
        ensures r[j].date != s[0].date
      {
        assert r[j] in multiset(s[1..]);
        var t :| 0 <= t < |s[1..]| && s[1..][t] == r[j];
        assert s[t + 1] == r[j];
      }
      InsertKeepsDistinct(s[0], r);
    }
  }

  // ---------------------------------------------------------------------------
  // Counting the streak

  /** How far, from position `i` on, the newest-first list `l` holds a
      qualified record for `today - i`, `today - i - 1`, ... in turn. */
  function StreakRun(l: seq<StreakDay>, today: int, i: nat): nat
    requires i <= |l|
    decreases |l| - i
  {
    if i < |l| && l[i].qualified && l[i].date == today - i then StreakRun(l, today, i + 1)
    else i
  }

  lemma {:induction false} StreakRunStops(l: seq<StreakDay>, today: int, i: nat)
    requires i <= |l|
    ensures i <= StreakRun(l, today, i) <= |l|
    ensures forall t :: i <= t < StreakRun(l, today, i) ==> l[t].qualified && l[t].date == today - t
    ensures StreakRun(l, today, i) < |l| ==>
      !(l[StreakRun(l, today, i)].qualified && l[StreakRun(l, today, i)].date == today - StreakRun(l, today, i))
    decreases |l| - i
  {
    if i < |l| && l[i].qualified && l[i].date == today - i {
      StreakRunStops(l, today, i + 1);
    }
  }

  /** Some record of `days` for `date` is qualified. */
  predicate HasQualified(days: seq<StreakDay>, date: int)
  {
    exists k :: 0 <= k < |days| && days[k].date == date && days[k].qualified
  }

  predicate NotAfter(days: seq<StreakDay>, today: int)
  {
    forall j :: 0 <= j < |days| ==> days[j].date <= today
  }

  /** The streak of a day list counted as the source counts it. */
  function CountStreak(days: seq<StreakDay>, today: int): nat
  {
    SortNewestFirstCorrect(days);
    StreakRun(SortNewestFirst(days), today, 0)
  }

  /** Each of the `n` days ending today has a qualified record. */
  lemma StreakDaysQualified(days: seq<StreakDay>, today: int)
    ensures CountStreak(days, today) <= |days|
    ensures forall d :: today - CountStreak(days, today) < d <= today ==> HasQualified(days, d)
  {
    var l := SortNewestFirst(days);
    SortNewestFirstCorrect(days);
    StreakRunStops(l, today, 0);
    forall d | today - CountStreak(days, today) < d <= today
      ensures HasQualified(days, d)
    {
      var i := today - d;
      assert l[i] in multiset(days);
      var k :| 0 <= k < |days| && days[k] == l[i];
    }
  }

  /** With one record per date and none after today, the day right before
      the streak has no qualified record: the streak is the whole run of
      qualified days ending today. */
  lemma StreakStopsAtGap(days: seq<StreakDay>, today: int)
    requires DistinctDates(days) && NotAfter(days, today)
    ensures !HasQualified(days, today - CountStreak(days, today))
  {
    var l := SortNewestFirst(days);
    var n := CountStreak(days, today);
    SortNewestFirstCorrect(days);
    SortKeepsDistinct(days);
    StreakRunStops(l, today, 0);
    forall i | 0 <= i < |l|
      ensures l[i].date <= today
    {
      assert l[i] in multiset(days);
      var k :| 0 <= k < |days| && days[k] == l[i];
    }
    if n > 0 {
      assert l[n - 1].date == today - (n - 1);
    }
    forall k | 0 <= k < |days| && days[k].date == today - n
      ensures !days[k].qualified
    {
      assert days[k] in multiset(l);
      var p :| 0 <= p < |l| && l[p] == days[k];
      assert p == n;
    }
  }

  // ---------------------------------------------------------------------------
  // The update

  function Max(a: int, b: int): int
  {
    if a >= b then a else b
  }

  /** The streak state after `wordsAdded` words were written `today`. */
  function UpdateStreak(streak: StreakState, today: int, wordsAdded: int): StreakState
  {
    var days := Window(Touch(streak.days, today, wordsAdded));
    var n := CountStreak(days, today);
    StreakState(n, Max(streak.longestStreak, n), days)
  }

  /** `updateStreakForToday`: update today's record, trim the window, sort a
      copy newest first and count the qualified days back from today. */
  method UpdateStreakForToday(streak: StreakState, today: int, wordsAdded: int) returns (r: StreakState)
    ensures r == UpdateStreak(streak, today, wordsAdded)
  {
    var days := TouchToday(streak.days, today, wordsAdded);
    days := TrimWindow(days);
    var sorted := SortNewestFirst(days);
    var currentStreak := CountRun(sorted, today);
    r := StreakState(currentStreak, Max(streak.longestStreak, currentStreak), days);
  }

  /** Today's record gets the words, or a record for today is pushed. */
  method TouchToday(days0: seq<StreakDay>, today: int, wordsAdded: int) returns (days: seq<StreakDay>)
    ensures days == Touch(days0, today, wordsAdded)
  {
    days := days0;
    var todayIdx := DayIndex(days, today);
    if todayIdx >= 0 {
      var words := days[todayIdx].wordsWritten + wordsAdded;
      days := days[todayIdx := StreakDay(days[todayIdx].date, words, words >= QualifyingWords)];
    } else {
      days := days + [StreakDay(today, wordsAdded, wordsAdded >= QualifyingWords)];
    }
  }

  /** `while (days.length > 30) days.shift()`. */
  method TrimWindow(days0: seq<StreakDay>) returns (days: seq<StreakDay>)
    ensures days == Window(days0)
  {
    days := days0;
    while |days| > WindowDays
      invariant Window(days) == Window(days0)
      decreases |days|
    {
      WindowDropsOldest(days);
      days := days[1..];
    }
  }

  /** The counting loop over the sorted copy: qualified records on
      consecutive days back from today. */
  method CountRun(sorted: seq<StreakDay>, today: int) returns (currentStreak: nat)
    ensures currentStreak == StreakRun(sorted, today, 0)
  {
    currentStreak := 0;
    var i := 0;
    while i < |sorted|
      invariant 0 <= i <= |sorted| && currentStreak == i
      invariant StreakRun(sorted, today, i) == StreakRun(sorted, today, 0)
    {
      if !sorted[i].qualified {
        break;
      }
      var expected := today - currentStreak;
      if sorted[i].date != expected {
        break;
      }
      currentStreak := currentStreak + 1;
      i := i + 1;
    }
  }

  // ---------------------------------------------------------------------------
  // What the update promises

  /** The window never holds more than `WindowDays` records, and it is the
      newest part of the touched list. */
  lemma UpdateKeepsWindow(streak: StreakState, today: int, wordsAdded: int)
    ensures |UpdateStreak(streak, today, wordsAdded).days| <= WindowDays
    ensures UpdateStreak(streak, today, wordsAdded).days
         == Touch(streak.days, today, wordsAdded)[|Touch(streak.days, today, wordsAdded)|
                                                  - |UpdateStreak(streak, today, wordsAdded).days|..]
  {
    WindowKeepsNewest(Touch(streak.days, today, wordsAdded));
  }

  /** From a full window or less, today's record ends up holding the old
      count plus the words added (or just the words added when it is new),
      qualified exactly from 50 words on. */
  lemma UpdateRecordsToday(streak: StreakState, today: int, wordsAdded: int)
    requires |streak.days| <= WindowDays
    ensures DayIndex(UpdateStreak(streak, today, wordsAdded).days, today) >= 0
    ensures UpdateStreak(streak, today, wordsAdded).days[DayIndex(UpdateStreak(streak, today, wordsAdded).days, today)]
         == DayRecord(today, TodayWords(streak.days, today, wordsAdded))
  {
    var t := Touch(streak.days, today, wordsAdded);
    var w := Window(t);
    TouchChangesOnlyToday(streak.days, today, wordsAdded);
    if |t| > WindowDays {
      assert DayIndex(streak.days, today) < 0;
      assert w == t[1..];
      assert w[|w| - 1] == DayRecord(today, wordsAdded);
      assert forall j :: 0 <= j < |w| - 1 ==> w[j] == streak.days[j + 1];
      assert DayIndex(w, today) == |w| - 1;
    }
  }

  /** The longest streak is the larger of the old longest and the new
      current streak: it never decreases and never falls below the current
      one. */
  lemma UpdateLongest(streak: StreakState, today: int, wordsAdded: int)
    ensures UpdateStreak(streak, today, wordsAdded).longestStreak >= streak.longestStreak
    ensures UpdateStreak(streak, today, wordsAdded).longestStreak >= UpdateStreak(streak, today, wordsAdded).currentStreak
    ensures UpdateStreak(streak, today, wordsAdded).longestStreak == streak.longestStreak
         || UpdateStreak(streak, today, wordsAdded).longestStreak == UpdateStreak(streak, today, wordsAdded).currentStreak
  {
  }

  /** One record per date and none after today: what a day list built by the
      update from a clock that never runs backwards looks like. */
  predicate WellDated(days: seq<StreakDay>, today: int)
  {
    DistinctDates(days) && NotAfter(days, today)
  }

  lemma TouchKeepsWellDated(days: seq<StreakDay>, today: int, wordsAdded: int)
    requires WellDated(days, today)
    ensures WellDated(Touch(days, today, wordsAdded), today)
  {
    var t := Touch(days, today, wordsAdded);
    var k := DayIndex(days, today);
    if k >= 0 {
      assert forall j :: 0 <= j < |t| ==> t[j].date == days[j].date;
    } else {
      assert forall j :: 0 <= j < |days| ==> t[j] == days[j];
    }
  }

  /** The update keeps the day list well dated. */
  lemma UpdateKeepsWellDated(streak: StreakState, today: int, wordsAdded: int)
    requires WellDated(streak.days, today)
    ensures WellDated(UpdateStreak(streak, today, wordsAdded).days, today)
  {
    TouchKeepsWellDated(streak.days, today, wordsAdded);
    var t := Touch(streak.days, today, wordsAdded);
    WindowKeepsNewest(t);
    SuffixWellDated(t, today, |t| - |Window(t)|);
  }

  lemma SuffixWellDated(days: seq<StreakDay>, today: int, m: nat)
    requires WellDated(days, today) && m <= |days|
    ensures WellDated(days[m..], today)
  {
    assert forall j :: 0 <= j < |days| - m ==> days[m..][j] == days[j + m];
  }

  /** On a well-dated list the current streak is exactly the number of
      consecutive days ending today that have a qualified record, and it
      never exceeds the number of records. */
  lemma UpdateCountsStreak(streak: StreakState, today: int, wordsAdded: int)
    requires WellDated(streak.days, today)
    ensures UpdateStreak(streak, today, wordsAdded).currentStreak <= |UpdateStreak(streak, today, wordsAdded).days|
    ensures forall d :: today - UpdateStreak(streak, today, wordsAdded).currentStreak < d <= today ==>
      HasQualified(UpdateStreak(streak, today, wordsAdded).days, d)
    ensures !HasQualified(UpdateStreak(streak, today, wordsAdded).days,
                          today - UpdateStreak(streak, today, wordsAdded).currentStreak)
  {
    var days := UpdateStreak(streak, today, wordsAdded).days;
    UpdateKeepsWellDated(streak, today, wordsAdded);
    StreakDaysQualified(days, today);
    StreakStopsAtGap(days, today);
  }

  /** On a well-dated list the streak is 0 exactly when today's record is not
      qualified. */
  lemma UpdateStreakZero(streak: StreakState, today: int, wordsAdded: int)
    requires WellDated(streak.days, today)
    ensures UpdateStreak(streak, today, wordsAdded).currentStreak == 0
        <==> !HasQualified(UpdateStreak(streak, today, wordsAdded).days, today)
  {
    UpdateCountsStreak(streak, today, wordsAdded);
  }
}
