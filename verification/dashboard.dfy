/**
 * `updateDashboardStats`: the total number of workouts, the number in the trailing week
 * and the consecutive-day streak. A workout's `date` is reduced to what the two
 * comparisons use: its instant in milliseconds (for the week window) and its local
 * calendar day number (for `toDateString()` equality). A date that does not parse is
 * `Invalid`: it is never on or after a given instant and never on a given day.
 */
module Dashboard {

  const MsPerDay := 86400000
  /** The streak scan looks at today and the 29 days before it. */
  const StreakWindow := 30

  datatype WorkoutDate = Parsed(millis: int, day: int) | Invalid
  datatype Workout = Workout(date: WorkoutDate)

  // ---------------------------------------------------------------------------------
  // The trailing week

  predicate InWeek(w: Workout, weekStart: int) {
    w.date.Parsed? && w.date.millis >= weekStart
  }

  /** `workouts.filter(w => new Date(w.date) >= oneWeekAgo)`. */
  function WeekWorkouts(ws: seq<Workout>, weekStart: int): (r: seq<Workout>)
    ensures |r| <= |ws|
    ensures forall w :: w in r <==> w in ws && InWeek(w, weekStart)
  {
    if ws == [] then []
    else (if InWeek(ws[0], weekStart) then [ws[0]] else []) + WeekWorkouts(ws[1..], weekStart)
  }

  /**
   * The filter keeps every workout in the window as often as it occurs, and nothing else:
   * two workouts at the same instant are both counted.
   */
  lemma {:induction false} WeekKeepsMultiplicity(ws: seq<Workout>, weekStart: int)
    ensures multiset(WeekWorkouts(ws, weekStart)) <= multiset(ws)
    ensures forall w :: InWeek(w, weekStart) ==> multiset(WeekWorkouts(ws, weekStart))[w] == multiset(ws)[w]
  {
    if ws != [] {
      WeekKeepsMultiplicity(ws[1..], weekStart);
      assert ws == [ws[0]] + ws[1..];
    }
  }

  /** Every workout is counted in the week exactly when every workout lies in the window. */
  lemma {:induction false} WeekCountIsTotal(ws: seq<Workout>, weekStart: int)
    ensures |WeekWorkouts(ws, weekStart)| == |ws| <==> forall i :: 0 <= i < |ws| ==> InWeek(ws[i], weekStart)
  {
    if ws != [] {
      WeekCountIsTotal(ws[1..], weekStart);
      var rest := WeekWorkouts(ws[1..], weekStart);
      assert |WeekWorkouts(ws, weekStart)| == (if InWeek(ws[0], weekStart) then 1 else 0) + |rest|;
      assert forall i :: 1 <= i < |ws| ==> ws[i] == ws[1..][i - 1];
    }
  }

  /** An earlier window start never counts fewer workouts. */
  lemma {:induction false} WeekCountMonotone(ws: seq<Workout>, early: int, late: int)
    requires early <= late
    ensures |WeekWorkouts(ws, late)| <= |WeekWorkouts(ws, early)|
  {
    if ws != [] {
      WeekCountMonotone(ws[1..], early, late);
    }
  }

  // ---------------------------------------------------------------------------------
  // The streak

  predicate OnDay(w: Workout, d: int) {
    w.date.Parsed? && w.date.day == d
  }

  /** `workouts.some(w => sameDay(w.date, d))`. */
  predicate HasWorkoutOn(ws: seq<Workout>, d: int) {
    exists i | 0 <= i < |ws| :: OnDay(ws[i], d)
  }

  /** The number of consecutive days `d`, `d - 1`, ... with a workout, looking at `n` days at most. */
  function Run(ws: seq<Workout>, d: int, n: nat): (r: nat)
    ensures r <= n
    decreases n
  {
    if n == 0 || !HasWorkoutOn(ws, d) then 0 else 1 + Run(ws, d - 1, n - 1)
  }

  /**
   * The streak the loop computes: one for today if today has a workout, plus the run of
   * days with a workout from yesterday backwards inside the window. A day without a
   * workout ends the scan, except today.
   */
  function Streak(ws: seq<Workout>, today: int): (r: nat)
    ensures r <= StreakWindow
  {
    (if HasWorkoutOn(ws, today) then 1 else 0) + Run(ws, today - 1, StreakWindow - 1)
  }

  /** `Run` is the longest unbroken run: every day it counts has a workout, and the next does not. */
  lemma {:induction false} RunIsMaximal(ws: seq<Workout>, d: int, n: nat)
    ensures forall e :: d - Run(ws, d, n) < e <= d ==> HasWorkoutOn(ws, e)
    ensures Run(ws, d, n) < n ==> !HasWorkoutOn(ws, d - Run(ws, d, n))
    decreases n
  {
    if n > 0 && HasWorkoutOn(ws, d) {
      RunIsMaximal(ws, d - 1, n - 1);
    }
  }

  /**
   * The streak rule: the streak is `k` plus one if today has a workout, where `k` days
   * from yesterday backwards all have a workout and the day before them has none (or the
   * window is used up). Without a workout today or yesterday the streak is 0.
   */
  lemma StreakRule(ws: seq<Workout>, today: int)
    ensures var k := Streak(ws, today) - (if HasWorkoutOn(ws, today) then 1 else 0);
      && 0 <= k <= StreakWindow - 1
      && (forall e :: today - k <= e < today ==> HasWorkoutOn(ws, e))
      && (k < StreakWindow - 1 ==> !HasWorkoutOn(ws, today - 1 - k))
    ensures !HasWorkoutOn(ws, today) && !HasWorkoutOn(ws, today - 1) ==> Streak(ws, today) == 0
    ensures HasWorkoutOn(ws, today) ==> Streak(ws, today) >= 1
  {
    var k := Run(ws, today - 1, StreakWindow - 1);
    RunIsMaximal(ws, today - 1, StreakWindow - 1);
  }

  /** The calendar days in the 30-day window that have at least one workout. */
  function WindowDays(ws: seq<Workout>, today: int): set<int> {
    set d | today - (StreakWindow - 1) <= d <= today && HasWorkoutOn(ws, d)
  }

  /** The calendar days of all workouts whose date parses. */
  function DaysOf(ws: seq<Workout>): (r: set<int>)
    ensures |r| <= |ws|
    ensures forall d :: d in r <==> HasWorkoutOn(ws, d)
  {
    if ws == [] then {}
    else
      var rest := DaysOf(ws[1..]);
      assert forall d :: HasWorkoutOn(ws, d) <==> OnDay(ws[0], d) || HasWorkoutOn(ws[1..], d) by {
        forall d ensures HasWorkoutOn(ws, d) <==> OnDay(ws[0], d) || HasWorkoutOn(ws[1..], d) {
          if HasWorkoutOn(ws[1..], d) {
            var i :| 0 <= i < |ws[1..]| && OnDay(ws[1..][i], d);
            assert OnDay(ws[i + 1], d);
          }
          if HasWorkoutOn(ws, d) && !OnDay(ws[0], d) {
            var i :| 0 <= i < |ws| && OnDay(ws[i], d);
            assert OnDay(ws[1..][i - 1], d);
          }
        }
      }
      (if ws[0].date.Parsed? then {ws[0].date.day} else {}) + rest
  }

  /** The days `lo` up to, but not including, `hi`. */
  function Range(lo: int, hi: int): (r: set<int>)
    requires lo <= hi
    ensures |r| == hi - lo
    ensures forall d :: d in r <==> lo <= d < hi
    decreases hi - lo
  {
    if lo == hi then {} else Range(lo, hi - 1) + {hi - 1}
  }

  lemma SubsetSize(a: set<int>, b: set<int>)
    requires a <= b
    ensures |a| <= |b|
  {
    assert b == a + (b - a);
  }

  /**
   * A day with several workouts counts once: the streak never exceeds the number of
   * distinct days with a workout in the window, nor the number of workouts.
   */
  lemma StreakAtMostDistinctDays(ws: seq<Workout>, today: int)
    ensures Streak(ws, today) <= |WindowDays(ws, today)|
    ensures |WindowDays(ws, today)| <= |DaysOf(ws)| <= |ws|
  {
    var k := Run(ws, today - 1, StreakWindow - 1);
    RunIsMaximal(ws, today - 1, StreakWindow - 1);
    var counted := (if HasWorkoutOn(ws, today) then {today} else {}) + Range(today - k, today);
    assert (if HasWorkoutOn(ws, today) then {today} else {}) !! Range(today - k, today);
    assert counted <= WindowDays(ws, today);
    SubsetSize(counted, WindowDays(ws, today));
    SubsetSize(WindowDays(ws, today), DaysOf(ws));
  }

  /**
   * The dashboard numbers. `now` is the current instant in milliseconds and `today` its
   * local calendar day; the week starts exactly seven days of milliseconds before `now`.
   */
  method UpdateDashboardStats(workouts: seq<Workout>, now: int, today: int)
    returns (total: nat, week: nat, streak: nat)
    ensures total == |workouts|
    ensures week == |WeekWorkouts(workouts, now - 7 * MsPerDay)| && week <= total
    ensures streak == Streak(workouts, today)
    ensures streak <= StreakWindow && streak <= |WindowDays(workouts, today)| && streak <= total
  {
    total := |workouts|;
    week := |WeekWorkouts(workouts, now - 7 * MsPerDay)|;
    streak := 0;
    for i := 0 to StreakWindow
      invariant i == 0 ==> streak == 0
      invariant i > 0 ==> streak + Run(workouts, today - i, StreakWindow - i) == Streak(workouts, today)
    {
      var hasWorkout := HasWorkoutOn(workouts, today - i);
      if hasWorkout {
        streak := streak + 1;
      } else if i > 0 {
        break;
      }
    }
    StreakAtMostDistinctDays(workouts, today);
  }
}
