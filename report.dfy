/** The read-only figures the timetable generator panel shows
    (components/timetable-generator.tsx): whether generation may be started,
    the badge colour for a course difficulty, the total number of placed
    sessions in a generated grid, and the teacher, course and resource sums. */
module Report {
  import opened Collections
  import opened Entities

  const RedBadge := "bg-red-100 text-red-800"
  const YellowBadge := "bg-yellow-100 text-yellow-800"
  const GreenBadge := "bg-green-100 text-green-800"
  const GrayBadge := "bg-gray-100 text-gray-800"

  /** The generate button is enabled only when all three catalogs are non-empty. */
  predicate CanGenerate(teachers: seq<Teacher>, courses: seq<Course>, resources: seq<Resource>) {
    |teachers| > 0 && |courses| > 0 && |resources| > 0
  }

  /** `getDifficultyColor`: an exact, case-sensitive match on three names. */
  function DifficultyColor(difficulty: string): (r: string)
    ensures difficulty == "high" ==> r == RedBadge
    ensures difficulty == "medium" ==> r == YellowBadge
    ensures difficulty == "low" ==> r == GreenBadge
    ensures r == GrayBadge <==> difficulty !in ["high", "medium", "low"]
  {
    if difficulty == "high" then RedBadge
    else if difficulty == "medium" then YellowBadge
    else if difficulty == "low" then GreenBadge
    else GrayBadge
  }

  /** The colour tells the three difficulties apart. */
  lemma DifficultyColorInjective(a: string, b: string)
    requires a in ["high", "medium", "low"] && b in ["high", "medium", "low"]
    requires DifficultyColor(a) == DifficultyColor(b)
    ensures a == b
  {
  }

  /** Session count of each cell of one day. */
  ghost function CellSizes(row: map<string, seq<Session>>): map<string, int> {
    map s | s in row :: |row[s]|
  }

  /** Sessions of one day: the inner `reduce` over `Object.values(day)`. */
  ghost function DayTotal(row: map<string, seq<Session>>): (r: int)
    ensures r >= 0
  {
    MapSumNonNegative(CellSizes(row));
    MapSum(CellSizes(row))
  }

  /** The "Total Sessions" figure: the outer `reduce` over `Object.values(grid)`. */
  ghost function TotalSessions(grid: Grid): (r: int)
    ensures r >= 0
  {
    var days := map d | d in grid :: DayTotal(grid[d]);
    MapSumNonNegative(days);
    MapSum(days)
  }

  /** Appending one session to one existing cell raises the total by exactly one. */
  lemma TotalSessionsPush(grid: Grid, d: string, s: string, x: Session)
    requires d in grid && s in grid[d]
    ensures TotalSessions(grid[d := grid[d][s := grid[d][s] + [x]]]) == TotalSessions(grid) + 1
  {
    var row := grid[d];
    var row' := row[s := row[s] + [x]];
    assert CellSizes(row') == CellSizes(row)[s := |row[s]| + 1];
    MapSumUpdate(CellSizes(row), s, |row[s]| + 1);
    var grid' := grid[d := row'];
    var days := map e | e in grid :: DayTotal(grid[e]);
    assert (map e | e in grid' :: DayTotal(grid'[e])) == days[d := DayTotal(row')];
    MapSumUpdate(days, d, DayTotal(row'));
  }

  /** A grid whose every cell is empty counts zero sessions. */
  lemma TotalSessionsOfEmpty(grid: Grid)
    requires forall d, s :: d in grid && s in grid[d] ==> grid[d][s] == []
    ensures TotalSessions(grid) == 0
  {
    forall d | d in grid
      ensures DayTotal(grid[d]) == 0
    {
      MapSumZero(CellSizes(grid[d]));
    }
    MapSumZero(map d | d in grid :: DayTotal(grid[d]));
  }

  /** Number of listed slots per day of an availability record. */
  ghost function SlotSizes(a: map<string, seq<string>>): map<string, int> {
    map d | d in a :: |a[d]|
  }

  /** `Object.values(t.availability).flat().length`: every listed slot of
      every day, duplicates included. */
  ghost function SlotCount(t: Teacher): (r: int)
    ensures r >= 0
  {
    MapSumNonNegative(SlotSizes(t.availability));
    MapSum(SlotSizes(t.availability))
  }

  /** The "total time slots" figure of the teachers panel. */
  ghost function TotalTimeSlots(teachers: seq<Teacher>): (r: int)
    ensures r >= 0
    decreases |teachers|
  {
    if teachers == [] then 0
    else TotalTimeSlots(teachers[..|teachers| - 1]) + SlotCount(teachers[|teachers| - 1])
  }

  /** Setting one day's list changes the count by the difference in length. */
  lemma SlotSizesSet(a: map<string, seq<string>>, day: string, v: seq<string>)
    ensures day in a ==> MapSum(SlotSizes(a[day := v])) == MapSum(SlotSizes(a)) - |a[day]| + |v|
    ensures day !in a ==> MapSum(SlotSizes(a[day := v])) == MapSum(SlotSizes(a)) + |v|
  {
    var sizes, sizes' := SlotSizes(a), SlotSizes(a[day := v]);
    if day in a {
      assert sizes' == sizes[day := |v|];
      MapSumUpdate(sizes, day, |v|);
    } else {
      assert sizes' - {day} == sizes;
      MapSumRemove(sizes', day);
    }
  }

  /** A teacher's count grows by one when one slot is added to one day. */
  lemma SlotCountAdd(t: Teacher, day: string, slot: string)
    ensures SlotCount(t.(availability := t.availability[day := AvailableOn(t, day) + [slot]])) == SlotCount(t) + 1
  {
    SlotSizesSet(t.availability, day, AvailableOn(t, day) + [slot]);
  }

  function WeeklyHours(c: Course): int { c.weeklyHours }

  function Capacity(r: Resource): int { r.capacity }

  /** "total weekly hours": the sum of `weeklyHours` over the courses. */
  function TotalWeeklyHours(courses: seq<Course>): int {
    SumOf(courses, WeeklyHours)
  }

  /** "total capacity": the sum of `capacity` over the resources. */
  function TotalCapacity(resources: seq<Resource>): int {
    SumOf(resources, Capacity)
  }

  /** Both sums split over a concatenation of catalogs. */
  lemma TotalsSplit(c1: seq<Course>, c2: seq<Course>, r1: seq<Resource>, r2: seq<Resource>)
    ensures TotalWeeklyHours(c1 + c2) == TotalWeeklyHours(c1) + TotalWeeklyHours(c2)
    ensures TotalCapacity(r1 + r2) == TotalCapacity(r1) + TotalCapacity(r2)
  {
    SumOfAppend(c1, c2, WeeklyHours);
    SumOfAppend(r1, r2, Capacity);
  }

  /** The time-slot figure splits over a concatenation of teacher lists. */
  lemma {:induction false} TotalTimeSlotsSplit(t1: seq<Teacher>, t2: seq<Teacher>)
    ensures TotalTimeSlots(t1 + t2) == TotalTimeSlots(t1) + TotalTimeSlots(t2)
    decreases |t2|
  {
    if t2 == [] {
      assert t1 + t2 == t1;
    } else {
      var n := |t2| - 1;
      assert (t1 + t2)[..|t1 + t2| - 1] == t1 + t2[..n];
      TotalTimeSlotsSplit(t1, t2[..n]);
    }
  }
}
